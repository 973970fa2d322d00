/** Decoding undoes encoding, exactly for the values within the decoder's limits (server/webauthn/cbor.go:44-248). */
module CborProofs {
  import opened Bytes
  import opened Cbor
  import opened Wrappers

  lemma {:induction false} FromToBE(n: nat, k: nat)
    requires n < Pow256(k)
    ensures FromBE(ToBE(n, k)) == n
  {
    if k > 0 {
      FromToBE(n / 256, k - 1);
      assert ToBE(n, k)[..k - 1] == ToBE(n / 256, k - 1);
    }
  }

  lemma Widths()
    ensures Pow256(1) == 0x100 && Pow256(2) == 0x1_0000 && Pow256(4) == 0x1_0000_0000 && Pow256(8) == UINT64
  {
    Pow256Of8();
    PowMonotone(4, 4);
  }

  /** A head is read back, whatever follows it. */
  lemma HeadReads(major: nat, arg: nat, rest: seq<byte>, len: nat)
    requires major < 8 && arg < UINT64
    requires |EncodeHead(major, arg) + rest| <= len
    ensures ReadHead(EncodeHead(major, arg) + rest, len) == Ok((major, arg, rest))
  {
    hide FromBE, ToBE, Pow256;
    Widths();
    if arg < 24 {
      assert (EncodeHead(major, arg) + rest)[1..] == rest;
    } else {
      var k := if arg <= 0xff then 1 else if arg <= 0xffff then 2 else if arg <= 0xffffffff then 4 else 8;
      var low := if k == 1 then 24 else if k == 2 then 25 else if k == 4 then 26 else 27;
      FromToBE(arg, k);
      WideHead(major, low, ToBE(arg, k), rest, len);
    }
  }

  lemma HeadByte(major: nat, low: nat)
    requires major < 8 && low < 32
    ensures (major * 32 + low) / 32 == major && (major * 32 + low) % 32 == low && major * 32 + low < 256
  {
  }

  lemma UnfoldFromBE(s: seq<byte>)
    ensures FromBE(s) == if s == [] then 0 else 256 * FromBE(s[..|s| - 1]) + s[|s| - 1]
  {
  }

  lemma WideHead(major: nat, low: nat, arg: seq<byte>, rest: seq<byte>, len: nat)
    requires major < 8 && 24 <= low <= 27
    requires 1 + |arg| + |rest| <= len
    requires |arg| == if low == 24 then 1 else if low == 25 then 2 else if low == 26 then 4 else 8
    ensures ReadHead([major * 32 + low] + arg + rest, len) == Ok((major, FromBE(arg), rest))
  {
    hide FromBE;
    HeadByte(major, low);
    var s := [major * 32 + low] + arg + rest;
    assert s[0] == major * 32 + low && s[1..] == arg + rest && (arg + rest)[..|arg|] == arg
           && (arg + rest)[|arg|..] == rest;
    if low == 24 {
      UnfoldFromBE([]);
      UnfoldFromBE(arg);
      assert arg[..0] == [];
    }
  }

  // ----- within the limits -----

  /** The values the decoder gives back at a depth. */
  ghost predicate Fits(v: Value, depth: nat)
    decreases v
  {
    && depth <= MAX_DEPTH
    && match v
       case Int(n) => n > -INT64_MAX - 1
       case ByteString(_) => true
       case TextString(_) => true
       case Array(items) => |items| <= MAX_ENTRIES && forall i :: 0 <= i < |items| ==> Fits(v.items[i], depth + 1)
       case Map(entries) =>
         |entries| <= MAX_ENTRIES && forall k :: k in entries ==> FitsKey(k, depth + 1) && Fits(v.entries[k], depth + 1)
  }

  ghost predicate FitsKey(k: Key, depth: nat)
  {
    depth <= MAX_DEPTH && (k.IntKey? ==> k.n > -INT64_MAX - 1)
  }

  ghost predicate OrderOk(order: Order)
  {
    forall all :: Lists(order(all), all)
  }

  ghost function Listing(all: set<Key>): (keys: seq<Key>)
    ensures Lists(keys, all)
    decreases |all|
  {
    if all == {} then []
    else
      var k :| k in all;
      [k] + Listing(all - {k})
  }

  /** There is such an order. */
  lemma OrdersExist()
    ensures exists order: Order :: OrderOk(order)
  {
    var order: Order := all => Listing(all);
    assert OrderOk(order);
  }

  lemma IntReads(n: int, rest: seq<byte>, depth: nat, len: nat)
    requires Int64(n) && depth <= MAX_DEPTH
    requires |EncodeInt(n) + rest| <= len
    ensures Decode(EncodeInt(n) + rest, depth, len) == if n > -INT64_MAX - 1 then Ok((Int(n), rest)) else Err(Malformed)
  {
    hide ReadHead, EncodeHead;
    if n >= 0 { HeadReads(0, n, rest, len); } else { HeadReads(1, -1 - n, rest, len); }
  }

  /** The encoder writes every 64-bit integer; the least of them is the one that the decoder does not take back. */
  lemma LeastInteger()
    ensures forall n :: Int64(n) <==> -0x8000_0000_0000_0000 <= n < 0x8000_0000_0000_0000
    ensures var s := EncodeInt(-0x8000_0000_0000_0000);
            s == [0x3B, 0x7F, 0xFF, 0xFF, 0xFF, 0xFF, 0xFF, 0xFF, 0xFF] && Decode(s, 0, 9) == Err(Malformed)
  {
    hide ReadHead, Decode, ToBE;
    var s := EncodeInt(-INT64_MAX - 1);
    assert s + [] == s;
    IntReads(-INT64_MAX - 1, [], 0, 9);
    assert ToBE(0, 0) == [];
    LastByte(0x7F, 1);
    LastByte(0x7FFF, 2);
    LastByte(0x7FFFFF, 3);
    LastByte(0x7FFFFFFF, 4);
    LastByte(0x7FFFFFFFFF, 5);
    LastByte(0x7FFFFFFFFFFF, 6);
    LastByte(0x7FFFFFFFFFFFFF, 7);
    LastByte(INT64_MAX, 8);
  }

  lemma LastByte(n: nat, k: nat)
    requires k > 0
    ensures ToBE(n, k) == ToBE(n / 256, k - 1) + [n % 256]
  {
  }

  lemma StringReads(major: nat, s: seq<byte>, rest: seq<byte>, depth: nat, len: nat)
    requires 2 <= major <= 3 && |s| <= INT64_MAX && depth <= MAX_DEPTH
    requires |EncodeString(major, s) + rest| <= len
    ensures Decode(EncodeString(major, s) + rest, depth, len)
            == Ok((if major == 2 then ByteString(s) else TextString(s), rest))
  {
    hide ReadHead, EncodeHead, DecodeItems, DecodeEntries;
    HeadReads(major, |s|, s + rest, len);
    assert EncodeString(major, s) + rest == EncodeHead(major, |s|) + (s + rest);
    assert (s + rest)[..|s|] == s && (s + rest)[|s|..] == rest;
  }

  lemma KeyReads(k: Key, rest: seq<byte>, depth: nat, len: nat)
    requires HeldKey(k)
    requires |EncodeKey(k) + rest| <= len
    ensures Decode(EncodeKey(k) + rest, depth, len) == if FitsKey(k, depth) then Ok((KeyValue(k), rest))
            else Err(Malformed)
  {
    hide EncodeInt, EncodeString;
    if depth <= MAX_DEPTH {
      match k {
        case IntKey(n) => IntReads(n, rest, depth, len);
        case TextKey(text) => StringReads(3, text, rest, depth, len);
      }
    } else {
      hide ReadHead;
    }
  }

  /**
   Decoding what was encoded, with anything after it and the map keys in any order, gives the value back and stops
   where its encoding ends if the value is within the limits, and fails if it is not.
   */
  lemma {:induction false} DecodeEncode(order: Order, v: Value, rest: seq<byte>, depth: nat, len: nat)
    requires Held(v) && OrderOk(order)
    requires |Encode(order, v) + rest| <= len
    ensures Decode(Encode(order, v) + rest, depth, len) == if Fits(v, depth) then Ok((v, rest)) else Err(Malformed)
    decreases v, 1, 0
  {
    hide EncodeInt, EncodeString, EncodeHead, ReadHead, DecodeItems, DecodeEntries, OrderOk, HeldKey, FitsKey;
    if depth <= MAX_DEPTH {
      match v {
        case Int(n) => IntReads(n, rest, depth, len);
        case ByteString(bytes) => StringReads(2, bytes, rest, depth, len);
        case TextString(text) => StringReads(3, text, rest, depth, len);
        case Array(items) => ArrayReads(order, v, rest, depth, len);
        case Map(entries) => MapReads(order, v, rest, depth, len);
      }
    }
  }

  lemma {:induction false} ArrayReads(order: Order, v: Value, rest: seq<byte>, depth: nat, len: nat)
    requires v.Array? && Held(v) && OrderOk(order) && depth <= MAX_DEPTH
    requires |Encode(order, v) + rest| <= len
    ensures Decode(Encode(order, v) + rest, depth, len) == if Fits(v, depth) then Ok((v, rest)) else Err(Malformed)
    decreases v, 0, |v.items| + 1
  {
    hide EncodeHead, ReadHead, DecodeItems, DecodeEntries, OrderOk, EncodeItems;
    HeadReads(4, |v.items|, EncodeItems(order, v, 0) + rest, len);
    assert Encode(order, v) + rest == EncodeHead(4, |v.items|) + (EncodeItems(order, v, 0) + rest);
    if |v.items| <= MAX_ENTRIES {
      ItemsRead(order, v, 0, rest, depth + 1, len);
      assert v.items[..0] == [];
      assert (exists j :: 0 <= j < |v.items| && !Fits(v.items[j], depth + 1))
             || forall j :: 0 <= j < |v.items| ==> Fits(v.items[j], depth + 1);
    }
  }

  lemma {:induction false} ItemsRead(order: Order, v: Value, i: nat, rest: seq<byte>, depth: nat, len: nat)
    requires v.Array? && Held(v) && OrderOk(order) && i <= |v.items|
    requires |EncodeItems(order, v, i) + rest| <= len
    ensures DecodeItems(EncodeItems(order, v, i) + rest, depth, |v.items| - i, v.items[..i], len)
            == if forall j :: i <= j < |v.items| ==> Fits(v.items[j], depth) then Ok((v.items, rest))
              else Err(Malformed)
    decreases v, 0, |v.items| - i
  {
    hide Encode, Decode, Fits, OrderOk, Held;
    if i == |v.items| {
      assert EncodeItems(order, v, i) + rest == rest && v.items[..i] == v.items;
    } else {
      ItemHeld(v, i);
      var tail := EncodeItems(order, v, i + 1) + rest;
      assert EncodeItems(order, v, i) + rest == Encode(order, v.items[i]) + tail;
      DecodeEncode(order, v.items[i], tail, depth, len);
      ItemsRead(order, v, i + 1, rest, depth, len);
      assert v.items[..i] + [v.items[i]] == v.items[..i + 1];
    }
  }

  lemma ItemHeld(v: Value, i: nat)
    requires v.Array? && Held(v) && i < |v.items|
    ensures Held(v.items[i])
  {
  }

  /** The entries of the first i keys. */
  ghost function EntriesOf(v: Value, keys: seq<Key>, i: nat): map<Key, Value>
    requires v.Map? && i <= |keys| && forall k :: k in keys ==> k in v.entries
  {
    map k | k in keys[..i] :: v.entries[k]
  }

  lemma {:induction false} MapReads(order: Order, v: Value, rest: seq<byte>, depth: nat, len: nat)
    requires v.Map? && Held(v) && OrderOk(order) && depth <= MAX_DEPTH
    requires |Encode(order, v) + rest| <= len
    ensures Decode(Encode(order, v) + rest, depth, len) == if Fits(v, depth) then Ok((v, rest)) else Err(Malformed)
    decreases v, 0, |v.entries| + 1
  {
    hide EncodeHead, ReadHead, DecodeItems, DecodeEntries, EncodeEntries, FitsKey, HeldKey;
    var keys := order(v.entries.Keys);
    assert Lists(keys, v.entries.Keys);
    var n := |v.entries|;
    HeadReads(5, n, EncodeEntries(order, v, keys, 0) + rest, len);
    assert Encode(order, v) + rest == EncodeHead(5, n) + (EncodeEntries(order, v, keys, 0) + rest);
    if n <= MAX_ENTRIES {
      EntriesRead(order, v, keys, 0, rest, depth + 1, len);
      assert EntriesOf(v, keys, 0) == map[];
      AllEntriesFit(v, keys, depth + 1);
    }
  }

  /** Going through the keys is going through the entries. */
  lemma AllEntriesFit(v: Value, keys: seq<Key>, depth: nat)
    requires v.Map? && Lists(keys, v.entries.Keys)
    ensures (forall j :: 0 <= j < |keys| ==> EntryFits(v, keys, j, depth))
            <==> forall k :: k in v.entries ==> FitsKey(k, depth) && Fits(v.entries[k], depth)
  {
    hide Fits, FitsKey;
    if forall j :: 0 <= j < |keys| ==> EntryFits(v, keys, j, depth) {
      forall k | k in v.entries ensures FitsKey(k, depth) && Fits(v.entries[k], depth)
      {
        assert k in keys;
        var j :| 0 <= j < |keys| && keys[j] == k;
        assert EntryFits(v, keys, j, depth);
      }
    } else {
      var j :| 0 <= j < |keys| && !EntryFits(v, keys, j, depth);
      assert keys[j] in keys;
    }
  }

  ghost predicate EntryFits(v: Value, keys: seq<Key>, j: nat, depth: nat)
    requires v.Map? && j < |keys|
  {
    keys[j] in v.entries && FitsKey(keys[j], depth) && Fits(v.entries[keys[j]], depth)
  }

  lemma EntryHeld(v: Value, k: Key)
    requires v.Map? && Held(v) && k in v.entries
    ensures HeldKey(k) && Held(v.entries[k])
  {
  }

  /** One entry is decoded, if its key and value fit, and decoding goes on with the rest. */
  lemma EntryReads(k: Key, v: Value, text: seq<byte>, tail: seq<byte>, depth: nat, n: nat, so: map<Key, Value>,
                   len: nat)
    requires n > 0 && k !in so && HeldKey(k)
    requires |EncodeKey(k) + (text + tail)| <= len
    requires Decode(EncodeKey(k) + (text + tail), depth, len)
             == if FitsKey(k, depth) then Ok((KeyValue(k), text + tail)) else Err(Malformed)
    requires Decode(text + tail, depth, len) == if Fits(v, depth) then Ok((v, tail)) else Err(Malformed)
    ensures DecodeEntries(EncodeKey(k) + (text + tail), depth, n, so, len)
            == if FitsKey(k, depth) && Fits(v, depth) then DecodeEntries(tail, depth, n - 1, so[k := v], len)
                else Err(Malformed)
  {
    hide Decode, Fits, FitsKey, EncodeKey;
    assert AsKey(KeyValue(k)) == Some(k);
  }

  lemma {:induction false} EntriesRead(order: Order, v: Value, keys: seq<Key>, i: nat, rest: seq<byte>, depth: nat,
                                       len: nat)
    requires v.Map? && Held(v) && OrderOk(order) && Lists(keys, v.entries.Keys) && i <= |keys|
    requires |EncodeEntries(order, v, keys, i) + rest| <= len
    ensures DecodeEntries(EncodeEntries(order, v, keys, i) + rest, depth, |keys| - i, EntriesOf(v, keys, i), len)
            == if forall j :: i <= j < |keys| ==> EntryFits(v, keys, j, depth) then Ok((v.entries, rest))
              else Err(Malformed)
    decreases v, 0, |keys| - i
  {
    hide Encode, Decode, Fits, OrderOk, Held, FitsKey, HeldKey, EncodeKey, DecodeEntries, EncodeEntries, EntriesOf;
    if i == |keys| {
      LastEntries(order, v, keys, rest, depth, len);
    } else {
      var k := keys[i];
      assert k in keys;
      EntryHeld(v, k);
      var tail := EncodeEntries(order, v, keys, i + 1) + rest;
      EntriesText(order, v, keys, i, rest);
      KeyReads(k, Encode(order, v.entries[k]) + tail, depth, len);
      DecodeEncode(order, v.entries[k], tail, depth, len);
      NotYet(v, keys, i);
      EntryReads(k, v.entries[k], Encode(order, v.entries[k]), tail, depth, |keys| - i, EntriesOf(v, keys, i), len);
      EntriesRead(order, v, keys, i + 1, rest, depth, len);
      assert EntryFits(v, keys, i, depth) <==> FitsKey(k, depth) && Fits(v.entries[k], depth);
    }
  }

  lemma EntriesText(order: Order, v: Value, keys: seq<Key>, i: nat, rest: seq<byte>)
    requires v.Map? && Held(v) && i < |keys| && keys[i] in v.entries
    ensures HeldKey(keys[i]) && Held(v.entries[keys[i]])
    ensures EncodeEntries(order, v, keys, i) + rest
            == EncodeKey(keys[i]) + (Encode(order, v.entries[keys[i]]) + (EncodeEntries(order, v, keys, i + 1) + rest))
  {
    hide Encode, EncodeKey;
  }

  lemma LastEntries(order: Order, v: Value, keys: seq<Key>, rest: seq<byte>, depth: nat, len: nat)
    requires v.Map? && Held(v) && Lists(keys, v.entries.Keys)
    requires |EncodeEntries(order, v, keys, |keys|) + rest| <= len
    ensures DecodeEntries(EncodeEntries(order, v, keys, |keys|) + rest, depth, 0, EntriesOf(v, keys, |keys|), len)
            == Ok((v.entries, rest))
  {
    assert EncodeEntries(order, v, keys, |keys|) + rest == rest;
    assert keys[..|keys|] == keys && EntriesOf(v, keys, |keys|) == v.entries;
  }

  lemma NotYet(v: Value, keys: seq<Key>, i: nat)
    requires v.Map? && Lists(keys, v.entries.Keys) && i < |keys|
    ensures keys[i] !in EntriesOf(v, keys, i)
    ensures EntriesOf(v, keys, i + 1) == EntriesOf(v, keys, i)[keys[i] := v.entries[keys[i]]]
  {
    assert keys[..i + 1] == keys[..i] + [keys[i]];
  }

  /** Round trip from the start of the input: the value and exactly the encoded length, if and only if within limits. */
  lemma RoundTripExactlyWithinLimits(order: Order, v: Value, trailing: seq<byte>)
    requires Held(v) && OrderOk(order)
    ensures var s := Encode(order, v) + trailing;
            var r := Decode(s, 0, |s|);
            (r == Ok((v, s[|Encode(order, v)|..])) <==> Fits(v, 0)) && (r == Err(Malformed) <==> !Fits(v, 0))
  {
    hide Decode, Encode, Fits, OrderOk, Held;
    var s := Encode(order, v) + trailing;
    DecodeEncode(order, v, trailing, 0, |s|);
    assert s[|Encode(order, v)|..] == trailing;
  }

  /**
   A string slices out of range if and only if its head announces a length that a signed integer holds, but not after
   the offset is added: then the wrapped sum passes the bounds check.
   */
  lemma StringPanicsExactlyWhen(major: nat, arg: nat, rest: seq<byte>, depth: nat, len: nat)
    requires 2 <= major <= 3 && arg < UINT64 && depth <= MAX_DEPTH
    requires |EncodeHead(major, arg) + rest| <= len <= INT64_MAX
    ensures Decode(EncodeHead(major, arg) + rest, depth, len) == Err(Panic) <==> arg <= INT64_MAX < len - |rest| + arg
  {
    hide ReadHead, EncodeHead, DecodeItems, DecodeEntries;
    HeadReads(major, arg, rest, len);
  }

  /** Nine bytes are enough: the head of a byte string of the largest signed length. */
  lemma NineBytesPanic()
    ensures |EncodeHead(2, INT64_MAX)| == 9 && Decode(EncodeHead(2, INT64_MAX), 0, 9) == Err(Panic)
  {
    assert EncodeHead(2, INT64_MAX) + [] == EncodeHead(2, INT64_MAX);
    StringPanicsExactlyWhen(2, INT64_MAX, [], 0, 9);
  }
}
