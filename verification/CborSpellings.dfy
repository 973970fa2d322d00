/**
 What the CBOR decoder accepts, byte for byte (server/webauthn/cbor.go:45-157; section 3 of RFC 8949): the spellings of
 a value, and that decoding is reading a spelling back.
 */
module CborSpellings {
  import opened Bytes
  import opened Cbor
  import opened Wrappers

  // ----- spellings -----

  /** The low bits of a head's first byte, and the bytes of its argument. */
  datatype Head = Head(low: nat, extra: seq<byte>)

  /**
   An item as it can be written: arguments may take more bytes than they need. The parts of a table are its keys and
   values in turn, in any order of the keys.
   */
  datatype Item =
    | Number(negative: bool, head: Head)
    | String(text: bool, head: Head, bytes: seq<byte>)
    | List(head: Head, items: seq<Item>)
    | Table(head: Head, parts: seq<Item>)

  predicate HeadOk(h: Head)
  {
    || (h.low < 24 && |h.extra| == 0)
    || (h.low == 24 && |h.extra| == 1)
    || (h.low == 25 && |h.extra| == 2)
    || (h.low == 26 && |h.extra| == 4)
    || (h.low == 27 && |h.extra| == 8)
  }

  function FourBytes(a: byte, b: byte, c: byte, d: byte): nat
  {
    0x100_0000 * a + 0x1_0000 * b + 0x100 * c + d
  }

  /** The argument: in the low bits, or in the bytes that follow, the highest first. */
  function Argument(h: Head): nat
    requires HeadOk(h)
  {
    var e := h.extra;
    if |e| == 0 then h.low
    else if |e| == 1 then e[0]
    else if |e| == 2 then 0x100 * e[0] + e[1]
    else if |e| == 4 then FourBytes(e[0], e[1], e[2], e[3])
    else 0x1_0000_0000 * FourBytes(e[0], e[1], e[2], e[3]) + FourBytes(e[4], e[5], e[6], e[7])
  }

  function HeadBytes(major: nat, h: Head): seq<byte>
    requires major < 8 && HeadOk(h)
  {
    [32 * major + h.low] + h.extra
  }

  /** Items that may stand for a key: numbers and text. */
  predicate IsKey(x: Item) { x.Number? || (x.String? && x.text) }

  /** Within the limits at a depth; the keys of a table are numbers or texts and differ as values. */
  predicate Admissible(x: Item, depth: nat)
    decreases x
  {
    && depth <= 8 && HeadOk(x.head)
    && match x
       case Number(negative, head) =>
         Argument(head) <= if negative then 0x7FFF_FFFF_FFFF_FFFE else 0x7FFF_FFFF_FFFF_FFFF
       case String(_, head, bytes) => Argument(head) == |bytes|
       case List(head, items) => Argument(head) == |items| <= 64 && AllAdmissible(items, depth + 1)
       case Table(head, parts) =>
         Argument(head) <= 64 && |parts| == 2 * Argument(head) && AllAdmissible(parts, depth + 1) && Keyed(parts)
  }

  /** Every other part is a key, and no two keys are the same value. */
  predicate Keyed(parts: seq<Item>)
  {
    && (forall i :: 0 <= i < |parts| && i % 2 == 0 ==> IsKey(parts[i]))
    && forall i, j :: 0 <= i < j < |parts| && i % 2 == 0 && j % 2 == 0 ==> KeyOf(parts[i]) != KeyOf(parts[j])
  }

  predicate AllAdmissible(items: seq<Item>, depth: nat)
    decreases items
  {
    items == [] || (Admissible(items[0], depth) && AllAdmissible(items[1..], depth))
  }

  /** The bytes of an item. */
  function Show(x: Item, depth: nat): seq<byte>
    requires Admissible(x, depth)
    decreases x
  {
    match x
    case Number(negative, head) => HeadBytes(if negative then 1 else 0, head)
    case String(text, head, bytes) => HeadBytes(if text then 3 else 2, head) + bytes
    case List(head, items) => HeadBytes(4, head) + ShowAll(items, depth + 1)
    case Table(head, parts) => HeadBytes(5, head) + ShowAll(parts, depth + 1)
  }

  function ShowAll(items: seq<Item>, depth: nat): seq<byte>
    requires AllAdmissible(items, depth)
    decreases items
  {
    if items == [] then [] else Show(items[0], depth) + ShowAll(items[1..], depth)
  }

  function NumberOf(negative: bool, head: Head): int
  {
    if !HeadOk(head) then 0 else if negative then -1 - Argument(head) else Argument(head)
  }

  function KeyOf(x: Item): Key
  {
    match x
    case Number(negative, head) => IntKey(NumberOf(negative, head))
    case String(_, _, bytes) => TextKey(bytes)
    case _ => TextKey([])
  }

  /** What an item stands for. */
  function Meaning(x: Item): Value
    decreases x
  {
    match x
    case Number(negative, head) => Int(NumberOf(negative, head))
    case String(text, _, bytes) => if text then TextString(bytes) else ByteString(bytes)
    case List(_, items) => Array(Meanings(items))
    case Table(_, parts) => Map(Filled(parts, map[]))
  }

  function Meanings(items: seq<Item>): (r: seq<Value>)
    ensures |r| == |items|
    decreases items
  {
    if items == [] then [] else [Meaning(items[0])] + Meanings(items[1..])
  }

  function Filled(parts: seq<Item>, so: map<Key, Value>): map<Key, Value>
    decreases parts
  {
    if |parts| < 2 then so else Filled(parts[2..], so[KeyOf(parts[0]) := Meaning(parts[1])])
  }

  // ----- heads -----

  lemma ArgumentIs(h: Head)
    requires HeadOk(h) && h.extra != []
    ensures FromBE(h.extra) == Argument(h)
  {
    var e := h.extra;
    FromBytes(e);
    if |e| == 8 {
      FromBytes(e[..4]);
      var a, b, c, d := e[..7], e[..6], e[..5], e[..4];
      assert a[..6] == b && b[..5] == c && c[..4] == d;
      Unfold(e);
      Unfold(a);
      Unfold(b);
      Unfold(c);
    }
  }

  lemma Unfold(s: seq<byte>)
    ensures FromBE(s) == if s == [] then 0 else 256 * FromBE(s[..|s| - 1]) + s[|s| - 1]
  {
  }

  lemma FromBytes(s: seq<byte>)
    ensures |s| == 1 ==> FromBE(s) == s[0]
    ensures |s| == 2 ==> FromBE(s) == 0x100 * (s[0] as int) + s[1]
    ensures |s| == 4 ==> FromBE(s) == FourBytes(s[0], s[1], s[2], s[3])
  {
    hide FromBE;
    Unfold([]);
    if |s| == 1 {
      Unfold(s);
      assert s[..0] == [];
    } else if |s| == 2 {
      FromBytes(s[..1]);
      Unfold(s);
    } else if |s| == 4 {
      FromBytes(s[..2]);
      assert s[..3][..2] == s[..2];
      Unfold(s[..3]);
      Unfold(s);
    }
  }

  /** A head that is well written is read, whatever follows it. */
  lemma HeadReads(major: nat, h: Head, rest: seq<byte>, len: nat)
    requires major < 8 && HeadOk(h) && |HeadBytes(major, h) + rest| <= len
    ensures ReadHead(HeadBytes(major, h) + rest, len) == Ok((major, Argument(h), rest))
  {
    hide FromBE, FourBytes;
    var s := HeadBytes(major, h) + rest;
    assert s[0] / 32 == major && s[0] % 32 == h.low;
    assert s[1..] == h.extra + rest;
    assert (h.extra + rest)[..|h.extra|] == h.extra && (h.extra + rest)[|h.extra|..] == rest;
    if h.extra != [] { ArgumentIs(h); FromBytes(h.extra); }
  }

  function Width(low: nat): nat
  {
    if low < 24 then 0 else if low == 24 then 1 else if low == 25 then 2 else if low == 26 then 4 else 8
  }

  lemma ArgRead(low: nat, s: seq<byte>, len: nat)
    requires low < 32 && |s| <= len && ReadArg(low, s, len).Ok?
    ensures Width(low) <= |s| && HeadOk(Head(low, s[..Width(low)]))
    ensures ReadArg(low, s, len).value == (Argument(Head(low, s[..Width(low)])), s[Width(low)..])
  {
    hide FromBE, FourBytes;
    var h := Head(low, s[..Width(low)]);
    if low >= 24 {
      ArgumentIs(h);
      FromBytes(h.extra);
    }
  }

  /** What is read as a head is a well written one. */
  lemma HeadRead(s: seq<byte>, len: nat) returns (h: Head)
    requires |s| <= len && ReadHead(s, len).Ok?
    ensures var (major, arg, rest) := ReadHead(s, len).value;
            HeadOk(h) && s == HeadBytes(major, h) + rest && arg == Argument(h)
  {
    hide ReadArg, Argument, HeadOk;
    var low := s[0] % 32;
    ArgRead(low, s[1..], len);
    h := Head(low, s[1..][..Width(low)]);
    assert s == [s[0]] + (s[1..][..Width(low)] + s[1..][Width(low)..]);
    assert s[0] == 32 * (s[0] / 32) + low;
  }

  // ----- reading a spelling -----

  lemma {:induction false} SpellingReads(x: Item, rest: seq<byte>, depth: nat, len: nat)
    requires Admissible(x, depth) && |Show(x, depth) + rest| <= len
    ensures Decode(Show(x, depth) + rest, depth, len) == Ok((Meaning(x), rest))
    decreases x, 1
  {
    hide ReadHead, DecodeItems, DecodeEntries, Argument, HeadBytes, ShowAll, Meanings, Filled,
      AllAdmissible, Keyed;
    var s := Show(x, depth) + rest;
    match x {
      case Number(negative, head) => HeadReads(if negative then 1 else 0, head, rest, len);
      case String(text, head, bytes) =>
        HeadReads(if text then 3 else 2, head, bytes + rest, len);
        assert s == HeadBytes(if text then 3 else 2, head) + (bytes + rest);
        assert (bytes + rest)[..|bytes|] == bytes && (bytes + rest)[|bytes|..] == rest;
      case List(head, items) =>
        HeadReads(4, head, ShowAll(items, depth + 1) + rest, len);
        assert s == HeadBytes(4, head) + (ShowAll(items, depth + 1) + rest);
        ItemsRead(items, rest, depth + 1, [], len);
        assert [] + Meanings(items) == Meanings(items);
      case Table(head, parts) =>
        HeadReads(5, head, ShowAll(parts, depth + 1) + rest, len);
        assert s == HeadBytes(5, head) + (ShowAll(parts, depth + 1) + rest);
        KeysAreNew(parts);
        EntriesRead(parts, rest, depth + 1, map[], len);
    }
  }

  lemma {:induction false} ItemsRead(items: seq<Item>, rest: seq<byte>, depth: nat, so: seq<Value>, len: nat)
    requires AllAdmissible(items, depth) && |ShowAll(items, depth) + rest| <= len
    ensures DecodeItems(ShowAll(items, depth) + rest, depth, |items|, so, len) == Ok((so + Meanings(items), rest))
    decreases items, 0
  {
    hide Decode, Show, Meaning, Admissible;
    if items == [] {
      assert ShowAll(items, depth) + rest == rest && so + Meanings(items) == so;
    } else {
      var tail := ShowAll(items[1..], depth) + rest;
      var v := Meaning(items[0]);
      assert ShowAll(items, depth) + rest == Show(items[0], depth) + tail;
      SpellingReads(items[0], tail, depth, len);
      ItemsRead(items[1..], rest, depth, so + [v], len);
      assert so + [v] + Meanings(items[1..]) == so + Meanings(items);
    }
  }

  /** Every other part is a key that is not there already, and no key is there twice. */
  ghost predicate NewKeys(parts: seq<Item>, so: map<Key, Value>)
  {
    Keyed(parts) && forall i :: 0 <= i < |parts| && i % 2 == 0 ==> KeyOf(parts[i]) !in so
  }

  lemma KeysAreNew(parts: seq<Item>)
    requires Keyed(parts)
    ensures NewKeys(parts, map[])
  {
  }

  /** The first entry, and the rest. */
  lemma FirstEntry(parts: seq<Item>, so: map<Key, Value>, v: Value)
    requires |parts| >= 2
    ensures NewKeys(parts, so) <==>
            IsKey(parts[0]) && KeyOf(parts[0]) !in so && NewKeys(parts[2..], so[KeyOf(parts[0]) := v])
  {
    hide KeyOf, IsKey;
    var k, rest := KeyOf(parts[0]), parts[2..];
    if IsKey(parts[0]) && k !in so && NewKeys(rest, so[k := v]) {
      forall i | 0 < i < |parts| && i % 2 == 0
        ensures IsKey(parts[i]) && KeyOf(parts[i]) !in so && KeyOf(parts[i]) != k
      {
        assert parts[i] == rest[i - 2];
      }
      forall i, j | 0 < i < j < |parts| && i % 2 == 0 && j % 2 == 0 ensures KeyOf(parts[i]) != KeyOf(parts[j])
      {
        assert parts[i] == rest[i - 2] && parts[j] == rest[j - 2];
      }
    } else if NewKeys(parts, so) {
      forall i | 0 <= i < |rest| && i % 2 == 0
        ensures IsKey(rest[i]) && KeyOf(rest[i]) !in so && KeyOf(rest[i]) != k
      {
        assert rest[i] == parts[i + 2];
      }
    }
  }

  /** The parts of one entry come first. */
  lemma FirstParts(parts: seq<Item>, depth: nat)
    requires |parts| >= 2
    ensures AllAdmissible(parts, depth)
            <==> Admissible(parts[0], depth) && Admissible(parts[1], depth) && AllAdmissible(parts[2..], depth)
    ensures AllAdmissible(parts, depth) ==>
              ShowAll(parts, depth) == Show(parts[0], depth) + Show(parts[1], depth) + ShowAll(parts[2..], depth)
  {
    hide Admissible, Show;
    assert parts[1..][0] == parts[1] && parts[1..][1..] == parts[2..];
  }

  lemma {:induction false} EntriesRead(parts: seq<Item>, rest: seq<byte>, depth: nat, so: map<Key, Value>, len: nat)
    requires |parts| % 2 == 0 && AllAdmissible(parts, depth) && NewKeys(parts, so)
    requires |ShowAll(parts, depth) + rest| <= len
    ensures DecodeEntries(ShowAll(parts, depth) + rest, depth, |parts| / 2, so, len) == Ok((Filled(parts, so), rest))
    decreases parts, 0
  {
    hide Decode, Show, Meaning, KeyOf, AsKey, Admissible, IsKey, NewKeys, AllAdmissible;
    if parts == [] {
      assert ShowAll(parts, depth) + rest == rest;
    } else {
      FirstParts(parts, depth);
      var k, x := parts[0], parts[1];
      var next := so[KeyOf(k) := Meaning(x)];
      FirstEntry(parts, so, Meaning(x));
      var tail := ShowAll(parts[2..], depth) + rest;
      var after := Show(x, depth) + tail;
      assert ShowAll(parts, depth) + rest == Show(k, depth) + after;
      SpellingReads(k, after, depth, len);
      SpellingReads(x, tail, depth, len);
      KeyIs(k);
      EntriesRead(parts[2..], rest, depth, next, len);
      OneEntry(Show(k, depth) + after, depth, |parts| / 2, so, len, Meaning(k), after, Meaning(x), tail);
    }
  }

  /** The entry at the front is decoded, and decoding goes on with the rest. */
  lemma OneEntry(s: seq<byte>, depth: nat, n: nat, so: map<Key, Value>, len: nat, k: Value, after: seq<byte>,
                 v: Value, tail: seq<byte>)
    requires |s| <= len && n > 0 && Decode(s, depth, len) == Ok((k, after)) && |after| <= len
    requires Decode(after, depth, len) == Ok((v, tail)) && |tail| <= len
    requires AsKey(k).Some? && AsKey(k).value !in so
    ensures DecodeEntries(s, depth, n, so, len) == DecodeEntries(tail, depth, n - 1, so[AsKey(k).value := v], len)
  {
    hide Decode, AsKey;
  }

  lemma KeyIs(x: Item)
    ensures AsKey(Meaning(x)) == if IsKey(x) then Some(KeyOf(x)) else None
  {
  }

  // ----- finding the spelling -----

  lemma {:induction false} SpellingOf(s: seq<byte>, depth: nat, len: nat) returns (x: Item)
    requires |s| <= len && Decode(s, depth, len).Ok?
    ensures Admissible(x, depth)
    ensures Decode(s, depth, len).value.0 == Meaning(x) && s == Show(x, depth) + Decode(s, depth, len).value.1
    decreases |s|, 1, 0
  {
    hide ReadHead, DecodeItems, DecodeEntries, Argument, HeadBytes, ShowAll, Meanings, Filled,
      AllAdmissible, Keyed;
    var (v, end) := Decode(s, depth, len).value;
    var h := HeadRead(s, len);
    var (major, arg, rest) := ReadHead(s, len).value;
    if major < 2 {
      x := Number(major == 1, h);
    } else if major < 4 {
      x := String(major == 3, h, rest[..arg]);
      assert s == HeadBytes(major, h) + rest[..arg] + rest[arg..];
    } else if major == 4 {
      var items := ItemsOf(rest, depth + 1, arg, [], len);
      x := List(h, items);
      assert s == HeadBytes(4, h) + ShowAll(items, depth + 1) + end;
    } else {
      var parts := EntriesOf(rest, depth + 1, arg, map[], len);
      x := Table(h, parts);
      assert NewKeys(parts, map[]) ==> Keyed(parts);
      assert s == HeadBytes(5, h) + ShowAll(parts, depth + 1) + end;
    }
  }

  lemma {:induction false} ItemsOf(s: seq<byte>, depth: nat, n: nat, so: seq<Value>, len: nat)
    returns (items: seq<Item>)
    requires |s| <= len && DecodeItems(s, depth, n, so, len).Ok?
    ensures |items| == n && AllAdmissible(items, depth)
    ensures DecodeItems(s, depth, n, so, len).value.0 == so + Meanings(items)
    ensures s == ShowAll(items, depth) + DecodeItems(s, depth, n, so, len).value.1
    decreases |s|, 2, n
  {
    hide Decode, Show, Meaning, Admissible;
    if n == 0 {
      items := [];
    } else {
      var x := SpellingOf(s, depth, len);
      var (v, rest) := Decode(s, depth, len).value;
      var more := ItemsOf(rest, depth, n - 1, so + [v], len);
      items := [x] + more;
      assert items[1..] == more;
      assert so + [v] + Meanings(more) == so + Meanings(items);
    }
  }

  lemma {:induction false} EntriesOf(s: seq<byte>, depth: nat, n: nat, so: map<Key, Value>, len: nat)
    returns (parts: seq<Item>)
    requires |s| <= len && DecodeEntries(s, depth, n, so, len).Ok?
    ensures |parts| == 2 * n && AllAdmissible(parts, depth) && NewKeys(parts, so)
    ensures DecodeEntries(s, depth, n, so, len).value.0 == Filled(parts, so)
    ensures s == ShowAll(parts, depth) + DecodeEntries(s, depth, n, so, len).value.1
    decreases |s|, 2, n
  {
    hide Decode, Show, Meaning, Admissible, KeyOf, IsKey, AsKey, AllAdmissible;
    if n == 0 {
      parts := [];
      Nothing(depth);
    } else {
      var k := SpellingOf(s, depth, len);
      KeyIs(k);
      var (key, rest) := Decode(s, depth, len).value;
      var x := SpellingOf(rest, depth, len);
      var (v, tail) := Decode(rest, depth, len).value;
      OneEntry(s, depth, n, so, len, key, rest, v, tail);
      var more := EntriesOf(tail, depth, n - 1, so[KeyOf(k) := v], len);
      parts := [k, x] + more;
      assert parts[2..] == more;
      FirstParts(parts, depth);
      FirstEntry(parts, so, v);
    }
  }

  lemma Nothing(depth: nat)
    ensures AllAdmissible([], depth) && ShowAll([], depth) == []
  {
  }

  // ----- the results -----

  /** Decoding gives a value and what follows it if and only if the input starts with a spelling of that value. */
  lemma DecodesExactlyWhenSpelled(s: seq<byte>, v: Value, rest: seq<byte>, depth: nat, len: nat)
    requires |s| <= len
    ensures Decode(s, depth, len) == Ok((v, rest))
            <==> exists x :: Admissible(x, depth) && Meaning(x) == v && s == Show(x, depth) + rest
  {
    hide Decode, Admissible, Meaning, Show;
    if Decode(s, depth, len) == Ok((v, rest)) {
      var x := SpellingOf(s, depth, len);
    }
    forall x | Admissible(x, depth) && Meaning(x) == v && s == Show(x, depth) + rest
      ensures Decode(s, depth, len) == Ok((v, rest))
    {
      SpellingReads(x, rest, depth, len);
    }
  }

  /** No spelling is the beginning of another one. */
  lemma SpellingsAreDistinct(x: Item, y: Item, p: seq<byte>, q: seq<byte>, depth: nat)
    requires Admissible(x, depth) && Admissible(y, depth) && Show(x, depth) + p == Show(y, depth) + q
    ensures Show(x, depth) == Show(y, depth) && Meaning(x) == Meaning(y) && p == q
  {
    hide Decode, Admissible, Meaning, Show;
    var s := Show(x, depth) + p;
    SpellingReads(x, p, depth, |s|);
    SpellingReads(y, q, depth, |s|);
    assert Show(x, depth) == s[..|s| - |p|] == Show(y, depth);
  }

  /** A head is written in the shortest of its spellings. */
  lemma ShortestHead(major: nat, arg: nat)
    requires major < 8 && arg < UINT64
    ensures |EncodeHead(major, arg)|
            == if arg < 24 then 1 else if arg < 0x100 then 2 else if arg < 0x1_0000 then 3
               else if arg < 0x1_0000_0000 then 5 else 9
    ensures forall h :: HeadOk(h) && Argument(h) == arg ==> |EncodeHead(major, arg)| <= |HeadBytes(major, h)|
  {
    hide ToBE;
  }

  /** The entries of a table, by their keys: each has the value that follows it, and there are no others. */
  lemma {:induction false} FilledIs(parts: seq<Item>, so: map<Key, Value>, k: Key)
    requires NewKeys(parts, so) && |parts| % 2 == 0
    ensures forall i :: 0 <= i < |parts| && i % 2 == 0 && KeyOf(parts[i]) == k ==>
              k in Filled(parts, so) && Filled(parts, so)[k] == Meaning(parts[i + 1])
    ensures (forall i :: 0 <= i < |parts| && i % 2 == 0 ==> KeyOf(parts[i]) != k) ==>
              (k in Filled(parts, so) <==> k in so) && (k in so ==> Filled(parts, so)[k] == so[k])
  {
    hide KeyOf, Meaning, IsKey;
    if parts != [] {
      var rest, next := parts[2..], so[KeyOf(parts[0]) := Meaning(parts[1])];
      FirstEntry(parts, so, Meaning(parts[1]));
      FilledIs(rest, next, k);
      forall i | 0 < i < |parts| && i % 2 == 0 ensures parts[i] == rest[i - 2] && parts[i + 1] == rest[i - 1] {}
      forall i | 0 <= i < |rest| && i % 2 == 0 ensures rest[i] == parts[i + 2] {}
    }
  }
}
