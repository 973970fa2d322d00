/** The CBOR subset (server/webauthn/cbor.go; section 3 of RFC 8949): heads, integers, strings, arrays and maps. */
module Cbor {
  import opened Bytes
  import opened Wrappers

  /** A map key: an integer or a text string. */
  datatype Key = IntKey(n: int) | TextKey(text: seq<byte>)

  datatype Value = Int(n: int) | ByteString(bytes: seq<byte>) | TextString(text: seq<byte>)
                 | Array(items: seq<Value>) | Map(entries: map<Key, Value>)

  const INT64_MAX := 0x7FFF_FFFF_FFFF_FFFF
  const UINT64 := 0x1_0000_0000_0000_0000
  const MAX_DEPTH := 8
  const MAX_ENTRIES := 64

  /** In which order the keys of a map are written. */
  type Order = set<Key> -> seq<Key>

  function ToBE(n: nat, k: nat): (s: seq<byte>)
    ensures |s| == k
  {
    if k == 0 then [] else ToBE(n / 256, k - 1) + [n % 256]
  }

  function FromBE(s: seq<byte>): nat
  {
    if s == [] then 0 else 256 * FromBE(s[..|s| - 1]) + s[|s| - 1]
  }

  // ----- encoding -----

  function EncodeHead(major: nat, arg: nat): seq<byte>
    requires major < 8 && arg < UINT64
  {
    if arg < 24 then [major * 32 + arg]
    else if arg <= 0xff then [major * 32 + 24] + ToBE(arg, 1)
    else if arg <= 0xffff then [major * 32 + 25] + ToBE(arg, 2)
    else if arg <= 0xffffffff then [major * 32 + 26] + ToBE(arg, 4)
    else [major * 32 + 27] + ToBE(arg, 8)
  }

  function KeyValue(k: Key): Value
  {
    match k
    case IntKey(n) => Int(n)
    case TextKey(text) => TextString(text)
  }

  predicate Int64(n: int) { -INT64_MAX - 1 <= n <= INT64_MAX }

  /** What a program can hold: 64-bit integers, and lengths that fit them. */
  ghost predicate Held(v: Value)
  {
    match v
    case Int(n) => Int64(n)
    case ByteString(bytes) => |bytes| <= INT64_MAX
    case TextString(text) => |text| <= INT64_MAX
    case Array(items) => |items| <= INT64_MAX && forall i :: 0 <= i < |items| ==> Held(v.items[i])
    case Map(entries) => |entries| <= INT64_MAX && forall k :: k in entries ==> HeldKey(k) && Held(v.entries[k])
  }

  ghost predicate HeldKey(k: Key)
  {
    match k
    case IntKey(n) => Int64(n)
    case TextKey(text) => |text| <= INT64_MAX
  }

  ghost predicate Lists(keys: seq<Key>, all: set<Key>)
  {
    && |keys| == |all| && (forall k :: k in keys <==> k in all)
    && forall i, j :: 0 <= i < j < |keys| ==> keys[i] != keys[j]
  }

  function EncodeInt(n: int): seq<byte>
    requires Int64(n)
  {
    if n >= 0 then EncodeHead(0, n) else EncodeHead(1, -1 - n)
  }

  function EncodeString(major: nat, s: seq<byte>): seq<byte>
    requires major < 8 && |s| <= INT64_MAX
  {
    EncodeHead(major, |s|) + s
  }

  function EncodeKey(k: Key): seq<byte>
    requires HeldKey(k)
  {
    match k
    case IntKey(n) => EncodeInt(n)
    case TextKey(text) => EncodeString(3, text)
  }

  ghost function Encode(order: Order, v: Value): seq<byte>
    requires Held(v)
    decreases v, 1, 0
  {
    match v
    case Int(n) => EncodeInt(n)
    case ByteString(bytes) => EncodeString(2, bytes)
    case TextString(text) => EncodeString(3, text)
    case Array(items) => EncodeHead(4, |items|) + EncodeItems(order, v, 0)
    case Map(entries) => EncodeHead(5, |entries|) + EncodeEntries(order, v, order(entries.Keys), 0)
  }

  /** The items from the i-th on. */
  ghost function EncodeItems(order: Order, v: Value, i: nat): seq<byte>
    requires v.Array? && Held(v) && i <= |v.items|
    decreases v, 0, |v.items| - i
  {
    if i == |v.items| then [] else Encode(order, v.items[i]) + EncodeItems(order, v, i + 1)
  }

  /** The entries from the i-th key on. */
  ghost function EncodeEntries(order: Order, v: Value, keys: seq<Key>, i: nat): seq<byte>
    requires v.Map? && Held(v)
    decreases v, 0, |keys| - i
  {
    if i >= |keys| then []
    else if keys[i] !in v.entries then EncodeEntries(order, v, keys, i + 1)
    else EncodeKey(keys[i]) + Encode(order, v.entries[keys[i]]) + EncodeEntries(order, v, keys, i + 1)
  }

  /** appendCBORHead. */
  method AppendHead(out: seq<byte>, major: nat, arg: nat) returns (r: seq<byte>)
    requires major < 8 && arg < UINT64
    ensures r == out + EncodeHead(major, arg)
  {
    hide ToBE;
    if arg < 24 { return out + [major * 32 + arg]; }
    if arg <= 0xff { return out + ([major * 32 + 24] + ToBE(arg, 1)); }
    if arg <= 0xffff { return out + ([major * 32 + 25] + ToBE(arg, 2)); }
    if arg <= 0xffffffff { return out + ([major * 32 + 26] + ToBE(arg, 4)); }
    return out + ([major * 32 + 27] + ToBE(arg, 8));
  }

  // ----- decoding -----

  /** A refusal, or a slice out of range. */
  datatype Failure = Malformed | Panic

  /** A sum or conversion as a 64-bit signed integer holds it. */
  function Wrap(n: nat): int
    requires n < 2 * UINT64
  {
    var m := n % UINT64;
    if m > INT64_MAX then m - UINT64 else m
  }

  /**
   arg bytes of the len of an input of which s is left, and what follows them. An argument that does not fit a signed
   integer is refused; one that fits, but not when the offset is added to it, passes the bounds check and panics.
   */
  function Taken(arg: nat, s: seq<byte>, len: nat): (r: Result<(seq<byte>, seq<byte>), Failure>)
    requires |s| <= len
    ensures r.Ok? ==> |r.value.0| == arg && s == r.value.0 + r.value.1
  {
    if arg <= |s| then Ok((s[..arg], s[arg..]))
    else if arg <= INT64_MAX < len - |s| + arg then Err(Panic)
    else Err(Malformed)
  }

  /** The argument that a head's low bits announce, and what follows it. */
  function ReadArg(low: nat, s: seq<byte>, len: nat): (r: Result<(nat, seq<byte>), Failure>)
    requires low < 32 && |s| <= len
    ensures r.Ok? ==> |r.value.1| <= |s|
  {
    if low < 24 then Ok((low, s))
    else if low > 27 then Err(Malformed)
    else if low == 24 then if s == [] then Err(Malformed) else Ok((s[0], s[1..]))
    else
      match Taken(if low == 25 then 2 else if low == 26 then 4 else 8, s, len)
      case Err(e) => Err(e)
      case Ok((bytes, rest)) => Ok((FromBE(bytes), rest))
  }

  function ReadHead(s: seq<byte>, len: nat): (r: Result<(nat, nat, seq<byte>), Failure>)
    requires |s| <= len
    ensures r.Ok? ==> r.value.0 < 8 && |r.value.2| < |s|
  {
    if s == [] then Err(Malformed)
    else
      match ReadArg(s[0] % 32, s[1..], len)
      case Err(e) => Err(e)
      case Ok((arg, rest)) => Ok((s[0] / 32, arg, rest))
  }

  /** One item at a depth, of an input of len bytes of which s is left, and what follows it. */
  function Decode(s: seq<byte>, depth: nat, len: nat): (r: Result<(Value, seq<byte>), Failure>)
    requires |s| <= len
    ensures r.Ok? ==> |r.value.1| < |s|
    decreases |s|, 1, 0
  {
    if depth > MAX_DEPTH then Err(Malformed)
    else
      match ReadHead(s, len)
      case Err(e) => Err(e)
      case Ok((major, arg, rest)) =>
        if major == 0 then if arg > INT64_MAX then Err(Malformed) else Ok((Int(arg), rest))
        else if major == 1 then if arg > INT64_MAX - 1 then Err(Malformed) else Ok((Int(-1 - arg), rest))
        else if major == 2 || major == 3 then
          (match Taken(arg, rest, len)
           case Err(e) => Err(e)
           case Ok((bytes, end)) => Ok((if major == 2 then ByteString(bytes) else TextString(bytes), end)))
        else if major == 4 then
          if arg > MAX_ENTRIES then Err(Malformed)
          else
            (match DecodeItems(rest, depth + 1, arg, [], len)
             case Err(e) => Err(e)
             case Ok((items, end)) => Ok((Array(items), end)))
        else if major == 5 then
          if arg > MAX_ENTRIES then Err(Malformed)
          else
            (match DecodeEntries(rest, depth + 1, arg, map[], len)
             case Err(e) => Err(e)
             case Ok((entries, end)) => Ok((Map(entries), end)))
        else Err(Malformed)
  }

  /** n more items after those decoded so far. */
  function DecodeItems(s: seq<byte>, depth: nat, n: nat, so: seq<Value>, len: nat)
    : (r: Result<(seq<Value>, seq<byte>), Failure>)
    requires |s| <= len
    ensures r.Ok? ==> |r.value.1| <= |s|
    decreases |s|, 2, n
  {
    if n == 0 then Ok((so, s))
    else
      match Decode(s, depth, len)
      case Err(e) => Err(e)
      case Ok((v, rest)) => DecodeItems(rest, depth, n - 1, so + [v], len)
  }

  function AsKey(v: Value): Option<Key>
  {
    match v
    case Int(n) => Some(IntKey(n))
    case TextString(text) => Some(TextKey(text))
    case _ => None
  }

  /** n more entries over those decoded so far; a key of another kind or a repeated one fails. */
  function DecodeEntries(s: seq<byte>, depth: nat, n: nat, so: map<Key, Value>, len: nat)
    : (r: Result<(map<Key, Value>, seq<byte>), Failure>)
    requires |s| <= len
    ensures r.Ok? ==> |r.value.1| <= |s|
    decreases |s|, 2, n
  {
    if n == 0 then Ok((so, s))
    else
      match Decode(s, depth, len)
      case Err(e) => Err(e)
      case Ok((k, rest)) =>
        if AsKey(k).None? || AsKey(k).value in so then Err(Malformed)
        else
          match Decode(rest, depth, len)
          case Err(e) => Err(e)
          case Ok((v, more)) => DecodeEntries(more, depth, n - 1, so[AsKey(k).value := v], len)
  }

  /** The decoder with its offset into the input, which is no longer than a signed integer counts. */
  class Decoder {
    const b: seq<byte>
    var off: nat

    predicate Valid()
      reads this
    {
      off <= |b| <= INT64_MAX
    }

    function Rest(): seq<byte>
      requires Valid()
      reads this
    {
      b[off..]
    }

    constructor (b: seq<byte>)
      requires |b| <= INT64_MAX
      ensures this.b == b && off == 0 && Valid()
    {
      this.b, off := b, 0;
    }

    /** take, after the conversion of its argument, in 64-bit arithmetic. */
    method Take(arg: nat) returns (r: Result<seq<byte>, Failure>)
      requires Valid() && arg < UINT64
      modifies this
      ensures Valid() && old(off) <= off
      ensures match Taken(arg, old(Rest()), |b|)
              case Ok((bytes, rest)) => r == Ok(bytes) && Rest() == rest
              case Err(e) => r == Err(e)
    {
      var n := Wrap(arg);
      if n < 0 || Wrap(off + arg) > |b| { return Err(Malformed); }
      if Wrap(off + arg) < off { return Err(Panic); }
      r := Ok(b[off..off + n]);
      assert b[off..][n..] == b[off + n..] && b[off..][..n] == b[off..off + n];
      off := off + n;
    }

    method Head() returns (r: Result<(nat, nat), Failure>)
      requires Valid()
      modifies this
      ensures Valid() && old(off) <= off
      ensures match ReadHead(old(Rest()), |b|)
              case Ok((major, arg, rest)) => r == Ok((major, arg)) && Rest() == rest && old(off) < off && arg < UINT64
              case Err(e) => r == Err(e)
    {
      hide FromBE;
      if off >= |b| { return Err(Malformed); }
      var ib := b[off];
      assert b[off..][1..] == b[off + 1..];
      off := off + 1;
      var major, low := ib / 32, ib % 32;
      if low < 24 { return Ok((major, low)); }
      if low > 27 { return Err(Malformed); }
      if low == 24 {
        if off >= |b| { return Err(Malformed); }
        assert b[off..][1..] == b[off + 1..];
        off := off + 1;
        return Ok((major, b[off - 1]));
      }
      var arg := Take(if low == 25 then 2 else if low == 26 then 4 else 8);
      if arg.Err? { return Err(arg.error); }
      FromBEBound(arg.value);
      return Ok((major, FromBE(arg.value)));
    }

    method Item(depth: nat) returns (r: Result<Value, Failure>)
      requires Valid()
      modifies this
      ensures Valid() && old(off) <= off && (r.Ok? ==> old(off) < off)
      ensures match Decode(old(Rest()), depth, |b|)
              case Ok((v, rest)) => r == Ok(v) && Rest() == rest
              case Err(e) => r == Err(e)
      decreases |b| - off, 1, 0
    {
      hide ReadHead, DecodeItems, DecodeEntries, Taken;
      if depth > MAX_DEPTH { return Err(Malformed); }
      var head := Head();
      if head.Err? { return Err(head.error); }
      var (major, arg) := head.value;
      if major == 0 { return if arg > INT64_MAX then Err(Malformed) else Ok(Int(arg)); }
      if major == 1 { return if arg > INT64_MAX - 1 then Err(Malformed) else Ok(Int(-1 - arg)); }
      if major == 2 || major == 3 {
        var s := Take(arg);
        if s.Err? { return Err(s.error); }
        return Ok(if major == 2 then ByteString(s.value) else TextString(s.value));
      }
      if major == 4 {
        if arg > MAX_ENTRIES { return Err(Malformed); }
        var items := Items(depth + 1, arg);
        return if items.Err? then Err(items.error) else Ok(Array(items.value));
      }
      if major == 5 {
        if arg > MAX_ENTRIES { return Err(Malformed); }
        var entries := Entries(depth + 1, arg);
        return if entries.Err? then Err(entries.error) else Ok(Map(entries.value));
      }
      return Err(Malformed);
    }

    method Items(depth: nat, n: nat) returns (r: Result<seq<Value>, Failure>)
      requires Valid()
      modifies this
      ensures Valid() && old(off) <= off
      ensures match DecodeItems(old(Rest()), depth, n, [], |b|)
              case Ok((items, rest)) => r == Ok(items) && Rest() == rest
              case Err(e) => r == Err(e)
      decreases |b| - off, 2, 0
    {
      hide Decode;
      var out := [];
      for i := 0 to n
        invariant Valid() && old(off) <= off
        invariant DecodeItems(old(Rest()), depth, n, [], |b|) == DecodeItems(Rest(), depth, n - i, out, |b|)
      {
        var v := Item(depth);
        if v.Err? { return Err(v.error); }
        out := out + [v.value];
      }
      return Ok(out);
    }

    method Entries(depth: nat, n: nat) returns (r: Result<map<Key, Value>, Failure>)
      requires Valid()
      modifies this
      ensures Valid() && old(off) <= off
      ensures match DecodeEntries(old(Rest()), depth, n, map[], |b|)
              case Ok((entries, rest)) => r == Ok(entries) && Rest() == rest
              case Err(e) => r == Err(e)
      decreases |b| - off, 2, 0
    {
      hide Decode;
      var out := map[];
      for i := 0 to n
        invariant Valid() && old(off) <= off
        invariant DecodeEntries(old(Rest()), depth, n, map[], |b|) == DecodeEntries(Rest(), depth, n - i, out, |b|)
      {
        var k := Item(depth);
        if k.Err? { return Err(k.error); }
        var key := AsKey(k.value);
        if key.None? { return Err(Malformed); }
        if key.value in out { return Err(Malformed); }
        var v := Item(depth);
        if v.Err? { return Err(v.error); }
        out := out[key.value := v.value];
      }
      return Ok(out);
    }
  }

  lemma {:induction false} FromBEBound(s: seq<byte>)
    ensures FromBE(s) < Pow256(|s|)
    ensures |s| <= 8 ==> FromBE(s) < UINT64
  {
    if s != [] {
      FromBEBound(s[..|s| - 1]);
    }
    PowersTo8();
    if |s| < 8 { PowGrows(|s|, 8); }
  }

  lemma PowersTo8()
    ensures Pow256(8) == UINT64
  {
    Pow256Of8();
  }

  lemma {:induction false} PowGrows(a: nat, b: nat)
    requires a <= b
    ensures Pow256(a) <= Pow256(b)
    decreases b - a
  {
    if a < b { PowGrows(a, b - 1); }
  }
}
