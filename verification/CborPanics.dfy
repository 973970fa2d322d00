/** When the CBOR decoder slices out of range, for whole inputs (server/webauthn/cbor.go:24-157). */
module CborPanics {
  import opened Bytes
  import opened Cbor
  import opened Wrappers

  // ----- which heads the decoder comes to -----

  /** The i-th item of the array whose contents are s starts at start: everything before it is decoded. */
  ghost predicate ItemStart(s: seq<byte>, depth: nat, i: nat, len: nat, start: seq<byte>)
    requires |s| <= len
  {
    var r := DecodeItems(s, depth, i, [], len);
    r.Ok? && r.value.1 == start
  }

  ghost predicate KeyStart(s: seq<byte>, depth: nat, i: nat, len: nat, start: seq<byte>)
    requires |s| <= len
  {
    var r := DecodeEntries(s, depth, i, map[], len);
    r.Ok? && r.value.1 == start
  }

  /** The value of the i-th entry starts at start: its key is decoded, of a permitted kind and new. */
  ghost predicate ValueStart(s: seq<byte>, depth: nat, i: nat, len: nat, start: seq<byte>)
    requires |s| <= len
  {
    var r := DecodeEntries(s, depth, i, map[], len);
    r.Ok?
    && var k := Decode(r.value.1, depth, len);
       k.Ok? && AsKey(k.value.0).Some? && AsKey(k.value.0).value !in r.value.0 && k.value.1 == start
  }

  ghost predicate EntryStart(s: seq<byte>, depth: nat, i: nat, len: nat, start: seq<byte>)
    requires |s| <= len
  {
    KeyStart(s, depth, i, len, start) || ValueStart(s, depth, i, len, start)
  }

  /** The decoder comes to start for one of the n items, or entries, of the container whose contents are s. */
  ghost predicate Inside(major: nat, s: seq<byte>, depth: nat, n: nat, len: nat, start: seq<byte>)
    requires |s| <= len
  {
    (major == 4 && exists i :: 0 <= i < n && ItemStart(s, depth, i, len, start))
    || (major == 5 && exists i :: 0 <= i < n && EntryStart(s, depth, i, len, start))
  }

  /** The item at s is a container within the limits, and the decoder comes to start for one of its parts. */
  ghost predicate PartStart(s: seq<byte>, len: nat, depth: nat, start: seq<byte>)
    requires |s| <= len
  {
    var head := ReadHead(s, len);
    head.Ok? && head.value.1 <= MAX_ENTRIES
    && Inside(head.value.0, head.value.2, depth + 1, head.value.1, len, start)
  }

  /** Decoding the item at s comes to the head at t. */
  ghost predicate Reaches(s: seq<byte>, depth: nat, len: nat, t: seq<byte>)
    requires |s| <= len
    decreases |s|
  {
    depth <= MAX_DEPTH
    && (t == s || exists start ::
          |start| < |s| && PartStart(s, len, depth, start) && Reaches(start, depth + 1, len, t))
  }

  /** n bytes more than the input has, by a count that fits a signed integer until the offset is added to it. */
  predicate TooFar(n: nat, s: seq<byte>, len: nat)
  {
    n > |s| && n <= INT64_MAX < len - |s| + n
  }

  /** How many bytes are sliced for the argument of a head; a single byte is read by its index. */
  function ArgWidth(low: nat): nat
  {
    if low == 25 then 2 else if low == 26 then 4 else if low == 27 then 8 else 0
  }

  /** The head at t, or the string it announces, goes too far. */
  ghost predicate Overflows(t: seq<byte>, len: nat)
    requires |t| <= len
  {
    t != []
    && (TooFar(ArgWidth(t[0] % 32), t[1..], len)
        || (ReadHead(t, len).Ok? && ReadHead(t, len).value.0 in {2, 3}
            && TooFar(ReadHead(t, len).value.1, ReadHead(t, len).value.2, len)))
  }

  // ----- one item -----

  lemma HeadPanicsExactlyWhen(s: seq<byte>, len: nat)
    requires |s| <= len <= INT64_MAX
    ensures ReadHead(s, len) == Err(Panic) <==> s != [] && TooFar(ArgWidth(s[0] % 32), s[1..], len)
  {
    hide FromBE;
  }

  lemma OverflowPanics(s: seq<byte>, depth: nat, len: nat)
    requires |s| <= len <= INT64_MAX && depth <= MAX_DEPTH && Overflows(s, len)
    ensures Decode(s, depth, len) == Err(Panic)
  {
    hide ReadHead, DecodeItems, DecodeEntries, ArgWidth;
    HeadPanicsExactlyWhen(s, len);
  }

  // ----- arrays -----

  /** Decoding i items and then m more is decoding them all. */
  lemma {:induction false} ItemsSplit(s: seq<byte>, depth: nat, i: nat, m: nat, so: seq<Value>, len: nat)
    requires |s| <= len && DecodeItems(s, depth, i, so, len).Ok?
    ensures var (more, rest) := DecodeItems(s, depth, i, so, len).value;
            DecodeItems(s, depth, i + m, so, len) == DecodeItems(rest, depth, m, more, len)
    decreases i
  {
    hide Decode;
    if i > 0 {
      var (v, rest) := Decode(s, depth, len).value;
      ItemsSplit(rest, depth, i - 1, m, so + [v], len);
    }
  }

  lemma ItemPanics(s: seq<byte>, depth: nat, i: nat, n: nat, len: nat, start: seq<byte>)
    requires |s| <= len && i < n && ItemStart(s, depth, i, len, start) && |start| <= len
    requires Decode(start, depth, len) == Err(Panic)
    ensures DecodeItems(s, depth, n, [], len) == Err(Panic)
  {
    hide Decode;
    ItemsSplit(s, depth, i, n - i, [], len);
  }

  /** When the items of an array panic, one of them does, and everything before it is decoded. */
  lemma {:induction false} PanicItem(s: seq<byte>, depth: nat, n: nat, len: nat) returns (i: nat, start: seq<byte>)
    requires |s| <= len && DecodeItems(s, depth, n, [], len) == Err(Panic)
    ensures i < n && |start| <= |s| && ItemStart(s, depth, i, len, start) && Decode(start, depth, len) == Err(Panic)
  {
    hide Decode;
    i, start := 0, s;
    var so: seq<Value> := [];
    while Decode(start, depth, len).Ok? && i + 1 < n
      invariant i < n && |start| <= |s| && DecodeItems(s, depth, i, [], len) == Ok((so, start))
      decreases n - i
    {
      ItemsSplit(s, depth, i, 1, [], len);
      var (v, rest) := Decode(start, depth, len).value;
      OneItem(start, depth, so, len);
      i, start, so := i + 1, rest, so + [v];
    }
    ItemsSplit(s, depth, i, n - i, [], len);
  }

  lemma OneItem(s: seq<byte>, depth: nat, so: seq<Value>, len: nat)
    requires |s| <= len && Decode(s, depth, len).Ok?
    ensures var (v, rest) := Decode(s, depth, len).value; DecodeItems(s, depth, 1, so, len) == Ok((so + [v], rest))
  {
    hide Decode;
    var (v, rest) := Decode(s, depth, len).value;
    assert DecodeItems(rest, depth, 0, so + [v], len) == Ok((so + [v], rest));
  }

  // ----- maps -----

  lemma {:induction false} EntriesSplit(s: seq<byte>, depth: nat, i: nat, m: nat, so: map<Key, Value>, len: nat)
    requires |s| <= len && DecodeEntries(s, depth, i, so, len).Ok?
    ensures var (more, rest) := DecodeEntries(s, depth, i, so, len).value;
            DecodeEntries(s, depth, i + m, so, len) == DecodeEntries(rest, depth, m, more, len)
    decreases i
  {
    hide Decode;
    if i > 0 {
      var (k, rest) := Decode(s, depth, len).value;
      var (v, more) := Decode(rest, depth, len).value;
      EntriesSplit(more, depth, i - 1, m, so[AsKey(k).value := v], len);
    }
  }

  lemma EntryPanics(s: seq<byte>, depth: nat, i: nat, n: nat, len: nat, start: seq<byte>)
    requires |s| <= len && i < n && |start| <= len
    requires EntryStart(s, depth, i, len, start)
    requires Decode(start, depth, len) == Err(Panic)
    ensures DecodeEntries(s, depth, n, map[], len) == Err(Panic)
  {
    hide Decode;
    EntriesSplit(s, depth, i, n - i, map[], len);
  }

  lemma {:induction false} PanicEntry(s: seq<byte>, depth: nat, n: nat, len: nat) returns (i: nat, start: seq<byte>)
    requires |s| <= len && DecodeEntries(s, depth, n, map[], len) == Err(Panic)
    ensures i < n && |start| <= |s| && Decode(start, depth, len) == Err(Panic)
    ensures EntryStart(s, depth, i, len, start)
  {
    hide Decode;
    i, start := 0, s;
    var so: map<Key, Value> := map[];
    while DecodeEntries(start, depth, 1, so, len).Ok? && i + 1 < n
      invariant i < n && |start| <= |s| && DecodeEntries(s, depth, i, map[], len) == Ok((so, start))
      decreases n - i
    {
      EntriesSplit(s, depth, i, 1, map[], len);
      var (more, rest) := DecodeEntries(start, depth, 1, so, len).value;
      i, start, so := i + 1, rest, more;
    }
    EntriesSplit(s, depth, i, n - i, map[], len);
    EntryStuck(start, depth, n - i, so, len);
    if Decode(start, depth, len).Ok? { start := Decode(start, depth, len).value.1; }
  }

  /** An entry that panics does so at its key or at its value. */
  lemma EntryStuck(s: seq<byte>, depth: nat, n: nat, so: map<Key, Value>, len: nat)
    requires |s| <= len && n > 0 && DecodeEntries(s, depth, n, so, len) == Err(Panic)
    requires n > 1 ==> DecodeEntries(s, depth, 1, so, len).Err?
    ensures var k := Decode(s, depth, len);
            k == Err(Panic)
            || (k.Ok? && AsKey(k.value.0).Some? && AsKey(k.value.0).value !in so
                && Decode(k.value.1, depth, len) == Err(Panic))
  {
    hide Decode;
  }

  // ----- whole inputs -----

  lemma {:induction false} ReachedPanics(s: seq<byte>, depth: nat, len: nat, t: seq<byte>)
    requires |s| <= len <= INT64_MAX && Reaches(s, depth, len, t) && |t| <= len && Overflows(t, len)
    ensures Decode(s, depth, len) == Err(Panic)
    decreases |s|
  {
    hide ReadHead, DecodeItems, DecodeEntries, Overflows, ItemStart, EntryStart;
    if t == s {
      OverflowPanics(s, depth, len);
    } else {
      var start :| |start| < |s| && PartStart(s, len, depth, start) && Reaches(start, depth + 1, len, t);
      ReachedPanics(start, depth + 1, len, t);
      var (major, arg, rest) := ReadHead(s, len).value;
      if major == 4 {
        var i :| 0 <= i < arg && ItemStart(rest, depth + 1, i, len, start);
        ItemPanics(rest, depth + 1, i, arg, len, start);
      } else {
        var i :| 0 <= i < arg && EntryStart(rest, depth + 1, i, len, start);
        EntryPanics(rest, depth + 1, i, arg, len, start);
      }
    }
  }

  lemma {:induction false} PanicIsReached(s: seq<byte>, depth: nat, len: nat) returns (t: seq<byte>)
    requires |s| <= len <= INT64_MAX && Decode(s, depth, len) == Err(Panic)
    ensures |t| <= len && Reaches(s, depth, len, t) && Overflows(t, len)
    decreases |s|
  {
    hide ReadHead, DecodeItems, DecodeEntries, ItemStart, EntryStart, ArgWidth;
    HeadPanicsExactlyWhen(s, len);
    if ReadHead(s, len).Err? { return s; }
    var (major, arg, rest) := ReadHead(s, len).value;
    if major in {2, 3} { return s; }
    var i, start;
    if major == 4 {
      i, start := PanicItem(rest, depth + 1, arg, len);
    } else {
      i, start := PanicEntry(rest, depth + 1, arg, len);
    }
    assert Inside(major, rest, depth + 1, arg, len, start);
    t := PanicIsReached(start, depth + 1, len);
  }

  /**
   Decoding any input, containers included, slices out of range if and only if the decoder comes to a head that goes too
   far: the head of a string whose length fits a signed integer until the offset is added, or one cut off so near the
   largest possible size that its own argument does.
   */
  lemma PanicsExactlyWhen(s: seq<byte>, depth: nat, len: nat)
    requires |s| <= len <= INT64_MAX
    ensures Decode(s, depth, len) == Err(Panic)
            <==> exists t :: |t| <= len && Reaches(s, depth, len, t) && Overflows(t, len)
  {
    hide Decode, Reaches, Overflows;
    if Decode(s, depth, len) == Err(Panic) {
      var t := PanicIsReached(s, depth, len);
    }
    forall t | |t| <= len && Reaches(s, depth, len, t) && Overflows(t, len)
      ensures Decode(s, depth, len) == Err(Panic)
    {
      ReachedPanics(s, depth, len, t);
    }
  }
}
