/**
 The incremental verifying decoder (server/bao/bao.go:255-363).

 Step and Feed say what the decoder does one byte at a time; class Decoder runs the source's loop, which takes
 input in pieces as large as the current item allows, and is proved to do exactly the same.
 */
module BaoDecoder {
  import opened Bytes
  import opened Blake3
  import opened BaoEncoder
  import opened Wrappers

  /** A pending subtree: the chaining value groups lo..hi (exclusive) must have. */
  datatype Span = Span(want: CV, lo: nat, hi: nat, root: bool)

  datatype VerifyError = HeaderMismatch | BytesBeyond | BadGroup(group: nat) | BadParent(lo: nat, last: nat)

  /** The decoder's fields; released holds what the group sink has been given, the last span is the stack's top. */
  datatype State = State(root: CV, contentLen: nat, gotHeader: bool, stack: seq<Span>, buf: seq<byte>,
                         released: seq<byte>, verifiedGroups: nat)

  /** The state after a write, the verification failure if there was one, and how many bytes were taken. */
  datatype Outcome = Outcome(state: State, error: Option<VerifyError>, used: nat)

  const INT64_LIMIT := 0x8000_0000_0000_0000

  function AsInt64(n: nat): int
  {
    if n < INT64_LIMIT then n else n - 2 * INT64_LIMIT
  }

  function Last<T>(s: seq<T>): T
    requires s != []
  {
    s[|s| - 1]
  }

  function Pop<T>(s: seq<T>): seq<T>
    requires s != []
  {
    s[..|s| - 1]
  }

  function Initial(root: CV, contentLen: nat): State
  {
    State(root, contentLen, false, [Span(root, 0, NumGroups(contentLen), true)], [], [], 0)
  }

  /** Whether the whole encoded stream has verified. */
  predicate Complete(s: State)
  {
    s.gotHeader && s.stack == [] && s.buf == []
  }

  /** Where group g starts in the content. */
  function Offset(contentLen: nat, g: nat): nat
  {
    if g * GROUP <= contentLen then g * GROUP else contentLen
  }

  lemma OffsetMonotone(contentLen: nat, a: nat, b: nat)
    requires a <= b
    ensures Offset(contentLen, a) <= Offset(contentLen, b)
  {
  }

  function GroupSize(contentLen: nat, g: nat): (n: nat)
    requires g < NumGroups(contentLen)
    ensures n == Offset(contentLen, g + 1) - Offset(contentLen, g)
    ensures n <= GROUP && (n == 0 <==> contentLen == 0)
  {
    if contentLen == 0 then 0
    else
      var last := NumGroups(contentLen) - 1;
      if g < last then GROUP else contentLen - last * GROUP
  }

  /** From its top, the stack lists the groups from lo up to n, in order, without gap or overlap. */
  ghost predicate Tiles(stack: seq<Span>, lo: nat, n: nat)
  {
    if stack == [] then lo == n
    else
      var top := Last(stack);
      top.lo == lo && lo < top.hi <= n && (top.root <==> lo == 0 && top.hi == n) && Tiles(Pop(stack), top.hi, n)
  }

  /** The size of the item the top of the stack asks for. */
  function Need(s: State): nat
    requires s.stack != [] && Last(s.stack).lo < NumGroups(s.contentLen)
  {
    var top := Last(s.stack);
    if top.hi - top.lo == 1 then GroupSize(s.contentLen, top.lo) else 64
  }

  ghost predicate Spans(s: State)
  {
    && s.contentLen < INT64_LIMIT
    && Tiles(s.stack, s.verifiedGroups, NumGroups(s.contentLen))
    && |s.released| == Offset(s.contentLen, s.verifiedGroups)
  }

  /** What holds of a decoder between writes that have not failed. */
  ghost predicate Shape(s: State)
  {
    && Spans(s)
    && (!s.gotHeader ==> s == Initial(s.root, s.contentLen).(buf := s.buf) && |s.buf| < 8)
    && (s.gotHeader && s.stack == [] ==> s.buf == [])
    && (s.gotHeader && s.stack != [] ==> |s.buf| < Need(s))
  }

  lemma InitialShape(root: CV, contentLen: nat)
    requires contentLen < INT64_LIMIT
    ensures Shape(Initial(root, contentLen))
  {
    var s := Initial(root, contentLen);
    assert Pop(s.stack) == [];
  }

  // ----- what the decoder does, byte by byte -----

  /** Verifies a complete item against the top of the stack. */
  function Accept(c: Compress, s: State, item: seq<byte>): (o: Outcome)
    requires Spans(s) && s.gotHeader && s.stack != [] && |item| == Need(s)
    ensures o.error.None? ==> Shape(o.state)
    ensures o.used == 1
  {
    var top := Last(s.stack);
    var popped := s.(stack := Pop(s.stack), buf := []);
    if top.hi - top.lo == 1 then
      if SubtreeCV(c, item, top.lo * GROUP_CHUNKS, top.root) != top.want then
        Outcome(popped, Some(BadGroup(top.lo)), 1)
      else
        Outcome(popped.(released := s.released + item, verifiedGroups := s.verifiedGroups + 1), None, 1)
    else
      var l, r := CvFrom(item[..32]), CvFrom(item[32..]);
      if ParentCV(c, l, r, top.root) != top.want then Outcome(popped, Some(BadParent(top.lo, top.hi - 1)), 1)
      else
        var left := Left(top.hi - top.lo);
        var stack := Pop(s.stack) + [Span(r, top.lo + left, top.hi, false), Span(l, top.lo, top.lo + left, false)];
        PushTiles(Pop(s.stack), top, l, r, left, NumGroups(s.contentLen));
        Outcome(popped.(stack := stack), None, 1)
  }

  lemma PushTiles(rest: seq<Span>, top: Span, l: CV, r: CV, left: nat, n: nat)
    requires top.lo < top.lo + left < top.hi <= n && Tiles(rest, top.hi, n)
    ensures Tiles(rest + [Span(r, top.lo + left, top.hi, false), Span(l, top.lo, top.lo + left, false)], top.lo, n)
  {
    var two := rest + [Span(r, top.lo + left, top.hi, false), Span(l, top.lo, top.lo + left, false)];
    var one := rest + [Span(r, top.lo + left, top.hi, false)];
    assert Pop(two) == one && Pop(one) == rest;
  }

  /** The size of the item being collected: the 8-byte header, then what the top of the stack asks for. */
  function Wanted(s: State): nat
    requires s.gotHeader ==> s.stack != [] && Last(s.stack).lo < NumGroups(s.contentLen)
  {
    if s.gotHeader then Need(s) else 8
  }

  /** A complete item: the length header, or a parent node or group for the top of the stack. */
  function Finish(c: Compress, s: State, item: seq<byte>): (o: Outcome)
    requires Shape(s) && (s.gotHeader ==> s.stack != []) && |item| == Wanted(s)
    ensures o.error.None? ==> Shape(o.state)
    ensures o.used == 1
  {
    if s.gotHeader then Accept(c, s.(buf := []), item)
    else if AsInt64(FromLE(item)) != s.contentLen then Outcome(s.(buf := item), Some(HeaderMismatch), 1)
    else
      var open := s.(gotHeader := true, buf := []);
      // The group of the empty object has no bytes to wait for.
      if s.contentLen == 0 then Accept(c, open, []) else Outcome(open, None, 1)
  }

  function Step(c: Compress, s: State, b: byte): (o: Outcome)
    requires Shape(s)
    ensures o.error.None? ==> Shape(o.state) && o.used == 1
  {
    var buf := s.buf + [b];
    if s.gotHeader && s.stack == [] then Outcome(s, Some(BytesBeyond), 0)
    else if |buf| < Wanted(s) then Outcome(s.(buf := buf), None, 1)
    else Finish(c, s, buf)
  }

  /** Feeding bytes one at a time, up to the first failure. */
  function Feed(c: Compress, s: State, p: seq<byte>): (o: Outcome)
    requires Shape(s)
    ensures o.error.None? ==> Shape(o.state) && o.used == |p|
    decreases |p|
  {
    if p == [] then Outcome(s, None, 0)
    else
      var o := Step(c, s, p[0]);
      if o.error.Some? then o else Later(Feed(c, o.state, p[1..]), 1)
  }

  function Later(o: Outcome, k: nat): Outcome
  {
    o.(used := o.used + k)
  }

  /** Split independence of the byte-wise decoder: a then b is a ++ b. */
  lemma {:induction false} FeedConcat(c: Compress, s: State, a: seq<byte>, b: seq<byte>)
    requires Shape(s)
    ensures var o := Feed(c, s, a);
            Feed(c, s, a + b) == if o.error.Some? then o else Later(Feed(c, o.state, b), |a|)
    decreases |a|
  {
    if a == [] {
      assert a + b == b;
    } else {
      assert (a + b)[0] == a[0] && (a + b)[1..] == a[1..] + b;
      var o := Step(c, s, a[0]);
      if o.error.None? { FeedConcat(c, o.state, a[1..], b); }
    }
  }

  /** Bytes that do not complete the current item are only buffered. */
  lemma {:induction false} FeedBuffers(c: Compress, s: State, a: seq<byte>, b: seq<byte>)
    requires Shape(s)
    requires (s.gotHeader ==> s.stack != []) && |s.buf| + |a| < Wanted(s)
    ensures Shape(s.(buf := s.buf + a))
    ensures Feed(c, s, a + b) == Later(Feed(c, s.(buf := s.buf + a), b), |a|)
    decreases |a|
  {
    if a == [] {
      assert a + b == b && s.(buf := s.buf + a) == s;
    } else {
      assert (a + b)[0] == a[0] && (a + b)[1..] == a[1..] + b;
      var next := s.(buf := s.buf + [a[0]]);
      assert s.buf + a == next.buf + a[1..];
      FeedBuffers(c, next, a[1..], b);
    }
  }

  // ----- the source's loop -----

  /** 2 * (hi - lo) - 1 summed over the stack: how many items are still to come. */
  ghost function Items(stack: seq<Span>): nat
  {
    if stack == [] then 0
    else
      var top := Last(stack);
      (if top.lo < top.hi then 2 * (top.hi - top.lo) - 1 else 0) + Items(Pop(stack))
  }

  lemma ItemsAfterPush(rest: seq<Span>, top: Span, r: Span, l: Span)
    requires top.lo == l.lo < l.hi == r.lo < r.hi == top.hi
    ensures Items(rest + [r, l]) == Items(rest + [top]) - 1
  {
    assert Pop(rest + [top]) == rest && Pop(rest + [r, l]) == rest + [r] && Pop(rest + [r]) == rest;
  }

  /** Inside the loop the item of an empty object may be complete before any byte of it arrives. */
  ghost predicate Loose(s: State)
  {
    Shape(s) || (Spans(s) && s.gotHeader && s.stack != [] && s.buf == [] && Need(s) == 0)
  }

  /** Going on with rest after an item that ended at byte k. */
  function Then(c: Compress, o: Outcome, rest: seq<byte>, k: nat): Outcome
    requires o.error.None? ==> Shape(o.state)
  {
    if o.error.Some? then o.(used := k) else Later(Feed(c, o.state, rest), k)
  }

  ghost function Resume(c: Compress, s: State, q: seq<byte>): Outcome
    requires Loose(s)
  {
    if Shape(s) then Feed(c, s, q) else Then(c, Accept(c, s, []), q, 0)
  }

  class Decoder {
    const c: Compress
    const root: CV
    const contentLen: nat
    var gotHeader: bool
    var stack: seq<Span>
    var buf: seq<byte>
    var consumed: nat
    var verifiedGroups: nat
    var released: seq<byte>

    function Value(): State
      reads this
    {
      State(root, contentLen, gotHeader, stack, buf, released, verifiedGroups)
    }

    constructor (c: Compress, digest: seq<byte>, contentLen: nat)
      requires |digest| == 32 && contentLen < INT64_LIMIT
      ensures Value() == Initial(CvFrom(digest), contentLen) && Shape(Value())
      ensures this.c == c && consumed == 0
    {
      this.c := c;
      root := CvFrom(digest);
      this.contentLen := contentLen;
      gotHeader := false;
      stack := [Span(CvFrom(digest), 0, NumGroups(contentLen), true)];
      buf, consumed, verifiedGroups, released := [], 0, 0, [];
      new;
      InitialShape(root, contentLen);
    }

    constructor Clone(d: Decoder)
      ensures Value() == d.Value() && c == d.c && consumed == d.consumed
    {
      c, root, contentLen := d.c, d.root, d.contentLen;
      gotHeader, stack, buf, consumed := d.gotHeader, d.stack, d.buf, d.consumed;
      verifiedGroups, released := d.verifiedGroups, d.released;
    }

    /** A completed group: popped, checked and released. */
    method ProcessGroup() returns (err: Option<VerifyError>)
      requires Spans(Value()) && gotHeader && stack != [] && |buf| == Need(Value())
      requires Last(stack).hi - Last(stack).lo == 1
      modifies this
      ensures Outcome(Value(), err, 1) == Accept(c, old(Value()).(buf := []), old(buf))
      ensures consumed == old(consumed)
      ensures err.None? ==> Items(stack) == Items(old(stack)) - 1
    {
      hide SubtreeCV, Left;
      var top := Last(stack);
      var item := buf;
      buf := [];
      stack := Pop(stack);
      var got := SubtreeCV(c, item, top.lo * GROUP_CHUNKS, top.root);
      if got != top.want {
        return Some(BadGroup(top.lo));
      }
      verifiedGroups := verifiedGroups + 1;
      released := released + item;
      return None;
    }

    /** A completed parent node: popped, checked and replaced by its two halves. */
    method ProcessParent() returns (err: Option<VerifyError>)
      requires Spans(Value()) && gotHeader && stack != [] && |buf| == Need(Value())
      requires Last(stack).hi - Last(stack).lo > 1
      modifies this
      ensures Outcome(Value(), err, 1) == Accept(c, old(Value()).(buf := []), old(buf))
      ensures consumed == old(consumed)
      ensures err.None? ==> Items(stack) == Items(old(stack)) - 1
    {
      hide SubtreeCV, Left, NumGroups, Offset, Items, ParentCV, CvFrom, GroupSize;
      var top := Last(stack);
      var item := buf;
      buf := [];
      stack := Pop(stack);
      var l, r := CvFrom(item[..32]), CvFrom(item[32..]);
      if ParentCV(c, l, r, top.root) != top.want {
        return Some(BadParent(top.lo, top.hi - 1));
      }
      var left := LeftLoop(top.hi - top.lo);
      // The right half is pushed first so that the left one is popped first.
      var right, first := Span(r, top.lo + left, top.hi, false), Span(l, top.lo, top.lo + left, false);
      ItemsAfterPush(stack, top, right, first);
      assert old(stack) == stack + [top];
      stack := stack + [right, first];
      return None;
    }

    /** Moves input into the buffer, up to the end of the current item. */
    method Fill(q: seq<byte>, need: nat) returns (rest: seq<byte>)
      requires Shape(Value()) && (gotHeader ==> stack != []) && need == Wanted(Value())
      modifies this`buf
      ensures |rest| <= |q| && |buf| <= need && (q != [] ==> |rest| < |q|)
      ensures |buf| < need ==>
                rest == [] && Shape(Value()) && Feed(c, old(Value()), q) == Outcome(Value(), None, |q|)
      ensures |buf| == need ==>
                Feed(c, old(Value()), q) == Then(c, Finish(c, old(Value()), buf), rest, |q| - |rest|)
    {
      var take := if need - |buf| < |q| then need - |buf| else |q|;
      if |buf| + take < need { TakeShort(c, Value(), q); } else { TakeItem(c, Value(), q); }
      buf := buf + q[..take];
      rest := q[take..];
    }

    /** A turn of Write's loop before the header is complete. */
    method HeaderTurn(q: seq<byte>) returns (rest: seq<byte>, more: bool, err: Option<VerifyError>)
      requires Shape(Value()) && !gotHeader
      modifies this
      ensures |rest| <= |q| && consumed == old(consumed)
      ensures !more ==> Outcome(Value(), err, |q| - |rest|) == Feed(c, old(Value()), q)
      ensures more ==>
                err.None? && Loose(Value()) && Later(Resume(c, Value(), rest), |q| - |rest|) == Feed(c, old(Value()), q)
      ensures more ==> |rest| < |q|
    {
      if q == [] { return q, false, None; }
      rest := Fill(q, 8);
      if |buf| < 8 { return rest, true, None; }
      if AsInt64(FromLE(buf)) != contentLen { return rest, false, Some(HeaderMismatch); }
      gotHeader, buf := true, [];
      return rest, true, None;
    }

    /** A turn of Write's loop after the header. */
    method ItemTurn(q: seq<byte>) returns (rest: seq<byte>, more: bool, err: Option<VerifyError>)
      requires Loose(Value()) && gotHeader
      modifies this
      ensures |rest| <= |q| && consumed == old(consumed)
      ensures !more ==> Outcome(Value(), err, |q| - |rest|) == Resume(c, old(Value()), q)
      ensures more ==>
                err.None? && Shape(Value()) && Later(Feed(c, Value(), rest), |q| - |rest|) == Resume(c, old(Value()), q)
      ensures more ==> gotHeader && Items(stack) < Items(old(stack))
    {
      hide SubtreeCV, Left, NumGroups;
      if stack == [] {
        return q, false, if q == [] then None else Some(BytesBeyond);
      }
      var top := Last(stack);
      var need := if top.hi - top.lo == 1 then GroupSize(contentLen, top.lo) else 64;
      rest := q;
      if need > 0 {
        rest := Fill(q, need);
        if |buf| < need { return rest, false, None; }
      }
      if top.hi - top.lo == 1 { err := ProcessGroup(); } else { err := ProcessParent(); }
      more := err.None?;
    }

    method Write(p: seq<byte>) returns (n: nat, err: Option<VerifyError>)
      requires Shape(Value())
      modifies this
      ensures Outcome(Value(), err, n) == Feed(c, old(Value()), p)
      ensures consumed == old(consumed) + if err.None? then |p| else 0
    {
      var q, more := p, true;
      err := None;
      while more
        invariant |q| <= |p| && consumed == old(consumed)
        invariant more ==> Loose(Value()) && Later(Resume(c, Value(), q), |p| - |q|) == Feed(c, old(Value()), p)
        invariant !more ==> Outcome(Value(), err, |p| - |q|) == Feed(c, old(Value()), p)
        decreases more, |q|, if gotHeader then 0 else 1, Items(stack)
      {
        if gotHeader { q, more, err := ItemTurn(q); } else { q, more, err := HeaderTurn(q); }
      }
      n := |p| - |q|;
      if err.None? { consumed := consumed + |p|; }
    }
  }

  function Take(s: State, q: seq<byte>): nat
    requires (s.gotHeader ==> s.stack != [] && Last(s.stack).lo < NumGroups(s.contentLen)) && |s.buf| <= Wanted(s)
  {
    if Wanted(s) - |s.buf| < |q| then Wanted(s) - |s.buf| else |q|
  }

  /** When the input does not reach the end of the item, all of it is buffered. */
  lemma TakeShort(c: Compress, s: State, q: seq<byte>)
    requires Shape(s) && (s.gotHeader ==> s.stack != []) && |s.buf| + Take(s, q) < Wanted(s)
    ensures var t := s.(buf := s.buf + q[..Take(s, q)]);
            Shape(t) && q[Take(s, q)..] == [] && Feed(c, s, q) == Outcome(t, None, |q|)
  {
    assert q == q[..|q|] + [];
    FeedBuffers(c, s, q[..|q|], []);
  }

  /** When it does, the item is finished and the decoder goes on with the rest. */
  lemma TakeItem(c: Compress, s: State, q: seq<byte>)
    requires Shape(s) && (s.gotHeader ==> s.stack != []) && |s.buf| + Take(s, q) == Wanted(s)
    ensures var take := Take(s, q);
            Feed(c, s, q) == Then(c, Finish(c, s, s.buf + q[..take]), q[take..], take)
  {
    hide Finish, Accept, NumGroups, SubtreeCV;
    var take := Take(s, q);
    var a, b := q[..take - 1], q[take - 1..];
    assert q == a + b && b[0] == q[take - 1] && b[1..] == q[take..];
    FeedBuffers(c, s, a, b);
    var m := s.(buf := s.buf + a);
    assert m.buf + [b[0]] == s.buf + q[..take];
    FinishIgnoresBuffer(c, s, m, s.buf + q[..take]);
  }

  lemma FinishIgnoresBuffer(c: Compress, s: State, m: State, item: seq<byte>)
    requires Shape(s) && Shape(m) && (s.gotHeader ==> s.stack != []) && |item| == Wanted(s) && m == s.(buf := m.buf)
    ensures Finish(c, s, item) == Finish(c, m, item)
  {
  }
}
