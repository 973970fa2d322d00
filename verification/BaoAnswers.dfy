/** What the decoder refuses, where, and what it has let through by then (server/bao/bao.go:286-356). */
module BaoAnswers {
  import opened Bytes
  import opened Blake3
  import opened BaoEncoder
  import opened BaoDecoder
  import opened BaoSlice
  import opened Wrappers

  /** A failure happens at one byte: everything before it went well. */
  lemma {:induction false} FailsAt(c: Compress, s: State, p: seq<byte>) returns (k: nat)
    requires Shape(s) && Feed(c, s, p).error.Some?
    ensures k < |p| && Feed(c, s, p[..k]).error.None?
    ensures var t := Feed(c, s, p[..k]).state;
            Feed(c, s, p) == Later(Step(c, t, p[k]), k)
    decreases |p|
  {
    hide Step;
    k := 0;
    var o := Step(c, s, p[0]);
    if o.error.None? {
      var j := FailsAt(c, o.state, p[1..]);
      k := j + 1;
      assert p[..k][0] == p[0] && p[..k][1..] == p[1..][..j];
    }
  }

  lemma HeaderNumber(item: seq<byte>, size: nat)
    requires |item| == 8 && size < INT64_LIMIT
    ensures AsInt64(FromLE(item)) == size <==> FromLE(item) == size
  {
    hide FromLE;
    FromLEBound(item);
    Pow256Of8();
  }

  /** The item that the next byte completes. */
  predicate Completes(s: State, b: byte)
    requires Shape(s) && s.gotHeader && s.stack != []
  {
    |s.buf| + 1 == Need(s)
  }

  /** What a single byte is refused for, once the header is read. */
  lemma RefusedItem(c: Compress, s: State, b: byte)
    requires Shape(s) && s.gotHeader && s.stack != []
    ensures var e := Step(c, s, b).error;
            var top, item := Last(s.stack), s.buf + [b];
            && (e.None? <==>
                  !Completes(s, b)
                  || if top.hi - top.lo == 1 then SubtreeCV(c, item, 16 * top.lo, top.root) == top.want
                     else ParentCV(c, CvFrom(item[..32]), CvFrom(item[32..]), top.root) == top.want)
            && (e.Some? ==>
                  e == Some(if top.hi - top.lo == 1 then BadGroup(s.verifiedGroups)
                            else BadParent(s.verifiedGroups, top.hi - 1)))
            && Step(c, s, b).used == 1
  {
    hide SubtreeCV, ParentCV, CvFrom, Left;
  }

  /** After everything has verified, any byte is one too many; it is not taken. */
  lemma RefusedEnd(c: Compress, s: State, b: byte)
    requires Shape(s) && s.gotHeader && s.stack == []
    ensures Step(c, s, b) == Outcome(s, Some(BytesBeyond), 0)
  {
  }

  /** The first eight bytes are refused exactly when, lowest first, they are not the length. */
  lemma RefusedHeader(c: Compress, root: CV, size: nat, p: seq<byte>)
    requires size < INT64_LIMIT && |p| >= 8
    ensures Shape(Initial(root, size))
    ensures Feed(c, Initial(root, size), p).error == Some(HeaderMismatch) <==> FromLE(p[..8]) != size
    ensures FromLE(p[..8]) != size ==> Feed(c, Initial(root, size), p).used == 8
  {
    hide SubtreeCV, ParentCV, Left, Feed, Step;
    var s := Initial(root, size);
    InitialShape(root, size);
    var front := p[..7];
    assert p == front + p[7..] && p[7..][0] == p[7] && front + [p[7]] == p[..8];
    FeedBuffers(c, s, front, p[7..]);
    assert s.buf + front == front;
    HeaderByte(c, s.(buf := front), p[7..]);
    HeaderNumber(p[..8], size);
  }

  lemma HeaderByte(c: Compress, s: State, p: seq<byte>)
    requires Shape(s) && !s.gotHeader && |s.buf| == 7 && p != []
    ensures var o := Feed(c, s, p);
            if AsInt64(FromLE(s.buf + [p[0]])) != s.contentLen then o.error == Some(HeaderMismatch) && o.used == 1
            else o.error != Some(HeaderMismatch)
  {
    hide SubtreeCV, ParentCV, Left, Feed;
    var o := Step(c, s, p[0]);
    FeedOnce(c, s, p);
    if o.error.None? { NoLateHeader(c, o.state, p[1..]); }
  }

  lemma FeedOnce(c: Compress, s: State, p: seq<byte>)
    requires Shape(s) && p != []
    ensures var o := Step(c, s, p[0]);
            Feed(c, s, p) == if o.error.Some? then o else Later(Feed(c, o.state, p[1..]), 1)
  {
    hide Step;
  }

  /** Once it is read, the header is never refused. */
  lemma {:induction false} NoLateHeader(c: Compress, s: State, p: seq<byte>)
    requires Shape(s) && s.gotHeader
    ensures Feed(c, s, p).error != Some(HeaderMismatch)
    ensures Feed(c, s, p).error.None? ==> Feed(c, s, p).state.gotHeader
    decreases |p|
  {
    hide Feed, SubtreeCV, ParentCV, Left;
    if p == [] {
      FeedNothing(c, s);
    } else {
      FeedOnce(c, s, p);
      if Step(c, s, p[0]).error.None? { NoLateHeader(c, Step(c, s, p[0]).state, p[1..]); }
    }
  }

  lemma FeedNothing(c: Compress, s: State)
    requires Shape(s)
    ensures Feed(c, s, []) == Outcome(s, None, 0)
  {
  }

  /**
   A stream is refused for bytes beyond exactly when some shorter part of it has verified completely; a group or parent
   that is refused is named by its groups, the first of which is the first one not released.
   */
  lemma RefusedStream(c: Compress, root: CV, size: nat, p: seq<byte>) returns (k: nat)
    requires size < INT64_LIMIT
    ensures Shape(Initial(root, size))
    ensures var o := Feed(c, Initial(root, size), p);
            o.error.Some? ==> k < |p| && Feed(c, Initial(root, size), p[..k]).error.None?
    ensures var o := Feed(c, Initial(root, size), p);
            && (o.error == Some(BytesBeyond) ==>
                  o.used == k && Complete(Feed(c, Initial(root, size), p[..k]).state))
            && (o.error.Some? && o.error.value.BadGroup? ==>
                  o.used == k + 1 && o.error.value.group == o.state.verifiedGroups < NumGroups(size))
            && (o.error.Some? && o.error.value.BadParent? ==>
                  o.used == k + 1 && o.error.value.lo == o.state.verifiedGroups < o.error.value.last < NumGroups(size))
  {
    hide Feed, Step, SubtreeCV, ParentCV, NumGroups;
    InitialShape(root, size);
    var s := Initial(root, size);
    k := 0;
    if Feed(c, s, p).error.Some? {
      k := FailsAt(c, s, p);
      var t := Feed(c, s, p[..k]).state;
      SameSize(c, s, p[..k]);
      RefusedStep(c, t, p[k]);
    }
  }

  lemma {:induction false} SameSize(c: Compress, s: State, p: seq<byte>)
    requires Shape(s)
    ensures Feed(c, s, p).state.contentLen == s.contentLen
    decreases |p|
  {
    hide Feed;
    if p == [] {
      FeedNothing(c, s);
    } else {
      FeedOnce(c, s, p);
      StepSize(c, s, p[0]);
      if Step(c, s, p[0]).error.None? { SameSize(c, Step(c, s, p[0]).state, p[1..]); }
    }
  }

  lemma StepSize(c: Compress, s: State, b: byte)
    requires Shape(s)
    ensures Step(c, s, b).state.contentLen == s.contentLen
  {
    hide SubtreeCV, ParentCV, Left;
  }

  lemma RefusedStep(c: Compress, s: State, b: byte)
    requires Shape(s) && Step(c, s, b).error.Some?
    ensures var o, e := Step(c, s, b), Step(c, s, b).error.value;
            && (e.HeaderMismatch? ==> !s.gotHeader)
            && (e.BytesBeyond? ==> o.used == 0 && o.state == s && Complete(s))
            && (e.BadGroup? ==> o.used == 1 && e.group == o.state.verifiedGroups < NumGroups(s.contentLen))
            && (e.BadParent? ==>
                  o.used == 1 && e.lo == o.state.verifiedGroups < e.last < NumGroups(s.contentLen))
  {
    hide SubtreeCV, ParentCV, Left;
  }

  // ----- which parts of the tree a slice has -----

  /** Of the empty content a range keeps the one empty group exactly when it starts at zero and is not empty itself. */
  lemma EmptyKept(rng: Range)
    ensures Keep(rng, 0, 0, 1) <==> rng.from == 0 && rng.length > 0
  {
  }

  predicate KeepsGroup(rng: Range, contentLen: nat, g: nat)
  {
    Keep(rng, contentLen, g, g + 1)
  }

  /**
   A span of groups is walked exactly when the range keeps one of its groups, or is empty itself and lies at a boundary
   between two of them.
   */
  lemma SpanKeptExactlyWhen(rng: Range, contentLen: nat, lo: nat, hi: nat)
    requires 0 < contentLen && lo < hi <= NumGroups(contentLen)
    ensures Keep(rng, contentLen, lo, hi)
            <==> (exists g: nat :: lo <= g < hi && KeepsGroup(rng, contentLen, g))
                 || (rng.length == 0 && rng.from % 16384 == 0 && lo < rng.from / 16384 < hi && rng.from < contentLen)
  {
    hide NumGroups;
    if Keep(rng, contentLen, lo, hi) {
      var k := rng.from / 16384;
      if k < lo {
        assert KeepsGroup(rng, contentLen, lo);
      } else if rng.length > 0 || rng.from % 16384 != 0 {
        assert KeepsGroup(rng, contentLen, k);
      }
    }
  }
}
