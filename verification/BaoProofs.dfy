/** What the mlp-bao codec guarantees: exactly the encodings are accepted, however they are cut. */
module BaoProofs {
  import opened Bytes
  import opened Blake3
  import opened BaoEncoder
  import opened BaoDecoder
  import opened Wrappers

  // ----- the content a stack still expects, and its encoding -----

  function SpanSize(contentLen: nat, top: Span): nat
    requires top.lo <= top.hi
  {
    Offset(contentLen, top.hi) - Offset(contentLen, top.lo)
  }

  /** rest is content on which every pending span, from the top down, verifies. */
  ghost predicate Fits(c: Compress, contentLen: nat, stack: seq<Span>, rest: seq<byte>)
    decreases |stack|
  {
    if stack == [] then rest == []
    else
      var top := Last(stack);
      top.lo < top.hi
      && var n := SpanSize(contentLen, top);
         n <= |rest| && SubtreeCV(c, rest[..n], top.lo * GROUP_CHUNKS, top.root) == top.want
         && Fits(c, contentLen, Pop(stack), rest[n..])
  }

  /** The encoding of rest along the stack. */
  function EncodeRest(c: Compress, contentLen: nat, stack: seq<Span>, rest: seq<byte>): seq<byte>
    decreases |stack|
  {
    if stack == [] then []
    else
      var top := Last(stack);
      if top.hi <= top.lo || |rest| < SpanSize(contentLen, top) then []
      else
        var n := SpanSize(contentLen, top);
        EncodeTree(c, rest[..n], top.lo * GROUP_CHUNKS) + EncodeRest(c, contentLen, Pop(stack), rest[n..])
  }

  /** The encoder cuts a span of several groups where the decoder cuts it. */
  lemma SplitOfSpan(contentLen: nat, top: Span, n: nat)
    requires top.lo + 2 <= top.hi <= NumGroups(contentLen) && n == SpanSize(contentLen, top)
    ensures n > GROUP && Split(n) == Left(top.hi - top.lo) * GROUP
    ensures Offset(contentLen, top.lo + Left(top.hi - top.lo)) == Offset(contentLen, top.lo) + Split(n)
  {
    assert Offset(contentLen, top.lo) == top.lo * GROUP;
    assert contentLen > (top.hi - 1) * GROUP;
    assert NumGroups(n) == top.hi - top.lo;
  }

  lemma GroupSpan(contentLen: nat, top: Span)
    requires top.hi == top.lo + 1 <= NumGroups(contentLen)
    ensures SpanSize(contentLen, top) == GroupSize(contentLen, top.lo) <= GROUP
  {
  }

  /** Fits and EncodeRest at the top of the stack. */
  lemma AtTop(c: Compress, contentLen: nat, below: seq<Span>, top: Span, data: seq<byte>, tail: seq<byte>)
    requires top.lo < top.hi && |data| == SpanSize(contentLen, top)
    ensures Fits(c, contentLen, below + [top], data + tail)
            <==> SubtreeCV(c, data, top.lo * GROUP_CHUNKS, top.root) == top.want && Fits(c, contentLen, below, tail)
    ensures EncodeRest(c, contentLen, below + [top], data + tail)
            == EncodeTree(c, data, top.lo * GROUP_CHUNKS) + EncodeRest(c, contentLen, below, tail)
  {
    assert Pop(below + [top]) == below;
    assert (data + tail)[..|data|] == data && (data + tail)[|data|..] == tail;
  }

  /** What fits splits into the top's part and the rest. */
  lemma TopPart(c: Compress, contentLen: nat, below: seq<Span>, top: Span, rest: seq<byte>)
    returns (data: seq<byte>, tail: seq<byte>)
    requires top.lo < top.hi && Fits(c, contentLen, below + [top], rest)
    ensures |data| == SpanSize(contentLen, top) && rest == data + tail
  {
    data, tail := rest[..SpanSize(contentLen, top)], rest[SpanSize(contentLen, top)..];
  }

  function LeftSpan(top: Span, l: CV): Span
    requires top.lo + 2 <= top.hi
  {
    Span(l, top.lo, top.lo + Left(top.hi - top.lo), false)
  }

  function RightSpan(top: Span, r: CV): Span
    requires top.lo + 2 <= top.hi
  {
    Span(r, top.lo + Left(top.hi - top.lo), top.hi, false)
  }

  /** The content of a span of several groups: its tree and its encoding, cut in two. */
  lemma CutSpan(c: Compress, contentLen: nat, top: Span, data: seq<byte>)
    returns (dl: seq<byte>, dr: seq<byte>, l: CV, r: CV)
    requires top.lo + 2 <= top.hi <= NumGroups(contentLen) && |data| == SpanSize(contentLen, top)
    ensures data == dl + dr
    ensures |dl| == SpanSize(contentLen, LeftSpan(top, l)) && |dr| == SpanSize(contentLen, RightSpan(top, r))
    ensures l == SubtreeCV(c, dl, LeftSpan(top, l).lo * GROUP_CHUNKS, false)
    ensures r == SubtreeCV(c, dr, RightSpan(top, r).lo * GROUP_CHUNKS, false)
    ensures SubtreeCV(c, data, top.lo * GROUP_CHUNKS, top.root) == ParentCV(c, l, r, top.root)
    ensures EncodeTree(c, data, top.lo * GROUP_CHUNKS)
            == CvBytes(l) + CvBytes(r) + EncodeTree(c, dl, LeftSpan(top, l).lo * GROUP_CHUNKS)
               + EncodeTree(c, dr, RightSpan(top, r).lo * GROUP_CHUNKS)
  {
    hide SubtreeCV, Left, EncodeTree, NumGroups, Split, Offset, ParentCV;
    SplitOfSpan(contentLen, top, |data|);
    GroupTreeIsChunkTree(c, data, top.lo * GROUP_CHUNKS, top.root);
    UnfoldTree(c, data, top.lo * GROUP_CHUNKS);
    var s := Split(|data|);
    dl, dr := data[..s], data[s..];
    l := SubtreeCV(c, dl, top.lo * GROUP_CHUNKS, false);
    r := SubtreeCV(c, dr, top.lo * GROUP_CHUNKS + s / CHUNK, false);
  }

  /** Replacing a verified span by its two halves loses nothing and costs one 64-byte node. */
  lemma FitsHalves(c: Compress, contentLen: nat, below: seq<Span>, top: Span, l: CV, r: CV, rest: seq<byte>)
    requires top.lo + 2 <= top.hi <= NumGroups(contentLen)
    requires ParentCV(c, l, r, top.root) == top.want
    requires Fits(c, contentLen, below + [RightSpan(top, r), LeftSpan(top, l)], rest)
    ensures Fits(c, contentLen, below + [top], rest)
    ensures EncodeRest(c, contentLen, below + [top], rest)
            == CvBytes(l) + CvBytes(r)
               + EncodeRest(c, contentLen, below + [RightSpan(top, r), LeftSpan(top, l)], rest)
  {
    hide SubtreeCV, EncodeTree, Left, Fits, EncodeRest;
    var lTop, rTop := LeftSpan(top, l), RightSpan(top, r);
    assert below + [rTop, lTop] == (below + [rTop]) + [lTop];
    var dl, t := TopPart(c, contentLen, below + [rTop], lTop, rest);
    AtTop(c, contentLen, below + [rTop], lTop, dl, t);
    var dr, tail := TopPart(c, contentLen, below, rTop, t);
    AtTop(c, contentLen, below, rTop, dr, tail);
    assert rest == (dl + dr) + tail;
    AtTop(c, contentLen, below, top, dl + dr, tail);
    var dl', dr', l', r' := CutSpan(c, contentLen, top, dl + dr);
    assert dl == (dl + dr)[..|dl|] == dl' && dr == (dl + dr)[|dl|..] == dr';
  }

  /** The halves an honest content has do verify. */
  lemma HonestHalves(c: Compress, contentLen: nat, below: seq<Span>, top: Span, rest: seq<byte>)
    returns (l: CV, r: CV)
    requires top.lo + 2 <= top.hi <= NumGroups(contentLen)
    requires Fits(c, contentLen, below + [top], rest)
    ensures ParentCV(c, l, r, top.root) == top.want
    ensures Fits(c, contentLen, below + [RightSpan(top, r), LeftSpan(top, l)], rest)
  {
    hide SubtreeCV, EncodeTree, Left, Fits, EncodeRest;
    var data, tail := TopPart(c, contentLen, below, top, rest);
    AtTop(c, contentLen, below, top, data, tail);
    var dl, dr;
    dl, dr, l, r := CutSpan(c, contentLen, top, data);
    var lTop, rTop := LeftSpan(top, l), RightSpan(top, r);
    AtTop(c, contentLen, below, rTop, dr, tail);
    AtTop(c, contentLen, below + [rTop], lTop, dl, dr + tail);
    assert below + [rTop, lTop] == (below + [rTop]) + [lTop] && rest == dl + (dr + tail);
  }

  lemma SmallTree(c: Compress, data: seq<byte>, firstChunk: nat)
    requires |data| <= GROUP
    ensures EncodeTree(c, data, firstChunk) == data
  {
  }

  lemma {:induction false} FitsLength(c: Compress, contentLen: nat, stack: seq<Span>, lo: nat, rest: seq<byte>)
    requires Tiles(stack, lo, NumGroups(contentLen)) && Fits(c, contentLen, stack, rest)
    ensures |rest| == contentLen - Offset(contentLen, lo)
    decreases |stack|
  {
    if stack != [] {
      var top := Last(stack);
      FitsLength(c, contentLen, Pop(stack), top.hi, rest[SpanSize(contentLen, top)..]);
    }
  }

  // ----- one item at a time -----

  /** A decoder at an item boundary takes the next item whole. */
  lemma FirstItem(c: Compress, s: State, p: seq<byte>)
    requires Loose(s) && s.gotHeader && s.stack != [] && s.buf == [] && |p| >= Need(s)
    ensures Resume(c, s, p) == Then(c, Accept(c, s, p[..Need(s)]), p[Need(s)..], Need(s))
  {
    if Shape(s) {
      TakeItem(c, s, p);
      assert s.buf + p[..Need(s)] == p[..Need(s)] && s.(buf := []) == s;
    } else {
      assert p[..0] == [] && p[0..] == p;
    }
  }

  /** The signed reading of 8 header bytes is contentLen exactly for the header of contentLen. */
  lemma HeaderReads(contentLen: nat, bytes: seq<byte>)
    requires contentLen < INT64_LIMIT && |bytes| == 8
    ensures AsInt64(FromLE(bytes)) == contentLen <==> bytes == Header(contentLen)
  {
    hide FromLE, ToLE, Pow256;
    Pow256Of8();
    FromLEBound(bytes);
    ToLEFromLE(bytes);
    FromLEToLE(contentLen, 8);
  }

  lemma HeaderFirst(c: Compress, root: CV, contentLen: nat, p: seq<byte>)
    requires contentLen < INT64_LIMIT && |p| >= 8
    ensures var s := Initial(root, contentLen);
            var open := s.(gotHeader := true);
            Shape(s)
            && if p[..8] == Header(contentLen)
               then Loose(open) && Feed(c, s, p) == Later(Resume(c, open, p[8..]), 8)
               else Feed(c, s, p).error == Some(HeaderMismatch) && Feed(c, s, p).state.released == []
  {
    hide Accept, FromLE, ToLE;
    var s := Initial(root, contentLen);
    InitialShape(root, contentLen);
    TakeItem(c, s, p);
    assert s.buf + p[..8] == p[..8];
    HeaderReads(contentLen, p[..8]);
  }

  // ----- round trip -----

  /** An accepted parent node replaces the top by its halves. */
  lemma AcceptParent(c: Compress, s: State, below: seq<Span>, top: Span, l: CV, r: CV)
    requires Spans(s) && s.gotHeader && s.stack == below + [top] && s.buf == [] && top.lo + 2 <= top.hi
    requires ParentCV(c, l, r, top.root) == top.want
    ensures Need(s) == 64
    ensures var next := s.(stack := below + [RightSpan(top, r), LeftSpan(top, l)]);
            Accept(c, s, CvBytes(l) + CvBytes(r)) == Outcome(next, None, 1)
            && Shape(next) && Items(next.stack) < Items(s.stack)
  {
    hide SubtreeCV, Left;
    var item := CvBytes(l) + CvBytes(r);
    assert item[..32] == CvBytes(l) && item[32..] == CvBytes(r);
    CvRoundTrip(l);
    CvRoundTrip(r);
    assert Pop(s.stack) == below;
    ItemsAfterPush(below, top, RightSpan(top, r), LeftSpan(top, l));
    assert Accept(c, s, item).error.None?;
  }

  /** An accepted group is released. */
  lemma AcceptGroup(c: Compress, s: State, below: seq<Span>, top: Span, data: seq<byte>)
    requires Spans(s) && s.gotHeader && s.stack == below + [top] && s.buf == [] && top.lo + 1 == top.hi
    requires |data| == SpanSize(s.contentLen, top) && SubtreeCV(c, data, top.lo * GROUP_CHUNKS, top.root) == top.want
    ensures Need(s) == |data| <= GROUP
    ensures var next := s.(stack := below, released := s.released + data, verifiedGroups := s.verifiedGroups + 1);
            Accept(c, s, data) == Outcome(next, None, 1) && Shape(next) && Items(next.stack) < Items(s.stack)
  {
    hide SubtreeCV;
    assert Pop(s.stack) == below;
    GroupSpan(s.contentLen, top);
    assert Accept(c, s, data).error.None?;
  }

  /** The first item of the encoding of what the stack expects is accepted, and the rest is what is then expected. */
  lemma GenuineItem(c: Compress, s: State, rest: seq<byte>) returns (item: seq<byte>, next: State, rest': seq<byte>)
    requires Spans(s) && s.gotHeader && s.stack != [] && s.buf == [] && Fits(c, s.contentLen, s.stack, rest)
    ensures |item| == Need(s) && Accept(c, s, item) == Outcome(next, None, 1)
    ensures EncodeRest(c, s.contentLen, s.stack, rest) == item + EncodeRest(c, s.contentLen, next.stack, rest')
    ensures Fits(c, s.contentLen, next.stack, rest') && next.released + rest' == s.released + rest
    ensures next == s.(stack := next.stack, released := next.released, verifiedGroups := next.verifiedGroups)
    ensures Shape(next) && Items(next.stack) < Items(s.stack)
  {
    hide SubtreeCV, EncodeTree, Left, NumGroups, Fits, EncodeRest, Accept, Items;
    var top, below := Last(s.stack), Pop(s.stack);
    assert s.stack == below + [top];
    if top.hi - top.lo == 1 {
      item, rest' := TopPart(c, s.contentLen, below, top, rest);
      AtTop(c, s.contentLen, below, top, item, rest');
      AcceptGroup(c, s, below, top, item);
      SmallTree(c, item, top.lo * GROUP_CHUNKS);
      assert (s.released + item) + rest' == s.released + rest;
    } else {
      var l, r := HonestHalves(c, s.contentLen, below, top, rest);
      FitsHalves(c, s.contentLen, below, top, l, r, rest);
      AcceptParent(c, s, below, top, l, r);
      item, rest' := CvBytes(l) + CvBytes(r), rest;
    }
    next := Accept(c, s, item).state;
  }

  /** Feeding the encoding of what the stack expects releases exactly that and empties the stack. */
  lemma {:induction false} FeedEncodeRest(c: Compress, s: State, rest: seq<byte>)
    requires Loose(s) && s.gotHeader && s.buf == [] && Fits(c, s.contentLen, s.stack, rest)
    ensures var e := EncodeRest(c, s.contentLen, s.stack, rest);
            Resume(c, s, e) == Outcome(s.(stack := [], released := s.released + rest,
                                          verifiedGroups := NumGroups(s.contentLen)), None, |e|)
    decreases Items(s.stack)
  {
    if s.stack == [] {
      assert s.released + rest == s.released;
    } else {
      hide SubtreeCV, EncodeTree, NumGroups, Fits, EncodeRest, Accept, Items;
      var item, next, rest' := GenuineItem(c, s, rest);
      var e := EncodeRest(c, s.contentLen, s.stack, rest);
      assert e[..|item|] == item && e[|item|..] == EncodeRest(c, s.contentLen, next.stack, rest');
      FirstItem(c, s, e);
      FeedEncodeRest(c, next, rest');
    }
  }

  function Final(root: CV, content: seq<byte>): State
  {
    State(root, |content|, true, [], [], content, NumGroups(|content|))
  }

  /** The root span of content fits it, and its encoding is the whole tree. */
  lemma WholeFits(c: Compress, content: seq<byte>, root: CV)
    requires root == SubtreeCV(c, content, 0, true)
    ensures var stack := Initial(root, |content|).stack;
            Fits(c, |content|, stack, content) && EncodeRest(c, |content|, stack, content) == EncodeTree(c, content, 0)
  {
    hide SubtreeCV, EncodeTree;
    var stack := Initial(root, |content|).stack;
    assert stack == [] + stack && content == content + [];
    AtTop(c, |content|, [], stack[0], content, []);
  }

  /** Round trip: the encoding of content, under its own digest and length, verifies and releases content. */
  lemma RoundTrip(c: Compress, content: seq<byte>)
    requires |content| < INT64_LIMIT
    ensures var root := CvFrom(Root(c, content));
            var e := Encode(c, content);
            Shape(Initial(root, |content|))
            && Feed(c, Initial(root, |content|), e) == Outcome(Final(root, content), None, |e|)
  {
    var root := CvFrom(Root(c, content));
    var e := Encode(c, content);
    RootDeterminesCV(c, content, Root(c, content));
    HeaderFirst(c, root, |content|, e);
    var tree := EncodeTree(c, content, 0);
    assert e[..8] == Header(|content|) && e[8..] == tree;
    var open := Initial(root, |content|).(gotHeader := true);
    WholeFits(c, content, root);
    FeedEncodeRest(c, open, content);
    assert open.released + content == content;
  }

  // ----- any cut of the input -----

  function Flatten<T>(pieces: seq<seq<T>>): seq<T>
  {
    if pieces == [] then [] else pieces[0] + Flatten(pieces[1..])
  }

  /** One Write after another, up to the first failure. */
  function FeedPieces(c: Compress, s: State, pieces: seq<seq<byte>>): (o: Outcome)
    requires Shape(s)
    decreases |pieces|
  {
    if pieces == [] then Outcome(s, None, 0)
    else
      var o := Feed(c, s, pieces[0]);
      if o.error.Some? then o else Later(FeedPieces(c, o.state, pieces[1..]), |pieces[0]|)
  }

  /** However the input is cut into writes, the decoder ends in the same state with the same verdict. */
  lemma {:induction false} CutsDoNotMatter(c: Compress, s: State, pieces: seq<seq<byte>>)
    requires Shape(s)
    ensures FeedPieces(c, s, pieces) == Feed(c, s, Flatten(pieces))
    decreases |pieces|
  {
    if pieces != [] {
      FeedConcat(c, s, pieces[0], Flatten(pieces[1..]));
      var o := Feed(c, s, pieces[0]);
      if o.error.None? { CutsDoNotMatter(c, o.state, pieces[1..]); }
    }
  }

  lemma RoundTripInPieces(c: Compress, content: seq<byte>, pieces: seq<seq<byte>>)
    requires |content| < INT64_LIMIT && Flatten(pieces) == Encode(c, content)
    ensures var root := CvFrom(Root(c, content));
            Shape(Initial(root, |content|))
            && FeedPieces(c, Initial(root, |content|), pieces)
               == Outcome(Final(root, content), None, EncodedSize(|content|))
  {
    RoundTrip(c, content);
    EncodeSize(c, content);
    CutsDoNotMatter(c, Initial(CvFrom(Root(c, content)), |content|), pieces);
  }

  // ----- how many bytes are still to come -----

  /** The encoded bytes a decoder still waits for. */
  function Remaining(s: State): int
  {
    (if s.gotHeader then 0 else 8)
    + 64 * (NumGroups(s.contentLen) - s.verifiedGroups - |s.stack|)
    + s.contentLen - |s.released| - |s.buf|
  }

  lemma AcceptRemaining(c: Compress, s: State, item: seq<byte>)
    requires Spans(s) && s.gotHeader && s.buf == [] && s.stack != [] && |item| == Need(s)
    requires Accept(c, s, item).error.None?
    ensures Remaining(Accept(c, s, item).state) == Remaining(s) - |item|
  {
  }

  /** Every byte taken without failure brings completion one byte closer. */
  lemma {:induction false} FeedRemaining(c: Compress, s: State, p: seq<byte>)
    requires Shape(s) && Feed(c, s, p).error.None?
    ensures Remaining(Feed(c, s, p).state) == Remaining(s) - |p|
    decreases |p|
  {
    hide SubtreeCV, Left, Accept;
    if p != [] {
      var buf := s.buf + [p[0]];
      if |buf| >= Wanted(s) {
        if s.gotHeader { AcceptRemaining(c, s.(buf := []), buf); }
        else if s.contentLen == 0 { AcceptRemaining(c, s.(gotHeader := true, buf := []), []); }
      }
      FeedRemaining(c, Step(c, s, p[0]).state, p[1..]);
    }
  }

  lemma {:induction false} StackIsShort(stack: seq<Span>, lo: nat, n: nat)
    requires Tiles(stack, lo, n)
    ensures |stack| <= n - lo
    ensures stack != [] ==> |stack| + (Last(stack).hi - Last(stack).lo) - 1 <= n - lo
    decreases |stack|
  {
    if stack != [] { StackIsShort(Pop(stack), Last(stack).hi, n); }
  }

  /** A decoder is complete exactly when nothing more is to come. */
  lemma CompleteWhenNothingRemains(s: State)
    requires Shape(s)
    ensures Remaining(s) >= 0 && (Remaining(s) == 0 <==> Complete(s))
  {
    StackIsShort(s.stack, s.verifiedGroups, NumGroups(s.contentLen));
    if s.stack != [] {
      var top := Last(s.stack);
      if s.gotHeader && top.hi - top.lo == 1 {
        assert Offset(s.contentLen, top.hi) <= s.contentLen;
        assert GroupSize(s.contentLen, top.lo) <= s.contentLen - |s.released|;
      }
    }
  }

  /** A stream that has not failed is complete exactly at its EncodedSize-th byte. */
  lemma CompleteAtEncodedSize(c: Compress, root: CV, contentLen: nat, p: seq<byte>)
    requires contentLen < INT64_LIMIT
    ensures Shape(Initial(root, contentLen))
    ensures var o := Feed(c, Initial(root, contentLen), p);
            o.error.None? ==> |p| <= EncodedSize(contentLen) && (Complete(o.state) <==> |p| == EncodedSize(contentLen))
  {
    InitialShape(root, contentLen);
    var s := Initial(root, contentLen);
    var o := Feed(c, s, p);
    assert Remaining(s) == EncodedSize(contentLen);
    if o.error.None? {
      FeedRemaining(c, s, p);
      CompleteWhenNothingRemains(o.state);
    }
  }

  // ----- soundness -----

  /** An item is accepted just when its chaining value is the wanted one. */
  lemma AcceptedMeans(c: Compress, s: State, item: seq<byte>)
    requires Spans(s) && s.gotHeader && s.stack != [] && |item| == Need(s) && Accept(c, s, item).error.None?
    ensures var top := Last(s.stack);
            if top.hi - top.lo == 1 then SubtreeCV(c, item, top.lo * GROUP_CHUNKS, top.root) == top.want
            else |item| == 64 && ParentCV(c, CvFrom(item[..32]), CvFrom(item[32..]), top.root) == top.want
    ensures Last(s.stack).lo < Last(s.stack).hi <= NumGroups(s.contentLen)
  {
    hide SubtreeCV, Left, NumGroups, Offset, ParentCV, CvFrom;
  }

  /** What follows an accepted item determines what the stack expected before it. */
  lemma AcceptedItem(c: Compress, s: State, item: seq<byte>, rest': seq<byte>) returns (rest: seq<byte>)
    requires Spans(s) && s.gotHeader && s.stack != [] && s.buf == [] && |item| == Need(s)
    requires Accept(c, s, item).error.None? && Fits(c, s.contentLen, Accept(c, s, item).state.stack, rest')
    ensures Fits(c, s.contentLen, s.stack, rest)
    ensures EncodeRest(c, s.contentLen, s.stack, rest)
            == item + EncodeRest(c, s.contentLen, Accept(c, s, item).state.stack, rest')
    ensures Accept(c, s, item).state.released + rest' == s.released + rest
    ensures Items(Accept(c, s, item).state.stack) < Items(s.stack)
  {
    hide SubtreeCV, EncodeTree, Left, NumGroups, Fits, EncodeRest, Items, Accept, Tiles, Offset, GroupSize, ParentCV,
         CvFrom, CvBytes;
    AcceptedMeans(c, s, item);
    var top, below := Last(s.stack), Pop(s.stack);
    assert s.stack == below + [top];
    if top.hi - top.lo == 1 {
      GroupSpan(s.contentLen, top);
      AcceptGroup(c, s, below, top, item);
      rest := item + rest';
      SmallTree(c, item, top.lo * GROUP_CHUNKS);
      AtTop(c, s.contentLen, below, top, item, rest');
      assert (s.released + item) + rest' == s.released + rest;
    } else {
      var l, r := CvFrom(item[..32]), CvFrom(item[32..]);
      CvBytesOfCvFrom(item[..32]);
      CvBytesOfCvFrom(item[32..]);
      assert item == CvBytes(l) + CvBytes(r);
      AcceptParent(c, s, below, top, l, r);
      rest := rest';
      FitsHalves(c, s.contentLen, below, top, l, r, rest);
    }
  }

  /** Bytes that lead to completion are the encoding of what they release, and what they release verifies. */
  lemma {:induction false} CompletedIsEncoding(c: Compress, s: State, p: seq<byte>) returns (rest: seq<byte>)
    requires Loose(s) && s.gotHeader && s.buf == []
    requires Resume(c, s, p).error.None? && Complete(Resume(c, s, p).state)
    ensures Resume(c, s, p).state.released == s.released + rest
    ensures Fits(c, s.contentLen, s.stack, rest) && p == EncodeRest(c, s.contentLen, s.stack, rest)
    decreases |p|, Items(s.stack)
  {
    if s.stack == [] {
      return [];
    }
    hide SubtreeCV, NumGroups, Fits, EncodeRest, Items, Accept;
    if |p| < Need(s) {
      TakeShort(c, s, p);
      return;
    }
    FirstItem(c, s, p);
    var item, tail := p[..Need(s)], p[Need(s)..];
    assert p == item + tail;
    AcceptKeepsHeader(c, s, item);
    var next := Accept(c, s, item).state;
    var rest' := CompletedIsEncoding(c, next, tail);
    rest := AcceptedItem(c, s, item, rest');
  }

  lemma AcceptKeepsHeader(c: Compress, s: State, item: seq<byte>)
    requires Spans(s) && s.gotHeader && s.stack != [] && |item| == Need(s) && Accept(c, s, item).error.None?
    ensures var next := Accept(c, s, item).state;
            next.gotHeader && next.buf == [] && next.contentLen == s.contentLen
            && (Need(s) == 0 ==> Items(next.stack) < Items(s.stack))
  {
    hide SubtreeCV;
  }

  /** Whether a decoder for (digest, contentLen) takes p without failing and is then complete. */
  ghost predicate Accepts(c: Compress, digest: seq<byte>, contentLen: nat, p: seq<byte>)
    requires |digest| == 32 && contentLen < INT64_LIMIT
  {
    InitialShape(CvFrom(digest), contentLen);
    var o := Feed(c, Initial(CvFrom(digest), contentLen), p);
    o.error.None? && Complete(o.state)
  }

  /** What a completed decoder has released. */
  function Released(c: Compress, digest: seq<byte>, contentLen: nat, p: seq<byte>): seq<byte>
    requires |digest| == 32 && contentLen < INT64_LIMIT
  {
    InitialShape(CvFrom(digest), contentLen);
    Feed(c, Initial(CvFrom(digest), contentLen), p).state.released
  }

  /** Soundness on arbitrary input: a completed decoder has released content with the digest, and read its encoding. */
  lemma AcceptedIsVerified(c: Compress, digest: seq<byte>, contentLen: nat, p: seq<byte>)
    requires |digest| == 32 && contentLen < INT64_LIMIT && Accepts(c, digest, contentLen, p)
    ensures var content := Released(c, digest, contentLen, p);
            |content| == contentLen && Root(c, content) == digest && p == Encode(c, content)
  {
    hide SubtreeCV, EncodeTree, EncodeRest, CvFrom, NumGroups;
    var root := CvFrom(digest);
    var content := Released(c, digest, contentLen, p);
    CompleteAtEncodedSize(c, root, contentLen, p);
    HeaderFirst(c, root, contentLen, p);
    var open := Initial(root, contentLen).(gotHeader := true);
    var rest := CompletedIsEncoding(c, open, p[8..]);
    assert open.released + rest == rest;
    InitialShape(root, contentLen);
    FitsLength(c, contentLen, open.stack, 0, content);
    WholeOnly(c, contentLen, root, content);
    RootDeterminesCV(c, content, digest);
    assert p == p[..8] + p[8..];
  }

  /** What fits the root span has its chaining value and is encoded as one tree. */
  lemma WholeOnly(c: Compress, contentLen: nat, root: CV, content: seq<byte>)
    requires |content| == contentLen && Fits(c, contentLen, Initial(root, contentLen).stack, content)
    ensures SubtreeCV(c, content, 0, true) == root
    ensures EncodeRest(c, contentLen, Initial(root, contentLen).stack, content) == EncodeTree(c, content, 0)
  {
    hide SubtreeCV, EncodeTree;
    var stack := Initial(root, contentLen).stack;
    assert stack == [] + stack && content == content + [];
    AtTop(c, contentLen, [], stack[0], content, []);
  }

  /** The decoder accepts exactly the encodings of contents with the given digest and length. */
  lemma AcceptsExactlyEncodings(c: Compress, digest: seq<byte>, contentLen: nat, p: seq<byte>)
    requires |digest| == 32 && contentLen < INT64_LIMIT
    ensures Accepts(c, digest, contentLen, p)
            <==> exists content :: |content| == contentLen && Root(c, content) == digest && p == Encode(c, content)
  {
    if Accepts(c, digest, contentLen, p) {
      AcceptedIsVerified(c, digest, contentLen, p);
    }
    forall content | |content| == contentLen && Root(c, content) == digest && p == Encode(c, content)
      ensures Accepts(c, digest, contentLen, p)
    {
      RoundTrip(c, content);
    }
  }

  /**
   A digest has one content: two streams that complete decoders for it, whatever lengths were declared, are the same
   stream with the same content, or else their contents exhibit a collision of the compression function.
   */
  lemma OneContentPerDigest(c: Compress, digest: seq<byte>, n: nat, p: seq<byte>, m: nat, q: seq<byte>)
    requires |digest| == 32 && n < INT64_LIMIT && m < INT64_LIMIT
    requires Accepts(c, digest, n, p) && Accepts(c, digest, m, q)
    ensures var a, b := Released(c, digest, n, p), Released(c, digest, m, q);
            if a == b then n == m && p == q
            else var pair := SubtreeCollision(c, a, b, 0, true); Collides(c, pair.0, pair.1)
  {
    hide Accepts, Released, Encode, Root, SubtreeCollision;
    AcceptedIsVerified(c, digest, n, p);
    AcceptedIsVerified(c, digest, m, q);
    var a, b := Released(c, digest, n, p), Released(c, digest, m, q);
    if a != b { DigestBinds(c, a, b); }
  }

  // ----- before completion -----

  /** Everything released so far is a prefix of content, and every pending span is content's. */
  ghost predicate Agrees(c: Compress, s: State, content: seq<byte>)
  {
    s.released <= content && Fits(c, s.contentLen, s.stack, content[|s.released|..])
  }

  /** The item content has where the decoder stands, and the compression inputs that an impostor would collide with. */
  function Genuine(c: Compress, s: State, content: seq<byte>): seq<byte>
  {
    Clamp(EncodeRest(c, s.contentLen, s.stack, Clamp(content, |s.released|, |content| + |s.released|)), 0,
          if s.stack != [] && Last(s.stack).lo < NumGroups(s.contentLen) then Need(s) else 0)
  }

  function ItemCollision(c: Compress, top: Span, item: seq<byte>, genuine: seq<byte>): (Input, Input)
    requires |item| == |genuine| && (top.hi - top.lo > 1 ==> |item| == 64)
  {
    if top.hi - top.lo > 1 then
      (ParentInput(CvFrom(item[..32]), CvFrom(item[32..]), top.root),
       ParentInput(CvFrom(genuine[..32]), CvFrom(genuine[32..]), top.root))
    else SubtreeCollision(c, item, genuine, top.lo * GROUP_CHUNKS, top.root)
  }

  /** The collision at the first accepted item of p that is not content's, if there is such an item. */
  function Divergence(c: Compress, s: State, p: seq<byte>, content: seq<byte>): Option<(Input, Input)>
    requires Shape(s)
    decreases |p|
  {
    if p == [] then None
    else
      var buf := s.buf + [p[0]];
      var o := Step(c, s, p[0]);
      if o.error.Some? then None
      else if s.gotHeader && |buf| == Wanted(s) && buf != Genuine(c, s, content)
        && |buf| == |Genuine(c, s, content)| then
        Some(ItemCollision(c, Last(s.stack), buf, Genuine(c, s, content)))
      else Divergence(c, o.state, p[1..], content)
  }

  /** An accepted item that is not the genuine one collides with it. */
  lemma ImpostorCollides(c: Compress, s: State, item: seq<byte>, genuine: seq<byte>)
    requires Spans(s) && s.gotHeader && s.stack != [] && |item| == |genuine| == Need(s) && item != genuine
    requires Accept(c, s, item).error.None? && Accept(c, s, genuine).error.None?
    ensures var p := ItemCollision(c, Last(s.stack), item, genuine); Collides(c, p.0, p.1)
  {
    hide SubtreeCV, NumGroups, SubtreeCollision;
    var top := Last(s.stack);
    if top.hi - top.lo == 1 {
      SubtreeCollides(c, item, genuine, top.lo * GROUP_CHUNKS, top.root);
    } else {
      CvBytesOfCvFrom(item[..32]);
      CvBytesOfCvFrom(item[32..]);
      CvBytesOfCvFrom(genuine[..32]);
      CvBytesOfCvFrom(genuine[32..]);
      assert item == item[..32] + item[32..] && genuine == genuine[..32] + genuine[32..];
      ParentInputInjective(CvFrom(item[..32]), CvFrom(item[32..]), CvFrom(genuine[..32]), CvFrom(genuine[32..]),
        top.root);
    }
  }

  /** An accepted item is the genuine one and agreement goes on, or it collides with the genuine one. */
  lemma AcceptAgrees(c: Compress, s: State, item: seq<byte>, content: seq<byte>)
    requires Spans(s) && s.gotHeader && s.buf == [] && s.stack != [] && |item| == Need(s) && Agrees(c, s, content)
    requires Accept(c, s, item).error.None?
    ensures |Genuine(c, s, content)| == |item|
    ensures item == Genuine(c, s, content) ==> Agrees(c, Accept(c, s, item).state, content)
    ensures item != Genuine(c, s, content) ==>
              var p := ItemCollision(c, Last(s.stack), item, Genuine(c, s, content)); Collides(c, p.0, p.1)
  {
    hide SubtreeCV, NumGroups, Fits, EncodeRest, Accept, ItemCollision;
    var rest := content[|s.released|..];
    assert Clamp(content, |s.released|, |content| + |s.released|) == rest;
    var e := EncodeRest(c, s.contentLen, s.stack, rest);
    var genuine, next, rest' := GenuineItem(c, s, rest);
    assert e[..|genuine|] == genuine == Genuine(c, s, content);
    assert content == s.released + rest == next.released + rest';
    assert content[|next.released|..] == rest';
    if item != genuine { ImpostorCollides(c, s, item, genuine); }
  }

  lemma FailedStepReleasesNothing(c: Compress, s: State, b: byte)
    requires Shape(s) && Step(c, s, b).error.Some?
    ensures Step(c, s, b).state.released == s.released
  {
    hide SubtreeCV;
  }

  /** One more byte keeps the agreement, unless it completes an item that collides with the genuine one. */
  lemma StepAgrees(c: Compress, s: State, b: byte, content: seq<byte>)
    requires Shape(s) && Agrees(c, s, content) && Step(c, s, b).error.None?
    ensures var item := s.buf + [b];
            var genuine := Genuine(c, s, content);
            if s.gotHeader && |item| == Wanted(s) && item != genuine then
              |item| == |genuine|
              && var p := ItemCollision(c, Last(s.stack), item, genuine); Collides(c, p.0, p.1)
            else Agrees(c, Step(c, s, b).state, content)
  {
    hide SubtreeCV, Accept, EncodeRest, Fits;
    var item := s.buf + [b];
    if |item| == Wanted(s) {
      if s.gotHeader {
        AcceptAgrees(c, s.(buf := []), item, content);
      } else if s.contentLen == 0 {
        var open := s.(gotHeader := true, buf := []);
        AcceptAgrees(c, open, [], content);
        assert Genuine(c, open, content) == [];
      }
    }
  }

  /**
   At every moment, failed or not, the released bytes are a prefix of any content the decoder agrees with, or
   Divergence exhibits a collision of the compression function.
   */
  lemma {:induction false} ReleasesOnlyContent(c: Compress, s: State, p: seq<byte>, content: seq<byte>)
    requires Shape(s) && Agrees(c, s, content)
    ensures match Divergence(c, s, p, content)
            case None => Feed(c, s, p).state.released <= content
            case Some(pair) => Collides(c, pair.0, pair.1)
    decreases |p|
  {
    hide Step, Fits, Genuine, ItemCollision;
    if p == [] {
    } else if Step(c, s, p[0]).error.Some? {
      FailedStepReleasesNothing(c, s, p[0]);
    } else {
      StepAgrees(c, s, p[0], content);
      if Agrees(c, Step(c, s, p[0]).state, content) {
        ReleasesOnlyContent(c, Step(c, s, p[0]).state, p[1..], content);
      }
    }
  }

  /** From the start: with content of the right digest and length, nothing but its prefixes is ever released. */
  lemma NothingUnverifiedIsReleased(c: Compress, digest: seq<byte>, p: seq<byte>, content: seq<byte>)
    requires |digest| == 32 && |content| < INT64_LIMIT && Root(c, content) == digest
    ensures Shape(Initial(CvFrom(digest), |content|))
    ensures match Divergence(c, Initial(CvFrom(digest), |content|), p, content)
            case None => Released(c, digest, |content|, p) <= content
            case Some(pair) => Collides(c, pair.0, pair.1)
  {
    InitialShape(CvFrom(digest), |content|);
    RootDeterminesCV(c, content, digest);
    WholeFits(c, content, CvFrom(digest));
    assert content[0..] == content;
    ReleasesOnlyContent(c, Initial(CvFrom(digest), |content|), p, content);
  }
}
