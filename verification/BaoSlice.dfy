/**
 The slice form of the mlp-bao encoding and its verifying walker (conformance/generators/tv-008.py:145-223): only
 the groups a byte range keeps, with the parent nodes that lead to them.
 */
module BaoSlice {
  import opened Bytes
  import opened Blake3
  import opened BaoEncoder
  import opened BaoDecoder
  import opened BaoProofs
  import opened Wrappers

  /** Bytes from..to (exclusive) of the content. */
  datatype Range = Range(from: nat, length: nat) {
    function To(): nat { from + length }
  }

  datatype SliceError = LengthHeader | SliceGroup(group: nat) | SliceParent(lo: nat, last: nat)

  function Min(a: nat, b: nat): nat { if a <= b then a else b }

  predicate Keep(rng: Range, contentLen: nat, lo: nat, hi: nat)
  {
    lo * GROUP < rng.To() && rng.from < Min(hi * GROUP, if contentLen == 0 then 1 else contentLen)
  }

  /** The bytes of groups lo..hi. */
  function Groups(content: seq<byte>, lo: nat, hi: nat): seq<byte>
    requires lo <= hi
  {
    OffsetMonotone(|content|, lo, hi);
    content[Offset(|content|, lo)..Offset(|content|, hi)]
  }

  function GroupsCV(c: Compress, content: seq<byte>, lo: nat, hi: nat, root: bool): CV
    requires lo <= hi
  {
    SubtreeCV(c, Groups(content, lo, hi), lo * GROUP_CHUNKS, root)
  }

  // ----- the encoder -----

  function EncodeWalk(c: Compress, content: seq<byte>, rng: Range, lo: nat, hi: nat): seq<byte>
    requires lo < hi <= NumGroups(|content|)
    decreases hi - lo
  {
    if hi - lo == 1 then
      if Keep(rng, |content|, lo, hi) then Groups(content, lo, hi) else []
    else if !Keep(rng, |content|, lo, hi) then []
    else
      var mid := lo + Left(hi - lo);
      CvBytes(GroupsCV(c, content, lo, mid, false)) + CvBytes(GroupsCV(c, content, mid, hi, false))
      + EncodeWalk(c, content, rng, lo, mid) + EncodeWalk(c, content, rng, mid, hi)
  }

  function EncodeSlice(c: Compress, content: seq<byte>, rng: Range): seq<byte>
  {
    Header(|content|) + EncodeWalk(c, content, rng, 0, NumGroups(|content|))
  }

  // ----- the verifier -----

  /** What the walker has done: its position in the slice and the groups verified, or where it failed. */
  type WalkResult = Result<(nat, seq<nat>), SliceError>

  function VerifyWalk(c: Compress, sl: seq<byte>, contentLen: nat, rng: Range, pos: nat, lo: nat, hi: nat, want: CV,
                      root: bool): (r: WalkResult)
    requires lo < hi <= NumGroups(contentLen)
    decreases hi - lo
  {
    if !Keep(rng, contentLen, lo, hi) then Ok((pos, []))
    else if hi - lo == 1 then
      var size := GroupSize(contentLen, lo);
      if SubtreeCV(c, Clamp(sl, pos, pos + size), lo * GROUP_CHUNKS, root) != want then Err(SliceGroup(lo))
      else Ok((pos + size, [lo]))
    else
      var l, r := NodeCV(sl, pos), NodeCV(sl, pos + 32);
      if ParentCV(c, l, r, root) != want then Err(SliceParent(lo, hi - 1))
      else
        var mid := lo + Left(hi - lo);
        match VerifyWalk(c, sl, contentLen, rng, pos + 64, lo, mid, l, false)
        case Err(e) => Err(e)
        case Ok((p, first)) =>
          match VerifyWalk(c, sl, contentLen, rng, p, mid, hi, r, false)
          case Err(e) => Err(e)
          case Ok((q, second)) => Ok((q, first + second))
  }

  /** VerifyWalk, one level deep. */
  lemma UnfoldVerify(c: Compress, sl: seq<byte>, contentLen: nat, rng: Range, pos: nat, lo: nat, hi: nat, want: CV,
                     root: bool)
    requires lo < hi <= NumGroups(contentLen)
    ensures var v := VerifyWalk(c, sl, contentLen, rng, pos, lo, hi, want, root);
            var size := GroupSize(contentLen, lo);
            var l, r := NodeCV(sl, pos), NodeCV(sl, pos + 32);
            if !Keep(rng, contentLen, lo, hi) then v == Ok((pos, []))
            else if hi - lo == 1 then
              v == if SubtreeCV(c, Clamp(sl, pos, pos + size), lo * GROUP_CHUNKS, root) != want then Err(SliceGroup(lo))
                   else Ok((pos + size, [lo]))
            else if ParentCV(c, l, r, root) != want then v == Err(SliceParent(lo, hi - 1))
            else
              var mid := lo + Left(hi - lo);
              v == match VerifyWalk(c, sl, contentLen, rng, pos + 64, lo, mid, l, false)
                   case Err(e) => Err(e)
                   case Ok((p, first)) =>
                     match VerifyWalk(c, sl, contentLen, rng, p, mid, hi, r, false)
                     case Err(e) => Err(e)
                     case Ok((q, second)) => Ok((q, first + second))
  {
    hide SubtreeCV, Left, NumGroups, Offset, Keep, GroupSize, NodeCV, Clamp, ParentCV;
  }

  /** The chaining value at pos of the slice; bytes the slice does not have read as zero. */
  function NodeCV(sl: seq<byte>, pos: nat): CV
  {
    var node := Clamp(sl, pos, pos + 32);
    CvFrom(node + Zeros(32 - |node|))
  }

  function VerifySlice(c: Compress, sl: seq<byte>, root: CV, contentLen: nat, rng: Range): Result<seq<nat>, SliceError>
  {
    if FromLE(Clamp(sl, 0, 8)) != contentLen then Err(LengthHeader)
    else
      match VerifyWalk(c, sl, contentLen, rng, 8, 0, NumGroups(contentLen), root, true)
      case Err(e) => Err(e)
      case Ok((_, groups)) => Ok(groups)
  }

  /** The walker as the source runs it, with a shared position and a shared list of verified groups. */
  class Walker {
    const c: Compress
    const sl: seq<byte>
    const contentLen: nat
    const rng: Range
    var pos: nat
    var verified: seq<nat>

    constructor (c: Compress, sl: seq<byte>, contentLen: nat, rng: Range)
      ensures this.c == c && this.sl == sl && this.contentLen == contentLen && this.rng == rng
      ensures pos == 8 && verified == []
    {
      this.c, this.sl, this.contentLen, this.rng := c, sl, contentLen, rng;
      pos, verified := 8, [];
    }

    method Walk(lo: nat, hi: nat, want: CV, root: bool) returns (err: Option<SliceError>)
      requires lo < hi <= NumGroups(contentLen)
      modifies this
      ensures match VerifyWalk(c, sl, contentLen, rng, old(pos), lo, hi, want, root)
              case Ok((p, groups)) => err == None && pos == p && verified == old(verified) + groups
              case Err(e) => err == Some(e)
      decreases hi - lo
    {
      hide SubtreeCV, Left, NumGroups, Offset, Keep, GroupSize, NodeCV, Clamp, ParentCV, VerifyWalk;
      UnfoldVerify(c, sl, contentLen, rng, pos, lo, hi, want, root);
      if hi - lo == 1 {
        if !Keep(rng, contentLen, lo, hi) { return None; }
        var size := GroupSize(contentLen, lo);
        var data := Clamp(sl, pos, pos + size);
        pos := pos + size;
        var got := SubtreeCV(c, data, lo * GROUP_CHUNKS, root);
        if got != want { return Some(SliceGroup(lo)); }
        verified := verified + [lo];
        return None;
      }
      if !Keep(rng, contentLen, lo, hi) { return None; }
      var l, r := NodeCV(sl, pos), NodeCV(sl, pos + 32);
      pos := pos + 64;
      if ParentCV(c, l, r, root) != want { return Some(SliceParent(lo, hi - 1)); }
      var left := LeftLoop(hi - lo);
      err := Walk(lo, lo + left, l, false);
      if err.Some? { return err; }
      err := Walk(lo + left, hi, r, false);
    }
  }

  // ----- which groups a range keeps -----

  /** The groups in lo..hi that the range keeps, in order. */
  function KeptGroups(rng: Range, contentLen: nat, lo: nat, hi: nat): (s: seq<nat>)
    requires lo <= hi
    ensures forall g :: g in s <==> lo <= g < hi && Keep(rng, contentLen, g, g + 1)
    ensures forall i :: 0 <= i < |s| ==> lo <= s[i]
    ensures forall i, j :: 0 <= i < j < |s| ==> s[i] < s[j]
    decreases hi - lo
  {
    if lo == hi then []
    else (if Keep(rng, contentLen, lo, lo + 1) then [lo] else []) + KeptGroups(rng, contentLen, lo + 1, hi)
  }

  lemma {:induction false} KeptInTwo(rng: Range, contentLen: nat, lo: nat, mid: nat, hi: nat)
    requires lo <= mid <= hi
    ensures KeptGroups(rng, contentLen, lo, hi)
            == KeptGroups(rng, contentLen, lo, mid) + KeptGroups(rng, contentLen, mid, hi)
    decreases mid - lo
  {
    if lo < mid { KeptInTwo(rng, contentLen, lo + 1, mid, hi); }
  }

  lemma {:induction false} DroppedTogether(rng: Range, contentLen: nat, lo: nat, hi: nat, i: nat)
    requires lo <= i <= hi && !Keep(rng, contentLen, lo, hi)
    ensures KeptGroups(rng, contentLen, i, hi) == []
    decreases hi - i
  {
    if i < hi { DroppedTogether(rng, contentLen, lo, hi, i + 1); }
  }

  predicate ByteOfGroup(contentLen: nat, g: nat, i: nat)
  {
    Offset(contentLen, g) <= i < Offset(contentLen, g + 1)
  }

  /** For a non-empty range and content, the kept groups are those with a byte in the range. */
  lemma KeepMeansMeets(rng: Range, contentLen: nat, g: nat)
    requires contentLen > 0 && rng.length > 0 && g < NumGroups(contentLen)
    ensures Keep(rng, contentLen, g, g + 1)
            <==> exists i :: rng.from <= i < rng.To() && ByteOfGroup(contentLen, g, i)
  {
    var i := if rng.from < g * GROUP then g * GROUP else rng.from;
    if Keep(rng, contentLen, g, g + 1) {
      assert rng.from <= i < rng.To() && ByteOfGroup(contentLen, g, i);
    }
  }

  // ----- round trip -----

  lemma GroupsCut(c: Compress, content: seq<byte>, lo: nat, hi: nat, root: bool)
    requires lo + 2 <= hi <= NumGroups(|content|)
    ensures var mid := lo + Left(hi - lo);
            GroupsCV(c, content, lo, hi, root)
            == ParentCV(c, GroupsCV(c, content, lo, mid, false), GroupsCV(c, content, mid, hi, false), root)
            && EncodeTree(c, Groups(content, lo, hi), lo * GROUP_CHUNKS)
               == CvBytes(GroupsCV(c, content, lo, mid, false)) + CvBytes(GroupsCV(c, content, mid, hi, false))
                  + EncodeTree(c, Groups(content, lo, mid), lo * GROUP_CHUNKS)
                  + EncodeTree(c, Groups(content, mid, hi), mid * GROUP_CHUNKS)
  {
    hide SubtreeCV, EncodeTree, NumGroups, Left;
    var top := Span(IV, lo, hi, root);
    var mid := lo + Left(hi - lo);
    OffsetMonotone(|content|, lo, mid);
    OffsetMonotone(|content|, mid, hi);
    hide Offset;
    var a, b := Groups(content, lo, mid), Groups(content, mid, hi);
    assert Groups(content, lo, hi) == a + b;
    var dl, dr, l, r := CutSpan(c, |content|, top, a + b);
    assert dl == (dl + dr)[..|dl|] == (a + b)[..|a|] == a;
    assert dr == (dl + dr)[|dl|..] == (a + b)[|a|..] == b;
  }

  /** e stands at pos of sl. */
  predicate At(sl: seq<byte>, pos: nat, e: seq<byte>)
  {
    pos + |e| <= |sl| && sl[pos..pos + |e|] == e
  }

  lemma AtParts(sl: seq<byte>, pos: nat, a: seq<byte>, b: seq<byte>)
    requires At(sl, pos, a + b)
    ensures At(sl, pos, a) && At(sl, pos + |a|, b)
  {
    var e := sl[pos..pos + |a + b|];
    assert e[..|a|] == a && e[|a|..] == b;
  }

  lemma NodeAt(sl: seq<byte>, pos: nat, cv: CV)
    requires At(sl, pos, CvBytes(cv))
    ensures NodeCV(sl, pos) == cv
  {
    assert CvBytes(cv) + Zeros(0) == CvBytes(cv);
    CvRoundTrip(cv);
  }

  /** The walker at a kept parent node both of whose sides verify. */
  lemma VerifyBothSides(c: Compress, sl: seq<byte>, contentLen: nat, rng: Range, pos: nat, lo: nat, hi: nat, l: CV,
                        r: CV,
                        root: bool, p: nat, first: seq<nat>, q: nat, second: seq<nat>)
    requires lo + 2 <= hi <= NumGroups(contentLen) && Keep(rng, contentLen, lo, hi)
    requires NodeCV(sl, pos) == l && NodeCV(sl, pos + 32) == r
    requires VerifyWalk(c, sl, contentLen, rng, pos + 64, lo, lo + Left(hi - lo), l, false) == Ok((p, first))
    requires VerifyWalk(c, sl, contentLen, rng, p, lo + Left(hi - lo), hi, r, false) == Ok((q, second))
    ensures VerifyWalk(c, sl, contentLen, rng, pos, lo, hi, ParentCV(c, l, r, root), root) == Ok((q, first + second))
  {
    hide NumGroups, Left, Keep, NodeCV, ParentCV;
  }

  lemma LeafOfWalk(c: Compress, content: seq<byte>, rng: Range, lo: nat, hi: nat)
    requires hi == lo + 1 <= NumGroups(|content|) && Keep(rng, |content|, lo, hi)
    ensures EncodeWalk(c, content, rng, lo, hi) == Groups(content, lo, hi)
    ensures KeptGroups(rng, |content|, lo, hi) == [lo]
  {
    hide SubtreeCV, NumGroups, Offset, Keep, Groups;
    assert KeptGroups(rng, |content|, hi, hi) == [];
    assert hi - lo == 1;
  }

  lemma NodeOfWalk(c: Compress, content: seq<byte>, rng: Range, lo: nat, hi: nat)
    requires lo + 2 <= hi <= NumGroups(|content|) && Keep(rng, |content|, lo, hi)
    ensures var mid := lo + Left(hi - lo);
            EncodeWalk(c, content, rng, lo, hi)
            == CvBytes(GroupsCV(c, content, lo, mid, false)) + CvBytes(GroupsCV(c, content, mid, hi, false))
               + EncodeWalk(c, content, rng, lo, mid) + EncodeWalk(c, content, rng, mid, hi)
  {
    hide GroupsCV, NumGroups, Left, Keep, CvBytes;
  }

  lemma WalkLeaf(c: Compress, content: seq<byte>, rng: Range, sl: seq<byte>, pos: nat, lo: nat, hi: nat, root: bool)
    requires hi == lo + 1 <= NumGroups(|content|) && Keep(rng, |content|, lo, hi)
             && At(sl, pos, Groups(content, lo, hi))
    ensures VerifyWalk(c, sl, |content|, rng, pos, lo, hi, GroupsCV(c, content, lo, hi, root), root)
            == Ok((pos + |Groups(content, lo, hi)|, [lo]))
  {
    var size := GroupSize(|content|, lo);
    var data := Groups(content, lo, hi);
    assert |data| == size by { hide NumGroups; }
    hide SubtreeCV, NumGroups, Keep, Offset, GroupSize, Groups;
    assert Clamp(sl, pos, pos + size) == data;
  }

  lemma DroppedWalk(c: Compress, content: seq<byte>, rng: Range, sl: seq<byte>, pos: nat, lo: nat, hi: nat, root: bool)
    requires lo < hi <= NumGroups(|content|) && !Keep(rng, |content|, lo, hi)
    ensures EncodeWalk(c, content, rng, lo, hi) == [] && KeptGroups(rng, |content|, lo, hi) == []
    ensures VerifyWalk(c, sl, |content|, rng, pos, lo, hi, GroupsCV(c, content, lo, hi, root), root) == Ok((pos, []))
  {
    hide SubtreeCV, NumGroups, Keep;
    DroppedTogether(rng, |content|, lo, hi, lo);
  }

  /** The walker accepts what the encoder wrote for lo..hi, wherever it stands, and reports the kept groups. */
  lemma {:induction false} WalkRoundTrip(c: Compress, content: seq<byte>, rng: Range, sl: seq<byte>, pos: nat,
                                         lo: nat, hi: nat, root: bool)
    requires lo < hi <= NumGroups(|content|) && At(sl, pos, EncodeWalk(c, content, rng, lo, hi))
    ensures VerifyWalk(c, sl, |content|, rng, pos, lo, hi, GroupsCV(c, content, lo, hi, root), root)
            == Ok((pos + |EncodeWalk(c, content, rng, lo, hi)|, KeptGroups(rng, |content|, lo, hi)))
    decreases hi - lo
  {
    hide SubtreeCV, NumGroups, Offset, Left, Keep, NodeCV, CvBytes, Groups, GroupsCV, KeptGroups, VerifyWalk,
         EncodeWalk, ParentCV, At;
    if !Keep(rng, |content|, lo, hi) {
      DroppedWalk(c, content, rng, sl, pos, lo, hi, root);
    } else if hi - lo == 1 {
      LeafOfWalk(c, content, rng, lo, hi);
      WalkLeaf(c, content, rng, sl, pos, lo, hi, root);
    } else {
      var mid := lo + Left(hi - lo);
      NodeOfWalk(c, content, rng, lo, hi);
      var l, r := GroupsCV(c, content, lo, mid, false), GroupsCV(c, content, mid, hi, false);
      var el, er := EncodeWalk(c, content, rng, lo, mid), EncodeWalk(c, content, rng, mid, hi);
      AtParts(sl, pos, CvBytes(l) + CvBytes(r) + el, er);
      AtParts(sl, pos, CvBytes(l) + CvBytes(r), el);
      AtParts(sl, pos, CvBytes(l), CvBytes(r));
      NodeAt(sl, pos, l);
      NodeAt(sl, pos + 32, r);
      WalkRoundTrip(c, content, rng, sl, pos + 64, lo, mid, false);
      WalkRoundTrip(c, content, rng, sl, pos + 64 + |el|, mid, hi, false);
      GroupsCut(c, content, lo, hi, root);
      KeptInTwo(rng, |content|, lo, mid, hi);
      VerifyBothSides(c, sl, |content|, rng, pos, lo, hi, l, r, root, pos + 64 + |el|,
        KeptGroups(rng, |content|, lo, mid),
                      pos + 64 + |el| + |er|, KeptGroups(rng, |content|, mid, hi));
    }
  }

  /** Slice round trip: the verifier accepts the encoder's slice and returns exactly the kept groups, in order. */
  lemma SliceRoundTrip(c: Compress, content: seq<byte>, rng: Range)
    requires |content| < 2 * INT64_LIMIT
    ensures VerifySlice(c, EncodeSlice(c, content, rng), SubtreeCV(c, content, 0, true), |content|, rng)
            == Ok(KeptGroups(rng, |content|, 0, NumGroups(|content|)))
  {
    hide SubtreeCV, EncodeWalk, VerifyWalk;
    var n := NumGroups(|content|);
    var e := EncodeWalk(c, content, rng, 0, n);
    var sl := EncodeSlice(c, content, rng);
    assert sl[..8] == Header(|content|);
    Pow256Of8();
    FromLEToLE(|content|, 8);
    assert Groups(content, 0, n) == content;
    WalkRoundTrip(c, content, rng, sl, 8, 0, n, true);
  }

  lemma WholeRangeKeeps(content: seq<byte>, rng: Range, lo: nat, hi: nat)
    requires lo < hi <= NumGroups(|content|) && rng.from == 0 && rng.To() >= |content| && rng.To() > 0
    ensures Keep(rng, |content|, lo, hi)
  {
  }

  /** A range that keeps every group yields the combined form. */
  lemma {:induction false} FullWalkIsTree(c: Compress, content: seq<byte>, rng: Range, lo: nat, hi: nat)
    requires lo < hi <= NumGroups(|content|) && rng.from == 0 && rng.To() >= |content| && rng.To() > 0
    ensures EncodeWalk(c, content, rng, lo, hi) == EncodeTree(c, Groups(content, lo, hi), lo * GROUP_CHUNKS)
    decreases hi - lo
  {
    hide SubtreeCV, Left, Keep, NumGroups, CvBytes, Offset, EncodeWalk, EncodeTree, Groups, GroupsCV;
    WholeRangeKeeps(content, rng, lo, hi);
    if hi - lo == 1 {
      LeafOfWalk(c, content, rng, lo, hi);
      OneGroupAtMost(content, lo, hi);
      SmallTree(c, Groups(content, lo, hi), lo * GROUP_CHUNKS);
    } else {
      var mid := lo + Left(hi - lo);
      NodeOfWalk(c, content, rng, lo, hi);
      GroupsCut(c, content, lo, hi, false);
      FullWalkIsTree(c, content, rng, lo, mid);
      FullWalkIsTree(c, content, rng, mid, hi);
    }
  }

  lemma OneGroupAtMost(content: seq<byte>, lo: nat, hi: nat)
    requires hi == lo + 1
    ensures |Groups(content, lo, hi)| <= GROUP
  {
  }

  lemma FullSliceIsCombined(c: Compress, content: seq<byte>, rng: Range)
    requires rng.from == 0 && rng.To() >= |content| && rng.To() > 0
    ensures EncodeSlice(c, content, rng) == Encode(c, content)
  {
    var n := NumGroups(|content|);
    FullWalkIsTree(c, content, rng, 0, n);
    assert Groups(content, 0, n) == content;
  }
}
