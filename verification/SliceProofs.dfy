/** What a slice the walker accepts must hold (conformance/generators/tv-008.py:180-223). */
module SliceProofs {
  import opened Bytes
  import opened Blake3
  import opened BaoEncoder
  import opened BaoDecoder
  import opened BaoSlice
  import opened Wrappers

  /** e stands at pos of sl, as the walker reads it: what sl does not have reads as zero. */
  predicate Reads(sl: seq<byte>, pos: nat, e: seq<byte>)
  {
    forall i :: 0 <= i < |e| ==> e[i] == if pos + i < |sl| then sl[pos + i] else 0
  }

  lemma ReadsBoth(sl: seq<byte>, pos: nat, a: seq<byte>, b: seq<byte>)
    requires Reads(sl, pos, a) && Reads(sl, pos + |a|, b)
    ensures Reads(sl, pos, a + b)
  {
    forall i | 0 <= i < |a + b| ensures (a + b)[i] == if pos + i < |sl| then sl[pos + i] else 0 {
      if i >= |a| { assert (a + b)[i] == b[i - |a|]; }
    }
  }

  lemma NodeReads(sl: seq<byte>, pos: nat, cv: CV)
    requires NodeCV(sl, pos) == cv
    ensures Reads(sl, pos, CvBytes(cv))
  {
    var node := Clamp(sl, pos, pos + 32);
    CvBytesOfCvFrom(node + Zeros(32 - |node|));
  }

  /** The compression inputs that collide where the walk over sl first leaves content's tree, if it does. */
  function WalkDivergence(c: Compress, content: seq<byte>, rng: Range, sl: seq<byte>, pos: nat, lo: nat, hi: nat,
                          root: bool): Option<(Input, Input)>
    requires lo < hi <= NumGroups(|content|)
    decreases hi - lo
  {
    if !Keep(rng, |content|, lo, hi) then None
    else if hi - lo == 1 then
      var data := Clamp(sl, pos, pos + GroupSize(|content|, lo));
      if data == Groups(content, lo, hi) then None
      else Some(SubtreeCollision(c, data, Groups(content, lo, hi), lo * GROUP_CHUNKS, root))
    else
      var mid := lo + Left(hi - lo);
      var l, r := GroupsCV(c, content, lo, mid, false), GroupsCV(c, content, mid, hi, false);
      if NodeCV(sl, pos) != l || NodeCV(sl, pos + 32) != r then
        Some((ParentInput(NodeCV(sl, pos), NodeCV(sl, pos + 32), root), ParentInput(l, r, root)))
      else
        var d := WalkDivergence(c, content, rng, sl, pos + 64, lo, mid, false);
        if d.Some? then d
        else WalkDivergence(c, content, rng, sl, pos + 64 + |EncodeWalk(c, content, rng, lo, mid)|, mid, hi, false)
  }

  /** What an accepted walk over lo..hi proves: a collision, or that the encoder's bytes were read. */
  ghost predicate Sound(c: Compress, content: seq<byte>, rng: Range, sl: seq<byte>, pos: nat, lo: nat, hi: nat,
                        root: bool)
    requires lo < hi <= NumGroups(|content|)
  {
    match WalkDivergence(c, content, rng, sl, pos, lo, hi, root)
    case Some(p) => Collides(c, p.0, p.1)
    case None =>
      var e := EncodeWalk(c, content, rng, lo, hi);
      && VerifyWalk(c, sl, |content|, rng, pos, lo, hi, GroupsCV(c, content, lo, hi, root), root)
         == Ok((pos + |e|, KeptGroups(rng, |content|, lo, hi)))
      && Reads(sl, pos, e)
      && (content != [] && KeptGroups(rng, |content|, lo, hi) != [] ==> pos + |e| <= |sl|)
  }

  lemma GroupBytes(content: seq<byte>, lo: nat)
    requires lo < NumGroups(|content|)
    ensures |Groups(content, lo, lo + 1)| == GroupSize(|content|, lo)
    ensures content != [] ==> GroupSize(|content|, lo) > 0
  {
  }

  lemma SoundLeaf(c: Compress, content: seq<byte>, rng: Range, sl: seq<byte>, pos: nat, lo: nat, hi: nat, root: bool)
    requires hi == lo + 1 <= NumGroups(|content|) && Keep(rng, |content|, lo, hi)
    requires VerifyWalk(c, sl, |content|, rng, pos, lo, hi, GroupsCV(c, content, lo, hi, root), root).Ok?
    ensures Sound(c, content, rng, sl, pos, lo, hi, root)
  {
    hide SubtreeCV, NumGroups, Keep, Offset, GroupSize, Groups, EncodeWalk, SubtreeCollision, KeptGroups, VerifyWalk,
      Left;
    var size := GroupSize(|content|, lo);
    var data, genuine := Clamp(sl, pos, pos + size), Groups(content, lo, hi);
    GroupBytes(content, lo);
    LeafOfWalk(c, content, rng, lo, hi);
    UnfoldVerify(c, sl, |content|, rng, pos, lo, hi, GroupsCV(c, content, lo, hi, root), root);
    if data == genuine {
      assert size > 0 ==> pos + size <= |sl|;
    } else {
      SubtreeCollides(c, data, genuine, lo * GROUP_CHUNKS, root);
    }
  }

  /** After a kept group, a span that keeps no group is dropped whole. */
  lemma NothingAfter(rng: Range, contentLen: nat, lo: nat, mid: nat, hi: nat)
    requires contentLen > 0 && lo < mid < hi <= NumGroups(contentLen)
    requires KeptGroups(rng, contentLen, lo, mid) != [] && KeptGroups(rng, contentLen, mid, hi) == []
    ensures !Keep(rng, contentLen, mid, hi)
  {
    var g := KeptGroups(rng, contentLen, lo, mid)[0];
    assert g in KeptGroups(rng, contentLen, lo, mid);
    assert mid !in KeptGroups(rng, contentLen, mid, hi);
  }

  /** Both sides of a kept parent node: what the accepted walk did there. */
  lemma AcceptedNode(c: Compress, content: seq<byte>, rng: Range, sl: seq<byte>, pos: nat, lo: nat, hi: nat, root: bool)
    requires lo + 2 <= hi <= NumGroups(|content|) && Keep(rng, |content|, lo, hi)
    requires VerifyWalk(c, sl, |content|, rng, pos, lo, hi, GroupsCV(c, content, lo, hi, root), root).Ok?
    ensures var mid := lo + Left(hi - lo);
            var l, r := NodeCV(sl, pos), NodeCV(sl, pos + 32);
            var v := VerifyWalk(c, sl, |content|, rng, pos + 64, lo, mid, l, false);
            && ParentCV(c, l, r, root)
               == ParentCV(c, GroupsCV(c, content, lo, mid, false), GroupsCV(c, content, mid, hi, false), root)
            && v.Ok?
            && VerifyWalk(c, sl, |content|, rng, v.value.0, mid, hi, r, false).Ok?
  {
    hide SubtreeCV, NumGroups, Offset, Left, Keep, NodeCV, Groups, GroupsCV, VerifyWalk, EncodeTree, CvBytes, ParentCV;
    UnfoldVerify(c, sl, |content|, rng, pos, lo, hi, GroupsCV(c, content, lo, hi, root), root);
    GroupsCut(c, content, lo, hi, root);
  }

  lemma NodeDiverges(c: Compress, content: seq<byte>, rng: Range, sl: seq<byte>, pos: nat, lo: nat, hi: nat, root: bool)
    requires lo + 2 <= hi <= NumGroups(|content|) && Keep(rng, |content|, lo, hi)
    ensures var mid := lo + Left(hi - lo);
            var l, r := GroupsCV(c, content, lo, mid, false), GroupsCV(c, content, mid, hi, false);
            var d := WalkDivergence(c, content, rng, sl, pos + 64, lo, mid, false);
            WalkDivergence(c, content, rng, sl, pos, lo, hi, root)
            == if NodeCV(sl, pos) != l || NodeCV(sl, pos + 32) != r then
                 Some((ParentInput(NodeCV(sl, pos), NodeCV(sl, pos + 32), root), ParentInput(l, r, root)))
               else if d.Some? then d
               else WalkDivergence(c, content, rng, sl, pos + 64 + |EncodeWalk(c, content, rng, lo, mid)|, mid, hi,
                 false)
  {
    hide NumGroups, Left, Keep, NodeCV, GroupsCV, EncodeWalk, ParentInput;
  }

  /** A kept parent node whose sides are both sound. */
  lemma SoundNode(c: Compress, content: seq<byte>, rng: Range, sl: seq<byte>, pos: nat, lo: nat, hi: nat, root: bool)
    requires lo + 2 <= hi <= NumGroups(|content|) && Keep(rng, |content|, lo, hi)
    requires var mid := lo + Left(hi - lo);
             var p := pos + 64 + |EncodeWalk(c, content, rng, lo, mid)|;
             && NodeCV(sl, pos) == GroupsCV(c, content, lo, mid, false)
             && NodeCV(sl, pos + 32) == GroupsCV(c, content, mid, hi, false)
             && WalkDivergence(c, content, rng, sl, pos + 64, lo, mid, false).None?
             && Sound(c, content, rng, sl, pos + 64, lo, mid, false) && Sound(c, content, rng, sl, p, mid, hi, false)
    ensures Sound(c, content, rng, sl, pos, lo, hi, root)
  {
    hide SubtreeCV, NumGroups, Offset, Left, Keep, NodeCV, Groups, GroupsCV, VerifyWalk, EncodeWalk, KeptGroups,
      CvBytes,
         WalkDivergence, Reads, ParentCV;
    var mid := lo + Left(hi - lo);
    var l, r := GroupsCV(c, content, lo, mid, false), GroupsCV(c, content, mid, hi, false);
    var el, er := EncodeWalk(c, content, rng, lo, mid), EncodeWalk(c, content, rng, mid, hi);
    NodeDiverges(c, content, rng, sl, pos, lo, hi, root);
    if WalkDivergence(c, content, rng, sl, pos + 64 + |el|, mid, hi, false).None? {
      NodeOfWalk(c, content, rng, lo, hi);
      GroupsCut(c, content, lo, hi, root);
      KeptInTwo(rng, |content|, lo, mid, hi);
      VerifyBothSides(c, sl, |content|, rng, pos, lo, hi, l, r, root, pos + 64 + |el|,
        KeptGroups(rng, |content|, lo, mid),
                      pos + 64 + |el| + |er|, KeptGroups(rng, |content|, mid, hi));
      NodeReads(sl, pos, l);
      NodeReads(sl, pos + 32, r);
      ReadsBoth(sl, pos, CvBytes(l), CvBytes(r));
      ReadsBoth(sl, pos, CvBytes(l) + CvBytes(r), el);
      ReadsBoth(sl, pos, CvBytes(l) + CvBytes(r) + el, er);
      var kl, kr := KeptGroups(rng, |content|, lo, mid), KeptGroups(rng, |content|, mid, hi);
      if content != [] && kr == [] && kl != [] {
        NothingAfter(rng, |content|, lo, mid, hi);
        DroppedWalk(c, content, rng, sl, pos, mid, hi, false);
      }
    }
  }

  /** Every accepted walk is sound, whatever the slice holds and wherever the walk stands in it. */
  lemma {:induction false} AcceptedWalkIsSound(c: Compress, content: seq<byte>, rng: Range, sl: seq<byte>, pos: nat,
                                               lo: nat, hi: nat, root: bool)
    requires lo < hi <= NumGroups(|content|)
    requires VerifyWalk(c, sl, |content|, rng, pos, lo, hi, GroupsCV(c, content, lo, hi, root), root).Ok?
    ensures Sound(c, content, rng, sl, pos, lo, hi, root)
    decreases hi - lo
  {
    hide SubtreeCV, NumGroups, Offset, Left, Keep, NodeCV, Groups, GroupsCV, VerifyWalk, EncodeWalk, KeptGroups,
      CvBytes,
         WalkDivergence, Reads, ParentInput;
    if !Keep(rng, |content|, lo, hi) {
      DroppedWalk(c, content, rng, sl, pos, lo, hi, root);
      NothingDiverges(c, content, rng, sl, pos, lo, hi, root);
    } else if hi - lo == 1 {
      SoundLeaf(c, content, rng, sl, pos, lo, hi, root);
    } else {
      var mid := lo + Left(hi - lo);
      var l, r := GroupsCV(c, content, lo, mid, false), GroupsCV(c, content, mid, hi, false);
      AcceptedNode(c, content, rng, sl, pos, lo, hi, root);
      NodeDiverges(c, content, rng, sl, pos, lo, hi, root);
      if NodeCV(sl, pos) != l || NodeCV(sl, pos + 32) != r {
        ParentInputInjective(NodeCV(sl, pos), NodeCV(sl, pos + 32), l, r, root);
      } else {
        AcceptedWalkIsSound(c, content, rng, sl, pos + 64, lo, mid, false);
        if WalkDivergence(c, content, rng, sl, pos + 64, lo, mid, false).None? {
          AcceptedWalkIsSound(c, content, rng, sl, pos + 64 + |EncodeWalk(c, content, rng, lo, mid)|, mid, hi, false);
          SoundNode(c, content, rng, sl, pos, lo, hi, root);
        }
      }
    }
  }

  lemma NothingDiverges(c: Compress, content: seq<byte>, rng: Range, sl: seq<byte>, pos: nat, lo: nat, hi: nat,
                        root: bool)
    requires lo < hi <= NumGroups(|content|) && !Keep(rng, |content|, lo, hi)
    ensures WalkDivergence(c, content, rng, sl, pos, lo, hi, root).None? && Reads(sl, pos, [])
  {
    hide NumGroups, Keep;
  }

  // ----- the encoder's bytes are accepted -----

  lemma ReadsParts(sl: seq<byte>, pos: nat, a: seq<byte>, b: seq<byte>)
    requires Reads(sl, pos, a + b)
    ensures Reads(sl, pos, a) && Reads(sl, pos + |a|, b)
  {
    forall i | 0 <= i < |a| ensures a[i] == if pos + i < |sl| then sl[pos + i] else 0 {
      assert (a + b)[i] == a[i];
    }
    forall i | 0 <= i < |b| ensures b[i] == if pos + |a| + i < |sl| then sl[pos + |a| + i] else 0 {
      assert (a + b)[|a| + i] == b[i];
    }
  }

  lemma ReadsNode(sl: seq<byte>, pos: nat, cv: CV)
    requires Reads(sl, pos, CvBytes(cv))
    ensures NodeCV(sl, pos) == cv
  {
    var node := Clamp(sl, pos, pos + 32);
    assert node + Zeros(32 - |node|) == CvBytes(cv);
    CvRoundTrip(cv);
  }

  lemma ReadsGroup(sl: seq<byte>, pos: nat, data: seq<byte>)
    requires Reads(sl, pos, data) && (pos + |data| <= |sl| || data == [])
    ensures Clamp(sl, pos, pos + |data|) == data
  {
  }

  /** Whether the walk over lo..hi has no bytes of a group to read. */
  predicate NothingKept(rng: Range, contentLen: nat, lo: nat, hi: nat)
    requires lo <= hi
  {
    contentLen == 0 || KeptGroups(rng, contentLen, lo, hi) == []
  }

  lemma GenuineLeaf(c: Compress, content: seq<byte>, rng: Range, sl: seq<byte>, pos: nat, lo: nat, hi: nat, root: bool)
    requires hi == lo + 1 <= NumGroups(|content|) && Keep(rng, |content|, lo, hi)
    requires Reads(sl, pos, Groups(content, lo, hi))
    requires pos + |Groups(content, lo, hi)| <= |sl| || NothingKept(rng, |content|, lo, hi)
    ensures VerifyWalk(c, sl, |content|, rng, pos, lo, hi, GroupsCV(c, content, lo, hi, root), root)
            == Ok((pos + |Groups(content, lo, hi)|, [lo]))
    ensures WalkDivergence(c, content, rng, sl, pos, lo, hi, root).None?
  {
    hide SubtreeCV, NumGroups, Keep, Offset, GroupSize, Groups, EncodeWalk, KeptGroups, VerifyWalk, Left, Reads, Clamp;
    var data := Groups(content, lo, hi);
    GroupBytes(content, lo);
    LeafOfWalk(c, content, rng, lo, hi);
    NothingOfEmpty(content, lo, hi);
    ReadsGroup(sl, pos, data);
    UnfoldVerify(c, sl, |content|, rng, pos, lo, hi, GroupsCV(c, content, lo, hi, root), root);
  }

  lemma NothingOfEmpty(content: seq<byte>, lo: nat, hi: nat)
    requires lo <= hi
    ensures content == [] ==> Groups(content, lo, hi) == []
  {
  }

  /** A walk that reads the encoder's bytes, the kept groups' literally, is accepted and never leaves content's tree. */
  lemma {:induction false} GenuineWalk(c: Compress, content: seq<byte>, rng: Range, sl: seq<byte>, pos: nat,
                                       lo: nat, hi: nat, root: bool)
    requires lo < hi <= NumGroups(|content|) && Reads(sl, pos, EncodeWalk(c, content, rng, lo, hi))
    requires pos + |EncodeWalk(c, content, rng, lo, hi)| <= |sl| || NothingKept(rng, |content|, lo, hi)
    ensures VerifyWalk(c, sl, |content|, rng, pos, lo, hi, GroupsCV(c, content, lo, hi, root), root)
            == Ok((pos + |EncodeWalk(c, content, rng, lo, hi)|, KeptGroups(rng, |content|, lo, hi)))
    ensures WalkDivergence(c, content, rng, sl, pos, lo, hi, root).None?
    decreases hi - lo
  {
    hide SubtreeCV, NumGroups, Offset, Left, Keep, NodeCV, CvBytes, Groups, GroupsCV, KeptGroups, VerifyWalk,
      EncodeWalk,
         ParentCV, WalkDivergence, Reads;
    if !Keep(rng, |content|, lo, hi) {
      DroppedWalk(c, content, rng, sl, pos, lo, hi, root);
      NothingDiverges(c, content, rng, sl, pos, lo, hi, root);
    } else if hi - lo == 1 {
      LeafOfWalk(c, content, rng, lo, hi);
      GenuineLeaf(c, content, rng, sl, pos, lo, hi, root);
    } else {
      var mid := lo + Left(hi - lo);
      NodeOfWalk(c, content, rng, lo, hi);
      var l, r := GroupsCV(c, content, lo, mid, false), GroupsCV(c, content, mid, hi, false);
      var el, er := EncodeWalk(c, content, rng, lo, mid), EncodeWalk(c, content, rng, mid, hi);
      ReadsParts(sl, pos, CvBytes(l) + CvBytes(r) + el, er);
      ReadsParts(sl, pos, CvBytes(l) + CvBytes(r), el);
      ReadsParts(sl, pos, CvBytes(l), CvBytes(r));
      ReadsNode(sl, pos, l);
      ReadsNode(sl, pos + 32, r);
      KeptInTwo(rng, |content|, lo, mid, hi);
      GenuineWalk(c, content, rng, sl, pos + 64, lo, mid, false);
      GenuineWalk(c, content, rng, sl, pos + 64 + |el|, mid, hi, false);
      GroupsCut(c, content, lo, hi, root);
      VerifyBothSides(c, sl, |content|, rng, pos, lo, hi, l, r, root, pos + 64 + |el|,
        KeptGroups(rng, |content|, lo, mid),
                      pos + 64 + |el| + |er|, KeptGroups(rng, |content|, mid, hi));
      NodeDiverges(c, content, rng, sl, pos, lo, hi, root);
    }
  }

  // ----- which slices are accepted -----

  lemma {:induction false} FromLEZeros(s: seq<byte>, k: nat)
    ensures FromLE(s + Zeros(k)) == FromLE(s)
    decreases |s|, k
  {
    if s != [] {
      assert (s + Zeros(k))[1..] == s[1..] + Zeros(k);
      FromLEZeros(s[1..], k);
    } else if k > 0 {
      assert Zeros(k)[1..] == Zeros(k - 1);
      assert s + Zeros(k) == Zeros(k) && s + Zeros(k - 1) == Zeros(k - 1);
      FromLEZeros(s, k - 1);
    }
  }

  /** The length header, with what the slice does not have read as zero. */
  lemma HeaderReads(contentLen: nat, sl: seq<byte>)
    requires contentLen < 2 * INT64_LIMIT
    ensures FromLE(Clamp(sl, 0, 8)) == contentLen <==> Reads(sl, 0, Header(contentLen))
  {
    Pow256Of8();
    var s := Clamp(sl, 0, 8);
    var p := s + Zeros(8 - |s|);
    FromLEZeros(s, 8 - |s|);
    FromLEToLE(contentLen, 8);
    ToLEFromLE(p);
    assert FromLE(p) == contentLen <==> p == Header(contentLen);
    assert Reads(sl, 0, p);
    if Reads(sl, 0, Header(contentLen)) { assert p == Header(contentLen); }
  }

  function SliceDivergence(c: Compress, content: seq<byte>, rng: Range, sl: seq<byte>): Option<(Input, Input)>
  {
    WalkDivergence(c, content, rng, sl, 8, 0, NumGroups(|content|), true)
  }

  /** sl is accepted under content's root, and the walk over it never leaves content's tree. */
  predicate Genuine(c: Compress, content: seq<byte>, rng: Range, sl: seq<byte>)
  {
    && VerifySlice(c, sl, SubtreeCV(c, content, 0, true), |content|, rng).Ok?
    && SliceDivergence(c, content, rng, sl).None?
  }

  lemma WholeContent(c: Compress, content: seq<byte>)
    ensures GroupsCV(c, content, 0, NumGroups(|content|), true) == SubtreeCV(c, content, 0, true)
  {
    hide SubtreeCV;
    assert Groups(content, 0, NumGroups(|content|)) == content;
  }

  lemma PrefixReads(sl: seq<byte>, e: seq<byte>)
    ensures e <= sl <==> Reads(sl, 0, e) && |e| <= |sl|
  {
    if Reads(sl, 0, e) && |e| <= |sl| { assert e == sl[..|e|]; }
  }

  /**
   For every content, range and slice: a slice whose walk stays in content's tree is accepted if and only if it begins
   with the encoder's slice, or, where no byte of a group is kept, if it reads as the encoder's slice when followed by
   zeros. It yields the kept groups. Any other accepted slice exhibits a collision of the compression function.
   */
  lemma AcceptsOnlyItsSlices(c: Compress, content: seq<byte>, rng: Range, sl: seq<byte>)
    requires |content| < 2 * INT64_LIMIT
    ensures var n := NumGroups(|content|);
            var e := EncodeSlice(c, content, rng);
            var v := VerifySlice(c, sl, SubtreeCV(c, content, 0, true), |content|, rng);
            && (Genuine(c, content, rng, sl)
                <==> if NothingKept(rng, |content|, 0, n) then Reads(sl, 0, e) else e <= sl)
            && (Genuine(c, content, rng, sl) ==> v == Ok(KeptGroups(rng, |content|, 0, n)))
            && (v.Ok? && !Genuine(c, content, rng, sl) ==>
                  var p := SliceDivergence(c, content, rng, sl).value; Collides(c, p.0, p.1))
  {
    hide SubtreeCV, EncodeWalk, VerifyWalk, WalkDivergence, KeptGroups, NumGroups, Keep, GroupsCV, Reads, Header, Clamp;
    var n := NumGroups(|content|);
    var h, w := Header(|content|), EncodeWalk(c, content, rng, 0, n);
    WholeContent(c, content);
    HeaderReads(|content|, sl);
    PrefixReads(sl, h + w);
    if Reads(sl, 0, h + w) && (|h + w| <= |sl| || NothingKept(rng, |content|, 0, n)) {
      ReadsParts(sl, 0, h, w);
      GenuineWalk(c, content, rng, sl, 8, 0, n, true);
    }
    if VerifySlice(c, sl, SubtreeCV(c, content, 0, true), |content|, rng).Ok? {
      AcceptedWalkIsSound(c, content, rng, sl, 8, 0, n, true);
      if SliceDivergence(c, content, rng, sl).None? { ReadsBoth(sl, 0, h, w); }
    }
  }

  /** sl is accepted without a collision, though it does not begin with the encoder's slice. */
  predicate PassesShort(c: Compress, content: seq<byte>, rng: Range, sl: seq<byte>)
  {
    Genuine(c, content, rng, sl) && !(EncodeSlice(c, content, rng) <= sl)
  }

  /** A slice may pass without the encoder's last bytes if and only if no byte of a group is kept and they are zero. */
  lemma ShortSlicePassesExactlyWhen(c: Compress, content: seq<byte>, rng: Range)
    requires |content| < 2 * INT64_LIMIT
    ensures var e := EncodeSlice(c, content, rng);
            (exists sl :: PassesShort(c, content, rng, sl))
            <==> NothingKept(rng, |content|, 0, NumGroups(|content|)) && e[|e| - 1] == 0
  {
    hide SubtreeCV, EncodeWalk, KeptGroups, NumGroups, Genuine;
    var e := EncodeSlice(c, content, rng);
    if exists sl :: PassesShort(c, content, rng, sl) {
      var sl :| PassesShort(c, content, rng, sl);
      AcceptsOnlyItsSlices(c, content, rng, sl);
      PrefixReads(sl, e);
      assert e[|e| - 1] == 0;
    }
    if NothingKept(rng, |content|, 0, NumGroups(|content|)) && e[|e| - 1] == 0 {
      var sl := e[..|e| - 1];
      AcceptsOnlyItsSlices(c, content, rng, sl);
      assert Reads(sl, 0, e);
      assert PassesShort(c, content, rng, sl);
    }
  }

  /** Concretely: the empty slice passes for the empty content. */
  lemma EmptySlicePasses(c: Compress)
    ensures PassesShort(c, [], Range(0, 1), [])
  {
    hide SubtreeCV, Genuine, EncodeWalk, KeptGroups, ToLE;
    assert NumGroups(0) == 1 && Keep(Range(0, 1), 0, 0, 1);
    LeafOfWalk(c, [], Range(0, 1), 0, 1);
    NothingOfEmpty([], 0, 1);
    EightBytes();
    assert EncodeSlice(c, [], Range(0, 1)) == Header(0);
    AcceptsOnlyItsSlices(c, [], Range(0, 1), []);
  }

  /** And one byte of the header passes for a content of one byte, when the range lies past it. */
  lemma ShortHeaderPasses(c: Compress, b: byte)
    ensures PassesShort(c, [b], Range(5, 1), [1])
  {
    hide SubtreeCV, Genuine, EncodeWalk, KeptGroups, ToLE;
    assert NumGroups(1) == 1 && !Keep(Range(5, 1), 1, 0, 1);
    DroppedWalk(c, [b], Range(5, 1), [1], 8, 0, 1, true);
    EightBytes();
    assert EncodeSlice(c, [b], Range(5, 1)) == Header(1);
    AcceptsOnlyItsSlices(c, [b], Range(5, 1), [1]);
  }

  lemma EightBytes()
    ensures Header(0) == [0, 0, 0, 0, 0, 0, 0, 0] && Header(1) == [1, 0, 0, 0, 0, 0, 0, 0]
  {
    assert ToLE(0, 1) == [0] + ToLE(0, 0) && ToLE(0, 2) == [0] + ToLE(0, 1) && ToLE(0, 3) == [0] + ToLE(0, 2);
    assert ToLE(0, 4) == [0] + ToLE(0, 3) && ToLE(0, 5) == [0] + ToLE(0, 4) && ToLE(0, 6) == [0] + ToLE(0, 5);
    assert ToLE(0, 7) == [0] + ToLE(0, 6) && ToLE(0, 8) == [0] + ToLE(0, 7) && ToLE(1, 8) == [1] + ToLE(0, 7);
  }
}
