/**
 The BLAKE3 tree over an arbitrary compression function (server/bao/bao.go:41-216). Everything that is proved
 about the tree holds for every compression function, hence for the real one.
 */
module Blake3 {
  import opened Bytes

  type CV = s: seq<word> | |s| == 8 witness [0, 0, 0, 0, 0, 0, 0, 0]

  /** The arguments of one call of the compression function. */
  datatype Input = Input(h: CV, block: seq<word>, counter: nat, blockLen: nat, flags: nat)

  type Compress = Input -> CV

  const CHUNK := 1024
  const CHUNK_START := 1
  const CHUNK_END := 2
  const PARENT := 4
  const ROOT := 8
  const IV: CV := [0x6A09E667, 0xBB67AE85, 0x3C6EF372, 0xA54FF53A, 0x510E527F, 0x9B05688C, 0x1F83D9AB, 0x5BE0CD19]

  /** Two different inputs of the compression function with the same output. */
  ghost predicate Collides(c: Compress, x: Input, y: Input)
  {
    x != y && c(x) == c(y)
  }

  function CvBytes(cv: CV): (s: seq<byte>)
    ensures |s| == 32
  {
    BytesOf(cv)
  }

  function CvFrom(s: seq<byte>): (cv: CV)
    requires |s| == 32
  {
    WordsOf(s)
  }

  lemma CvRoundTrip(cv: CV)
    ensures CvFrom(CvBytes(cv)) == cv
  {
    WordsOfBytesOf(cv);
  }

  lemma CvBytesOfCvFrom(s: seq<byte>)
    requires |s| == 32
    ensures CvBytes(CvFrom(s)) == s
  {
    BytesOfWordsOf(s);
  }

  // ----- chunks and parents -----

  /** A block of at most 64 bytes, zero-padded, as 16 little-endian words. */
  function BlockWords(b: seq<byte>): (ws: seq<word>)
    requires |b| <= 64
    ensures |ws| == 16
  {
    WordsOf(b + Zeros(64 - |b|))
  }

  function InnerBlock(h: CV, data: seq<byte>, counter: nat, first: bool): Input
    requires |data| == 64
  {
    Input(h, BlockWords(data), counter, 64, if first then CHUNK_START else 0)
  }

  function LastBlock(h: CV, data: seq<byte>, counter: nat, root: bool, first: bool): Input
    requires |data| <= 64
  {
    Input(h, BlockWords(data), counter, |data|,
          (if first then CHUNK_START else 0) + CHUNK_END + (if root then ROOT else 0))
  }

  /** The chaining value after the remaining blocks of a chunk. */
  function ChunkFrom(c: Compress, h: CV, data: seq<byte>, counter: nat, root: bool, first: bool): CV
    decreases |data|
  {
    if |data| <= 64 then c(LastBlock(h, data, counter, root, first))
    else ChunkFrom(c, c(InnerBlock(h, data[..64], counter, first)), data[64..], counter, root, false)
  }

  function ChunkCV(c: Compress, data: seq<byte>, counter: nat, root: bool): CV
  {
    ChunkFrom(c, IV, data, counter, root, true)
  }

  /** The block loop of chunkCV, with its explicit block count and per-block flags. */
  method ChunkCVLoop(c: Compress, data: seq<byte>, counter: nat, root: bool) returns (h: CV)
    ensures h == ChunkCV(c, data, counter, root)
  {
    h := IV;
    var n := (|data| + 63) / 64;
    if n == 0 { n := 1; }
    for i := 0 to n
      invariant i < n ==> ChunkFrom(c, h, data[i * 64..], counter, root, i == 0) == ChunkCV(c, data, counter, root)
      invariant i == n ==> h == ChunkCV(c, data, counter, root)
    {
      var hi := if |data| < (i + 1) * 64 then |data| else (i + 1) * 64;
      var blk := data[i * 64..hi];
      var flags := 0;
      if i == 0 { flags := flags + CHUNK_START; }
      if i == n - 1 {
        flags := flags + CHUNK_END;
        if root { flags := flags + ROOT; }
        assert blk == data[i * 64..];
      } else {
        assert blk == data[i * 64..][..64];
        assert data[i * 64..][64..] == data[(i + 1) * 64..];
      }
      h := c(Input(h, BlockWords(blk), counter, |blk|, flags));
    }
  }

  function ParentInput(l: CV, r: CV, root: bool): Input
  {
    Input(IV, l + r, 0, 64, PARENT + if root then ROOT else 0)
  }

  function ParentCV(c: Compress, l: CV, r: CV, root: bool): CV
  {
    c(ParentInput(l, r, root))
  }

  // ----- the shape of the tree -----

  function CeilDiv(n: nat, d: nat): nat
    requires d > 0
  {
    (n + d - 1) / d
  }

  /** The size of the left subtree of n leaves: the largest power of two strictly below n. */
  function Left(n: nat): (l: nat)
    requires n >= 2
    ensures 1 <= l < n <= 2 * l
  {
    if n == 2 then 1 else 2 * Left((n + 1) / 2)
  }

  ghost predicate IsPow2(k: nat)
  {
    k == 1 || (k > 1 && k % 2 == 0 && IsPow2(k / 2))
  }

  /** Left is the only power of two in [n/2, n). */
  lemma {:induction false} LeftUnique(n: nat, k: nat)
    requires n >= 2 && IsPow2(k) && k < n <= 2 * k
    ensures k == Left(n)
  {
    if n > 2 { LeftUnique((n + 1) / 2, k / 2); }
  }

  lemma {:induction false} LeftIsPow2(n: nat)
    requires n >= 2
    ensures IsPow2(Left(n))
  {
    if n > 2 { LeftIsPow2((n + 1) / 2); }
  }

  /** The doubling loop that every tree walk of the source runs to find the split. */
  method LeftLoop(n: nat) returns (left: nat)
    requires n >= 2
    ensures left == Left(n)
  {
    left := 1;
    while left * 2 < n
      invariant IsPow2(left) && left < n
    {
      left := left * 2;
    }
    LeftUnique(n, left);
  }

  /** Where n bytes, more than one chunk, are cut. */
  function ChunkSplit(n: nat): (s: nat)
    requires CeilDiv(n, CHUNK) > 1
    ensures 0 < s < n && s % CHUNK == 0
  {
    Left(CeilDiv(n, CHUNK)) * CHUNK
  }

  function SubtreeCV(c: Compress, data: seq<byte>, firstChunk: nat, root: bool): CV
    decreases |data|
  {
    if CeilDiv(|data|, CHUNK) <= 1 then ChunkCV(c, data, firstChunk, root)
    else
      var s := ChunkSplit(|data|);
      ParentCV(c, SubtreeCV(c, data[..s], firstChunk, false),
               SubtreeCV(c, data[s..], firstChunk + s / CHUNK, false), root)
  }

  /** The root-finalized digest. */
  function Root(c: Compress, content: seq<byte>): (digest: seq<byte>)
    ensures |digest| == 32
  {
    CvBytes(SubtreeCV(c, content, 0, true))
  }

  lemma RootDeterminesCV(c: Compress, a: seq<byte>, digest: seq<byte>)
    requires |digest| == 32
    ensures Root(c, a) == digest <==> SubtreeCV(c, a, 0, true) == CvFrom(digest)
  {
    CvRoundTrip(SubtreeCV(c, a, 0, true));
    CvBytesOfCvFrom(digest);
  }

  // ----- equal digests of different contents exhibit a collision of the compression function -----

  /** The compression inputs of the remaining blocks of a chunk, in order. */
  function Blocks(c: Compress, h: CV, data: seq<byte>, counter: nat, root: bool, first: bool): (s: seq<Input>)
    ensures s != []
    decreases |data|
  {
    if |data| <= 64 then [LastBlock(h, data, counter, root, first)]
    else
      var x := InnerBlock(h, data[..64], counter, first);
      [x] + Blocks(c, c(x), data[64..], counter, root, false)
  }

  /** Every input continues the output before it, and only the first one starts a chunk. */
  ghost predicate Chained(c: Compress, s: seq<Input>)
  {
    && s != []
    && (forall i :: 0 <= i < |s| - 1 ==> s[i + 1].h == c(s[i]))
    && forall i :: 0 <= i < |s| ==> (s[i].flags % 2 == CHUNK_START <==> i == 0)
  }

  lemma {:induction false} BlocksChain(c: Compress, h: CV, data: seq<byte>, counter: nat, root: bool, first: bool)
    ensures var s := Blocks(c, h, data, counter, root, first);
            && s[0].h == h && c(s[|s| - 1]) == ChunkFrom(c, h, data, counter, root, first)
            && s[|s| - 1].flags % PARENT >= CHUNK_END
            && (forall i :: 0 <= i < |s| - 1 ==> s[i + 1].h == c(s[i]))
            && forall i :: 0 <= i < |s| ==> (s[i].flags % 2 == CHUNK_START <==> first && i == 0)
    decreases |data|
  {
    hide BlockWords;
    if |data| > 64 {
      var x := InnerBlock(h, data[..64], counter, first);
      BlocksChain(c, c(x), data[64..], counter, root, false);
      var rest := Blocks(c, c(x), data[64..], counter, root, false);
      assert Blocks(c, h, data, counter, root, first) == [x] + rest;
    }
  }

  lemma BlockWordsInjective(a: seq<byte>, b: seq<byte>)
    requires |a| == |b| <= 64 && a != b
    ensures BlockWords(a) != BlockWords(b)
  {
    var z := Zeros(64 - |a|);
    BytesOfWordsOf(a + z);
    BytesOfWordsOf(b + z);
    assert a == (a + z)[..|a|] && b == (b + z)[..|b|];
  }

  /** The blocks of a chunk determine its bytes. */
  lemma {:induction false} BlocksDetermine(c: Compress, h: CV, a: seq<byte>, b: seq<byte>, counter: nat, root: bool,
                                           first: bool)
    requires Blocks(c, h, a, counter, root, first) == Blocks(c, h, b, counter, root, first)
    ensures a == b
    decreases |a|
  {
    hide BlockWords;
    var p, q := Blocks(c, h, a, counter, root, first), Blocks(c, h, b, counter, root, first);
    assert p[0] == q[0];
    if |a| <= 64 {
      assert |p| == 1;
      if a != b { BlockWordsInjective(a, b); }
    } else {
      assert |b| > 64;
      var x, y := InnerBlock(h, a[..64], counter, first), InnerBlock(h, b[..64], counter, first);
      assert p[0] == x && q[0] == y;
      if a[..64] != b[..64] { BlockWordsInjective(a[..64], b[..64]); }
      assert p[1..] == Blocks(c, c(x), a[64..], counter, root, false);
      assert q[1..] == Blocks(c, c(y), b[64..], counter, root, false);
      BlocksDetermine(c, c(x), a[64..], b[64..], counter, root, false);
      assert a == a[..64] + a[64..] && b == b[..64] + b[64..];
    }
  }

  /** Where two runs of blocks, compared from their ends, first differ. */
  function LastDifference(p: seq<Input>, q: seq<Input>): (Input, Input)
    requires p != [] && q != []
  {
    var x, y := p[|p| - 1], q[|q| - 1];
    if x != y || |p| == 1 || |q| == 1 then (x, y) else LastDifference(p[..|p| - 1], q[..|q| - 1])
  }

  lemma {:induction false} DifferenceCollides(c: Compress, p: seq<Input>, q: seq<Input>)
    requires Chained(c, p) && Chained(c, q) && p != q && c(p[|p| - 1]) == c(q[|q| - 1])
    ensures var d := LastDifference(p, q); Collides(c, d.0, d.1)
  {
    var x, y := p[|p| - 1], q[|q| - 1];
    if x == y {
      assert p == p[..|p| - 1] + [x] && q == q[..|q| - 1] + [y];
      if |p| == 1 || |q| == 1 { assert false; }
      DifferenceCollides(c, p[..|p| - 1], q[..|q| - 1]);
    }
  }

  /** The input whose compression is the chaining value of data. */
  function TopInput(c: Compress, data: seq<byte>, firstChunk: nat, root: bool): Input
  {
    if CeilDiv(|data|, CHUNK) <= 1 then
      var s := Blocks(c, IV, data, firstChunk, root, true); s[|s| - 1]
    else
      var s := ChunkSplit(|data|);
      ParentInput(SubtreeCV(c, data[..s], firstChunk, false), SubtreeCV(c, data[s..], firstChunk + s / CHUNK, false),
        root)
  }

  lemma TopInputIsCompressed(c: Compress, data: seq<byte>, firstChunk: nat, root: bool)
    ensures SubtreeCV(c, data, firstChunk, root) == c(TopInput(c, data, firstChunk, root))
    ensures CeilDiv(|data|, CHUNK) <= 1 <==> TopInput(c, data, firstChunk, root).flags % PARENT >= CHUNK_END
  {
    hide ChunkFrom, Blocks, ChunkSplit, SubtreeCV, CeilDiv;
    UnfoldSubtree(c, data, firstChunk, root);
    if CeilDiv(|data|, CHUNK) <= 1 {
      BlocksChain(c, IV, data, firstChunk, root, true);
    } else {
      assert TopInput(c, data, firstChunk, root).flags in {PARENT, PARENT + ROOT};
    }
  }

  /** SubtreeCV, one level deep. */
  lemma UnfoldSubtree(c: Compress, data: seq<byte>, firstChunk: nat, root: bool)
    ensures SubtreeCV(c, data, firstChunk, root)
            == if CeilDiv(|data|, CHUNK) <= 1 then ChunkCV(c, data, firstChunk, root)
               else
                 var s := ChunkSplit(|data|);
                 ParentCV(c, SubtreeCV(c, data[..s], firstChunk, false),
                          SubtreeCV(c, data[s..], firstChunk + s / CHUNK, false), root)
  {
    hide ChunkFrom, ChunkSplit, ParentCV;
  }

  /** The pair of compression inputs at which two contents with one chaining value first meet again, from the top. */
  function SubtreeCollision(c: Compress, a: seq<byte>, b: seq<byte>, firstChunk: nat, root: bool): (Input, Input)
    decreases |a|
  {
    var x, y := TopInput(c, a, firstChunk, root), TopInput(c, b, firstChunk, root);
    if x != y || CeilDiv(|a|, CHUNK) <= 1 || CeilDiv(|b|, CHUNK) <= 1 then
      if CeilDiv(|a|, CHUNK) <= 1 && CeilDiv(|b|, CHUNK) <= 1 then
        LastDifference(Blocks(c, IV, a, firstChunk, root, true), Blocks(c, IV, b, firstChunk, root, true))
      else (x, y)
    else
      var s, t := ChunkSplit(|a|), ChunkSplit(|b|);
      if a[..s] != b[..t] then SubtreeCollision(c, a[..s], b[..t], firstChunk, false)
      else SubtreeCollision(c, a[s..], b[t..], firstChunk + s / CHUNK, false)
  }

  lemma ParentInputInjective(l1: CV, r1: CV, l2: CV, r2: CV, root: bool)
    requires l1 != l2 || r1 != r2
    ensures ParentInput(l1, r1, root) != ParentInput(l2, r2, root)
  {
    assert (l1 + r1)[..8] == l1 && (l1 + r1)[8..] == r1;
    assert (l2 + r2)[..8] == l2 && (l2 + r2)[8..] == r2;
  }

  lemma ChunkCollides(c: Compress, a: seq<byte>, b: seq<byte>, counter: nat, root: bool)
    requires a != b && ChunkCV(c, a, counter, root) == ChunkCV(c, b, counter, root)
    ensures var d := LastDifference(Blocks(c, IV, a, counter, root, true), Blocks(c, IV, b, counter, root, true));
            Collides(c, d.0, d.1)
  {
    hide ChunkFrom, Blocks, LastDifference;
    BlocksChain(c, IV, a, counter, root, true);
    BlocksChain(c, IV, b, counter, root, true);
    var p, q := Blocks(c, IV, a, counter, root, true), Blocks(c, IV, b, counter, root, true);
    if p == q { BlocksDetermine(c, IV, a, b, counter, root, true); }
    DifferenceCollides(c, p, q);
  }

  /** Equal parent inputs have equal sides. */
  lemma SameParents(c: Compress, a: seq<byte>, b: seq<byte>, firstChunk: nat, root: bool)
    requires CeilDiv(|a|, CHUNK) > 1 && CeilDiv(|b|, CHUNK) > 1
    requires TopInput(c, a, firstChunk, root) == TopInput(c, b, firstChunk, root)
    ensures var s, t := ChunkSplit(|a|), ChunkSplit(|b|);
            && SubtreeCV(c, a[..s], firstChunk, false) == SubtreeCV(c, b[..t], firstChunk, false)
            && SubtreeCV(c, a[s..], firstChunk + s / CHUNK, false)
              == SubtreeCV(c, b[t..], firstChunk + t / CHUNK, false)
  {
    hide ChunkSplit, ParentInput, SubtreeCV, Blocks;
    var s, t := ChunkSplit(|a|), ChunkSplit(|b|);
    var l1, r1 := SubtreeCV(c, a[..s], firstChunk, false), SubtreeCV(c, a[s..], firstChunk + s / CHUNK, false);
    var l2, r2 := SubtreeCV(c, b[..t], firstChunk, false), SubtreeCV(c, b[t..], firstChunk + t / CHUNK, false);
    if l1 != l2 || r1 != r2 { ParentInputInjective(l1, r1, l2, r2, root); }
  }

  /** Two different contents, of any lengths, with one chaining value give an explicit compression collision. */
  lemma {:induction false} SubtreeCollides(c: Compress, a: seq<byte>, b: seq<byte>, firstChunk: nat, root: bool)
    requires a != b && SubtreeCV(c, a, firstChunk, root) == SubtreeCV(c, b, firstChunk, root)
    ensures var p := SubtreeCollision(c, a, b, firstChunk, root); Collides(c, p.0, p.1)
    decreases |a|
  {
    hide ChunkSplit, ChunkFrom, Blocks, LastDifference, SubtreeCV, TopInput;
    TopInputIsCompressed(c, a, firstChunk, root);
    TopInputIsCompressed(c, b, firstChunk, root);
    var x, y := TopInput(c, a, firstChunk, root), TopInput(c, b, firstChunk, root);
    if CeilDiv(|a|, CHUNK) <= 1 && CeilDiv(|b|, CHUNK) <= 1 {
      UnfoldSubtree(c, a, firstChunk, root);
      UnfoldSubtree(c, b, firstChunk, root);
      ChunkCollides(c, a, b, firstChunk, root);
    } else if x == y {
      SameParents(c, a, b, firstChunk, root);
      var s, t := ChunkSplit(|a|), ChunkSplit(|b|);
      if a[..s] != b[..t] {
        SubtreeCollides(c, a[..s], b[..t], firstChunk, false);
      } else {
        assert s == |a[..s]| == |b[..t]| == t;
        assert a == a[..s] + a[s..] && b == b[..t] + b[t..];
        SubtreeCollides(c, a[s..], b[t..], firstChunk + s / CHUNK, false);
      }
    }
  }

  /** A digest binds its content: two contents with one digest, whatever their lengths, exhibit a collision. */
  lemma DigestBinds(c: Compress, a: seq<byte>, b: seq<byte>)
    requires a != b && Root(c, a) == Root(c, b)
    ensures var p := SubtreeCollision(c, a, b, 0, true); Collides(c, p.0, p.1)
  {
    hide SubtreeCV, SubtreeCollision;
    RootDeterminesCV(c, b, Root(c, a));
    RootDeterminesCV(c, a, Root(c, a));
    SubtreeCollides(c, a, b, 0, true);
  }
}
