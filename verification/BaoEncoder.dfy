/** The mlp-bao combined encoding (server/bao/bao.go:22-39 and 218-253): the BLAKE3 tree cut at 16-chunk groups. */
module BaoEncoder {
  import opened Bytes
  import opened Blake3

  const GROUP := 16384
  const GROUP_CHUNKS := 16

  function NumGroups(contentLen: nat): (n: nat)
    ensures n >= 1
  {
    if contentLen == 0 then 1 else CeilDiv(contentLen, GROUP)
  }

  function EncodedSize(contentLen: nat): nat
  {
    8 + 64 * (NumGroups(contentLen) - 1) + contentLen
  }

  /** Where the encoder cuts n bytes, more than one group. */
  function Split(n: nat): (s: nat)
    requires n > GROUP
    ensures 0 < s < n && s % GROUP == 0
  {
    Left(NumGroups(n)) * GROUP
  }

  function EncodeTree(c: Compress, data: seq<byte>, firstChunk: nat): seq<byte>
    decreases |data|
  {
    if |data| <= GROUP then data
    else
      var split := Split(|data|);
      var rightChunk := firstChunk + split / CHUNK;
      CvBytes(SubtreeCV(c, data[..split], firstChunk, false)) + CvBytes(SubtreeCV(c, data[split..], rightChunk, false))
      + EncodeTree(c, data[..split], firstChunk)
      + EncodeTree(c, data[split..], rightChunk)
  }

  /** The encoding of more than one group, one level deep. */
  lemma UnfoldTree(c: Compress, data: seq<byte>, firstChunk: nat)
    requires |data| > GROUP
    ensures var s := Split(|data|);
            EncodeTree(c, data, firstChunk)
            == CvBytes(SubtreeCV(c, data[..s], firstChunk, false))
               + CvBytes(SubtreeCV(c, data[s..], firstChunk + s / CHUNK, false))
               + EncodeTree(c, data[..s], firstChunk) + EncodeTree(c, data[s..], firstChunk + s / CHUNK)
  {
    hide SubtreeCV, Split;
  }

  function Header(contentLen: nat): (s: seq<byte>)
    ensures |s| == 8
  {
    ToLE(contentLen, 8)
  }

  function Encode(c: Compress, content: seq<byte>): seq<byte>
  {
    Header(|content|) + EncodeTree(c, content, 0)
  }

  // ----- the group tree is the chunk tree -----

  /** Splitting by groups is splitting by chunks: 16 times the group split is the chunk split. */
  lemma GroupSplitIsChunkSplit(nChunks: nat)
    requires nChunks > GROUP_CHUNKS
    ensures Left(nChunks) == GROUP_CHUNKS * Left(CeilDiv(nChunks, GROUP_CHUNKS))
  {
    var n1 := (nChunks + 1) / 2;
    var n2 := (n1 + 1) / 2;
    var n3 := (n2 + 1) / 2;
    var n4 := (n3 + 1) / 2;
    assert Left(nChunks) == 2 * Left(n1) && Left(n1) == 2 * Left(n2);
    assert Left(n2) == 2 * Left(n3) && Left(n3) == 2 * Left(n4);
    assert n4 == CeilDiv(nChunks, GROUP_CHUNKS);
  }

  /** The chaining value of several groups is the parent of the two sides the encoder cuts. */
  lemma GroupTreeIsChunkTree(c: Compress, data: seq<byte>, firstChunk: nat, root: bool)
    requires |data| > GROUP
    ensures var s := Split(|data|);
            SubtreeCV(c, data, firstChunk, root)
            == ParentCV(c, SubtreeCV(c, data[..s], firstChunk, false),
                        SubtreeCV(c, data[s..], firstChunk + s / CHUNK, false), root)
  {
    var nChunks := CeilDiv(|data|, CHUNK);
    assert CeilDiv(nChunks, GROUP_CHUNKS) == NumGroups(|data|);
    GroupSplitIsChunkSplit(nChunks);
    assert Split(|data|) == ChunkSplit(|data|);
  }

  // ----- the size formula -----

  lemma OneGroup(n: nat)
    requires n <= GROUP
    ensures NumGroups(n) == 1
  {
  }

  lemma GroupsOfSplit(n: nat, s: nat)
    requires 0 < s < n && s % GROUP == 0
    ensures NumGroups(s) == s / GROUP && NumGroups(n) == s / GROUP + NumGroups(n - s)
  {
  }

  lemma {:induction false} EncodeTreeSize(c: Compress, data: seq<byte>, firstChunk: nat)
    ensures |EncodeTree(c, data, firstChunk)| == 64 * (NumGroups(|data|) - 1) + |data|
    decreases |data|
  {
    hide SubtreeCV, Split;
    if |data| <= GROUP {
      OneGroup(|data|);
    } else {
      var s := Split(|data|);
      var a, b := data[..s], data[s..];
      EncodeTreeSize(c, a, firstChunk);
      EncodeTreeSize(c, b, firstChunk + s / CHUNK);
      GroupsOfSplit(|data|, s);
      var g, g1, g2 := NumGroups(|data|), NumGroups(|a|), NumGroups(|b|);
      assert g == g1 + g2;
    }
  }

  lemma EncodeSize(c: Compress, content: seq<byte>)
    ensures |Encode(c, content)| == EncodedSize(|content|)
  {
    EncodeTreeSize(c, content, 0);
  }
}
