/**
 What is hashed and what is written, in numbers (server/bao/bao.go:30-39, 99-182 and 218-253): the compression inputs
 of chunks and parents, and the bytes of digests and encodings.
 */
module HashedBytes {
  import opened Bytes
  import opened Blake3
  import opened BaoEncoder

  // ----- words and bytes -----

  /** Four bytes as a number, the lowest first. */
  function FourBytes(a: int, b: int, c: int, d: int): int
  {
    a + 0x100 * b + 0x1_0000 * c + 0x100_0000 * d
  }

  lemma {:induction false} WordAt(s: seq<byte>, j: nat)
    requires |s| % 4 == 0 && 4 * j < |s|
    ensures WordsOf(s)[j] == FourBytes(s[4 * j], s[4 * j + 1], s[4 * j + 2], s[4 * j + 3])
  {
    hide FromLE, FourBytes, WordsOf;
    FirstWord(s);
    if j == 0 {
      FromFourBytes(s[..4]);
    } else {
      var t := s[4..];
      WordAt(t, j - 1);
      assert t[4 * (j - 1)] == s[4 * j] && t[4 * (j - 1) + 1] == s[4 * j + 1] && t[4 * (j - 1) + 2] == s[4 * j + 2]
          && t[4 * (j - 1) + 3] == s[4 * j + 3];
    }
  }

  lemma FirstWord(s: seq<byte>)
    requires |s| % 4 == 0 && s != []
    ensures |WordsOf(s)| == |WordsOf(s[4..])| + 1 && WordsOf(s)[0] == FromLE(s[..4])
    ensures forall j :: 0 < j < |WordsOf(s)| ==> WordsOf(s)[j] == WordsOf(s[4..])[j - 1]
  {
    hide FromLE;
    if |s| == 4 { assert s[..4] == s; }
  }

  lemma FromFourBytes(s: seq<byte>)
    requires |s| == 4
    ensures FromLE(s) == FourBytes(s[0], s[1], s[2], s[3])
  {
    assert s[1..][1..] == s[2..] && s[2..][1..] == s[3..] && s[3..][1..] == [];
    assert FromLE(s[3..]) == s[3];
    assert FromLE(s[2..]) == s[2] + 256 * FromLE(s[3..]);
    assert FromLE(s[1..]) == s[1] + 256 * FromLE(s[2..]);
  }

  /** The i-th of the bytes of a number, lowest first. */
  lemma {:induction false} ByteAt(n: nat, k: nat, i: nat)
    requires i < k
    ensures ToLE(n, k)[i] == n / Pow256(i) % 256
  {
    if i > 0 {
      ByteAt(n / 256, k - 1, i - 1);
      DivDiv(n, Pow256(i - 1));
    } else {
      assert Pow256(0) == 1;
    }
  }

  lemma DivDiv(n: nat, p: nat)
    requires p > 0
    ensures n / 256 / p == n / (256 * p)
  {
    var q, r := n / 256, n % 256;
    var a, b := q / p, q % p;
    assert n == 256 * (p * a + b) + r;
    assert n == (256 * p) * a + (256 * b + r);
    assert 256 * b + r < 256 * p;
    Quotient(n, 256 * p, a, 256 * b + r);
  }

  lemma Quotient(n: nat, d: nat, q: nat, r: nat)
    requires d > 0 && n == d * q + r && r < d
    ensures n / d == q
  {
    var x, y := n / d, n % d;
    assert d * (x - q) == r - y;
    if x > q { AtLeast(d, x - q); } else if x < q { AtLeast(d, q - x); }
  }

  lemma AtLeast(d: nat, k: nat)
    requires k >= 1
    ensures d * k >= d
  {
  }

  lemma {:induction false} WordBytes(ws: seq<word>, j: nat, t: nat)
    requires j < |ws| && t < 4
    ensures BytesOf(ws)[4 * j + t] == ws[j] / Pow256(t) % 256
  {
    if j == 0 { ByteAt(ws[0], 4, t); } else { WordBytes(ws[1..], j - 1, t); }
  }

  // ----- chunks -----

  /** The byte at i of the data, or of its zero padding. */
  function Padded(data: seq<byte>, i: nat): byte
  {
    if i < |data| then data[i] else 0
  }

  /** The i-th of the n compressions of a chunk: its counter, its length, its flags and its sixteen words. */
  ghost predicate BlockInput(x: Input, data: seq<byte>, counter: nat, root: bool, i: nat, n: nat)
  {
    && x.counter == counter
    && x.blockLen == (if i < n - 1 then 64 else |data| - 64 * (n - 1))
    && x.flags == (if i == 0 then 1 else 0) + (if i == n - 1 then if root then 10 else 2 else 0)
    && |x.block| == 16
    && forall j :: 0 <= j < 16 ==> BlockWord(x.block[j], data, 64 * i + 4 * j)
  }

  ghost predicate BlockWord(w: word, data: seq<byte>, at: nat)
  {
    w == FourBytes(Padded(data, at), Padded(data, at + 1), Padded(data, at + 2), Padded(data, at + 3))
  }

  lemma WordsOfBlock(b: seq<byte>, j: nat)
    requires |b| <= 64 && j < 16
    ensures BlockWord(BlockWords(b)[j], b, 4 * j)
  {
    var s := b + Zeros(64 - |b|);
    WordAt(s, j);
    assert forall i :: 0 <= i < 64 ==> s[i] == Padded(b, i);
  }

  lemma BlockOfData(data: seq<byte>, b: seq<byte>, i: nat, x: Input)
    requires |b| <= 64 && 64 * i + |b| <= |data| && b == data[64 * i..64 * i + |b|]
    requires |b| < 64 ==> 64 * i + |b| == |data|
    requires x.block == BlockWords(b)
    ensures forall j :: 0 <= j < 16 ==> BlockWord(x.block[j], data, 64 * i + 4 * j)
  {
    hide BlockWords;
    forall j | 0 <= j < 16 ensures BlockWord(x.block[j], data, 64 * i + 4 * j)
    {
      WordsOfBlock(b, j);
      assert forall k :: 0 <= k < 64 ==> Padded(b, k) == Padded(data, 64 * i + k);
      assert Padded(b, 4 * j) == Padded(data, 64 * i + 4 * j);
      assert Padded(b, 4 * j + 1) == Padded(data, 64 * i + (4 * j + 1));
      assert Padded(b, 4 * j + 2) == Padded(data, 64 * i + (4 * j + 2));
      assert Padded(b, 4 * j + 3) == Padded(data, 64 * i + (4 * j + 3));
    }
  }

  ghost predicate ChunkInputs(c: Compress, data: seq<byte>, counter: nat, root: bool, from: nat, n: nat, h: CV,
                              xs: seq<Input>)
  {
    && |xs| == n - from && from < n && xs[0].h == h
    && (forall i :: 0 < i < |xs| ==> xs[i].h == c(xs[i - 1]))
    && forall i :: 0 <= i < |xs| ==> BlockInput(xs[i], data, counter, root, from + i, n)
  }

  /** The inputs from the block at from on. */
  lemma {:induction false} InputsFrom(c: Compress, data: seq<byte>, counter: nat, root: bool, from: nat, n: nat, h: CV)
    returns (xs: seq<Input>)
    requires n > 0 && 64 * (n - 1) <= |data| <= 64 * n && (n > 1 ==> 64 * (n - 1) < |data|) && from < n
    ensures ChunkInputs(c, data, counter, root, from, n, h, xs)
    ensures ChunkFrom(c, h, data[64 * from..], counter, root, from == 0) == c(xs[|xs| - 1])
    decreases n - from
  {
    hide BlockWords, BlockWord;
    var rest := data[64 * from..];
    if from == n - 1 {
      var x := LastBlock(h, rest, counter, root, from == 0);
      BlockOfData(data, rest, from, x);
      xs := [x];
    } else {
      var x := InnerBlock(h, rest[..64], counter, from == 0);
      BlockOfData(data, rest[..64], from, x);
      var more := InputsFrom(c, data, counter, root, from + 1, n, c(x));
      assert rest[64..] == data[64 * (from + 1)..];
      xs := [x] + more;
    }
  }

  /**
   A chunk is the last of a chain of compressions that starts from the eight constants: one for each 64 bytes, and one
   for no bytes at all.
   */
  lemma ChunkIs(c: Compress, data: seq<byte>, counter: nat, root: bool) returns (xs: seq<Input>)
    requires |data| <= 1024
    ensures |xs| == if data == [] then 1 else (|data| + 63) / 64
    ensures xs[0].h
            == [0x6A09E667, 0xBB67AE85, 0x3C6EF372, 0xA54FF53A, 0x510E527F, 0x9B05688C, 0x1F83D9AB, 0x5BE0CD19]
    ensures forall i :: 0 < i < |xs| ==> xs[i].h == c(xs[i - 1])
    ensures forall i :: 0 <= i < |xs| ==> BlockInput(xs[i], data, counter, root, i, |xs|)
    ensures SubtreeCV(c, data, counter, root) == c(xs[|xs| - 1])
  {
    hide ChunkFrom, BlockInput;
    var n := if data == [] then 1 else (|data| + 63) / 64;
    xs := InputsFrom(c, data, counter, root, 0, n, IV);
    assert data[64 * 0..] == data;
    forall i | 0 <= i < |xs| ensures BlockInput(xs[i], data, counter, root, i, |xs|)
    {
      assert BlockInput(xs[i], data, counter, root, 0 + i, n);
    }
  }

  // ----- parents -----

  /** A power of two cuts n leaves. */
  lemma {:induction false} CutExists(n: nat) returns (p: nat)
    requires n >= 2
    ensures IsPow2(p) && p < n <= 2 * p
  {
    LeftIsPow2(n);
    p := Left(n);
  }

  /**
   More than one chunk is the parent of its two sides: the left one first, cut at the one power of two of chunks that
   leaves something on the right and no more there than on the left.
   */
  lemma ParentIs(c: Compress, data: seq<byte>, firstChunk: nat, root: bool, p: nat)
    requires IsPow2(p) && 1024 * p < |data| <= 2048 * p
    ensures var s := 1024 * p;
            SubtreeCV(c, data, firstChunk, root)
            == c(Input([0x6A09E667, 0xBB67AE85, 0x3C6EF372, 0xA54FF53A, 0x510E527F, 0x9B05688C, 0x1F83D9AB, 0x5BE0CD19],
                       SubtreeCV(c, data[..s], firstChunk, false) + SubtreeCV(c, data[s..], firstChunk + p, false),
                       0, 64, if root then 12 else 4))
  {
    hide SubtreeCV, Left, IsPow2;
    var n := CeilDiv(|data|, CHUNK);
    ChunksBetween(|data|, p);
    LeftUnique(n, p);
    UnfoldSubtree(c, data, firstChunk, root);
  }

  lemma ChunksBetween(n: nat, p: nat)
    requires p > 0 && 1024 * p < n <= 2048 * p
    ensures 2 <= CeilDiv(n, 1024) && p < CeilDiv(n, 1024) <= 2 * p
  {
  }

  /** Such a cut exists for every content of more than one chunk. */
  lemma ParentCut(data: seq<byte>) returns (p: nat)
    requires |data| > 1024
    ensures IsPow2(p) && 1024 * p < |data| <= 2048 * p
  {
    p := CutExists(CeilDiv(|data|, CHUNK));
  }

  /** The digest is the root's eight words, each lowest byte first. */
  lemma DigestIs(c: Compress, content: seq<byte>, j: nat, t: nat)
    requires j < 8 && t < 4
    ensures Root(c, content)[4 * j + t]
            == SubtreeCV(c, content, 0, true)[j] / [1, 0x100, 0x1_0000, 0x100_0000][t] % 256
  {
    hide SubtreeCV;
    WordBytes(SubtreeCV(c, content, 0, true), j, t);
    assert Pow256(0) == 1 && Pow256(1) == 0x100 && Pow256(2) == 0x1_0000 && Pow256(3) == 0x100_0000;
  }

  // ----- the encoding -----

  /** The encoding is the length in eight bytes, lowest first, and then the tree from its root. */
  lemma EncodingIs(c: Compress, content: seq<byte>, i: nat)
    requires i < 8
    ensures Encode(c, content)[i] == |content| / Pow256(i) % 256
    ensures Encode(c, content)[8..] == EncodeTree(c, content, 0)
  {
    hide EncodeTree;
    ByteAt(|content|, 8, i);
  }

  /**
   Up to one group of 16384 bytes the tree is the data itself; more is the two chaining values of its sides, the left
   one first, and then the left and the right side in the same way.
   */
  lemma TreeIs(c: Compress, data: seq<byte>, firstChunk: nat)
    ensures |data| <= 16384 ==> EncodeTree(c, data, firstChunk) == data
    ensures forall p: nat :: IsPow2(p) && 16384 * p < |data| <= 32768 * p ==>
              var s := 16384 * p;
              EncodeTree(c, data, firstChunk)
              == BytesOf(SubtreeCV(c, data[..s], firstChunk, false))
                 + BytesOf(SubtreeCV(c, data[s..], firstChunk + 16 * p, false))
                 + EncodeTree(c, data[..s], firstChunk) + EncodeTree(c, data[s..], firstChunk + 16 * p)
  {
    forall p: nat | IsPow2(p) && 16384 * p < |data| <= 32768 * p
      ensures var s := 16384 * p;
              EncodeTree(c, data, firstChunk)
              == BytesOf(SubtreeCV(c, data[..s], firstChunk, false))
                 + BytesOf(SubtreeCV(c, data[s..], firstChunk + 16 * p, false))
                 + EncodeTree(c, data[..s], firstChunk) + EncodeTree(c, data[s..], firstChunk + 16 * p)
    {
      TreeCutAt(c, data, firstChunk, p);
    }
  }

  lemma TreeCutAt(c: Compress, data: seq<byte>, firstChunk: nat, p: nat)
    requires IsPow2(p) && 16384 * p < |data| <= 32768 * p
    ensures var s := 16384 * p;
            EncodeTree(c, data, firstChunk)
            == BytesOf(SubtreeCV(c, data[..s], firstChunk, false))
               + BytesOf(SubtreeCV(c, data[s..], firstChunk + 16 * p, false))
               + EncodeTree(c, data[..s], firstChunk) + EncodeTree(c, data[s..], firstChunk + 16 * p)
  {
    hide SubtreeCV, Left, IsPow2, EncodeTree, BytesOf;
    LeftUnique(NumGroups(|data|), p);
    UnfoldTree(c, data, firstChunk);
  }
}
