/** Bytes, 32-bit words and their little-endian layout, as encoding/binary.LittleEndian lays them out. */
module Bytes {
  type byte = x: int | 0 <= x < 256
  type word = x: int | 0 <= x < 0x1_0000_0000

  function Pow256(k: nat): nat
    ensures Pow256(k) > 0
  {
    if k == 0 then 1 else 256 * Pow256(k - 1)
  }

  function FromLE(s: seq<byte>): nat
  {
    if s == [] then 0 else s[0] + 256 * FromLE(s[1..])
  }

  function ToLE(n: nat, k: nat): (s: seq<byte>)
    ensures |s| == k
  {
    if k == 0 then [] else [n % 256] + ToLE(n / 256, k - 1)
  }

  lemma {:induction false} FromLEBound(s: seq<byte>)
    ensures FromLE(s) < Pow256(|s|)
  {
    if s != [] { FromLEBound(s[1..]); }
  }

  lemma {:induction false} FromLEToLE(n: nat, k: nat)
    requires n < Pow256(k)
    ensures FromLE(ToLE(n, k)) == n
  {
    if k > 0 {
      FromLEToLE(n / 256, k - 1);
      assert ToLE(n, k)[1..] == ToLE(n / 256, k - 1);
    }
  }

  lemma {:induction false} ToLEFromLE(s: seq<byte>)
    ensures ToLE(FromLE(s), |s|) == s
  {
    if s != [] {
      ToLEFromLE(s[1..]);
      assert FromLE(s) / 256 == FromLE(s[1..]);
    }
  }

  lemma Pow256Of8()
    ensures Pow256(8) == 0x1_0000_0000_0000_0000
  {
    assert Pow256(2) == 0x1_0000;
    assert Pow256(4) == 256 * (256 * Pow256(2));
    assert Pow256(6) == 256 * (256 * Pow256(4));
    assert Pow256(8) == 256 * (256 * Pow256(6));
  }

  /** The 4-byte little-endian words of s; a short last word reads as if padded with zeros. */
  function WordsOf(s: seq<byte>): (ws: seq<word>)
    ensures |ws| == (|s| + 3) / 4
  {
    if s == [] then []
    else if |s| <= 4 then
      FromLEBound(s);
      PowMonotone(|s|, 4);
      [FromLE(s)]
    else
      FromLEBound(s[..4]);
      assert Pow256(4) == 0x1_0000_0000;
      [FromLE(s[..4])] + WordsOf(s[4..])
  }

  lemma {:induction false} PowMonotone(a: nat, b: nat)
    requires a <= b <= 4
    ensures Pow256(a) <= Pow256(b) <= 0x1_0000_0000
  {
    assert Pow256(0) == 1;
    assert Pow256(1) == 256;
    assert Pow256(2) == 0x1_0000;
    assert Pow256(3) == 0x100_0000;
    assert Pow256(4) == 0x1_0000_0000;
  }

  function BytesOf(ws: seq<word>): (s: seq<byte>)
    ensures |s| == 4 * |ws|
  {
    if ws == [] then [] else ToLE(ws[0], 4) + BytesOf(ws[1..])
  }

  lemma {:induction false} WordsOfBytesOf(ws: seq<word>)
    ensures WordsOf(BytesOf(ws)) == ws
  {
    if ws != [] {
      var s := BytesOf(ws);
      assert s[..4] == ToLE(ws[0], 4) && s[4..] == BytesOf(ws[1..]);
      PowMonotone(4, 4);
      FromLEToLE(ws[0], 4);
      WordsOfBytesOf(ws[1..]);
      if |s| <= 4 {
        assert s == s[..4] && ws == [ws[0]];
      }
    }
  }

  lemma {:induction false} BytesOfWordsOf(s: seq<byte>)
    requires |s| % 4 == 0
    ensures BytesOf(WordsOf(s)) == s
  {
    if s != [] {
      ToLEFromLE(s[..4]);
      if |s| <= 4 {
        assert s == s[..4];
        assert WordsOf(s)[1..] == [];
        assert BytesOf([]) == [];
      } else {
        BytesOfWordsOf(s[4..]);
        assert WordsOf(s)[1..] == WordsOf(s[4..]);
        assert s == s[..4] + s[4..];
      }
    }
  }

  function Zeros(n: nat): (s: seq<byte>)
    ensures |s| == n
  {
    seq(n, _ => 0)
  }

  /** s[lo..hi] with both ends clamped to the sequence, the way a Python slice is read. */
  function Clamp<T>(s: seq<T>, lo: nat, hi: nat): (r: seq<T>)
    requires lo <= hi
    ensures hi <= |s| ==> r == s[lo..hi]
    ensures |r| <= hi - lo
  {
    if hi <= |s| then s[lo..hi] else if lo <= |s| then s[lo..] else []
  }
}
