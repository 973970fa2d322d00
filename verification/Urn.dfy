/**
 Content addresses: the client's base32 loop over a 32-bit buffer (client/lib/mlet-urn.js:20-34), the regrouping of bits
 it stands for (section 6 of RFC 4648), and the URN built on it (server/core/multiformats.go:18-54).
 */
module Urn {
  import opened Bytes
  import opened Wrappers
  import Blake3

  type Symbol = n: nat | n < 32

  // ----- bits -----

  type Bit = n: nat | n < 2

  /** The k low bits of n, most significant first. */
  function ToBits(n: nat, k: nat): (s: seq<Bit>)
    ensures |s| == k
  {
    if k == 0 then [] else ToBits(n / 2, k - 1) + [n % 2]
  }

  function FromBits(s: seq<Bit>): nat
  {
    if s == [] then 0 else 2 * FromBits(s[..|s| - 1]) + s[|s| - 1]
  }

  function Pow2(k: nat): (p: nat)
    ensures p > 0
  {
    if k == 0 then 1 else 2 * Pow2(k - 1)
  }

  function BitsOf(bytes: seq<byte>): (s: seq<Bit>)
    ensures |s| == 8 * |bytes|
  {
    if bytes == [] then [] else BitsOf(bytes[..|bytes| - 1]) + ToBits(bytes[|bytes| - 1], 8)
  }

  function NoBits(n: nat): (s: seq<Bit>)
    ensures |s| == n
  {
    seq(n, _ => 0)
  }

  // ----- regrouping -----

  /** The bits in fives, the last group filled with zeros. */
  function Symbols(bits: seq<Bit>): (s: seq<Symbol>)
    ensures |s| == (|bits| + 4) / 5
  {
    if bits == [] then []
    else if |bits| < 5 then
      FromBitsBound(bits + NoBits(5 - |bits|));
      [FromBits(bits + NoBits(5 - |bits|))]
    else
      FromBitsBound(bits[..5]);
      [FromBits(bits[..5])] + Symbols(bits[5..])
  }

  function Letter(v: Symbol): char
  {
    if v < 26 then 'a' + v as char else '2' + (v - 26) as char
  }

  const ALPHABET := "abcdefghijklmnopqrstuvwxyz234567"

  function Letters(s: seq<Symbol>): string
  {
    seq(|s|, i requires 0 <= i < |s| => Letter(s[i]))
  }

  /** Base32 as a regrouping of the input's bits. */
  function Base32(bytes: seq<byte>): (s: string)
    ensures |s| == (8 * |bytes| + 4) / 5
  {
    Letters(Symbols(BitsOf(bytes)))
  }

  lemma {:induction false} FromBitsBound(s: seq<Bit>)
    ensures FromBits(s) < Pow2(|s|)
  {
    if s != [] { FromBitsBound(s[..|s| - 1]); }
  }

  lemma {:induction false} FromToBits(n: nat, k: nat)
    requires n < Pow2(k)
    ensures FromBits(ToBits(n, k)) == n
  {
    if k > 0 {
      FromToBits(n / 2, k - 1);
      assert ToBits(n, k)[..k - 1] == ToBits(n / 2, k - 1);
    }
  }

  lemma {:induction false} ToFromBits(s: seq<Bit>)
    ensures ToBits(FromBits(s), |s|) == s
  {
    if s != [] {
      ToFromBits(s[..|s| - 1]);
      assert s == s[..|s| - 1] + [s[|s| - 1]];
    }
  }

  lemma {:induction false} FromBitsConcat(a: seq<Bit>, b: seq<Bit>)
    ensures FromBits(a + b) == FromBits(a) * Pow2(|b|) + FromBits(b)
  {
    if b == [] {
      assert a + b == a;
    } else {
      var front, last := b[..|b| - 1], b[|b| - 1];
      assert (a + b)[..|a + b| - 1] == a + front;
      FromBitsConcat(a, front);
      Regroup(FromBits(a), Pow2(|front|), FromBits(front), last);
    }
  }

  lemma Regroup(x: nat, p: nat, y: nat, z: nat)
    ensures 2 * (x * p + y) + z == x * (2 * p) + (2 * y + z)
  {
  }

  lemma SmallPowers()
    ensures Pow2(0) == 1 && Pow2(1) == 2 && Pow2(2) == 4 && Pow2(3) == 8 && Pow2(4) == 16 && Pow2(5) == 32
            && Pow2(6) == 64
    ensures Pow2(7) == 128 && Pow2(8) == 256 && Pow2(9) == 512 && Pow2(10) == 1024 && Pow2(11) == 2048
            && Pow2(12) == 4096
  {
  }

  // ----- the loop -----

  const WORD := 0x1_0000_0000

  /** (buffer << 8) | b in 32 bits. */
  function ShiftIn(buffer: nat, b: byte): (r: nat)
    requires buffer < WORD
    ensures r < WORD
  {
    (buffer * 256) % WORD + b
  }

  /** (buffer >>> shift) & 31. */
  function Top(buffer: nat, shift: nat): Symbol
    requires shift <= 7
  {
    (buffer / Pow2(shift)) % 32
  }

  /** (buffer << shift) & 31. */
  function Fill(buffer: nat, shift: nat): Symbol
    requires shift <= 5
  {
    ((buffer * Pow2(shift)) % WORD) % 32
  }

  /** The low bits of the buffer are the bits not yet written. */
  ghost predicate Pending(buffer: nat, rest: seq<Bit>)
    requires |rest| <= 12
  {
    buffer % Pow2(|rest|) == FromBits(rest)
  }

  lemma ShiftInKeeps(buffer: nat, rest: seq<Bit>, b: byte)
    requires buffer < WORD && |rest| < 5 && Pending(buffer, rest)
    ensures Pending(ShiftIn(buffer, b), rest + ToBits(b, 8))
  {
    SmallPowers();
    FromToBits(b, 8);
    FromBitsConcat(rest, ToBits(b, 8));
    match |rest|
    case 0 => ShiftMod(buffer, b, 1);
    case 1 => ShiftMod(buffer, b, 2);
    case 2 => ShiftMod(buffer, b, 4);
    case 3 => ShiftMod(buffer, b, 8);
    case 4 => ShiftMod(buffer, b, 16);
  }

  /** Quotient and remainder are determined. */
  lemma DivUnique(n: nat, d: nat, q: int, r: nat)
    requires d > 0 && n == d * q + r && r < d
    ensures n / d == q && n % d == r
  {
    var q2, r2 := n / d, n % d;
    assert n == d * q2 + r2;
    assert d * (q2 - q) == r - r2;
    if q2 > q { AtLeast(d, q2 - q); } else if q2 < q { AtLeast(d, q - q2); }
  }

  lemma AtLeast(d: nat, k: nat)
    requires k >= 1
    ensures d * k >= d
  {
  }

  lemma ShiftMod(buffer: nat, b: byte, p: nat)
    requires p in {1, 2, 4, 8, 16}
    ensures ((buffer * 256) % WORD + b) % (256 * p) == (buffer % p) * 256 + b
  {
    var h := (buffer * 256) / WORD;
    if p == 1 {
      DivUnique((buffer * 256) % WORD + b, 256, buffer / 1 - 16777216 * h, (buffer % 1) * 256 + b);
    } else if p == 2 {
      DivUnique((buffer * 256) % WORD + b, 512, buffer / 2 - 8388608 * h, (buffer % 2) * 256 + b);
    } else if p == 4 {
      DivUnique((buffer * 256) % WORD + b, 1024, buffer / 4 - 4194304 * h, (buffer % 4) * 256 + b);
    } else if p == 8 {
      DivUnique((buffer * 256) % WORD + b, 2048, buffer / 8 - 2097152 * h, (buffer % 8) * 256 + b);
    } else {
      DivUnique((buffer * 256) % WORD + b, 4096, buffer / 16 - 1048576 * h, (buffer % 16) * 256 + b);
    }
  }

  lemma TopIsNext(buffer: nat, rest: seq<Bit>)
    requires 5 <= |rest| <= 12 && Pending(buffer, rest)
    ensures Top(buffer, |rest| - 5) == FromBits(rest[..5]) && Pending(buffer, rest[5..])
  {
    SmallPowers();
    assert rest == rest[..5] + rest[5..];
    FromBitsConcat(rest[..5], rest[5..]);
    FromBitsBound(rest[..5]);
    FromBitsBound(rest[5..]);
    var x, y := FromBits(rest[..5]), FromBits(rest[5..]);
    match |rest|
    case 5 => SplitAt(buffer, 1, buffer / 32, x, y);
    case 6 => SplitAt(buffer, 2, buffer / 64, x, y);
    case 7 => SplitAt(buffer, 4, buffer / 128, x, y);
    case 8 => SplitAt(buffer, 8, buffer / 256, x, y);
    case 9 => SplitAt(buffer, 16, buffer / 512, x, y);
    case 10 => SplitAt(buffer, 32, buffer / 1024, x, y);
    case 11 => SplitAt(buffer, 64, buffer / 2048, x, y);
    case 12 => SplitAt(buffer, 128, buffer / 4096, x, y);
  }

  lemma SplitAt(buffer: nat, p: nat, k: nat, x: nat, y: nat)
    requires x < 32 && y < p && buffer == p * (32 * k + x) + y
    ensures (buffer / p) % 32 == x && buffer % p == y
  {
    DivUnique(buffer, p, 32 * k + x, y);
    DivUnique(32 * k + x, 32, k, x);
  }

  lemma FillIsLast(buffer: nat, rest: seq<Bit>)
    requires buffer < WORD && 0 < |rest| < 5 && Pending(buffer, rest)
    ensures Fill(buffer, 5 - |rest|) == FromBits(rest + NoBits(5 - |rest|))
  {
    SmallPowers();
    FromBitsConcat(rest, NoBits(5 - |rest|));
    FromNoBits(5 - |rest|);
    FromBitsBound(rest);
    var x := FromBits(rest);
    match |rest|
    case 1 => FillMod(buffer, x, 2, 16);
    case 2 => FillMod(buffer, x, 4, 8);
    case 3 => FillMod(buffer, x, 8, 4);
    case 4 => FillMod(buffer, x, 16, 2);
  }

  lemma {:induction false} FromNoBits(n: nat)
    ensures FromBits(NoBits(n)) == 0
  {
    if n > 0 {
      FromNoBits(n - 1);
      assert NoBits(n)[..n - 1] == NoBits(n - 1);
    }
  }

  lemma FillMod(buffer: nat, x: nat, p: nat, f: nat)
    requires p in {2, 4, 8, 16} && p * f == 32 && buffer % p == x
    ensures ((buffer * f) % WORD) % 32 == x * f
  {
    var h := (buffer * f) / WORD;
    if p == 2 {
      DivUnique((buffer * 16) % WORD, 32, buffer / 2 - 134217728 * h, x * 16);
    } else if p == 4 {
      DivUnique((buffer * 8) % WORD, 32, buffer / 4 - 134217728 * h, x * 8);
    } else if p == 8 {
      DivUnique((buffer * 4) % WORD, 32, buffer / 8 - 134217728 * h, x * 4);
    } else {
      DivUnique((buffer * 2) % WORD, 32, buffer / 16 - 134217728 * h, x * 2);
    }
  }

  /** The symbols of the whole groups written so far, then those of the rest. */
  lemma {:induction false} SymbolsAfter(done: seq<Bit>, rest: seq<Bit>)
    requires |done| % 5 == 0
    ensures Symbols(done + rest) == Symbols(done) + Symbols(rest)
  {
    if done == [] {
      assert done + rest == rest;
    } else {
      assert (done + rest)[..5] == done[..5] && (done + rest)[5..] == done[5..] + rest;
      SymbolsAfter(done[5..], rest);
    }
  }

  lemma OneGroup(rest: seq<Bit>)
    requires |rest| == 5
    ensures FromBits(rest) < 32 && Symbols(rest) == [FromBits(rest)]
  {
    SmallPowers();
    FromBitsBound(rest);
    assert rest[..5] == rest && rest[5..] == [];
  }

  lemma LettersConcat(a: seq<Symbol>, b: seq<Symbol>)
    ensures Letters(a + b) == Letters(a) + Letters(b)
  {
  }

  lemma OneLetter(v: Symbol)
    ensures Letters([v]) == [Letter(v)]
  {
  }

  /** One turn of the inner loop writes the next whole group. */
  lemma NextGroup(done: seq<Bit>, rest: seq<Bit>, buffer: nat)
    requires |done| % 5 == 0 && 5 <= |rest| <= 12 && Pending(buffer, rest)
    ensures Letters(Symbols(done + rest[..5])) == Letters(Symbols(done)) + [Letter(Top(buffer, |rest| - 5))]
    ensures Pending(buffer, rest[5..])
  {
    hide Symbols, Letters, Top, Pending;
    TopIsNext(buffer, rest);
    SymbolsAfter(done, rest[..5]);
    OneGroup(rest[..5]);
    LettersConcat(Symbols(done), [Top(buffer, |rest| - 5)]);
    OneLetter(Top(buffer, |rest| - 5));
  }

  lemma LastGroup(done: seq<Bit>, rest: seq<Bit>, buffer: nat)
    requires buffer < WORD && |done| % 5 == 0 && 0 < |rest| < 5 && Pending(buffer, rest)
    ensures Letters(Symbols(done + rest)) == Letters(Symbols(done)) + [Letter(Fill(buffer, 5 - |rest|))]
  {
    FillIsLast(buffer, rest);
    SymbolsAfter(done, rest);
    LettersConcat(Symbols(done), [Fill(buffer, 5 - |rest|)]);
  }

  /** The inner loop: whole groups are written while there are five pending bits. */
  method Drain(out: string, buffer: nat, bits: nat, ghost done: seq<Bit>, ghost rest: seq<Bit>)
    returns (more: string, left: nat, ghost done': seq<Bit>, ghost rest': seq<Bit>)
    requires bits == |rest| <= 12 && |done| % 5 == 0 && Pending(buffer, rest) && out == Letters(Symbols(done))
    ensures left == |rest'| < 5 && |done'| % 5 == 0 && Pending(buffer, rest') && more == Letters(Symbols(done'))
    ensures done' + rest' == done + rest
    ensures left == bits % 5 && out <= more && |more| == |out| + bits / 5
  {
    hide Symbols, Letters, Pending, Top;
    more, left, done', rest' := out, bits, done, rest;
    while left >= 5
      invariant left == |rest'| <= 12 && |done'| % 5 == 0 && Pending(buffer, rest') && more == Letters(Symbols(done'))
      invariant done' + rest' == done + rest
      invariant out <= more && bits == left + 5 * (|more| - |out|)
    {
      NextGroup(done', rest', buffer);
      more := more + [Letter(Top(buffer, left - 5))];
      left := left - 5;
      assert done' + rest' == (done' + rest'[..5]) + rest'[5..];
      done', rest' := done' + rest'[..5], rest'[5..];
    }
  }

  /** base32Lower: the 32-bit buffer and its count of pending bits. */
  method Base32Lower(bytes: seq<byte>) returns (out: string)
    ensures out == Base32(bytes)
  {
    hide Symbols, Letters, Pending, ToBits, Fill, Top, ShiftIn;
    out := "";
    var buffer: nat, bits: nat := 0, 0;
    ghost var done: seq<Bit>, rest: seq<Bit> := [], [];
    Empty();
    for i := 0 to |bytes|
      invariant buffer < WORD && bits == |rest| < 5 && |done| % 5 == 0
      invariant done + rest == BitsOf(bytes[..i]) && out == Letters(Symbols(done)) && Pending(buffer, rest)
    {
      assert bytes[..i + 1][..i] == bytes[..i];
      ShiftInKeeps(buffer, rest, bytes[i]);
      buffer := ShiftIn(buffer, bytes[i]);
      assert done + (rest + ToBits(bytes[i], 8)) == (done + rest) + ToBits(bytes[i], 8);
      out, bits, done, rest := Drain(out, buffer, bits + 8, done, rest + ToBits(bytes[i], 8));
    }
    assert bytes[..|bytes|] == bytes;
    if bits > 0 {
      LastGroup(done, rest, buffer);
      out := out + [Letter(Fill(buffer, 5 - bits))];
    } else {
      assert done + rest == done;
    }
  }

  lemma Empty()
    ensures Letters(Symbols([])) == "" && Pending(0, [])
  {
  }

  // ----- decoding -----

  function SymbolOf(c: char): Option<Symbol>
  {
    if 'a' <= c <= 'z' then Some(c as nat - 'a' as nat)
    else if '2' <= c <= '7' then Some(c as nat - '2' as nat + 26)
    else None
  }

  function AllSymbols(s: string): Option<seq<Symbol>>
  {
    if s == "" then Some([])
    else
      var front, last := AllSymbols(s[..|s| - 1]), SymbolOf(s[|s| - 1]);
      if front.None? || last.None? then None else Some(front.value + [last.value])
  }

  function SymbolBits(s: seq<Symbol>): (b: seq<Bit>)
    ensures |b| == 5 * |s|
  {
    if s == [] then [] else ToBits(s[0], 5) + SymbolBits(s[1..])
  }

  function BytesOfBits(bits: seq<Bit>): (s: seq<byte>)
    ensures |s| == |bits| / 8
  {
    if |bits| < 8 then []
    else
      FromBitsBound(bits[..8]);
      assert Pow2(8) == 256 by { SmallPowers(); }
      [FromBits(bits[..8])] + BytesOfBits(bits[8..])
  }

  /** The library's decoder skips line breaks wherever they stand. */
  function Strip(s: string): string
  {
    if s == "" then ""
    else Strip(s[..|s| - 1]) + if s[|s| - 1] in {'\r', '\n'} then "" else [s[|s| - 1]]
  }

  /**
   Unpadded base32: whole bytes out of the symbols' bits, whatever bits are left over; some lengths cannot come from
   whole bytes.
   */
  function Decode(s: string): Option<seq<byte>>
  {
    var letters := Strip(s);
    match AllSymbols(letters)
    case None => None
    case Some(symbols) => if |letters| % 8 in {1, 3, 6} then None else Some(BytesOfBits(SymbolBits(symbols)))
  }

  lemma {:induction false} StripLetters(s: seq<Symbol>)
    ensures Strip(Letters(s)) == Letters(s)
  {
    if s != [] {
      var front, last := s[..|s| - 1], s[|s| - 1];
      StripLetters(front);
      assert Letters(s)[..|s| - 1] == Letters(front);
      assert Letters(s) == Letters(front) + [Letter(last)];
    }
  }

  lemma LetterRoundTrip(v: Symbol)
    ensures SymbolOf(Letter(v)) == Some(v) && ALPHABET[v] == Letter(v)
  {
  }

  lemma {:induction false} LettersRoundTrip(s: seq<Symbol>)
    ensures AllSymbols(Letters(s)) == Some(s)
  {
    if s != [] {
      var front, last := s[..|s| - 1], s[|s| - 1];
      LettersRoundTrip(front);
      LetterRoundTrip(last);
      assert Letters(s)[..|s| - 1] == Letters(front);
      assert s == front + [last];
    }
  }

  /** Ungrouping gives the bits back, with the filling. */
  lemma {:induction false} SymbolBitsOf(bits: seq<Bit>) returns (filling: seq<Bit>)
    ensures SymbolBits(Symbols(bits)) == bits + filling && |filling| < 5
  {
    if bits == [] {
      filling := [];
    } else if |bits| < 5 {
      filling := NoBits(5 - |bits|);
      ToFromBits(bits + filling);
      assert Symbols(bits)[1..] == [];
    } else {
      filling := SymbolBitsOf(bits[5..]);
      ToFromBits(bits[..5]);
      assert Symbols(bits)[1..] == Symbols(bits[5..]);
      assert bits[..5] + (bits[5..] + filling) == bits + filling;
    }
  }

  lemma {:induction false} BytesRoundTrip(bytes: seq<byte>, filling: seq<Bit>)
    requires |filling| < 8
    ensures BytesOfBits(BitsOf(bytes) + filling) == bytes
  {
    if bytes == [] {
      assert BitsOf(bytes) + filling == filling;
    } else {
      BitsOfCons(bytes[0], bytes[1..]);
      assert bytes == [bytes[0]] + bytes[1..];
      var all := BitsOf(bytes) + filling;
      assert all[..8] == ToBits(bytes[0], 8) && all[8..] == BitsOf(bytes[1..]) + filling;
      SmallPowers();
      FromToBits(bytes[0], 8);
      BytesRoundTrip(bytes[1..], filling);
    }
  }

  lemma {:induction false} BitsOfCons(b: byte, bytes: seq<byte>)
    ensures BitsOf([b] + bytes) == ToBits(b, 8) + BitsOf(bytes)
  {
    if bytes == [] {
      assert [b] + bytes == [b] && [b][..0] == [];
    } else {
      var front := bytes[..|bytes| - 1];
      assert ([b] + bytes)[..|bytes|] == [b] + front;
      BitsOfCons(b, front);
    }
  }

  /** Decoding undoes base32, for every input. */
  lemma Base32RoundTrip(bytes: seq<byte>)
    ensures Decode(Base32(bytes)) == Some(bytes)
  {
    hide Symbols, SymbolBits, BytesOfBits, BitsOf, AllSymbols, Strip;
    LettersRoundTrip(Symbols(BitsOf(bytes)));
    StripLetters(Symbols(BitsOf(bytes)));
    var filling := SymbolBitsOf(BitsOf(bytes));
    BytesRoundTrip(bytes, filling);
    LengthIsPossible(|bytes|);
  }

  lemma LengthIsPossible(n: nat)
    ensures (8 * n + 4) / 5 % 8 !in {1, 3, 6}
  {
    var q, r := n / 5, n % 5;
    assert 8 * n + 4 == 5 * (8 * q) + (8 * r + 4);
    assert (8 * n + 4) / 5 == 8 * q + (8 * r + 4) / 5;
    match r
    case 0 =>
    case 1 =>
    case 2 =>
    case 3 =>
    case 4 =>
  }

  // ----- content addresses -----

  const PREFIX := "urn:mlet:b"

  /** The address of a digest: its multihash in base32. */
  function UrnOf(digest: seq<byte>): string
    requires |digest| == 32
  {
    PREFIX + Base32([0x1E, 0x20] + digest)
  }

  function UrnMlet(c: Blake3.Compress, data: seq<byte>): string
  {
    UrnOf(Blake3.Root(c, data))
  }

  function ParseUrn(urn: string): Option<seq<byte>>
  {
    if !(PREFIX <= urn) then None
    else
      match Decode(urn[|PREFIX|..])
      case None => None
      case Some(raw) => if |raw| != 34 || raw[..2] != [0x1E, 0x20] then None else Some(raw[2..])
  }

  /** Parsing an address returns the digest it was built from, so different digests have different addresses. */
  lemma ParseUrnOf(digest: seq<byte>)
    requires |digest| == 32
    ensures ParseUrn(UrnOf(digest)) == Some(digest)
  {
    hide Base32, Decode;
    var raw: seq<byte> := [0x1E, 0x20] + digest;
    Base32RoundTrip(raw);
    assert UrnOf(digest)[|PREFIX|..] == Base32(raw);
    assert raw[2..] == digest;
  }

  // ----- which strings parse -----

  lemma {:induction false} SymbolsSpell(s: string)
    requires AllSymbols(s).Some?
    ensures Letters(AllSymbols(s).value) == s
  {
    if s != "" {
      var front, last := s[..|s| - 1], s[|s| - 1];
      SymbolsSpell(front);
      LettersConcat(AllSymbols(front).value, [SymbolOf(last).value]);
      assert s == front + [last];
    }
  }

  lemma {:induction false} SymbolsOfBits(s: seq<Symbol>)
    ensures Symbols(SymbolBits(s)) == s
  {
    if s != [] {
      var bits := SymbolBits(s);
      SymbolsOfBits(s[1..]);
      assert bits[..5] == ToBits(s[0], 5) && bits[5..] == SymbolBits(s[1..]);
      SmallPowers();
      FromToBits(s[0], 5);
      assert s == [s[0]] + s[1..];
    }
  }

  lemma {:induction false} BitsOfBytes(bits: seq<Bit>)
    ensures BitsOf(BytesOfBits(bits)) == bits[..|bits| / 8 * 8]
  {
    hide BitsOf, ToBits, FromBits;
    if |bits| < 8 {
      NoBytes();
      assert bits[..0] == [];
    } else {
      var rest := bits[8..];
      var n := |rest| / 8 * 8;
      BitsOfBytes(rest);
      OneByteLess(bits);
      assert bits[..8] + rest[..n] == bits[..8 + n];
    }
  }

  lemma NoBytes()
    ensures BitsOf([]) == []
  {
  }

  lemma OneByteLess(bits: seq<Bit>)
    requires |bits| >= 8
    ensures BitsOf(BytesOfBits(bits)) == bits[..8] + BitsOf(BytesOfBits(bits[8..]))
  {
    hide BitsOf;
    FromBitsBound(bits[..8]);
    SmallPowers();
    ToFromBits(bits[..8]);
    BitsOfCons(FromBits(bits[..8]), BytesOfBits(bits[8..]));
  }

  /** The multihash of a digest, with other bits than zeros to fill the last letter. */
  function Spelled(digest: seq<byte>, filling: seq<Bit>): string
    requires |digest| == 32 && |filling| == 3
  {
    Letters(Symbols(BitsOf([0x1E, 0x20] + digest) + filling))
  }

  lemma SpelledDecodes(digest: seq<byte>, filling: seq<Bit>)
    requires |digest| == 32 && |filling| == 3
    ensures Decode(Spelled(digest, filling)) == Some([0x1E, 0x20] + digest)
    ensures Strip(Spelled(digest, filling)) == Spelled(digest, filling)
  {
    hide Symbols, SymbolBits, BytesOfBits, BitsOf, AllSymbols, Strip;
    var raw: seq<byte> := [0x1E, 0x20] + digest;
    var bits := BitsOf(raw) + filling;
    LettersRoundTrip(Symbols(bits));
    StripLetters(Symbols(bits));
    var more := SymbolBitsOf(bits);
    assert more == [] && bits + more == bits;
    BytesRoundTrip(raw, filling);
  }

  lemma DecodesOnlySpelled(s: string, digest: seq<byte>) returns (filling: seq<Bit>)
    requires |digest| == 32 && Decode(s) == Some([0x1E, 0x20] + digest)
    ensures |filling| == 3 && Strip(s) == Spelled(digest, filling)
  {
    hide Symbols, SymbolBits, BytesOfBits, BitsOf, AllSymbols, Strip, Letters;
    var symbols := AllSymbols(Strip(s)).value;
    var bits := SymbolBits(symbols);
    SymbolsSpell(Strip(s));
    SymbolsOfBits(symbols);
    BitsOfBytes(bits);
    LettersLength(symbols);
    assert |bits| / 8 == 34 && |bits| == 275;
    filling := bits[272..];
    assert bits == bits[..272] + filling;
  }

  lemma LettersLength(s: seq<Symbol>)
    ensures |Letters(s)| == |s|
  {
  }

  /**
   A string parses to a digest if and only if it is the prefix and then, with the line breaks taken out, the multihash
   in base32 with any three filling bits: eight spellings, and line breaks anywhere after the prefix.
   */
  lemma ParsesExactlyWhenSpelled(urn: string, digest: seq<byte>)
    requires |digest| == 32
    ensures ParseUrn(urn) == Some(digest)
            <==> PREFIX <= urn
                 && exists filling: seq<Bit> {:trigger Spelled(digest, filling)} ::
                      |filling| == 3 && Strip(urn[|PREFIX|..]) == Spelled(digest, filling)
  {
    hide Decode, Strip, Spelled;
    if PREFIX <= urn {
      var s := urn[|PREFIX|..];
      if ParseUrn(urn) == Some(digest) {
        var raw := Decode(s).value;
        assert raw == raw[..2] + raw[2..];
        var filling := DecodesOnlySpelled(s, digest);
        assert Strip(s) == Spelled(digest, filling);
      }
      forall filling: seq<Bit> | |filling| == 3 && Strip(s) == Spelled(digest, filling)
        ensures ParseUrn(urn) == Some(digest)
      {
        SpelledDecodes(digest, filling);
        SameLetters(s, Spelled(digest, filling));
        assert ([0x1E, 0x20] + digest)[..2] == [0x1E, 0x20] && ([0x1E, 0x20] + digest)[2..] == digest;
      }
    }
  }

  lemma SameLetters(s: string, t: string)
    requires Strip(s) == Strip(t)
    ensures Decode(s) == Decode(t)
  {
    hide Strip;
  }

  /** The built address is the spelling with zeros, and no two spellings are the same. */
  lemma SpellingsDiffer(digest: seq<byte>, other: seq<byte>, a: seq<Bit>, b: seq<Bit>)
    requires |digest| == |other| == 32 && |a| == |b| == 3
    ensures UrnOf(digest) == PREFIX + Spelled(digest, [0, 0, 0])
    ensures Spelled(digest, a) == Spelled(other, b) ==> digest == other && a == b
  {
    hide Symbols, SymbolBits, BitsOf, Letters, Decode, ParseUrn;
    var raw: seq<byte>, raw2: seq<byte> := [0x1E, 0x20] + digest, [0x1E, 0x20] + other;
    ZerosFill(BitsOf(raw));
    if Spelled(digest, a) == Spelled(other, b) {
      SpelledDecodes(digest, a);
      SpelledDecodes(other, b);
      assert raw[2..] == digest && raw2[2..] == other;
      LettersRoundTrip(Symbols(BitsOf(raw) + a));
      LettersRoundTrip(Symbols(BitsOf(raw) + b));
      var x := SymbolBitsOf(BitsOf(raw) + a);
      var y := SymbolBitsOf(BitsOf(raw) + b);
      assert (BitsOf(raw) + a + x)[272..275] == a && (BitsOf(raw) + b + y)[272..275] == b;
    }
  }

  lemma ZerosFill(bits: seq<Bit>)
    requires |bits| == 272
    ensures Symbols(bits) == Symbols(bits + [0, 0, 0])
  {
    hide Symbols, FromBits;
    var done, rest := bits[..270], bits[270..];
    assert bits == done + rest && bits + [0, 0, 0] == done + (rest + [0, 0, 0]);
    SymbolsAfter(done, rest);
    SymbolsAfter(done, rest + [0, 0, 0]);
    LastFive(rest);
  }

  lemma LastFive(rest: seq<Bit>)
    requires |rest| == 2
    ensures Symbols(rest) == Symbols(rest + [0, 0, 0])
  {
    assert NoBits(3) == [0, 0, 0];
    OneGroup(rest + [0, 0, 0]);
  }

  /** VerifyContent: the digest an address carries is the content's. */
  predicate VerifyContent(c: Blake3.Compress, urn: string, data: seq<byte>)
  {
    ParseUrn(urn) == Some(Blake3.Root(c, data))
  }

  /** Whatever string is taken for an address, it verifies one content or exhibits a collision. */
  lemma AnyAddressBinds(c: Blake3.Compress, urn: string, data: seq<byte>, other: seq<byte>)
    requires VerifyContent(c, urn, data) && VerifyContent(c, urn, other) && data != other
    ensures var p := Blake3.SubtreeCollision(c, data, other, 0, true); Blake3.Collides(c, p.0, p.1)
  {
    hide Blake3.Root, ParseUrn, Blake3.SubtreeCollision;
    Blake3.DigestBinds(c, data, other);
  }

  /** An address names one content: any other content under it exhibits a collision of the compression function. */
  lemma AddressBinds(c: Blake3.Compress, data: seq<byte>, other: seq<byte>)
    ensures ParseUrn(UrnMlet(c, data)) == Some(Blake3.Root(c, data))
    ensures UrnMlet(c, data) == UrnMlet(c, other) <==> Blake3.Root(c, data) == Blake3.Root(c, other)
    ensures UrnMlet(c, data) == UrnMlet(c, other) && data != other ==>
              var p := Blake3.SubtreeCollision(c, data, other, 0, true); Blake3.Collides(c, p.0, p.1)
  {
    hide Blake3.Root, UrnOf, ParseUrn, Blake3.SubtreeCollision;
    ParseUrnOf(Blake3.Root(c, data));
    ParseUrnOf(Blake3.Root(c, other));
    if UrnMlet(c, data) == UrnMlet(c, other) && data != other { Blake3.DigestBinds(c, data, other); }
  }
}
