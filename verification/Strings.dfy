/** Strings as the standard libraries of the source's languages cut, join and trim them. */
module Strings {
  // ----- characters -----

  predicate Digit(c: char) { '0' <= c <= '9' }

  predicate Letter(c: char) { 'a' <= c <= 'z' || 'A' <= c <= 'Z' }

  /** The \s of a regular expression of Go. */
  predicate Blank(c: char) { c in {'\t', '\n', '\U{C}', '\r', ' '} }

  /** Unicode white space, as trimming in Go sees it. */
  predicate Space(c: char)
  {
    Blank(c) || c in {'\U{B}', '\U{85}', '\U{A0}', '\U{1680}', '\U{2028}', '\U{2029}', '\U{202F}', '\U{205F}',
      '\U{3000}'}
    || '\U{2000}' <= c <= '\U{200A}'
  }

  /** White space of JavaScript, both for \s and for trimming. */
  predicate JsSpace(c: char)
  {
    (Space(c) && c != '\U{85}') || c == '\U{FEFF}'
  }

  predicate All(s: string, p: char -> bool)
  {
    forall i :: 0 <= i < |s| ==> p(s[i])
  }

  /** The bytes of a character in UTF-8. */
  function Utf8Units(c: char): nat
  {
    if c < '\U{80}' then 1 else if c < '\U{800}' then 2 else if c < '\U{10000}' then 3 else 4
  }

  /** The code units of a character in UTF-16. */
  function Utf16Units(c: char): nat
  {
    if c < '\U{10000}' then 1 else 2
  }

  /** The length of a string in the units its language counts. */
  function Size(units: char -> nat, s: string): nat
  {
    if s == "" then 0 else units(s[0]) + Size(units, s[1..])
  }

  // ----- trimming, splitting and searching -----

  function TrimLeft(s: string, space: char -> bool): string
  {
    if s != "" && space(s[0]) then TrimLeft(s[1..], space) else s
  }

  function TrimRight(s: string, space: char -> bool): string
  {
    if s != "" && space(s[|s| - 1]) then TrimRight(s[..|s| - 1], space) else s
  }

  function Trim(s: string, space: char -> bool): string
  {
    TrimRight(TrimLeft(s, space), space)
  }

  /** The pieces between the separators. */
  function Split(s: string, sep: char): (r: seq<string>)
    ensures r != []
  {
    if s == "" then [""]
    else
      var rest := Split(s[1..], sep);
      if s[0] == sep then [""] + rest else [[s[0]] + rest[0]] + rest[1..]
  }

  function Join(parts: seq<string>, sep: char): string
  {
    if parts == [] then ""
    else if |parts| == 1 then parts[0]
    else Join(parts[..|parts| - 1], sep) + [sep] + parts[|parts| - 1]
  }

  function IndexOf(s: string, c: char): (i: nat)
    ensures i <= |s| && (i < |s| ==> s[i] == c) && forall j :: 0 <= j < i ==> s[j] != c
  {
    if s == "" || s[0] == c then 0 else 1 + IndexOf(s[1..], c)
  }

  function Span(s: string, p: char -> bool): (n: nat)
    ensures n <= |s| && (forall i :: 0 <= i < n ==> p(s[i])) && (n < |s| ==> !p(s[n]))
  {
    if s == "" || !p(s[0]) then 0 else 1 + Span(s[1..], p)
  }

  // ----- characters in numbers -----

  /** White space by code point, in Go and in JavaScript. */
  lemma SpacesAre(c: char)
    ensures var n := c as int;
            var shared := n in {9, 10, 11, 12, 13, 32, 0xA0, 0x1680, 0x2028, 0x2029, 0x202F, 0x205F, 0x3000}
                          || (0x2000 <= n && n <= 0x200A);
            && (Blank(c) <==> n in {9, 10, 12, 13, 32})
            && (Space(c) <==> shared || n == 0x85) && (JsSpace(c) <==> shared || n == 0xFEFF)
  {
  }

  /** A character in UTF-8 (section 3 of RFC 3629): six bits in each byte but the first. */
  function Utf8(c: char): seq<int>
  {
    var n := c as int;
    var m := n / 0x40;
    var l := m / 0x40;
    if n < 0x80 then [n]
    else if n < 0x800 then [0xC0 + m, 0x80 + n % 0x40]
    else if n < 0x1_0000 then [0xE0 + l, 0x80 + m % 0x40, 0x80 + n % 0x40]
    else [0xF0 + l / 0x40, 0x80 + l % 0x40, 0x80 + m % 0x40, 0x80 + n % 0x40]
  }

  /** A character in UTF-16 (section 2.1 of RFC 2781): a surrogate pair from 0x10000 on. */
  function Utf16(c: char): seq<int>
  {
    var n := c as int;
    if n < 0x1_0000 then [n] else [0xD800 + (n - 0x1_0000) / 0x400, 0xDC00 + (n - 0x1_0000) % 0x400]
  }

  /** The units counted are those of UTF-8, and its bytes read back. */
  lemma Utf8Is(c: char)
    ensures Utf8Units(c) == |Utf8(c)|
    ensures forall i :: 0 < i < |Utf8(c)| ==> 0x80 <= Utf8(c)[i] < 0xC0
    ensures c as int == Utf8Value(Utf8(c))
  {
  }

  /** The code point that UTF-8 bytes stand for. */
  function Utf8Value(u: seq<int>): int
    requires 1 <= |u| <= 4
  {
    if |u| == 1 then u[0]
    else if |u| == 2 then 0x40 * (u[0] - 0xC0) + (u[1] - 0x80)
    else if |u| == 3 then 0x40 * (0x40 * (u[0] - 0xE0) + (u[1] - 0x80)) + (u[2] - 0x80)
    else 0x40 * (0x40 * (0x40 * (u[0] - 0xF0) + (u[1] - 0x80)) + (u[2] - 0x80)) + (u[3] - 0x80)
  }

  /** So are those of UTF-16, whose two halves read back. */
  lemma Utf16Is(c: char)
    ensures Utf16Units(c) == |Utf16(c)|
    ensures |Utf16(c)| == 2 ==>
              0xD800 <= Utf16(c)[0] < 0xDC00 <= Utf16(c)[1] < 0xE000
              && c as int == 0x1_0000 + 0x400 * (Utf16(c)[0] - 0xD800) + (Utf16(c)[1] - 0xDC00)
  {
  }

  // ----- what they promise -----

  predicate Trimmed(s: string, space: char -> bool)
  {
    s == "" || (!space(s[0]) && !space(s[|s| - 1]))
  }

  lemma {:induction false} TrimLeftTrims(s: string, space: char -> bool)
    ensures var t := TrimLeft(s, space);
            (t == "" || !space(t[0])) && |t| <= |s| && t == s[|s| - |t|..] && (Trimmed(s, space) ==> t == s)
  {
    if s != "" && space(s[0]) { TrimLeftTrims(s[1..], space); }
  }

  lemma {:induction false} TrimRightTrims(s: string, space: char -> bool)
    ensures var t := TrimRight(s, space);
            t <= s && (t == "" || !space(t[|t| - 1])) && (s != "" && !space(s[0]) ==> t != "" && t[0] == s[0])
            && (Trimmed(s, space) ==> t == s)
  {
    if s != "" && space(s[|s| - 1]) { TrimRightTrims(s[..|s| - 1], space); }
  }

  lemma {:induction false} SizeConcat(units: char -> nat, a: string, b: string)
    ensures Size(units, a + b) == Size(units, a) + Size(units, b)
  {
    if a == "" {
      assert a + b == b;
    } else {
      assert (a + b)[1..] == a[1..] + b;
      SizeConcat(units, a[1..], b);
    }
  }

  lemma PrefixSize(units: char -> nat, s: string, t: string)
    requires t <= s
    ensures Size(units, t) <= Size(units, s)
  {
    hide Size;
    SizeConcat(units, t, s[|t|..]);
    assert s == t + s[|t|..];
  }

  lemma SuffixSize(units: char -> nat, s: string, i: nat)
    requires i <= |s|
    ensures Size(units, s[i..]) <= Size(units, s)
  {
    hide Size;
    SizeConcat(units, s[..i], s[i..]);
    assert s == s[..i] + s[i..];
  }

  /** Trimming gives a trimmed part of the string, and leaves a trimmed one alone. */
  lemma TrimTrims(s: string, space: char -> bool)
    ensures Trimmed(Trim(s, space), space) && (Trimmed(s, space) ==> Trim(s, space) == s)
  {
    hide TrimLeft, TrimRight;
    TrimLeftTrims(s, space);
    TrimRightTrims(TrimLeft(s, space), space);
  }

  lemma TrimSize(units: char -> nat, s: string, space: char -> bool)
    ensures Size(units, Trim(s, space)) <= Size(units, s)
  {
    hide Size, TrimLeft, TrimRight;
    var t := TrimLeft(s, space);
    TrimLeftTrims(s, space);
    TrimRightTrims(t, space);
    SuffixSize(units, s, |s| - |t|);
    PrefixSize(units, t, TrimRight(t, space));
  }

  lemma {:induction false} SplitConcat(a: string, b: string, sep: char)
    requires sep !in a
    ensures Split(a + b, sep) == [a + Split(b, sep)[0]] + Split(b, sep)[1..]
  {
    if a == "" {
      assert a + b == b && a + Split(b, sep)[0] == Split(b, sep)[0];
    } else {
      assert (a + b)[0] == a[0] && (a + b)[1..] == a[1..] + b;
      assert a[0] in a;
      SplitConcat(a[1..], b, sep);
      assert [a[0]] + (a[1..] + Split(b, sep)[0]) == a + Split(b, sep)[0];
    }
  }

  /** Joining and then splitting again gives the same parts. */
  lemma {:induction false} SplitJoin(parts: seq<string>, sep: char)
    requires parts != [] && forall p :: p in parts ==> sep !in p
    ensures Split(Join(parts, sep), sep) == parts
  {
    JoinFirst(parts, sep);
    var first := parts[0];
    assert sep !in first;
    if |parts| == 1 {
      SplitConcat(first, "", sep);
      assert first + "" == first && parts == [first];
    } else {
      SplitJoin(parts[1..], sep);
      SplitConcat(first, [sep] + Join(parts[1..], sep), sep);
      var tail := [sep] + Join(parts[1..], sep);
      assert tail[1..] == Join(parts[1..], sep);
      assert Split(tail, sep) == [""] + parts[1..];
      assert first + "" == first && parts == [first] + parts[1..];
    }
  }

  lemma NothingToSplit(sep: char)
    ensures Split("", sep) == [""] && Join([""], sep) == ""
  {
  }

  lemma UnfoldSplit(s: string, sep: char)
    requires s != ""
    ensures var rest := Split(s[1..], sep);
            Split(s, sep) == if s[0] == sep then [""] + rest else [[s[0]] + rest[0]] + rest[1..]
  {
  }

  /** Splitting leaves parts without the separator that join to the whole again. */
  lemma {:induction false} JoinSplit(s: string, sep: char)
    ensures Join(Split(s, sep), sep) == s && forall p :: p in Split(s, sep) ==> sep !in p
  {
    hide Join, Split;
    if s == "" {
      NothingToSplit(sep);
    } else {
      UnfoldSplit(s, sep);
      JoinSplit(s[1..], sep);
      var rest := Split(s[1..], sep);
      AddChar(rest, s[0], sep);
      assert s == [s[0]] + s[1..] && rest[0] in rest && forall p :: p in rest[1..] ==> p in rest;
    }
  }

  lemma AddChar(rest: seq<string>, c: char, sep: char)
    requires rest != []
    ensures c == sep ==> Join([""] + rest, sep) == [c] + Join(rest, sep)
    ensures Join([[c] + rest[0]] + rest[1..], sep) == [c] + Join(rest, sep)
  {
    hide Join;
    JoinCons("", rest, sep);
    assert rest == [rest[0]] + rest[1..];
    if |rest| == 1 {
      JoinFirst(rest, sep);
      JoinFirst([[c] + rest[0]], sep);
      assert [[c] + rest[0]] + rest[1..] == [[c] + rest[0]];
    } else {
      JoinCons(rest[0], rest[1..], sep);
      JoinCons([c] + rest[0], rest[1..], sep);
    }
  }

  lemma JoinCons(first: string, rest: seq<string>, sep: char)
    requires rest != []
    ensures Join([first] + rest, sep) == first + ([sep] + Join(rest, sep))
  {
    JoinFirst([first] + rest, sep);
    assert ([first] + rest)[1..] == rest;
  }

  /** What is trimmed is space, before and after. */
  lemma TrimParts(s: string, space: char -> bool) returns (a: string, b: string)
    ensures All(a, space) && All(b, space) && s == a + Trim(s, space) + b && Trimmed(Trim(s, space), space)
  {
    hide TrimLeft, TrimRight;
    TrimTrims(s, space);
    a := LeftTrimmed(s, space);
    b := RightTrimmed(TrimLeft(s, space), space);
  }

  lemma {:induction false} LeftTrimmed(s: string, space: char -> bool) returns (a: string)
    ensures All(a, space) && s == a + TrimLeft(s, space)
  {
    a := "";
    if s != "" && space(s[0]) {
      var more := LeftTrimmed(s[1..], space);
      a := [s[0]] + more;
    }
  }

  lemma {:induction false} RightTrimmed(s: string, space: char -> bool) returns (b: string)
    ensures All(b, space) && s == TrimRight(s, space) + b
  {
    b := "";
    if s != "" && space(s[|s| - 1]) {
      var more := RightTrimmed(s[..|s| - 1], space);
      b := more + [s[|s| - 1]];
    }
  }

  lemma {:induction false} JoinFirst(parts: seq<string>, sep: char)
    requires parts != []
    ensures Join(parts, sep) == if |parts| == 1 then parts[0] else parts[0] + ([sep] + Join(parts[1..], sep))
  {
    if |parts| > 2 {
      var front := parts[..|parts| - 1];
      JoinFirst(front, sep);
      assert front[1..] == parts[1..][..|parts| - 2];
      assert Join(parts, sep) == parts[0] + ([sep] + Join(front[1..], sep)) + [sep] + parts[|parts| - 1];
      assert Join(parts[1..], sep) == Join(front[1..], sep) + [sep] + parts[|parts| - 1];
    } else if |parts| == 2 {
      assert parts[..1] == [parts[0]] && parts[1..] == [parts[1]];
      assert Join(parts[..1], sep) == parts[0];
    }
  }

  // ----- sizes -----

  lemma {:induction false} SpanAt(s: string, p: char -> bool, n: nat)
    requires n <= |s| && (forall i :: 0 <= i < n ==> p(s[i])) && (n < |s| ==> !p(s[n]))
    ensures Span(s, p) == n
  {
    if n > 0 { SpanAt(s[1..], p, n - 1); }
  }

  lemma {:induction false} IndexAt(s: string, c: char, n: nat)
    requires n <= |s| && (forall i :: 0 <= i < n ==> s[i] != c) && (n < |s| ==> s[n] == c)
    ensures IndexOf(s, c) == n
  {
    if n > 0 { IndexAt(s[1..], c, n - 1); }
  }
}
