/**
 The canonical text, spelled out (server/core/jcs.go:57-190, server/core/sign.go:27-95; RFC 8785 sections 3.2.2.2 and
 3.2.3): the escapes, the numbers, the order of keys, the brackets and commas, and the text that is signed.
 */
module JcsText {
  import opened Jcs
  import opened JcsProofs
  import Strings
  import opened Wrappers

  // ----- strings -----

  const HEX := "0123456789abcdef"

  /** How a character stands inside a string. */
  predicate Stands(c: char, e: string)
  {
    e == if c == '"' then "\\\"" else if c == '\\' then "\\\\"
         else if c == 8 as char then "\\b" else if c == 9 as char then "\\t" else if c == 10 as char then "\\n"
         else if c == 12 as char then "\\f" else if c == 13 as char then "\\r"
         else if c as int < 32 then ['\\', 'u', '0', '0', HEX[c as int / 16], HEX[c as int % 16]]
         else [c]
  }

  lemma HexIs(n: nat)
    requires n < 16
    ensures Hex(n) == HEX[n]
  {
  }

  lemma EscapeIs(c: char)
    ensures Stands(c, EscapeChar(c))
  {
    hide Hex;
    if c as int < 32 {
      HexIs(c as int / 16);
      HexIs(c as int % 16);
    }
  }

  /** The pieces of a string, one for each character. */
  function Pieces(s: string): seq<string>
  {
    seq(|s|, i requires 0 <= i < |s| => EscapeChar(s[i]))
  }

  function Concat(parts: seq<string>): string
  {
    if parts == [] then "" else Concat(parts[..|parts| - 1]) + parts[|parts| - 1]
  }

  /** A string is quoted, each of its characters in its place as it stands inside one. */
  lemma {:induction false} QuoteIs(s: string) returns (pieces: seq<string>)
    ensures |pieces| == |s| && forall i :: 0 <= i < |s| ==> Stands(s[i], pieces[i])
    ensures Quote(s) == "\"" + Concat(pieces) + "\""
  {
    hide EscapeChar, Stands;
    pieces := Pieces(s);
    forall i | 0 <= i < |s| ensures Stands(s[i], pieces[i]) { EscapeIs(s[i]); }
    EscapeIsConcat(s);
  }

  lemma {:induction false} EscapeIsConcat(s: string)
    ensures Escape(s) == Concat(Pieces(s))
  {
    hide EscapeChar;
    if s != "" {
      var n := |s| - 1;
      EscapeIsConcat(s[..n]);
      assert Pieces(s)[..n] == Pieces(s[..n]);
    }
  }

  // ----- numbers -----

  /** A number is its decimal digits, the most significant first, behind a minus sign when it is negative. */
  lemma FormatIs(n: int)
    ensures n < 0 ==> FormatInt(n) == "-" + FormatInt(-n)
    ensures 0 <= n < 10 ==> FormatInt(n) == ["0123456789"[n]]
    ensures n >= 10 ==> FormatInt(n) == FormatInt(n / 10) + ["0123456789"[n % 10]]
  {
    if 0 <= n {
      assert "0123456789"[n % 10] == Jcs.Digit(n % 10);
      if n < 10 { assert n % 10 == n; }
    }
  }

  /** A token without its minus sign, if it has one. */
  function Digits(tok: string): string
  {
    if "-" <= tok then tok[1..] else tok
  }

  /** The tokens of the dialect: decimal digits without a leading zero, behind an optional minus sign. */
  predicate DialectToken(tok: string)
  {
    && Digits(tok) != "" && (forall i :: 0 <= i < |Digits(tok)| ==> '0' <= Digits(tok)[i] <= '9')
    && (Digits(tok)[0] == '0' ==> Digits(tok) == "0")
  }

  lemma DecimalNext(m: nat, k: nat)
    requires m > 0 && k < 10
    ensures Decimal(10 * m + k) == Decimal(m) + [Jcs.Digit(k)]
  {
    assert (10 * m + k) / 10 == m && (10 * m + k) % 10 == k;
  }

  lemma OneDigit(c: char)
    requires IsDigit(c)
    ensures DigitsValue([c]) == c as int - '0' as int && Decimal(c as int - '0' as int) == [c]
  {
    assert [c][..0] == "";
  }

  lemma DigitsNext(front: string, c: char)
    requires AllDigits(front) && IsDigit(c)
    ensures AllDigits(front + [c]) && DigitsValue(front + [c]) == 10 * DigitsValue(front) + (c as int - '0' as int)
  {
    assert (front + [c])[..|front|] == front;
  }

  lemma {:induction false} DigitsAreDecimal(d: string)
    requires d != "" && AllDigits(d) && (d[0] == '0' ==> |d| == 1)
    ensures d == Decimal(DigitsValue(d)) && (d[0] != '0' ==> DigitsValue(d) > 0)
  {
    hide Decimal, DigitsValue;
    var front, c := d[..|d| - 1], d[|d| - 1];
    assert d == front + [c];
    if front == "" {
      OneDigit(c);
      assert d == [c];
    } else {
      DigitsAreDecimal(front);
      DigitsNext(front, c);
      DecimalNext(DigitsValue(front), c as int - '0' as int);
    }
  }

  /** A token is taken, for n, exactly when it is one of the dialect for a number within 2^53 - 1 of zero. */
  lemma NumberIs(tok: string, n: int)
    ensures ReadNumber(tok) == Some(n)
            <==> -9007199254740991 <= n <= 9007199254740991 && (tok == FormatInt(n) || (n == 0 && tok == "-0"))
    ensures ReadNumber(tok).Some? ==> DialectToken(tok)
  {
    hide Decimal, DigitsValue;
    if -9007199254740991 <= n <= 9007199254740991 && tok == FormatInt(n) { FormatReads(n); }
    if tok == "-0" { MinusZero(); }
    if ReadNumber(tok) == Some(n) {
      var d := Magnitude(tok);
      DigitsAreDecimal(d);
      if tok[0] == '-' {
        assert tok == "-" + d;
        if d[0] == '0' { assert d == "0"; ZeroIs(); } else { assert n < 0 && FormatInt(n) == "-" + d; }
      }
    }
  }

  lemma MinusZero()
    ensures ReadNumber("-0") == Some(0)
  {
    assert Magnitude("-0") == "0" && AllDigits("0");
    ZeroIs();
  }

  lemma ZeroIs()
    ensures AllDigits("0") && DigitsValue("0") == 0
  {
    assert "0"[..0] == "";
  }

  // ----- the order of keys -----

  /** One code unit below the surrogates' range, two from it on. */
  lemma UnitsAre(c: char)
    ensures c as int < 0x10000 ==> Utf16([c]) == [c as int]
    ensures c as int >= 0x10000 ==>
              Utf16([c]) == [0xD800 + (c as int - 0x10000) / 0x400, 0xDC00 + (c as int - 0x10000) % 0x400]
  {
    assert [c][1..] == "";
  }

  lemma {:induction false} UnitsJoin(a: string, b: string)
    ensures Utf16(a + b) == Utf16(a) + Utf16(b)
  {
    if a == "" {
      assert a + b == b;
    } else {
      assert (a + b)[1..] == a[1..] + b;
      UnitsJoin(a[1..], b);
    }
  }

  /** a and b agree up to i, where a ends or has the smaller unit. */
  ghost predicate DiffersAt(a: seq<nat>, b: seq<nat>, i: int)
  {
    0 <= i <= |a| && i < |b| && a[..i] == b[..i] && (i == |a| || a[i] < b[i])
  }

  lemma {:induction false} LexIs(a: seq<nat>, b: seq<nat>)
    ensures LexLess(a, b) <==> exists i :: DiffersAt(a, b, i)
  {
    if a == [] {
      if b != [] { assert DiffersAt(a, b, 0); }
    } else if b != [] {
      if a[0] < b[0] {
        assert DiffersAt(a, b, 0);
      } else if a[0] == b[0] {
        LexIs(a[1..], b[1..]);
        if i :| DiffersAt(a[1..], b[1..], i) {
          assert a[..i + 1] == [a[0]] + a[1..][..i] && b[..i + 1] == [b[0]] + b[1..][..i];
          assert DiffersAt(a, b, i + 1);
        }
        if i :| DiffersAt(a, b, i) {
          assert i > 0;
          assert a[1..][..i - 1] == a[..i][1..] && b[1..][..i - 1] == b[..i][1..];
          assert DiffersAt(a[1..], b[1..], i - 1);
        }
      } else {
        forall i | i > 0 ensures !DiffersAt(a, b, i) { DiffersFirst(a, b, i); }
      }
    }
  }

  lemma DiffersFirst(a: seq<nat>, b: seq<nat>, i: int)
    requires i > 0 && a != [] && b != [] && a[0] != b[0]
    ensures !DiffersAt(a, b, i)
  {
    if i <= |a| && i <= |b| { assert a[..i][0] == a[0] && b[..i][0] == b[0]; }
  }

  /** Keys are ordered by the first code unit in which they differ, a prefix before what it is a prefix of. */
  lemma LessIs(a: string, b: string)
    ensures Less(a, b) <==> exists i :: DiffersAt(Utf16(a), Utf16(b), i)
  {
    hide LexLess, Utf16, DiffersAt;
    var x, y := Utf16(a), Utf16(b);
    LexIs(x, y);
    if Less(a, b) {
      var i :| DiffersAt(x, y, i);
      assert DiffersAt(Utf16(a), Utf16(b), i);
    }
    if i :| DiffersAt(Utf16(a), Utf16(b), i) { assert DiffersAt(x, y, i); }
  }

  // ----- values -----

  lemma WordsAre(b: bool, s: string, n: int)
    ensures Print(Null) == "null" && Print(Bool(b)) == (if b then "true" else "false")
    ensures Print(Str(s)) == Quote(s) && Print(Number(n)) == FormatInt(n)
  {
  }

  lemma {:induction false} ItemsAre(v: Value, n: nat)
    requires v.List? && n <= |v.items|
    ensures Items(v, n) == Strings.Join(seq(n, i requires 0 <= i < n => Print(v.items[i])), ',')
  {
    hide Print;
    var parts := seq(n, i requires 0 <= i < n => Print(v.items[i]));
    if n > 0 {
      ItemsAre(v, n - 1);
      assert parts[..n - 1] == seq(n - 1, i requires 0 <= i < n - 1 => Print(v.items[i]));
      if n == 1 { assert Items(v, 0) == ""; }
    }
  }

  /** A list is its items in brackets, with commas between them. */
  lemma ListIs(items: seq<Value>)
    ensures Print(List(items))
            == "[" + Strings.Join(seq(|items|, i requires 0 <= i < |items| => Print(items[i])), ',') + "]"
  {
    hide Items, Strings.Join;
    PrintList(List(items));
    ItemsAre(List(items), |items|);
    assert seq(|items|, i requires 0 <= i < |items| => Print(List(items).items[i]))
        == seq(|items|, i requires 0 <= i < |items| => Print(items[i]));
  }

  /** The i-th member in the order of keys. */
  ghost function Member(members: map<string, Value>, keys: seq<string>, i: nat): string
    requires i < |keys| && keys[i] in members
  {
    Quote(keys[i]) + ":" + Print(members[keys[i]])
  }

  ghost predicate InOrder(members: map<string, Value>, keys: seq<string>)
  {
    && (forall k :: k in keys <==> k in members)
    && forall i, j :: 0 <= i < j < |keys| ==> Less(keys[i], keys[j])
  }

  ghost function MembersIn(members: map<string, Value>, keys: seq<string>, n: nat): seq<string>
    requires InOrder(members, keys) && n <= |keys|
  {
    seq(n, i requires 0 <= i < n => assert keys[i] in keys; Member(members, keys, i))
  }

  lemma {:induction false} MembersAre(v: Value, keys: seq<string>, n: nat)
    requires v.Object? && InOrder(v.members, keys) && n <= |keys|
    ensures Members(v, keys, n) == Strings.Join(MembersIn(v.members, keys, n), ',')
  {
    hide Print, Less, Quote;
    var parts := MembersIn(v.members, keys, n);
    if n > 0 {
      MembersAre(v, keys, n - 1);
      MembersNext(v, keys, n - 1);
      assert parts[..n - 1] == MembersIn(v.members, keys, n - 1);
      if n == 1 { NoMembers(v, keys); }
    }
  }

  lemma NoMembers(v: Value, keys: seq<string>)
    requires v.Object? && forall k :: k in keys <==> k in v.members
    ensures Members(v, keys, 0) == ""
  {
  }

  /** An object is its members in braces, each a quoted key, a colon and a value, in the order of their keys. */
  lemma ObjectIs(members: map<string, Value>, keys: seq<string>)
    requires InOrder(members, keys)
    ensures Print(Object(members)) == "{" + Strings.Join(MembersIn(members, keys, |keys|), ',') + "}"
  {
    hide Members, Strings.Join, Less, Print;
    var v: Value := Object(members);
    var sorted := SortedKeys(members.Keys);
    PrintObject(v);
    InOrderSize(members, keys);
    SortedIsUnique(keys, sorted);
    MembersAre(v, keys, |keys|);
  }

  lemma InOrderSize(members: map<string, Value>, keys: seq<string>)
    requires InOrder(members, keys)
    ensures |keys| == |members| && Sorted(keys)
  {
    hide Less;
    forall i, j | 0 <= i < j < |keys| ensures keys[i] != keys[j]
    {
      LessIsStrictTotalOrder(keys[i], keys[j], keys[i]);
    }
    DistinctSize(keys, members.Keys);
  }

  lemma {:induction false} DistinctSize(keys: seq<string>, all: set<string>)
    requires (forall k :: k in keys <==> k in all) && forall i, j :: 0 <= i < j < |keys| ==> keys[i] != keys[j]
    ensures |keys| == |all|
  {
    if keys != [] {
      assert keys[0] in keys;
      var rest := keys[1..];
      assert keys == [keys[0]] + rest;
      forall k ensures k in rest <==> k in all - {keys[0]}
      {
        if k in rest {
          var i :| 0 <= i < |rest| && rest[i] == k;
          assert keys[i + 1] == k && k in keys;
        }
      }
      DistinctSize(rest, all - {keys[0]});
    }
  }

  // ----- what is signed -----

  const SIGNED_KEYS := ["mlp_sig", "payload", "protected"]

  lemma SignedMembers(tag: string, protected: Value, payload: Value)
    ensures var members: map<string, Value> := map[MLP_SIG := Str(tag), PROTECTED := protected, PAYLOAD := payload];
            && InOrder(members, SIGNED_KEYS)
            && MembersIn(members, SIGNED_KEYS, 3)
               == [Signed("mlp_sig", Str(tag)), Signed("payload", payload), Signed("protected", protected)]
  {
    hide Quote, Less, Print;
    ThreeKeys();
  }

  /** A member of the signed object. */
  ghost function Signed(key: string, v: Value): string
  {
    Quote(key) + ":" + Print(v)
  }

  /** The signed text, members in order: label, payload, protected block. */
  lemma SigningTextIs(tag: string, protected: Value, payload: Value)
    ensures SigningInput(tag, protected, payload)
            == "{" + (Signed("mlp_sig", Str(tag)) + "," + Signed("payload", payload) + ","
                      + Signed("protected", protected)) + "}"
  {
    hide Quote, Less, Strings.Join, Print, InOrder, MembersIn;
    var members: map<string, Value> := map[MLP_SIG := Str(tag), PROTECTED := protected, PAYLOAD := payload];
    SignedMembers(tag, protected, payload);
    ObjectIs(members, SIGNED_KEYS);
    ThreeParts(Signed("mlp_sig", Str(tag)), Signed("payload", payload), Signed("protected", protected));
  }

  lemma ThreeParts(a: string, b: string, c: string)
    ensures Strings.Join([a, b, c], ',') == a + "," + b + "," + c
  {
    assert [a, b, c][..2] == [a, b] && [a, b][..1] == [a];
    assert Strings.Join([a, b], ',') == a + "," + b;
  }

  lemma ThreeKeys()
    ensures Less("mlp_sig", "payload") && Less("payload", "protected") && Less("mlp_sig", "protected")
  {
    assert "mlp_sig"[0] < "payload"[0];
    assert "payload"[1..][0] < "protected"[1..][0];
  }

  /**
   A signature object is accepted exactly when it carries the wanted label and a protected block that names ed25519, and
   the key made its value over the text of label, payload and that very block.
   */
  lemma VerifiesExactlyWhen(verify: (string, string) -> bool, tag: string, payload: Value, sig: Signature)
    ensures VerifyDoc(verify, tag, payload, sig) == None
            <==> sig.tag == tag && sig.protected.Object? && "alg" in sig.protected.members
                 && sig.protected.members["alg"] == Str("ed25519")
                 && verify("{" + (Signed("mlp_sig", Str(tag)) + "," + Signed("payload", payload) + ","
                                  + Signed("protected", sig.protected)) + "}", sig.value)
  {
    hide Signed, SigningInput;
    SigningTextIs(tag, sig.protected, payload);
  }
}
