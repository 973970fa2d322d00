/** The printed header is parsed back, exactly for plain key ids; the base determines what it covers. */
module SignatureProofs {
  import opened Strings
  import opened Wrappers
  import opened Signatures
  import Jcs
  import JcsProofs

  /** The characters of the profile's component names. */
  predicate Token(c: string)
  {
    c != "" && forall i :: 0 <= i < |c| ==> Letter(c[i]) || Digit(c[i]) || c[i] in {'@', '-'}
  }

  lemma ComponentsAreTokens(hasBody: bool)
    ensures forall c :: c in Components(hasBody) ==> Token(c)
    ensures Components(hasBody) != []
  {
    assert Token("@method") && Token("@target-uri") && Token("content-digest") && Token("upload-offset")
        && Token("mlp-reservation");
  }

  // ----- the component list -----

  lemma QuotedTokenIsSolid(c: string)
    requires Token(c)
    ensures var s := "\"" + c + "\"";
            (forall i :: 0 <= i < |s| ==> Solid(s[i])) && ')' !in s && QuotedField(s) && s[1..|s| - 1] == c
  {
    var s := "\"" + c + "\"";
    forall i | 0 <= i < |s| ensures Solid(s[i]) && s[i] != ')'
    {
      if 0 < i < |s| - 1 { assert s[i] == c[i - 1]; }
    }
  }

  /** Splitting at white space undoes joining with one space. */
  lemma {:induction false} FieldsOfJoin(parts: seq<string>)
    requires forall p :: p in parts ==> p != "" && forall i :: 0 <= i < |p| ==> Solid(p[i])
    ensures Fields(Join(parts, ' ')) == parts
  {
    hide Fields, Join, Solid;
    NoFields();
    if parts == [] {
      JoinOfNone(' ');
    } else {
      JoinFirst(parts, ' ');
      var first := parts[0];
      assert first in parts;
      if |parts| == 1 {
        OneField(first, "");
        assert first + "" == first && parts == [first];
      } else {
        var more := Join(parts[1..], ' ');
        assert forall p :: p in parts[1..] ==> p in parts;
        FieldsOfJoin(parts[1..]);
        OneField(first, [' '] + more);
        LeadingSpace(more);
        assert parts == [first] + parts[1..];
      }
    }
  }

  lemma NoFields()
    ensures Fields("") == []
  {
  }

  lemma JoinOfNone(sep: char)
    ensures Join([], sep) == ""
  {
  }

  lemma SpaceIsSpace()
    ensures Space(' ')
  {
  }

  lemma OneField(first: string, rest: string)
    requires first != "" && (forall i :: 0 <= i < |first| ==> Solid(first[i])) && (rest == "" || rest[0] == ' ')
    ensures Fields(first + rest) == [first] + Fields(rest)
  {
    hide Space;
    SpaceIsSpace();
    var s := first + rest;
    assert s[0] == first[0];
    SpanAt(s, Space, 0);
    assert s[0..] == s;
    assert forall i :: 0 <= i < |first| ==> s[i] == first[i];
    SpanAt(s, Solid, |first|);
    assert s[..|first|] == first && s[|first|..] == rest;
  }

  lemma LeadingSpace(s: string)
    ensures Fields([' '] + s) == Fields(s)
  {
    var t := [' '] + s;
    assert t[1..] == s;
    assert Span(t, Space) == 1 + Span(s, Space);
    assert t[Span(t, Space)..] == s[Span(s, Space)..];
  }

  lemma {:induction false} UnquoteAll(components: seq<string>)
    requires forall c :: c in components ==> Token(c)
    ensures Unquote(InQuotes(components)) == Some(components)
  {
    hide Token, QuotedField;
    if components != [] {
      var front, last := components[..|components| - 1], components[|components| - 1];
      assert components == front + [last];
      assert last in components;
      UnquoteAll(front);
      var all := InQuotes(components);
      assert all[..|all| - 1] == InQuotes(front) && all[|all| - 1] == "\"" + last + "\"";
      QuotedTokenIsSolid(last);
    }
  }

  lemma {:induction false} JoinHasNo(parts: seq<string>, sep: char, c: char)
    requires c != sep && forall p :: p in parts ==> c !in p
    ensures c !in Join(parts, sep)
  {
    if |parts| == 1 {
      assert parts[0] in parts;
    } else if |parts| > 1 {
      JoinHasNo(parts[..|parts| - 1], sep, c);
      assert parts[|parts| - 1] in parts;
    }
  }

  /** The parenthesized list is found and read back, whatever follows it. */
  lemma ListReads(hasBody: bool, tail: string)
    ensures var rest := "(" + Join(InQuotes(Components(hasBody)), ' ') + ")" + tail;
            var end := IndexOf(rest, ')');
            end < |rest| && Unquote(Fields(rest[1..end])) == Some(Components(hasBody)) && rest[end + 1..] == tail
  {
    hide Token, Fields, Unquote, Join;
    var components := Components(hasBody);
    ComponentsAreTokens(hasBody);
    var parts := InQuotes(components);
    forall p | p in parts ensures p != "" && (forall i :: 0 <= i < |p| ==> Solid(p[i])) && ')' !in p
    {
      var i :| 0 <= i < |parts| && parts[i] == p;
      QuotedTokenIsSolid(components[i]);
    }
    JoinHasNo(parts, ' ', ')');
    var list := Join(parts, ' ');
    var rest := "(" + list + ")" + tail;
    forall i | 0 <= i < 1 + |list| ensures rest[i] != ')'
    {
      if i > 0 { assert rest[i] == list[i - 1]; }
    }
    assert rest[1 + |list|] == ')';
    IndexAt(rest, ')', 1 + |list|);
    assert rest[1..1 + |list|] == list && rest[1 + |list| + 1..] == tail;
    FieldsOfJoin(parts);
    UnquoteAll(components);
  }

  // ----- numbers and quoting -----

  lemma FormattedInt(n: int)
    requires -Jcs.INT64_MAX - 1 <= n <= Jcs.INT64_MAX
    ensures ReadInt(Jcs.FormatInt(n)) == Some(n)
    ensures var s := Jcs.FormatInt(n); s != "" && ';' !in s && !Space(s[0]) && !Space(s[|s| - 1])
  {
    hide Jcs.Decimal, Jcs.DigitsValue;
    var m := if n < 0 then -n else n;
    JcsProofs.DecimalValue(m);
    var d := Jcs.Decimal(m);
    assert Jcs.IsDigit(d[0]) && Jcs.IsDigit(d[|d| - 1]);
    assert forall i :: 0 <= i < |d| ==> Jcs.IsDigit(d[i]);
    if n < 0 { assert Jcs.FormatInt(n)[1..] == d; }
  }

  lemma {:induction false} InnerFacts(q: Quoting, s: string)
    requires QuotingOk(q)
    ensures |Inner(q, s)| >= |s| && (';' in s <==> ';' in Inner(q, s))
    ensures forall i :: 0 <= i < |Inner(q, s)| && Inner(q, s)[i] == '"' ==> i > 0 && Inner(q, s)[i - 1] == '\\'
  {
    if s != "" {
      var c, rest := s[0], Inner(q, s[1..]);
      InnerFacts(q, s[1..]);
      assert q(c) == [c] || (|q(c)| >= 2 && ';' !in q(c));
      assert c == ';' ==> q(c) == [c];
      assert s == [c] + s[1..];
      var t := q(c) + rest;
      assert ';' in t <==> ';' in q(c) || ';' in rest;
      forall i | 0 <= i < |t| && t[i] == '"' ensures i > 0 && t[i - 1] == '\\'
      {
        if i < |q(c)| { assert q(c)[i] == '"'; } else { assert rest[i - |q(c)|] == '"'; }
      }
    }
  }

  // ----- the parameters -----

  lemma SplitPiece(a: string, x: string)
    requires ';' !in a
    ensures Split(a + (";" + x), ';') == [a] + Split(x, ';')
  {
    SplitConcat(a, ";" + x, ';');
    assert (";" + x)[1..] == x && a + "" == a;
    assert Split(";" + x, ';') == [""] + Split(x, ';');
  }

  lemma SplitWhole(a: string)
    requires ';' !in a
    ensures Split(a, ';') == [a]
  {
    SplitConcat(a, "", ';');
    assert a + "" == a;
  }

  /** The pieces of the parameters when the key id has no separator in it. */
  lemma PlainPieces(f: string, inner: string)
    requires ';' !in f && ';' !in inner
    ensures var tail := (";" + CREATED + f) + (";keyid=" + ("\"" + inner + "\"")) + (";" + ED25519);
            Split(tail, ';') == ["", CREATED + f, "keyid=" + ("\"" + inner + "\""), ED25519]
  {
    hide Split;
    var a, b := CREATED + f, "keyid=" + ("\"" + inner + "\"");
    var tail := (";" + CREATED + f) + (";keyid=" + ("\"" + inner + "\"")) + (";" + ED25519);
    assert tail == "" + (";" + (a + (";" + (b + (";" + ED25519)))));
    NoSeparators(f, inner);
    SplitPiece("", a + (";" + (b + (";" + ED25519))));
    SplitPiece(a, b + (";" + ED25519));
    SplitPiece(b, ED25519);
    SplitWhole(ED25519);
  }

  lemma FourParams(a: string, b: string, c: string, d: string, created: int, keyid: string)
    requires Trim(a, Space) == "" && ReadParam(Trim(b, Space), 0, "") == Ok((created, ""))
    requires ReadParam(Trim(c, Space), created, "") == Ok((created, keyid))
    requires ReadParam(Trim(d, Space), created, keyid) == Ok((created, keyid))
    ensures ReadParams([a, b, c, d], 0, "") == Ok((created, keyid))
  {
    hide Trim;
    var pieces := [a, b, c, d];
    assert pieces[1..] == [b, c, d] && [b, c, d][1..] == [c, d] && [c, d][1..] == [d] && [d][1..] == [];
    assert ReadParam("", 0, "") == Ok((0, ""));
    assert ReadParams([d], created, keyid) == Ok((created, keyid));
    assert ReadParams([c, d], created, "") == Ok((created, keyid));
    assert ReadParams([b, c, d], 0, "") == Ok((created, keyid));
  }

  lemma CreatedReads(f: string, created: int)
    requires ReadInt(f) == Some(created)
    ensures ReadParam(CREATED + f, 0, "") == Ok((created, ""))
  {
    hide ReadInt;
    assert (CREATED + f)[|CREATED|..] == f;
  }

  lemma AlgReads(created: int, keyid: string)
    ensures ReadParam(ED25519, created, keyid) == Ok((created, keyid))
  {
    assert ED25519[0] == 'a';
  }

  /** The parameters when the key id has no separator in it. */
  lemma PlainParams(q: Quoting, created: int, kid: string)
    requires QuotingOk(q) && -Jcs.INT64_MAX - 1 <= created <= Jcs.INT64_MAX && ';' !in kid
    ensures var tail := (";" + CREATED + Jcs.FormatInt(created)) + (";keyid=" + Quoted(q, kid)) + (";" + ED25519);
            ReadParams(Split(tail, ';'), 0, "") == Ok((created, Inner(q, kid)))
  {
    hide Split, Inner, Space, Jcs.FormatInt, ReadInt, Trim, Trimmed, QuotingOk, ReadParam, ReadParams;
    InnerFacts(q, kid);
    FormattedInt(created);
    var f, inner := Jcs.FormatInt(created), Inner(q, kid);
    PlainPieces(f, inner);
    EdgesAreSolid(f, inner);
    TrimTrims("", Space);
    TrimTrims(CREATED + f, Space);
    TrimTrims("keyid=" + ("\"" + inner + "\""), Space);
    TrimTrims(ED25519, Space);
    CreatedReads(f, created);
    KeyidReads(inner, created);
    AlgReads(created, inner);
    FourParams("", CREATED + f, "keyid=" + ("\"" + inner + "\""), ED25519, created, inner);
  }

  lemma NoSeparators(f: string, inner: string)
    requires ';' !in f && ';' !in inner
    ensures ';' !in CREATED + f && ';' !in "keyid=" + ("\"" + inner + "\"") && ';' !in ED25519
  {
  }

  lemma EdgesAreSolid(f: string, inner: string)
    requires f != "" && !Space(f[|f| - 1])
    ensures Trimmed("", Space) && Trimmed(CREATED + f, Space) && Trimmed(ED25519, Space)
    ensures Trimmed("keyid=" + ("\"" + inner + "\""), Space)
  {
  }

  lemma KeyidReads(inner: string, created: int)
    ensures ReadParam("keyid=" + ("\"" + inner + "\""), created, "") == Ok((created, inner))
  {
    hide ReadInt;
    var p := "keyid=" + ("\"" + inner + "\"");
    assert p == KEYID + inner + "\"";
    assert p[|KEYID|..|p| - 1] == inner;
    assert p[0] == 'k' && CREATED[0] == 'c' && p[|p| - 1] == '"' && |p| > |KEYID|;
    assert KEYID <= p;
  }

  // ----- a key id with a separator -----

  lemma {:induction false} SplitBoth(a: string, b: string)
    ensures Split(a + (";" + b), ';') == Split(a, ';') + Split(b, ';')
  {
    hide Split;
    if a == "" {
      SplitPiece("", b);
      SplitWhole("");
    } else {
      SplitBoth(a[1..], b);
      assert (a + (";" + b))[1..] == a[1..] + (";" + b);
      SplitFirst(a);
      SplitFirst(a + (";" + b));
      var rest, all := Split(a[1..], ';'), Split(a[1..], ';') + Split(b, ';');
      assert all[0] == rest[0] && all[1..] == rest[1..] + Split(b, ';');
    }
  }

  lemma SplitFirst(s: string)
    requires s != ""
    ensures var rest := Split(s[1..], ';');
            Split(s, ';') == if s[0] == ';' then [""] + rest else [[s[0]] + rest[0]] + rest[1..]
  {
  }

  /** The last piece is what follows the last separator. */
  lemma {:induction false} LastPiece(s: string) returns (i: nat)
    ensures i <= |s| && (i > 0 ==> s[i - 1] == ';') && (i == 0 ==> ';' !in s)
    ensures var r := Split(s, ';'); r[|r| - 1] == s[i..]
  {
    if s == "" {
      i := 0;
    } else {
      var j := LastPiece(s[1..]);
      var rest := Split(s[1..], ';');
      if j > 0 || s[0] == ';' {
        i := j + 1;
        if j > 0 { assert s[i - 1] == s[1..][j - 1]; }
        assert s[i..] == s[1..][j..];
        if j > 0 && s[0] != ';' { SeveralPieces(s[1..], j); }
      } else {
        i := 0;
        SplitWhole(s[1..]);
        assert s == [s[0]] + s[1..] && s[0..] == s;
      }
    }
  }

  lemma {:induction false} SeveralPieces(s: string, j: nat)
    requires 0 < j <= |s| && s[j - 1] == ';'
    ensures |Split(s, ';')| > 1
  {
    if s[0] != ';' { SeveralPieces(s[1..], j - 1); }
  }

  lemma {:induction false} OneBadPiece(pieces: seq<string>, i: nat, created: int, keyid: string)
    requires i < |pieces| && forall c, k :: ReadParam(Trim(pieces[i], Space), c, k).Err?
    ensures ReadParams(pieces, created, keyid).Err?
    decreases |pieces|
  {
    hide ReadParam, Trim;
    if i > 0 {
      match ReadParam(Trim(pieces[0], Space), created, keyid) {
        case Err(_) =>
        case Ok((c, k)) => OneBadPiece(pieces[1..], i - 1, c, k);
      }
    }
  }

  /** What ends in a bare quote, and has no other one, is no parameter. */
  lemma BareQuoteFails(p: string, c: int, k: string)
    requires p != "" && p[|p| - 1] == '"'
    requires forall i :: 0 < i < |p| - 1 && p[i] == '"' ==> p[i - 1] == '\\'
    ensures ReadParam(p, c, k).Err?
  {
    hide ReadInt;
    assert |p| > 7 && p[6] == '"' ==> p[5] == '\\';
    assert |p| > 5 && p[4] == '"' ==> p[3] == '\\';
    if CREATED <= p {
      var n := p[|CREATED|..];
      assert |p| > |CREATED| by { assert CREATED[|CREATED| - 1] == '='; }
      assert n[|n| - 1] == '"';
      QuoteIsNoNumber(n);
    }
  }

  lemma QuoteIsNoNumber(n: string)
    requires n != "" && n[|n| - 1] == '"'
    ensures ReadInt(n).None?
  {
    var digits := if n[0] == '-' || n[0] == '+' then n[1..] else n;
    if digits != "" { assert !Jcs.IsDigit(digits[|digits| - 1]); }
  }

  /** With a separator in the key id the header is never parsed. */
  lemma SeparatorFails(q: Quoting, created: int, kid: string)
    requires QuotingOk(q) && -Jcs.INT64_MAX - 1 <= created <= Jcs.INT64_MAX && ';' in kid
    ensures var tail := (";" + CREATED + Jcs.FormatInt(created)) + (";keyid=" + Quoted(q, kid)) + (";" + ED25519);
            ReadParams(Split(tail, ';'), 0, "").Err?
  {
    hide Split, Inner, Space, Jcs.FormatInt, ReadInt, Trim, QuotingOk, ReadParam, ReadParams;
    var tail := (";" + CREATED + Jcs.FormatInt(created)) + (";keyid=" + Quoted(q, kid)) + (";" + ED25519);
    var front := ";" + CREATED + Jcs.FormatInt(created);
    var b := "keyid=" + Quoted(q, kid);
    assert tail == front + (";" + (b + (";" + ED25519)));
    SplitBoth(front, b + (";" + ED25519));
    SplitBoth(b, ED25519);
    var pieces := Split(b, ';');
    var n := |Split(front, ';')| + |pieces| - 1;
    assert Split(tail, ';')[n] == pieces[|pieces| - 1];
    InnerFacts(q, kid);
    var i := LastPiece(b);
    SeparatorInInner(Inner(q, kid), i);
    var p := Trim(b[i..], Space);
    TrimKeepsEnd(b[i..]);
    var j := |b| - |p|;
    assert p == b[j..];
    forall m | 0 < m < |p| - 1 && p[m] == '"' ensures p[m - 1] == '\\'
    {
      assert b[j + m] == '"';
      QuoteInside(Inner(q, kid), j + m);
    }
    forall c, k ensures ReadParam(p, c, k).Err? { BareQuoteFails(p, c, k); }
    OneBadPiece(Split(tail, ';'), n, 0, "");
  }

  lemma SeparatorInInner(inner: string, i: nat)
    requires ';' in inner
    requires var b := "keyid=" + ("\"" + inner + "\"");
             i <= |b| && (i > 0 ==> b[i - 1] == ';') && (i == 0 ==> ';' !in b)
    ensures var b := "keyid=" + ("\"" + inner + "\""); |KEYID| < i < |b| && b[|b| - 1] == '"'
  {
    var b := "keyid=" + ("\"" + inner + "\"");
    assert ';' in b;
  }

  lemma QuoteInside(inner: string, m: nat)
    requires forall i :: 0 <= i < |inner| && inner[i] == '"' ==> i > 0 && inner[i - 1] == '\\'
    requires var b := "keyid=" + ("\"" + inner + "\""); |KEYID| < m < |b| - 1 && b[m] == '"'
    ensures ("keyid=" + ("\"" + inner + "\""))[m - 1] == '\\'
  {
    assert inner[m - |KEYID|] == '"';
  }

  /** Trimming a text that ends in a quote leaves an end of it. */
  lemma TrimKeepsEnd(s: string)
    requires s != "" && s[|s| - 1] == '"'
    ensures var p := Trim(s, Space); p != "" && |p| <= |s| && p == s[|s| - |p|..] && p[|p| - 1] == '"'
  {
    hide TrimLeft, TrimRight;
    var t := TrimLeft(s, Space);
    TrimLeftTrims(s, Space);
    TrimLeftKeepsLast(s);
    TrimRightTrims(t, Space);
    assert Trimmed(t, Space);
  }

  lemma {:induction false} TrimLeftKeepsLast(s: string)
    requires s != "" && !Space(s[|s| - 1])
    ensures TrimLeft(s, Space) != ""
  {
    if Space(s[0]) { TrimLeftKeepsLast(s[1..]); }
  }

  /**
   The header a signer prints is parsed back to its components, timestamp, key id and verbatim parameters if and only if
   the timestamp is not zero and the key id is not empty and has neither a separator nor a character that is escaped.
   */
  lemma HeaderParsesBackExactlyWhen(q: Quoting, hasBody: bool, created: int, kid: string)
    requires QuotingOk(q) && -Jcs.INT64_MAX - 1 <= created <= Jcs.INT64_MAX
    ensures var params := Params(q, hasBody, created, kid);
            ParseInput(LABEL + params) == Ok(SigInput(Components(hasBody), params, created, kid))
            <==> created != 0 && kid != "" && ';' !in kid && Inner(q, kid) == kid
  {
    hide Split, Inner, QuotingOk, Jcs.FormatInt, Fields, Unquote, Components, InQuotes, Join, IndexOf, ReadParams;
    var params := Params(q, hasBody, created, kid);
    var tail := (";" + CREATED + Jcs.FormatInt(created)) + (";keyid=" + Quoted(q, kid)) + (";" + ED25519);
    assert params == "(" + Join(InQuotes(Components(hasBody)), ' ') + ")" + tail;
    assert (LABEL + params)[|LABEL|..] == params;
    ListReads(hasBody, tail);
    if ';' in kid { SeparatorFails(q, created, kid); } else { PlainParams(q, created, kid); }
  }

  // ----- the panic -----

  /** The i-th parameter is reached, and is the key id's opening quote alone. */
  predicate PanicsAt(pieces: seq<string>, i: nat, created: int, keyid: string)
    requires i < |pieces|
  {
    Trim(pieces[i], Space) == KEYID && ReadParams(pieces[..i], created, keyid).Ok?
  }

  /** The parameters panic exactly at a bare opening of the key id that the ones before it let be reached. */
  lemma {:induction false} ParamsPanicExactlyWhen(pieces: seq<string>, created: int, keyid: string)
    ensures ReadParams(pieces, created, keyid) == Err(Panic)
            <==> exists i :: 0 <= i < |pieces| && PanicsAt(pieces, i, created, keyid)
    decreases |pieces|
  {
    hide Trim, ReadInt;
    if pieces != [] {
      var r := ReadParam(Trim(pieces[0], Space), created, keyid);
      assert r == Err(Panic) <==> Trim(pieces[0], Space) == KEYID;
      assert pieces[..0] == [];
      assert PanicsAt(pieces, 0, created, keyid) <==> Trim(pieces[0], Space) == KEYID;
      if r.Ok? {
        ParamsPanicExactlyWhen(pieces[1..], r.value.0, r.value.1);
        forall i | 0 < i <= |pieces|
          ensures ReadParams(pieces[..i], created, keyid) == ReadParams(pieces[1..][..i - 1], r.value.0, r.value.1)
        {
          assert pieces[..i][1..] == pieces[1..][..i - 1];
        }
        if i :| 0 <= i < |pieces[1..]| && PanicsAt(pieces[1..], i, r.value.0, r.value.1) {
          assert PanicsAt(pieces, i + 1, created, keyid);
        }
        if i :| 0 <= i < |pieces| && PanicsAt(pieces, i, created, keyid) {
          assert i > 0 ==> PanicsAt(pieces[1..], i - 1, r.value.0, r.value.1);
        }
      } else {
        forall i | 0 < i < |pieces| ensures !PanicsAt(pieces, i, created, keyid)
        {
          assert pieces[..i][0] == pieces[0];
        }
      }
    }
  }

  /** The parameters of a header whose label and component list are well-formed. */
  function ParamPieces(h: string): Option<seq<string>>
  {
    if !(LABEL <= h) || |h| == |LABEL| || h[|LABEL|] != '(' then None
    else
      var rest := h[|LABEL|..];
      var end := IndexOf(rest, ')');
      if end == |rest| || Unquote(Fields(rest[1..end])).None? then None else Some(Split(rest[end + 1..], ';'))
  }

  /** Whether the parser of the header panics: the key id's opening quote stands alone in a parameter it reaches. */
  lemma ParserPanicsExactlyWhen(h: string)
    ensures ParseInput(h) == Err(Panic)
            <==> ParamPieces(h).Some?
                 && exists i :: 0 <= i < |ParamPieces(h).value| && PanicsAt(ParamPieces(h).value, i, 0, "")
  {
    hide Split, Fields, Unquote, IndexOf, Trim, ReadParams;
    if ParamPieces(h).Some? { ParamsPanicExactlyWhen(ParamPieces(h).value, 0, ""); }
  }

  // ----- the base -----

  lemma {:induction false} LinesAt(q: Quoting, components: seq<string>, verb: string, uri: string, header: Header,
                                   i: nat)
    requires i < |components|
    ensures var lines := Lines(q, components, verb, uri, header);
            |lines| == |components| && lines[i] == Line(q, components[i], ValueOf(components[i], verb, uri, header))
  {
    hide Line, ValueOf;
    var front := components[..|components| - 1];
    if |components| == 1 {
      assert Lines(q, front, verb, uri, header) == [];
    } else {
      LinesAt(q, front, verb, uri, header, if i < |front| then i else 0);
    }
  }

  lemma {:induction false} TokenInner(q: Quoting, c: string)
    requires QuotingOk(q) && forall i :: 0 <= i < |c| ==> Letter(c[i]) || Digit(c[i]) || c[i] in {'@', '-'}
    ensures Inner(q, c) == c
  {
    if c != "" {
      assert q(c[0]) == [c[0]];
      TokenInner(q, c[1..]);
      assert c == [c[0]] + c[1..];
    }
  }

  lemma LineHasNoNewline(q: Quoting, c: string, value: string)
    requires QuotingOk(q) && Token(c) && '\n' !in value
    ensures '\n' !in Line(q, c, value)
  {
    hide QuotingOk;
    TokenInner(q, c);
  }

  /**
   The base is injective: with values free of newlines, two requests with one base have the same method, target,
   covered header values and parameters.
   */
  lemma BaseDetermines(q: Quoting, hasBody: bool, v1: string, u1: string, h1: Header, s1: SigInput,
                       v2: string, u2: string, h2: Header, s2: SigInput)
    requires QuotingOk(q) && s1.components == s2.components == Components(hasBody)
    requires '\n' !in s1.params && '\n' !in s2.params
    requires forall c :: c in Components(hasBody) ==> '\n' !in ValueOf(c, v1, u1, h1) && '\n' !in ValueOf(c, v2, u2, h2)
    requires Base(q, v1, u1, h1, s1).Ok? && Base(q, v1, u1, h1, s1) == Base(q, v2, u2, h2, s2)
    ensures v1 == v2 && u1 == u2 && s1.params == s2.params
    ensures forall c :: c in Components(hasBody) && !Derived(c) ==> h1(c) == h2(c)
  {
    hide QuotingOk, Line, ValueOf, Lines, Join, Split, Token;
    var components := Components(hasBody);
    var l1 := BaseLines(q, hasBody, v1, u1, h1, s1);
    var l2 := BaseLines(q, hasBody, v2, u2, h2, s2);
    assert l1 == l2;
    SameTail(Quoted(q, "@signature-params") + ": ", s1.params, s2.params) by {
      assert l1[|components|] == l2[|components|];
      LineIs(q, "@signature-params", s1.params);
      LineIs(q, "@signature-params", s2.params);
    }
    forall c | c in components ensures ValueOf(c, v1, u1, h1) == ValueOf(c, v2, u2, h2)
    {
      var i :| 0 <= i < |components| && components[i] == c;
      assert l1[i] == l2[i];
      LineIs(q, c, ValueOf(c, v1, u1, h1));
      LineIs(q, c, ValueOf(c, v2, u2, h2));
      SameTail(Quoted(q, c) + ": ", ValueOf(c, v1, u1, h1), ValueOf(c, v2, u2, h2));
    }
    ValuesOf(hasBody, v1, u1, h1);
    ValuesOf(hasBody, v2, u2, h2);
  }

  lemma LineIs(q: Quoting, c: string, value: string)
    ensures Line(q, c, value) == Quoted(q, c) + ": " + value
  {
  }

  lemma SameTail(a: string, x: string, y: string)
    requires a + x == a + y
    ensures x == y
  {
    assert (a + x)[|a|..] == x && (a + y)[|a|..] == y;
  }

  lemma ValuesOf(hasBody: bool, verb: string, uri: string, header: Header)
    ensures "@method" in Components(hasBody) && ValueOf("@method", verb, uri, header) == verb
    ensures "@target-uri" in Components(hasBody) && ValueOf("@target-uri", verb, uri, header) == uri
    ensures forall c :: !Derived(c) ==> ValueOf(c, verb, uri, header) == header(c)
  {
    assert Components(hasBody)[0] == "@method" && Components(hasBody)[1] == "@target-uri";
  }

  /** The lines a base is made of are the lines it splits into. */
  lemma BaseLines(q: Quoting, hasBody: bool, verb: string, uri: string, header: Header, si: SigInput)
    returns (lines: seq<string>)
    requires QuotingOk(q) && si.components == Components(hasBody) && '\n' !in si.params
    requires forall c :: c in Components(hasBody) ==> '\n' !in ValueOf(c, verb, uri, header)
    requires Base(q, verb, uri, header, si).Ok?
    ensures lines == Split(Base(q, verb, uri, header, si).value, '\n') && |lines| == |Components(hasBody)| + 1
    ensures forall i :: 0 <= i < |Components(hasBody)| ==>
              lines[i] == Line(q, Components(hasBody)[i], ValueOf(Components(hasBody)[i], verb, uri, header))
    ensures lines[|Components(hasBody)|] == Line(q, "@signature-params", si.params)
  {
    hide QuotingOk, Line, ValueOf, Lines, Join, Split, Token;
    var components := Components(hasBody);
    ComponentsAreTokens(hasBody);
    var covered := Lines(q, components, verb, uri, header);
    var last := Line(q, "@signature-params", si.params);
    LinesAt(q, components, verb, uri, header, 0);
    lines := covered + [last];
    JoinNext(covered, last, '\n');
    assert Token("@signature-params") by { ParamsName(); }
    LineHasNoNewline(q, "@signature-params", si.params);
    forall l | l in lines ensures '\n' !in l
    {
      var i :| 0 <= i < |lines| && lines[i] == l;
      if i < |covered| {
        LinesAt(q, components, verb, uri, header, i);
        assert components[i] in components;
        LineHasNoNewline(q, components[i], ValueOf(components[i], verb, uri, header));
      }
    }
    SplitJoin(lines, '\n');
    forall i | 0 <= i < |components|
      ensures lines[i] == Line(q, components[i], ValueOf(components[i], verb, uri, header))
    {
      LinesAt(q, components, verb, uri, header, i);
    }
  }

  lemma ParamsName()
    ensures Token("@signature-params")
  {
  }

  // ----- both sides -----

  /** The base depends on the covered headers only. */
  lemma {:induction false} SameLines(q: Quoting, components: seq<string>, verb: string, uri: string, h1: Header,
                                     h2: Header)
    requires forall c :: c in components && !Derived(c) ==> h1(c) == h2(c)
    ensures Lines(q, components, verb, uri, h1) == Lines(q, components, verb, uri, h2)
    ensures Present(components, h1) <==> Present(components, h2)
  {
    hide Line;
    if components != [] {
      assert components == components[..|components| - 1] + [components[|components| - 1]];
      SameLines(q, components[..|components| - 1], verb, uri, h1, h2);
    }
  }

  /**
   Both sides build the same base: a request that was signed under a plain key id at a time that is not zero, and that
   arrives with its covered headers, is accepted if and only if it arrives within the freshness window.
   */
  lemma SignedRequestVerifiesExactlyWhenFresh(q: Quoting, sign: string -> string,
                                              verify: (string, string, string) -> bool,
                                              kid: string, verb: string, uri: string, header: Header, received: Header,
                                              created: int, hasBody: bool, now: int)
    requires QuotingOk(q) && -Jcs.INT64_MAX - 1 <= created <= Jcs.INT64_MAX
    requires created != 0 && kid != "" && ';' !in kid && Inner(q, kid) == kid
    requires var signed := SignRequest(q, sign, kid, verb, uri, header, created, hasBody);
             signed.Ok? && received("signature-input") == signed.value.0
    requires forall c :: c in Components(hasBody) && !Derived(c) ==> received(c) == header(c)
    requires forall m :: verify(kid, m, sign(m))
    ensures var sig := SignRequest(q, sign, kid, verb, uri, header, created, hasBody).value.1;
            Verified(q, verify, verb, uri, received, sig, hasBody, now).None?
            <==> -FRESHNESS <= now - created <= FRESHNESS
  {
    hide ParseInput, Lines, Inner, QuotingOk, Params, Components, Line;
    HeaderParsesBackExactlyWhen(q, hasBody, created, kid);
    SameLines(q, Components(hasBody), verb, uri, header, received);
  }
}
