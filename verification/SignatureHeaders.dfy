/** What a Signature-Input header says, for every header (server/bs/sig9421.go:36-80). */
module SignatureHeaders {
  import opened Signatures
  import opened Strings
  import opened Wrappers
  import Jcs

  // ----- the component list -----

  /** The words with the gaps before, between and after them. */
  function Laid(words: seq<string>, gaps: seq<string>): string
    requires |gaps| == |words| + 1
  {
    if words == [] then gaps[0] else gaps[0] + words[0] + Laid(words[1..], gaps[1..])
  }

  /** Words without white space, in gaps of nothing else; only the first and the last gap may be empty. */
  ghost predicate Spread(s: string, words: seq<string>, gaps: seq<string>)
  {
    && |gaps| == |words| + 1 && s == Laid(words, gaps)
    && (forall i :: 0 <= i < |gaps| ==> All(gaps[i], Space))
    && (forall i :: 0 < i < |words| ==> gaps[i] != "")
    && forall i :: 0 <= i < |words| ==> words[i] != "" && All(words[i], Solid)
  }

  lemma OneWord(lead: string, word: string, tail: string, words: seq<string>, gaps: seq<string>)
    requires All(lead, Space) && word != "" && All(word, Solid) && Spread(tail, words, gaps)
    requires words != [] ==> tail != "" && Space(tail[0])
    ensures Spread(lead + word + tail, [word] + words, [lead] + gaps)
  {
    hide Space;
    assert ([word] + words)[1..] == words && ([lead] + gaps)[1..] == gaps;
  }

  /** One word is one field. */
  lemma OneField(lead: string, word: string, tail: string)
    requires All(lead, Space) && word != "" && All(word, Solid) && (tail == "" || Space(tail[0]))
    ensures Fields(lead + word + tail) == [word] + Fields(tail)
  {
    hide Space;
    var s, t := lead + word + tail, word + tail;
    assert s[|lead|..] == t && t[0] == word[0];
    SpanAt(s, Space, |lead|);
    SpanAt(t, Solid, |word|);
    assert t[|word|..] == tail && t[..|word|] == word;
  }

  lemma NoField(s: string)
    ensures All(s, Space) ==> Fields(s) == []
    ensures !All(s, Space) ==> Span(s, Space) < |s|
  {
    if All(s, Space) { SpanAt(s, Space, |s|); }
  }

  lemma CutWord(s: string) returns (lead: string, word: string, tail: string)
    requires !All(s, Space)
    ensures s == lead + word + tail && All(lead, Space) && word != "" && All(word, Solid)
    ensures tail == "" || Space(tail[0])
  {
    hide Space;
    NoField(s);
    var k := Span(s, Space);
    var t := s[k..];
    var n := Span(t, Solid);
    lead, word, tail := s[..k], t[..n], t[n..];
    assert t[0] == s[k];
    if tail != "" { assert tail[0] == t[n]; }
  }

  lemma {:induction false} FieldsSpread(s: string) returns (gaps: seq<string>)
    ensures Spread(s, Fields(s), gaps)
    decreases |s|
  {
    hide Space, Fields, Spread, All, Solid;
    NoField(s);
    if All(s, Space) {
      gaps := [s];
      NoWords(s);
    } else {
      var lead, word, tail := CutWord(s);
      var more := FieldsSpread(tail);
      OneField(lead, word, tail);
      if tail == "" { NoField(tail); NothingIsSpace(); }
      OneWord(lead, word, tail, Fields(tail), more);
      gaps := [lead] + more;
    }
  }

  lemma NothingIsSpace()
    ensures All("", Space)
  {
  }

  lemma NoWords(s: string)
    requires All(s, Space)
    ensures Spread(s, [], [s])
  {
  }

  /** The first word of a spread, and the rest. */
  lemma FirstWord(s: string, words: seq<string>, gaps: seq<string>) returns (tail: string)
    requires Spread(s, words, gaps) && words != []
    ensures |gaps| > 1 && s == gaps[0] + words[0] + tail && Spread(tail, words[1..], gaps[1..])
    ensures All(gaps[0], Space) && words[0] != "" && All(words[0], Solid) && (tail == "" || Space(tail[0]))
  {
    hide Space;
    tail := Laid(words[1..], gaps[1..]);
    if |words| == 1 { assert tail == gaps[1]; } else { assert gaps[1] != "" && tail[0] == gaps[1][0]; }
  }

  lemma {:induction false} SpreadFields(s: string, words: seq<string>, gaps: seq<string>)
    requires Spread(s, words, gaps)
    ensures Fields(s) == words
    decreases |words|
  {
    hide Space, Fields, Spread;
    if words == [] {
      LastGap(s, gaps);
      NoField(s);
    } else {
      var tail := FirstWord(s, words, gaps);
      SpreadFields(tail, words[1..], gaps[1..]);
      OneField(gaps[0], words[0], tail);
    }
  }

  lemma LastGap(s: string, gaps: seq<string>)
    requires Spread(s, [], gaps)
    ensures All(s, Space)
  {
  }

  /** The fields of a string are exactly its words. */
  lemma FieldsExactlyWhen(s: string, words: seq<string>)
    ensures Fields(s) == words <==> exists gaps :: Spread(s, words, gaps)
  {
    hide Fields, Spread;
    var gaps := FieldsSpread(s);
    forall g | Spread(s, words, g) ensures Fields(s) == words
    {
      SpreadFields(s, words, g);
    }
  }

  lemma QuotedIs(w: string, c: string)
    ensures w == "\"" + c + "\"" <==> QuotedField(w) && w[1..|w| - 1] == c
    ensures QuotedField(w) <==> |w| >= 2 && w[0] == w[|w| - 1] == '"'
  {
    if QuotedField(w) { assert w == "\"" + w[1..|w| - 1] + "\""; }
  }

  lemma {:induction false} UnquoteIs(fields: seq<string>, components: seq<string>)
    ensures Unquote(fields) == Some(components)
            <==> |components| == |fields| && forall i :: 0 <= i < |fields| ==> fields[i] == "\"" + components[i] + "\""
    ensures Unquote(fields).Some? <==> forall i :: 0 <= i < |fields| ==>
                                         |fields[i]| >= 2 && fields[i][0] == fields[i][|fields[i]| - 1] == '"'
  {
    hide QuotedField;
    if fields == [] {
    } else {
      var n := |fields| - 1;
      var front, last := fields[..n], fields[n];
      assert fields == front + [last];
      var first := if components == [] then [] else components[..|components| - 1];
      UnquoteIs(front, first);
      QuotedIs(last, if |components| == |fields| then components[n] else "");
      if |components| == |fields| {
        assert components == first + [components[n]];
      }
    }
  }

  // ----- the parameters -----

  predicate Digits(s: string)
  {
    s != "" && Jcs.AllDigits(s)
  }

  /** A decimal number with an optional sign, of 64 bits. */
  predicate Spells(s: string, n: int)
  {
    && -0x8000_0000_0000_0000 <= n <= 0x7FFF_FFFF_FFFF_FFFF
    && if "-" <= s then Digits(s[1..]) && n == -(Jcs.DigitsValue(s[1..]) as int)
       else if "+" <= s then Digits(s[1..]) && n == Jcs.DigitsValue(s[1..])
       else Digits(s) && n == Jcs.DigitsValue(s)
  }

  lemma ReadIntIs(s: string, n: int)
    ensures ReadInt(s) == Some(n) <==> Spells(s, n)
  {
    hide Jcs.DigitsValue;
  }

  predicate SetsCreated(p: string) { "created=" <= p }

  predicate SetsKeyId(p: string) { "keyid=\"" <= p && |p| > 7 && p[|p| - 1] == '"' }

  /** What a parameter may be, without white space around it. */
  ghost predicate Allowed(p: string)
  {
    p == "" || (SetsCreated(p) && exists n :: Spells(p[8..], n)) || SetsKeyId(p) || p == "alg=\"ed25519\""
  }

  function RefusalOf(p: string): SigError
  {
    if SetsCreated(p) then BadCreated
    else if p == "keyid=\"" then Panic
    else if "alg=\"" <= p then BadAlg
    else UnknownParam
  }

  /** One parameter, in literals. */
  lemma ParamIs(p: string, created: int, keyid: string)
    ensures var r := ReadParam(p, created, keyid);
            && (r.Ok? <==> Allowed(p))
            && (r.Err? ==> r.error == RefusalOf(p))
            && (r.Ok? ==> if SetsCreated(p) then Spells(p[8..], r.value.0) else r.value.0 == created)
            && (r.Ok? ==> if SetsKeyId(p) then p == "keyid=\"" + r.value.1 + "\"" else r.value.1 == keyid)
  {
    hide ReadInt, Spells;
    assert |CREATED| == 8 && |KEYID| == 7;
    if SetsCreated(p) {
      assert p[0] == 'c';
      var n := ReadInt(p[8..]);
      if n.Some? { ReadIntIs(p[8..], n.value); }
      forall m | Spells(p[8..], m) ensures n == Some(m) { ReadIntIs(p[8..], m); }
    } else if SetsKeyId(p) {
      assert p == "keyid=\"" + p[7..|p| - 1] + "\"";
    }
  }

  /** The i-th piece, trimmed. */
  function Piece(pieces: seq<string>, i: int): string
    requires 0 <= i < |pieces|
  {
    Trim(pieces[i], Space)
  }

  ghost predicate AllAllowed(pieces: seq<string>, n: nat)
    requires n <= |pieces|
  {
    forall i :: 0 <= i < n ==> Allowed(Piece(pieces, i))
  }

  /** The creation time is that of the last piece that sets it. */
  ghost predicate CreatedIs(pieces: seq<string>, before: int, created: int)
  {
    && ((forall i :: 0 <= i < |pieces| ==> !SetsCreated(Piece(pieces, i))) ==> created == before)
    && forall i :: 0 <= i < |pieces| && SetsCreated(Piece(pieces, i))
                   && (forall j :: i < j < |pieces| ==> !SetsCreated(Piece(pieces, j))) ==>
         Spells(Piece(pieces, i)[8..], created)
  }

  /** The key id is that of the last piece that sets it. */
  ghost predicate KeyIdIs(pieces: seq<string>, before: string, keyid: string)
  {
    && ((forall i :: 0 <= i < |pieces| ==> !SetsKeyId(Piece(pieces, i))) ==> keyid == before)
    && forall i :: 0 <= i < |pieces| && SetsKeyId(Piece(pieces, i))
                   && (forall j :: i < j < |pieces| ==> !SetsKeyId(Piece(pieces, j))) ==>
         Piece(pieces, i) == "keyid=\"" + keyid + "\""
  }

  lemma PieceAt(pieces: seq<string>, i: int)
    requires 0 < i < |pieces|
    ensures Piece(pieces, i) == Piece(pieces[1..], i - 1)
  {
  }

  lemma {:induction false} ParamsAre(pieces: seq<string>, created: int, keyid: string)
    ensures var r := ReadParams(pieces, created, keyid);
            && (r.Ok? <==> AllAllowed(pieces, |pieces|))
            && (r.Ok? ==> CreatedIs(pieces, created, r.value.0) && KeyIdIs(pieces, keyid, r.value.1))
            && (r.Err? ==> exists i :: 0 <= i < |pieces| && AllAllowed(pieces, i) && !Allowed(Piece(pieces, i))
                                       && r.error == RefusalOf(Piece(pieces, i)))
    decreases |pieces|
  {
    hide ReadParam, Allowed, SetsCreated, SetsKeyId, Spells, Trim, RefusalOf;
    if pieces != [] {
      var p := Piece(pieces, 0);
      ParamIs(p, created, keyid);
      var rest := pieces[1..];
      forall i | 0 < i < |pieces| ensures Piece(pieces, i) == Piece(rest, i - 1) { PieceAt(pieces, i); }
      var one := ReadParam(p, created, keyid);
      if one.Ok? {
        ParamsAre(rest, one.value.0, one.value.1);
        var r := ReadParams(rest, one.value.0, one.value.1);
        assert AllAllowed(rest, |rest|) <==> AllAllowed(pieces, |pieces|) by {
          forall i | 0 <= i < |rest| ensures Piece(rest, i) == Piece(pieces, i + 1) {}
        }
        if r.Ok? {
          CreatedOn(pieces, created, one.value.0, r.value.0);
          KeyIdOn(pieces, keyid, one.value.1, r.value.1);
        } else {
          var i :| 0 <= i < |rest| && AllAllowed(rest, i) && !Allowed(Piece(rest, i))
                   && r.error == RefusalOf(Piece(rest, i));
          assert Piece(pieces, i + 1) == Piece(rest, i);
          assert AllAllowed(pieces, i + 1);
        }
      } else {
        assert AllAllowed(pieces, 0);
      }
    }
  }

  lemma CreatedOn(pieces: seq<string>, before: int, first: int, created: int)
    requires pieces != [] && CreatedIs(pieces[1..], first, created)
    requires if SetsCreated(Piece(pieces, 0)) then Spells(Piece(pieces, 0)[8..], first) else first == before
    ensures CreatedIs(pieces, before, created)
  {
    hide Spells, Trim;
    var rest := pieces[1..];
    forall i | 0 <= i < |rest| ensures Piece(rest, i) == Piece(pieces, i + 1) { PieceAt(pieces, i + 1); }
    forall i | 0 <= i < |pieces| && SetsCreated(Piece(pieces, i))
               && (forall j :: i < j < |pieces| ==> !SetsCreated(Piece(pieces, j)))
      ensures Spells(Piece(pieces, i)[8..], created)
    {
      if i > 0 { assert Piece(rest, i - 1) == Piece(pieces, i); }
    }
  }

  lemma KeyIdOn(pieces: seq<string>, before: string, first: string, keyid: string)
    requires pieces != [] && KeyIdIs(pieces[1..], first, keyid)
    requires if SetsKeyId(Piece(pieces, 0)) then Piece(pieces, 0) == "keyid=\"" + first + "\"" else first == before
    ensures KeyIdIs(pieces, before, keyid)
  {
    hide Trim, SetsKeyId;
    var rest := pieces[1..];
    forall i | 0 <= i < |rest| ensures Piece(rest, i) == Piece(pieces, i + 1) { PieceAt(pieces, i + 1); }
    forall i | 0 <= i < |pieces| && SetsKeyId(Piece(pieces, i))
               && (forall j :: i < j < |pieces| ==> !SetsKeyId(Piece(pieces, j)))
      ensures Piece(pieces, i) == "keyid=\"" + keyid + "\""
    {
      if i > 0 { assert Piece(rest, i - 1) == Piece(pieces, i); }
    }
  }

  // ----- the header -----

  /** A header without the label, without a list, or with one that never ends. */
  lemma UnlistedIs(h: string)
    ensures !("mlp=" <= h) ==> ParseInput(h) == Err(NoLabel)
    ensures "mlp=" <= h && !("mlp=(" <= h) ==> ParseInput(h) == Err(MalformedList)
    ensures "mlp=(" <= h && ')' !in h ==> ParseInput(h) == Err(Unterminated)
  {
    hide Fields, Unquote, ReadParams, Split;
    if "mlp=(" <= h && ')' !in h {
      forall i | 0 <= i < |h[4..]| ensures h[4..][i] != ')' { assert h[4..][i] == h[i + 4]; }
      IndexAt(h[4..], ')', |h[4..]|);
    }
  }

  /**
   Any other header: what is up to the first closing parenthesis is a list of words in quotes, what follows are
   parameters between semicolons. It parses if and only if every word is quoted, every parameter allowed, and a creation
   time other than zero and a key id are set; the list and the parameters are kept as they came.
   */
  lemma ListedIs(h: string, list: string, tail: string)
    requires h == "mlp=(" + list + ")" + tail && ')' !in list
    ensures var words, pieces, r := Fields(list), Split(tail, ';'), ParseInput(h);
            if exists w :: w in words && !(|w| >= 2 && w[0] == w[|w| - 1] == '"') then r == Err(Unquoted)
            else if !AllAllowed(pieces, |pieces|) then
              exists i :: 0 <= i < |pieces| && AllAllowed(pieces, i) && !Allowed(Piece(pieces, i))
                          && r == Err(RefusalOf(Piece(pieces, i)))
            else
              exists created, keyid, components :: HeaderIs(list, tail, created, keyid, components)
                && r == if created == 0 || keyid == "" then Err(Missing)
                        else Ok(SigInput(components, "(" + list + ")" + tail, created, keyid))
  {
    hide Fields, Unquote, ReadParams, Split, AllAllowed, CreatedIs, KeyIdIs, Allowed, RefusalOf, ParseInput, InQuotes;
    CutIs(h, list, tail);
    var words, pieces := Fields(list), Split(tail, ';');
    var components := Unquote(words);
    UnquoteIs(words, if components.Some? then components.value else []);
    if components.Some? {
      ParamsAre(pieces, 0, "");
      var r := ReadParams(pieces, 0, "");
      if r.Ok? { assert HeaderIs(list, tail, r.value.0, r.value.1, components.value); }
    } else {
      var i :| 0 <= i < |words| && !(|words[i]| >= 2 && words[i][0] == words[i][|words[i]| - 1] == '"');
      assert words[i] in words;
    }
  }

  /** Where the header is cut. */
  lemma CutIs(h: string, list: string, tail: string)
    requires h == "mlp=(" + list + ")" + tail && ')' !in list
    ensures var components, r := Unquote(Fields(list)), ReadParams(Split(tail, ';'), 0, "");
            ParseInput(h)
            == if components.None? then Err(Unquoted)
               else if r.Err? then Err(r.error)
               else if r.value.0 == 0 || r.value.1 == "" then Err(Missing)
               else Ok(SigInput(components.value, "(" + list + ")" + tail, r.value.0, r.value.1))
  {
    hide Fields, Unquote, ReadParams, Split;
    var rest := h[4..];
    assert h[4..] == "(" + list + ")" + tail;
    forall i | 0 <= i < 1 + |list| ensures rest[i] != ')' { if i > 0 { assert rest[i] == list[i - 1]; } }
    IndexAt(rest, ')', 1 + |list|);
    assert rest[1..1 + |list|] == list && rest[1 + |list| + 1..] == tail;
  }

  /** What a well-formed header says. */
  ghost predicate HeaderIs(list: string, tail: string, created: int, keyid: string, components: seq<string>)
  {
    && Fields(list) == InQuotes(components)
    && CreatedIs(Split(tail, ';'), 0, created) && KeyIdIs(Split(tail, ';'), "", keyid)
  }
}
