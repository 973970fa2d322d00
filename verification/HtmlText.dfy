/**
 What the fragment parser reads off any text, piece by piece, and what the serializer writes
 (client/test/mini-html5-parser.js, client/lib/sanitizer.js:239-260).
 */
module HtmlText {
  import opened Sanitizer
  import opened HtmlParser
  import opened HtmlProofs
  import opened Strings
  import opened Wrappers

  // ----- building the tree -----

  /** w is z with a node at the end of the innermost open element, or of the roots. */
  ghost predicate Added(z: Zip, n: Node, w: Zip)
  {
    if z.frames == [] then w == Zip(z.roots + [n], [])
    else
      var k := |z.frames| - 1;
      var top := z.frames[k];
      && w.roots == z.roots && |w.frames| == k + 1 && w.frames[..k] == z.frames[..k]
      && w.frames[k] == Frame(top.tag, top.attrs, top.kids + [n])
  }

  /** Open elements, each the last child of the one before it. */
  function Nested(frames: seq<Frame>): Node
    requires frames != []
    decreases |frames|
  {
    var f := frames[0];
    Element(f.tag, f.attrs, if |frames| == 1 then f.kids else f.kids + [Nested(frames[1..])])
  }

  lemma AppendIs(z: Zip, n: Node)
    ensures Added(z, n, z.Append([n]))
  {
  }

  lemma {:induction false} NestedInner(outer: seq<Frame>, p: Frame, t: Frame)
    ensures Nested(outer + [p, t])
            == Nested(outer + [Frame(p.tag, p.attrs, p.kids + [Element(t.tag, t.attrs, t.kids)])])
    decreases |outer|
  {
    var q := Frame(p.tag, p.attrs, p.kids + [Element(t.tag, t.attrs, t.kids)]);
    if outer == [] {
      assert [] + [p, t] == [p, t] && [] + [q] == [q] && [p, t][1..] == [t];
    } else {
      NestedInner(outer[1..], p, t);
      assert (outer + [p, t])[1..] == outer[1..] + [p, t] && (outer + [q])[1..] == outer[1..] + [q];
    }
  }

  /** Closing the innermost of the frames makes it the last child of the one before it. */
  lemma CloseIs(roots: seq<Node>, outer: seq<Frame>, p: Frame, t: Frame)
    ensures Zip(roots, outer + [p, t]).Close()
            == Zip(roots, outer + [Frame(p.tag, p.attrs, p.kids + [Element(t.tag, t.attrs, t.kids)])])
    ensures Zip(roots, [t]).Close() == Zip(roots + [Element(t.tag, t.attrs, t.kids)], [])
  {
    assert (outer + [p, t])[..|outer| + 1] == outer + [p];
    assert (outer + [p])[..|outer|] == outer;
    assert [t][..0] == [];
  }

  lemma UnfoldCloseTo(z: Zip, n: nat)
    ensures z.CloseTo(n) == if |z.frames| <= n then z else z.Close().CloseTo(n)
  {
  }

  /** Closing all but n open elements puts the others, nested as they are, at the end of what stays open. */
  lemma {:induction false} CloseToIs(z: Zip, n: nat)
    ensures n >= |z.frames| ==> z.CloseTo(n) == z
    ensures n < |z.frames| ==> Added(Zip(z.roots, z.frames[..n]), Nested(z.frames[n..]), z.CloseTo(n))
    decreases |z.frames|
  {
    hide Zip.Close, Zip.CloseTo, Nested, Added;
    UnfoldCloseTo(z, n);
    if n < |z.frames| {
      var k := |z.frames| - 1;
      var t, below := z.frames[k], z.Close();
      if n == k {
        LastClose(z);
      } else {
        var p, outer := z.frames[k - 1], z.frames[..k - 1];
        var q := Frame(p.tag, p.attrs, p.kids + [Element(t.tag, t.attrs, t.kids)]);
        assert z.frames == outer + [p, t];
        CloseIs(z.roots, outer, p, t);
        assert below.frames == outer + [q] && below.roots == z.roots;
        CloseToIs(below, n);
        NestedInner(outer[n..], p, t);
        assert z.frames[n..] == outer[n..] + [p, t] && below.frames[n..] == outer[n..] + [q];
        assert below.frames[..n] == outer[..n] == z.frames[..n];
      }
    }
  }

  lemma LastClose(z: Zip)
    requires z.frames != []
    ensures var k := |z.frames| - 1;
            Added(Zip(z.roots, z.frames[..k]), Nested(z.frames[k..]), z.CloseTo(k))
  {
    hide Zip.CloseTo;
    var k := |z.frames| - 1;
    var t := z.frames[k];
    assert z.frames[k..] == [t];
    UnfoldCloseTo(z, k);
    AppendIs(Zip(z.roots, z.frames[..k]), Element(t.tag, t.attrs, t.kids));
    UnfoldCloseTo(z.Close(), k);
  }

  lemma {:induction false} InnermostIs(frames: seq<Frame>, tag: string)
    ensures var k := Innermost(frames, tag);
            if k.None? then forall i :: 0 <= i < |frames| ==> frames[i].tag != tag
            else frames[k.value].tag == tag && forall i :: k.value < i < |frames| ==> frames[i].tag != tag
    decreases |frames|
  {
    if frames != [] { InnermostIs(frames[..|frames| - 1], tag); }
  }

  /** The k-th open element is the innermost one of a name. */
  ghost predicate InnermostAt(frames: seq<Frame>, tag: string, k: int)
  {
    0 <= k < |frames| && frames[k].tag == tag && forall i :: k < i < |frames| ==> frames[i].tag != tag
  }

  /** What an end tag of a name makes of the open elements. */
  ghost predicate Ended(z: Zip, tag: string, w: Zip)
  {
    && ((forall i :: 0 <= i < |z.frames| ==> z.frames[i].tag != tag) ==> w == z)
    && forall k :: InnermostAt(z.frames, tag, k) ==>
         Added(Zip(z.roots, z.frames[..k]), Nested(z.frames[k..]), w)
  }

  lemma EndIs(z: Zip, tag: string)
    ensures Ended(z, tag, z.End(tag))
  {
    hide Innermost, Zip.CloseTo, Added, Nested;
    InnermostIs(z.frames, tag);
    var k := Innermost(z.frames, tag);
    if k.Some? { CloseToIs(z, k.value); }
  }

  // ----- the end, texts and comments -----

  /** At the end of the text every open element is closed. */
  lemma EndOfTextIs(lang: Language, others: Others, z: Zip)
    ensures z.frames == [] ==> Parse(lang, others, "", z) == Some(z.roots)
    ensures z.frames != [] ==> Parse(lang, others, "", z) == Some(z.roots + [Nested(z.frames)])
  {
    hide Zip.CloseTo, Nested, Turn;
    CloseToIs(z, 0);
    if z.frames != [] { assert z.frames[..0] == [] && z.frames[0..] == z.frames; }
  }

  /** A run without an angle bracket is one text, decoded. */
  lemma TextIs(lang: Language, others: Others, run: string, rest: string, z: Zip) returns (w: Zip)
    requires run != "" && '<' !in run && (rest == "" || rest[0] == '<')
    ensures Added(z, Text(Decode(others, run)), w)
    ensures Parse(lang, others, run + rest, z) == Parse(lang, others, rest, w)
  {
    hide Decode, Zip.Append, Parse;
    var s := run + rest;
    assert forall i :: 0 <= i < |run| ==> s[i] == run[i] && run[i] in run;
    IndexAt(s, '<', |run|);
    assert s[..|run|] == run && s[|run|..] == rest;
    w := z.Append([Text(Decode(others, run))]);
    AppendIs(z, Text(Decode(others, run)));
    ParseTurn(lang, others, s, z);
  }

  /** An angle bracket before anything that is not a letter, a slash or the start of a comment is a text of its own. */
  lemma LessIs(lang: Language, others: Others, rest: string, z: Zip) returns (w: Zip)
    requires !("!--" <= rest) && !("/" <= rest) && (rest == "" || !('a' <= rest[0] <= 'z' || 'A' <= rest[0] <= 'Z'))
    ensures Added(z, Text("<"), w)
    ensures Parse(lang, others, "<" + rest, z) == Parse(lang, others, rest, w)
  {
    hide Zip.Append, Parse, ReadAttrs, RawStep, Span, Fold;
    var s := "<" + rest;
    assert s[1..] == rest;
    w := z.Append([Text("<")]);
    AppendIs(z, Text("<"));
    ParseTurn(lang, others, s, z);
  }

  ghost predicate Occurs(s: string, word: string, i: int)
  {
    0 <= i && i + |word| <= |s| && s[i..i + |word|] == word
  }

  lemma {:induction false} FindIs(s: string, word: string, from: nat)
    ensures var i := Find(s, word, from);
            if i.Some? then Occurs(s, word, i.value) && forall j :: from <= j < i.value ==> !Occurs(s, word, j)
            else forall j :: from <= j ==> !Occurs(s, word, j)
    decreases |s| - from
  {
    if from + |word| <= |s| && s[from..from + |word|] != word { FindIs(s, word, from + 1); }
  }

  /** A comment reaches to the first closing mark. */
  lemma CommentIs(lang: Language, others: Others, body: string, rest: string, z: Zip) returns (w: Zip)
    requires forall i :: 0 <= i < |body| ==> !Occurs(body + "-->", "-->", i)
    ensures Added(z, Comment(body), w)
    ensures Parse(lang, others, "<!--" + body + "-->" + rest, z) == Parse(lang, others, rest, w)
  {
    hide Zip.Append, Parse, Find;
    var s := "<!--" + body + "-->" + rest;
    var n := |body| + 4;
    FindIs(s, "-->", 4);
    forall i | 4 <= i < n ensures !Occurs(s, "-->", i)
    {
      assert s[i..i + 3] == (body + "-->")[i - 4..i - 1];
      assert !Occurs(body + "-->", "-->", i - 4);
    }
    assert Occurs(s, "-->", n) && s[4..n] == body && s[n + 3..] == rest;
    w := z.Append([Comment(body)]);
    AppendIs(z, Comment(body));
    assert s[0] == '<' && "<!--" <= s;
    ParseTurn(lang, others, s, z);
  }

  lemma NeverClosed(body: string)
    requires forall i :: !Occurs(body, "-->", i)
    ensures Find("<!--" + body, "-->", 4) == None
  {
    hide Find;
    var s := "<!--" + body;
    FindIs(s, "-->", 4);
    forall i | 4 <= i ensures !Occurs(s, "-->", i)
    {
      if i + 3 <= |s| { assert s[i..i + 3] == body[i - 4..i - 1] && !Occurs(body, "-->", i - 4); }
    }
  }

  /** One that is never closed takes all the text but its last three characters, which are lost. */
  lemma OpenCommentIs(lang: Language, others: Others, body: string, z: Zip) returns (w: Zip)
    requires forall i :: !Occurs(body, "-->", i)
    ensures Added(z, Comment(if |body| < 3 then "" else body[..|body| - 3]), w)
    ensures Parse(lang, others, "<!--" + body, z) == Parse(lang, others, "", w)
  {
    hide Zip.Append, Parse, Find, Occurs, Added;
    var s := "<!--" + body;
    NeverClosed(body);
    var text := if |body| < 3 then "" else body[..|body| - 3];
    if |body| >= 3 { assert s[4..|s| - 3] == text; }
    w := z.Append([Comment(text)]);
    AppendIs(z, Comment(text));
    assert s[0] == '<' && "<!--" <= s;
    ParseTurn(lang, others, s, z);
  }

  // ----- tags -----

  /** An end tag reaches to the next closing bracket, or to the end of the text; its name is trimmed and folded. */
  lemma EndTagIs(lang: Language, others: Others, name: string, rest: string, z: Zip) returns (w: Zip, v: Zip)
    requires '>' !in name
    ensures Ended(z, Fold(lang, Trim(name, JsSpace)), w)
    ensures Parse(lang, others, "</" + name + ">" + rest, z) == Parse(lang, others, rest, w)
    ensures Parse(lang, others, "</" + name, z) == Parse(lang, others, "", w)
  {
    hide Zip.End, Parse, Trim, Fold, JsSpace, Ended;
    w := z.End(Fold(lang, Trim(name, JsSpace)));
    EndIs(z, Fold(lang, Trim(name, JsSpace)));
    EndTagShape(name, rest);
    ParseTurn(lang, others, "</" + name + ">" + rest, z);
    var s := "</" + name;
    forall i | 0 <= i < |s| ensures s[i] != '>' { if i >= 2 { assert s[i] == name[i - 2]; } }
    IndexAt(s, '>', |s|);
    assert s[2..|s|] == name && s[0] == '<' && s[1] == '/';
    ParseTurn(lang, others, s, z);
    v := w;
  }

  predicate IsLetter(c: char) { 'a' <= c <= 'z' || 'A' <= c <= 'Z' }

  predicate InTagName(c: char) { IsLetter(c) || '0' <= c <= '9' || c == '-' }

  predicate IsVoid(tag: string)
  {
    tag in {"area", "base", "br", "col", "embed", "hr", "img", "input", "link", "meta", "source", "track", "wbr"}
  }

  /**
   A start tag with a name and the text s after it. If its attributes never end, neither does the parser. If they do, a
   void element or one that closes itself is added without children; a script or style takes its contents as they are;
   any other element is open from here on.
   */
  lemma StartTagIs(lang: Language, others: Others, name: string, s: string, z: Zip) returns (w: Zip)
    requires name != "" && IsLetter(name[0]) && (forall i :: 0 <= i < |name| ==> InTagName(name[i]))
    requires s == "" || !InTagName(s[0])
    ensures var p, tag := Parse(lang, others, "<" + name + s, z), Fold(lang, name);
            var r := ReadAttrs(lang, others, s, map[]);
            && (r.None? ==> p == None)
            && (r.Some? ==>
                  var attrs, closed, rest := r.value.0, r.value.1, r.value.2;
                  if IsVoid(tag) || closed then
                    Added(z, Element(tag, attrs, []), w) && p == Parse(lang, others, rest, w)
                  else if tag == "script" || tag == "style" then
                    var raw := RawStep(lang, tag, attrs, rest, z);
                    w == raw.1 && p == Parse(lang, others, raw.0, w)
                  else w == Zip(z.roots, z.frames + [Frame(tag, attrs, [])]) && p == Parse(lang, others, rest, w))
  {
    hide Zip.Append, Parse, ReadAttrs, RawStep, Fold, TagName, Added, InTagName;
    NameCut(name, s);
    ParseTurn(lang, others, "<" + name + s, z);
    w := z;
    var r := ReadAttrs(lang, others, s, map[]);
    if r.Some? {
      var tag := Fold(lang, name);
      var (attrs, closed, rest) := r.value;
      if IsVoid(tag) || closed {
        w := z.Append([Element(tag, attrs, [])]);
        AppendIs(z, Element(tag, attrs, []));
      } else if tag == "script" || tag == "style" {
        w := RawStep(lang, tag, attrs, rest, z).1;
      } else {
        w := z.Open(tag, attrs);
      }
    }
  }

  lemma NameCut(name: string, s: string)
    requires name != "" && IsLetter(name[0]) && (forall i :: 0 <= i < |name| ==> InTagName(name[i]))
    requires s == "" || !InTagName(s[0])
    ensures var t := "<" + name + s;
            && !("<!--" <= t) && !("</" <= t) && t[0] == '<' && t[1..] == name + s
            && TagName(t[1..]) == |name| && t[1..][..|name|] == name && t[1..][|name|..] == s
  {
    var t := "<" + name + s;
    assert t[1..] == name + s && t[1] == name[0];
    forall i | 0 <= i < |name| ensures TagChar((name + s)[i]) { assert InTagName(name[i]); }
    SpanAt(name + s, TagChar, |name|);
  }

  /**
   The contents of a raw-text element reach to the first closing tag of its name in any case, or to the end of the text;
   parsing goes on after the next closing bracket, if there is one.
   */
  lemma RawIs(lang: Language, tag: string, attrs: map<string, string>, s: string, z: Zip) returns (j: nat)
    ensures j <= |s| && (j < |s| ==> Occurs(Fold(lang, s), "</" + tag, j))
    ensures forall i :: 0 <= i < j ==> !Occurs(Fold(lang, s), "</" + tag, i)
    ensures var (rest, w) := RawStep(lang, tag, attrs, s, z);
            && Added(z, Element(tag, attrs, if j == 0 then [] else [Text(s[..j])]), w)
            && PastBracket(s[j..], rest)
  {
    hide Find, Fold, Zip.Append, Added, Occurs;
    var f, word := Fold(lang, s), "</" + tag;
    FindIs(f, word, 0);
    var found := Find(f, word, 0);
    j := if found.Some? then found.value else |s|;
    AppendIs(z, Element(tag, attrs, if j == 0 then [] else [Text(s[..j])]));
    BracketIs(s[j..]);
  }

  /** rest is what follows the first closing bracket of s, or nothing. */
  ghost predicate PastBracket(s: string, rest: string)
  {
    && ('>' !in s ==> rest == "")
    && forall a, b :: s == a + ">" + b && '>' !in a ==> rest == b
  }

  lemma BracketIs(s: string)
    ensures var gt := IndexOf(s, '>'); PastBracket(s, if gt < |s| then s[gt + 1..] else "")
  {
    var gt := IndexOf(s, '>');
    forall a, b | s == a + ">" + b && '>' !in a ensures gt == |a| < |s| && s[gt + 1..] == b
    {
      forall i | 0 <= i < |a| ensures s[i] != '>' { assert s[i] == a[i]; }
      IndexAt(s, '>', |a|);
    }
  }

  // ----- attributes -----

  /** Where the attributes end: without a closing bracket the loop never does. */
  lemma ClosingIs(lang: Language, others: Others, s: string, attrs: map<string, string>)
    ensures ReadAttrs(lang, others, "", attrs) == None
    ensures ReadAttrs(lang, others, ">" + s, attrs) == Some((attrs, false, s))
    ensures ReadAttrs(lang, others, "/>" + s, attrs) == Some((attrs, true, s))
  {
    hide ReadAttrs, Decode, OneAttr, Span, Fold, SkipSpace;
    UnfoldAttrs(lang, others, "", attrs);
    UnfoldAttrs(lang, others, ">" + s, attrs);
    UnfoldAttrs(lang, others, "/>" + s, attrs);
    SkipNone(">" + s);
    SkipNone("/>" + s);
    assert (">" + s)[1..] == s && ("/>" + s)[2..] == s;
  }

  /** Blanks and stray signs between attributes are skipped. */
  lemma BetweenIs(lang: Language, others: Others, c: char, s: string, attrs: map<string, string>)
    requires JsSpace(c) || c == '=' || (c == '/' && !(">" <= s))
    ensures ReadAttrs(lang, others, [c] + s, attrs) == ReadAttrs(lang, others, s, attrs)
  {
    hide ReadAttrs, Decode, OneAttr, Fold, SkipSpace, JsSpace, Span;
    if JsSpace(c) {
      UnfoldAttrs(lang, others, [c] + s, attrs);
      UnfoldAttrs(lang, others, s, attrs);
      SkipMore(c, s);
    } else {
      StrayIs(lang, others, c, s, attrs);
    }
  }

  lemma StrayIs(lang: Language, others: Others, c: char, s: string, attrs: map<string, string>)
    requires c == '=' || (c == '/' && !(">" <= s))
    ensures ReadAttrs(lang, others, [c] + s, attrs) == ReadAttrs(lang, others, s, attrs)
  {
    hide ReadAttrs, Decode, OneAttr, Fold, SkipSpace, Suffix, Span, JsSpace, NameChar;
    var t := [c] + s;
    assert t[1..] == s && t[0] == c;
    NotBlank(c);
    SkipNone(t);
    NoName(t);
    UnfoldAttrs(lang, others, t, attrs);
  }

  lemma NotBlank(c: char)
    requires c == '=' || c == '/'
    ensures !JsSpace(c) && !NameChar(c)
  {
  }

  lemma NoName(t: string)
    requires t != "" && !NameChar(t[0])
    ensures Span(t, NameChar) == 0
  {
  }

  lemma SkipMore(c: char, s: string)
    requires JsSpace(c)
    ensures SkipSpace([c] + s) == SkipSpace(s)
  {
    var t := [c] + s;
    assert t[1..] == s;
    assert t[1 + Span(s, JsSpace)..] == s[Span(s, JsSpace)..];
  }

  lemma SkipAll(gap: string, s: string)
    requires All(gap, JsSpace) && (s == "" || !JsSpace(s[0]))
    ensures SkipSpace(gap + s) == s
  {
    SpanAt(gap + s, JsSpace, |gap|);
    assert (gap + s)[|gap|..] == s;
  }

  predicate InName(c: char) { !JsSpace(c) && c != '=' && c != '/' && c != '>' }

  /** A name, and what stands after it up to the next sign. */
  predicate NameThen(name: string, gap: string, s: string)
  {
    && name != "" && (forall i :: 0 <= i < |name| ==> InName(name[i])) && All(gap, JsSpace)
    && (s == "" || !JsSpace(s[0])) && (gap == "" ==> s == "" || !InName(s[0]))
  }

  /** Setting an attribute: the later value stands, except that one name sets nothing. */
  function Set(attrs: map<string, string>, name: string, value: string): map<string, string>
  {
    if name == "__proto__" then attrs else attrs[name := value]
  }

  lemma NameSpan(name: string, gap: string, s: string)
    requires NameThen(name, gap, s)
    ensures var t := name + gap + s;
            && SkipSpace(t) == t != "" && t[0] != '>' && !("/>" <= t)
            && Span(t, NameChar) == |name| > 0 && t[..|name|] == name
  {
    var t := name + gap + s;
    assert InName(name[0]) && t[0] == name[0];
    SkipNone(t);
    forall i | 0 <= i < |name| ensures NameChar(t[i]) { assert InName(name[i]) && t[i] == name[i]; }
    if gap != "" { assert t[|name|] == gap[0]; } else if s != "" { assert t[|name|] == s[0]; }
    SpanAt(t, NameChar, |name|);
  }

  lemma NameRead(lang: Language, others: Others, name: string, gap: string, s: string, attrs: map<string, string>)
    requires NameThen(name, gap, s)
    ensures var (value, rest) := OneAttr(name + gap + s, |name|);
            ReadAttrs(lang, others, name + gap + s, attrs)
            == ReadAttrs(lang, others, rest, Set(attrs, Fold(lang, name), Decode(others, value)))
  {
    hide ReadAttrs, Decode, OneAttr, Fold, NameThen, SkipSpace, Span, NameChar, Suffix;
    NameSpan(name, gap, s);
    UnfoldAttrs(lang, others, name + gap + s, attrs);
  }

  lemma AfterName(name: string, gap: string, s: string)
    requires NameThen(name, gap, s)
    ensures OneAttr(name + gap + s, |name|)
            == if "=" <= s then ReadValue(SkipSpace(s[1..])) else ("", s)
  {
    hide ReadValue;
    var t := name + gap + s;
    assert t[|name|..] == gap + s;
    SkipAll(gap, s);
  }

  /** An attribute without a value. */
  lemma BareAttrIs(lang: Language, others: Others, name: string, gap: string, s: string, attrs: map<string, string>)
    requires NameThen(name, gap, s) && !("=" <= s)
    ensures ReadAttrs(lang, others, name + gap + s, attrs)
            == ReadAttrs(lang, others, s, Set(attrs, Fold(lang, name), ""))
  {
    hide ReadAttrs, Decode, OneAttr, Fold;
    NameRead(lang, others, name, gap, s, attrs);
    AfterName(name, gap, s);
    DecodeNothing(others);
  }

  /** How a value can be written: between quotes of either kind, behind an opening one, or bare. */
  predicate ValueThen(t: string, value: string, rest: string)
  {
    || (t == "\"" + value + "\"" + rest && '"' !in value)
    || (t == "'" + value + "'" + rest && '\'' !in value)
    || (rest == "" && ((t == "\"" + value && '"' !in value) || (t == "'" + value && '\'' !in value)))
    || (t == value + rest && !("\"" <= t) && !("'" <= t)
        && (forall i :: 0 <= i < |value| ==> !JsSpace(value[i]) && value[i] != '>')
        && (rest == "" || JsSpace(rest[0]) || rest[0] == '>'))
  }

  lemma QuotedIs(q: char, value: string, rest: string)
    requires (q == '"' || q == '\'') && q !in value
    ensures ReadValue([q] + value + [q] + rest) == (value, rest)
    ensures ReadValue([q] + value) == (value, "")
  {
    var s, t := [q] + value + [q] + rest, [q] + value;
    assert s[1..] == value + [q] + rest && t[1..] == value;
    assert forall i :: 0 <= i < |value| ==> s[1..][i] == value[i] && value[i] in value;
    IndexAt(s[1..], q, |value|);
    IndexAt(value, q, |value|);
    assert s[1..][..|value|] == value && s[1..][|value| + 1..] == rest;
  }

  lemma ValueIs(t: string, value: string, rest: string)
    requires ValueThen(t, value, rest)
    ensures ReadValue(t) == (value, rest)
  {
    if t == "\"" + value + "\"" + rest && '"' !in value {
      QuotedIs('"', value, rest);
    } else if t == "'" + value + "'" + rest && '\'' !in value {
      QuotedIs('\'', value, rest);
    } else if rest == "" && t == "\"" + value && '"' !in value {
      QuotedIs('"', value, rest);
    } else if rest == "" && t == "'" + value && '\'' !in value {
      QuotedIs('\'', value, rest);
    } else {
      assert t == value + rest;
      forall i | 0 <= i < |value| ensures BareChar(t[i]) { assert t[i] == value[i]; }
      SpanAt(t, BareChar, |value|);
      assert t[..|value|] == value && t[|value|..] == rest;
    }
  }

  /** An attribute with a value, decoded; the name is folded. */
  lemma AttrIs(lang: Language, others: Others, name: string, gap: string, more: string, t: string, value: string,
               rest: string, attrs: map<string, string>)
    requires NameThen(name, gap, "=" + more + t) && All(more, JsSpace) && (t == "" || !JsSpace(t[0]))
    requires ValueThen(t, value, rest)
    ensures ReadAttrs(lang, others, name + gap + ("=" + more + t), attrs)
            == ReadAttrs(lang, others, rest, Set(attrs, Fold(lang, name), Decode(others, value)))
  {
    hide ReadAttrs, Decode, OneAttr, Fold, ValueThen, ReadValue, NameThen, SkipSpace, JsSpace, All, Suffix, Set;
    var s := "=" + more + t;
    NameRead(lang, others, name, gap, s, attrs);
    AfterName(name, gap, s);
    assert s[1..] == more + t;
    SkipAll(more, t);
    ValueIs(t, value, rest);
  }

  // ----- character references -----

  predicate IsHex(c: char) { '0' <= c <= '9' || 'a' <= c <= 'f' || 'A' <= c <= 'F' }

  /** Letters, or a number sign and hexadecimal digits, behind an x or not. */
  predicate Body(b: string)
  {
    || (b != "" && forall i :: 0 <= i < |b| ==> IsLetter(b[i]))
    || ("#" <= b && |b| > 1 && forall i :: 1 <= i < |b| ==> IsHex(b[i]))
    || ("#x" <= b && |b| > 2 && forall i :: 2 <= i < |b| ==> IsHex(b[i]))
  }

  /** A reference is a body up to a semicolon. */
  lemma ReferenceIs(s: string, b: string)
    ensures Reference(s) == Some(b) <==> Body(b) && b + ";" <= s
  {
    var r := Reference(s);
    if Body(b) && b + ";" <= s { BodyRead(s, b); }
    if r == Some(b) {
      assert b == s[..|b|] && s[|b|] == ';';
      assert forall i :: 0 <= i < |b| ==> b[i] == s[i];
      if s[0] == '#' {
        var x := if |s| > 1 && s[1] == 'x' then 2 else 1;
        var n := Span(s[x..], HexDigit);
        assert |b| == x + n && n > 0;
        forall i | x <= i < |b| ensures IsHex(b[i]) { assert s[x..][i - x] == s[i] && HexDigit(s[x..][i - x]); }
      } else {
        forall i | 0 <= i < |b| ensures IsLetter(b[i]) { assert Letter(s[i]); }
      }
    }
  }

  lemma BodyRead(s: string, b: string)
    requires Body(b) && b + ";" <= s
    ensures Reference(s) == Some(b)
  {
    assert s[..|b|] == b && s[|b|] == (b + ";")[|b|];
    assert forall i :: 0 <= i < |b| ==> s[i] == b[i];
    if "#" <= b {
      var x := if "#x" <= b then 2 else 1;
      assert !IsLetter(b[0]) && |b| > 1 && (x == 2 ==> !IsHex(b[1])) && (x == 1 ==> IsHex(b[1]) && b[1] == s[1]);
      forall i | 0 <= i < |b| - x ensures HexDigit(s[x..][i]) { assert s[x..][i] == b[x + i] && IsHex(b[x + i]); }
      assert s[x..][|b| - x] == ';';
      SpanAt(s[x..], HexDigit, |b| - x);
    } else {
      forall i | 0 <= i < |b| ensures Letter(s[i]) { assert IsLetter(b[i]); }
      SpanAt(s, Letter, |b|);
    }
  }

  /** A character that starts no reference stands for itself. */
  lemma PlainIs(others: Others, c: char, s: string)
    requires c != '&' || forall b :: Body(b) ==> !(b + ";" <= s)
    ensures Decode(others, "") == ""
    ensures Decode(others, [c] + s) == [c] + Decode(others, s)
  {
    hide Body, Reference, Decode;
    DecodeNothing(others);
    UnfoldDecode(others, [c] + s);
    assert ([c] + s)[1..] == s;
    var r := Reference(s);
    if r.Some? { ReferenceIs(s, r.value); }
  }

  /** A reference stands for its character, for what the others say, or for itself. */
  lemma DecodedIs(others: Others, b: string, s: string)
    requires Body(b)
    ensures Decode(others, "&" + b + ";" + s)
            == (if b == "amp" then "&" else if b == "lt" then "<" else if b == "gt" then ">"
                else if b == "quot" then "\"" else if b == "apos" then "'" else if b == "nbsp" then "\U{A0}"
                else if others(b).Some? then others(b).value else "&" + b + ";")
               + Decode(others, s)
  {
    hide Body, Reference, Decode;
    var t := "&" + b + ";" + s;
    UnfoldDecode(others, t);
    assert t[1..] == b + ";" + s;
    ReferenceIs(t[1..], b);
    assert t[|b| + 2..] == s && t[..|b| + 2] == "&" + b + ";";
  }

  lemma UnfoldDecode(others: Others, s: string)
    requires s != ""
    ensures var body := if s[0] == '&' then Reference(s[1..]) else None;
            Decode(others, s)
            == if body.None? then [s[0]] + Decode(others, s[1..])
               else
                 var b := body.value;
                 (if b in NAMED then NAMED[b] else if others(b).Some? then others(b).value else s[..|b| + 2])
                 + Decode(others, s[|b| + 2..])
  {
    hide Reference;
  }

  // ----- serialization -----

  /** What is written for a character of a text, and of a value. */
  lemma EscapedIs(c: char, s: string)
    ensures EscText("") == "" && EscAttr("") == ""
    ensures EscText([c] + s) == (if c == '&' then "&amp;" else if c == '<' then "&lt;" else if c == '>' then "&gt;"
                                 else [c]) + EscText(s)
    ensures EscAttr([c] + s) == (if c == '&' then "&amp;" else if c == '"' then "&quot;" else [c]) + EscAttr(s)
  {
    assert ([c] + s)[1..] == s;
  }

  /** What is written for a node, and for nodes one after the other. */
  lemma SerializedIs(order: Order, tag: string, attrs: map<string, string>, kids: seq<Node>, text: string,
                     n: Node, more: seq<Node>)
    ensures Serialize(order, []) == ""
    ensures Serialize(order, [n] + more) == SerializeNode(order, n) + Serialize(order, more)
    ensures SerializeNode(order, Comment(text)) == "" && SerializeNode(order, Text(text)) == EscText(text)
    ensures SerializeNode(order, Element(tag, attrs, kids))
            == "<" + tag + SerializeAttrs(attrs, order(attrs.Keys)) + ">"
               + if IsVoid(tag) then "" else Serialize(order, kids) + ("</" + tag + ">")
  {
    hide EscText, SerializeAttrs;
    assert ([n] + more)[1..] == more;
  }

  /** The attributes of the names in turn. */
  lemma SerializedAttrIs(attrs: map<string, string>, name: string, more: seq<string>)
    ensures SerializeAttrs(attrs, []) == ""
    ensures SerializeAttrs(attrs, [name] + more)
            == (if name in attrs then " " + name + "=\"" + EscAttr(attrs[name]) + "\"" else "")
               + SerializeAttrs(attrs, more)
  {
    hide EscAttr;
    assert ([name] + more)[1..] == more;
  }
}
