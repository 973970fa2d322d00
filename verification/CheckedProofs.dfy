/**
 The client's checked pipeline throws, degrades and renders exactly when it must (client/lib/sanitizer.js:310-327), over
 every fragment a parser gives it.
 */
module CheckedProofs {
  import opened ClientFilter
  import opened ClientProofs
  import opened HtmlParser
  import opened HtmlProofs
  import opened Sanitizer
  import opened SanitizerProofs
  import opened Strings
  import opened Wrappers

  // ----- what a parser's fragments have in common -----

  predicate LetterTag(s: string)
  {
    s != "" && 'a' <= s[0] <= 'z'
  }

  /** Every tag starts with a lower-case letter, as HTML's tokenizer makes them. */
  ghost predicate LetterTags(nodes: seq<Node>)
    decreases nodes
  {
    forall i :: 0 <= i < |nodes| ==> LetterTagsIn(nodes[i])
  }

  ghost predicate LetterTagsIn(n: Node)
    decreases n
  {
    n.Element? ==> LetterTag(n.tag) && LetterTags(n.kids)
  }

  ghost predicate LetterZip(z: Zip)
  {
    && LetterTags(z.roots)
    && forall i :: 0 <= i < |z.frames| ==> LetterTag(z.frames[i].tag) && LetterTags(z.frames[i].kids)
  }

  lemma LetterTagsConcat(a: seq<Node>, b: seq<Node>)
    ensures LetterTags(a + b) <==> LetterTags(a) && LetterTags(b)
  {
    hide LetterTagsIn;
    if LetterTags(a + b) {
      assert forall i :: 0 <= i < |a| ==> (a + b)[i] == a[i];
      forall i | 0 <= i < |b| ensures LetterTagsIn(b[i]) { assert (a + b)[|a| + i] == b[i]; }
    }
  }

  lemma OneLetterTag(n: Node)
    ensures LetterTags([n]) <==> LetterTagsIn(n)
    ensures LetterTags([])
  {
    assert [n][0] == n;
  }

  lemma AppendKeepsLetters(z: Zip, nodes: seq<Node>)
    requires LetterZip(z) && LetterTags(nodes)
    ensures LetterZip(z.Append(nodes))
  {
    hide LetterTags;
    if z.frames == [] {
      LetterTagsConcat(z.roots, nodes);
    } else {
      LetterTagsConcat(z.frames[|z.frames| - 1].kids, nodes);
    }
  }

  lemma {:induction false} ClosingKeepsLetters(z: Zip, n: nat)
    requires LetterZip(z)
    ensures LetterZip(z.CloseTo(n))
    decreases |z.frames|
  {
    hide LetterTags, Zip.Append;
    if |z.frames| > n {
      var top := z.frames[|z.frames| - 1];
      var e := Element(top.tag, top.attrs, top.kids);
      OneLetterTag(e);
      AppendKeepsLetters(Zip(z.roots, z.frames[..|z.frames| - 1]), [e]);
      CloseIsSmaller(z);
      ClosingKeepsLetters(z.Close(), n);
    }
  }

  lemma CloseIsSmaller(z: Zip)
    requires z.frames != []
    ensures |z.Close().frames| < |z.frames|
  {
  }

  lemma FoldedTagHasLetter(lang: Language, s: string)
    requires AsciiAsUsual(lang) && TagName(s) > 0
    ensures LetterTag(Fold(lang, s[..TagName(s)]))
  {
    assert Letter(s[0]);
  }

  lemma TurnKeepsLetters(lang: Language, others: Others, s: string, z: Zip)
    requires AsciiAsUsual(lang) && s != "" && LetterZip(z) && Turn(lang, others, s, z).Some?
    ensures LetterZip(Turn(lang, others, s, z).value.1)
  {
    hide AsciiAsUsual, LetterTags, LetterTag, Zip.Append, Zip.CloseTo, StartStep, Decode, Find, IndexOf, LetterZip;
    if s[0] != '<' {
      AppendText(z, Text(Decode(others, s[..IndexOf(s, '<')])));
    } else if "<!--" <= s {
      var j := Find(s, "-->", 4);
      AppendText(z, Comment(if j.Some? then s[4..j.value] else if |s| - 3 < 4 then "" else s[4..|s| - 3]));
    } else if "</" <= s {
      var k := Innermost(z.frames, Fold(lang, Trim(s[2..IndexOf(s, '>')], JsSpace)));
      if k.Some? { ClosingKeepsLetters(z, k.value); }
    } else {
      StartKeepsLetters(lang, others, s, z);
    }
  }

  lemma AppendText(z: Zip, n: Node)
    requires LetterZip(z) && !n.Element?
    ensures LetterZip(z.Append([n]))
  {
    hide LetterZip, Zip.Append;
    OneLetterTag(n);
    AppendKeepsLetters(z, [n]);
  }

  lemma StartKeepsLetters(lang: Language, others: Others, s: string, z: Zip)
    requires AsciiAsUsual(lang) && s != "" && s[0] == '<' && LetterZip(z) && StartStep(lang, others, s, z).Some?
    ensures LetterZip(StartStep(lang, others, s, z).value.1)
  {
    hide AsciiAsUsual, LetterTags, LetterTag, Zip.Append, ReadAttrs, Find, IndexOf, LetterZip, Fold, Decode;
    var n := TagName(s[1..]);
    if n == 0 {
      AppendText(z, Text("<"));
    } else {
      FoldedTagHasLetter(lang, s[1..]);
      var tag := Fold(lang, s[1..][..n]);
      var (attrs, selfClosing, rest) := ReadAttrs(lang, others, s[1..][n..], map[]).value;
      if tag in VOID || selfClosing {
        AppendElement(z, tag, attrs, []);
      } else if RawText(tag) {
        var found := Find(Fold(lang, rest), "</" + tag, 0);
        var j := if found.Some? then found.value else |rest|;
        AppendElement(z, tag, attrs, if j > 0 then [Text(rest[..j])] else []);
      } else {
        OpenKeepsLetters(z, tag, attrs);
      }
    }
  }

  lemma AppendElement(z: Zip, tag: string, attrs: map<string, string>, kids: seq<Node>)
    requires LetterZip(z) && LetterTag(tag) && (kids == [] || (|kids| == 1 && kids[0].Text?))
    ensures LetterZip(z.Append([Element(tag, attrs, kids)]))
  {
    hide LetterZip, Zip.Append, LetterTag;
    if kids != [] {
      OneLetterTag(kids[0]);
      assert kids == [kids[0]];
    }
    OneLetterTag(Element(tag, attrs, kids));
    AppendKeepsLetters(z, [Element(tag, attrs, kids)]);
  }

  lemma OpenKeepsLetters(z: Zip, tag: string, attrs: map<string, string>)
    requires LetterZip(z) && LetterTag(tag)
    ensures LetterZip(z.Open(tag, attrs))
  {
    hide LetterTag;
  }

  lemma {:induction false} ParseGivesLetters(lang: Language, others: Others, s: string, z: Zip)
    requires AsciiAsUsual(lang) && LetterZip(z) && Parse(lang, others, s, z).Some?
    ensures LetterTags(Parse(lang, others, s, z).value)
    decreases |s|
  {
    hide AsciiAsUsual, LetterTags, LetterTag, Turn, Zip.CloseTo;
    if s == "" {
      ClosingKeepsLetters(z, 0);
    } else {
      TurnKeepsLetters(lang, others, s, z);
      var (rest, next) := Turn(lang, others, s, z).value;
      ParseGivesLetters(lang, others, rest, next);
    }
  }

  /** Whatever the parser reads, every tag starts with a lower-case letter. */
  lemma ParsedTagsAreLetters(lang: Language, others: Others, html: string)
    requires AsciiAsUsual(lang) && ParseFragment(lang, others, html).Some?
    ensures LetterTags(ParseFragment(lang, others, html).value)
  {
    hide AsciiAsUsual, LetterTag, Parse;
    ParseGivesLetters(lang, others, html, Zip([], []));
  }

  // ----- the filter's output is readable -----

  lemma {:induction false} FilteringKeepsLetters(lang: Language, nodes: seq<Node>, manifest: set<string>)
    requires LetterTags(nodes) && FilterTree(lang, nodes, manifest).Passed?
    ensures LetterTags(FilterTree(lang, nodes, manifest).nodes)
    decreases nodes
  {
    hide FoundAttrs, Found, LooksUp, LetterTag;
    if nodes != [] {
      var front, last := nodes[..|nodes| - 1], nodes[|nodes| - 1];
      FilteringKeepsLetters(lang, front, manifest);
      LetterTagsConcat(FilterTree(lang, front, manifest).nodes, FilterNode(lang, last, manifest).nodes);
      OneLetterTag(last);
      assert LetterTagsIn(last);
      if last.Element? && last.tag !in DROPPED {
        FilteringKeepsLetters(lang, last.kids, manifest);
        if Found(last.tag) && FoundAttrs(lang, last.tag, last.attrs, manifest).Some? {
          OneLetterTag(Element(last.tag, FoundAttrs(lang, last.tag, last.attrs, manifest).value,
                               FilterTree(lang, last.kids, manifest).nodes));
        }
      }
    }
  }

  lemma {:induction false} SettledIsReadable(lang: Language, nodes: seq<Node>, manifest: set<string>)
    requires Settled(lang, nodes, manifest) && LetterTags(nodes)
    ensures Readable(nodes)
    decreases nodes
  {
    hide FoundAttrs, Found, SmallTag, SmallName, RawText, LetterTag;
    if nodes != [] {
      assert nodes == [nodes[0]] + nodes[1..];
      SettledConcat(lang, [nodes[0]], nodes[1..], manifest);
      LetterTagsConcat([nodes[0]], nodes[1..]);
      SettledIsReadable(lang, nodes[1..], manifest);
      var n := nodes[0];
      assert SettledNode(lang, n, manifest) && LetterTagsIn(n);
      if n.Element? {
        SettledIsReadable(lang, n.kids, manifest);
        NamesAreReadable(lang, n.tag, n.attrs, manifest);
      }
    }
  }

  lemma NamesAreReadable(lang: Language, tag: string, attrs: map<string, string>, manifest: set<string>)
    requires LetterTag(tag) && tag !in DROPPED && Found(tag) && FoundAttrs(lang, tag, attrs, manifest) == Some(attrs)
    ensures SmallTag(tag) && !RawText(tag) && forall a :: a in attrs ==> SmallName(a)
  {
    hide FilterAttrs, OwnAttrs, SmallName;
    if tag in INHERITED {
      assert tag == "constructor";
    } else {
      var n := Element(tag, attrs, []);
      CleanIsPermitted(lang, n, manifest);
      PermittedAreSmall(tag);
      forall a | a in attrs ensures SmallName(a)
      {
        if a in GLOBAL_ATTRS { GlobalsAreSmall(a); }
      }
    }
  }

  lemma {:induction false} NormalizedIsSettled(lang: Language, nodes: seq<Node>, manifest: set<string>)
    requires Settled(lang, nodes, manifest)
    ensures Settled(lang, Normalize(nodes), manifest)
    decreases nodes
  {
    hide FoundAttrs, Found;
    if nodes != [] {
      assert nodes == [nodes[0]] + nodes[1..];
      SettledConcat(lang, [nodes[0]], nodes[1..], manifest);
      NormalizedIsSettled(lang, nodes[1..], manifest);
      assert SettledNode(lang, nodes[0], manifest);
      if nodes[0].Element? {
        NormalizedIsSettled(lang, nodes[0].kids, manifest);
        OneIsSettled(lang, nodes[0], manifest);
        assert SettledNode(lang, NormalizeNode(nodes[0]), manifest);
      }
    }
  }

  /** On what the filter leaves of a parser's fragment, parsing undoes printing exactly when the tree is normal. */
  lemma ParseUndoesPrint(lang: Language, others: Others, order: Order, nodes: seq<Node>, manifest: set<string>)
    requires AsciiAsUsual(lang) && OrderOk(order) && Settled(lang, nodes, manifest) && LetterTags(nodes)
    ensures ParseFragment(lang, others, Serialize(order, nodes)) == Some(nodes) <==> Normal(nodes)
  {
    hide AsciiAsUsual, OrderOk, Settled, LetterTags, Readable, Normal, Normalize, ParseFragment, Serialize;
    SettledIsReadable(lang, nodes, manifest);
    ParseOfSerialize(lang, others, order, nodes);
    NormalizedIsNormal(nodes);
    if Normal(nodes) { NormalStays(nodes); }
  }

  // ----- the pipeline -----

  /**
   The checked pipeline over a parser's fragment always ends. Beyond the caps it degrades; within them it throws if and
   only if an element of an inherited name, outside every dropped element, has an attribute other than `name`;
   otherwise it renders the filtered tree if and only if that has no empty text, no two texts in a row and nothing below
   a void element, and degrades if it has.
   */
  lemma RendersExactlyWhen(lang: Language, others: Others, order: Order, nodes: seq<Node>, manifest: set<string>)
    requires AsciiAsUsual(lang) && OrderOk(order) && LetterTags(nodes)
    ensures var filtered := FilterTree(lang, nodes, manifest);
            SanitizeChecked(lang, others, order, nodes, manifest)
            == Some(if Count(nodes) > MAX_NODES || Depth(nodes) > MAX_DEPTH then Degraded
                    else if filtered.Raised? then Threw
                    else if Normal(filtered.nodes) then Rendered(filtered.nodes)
                    else Degraded)
    ensures FilterTree(lang, nodes, manifest).Raised? <==> exists n :: Offends(n) && Reaches(n, nodes)
  {
    hide AsciiAsUsual, OrderOk, FilterTree, Settled, LetterTags, Readable, Normal, Normalize, ParseFragment, Serialize,
         TreesEqual, Offends, Reaches;
    ThrowsExactlyWhen(lang, nodes, manifest);
    if FilterTree(lang, nodes, manifest).Passed? {
      var clean := FilterTree(lang, nodes, manifest).nodes;
      FilteredIsSettled(lang, nodes, manifest);
      FilteringKeepsLetters(lang, nodes, manifest);
      SettledIsReadable(lang, clean, manifest);
      ParseOfSerialize(lang, others, order, clean);
      NormalizedIsSettled(lang, clean, manifest);
      SettledStays(lang, Normalize(clean), manifest);
      TreesEqualIsEquality(clean, Normalize(clean));
      NormalizedIsNormal(clean);
      if Normal(clean) { NormalStays(clean); }
    }
  }

  /** A rendered tree holds only tags of the table if and only if no element of an inherited name survives. */
  lemma RendersTableTagsExactlyWhen(lang: Language, others: Others, order: Order, nodes: seq<Node>,
                                    manifest: set<string>, shown: seq<Node>)
    requires SanitizeChecked(lang, others, order, nodes, manifest) == Some(Rendered(shown))
    ensures OnlyTableTags(shown) <==> !exists n :: Foreign(n) && Survives(lang, n, nodes, manifest)
    ensures AsciiAsUsual(lang) ==> (shown == SanitizeTree(lang, nodes, manifest) <==> OnlyTableTags(shown))
  {
    hide FilterTree, SanitizeTree, OnlyTableTags, Foreign, Survives, AsciiAsUsual, TreesEqual, ParseFragment, Serialize;
    TableTagsExactlyWhen(lang, nodes, manifest);
    if AsciiAsUsual(lang) { FiltersAgreeExactlyWhen(lang, nodes, manifest); }
  }

  /** A body of one element, printed, is read back; with an attribute it stops the pipeline, without one it is shown. */
  lemma InheritedNameReachesReaders(lang: Language, others: Others, order: Order)
    requires AsciiAsUsual(lang) && OrderOk(order)
    ensures var titled := [Element("constructor", map["title" := "x"], [])];
            ParseFragment(lang, others, Serialize(order, titled)) == Some(titled)
            && SanitizeChecked(lang, others, order, titled, {}) == Some(Threw)
    ensures var bare := [Element("constructor", map[], [])];
            SanitizeChecked(lang, others, order, bare, {}) == Some(Rendered(bare)) && !OnlyTableTags(bare)
  {
    hide AsciiAsUsual, OrderOk, ParseFragment, Serialize, SanitizeChecked;
    var titled, bare := Element("constructor", map["title" := "x"], []), Element("constructor", map[], []);
    OneConstructor(lang, others, order, titled);
    OneConstructor(lang, others, order, bare);
    assert "title" in titled.attrs;
    assert [bare][0].tag == "constructor";
    InheritedName("constructor");
  }

  lemma OneConstructor(lang: Language, others: Others, order: Order, n: Node)
    requires AsciiAsUsual(lang) && OrderOk(order)
    requires n.Element? && n.tag == "constructor" && n.kids == [] && forall a :: a in n.attrs ==> SmallName(a)
    ensures ParseFragment(lang, others, Serialize(order, [n])) == Some([n])
    ensures SanitizeChecked(lang, others, order, [n], {})
            == Some(if LooksUp(n.attrs) then Threw else Rendered([n.(attrs := map[])]))
  {
    hide AsciiAsUsual, OrderOk, ParseFragment, Serialize, SanitizeChecked, FilterTree, Readable, Normalize, LetterTags,
         Normal, LooksUp;
    ConstructorShape(n);
    ConstructorShape(n.(attrs := map[]));
    NormalStays([n]);
    ParseOfSerialize(lang, others, order, [n]);
    ConstructorFilters(lang, n);
    RendersExactlyWhen(lang, others, order, [n], {});
  }

  lemma ConstructorShape(n: Node)
    requires n.Element? && n.tag == "constructor" && n.kids == [] && forall a :: a in n.attrs ==> SmallName(a)
    ensures Readable([n]) && Normal([n]) && LetterTags([n]) && Count([n]) == 1 && Depth([n]) == 2
  {
    hide SmallName;
    assert [n][0] == n && [n][1..] == [] && [n][..0] == [];
    assert n.tag !in VOID && SmallTag(n.tag) && !RawText(n.tag);
    assert Readable(n.kids) && Normal(n.kids) && LetterTags(n.kids);
    assert ReadableNode(n) && NormalNode(n);
    OneLetterTag(n);
  }

  lemma ConstructorFilters(lang: Language, n: Node)
    requires n.Element? && n.tag == "constructor" && n.kids == []
    ensures FilterTree(lang, [n], {}) == if LooksUp(n.attrs) then Raised else Passed([n.(attrs := map[])])
  {
    hide LooksUp, FilterAttrs, OwnAttrs;
    InheritedName("constructor");
    assert [n][..0] == [] && [n][0] == n;
  }
}
