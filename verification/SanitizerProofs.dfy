/** Sanitizing is idempotent, permits only what the tables permit, and never grows a tree. */
module SanitizerProofs {
  import opened Sanitizer
  import opened Strings
  import opened Wrappers

  // ----- how long parts are when joined -----

  /** The size of the parts with a separator after each. */
  function TotalSize(lang: Language, parts: seq<string>): nat
  {
    if parts == [] then 0 else TotalSize(lang, parts[..|parts| - 1]) + Size(lang.units, parts[|parts| - 1]) + 1
  }

  lemma {:induction false} JoinSize(lang: Language, parts: seq<string>, sep: char)
    requires AsciiAsUsual(lang) && parts != [] && sep < '\U{80}'
    ensures Size(lang.units, Join(parts, sep)) + 1 == TotalSize(lang, parts)
  {
    hide Size;
    if |parts| == 1 {
      assert TotalSize(lang, parts[..0]) == 0;
    } else {
      var front, last := parts[..|parts| - 1], parts[|parts| - 1];
      JoinSize(lang, front, sep);
      SizeConcat(lang.units, Join(front, sep) + [sep], last);
      SizeConcat(lang.units, Join(front, sep), [sep]);
      OneByte(lang, sep);
    }
  }

  lemma OneByte(lang: Language, c: char)
    requires AsciiAsUsual(lang) && c < '\U{80}'
    ensures Size(lang.units, [c]) == 1
  {
    assert [c][1..] == "";
  }

  lemma {:induction false} TotalSizeConcat(lang: Language, a: seq<string>, b: seq<string>)
    ensures TotalSize(lang, a + b) == TotalSize(lang, a) + TotalSize(lang, b)
  {
    if b == [] {
      assert a + b == a;
    } else {
      var front, last := b[..|b| - 1], b[|b| - 1];
      assert (a + b)[..|a + b| - 1] == a + front;
      TotalSizeConcat(lang, a, front);
    }
  }

  lemma OnePart(lang: Language, p: string)
    ensures TotalSize(lang, [p]) == Size(lang.units, p) + 1
  {
    assert [p][..0] == [];
  }

  lemma {:induction false} SplitSize(lang: Language, s: string, sep: char)
    requires AsciiAsUsual(lang) && sep < '\U{80}'
    ensures TotalSize(lang, Split(s, sep)) == Size(lang.units, s) + 1
  {
    if s == "" {
      OnePart(lang, "");
    } else {
      var rest := Split(s[1..], sep);
      SplitSize(lang, s[1..], sep);
      assert s == [s[0]] + s[1..];
      SizeConcat(lang.units, [s[0]], s[1..]);
      if s[0] == sep {
        TotalSizeConcat(lang, [""], rest);
        OnePart(lang, "");
        OneByte(lang, sep);
      } else {
        TotalSizeConcat(lang, [rest[0]], rest[1..]);
        assert rest == [rest[0]] + rest[1..];
        TotalSizeConcat(lang, [[s[0]] + rest[0]], rest[1..]);
        OnePart(lang, rest[0]);
        OnePart(lang, [s[0]] + rest[0]);
        SizeConcat(lang.units, [s[0]], rest[0]);
      }
    }
  }

  // ----- style -----

  /** Lower-case letters and hyphens only. */
  predicate Plain(s: string)
  {
    s != "" && forall i :: 0 <= i < |s| ==> 'a' <= s[i] <= 'z' || s[i] == '-'
  }

  lemma TextPropsArePlain(p: string)
    requires p in TEXT_PROPS
    ensures Plain(p)
  {
  }

  lemma SpacePropsArePlain(p: string)
    requires p in SPACE_PROPS
    ensures Plain(p)
  {
  }

  lemma BorderPropsArePlain(p: string)
    requires p in BORDER_PROPS
    ensures Plain(p)
  {
  }

  lemma LayoutPropsArePlain(p: string)
    requires p in LAYOUT_PROPS
    ensures Plain(p)
  {
  }

  lemma PropsArePlain(p: string)
    requires StyleProp(p)
    ensures Plain(p)
  {
    hide Plain;
    if p in TEXT_PROPS { TextPropsArePlain(p); }
    else if p in SPACE_PROPS { SpacePropsArePlain(p); }
    else if p in BORDER_PROPS { BorderPropsArePlain(p); }
    else { LayoutPropsArePlain(p); }
  }

  /** A declaration the filter would write. */
  ghost predicate Written(lang: Language, d: string)
  {
    exists prop, val :: DeclarationOk(lang, prop, val) && Trimmed(val, lang.space) && d == prop + ":" + val
  }

  lemma PlainFolds(lang: Language, s: string)
    requires AsciiAsUsual(lang) && Plain(s)
    ensures Fold(lang, s) == s && Trimmed(s, lang.space)
  {
  }

  /** A written declaration has no separator and filters to itself. */
  lemma WrittenStays(lang: Language, d: string)
    requires AsciiAsUsual(lang) && Written(lang, d)
    ensures FilterDeclaration(lang, d) == Some(d) && ';' !in d
  {
    hide Trim, Trimmed, AsciiAsUsual, Size;
    var prop, val :| DeclarationOk(lang, prop, val) && Trimmed(val, lang.space) && d == prop + ":" + val;
    PropsArePlain(prop);
    PlainFolds(lang, prop);
    TrimTrims(prop, lang.space);
    TrimTrims(val, lang.space);
    ColonAfter(prop, val);
    assert d[..|prop|] == prop && d[|prop| + 1..] == val;
    ValueHasNoSeparator(lang, val);
  }

  lemma ColonAfter(prop: string, val: string)
    requires Plain(prop)
    ensures IndexOf(prop + ":" + val, ':') == |prop|
  {
    var i := IndexOf(prop + ":" + val, ':');
    assert (prop + ":" + val)[|prop|] == ':';
    forall j | 0 <= j < |prop| ensures (prop + ":" + val)[j] != ':' { assert (prop + ":" + val)[j] == prop[j]; }
  }

  lemma ValueHasNoSeparator(lang: Language, val: string)
    requires AsciiAsUsual(lang) && StyleValue(lang, val)
    ensures ';' !in val
  {
  }

  /** What survives of a declaration is one the filter would write, and no longer than it was. */
  lemma FilteredIsWritten(lang: Language, decl: string)
    requires AsciiAsUsual(lang) && FilterDeclaration(lang, decl).Some?
    ensures Written(lang, FilterDeclaration(lang, decl).value)
    ensures Size(lang.units, FilterDeclaration(lang, decl).value) <= Size(lang.units, decl)
  {
    hide Size, Trim, Trimmed, Plain, AsciiAsUsual, StyleValue, StyleProp;
    var colon := IndexOf(decl, ':');
    var front, back := decl[..colon], decl[colon + 1..];
    var prop, val := Fold(lang, Trim(front, lang.space)), Trim(back, lang.space);
    TrimTrims(back, lang.space);
    TrimSize(lang.units, front, lang.space);
    TrimSize(lang.units, back, lang.space);
    PropsArePlain(prop);
    PlainSize(lang, prop);
    AtLeastItsLength(lang, Trim(front, lang.space));
    assert decl == front + ":" + back;
    SizeConcat(lang.units, front + ":", back);
    SizeConcat(lang.units, front, ":");
    SizeConcat(lang.units, prop + ":", val);
    SizeConcat(lang.units, prop, ":");
  }

  lemma {:induction false} AtLeastItsLength(lang: Language, s: string)
    requires AsciiAsUsual(lang)
    ensures Size(lang.units, s) >= |s|
  {
    if s != "" { AtLeastItsLength(lang, s[1..]); }
  }

  lemma {:induction false} PlainSize(lang: Language, s: string)
    requires AsciiAsUsual(lang) && Plain(s)
    ensures Size(lang.units, s) == |s|
  {
    if |s| > 1 { PlainSize(lang, s[1..]); } else { OneByte(lang, s[0]); assert s == [s[0]]; }
  }

  lemma {:induction false} SurvivorsAreWritten(lang: Language, decls: seq<string>)
    requires AsciiAsUsual(lang)
    ensures forall d :: d in Survivors(lang, decls) ==> Written(lang, d)
    ensures TotalSize(lang, Survivors(lang, decls)) <= TotalSize(lang, decls)
  {
    hide Size, FilterDeclaration, Written;
    if decls != [] {
      var front, last := decls[..|decls| - 1], decls[|decls| - 1];
      SurvivorsAreWritten(lang, front);
      var kept := FilterDeclaration(lang, last);
      if kept.None? {
        assert Survivors(lang, decls) == Survivors(lang, front);
      } else {
        FilteredIsWritten(lang, last);
        TotalSizeConcat(lang, Survivors(lang, front), [kept.value]);
        OnePart(lang, kept.value);
      }
    }
  }

  lemma {:induction false} WrittenSurvive(lang: Language, decls: seq<string>)
    requires AsciiAsUsual(lang) && forall d :: d in decls ==> Written(lang, d)
    ensures Survivors(lang, decls) == decls
  {
    hide FilterDeclaration, Written;
    if decls != [] {
      var front, last := decls[..|decls| - 1], decls[|decls| - 1];
      assert decls == front + [last];
      WrittenSurvive(lang, front);
      WrittenStays(lang, last);
    }
  }

  /** The style filter is idempotent, length cap included. */
  lemma StyleIsIdempotent(lang: Language, value: string)
    requires AsciiAsUsual(lang) && FilterStyle(lang, value).Some?
    ensures FilterStyle(lang, FilterStyle(lang, value).value) == FilterStyle(lang, value)
  {
    hide Size, Survivors, Split, Join, Written;
    var decls := Split(value, ';');
    var out := Survivors(lang, decls);
    SurvivorsAreWritten(lang, decls);
    forall d | d in out ensures ';' !in d { WrittenStays(lang, d); }
    SplitJoin(out, ';');
    WrittenSurvive(lang, out);
    JoinSize(lang, out, ';');
    SplitSize(lang, value, ';');
  }

  // ----- attributes -----

  lemma AttrIsIdempotent(lang: Language, tag: string, name: string, value: string, manifest: set<string>)
    requires AsciiAsUsual(lang) && IsPermitted(tag) && FilterAttr(lang, tag, name, value, manifest).Some?
    ensures var v := FilterAttr(lang, tag, name, value, manifest).value;
            FilterAttr(lang, tag, name, v, manifest) == Some(v)
  {
    hide OwnAttrs, FilterStyle, HrefAllowed, Identifier, All;
    if name == "style" { StyleIsIdempotent(lang, value); }
  }

  lemma KeptIsIdempotent(lang: Language, tag: string, attrs: map<string, string>, manifest: set<string>)
    requires AsciiAsUsual(lang) && IsPermitted(tag)
    ensures Kept(lang, tag, Kept(lang, tag, attrs, manifest), manifest) == Kept(lang, tag, attrs, manifest)
  {
    hide OwnAttrs, FilterAttr;
    var out := Kept(lang, tag, attrs, manifest);
    forall name | name in out ensures FilterAttr(lang, tag, name, out[name], manifest) == Some(out[name])
    {
      AttrIsIdempotent(lang, tag, name, attrs[name], manifest);
    }
  }

  lemma AttrsAreIdempotent(lang: Language, tag: string, attrs: map<string, string>, manifest: set<string>)
    requires AsciiAsUsual(lang) && IsPermitted(tag) && FilterAttrs(lang, tag, attrs, manifest).Some?
    ensures var out := FilterAttrs(lang, tag, attrs, manifest).value;
            FilterAttrs(lang, tag, out, manifest) == Some(out)
  {
    hide OwnAttrs, FilterAttr, Kept;
    KeptIsIdempotent(lang, tag, attrs, manifest);
    var kept := Kept(lang, tag, attrs, manifest);
    if tag == "img" && "alt" !in kept { AltIsKept(lang, kept, manifest); }
  }

  lemma ImgAttrs()
    ensures OwnAttrs("img") == Some(["src", "alt", "width", "height"])
  {
  }

  lemma AltIsKept(lang: Language, kept: map<string, string>, manifest: set<string>)
    requires IsPermitted("img") && Kept(lang, "img", kept, manifest) == kept
    ensures IsPermitted("img") && Kept(lang, "img", kept["alt" := ""], manifest) == kept["alt" := ""]
  {
    hide OwnAttrs, FilterStyle, HrefAllowed, Identifier, All;
    ImgAttrs();
    var extended := kept["alt" := ""];
    assert FilterAttr(lang, "img", "alt", "", manifest) == Some("");
    forall name | name in extended
      ensures FilterAttr(lang, "img", name, extended[name], manifest) == Some(extended[name])
    {
      if name != "alt" {
        assert name in Kept(lang, "img", kept, manifest);
      }
    }
  }

  // ----- trees -----

  /** Nothing is left for the filter to do. */
  ghost predicate CleanNode(lang: Language, n: Node, manifest: set<string>)
    decreases n
  {
    match n
    case Comment(_) => false
    case Text(_) => true
    case Element(tag, attrs, kids) =>
      tag !in DROPPED && IsPermitted(tag) && FilterAttrs(lang, tag, attrs, manifest) == Some(attrs)
      && Clean(lang, kids, manifest)
  }

  ghost predicate Clean(lang: Language, nodes: seq<Node>, manifest: set<string>)
    decreases nodes
  {
    forall i :: 0 <= i < |nodes| ==> CleanNode(lang, nodes[i], manifest)
  }

  lemma CleanConcat(lang: Language, a: seq<Node>, b: seq<Node>, manifest: set<string>)
    ensures Clean(lang, a + b, manifest) <==> Clean(lang, a, manifest) && Clean(lang, b, manifest)
  {
    hide CleanNode;
    if Clean(lang, a + b, manifest) {
      assert forall i :: 0 <= i < |a| ==> (a + b)[i] == a[i];
      forall i | 0 <= i < |b| ensures CleanNode(lang, b[i], manifest) { assert (a + b)[|a| + i] == b[i]; }
    }
  }

  lemma {:induction false} SanitizedIsClean(lang: Language, nodes: seq<Node>, manifest: set<string>)
    requires AsciiAsUsual(lang)
    ensures Clean(lang, SanitizeTree(lang, nodes, manifest), manifest)
    decreases nodes
  {
    hide Clean, AsciiAsUsual;
    if nodes == [] {
      NothingIsClean(lang, manifest);
    } else {
      SanitizedIsClean(lang, nodes[..|nodes| - 1], manifest);
      SanitizedNodeIsClean(lang, nodes[|nodes| - 1], manifest);
      CleanConcat(lang, SanitizeTree(lang, nodes[..|nodes| - 1], manifest),
                  SanitizeNode(lang, nodes[|nodes| - 1], manifest), manifest);
    }
  }

  lemma NothingIsClean(lang: Language, manifest: set<string>)
    ensures Clean(lang, [], manifest)
  {
  }

  lemma OneIsClean(lang: Language, n: Node, manifest: set<string>)
    ensures Clean(lang, [n], manifest) <==> CleanNode(lang, n, manifest)
  {
    assert [n][0] == n;
  }

  lemma {:induction false} SanitizedNodeIsClean(lang: Language, n: Node, manifest: set<string>)
    requires AsciiAsUsual(lang)
    ensures Clean(lang, SanitizeNode(lang, n, manifest), manifest)
    decreases n
  {
    hide OwnAttrs, Clean, FilterAttrs, AsciiAsUsual;
    NothingIsClean(lang, manifest);
    match n
    case Comment(_) =>
    case Text(_) => OneIsClean(lang, n, manifest);
    case Element(tag, attrs, kids) =>
      SanitizedIsClean(lang, kids, manifest);
      if tag !in DROPPED && IsPermitted(tag) {
        var kept := FilterAttrs(lang, tag, attrs, manifest);
        if kept.Some? {
          AttrsAreIdempotent(lang, tag, attrs, manifest);
          OneIsClean(lang, Element(tag, kept.value, SanitizeTree(lang, kids, manifest)), manifest);
        }
      }
  }

  /** A clean tree is left alone. */
  lemma {:induction false} CleanStays(lang: Language, nodes: seq<Node>, manifest: set<string>)
    requires Clean(lang, nodes, manifest)
    ensures SanitizeTree(lang, nodes, manifest) == nodes
    decreases nodes
  {
    hide OwnAttrs, FilterAttrs;
    if nodes != [] {
      var front, last := nodes[..|nodes| - 1], nodes[|nodes| - 1];
      assert nodes == front + [last];
      CleanConcat(lang, front, [last], manifest);
      CleanStays(lang, front, manifest);
      assert CleanNode(lang, last, manifest);
      if last.Element? { CleanStays(lang, last.kids, manifest); }
    }
  }

  /** Sanitizing twice is sanitizing once, for every tree and manifest. */
  lemma SanitizingIsIdempotent(lang: Language, nodes: seq<Node>, manifest: set<string>)
    requires AsciiAsUsual(lang)
    ensures SanitizeTree(lang, SanitizeTree(lang, nodes, manifest), manifest) == SanitizeTree(lang, nodes, manifest)
  {
    hide Clean, SanitizeTree, AsciiAsUsual;
    SanitizedIsClean(lang, nodes, manifest);
    CleanStays(lang, SanitizeTree(lang, nodes, manifest), manifest);
  }

  const GLOBAL_ATTRS: set<string> := {"title", "dir", "lang", "class", "id", "style"}

  /** What a clean element may be: permitted, with permitted attributes, and embedding only what the manifest lists. */
  ghost predicate Permitted(n: Node, manifest: set<string>)
  {
    n.Element? ==>
      && IsPermitted(n.tag) && n.tag !in DROPPED
      && (forall a :: a in n.attrs ==> a in GLOBAL_ATTRS || a in OwnAttrs(n.tag).value)
      && "name" !in n.attrs
      && (n.tag in EMBEDS ==> "src" in n.attrs)
      && (forall a :: a in {"src", "poster"} && a in n.attrs ==> "urn:mlet:" <= n.attrs[a] && n.attrs[a] in manifest)
  }

  lemma CleanIsPermitted(lang: Language, n: Node, manifest: set<string>)
    requires CleanNode(lang, n, manifest)
    ensures Permitted(n, manifest)
  {
    hide OwnAttrs, FilterStyle, HrefAllowed, Identifier, All, Clean;
    if n.Element? {
      ImgAttrs();
      var kept := Kept(lang, n.tag, n.attrs, manifest);
      forall a | a in n.attrs
        ensures a in kept || (n.tag == "img" && a == "alt")
      {
      }
    }
  }

  // ----- size -----

  lemma {:induction false} CountConcat(a: seq<Node>, b: seq<Node>)
    ensures Count(a + b) == Count(a) + Count(b) && Depth(a + b) == Max(Depth(a), Depth(b))
  {
    if b == [] {
      assert a + b == a;
    } else {
      var front, last := b[..|b| - 1], b[|b| - 1];
      assert (a + b)[..|a + b| - 1] == a + front;
      CountConcat(a, front);
    }
  }

  lemma OneNode(n: Node)
    ensures Count([n]) == CountNode(n) && Depth([n]) == Max(1, DepthNode(n))
  {
    assert [n][..0] == [];
  }

  /** Sanitizing never adds a node nor a level. */
  lemma {:induction false} SanitizingShrinks(lang: Language, nodes: seq<Node>, manifest: set<string>)
    ensures Count(SanitizeTree(lang, nodes, manifest)) <= Count(nodes)
    ensures Depth(SanitizeTree(lang, nodes, manifest)) <= Depth(nodes)
    decreases nodes
  {
    hide OwnAttrs, FilterAttrs;
    if nodes != [] {
      var front, last := nodes[..|nodes| - 1], nodes[|nodes| - 1];
      SanitizingShrinks(lang, front, manifest);
      SanitizingNodeShrinks(lang, last, manifest);
      CountConcat(SanitizeTree(lang, front, manifest), SanitizeNode(lang, last, manifest));
    }
  }

  lemma {:induction false} SanitizingNodeShrinks(lang: Language, n: Node, manifest: set<string>)
    ensures Count(SanitizeNode(lang, n, manifest)) <= CountNode(n)
    ensures Depth(SanitizeNode(lang, n, manifest)) <= Max(1, DepthNode(n))
    decreases n
  {
    hide OwnAttrs, FilterAttrs;
    if n.Element? {
      SanitizingShrinks(lang, n.kids, manifest);
      var inner := SanitizeTree(lang, n.kids, manifest);
      if n.tag !in DROPPED && IsPermitted(n.tag) && FilterAttrs(lang, n.tag, n.attrs, manifest).Some? {
        OneNode(Element(n.tag, FilterAttrs(lang, n.tag, n.attrs, manifest).value, inner));
      }
    } else if n.Text? {
      OneNode(n);
    }
  }

  // ----- the server's comparison -----

  /** TreesEqual as the server computes it: a missing attribute reads as the empty string. */
  predicate ServerEqual(a: seq<Node>, b: seq<Node>)
    decreases a
  {
    |a| == |b| && (a == [] || (ServerNodeEqual(a[0], b[0]) && ServerEqual(a[1..], b[1..])))
  }

  predicate ServerNodeEqual(x: Node, y: Node)
    decreases x
  {
    match x
    case Text(_) => y == x
    case Comment(_) => y == x
    case Element(tag, attrs, kids) =>
      y.Element? && tag == y.tag && |attrs| == |y.attrs|
      && (forall k :: k in attrs ==> attrs[k] == if k in y.attrs then y.attrs[k] else "")
      && ServerEqual(kids, y.kids)
  }

  /** No attribute anywhere has an empty value. */
  ghost predicate NoEmptyAttr(nodes: seq<Node>)
    decreases nodes
  {
    nodes == [] || (NoEmptyAttrIn(nodes[0]) && NoEmptyAttr(nodes[1..]))
  }

  ghost predicate NoEmptyAttrIn(n: Node)
    decreases n
  {
    n.Element? ==> (forall k :: k in n.attrs ==> n.attrs[k] != "") && NoEmptyAttr(n.kids)
  }

  lemma {:induction false} SubsetSize(a: set<string>, b: set<string>)
    requires a <= b
    ensures |a| <= |b| && (|a| == |b| ==> a == b)
  {
    if a != {} {
      var x :| x in a;
      SubsetSize(a - {x}, b - {x});
    } else if |b| == 0 {
      assert b == {};
    }
  }

  lemma {:induction false} ServerEqualIsExact(a: seq<Node>, b: seq<Node>)
    requires NoEmptyAttr(a) && ServerEqual(a, b)
    ensures a == b
    decreases a
  {
    if a != [] {
      ServerEqualIsExact(a[1..], b[1..]);
      assert a == [a[0]] + a[1..] && b == [b[0]] + b[1..];
      var x, y := a[0], b[0];
      if x.Element? {
        ServerEqualIsExact(x.kids, y.kids);
        SubsetSize(x.attrs.Keys, y.attrs.Keys);
        assert x.attrs == y.attrs;
      }
    }
  }

  function As(n: nat): string
    ensures |As(n)| == n
  {
    if n == 0 then "" else "a" + As(n - 1)
  }

  lemma {:induction false} UnusedName(keys: set<string>, from: nat) returns (n: nat)
    ensures n >= from && As(n) !in keys
    decreases |keys|
  {
    if As(from) !in keys { return from; }
    n := UnusedName(keys - {As(from)}, from + 1);
  }

  /** A tree with an empty attribute is told apart from itself with that attribute under another name by nothing. */
  lemma {:induction false} ConfusableTree(a: seq<Node>) returns (b: seq<Node>)
    requires !NoEmptyAttr(a)
    ensures ServerEqual(a, b) && a != b
    decreases a
  {
    if !NoEmptyAttrIn(a[0]) {
      var y := ConfusableNode(a[0]);
      b := [y] + a[1..];
      ServerEqualReflexive(a[1..]);
    } else {
      var rest := ConfusableTree(a[1..]);
      b := [a[0]] + rest;
      assert b[1..] == rest;
      ServerNodeReflexive(a[0]);
    }
  }

  lemma {:induction false} ConfusableNode(x: Node) returns (y: Node)
    requires !NoEmptyAttrIn(x)
    ensures ServerNodeEqual(x, y) && x != y
    decreases x
  {
    if k :| k in x.attrs && x.attrs[k] == "" {
      var n := UnusedName(x.attrs.Keys, 0);
      var others := map j | j in x.attrs && j != k :: x.attrs[j];
      assert x.attrs.Keys == others.Keys + {k};
      var renamed := others[As(n) := "x"];
      assert renamed.Keys == others.Keys + {As(n)};
      y := x.(attrs := renamed);
      ServerEqualReflexive(x.kids);
      assert k !in renamed;
    } else {
      var kids := ConfusableTree(x.kids);
      y := x.(kids := kids);
    }
  }

  lemma {:induction false} ServerEqualReflexive(a: seq<Node>)
    ensures ServerEqual(a, a)
    decreases a
  {
    if a != [] {
      ServerNodeReflexive(a[0]);
      ServerEqualReflexive(a[1..]);
    }
  }

  lemma {:induction false} ServerNodeReflexive(x: Node)
    ensures ServerNodeEqual(x, x)
    decreases x
  {
    if x.Element? { ServerEqualReflexive(x.kids); }
  }

  predicate Mistaken(a: seq<Node>, b: seq<Node>)
  {
    ServerEqual(a, b) && a != b
  }

  /** The server's comparison takes some other tree for a if and only if a has an empty attribute value. */
  lemma ServerComparisonIsExactWhen(a: seq<Node>)
    ensures (exists b :: Mistaken(a, b)) <==> !NoEmptyAttr(a)
  {
    hide NoEmptyAttr, ServerNodeEqual;
    if NoEmptyAttr(a) {
      forall b ensures !Mistaken(a, b) { if ServerEqual(a, b) { ServerEqualIsExact(a, b); } }
    } else {
      var b := ConfusableTree(a);
      assert Mistaken(a, b);
    }
  }

  /** An image without a title passes for one without its alternative text. */
  lemma ServerComparisonFails()
    ensures var a := [Element("img", map["alt" := ""], [])];
            var b := [Element("img", map["title" := "t"], [])];
            ServerEqual(a, b) && a != b
  {
    var a, b := Element("img", map["alt" := ""], []), Element("img", map["title" := "t"], []);
    assert "alt" in a.attrs && "alt" !in b.attrs;
  }
}
