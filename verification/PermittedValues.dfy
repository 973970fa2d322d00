/**
 What the filter's output may hold, value by value, and what passes it unchanged (server/render/sanitize.go:64-77 and
 195-302, client/lib/sanitizer.js:195-234): the attributes of every element, spelled out.
 */
module PermittedValues {
  import opened Sanitizer
  import opened SanitizerProofs
  import opened ClientFilter
  import opened ClientProofs
  import opened Strings
  import opened Wrappers

  // ----- the shapes -----

  /** A prefix in any case. */
  predicate HasPrefix(lang: Language, s: string, prefix: string)
  {
    |s| >= |prefix| && forall i :: 0 <= i < |prefix| ==> lang.folded(s[i]) == prefix[i]
  }

  /** A letter, then letters, digits, underscores and hyphens. */
  predicate Name(s: string)
  {
    s != "" && (forall i :: 0 <= i < |s| ==> Letter(s[i]) || Digit(s[i]) || s[i] == '_' || s[i] == '-') && Letter(s[0])
  }

  predicate Listed(s: string, manifest: set<string>)
  {
    "urn:mlet:" <= s && s in manifest
  }

  predicate Link(lang: Language, s: string, manifest: set<string>)
  {
    || HasPrefix(lang, s, "https://") || HasPrefix(lang, s, "mailto:") || Listed(s, manifest)
    || (!("urn:mlet:" <= s) && "#" <= s && Name(s[1..]))
  }

  predicate Digits(s: string)
  {
    1 <= |s| <= 6 && forall i :: 0 <= i < |s| ==> '0' <= s[i] <= '9'
  }

  predicate Lang(s: string)
  {
    1 <= |s| <= 35 && forall i :: 0 <= i < |s| ==> Letter(s[i]) || Digit(s[i]) || s[i] == '-'
  }

  predicate Classes(lang: Language, s: string)
  {
    1 <= |s| <= 256
    && forall i :: 0 <= i < |s| ==> Letter(s[i]) || Digit(s[i]) || s[i] == '_' || s[i] == '-' || lang.blank(s[i])
  }

  /** The value of a declaration: no functions, quotes, slashes or exclamation marks. */
  predicate Plainly(lang: Language, s: string)
  {
    s != ""
    && forall i :: 0 <= i < |s| ==>
         Letter(s[i]) || Digit(s[i]) || s[i] in {'#', '%', '.', ',', '-'} || lang.blank(s[i])
  }

  /** One declaration of a permitted property. */
  predicate Declares(lang: Language, prop: string, val: string)
  {
    && (prop in TEXT_PROPS || prop in SPACE_PROPS || prop in BORDER_PROPS || prop in LAYOUT_PROPS)
    && Plainly(lang, val) && Trimmed(val, lang.space)
    && (prop == "display" ==> val in {"block", "inline", "inline-block", "flex"})
  }

  ghost predicate Declaration(lang: Language, d: string)
  {
    exists prop, val :: Declares(lang, prop, val) && d == prop + ":" + val
  }

  /** Declarations with semicolons between them, no longer than the cap. */
  ghost predicate Style(lang: Language, s: string)
  {
    && Size(lang.units, s) <= 2048
    && exists decls: seq<string> :: decls != [] && s == Join(decls, ';') && AllDeclare(lang, decls)
  }

  ghost predicate AllDeclare(lang: Language, decls: seq<string>)
  {
    forall i :: 0 <= i < |decls| ==> Declaration(lang, decls[i])
  }

  /** What an attribute of this name may be on any element. */
  ghost predicate GlobalValue(lang: Language, name: string, value: string)
  {
    || (name == "title" && value != "")
    || (name == "dir" && value in {"ltr", "rtl", "auto"})
    || (name == "lang" && Lang(value))
    || (name == "class" && Classes(lang, value))
    || (name == "id" && Name(value))
    || (name == "style" && Style(lang, value))
  }

  /** What an attribute of this name may be on the elements that have it. */
  predicate OwnValue(lang: Language, name: string, value: string, manifest: set<string>)
  {
    || (name == "href" && Link(lang, value, manifest))
    || ((name == "src" || name == "poster") && Listed(value, manifest))
    || (name in {"width", "height", "colspan", "rowspan", "start"} && Digits(value))
    || name in {"alt", "type", "scope", "datetime"}
  }

  /** The elements that have attributes of their own, and which. */
  predicate Owns(tag: string, name: string)
  {
    || (tag == "a" && name == "href")
    || (tag == "img" && name in {"src", "alt", "width", "height"})
    || (tag == "video" && name in {"src", "poster", "width", "height"})
    || (tag == "audio" && name == "src")
    || (tag == "source" && name in {"src", "type"})
    || (tag == "ol" && name == "start")
    || (tag == "time" && name == "datetime")
    || (tag == "th" && name in {"colspan", "rowspan", "scope"})
    || (tag == "td" && name in {"colspan", "rowspan"})
  }

  ghost predicate Permissible(lang: Language, tag: string, name: string, value: string, manifest: set<string>)
  {
    GlobalValue(lang, name, value) || (Owns(tag, name) && OwnValue(lang, name, value, manifest))
  }

  // ----- styles -----

  lemma DeclaresIs(lang: Language, prop: string, val: string)
    ensures Declares(lang, prop, val) <==> DeclarationOk(lang, prop, val) && Trimmed(val, lang.space)
  {
    hide Trimmed;
  }

  lemma DeclarationIs(lang: Language, d: string)
    ensures Declaration(lang, d) <==> Written(lang, d)
  {
    hide Declares, DeclarationOk, Trimmed;
    if prop, val :| Declares(lang, prop, val) && d == prop + ":" + val { DeclaresIs(lang, prop, val); }
    if prop, val :| DeclarationOk(lang, prop, val) && Trimmed(val, lang.space) && d == prop + ":" + val {
      DeclaresIs(lang, prop, val);
    }
  }

  /** A style survives unchanged exactly when it is declarations within the cap. */
  lemma StyleIs(lang: Language, s: string)
    requires AsciiAsUsual(lang)
    ensures FilterStyle(lang, s) == Some(s) <==> Style(lang, s)
  {
    hide Size, Survivors, Split, Join, Declaration, Written, AsciiAsUsual;
    if FilterStyle(lang, s) == Some(s) {
      var decls := Survivors(lang, Split(s, ';'));
      SurvivorsAreWritten(lang, Split(s, ';'));
      forall i | 0 <= i < |decls| ensures Declaration(lang, decls[i])
      {
        assert decls[i] in decls;
        DeclarationIs(lang, decls[i]);
      }
    }
    if Style(lang, s) {
      var decls: seq<string> :| decls != [] && s == Join(decls, ';') && AllDeclare(lang, decls);
      forall d | d in decls ensures Written(lang, d) && ';' !in d
      {
        DeclarationIs(lang, d);
        WrittenStays(lang, d);
      }
      SplitJoin(decls, ';');
      WrittenSurvive(lang, decls);
    }
  }

  // ----- elements -----

  /** The elements of the table. */
  predicate Tabled(tag: string)
  {
    || tag in {"p", "br", "hr", "h1", "h2", "h3", "h4", "h5", "h6", "blockquote", "pre", "code", "div"}
    || tag in {"ul", "ol", "li", "dl", "dt", "dd"}
    || tag in {"em", "strong", "b", "i", "u", "s", "sub", "sup", "mark", "small", "q", "abbr", "dfn", "kbd", "samp"}
    || tag in {"var", "del", "ins", "wbr", "span", "time"}
    || tag in {"table", "caption", "thead", "tbody", "tfoot", "tr", "th", "td"}
    || tag in {"a", "img", "video", "audio", "source", "figure", "figcaption"}
  }

  lemma BlocksAre(tag: string)
    ensures tag in BLOCK_TAGS
            <==> tag in {"p", "br", "hr", "h1", "h2", "h3", "h4", "h5", "h6", "blockquote", "pre", "code", "div"}
                 || tag == "figure" || tag == "figcaption"
  {
  }

  lemma ListsAre(tag: string)
    ensures tag in LIST_TAGS
            <==> tag in {"ul", "ol", "li", "dl", "dt", "dd"}
                 || tag in {"table", "caption", "thead", "tbody", "tfoot", "tr", "th", "td"}
  {
  }

  lemma InlinesAre(tag: string)
    ensures tag in INLINE_TAGS
            <==> tag in {"em", "strong", "b", "i", "u", "s", "sub", "sup", "mark", "small", "q", "abbr", "dfn", "kbd",
                         "samp"}
  {
  }

  lemma OthersAre(tag: string)
    ensures tag in OTHER_TAGS
            <==> tag in {"var", "del", "ins", "wbr", "span", "time"}
                 || tag in {"a", "img", "video", "audio", "source"}
  {
  }

  /** An element is permitted exactly when the table has it. */
  lemma PermittedExactlyWhen(tag: string)
    ensures IsPermitted(tag) <==> Tabled(tag)
  {
    hide BLOCK_TAGS, LIST_TAGS, INLINE_TAGS, OTHER_TAGS;
    BlocksAre(tag);
    ListsAre(tag);
    InlinesAre(tag);
    OthersAre(tag);
  }

  // ----- attributes -----

  /** The tags that own attributes, by the table they are in. */
  lemma BlockOwns(tag: string)
    requires tag in BLOCK_TAGS
    ensures BLOCK_TAGS[tag] == []
  {
  }

  lemma NotBlock(tag: string)
    requires tag in {"ol", "th", "td"} || tag in {"time", "a", "img", "video", "audio", "source"}
    ensures tag !in BLOCK_TAGS
  {
  }

  lemma InlineOwns(tag: string)
    requires tag in INLINE_TAGS
    ensures INLINE_TAGS[tag] == []
  {
  }

  lemma NotInline(tag: string)
    requires tag in {"ol", "th", "td"} || tag in {"time", "a", "img", "video", "audio", "source"}
    ensures tag !in INLINE_TAGS
  {
  }

  lemma ListOwns(tag: string)
    requires tag in LIST_TAGS
    ensures LIST_TAGS[tag]
            == if tag == "ol" then ["start"] else if tag == "th" then ["colspan", "rowspan", "scope"]
               else if tag == "td" then ["colspan", "rowspan"] else []
    ensures tag !in {"time", "a", "img", "video", "audio", "source"}
  {
  }

  lemma OtherOwns(tag: string)
    requires tag in OTHER_TAGS
    ensures OTHER_TAGS[tag]
            == if tag == "time" then ["datetime"] else if tag == "a" then ["href"]
               else if tag == "img" then ["src", "alt", "width", "height"]
               else if tag == "video" then ["src", "poster", "width", "height"]
               else if tag == "audio" then ["src"] else if tag == "source" then ["src", "type"] else []
    ensures tag !in {"ol", "th", "td"}
  {
  }

  lemma OwnsIs(tag: string, name: string)
    requires IsPermitted(tag)
    ensures name in OwnAttrs(tag).value <==> Owns(tag, name)
  {
    hide Owns;
    if tag in {"ol", "th", "td"} || tag in {"time", "a", "img", "video", "audio", "source"} {
      NotBlock(tag);
      NotInline(tag);
    }
    if tag in BLOCK_TAGS { BlockOwns(tag); NotOwning(tag, name); }
    else if tag in LIST_TAGS { ListOwns(tag); ListOwning(tag, name); }
    else if tag in INLINE_TAGS { InlineOwns(tag); NotOwning(tag, name); }
    else { OtherOwns(tag); OtherOwning(tag, name); }
  }

  lemma NotOwning(tag: string, name: string)
    requires tag !in {"ol", "th", "td"} && tag !in {"time", "a", "img", "video", "audio", "source"}
    ensures !Owns(tag, name)
  {
  }

  lemma ListOwning(tag: string, name: string)
    requires tag !in {"time", "a", "img", "video", "audio", "source"}
    ensures Owns(tag, name)
            <==> (tag == "ol" && name == "start") || (tag == "th" && name in {"colspan", "rowspan", "scope"})
                 || (tag == "td" && name in {"colspan", "rowspan"})
  {
  }

  lemma OtherOwning(tag: string, name: string)
    requires tag !in {"ol", "th", "td"}
    ensures Owns(tag, name)
            <==> (tag == "time" && name == "datetime") || (tag == "a" && name == "href")
                 || (tag == "img" && name in {"src", "alt", "width", "height"})
                 || (tag == "video" && name in {"src", "poster", "width", "height"})
                 || (tag == "audio" && name == "src") || (tag == "source" && name in {"src", "type"})
  {
  }

  lemma NameIs(s: string)
    ensures Identifier(s) <==> Name(s)
  {
  }

  lemma LinkIs(lang: Language, s: string, manifest: set<string>)
    requires AsciiAsUsual(lang)
    ensures HrefAllowed(lang, s, manifest) <==> Link(lang, s, manifest)
  {
    hide Identifier, Name;
    if "#" <= s { NameIs(s[1..]); }
  }

  /** Apart from style, an attribute survives, unchanged, exactly when its value is permissible. */
  lemma AttrIs(lang: Language, tag: string, name: string, value: string, manifest: set<string>)
    requires AsciiAsUsual(lang) && IsPermitted(tag) && name != "style"
    ensures FilterAttr(lang, tag, name, value, manifest)
            == if Permissible(lang, tag, name, value, manifest) then Some(value) else None
  {
    hide OwnAttrs, FilterStyle, HrefAllowed, Identifier, Link, Name, Owns, Style;
    OwnsIs(tag, name);
    LinkIs(lang, value, manifest);
    NameIs(value);
    OwnsNoGlobal(tag, name);
  }

  lemma OwnsNoGlobal(tag: string, name: string)
    ensures name in {"name", "title", "dir", "lang", "class", "id", "style"} ==> !Owns(tag, name)
    ensures Owns(tag, name) ==>
              name in {"href", "src", "poster", "alt", "type", "scope", "datetime"}
              || name in {"width", "height", "colspan", "rowspan", "start"}
  {
  }

  lemma StyleAttrIs(lang: Language, tag: string, value: string, manifest: set<string>)
    requires AsciiAsUsual(lang) && IsPermitted(tag)
    ensures var r := FilterAttr(lang, tag, "style", value, manifest);
            && (r == Some(value) <==> Style(lang, value))
            && (r.Some? ==> Style(lang, r.value))
  {
    hide FilterStyle, Style, OwnAttrs;
    StyleIs(lang, value);
    if FilterStyle(lang, value).Some? {
      StyleIsIdempotent(lang, value);
      StyleIs(lang, FilterStyle(lang, value).value);
    }
  }

  /** What becomes of the attributes of a permitted element that stays. */
  ghost predicate Filtered(lang: Language, tag: string, attrs: map<string, string>, manifest: set<string>,
                           out: map<string, string>)
  {
    && (forall a :: a in attrs && Permissible(lang, tag, a, attrs[a], manifest) ==> a in out && out[a] == attrs[a])
    && (forall a :: a in out ==> Permissible(lang, tag, a, out[a], manifest))
    && (forall a :: a in out && a !in attrs ==> tag == "img" && a == "alt" && out[a] == "")
    && (forall a :: a in out && a in attrs && out[a] != attrs[a] ==> a == "style")
    && (tag == "img" ==> "alt" in out)
  }

  /** An embed whose source the manifest does not list. */
  predicate Unlisted(tag: string, attrs: map<string, string>, manifest: set<string>)
  {
    tag in {"img", "video", "audio", "source"} && !("src" in attrs && Listed(attrs["src"], manifest))
  }

  /**
   A permitted element is removed exactly when it embeds what the manifest does not list; otherwise its permissible
   attributes stay unchanged, every other one goes, but for the permissible part of a style, and an image has a text.
   */
  lemma AttrsAre(lang: Language, tag: string, attrs: map<string, string>, manifest: set<string>)
    requires AsciiAsUsual(lang) && IsPermitted(tag)
    ensures FilterAttrs(lang, tag, attrs, manifest).None? <==> Unlisted(tag, attrs, manifest)
    ensures FilterAttrs(lang, tag, attrs, manifest).Some? ==>
              Filtered(lang, tag, attrs, manifest, FilterAttrs(lang, tag, attrs, manifest).value)
  {
    hide OwnAttrs, FilterAttr, Permissible;
    var kept := Kept(lang, tag, attrs, manifest);
    if tag in EMBEDS && "src" in attrs { SourceIs(lang, tag, attrs, manifest); }
    forall a | a in attrs
      ensures Permissible(lang, tag, a, attrs[a], manifest) ==> a in kept && kept[a] == attrs[a]
      ensures a in kept ==> Permissible(lang, tag, a, kept[a], manifest) && (a != "style" ==> kept[a] == attrs[a])
    {
      if a == "style" {
        StyleAttrIs(lang, tag, attrs[a], manifest);
        StylePermissible(lang, tag, attrs[a], manifest);
        if a in kept { StylePermissible(lang, tag, kept[a], manifest); }
      } else {
        AttrIs(lang, tag, a, attrs[a], manifest);
      }
    }
    if tag == "img" {
      AltPermissible(lang, "", manifest);
      if "alt" in attrs { AltPermissible(lang, attrs["alt"], manifest); }
    }
  }

  lemma StylePermissible(lang: Language, tag: string, value: string, manifest: set<string>)
    ensures Permissible(lang, tag, "style", value, manifest) <==> Style(lang, value)
  {
    hide Style;
    OwnsNoGlobal(tag, "style");
  }

  lemma AltPermissible(lang: Language, value: string, manifest: set<string>)
    ensures Permissible(lang, "img", "alt", value, manifest)
  {
  }

  lemma SourceIs(lang: Language, tag: string, attrs: map<string, string>, manifest: set<string>)
    requires AsciiAsUsual(lang) && IsPermitted(tag) && tag in {"img", "video", "audio", "source"} && "src" in attrs
    ensures FilterAttr(lang, tag, "src", attrs["src"], manifest).Some? <==> Listed(attrs["src"], manifest)
  {
    hide OwnAttrs, FilterAttr, Style;
    AttrIs(lang, tag, "src", attrs["src"], manifest);
  }

  // ----- what is left of a style -----

  /** The colon of a declaration, its property in lower case and its value, both without the white space around them. */
  ghost predicate Reads(lang: Language, decl: string, prop: string, val: string)
  {
    exists i ::
      && 0 <= i < |decl| && decl[i] == ':' && ':' !in decl[..i]
      && prop == Fold(lang, Trim(decl[..i], lang.space)) && val == Trim(decl[i + 1..], lang.space)
  }

  lemma OneSurvivor(lang: Language, decl: string)
    ensures var d := FilterDeclaration(lang, decl); Survivors(lang, [decl]) == if d.Some? then [d.value] else []
  {
    hide FilterDeclaration;
    assert [decl][..0] == [] && Survivors(lang, []) == [];
  }

  lemma ColonAt(decl: string, i: nat)
    requires i < |decl| && decl[i] == ':' && ':' !in decl[..i]
    ensures IndexOf(decl, ':') == i
  {
    forall j | 0 <= j < i ensures decl[j] != ':' { assert decl[..i][j] == decl[j]; }
    IndexAt(decl, ':', i);
  }

  /** A declaration is kept, in its short form, exactly when it reads as one that is permitted. */
  lemma DeclarationKept(lang: Language, decl: string, prop: string, val: string)
    ensures Reads(lang, decl, prop, val) ==>
              Survivors(lang, [decl]) == if Declares(lang, prop, val) then [prop + ":" + val] else []
    ensures ':' !in decl ==> Survivors(lang, [decl]) == []
  {
    hide Trim, Declares, Trimmed, DeclarationOk, Fold, Survivors, IndexOf;
    OneSurvivor(lang, decl);
    if Reads(lang, decl, prop, val) {
      var i :| 0 <= i < |decl| && decl[i] == ':' && ':' !in decl[..i]
               && prop == Fold(lang, Trim(decl[..i], lang.space)) && val == Trim(decl[i + 1..], lang.space);
      ColonAt(decl, i);
      TrimTrims(decl[i + 1..], lang.space);
      DeclaresIs(lang, prop, val);
    } else if ':' !in decl {
      IndexAt(decl, ':', |decl|);
    }
  }

  /** Declarations are kept one by one, in order. */
  lemma {:induction false} DeclarationsKept(lang: Language, a: seq<string>, b: seq<string>)
    ensures Survivors(lang, a + b) == Survivors(lang, a) + Survivors(lang, b)
  {
    hide FilterDeclaration;
    if b == [] {
      assert a + b == a;
    } else {
      assert (a + b)[..|a + b| - 1] == a + b[..|b| - 1];
      DeclarationsKept(lang, a, b[..|b| - 1]);
    }
  }

  /** A style is what is kept of the parts between its semicolons; it goes when it is too long or nothing is kept. */
  lemma StyleKept(lang: Language, value: string)
    ensures var kept := Survivors(lang, Split(value, ';'));
            FilterStyle(lang, value)
            == if Size(lang.units, value) > 2048 || kept == [] then None else Some(Join(kept, ';'))
  {
    hide Split, Join, Survivors, Size;
  }

  // ----- trees -----

  /** Elements of the table only, with permissible attributes only, and embeds only of what the manifest lists. */
  ghost predicate Proper(lang: Language, nodes: seq<Node>, manifest: set<string>)
    decreases nodes
  {
    forall i :: 0 <= i < |nodes| ==> ProperNode(lang, nodes[i], manifest)
  }

  ghost predicate ProperNode(lang: Language, n: Node, manifest: set<string>)
    decreases n
  {
    match n
    case Comment(_) => false
    case Text(_) => true
    case Element(tag, attrs, kids) =>
      && IsPermitted(tag) && tag !in DROPPED && ProperAttrs(lang, tag, attrs, manifest) && Proper(lang, kids, manifest)
  }

  ghost predicate ProperAttrs(lang: Language, tag: string, attrs: map<string, string>, manifest: set<string>)
  {
    && (forall a :: a in attrs ==> Permissible(lang, tag, a, attrs[a], manifest))
    && !Unlisted(tag, attrs, manifest) && (tag == "img" ==> "alt" in attrs)
  }

  lemma CleanAttrsAreProper(lang: Language, tag: string, attrs: map<string, string>, manifest: set<string>)
    requires AsciiAsUsual(lang) && IsPermitted(tag) && FilterAttrs(lang, tag, attrs, manifest) == Some(attrs)
    ensures ProperAttrs(lang, tag, attrs, manifest)
  {
    hide FilterAttrs, Permissible, OwnAttrs;
    AttrsAre(lang, tag, attrs, manifest);
  }

  lemma {:induction false} CleanIsProper(lang: Language, nodes: seq<Node>, manifest: set<string>)
    requires AsciiAsUsual(lang) && Clean(lang, nodes, manifest)
    ensures Proper(lang, nodes, manifest)
    decreases nodes
  {
    hide FilterAttrs, ProperAttrs, OwnAttrs, AsciiAsUsual;
    forall i | 0 <= i < |nodes| ensures ProperNode(lang, nodes[i], manifest)
    {
      var n := nodes[i];
      assert CleanNode(lang, n, manifest);
      if n.Element? {
        CleanAttrsAreProper(lang, n.tag, n.attrs, manifest);
        CleanIsProper(lang, n.kids, manifest);
      }
    }
  }

  /** Whatever the input, every node of the filter's output is proper. */
  lemma OutputIsProper(lang: Language, nodes: seq<Node>, manifest: set<string>)
    requires AsciiAsUsual(lang)
    ensures Proper(lang, SanitizeTree(lang, nodes, manifest), manifest)
  {
    hide SanitizeTree, Clean, Proper, AsciiAsUsual;
    SanitizedIsClean(lang, nodes, manifest);
    CleanIsProper(lang, SanitizeTree(lang, nodes, manifest), manifest);
  }

  /** And so is every node of the client's, but for bare elements of inherited names. */
  lemma {:induction false} ClientIsProper(lang: Language, nodes: seq<Node>, manifest: set<string>)
    requires AsciiAsUsual(lang) && Settled(lang, nodes, manifest) && OnlyTableTags(nodes)
    ensures Proper(lang, nodes, manifest)
    decreases nodes
  {
    hide FilterAttrs, ProperAttrs, IsPermitted, AsciiAsUsual;
    forall i | 0 <= i < |nodes| ensures ProperNode(lang, nodes[i], manifest)
    {
      var n := nodes[i];
      assert SettledNode(lang, n, manifest) && TableTagsIn(n);
      if n.Element? {
        InheritedNames();
        CleanAttrsAreProper(lang, n.tag, n.attrs, manifest);
        ClientIsProper(lang, n.kids, manifest);
      }
    }
  }

  /**
   What becomes of a node: text stays; a comment or a dropped element goes with all it holds; an element outside the
   table leaves its filtered children in its place; an unlisted embed goes; any other stays, filtered, with them.
   */
  lemma NodeIs(lang: Language, n: Node, manifest: set<string>)
    requires AsciiAsUsual(lang)
    ensures n.Comment? ==> SanitizeNode(lang, n, manifest) == []
    ensures n.Text? ==> SanitizeNode(lang, n, manifest) == [n]
    ensures n.Element? && n.tag in DROPPED ==> SanitizeNode(lang, n, manifest) == []
    ensures n.Element? && n.tag !in DROPPED && !IsPermitted(n.tag) ==>
              SanitizeNode(lang, n, manifest) == SanitizeTree(lang, n.kids, manifest)
    ensures n.Element? && n.tag !in DROPPED && IsPermitted(n.tag) && Unlisted(n.tag, n.attrs, manifest) ==>
              SanitizeNode(lang, n, manifest) == []
    ensures n.Element? && n.tag !in DROPPED && IsPermitted(n.tag) && !Unlisted(n.tag, n.attrs, manifest) ==>
              exists out ::
                Filtered(lang, n.tag, n.attrs, manifest, out)
                && SanitizeNode(lang, n, manifest) == [Element(n.tag, out, SanitizeTree(lang, n.kids, manifest))]
  {
    hide FilterAttrs, Filtered, OwnAttrs, SanitizeTree, AsciiAsUsual;
    if n.Element? && IsPermitted(n.tag) { AttrsAre(lang, n.tag, n.attrs, manifest); }
  }

  /** Siblings are filtered one by one, in order. */
  lemma {:induction false} SiblingsAre(lang: Language, a: seq<Node>, b: seq<Node>, manifest: set<string>)
    ensures SanitizeTree(lang, a + b, manifest) == SanitizeTree(lang, a, manifest) + SanitizeTree(lang, b, manifest)
    ensures forall n :: SanitizeTree(lang, [n], manifest) == SanitizeNode(lang, n, manifest)
  {
    hide SanitizeNode;
    forall n ensures SanitizeTree(lang, [n], manifest) == SanitizeNode(lang, n, manifest)
    {
      assert [n][..0] == [];
    }
    if b == [] {
      assert a + b == a;
    } else {
      assert (a + b)[..|a + b| - 1] == a + b[..|b| - 1];
      SiblingsAre(lang, a, b[..|b| - 1], manifest);
    }
  }
}
