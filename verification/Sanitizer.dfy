/**
 The HTML filter of the server (server/render/sanitize.go:19-290), on trees whose names are lower-case already. The
 client's filter (client/lib/sanitizer.js) is in ClientFilter and shares the tables and the filter of attributes.
 Text is a sequence of Unicode scalar values.
 */
module Sanitizer {
  import opened Strings
  import opened Wrappers

  datatype Node = Element(tag: string, attrs: map<string, string>, kids: seq<Node>) | Text(text: string)
                | Comment(text: string)

  /**
   What the languages the filter is written in do differently: lower-casing a character, what a case-insensitive pattern
   takes it for, what trimming removes, what \s matches, and the units of a string's length.
   */
  datatype Language = Language(down: char -> char, folded: char -> char, space: char -> bool, blank: char -> bool,
                               units: char -> nat)

  function Go(down: char -> char, folded: char -> char): Language
  {
    Language(down, folded, Space, Blank, Utf8Units)
  }

  function JavaScript(down: char -> char, folded: char -> char): Language
  {
    Language(down, folded, JsSpace, JsSpace, Utf16Units)
  }

  ghost predicate LowersAscii(down: char -> char)
  {
    forall c: char :: c < '\U{80}' ==> down(c) == if 'A' <= c <= 'Z' then c + 32 as char else c
  }

  /** All that is known of a language: it treats ASCII as one expects, and every character counts. */
  ghost predicate AsciiAsUsual(lang: Language)
  {
    && LowersAscii(lang.down) && LowersAscii(lang.folded)
    && (forall c: char :: lang.units(c) >= 1 && (c < '\U{80}' ==> lang.units(c) == 1))
    && (forall c: char :: c < '\U{80}' && (lang.space(c) || lang.blank(c)) ==>
          c in {'\t', '\n', '\U{B}', '\U{C}', '\r', ' '})
  }

  lemma LanguagesAreUsual(down: char -> char, folded: char -> char)
    requires LowersAscii(down) && LowersAscii(folded)
    ensures AsciiAsUsual(Go(down, folded)) && AsciiAsUsual(JavaScript(down, folded))
    ensures exists d :: LowersAscii(d)
  {
    assert LowersAscii((c: char) => if 'A' <= c <= 'Z' then c + 32 as char else c);
  }

  // ----- the tables -----

  const BLOCK_TAGS: map<string, seq<string>> := map[
    "p" := [], "br" := [], "hr" := [], "h1" := [], "h2" := [], "h3" := [], "h4" := [], "h5" := [], "h6" := [],
    "blockquote" := [], "pre" := [], "code" := [], "div" := [], "figure" := [], "figcaption" := []
  ]

  const LIST_TAGS: map<string, seq<string>> := map[
    "ul" := [], "ol" := ["start"], "li" := [], "dl" := [], "dt" := [], "dd" := [],
    "table" := [], "caption" := [], "thead" := [], "tbody" := [], "tfoot" := [], "tr" := [],
    "th" := ["colspan", "rowspan", "scope"], "td" := ["colspan", "rowspan"]
  ]

  const INLINE_TAGS: map<string, seq<string>> := map[
    "em" := [], "strong" := [], "b" := [], "i" := [], "u" := [], "s" := [], "sub" := [], "sup" := [],
    "mark" := [], "small" := [], "q" := [], "abbr" := [], "dfn" := [], "kbd" := [], "samp" := []
  ]

  const OTHER_TAGS: map<string, seq<string>> := map[
    "var" := [], "del" := [], "ins" := [], "wbr" := [], "span" := [], "time" := ["datetime"], "a" := ["href"],
    "img" := ["src", "alt", "width", "height"], "video" := ["src", "poster", "width", "height"], "audio" := ["src"],
    "source" := ["src", "type"]
  ]

  /** The attributes of its own a permitted element may have; None when it is not permitted. */
  function OwnAttrs(tag: string): Option<seq<string>>
  {
    if tag in BLOCK_TAGS then Some(BLOCK_TAGS[tag])
    else if tag in LIST_TAGS then Some(LIST_TAGS[tag])
    else if tag in INLINE_TAGS then Some(INLINE_TAGS[tag])
    else if tag in OTHER_TAGS then Some(OTHER_TAGS[tag])
    else None
  }

  predicate IsPermitted(tag: string)
  {
    OwnAttrs(tag).Some?
  }

  const DROPPED: set<string> := {
    "script", "style", "iframe", "frame", "frameset", "object", "embed", "applet", "form", "input",
    "button", "textarea", "select", "option", "optgroup", "label", "fieldset", "legend", "template", "svg",
    "math", "link", "meta", "base", "noscript", "slot", "canvas", "dialog", "map", "area", "marquee"
  }

  const EMBEDS: set<string> := {"img", "video", "audio", "source"}

  const VOID: set<string> := {
    "area", "base", "br", "col", "embed", "hr", "img", "input", "link", "meta", "source", "track", "wbr"
  }

  const INT_ATTRS: set<string> := {"width", "height", "colspan", "rowspan", "start"}

  const TEXT_PROPS: set<string> := {
    "color", "background-color", "font-size", "font-weight", "font-style", "font-family", "text-align",
    "text-decoration", "line-height", "letter-spacing"
  }

  const SPACE_PROPS: set<string> := {
    "margin", "margin-top", "margin-right", "margin-bottom", "margin-left",
    "padding", "padding-top", "padding-right", "padding-bottom", "padding-left"
  }

  const BORDER_PROPS: set<string> := {
    "border", "border-top", "border-right", "border-bottom", "border-left",
    "border-width", "border-style", "border-color", "border-radius"
  }

  const LAYOUT_PROPS: set<string> := {
    "width", "max-width", "height", "max-height",
    "display", "flex-direction", "justify-content", "align-items", "gap",
    "vertical-align", "white-space", "overflow-wrap", "word-break", "list-style-type", "object-fit"
  }

  predicate StyleProp(p: string)
  {
    p in TEXT_PROPS || p in SPACE_PROPS || p in BORDER_PROPS || p in LAYOUT_PROPS
  }

  const DISPLAY_VALUES: set<string> := {"block", "inline", "inline-block", "flex"}

  const STYLE_MAX := 2048
  const MAX_DEPTH := 64
  const MAX_NODES := 16384

  // ----- characters -----

  function Fold(lang: Language, s: string): (t: string)
    ensures |t| == |s| && forall i :: 0 <= i < |s| ==> t[i] == lang.down(s[i])
  {
    seq(|s|, i requires 0 <= i < |s| => lang.down(s[i]))
  }

  predicate Identifier(s: string)
  {
    s != "" && Letter(s[0]) && All(s, c => Letter(c) || Digit(c) || c == '_' || c == '-')
  }

  predicate StartsFolded(lang: Language, s: string, prefix: string)
  {
    |s| >= |prefix| && forall i :: 0 <= i < |prefix| ==> lang.folded(s[i]) == prefix[i]
  }

  // ----- style -----

  predicate StyleValue(lang: Language, s: string)
  {
    s != "" && All(s, c => Letter(c) || Digit(c) || c in {'#', '%', '.', ',', '-'} || lang.blank(c))
  }

  predicate DeclarationOk(lang: Language, prop: string, val: string)
  {
    StyleProp(prop) && StyleValue(lang, val) && (prop == "display" ==> val in DISPLAY_VALUES)
  }

  /** What is left of one declaration. */
  function FilterDeclaration(lang: Language, decl: string): Option<string>
  {
    var colon := IndexOf(decl, ':');
    if colon == |decl| then None
    else
      var prop, val := Fold(lang, Trim(decl[..colon], lang.space)), Trim(decl[colon + 1..], lang.space);
      if DeclarationOk(lang, prop, val) then Some(prop + ":" + val) else None
  }

  function Survivors(lang: Language, decls: seq<string>): seq<string>
  {
    if decls == [] then []
    else
      var last := FilterDeclaration(lang, decls[|decls| - 1]);
      Survivors(lang, decls[..|decls| - 1]) + if last.Some? then [last.value] else []
  }

  function FilterStyle(lang: Language, value: string): Option<string>
  {
    if Size(lang.units, value) > STYLE_MAX then None
    else
      var out := Survivors(lang, Split(value, ';'));
      if out == [] then None else Some(Join(out, ';'))
  }

  method FilterStyleLoop(lang: Language, value: string) returns (r: Option<string>)
    ensures r == FilterStyle(lang, value)
  {
    hide StyleProp, StyleValue, Trim, IndexOf;
    if Size(lang.units, value) > STYLE_MAX { return None; }
    var out := [];
    var decls := Split(value, ';');
    for i := 0 to |decls|
      invariant out == Survivors(lang, decls[..i])
    {
      assert decls[..i + 1][..i] == decls[..i];
      var decl := decls[i];
      var colon := IndexOf(decl, ':');
      if colon < |decl| {
        var prop, val := Fold(lang, Trim(decl[..colon], lang.space)), Trim(decl[colon + 1..], lang.space);
        if StyleProp(prop) && StyleValue(lang, val) && (prop != "display" || val in DISPLAY_VALUES) {
          out := out + [prop + ":" + val];
        }
      }
    }
    assert decls[..|decls|] == decls;
    return if out == [] then None else Some(Join(out, ';'));
  }

  // ----- attributes -----

  predicate HrefAllowed(lang: Language, href: string, manifest: set<string>)
  {
    if StartsFolded(lang, href, "https://") || StartsFolded(lang, href, "mailto:") then true
    else if "urn:mlet:" <= href then href in manifest
    else href != "" && href[0] == '#' && Identifier(href[1..])
  }

  /** What one attribute becomes; None drops it. */
  function FilterAttr(lang: Language, tag: string, name: string, value: string, manifest: set<string>): Option<string>
    requires IsPermitted(tag)
  {
    var specific := name in OwnAttrs(tag).value;
    match name
    case "name" => None
    case "title" => if value != "" then Some(value) else None
    case "dir" => if value in {"ltr", "rtl", "auto"} then Some(value) else None
    case "lang" => if 1 <= |value| <= 35 && All(value, c => Letter(c) || Digit(c) || c == '-') then Some(value)
      else None
    case "class" =>
      if 1 <= |value| <= 256 && All(value, c => Letter(c) || Digit(c) || c == '_' || c == '-' || lang.blank(c))
        then Some(value)
      else None
    case "id" => if Identifier(value) then Some(value) else None
    case "style" => FilterStyle(lang, value)
    case "href" => if specific && HrefAllowed(lang, value, manifest) then Some(value) else None
    case "src" => if specific && "urn:mlet:" <= value && value in manifest then Some(value) else None
    case "poster" => if specific && "urn:mlet:" <= value && value in manifest then Some(value) else None
    case _ =>
      if !specific then None
      else if name in INT_ATTRS then if 1 <= |value| <= 6 && All(value, Digit) then Some(value) else None
      else Some(value)
  }

  function Kept(lang: Language, tag: string, attrs: map<string, string>, manifest: set<string>): map<string, string>
    requires IsPermitted(tag)
  {
    map name | name in attrs && FilterAttr(lang, tag, name, attrs[name], manifest).Some?
      :: FilterAttr(lang, tag, name, attrs[name], manifest).value
  }

  /** The surviving attributes of a permitted element; None removes the element. */
  function FilterAttrs(lang: Language, tag: string, attrs: map<string, string>, manifest: set<string>)
    : Option<map<string, string>>
    requires IsPermitted(tag)
  {
    var out := Kept(lang, tag, attrs, manifest);
    if tag in EMBEDS && "src" !in out then None
    else if tag == "img" && "alt" !in out then Some(out["alt" := ""])
    else Some(out)
  }

  method FilterAttrsLoop(lang: Language, tag: string, attrs: map<string, string>, manifest: set<string>)
    returns (r: Option<map<string, string>>)
    requires IsPermitted(tag)
    ensures r == FilterAttrs(lang, tag, attrs, manifest)
  {
    hide FilterAttr, OwnAttrs;
    var out := map[];
    var left := attrs.Keys;
    while left != {}
      invariant left <= attrs.Keys
      invariant out == map name | name in attrs && name !in left
                && FilterAttr(lang, tag, name, attrs[name], manifest).Some?
                         :: FilterAttr(lang, tag, name, attrs[name], manifest).value
    {
      var name :| name in left;
      left := left - {name};
      var kept := FilterAttr(lang, tag, name, attrs[name], manifest);
      if kept.Some? { out := out[name := kept.value]; }
    }
    assert out == Kept(lang, tag, attrs, manifest);
    if tag in EMBEDS && "src" !in out { return None; }
    if tag == "img" && "alt" !in out { out := out["alt" := ""]; }
    return Some(out);
  }

  // ----- trees -----

  /** What becomes of one node: nothing, itself filtered, or its children in its place. */
  function SanitizeNode(lang: Language, n: Node, manifest: set<string>): seq<Node>
    decreases n
  {
    match n
    case Comment(_) => []
    case Text(_) => [n]
    case Element(tag, attrs, kids) =>
      if tag in DROPPED then []
      else
        var inner := SanitizeTree(lang, kids, manifest);
        if !IsPermitted(tag) then inner
        else
          var kept := FilterAttrs(lang, tag, attrs, manifest);
          if kept.None? then [] else [Element(tag, kept.value, inner)]
  }

  function SanitizeTree(lang: Language, nodes: seq<Node>, manifest: set<string>): seq<Node>
    decreases nodes
  {
    if nodes == [] then []
    else
      SanitizeTree(lang, nodes[..|nodes| - 1], manifest) + SanitizeNode(lang, nodes[|nodes| - 1], manifest)
  }

  /** The filter as a loop over the siblings, each permitted element recursing into its children. */
  method Sanitize(lang: Language, nodes: seq<Node>, manifest: set<string>) returns (out: seq<Node>)
    ensures out == SanitizeTree(lang, nodes, manifest)
    decreases nodes
  {
    hide FilterAttrs, OwnAttrs;
    out := [];
    for i := 0 to |nodes|
      invariant out == SanitizeTree(lang, nodes[..i], manifest)
    {
      assert nodes[..i + 1][..i] == nodes[..i];
      match nodes[i] {
        case Comment(_) =>
        case Text(text) => out := out + [Text(text)];
        case Element(tag, attrs, kids) =>
          if tag !in DROPPED {
            var inner := Sanitize(lang, kids, manifest);
            if !IsPermitted(tag) {
              out := out + inner;
            } else {
              var kept := FilterAttrsLoop(lang, tag, attrs, manifest);
              if kept.Some? { out := out + [Element(tag, kept.value, inner)]; }
            }
          }
      }
    }
    assert nodes[..|nodes|] == nodes;
  }

  // ----- size -----

  function CountNode(n: Node): nat
    decreases n
  {
    if n.Element? then 1 + Count(n.kids) else 1
  }

  function Count(nodes: seq<Node>): nat
    decreases nodes
  {
    if nodes == [] then 0 else Count(nodes[..|nodes| - 1]) + CountNode(nodes[|nodes| - 1])
  }

  function Max(a: nat, b: nat): nat { if a < b then b else a }

  /** One for the list itself, one more for each level of elements below it. */
  function Depth(nodes: seq<Node>): (d: nat)
    ensures d >= 1
    decreases nodes
  {
    if nodes == [] then 1 else Max(Depth(nodes[..|nodes| - 1]), DepthNode(nodes[|nodes| - 1]))
  }

  function DepthNode(n: Node): nat
    decreases n
  {
    if n.Element? then 1 + Depth(n.kids) else 1
  }

  /** Measure: the two counters the recursive walk shares. */
  class Measurement {
    var count: nat
    var depth: nat

    constructor (nodes: seq<Node>)
      ensures count == Count(nodes) && depth == Depth(nodes)
    {
      count, depth := 0, 0;
      new;
      Walk(nodes, 1);
    }

    method Walk(nodes: seq<Node>, d: nat)
      requires d >= 1
      modifies this
      ensures count == old(count) + Count(nodes) && depth == Max(old(depth), d - 1 + Depth(nodes))
      decreases nodes
    {
      if d > depth { depth := d; }
      for i := 0 to |nodes|
        invariant count == old(count) + Count(nodes[..i]) && depth == Max(old(depth), d - 1 + Depth(nodes[..i]))
      {
        assert nodes[..i + 1][..i] == nodes[..i];
        count := count + 1;
        if nodes[i].Element? { Walk(nodes[i].kids, d + 1); }
      }
      assert nodes[..|nodes|] == nodes;
    }
  }
}
