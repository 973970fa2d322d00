/**
 The serializer (client/lib/sanitizer.js:239-260) and the fragment parser that closes the filter's loop
 (client/test/mini-html5-parser.js). The parser's stack holds the open elements with the children they have so far.
 */
module HtmlParser {
  import opened ClientFilter
  import opened Sanitizer
  import opened Strings
  import opened Wrappers

  /** In which order the attributes of an element are written. */
  type Order = set<string> -> seq<string>

  /** What any other reference stands for, a number or a name the table's object inherits; None leaves it as it is. */
  type Others = string -> Option<string>

  // ----- serialization -----

  function EscTextChar(c: char): string
  {
    match c
    case '&' => "&amp;"
    case '<' => "&lt;"
    case '>' => "&gt;"
    case _ => [c]
  }

  function EscAttrChar(c: char): string
  {
    match c
    case '&' => "&amp;"
    case '"' => "&quot;"
    case _ => [c]
  }

  function EscText(s: string): string
  {
    if s == "" then "" else EscTextChar(s[0]) + EscText(s[1..])
  }

  function EscAttr(s: string): string
  {
    if s == "" then "" else EscAttrChar(s[0]) + EscAttr(s[1..])
  }

  /** The attributes from the i-th name of the order on. */
  function SerializeAttrs(attrs: map<string, string>, names: seq<string>): string
  {
    if names == [] then ""
    else if names[0] !in attrs then SerializeAttrs(attrs, names[1..])
    else " " + names[0] + "=\"" + EscAttr(attrs[names[0]]) + "\"" + SerializeAttrs(attrs, names[1..])
  }

  function SerializeNode(order: Order, n: Node): string
    decreases n
  {
    match n
    case Comment(_) => ""
    case Text(text) => EscText(text)
    case Element(tag, attrs, kids) =>
      "<" + tag + SerializeAttrs(attrs, order(attrs.Keys)) + ">"
      + if tag in VOID then "" else Serialize(order, kids) + ("</" + tag + ">")
  }

  function Serialize(order: Order, nodes: seq<Node>): string
    decreases nodes
  {
    if nodes == [] then "" else SerializeNode(order, nodes[0]) + Serialize(order, nodes[1..])
  }

  /** The serializer's loop over the siblings. */
  method SerializeTree(order: Order, nodes: seq<Node>) returns (out: string)
    ensures out == Serialize(order, nodes)
    decreases nodes
  {
    hide EscText, SerializeAttrs;
    out := "";
    for i := 0 to |nodes|
      invariant out + Serialize(order, nodes[i..]) == Serialize(order, nodes)
    {
      var n := nodes[i];
      assert nodes[i..][1..] == nodes[i + 1..];
      var piece := "";
      match n {
        case Comment(_) =>
        case Text(text) => piece := EscText(text);
        case Element(tag, attrs, kids) =>
          piece := "<" + tag + SerializeAttrs(attrs, order(attrs.Keys)) + ">";
          if tag !in VOID {
            var inner := SerializeTree(order, kids);
            piece := piece + (inner + ("</" + tag + ">"));
          } else {
            piece := piece + "";
          }
      }
      assert piece == SerializeNode(order, n);
      assert out + (piece + Serialize(order, nodes[i + 1..])) == (out + piece) + Serialize(order, nodes[i + 1..]);
      out := out + piece;
    }
    assert out + "" == out;
  }

  // ----- character references -----

  const NAMED: map<string, string> := map[
    "amp" := "&", "lt" := "<", "gt" := ">", "quot" := "\"", "apos" := "'", "nbsp" := "\U{A0}"
  ]

  predicate HexDigit(c: char) { Digit(c) || 'a' <= c <= 'f' || 'A' <= c <= 'F' }

  /** The body of the reference that starts after an ampersand: a number or letters, up to a semicolon. */
  function Reference(s: string): Option<string>
  {
    var n := if s != "" && s[0] == '#' then
               var x := if |s| > 1 && s[1] == 'x' then 2 else 1;
               if Span(s[x..], HexDigit) == 0 then 0 else x + Span(s[x..], HexDigit)
             else Span(s, Letter);
    if 0 < n < |s| && s[n] == ';' then Some(s[..n]) else None
  }

  function Decode(others: Others, s: string): string
  {
    if s == "" then ""
    else
      var body := if s[0] == '&' then Reference(s[1..]) else None;
      if body.None? then [s[0]] + Decode(others, s[1..])
      else
        var rest := s[|body.value| + 2..];
        var whole := s[..|body.value| + 2];
        var decoded := if body.value in NAMED then Some(NAMED[body.value]) else others(body.value);
        (if decoded.Some? then decoded.value else whole) + Decode(others, rest)
  }

  // ----- the open elements -----

  datatype Frame = Frame(tag: string, attrs: map<string, string>, kids: seq<Node>)

  datatype Zip = Zip(roots: seq<Node>, frames: seq<Frame>) {
    /** Appending to the innermost open element, or to the roots. */
    function Append(nodes: seq<Node>): Zip
    {
      if frames == [] then Zip(roots + nodes, [])
      else
        var top := frames[|frames| - 1];
        Zip(roots, frames[..|frames| - 1] + [top.(kids := top.kids + nodes)])
    }

    function Open(tag: string, attrs: map<string, string>): Zip
    {
      Zip(roots, frames + [Frame(tag, attrs, [])])
    }

    /** The innermost open element takes its place among its parent's children. */
    function Close(): Zip
      requires frames != []
    {
      var top := frames[|frames| - 1];
      Zip(roots, frames[..|frames| - 1]).Append([Element(top.tag, top.attrs, top.kids)])
    }

    function CloseTo(n: nat): Zip
      decreases |frames|
    {
      if |frames| <= n then this else Close().CloseTo(n)
    }

    /** An end tag closes the innermost open element of its name, and all inside it. */
    function End(tag: string): Zip
    {
      var k := Innermost(frames, tag);
      if k.None? then this else CloseTo(k.value)
    }
  }

  function Innermost(frames: seq<Frame>, tag: string): (k: Option<nat>)
    ensures k.Some? ==> k.value < |frames|
  {
    if frames == [] then None
    else if frames[|frames| - 1].tag == tag then Some(|frames| - 1)
    else Innermost(frames[..|frames| - 1], tag)
  }

  // ----- the tokens -----

  predicate NameChar(c: char) { !JsSpace(c) && c != '=' && c != '/' && c != '>' }

  predicate BareChar(c: char) { !JsSpace(c) && c != '>' }

  predicate TagChar(c: char) { Letter(c) || Digit(c) || c == '-' }

  /** r is what is left of s. */
  predicate Suffix(r: string, s: string)
  {
    |r| <= |s| && r == s[|s| - |r|..]
  }

  lemma SuffixOfSuffix(a: string, b: string, c: string)
    requires Suffix(a, b) && Suffix(b, c)
    ensures Suffix(a, c)
  {
  }

  function SkipSpace(s: string): (r: string)
    ensures Suffix(r, s) && (r == "" || !JsSpace(r[0]))
  {
    s[Span(s, JsSpace)..]
  }

  /** Where a substring first starts at or after from. */
  function Find(s: string, word: string, from: nat): (i: Option<nat>)
    ensures i.Some? ==> from <= i.value && i.value + |word| <= |s|
    decreases |s| - from
  {
    if from + |word| > |s| then None
    else if s[from..from + |word|] == word then Some(from)
    else Find(s, word, from + 1)
  }

  /** A value after the equals sign, and what follows it. */
  function ReadValue(s: string): (r: (string, string))
    ensures Suffix(r.1, s)
  {
    if s != "" && (s[0] == '"' || s[0] == '\'') then
      var j := IndexOf(s[1..], s[0]);
      if j == |s[1..]| then (s[1..], "") else (s[1..][..j], s[1..][j + 1..])
    else
      var n := Span(s, BareChar);
      (s[..n], s[n..])
  }

  /** One attribute whose name is the first n characters: its value as written, and what follows. */
  function OneAttr(t: string, n: nat): (r: (string, string))
    requires n <= |t|
    ensures |r.1| + n <= |t| && Suffix(r.1, t)
  {
    var u := SkipSpace(t[n..]);
    SuffixOfSuffix(u, t[n..], t);
    if u != "" && u[0] == '=' then
      var v := SkipSpace(u[1..]);
      var (value, rest) := ReadValue(v);
      SuffixOfSuffix(v, u[1..], u);
      SuffixOfSuffix(rest, v, u);
      SuffixOfSuffix(rest, u, t);
      (value, rest)
    else ("", u)
  }

  /** Assigning an attribute: on a plain object one name is a setter, which ignores strings. */
  function Assign(attrs: map<string, string>, name: string, value: string): map<string, string>
  {
    if name == "__proto__" then attrs else attrs[name := value]
  }

  /** The attributes of a start tag, whether it closes itself, and what follows; None when the loop never ends. */
  function ReadAttrs(lang: Language, others: Others, s: string, attrs: map<string, string>)
    : (r: Option<(map<string, string>, bool, string)>)
    ensures r.Some? ==> |r.value.2| < |s|
    decreases |s|
  {
    var t := SkipSpace(s);
    if t == "" then None
    else if "/>" <= t then Some((attrs, true, t[2..]))
    else if t[0] == '>' then Some((attrs, false, t[1..]))
    else
      var n := Span(t, NameChar);
      if n == 0 then ReadAttrs(lang, others, t[1..], attrs)
      else
        var (value, rest) := OneAttr(t, n);
        ReadAttrs(lang, others, rest, Assign(attrs, Fold(lang, t[..n]), Decode(others, value)))
  }

  /** ReadAttrs, one turn deep. */
  lemma UnfoldAttrs(lang: Language, others: Others, s: string, attrs: map<string, string>)
    ensures var r := ReadAttrs(lang, others, s, attrs);
            var t := SkipSpace(s);
            if t == "" then r == None
            else if "/>" <= t then r == Some((attrs, true, t[2..]))
            else if t[0] == '>' then r == Some((attrs, false, t[1..]))
            else
              var n := Span(t, NameChar);
              if n == 0 then r == ReadAttrs(lang, others, t[1..], attrs)
              else
                var (value, rest) := OneAttr(t, n);
                r == ReadAttrs(lang, others, rest, Assign(attrs, Fold(lang, t[..n]), Decode(others, value)))
  {
    hide Decode, SkipSpace, OneAttr, Span, NameChar, Suffix;
  }

  function TagName(s: string): nat
  {
    if s == "" || !Letter(s[0]) then 0 else Span(s, TagChar)
  }

  // ----- the parser -----

  function TextStep(others: Others, s: string, z: Zip): (r: (string, Zip))
    requires s != "" && s[0] != '<'
    ensures |r.0| < |s|
  {
    var j := IndexOf(s, '<');
    (s[j..], z.Append([Text(Decode(others, s[..j]))]))
  }

  function CommentStep(s: string, z: Zip): (r: (string, Zip))
    requires "<!--" <= s
    ensures |r.0| < |s|
  {
    match Find(s, "-->", 4)
    case Some(j) => (s[j + 3..], z.Append([Comment(s[4..j])]))
    case None => ("", z.Append([Comment(if |s| - 3 < 4 then "" else s[4..|s| - 3])]))
  }

  function EndStep(lang: Language, s: string, z: Zip): (r: (string, Zip))
    requires "</" <= s
    ensures |r.0| < |s|
  {
    var j := IndexOf(s, '>');
    var tag := Fold(lang, Trim(s[2..j], JsSpace));
    (if j < |s| then s[j + 1..] else "", z.End(tag))
  }

  predicate RawText(tag: string) { tag == "script" || tag == "style" }

  /** The contents of a raw-text element reach to its closing tag. */
  function RawStep(lang: Language, tag: string, attrs: map<string, string>, s: string, z: Zip): (r: (string, Zip))
    ensures Suffix(r.0, s)
  {
    var found := Find(Fold(lang, s), "</" + tag, 0);
    var j := if found.Some? then found.value else |s|;
    var gt := IndexOf(s[j..], '>');
    (if gt < |s[j..]| then s[j..][gt + 1..] else "",
     z.Append([Element(tag, attrs, if j > 0 then [Text(s[..j])] else [])]))
  }

  function StartStep(lang: Language, others: Others, s: string, z: Zip): (r: Option<(string, Zip)>)
    requires s != "" && s[0] == '<'
    ensures r.Some? ==> |r.value.0| < |s|
  {
    var n := TagName(s[1..]);
    if n == 0 then Some((s[1..], z.Append([Text("<")])))
    else
      var tag := Fold(lang, s[1..][..n]);
      match ReadAttrs(lang, others, s[1..][n..], map[])
      case None => None
      case Some((attrs, selfClosing, rest)) =>
        if tag in VOID || selfClosing then Some((rest, z.Append([Element(tag, attrs, [])])))
        else if RawText(tag) then Some(RawStep(lang, tag, attrs, rest, z))
        else Some((rest, z.Open(tag, attrs)))
  }

  /** One turn of the parser's loop; None when it hangs in an unfinished start tag. */
  function Turn(lang: Language, others: Others, s: string, z: Zip): (r: Option<(string, Zip)>)
    requires s != ""
    ensures r.Some? ==> |r.value.0| < |s|
  {
    if s[0] != '<' then Some(TextStep(others, s, z))
    else if "<!--" <= s then Some(CommentStep(s, z))
    else if "</" <= s then Some(EndStep(lang, s, z))
    else StartStep(lang, others, s, z)
  }

  function Parse(lang: Language, others: Others, s: string, z: Zip): Option<seq<Node>>
    decreases |s|
  {
    if s == "" then Some(z.CloseTo(0).roots)
    else
      match Turn(lang, others, s, z)
      case None => None
      case Some((rest, next)) => Parse(lang, others, rest, next)
  }

  function ParseFragment(lang: Language, others: Others, html: string): Option<seq<Node>>
  {
    Parse(lang, others, html, Zip([], []))
  }

  // ----- the checked pipeline -----

  /** Tags, texts and attribute maps exact, children in order; the text of a comment is not compared. */
  predicate TreesEqual(a: seq<Node>, b: seq<Node>)
    decreases a
  {
    |a| == |b| && (a == [] || (NodesEqual(a[0], b[0]) && TreesEqual(a[1..], b[1..])))
  }

  predicate NodesEqual(x: Node, y: Node)
    decreases x
  {
    match x
    case Text(text) => y == x
    case Comment(_) => y.Comment?
    case Element(tag, attrs, kids) =>
      y.Element? && tag == y.tag && |attrs| == |y.attrs|
        && (forall k :: k in attrs ==> k in y.attrs && attrs[k] == y.attrs[k])
      && TreesEqual(kids, y.kids)
  }

  /** Threw: the filter's exception leaves the pipeline. */
  datatype Checked = Threw | Degraded | Rendered(nodes: seq<Node>)

  /** sanitizeChecked, over a parsed fragment; None when parsing back never ends. */
  function SanitizeChecked(lang: Language, others: Others, order: Order, nodes: seq<Node>, manifest: set<string>)
    : Option<Checked>
  {
    if Count(nodes) > MAX_NODES || Depth(nodes) > MAX_DEPTH then Some(Degraded)
    else
      match FilterTree(lang, nodes, manifest)
      case Raised => Some(Threw)
      case Passed(clean) =>
        match ParseFragment(lang, others, Serialize(order, clean))
        case None => None
        case Some(reparsed) =>
          match FilterTree(lang, reparsed, manifest)
          case Raised => Some(Threw)
          case Passed(again) =>
            Some(if !TreesEqual(clean, again) || !TreesEqual(clean, reparsed) then Degraded else Rendered(clean))
  }

  /** The parser with its index into the input and its stack. */
  class Parser {
    const lang: Language
    const others: Others
    const html: string
    var i: nat
    var roots: seq<Node>
    var stack: seq<Frame>

    function State(): Zip
      reads this
    {
      Zip(roots, stack)
    }

    function Rest(): string
      requires i <= |html|
      reads this
    {
      html[i..]
    }

    constructor (lang: Language, others: Others, html: string)
      ensures this.lang == lang && this.others == others && this.html == html
      ensures i == 0 && State() == Zip([], [])
    {
      this.lang, this.others, this.html := lang, others, html;
      i, roots, stack := 0, [], [];
    }

    method Append(n: Node)
      modifies this`roots, this`stack
      ensures State() == old(State()).Append([n])
    {
      if stack == [] {
        roots := roots + [n];
      } else {
        var top := stack[|stack| - 1];
        stack := stack[..|stack| - 1] + [top.(kids := top.kids + [n])];
      }
    }

    /** Truncating the stack: the elements inside are where they belong. */
    method Truncate(k: nat)
      modifies this`roots, this`stack
      ensures State() == old(State()).CloseTo(k)
    {
      while |stack| > k
        invariant State().CloseTo(k) == old(State()).CloseTo(k)
      {
        var top := stack[|stack| - 1];
        stack := stack[..|stack| - 1];
        Append(Element(top.tag, top.attrs, top.kids));
      }
    }

    /** The search down the stack. */
    method FindOpen(tag: string) returns (k: Option<nat>)
      ensures k == Innermost(stack, tag)
    {
      var n := |stack|;
      assert stack[..n] == stack;
      while n > 0
        invariant 0 <= n <= |stack| && Innermost(stack, tag) == Innermost(stack[..n], tag)
      {
        assert stack[..n][..n - 1] == stack[..n - 1];
        if stack[n - 1].tag == tag { return Some(n - 1); }
        n := n - 1;
      }
      return None;
    }

    method EndTag()
      requires i <= |html| && "</" <= Rest()
      modifies this
      ensures i <= |html| && (Rest(), State()) == EndStep(lang, old(Rest()), old(State()))
    {
      hide Trim, Innermost, IndexOf, Fold, Zip.CloseTo;
      var s := html[i..];
      var j := IndexOf(s, '>');
      var tag := Fold(lang, Trim(s[2..j], JsSpace));
      var k := FindOpen(tag);
      if k.Some? { Truncate(k.value); }
      if j < |s| {
        assert s[j + 1..] == html[i + j + 1..];
        i := i + j + 1;
      } else {
        i := |html|;
        assert html[i..] == "";
      }
    }

    /** One attribute, past its name of n characters. */
    method Attribute(n: nat) returns (value: string)
      requires i + n <= |html|
      modifies this`i
      ensures old(i) + n <= i <= |html| && (value, Rest()) == OneAttr(old(Rest()), n)
    {
      hide SkipSpace, ReadValue;
      ghost var t := html[i..];
      i := i + n;
      assert html[i..] == t[n..];
      SkipBlanks();
      ghost var u := html[i..];
      value := "";
      if i < |html| && html[i] == '=' {
        i := i + 1;
        assert html[i..] == u[1..];
        SkipBlanks();
        value := QuotedOrBare();
      }
    }

    method QuotedOrBare() returns (value: string)
      requires i <= |html|
      modifies this`i
      ensures old(i) <= i <= |html| && (value, Rest()) == ReadValue(old(Rest()))
    {
      var s := html[i..];
      if s != "" && (s[0] == '"' || s[0] == '\'') {
        var j := IndexOf(s[1..], s[0]);
        if j == |s[1..]| {
          value, i := s[1..], |html|;
          assert html[i..] == "";
        } else {
          assert s[1..][j + 1..] == html[i + j + 2..];
          value, i := s[1..][..j], i + j + 2;
        }
      } else {
        var n := Span(s, BareChar);
        assert s[n..] == html[i + n..];
        value, i := s[..n], i + n;
      }
    }

    method SkipBlanks()
      requires i <= |html|
      modifies this`i
      ensures old(i) <= i <= |html| && Rest() == SkipSpace(old(Rest()))
    {
      var n := Span(html[i..], JsSpace);
      assert html[i..][n..] == html[i + n..];
      i := i + n;
    }

    /** The attribute loop; false when it would never end. */
    method Attributes() returns (attrs: map<string, string>, selfClosing: bool, ends: bool)
      requires i <= |html|
      modifies this`i
      ensures i <= |html|
      ensures var r := ReadAttrs(lang, others, old(Rest()), map[]);
              if ends then r == Some((attrs, selfClosing, Rest())) else r.None?
    {
      hide Decode, SkipSpace, OneAttr, ReadAttrs, Span, NameChar, Suffix;
      attrs := map[];
      while true
        invariant i <= |html|
        invariant ReadAttrs(lang, others, Rest(), attrs) == ReadAttrs(lang, others, old(Rest()), map[])
        decreases |html| - i
      {
        UnfoldAttrs(lang, others, html[i..], attrs);
        SkipBlanks();
        ghost var t := html[i..];
        if i == |html| { return attrs, false, false; }
        if "/>" <= html[i..] {
          i := i + 2;
          return attrs, true, true;
        }
        if html[i] == '>' {
          i := i + 1;
          return attrs, false, true;
        }
        var n := Span(html[i..], NameChar);
        if n == 0 {
          i := i + 1;
        } else {
          var name := Fold(lang, html[i..][..n]);
          var value := Attribute(n);
          attrs := Assign(attrs, name, Decode(others, value));
        }
      }
    }

    method StartTag() returns (ends: bool)
      requires i < |html| && html[i] == '<'
      modifies this
      ensures var r := StartStep(lang, others, old(Rest()), old(State()));
              if ends then i <= |html| && r == Some((Rest(), State())) else r.None?
    {
      hide ReadAttrs, RawStep;
      ghost var s := html[i..];
      var n := TagName(html[i + 1..]);
      assert s[1..] == html[i + 1..];
      if n == 0 {
        Append(Text("<"));
        i := i + 1;
        return true;
      }
      var tag := Fold(lang, html[i + 1..][..n]);
      i := i + 1 + n;
      assert s[1..][n..] == html[i..];
      var attrs, selfClosing;
      attrs, selfClosing, ends := Attributes();
      if !ends { return; }
      if tag in VOID || selfClosing {
        Append(Element(tag, attrs, []));
      } else if RawText(tag) {
        var r := RawStep(lang, tag, attrs, html[i..], State());
        SuffixOfSuffix(r.0, html[i..], html);
        roots, stack := r.1.roots, r.1.frames;
        i := |html| - |r.0|;
      } else {
        stack := stack + [Frame(tag, attrs, [])];
      }
      return true;
    }

    method TextRun()
      requires i < |html| && html[i] != '<'
      modifies this
      ensures i <= |html| && (Rest(), State()) == TextStep(others, old(Rest()), old(State()))
    {
      var j := IndexOf(html[i..], '<');
      Append(Text(Decode(others, html[i..][..j])));
      assert html[i..][j..] == html[i + j..];
      i := i + j;
    }

    method CommentRun()
      requires i <= |html| && "<!--" <= Rest()
      modifies this
      ensures i <= |html| && (Rest(), State()) == CommentStep(old(Rest()), old(State()))
    {
      var s := html[i..];
      var j := Find(s, "-->", 4);
      if j.None? {
        Append(Comment(if |s| - 3 < 4 then "" else s[4..|s| - 3]));
        i := |html|;
        assert html[i..] == "";
      } else {
        Append(Comment(s[4..j.value]));
        assert s[j.value + 3..] == html[i + j.value + 3..];
        i := i + j.value + 3;
      }
    }

    /** parseFragment; None when it would never end. */
    method Run() returns (r: Option<seq<Node>>)
      requires i == 0 && State() == Zip([], [])
      modifies this
      ensures r == ParseFragment(lang, others, html)
    {
      hide TextStep, CommentStep, EndStep, StartStep;
      assert html[0..] == html;
      while i < |html|
        invariant i <= |html|
        invariant Parse(lang, others, Rest(), State()) == ParseFragment(lang, others, html)
        decreases |html| - i
      {
        ghost var s := html[i..];
        if html[i] != '<' {
          TextRun();
        } else if "<!--" <= html[i..] {
          CommentRun();
        } else if "</" <= html[i..] {
          EndTag();
        } else {
          var ends := StartTag();
          if !ends { return None; }
        }
      }
      Truncate(0);
      return Some(roots);
    }
  }
}
