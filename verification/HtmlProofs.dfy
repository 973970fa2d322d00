/** Parsing undoes printing (client/lib/sanitizer.js:239-287, client/test/mini-html5-parser.js). */
module HtmlProofs {
  import opened Sanitizer
  import opened SanitizerProofs
  import opened HtmlParser
  import opened Strings
  import opened Wrappers

  // ----- escaping -----

  predicate NoAngle(s: string)
  {
    '<' !in s
  }

  lemma {:induction false} EscTextConcat(a: string, b: string)
    ensures EscText(a + b) == EscText(a) + EscText(b)
  {
    hide EscTextChar;
    if a == "" {
      assert a + b == b;
    } else {
      assert (a + b)[1..] == a[1..] + b;
      EscTextConcat(a[1..], b);
    }
  }

  lemma {:induction false} EscTextHasNoAngle(s: string)
    ensures NoAngle(EscText(s))
  {
    if s != "" { EscTextHasNoAngle(s[1..]); }
  }

  lemma {:induction false} EscAttrHasNoQuote(s: string)
    ensures '"' !in EscAttr(s)
  {
    if s != "" { EscAttrHasNoQuote(s[1..]); }
  }

  /** A named reference is decoded, and decoding goes on after it. */
  lemma DecodeNamed(others: Others, name: string, rest: string)
    requires name in NAMED
    ensures Decode(others, "&" + name + ";" + rest) == NAMED[name] + Decode(others, rest)
  {
    var s := "&" + name + ";" + rest;
    NameIsLetters(name);
    assert s[1..] == name + ";" + rest;
    assert forall i :: 0 <= i < |name| ==> s[1..][i] == name[i];
    SpanAt(s[1..], Letter, |name|);
    assert s[1..][..|name|] == name && s[|name| + 2..] == rest;
    assert Reference(s[1..]) == Some(name);
  }

  lemma NameIsLetters(name: string)
    requires name in NAMED
    ensures name != "" && forall i :: 0 <= i < |name| ==> Letter(name[i])
  {
  }

  lemma DecodePlain(others: Others, c: char, rest: string)
    requires c != '&'
    ensures Decode(others, [c] + rest) == [c] + Decode(others, rest)
  {
    assert ([c] + rest)[1..] == rest;
  }

  /** Decoding undoes the escaping of text. */
  lemma {:induction false} DecodeEscText(others: Others, s: string)
    ensures Decode(others, EscText(s)) == s
  {
    hide Decode;
    if s == "" {
      DecodeNothing(others);
    } else {
      var rest := EscText(s[1..]);
      DecodeEscText(others, s[1..]);
      match s[0] {
        case '&' => DecodeNamed(others, "amp", rest); assert "&amp;" + rest == "&" + "amp" + ";" + rest;
        case '<' => DecodeNamed(others, "lt", rest); assert "&lt;" + rest == "&" + "lt" + ";" + rest;
        case '>' => DecodeNamed(others, "gt", rest); assert "&gt;" + rest == "&" + "gt" + ";" + rest;
        case c => DecodePlain(others, c, rest);
      }
      assert s == [s[0]] + s[1..];
    }
  }

  lemma DecodeNothing(others: Others)
    ensures Decode(others, "") == ""
  {
  }

  lemma {:induction false} DecodeEscAttr(others: Others, s: string)
    ensures Decode(others, EscAttr(s)) == s
  {
    hide Decode;
    if s == "" {
      DecodeNothing(others);
    } else {
      var rest := EscAttr(s[1..]);
      DecodeEscAttr(others, s[1..]);
      match s[0] {
        case '&' => DecodeNamed(others, "amp", rest); assert "&amp;" + rest == "&" + "amp" + ";" + rest;
        case '"' => DecodeNamed(others, "quot", rest); assert "&quot;" + rest == "&" + "quot" + ";" + rest;
        case c => DecodePlain(others, c, rest);
      }
      assert s == [s[0]] + s[1..];
    }
  }

  // ----- attributes are read back -----

  /** A lower-case name. */
  predicate SmallName(s: string)
  {
    s != "" && forall i :: 0 <= i < |s| ==> 'a' <= s[i] <= 'z'
  }

  ghost predicate Lists(names: seq<string>, keys: set<string>)
  {
    (forall k :: k in names <==> k in keys) && forall i, j :: 0 <= i < j < |names| ==> names[i] != names[j]
  }

  lemma SmallNameFolds(lang: Language, s: string)
    requires AsciiAsUsual(lang) && SmallName(s)
    ensures Fold(lang, s) == s
  {
  }

  lemma SmallNameAssigns(acc: map<string, string>, name: string, value: string)
    requires SmallName(name)
    ensures Assign(acc, name, value) == acc[name := value]
  {
    assert 'a' <= name[0] <= 'z';
  }

  /** One attribute as the serializer writes it. */
  lemma OneAttrReads(lang: Language, others: Others, name: string, value: string, tail: string,
                     acc: map<string, string>)
    requires AsciiAsUsual(lang) && SmallName(name)
    ensures var s := " " + name + "=\"" + EscAttr(value) + "\"" + tail;
            ReadAttrs(lang, others, s, acc) == ReadAttrs(lang, others, tail, acc[name := value])
  {
    hide ReadAttrs, Decode, EscAttr, AsciiAsUsual, Assign;
    var s := " " + name + "=\"" + EscAttr(value) + "\"" + tail;
    var quoted := "\"" + EscAttr(value) + "\"" + tail;
    var t := name + ("=" + quoted);
    assert s[1..] == t && s == " " + t;
    NameStarts(name, "=" + quoted);
    SkipOne(t);
    SmallNameFolds(lang, name);
    assert t[..|name|] == name && t[|name|..] == "=" + quoted;
    EscAttrHasNoQuote(value);
    QuotedReads(EscAttr(value), tail);
    ValueAfterEquals(t, |name|, quoted);
    DecodeEscAttr(others, value);
    SmallNameAssigns(acc, name, value);
    UnfoldAttrs(lang, others, s, acc);
  }

  lemma NameStarts(name: string, rest: string)
    requires SmallName(name) && rest != "" && rest[0] == '='
    ensures Span(name + rest, NameChar) == |name|
    ensures var t := name + rest; t != "" && !JsSpace(t[0]) && t[0] != '>' && t[0] != '/'
  {
    var t := name + rest;
    assert forall i :: 0 <= i < |name| ==> t[i] == name[i];
    assert 'a' <= t[0] <= 'z';
    assert forall i :: 0 <= i < |name| ==> NameChar(t[i]);
    assert t[|name|] == '=';
    SpanAt(t, NameChar, |name|);
  }

  lemma SkipOne(t: string)
    requires t != "" && !JsSpace(t[0])
    ensures SkipSpace(" " + t) == t && SkipSpace(t) == t
  {
    assert (" " + t)[1..] == t && t[0..] == t;
    SpanAt(" " + t, JsSpace, 1);
    SpanAt(t, JsSpace, 0);
  }

  lemma QuotedReads(value: string, tail: string)
    requires '"' !in value
    ensures ReadValue("\"" + value + "\"" + tail) == (value, tail)
  {
    var s := "\"" + value + "\"" + tail;
    assert s[1..] == value + ("\"" + tail);
    assert s[1..][|value|] == '"';
    assert forall i :: 0 <= i < |value| ==> s[1..][i] == value[i] && value[i] in value;
    assert IndexOf(s[1..], '"') == |value|;
    assert s[1..][..|value|] == value && s[1..][|value| + 1..] == tail;
  }

  lemma ValueAfterEquals(t: string, n: nat, quoted: string)
    requires n <= |t| && t[n..] == "=" + quoted && quoted != "" && quoted[0] == '"'
    ensures OneAttr(t, n) == ReadValue(quoted)
  {
    hide ReadValue;
    SkipNone("=" + quoted);
    assert ("=" + quoted)[1..] == quoted;
    SkipNone(quoted);
  }

  lemma SkipNone(s: string)
    requires s != "" && !JsSpace(s[0])
    ensures SkipSpace(s) == s
  {
    SpanAt(s, JsSpace, 0);
    assert s[0..] == s;
  }

  /** The attributes of the names, laid over acc. */
  function Over(acc: map<string, string>, attrs: map<string, string>, names: seq<string>): map<string, string>
    decreases |names|
  {
    if names == [] then acc
    else Over(if names[0] in attrs then acc[names[0] := attrs[names[0]]] else acc, attrs, names[1..])
  }

  lemma {:induction false} AttrsRead(lang: Language, others: Others, attrs: map<string, string>, names: seq<string>,
                                     tail: string, acc: map<string, string>)
    requires AsciiAsUsual(lang) && forall a :: a in attrs ==> SmallName(a)
    ensures ReadAttrs(lang, others, SerializeAttrs(attrs, names) + ">" + tail, acc)
            == Some((Over(acc, attrs, names), false, tail))
  {
    hide ReadAttrs, EscAttr, SmallName, AsciiAsUsual;
    if names == [] {
      var s := "" + ">" + tail;
      assert s == ">" + tail && s[1..] == tail;
      SkipNone(s);
      UnfoldAttrs(lang, others, s, acc);
    } else if names[0] !in attrs {
      AttrsRead(lang, others, attrs, names[1..], tail, acc);
    } else {
      var name, more := names[0], SerializeAttrs(attrs, names[1..]) + ">" + tail;
      assert SerializeAttrs(attrs, names) + ">" + tail == " " + name + "=\"" + EscAttr(attrs[name]) + "\"" + more;
      OneAttrReads(lang, others, name, attrs[name], more, acc);
      AttrsRead(lang, others, attrs, names[1..], tail, acc[name := attrs[name]]);
    }
  }

  /** Listing every attribute gives back the attributes. */
  lemma {:induction false} OverIsAll(acc: map<string, string>, attrs: map<string, string>, names: seq<string>)
    requires forall k :: k in acc ==> k in attrs && acc[k] == attrs[k]
    requires forall k :: k in attrs ==> k in acc || k in names
    ensures Over(acc, attrs, names) == attrs
    decreases |names|
  {
    if names == [] {
      assert acc == attrs;
    } else {
      assert names == [names[0]] + names[1..];
      OverIsAll(if names[0] in attrs then acc[names[0] := attrs[names[0]]] else acc, attrs, names[1..]);
    }
  }

  // ----- tags are read back -----

  predicate SmallTag(s: string)
  {
    s != "" && 'a' <= s[0] <= 'z' && forall i :: 0 <= i < |s| ==> 'a' <= s[i] <= 'z' || Digit(s[i])
  }

  lemma SmallTagFolds(lang: Language, s: string)
    requires AsciiAsUsual(lang) && SmallTag(s)
    ensures Fold(lang, s) == s && Trim(s, JsSpace) == s && '>' !in s
  {
    assert !JsSpace(s[0]) && !JsSpace(s[|s| - 1]);
    TrimTrims(s, JsSpace);
  }

  /** A serialized start tag opens the element, or adds it when it is void. */
  lemma StartReads(lang: Language, others: Others, tag: string, attrs: map<string, string>, names: seq<string>,
                   tail: string,
                   z: Zip)
    requires AsciiAsUsual(lang) && SmallTag(tag) && !RawText(tag)
    requires (forall a :: a in attrs ==> SmallName(a)) && Lists(names, attrs.Keys)
    ensures Turn(lang, others, "<" + tag + SerializeAttrs(attrs, names) + ">" + tail, z)
            == Some((tail, if tag in VOID then z.Append([Element(tag, attrs, [])]) else z.Open(tag, attrs)))
  {
    hide ReadAttrs, SerializeAttrs, AsciiAsUsual, SmallName, Trim, Over, EndStep, CommentStep, Zip.Append;
    var s := "<" + tag + SerializeAttrs(attrs, names) + ">" + tail;
    var a := SerializeAttrs(attrs, names) + ">" + tail;
    assert s[1..] == tag + a && s[1] == tag[0];
    AfterTag(attrs, names, tail);
    TagNameReads(tag, a);
    SmallTagFolds(lang, tag);
    assert s[1..][..|tag|] == tag && s[1..][|tag|..] == a;
    AttrsRead(lang, others, attrs, names, tail, map[]);
    OverIsAll(map[], attrs, names);
    NotCommentNorEnd(s);
  }

  lemma NotCommentNorEnd(s: string)
    requires |s| > 1 && 'a' <= s[1] <= 'z'
    ensures !("<!--" <= s) && !("</" <= s)
  {
  }

  lemma {:induction false} AfterTag(attrs: map<string, string>, names: seq<string>, tail: string)
    ensures var a := SerializeAttrs(attrs, names) + ">" + tail; a != "" && (a[0] == ' ' || a[0] == '>')
  {
    hide EscAttr;
    if names != [] && names[0] !in attrs { AfterTag(attrs, names[1..], tail); }
  }

  lemma TagNameReads(tag: string, a: string)
    requires SmallTag(tag) && a != "" && (a[0] == ' ' || a[0] == '>')
    ensures TagName(tag + a) == |tag|
  {
    var s := tag + a;
    assert forall i :: 0 <= i < |tag| ==> s[i] == tag[i];
    assert s[|tag|] == a[0];
    SpanAt(s, TagChar, |tag|);
  }

  /** A serialized end tag closes the innermost element of that name. */
  lemma EndReads(lang: Language, others: Others, tag: string, tail: string, z: Zip)
    requires AsciiAsUsual(lang) && SmallTag(tag) && z.frames != [] && z.frames[|z.frames| - 1].tag == tag
    ensures Turn(lang, others, "</" + tag + ">" + tail, z) == Some((tail, z.Close()))
  {
    hide AsciiAsUsual, Trim, StartStep, CommentStep, IndexOf, Fold, SmallTag, Zip.Close, Zip.End, Innermost;
    var s := "</" + tag + ">" + tail;
    SmallTagFolds(lang, tag);
    EndTagShape(tag, tail);
    InnermostIsClosed(z, tag);
  }

  lemma EndTagShape(tag: string, tail: string)
    requires '>' !in tag
    ensures var s := "</" + tag + ">" + tail;
            IndexOf(s, '>') == 2 + |tag| < |s| && s[2..2 + |tag|] == tag && s[2 + |tag| + 1..] == tail
            && s[0] == '<' && "</" <= s && !("<!--" <= s)
  {
    var s := "</" + tag + ">" + tail;
    assert s[2 + |tag|] == '>' && s[1] == '/';
    assert forall i :: 0 <= i < |tag| ==> s[i + 2] == tag[i];
    FirstClose(s, 2 + |tag|, tag);
  }

  lemma InnermostIsClosed(z: Zip, tag: string)
    requires z.frames != [] && z.frames[|z.frames| - 1].tag == tag
    ensures z.End(tag) == z.Close()
  {
    assert |z.Close().frames| == |z.frames| - 1;
    assert z.CloseTo(|z.frames| - 1) == z.Close().CloseTo(|z.frames| - 1);
  }

  lemma FirstClose(s: string, n: nat, tag: string)
    requires n == 2 + |tag| < |s| && s[n] == '>' && s[0] == '<' && s[1] == '/' && '>' !in tag
    requires forall i :: 0 <= i < |tag| ==> s[i + 2] == tag[i]
    ensures IndexOf(s, '>') == n
  {
    forall j | 0 <= j < n ensures s[j] != '>'
    {
      if j >= 2 {
        assert s[j - 2 + 2] == tag[j - 2];
        assert tag[j - 2] in tag;
      }
    }
  }

  // ----- what is read back -----

  /** Neighbouring texts joined, empty ones gone, and no children below void elements. */
  function Merge(pre: string, nodes: seq<Node>): seq<Node>
  {
    if pre == "" then nodes
    else if nodes != [] && nodes[0].Text? then [Text(pre + nodes[0].text)] + nodes[1..]
    else [Text(pre)] + nodes
  }

  function Normalize(nodes: seq<Node>): seq<Node>
    decreases nodes
  {
    if nodes == [] then []
    else
      match nodes[0]
      case Text(text) => Merge(text, Normalize(nodes[1..]))
      case Comment(_) => [nodes[0]] + Normalize(nodes[1..])
      case Element(_, _, _) => [NormalizeNode(nodes[0])] + Normalize(nodes[1..])
  }

  function NormalizeNode(n: Node): Node
    decreases n
  {
    if n.Element? then Element(n.tag, n.attrs, if n.tag in VOID then [] else Normalize(n.kids)) else n
  }

  /** No comments; element and attribute names the parser reads back. */
  ghost predicate Readable(nodes: seq<Node>)
    decreases nodes
  {
    nodes == [] || (ReadableNode(nodes[0]) && Readable(nodes[1..]))
  }

  ghost predicate ReadableNode(n: Node)
    decreases n
  {
    match n
    case Text(_) => true
    case Comment(_) => false
    case Element(tag, attrs, kids) =>
      SmallTag(tag) && !RawText(tag) && (forall a :: a in attrs ==> SmallName(a)) && Readable(kids)
  }

  ghost predicate OrderOk(order: Order)
  {
    forall keys :: Lists(order(keys), keys)
  }

  ghost function Listing(keys: set<string>): (names: seq<string>)
    ensures Lists(names, keys)
    decreases |keys|
  {
    if keys == {} then []
    else
      var k :| k in keys;
      [k] + Listing(keys - {k})
  }

  /** There is such an order. */
  lemma OrdersExist()
    ensures exists order: Order :: OrderOk(order)
  {
    var order: Order := keys => Listing(keys);
    assert OrderOk(order);
  }

  lemma AppendTwice(z: Zip, a: seq<Node>, b: seq<Node>)
    ensures z.Append(a).Append(b) == z.Append(a + b) && z.Append([]) == z
  {
    if z.frames == [] {
      assert z.roots + a + b == z.roots + (a + b) && z.roots + [] == z.roots;
    } else {
      var top := z.frames[|z.frames| - 1];
      assert top.kids + a + b == top.kids + (a + b) && top.kids + [] == top.kids;
      assert z.frames[..|z.frames| - 1] + [top] == z.frames;
    }
  }

  lemma TextTurn(lang: Language, others: Others, pre: string, tail: string, z: Zip)
    requires pre != "" && (tail == "" || tail[0] == '<')
    ensures EscText(pre) != ""
    ensures Turn(lang, others, EscText(pre) + tail, z) == Some((tail, z.Append([Text(pre)])))
  {
    hide Decode, Zip.Append, CommentStep, EndStep, StartStep, EscText, EscTextChar;
    var s := EscText(pre) + tail;
    EscTextHasNoAngle(pre);
    EscNotEmpty(pre);
    forall i | 0 <= i < |EscText(pre)| ensures s[i] != '<' { assert s[i] == EscText(pre)[i]; }
    IndexAt(s, '<', |EscText(pre)|);
    assert s[..|EscText(pre)|] == EscText(pre) && s[|EscText(pre)|..] == tail;
    DecodeEscText(others, pre);
  }

  lemma EscNotEmpty(pre: string)
    requires pre != ""
    ensures EscText(pre) != ""
  {
  }

  /** A run of escaped text is read as one text node. */
  lemma TextReads(lang: Language, others: Others, pre: string, tail: string, z: Zip)
    requires tail == "" || tail[0] == '<'
    ensures Parse(lang, others, EscText(pre) + tail, z)
            == Parse(lang, others, tail, if pre == "" then z else z.Append([Text(pre)]))
  {
    hide Parse, Turn, Zip.Append, EscText;
    if pre == "" {
      EmptyText(tail);
    } else {
      TextTurn(lang, others, pre, tail, z);
      ParseTurn(lang, others, EscText(pre) + tail, z);
    }
  }

  lemma StartsWithAngle(order: Order, n: Node, tail: string)
    requires n.Element?
    ensures (SerializeNode(order, n) + tail)[0] == '<'
  {
    hide Serialize, SerializeAttrs;
  }

  /** An element's text is read as the element, whatever is open around it. */
  lemma {:induction false} ElementReads(lang: Language, others: Others, order: Order, n: Node, tail: string, z: Zip)
    requires AsciiAsUsual(lang) && OrderOk(order) && n.Element? && ReadableNode(n)
    ensures Parse(lang, others, SerializeNode(order, n) + tail, z)
            == Parse(lang, others, tail, z.Append([NormalizeNode(n)]))
    decreases n
  {
    hide AsciiAsUsual, Turn, SerializeAttrs, SmallTag, SmallName, Lists, Serialize, Normalize, Parse, Zip.Append;
    var names := order(n.attrs.Keys);
    assert Lists(names, n.attrs.Keys);
    var a := SerializeAttrs(n.attrs, names);
    var s := SerializeNode(order, n) + tail;
    if n.tag in VOID {
      assert s == "<" + n.tag + a + ">" + tail;
      StartReads(lang, others, n.tag, n.attrs, names, tail, z);
      ParseTurn(lang, others, s, z);
    } else {
      var end := "</" + n.tag + ">" + tail;
      var inner := Serialize(order, n.kids) + end;
      VoidOrNot(order, n, tail);
      assert s == "<" + n.tag + a + ">" + inner;
      StartReads(lang, others, n.tag, n.attrs, names, inner, z);
      ParseTurn(lang, others, s, z);
      var entered := z.Open(n.tag, n.attrs);
      ForestReads(lang, others, order, n.kids, "", end, entered);
      assert EscText("") + inner == inner;
      var filled := entered.Append(Normalize(n.kids));
      FilledFrame(z, n, Normalize(n.kids));
      EndReads(lang, others, n.tag, tail, filled);
      ParseTurn(lang, others, end, filled);
    }
  }

  lemma VoidOrNot(order: Order, n: Node, tail: string)
    requires n.Element? && n.tag !in VOID
    ensures SerializeNode(order, n) + tail
            == "<" + n.tag + SerializeAttrs(n.attrs, order(n.attrs.Keys)) + ">"
               + (Serialize(order, n.kids) + ("</" + n.tag + ">" + tail))
  {
    hide Serialize, SerializeAttrs;
  }

  lemma ParseTurn(lang: Language, others: Others, s: string, z: Zip)
    requires s != ""
    ensures Parse(lang, others, s, z)
            == match Turn(lang, others, s, z) case None => None
              case Some((rest, next)) => Parse(lang, others, rest, next)
  {
    hide Turn;
  }

  lemma FilledFrame(z: Zip, n: Node, kids: seq<Node>)
    requires n.Element?
    ensures var filled := z.Open(n.tag, n.attrs).Append(kids);
            filled.frames != [] && filled.frames[|filled.frames| - 1].tag == n.tag
            && filled.Close() == z.Append([Element(n.tag, n.attrs, kids)])
  {
    assert [] + kids == kids;
    var filled := z.Open(n.tag, n.attrs).Append(kids);
    assert filled.frames == z.frames + [Frame(n.tag, n.attrs, kids)];
    assert filled.frames[..|filled.frames| - 1] == z.frames;
  }

  /** A forest's text is read as the normalized forest, with pending text before it. */
  lemma {:induction false} ForestReads(lang: Language, others: Others, order: Order, nodes: seq<Node>, pre: string,
                                       rest: string, z: Zip)
    requires AsciiAsUsual(lang) && OrderOk(order) && Readable(nodes) && (rest == "" || rest[0] == '<')
    ensures Parse(lang, others, EscText(pre) + (Serialize(order, nodes) + rest), z)
            == Parse(lang, others, rest, z.Append(Merge(pre, Normalize(nodes))))
    decreases nodes, 1
  {
    hide AsciiAsUsual, OrderOk, EscText, Serialize, SerializeNode, Parse, Zip.Append, NormalizeNode, ReadableNode,
         Merge;
    if nodes == [] {
      assert Serialize(order, nodes) + rest == rest by { NoForest(order); }
      TextReads(lang, others, pre, rest, z);
      AppendTwice(z, [], []);
      MergeNothing(pre);
    } else {
      var n := nodes[0];
      ForestText(order, nodes, rest);
      NoComment(n);
      if n.Text? {
        ForestReads(lang, others, order, nodes[1..], pre + n.text, rest, z);
        EscTextConcat(pre, n.text);
        TextNode(order, n);
        var tail := Serialize(order, nodes[1..]) + rest;
        assert EscText(pre) + (EscText(n.text) + tail) == EscText(pre + n.text) + tail;
        MergeTwice(pre, n.text, Normalize(nodes[1..]));
      } else {
        ElementThenForest(lang, others, order, nodes, pre, rest, z);
      }
    }
  }

  lemma NoForest(order: Order)
    ensures Serialize(order, []) == ""
  {
  }

  lemma MergeNothing(pre: string)
    ensures Merge(pre, []) == if pre == "" then [] else [Text(pre)]
  {
  }

  lemma ForestText(order: Order, nodes: seq<Node>, rest: string)
    requires nodes != []
    ensures Serialize(order, nodes) + rest == SerializeNode(order, nodes[0]) + (Serialize(order, nodes[1..]) + rest)
  {
    hide SerializeNode;
  }

  lemma {:induction false} ElementThenForest(lang: Language, others: Others, order: Order, nodes: seq<Node>,
                                             pre: string, rest: string, z: Zip)
    requires AsciiAsUsual(lang) && OrderOk(order) && Readable(nodes) && (rest == "" || rest[0] == '<')
    requires nodes != [] && nodes[0].Element?
    ensures Parse(lang, others,
            EscText(pre) + (SerializeNode(order, nodes[0]) + (Serialize(order, nodes[1..]) + rest)), z)
            == Parse(lang, others, rest, z.Append(Merge(pre, [NormalizeNode(nodes[0])] + Normalize(nodes[1..]))))
    decreases nodes, 0
  {
    hide AsciiAsUsual, OrderOk, EscText, Serialize, SerializeNode, Parse, Zip.Append, NormalizeNode, ReadableNode,
         Merge, Normalize;
    var n, tail := nodes[0], Serialize(order, nodes[1..]) + rest;
    StartsWithAngle(order, n, tail);
    TextReads(lang, others, pre, SerializeNode(order, n) + tail, z);
    var z1 := if pre == "" then z else z.Append([Text(pre)]);
    ElementReads(lang, others, order, n, tail, z1);
    ForestReads(lang, others, order, nodes[1..], "", rest, z1.Append([NormalizeNode(n)]));
    EmptyText(tail);
    StillElement(n);
    AppendAll(z, pre, NormalizeNode(n), Normalize(nodes[1..]));
  }

  lemma StillElement(n: Node)
    requires n.Element?
    ensures NormalizeNode(n).Element?
  {
  }

  lemma NoComment(n: Node)
    requires ReadableNode(n)
    ensures !n.Comment?
  {
  }

  lemma TextNode(order: Order, n: Node)
    requires n.Text?
    ensures SerializeNode(order, n) == EscText(n.text)
  {
  }

  lemma EmptyText(tail: string)
    ensures EscText("") + tail == tail
  {
  }

  lemma MergeTwice(a: string, b: string, nodes: seq<Node>)
    ensures Merge(a, Merge(b, nodes)) == Merge(a + b, nodes)
  {
    if a == "" { assert a + b == b; }
    if b == "" { assert a + b == a; }
    if nodes != [] && nodes[0].Text? { assert a + (b + nodes[0].text) == (a + b) + nodes[0].text; }
  }

  lemma AppendAll(z: Zip, pre: string, e: Node, more: seq<Node>)
    requires e.Element?
    ensures var z1 := if pre == "" then z else z.Append([Text(pre)]);
            z1.Append([e]).Append(Merge("", more)) == z.Append(Merge(pre, [e] + more))
  {
    hide Zip.Append;
    var z1 := if pre == "" then z else z.Append([Text(pre)]);
    AppendTwice(z1, [e], more);
    AppendTwice(z, [Text(pre)], [e] + more);
    assert [Text(pre)] + ([e] + more) == [Text(pre)] + [e] + more;
  }

  /** Parsing undoes printing, up to joining texts, dropping empty ones and what is below void elements. */
  lemma ParseOfSerialize(lang: Language, others: Others, order: Order, nodes: seq<Node>)
    requires AsciiAsUsual(lang) && OrderOk(order) && Readable(nodes)
    ensures ParseFragment(lang, others, Serialize(order, nodes)) == Some(Normalize(nodes))
  {
    hide AsciiAsUsual, OrderOk, Serialize, Normalize, Readable;
    ForestReads(lang, others, order, nodes, "", "", Zip([], []));
    assert Serialize(order, nodes) + "" == Serialize(order, nodes);
    EmptyText(Serialize(order, nodes));
    assert [] + Normalize(nodes) == Normalize(nodes);
  }

  // ----- the filter's output is readable -----

  lemma BlockTagsAreSmall(tag: string)
    requires tag in BLOCK_TAGS
    ensures SmallTag(tag) && !RawText(tag) && forall a :: a in BLOCK_TAGS[tag] ==> SmallName(a)
  {
  }

  lemma ListTagsAreSmall(tag: string)
    requires tag in LIST_TAGS
    ensures SmallTag(tag) && !RawText(tag) && forall a :: a in LIST_TAGS[tag] ==> SmallName(a)
  {
  }

  lemma InlineTagsAreSmall(tag: string)
    requires tag in INLINE_TAGS
    ensures SmallTag(tag) && !RawText(tag) && forall a :: a in INLINE_TAGS[tag] ==> SmallName(a)
  {
  }

  lemma OtherTagsAreSmall(tag: string)
    requires tag in OTHER_TAGS
    ensures SmallTag(tag) && !RawText(tag) && forall a :: a in OTHER_TAGS[tag] ==> SmallName(a)
  {
  }

  lemma PermittedAreSmall(tag: string)
    requires IsPermitted(tag)
    ensures SmallTag(tag) && !RawText(tag) && forall a :: a in OwnAttrs(tag).value ==> SmallName(a)
  {
    hide SmallTag, SmallName, RawText;
    if tag in BLOCK_TAGS { BlockTagsAreSmall(tag); }
    else if tag in LIST_TAGS { ListTagsAreSmall(tag); }
    else if tag in INLINE_TAGS { InlineTagsAreSmall(tag); }
    else { OtherTagsAreSmall(tag); }
  }

  lemma GlobalsAreSmall(a: string)
    requires a in GLOBAL_ATTRS
    ensures SmallName(a)
  {
  }

  // ----- when nothing is lost -----

  /** No empty text, no two texts in a row, nothing below a void element. */
  predicate Normal(nodes: seq<Node>)
    decreases nodes
  {
    nodes == []
    || (NormalNode(nodes[0]) && Normal(nodes[1..]) && (nodes[0].Text? && |nodes| > 1 ==> !nodes[1].Text?))
  }

  predicate NormalNode(n: Node)
    decreases n
  {
    match n
    case Text(text) => text != ""
    case Comment(_) => true
    case Element(tag, _, kids) => Normal(kids) && (tag in VOID ==> kids == [])
  }

  lemma MergeIsNormal(pre: string, nodes: seq<Node>)
    requires Normal(nodes)
    ensures Normal(Merge(pre, nodes))
  {
    if pre != "" && nodes != [] && nodes[0].Text? {
      assert Merge(pre, nodes)[1..] == nodes[1..];
    } else if pre != "" {
      assert Merge(pre, nodes)[1..] == nodes;
    }
  }

  lemma {:induction false} NormalizedIsNormal(nodes: seq<Node>)
    ensures Normal(Normalize(nodes))
    decreases nodes
  {
    if nodes != [] {
      NormalizedIsNormal(nodes[1..]);
      var more := Normalize(nodes[1..]);
      match nodes[0] {
        case Text(text) => MergeIsNormal(text, more);
        case Comment(_) => assert Normalize(nodes)[1..] == more;
        case Element(_, _, kids) =>
          NormalizedIsNormal(kids);
          assert Normalize(nodes)[1..] == more;
      }
    }
  }

  lemma {:induction false} NormalStays(nodes: seq<Node>)
    requires Normal(nodes)
    ensures Normalize(nodes) == nodes
    decreases nodes
  {
    if nodes != [] {
      NormalStays(nodes[1..]);
      assert nodes == [nodes[0]] + nodes[1..];
      if nodes[0].Element? { NormalStays(nodes[0].kids); }
    }
  }

  lemma SameMap(a: map<string, string>, b: map<string, string>)
    requires |a| == |b| && forall k :: k in a ==> k in b && a[k] == b[k]
    ensures a == b
  {
    SubsetSize(a.Keys, b.Keys);
    assert a.Keys == b.Keys;
  }

  /** For a tree without comments the comparison is equality. */
  lemma {:induction false} TreesEqualIsEquality(a: seq<Node>, b: seq<Node>)
    requires Readable(a)
    ensures TreesEqual(a, b) <==> a == b
    decreases a
  {
    if |a| == |b| && a != [] {
      TreesEqualIsEquality(a[1..], b[1..]);
      assert a == [a[0]] + a[1..] && b == [b[0]] + b[1..];
      var x, y := a[0], b[0];
      if x.Element? && y.Element? {
        TreesEqualIsEquality(x.kids, y.kids);
        if NodesEqual(x, y) { SameMap(x.attrs, y.attrs); }
      }
    }
  }
}
