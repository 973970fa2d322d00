/**
 The client's form of the filter (client/lib/sanitizer.js:170-234). Its table is an object literal, asked with `in`: it
 also finds the names every object inherits, and what is found for them has no list of attributes to ask.
 */
module ClientFilter {
  import opened Sanitizer
  import opened Wrappers

  /** The inherited names without an upper-case letter; the filter asks for lower-case tags only. */
  const INHERITED: set<string> := {"constructor", "__proto__"}

  /** Raised: the filter threw a TypeError. */
  datatype Filtered = Raised | Passed(nodes: seq<Node>)

  /** The tag is found in the table. */
  predicate Found(tag: string)
  {
    tag in INHERITED || IsPermitted(tag)
  }

  /** Some attribute is looked up in the element's own list: any but `name`, which is skipped before. */
  predicate LooksUp(attrs: map<string, string>)
  {
    exists a :: a in attrs && a != "name"
  }

  /** What is left of the attributes when nothing is thrown; None removes the element. */
  function FoundAttrs(lang: Language, tag: string, attrs: map<string, string>, manifest: set<string>)
    : Option<map<string, string>>
    requires Found(tag)
  {
    if tag in INHERITED then Some(map[]) else FilterAttrs(lang, tag, attrs, manifest)
  }

  method AttrsLoop(lang: Language, tag: string, attrs: map<string, string>, manifest: set<string>)
    returns (threw: bool, kept: Option<map<string, string>>)
    requires Found(tag)
    ensures threw <==> tag in INHERITED && LooksUp(attrs)
    ensures !threw ==> kept == FoundAttrs(lang, tag, attrs, manifest)
  {
    hide FilterAttr, OwnAttrs;
    var out := map[];
    var left := attrs.Keys;
    while left != {}
      invariant left <= attrs.Keys
      invariant tag in INHERITED ==> out == map[] && forall name :: name in attrs && name !in left ==> name == "name"
      invariant tag !in INHERITED ==>
                  out == map name | name in attrs && name !in left
                         && FilterAttr(lang, tag, name, attrs[name], manifest).Some?
                                  :: FilterAttr(lang, tag, name, attrs[name], manifest).value
    {
      var name :| name in left;
      left := left - {name};
      if name == "name" {
        if tag !in INHERITED { NameIsDropped(lang, tag, attrs[name], manifest); }
      } else if tag in INHERITED {
        return true, None;
      } else {
        var value := FilterAttr(lang, tag, name, attrs[name], manifest);
        if value.Some? { out := out[name := value.value]; }
      }
    }
    if tag in INHERITED { return false, Some(map[]); }
    assert out == Kept(lang, tag, attrs, manifest);
    if tag in EMBEDS && "src" !in out { return false, None; }
    if tag == "img" && "alt" !in out { out := out["alt" := ""]; }
    return false, Some(out);
  }

  lemma NameIsDropped(lang: Language, tag: string, value: string, manifest: set<string>)
    requires IsPermitted(tag)
    ensures FilterAttr(lang, tag, "name", value, manifest).None?
  {
  }

  function FilterNode(lang: Language, n: Node, manifest: set<string>): Filtered
    decreases n
  {
    match n
    case Comment(_) => Passed([])
    case Text(_) => Passed([n])
    case Element(tag, attrs, kids) =>
      if tag in DROPPED then Passed([])
      else
        var inner := FilterTree(lang, kids, manifest);
        if inner.Raised? then Raised
        else if !Found(tag) then inner
        else if tag in INHERITED && LooksUp(attrs) then Raised
        else
          var kept := FoundAttrs(lang, tag, attrs, manifest);
          Passed(if kept.None? then [] else [Element(tag, kept.value, inner.nodes)])
  }

  function FilterTree(lang: Language, nodes: seq<Node>, manifest: set<string>): Filtered
    decreases nodes
  {
    if nodes == [] then Passed([])
    else
      var front := FilterTree(lang, nodes[..|nodes| - 1], manifest);
      if front.Raised? then Raised
      else
        var last := FilterNode(lang, nodes[|nodes| - 1], manifest);
        if last.Raised? then Raised else Passed(front.nodes + last.nodes)
  }

  /** Once raised, more siblings change nothing. */
  lemma {:induction false} RaisedStays(lang: Language, nodes: seq<Node>, i: nat, manifest: set<string>)
    requires i <= |nodes| && FilterTree(lang, nodes[..i], manifest).Raised?
    ensures FilterTree(lang, nodes, manifest).Raised?
    decreases |nodes|
  {
    if i == |nodes| {
      assert nodes[..i] == nodes;
    } else {
      assert nodes[..|nodes| - 1][..i] == nodes[..i];
      RaisedStays(lang, nodes[..|nodes| - 1], i, manifest);
    }
  }

  /** sanitizeTree: the loop over the siblings, which a throw leaves at once. */
  method Filter(lang: Language, nodes: seq<Node>, manifest: set<string>) returns (r: Filtered)
    ensures r == FilterTree(lang, nodes, manifest)
    decreases nodes
  {
    hide FoundAttrs, Found, LooksUp;
    var out := [];
    for i := 0 to |nodes|
      invariant FilterTree(lang, nodes[..i], manifest) == Passed(out)
    {
      assert nodes[..i + 1][..i] == nodes[..i];
      match nodes[i] {
        case Comment(_) =>
        case Text(text) => out := out + [Text(text)];
        case Element(tag, attrs, kids) =>
          if tag !in DROPPED {
            var inner := Filter(lang, kids, manifest);
            if inner.Raised? {
              RaisedStays(lang, nodes, i + 1, manifest);
              return Raised;
            }
            if !Found(tag) {
              out := out + inner.nodes;
            } else {
              var threw, kept := AttrsLoop(lang, tag, attrs, manifest);
              if threw {
                RaisedStays(lang, nodes, i + 1, manifest);
                return Raised;
              }
              if kept.Some? { out := out + [Element(tag, kept.value, inner.nodes)]; }
            }
          }
      }
    }
    assert nodes[..|nodes|] == nodes;
    return Passed(out);
  }
}
