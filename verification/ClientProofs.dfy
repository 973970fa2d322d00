/** When the client's filter throws, what it leaves, and when it is the server's filter. */
module ClientProofs {
  import opened ClientFilter
  import opened Sanitizer
  import opened SanitizerProofs
  import opened Wrappers

  // ----- the inherited names are in no table -----

  /** What no inherited name is. */
  predicate Short(tag: string)
  {
    0 < |tag| <= 10 && tag[0] != '_'
  }

  lemma BlockTagsAreShort(tag: string)
    requires tag in BLOCK_TAGS
    ensures Short(tag)
  {
  }

  lemma ListTagsAreShort(tag: string)
    requires tag in LIST_TAGS
    ensures Short(tag)
  {
  }

  lemma InlineTagsAreShort(tag: string)
    requires tag in INLINE_TAGS
    ensures Short(tag)
  {
  }

  lemma OtherTagsAreShort(tag: string)
    requires tag in OTHER_TAGS
    ensures Short(tag)
  {
  }

  lemma DroppedAreShort(tag: string)
    requires tag in DROPPED || tag in EMBEDS
    ensures Short(tag)
  {
  }

  lemma InheritedAreNotShort(tag: string)
    requires tag in INHERITED
    ensures !Short(tag)
  {
    if tag == "constructor" { assert |tag| == 11; } else { assert tag[0] == '_'; }
  }

  lemma InheritedName(tag: string)
    requires tag in INHERITED
    ensures tag !in DROPPED && tag !in EMBEDS && !IsPermitted(tag) && Found(tag)
  {
    hide Short;
    InheritedAreNotShort(tag);
    if tag in DROPPED || tag in EMBEDS { DroppedAreShort(tag); }
    if tag in BLOCK_TAGS { BlockTagsAreShort(tag); }
    if tag in LIST_TAGS { ListTagsAreShort(tag); }
    if tag in INLINE_TAGS { InlineTagsAreShort(tag); }
    if tag in OTHER_TAGS { OtherTagsAreShort(tag); }
  }

  lemma InheritedNames()
    ensures forall tag :: tag in INHERITED ==> tag !in DROPPED && tag !in EMBEDS && !IsPermitted(tag) && Found(tag)
  {
    hide IsPermitted, Found;
    forall tag | tag in INHERITED
      ensures tag !in DROPPED && tag !in EMBEDS && !IsPermitted(tag) && Found(tag)
    {
      InheritedName(tag);
    }
  }

  // ----- when it throws -----

  /** n stands in the forest outside every dropped element. */
  ghost predicate Reaches(n: Node, nodes: seq<Node>)
    decreases nodes
  {
    exists i :: 0 <= i < |nodes| && ReachesIn(n, nodes[i])
  }

  ghost predicate ReachesIn(n: Node, m: Node)
    decreases m
  {
    n == m || (m.Element? && m.tag !in DROPPED && Reaches(n, m.kids))
  }

  /** An element of an inherited name with an attribute to look up. */
  ghost predicate Offends(n: Node)
  {
    n.Element? && n.tag in INHERITED && LooksUp(n.attrs)
  }

  lemma {:induction false} RaisedByOffender(lang: Language, nodes: seq<Node>, manifest: set<string>) returns (n: Node)
    requires FilterTree(lang, nodes, manifest).Raised?
    ensures Offends(n) && Reaches(n, nodes)
    decreases nodes
  {
    hide FoundAttrs, Found, LooksUp;
    var front, last := nodes[..|nodes| - 1], nodes[|nodes| - 1];
    if FilterTree(lang, front, manifest).Raised? {
      n := RaisedByOffender(lang, front, manifest);
      var i :| 0 <= i < |front| && ReachesIn(n, front[i]);
      assert ReachesIn(n, nodes[i]);
    } else {
      if FilterTree(lang, last.kids, manifest).Raised? {
        n := RaisedByOffender(lang, last.kids, manifest);
      } else {
        n := last;
      }
      assert ReachesIn(n, nodes[|nodes| - 1]);
    }
  }

  lemma {:induction false} OffenderRaises(lang: Language, n: Node, nodes: seq<Node>, manifest: set<string>)
    requires Offends(n) && Reaches(n, nodes)
    ensures FilterTree(lang, nodes, manifest).Raised?
    decreases nodes
  {
    hide FoundAttrs, Found, LooksUp;
    var i :| 0 <= i < |nodes| && ReachesIn(n, nodes[i]);
    var m := nodes[i];
    InheritedNames();
    if n != m { OffenderRaises(lang, n, m.kids, manifest); }
    assert FilterNode(lang, m, manifest).Raised?;
    assert nodes[..i + 1][..i] == nodes[..i];
    RaisedStays(lang, nodes, i + 1, manifest);
  }

  /**
   The filter throws if and only if some element of an inherited name, outside every dropped element, has an attribute
   other than `name`.
   */
  lemma ThrowsExactlyWhen(lang: Language, nodes: seq<Node>, manifest: set<string>)
    ensures FilterTree(lang, nodes, manifest).Raised? <==> exists n :: Offends(n) && Reaches(n, nodes)
  {
    hide FilterTree, Offends, Reaches;
    if FilterTree(lang, nodes, manifest).Raised? {
      var n := RaisedByOffender(lang, nodes, manifest);
    }
    forall n | Offends(n) && Reaches(n, nodes) ensures FilterTree(lang, nodes, manifest).Raised?
    {
      OffenderRaises(lang, n, nodes, manifest);
    }
  }

  // ----- what it leaves -----

  /** The filter has nothing more to do: it leaves what its table holds, and bare elements of inherited names. */
  ghost predicate Settled(lang: Language, nodes: seq<Node>, manifest: set<string>)
    decreases nodes
  {
    forall i :: 0 <= i < |nodes| ==> SettledNode(lang, nodes[i], manifest)
  }

  ghost predicate SettledNode(lang: Language, n: Node, manifest: set<string>)
    decreases n
  {
    match n
    case Comment(_) => false
    case Text(_) => true
    case Element(tag, attrs, kids) =>
      tag !in DROPPED && Found(tag) && FoundAttrs(lang, tag, attrs, manifest) == Some(attrs)
      && Settled(lang, kids, manifest)
  }

  lemma SettledConcat(lang: Language, a: seq<Node>, b: seq<Node>, manifest: set<string>)
    ensures Settled(lang, a + b, manifest) <==> Settled(lang, a, manifest) && Settled(lang, b, manifest)
  {
    hide SettledNode;
    if Settled(lang, a + b, manifest) {
      assert forall i :: 0 <= i < |a| ==> (a + b)[i] == a[i];
      forall i | 0 <= i < |b| ensures SettledNode(lang, b[i], manifest) { assert (a + b)[|a| + i] == b[i]; }
    }
  }

  lemma OneIsSettled(lang: Language, n: Node, manifest: set<string>)
    ensures Settled(lang, [n], manifest) <==> SettledNode(lang, n, manifest)
    ensures Settled(lang, [], manifest)
  {
    assert [n][0] == n;
  }

  lemma FoundAttrsStay(lang: Language, tag: string, attrs: map<string, string>, manifest: set<string>)
    requires AsciiAsUsual(lang) && Found(tag) && FoundAttrs(lang, tag, attrs, manifest).Some?
    ensures var out := FoundAttrs(lang, tag, attrs, manifest).value;
            FoundAttrs(lang, tag, out, manifest) == Some(out)
  {
    hide FilterAttrs, OwnAttrs;
    if tag !in INHERITED { AttrsAreIdempotent(lang, tag, attrs, manifest); }
  }

  lemma {:induction false} FilteredIsSettled(lang: Language, nodes: seq<Node>, manifest: set<string>)
    requires AsciiAsUsual(lang) && FilterTree(lang, nodes, manifest).Passed?
    ensures Settled(lang, FilterTree(lang, nodes, manifest).nodes, manifest)
    decreases nodes
  {
    hide Settled, AsciiAsUsual, FoundAttrs, Found, LooksUp;
    if nodes == [] {
      OneIsSettled(lang, Text(""), manifest);
    } else {
      var front, last := nodes[..|nodes| - 1], nodes[|nodes| - 1];
      FilteredIsSettled(lang, front, manifest);
      FilteredNodeIsSettled(lang, last, manifest);
      SettledConcat(lang, FilterTree(lang, front, manifest).nodes, FilterNode(lang, last, manifest).nodes, manifest);
    }
  }

  lemma {:induction false} FilteredNodeIsSettled(lang: Language, n: Node, manifest: set<string>)
    requires AsciiAsUsual(lang) && FilterNode(lang, n, manifest).Passed?
    ensures Settled(lang, FilterNode(lang, n, manifest).nodes, manifest)
    decreases n
  {
    hide Settled, AsciiAsUsual, FoundAttrs, Found, LooksUp;
    OneIsSettled(lang, n, manifest);
    if n.Element? && n.tag !in DROPPED {
      FilteredIsSettled(lang, n.kids, manifest);
      if Found(n.tag) {
        var kept := FoundAttrs(lang, n.tag, n.attrs, manifest);
        if kept.Some? {
          FoundAttrsStay(lang, n.tag, n.attrs, manifest);
          OneIsSettled(lang, Element(n.tag, kept.value, FilterTree(lang, n.kids, manifest).nodes), manifest);
        }
      }
    }
  }

  lemma BareElementsPass(lang: Language, tag: string, attrs: map<string, string>, manifest: set<string>)
    requires Found(tag) && FoundAttrs(lang, tag, attrs, manifest) == Some(attrs)
    ensures !(tag in INHERITED && LooksUp(attrs))
  {
    hide FilterAttrs, OwnAttrs;
  }

  /** A second run finds nothing to do and does not throw. */
  lemma {:induction false} SettledStays(lang: Language, nodes: seq<Node>, manifest: set<string>)
    requires Settled(lang, nodes, manifest)
    ensures FilterTree(lang, nodes, manifest) == Passed(nodes)
    decreases nodes
  {
    hide FoundAttrs, Found, LooksUp;
    if nodes != [] {
      var front, last := nodes[..|nodes| - 1], nodes[|nodes| - 1];
      assert nodes == front + [last];
      SettledConcat(lang, front, [last], manifest);
      SettledStays(lang, front, manifest);
      assert SettledNode(lang, last, manifest);
      if last.Element? {
        SettledStays(lang, last.kids, manifest);
        BareElementsPass(lang, last.tag, last.attrs, manifest);
      }
    }
  }

  /** Filtering what passed the filter once never throws, and changes nothing. */
  lemma FilteringIsIdempotent(lang: Language, nodes: seq<Node>, manifest: set<string>)
    requires AsciiAsUsual(lang) && FilterTree(lang, nodes, manifest).Passed?
    ensures FilterTree(lang, FilterTree(lang, nodes, manifest).nodes, manifest) == FilterTree(lang, nodes, manifest)
  {
    hide AsciiAsUsual, Settled, FilterTree;
    FilteredIsSettled(lang, nodes, manifest);
    SettledStays(lang, FilterTree(lang, nodes, manifest).nodes, manifest);
  }

  // ----- when only the table's tags are left -----

  ghost predicate OnlyTableTags(nodes: seq<Node>)
    decreases nodes
  {
    forall i :: 0 <= i < |nodes| ==> TableTagsIn(nodes[i])
  }

  ghost predicate TableTagsIn(n: Node)
    decreases n
  {
    n.Element? ==> IsPermitted(n.tag) && OnlyTableTags(n.kids)
  }

  /** An embed that names nothing in the manifest, which goes with all it holds. */
  ghost predicate Removed(lang: Language, n: Node, manifest: set<string>)
  {
    n.Element? && Found(n.tag) && FoundAttrs(lang, n.tag, n.attrs, manifest).None?
  }

  /** n stands in the forest outside every dropped or removed element. */
  ghost predicate Survives(lang: Language, n: Node, nodes: seq<Node>, manifest: set<string>)
    decreases nodes
  {
    exists i :: 0 <= i < |nodes| && SurvivesIn(lang, n, nodes[i], manifest)
  }

  ghost predicate SurvivesIn(lang: Language, n: Node, m: Node, manifest: set<string>)
    decreases m
  {
    n == m || (m.Element? && m.tag !in DROPPED && !Removed(lang, m, manifest) && Survives(lang, n, m.kids, manifest))
  }

  ghost predicate Foreign(n: Node)
  {
    n.Element? && n.tag in INHERITED
  }

  lemma OneHasTableTags(n: Node)
    ensures OnlyTableTags([n]) <==> TableTagsIn(n)
    ensures OnlyTableTags([])
  {
    assert [n][0] == n;
  }

  lemma TableTagsConcat(a: seq<Node>, b: seq<Node>)
    ensures OnlyTableTags(a + b) <==> OnlyTableTags(a) && OnlyTableTags(b)
  {
    hide TableTagsIn;
    if OnlyTableTags(a + b) {
      assert forall i :: 0 <= i < |a| ==> (a + b)[i] == a[i];
      forall i | 0 <= i < |b| ensures TableTagsIn(b[i]) { assert (a + b)[|a| + i] == b[i]; }
    }
  }

  lemma {:induction false} TableTagsOfTree(lang: Language, nodes: seq<Node>, i: nat, manifest: set<string>)
    requires i < |nodes| && FilterTree(lang, nodes, manifest).Passed?
    ensures FilterNode(lang, nodes[i], manifest).Passed?
    ensures OnlyTableTags(FilterTree(lang, nodes, manifest).nodes) ==>
              OnlyTableTags(FilterNode(lang, nodes[i], manifest).nodes)
    decreases |nodes|
  {
    hide OnlyTableTags, FilterNode;
    var front, last := nodes[..|nodes| - 1], nodes[|nodes| - 1];
    TableTagsConcat(FilterTree(lang, front, manifest).nodes, FilterNode(lang, last, manifest).nodes);
    if i < |front| { TableTagsOfTree(lang, front, i, manifest); }
  }

  /** A surviving element of an inherited name is in the filter's output. */
  lemma {:induction false} ForeignIsLeft(lang: Language, n: Node, nodes: seq<Node>, manifest: set<string>)
    requires FilterTree(lang, nodes, manifest).Passed? && Foreign(n) && Survives(lang, n, nodes, manifest)
    ensures !OnlyTableTags(FilterTree(lang, nodes, manifest).nodes)
    decreases nodes
  {
    hide OnlyTableTags, LooksUp, FilterAttrs, OwnAttrs, FilterTree;
    var i :| 0 <= i < |nodes| && SurvivesIn(lang, n, nodes[i], manifest);
    var m := nodes[i];
    TableTagsOfTree(lang, nodes, i, manifest);
    InheritedNames();
    if n != m { ForeignIsLeft(lang, n, m.kids, manifest); }
    var inner := FilterTree(lang, m.kids, manifest);
    if Found(m.tag) {
      var kept := FoundAttrs(lang, m.tag, m.attrs, manifest).value;
      OneHasTableTags(Element(m.tag, kept, inner.nodes));
    }
  }

  lemma {:induction false} LeftIsForeign(lang: Language, nodes: seq<Node>, manifest: set<string>) returns (n: Node)
    requires FilterTree(lang, nodes, manifest).Passed? && !OnlyTableTags(FilterTree(lang, nodes, manifest).nodes)
    ensures Foreign(n) && Survives(lang, n, nodes, manifest)
    decreases nodes
  {
    hide OnlyTableTags, LooksUp, FilterAttrs, OwnAttrs;
    OneHasTableTags(Text(""));
    var front, last := nodes[..|nodes| - 1], nodes[|nodes| - 1];
    var left := FilterTree(lang, front, manifest).nodes;
    TableTagsConcat(left, FilterNode(lang, last, manifest).nodes);
    if !OnlyTableTags(left) {
      n := LeftIsForeign(lang, front, manifest);
      var i :| 0 <= i < |front| && SurvivesIn(lang, n, front[i], manifest);
      assert SurvivesIn(lang, n, nodes[i], manifest);
    } else {
      n := LeftInNode(lang, last, manifest);
      assert SurvivesIn(lang, n, nodes[|nodes| - 1], manifest);
    }
  }

  lemma {:induction false} LeftInNode(lang: Language, m: Node, manifest: set<string>) returns (n: Node)
    requires FilterNode(lang, m, manifest).Passed? && !OnlyTableTags(FilterNode(lang, m, manifest).nodes)
    ensures Foreign(n) && SurvivesIn(lang, n, m, manifest)
    decreases m
  {
    hide OnlyTableTags, LooksUp, FilterAttrs, OwnAttrs, FilterTree;
    OneHasTableTags(m);
    if m.tag in INHERITED { return m; }
    var inner := FilterTree(lang, m.kids, manifest).nodes;
    if Found(m.tag) {
      OneHasTableTags(Element(m.tag, FoundAttrs(lang, m.tag, m.attrs, manifest).value, inner));
    }
    n := LeftIsForeign(lang, m.kids, manifest);
  }

  /** Every tag in the output is in the table if and only if no element of an inherited name survives. */
  lemma TableTagsExactlyWhen(lang: Language, nodes: seq<Node>, manifest: set<string>)
    requires FilterTree(lang, nodes, manifest).Passed?
    ensures OnlyTableTags(FilterTree(lang, nodes, manifest).nodes)
            <==> !exists n :: Foreign(n) && Survives(lang, n, nodes, manifest)
  {
    hide FilterTree, Foreign, Survives, OnlyTableTags;
    if !OnlyTableTags(FilterTree(lang, nodes, manifest).nodes) {
      var n := LeftIsForeign(lang, nodes, manifest);
    }
    forall n | Foreign(n) && Survives(lang, n, nodes, manifest)
      ensures !OnlyTableTags(FilterTree(lang, nodes, manifest).nodes)
    {
      ForeignIsLeft(lang, n, nodes, manifest);
    }
  }

  // ----- when it is the server's filter -----

  lemma {:induction false} CleanHasTableTags(lang: Language, nodes: seq<Node>, manifest: set<string>)
    requires Clean(lang, nodes, manifest)
    ensures OnlyTableTags(nodes)
    decreases nodes
  {
    hide FilterAttrs, OwnAttrs;
    forall i | 0 <= i < |nodes| ensures TableTagsIn(nodes[i])
    {
      assert CleanNode(lang, nodes[i], manifest);
      if nodes[i].Element? { CleanHasTableTags(lang, nodes[i].kids, manifest); }
    }
  }

  lemma {:induction false} TableTagsAgree(lang: Language, nodes: seq<Node>, manifest: set<string>)
    requires FilterTree(lang, nodes, manifest).Passed? && OnlyTableTags(FilterTree(lang, nodes, manifest).nodes)
    ensures FilterTree(lang, nodes, manifest).nodes == SanitizeTree(lang, nodes, manifest)
    decreases nodes
  {
    hide OnlyTableTags, LooksUp, FilterAttrs, OwnAttrs;
    if nodes != [] {
      var front, last := nodes[..|nodes| - 1], nodes[|nodes| - 1];
      TableTagsConcat(FilterTree(lang, front, manifest).nodes, FilterNode(lang, last, manifest).nodes);
      TableTagsAgree(lang, front, manifest);
      TableTagsAgreeIn(lang, last, manifest);
    }
  }

  lemma {:induction false} TableTagsAgreeIn(lang: Language, n: Node, manifest: set<string>)
    requires FilterNode(lang, n, manifest).Passed? && OnlyTableTags(FilterNode(lang, n, manifest).nodes)
    ensures FilterNode(lang, n, manifest).nodes == SanitizeNode(lang, n, manifest)
    decreases n
  {
    hide OnlyTableTags, LooksUp, FilterAttrs, OwnAttrs, FilterTree, SanitizeTree;
    if n.Element? && n.tag !in DROPPED {
      InheritedNames();
      var inner := FilterTree(lang, n.kids, manifest).nodes;
      if !Found(n.tag) {
        TableTagsAgree(lang, n.kids, manifest);
      } else {
        var kept := FoundAttrs(lang, n.tag, n.attrs, manifest);
        if kept.Some? {
          OneHasTableTags(Element(n.tag, kept.value, inner));
          TableTagsAgree(lang, n.kids, manifest);
        }
      }
    }
  }

  /** The client's output is the one the server's filter computes if and only if every tag in it is in the table. */
  lemma FiltersAgreeExactlyWhen(lang: Language, nodes: seq<Node>, manifest: set<string>)
    requires AsciiAsUsual(lang) && FilterTree(lang, nodes, manifest).Passed?
    ensures FilterTree(lang, nodes, manifest).nodes == SanitizeTree(lang, nodes, manifest)
            <==> OnlyTableTags(FilterTree(lang, nodes, manifest).nodes)
  {
    hide AsciiAsUsual, FilterTree, SanitizeTree, OnlyTableTags, Clean;
    SanitizedIsClean(lang, nodes, manifest);
    CleanHasTableTags(lang, SanitizeTree(lang, nodes, manifest), manifest);
    if OnlyTableTags(FilterTree(lang, nodes, manifest).nodes) { TableTagsAgree(lang, nodes, manifest); }
  }
}
