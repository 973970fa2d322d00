/**
 When a forward succeeds and what it sends, when a delivery is recorded, and whom a requester asks
 (server/sn/forward.go:120-290, server/sn/delegation.go:58-160), from the rows and the request.
 */
module ForwardAnswers {
  import opened Delegation
  import opened Forwarding
  import F = ForwardingProofs
  import opened Wrappers

  // ----- lists without repetition -----

  /** The i-th entry names a domain that no entry before it names. */
  predicate IsFirst(list: seq<SourceEntry>, i: nat)
    requires i < |list|
  {
    list[i].domain != "" && forall j :: 0 <= j < i ==> list[j].domain != list[i].domain
  }

  /** The first entry of every domain, in order. */
  ghost predicate Firsts(list: seq<SourceEntry>, at: seq<nat>)
  {
    && (forall k :: 0 <= k < |at| ==> at[k] < |list| && IsFirst(list, at[k]))
    && (forall k, l :: 0 <= k < l < |at| ==> at[k] < at[l])
    && forall i :: 0 <= i < |list| && IsFirst(list, i) ==> i in at
  }

  /** The entries at these places. */
  ghost predicate Taken(out: seq<SourceEntry>, list: seq<SourceEntry>, at: seq<nat>)
  {
    |out| == |at| && forall k :: 0 <= k < |at| ==> at[k] < |list| && out[k] == list[at[k]]
  }

  lemma OneMoreFirst(list: seq<SourceEntry>, at: seq<nat>)
    requires list != [] && Firsts(list[..|list| - 1], at)
    ensures Firsts(list, if IsFirst(list, |list| - 1) then at + [|list| - 1] else at)
  {
    hide IsFirst;
    var n := |list| - 1;
    forall i | 0 <= i < n ensures IsFirst(list[..n], i) <==> IsFirst(list, i) { FirstSoFar(list, n, i); }
    var more := if IsFirst(list, n) then at + [n] else at;
    forall k | 0 <= k < |more| ensures more[k] < |list| && IsFirst(list, more[k])
    {
      if k < |at| { assert IsFirst(list[..n], at[k]); }
    }
    forall i | 0 <= i < |list| && IsFirst(list, i) ensures i in more
    {
      if i < n { assert IsFirst(list[..n], i); }
    }
  }

  lemma FirstSoFar(list: seq<SourceEntry>, n: nat, i: nat)
    requires i < n <= |list|
    ensures IsFirst(list[..n], i) <==> IsFirst(list, i)
  {
  }

  lemma OneMoreTaken(out: seq<SourceEntry>, list: seq<SourceEntry>, at: seq<nat>)
    requires list != [] && Taken(out, list[..|list| - 1], at)
    ensures Taken(out, list, at) && Taken(out + [list[|list| - 1]], list, at + [|list| - 1])
  {
  }

  ghost predicate NamedIn(list: seq<SourceEntry>, d: Domain)
  {
    d != "" && exists j :: 0 <= j < |list| && list[j].domain == d
  }

  /** Exactly the domains that the list names. */
  ghost predicate Names(out: seq<SourceEntry>, list: seq<SourceEntry>)
  {
    forall d :: d in Domains(out) <==> NamedIn(list, d)
  }

  lemma OneMoreName(front: seq<SourceEntry>, list: seq<SourceEntry>)
    requires list != [] && Names(front, list[..|list| - 1])
    ensures var n := |list| - 1;
            && (IsFirst(list, n) <==> list[n].domain != "" && list[n].domain !in Domains(front))
            && Names(if IsFirst(list, n) then front + [list[n]] else front, list)
  {
    var n := |list| - 1;
    var d := list[n].domain;
    assert forall j :: 0 <= j < n ==> list[..n][j] == list[j];
    assert Domains(front + [list[n]]) == Domains(front) + [d];
    forall e ensures NamedIn(list, e) <==> NamedIn(list[..n], e) || (e != "" && e == d)
    {
      if NamedIn(list, e) && e != d {
        var j :| 0 <= j < |list| && list[j].domain == e;
        assert list[..n][j].domain == e;
      }
    }
  }

  /** Adding keeps the first entry of every domain named, in order. */
  lemma {:induction false} AddAllIs(list: seq<SourceEntry>) returns (at: seq<nat>)
    ensures Firsts(list, at) && Taken(AddAll([], list), list, at) && Names(AddAll([], list), list)
  {
    hide Firsts, IsFirst, Taken, Names;
    if list == [] {
      at := [];
      NoFirsts(list);
    } else {
      var n := |list| - 1;
      at := AddAllIs(list[..n]);
      OneMoreFirst(list, at);
      OneMoreTaken(AddAll([], list[..n]), list, at);
      OneMoreName(AddAll([], list[..n]), list);
      if IsFirst(list, n) { at := at + [n]; }
    }
  }

  lemma NoFirsts(list: seq<SourceEntry>)
    requires list == []
    ensures Firsts(list, []) && Taken([], list, []) && Names([], list)
  {
  }

  lemma {:induction false} AddAllConcat(out: seq<SourceEntry>, a: seq<SourceEntry>, b: seq<SourceEntry>)
    ensures AddAll(out, a + b) == AddAll(AddAll(out, a), b)
  {
    if b == [] {
      assert a + b == a;
    } else {
      assert (a + b)[..|a + b| - 1] == a + b[..|b| - 1];
      AddAllConcat(out, a, b[..|b| - 1]);
    }
  }

  // ----- the sources of a forward -----

  /** Who offers the content: the forwarder if it takes custody, whoever was listed, and the chain's oldest origin. */
  function Offers(domain: Domain, re: Received, mode: Mode, until: Option<int>): seq<SourceEntry>
  {
    (if mode == Custody then [SourceEntry(domain, [], until)] else []) + re.sources
    + [SourceEntry(if re.hops == [] then re.own.origin else re.hops[0].origin, [], None)]
  }

  lemma SourcesAre(domain: Domain, re: Received, mode: Mode, until: Option<int>) returns (at: seq<nat>)
    ensures var list := Offers(domain, re, mode, until);
            Firsts(list, at) && Taken(ForwardSources(domain, re, mode, until), list, at)
  {
    hide Firsts, Taken, Add;
    var list := Offers(domain, re, mode, until);
    var first := if mode.Custody? then [SourceEntry(domain, [], until)] else [];
    var root := SourceEntry(re.RootOrigin(), [], None);
    at := AddAllIs(list);
    AddAllConcat([], first + re.sources, [root]);
    AddAllConcat([], first, re.sources);
    OneEntry([], SourceEntry(domain, [], until));
    OneEntry(AddAll([], first + re.sources), root);
    assert AddAll([], []) == [];
  }

  lemma OneEntry(out: seq<SourceEntry>, e: SourceEntry)
    ensures AddAll(out, [e]) == Add(out, e)
  {
    assert [e][..0] == [];
  }

  // ----- forwards -----

  /** The domain has dispatched somewhere in the chain. */
  ghost predicate InChain(re: Received, domain: Domain)
  {
    re.own.origin == domain || exists i :: 0 <= i < |re.hops| && re.hops[i].origin == domain
  }

  lemma ChainIs(re: Received, domain: Domain)
    ensures re.ChainMember(domain) <==> InChain(re, domain)
  {
    assert re.Chain()[|re.hops|] == re.own;
    assert forall i :: 0 <= i < |re.hops| ==> re.Chain()[i] == re.hops[i];
  }

  /** Between one and 128 addresses of one domain. */
  predicate OneTarget(to: seq<Domain>)
  {
    1 <= |to| <= 128 && forall i :: 0 <= i < |to| ==> to[i] == to[0]
  }

  /**
   A forward succeeds if and only if the envelope was received here, it is not an automatic one of a domain already in
   the chain, the chain has room, the addresses share one domain and the content is still held; otherwise the first of
   these that fails is named and nothing changes.
   */
  lemma ForwardsExactlyWhen(n: Node, own: Attestation, r: Redispatch)
    ensures var (after, reply) := Forwarded(n, own, r);
            if r.key !in n.received then reply == Err(NoRecord)
            else if r.automatic && InChain(n.received[r.key], own.origin) then reply == Err(Loop)
            else if |n.received[r.key].hops| >= 32 then reply == Err(ChainFull)
            else if !OneTarget(r.to) then reply == Err(BadRecipients)
            else if n.received[r.key].content !in n.contents then reply == Err(NoContent)
            else reply.Ok?
    ensures Forwarded(n, own, r).1.Err? ==> Forwarded(n, own, r).0 == n
  {
    hide ForwardSources, Received.ChainMember;
    if r.key in n.received { ChainIs(n.received[r.key], own.origin); }
  }

  /**
   What it sends: the received content to that domain, with the chain extended by the envelope that brought it and the
   offers' first entry of every domain; this is recorded under the new envelope's id, and nothing else changes.
   */
  lemma ForwardSends(n: Node, own: Attestation, r: Redispatch) returns (at: seq<nat>)
    requires Forwarded(n, own, r).1.Ok?
    ensures var (after, reply) := Forwarded(n, own, r);
            var e := reply.value;
            r.key in n.received && r.to != []
            && var re := n.received[r.key];
               && e.own == own && e.target == r.to[0] && e.content == re.content && e.hops == re.hops + [re.own]
               && Firsts(Offers(own.origin, re, r.mode, r.until), at)
               && Taken(e.sources, Offers(own.origin, re, r.mode, r.until), at)
               && after.received == n.received && after.contents == n.contents
               && after.dispatches
                  == n.dispatches[own.id := Dispatch(r.to[0], re.content, own.created, own.kid, own.sig, e.sources)]
  {
    hide Firsts, Taken, Offers, ForwardSources;
    at := SourcesAre(own.origin, n.received[r.key], r.mode, r.until);
  }

  /** A send stores the content, and records the dispatch of it with no chain and no sources. */
  lemma SendIs(n: Node, own: Attestation, target: Domain, content: Address)
    ensures var (after, e) := Sent(n, own, target, content);
            && e.own == own && e.target == target && e.content == content && e.hops == [] && e.sources == []
            && after.contents == n.contents + {content} && after.received == n.received
            && after.dispatches
               == n.dispatches[own.id := Dispatch(target, content, own.created, own.kid, own.sig, [])]
  {
  }

  /** A delivery is recorded, once, exactly when it is for this domain and its chain is no longer than 32. */
  lemma DeliveryIs(n: Node, domain: Domain, e: Envelope)
    ensures var after := Delivered(n, domain, e);
            if e.target == domain && |e.hops| <= 32 && (e.own.origin, e.own.id) !in n.received then
              after.contents == n.contents + {e.content} && after.dispatches == n.dispatches
              && after.received
                 == n.received[(e.own.origin, e.own.id) := Received(e.own, e.content, e.hops, e.sources)]
            else after == n
  {
  }

  // ----- whom a requester asks -----

  /** A listed domain that has dispatched in the chain and was not listed before. */
  ghost predicate Askable(re: Received, i: nat)
    requires i < |re.sources|
  {
    IsFirst(re.sources, i) && InChain(re, re.sources[i].domain)
  }

  ghost predicate Asked(re: Received, candidates: seq<Domain>, at: seq<nat>)
  {
    && |candidates| == |at|
    && (forall k :: 0 <= k < |at| ==>
          at[k] < |re.sources| && Askable(re, at[k]) && candidates[k] == re.sources[at[k]].domain)
    && (forall k, l :: 0 <= k < l < |at| ==> at[k] < at[l])
    && forall i :: 0 <= i < |re.sources| && Askable(re, i) ==> i in at
  }

  /** The same for the first n sources. */
  ghost predicate AskedOf(re: Received, members: seq<Domain>, at: seq<nat>, n: nat)
    requires n <= |re.sources|
  {
    && |members| == |at|
    && (forall k :: 0 <= k < |at| ==> at[k] < n && Askable(re, at[k]) && members[k] == re.sources[at[k]].domain)
    && (forall k, l :: 0 <= k < l < |at| ==> at[k] < at[l])
    && forall i :: 0 <= i < n && Askable(re, i) ==> i in at
  }

  lemma {:induction false} MembersAre(re: Received, n: nat) returns (at: seq<nat>)
    requires n <= |re.sources|
    ensures AskedOf(re, Members(re, re.sources[..n]), at, n)
  {
    hide InChain;
    if n == 0 {
      at := [];
    } else {
      assert re.sources[..n][..n - 1] == re.sources[..n - 1];
      at := MembersAre(re, n - 1);
      ChainIs(re, re.sources[n - 1].domain);
      NotYetListed(re, Members(re, re.sources[..n - 1]), at, n - 1);
      if Askable(re, n - 1) { at := at + [n - 1]; }
    }
  }

  /** A chain member is in the list so far exactly when it was listed before. */
  lemma NotYetListed(re: Received, members: seq<Domain>, at: seq<nat>, i: nat)
    requires i < |re.sources| && AskedOf(re, members, at, i)
    ensures var d := re.sources[i].domain;
            d != "" && InChain(re, d) ==> (d !in members <==> IsFirst(re.sources, i))
  {
    hide InChain;
    var d := re.sources[i].domain;
    if d != "" && InChain(re, d) {
      if d in members {
        var k :| 0 <= k < |members| && members[k] == d;
        assert re.sources[at[k]].domain == d;
      }
      if !IsFirst(re.sources, i) {
        var j := FirstOf(re.sources, d, i);
        assert Askable(re, j) && j in at;
        var k :| 0 <= k < |at| && at[k] == j;
        assert members[k] == d;
      }
    }
  }

  lemma FirstOf(list: seq<SourceEntry>, d: Domain, i: nat) returns (j: nat)
    requires i < |list| && d != "" && exists k :: 0 <= k < i && list[k].domain == d
    ensures j < i && list[j].domain == d && IsFirst(list, j)
  {
    j := 0;
    while list[j].domain != d
      invariant j < i && forall k :: 0 <= k < j ==> list[k].domain != d
      decreases i - j
    {
      j := j + 1;
    }
  }

  /** The sources asked: every listed domain of the chain, once and in order, or the envelope's origin if none is. */
  lemma CandidatesAre(re: Received) returns (at: seq<nat>)
    ensures (exists i :: 0 <= i < |re.sources| && Askable(re, i)) ==> Asked(re, Candidates(re), at)
    ensures !(exists i :: 0 <= i < |re.sources| && Askable(re, i)) ==> Candidates(re) == [re.own.origin]
  {
    hide Askable;
    at := MembersAre(re, |re.sources|);
    assert re.sources[..|re.sources|] == re.sources;
    if i :| 0 <= i < |re.sources| && Askable(re, i) { assert i in at; }
    if at != [] { assert Askable(re, at[0]); }
  }

  /** The credential shown to a source: the envelope's own attestation if it is its origin, else the first such hop. */
  lemma {:induction false} CredentialIs(re: Received, source: Domain)
    ensures re.own.origin == source ==> CredentialFor(re, source) == Some(re.own)
    ensures re.own.origin != source ==>
              (forall i :: 0 <= i < |re.hops| && re.hops[i].origin == source
                           && (forall j :: 0 <= j < i ==> re.hops[j].origin != source) ==>
                 CredentialFor(re, source) == Some(re.hops[i]))
              && ((forall i :: 0 <= i < |re.hops| ==> re.hops[i].origin != source) ==>
                    CredentialFor(re, source) == None)
  {
    FirstHop(re.hops, source);
  }

  lemma {:induction false} FirstHop(hops: seq<Attestation>, source: Domain)
    ensures forall i :: 0 <= i < |hops| && hops[i].origin == source
                        && (forall j :: 0 <= j < i ==> hops[j].origin != source) ==>
              FirstFrom(hops, source) == Some(hops[i])
    ensures (forall i :: 0 <= i < |hops| ==> hops[i].origin != source) ==> FirstFrom(hops, source) == None
  {
    if hops != [] && hops[0].origin != source {
      FirstHop(hops[1..], source);
      forall i | 0 <= i < |hops| && hops[i].origin == source && (forall j :: 0 <= j < i ==> hops[j].origin != source)
        ensures FirstFrom(hops, source) == Some(hops[i])
      {
        assert hops[1..][i - 1] == hops[i];
        assert forall j :: 0 <= j < i - 1 ==> hops[1..][j] == hops[j + 1];
      }
    }
  }

  // ----- runs -----

  /** An event changes the rows of one domain, and puts on the wire what that domain sent. */
  lemma EventIs(w: F.World, e: F.Event)
    requires F.Legal(w, e)
    ensures var d := if e.Deliver? then e.at else e.own.origin;
            var n := F.Next(w, e);
            && d in w.nodes && n.nodes.Keys == w.nodes.Keys
            && (forall x :: x in w.nodes && x != d ==> n.nodes[x] == w.nodes[x])
            && (e.Send? ==>
                  var (after, sent) := Sent(w.nodes[d], e.own, e.target, e.content);
                  n.nodes[d] == after && n.wire == w.wire + {sent})
            && (e.Deliver? ==> n.nodes[d] == Delivered(w.nodes[d], d, e.envelope) && n.wire == w.wire)
            && (e.Forward? ==>
                  var (after, sent) := Forwarded(w.nodes[d], e.own, e.redispatch);
                  n.nodes[d] == after && n.wire == if sent.Ok? then w.wire + {sent.value} else w.wire)
  {
    if e.Forward? {
      var n := w.nodes[e.own.origin];
      if Forwarded(n, e.own, e.redispatch).1.Err? { assert w.nodes[e.own.origin := n] == w.nodes; }
    }
  }

  /** Domains use their own names and fresh ids, and only what is on the wire is delivered. */
  lemma LegalIs(w: F.World, e: F.Event)
    ensures F.Legal(w, e)
            <==> if e.Deliver? then e.envelope in w.wire && e.at in w.nodes
                 else e.own.origin in w.nodes && e.own.id !in w.nodes[e.own.origin].dispatches
  {
  }

  /** A run takes its events one after the other. */
  lemma {:induction false} RunIs(w: F.World, es: seq<F.Event>, e: F.Event)
    ensures F.LegalRun(w, []) && F.RunTo(w, []) == w
    ensures F.LegalRun(w, es + [e]) <==> F.LegalRun(w, es) && F.Legal(F.RunTo(w, es), e)
    ensures F.LegalRun(w, es + [e]) ==> F.RunTo(w, es + [e]) == F.Next(F.RunTo(w, es), e)
    decreases |es|
  {
    hide F.Next, F.Legal;
    if es == [] {
      assert [] + [e] == [e] && [e][1..] == [];
    } else {
      assert (es + [e])[1..] == es[1..] + [e];
      if F.Legal(w, es[0]) { RunIs(F.Next(w, es[0]), es[1..], e); }
    }
  }
}
