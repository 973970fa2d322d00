/** Every run of sends, deliveries and forwards over any number of domains. */
module ForwardingProofs {
  import opened Forwarding
  import opened Wrappers

  // ----- the sources list, for any input -----

  ghost predicate Distinct<T(!new)>(s: seq<T>)
  {
    forall i, j :: 0 <= i < j < |s| ==> s[i] != s[j]
  }

  lemma DomainsAdd(out: seq<SourceEntry>, entry: SourceEntry)
    ensures Domains(out + [entry]) == Domains(out) + [entry.domain]
  {
  }

  /** Listed means added: no name twice, nobody unnamed, nothing lost from before. */
  lemma AddIsDistinct(out: seq<SourceEntry>, entry: SourceEntry)
    requires Distinct(Domains(out)) && "" !in Domains(out)
    ensures var d := Domains(Add(out, entry));
            Distinct(d) && "" !in d && out <= Add(out, entry) && (entry.domain != "" ==> entry.domain in d)
            && forall x :: x in d ==> x in Domains(out) || x == entry.domain
  {
    DomainsAdd(out, entry);
    if entry.domain != "" && entry.domain !in Domains(out) {
      assert (Domains(out) + [entry.domain])[|out|] == entry.domain;
    }
  }

  lemma {:induction false} AddAllIsDistinct(out: seq<SourceEntry>, entries: seq<SourceEntry>)
    requires Distinct(Domains(out)) && "" !in Domains(out)
    ensures var d := Domains(AddAll(out, entries));
            Distinct(d) && "" !in d && out <= AddAll(out, entries)
            && (forall e :: e in entries && e.domain != "" ==> e.domain in d)
            && forall x :: x in d ==> x in Domains(out) || exists e :: e in entries && e.domain == x
  {
    hide Distinct, Add;
    if entries != [] {
      var front, last := entries[..|entries| - 1], entries[|entries| - 1];
      assert entries == front + [last];
      AddAllIsDistinct(out, front);
      AddIsDistinct(AddAll(out, front), last);
      PrefixDomains(AddAll(out, front), AddAll(out, entries));
    }
  }

  lemma PrefixDomains(a: seq<SourceEntry>, b: seq<SourceEntry>)
    requires a <= b
    ensures Domains(a) <= Domains(b)
  {
    assert forall i :: 0 <= i < |a| ==> a[i] == b[i];
  }

  /**
   The sources of a forward, whatever was received: no domain twice, the root origin present, this domain first when it
   takes custody, every received source kept, and nothing else.
   */
  lemma SourcesOfForward(domain: Domain, re: Received, mode: Mode, until: Option<int>)
    requires domain != "" && re.RootOrigin() != ""
    ensures var out := ForwardSources(domain, re, mode, until);
            var d := Domains(out);
            Distinct(d) && "" !in d && re.RootOrigin() in d
            && (mode.Custody? ==> out != [] && out[0] == SourceEntry(domain, [], until))
            && (forall e :: e in re.sources && e.domain != "" ==> e.domain in d)
            && forall x :: x in d ==>
                 x == re.RootOrigin() || (mode.Custody? && x == domain) || exists e :: e in re.sources && e.domain == x
  {
    hide Distinct, AddAll;
    var first := if mode.Custody? then Add([], SourceEntry(domain, [], until)) else [];
    Empty();
    AddIsDistinct([], SourceEntry(domain, [], until));
    AddAllIsDistinct(first, re.sources);
    AddIsDistinct(AddAll(first, re.sources), SourceEntry(re.RootOrigin(), [], None));
    PrefixDomains(AddAll(first, re.sources), ForwardSources(domain, re, mode, until));
  }

  lemma Empty()
    ensures Domains([]) == [] && Distinct(Domains([])) && "" !in Domains([])
  {
  }

  // ----- the system -----

  /** All domains' rows, and every envelope ever put on the wire. */
  datatype World = World(nodes: map<Domain, Node>, wire: set<Envelope>)

  /** Envelopes may be delivered late, repeatedly, in any order or never. */
  datatype Event =
    | Send(own: Attestation, target: Domain, content: Address)
    | Deliver(envelope: Envelope, at: Domain)
    | Forward(own: Attestation, redispatch: Redispatch)

  /** Each domain dispatches under its own name with envelope ids it has not used. */
  predicate Legal(w: World, e: Event)
  {
    match e
    case Send(own, _, _) => own.origin in w.nodes && own.id !in w.nodes[own.origin].dispatches
    case Deliver(envelope, at) => envelope in w.wire && at in w.nodes
    case Forward(own, _) => own.origin in w.nodes && own.id !in w.nodes[own.origin].dispatches
  }

  function Next(w: World, e: Event): World
    requires Legal(w, e)
  {
    match e
    case Send(own, target, content) =>
      var (n, envelope) := Sent(w.nodes[own.origin], own, target, content);
      World(w.nodes[own.origin := n], w.wire + {envelope})
    case Deliver(envelope, at) => w.(nodes := w.nodes[at := Delivered(w.nodes[at], at, envelope)])
    case Forward(own, r) =>
      match Forwarded(w.nodes[own.origin], own, r)
      case (n, Ok(envelope)) => World(w.nodes[own.origin := n], w.wire + {envelope})
      case (n, Err(_)) => w
  }

  ghost predicate LegalRun(w: World, es: seq<Event>)
    decreases |es|
  {
    es == [] || (Legal(w, es[0]) && LegalRun(Next(w, es[0]), es[1..]))
  }

  function RunTo(w: World, es: seq<Event>): World
    requires LegalRun(w, es)
    decreases |es|
  {
    if es == [] then w else RunTo(Next(w, es[0]), es[1..])
  }

  // ----- the invariant -----

  /** a is exactly what its origin recorded when it dispatched that content. */
  ghost predicate Recorded(w: World, a: Attestation, content: Address)
  {
    && a.origin in w.nodes && a.id in w.nodes[a.origin].dispatches
    && var d := w.nodes[a.origin].dispatches[a.id];
       d.content == content && d.created == a.created && d.kid == a.kid && d.sig == a.sig
  }

  ghost predicate AllRecorded(w: World, chain: seq<Attestation>, content: Address)
  {
    forall h :: h in chain ==> Recorded(w, h, content)
  }

  ghost predicate InChain(chain: seq<Attestation>, d: Domain)
  {
    exists h :: h in chain && h.origin == d
  }

  /** The sources of a dispatched envelope: none without a chain; else distinct chain members, the root among them. */
  ghost predicate SourcesOk(hops: seq<Attestation>, own: Attestation, sources: seq<SourceEntry>)
  {
    if hops == [] then sources == []
    else
      && Distinct(Domains(sources)) && hops[0].origin in Domains(sources)
      && forall x :: x in Domains(sources) ==> InChain(hops + [own], x)
  }

  ghost predicate EnvelopeOk(w: World, e: Envelope)
  {
    AllRecorded(w, e.hops + [e.own], e.content) && SourcesOk(e.hops, e.own, e.sources) && |e.hops| <= HOP_CAP
  }

  ghost predicate ReceivedOk(w: World, re: Received)
  {
    AllRecorded(w, re.Chain(), re.content) && SourcesOk(re.hops, re.own, re.sources) && |re.hops| <= HOP_CAP
  }

  ghost predicate WorldOk(w: World)
  {
    && "" !in w.nodes
    && (forall e :: e in w.wire ==> EnvelopeOk(w, e))
    && (forall d, k :: d in w.nodes && k in w.nodes[d].received ==>
          ReceivedOk(w, w.nodes[d].received[k]) && UnderItsKey(k, w.nodes[d].received[k].own))
  }

  predicate UnderItsKey(k: (Domain, EnvelopeId), own: Attestation)
  {
    k == (own.origin, own.id)
  }

  /** Records are only ever added. */
  ghost predicate Extends(w: World, v: World)
  {
    forall d :: d in w.nodes ==>
      d in v.nodes && forall id :: id in w.nodes[d].dispatches ==>
        id in v.nodes[d].dispatches && v.nodes[d].dispatches[id] == w.nodes[d].dispatches[id]
  }

  lemma StillRecorded(w: World, v: World, chain: seq<Attestation>, content: Address)
    requires Extends(w, v) && AllRecorded(w, chain, content)
    ensures AllRecorded(v, chain, content)
  {
    forall h | h in chain ensures Recorded(v, h, content) { assert Recorded(w, h, content); }
  }

  lemma NextExtends(w: World, e: Event)
    requires Legal(w, e)
    ensures Extends(w, Next(w, e)) && Next(w, e).nodes.Keys == w.nodes.Keys
  {
  }

  /** What was good before the step is good after it. */
  lemma StillOk(w: World, v: World)
    requires WorldOk(w) && Extends(w, v)
    ensures forall e :: e in w.wire ==> EnvelopeOk(v, e)
    ensures forall d, k :: d in w.nodes && k in w.nodes[d].received ==> ReceivedOk(v, w.nodes[d].received[k])
  {
    hide SourcesOk, AllRecorded, Extends;
    forall e | e in w.wire ensures EnvelopeOk(v, e)
    {
      StillRecorded(w, v, e.hops + [e.own], e.content);
    }
    forall d, k | d in w.nodes && k in w.nodes[d].received ensures ReceivedOk(v, w.nodes[d].received[k])
    {
      var re := w.nodes[d].received[k];
      assert ReceivedOk(w, re);
      StillRecorded(w, v, re.Chain(), re.content);
    }
  }

  lemma SendOk(w: World, own: Attestation, target: Domain, content: Address)
    requires WorldOk(w) && Legal(w, Send(own, target, content))
    ensures WorldOk(Next(w, Send(own, target, content)))
  {
    hide SourcesOk, AllRecorded, Extends;
    var v := Next(w, Send(own, target, content));
    NextExtends(w, Send(own, target, content));
    StillOk(w, v);
    OwnRecorded(v, own, content);
  }

  lemma OwnRecorded(v: World, own: Attestation, content: Address)
    requires Recorded(v, own, content)
    ensures AllRecorded(v, [] + [own], content) && SourcesOk([], own, [])
  {
  }

  lemma DeliverOk(w: World, e: Envelope, at: Domain)
    requires WorldOk(w) && Legal(w, Deliver(e, at))
    ensures WorldOk(Next(w, Deliver(e, at)))
  {
    hide SourcesOk, AllRecorded, Extends;
    var v := Next(w, Deliver(e, at));
    NextExtends(w, Deliver(e, at));
    StillOk(w, v);
    assert EnvelopeOk(v, e);
  }

  /** A forward's envelope: its chain is the received one extended, its sources are members of that chain. */
  lemma ForwardedEnvelopeOk(w: World, v: World, own: Attestation, r: Redispatch)
    requires WorldOk(w) && Legal(w, Forward(own, r)) && v == Next(w, Forward(own, r)) && Extends(w, v)
    requires Forwarded(w.nodes[own.origin], own, r).1.Ok?
    ensures EnvelopeOk(v, Forwarded(w.nodes[own.origin], own, r).1.value)
  {
    hide Distinct, Domains, ForwardSources, InChain, Recorded, Extends;
    var re := w.nodes[own.origin].received[r.key];
    var e := Forwarded(w.nodes[own.origin], own, r).1.value;
    assert ReceivedOk(w, re);
    StillRecorded(w, v, re.Chain(), re.content);
    ForwardIsRecorded(w, own, r);
    assert e.hops[0].origin == re.RootOrigin();
    assert Recorded(w, re.Chain()[0], re.content);
    RecordedIsNamed(w, re.Chain()[0], re.content);
    SourcesOfForward(own.origin, re, r.mode, r.until);
    forall x | x in Domains(e.sources) ensures InChain(e.hops + [own], x)
    {
      ForwardedMember(re, own, e.sources, r, x);
    }
  }

  lemma ForwardIsRecorded(w: World, own: Attestation, r: Redispatch)
    requires Legal(w, Forward(own, r)) && Forwarded(w.nodes[own.origin], own, r).1.Ok?
    ensures Recorded(Next(w, Forward(own, r)), own, w.nodes[own.origin].received[r.key].content)
  {
    hide ForwardSources;
  }

  lemma RecordedIsNamed(w: World, a: Attestation, content: Address)
    requires WorldOk(w) && Recorded(w, a, content)
    ensures a.origin != ""
  {
  }

  lemma ForwardedMember(re: Received, own: Attestation, sources: seq<SourceEntry>, r: Redispatch, x: Domain)
    requires SourcesOk(re.hops, re.own, re.sources)
    requires x == re.RootOrigin() || x == own.origin || exists e :: e in re.sources && e.domain == x
    ensures InChain(re.Chain() + [own], x)
  {
    var chain := re.Chain() + [own];
    if x == re.RootOrigin() {
      assert chain[0] in chain && chain[0].origin == x;
    } else if x == own.origin {
      assert chain[|chain| - 1] in chain;
    } else {
      var e :| e in re.sources && e.domain == x;
      var i :| 0 <= i < |re.sources| && re.sources[i] == e;
      assert Domains(re.sources)[i] == x && x in Domains(re.sources);
      assert InChain(re.hops + [re.own], x);
      var h :| h in re.hops + [re.own] && h.origin == x;
      assert h in chain;
    }
  }

  lemma ForwardOk(w: World, own: Attestation, r: Redispatch)
    requires WorldOk(w) && Legal(w, Forward(own, r))
    ensures WorldOk(Next(w, Forward(own, r)))
  {
    hide SourcesOk, AllRecorded, Extends, ForwardSources;
    var v := Next(w, Forward(own, r));
    NextExtends(w, Forward(own, r));
    StillOk(w, v);
    if Forwarded(w.nodes[own.origin], own, r).1.Ok? { ForwardedEnvelopeOk(w, v, own, r); }
  }

  lemma {:induction false} EveryRunIsOk(w: World, es: seq<Event>)
    requires WorldOk(w) && LegalRun(w, es)
    ensures WorldOk(RunTo(w, es))
    decreases |es|
  {
    hide WorldOk, Next, Legal;
    if es != [] {
      match es[0] {
        case Send(own, target, content) => SendOk(w, own, target, content);
        case Deliver(e, at) => DeliverOk(w, e, at);
        case Forward(own, r) => ForwardOk(w, own, r);
      }
      EveryRunIsOk(Next(w, es[0]), es[1..]);
    }
  }

  /**
   No envelope on the wire is too long for its target: delivering it leaves it recorded there, with the content its
   origin dispatched under that id, whether it is the first copy or a retry.
   */
  lemma DeliveryIsRecorded(w: World, e: Envelope)
    requires WorldOk(w) && Legal(w, Deliver(e, e.target))
    ensures var received := Next(w, Deliver(e, e.target)).nodes[e.target].received;
            var key := (e.own.origin, e.own.id);
            && key in received && received[key].content == e.content && received[key].own == e.own
            && (key in w.nodes[e.target].received ==> received[key] == w.nodes[e.target].received[key])
  {
    hide SourcesOk;
    var n := w.nodes[e.target];
    assert EnvelopeOk(w, e);
    assert Recorded(w, (e.hops + [e.own])[|e.hops|], e.content);
    if (e.own.origin, e.own.id) in n.received {
      var re := n.received[(e.own.origin, e.own.id)];
      assert ReceivedOk(w, re);
      assert Recorded(w, re.Chain()[|re.hops|], re.content);
    }
  }

  // ----- purely automatic runs -----

  function Origins(chain: seq<Attestation>): seq<Domain>
  {
    seq(|chain|, i requires 0 <= i < |chain| => chain[i].origin)
  }

  /** No chain visits a domain twice. */
  ghost predicate NoRevisit(w: World)
  {
    && (forall e :: e in w.wire ==> Distinct(Origins(e.hops + [e.own])))
    && (forall d, k :: d in w.nodes && k in w.nodes[d].received ==> Distinct(Origins(w.nodes[d].received[k].Chain())))
  }

  ghost predicate Automatic(es: seq<Event>)
  {
    forall e :: e in es ==> (e.Forward? ==> e.redispatch.automatic)
  }

  lemma ChainGrows(re: Received, own: Attestation)
    requires Distinct(Origins(re.Chain())) && !re.ChainMember(own.origin)
    ensures Distinct(Origins(re.Chain() + [own]))
  {
    var chain := re.Chain() + [own];
    forall i, j | 0 <= i < j < |chain| ensures Origins(chain)[i] != Origins(chain)[j]
    {
      if j == |chain| - 1 {
        assert chain[i] in re.Chain();
      } else {
        assert Origins(chain)[i] == Origins(re.Chain())[i] && Origins(chain)[j] == Origins(re.Chain())[j];
      }
    }
  }

  lemma AutomaticStep(w: World, e: Event)
    requires NoRevisit(w) && Legal(w, e) && (e.Forward? ==> e.redispatch.automatic)
    ensures NoRevisit(Next(w, e))
  {
    hide Distinct, ForwardSources;
    match e
    case Send(own, target, content) => SingleOrigin(own);
    case Deliver(envelope, at) =>
    case Forward(own, r) =>
      if Forwarded(w.nodes[own.origin], own, r).1.Ok? { ChainGrows(w.nodes[own.origin].received[r.key], own); }
  }

  lemma SingleOrigin(own: Attestation)
    ensures Distinct(Origins([] + [own]))
  {
  }

  /** A sequence without repetition over a finite set is no longer than the set. */
  lemma {:induction false} Pigeonhole<T(!new)>(s: seq<T>, all: set<T>)
    requires Distinct(s) && forall x :: x in s ==> x in all
    ensures |s| <= |all|
  {
    if s != [] {
      var front, last := s[..|s| - 1], s[|s| - 1];
      assert s == front + [last];
      assert last in s;
      Pigeonhole(front, all - {last});
    }
  }

  /** When every forward is automatic no chain ever revisits a domain, so no chain is longer than there are domains. */
  lemma {:induction false} AutomaticRunsNeverRevisit(w: World, es: seq<Event>)
    requires WorldOk(w) && NoRevisit(w) && LegalRun(w, es) && Automatic(es)
    ensures NoRevisit(RunTo(w, es))
    ensures forall e :: e in RunTo(w, es).wire ==> |e.hops| + 1 <= |w.nodes|
    decreases |es|
  {
    hide WorldOk, NoRevisit, Next, Legal, Distinct;
    if es == [] {
      forall e | e in w.wire ensures |e.hops| + 1 <= |w.nodes| { ShortChain(w, e); }
    } else {
      AutomaticStep(w, es[0]);
      assert es == [es[0]] + es[1..];
      EveryRunIsOk(w, [es[0]]) by { assert [es[0]][1..] == []; }
      assert RunTo(w, [es[0]]) == Next(w, es[0]) by { assert [es[0]][1..] == []; }
      NextExtends(w, es[0]);
      AutomaticRunsNeverRevisit(Next(w, es[0]), es[1..]);
    }
  }

  lemma ShortChain(w: World, e: Envelope)
    requires WorldOk(w) && NoRevisit(w) && e in w.wire
    ensures |e.hops| + 1 <= |w.nodes|
  {
    hide Distinct, SourcesOk;
    var chain := e.hops + [e.own];
    assert EnvelopeOk(w, e);
    forall d | d in Origins(chain) ensures d in w.nodes.Keys
    {
      var i :| 0 <= i < |chain| && Origins(chain)[i] == d;
      assert Recorded(w, chain[i], e.content);
    }
    Pigeonhole(Origins(chain), w.nodes.Keys);
  }
}
