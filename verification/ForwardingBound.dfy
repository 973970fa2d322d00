/** How many forwards a run of automatic forwards can make (server/sn/forward.go:142-250). */
module ForwardingBound {
  import opened Forwarding
  import opened ForwardingProofs
  import opened Wrappers

  function Key(a: Attestation): (Domain, EnvelopeId)
  {
    (a.origin, a.id)
  }

  /** Where an envelope began, the domains that dispatched it in order, and where it goes. */
  datatype Journey = Journey(root: (Domain, EnvelopeId), visits: seq<Domain>, target: Domain)

  function JourneyOf(e: Envelope): Journey
  {
    var chain := e.hops + [e.own];
    Journey(Key(chain[0]), Origins(chain), e.target)
  }

  /** What a forwarding rule reacts to: at a domain, a received envelope and a target. */
  datatype Occasion = Occasion(at: Domain, received: (Domain, EnvelopeId), target: Domain)

  function OccasionOf(e: Envelope): Occasion
    requires e.hops != []
  {
    Occasion(e.own.origin, Key(e.hops[|e.hops| - 1]), e.target)
  }

  /** The envelope a step forwards, if it does. */
  function Made(w: World, e: Event): Option<Envelope>
    requires Legal(w, e)
  {
    if !e.Forward? then None
    else
      match Forwarded(w.nodes[e.own.origin], e.own, e.redispatch).1
      case Ok(envelope) => Some(envelope)
      case Err(_) => None
  }

  lemma MadeIs(w: World, e: Event)
    requires Legal(w, e) && Made(w, e).Some?
    ensures e.Forward?
    ensures var m := Made(w, e).value;
            var n := w.nodes[e.own.origin];
            && e.redispatch.key in n.received && m.own == e.own && m.hops == n.received[e.redispatch.key].Chain()
            && Next(w, e).wire == w.wire + {m}
            && forall d :: d in w.nodes ==> Next(w, e).nodes[d].received == w.nodes[d].received
  {
    hide ForwardSources;
  }

  /** All envelopes a run forwards, in order. */
  function AllMade(w: World, es: seq<Event>): seq<Envelope>
    requires LegalRun(w, es)
    decreases |es|
  {
    if es == [] then []
    else (match Made(w, es[0]) case Some(m) => [m] case None => []) + AllMade(Next(w, es[0]), es[1..])
  }

  /** No occasion is forwarded twice, nor any of those done before. */
  ghost predicate OnceEach(w: World, es: seq<Event>, done: set<Occasion>)
    requires LegalRun(w, es)
    decreases |es|
  {
    es == [] ||
    match Made(w, es[0])
    case None => OnceEach(Next(w, es[0]), es[1..], done)
    case Some(m) => m.hops != [] && OccasionOf(m) !in done && OnceEach(Next(w, es[0]), es[1..], done + {OccasionOf(m)})
  }

  // ----- the invariant -----

  /** What d received as re is an envelope that was sent to d. */
  ghost predicate Arrived(w: World, d: Domain, re: Received)
  {
    exists p :: p in w.wire && p.target == d && p.own == re.own && p.hops == re.hops
  }

  /** m forwards an envelope that was sent to its origin. */
  ghost predicate HasParent(w: World, m: Envelope)
  {
    exists p :: p in w.wire && p.target == m.own.origin && p.hops + [p.own] == m.hops
  }

  ghost predicate MadeOk(w: World, roots: set<(Domain, EnvelopeId)>, done: set<Occasion>, m: Envelope)
  {
    m in w.wire && m.hops != [] && HasParent(w, m) && JourneyOf(m).root in roots && OccasionOf(m) in done
  }

  ghost predicate Tracked(w: World, made: seq<Envelope>, roots: set<(Domain, EnvelopeId)>, done: set<Occasion>)
  {
    && (forall e :: e in w.wire ==> e in made || (e.hops == [] && Key(e.own) in roots))
    && (forall m :: m in made ==> MadeOk(w, roots, done, m))
    && (forall i, j :: 0 <= i < j < |made| ==> JourneyOf(made[i]) != JourneyOf(made[j]))
    && (forall d, k :: d in w.nodes && k in w.nodes[d].received ==>
          Arrived(w, d, w.nodes[d].received[k]) && UnderItsKey(k, w.nodes[d].received[k].own))
  }

  /** The journey of a forward is its parent's, gone on to its origin. */
  lemma ParentsJourney(p: Envelope, m: Envelope)
    requires p.hops + [p.own] == m.hops && p.target == m.own.origin
    ensures var j := JourneyOf(m);
            |j.visits| == |p.hops| + 2
              && JourneyOf(p) == Journey(j.root, j.visits[..|p.hops| + 1], j.visits[|p.hops| + 1])
    ensures m.hops[|m.hops| - 1] == p.own
  {
    var chain := m.hops + [m.own];
    assert chain[0] == m.hops[0] == (p.hops + [p.own])[0];
    assert Origins(chain)[..|p.hops| + 1] == Origins(p.hops + [p.own]);
  }

  /** Two envelopes of one journey, the one just made and one made before, react to the same occasion. */
  lemma SameJourneySameOccasion(w: World, made: seq<Envelope>, roots: set<(Domain, EnvelopeId)>, done: set<Occasion>,
                                m: Envelope, e: Envelope)
    requires Tracked(w, made, roots, done) && m in made && e.hops != [] && HasParent(w, e)
    requires JourneyOf(m) == JourneyOf(e)
    ensures OccasionOf(m) == OccasionOf(e)
  {
    hide JourneyOf;
    assert MadeOk(w, roots, done, m);
    var p :| p in w.wire && p.target == e.own.origin && p.hops + [p.own] == e.hops;
    var q :| q in w.wire && q.target == m.own.origin && q.hops + [q.own] == m.hops;
    ParentsJourney(p, e);
    ParentsJourney(q, m);
    LastVisit(e);
    LastVisit(m);
    if p.hops == [] {
      RootOf(p);
      RootOf(q);
    } else {
      var i :| 0 <= i < |made| && made[i] == p;
      var j :| 0 <= j < |made| && made[j] == q;
      assert i == j;
    }
  }

  lemma LastVisit(e: Envelope)
    ensures var j := JourneyOf(e);
            |j.visits| == |e.hops| + 1 && j.visits[|e.hops|] == e.own.origin && j.target == e.target
  {
  }

  lemma RootOf(p: Envelope)
    requires p.hops == []
    ensures JourneyOf(p).root == Key(p.own)
  {
  }

  // ----- one step -----

  lemma SendTracked(w: World, e: Event, made: seq<Envelope>, roots: set<(Domain, EnvelopeId)>, done: set<Occasion>)
    requires Tracked(w, made, roots, done) && Legal(w, e) && e.Send? && Key(e.own) in roots
    ensures Tracked(Next(w, e), made, roots, done)
  {
    hide JourneyOf, OccasionOf, MadeOk, Arrived;
    var v := Next(w, e);
    forall m | m in made ensures MadeOk(v, roots, done, m) { StillMade(w, v, roots, done, m); }
    forall d, k | d in v.nodes && k in v.nodes[d].received
      ensures Arrived(v, d, v.nodes[d].received[k]) && UnderItsKey(k, v.nodes[d].received[k].own)
    {
      assert v.nodes[d].received == w.nodes[d].received;
      StillArrived(w, v, d, w.nodes[d].received[k]);
    }
  }

  lemma StillMade(w: World, v: World, roots: set<(Domain, EnvelopeId)>, done: set<Occasion>, m: Envelope)
    requires MadeOk(w, roots, done, m) && w.wire <= v.wire
    ensures MadeOk(v, roots, done, m)
  {
    var p :| p in w.wire && p.target == m.own.origin && p.hops + [p.own] == m.hops;
    assert p in v.wire;
  }

  lemma StillArrived(w: World, v: World, d: Domain, re: Received)
    requires Arrived(w, d, re) && w.wire <= v.wire
    ensures Arrived(v, d, re)
  {
    var p :| p in w.wire && p.target == d && p.own == re.own && p.hops == re.hops;
    assert p in v.wire;
  }

  lemma DeliverTracked(w: World, e: Event, made: seq<Envelope>, roots: set<(Domain, EnvelopeId)>, done: set<Occasion>)
    requires Tracked(w, made, roots, done) && Legal(w, e) && e.Deliver?
    ensures Tracked(Next(w, e), made, roots, done)
  {
    hide JourneyOf, OccasionOf, MadeOk, Arrived;
    var v := Next(w, e);
    forall m | m in made ensures MadeOk(v, roots, done, m) { StillMade(w, v, roots, done, m); }
    forall d, k | d in v.nodes && k in v.nodes[d].received
      ensures Arrived(v, d, v.nodes[d].received[k]) && UnderItsKey(k, v.nodes[d].received[k].own)
    {
      if d in w.nodes && k in w.nodes[d].received {
        StillArrived(w, v, d, w.nodes[d].received[k]);
      } else {
        DeliveredArrives(w, e, d, k);
      }
    }
  }

  lemma DeliveredArrives(w: World, e: Event, d: Domain, k: (Domain, EnvelopeId))
    requires Legal(w, e) && e.Deliver? && d in Next(w, e).nodes && k in Next(w, e).nodes[d].received
    requires d !in w.nodes || k !in w.nodes[d].received
    ensures var v := Next(w, e); Arrived(v, d, v.nodes[d].received[k]) && UnderItsKey(k, v.nodes[d].received[k].own)
  {
    assert e.envelope in Next(w, e).wire;
  }

  lemma ForwardTracked(w: World, e: Event, made: seq<Envelope>, roots: set<(Domain, EnvelopeId)>, done: set<Occasion>)
    requires Tracked(w, made, roots, done) && Legal(w, e) && Made(w, e).Some?
    requires OccasionOf(Made(w, e).value) !in done
    ensures var m := Made(w, e).value; Tracked(Next(w, e), made + [m], roots, done + {OccasionOf(m)})
  {
    hide JourneyOf, MadeOk, Arrived, Made, Next, OccasionOf, Origins;
    var v, m := Next(w, e), Made(w, e).value;
    MadeIs(w, e);
    NextExtends(w, e);
    var re := w.nodes[e.own.origin].received[e.redispatch.key];
    ArrivedIsParent(w, re, m);
    RootIsKept(w, made, roots, done, m);
    forall x | x in made ensures MadeOk(v, roots, done + {OccasionOf(m)}, x) && JourneyOf(x) != JourneyOf(m)
    {
      StillMade(w, v, roots, done, x);
      MoreDone(v, roots, done, x, OccasionOf(m));
      if JourneyOf(x) == JourneyOf(m) {
        SameJourneySameOccasion(w, made, roots, done, x, m);
        assert false by { DoneOf(w, roots, done, x); }
      }
    }
    NewIsOk(w, v, roots, done, m);
    forall d, k | d in v.nodes && k in v.nodes[d].received
      ensures Arrived(v, d, v.nodes[d].received[k]) && UnderItsKey(k, v.nodes[d].received[k].own)
    {
      StillArrived(w, v, d, w.nodes[d].received[k]);
    }
  }

  lemma DoneOf(w: World, roots: set<(Domain, EnvelopeId)>, done: set<Occasion>, x: Envelope)
    requires MadeOk(w, roots, done, x)
    ensures x.hops != [] && OccasionOf(x) in done
  {
  }

  lemma MoreDone(w: World, roots: set<(Domain, EnvelopeId)>, done: set<Occasion>, x: Envelope, o: Occasion)
    requires MadeOk(w, roots, done, x)
    ensures MadeOk(w, roots, done + {o}, x)
  {
  }

  lemma NewIsOk(w: World, v: World, roots: set<(Domain, EnvelopeId)>, done: set<Occasion>, m: Envelope)
    requires HasParent(w, m) && w.wire <= v.wire && m in v.wire && m.hops != [] && JourneyOf(m).root in roots
    ensures MadeOk(v, roots, done + {OccasionOf(m)}, m)
  {
    var p :| p in w.wire && p.target == m.own.origin && p.hops + [p.own] == m.hops;
    assert p in v.wire;
  }

  lemma ArrivedIsParent(w: World, re: Received, m: Envelope)
    requires Arrived(w, m.own.origin, re) && m.hops == re.Chain()
    ensures HasParent(w, m)
  {
    var p :| p in w.wire && p.target == m.own.origin && p.own == re.own && p.hops == re.hops;
    assert p.hops + [p.own] == m.hops;
  }

  /** A forward has the root of what it forwards. */
  lemma RootIsKept(w: World, made: seq<Envelope>, roots: set<(Domain, EnvelopeId)>, done: set<Occasion>, m: Envelope)
    requires Tracked(w, made, roots, done) && HasParent(w, m)
    ensures JourneyOf(m).root in roots
  {
    hide JourneyOf;
    var p :| p in w.wire && p.target == m.own.origin && p.hops + [p.own] == m.hops;
    ParentsJourney(p, m);
    if p in made { assert MadeOk(w, roots, done, p); } else { RootOf(p); }
  }

  // ----- runs -----

  /** The sends of a run. */
  function Roots(es: seq<Event>): set<(Domain, EnvelopeId)>
  {
    set e | e in es && e.Send? :: Key(e.own)
  }

  lemma {:induction false} RunTracked(w: World, es: seq<Event>, made: seq<Envelope>, roots: set<(Domain, EnvelopeId)>,
                                      done: set<Occasion>)
    returns (done': set<Occasion>)
    requires Tracked(w, made, roots, done) && LegalRun(w, es) && OnceEach(w, es, done) && Roots(es) <= roots
    ensures Tracked(RunTo(w, es), made + AllMade(w, es), roots, done')
    decreases |es|
  {
    hide Tracked, Next, Legal, Made;
    if es == [] {
      assert made + AllMade(w, es) == made;
      return done;
    }
    assert es == [es[0]] + es[1..];
    assert Roots(es[1..]) <= Roots(es);
    var next := Next(w, es[0]);
    match Made(w, es[0])
    case Some(m) =>
      ForwardTracked(w, es[0], made, roots, done);
      done' := RunTracked(next, es[1..], made + [m], roots, done + {OccasionOf(m)});
      assert made + AllMade(w, es) == (made + [m]) + AllMade(next, es[1..]);
    case None =>
      QuietTracked(w, es[0], made, roots, done) by { assert es[0].Send? ==> Key(es[0].own) in Roots(es); }
      done' := RunTracked(next, es[1..], made, roots, done);
      assert AllMade(w, es) == AllMade(next, es[1..]);
  }

  lemma QuietTracked(w: World, e: Event, made: seq<Envelope>, roots: set<(Domain, EnvelopeId)>, done: set<Occasion>)
    requires Tracked(w, made, roots, done) && Legal(w, e) && Made(w, e).None? && (e.Send? ==> Key(e.own) in roots)
    ensures Tracked(Next(w, e), made, roots, done)
  {
    hide Tracked;
    match e
    case Send(_, _, _) => SendTracked(w, e, made, roots, done);
    case Deliver(_, _) => DeliverTracked(w, e, made, roots, done);
    case Forward(own, r) => assert Next(w, e) == w;
  }

  // ----- the bound -----

  /** The sequences over all of at most n members. */
  function Walks(all: set<Domain>, n: nat): set<seq<Domain>>
  {
    if n == 0 then {[]} else {[]} + set d, s | d in all && s in Walks(all, n - 1) :: [d] + s
  }

  lemma {:induction false} WalksHold(all: set<Domain>, n: nat, s: seq<Domain>)
    requires |s| <= n && forall d :: d in s ==> d in all
    ensures s in Walks(all, n)
  {
    if s != [] {
      WalksHold(all, n - 1, s[1..]);
      assert s == [s[0]] + s[1..];
    }
  }

  /** Where an envelope of roots can have been among the domains, and gone. */
  function Journeys(roots: set<(Domain, EnvelopeId)>, all: set<Domain>, targets: set<Domain>): set<Journey>
  {
    set r, s, t | r in roots && s in Walks(all, |all|) && t in targets :: Journey(r, s, t)
  }

  /** Nothing has been sent, dispatched or received yet. */
  ghost predicate Untouched(w: World)
  {
    "" !in w.nodes && w.wire == {} && forall d :: d in w.nodes ==> w.nodes[d].received == map[]
  }

  /**
   From an untouched system, with automatic forwards only and no occasion forwarded twice, a run makes at most as many
   forwards as there are journeys from its sends over its domains, however long it is.
   */
  lemma AutomaticForwardsAreBounded(w: World, es: seq<Event>, targets: set<Domain>)
    requires Untouched(w) && LegalRun(w, es) && Automatic(es) && OnceEach(w, es, {})
    requires forall m :: m in AllMade(w, es) ==> m.target in targets
    ensures |AllMade(w, es)| <= |Journeys(Roots(es), w.nodes.Keys, targets)|
  {
    hide Next, Legal, JourneyOf, WorldOk, NoRevisit, Journeys, Tracked, OnceEach, AllMade;
    var v, made := RunTo(w, es), AllMade(w, es);
    UntouchedIsOk(w, Roots(es));
    var done := RunTracked(w, es, [], Roots(es), {});
    assert [] + made == made;
    AutomaticRunsNeverRevisit(w, es);
    EveryRunIsOk(w, es);
    RunKeepsDomains(w, es);
    var journeys := seq(|made|, i requires 0 <= i < |made| => JourneyOf(made[i]));
    forall x | x in journeys ensures x in Journeys(Roots(es), w.nodes.Keys, targets)
    {
      var i :| 0 <= i < |made| && journeys[i] == x;
      JourneyIsListed(v, made, Roots(es), done, targets, made[i]);
    }
    JourneysDiffer(v, made, Roots(es), done);
    Pigeonhole(journeys, Journeys(Roots(es), w.nodes.Keys, targets));
  }

  lemma UntouchedIsOk(w: World, roots: set<(Domain, EnvelopeId)>)
    requires Untouched(w)
    ensures WorldOk(w) && NoRevisit(w) && Tracked(w, [], roots, {})
  {
  }

  lemma {:induction false} RunKeepsDomains(w: World, es: seq<Event>)
    requires LegalRun(w, es)
    ensures RunTo(w, es).nodes.Keys == w.nodes.Keys
    decreases |es|
  {
    hide Next, Legal;
    if es != [] {
      NextExtends(w, es[0]);
      RunKeepsDomains(Next(w, es[0]), es[1..]);
    }
  }

  lemma JourneysDiffer(w: World, made: seq<Envelope>, roots: set<(Domain, EnvelopeId)>, done: set<Occasion>)
    requires Tracked(w, made, roots, done)
    ensures forall i, j :: 0 <= i < j < |made| ==> JourneyOf(made[i]) != JourneyOf(made[j])
  {
    hide JourneyOf, MadeOk, Arrived;
  }

  lemma JourneyIsListed(w: World, made: seq<Envelope>, roots: set<(Domain, EnvelopeId)>, done: set<Occasion>,
                        targets: set<Domain>, m: Envelope)
    requires WorldOk(w) && NoRevisit(w) && Tracked(w, made, roots, done) && m in made && m.target in targets
    ensures JourneyOf(m) in Journeys(roots, w.nodes.Keys, targets)
  {
    hide Distinct, SourcesOk, Walks, Arrived;
    assert MadeOk(w, roots, done, m);
    assert EnvelopeOk(w, m);
    var chain := m.hops + [m.own];
    forall d | d in Origins(chain) ensures d in w.nodes.Keys
    {
      var i :| 0 <= i < |chain| && Origins(chain)[i] == d;
      assert Recorded(w, chain[i], m.content);
    }
    Pigeonhole(Origins(chain), w.nodes.Keys);
    WalksHold(w.nodes.Keys, |w.nodes.Keys|, Origins(chain));
  }

  /** Without that discipline nothing ends: what was forwarded can be forwarded again, under any unused id. */
  lemma RepeatsSucceed(w: World, own: Attestation, again: Attestation, r: Redispatch)
    requires Legal(w, Forward(own, r)) && Made(w, Forward(own, r)).Some?
    requires again.origin == own.origin && again.id != own.id && again.id !in w.nodes[own.origin].dispatches
    ensures var v := Next(w, Forward(own, r)); Legal(v, Forward(again, r)) && Made(v, Forward(again, r)).Some?
  {
    hide ForwardSources;
  }
}
