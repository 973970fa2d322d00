/** The delegation budget over every run of requests, replays, and the credentials of honest forwarding runs. */
module DelegationProofs {
  import opened Delegation
  import opened Forwarding
  import opened ForwardingProofs
  import opened Wrappers
  import V = Verdicts

  // ----- credentials in honest runs -----

  lemma {:induction false} FirstFromFinds(hops: seq<Attestation>, source: Domain)
    ensures var a := FirstFrom(hops, source);
            if a.Some? then a.value in hops && a.value.origin == source
            else forall h :: h in hops ==> h.origin != source
  {
    if hops != [] && hops[0].origin != source {
      FirstFromFinds(hops[1..], source);
      assert hops == [hops[0]] + hops[1..];
    }
  }

  /** There is a credential for a source exactly when the source dispatched somewhere in the chain. */
  lemma CredentialExactlyForMembers(re: Received, source: Domain)
    ensures CredentialFor(re, source).Some? <==> re.ChainMember(source)
    ensures CredentialFor(re, source).Some? ==>
              CredentialFor(re, source).value in re.Chain() && CredentialFor(re, source).value.origin == source
  {
    FirstFromFinds(re.hops, source);
    assert re.Chain()[|re.hops|] == re.own;
  }

  lemma {:induction false} MembersAreMembers(re: Received, sources: seq<SourceEntry>)
    ensures forall d :: d in Members(re, sources) ==> re.ChainMember(d)
    ensures forall d :: d in Members(re, sources) ==> exists s :: s in sources && s.domain == d
    ensures Distinct(Members(re, sources))
  {
    if sources != [] {
      var front, last := sources[..|sources| - 1], sources[|sources| - 1];
      assert sources == front + [last];
      MembersAreMembers(re, front);
    }
  }

  lemma CandidatesAreMembers(re: Received)
    ensures Candidates(re) != [] && Distinct(Candidates(re)) && forall d :: d in Candidates(re) ==> re.ChainMember(d)
  {
    MembersAreMembers(re, re.sources);
    assert re.Chain()[|re.hops|] == re.own;
  }

  /** A source's holdings are its rows in the world. */
  ghost predicate HoldsIn(w: World, h: Holdings)
  {
    h.domain in w.nodes && h.dispatches == w.nodes[h.domain].dispatches
  }

  /**
   In every run of sends, deliveries and forwards: for any delivery record and any source the requester would ask, there
   is a credential, and the source's own records bear it out, content binding included.
   */
  lemma EveryCandidateAccepts(w: World, es: seq<Event>, d: Domain, key: (Domain, EnvelopeId), source: Domain,
                              h: Holdings)
    requires WorldOk(w) && LegalRun(w, es)
    requires var v := RunTo(w, es);
             d in v.nodes && key in v.nodes[d].received && source in Candidates(v.nodes[d].received[key])
             && h.domain == source && HoldsIn(v, h)
    ensures var re := RunTo(w, es).nodes[d].received[key];
            CredentialFor(re, source).Some? && CheckCredential(h, CredentialFor(re, source).value, re.content).None?
  {
    hide RunTo, LegalRun, Candidates, SourcesOk;
    EveryRunIsOk(w, es);
    var v := RunTo(w, es);
    var re := v.nodes[d].received[key];
    CandidatesAreMembers(re);
    CredentialExactlyForMembers(re, source);
    assert ReceivedOk(v, re);
    assert Recorded(v, CredentialFor(re, source).value, re.content);
  }

  /** In an honest run the requester asks every listed source, in the listed order: none is discarded. */
  lemma {:induction false} NoSourceIsDiscarded(w: World, re: Received, sources: seq<SourceEntry>)
    requires "" !in w.nodes && ReceivedOk(w, re) && sources <= re.sources
    ensures Members(re, sources) == Domains(sources)
  {
    if sources != [] {
      var front, last := sources[..|sources| - 1], sources[|sources| - 1];
      NoSourceIsDiscarded(w, re, front);
      ListedSource(w, re, |sources| - 1);
      assert front == re.sources[..|sources| - 1] && last == re.sources[|sources| - 1];
      assert Domains(sources) == Domains(front) + [last.domain];
    }
  }

  lemma ListedSource(w: World, re: Received, i: nat)
    requires "" !in w.nodes && ReceivedOk(w, re) && i < |re.sources|
    ensures re.sources[i].domain != "" && re.ChainMember(re.sources[i].domain)
    ensures re.sources[i].domain !in Domains(re.sources[..i])
  {
    var x := re.sources[i].domain;
    assert Domains(re.sources)[i] == x && x in Domains(re.sources);
    var h :| h in re.hops + [re.own] && h.origin == x;
    assert Recorded(w, h, re.content);
    forall j | 0 <= j < i ensures Domains(re.sources[..i])[j] != x
    {
      assert Domains(re.sources)[j] != Domains(re.sources)[i];
    }
  }

  predicate Promises(re: Received, source: Domain, ask: Attestation -> Option<seq<Outcome>>)
  {
    var credential := CredentialFor(re, source);
    credential.Some? && ask(credential.value).Some? && AnyPush(ask(credential.value).value)
  }

  /** The answer is that of the first candidate that promises a push; there is none exactly when no candidate does. */
  lemma {:induction false} FirstPromiseWins(re: Received, candidates: seq<Domain>,
                                            ask: Attestation -> Option<seq<Outcome>>)
    ensures var o := FirstPromise(re, candidates, ask);
            if o.None? then forall i :: 0 <= i < |candidates| ==> !Promises(re, candidates[i], ask)
            else exists i :: 0 <= i < |candidates| && Promises(re, candidates[i], ask)
                   && o == ask(CredentialFor(re, candidates[i]).value)
                   && forall j :: 0 <= j < i ==> !Promises(re, candidates[j], ask)
    decreases |candidates|
  {
    hide CredentialFor, AnyPush;
    if candidates != [] && !Promises(re, candidates[0], ask) {
      FirstPromiseWins(re, candidates[1..], ask);
      var o := FirstPromise(re, candidates[1..], ask);
      if o.Some? {
        var i :| 0 <= i < |candidates[1..]| && Promises(re, candidates[1..][i], ask)
                 && o == ask(CredentialFor(re, candidates[1..][i]).value)
                 && forall j :: 0 <= j < i ==> !Promises(re, candidates[1..][j], ask);
        forall j | 0 <= j < i + 1 ensures !Promises(re, candidates[j], ask)
        {
          if j > 0 { assert candidates[j] == candidates[1..][j - 1]; }
        }
        assert candidates[i + 1] == candidates[1..][i];
      } else {
        forall i | 0 <= i < |candidates| ensures !Promises(re, candidates[i], ask)
        {
          if i > 0 { assert candidates[i] == candidates[1..][i - 1]; }
        }
      }
    } else if candidates != [] {
      assert Promises(re, candidates[0], ask);
    }
  }

  // ----- the budget -----

  function AcceptedPushes(rows: seq<Row>): seq<(Urn, EnvelopeId, Domain)>
  {
    if rows == [] then []
    else
      var last := rows[|rows| - 1];
      AcceptedPushes(rows[..|rows| - 1])
      + if last.outcome.WillPush? then [(last.outcome.urn, last.envelope, last.requester)] else []
  }

  function Queued(queue: seq<Push>): seq<(Urn, EnvelopeId, Domain)>
  {
    seq(|queue|, i requires 0 <= i < |queue| => (queue[i].reservation.urn, queue[i].envelope, queue[i].target))
  }

  /** No budget is exceeded, and the queue holds exactly one push for each accepted entry, in order. */
  ghost predicate BookOk(book: Book)
  {
    (forall envelope, urn :: Used(book.rows, envelope, urn) <= BUDGET)
      && Queued(book.queue) == AcceptedPushes(book.rows)
  }

  lemma {:induction false} UsedConcat(a: seq<Row>, b: seq<Row>, envelope: EnvelopeId, urn: Urn)
    ensures Used(a + b, envelope, urn) == Used(a, envelope, urn) + Used(b, envelope, urn)
  {
    if b == [] {
      assert a + b == a;
    } else {
      var front, last := b[..|b| - 1], b[|b| - 1];
      assert (a + b)[..|a + b| - 1] == a + front;
      UsedConcat(a, front, envelope, urn);
    }
  }

  lemma {:induction false} AcceptedConcat(a: seq<Row>, b: seq<Row>)
    ensures AcceptedPushes(a + b) == AcceptedPushes(a) + AcceptedPushes(b)
  {
    if b == [] {
      assert a + b == a;
    } else {
      var front, last := b[..|b| - 1], b[|b| - 1];
      assert (a + b)[..|a + b| - 1] == a + front;
      AcceptedConcat(a, front);
    }
  }

  /** One request adds at most one accepted row for a URN, and only below the budget. */
  lemma {:induction false} RequestUses(h: Holdings, manifest: seq<ManifestItem>, rows: seq<Row>, req: Request,
                                       media: seq<V.Reservation>, now: int, own: Urn -> Option<int>,
                                         envelope: EnvelopeId,
                                       urn: Urn)
    requires forall i, j :: 0 <= i < j < |media| ==> media[i].urn != media[j].urn
    requires JudgeAll(h, manifest, rows, req.root.id, media, now, own).Some?
    ensures var added := RowsOf(req, JudgeAll(h, manifest, rows, req.root.id, media, now, own).value);
            var used := Used(added, envelope, urn);
            used <= 1 && (used == 1 ==> (exists i :: 0 <= i < |media| && media[i].urn == urn)
                                        && Used(rows, envelope, urn) < BUDGET)
    decreases |media|
  {
    if media != [] {
      var n := |media| - 1;
      RequestUses(h, manifest, rows, req, media[..n], now, own, envelope, urn);
      var outcomes := JudgeAll(h, manifest, rows, req.root.id, media, now, own).value;
      assert RowsOf(req, outcomes)[..n] == RowsOf(req, outcomes[..n]);
      assert outcomes[..n] == JudgeAll(h, manifest, rows, req.root.id, media[..n], now, own).value;
    }
  }

  lemma {:induction false} PushesMatchRows(req: Request, media: seq<V.Reservation>, outcomes: seq<Outcome>)
    requires |outcomes| == |media| && forall i :: 0 <= i < |media| ==> outcomes[i].urn == media[i].urn
    ensures Queued(PushesOf(req, media, outcomes)) == AcceptedPushes(RowsOf(req, outcomes))
    decreases |media|
  {
    if media != [] {
      var n := |media| - 1;
      PushesMatchRows(req, media[..n], outcomes[..n]);
      assert RowsOf(req, outcomes)[..n] == RowsOf(req, outcomes[..n]);
    }
  }

  lemma FulfilledKeepsBook(h: Holdings, book: Book, req: Request, signed: bool, now: int, own: Urn -> Option<int>)
    requires WellFormed(req) && BookOk(book)
    ensures BookOk(Fulfilled(h, book, req, signed, now, own).0)
  {
    hide JudgeAll, PushesOf, RowsOf, Used, AcceptedPushes, Prior;
    var (after, reply) := Fulfilled(h, book, req, signed, now, own);
    if after != book {
      var outcomes := reply.value;
      forall envelope, urn ensures Used(after.rows, envelope, urn) <= BUDGET
      {
        UsedConcat(book.rows, RowsOf(req, outcomes), envelope, urn);
        RequestUses(h, h.manifests[req.content], book.rows, req, req.media, now, own, envelope, urn);
      }
      AcceptedConcat(book.rows, RowsOf(req, outcomes));
      PushesMatchRows(req, req.media, outcomes);
      assert Queued(after.queue) == Queued(book.queue) + Queued(PushesOf(req, req.media, outcomes));
    }
  }

  // ----- runs and replays -----

  /** A request as it arrives: its signature's verdict, the time, and the windows declared by then. */
  datatype Arrival = Arrival(req: Request, signed: bool, now: int, own: Urn -> Option<int>)

  function Serve(h: Holdings, book: Book, arrivals: seq<Arrival>): Book
    decreases |arrivals|
  {
    if arrivals == [] then book
    else
      var a := arrivals[0];
      Serve(h, Fulfilled(h, book, a.req, a.signed, a.now, a.own).0, arrivals[1..])
  }

  /** Over every sequential run: at most ten accepted delegations per (envelope, urn), one push for each. */
  lemma {:induction false} BudgetHoldsForever(h: Holdings, book: Book, arrivals: seq<Arrival>)
    requires BookOk(book) && forall a :: a in arrivals ==> WellFormed(a.req)
    ensures BookOk(Serve(h, book, arrivals))
    decreases |arrivals|
  {
    hide BookOk, Fulfilled;
    if arrivals != [] {
      var a := arrivals[0];
      FulfilledKeepsBook(h, book, a.req, a.signed, a.now, a.own);
      BudgetHoldsForever(h, Fulfilled(h, book, a.req, a.signed, a.now, a.own).0, arrivals[1..]);
    }
  }

  lemma {:induction false} PriorConcat(a: seq<Row>, b: seq<Row>, requester: Domain, id: RequestId)
    ensures Prior(a + b, requester, id) == Prior(a, requester, id) + Prior(b, requester, id)
  {
    if b == [] {
      assert a + b == a;
    } else {
      var front, last := b[..|b| - 1], b[|b| - 1];
      assert (a + b)[..|a + b| - 1] == a + front;
      PriorConcat(a, front, requester, id);
    }
  }

  /** The rows of one request give back exactly its outcomes, and nothing to anyone else. */
  lemma {:induction false} RowsGiveBack(req: Request, outcomes: seq<Outcome>, requester: Domain, id: RequestId)
    ensures Prior(RowsOf(req, outcomes), requester, id)
            == if requester == req.requester && id == req.id then outcomes else []
    decreases |outcomes|
  {
    if outcomes != [] {
      var n := |outcomes| - 1;
      RowsGiveBack(req, outcomes[..n], requester, id);
      assert RowsOf(req, outcomes)[..n] == RowsOf(req, outcomes[..n]);
      assert outcomes == outcomes[..n] + [outcomes[n]];
    }
  }

  /** An answer once given to (requester, request_id) is never changed by a later request. */
  lemma AnswerStands(h: Holdings, book: Book, a: Arrival, requester: Domain, id: RequestId)
    requires Prior(book.rows, requester, id) != []
    ensures Prior(Fulfilled(h, book, a.req, a.signed, a.now, a.own).0.rows, requester, id)
            == Prior(book.rows, requester, id)
  {
    hide JudgeAll, RowsOf, PushesOf, Prior;
    var (after, reply) := Fulfilled(h, book, a.req, a.signed, a.now, a.own);
    if after != book {
      PriorConcat(book.rows, RowsOf(a.req, reply.value), requester, id);
      RowsGiveBack(a.req, reply.value, requester, id);
    }
  }

  lemma {:induction false} AnswerStandsForever(h: Holdings, book: Book, arrivals: seq<Arrival>, requester: Domain,
                                               id: RequestId)
    requires Prior(book.rows, requester, id) != []
    ensures Prior(Serve(h, book, arrivals).rows, requester, id) == Prior(book.rows, requester, id)
    decreases |arrivals|
  {
    hide Prior, Fulfilled;
    if arrivals != [] {
      AnswerStands(h, book, arrivals[0], requester, id);
      var a := arrivals[0];
      AnswerStandsForever(h, Fulfilled(h, book, a.req, a.signed, a.now, a.own).0, arrivals[1..], requester, id);
    }
  }

  /**
   Replay: once a request is answered, then whatever is served in between, a signed request with the same requester and
   request_id inside the skew window gets the same answer and changes no record.
   */
  lemma ReplayChangesNothing(h: Holdings, book: Book, first: Arrival, between: seq<Arrival>, again: Arrival)
    requires WellFormed(first.req) && first.req.requester == again.req.requester && first.req.id == again.req.id
    requires Fulfilled(h, book, first.req, first.signed, first.now, first.own).1.Ok?
    requires again.signed && -SKEW <= again.now - again.req.created <= SKEW
    ensures var (b1, reply) := Fulfilled(h, book, first.req, first.signed, first.now, first.own);
            var b2 := Serve(h, b1, between);
            Fulfilled(h, b2, again.req, again.signed, again.now, again.own) == (b2, reply)
  {
    hide JudgeAll, RowsOf, PushesOf, Prior, Serve;
    var (b1, reply) := Fulfilled(h, book, first.req, first.signed, first.now, first.own);
    var requester, id := first.req.requester, first.req.id;
    if Prior(book.rows, requester, id) == [] {
      PriorConcat(book.rows, RowsOf(first.req, reply.value), requester, id);
      RowsGiveBack(first.req, reply.value, requester, id);
    }
    assert Prior(b1.rows, requester, id) == reply.value != [];
    AnswerStandsForever(h, b1, between, requester, id);
  }
}
