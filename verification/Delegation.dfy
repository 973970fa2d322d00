/**
 Delegated fulfillment (server/sn/delegation.go): the credential a requester presents, the sources it asks, and how a
 source answers within its budget.
 */
module Delegation {
  import opened Forwarding
  import opened Wrappers
  import V = Verdicts

  type RequestId = string

  const BUDGET := 10
  const SKEW := 48 * 3600

  datatype ManifestItem = ManifestItem(urn: Urn, size: nat, until: Option<int>)

  // ----- the requester -----

  /** The attestation whose origin is the source: the received envelope's own, or the first such hop. */
  function CredentialFor(re: Received, source: Domain): Option<Attestation>
  {
    if source == re.own.origin then Some(re.own) else FirstFrom(re.hops, source)
  }

  function FirstFrom(hops: seq<Attestation>, source: Domain): Option<Attestation>
  {
    if hops == [] then None
    else if hops[0].origin == source then Some(hops[0])
    else FirstFrom(hops[1..], source)
  }

  /** The listed sources that are chain members, each once, in order. */
  function Members(re: Received, sources: seq<SourceEntry>): seq<Domain>
  {
    if sources == [] then []
    else
      var front, d := Members(re, sources[..|sources| - 1]), sources[|sources| - 1].domain;
      if d == "" || d in front || !re.ChainMember(d) then front else front + [d]
  }

  function Candidates(re: Received): seq<Domain>
  {
    var members := Members(re, re.sources);
    if members == [] then [re.own.origin] else members
  }

  datatype Outcome = WillPush(urn: Urn) | Refused(urn: Urn, reason: Reason)
  datatype Reason = NotAvailable | OverBudget

  predicate AnyPush(outcomes: seq<Outcome>)
  {
    exists o :: o in outcomes && o.WillPush?
  }

  /** The answer of the first candidate that promises anything; None when every one refuses or fails. */
  function FirstPromise(re: Received, candidates: seq<Domain>, ask: Attestation -> Option<seq<Outcome>>)
    : Option<seq<Outcome>>
  {
    if candidates == [] then None
    else
      var credential := CredentialFor(re, candidates[0]);
      var answer := if credential.None? then None else ask(credential.value);
      if answer.Some? && AnyPush(answer.value) then answer else FirstPromise(re, candidates[1..], ask)
  }

  method FindCredential(re: Received, source: Domain) returns (credential: Option<Attestation>)
    ensures credential == CredentialFor(re, source)
  {
    if source == re.own.origin { return Some(re.own); }
    for i := 0 to |re.hops|
      invariant FirstFrom(re.hops[i..], source) == FirstFrom(re.hops, source)
    {
      if re.hops[i].origin == source { return Some(re.hops[i]); }
      assert re.hops[i..][1..] == re.hops[i + 1..];
    }
    return None;
  }

  method RequestFulfillment(re: Received, ask: Attestation -> Option<seq<Outcome>>)
    returns (outcomes: Option<seq<Outcome>>)
    ensures outcomes == FirstPromise(re, Candidates(re), ask)
  {
    var candidates: seq<Domain> := [];
    var seen: set<Domain> := {};
    for i := 0 to |re.sources|
      invariant candidates == Members(re, re.sources[..i])
      invariant forall d :: d in seen <==> d in candidates
    {
      assert re.sources[..i + 1][..i] == re.sources[..i];
      var d := re.sources[i].domain;
      if d != "" && d !in seen && re.ChainMember(d) {
        candidates, seen := candidates + [d], seen + {d};
      }
    }
    assert re.sources[..|re.sources|] == re.sources;
    if candidates == [] { candidates := [re.own.origin]; }
    for i := 0 to |candidates|
      invariant FirstPromise(re, candidates[i..], ask) == FirstPromise(re, candidates, ask)
    {
      assert candidates[i..][1..] == candidates[i + 1..];
      var credential := FindCredential(re, candidates[i]);
      if credential.Some? {
        var answer := ask(credential.value);
        if answer.Some? && AnyPush(answer.value) { return answer; }
      }
    }
    return None;
  }

  // ----- the source -----

  /** A parsed request: at least one entry, no URN twice, each reservation for its URN. */
  datatype Request = Request(id: RequestId, created: int, requester: Domain, root: Attestation, content: Address,
                             media: seq<V.Reservation>)

  predicate WellFormed(r: Request)
  {
    r.media != [] && forall i, j :: 0 <= i < j < |r.media| ==> r.media[i].urn != r.media[j].urn
  }

  datatype Problem = TimestampSkew | SignatureInvalid | UnknownEnvelope | MedialetMismatch | Malformed | NoMedialet

  /** A row of delegations. */
  datatype Row = Row(id: RequestId, requester: Domain, envelope: EnvelopeId, outcome: Outcome)

  /** A row of the push queue. */
  datatype Push = Push(reservation: V.Reservation, envelope: EnvelopeId, target: Domain)

  datatype Book = Book(rows: seq<Row>, queue: seq<Push>)

  /** What a source knows of its own holdings. */
  datatype Holdings = Holdings(domain: Domain, dispatches: map<EnvelopeId, Dispatch>,
                               manifests: map<Address, seq<ManifestItem>>, live: set<Urn>)

  /** The outcomes already given to (requester, request_id). */
  function Prior(rows: seq<Row>, requester: Domain, id: RequestId): seq<Outcome>
  {
    if rows == [] then []
    else
      var last := rows[|rows| - 1];
      Prior(rows[..|rows| - 1], requester, id) + if last.requester == requester && last.id == id then [last.outcome]
        else []
  }

  /** The credential and content-binding checks against the source's own dispatch records. */
  function CheckCredential(h: Holdings, root: Attestation, content: Address): Option<Problem>
  {
    if root.origin != h.domain || root.id !in h.dispatches then Some(UnknownEnvelope)
    else
      var d := h.dispatches[root.id];
      if d.sig != root.sig || d.kid != root.kid || d.created != root.created then Some(UnknownEnvelope)
      else if d.content != content then Some(MedialetMismatch)
      else None
  }

  function Lookup(manifest: seq<ManifestItem>, urn: Urn): Option<ManifestItem>
  {
    if manifest == [] then None
    else
      var last := manifest[|manifest| - 1];
      if last.urn == urn then Some(last) else Lookup(manifest[..|manifest| - 1], urn)
  }

  predicate Covers(s: SourceEntry, urn: Urn)
  {
    s.urns == [] || urn in s.urns
  }

  /** A window this domain declared about itself, over urn, in an envelope it dispatched. */
  ghost predicate Declared(h: Holdings, urn: Urn, t: int)
  {
    exists id :: id in h.dispatches && DeclaredIn(h, h.dispatches[id], urn, t)
  }

  ghost predicate DeclaredIn(h: Holdings, d: Dispatch, urn: Urn, t: int)
  {
    d.content in h.manifests && Lookup(h.manifests[d.content], urn).Some?
    && exists s :: s in d.sources && s.domain == h.domain && s.until == Some(t) && Covers(s, urn)
  }

  /** best is the latest declared window, None if there is none. */
  ghost predicate LatestDeclared(h: Holdings, urn: Urn, best: Option<int>)
  {
    (best.Some? ==> Declared(h, urn, best.value))
    && forall t :: Declared(h, urn, t) ==> best.Some? && t <= best.value
  }

  /** ownDeclaredUntil: a scan over every dispatch with the best window so far. */
  method OwnDeclaredUntil(h: Holdings, urn: Urn) returns (best: Option<int>)
    ensures LatestDeclared(h, urn, best)
  {
    best := None;
    var left := h.dispatches.Keys;
    while left != {}
      invariant left <= h.dispatches.Keys
      invariant best.Some? ==> Declared(h, urn, best.value)
      invariant forall id, t :: id in h.dispatches && id !in left && DeclaredIn(h, h.dispatches[id], urn, t) ==>
                  best.Some? && t <= best.value
    {
      var id :| id in left;
      left := left - {id};
      var d := h.dispatches[id];
      if d.content in h.manifests && Lookup(h.manifests[d.content], urn).Some? {
        ghost var before := best;
        for i := 0 to |d.sources|
          invariant before.Some? ==> best.Some? && before.value <= best.value
          invariant best.Some? ==> Declared(h, urn, best.value)
          invariant forall j :: 0 <= j < i ==>
                      var s := d.sources[j];
                      s.domain == h.domain && s.until.Some? && Covers(s, urn) ==>
                        best.Some? && s.until.value <= best.value
        {
          var s := d.sources[i];
          if s.domain == h.domain && s.until.Some? && Covers(s, urn) && (best.None? || s.until.value > best.value) {
            best := s.until;
            assert DeclaredIn(h, d, urn, best.value);
          }
        }
      }
    }
  }

  function Later(a: Option<int>, b: Option<int>): Option<int>
  {
    if b.Some? && (a.None? || b.value > a.value) then b else a
  }

  predicate IsAccepted(r: Row, envelope: EnvelopeId, urn: Urn)
  {
    r.envelope == envelope && r.outcome == WillPush(urn)
  }

  /** How many requests for urn under envelope have been accepted. */
  function Used(rows: seq<Row>, envelope: EnvelopeId, urn: Urn): nat
  {
    if rows == [] then 0
    else Used(rows[..|rows| - 1], envelope, urn) + if IsAccepted(rows[|rows| - 1], envelope, urn) then 1 else 0
  }

  /** One entry of a request; None when its size contradicts the manifest. */
  function Judge(h: Holdings, manifest: seq<ManifestItem>, rows: seq<Row>, envelope: EnvelopeId, r: V.Reservation,
                 now: int,
                 own: Urn -> Option<int>): Option<Outcome>
  {
    var item := Lookup(manifest, r.urn);
    if item.None? then Some(Refused(r.urn, NotAvailable))
    else if r.maxSize != item.value.size then None
    else
      var window := Later(item.value.until, own(r.urn));
      if window.None? || now > window.value || r.urn !in h.live then Some(Refused(r.urn, NotAvailable))
      else if Used(rows, envelope, r.urn) >= BUDGET then Some(Refused(r.urn, OverBudget))
      else Some(WillPush(r.urn))
  }

  function JudgeAll(h: Holdings, manifest: seq<ManifestItem>, rows: seq<Row>, envelope: EnvelopeId,
                    media: seq<V.Reservation>, now: int, own: Urn -> Option<int>): (o: Option<seq<Outcome>>)
    ensures o.Some? ==> |o.value| == |media| && forall i :: 0 <= i < |media| ==> o.value[i].urn == media[i].urn
    decreases |media|
  {
    if media == [] then Some([])
    else
      var front := JudgeAll(h, manifest, rows, envelope, media[..|media| - 1], now, own);
      var last := Judge(h, manifest, rows, envelope, media[|media| - 1], now, own);
      if front.None? || last.None? then None else Some(front.value + [last.value])
  }

  function RowsOf(req: Request, outcomes: seq<Outcome>): seq<Row>
  {
    seq(|outcomes|, i requires 0 <= i < |outcomes| => Row(req.id, req.requester, req.root.id, outcomes[i]))
  }

  function PushesOf(req: Request, media: seq<V.Reservation>, outcomes: seq<Outcome>): seq<Push>
    requires |outcomes| == |media|
    decreases |media|
  {
    if media == [] then []
    else
      var n := |media| - 1;
      PushesOf(req, media[..n], outcomes[..n])
      + if outcomes[n].WillPush? then [Push(media[n], req.root.id, req.requester)] else []
  }

  /** ProcessFulfill; own gives the windows this domain has declared about itself. */
  function Fulfilled(h: Holdings, book: Book, req: Request, signed: bool, now: int, own: Urn -> Option<int>)
    : (Book, Result<seq<Outcome>, Problem>)
  {
    if now - req.created > SKEW || req.created - now > SKEW then (book, Err(TimestampSkew))
    else if !signed then (book, Err(SignatureInvalid))
    else
      var prior := Prior(book.rows, req.requester, req.id);
      if prior != [] then (book, Ok(prior))
      else
        var problem := CheckCredential(h, req.root, req.content);
        if problem.Some? then (book, Err(problem.value))
        else if req.content !in h.manifests then (book, Err(NoMedialet))
        else
          match JudgeAll(h, h.manifests[req.content], book.rows, req.root.id, req.media, now, own)
          case None => (book, Err(Malformed))
          case Some(outcomes) =>
            (Book(book.rows + RowsOf(req, outcomes), book.queue + PushesOf(req, req.media, outcomes)), Ok(outcomes))
  }

  class Source {
    const h: Holdings
    var rows: seq<Row>
    var queue: seq<Push>

    constructor (h: Holdings)
      ensures this.h == h && rows == [] && queue == []
    {
      this.h, rows, queue := h, [], [];
    }

    method PriorResponse(requester: Domain, id: RequestId) returns (outcomes: seq<Outcome>)
      ensures outcomes == Prior(rows, requester, id)
    {
      outcomes := [];
      for i := 0 to |rows|
        invariant outcomes == Prior(rows[..i], requester, id)
      {
        assert rows[..i + 1][..i] == rows[..i];
        if rows[i].requester == requester && rows[i].id == id { outcomes := outcomes + [rows[i].outcome]; }
      }
      assert rows[..|rows|] == rows;
    }

    /** The loop over the request's entries. */
    method JudgeMedia(req: Request, manifest: seq<ManifestItem>, now: int, own: Urn -> Option<int>)
      returns (outcomes: Option<seq<Outcome>>, accepted: seq<V.Reservation>)
      ensures outcomes == JudgeAll(h, manifest, rows, req.root.id, req.media, now, own)
      ensures outcomes.Some? ==> forall i :: 0 <= i < |accepted| ==> accepted[i] in req.media
      ensures outcomes.Some? ==>
                |outcomes.value| == |req.media| && PushesFor(req, accepted) == PushesOf(req, req.media, outcomes.value)
    {
      hide Judge, JudgeAll, PushesOf, PushesFor;
      var list := [];
      accepted := [];
      NothingJudged(h, manifest, rows, req, now, own);
      for i := 0 to |req.media|
        invariant JudgeAll(h, manifest, rows, req.root.id, req.media[..i], now, own) == Some(list)
        invariant |list| == i && PushesFor(req, accepted) == PushesOf(req, req.media[..i], list)
        invariant forall j :: 0 <= j < |accepted| ==> accepted[j] in req.media
      {
        JudgeNext(h, manifest, rows, req, now, own, i);
        var o := Judge(h, manifest, rows, req.root.id, req.media[i], now, own);
        if o.None? {
          JudgementFails(h, manifest, rows, req.root.id, req.media, now, own, i + 1);
          return None, [];
        }
        PushesNext(req, i, list, o.value, accepted);
        list := list + [o.value];
        if o.value.WillPush? { accepted := accepted + [req.media[i]]; }
      }
      assert req.media[..|req.media|] == req.media;
      outcomes := Some(list);
    }

    method ProcessFulfill(req: Request, signed: bool, now: int, own: Urn -> Option<int>)
      returns (reply: Result<seq<Outcome>, Problem>)
      modifies this
      ensures (Book(rows, queue), reply) == Fulfilled(h, Book(old(rows), old(queue)), req, signed, now, own)
    {
      hide JudgeAll, Prior, RowsOf, PushesOf, PushesFor;
      if now - req.created > SKEW || req.created - now > SKEW { return Err(TimestampSkew); }
      if !signed { return Err(SignatureInvalid); }
      var prior := PriorResponse(req.requester, req.id);
      if prior != [] { return Ok(prior); }
      if req.root.origin != h.domain || req.root.id !in h.dispatches { return Err(UnknownEnvelope); }
      var d := h.dispatches[req.root.id];
      if d.sig != req.root.sig || d.kid != req.root.kid || d.created != req.root.created {
        return Err(UnknownEnvelope);
      }
      if d.content != req.content { return Err(MedialetMismatch); }
      if req.content !in h.manifests { return Err(NoMedialet); }
      var outcomes, accepted := JudgeMedia(req, h.manifests[req.content], now, own);
      if outcomes.None? { return Err(Malformed); }
      Record(req, outcomes.value, accepted);
      return Ok(outcomes.value);
    }

    /** The transaction: one row an outcome, then one push an accepted entry. */
    method Record(req: Request, outcomes: seq<Outcome>, accepted: seq<V.Reservation>)
      modifies this
      ensures rows == old(rows) + RowsOf(req, outcomes) && queue == old(queue) + PushesFor(req, accepted)
    {
      for i := 0 to |outcomes|
        invariant rows == old(rows) + RowsOf(req, outcomes)[..i] && queue == old(queue)
      {
        rows := rows + [Row(req.id, req.requester, req.root.id, outcomes[i])];
      }
      for i := 0 to |accepted|
        invariant rows == old(rows) + RowsOf(req, outcomes) && queue == old(queue) + PushesFor(req, accepted)[..i]
      {
        queue := queue + [Push(accepted[i], req.root.id, req.requester)];
      }
    }
  }

  function PushesFor(req: Request, accepted: seq<V.Reservation>): seq<Push>
  {
    seq(|accepted|, i requires 0 <= i < |accepted| => Push(accepted[i], req.root.id, req.requester))
  }

  lemma NothingJudged(h: Holdings, manifest: seq<ManifestItem>, rows: seq<Row>, req: Request, now: int,
                      own: Urn -> Option<int>)
    ensures JudgeAll(h, manifest, rows, req.root.id, req.media[..0], now, own) == Some([])
    ensures PushesFor(req, []) == PushesOf(req, req.media[..0], [])
  {
  }

  lemma JudgeNext(h: Holdings, manifest: seq<ManifestItem>, rows: seq<Row>, req: Request, now: int,
                  own: Urn -> Option<int>,
                  i: nat)
    requires i < |req.media|
    ensures var front := JudgeAll(h, manifest, rows, req.root.id, req.media[..i], now, own);
            var last := Judge(h, manifest, rows, req.root.id, req.media[i], now, own);
            JudgeAll(h, manifest, rows, req.root.id, req.media[..i + 1], now, own)
            == if front.None? || last.None? then None else Some(front.value + [last.value])
  {
    hide Judge;
    assert req.media[..i + 1][..i] == req.media[..i];
  }

  lemma PushesNext(req: Request, i: nat, list: seq<Outcome>, o: Outcome, accepted: seq<V.Reservation>)
    requires i < |req.media| && |list| == i
    ensures PushesOf(req, req.media[..i + 1], list + [o])
            == PushesOf(req, req.media[..i], list) + if o.WillPush?
              then [Push(req.media[i], req.root.id, req.requester)] else []
    ensures PushesFor(req, accepted + [req.media[i]])
            == PushesFor(req, accepted) + [Push(req.media[i], req.root.id, req.requester)]
  {
    assert req.media[..i + 1][..i] == req.media[..i] && (list + [o])[..i] == list;
  }

  lemma JudgementFails(h: Holdings, manifest: seq<ManifestItem>, rows: seq<Row>, envelope: EnvelopeId,
                       media: seq<V.Reservation>, now: int, own: Urn -> Option<int>, n: nat)
    requires n <= |media| && JudgeAll(h, manifest, rows, envelope, media[..n], now, own).None?
    ensures JudgeAll(h, manifest, rows, envelope, media, now, own).None?
    decreases |media| - n
  {
    if n < |media| {
      assert media[..n + 1][..n] == media[..n];
      JudgementFails(h, manifest, rows, envelope, media, now, own, n + 1);
    } else {
      assert media[..n] == media;
    }
  }
}
