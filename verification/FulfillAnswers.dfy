/**
 What a source answers to a delegation request, and what it records, from the request and its own rows
 (server/sn/delegation.go:269-400).
 */
module FulfillAnswers {
  import opened Delegation
  import P = DelegationProofs
  import opened Forwarding
  import opened Lists
  import opened Wrappers
  import V = Verdicts

  /** The manifest's entry for urn: the last one, should it be named twice. */
  ghost predicate Names(manifest: seq<ManifestItem>, urn: Urn, j: int)
  {
    0 <= j < |manifest| && manifest[j].urn == urn && forall k :: j < k < |manifest| ==> manifest[k].urn != urn
  }

  lemma {:induction false} LookupIs(manifest: seq<ManifestItem>, urn: Urn)
    ensures Lookup(manifest, urn).None? <==> forall k :: 0 <= k < |manifest| ==> manifest[k].urn != urn
    ensures forall j :: Names(manifest, urn, j) ==> Lookup(manifest, urn) == Some(manifest[j])
    ensures Lookup(manifest, urn).Some? ==> exists j :: Names(manifest, urn, j)
  {
    if manifest != [] {
      var front, n := manifest[..|manifest| - 1], |manifest| - 1;
      if manifest[n].urn == urn {
        assert Names(manifest, urn, n);
      } else {
        LookupIs(front, urn);
        if j :| Names(front, urn, j) { assert Names(manifest, urn, j); }
        forall j | Names(manifest, urn, j) ensures Lookup(manifest, urn) == Some(manifest[j])
        {
          assert Names(front, urn, j);
        }
        if k :| 0 <= k < |front| && front[k].urn == urn { assert manifest[k].urn == urn; }
        assert forall k :: 0 <= k < |front| ==> front[k] == manifest[k];
      }
    }
  }

  /** The rows that spend the budget of urn under an envelope. */
  ghost function Spent(rows: seq<Row>, envelope: EnvelopeId, urn: Urn): set<nat>
  {
    set i: nat | i < |rows| && rows[i].envelope == envelope && rows[i].outcome == WillPush(urn)
  }

  lemma {:induction false} UsedIs(rows: seq<Row>, envelope: EnvelopeId, urn: Urn)
    ensures Used(rows, envelope, urn) == |Spent(rows, envelope, urn)|
  {
    if rows == [] {
      assert Spent(rows, envelope, urn) == {};
    } else {
      var n := |rows| - 1;
      UsedIs(rows[..n], envelope, urn);
      var front := Spent(rows[..n], envelope, urn);
      assert n !in front;
      assert Spent(rows, envelope, urn)
             == if rows[n].envelope == envelope && rows[n].outcome == WillPush(urn) then front + {n} else front;
    }
  }

  /** No entry asks for a size other than the manifest's. */
  ghost predicate SizesAgree(manifest: seq<ManifestItem>, media: seq<V.Reservation>)
  {
    forall i, j :: 0 <= i < |media| && Names(manifest, media[i].urn, j) ==> media[i].maxSize == manifest[j].size
  }

  /** In the manifest, live, and inside the manifest's window or the one this domain declared about itself. */
  ghost predicate Offered(h: Holdings, manifest: seq<ManifestItem>, urn: Urn, now: int, own: Option<int>)
  {
    && urn in h.live
    && exists j :: Names(manifest, urn, j)
         && ((manifest[j].until.Some? && now <= manifest[j].until.value) || (own.Some? && now <= own.value))
  }

  /** What one entry is told. */
  ghost predicate Told(h: Holdings, manifest: seq<ManifestItem>, rows: seq<Row>, envelope: EnvelopeId, urn: Urn,
                       now: int, own: Option<int>, o: Outcome)
  {
    && (Offered(h, manifest, urn, now, own) && |Spent(rows, envelope, urn)| < 10 <==> o == WillPush(urn))
    && (Offered(h, manifest, urn, now, own) && |Spent(rows, envelope, urn)| >= 10 <==> o == Refused(urn, OverBudget))
    && (!Offered(h, manifest, urn, now, own) <==> o == Refused(urn, NotAvailable))
  }

  lemma JudgeIs(h: Holdings, manifest: seq<ManifestItem>, rows: seq<Row>, envelope: EnvelopeId, r: V.Reservation,
                now: int, own: Urn -> Option<int>)
    ensures var o := Judge(h, manifest, rows, envelope, r, now, own);
            && (o.None? <==> exists j :: Names(manifest, r.urn, j) && r.maxSize != manifest[j].size)
            && (o.Some? ==> Told(h, manifest, rows, envelope, r.urn, now, own(r.urn), o.value))
  {
    hide Spent, Used, Lookup;
    LookupIs(manifest, r.urn);
    UsedIs(rows, envelope, r.urn);
  }

  lemma {:induction false} JudgeAllIs(h: Holdings, manifest: seq<ManifestItem>, rows: seq<Row>, envelope: EnvelopeId,
                                      media: seq<V.Reservation>, now: int, own: Urn -> Option<int>)
    ensures var o := JudgeAll(h, manifest, rows, envelope, media, now, own);
            && (o.Some? <==> SizesAgree(manifest, media))
            && (o.Some? ==>
                  |o.value| == |media|
                  && forall i :: 0 <= i < |media| ==>
                       Told(h, manifest, rows, envelope, media[i].urn, now, own(media[i].urn), o.value[i]))
    decreases |media|
  {
    hide Judge, Told, Names;
    if media != [] {
      var n := |media| - 1;
      JudgeAllIs(h, manifest, rows, envelope, media[..n], now, own);
      JudgeIs(h, manifest, rows, envelope, media[n], now, own);
      assert media == media[..n] + [media[n]];
    }
  }

  /** The requester has had an answer under this request id. */
  ghost predicate Answered(rows: seq<Row>, requester: Domain, id: RequestId)
  {
    exists i :: 0 <= i < |rows| && rows[i].requester == requester && rows[i].id == id
  }

  lemma {:induction false} PriorIs(rows: seq<Row>, requester: Domain, id: RequestId)
    ensures Prior(rows, requester, id) != [] <==> Answered(rows, requester, id)
  {
    if rows != [] {
      var n := |rows| - 1;
      PriorIs(rows[..n], requester, id);
      if rows[n].requester != requester || rows[n].id != id {
        if Answered(rows[..n], requester, id) {
          var i :| 0 <= i < n && rows[..n][i].requester == requester && rows[..n][i].id == id;
          assert rows[i].requester == requester && rows[i].id == id;
        }
      }
    }
  }

  predicate InTime(req: Request, now: int)
  {
    -172800 <= now - req.created <= 172800
  }

  /** The credential is this domain's own dispatch, as it was signed. */
  predicate Genuine(h: Holdings, root: Attestation)
  {
    && root.origin == h.domain && root.id in h.dispatches
    && h.dispatches[root.id].sig == root.sig && h.dispatches[root.id].kid == root.kid
    && h.dispatches[root.id].created == root.created
  }

  predicate Bound(h: Holdings, req: Request)
  {
    Genuine(h, req.root) && h.dispatches[req.root.id].content == req.content
  }

  /** All that a request not answered before must be to be answered. */
  ghost predicate Acceptable(h: Holdings, req: Request, signed: bool, now: int)
  {
    InTime(req, now) && signed && Bound(h, req) && req.content in h.manifests
    && SizesAgree(h.manifests[req.content], req.media)
  }

  /**
   A request not answered before is answered if and only if it is signed and in time, its credential is this domain's
   own dispatch of that content, the manifest is held, and no size contradicts it; otherwise the first of these that
   fails is named.
   */
  lemma AnsweredExactlyWhen(h: Holdings, book: Book, req: Request, signed: bool, now: int, own: Urn -> Option<int>)
    requires !Answered(book.rows, req.requester, req.id)
    ensures var reply := Fulfilled(h, book, req, signed, now, own).1;
            && (reply.Ok? <==> Acceptable(h, req, signed, now))
            && (reply == Err(TimestampSkew) <==> !InTime(req, now))
            && (reply == Err(SignatureInvalid) <==> InTime(req, now) && !signed)
            && (reply == Err(UnknownEnvelope) <==> InTime(req, now) && signed && !Genuine(h, req.root))
            && (reply == Err(MedialetMismatch) <==>
                  InTime(req, now) && signed && Genuine(h, req.root) && !Bound(h, req))
            && (reply == Err(NoMedialet) <==>
                  InTime(req, now) && signed && Bound(h, req) && req.content !in h.manifests)
            && (reply == Err(Malformed) <==>
                  InTime(req, now) && signed && Bound(h, req) && req.content in h.manifests
                  && !SizesAgree(h.manifests[req.content], req.media))
  {
    hide JudgeAll, Prior, SizesAgree, Answered, RowsOf, PushesOf, Told;
    PriorIs(book.rows, req.requester, req.id);
    if req.content in h.manifests {
      JudgeAllIs(h, h.manifests[req.content], book.rows, req.root.id, req.media, now, own);
    }
  }

  function IsPush(): Outcome -> bool
  {
    (o: Outcome) => o.WillPush?
  }

  lemma {:induction false} PushesAre(req: Request, media: seq<V.Reservation>, outcomes: seq<Outcome>)
    returns (at: seq<nat>)
    requires |outcomes| == |media|
    ensures Places(outcomes, IsPush(), at) && |PushesOf(req, media, outcomes)| == |at|
    ensures forall k :: 0 <= k < |at| ==>
              at[k] < |media| && PushesOf(req, media, outcomes)[k] == Push(media[at[k]], req.root.id, req.requester)
    decreases |media|
  {
    hide Places;
    if media == [] {
      at := [];
      NoPlace(outcomes, IsPush());
    } else {
      var n := |media| - 1;
      at := PushesAre(req, media[..n], outcomes[..n]);
      OneMorePlace(outcomes, IsPush(), at);
      if outcomes[n].WillPush? { at := at + [n]; }
    }
  }

  /**
   An answered request tells each entry what it comes to, records one row for each in the request's order, and queues
   one push for each promise in the same order; any other request changes nothing.
   */
  lemma AnswerRecords(h: Holdings, book: Book, req: Request, signed: bool, now: int, own: Urn -> Option<int>)
    returns (at: seq<nat>)
    requires !Answered(book.rows, req.requester, req.id)
    ensures var (after, reply) := Fulfilled(h, book, req, signed, now, own);
            if reply.Err? then after == book
            else
              var outcomes := reply.value;
              && req.content in h.manifests && |outcomes| == |req.media|
              && (forall i :: 0 <= i < |outcomes| ==>
                    var urn := req.media[i].urn;
                    Told(h, h.manifests[req.content], book.rows, req.root.id, urn, now, own(urn), outcomes[i]))
              && |after.rows| == |book.rows| + |outcomes| && book.rows <= after.rows
              && (forall i :: 0 <= i < |outcomes| ==>
                    after.rows[|book.rows| + i] == Row(req.id, req.requester, req.root.id, outcomes[i]))
              && Places(outcomes, IsPush(), at) && |after.queue| == |book.queue| + |at| && book.queue <= after.queue
              && forall k :: 0 <= k < |at| ==>
                   at[k] < |req.media|
                   && after.queue[|book.queue| + k] == Push(req.media[at[k]], req.root.id, req.requester)
  {
    hide JudgeAll, Prior, SizesAgree, Answered, PushesOf, Told, Places;
    PriorIs(book.rows, req.requester, req.id);
    var (after, reply) := Fulfilled(h, book, req, signed, now, own);
    at := [];
    if reply.Ok? {
      JudgeAllIs(h, h.manifests[req.content], book.rows, req.root.id, req.media, now, own);
      at := PushesAre(req, req.media, reply.value);
    }
  }

  /** A request answered before, signed and in time again, is told the recorded outcomes in order; nothing is added. */
  lemma AnsweredBefore(h: Holdings, book: Book, req: Request, signed: bool, now: int, own: Urn -> Option<int>)
    returns (at: seq<nat>)
    requires Answered(book.rows, req.requester, req.id)
    ensures var (after, reply) := Fulfilled(h, book, req, signed, now, own);
            && after == book
            && (reply == Err(TimestampSkew) <==> !InTime(req, now))
            && (reply == Err(SignatureInvalid) <==> InTime(req, now) && !signed)
            && (InTime(req, now) && signed ==>
                  reply.Ok? && Places(book.rows, IsUnder(req.requester, req.id), at) && |reply.value| == |at|
                  && forall k :: 0 <= k < |at| ==> at[k] < |book.rows| && reply.value[k] == book.rows[at[k]].outcome)
  {
    hide Prior, Answered, JudgeAll, Places;
    PriorIs(book.rows, req.requester, req.id);
    at := PriorRows(book.rows, req.requester, req.id);
  }

  function IsUnder(requester: Domain, id: RequestId): Row -> bool
  {
    (r: Row) => r.requester == requester && r.id == id
  }

  lemma {:induction false} PriorRows(rows: seq<Row>, requester: Domain, id: RequestId) returns (at: seq<nat>)
    ensures Places(rows, IsUnder(requester, id), at) && |Prior(rows, requester, id)| == |at|
    ensures forall k :: 0 <= k < |at| ==> at[k] < |rows| && Prior(rows, requester, id)[k] == rows[at[k]].outcome
  {
    hide Places;
    if rows == [] {
      at := [];
      NoPlace(rows, IsUnder(requester, id));
    } else {
      var n := |rows| - 1;
      at := PriorRows(rows[..n], requester, id);
      OneMorePlace(rows, IsUnder(requester, id), at);
      if rows[n].requester == requester && rows[n].id == id { at := at + [n]; }
    }
  }

  /** A run answers its requests one after the other. */
  lemma {:induction false} RunIs(h: Holdings, book: Book, arrivals: seq<P.Arrival>, a: P.Arrival)
    ensures P.Serve(h, book, []) == book
    ensures P.Serve(h, book, arrivals + [a])
            == Fulfilled(h, P.Serve(h, book, arrivals), a.req, a.signed, a.now, a.own).0
    decreases |arrivals|
  {
    hide Fulfilled;
    if arrivals == [] {
      assert [] + [a] == [a] && [a][1..] == [];
    } else {
      var b := arrivals[0];
      assert (arrivals + [a])[1..] == arrivals[1..] + [a];
      RunIs(h, Fulfilled(h, book, b.req, b.signed, b.now, b.own).0, arrivals[1..], a);
    }
  }
}
