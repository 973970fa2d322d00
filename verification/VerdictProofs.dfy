/** Convergence of verdict histories, however their snapshots are delivered, and the legality of accepts. */
module VerdictProofs {
  import opened Verdicts
  import opened Wrappers

  // ----- exactly its grants, once -----

  lemma {:induction false} RowsConcat(a: seq<Entry>, b: seq<Entry>, envelope: EnvelopeId, target: Domain)
    requires forall g :: g in a + b ==> g.reservation.Some?
    requires forall g :: g in a ==> g.reservation.Some?
    requires forall g :: g in b ==> g.reservation.Some?
    ensures Rows(a + b, envelope, target) == Rows(a, envelope, target) + Rows(b, envelope, target)
  {
    var r, s := Rows(a + b, envelope, target), Rows(a, envelope, target) + Rows(b, envelope, target);
    assert |r| == |s| && forall i :: 0 <= i < |r| ==> r[i] == s[i];
  }

  /** Splitting a selection in two parts loses no row and repeats none. */
  lemma {:induction false} SelectSplit(media: seq<Entry>, p: Entry -> bool, q: Entry -> bool, whole: Entry -> bool,
                                       envelope: EnvelopeId, target: Domain)
    requires forall m :: m in media ==> (whole(m) <==> p(m) || q(m)) && !(p(m) && q(m))
    requires forall m :: m in media && whole(m) ==> m.reservation.Some?
    ensures multiset(Rows(Select(media, p) + Select(media, q), envelope, target))
            == multiset(Rows(Select(media, whole), envelope, target))
  {
    hide Rows;
    if media == [] {
      EmptyRows(envelope, target);
    } else {
      var front, m := media[..|media| - 1], media[|media| - 1];
      assert media == front + [m];
      SelectSplit(front, p, q, whole, envelope, target);
      var fp, fq, fw := Select(front, p), Select(front, q), Select(front, whole);
      RowsConcat(fp, fq, envelope, target);
      RowsConcat(Select(media, p), Select(media, q), envelope, target);
      SelectRows(front, m, p, envelope, target);
      SelectRows(front, m, q, envelope, target);
      SelectRows(front, m, whole, envelope, target);
    }
  }

  lemma EmptyRows(envelope: EnvelopeId, target: Domain)
    ensures Rows([], envelope, target) == [] && Rows([] + [], envelope, target) == []
  {
  }

  /** One more entry adds one row or none. */
  lemma SelectRows(front: seq<Entry>, m: Entry, p: Entry -> bool, envelope: EnvelopeId, target: Domain)
    requires forall g :: g in front + [m] && p(g) ==> g.reservation.Some?
    ensures forall g :: g in Select(front, p) ==> g.reservation.Some?
    ensures multiset(Rows(Select(front + [m], p), envelope, target))
            == multiset(Rows(Select(front, p), envelope, target))
               + if p(m) then multiset{Queued(m.reservation.value, envelope, target)} else multiset{}
  {
    assert (front + [m])[..|front|] == front;
    assert m in front + [m];
    forall g | g in Select(front, p) ensures g.reservation.Some? { assert g in front + [m]; }
    if p(m) {
      RowsConcat(Select(front, p), [m], envelope, target);
      assert Rows([m], envelope, target) == [Queued(m.reservation.value, envelope, target)];
    } else {
      assert Select(front, p) + [] == Select(front, p);
    }
  }

  /** A snapshot with no baseline, or newer than it, queues exactly its own grants, each once; a stale one none. */
  lemma QueuesItsGrantsOnce(stored: seq<Snapshot>, pv: Snapshot, target: Domain)
    requires WellFormed(pv.media)
    ensures forall g :: g in QueuedGrants(stored, pv) + GrantEntries(pv.media) ==> g.reservation.Some?
    ensures var latest := Latest(stored, Inbound(pv.issuer, pv.envelope));
            multiset(Rows(QueuedGrants(stored, pv), pv.envelope, target))
            == if latest.None? || Newer(pv, latest.value)
              then multiset(Rows(GrantEntries(pv.media), pv.envelope, target))
               else multiset{}
  {
    hide Latest, MediaState, Select;
    QueuedAreGrants(stored, pv);
    var latest := Latest(stored, Inbound(pv.issuer, pv.envelope));
    if latest.Some? && Newer(pv, latest.value) {
      var current := MediaState(latest.value.media);
      SelectSplit(pv.media, IsNew(current), IsRefresh(current), IsGrant(), pv.envelope, target);
    }
  }

  // ----- histories -----

  /** Every URN of b is one of a. */
  ghost predicate Covers(a: seq<Entry>, b: seq<Entry>)
  {
    forall n :: n in b ==> exists m :: m in a && m.urn == n.urn
  }

  ghost predicate SameUrns(a: seq<Entry>, b: seq<Entry>)
  {
    Covers(a, b) && Covers(b, a)
  }

  /** One issuer's snapshots of one envelope in order, consecutive changes inside the table. */
  ghost predicate HistoryOk(h: seq<Snapshot>)
  {
    && (forall i :: 0 <= i < |h| ==> WellFormed(h[i].media))
    && (forall i, j :: 0 <= i < |h| && 0 <= j < |h| ==>
          h[i].issuer == h[j].issuer && h[i].origin == h[j].origin && h[i].envelope == h[j].envelope)
    && (forall i, j :: 0 <= i < j < |h| ==> h[i].id != h[j].id)
    && (forall i :: 0 < i < |h| ==> Successor(h[i - 1], h[i]))
  }

  ghost predicate Successor(a: Snapshot, b: Snapshot)
  {
    Newer(b, a) && SameUrns(a.media, b.media) && AllInTable(MediaState(a.media), b.media)
  }

  lemma {:induction false} NewerAlong(h: seq<Snapshot>, i: nat, j: nat)
    requires HistoryOk(h) && i < j < |h|
    ensures Newer(h[j], h[i])
    decreases j
  {
    assert Successor(h[j - 1], h[j]);
    if i < j - 1 { NewerAlong(h, i, j - 1); }
  }

  lemma {:induction false} StateOfEntry(media: seq<Entry>, m: Entry)
    requires WellFormed(media) && m in media
    ensures m.urn in MediaState(media) && MediaState(media)[m.urn] == m.verdict
  {
    var front, last := media[..|media| - 1], media[|media| - 1];
    assert media == front + [last];
    if m != last { StateOfEntry(front, m); }
  }

  lemma {:induction false} EntryOfState(media: seq<Entry>, u: Urn)
    requires u in MediaState(media)
    ensures exists m :: m in media && m.urn == u && m.verdict == MediaState(media)[u]
  {
    var front, last := media[..|media| - 1], media[|media| - 1];
    assert media == front + [last];
    if u == last.urn {
      assert last in media;
    } else {
      EntryOfState(front, u);
      var m :| m in front && m.urn == u && m.verdict == MediaState(front)[u];
      assert m in media;
    }
  }

  /** Skipping snapshots keeps changes inside the table. */
  lemma {:induction false} TableAlong(h: seq<Snapshot>, i: nat, j: nat)
    requires HistoryOk(h) && i <= j < |h|
    ensures AllInTable(MediaState(h[i].media), h[j].media)
    decreases j
  {
    hide MediaState, Covers;
    if i == j {
      SameState(h[j].media);
    } else {
      TableAlong(h, i, j - 1);
      assert Successor(h[j - 1], h[j]);
      TwoSteps(MediaState(h[i].media), h[j - 1].media, h[j].media);
    }
  }

  lemma SameState(media: seq<Entry>)
    requires WellFormed(media)
    ensures AllInTable(MediaState(media), media)
  {
    hide MediaState;
    forall m | m in media
      ensures m.urn in MediaState(media) ==> InTable(MediaState(media)[m.urn], m.verdict)
    {
      StateOfEntry(media, m);
    }
  }

  lemma TwoSteps(current: map<Urn, Verdict>, b: seq<Entry>, c: seq<Entry>)
    requires WellFormed(b) && Covers(b, c) && AllInTable(current, b) && AllInTable(MediaState(b), c)
    ensures AllInTable(current, c)
  {
    hide MediaState;
    forall m | m in c && m.urn in current
      ensures InTable(current[m.urn], m.verdict)
    {
      var n :| n in b && n.urn == m.urn;
      StateOfEntry(b, n);
    }
  }

  // ----- any delivery order -----

  /** ds numbers snapshots of h. */
  predicate Numbers(ds: seq<nat>, h: seq<Snapshot>)
  {
    forall i :: 0 <= i < |ds| ==> ds[i] < |h|
  }

  /** Delivering the snapshots numbered ds of h, in that order; whether any was refused. */
  function Deliver(o: Ledger, h: seq<Snapshot>, ds: seq<nat>): (Ledger, bool)
    requires Numbers(ds, h) && forall i :: 0 <= i < |h| ==> WellFormed(h[i].media)
    decreases |ds|
  {
    if ds == [] then (o, false)
    else
      var before := Deliver(o, h, ds[..|ds| - 1]);
      var (after, problem) := Applied(before.0, h[ds[|ds| - 1]]);
      (after, before.1 || problem.Some?)
  }

  function Largest(ds: seq<nat>): (m: nat)
    requires ds != []
    ensures m in ds && forall d :: d in ds ==> d <= m
  {
    var last := ds[|ds| - 1];
    if |ds| == 1 then last
    else
      var m := Largest(ds[..|ds| - 1]);
      assert ds == ds[..|ds| - 1] + [last];
      if last > m then last else m
  }

  /** The rows of the deliveries that set a record: the grants of each superseding snapshot. */
  function RecordRows(h: seq<Snapshot>, ds: seq<nat>, target: Domain): multiset<Queued>
    requires Numbers(ds, h) && forall i :: 0 <= i < |h| ==> WellFormed(h[i].media)
    decreases |ds|
  {
    if ds == [] then multiset{}
    else
      var front, d := ds[..|ds| - 1], ds[|ds| - 1];
      RecordRows(h, front, target)
      + if front == [] || d > Largest(front) then multiset(Rows(GrantEntries(h[d].media), h[d].envelope, target))
        else multiset{}
  }

  /** An origin that expects h's verdicts and has none of them. */
  ghost predicate Awaits(o: Ledger, h: seq<Snapshot>)
  {
    && HistoryOk(h)
    && (forall i :: 0 <= i < |h| ==>
          h[i].origin == o.domain && h[i].envelope in o.targets && o.targets[h[i].envelope] == h[i].issuer
          && !Known(o.stored, h[i].issuer, h[i].id) && Latest(o.stored, Inbound(h[i].issuer, h[i].envelope)).None?)
  }

  /** What deliveries ds of h leave: nothing else stored, the largest delivered snapshot latest. */
  ghost predicate Settled(o: Ledger, h: seq<Snapshot>, ds: seq<nat>, n: Ledger)
    requires Numbers(ds, h)
  {
    && n.domain == o.domain && n.targets == o.targets
    && (forall s :: s in n.stored <==> s in o.stored || exists d :: d in ds && s == h[d])
    && (h != [] ==> Latest(n.stored, Inbound(h[0].issuer, h[0].envelope)) == if ds == [] then None
      else Some(h[Largest(ds)]))
  }

  /** A snapshot delivered before changes nothing. */
  lemma Redelivery(o: Ledger, h: seq<Snapshot>, ds: seq<nat>, n: Ledger, d: nat)
    requires Awaits(o, h) && Numbers(ds, h) && d in ds && d < |h| && Settled(o, h, ds, n)
    ensures Applied(n, h[d]) == (n, None) && Settled(o, h, ds + [d], n)
    ensures d <= Largest(ds)
  {
    hide Latest, WellFormed, MediaState, AllInTable, Select, Successor, Rows;
    assert (ds + [d])[..|ds|] == ds;
    assert h[d] in n.stored;
    assert Known(n.stored, h[d].issuer, h[d].id);
    LargestNext(ds, d);
  }

  lemma LargestNext(ds: seq<nat>, d: nat)
    ensures Largest(ds + [d]) == if ds == [] || d > Largest(ds) then d else Largest(ds)
  {
    assert (ds + [d])[..|ds|] == ds;
  }

  /** One more stored snapshot is the latest if it is newer. */
  lemma LatestNext(stored: seq<Snapshot>, pv: Snapshot, wanted: Snapshot -> bool)
    requires wanted(pv)
    ensures Latest(stored + [pv], wanted)
            == var before := Latest(stored, wanted); if before.None? || Newer(pv, before.value) then Some(pv)
                else before
  {
    assert (stored + [pv])[..|stored|] == stored;
  }

  /** A snapshot newer than all delivered ones supersedes them. */
  lemma Superseding(o: Ledger, h: seq<Snapshot>, ds: seq<nat>, n: Ledger, d: nat)
    requires Awaits(o, h) && Numbers(ds, h) && d < |h| && Settled(o, h, ds, n) && d !in ds
    requires ds == [] || d > Largest(ds)
    ensures forall g :: g in QueuedGrants(n.stored, h[d]) ==> g.reservation.Some?
    ensures var (after, problem) := Applied(n, h[d]);
            problem.None? && Settled(o, h, ds + [d], after)
            && after.queue == n.queue + Rows(QueuedGrants(n.stored, h[d]), h[d].envelope, o.targets[h[d].envelope])
  {
    hide Latest, WellFormed, MediaState, AllInTable, Select, Successor, Rows, Largest, QueuedGrants;
    NotKnown(o, h, ds, n, d);
    QueuedAreGrants(n.stored, h[d]);
    LatestNext(n.stored, h[d], Inbound(h[d].issuer, h[d].envelope));
    LargestNext(ds, d);
    if ds != [] {
      NewerAlong(h, Largest(ds), d);
      TableAlong(h, Largest(ds), d);
    }
    StoredNext(o, h, ds, n, d);
  }

  /** A snapshot older than the largest delivered one is stored and alters nothing. */
  lemma Stale(o: Ledger, h: seq<Snapshot>, ds: seq<nat>, n: Ledger, d: nat)
    requires Awaits(o, h) && Numbers(ds, h) && d < |h| && Settled(o, h, ds, n) && d !in ds
    requires ds != [] && d < Largest(ds)
    ensures var (after, problem) := Applied(n, h[d]);
            problem.None? && Settled(o, h, ds + [d], after) && after.queue == n.queue
  {
    hide Latest, WellFormed, MediaState, AllInTable, Select, Successor, Largest;
    NotKnown(o, h, ds, n, d);
    LatestNext(n.stored, h[d], Inbound(h[d].issuer, h[d].envelope));
    LargestNext(ds, d);
    NewerAlong(h, d, Largest(ds));
    StoredNext(o, h, ds, n, d);
  }

  lemma StoredNext(o: Ledger, h: seq<Snapshot>, ds: seq<nat>, n: Ledger, d: nat)
    requires Numbers(ds, h) && d < |h| && Settled(o, h, ds, n)
    ensures forall s :: s in n.stored + [h[d]] <==> s in o.stored || exists e :: e in ds + [d] && s == h[e]
  {
    hide Latest, Largest;
    forall s | s in n.stored + [h[d]]
      ensures s in o.stored || exists e :: e in ds + [d] && s == h[e]
    {
      if s == h[d] { assert d in ds + [d]; }
      else if s !in o.stored {
        var e :| e in ds && s == h[e];
        assert e in ds + [d];
      }
    }
  }

  lemma OneDelivery(o: Ledger, h: seq<Snapshot>, ds: seq<nat>, n: Ledger, d: nat)
    requires Awaits(o, h) && Numbers(ds, h) && d < |h| && Settled(o, h, ds, n)
    ensures forall g :: g in GrantEntries(h[d].media) ==> g.reservation.Some?
    ensures var (after, problem) := Applied(n, h[d]);
            problem.None? && Settled(o, h, ds + [d], after)
            && multiset(after.queue) == multiset(n.queue)
                 + if ds == [] || d > Largest(ds) then
                     multiset(Rows(GrantEntries(h[d].media), h[d].envelope, o.targets[h[d].envelope]))
                   else multiset{}
  {
    hide Latest, WellFormed, MediaState, AllInTable, Select, Successor, Rows, Largest, QueuedGrants, Applied, Settled;
    QueuesItsGrantsOnce(n.stored, h[d], o.targets[h[d].envelope]);
    if d in ds {
      Redelivery(o, h, ds, n, d);
    } else if ds == [] || d > Largest(ds) {
      Superseding(o, h, ds, n, d);
      NewestOf(o, h, ds, n, d);
    } else {
      Stale(o, h, ds, n, d);
    }
  }

  lemma NewestOf(o: Ledger, h: seq<Snapshot>, ds: seq<nat>, n: Ledger, d: nat)
    requires Awaits(o, h) && Numbers(ds, h) && d < |h| && Settled(o, h, ds, n) && (ds == [] || d > Largest(ds))
    ensures var latest := Latest(n.stored, Inbound(h[d].issuer, h[d].envelope));
            latest.None? || Newer(h[d], latest.value)
  {
    hide Latest, WellFormed, Successor, Largest;
    if ds != [] { NewerAlong(h, Largest(ds), d); }
  }

  lemma NotKnown(o: Ledger, h: seq<Snapshot>, ds: seq<nat>, n: Ledger, d: nat)
    requires Awaits(o, h) && Numbers(ds, h) && d < |h| && d !in ds && Settled(o, h, ds, n)
    ensures !Known(n.stored, h[d].issuer, h[d].id)
  {
  }

  /**
   Convergence: whatever the order, the gaps and the repetitions, no snapshot of a legal history is refused, the
   origin's state is that of the largest delivered snapshot, and the queue has grown by exactly the grants of the
   snapshots that superseded, each once.
   */
  lemma {:induction false} DeliveriesConverge(o: Ledger, h: seq<Snapshot>, ds: seq<nat>)
    requires Awaits(o, h) && h != [] && Numbers(ds, h)
    ensures var (n, refused) := Deliver(o, h, ds);
            !refused && Settled(o, h, ds, n)
            && multiset(n.queue) == multiset(o.queue) + RecordRows(h, ds, h[0].issuer)
    decreases |ds|
  {
    hide Applied, HistoryOk, Largest, Rows;
    if ds != [] {
      var front, d := ds[..|ds| - 1], ds[|ds| - 1];
      assert ds == front + [d];
      DeliveriesConverge(o, h, front);
      HistoryMembers(o, h, d);
      OneDelivery(o, h, front, Deliver(o, h, front).0, d);
    }
  }

  lemma HistoryMembers(o: Ledger, h: seq<Snapshot>, d: nat)
    requires Awaits(o, h) && d < |h|
    ensures h[d].envelope in o.targets && o.targets[h[d].envelope] == h[0].issuer
    ensures forall i :: 0 <= i < |h| ==> WellFormed(h[i].media)
  {
  }

  /** The final state depends on what was delivered, not on the order. */
  lemma OrderDoesNotMatter(o: Ledger, h: seq<Snapshot>, ds: seq<nat>, es: seq<nat>)
    requires Awaits(o, h) && h != [] && Numbers(ds, h) && Numbers(es, h) && forall d :: d in ds <==> d in es
    ensures forall s :: s in Deliver(o, h, ds).0.stored <==> s in Deliver(o, h, es).0.stored
    ensures var wanted := Inbound(h[0].issuer, h[0].envelope);
            Latest(Deliver(o, h, ds).0.stored, wanted) == Latest(Deliver(o, h, es).0.stored, wanted)
  {
    hide Latest, Largest, Deliver, HistoryOk, RecordRows;
    DeliveriesConverge(o, h, ds);
    DeliveriesConverge(o, h, es);
    assert ds != [] <==> es != [] by {
      if ds != [] { assert ds[0] in es; }
      if es != [] { assert es[0] in ds; }
    }
  }

  // ----- accepts -----

  lemma {:induction false} AcceptEntry(media: seq<Entry>, mint: Urn -> Option<Reservation>, i: nat)
    requires i < |media| && AcceptMedia(media, mint).Some?
    ensures var out := AcceptMedia(media, mint).value;
            |out| == |media|
            && (media[i].verdict.Defer? ==> mint(media[i].urn).Some?)
            && out[i] == if media[i].verdict.Defer? then Entry(media[i].urn, Grant, mint(media[i].urn)) else media[i]
  {
    var front := media[..|media| - 1];
    if |media| == 1 {
      assert AcceptMedia(front, mint) == Some([]);
    } else {
      AcceptEntry(front, mint, if i < |front| then i else 0);
    }
  }

  /** An accept changes only deferred entries, into grants: its state follows the prior one by the table. */
  lemma AcceptKeepsTable(prior: seq<Entry>, mint: Urn -> Option<Reservation>)
    requires WellFormed(prior) && AcceptMedia(prior, mint).Some?
    ensures var media := AcceptMedia(prior, mint).value;
            WellFormed(media) && SameUrns(prior, media) && AllInTable(MediaState(prior), media)
  {
    hide MediaState, AcceptMedia;
    var media := AcceptMedia(prior, mint).value;
    if prior != [] { AcceptEntry(prior, mint, 0); } else { NoMedia(mint); }
    forall i | 0 <= i < |prior|
      ensures media[i].urn == prior[i].urn && (media[i].verdict.Grant? ==> media[i].reservation.Some?)
      ensures prior[i].urn in MediaState(prior) && InTable(MediaState(prior)[prior[i].urn], media[i].verdict)
    {
      AcceptEntry(prior, mint, i);
      StateOfEntry(prior, prior[i]);
      assert prior[i] in prior;
    }
    forall m | m in media ensures exists n :: n in prior && n.urn == m.urn
    {
      var i :| 0 <= i < |media| && media[i] == m;
      assert prior[i] in prior;
    }
    forall n | n in prior ensures exists m :: m in media && m.urn == n.urn
    {
      var i :| 0 <= i < |prior| && prior[i] == n;
      assert media[i] in media;
    }
  }

  lemma NoMedia(mint: Urn -> Option<Reservation>)
    ensures AcceptMedia([], mint) == Some([])
  {
  }

  /** An accept is a legal successor of the snapshot it upgrades if and only if its (created, verdict_id) is larger. */
  lemma AcceptIsLegalExactlyWhen(prior: Snapshot, accept: Snapshot, mint: Urn -> Option<Reservation>)
    requires WellFormed(prior.media) && AcceptMedia(prior.media, mint) == Some(accept.media)
    ensures Successor(prior, accept)
            <==> accept.created > prior.created || (accept.created == prior.created && accept.id > prior.id)
  {
    hide AcceptMedia, MediaState, SameUrns, AllInTable;
    AcceptKeepsTable(prior.media, mint);
  }

  /** Accepting again and again, with a clock that never runs back and new verdict ids, keeps the history legal. */
  lemma AcceptExtendsHistory(h: seq<Snapshot>, accept: Snapshot, mint: Urn -> Option<Reservation>)
    requires HistoryOk(h) && h != []
    requires var prior := h[|h| - 1];
             AcceptMedia(prior.media, mint) == Some(accept.media) && Newer(accept, prior)
             && accept.issuer == prior.issuer && accept.origin == prior.origin && accept.envelope == prior.envelope
    requires forall s :: s in h ==> s.id != accept.id
    ensures HistoryOk(h + [accept])
  {
    hide AcceptMedia, MediaState, SameUrns, AllInTable, WellFormed;
    var prior := h[|h| - 1];
    assert WellFormed(prior.media);
    AcceptKeepsTable(prior.media, mint);
    var g := h + [accept];
    forall i | 0 < i < |g| ensures Successor(g[i - 1], g[i])
    {
      if i < |h| { assert Successor(h[i - 1], h[i]); }
    }
    forall i, j | 0 <= i < j < |g| ensures g[i].id != g[j].id
    {
      if j == |h| { assert h[i] in h; }
    }
  }

  /**
   An accept restates the grants of the snapshot before it with the reservations they already had, so an origin that
   is up to date queues an old entry again if and only if it was a grant.
   */
  lemma AcceptRequeuesExactlyGrants(stored: seq<Snapshot>, prior: Snapshot, accept: Snapshot,
                                    mint: Urn -> Option<Reservation>, e: Entry)
    requires WellFormed(prior.media) && AcceptMedia(prior.media, mint) == Some(accept.media) && Newer(accept, prior)
    requires Latest(stored, Inbound(accept.issuer, accept.envelope)) == Some(prior) && e in prior.media
    ensures e in QueuedGrants(stored, accept) <==> e.verdict.Grant?
  {
    hide AcceptMedia, MediaState, Latest;
    QueuedAreGrants(stored, accept) by { AcceptKeepsTable(prior.media, mint); }
    if e.verdict.Grant? {
      var i :| 0 <= i < |prior.media| && prior.media[i] == e;
      AcceptEntry(prior.media, mint, i);
      StateOfEntry(prior.media, e);
      assert e in accept.media;
      SelectKeeps(accept.media, IsRefresh(MediaState(prior.media)), e);
    }
  }

  lemma {:induction false} SelectKeeps(media: seq<Entry>, p: Entry -> bool, m: Entry)
    requires m in media && p(m)
    ensures m in Select(media, p)
  {
    var front, last := media[..|media| - 1], media[|media| - 1];
    assert media == front + [last];
    if m != last { SelectKeeps(front, p, m); }
  }

  // ----- the first verdict -----

  /** The sizes of the granted entries. */
  function GrantedSize(manifest: seq<ManifestEntry>, media: seq<Entry>): nat
    requires |manifest| == |media|
  {
    if media == [] then 0
    else
      GrantedSize(manifest[..|manifest| - 1], media[..|media| - 1])
      + if media[|media| - 1].verdict.Grant? then manifest[|manifest| - 1].size else 0
  }

  /** For strangers, what is granted automatically never exceeds the budget, nor any entry its maximum. */
  lemma {:induction false} BudgetIsKept(manifest: seq<ManifestEntry>, policy: Policy, live: set<Urn>,
                                        mint: Urn -> Reservation)
    ensures var media := Outcomes(manifest, Accepted, Some(policy), live, mint);
            |media| == |manifest|
            && GrantedSize(manifest, media) == AutoGranted(manifest, Some(policy)) <= policy.budget
            && forall i :: 0 <= i < |media| ==>
                 (media[i].verdict.Grant? <==>
                    manifest[i].size <= policy.entryMax
                    && AutoGranted(manifest[..i], Some(policy)) + manifest[i].size <= policy.budget)
  {
    if manifest != [] {
      var front := manifest[..|manifest| - 1];
      BudgetIsKept(front, policy, live, mint);
      var media := Outcomes(manifest, Accepted, Some(policy), live, mint);
      assert media[..|media| - 1] == Outcomes(front, Accepted, Some(policy), live, mint);
      forall i | 0 <= i < |front| ensures manifest[..i] == front[..i] {}
    }
  }

  /** Possession is not disclosed to strangers: without a correspondent the verdict does not depend on what is held. */
  lemma {:induction false} StrangersLearnNothing(manifest: seq<ManifestEntry>, t: Entitlement, policy: Option<Policy>,
                                                 live: set<Urn>, live': set<Urn>, mint: Urn -> Reservation)
    requires !t.Tier1?
    ensures Outcomes(manifest, t, policy, live, mint) == Outcomes(manifest, t, policy, live', mint)
  {
    if manifest != [] { StrangersLearnNothing(manifest[..|manifest| - 1], t, policy, live, live', mint); }
  }

  /**
   Entry by entry: a correspondent is granted what is not held and told of what is; a sender in quarantine is always
   deferred; and every grant carries the reservation minted for its URN.
   */
  lemma {:induction false} EntitlementDecides(manifest: seq<ManifestEntry>, t: Entitlement, policy: Option<Policy>,
                                              live: set<Urn>, mint: Urn -> Reservation, i: nat)
    requires i < |manifest| && !t.Rejected?
    ensures var m := Outcomes(manifest, t, policy, live, mint)[i];
            && m.urn == manifest[i].urn
            && (t.Tier1? ==> m.verdict == if m.urn in live then Have else Grant)
            && (t.QuarantinedOnly? || (t.Accepted? && policy.None?) ==> m.verdict.Defer?)
            && m.reservation == if m.verdict.Grant? then Some(mint(m.urn)) else None
  {
    if i < |manifest| - 1 {
      var front := manifest[..|manifest| - 1];
      EntitlementDecides(front, t, policy, live, mint, i);
      assert Outcomes(manifest, t, policy, live, mint)[i] == Outcomes(front, t, policy, live, mint)[i];
    }
  }

  /** The first verdict starts a legal history. */
  lemma FirstVerdictIsHistory(manifest: seq<ManifestEntry>, t: Entitlement, policy: Option<Policy>, live: set<Urn>,
                              mint: Urn -> Reservation, s: Snapshot)
    requires forall i, j :: 0 <= i < j < |manifest| ==> manifest[i].urn != manifest[j].urn
    requires s.media == Outcomes(manifest, t, policy, live, mint)
    ensures HistoryOk([s])
  {
    OutcomesWellFormed(manifest, t, policy, live, mint);
  }

  lemma {:induction false} OutcomesWellFormed(manifest: seq<ManifestEntry>, t: Entitlement, policy: Option<Policy>,
                                              live: set<Urn>, mint: Urn -> Reservation)
    requires forall i, j :: 0 <= i < j < |manifest| ==> manifest[i].urn != manifest[j].urn
    ensures WellFormed(Outcomes(manifest, t, policy, live, mint))
  {
    if manifest != [] { OutcomesWellFormed(manifest[..|manifest| - 1], t, policy, live, mint); }
  }
}
