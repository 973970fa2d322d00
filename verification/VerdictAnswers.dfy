/**
 What an origin makes of a snapshot, from the snapshot and its own rows (server/sn/origin.go:44-240), and what a
 recipient issues (server/sn/sn.go:322-386 and 453-509).
 */
module VerdictAnswers {
  import opened Lists
  import opened Verdicts
  import opened VerdictProofs
  import opened Wrappers

  /** Later by the created timestamp, ties by the verdict id. */
  predicate LaterThan(a: Snapshot, b: Snapshot)
  {
    a.created > b.created || (a.created == b.created && a.id > b.id)
  }

  predicate SameThread(a: Snapshot, b: Snapshot)
  {
    a.issuer == b.issuer && a.envelope == b.envelope
  }

  /** The newest snapshot of pv's issuer about pv's envelope. */
  ghost predicate Baseline(stored: seq<Snapshot>, pv: Snapshot, s: Snapshot)
  {
    && s in stored && SameThread(s, pv) && forall x :: x in stored && SameThread(x, pv) ==> !LaterThan(x, s)
  }

  ghost predicate NoBaseline(stored: seq<Snapshot>, pv: Snapshot)
  {
    forall x :: x in stored ==> !SameThread(x, pv)
  }

  lemma {:induction false} LatestIs(stored: seq<Snapshot>, pv: Snapshot)
    ensures var l := Latest(stored, Inbound(pv.issuer, pv.envelope));
            && (l.None? <==> NoBaseline(stored, pv))
            && (l.Some? ==> Baseline(stored, pv, l.value))
  {
    if stored != [] {
      var front, s := stored[..|stored| - 1], stored[|stored| - 1];
      LatestIs(front, pv);
      assert stored == front + [s];
      assert s in stored;
    }
  }

  /** urn stands at j, for the last time. */
  ghost predicate StandsAt(media: seq<Entry>, urn: Urn, j: int)
  {
    0 <= j < |media| && media[j].urn == urn && forall k :: j < k < |media| ==> media[k].urn != urn
  }

  /** The verdict a snapshot gives urn. */
  ghost predicate Gives(media: seq<Entry>, urn: Urn, v: Verdict)
  {
    exists j :: StandsAt(media, urn, j) && media[j].verdict == v
  }

  lemma {:induction false} StateIs(media: seq<Entry>, urn: Urn, v: Verdict)
    ensures urn in MediaState(media) && MediaState(media)[urn] == v <==> Gives(media, urn, v)
  {
    if media != [] {
      var n := |media| - 1;
      StateIs(media[..n], urn, v);
      if media[n].urn == urn {
        assert StandsAt(media, urn, n);
      } else {
        if j :| StandsAt(media[..n], urn, j) && media[..n][j].verdict == v { assert StandsAt(media, urn, j); }
        if j :| StandsAt(media, urn, j) && media[j].verdict == v { assert StandsAt(media[..n], urn, j); }
      }
    }
  }

  /** The three changes there are. */
  predicate Change(a: Verdict, b: Verdict)
  {
    (a == Defer && b == Grant) || (a == Defer && b == Deny) || (a == Grant && b == Deny)
  }

  /** An entry that changes what stands in a way there is not. */
  ghost predicate Breaks(before: seq<Entry>, m: Entry)
  {
    exists v :: Gives(before, m.urn, v) && v != m.verdict && !Change(v, m.verdict)
  }

  ghost predicate AnyBreaks(before: seq<Entry>, media: seq<Entry>)
  {
    exists i :: 0 <= i < |media| && Breaks(before, media[i])
  }

  lemma {:induction false} TableIs(before: seq<Entry>, media: seq<Entry>)
    ensures AllInTable(MediaState(before), media) <==> !AnyBreaks(before, media)
  {
    hide MediaState, Gives;
    var current := MediaState(before);
    forall i | 0 <= i < |media|
      ensures Breaks(before, media[i])
              <==> media[i].urn in current && !InTable(current[media[i].urn], media[i].verdict)
    {
      var m := media[i];
      if m.urn in current { StateIs(before, m.urn, current[m.urn]); }
      forall v | Gives(before, m.urn, v) ensures m.urn in current && current[m.urn] == v { StateIs(before, m.urn, v); }
    }
  }

  function Granting(): Entry -> bool
  {
    (m: Entry) => m.verdict == Grant
  }

  /** A grant where none stood. */
  ghost predicate Opens(before: seq<Entry>, m: Entry)
  {
    m.verdict == Grant && !Gives(before, m.urn, Grant)
  }

  /** A grant that restates one and brings a reservation. */
  ghost predicate Renews(before: seq<Entry>, m: Entry)
  {
    m.verdict == Grant && Gives(before, m.urn, Grant) && m.reservation.Some?
  }

  lemma {:induction false} SelectPlaces(media: seq<Entry>, p: Entry -> bool) returns (at: seq<nat>)
    ensures Places(media, p, at) && |Select(media, p)| == |at|
    ensures forall k :: 0 <= k < |at| ==> at[k] < |media| && Select(media, p)[k] == media[at[k]]
  {
    hide Places;
    if media == [] {
      at := [];
      NoPlace(media, p);
    } else {
      var n := |media| - 1;
      at := SelectPlaces(media[..n], p);
      OneMorePlace(media, p, at);
      if p(media[n]) { at := at + [n]; }
    }
  }

  /** One queue row for the reservation of each entry at these places. */
  ghost predicate RowsFor(rows: seq<Queued>, media: seq<Entry>, at: seq<nat>, envelope: EnvelopeId, target: Domain)
  {
    |rows| == |at|
    && forall k :: 0 <= k < |at| ==>
         at[k] < |media| && media[at[k]].reservation.Some?
         && rows[k] == Queued(media[at[k]].reservation.value, envelope, target)
  }

  lemma SelectedRows(media: seq<Entry>, p: Entry -> bool, envelope: EnvelopeId, target: Domain)
    returns (at: seq<nat>)
    requires forall m :: m in Select(media, p) ==> m.reservation.Some?
    ensures Places(media, p, at) && RowsFor(Rows(Select(media, p), envelope, target), media, at, envelope, target)
  {
    hide Places, Rows;
    at := SelectPlaces(media, p);
    assert forall k :: 0 <= k < |at| ==> Select(media, p)[k] in Select(media, p);
  }

  /** Addressed to this domain, about an envelope that it dispatched to the issuer. */
  predicate Expected(o: Ledger, pv: Snapshot)
  {
    pv.origin == o.domain && pv.envelope in o.targets && o.targets[pv.envelope] == pv.issuer
  }

  ghost predicate Seen(o: Ledger, pv: Snapshot)
  {
    exists s :: s in o.stored && s.issuer == pv.issuer && s.id == pv.id
  }

  /** Which snapshots change nothing, and what is said of them. */
  lemma IgnoredExactlyWhen(o: Ledger, pv: Snapshot)
    requires WellFormed(pv.media)
    ensures !Expected(o, pv) <==> Applied(o, pv).1 == Some(UnknownEnvelope)
    ensures !Expected(o, pv) || Seen(o, pv) ==> Applied(o, pv).0 == o
    ensures Expected(o, pv) && Seen(o, pv) ==> Applied(o, pv).1 == None
  {
    hide WellFormed, Latest, Rows, AllInTable, FirstIllegal, QueuedGrants;
    if Seen(o, pv) { assert Known(o.stored, pv.issuer, pv.id); }
  }

  /** With no baseline the snapshot is stored, and each of its grants queued once, in order. */
  lemma FirstSnapshot(o: Ledger, pv: Snapshot) returns (at: seq<nat>, rows: seq<Queued>)
    requires WellFormed(pv.media) && Expected(o, pv) && !Seen(o, pv) && NoBaseline(o.stored, pv)
    ensures Applied(o, pv) == (o.(stored := o.stored + [pv], queue := o.queue + rows), None)
    ensures Places(pv.media, Granting(), at) && RowsFor(rows, pv.media, at, pv.envelope, pv.issuer)
  {
    hide Places, Latest, Rows, AllInTable, FirstIllegal, RowsFor;
    LatestIs(o.stored, pv);
    QueuedAreGrants(o.stored, pv);
    at := SelectedRows(pv.media, IsGrant(), pv.envelope, pv.issuer);
    SamePlaces(pv.media, IsGrant(), Granting(), at);
    rows := Rows(Select(pv.media, IsGrant()), pv.envelope, pv.issuer);
  }

  lemma SamePlaces(media: seq<Entry>, p: Entry -> bool, q: Entry -> bool, at: seq<nat>)
    requires Places(media, p, at) && forall m :: p(m) <==> q(m)
    ensures Places(media, q, at)
  {
  }

  /** A stale snapshot is stored and queues nothing. */
  lemma StaleSnapshot(o: Ledger, pv: Snapshot, before: Snapshot)
    requires WellFormed(pv.media) && Expected(o, pv) && !Seen(o, pv)
    requires Baseline(o.stored, pv, before) && !LaterThan(pv, before)
    ensures Applied(o, pv) == (o.(stored := o.stored + [pv]), None)
  {
    hide Latest, AllInTable, FirstIllegal;
    LatestIs(o.stored, pv);
    assert o.queue + [] == o.queue;
  }

  ghost predicate OpensPlaces(before: seq<Entry>, media: seq<Entry>, at: seq<nat>)
  {
    && (forall k :: 0 <= k < |at| ==> at[k] < |media| && Opens(before, media[at[k]]))
    && (forall k, l :: 0 <= k < l < |at| ==> at[k] < at[l])
    && forall i :: 0 <= i < |media| && Opens(before, media[i]) ==> i in at
  }

  ghost predicate RenewsPlaces(before: seq<Entry>, media: seq<Entry>, at: seq<nat>)
  {
    && (forall k :: 0 <= k < |at| ==> at[k] < |media| && Renews(before, media[at[k]]))
    && (forall k, l :: 0 <= k < l < |at| ==> at[k] < at[l])
    && forall i :: 0 <= i < |media| && Renews(before, media[i]) ==> i in at
  }

  lemma GrantsAre(before: seq<Entry>, m: Entry)
    ensures IsNew(MediaState(before))(m) <==> Opens(before, m)
    ensures IsRefresh(MediaState(before))(m) <==> Renews(before, m)
  {
    hide MediaState, Gives;
    StateIs(before, m.urn, Grant);
  }

  /**
   A superseding snapshot is refused, at its first such URN, exactly when it changes what stands in a way other than
   deferral to grant, deferral to denial and grant to denial; otherwise it is stored, and queued are its grants of what
   was not granted and then its restated grants, each once and in order.
   */
  lemma NewerSnapshot(o: Ledger, pv: Snapshot, before: Snapshot)
    returns (opening: seq<nat>, renewed: seq<nat>, first: seq<Queued>, second: seq<Queued>)
    requires WellFormed(pv.media) && Expected(o, pv) && !Seen(o, pv)
    requires Baseline(o.stored, pv, before) && LaterThan(pv, before)
    requires forall x :: x in o.stored && x.created == before.created && x.id == before.id && SameThread(x, pv) ==>
               x == before
    ensures if AnyBreaks(before.media, pv.media) then Refused(o, pv, before)
            else Applied(o, pv) == (o.(stored := o.stored + [pv], queue := o.queue + first + second), None)
    ensures !AnyBreaks(before.media, pv.media) ==>
              && OpensPlaces(before.media, pv.media, opening) && RenewsPlaces(before.media, pv.media, renewed)
              && RowsFor(first, pv.media, opening, pv.envelope, pv.issuer)
              && RowsFor(second, pv.media, renewed, pv.envelope, pv.issuer)
  {
    hide Places, Rows, AllInTable, FirstIllegal, RowsFor, AnyBreaks, Latest, WellFormed, OpensPlaces, RenewsPlaces,
         Select, Refused;
    LatestIs(o.stored, pv);
    var latest := Latest(o.stored, Inbound(pv.issuer, pv.envelope)).value;
    assert latest == before;
    TableIs(before.media, pv.media);
    opening, renewed, first, second := [], [], [], [];
    if AnyBreaks(before.media, pv.media) {
      FirstBreak(o, pv, before);
    } else {
      QueuedAreGrants(o.stored, pv);
      opening, renewed, first, second := TwoLists(pv, before.media, NewGrants(MediaState(before.media), pv.media),
        Refreshes(MediaState(before.media), pv.media));
      assert o.queue + (first + second) == o.queue + first + second;
    }
  }

  ghost predicate Refused(o: Ledger, pv: Snapshot, before: Snapshot)
    requires WellFormed(pv.media)
  {
    exists i :: 0 <= i < |pv.media| && Breaks(before.media, pv.media[i])
                && (forall j :: 0 <= j < i ==> !Breaks(before.media, pv.media[j]))
                && Applied(o, pv) == (o, Some(InvalidTransition(pv.media[i].urn)))
  }

  lemma FirstBreak(o: Ledger, pv: Snapshot, before: Snapshot)
    requires WellFormed(pv.media) && Expected(o, pv) && !Seen(o, pv)
    requires Latest(o.stored, Inbound(pv.issuer, pv.envelope)) == Some(before) && LaterThan(pv, before)
    requires AnyBreaks(before.media, pv.media)
    ensures Refused(o, pv, before)
  {
    hide Rows, Latest, Breaks, MediaState, QueuedGrants, WellFormed;
    TableIs(before.media, pv.media);
    var i := FirstBreaks(before.media, pv.media);
    forall j | 0 <= j <= i
      ensures Breaks(before.media, pv.media[j])
              <==> pv.media[j].urn in MediaState(before.media)
                   && !InTable(MediaState(before.media)[pv.media[j].urn], pv.media[j].verdict)
    {
      OneBreaks(before.media, pv.media[j]);
    }
    IllegalAt(MediaState(before.media), pv.media, i);
  }

  lemma OneBreaks(before: seq<Entry>, m: Entry)
    ensures Breaks(before, m) <==> m.urn in MediaState(before) && !InTable(MediaState(before)[m.urn], m.verdict)
  {
    hide MediaState, Gives;
    var current := MediaState(before);
    if m.urn in current { StateIs(before, m.urn, current[m.urn]); }
    forall v | Gives(before, m.urn, v) ensures m.urn in current && current[m.urn] == v { StateIs(before, m.urn, v); }
  }

  lemma {:induction false} FirstBreaks(before: seq<Entry>, media: seq<Entry>) returns (i: nat)
    requires AnyBreaks(before, media)
    ensures i < |media| && Breaks(before, media[i]) && forall j :: 0 <= j < i ==> !Breaks(before, media[j])
  {
    hide Breaks;
    i := 0;
    while !Breaks(before, media[i])
      invariant i < |media| && forall j :: 0 <= j < i ==> !Breaks(before, media[j])
      decreases |media| - i
    {
      i := i + 1;
    }
  }

  lemma TwoLists(pv: Snapshot, before: seq<Entry>, opens: seq<Entry>, renews: seq<Entry>)
    returns (opening: seq<nat>, renewed: seq<nat>, first: seq<Queued>, second: seq<Queued>)
    requires WellFormed(pv.media)
    requires opens == NewGrants(MediaState(before), pv.media) && renews == Refreshes(MediaState(before), pv.media)
    ensures forall g :: g in opens + renews ==> g.reservation.Some?
    ensures Rows(opens + renews, pv.envelope, pv.issuer) == first + second
    ensures OpensPlaces(before, pv.media, opening) && RenewsPlaces(before, pv.media, renewed)
    ensures RowsFor(first, pv.media, opening, pv.envelope, pv.issuer)
    ensures RowsFor(second, pv.media, renewed, pv.envelope, pv.issuer)
  {
    hide MediaState, Rows, RowsFor, Select, Opens, Renews;
    opening := SelectedRows(pv.media, IsNew(MediaState(before)), pv.envelope, pv.issuer);
    renewed := SelectedRows(pv.media, IsRefresh(MediaState(before)), pv.envelope, pv.issuer);
    forall i | 0 <= i < |pv.media|
      ensures IsNew(MediaState(before))(pv.media[i]) <==> Opens(before, pv.media[i])
      ensures IsRefresh(MediaState(before))(pv.media[i]) <==> Renews(before, pv.media[i])
    {
      GrantsAre(before, pv.media[i]);
    }
    first, second := Rows(opens, pv.envelope, pv.issuer), Rows(renews, pv.envelope, pv.issuer);
    RowsConcat(opens, renews, pv.envelope, pv.issuer);
  }

  // ----- what a recipient issues -----

  function Deferred(): Entry -> bool
  {
    (m: Entry) => m.verdict == Defer
  }

  /** Some deferred entry is for an object the manifest does not have. */
  ghost predicate Unmintable(media: seq<Entry>, mint: Urn -> Option<Reservation>)
  {
    exists i :: 0 <= i < |media| && media[i].verdict == Defer && mint(media[i].urn).None?
  }

  /**
   An accept grants what was deferred, with the minted reservation, and restates the rest; it fails exactly when a
   reservation cannot be minted. The reservations kept are those of the deferred entries, in order.
   */
  lemma {:induction false} AcceptIs(media: seq<Entry>, mint: Urn -> Option<Reservation>) returns (at: seq<nat>)
    ensures AcceptMedia(media, mint).None? <==> Unmintable(media, mint)
    ensures !Unmintable(media, mint) ==>
              |AcceptMedia(media, mint).value| == |media|
              && forall i :: 0 <= i < |media| ==>
                   AcceptMedia(media, mint).value[i]
                   == if media[i].verdict == Defer then Entry(media[i].urn, Grant, mint(media[i].urn)) else media[i]
    ensures !Unmintable(media, mint) ==>
              Places(media, Deferred(), at) && |Minted(media, mint)| == |at|
              && forall k :: 0 <= k < |at| ==>
                   at[k] < |media| && mint(media[at[k]].urn) == Some(Minted(media, mint)[k])
  {
    hide Places;
    if media == [] {
      at := [];
      NoPlace(media, Deferred());
    } else {
      var n := |media| - 1;
      assert media == media[..n] + [media[n]];
      at := AcceptIs(media[..n], mint);
      if !Unmintable(media, mint) {
        assert forall i :: 0 <= i < n ==> media[..n][i] == media[i];
        OneMorePlace(media, Deferred(), at);
        if media[n].verdict == Defer { at := at + [n]; }
      }
    }
  }

  /** An entry small enough for the policy, with room left in the budget after those granted before it. */
  predicate Automatic(manifest: seq<ManifestEntry>, media: seq<Entry>, policy: Option<Policy>, i: nat)
    requires |manifest| == |media| && i < |media|
  {
    && policy.Some? && manifest[i].size <= policy.value.entryMax
    && GrantedSize(manifest[..i], media[..i]) + manifest[i].size <= policy.value.budget
  }

  /** The outcome of one entry. */
  predicate OutcomeIs(manifest: seq<ManifestEntry>, media: seq<Entry>, anyT1: bool, anyAccepted: bool,
                      policy: Option<Policy>, live: set<Urn>, mint: Urn -> Reservation, i: nat)
    requires |manifest| == |media| && i < |media|
  {
    var urn := manifest[i].urn;
    media[i] == if anyT1 && urn in live then Entry(urn, Have, None)
                else if anyT1 || (anyAccepted && Automatic(manifest, media, policy, i)) then
                  Entry(urn, Grant, Some(mint(urn)))
                else Entry(urn, Defer, None)
  }

  lemma {:induction false} OutcomesAt(manifest: seq<ManifestEntry>, t: Entitlement, policy: Option<Policy>,
                                      live: set<Urn>, mint: Urn -> Reservation, i: nat)
    requires i < |manifest| && !t.Rejected?
    ensures var media := Outcomes(manifest, t, policy, live, mint);
            media[..i] == Outcomes(manifest[..i], t, policy, live, mint)
            && media[i] == OutcomeOf(manifest[i], t, policy, AutoGranted(manifest[..i], policy), live, mint)
  {
    hide OutcomeOf, AutoGranted;
    var n := |manifest| - 1;
    var media, front := Outcomes(manifest, t, policy, live, mint), Outcomes(manifest[..n], t, policy, live, mint);
    assert media[..n] == front;
    if i < n {
      OutcomesAt(manifest[..n], t, policy, live, mint, i);
      assert manifest[..n][..i] == manifest[..i] && front[..i] == media[..i] && front[i] == media[i];
    }
  }

  lemma {:induction false} SpentIs(manifest: seq<ManifestEntry>, policy: Option<Policy>, live: set<Urn>,
                                   mint: Urn -> Reservation)
    ensures GrantedSize(manifest, Outcomes(manifest, Accepted, policy, live, mint)) == AutoGranted(manifest, policy)
  {
    if manifest != [] {
      var n := |manifest| - 1;
      SpentIs(manifest[..n], policy, live, mint);
      OutcomesAt(manifest, Accepted, policy, live, mint, n);
    }
  }

  /**
   The first verdict: nothing for senders nobody admits; for a correspondent what is held is had and the rest granted;
   for another admitted sender an entry is granted while the policy and what is left of its budget allow, and deferred
   after; in quarantine all is deferred.
   */
  lemma FirstVerdictIs(manifest: seq<ManifestEntry>, anyT1: bool, anyAccepted: bool, anyQuarantined: bool,
                       policy: Option<Policy>, live: set<Urn>, mint: Urn -> Reservation)
    ensures var media := Outcomes(manifest, EntitlementOf(anyT1, anyAccepted, anyQuarantined), policy, live, mint);
            if !anyAccepted && !anyQuarantined then media == []
            else
              |media| == |manifest|
              && forall i :: 0 <= i < |media| ==>
                   OutcomeIs(manifest, media, anyT1, anyAccepted, policy, live, mint, i)
  {
    hide Outcomes, AutoGranted;
    var t := EntitlementOf(anyT1, anyAccepted, anyQuarantined);
    var media := Outcomes(manifest, t, policy, live, mint);
    if anyAccepted || anyQuarantined {
      forall i | 0 <= i < |media| ensures OutcomeIs(manifest, media, anyT1, anyAccepted, policy, live, mint, i)
      {
        OutcomesAt(manifest, t, policy, live, mint, i);
        if t.Accepted? { SpentIs(manifest[..i], policy, live, mint); }
      }
    }
  }

  /** Deliveries are applied one after the other; any refusal is remembered. */
  lemma {:induction false} DeliveriesAre(o: Ledger, h: seq<Snapshot>, d: nat, ds: seq<nat>)
    requires d < |h| && Numbers(ds, h) && forall i :: 0 <= i < |h| ==> WellFormed(h[i].media)
    ensures Deliver(o, h, []) == (o, false)
    ensures var (first, problem) := Applied(o, h[d]);
            Deliver(o, h, [d] + ds)
            == (Deliver(first, h, ds).0, problem.Some? || Deliver(first, h, ds).1)
    decreases |ds|
  {
    hide Applied;
    if ds == [] {
      assert [d] + [] == [d] && [d][..0] == [];
    } else {
      var n := |ds| - 1;
      assert ([d] + ds)[..n + 1] == [d] + ds[..n] && ([d] + ds)[n + 1] == ds[n];
      DeliveriesAre(o, h, d, ds[..n]);
    }
  }
}
