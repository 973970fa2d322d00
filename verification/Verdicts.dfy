/**
 Verdict snapshots (server/sn/origin.go:44-240, server/sn/sn.go:322-386 and 453-509): what an origin records and
 queues for each snapshot it is sent, and how a recipient issues them.
 */
module Verdicts {
  import opened Wrappers

  type Urn = string
  type Domain = string
  type EnvelopeId = string

  datatype Verdict = Grant | Have | Defer | Deny

  datatype Reservation = Reservation(urn: Urn, maxSize: nat, token: string)

  datatype Entry = Entry(urn: Urn, verdict: Verdict, reservation: Option<Reservation>)

  /** A parsed snapshot. The created timestamp and the verdict_id count by their place in the byte order. */
  datatype Snapshot = Snapshot(issuer: Domain, origin: Domain, envelope: EnvelopeId, created: int, id: int,
                               media: seq<Entry>)

  /** A row of the push queue. */
  datatype Queued = Queued(reservation: Reservation, envelope: EnvelopeId, target: Domain)

  /** The origin's rows: inbound snapshots in order of arrival, the push queue, and its outstanding dispatches. */
  datatype Ledger = Ledger(domain: Domain, stored: seq<Snapshot>, queue: seq<Queued>, targets: map<EnvelopeId, Domain>)

  datatype Problem = UnknownEnvelope | InvalidTransition(urn: Urn)

  /** What parsing has checked: no URN twice, and a reservation with every grant. */
  predicate WellFormed(media: seq<Entry>)
  {
    && (forall i, j :: 0 <= i < j < |media| ==> media[i].urn != media[j].urn)
    && (forall m :: m in media && m.verdict.Grant? ==> m.reservation.Some?)
  }

  /** The transition table, with unchanged states. */
  predicate InTable(a: Verdict, b: Verdict)
  {
    a == b || (a.Defer? && (b.Grant? || b.Deny?)) || (a.Grant? && b.Deny?)
  }

  predicate Newer(a: Snapshot, b: Snapshot)
  {
    a.created > b.created || (a.created == b.created && a.id > b.id)
  }

  /** What an origin has from one issuer about one envelope. */
  function Inbound(issuer: Domain, envelope: EnvelopeId): Snapshot -> bool
  {
    (s: Snapshot) => s.issuer == issuer && s.envelope == envelope
  }

  /** What a recipient domain has issued about one envelope. */
  function Outbound(origin: Domain, envelope: EnvelopeId): Snapshot -> bool
  {
    (s: Snapshot) => s.origin == origin && s.envelope == envelope
  }

  /** The latest of the wanted snapshots by (created, verdict_id). */
  function Latest(stored: seq<Snapshot>, wanted: Snapshot -> bool): Option<Snapshot>
  {
    if stored == [] then None
    else
      var s, before := stored[|stored| - 1], Latest(stored[..|stored| - 1], wanted);
      if wanted(s) && (before.None? || Newer(s, before.value)) then Some(s) else before
  }

  function MediaState(media: seq<Entry>): map<Urn, Verdict>
  {
    if media == [] then map[]
      else MediaState(media[..|media| - 1])[media[|media| - 1].urn := media[|media| - 1].verdict]
  }

  function Select(media: seq<Entry>, p: Entry -> bool): (r: seq<Entry>)
    ensures forall m :: m in r ==> m in media && p(m)
  {
    if media == [] then []
    else
      var m := media[|media| - 1];
      Select(media[..|media| - 1], p) + if p(m) then [m] else []
  }

  function IsGrant(): Entry -> bool
  {
    (m: Entry) => m.verdict.Grant?
  }

  function IsNew(current: map<Urn, Verdict>): Entry -> bool
  {
    (m: Entry) => m.verdict.Grant? && (m.urn in current ==> !current[m.urn].Grant?)
  }

  function IsRefresh(current: map<Urn, Verdict>): Entry -> bool
  {
    (m: Entry) => m.urn in current && current[m.urn].Grant? && m.verdict.Grant? && m.reservation.Some?
  }

  function GrantEntries(media: seq<Entry>): seq<Entry>
  {
    Select(media, IsGrant())
  }

  /** Grants of URNs whose state is new or changes. */
  function NewGrants(current: map<Urn, Verdict>, media: seq<Entry>): seq<Entry>
  {
    Select(media, IsNew(current))
  }

  /** Grants that restate a grant, each with a reservation of its own. */
  function Refreshes(current: map<Urn, Verdict>, media: seq<Entry>): seq<Entry>
  {
    Select(media, IsRefresh(current))
  }

  predicate AllInTable(current: map<Urn, Verdict>, media: seq<Entry>)
  {
    forall m :: m in media && m.urn in current ==> InTable(current[m.urn], m.verdict)
  }

  /** The first entry outside the table. */
  function FirstIllegal(current: map<Urn, Verdict>, media: seq<Entry>): (u: Urn)
    requires !AllInTable(current, media)
    ensures exists m :: m in media && m.urn == u && u in current && !InTable(current[u], m.verdict)
  {
    var m := media[0];
    if m.urn in current && !InTable(current[m.urn], m.verdict) then m.urn
    else
      assert forall x :: x in media ==> x == m || x in media[1..];
      FirstIllegal(current, media[1..])
  }

  function Rows(grants: seq<Entry>, envelope: EnvelopeId, target: Domain): (rows: seq<Queued>)
    requires forall g :: g in grants ==> g.reservation.Some?
    ensures |rows| == |grants|
    ensures forall i :: 0 <= i < |rows| ==> rows[i] == Queued(grants[i].reservation.value, envelope, target)
  {
    if grants == [] then []
    else Rows(grants[..|grants| - 1], envelope, target)
         + [Queued(grants[|grants| - 1].reservation.value, envelope, target)]
  }

  /** The grants a snapshot queues against what is stored. */
  function QueuedGrants(stored: seq<Snapshot>, pv: Snapshot): seq<Entry>
  {
    match Latest(stored, Inbound(pv.issuer, pv.envelope))
    case None => GrantEntries(pv.media)
    case Some(latest) =>
      if !Newer(pv, latest) then []
      else NewGrants(MediaState(latest.media), pv.media) + Refreshes(MediaState(latest.media), pv.media)
  }

  lemma QueuedAreGrants(stored: seq<Snapshot>, pv: Snapshot)
    requires WellFormed(pv.media)
    ensures forall g :: g in QueuedGrants(stored, pv) ==> g in pv.media && g.verdict.Grant? && g.reservation.Some?
  {
  }

  predicate Known(stored: seq<Snapshot>, issuer: Domain, id: int)
  {
    exists s :: s in stored && s.issuer == issuer && s.id == id
  }

  /** matchDispatch and applySnapshot. */
  function Applied(o: Ledger, pv: Snapshot): (Ledger, Option<Problem>)
    requires WellFormed(pv.media)
  {
    if pv.origin != o.domain || pv.envelope !in o.targets || o.targets[pv.envelope] != pv.issuer then
      (o, Some(UnknownEnvelope))
    else if Known(o.stored, pv.issuer, pv.id) then (o, None)
    else
      var latest := Latest(o.stored, Inbound(pv.issuer, pv.envelope));
      if latest.Some? && Newer(pv, latest.value) && !AllInTable(MediaState(latest.value.media), pv.media) then
        (o, Some(InvalidTransition(FirstIllegal(MediaState(latest.value.media), pv.media))))
      else
        QueuedAreGrants(o.stored, pv);
        (o.(stored := o.stored + [pv],
            queue := o.queue + Rows(QueuedGrants(o.stored, pv), pv.envelope, o.targets[pv.envelope])), None)
  }

  // ----- the source's loops -----

  lemma SelectNext(media: seq<Entry>, i: nat, p: Entry -> bool)
    requires i < |media|
    ensures Select(media[..i + 1], p) == Select(media[..i], p) + if p(media[i]) then [media[i]] else []
  {
    assert media[..i + 1][..i] == media[..i];
  }

  lemma SelectNone(media: seq<Entry>, p: Entry -> bool)
    ensures Select(media[..0], p) == []
  {
  }

  class Origin {
    const domain: Domain
    var stored: seq<Snapshot>
    var queue: seq<Queued>
    var targets: map<EnvelopeId, Domain>

    function Value(): Ledger
      reads this
    {
      Ledger(domain, stored, queue, targets)
    }

    constructor (domain: Domain)
      ensures Value() == Ledger(domain, [], [], map[])
    {
      this.domain := domain;
      stored, queue, targets := [], [], map[];
    }

    method MatchDispatch(pv: Snapshot) returns (problem: Option<Problem>)
      ensures problem == if pv.origin == domain && pv.envelope in targets && targets[pv.envelope] == pv.issuer then None
                         else Some(UnknownEnvelope)
    {
      if pv.origin != domain { return Some(UnknownEnvelope); }
      if pv.envelope !in targets { return Some(UnknownEnvelope); }
      if targets[pv.envelope] != pv.issuer { return Some(UnknownEnvelope); }
      return None;
    }

    method CurrentMediaState(issuer: Domain, envelope: EnvelopeId)
      returns (current: Option<map<Urn, Verdict>>, latest: Option<Snapshot>)
      ensures latest == Latest(stored, Inbound(issuer, envelope))
      ensures current == if latest.Some? then Some(MediaState(latest.value.media)) else None
    {
      latest := Latest(stored, Inbound(issuer, envelope));
      if latest.None? { return None, latest; }
      var media := latest.value.media;
      var state := map[];
      for i := 0 to |media|
        invariant state == MediaState(media[..i])
      {
        assert media[..i + 1][..i] == media[..i];
        state := state[media[i].urn := media[i].verdict];
      }
      assert media[..|media|] == media;
      return Some(state), latest;
    }

    /** First loop over a superseding snapshot: changes must be in the table, and new grants are collected. */
    method CollectChanges(current: map<Urn, Verdict>, media: seq<Entry>)
      returns (grants: seq<Entry>, problem: Option<Problem>)
      requires WellFormed(media)
      ensures problem.None? <==> AllInTable(current, media)
      ensures problem.None? ==> grants == NewGrants(current, media)
      ensures problem.Some? ==> problem == Some(InvalidTransition(FirstIllegal(current, media)))
    {
      hide WellFormed, Select, FirstIllegal;
      SelectNone(media, IsNew(current));
      grants := [];
      for i := 0 to |media|
        invariant grants == Select(media[..i], IsNew(current))
        invariant forall j :: 0 <= j < i && media[j].urn in current ==>
                    InTable(current[media[j].urn], media[j].verdict)
      {
        SelectNext(media, i, IsNew(current));
        var m := media[i];
        if m.urn !in current || current[m.urn] == m.verdict {
          if m.verdict.Grant? && (m.urn !in current || !current[m.urn].Grant?) { grants := grants + [m]; }
        } else if InTable(current[m.urn], m.verdict) {
          if m.verdict.Grant? { grants := grants + [m]; }
        } else {
          IllegalAt(current, media, i);
          return [], Some(InvalidTransition(m.urn));
        }
      }
      assert media[..|media|] == media;
      problem := None;
    }

    /** Second loop: restated grants with a reservation. */
    method AddRefreshes(current: map<Urn, Verdict>, media: seq<Entry>, changes: seq<Entry>) returns (grants: seq<Entry>)
      requires WellFormed(media) && changes == NewGrants(current, media)
      ensures grants == changes + Refreshes(current, media)
    {
      hide WellFormed, Select;
      SelectNone(media, IsRefresh(current));
      grants := changes;
      for i := 0 to |media|
        invariant grants == changes + Select(media[..i], IsRefresh(current))
      {
        SelectNext(media, i, IsRefresh(current));
        var m := media[i];
        if m.urn in current && current[m.urn].Grant? && m.verdict.Grant? && m.reservation.Some? {
          RefreshIsUnique(current, media, i);
          grants := AppendUnique(grants, m);
        }
      }
      assert media[..|media|] == media;
    }

    /** With no baseline the snapshot's grants are all new. */
    method AllGrants(media: seq<Entry>) returns (grants: seq<Entry>)
      ensures grants == GrantEntries(media)
    {
      hide Select;
      SelectNone(media, IsGrant());
      grants := [];
      for i := 0 to |media|
        invariant grants == Select(media[..i], IsGrant())
      {
        SelectNext(media, i, IsGrant());
        if media[i].verdict.Grant? { grants := grants + [media[i]]; }
      }
      assert media[..|media|] == media;
    }

    method Enqueue(grants: seq<Entry>, envelope: EnvelopeId)
      requires envelope in targets && forall g :: g in grants ==> g.reservation.Some?
      modifies this`queue
      ensures queue == old(queue) + Rows(grants, envelope, targets[envelope])
    {
      var target := targets[envelope];
      for i := 0 to |grants|
        invariant queue == old(queue) + Rows(grants[..i], envelope, target)
      {
        assert grants[..i + 1][..i] == grants[..i];
        queue := queue + [Queued(grants[i].reservation.value, envelope, target)];
      }
      assert grants[..|grants|] == grants;
    }

    method ApplySnapshot(pv: Snapshot) returns (problem: Option<Problem>)
      requires WellFormed(pv.media)
      requires pv.origin == domain && pv.envelope in targets && targets[pv.envelope] == pv.issuer
      modifies this`stored, this`queue
      ensures (Value(), problem) == Applied(old(Value()), pv)
    {
      hide WellFormed, Select, FirstIllegal, Latest, MediaState, AllInTable, Rows, GrantEntries, NewGrants, Refreshes;
      if exists s :: s in stored && s.issuer == pv.issuer && s.id == pv.id { return None; }
      var current, latest := CurrentMediaState(pv.issuer, pv.envelope);
      var supersedes := latest.None? || pv.created > latest.value.created
                        || (pv.created == latest.value.created && pv.id > latest.value.id);
      var grants := [];
      if supersedes && current.Some? {
        grants, problem := CollectChanges(current.value, pv.media);
        if problem.Some? { return problem; }
        grants := AddRefreshes(current.value, pv.media, grants);
      } else if supersedes {
        grants := AllGrants(pv.media);
      }
      QueuedAreGrants(stored, pv);
      assert grants == QueuedGrants(stored, pv);
      stored := stored + [pv];
      if supersedes { Enqueue(grants, pv.envelope); } else { NoRows(queue, pv.envelope, targets[pv.envelope]); }
      return None;
    }

    method ProcessVerdictUpdate(pv: Snapshot) returns (problem: Option<Problem>)
      requires WellFormed(pv.media)
      modifies this`stored, this`queue
      ensures (Value(), problem) == Applied(old(Value()), pv)
    {
      problem := MatchDispatch(pv);
      if problem.None? { problem := ApplySnapshot(pv); }
    }
  }

  // ----- the recipient's side -----

  /** The media of an accept: deferred entries become grants with the minted reservation, if the manifest has them. */
  function AcceptMedia(media: seq<Entry>, mint: Urn -> Option<Reservation>): Option<seq<Entry>>
  {
    if media == [] then Some([])
    else
      var m, before := media[|media| - 1], AcceptMedia(media[..|media| - 1], mint);
      if before.None? then None
      else if !m.verdict.Defer? then Some(before.value + [m])
      else if mint(m.urn).None? then None
      else Some(before.value + [Entry(m.urn, Grant, mint(m.urn))])
  }

  function Minted(media: seq<Entry>, mint: Urn -> Option<Reservation>): seq<Reservation>
  {
    if media == [] then []
    else
      var m := media[|media| - 1];
      Minted(media[..|media| - 1], mint) + if m.verdict.Defer? && mint(m.urn).Some? then [mint(m.urn).value] else []
  }

  lemma NothingAccepted(media: seq<Entry>, n: nat, mint: Urn -> Option<Reservation>)
    requires n <= |media| && AcceptMedia(media[..n], mint).None?
    ensures AcceptMedia(media, mint).None?
    decreases |media| - n
  {
    if n < |media| {
      assert media[..n + 1][..n] == media[..n];
      NothingAccepted(media, n + 1, mint);
    } else {
      assert media[..n] == media;
    }
  }

  class Recipient {
    const domain: Domain
    var issued: seq<Snapshot>
    var reservations: seq<Reservation>

    constructor (domain: Domain)
      ensures issued == [] && reservations == [] && this.domain == domain
    {
      this.domain, issued, reservations := domain, [], [];
    }

    /** RecipientAccept: upgrade every deferred URN of the latest snapshot, as a new snapshot. */
    method Accept(origin: Domain, envelope: EnvelopeId, now: int, id: int, mint: Urn -> Option<Reservation>)
      returns (snapshot: Option<Snapshot>)
      modifies this
      ensures var prior := Latest(old(issued), Outbound(origin, envelope));
              if prior.None? || AcceptMedia(prior.value.media, mint).None? then
                snapshot.None? && issued == old(issued) && reservations == old(reservations)
              else
                snapshot == Some(Snapshot(domain, origin, envelope, now, id,
                  AcceptMedia(prior.value.media, mint).value))
                && issued == old(issued) + [snapshot.value]
                && reservations == old(reservations) + Minted(prior.value.media, mint)
    {
      hide Latest;
      var prior := Latest(issued, Outbound(origin, envelope));
      if prior.None? { return None; }
      var from := prior.value.media;
      var media, minted := [], [];
      for i := 0 to |from|
        invariant AcceptMedia(from[..i], mint) == Some(media) && minted == Minted(from[..i], mint)
      {
        assert from[..i + 1][..i] == from[..i];
        var m := from[i];
        if m.verdict.Defer? {
          var reservation := mint(m.urn);
          if reservation.None? {
            NothingAccepted(from, i + 1, mint);
            return None;
          }
          media := media + [Entry(m.urn, Grant, reservation)];
          minted := minted + [reservation.value];
        } else {
          media := media + [m];
        }
      }
      assert from[..|from|] == from;
      snapshot := Some(Snapshot(domain, origin, envelope, now, id, media));
      issued, reservations := issued + [snapshot.value], reservations + minted;
    }
  }

  // ----- the first verdict -----

  datatype Policy = Policy(entryMax: nat, budget: nat)

  datatype Entitlement = Tier1 | Accepted | QuarantinedOnly | Rejected

  datatype ManifestEntry = ManifestEntry(urn: Urn, size: nat)

  /** How much of the small-media budget the manifest's entries have used, walked in order. */
  function AutoGranted(manifest: seq<ManifestEntry>, policy: Option<Policy>): nat
  {
    if manifest == [] || policy.None? then 0
    else
      var used, size := AutoGranted(manifest[..|manifest| - 1], policy), manifest[|manifest| - 1].size;
      if size <= policy.value.entryMax && used + size <= policy.value.budget then used + size else used
  }

  /** The outcome of one entry once used of the budget is spent. */
  function OutcomeOf(e: ManifestEntry, t: Entitlement, policy: Option<Policy>, used: nat, live: set<Urn>,
                     mint: Urn -> Reservation): Entry
  {
    match t
    case Tier1 => if e.urn in live then Entry(e.urn, Have, None) else Entry(e.urn, Grant, Some(mint(e.urn)))
    case Accepted =>
      if policy.Some? && e.size <= policy.value.entryMax && used + e.size <= policy.value.budget then
        Entry(e.urn, Grant, Some(mint(e.urn)))
      else Entry(e.urn, Defer, None)
    case _ => Entry(e.urn, Defer, None)
  }

  function Outcomes(manifest: seq<ManifestEntry>, t: Entitlement, policy: Option<Policy>, live: set<Urn>,
                    mint: Urn -> Reservation): (media: seq<Entry>)
    ensures t.Rejected? ==> media == []
    ensures !t.Rejected? ==> |media| == |manifest| && forall i :: 0 <= i < |media| ==> media[i].urn == manifest[i].urn
  {
    if manifest == [] || t.Rejected? then []
    else
      var front := manifest[..|manifest| - 1];
      Outcomes(front, t, policy, live, mint)
      + [OutcomeOf(manifest[|manifest| - 1], t, policy, AutoGranted(front, policy), live, mint)]
  }

  lemma OutcomesNext(manifest: seq<ManifestEntry>, i: nat, t: Entitlement, policy: Option<Policy>, live: set<Urn>,
                     mint: Urn -> Reservation)
    requires i < |manifest| && !t.Rejected?
    ensures Outcomes(manifest[..i + 1], t, policy, live, mint)
            == Outcomes(manifest[..i], t, policy, live, mint)
               + [OutcomeOf(manifest[i], t, policy, AutoGranted(manifest[..i], policy), live, mint)]
    ensures Outcomes(manifest[..0], t, policy, live, mint) == [] && AutoGranted(manifest[..0], policy) == 0
    ensures var used, size := AutoGranted(manifest[..i], policy), manifest[i].size;
            AutoGranted(manifest[..i + 1], policy)
            == if policy.Some? && size <= policy.value.entryMax && used + size <= policy.value.budget then used + size
               else used
  {
    assert manifest[..i + 1][..i] == manifest[..i];
  }

  /** mediaOutcomes: the loop over the manifest with its running budget. */
  method MediaOutcomes(manifest: seq<ManifestEntry>, anyT1: bool, anyAccepted: bool, anyQuarantined: bool,
                       policy: Option<Policy>, live: set<Urn>, mint: Urn -> Reservation) returns (media: seq<Entry>)
    ensures media == Outcomes(manifest, EntitlementOf(anyT1, anyAccepted, anyQuarantined), policy, live, mint)
  {
    media := [];
    if manifest == [] || (!anyAccepted && !anyQuarantined) { return; }
    hide Outcomes, AutoGranted;
    ghost var t := EntitlementOf(anyT1, anyAccepted, anyQuarantined);
    var autoGranted := 0;
    OutcomesNext(manifest, 0, t, policy, live, mint);
    for i := 0 to |manifest|
      invariant media == Outcomes(manifest[..i], t, policy, live, mint)
      invariant !anyT1 && anyAccepted ==> autoGranted == AutoGranted(manifest[..i], policy)
    {
      OutcomesNext(manifest, i, t, policy, live, mint);
      var e := manifest[i];
      if anyT1 {
        if e.urn in live { media := media + [Entry(e.urn, Have, None)]; }
        else { media := media + [Entry(e.urn, Grant, Some(mint(e.urn)))]; }
      } else if anyAccepted {
        if policy.Some? && e.size <= policy.value.entryMax && autoGranted + e.size <= policy.value.budget {
          autoGranted := autoGranted + e.size;
          media := media + [Entry(e.urn, Grant, Some(mint(e.urn)))];
        } else {
          media := media + [Entry(e.urn, Defer, None)];
        }
      } else {
        media := media + [Entry(e.urn, Defer, None)];
      }
    }
    assert manifest[..|manifest|] == manifest;
  }

  function EntitlementOf(anyT1: bool, anyAccepted: bool, anyQuarantined: bool): Entitlement
  {
    if !anyAccepted && !anyQuarantined then Rejected
    else if anyT1 then Tier1
    else if anyAccepted then Accepted
    else QuarantinedOnly
  }

  lemma NoRows(queue: seq<Queued>, envelope: EnvelopeId, target: Domain)
    ensures queue + Rows([], envelope, target) == queue
  {
  }

  function AppendUnique(list: seq<Entry>, m: Entry): seq<Entry>
  {
    if exists x :: x in list && x.urn == m.urn then list else list + [m]
  }

  lemma IllegalAt(current: map<Urn, Verdict>, media: seq<Entry>, i: nat)
    requires i < |media| && media[i].urn in current && !InTable(current[media[i].urn], media[i].verdict)
    requires forall j :: 0 <= j < i ==> (media[j].urn in current ==> InTable(current[media[j].urn], media[j].verdict))
    ensures !AllInTable(current, media) && FirstIllegal(current, media) == media[i].urn
  {
    if i > 0 { IllegalAt(current, media[1..], i - 1); }
  }

  /** A refresh is never already in the list: its URN is neither a new grant's nor an earlier refresh's. */
  lemma RefreshIsUnique(current: map<Urn, Verdict>, media: seq<Entry>, i: nat)
    requires WellFormed(media) && i < |media| && media[i].urn in current && current[media[i].urn].Grant?
    ensures forall x :: x in NewGrants(current, media) + Refreshes(current, media[..i]) ==> x.urn != media[i].urn
  {
  }
}
