/** What every run of deliveries, accepts, verifications, pins, expiries and sweeps keeps. */
module LibraryProofs {
  import opened Library
  import opened Wrappers

  /** Available and pinned references have a live object. */
  ghost predicate HeldLive(s: Store)
  {
    forall i :: 0 <= i < |s.refs| && (s.refs[i].state.Available? || s.refs[i].state.Pinned?) ==> s.refs[i].urn in s.live
  }

  /** Rows stay what they are references to, and an unavailable one never changes again. */
  ghost predicate Keeps(s: seq<Ref>, n: seq<Ref>)
  {
    && |s| <= |n|
    && forall i :: 0 <= i < |s| ==>
         && n[i].mailbox == s[i].mailbox && n[i].urn == s[i].urn && n[i].content == s[i].content
         && (s[i].state.Unavailable? ==> n[i] == s[i])
  }

  lemma KeepsTransitive(a: seq<Ref>, b: seq<Ref>, c: seq<Ref>)
    requires Keeps(a, b) && Keeps(b, c)
    ensures Keeps(a, c)
  {
  }

  /** An update of rows that are not unavailable. */
  lemma UpdateKeeps(refs: seq<Ref>, where: Ref -> bool, state: RefState, ephemeral: bool)
    requires forall r: Ref :: where(r) ==> !r.state.Unavailable?
    ensures Keeps(refs, Update(refs, where, state, ephemeral))
  {
  }

  /** An update to a state that needs no object, or of rows whose object is live. */
  lemma UpdateHeld(s: Store, where: Ref -> bool, state: RefState, ephemeral: bool)
    requires HeldLive(s)
    requires state.Available? || state.Pinned? ==>
               forall i :: 0 <= i < |s.refs| && where(s.refs[i]) ==> s.refs[i].urn in s.live
    ensures HeldLive(s.(refs := Update(s.refs, where, state, ephemeral)))
  {
  }

  // ----- one step at a time -----

  lemma EntryKeeps(s: Store, mailbox: Mailbox, content: Address, e: Entry, granted: set<Urn>)
    requires HeldLive(s)
    ensures var n := MaterializeEntry(s.refs, mailbox, content, e, granted); Keeps(s.refs, n) && HeldLive(s.(refs := n))
  {
    hide Update;
    var inserted := Insert(s.refs, Ref(mailbox, e.urn, content, Offered, false, e.until));
    assert Keeps(s.refs, inserted) && HeldLive(s.(refs := inserted));
    UpdateKeeps(inserted, OfferedHere(mailbox, e.urn, content), Expected, true);
    UpdateHeld(s.(refs := inserted), OfferedHere(mailbox, e.urn, content), Expected, true);
    if e.urn in granted { KeepsTransitive(s.refs, inserted, MaterializeEntry(s.refs, mailbox, content, e, granted)); }
  }

  lemma {:induction false} ManifestKeeps(s: Store, mailbox: Mailbox, content: Address, manifest: seq<Entry>,
                                         granted: set<Urn>)
    requires HeldLive(s)
    ensures var n := MaterializeFor(s.refs, mailbox, content, manifest, granted);
            Keeps(s.refs, n) && HeldLive(s.(refs := n))
  {
    hide MaterializeEntry;
    if manifest != [] {
      var front := manifest[..|manifest| - 1];
      ManifestKeeps(s, mailbox, content, front, granted);
      var mid := MaterializeFor(s.refs, mailbox, content, front, granted);
      EntryKeeps(s.(refs := mid), mailbox, content, manifest[|manifest| - 1], granted);
      KeepsTransitive(s.refs, mid, MaterializeFor(s.refs, mailbox, content, manifest, granted));
    }
  }

  lemma {:induction false} DeliveryKeeps(s: Store, mailboxes: seq<Mailbox>, content: Address, manifest: seq<Entry>,
                                         granted: set<Urn>)
    requires HeldLive(s)
    ensures var n := Materialized(s.refs, mailboxes, content, manifest, granted);
            Keeps(s.refs, n) && HeldLive(s.(refs := n))
  {
    hide MaterializeFor;
    if mailboxes != [] {
      var front := mailboxes[..|mailboxes| - 1];
      DeliveryKeeps(s, front, content, manifest, granted);
      var mid := Materialized(s.refs, front, content, manifest, granted);
      ManifestKeeps(s.(refs := mid), mailboxes[|mailboxes| - 1], content, manifest, granted);
      KeepsTransitive(s.refs, mid, Materialized(s.refs, mailboxes, content, manifest, granted));
    }
  }

  lemma AcceptKeeps(s: Store, mailbox: Mailbox, urn: Urn, delivery: Option<Address>)
    requires HeldLive(s)
    ensures var n := Accepted(s, mailbox, urn, delivery); Keeps(s.refs, n.refs) && HeldLive(n) && n.live == s.live
  {
    hide Update;
    if urn in s.live && Matches(s.refs, OfferedTo(mailbox, urn)) {
      var mid := s.(refs := Update(s.refs, OfferedTo(mailbox, urn), Expected, false));
      UpdateKeeps(s.refs, OfferedTo(mailbox, urn), Expected, false);
      UpdateHeld(s, OfferedTo(mailbox, urn), Expected, false);
      UpdateKeeps(mid.refs, ExpectedBy(mailbox, urn), Available, false);
      UpdateHeld(mid, ExpectedBy(mailbox, urn), Available, false);
      KeepsTransitive(s.refs, mid.refs, Accepted(s, mailbox, urn, delivery).refs);
    } else if delivery.Some? {
      UpdateKeeps(s.refs, OfferedHere(mailbox, urn, delivery.value), Expected, false);
      UpdateHeld(s, OfferedHere(mailbox, urn, delivery.value), Expected, false);
    }
  }

  lemma PinKeeps(s: Store, mailbox: Mailbox, urn: Urn, pin: bool)
    requires HeldLive(s)
    ensures var n := PinFlip(s, mailbox, urn, pin); Keeps(s.refs, n.refs) && HeldLive(n) && n.live == s.live
  {
  }

  /**
   The flip on verification keeps the invariant if and only if the object is still live or nothing expects it: it
   belongs to the verification, before any sweep.
   */
  lemma FlipIsSafeExactlyWhen(s: Store, urn: Urn)
    requires HeldLive(s)
    ensures HeldLive(Flipped(s, urn)) <==> urn in s.live || !Matches(s.refs, AnyExpected(urn))
  {
    if urn !in s.live && Matches(s.refs, AnyExpected(urn)) {
      var i :| 0 <= i < |s.refs| && AnyExpected(urn)(s.refs[i]);
      assert Flipped(s, urn).refs[i].state.Available?;
    }
  }

  // ----- sweeps -----

  /** The references to urn are the same rows in both. */
  ghost predicate SameFor(s: seq<Ref>, n: seq<Ref>, urn: Urn)
  {
    |s| == |n| && forall i :: 0 <= i < |s| ==> (s[i].urn == urn || n[i].urn == urn) ==> n[i] == s[i]
  }

  lemma CollectOneKeeps(s: Store, urn: Urn, enforced: bool)
    requires HeldLive(s) && Collectable(s, urn) && CollectOne(s, urn, enforced).Some?
    ensures var n := CollectOne(s, urn, enforced).value;
            Keeps(s.refs, n.refs) && HeldLive(n) && n.live == s.live - {urn}
            && forall other :: other != urn ==> SameFor(s.refs, n.refs, other)
  {
  }

  lemma StillCollectable(s: Store, n: Store, urn: Urn)
    requires Collectable(s, urn) && SameFor(s.refs, n.refs, urn) && urn in n.live
    ensures Collectable(n, urn)
  {
  }

  /** A sweep keeps the invariant, and takes only objects that were collectable when it began. */
  lemma {:induction false} SweepKeeps(s: Store, eligible: seq<Urn>, enforced: bool)
    requires HeldLive(s) && (forall u :: u in eligible ==> Collectable(s, u))
    requires forall i, j :: 0 <= i < j < |eligible| ==> eligible[i] != eligible[j]
    ensures var (n, done) := Sweep(s, eligible, enforced);
            Keeps(s.refs, n.refs) && HeldLive(n) && n.live <= s.live
            && forall u :: u in s.live && u !in n.live ==> u in eligible && Collectable(s, u)
    decreases |eligible|
  {
    hide Collectable, CollectOne, HeldLive;
    if eligible != [] && CollectOne(s, eligible[0], enforced).Some? {
      var mid := CollectOne(s, eligible[0], enforced).value;
      assert eligible[0] in eligible;
      CollectOneKeeps(s, eligible[0], enforced);
      forall u | u in eligible[1..] ensures Collectable(mid, u) && u in eligible
      {
        var i :| 0 <= i < |eligible[1..]| && eligible[1..][i] == u;
        assert eligible[i + 1] == u;
        LiveOfCollectable(s, u);
        StillCollectable(s, mid, u);
      }
      SweepKeeps(mid, eligible[1..], enforced);
      KeepsTransitive(s.refs, mid.refs, Sweep(s, eligible, enforced).0.refs);
    } else {
      KeepsSelf(s.refs);
    }
  }

  lemma KeepsSelf(refs: seq<Ref>)
    ensures Keeps(refs, refs)
  {
  }

  lemma LiveOfCollectable(s: Store, u: Urn)
    requires Collectable(s, u)
    ensures u in s.live
  {
  }

  /** A reference whose expiry by a sweep the database's transition table does not know. */
  ghost predicate Waiting(refs: seq<Ref>, urn: Urn)
  {
    exists i :: 0 <= i < |refs| && refs[i].urn == urn && (refs[i].state.Offered? || refs[i].state.Expected?)
  }

  lemma PassesExactlyWhen(refs: seq<Ref>, urn: Urn)
    ensures Passes(refs, Swept(urn), Unavailable(ExpiredLocal)) <==> !Waiting(refs, urn)
  {
    if Passes(refs, Swept(urn), Unavailable(ExpiredLocal)) {
      forall i | 0 <= i < |refs| && refs[i].urn == urn ensures !refs[i].state.Offered? && !refs[i].state.Expected?
      {
        assert Swept(urn)(refs[i]) <==> refs[i].state.Available? || refs[i].state.Expected? || refs[i].state.Offered?;
      }
    }
  }

  /**
   Under the database's transition trigger a sweep runs to its end if and only if no eligible object still has an
   offered or expected reference: the trigger knows no expiry of those by a sweep, and the first one aborts the sweep.
   */
  lemma {:induction false} SweepCompletesExactlyWhen(s: Store, eligible: seq<Urn>)
    requires HeldLive(s) && (forall u :: u in eligible ==> Collectable(s, u))
    requires forall i, j :: 0 <= i < j < |eligible| ==> eligible[i] != eligible[j]
    ensures Sweep(s, eligible, true).1 <==> forall u :: u in eligible ==> !Waiting(s.refs, u)
    decreases |eligible|
  {
    hide Collectable, HeldLive, Waiting, Passes;
    if eligible != [] {
      var first := eligible[0];
      assert first in eligible;
      PassesExactlyWhen(s.refs, first);
      if CollectOne(s, first, true).Some? {
        var mid := CollectOne(s, first, true).value;
        CollectOneKeeps(s, first, true);
        forall u | u in eligible[1..] ensures Collectable(mid, u) && u in eligible
          && (Waiting(mid.refs, u) <==> Waiting(s.refs, u))
        {
          var i :| 0 <= i < |eligible[1..]| && eligible[1..][i] == u;
          assert eligible[i + 1] == u;
          LiveOfCollectable(s, u);
          StillCollectable(s, mid, u);
          SameWaiting(s.refs, mid.refs, u);
        }
        SweepCompletesExactlyWhen(mid, eligible[1..]);
        assert eligible == [first] + eligible[1..];
      }
    }
  }

  lemma SameWaiting(s: seq<Ref>, n: seq<Ref>, u: Urn)
    requires SameFor(s, n, u)
    ensures Waiting(n, u) <==> Waiting(s, u)
  {
    if Waiting(s, u) {
      var i :| 0 <= i < |s| && s[i].urn == u && (s[i].state.Offered? || s[i].state.Expected?);
      assert n[i] == s[i];
    }
  }

  /** Every other update stays inside the transition table. */
  lemma OtherUpdatesPass(refs: seq<Ref>, mailbox: Mailbox, urn: Urn, content: Address, now: int)
    ensures Passes(refs, OfferedHere(mailbox, urn, content), Expected)
            && Passes(refs, OfferedTo(mailbox, urn), Expected)
    ensures Passes(refs, ExpectedBy(mailbox, urn), Available) && Passes(refs, AnyExpected(urn), Available)
    ensures Passes(refs, StateOf(mailbox, urn, Available), Pinned)
            && Passes(refs, StateOf(mailbox, urn, Pinned), Available)
    ensures Passes(refs, Overdue(now), Unavailable(ExpiredRemote))
  {
  }

  // ----- runs, one statement at a time -----

  /** The store, and what a sweep has listed and not yet worked on. */
  datatype State = State(store: Store, listed: seq<Urn>)

  /**
   The transactions that the request handlers, the verifier and the sweep run beside one another: an accept asks and
   completes, an object goes live and is announced, a sweep lists and then collects object by object. Nothing holds
   between two of them, so what a handler read before may have changed.
   */
  datatype Event =
    | Deliver(mailboxes: seq<Mailbox>, content: Address, manifest: seq<Entry>, granted: set<Urn>)
    | Promise(mailbox: Mailbox, urn: Urn, content: Address, until: int)
    | Ask(mailbox: Mailbox, urn: Urn, delivery: Option<Address>)
    | Complete(mailbox: Mailbox, urn: Urn)
    | GoLive(urn: Urn)
    | Announce(urn: Urn)
    | Pin(mailbox: Mailbox, urn: Urn, pin: bool)
    | Expire(now: int)
    | List(eligible: seq<Urn>)
    | Collect(enforced: bool)

  /** A sweep lists what its query finds. */
  ghost predicate Legal(s: State, e: Event)
  {
    e.List? ==> Eligible(s.store, e.eligible)
  }

  function Next(s: State, e: Event): State
  {
    var b := s.store;
    match e
    case Deliver(mailboxes, content, manifest, granted) =>
      s.(store := b.(refs := Materialized(b.refs, mailboxes, content, manifest, granted)))
    case Promise(mailbox, urn, content, until) =>
      s.(store := b.(refs := Insert(b.refs, Ref(mailbox, urn, content, Promised, false, until))))
    case Ask(mailbox, urn, delivery) =>
      s.(store := b.(refs := Update(b.refs, Asked(mailbox, urn, delivery), Expected, false)))
    case Complete(mailbox, urn) => s.(store := b.(refs := Update(b.refs, ExpectedBy(mailbox, urn), Available, false)))
    case GoLive(urn) => s.(store := b.(live := b.live + {urn}))
    case Announce(urn) => s.(store := Flipped(b, urn))
    case Pin(mailbox, urn, pin) => s.(store := PinFlip(b, mailbox, urn, pin))
    case Expire(now) => s.(store := OffersExpired(b, now))
    case List(eligible) => s.(listed := eligible)
    case Collect(enforced) =>
      if s.listed == [] then s
      else
        match CollectOne(b, s.listed[0], enforced)
        case None => s.(listed := [])
        case Some(next) => State(next, s.listed[1..])
  }

  /** The offers an accept asks for: of one delivery, or of all when the object is there already. */
  function Asked(mailbox: Mailbox, urn: Urn, delivery: Option<Address>): Ref -> bool
  {
    if delivery.Some? then OfferedHere(mailbox, urn, delivery.value) else OfferedTo(mailbox, urn)
  }

  function PinnedTo(urn: Urn): Ref -> bool
  {
    (r: Ref) => r.urn == urn && r.state.Pinned?
  }

  /** The object that the next transaction of the sweep would take, if it does not abort. */
  function Takes(s: State, e: Event): Option<Urn>
  {
    if e.Collect? && s.listed != [] && CollectOne(s.store, s.listed[0], e.enforced).Some? then Some(s.listed[0])
      else None
  }

  /** A reference becomes available while its object is live, and an object is taken while nothing pins it. */
  predicate Safe(s: State, e: Event)
  {
    var b := s.store;
    match e
    case Complete(mailbox, urn) => urn in b.live || !Matches(b.refs, ExpectedBy(mailbox, urn))
    case Announce(urn) => urn in b.live || !Matches(b.refs, AnyExpected(urn))
    case Collect(_) => Takes(s, e).Some? ==> !Matches(b.refs, PinnedTo(Takes(s, e).value))
    case _ => true
  }

  /** What an update to available needs. */
  lemma AvailableIsSafeExactlyWhen(s: Store, where: Ref -> bool, urn: Urn)
    requires HeldLive(s) && forall r: Ref :: where(r) ==> r.urn == urn
    ensures HeldLive(s.(refs := Update(s.refs, where, Available, false))) <==> urn in s.live || !Matches(s.refs, where)
  {
    var n := s.(refs := Update(s.refs, where, Available, false));
    if urn !in s.live && Matches(s.refs, where) {
      var i :| 0 <= i < |s.refs| && where(s.refs[i]);
      assert n.refs[i].state.Available? && n.refs[i].urn == urn;
    }
  }

  /** Taking one object, whatever has happened since it was listed. */
  lemma TakingIsSafeExactlyWhen(s: Store, urn: Urn, enforced: bool)
    requires HeldLive(s) && CollectOne(s, urn, enforced).Some?
    ensures var n := CollectOne(s, urn, enforced).value;
            && (HeldLive(n) <==> !Matches(s.refs, PinnedTo(urn)))
            && (NothingNeededTaken(s, n) <==> urn !in s.live || Collectable(s, urn))
  {
    var n := CollectOne(s, urn, enforced).value;
    if Matches(s.refs, PinnedTo(urn)) {
      var i :| 0 <= i < |s.refs| && PinnedTo(urn)(s.refs[i]);
      assert n.refs[i].state.Pinned? && n.refs[i].urn == urn;
    } else {
      forall i | 0 <= i < |n.refs| && (n.refs[i].state.Available? || n.refs[i].state.Pinned?)
        ensures n.refs[i].urn in n.live
      {
        assert !PinnedTo(urn)(s.refs[i]) && n.refs[i].urn == s.refs[i].urn;
      }
    }
  }

  /** No object was taken that some reference pins, or holds in the standard class without being unavailable. */
  ghost predicate NothingNeededTaken(s: Store, n: Store)
  {
    forall i :: 0 <= i < |s.refs| && s.refs[i].urn in s.live && s.refs[i].urn !in n.live ==>
      !s.refs[i].state.Pinned? && (s.refs[i].state.Unavailable? || s.refs[i].ephemeral)
  }

  lemma AllLive(refs: seq<Ref>)
    ensures HeldLive(Store(refs, set i | 0 <= i < |refs| :: refs[i].urn))
  {
  }

  /** Rows are only ever added, each for its own object, and unavailable is final. */
  lemma NextKeepsRows(s: State, e: Event)
    ensures Keeps(s.store.refs, Next(s, e).store.refs)
  {
    hide Keeps, HeldLive, Update, Materialized, Passes, Insert;
    var refs := s.store.refs;
    var all := Store(refs, set i | 0 <= i < |refs| :: refs[i].urn);
    AllLive(refs);
    KeepsSelf(refs);
    match e
    case Deliver(mailboxes, content, manifest, granted) => DeliveryKeeps(all, mailboxes, content, manifest, granted);
    case Promise(mailbox, urn, content, until) => PromiseKeeps(all, Ref(mailbox, urn, content, Promised, false, until));
    case Ask(mailbox, urn, delivery) => UpdateKeeps(refs, Asked(mailbox, urn, delivery), Expected, false);
    case Complete(mailbox, urn) => UpdateKeeps(refs, ExpectedBy(mailbox, urn), Available, false);
    case GoLive(urn) =>
    case Announce(urn) => UpdateKeeps(refs, AnyExpected(urn), Available, false);
    case Pin(mailbox, urn, pin) =>
      var was, becomes := if pin then Available else Pinned, if pin then Pinned else Available;
      UpdateKeeps(refs, StateOf(mailbox, urn, was), becomes, false);
    case Expire(now) => UpdateKeeps(refs, Overdue(now), Unavailable(ExpiredRemote), false);
    case List(eligible) =>
    case Collect(enforced) =>
      if s.listed != [] { UpdateKeeps(refs, Swept(s.listed[0]), Unavailable(ExpiredLocal), false); }
  }

  /** One step keeps the references held exactly when it is safe. */
  lemma NextKeepsExactlyWhen(s: State, e: Event)
    requires HeldLive(s.store)
    ensures HeldLive(Next(s, e).store) <==> Safe(s, e)
  {
    hide Keeps, HeldLive, Collectable, Update, Materialized, PinFlip, Passes, Matches;
    var b := s.store;
    match e
    case Deliver(mailboxes, content, manifest, granted) => DeliveryKeeps(b, mailboxes, content, manifest, granted);
    case Promise(mailbox, urn, content, until) => PromiseKeeps(b, Ref(mailbox, urn, content, Promised, false, until));
    case Ask(mailbox, urn, delivery) => UpdateHeld(b, Asked(mailbox, urn, delivery), Expected, false);
    case Complete(mailbox, urn) => AvailableIsSafeExactlyWhen(b, ExpectedBy(mailbox, urn), urn);
    case GoLive(urn) => LiveKeeps(b, urn);
    case Announce(urn) => AvailableIsSafeExactlyWhen(b, AnyExpected(urn), urn);
    case Pin(mailbox, urn, pin) => PinKeeps(b, mailbox, urn, pin);
    case Expire(now) => UpdateHeld(b, Overdue(now), Unavailable(ExpiredRemote), false);
    case List(eligible) =>
    case Collect(enforced) => if Takes(s, e).Some? { TakingIsSafeExactlyWhen(b, s.listed[0], enforced); }
  }

  lemma LiveKeeps(s: Store, urn: Urn)
    requires HeldLive(s)
    ensures HeldLive(s.(live := s.live + {urn}))
  {
  }

  lemma PromiseKeeps(s: Store, ref: Ref)
    requires HeldLive(s) && ref.state.Promised?
    ensures Keeps(s.refs, Insert(s.refs, ref)) && HeldLive(s.(refs := Insert(s.refs, ref)))
  {
  }

  ghost predicate LegalRun(s: State, es: seq<Event>)
    decreases |es|
  {
    es == [] || (Legal(s, es[0]) && LegalRun(Next(s, es[0]), es[1..]))
  }

  function RunTo(s: State, es: seq<Event>): State
    decreases |es|
  {
    if es == [] then s else RunTo(Next(s, es[0]), es[1..])
  }

  /** Held references have a live object at every moment of the run. */
  ghost predicate HeldThroughout(s: State, es: seq<Event>)
    decreases |es|
  {
    HeldLive(s.store) && (es == [] || HeldThroughout(Next(s, es[0]), es[1..]))
  }

  /** Every step of the run is safe when it comes. */
  predicate SafeRun(s: State, es: seq<Event>)
    decreases |es|
  {
    es == [] || (Safe(s, es[0]) && SafeRun(Next(s, es[0]), es[1..]))
  }

  /**
   Over every run of every interleaving: held references have a live object at every moment if and only if each
   reference that became available had one at that moment and no object was taken while something pinned it.
   */
  lemma {:induction false} HeldExactlyWhenSafe(s: State, es: seq<Event>)
    requires HeldLive(s.store)
    ensures HeldThroughout(s, es) <==> SafeRun(s, es)
    decreases |es|
  {
    hide HeldLive, Next, Safe;
    if es != [] {
      NextKeepsExactlyWhen(s, es[0]);
      if Safe(s, es[0]) { HeldExactlyWhenSafe(Next(s, es[0]), es[1..]); }
      else if es[1..] == [] { assert !HeldThroughout(Next(s, es[0]), es[1..]); }
    }
  }

  lemma {:induction false} RowsAreKept(s: State, es: seq<Event>)
    ensures Keeps(s.store.refs, RunTo(s, es).store.refs)
    decreases |es|
  {
    hide Keeps, Next;
    if es == [] {
      KeepsSelf(s.store.refs);
    } else {
      NextKeepsRows(s, es[0]);
      RowsAreKept(Next(s, es[0]), es[1..]);
      KeepsTransitive(s.store.refs, Next(s, es[0]).store.refs, RunTo(s, es).store.refs);
    }
  }

  /** Rows stay what they are references to, and what is unavailable stays exactly as it is, in every run. */
  lemma UnavailableIsFinal(s: State, es: seq<Event>)
    ensures var before, after := s.store.refs, RunTo(s, es).store.refs;
            && |before| <= |after|
            && forall i :: 0 <= i < |before| ==>
                 && after[i].mailbox == before[i].mailbox && after[i].urn == before[i].urn
                 && after[i].content == before[i].content
                 && (before[i].state.Unavailable? ==> after[i] == before[i])
  {
    hide RunTo;
    RowsAreKept(s, es);
  }

  /** No step of the run takes an object that some reference needs. */
  ghost predicate NothingNeededEverTaken(s: State, es: seq<Event>)
    decreases |es|
  {
    es == [] || (NothingNeededTaken(s.store, Next(s, es[0]).store) && NothingNeededEverTaken(Next(s, es[0]), es[1..]))
  }

  /** What a sweep takes is still collectable when it is taken. */
  predicate FreshRun(s: State, es: seq<Event>)
    decreases |es|
  {
    es == [] || (Fresh(s, es[0]) && FreshRun(Next(s, es[0]), es[1..]))
  }

  predicate Fresh(s: State, e: Event)
  {
    var u := Takes(s, e);
    u.Some? ==> u.value !in s.store.live || Collectable(s.store, u.value)
  }

  /**
   Over every safe run: no object that a reference pins, or holds in the standard class, is ever taken if and only if
   each object the sweep took was still collectable at that moment.
   */
  lemma {:induction false} NothingNeededTakenExactlyWhenFresh(s: State, es: seq<Event>)
    requires HeldLive(s.store) && SafeRun(s, es)
    ensures NothingNeededEverTaken(s, es) <==> FreshRun(s, es)
    decreases |es|
  {
    hide HeldLive, Next, Safe, Fresh, NothingNeededTaken;
    if es != [] {
      NextKeepsExactlyWhen(s, es[0]);
      StepTakesExactlyWhen(s, es[0]);
      NothingNeededTakenExactlyWhenFresh(Next(s, es[0]), es[1..]);
    }
  }

  lemma StepTakesExactlyWhen(s: State, e: Event)
    requires HeldLive(s.store)
    ensures NothingNeededTaken(s.store, Next(s, e).store) <==> Fresh(s, e)
  {
    hide HeldLive, Collectable, Update, Passes, Materialized;
    if Takes(s, e).Some? { TakingIsSafeExactlyWhen(s.store, s.listed[0], e.enforced); }
  }

  // ----- handlers that nothing interrupts -----

  /** The sweep's transactions, one for each listed object. */
  function Collects(n: nat, enforced: bool): seq<Event>
  {
    seq(n, _ => Collect(enforced))
  }

  /** A sweep that nothing interrupts is the loop over its list, and is safe and takes nothing needed. */
  lemma {:induction false} SweepAlone(s: State, enforced: bool)
    requires HeldLive(s.store) && (forall u :: u in s.listed ==> Collectable(s.store, u))
    requires forall i, j :: 0 <= i < j < |s.listed| ==> s.listed[i] != s.listed[j]
    ensures var es := Collects(|s.listed|, enforced);
            && RunTo(s, es).store == Sweep(s.store, s.listed, enforced).0
            && SafeRun(s, es) && FreshRun(s, es)
    decreases |s.listed|
  {
    hide HeldLive, Collectable, CollectOne, Matches;
    if s.listed != [] {
      var es := Collects(|s.listed|, enforced);
      var u := s.listed[0];
      assert u in s.listed;
      assert es[0] == Collect(enforced) && es[1..] == Collects(|s.listed| - 1, enforced);
      NoPinOnCollectable(s.store, u);
      if CollectOne(s.store, u, enforced).None? {
        NothingListed(s.(listed := []), |s.listed| - 1, enforced);
      } else {
        var next := Next(s, es[0]);
        CollectOneKeeps(s.store, u, enforced);
        forall v | v in next.listed ensures Collectable(next.store, v)
        {
          var i :| 0 <= i < |next.listed| && next.listed[i] == v;
          assert s.listed[i + 1] == v;
          LiveOfCollectable(s.store, v);
          StillCollectable(s.store, next.store, v);
        }
        SweepAlone(next, enforced);
      }
    }
  }

  lemma NoPinOnCollectable(s: Store, urn: Urn)
    requires Collectable(s, urn)
    ensures !Matches(s.refs, PinnedTo(urn))
  {
  }

  lemma {:induction false} NothingListed(s: State, n: nat, enforced: bool)
    requires s.listed == []
    ensures RunTo(s, Collects(n, enforced)) == s && SafeRun(s, Collects(n, enforced))
            && FreshRun(s, Collects(n, enforced))
  {
    if n > 0 {
      assert Collects(n, enforced)[1..] == Collects(n - 1, enforced);
      NothingListed(s, n - 1, enforced);
    }
  }

  /** An accept and a verification that nothing interrupts are safe, and do what their handlers do. */
  lemma HandlersAlone(s: State, mailbox: Mailbox, urn: Urn)
    requires HeldLive(s.store)
    ensures SafeRun(s, [GoLive(urn), Announce(urn)])
            && RunTo(s, [GoLive(urn), Announce(urn)]) == s.(store := Verified(s.store, urn))
    ensures urn in s.store.live && Matches(s.store.refs, OfferedTo(mailbox, urn)) ==>
              SafeRun(s, [Ask(mailbox, urn, None), Complete(mailbox, urn)])
              && RunTo(s, [Ask(mailbox, urn, None), Complete(mailbox, urn)])
                 == s.(store := Accepted(s.store, mailbox, urn, None))
  {
    hide HeldLive, Update, Matches;
    TwoSteps(s, GoLive(urn), Announce(urn));
    TwoSteps(s, Ask(mailbox, urn, None), Complete(mailbox, urn));
  }

  lemma TwoSteps(s: State, a: Event, b: Event)
    ensures RunTo(s, [a, b]) == Next(Next(s, a), b) && (SafeRun(s, [a, b]) <==> Safe(s, a) && Safe(Next(s, a), b))
  {
    hide Next, Safe;
    assert [a, b][1..] == [b] && [b][1..] == [];
    assert RunTo(Next(s, a), [b]) == RunTo(Next(Next(s, a), b), []);
    assert SafeRun(Next(s, a), [b]) <==> Safe(Next(s, a), b) && SafeRun(Next(Next(s, a), b), []);
  }

  /** A pin between a sweep's list and its transaction is left without an object. */
  lemma PinAfterListing()
    ensures var s := State(Store([Ref(1, "u", "c", Available, true, 0)], {"u"}), []);
            var es := [List(["u"]), Pin(1, "u", true), Collect(true)];
            HeldLive(s.store) && LegalRun(s, es) && !HeldLive(RunTo(s, es).store)
  {
    var r := Ref(1, "u", "c", Available, true, 0);
    var s0 := State(Store([r], {"u"}), []);
    var es := [List(["u"]), Pin(1, "u", true), Collect(true)];
    var s1 := Next(s0, es[0]);
    var s2 := Next(s1, es[1]);
    assert es[1..] == [es[1], es[2]] && es[1..][1..] == [es[2]] && [es[2]][1..] == [];
    assert s2.store.refs == [r.(state := Pinned)];
    assert Passes(s2.store.refs, Swept("u"), Unavailable(ExpiredLocal));
    var s3 := Next(s2, es[2]);
    assert s3.store.refs[0].state.Pinned? && s3.store.live == {};
    assert RunTo(s0, es) == s3;
  }
}
