/**
 What each action does to every reference, row by row (server/clientapi/endpoints.go:38-92,
 server/clientapi/media.go:92-115, server/cmd/mlpd/main.go:193-195, server/sn/materialize.go:201-215,
 server/sn/gc.go:34-85, server/store/migrations/0001_init.sql:57-75).
 */
module LibraryAnswers {
  import opened Library
  import opened LibraryProofs
  import opened Wrappers

  /** The transition table, pair by pair. */
  predicate Step(before: RefState, next: RefState)
  {
    match before
    case Offered => next == Expected || next == Unavailable(ExpiredRemote) || next == Unavailable(Declined)
    case Expected =>
      next == Available || next == Offered || next == Unavailable(Failed) || next == Unavailable(ExpiredRemote)
    case Available => next == Pinned || next == Unavailable(ExpiredLocal) || next == Unavailable(Deleted)
    case Pinned => next == Available || next == Unavailable(Deleted)
    case Promised => false
    case Unavailable(_) => false
  }

  lemma TableIs(before: RefState, next: RefState)
    ensures Allowed(before, next) <==> before == next || Step(before, next)
  {
  }

  /** Every row that p picks is now in this state, and every other row is as it was. */
  ghost predicate Moved(before: seq<Ref>, after: seq<Ref>, p: Ref -> bool, state: RefState)
  {
    && |after| == |before|
    && forall i :: 0 <= i < |before| ==> after[i] == if p(before[i]) then before[i].(state := state) else before[i]
  }

  function Of(mailbox: Mailbox, urn: Urn, state: RefState): Ref -> bool
  {
    (r: Ref) => r.mailbox == mailbox && r.urn == urn && r.state == state
  }

  /** A pin holds the mailbox's available references to the object, an unpin frees its pinned ones. */
  lemma PinIs(s: Store, mailbox: Mailbox, urn: Urn)
    ensures var n := PinFlip(s, mailbox, urn, true);
            n.live == s.live && Moved(s.refs, n.refs, Of(mailbox, urn, Available), Pinned)
    ensures var n := PinFlip(s, mailbox, urn, false);
            n.live == s.live && Moved(s.refs, n.refs, Of(mailbox, urn, Pinned), Available)
  {
  }

  /** An unpin undoes a pin exactly when nothing was pinned before it. */
  lemma UnpinUndoesExactlyWhen(s: Store, mailbox: Mailbox, urn: Urn)
    ensures PinFlip(PinFlip(s, mailbox, urn, true), mailbox, urn, false) == s
            <==> forall i :: 0 <= i < |s.refs| ==> !Of(mailbox, urn, Pinned)(s.refs[i])
  {
    var n := PinFlip(PinFlip(s, mailbox, urn, true), mailbox, urn, false);
    if i :| 0 <= i < |s.refs| && Of(mailbox, urn, Pinned)(s.refs[i]) {
      assert n.refs[i].state.Available?;
    } else {
      forall i | 0 <= i < |s.refs| ensures n.refs[i] == s.refs[i]
      {
        assert !Of(mailbox, urn, Pinned)(s.refs[i]);
      }
      assert n.refs == s.refs;
    }
  }

  function OfferedOrExpected(mailbox: Mailbox, urn: Urn): Ref -> bool
  {
    (r: Ref) => r.mailbox == mailbox && r.urn == urn && (r.state == Offered || r.state == Expected)
  }

  function OfferedIn(mailbox: Mailbox, urn: Urn, content: Address): Ref -> bool
  {
    (r: Ref) => r.mailbox == mailbox && r.urn == urn && r.content == content && r.state == Offered
  }

  ghost predicate AnyOffered(refs: seq<Ref>, mailbox: Mailbox, urn: Urn)
  {
    exists i :: 0 <= i < |refs| && Of(mailbox, urn, Offered)(refs[i])
  }

  /**
   An accept of an offered object that is live makes the mailbox's offered and expected references available at once;
   any other accept lets the deferred delivery that was found be expected, and does nothing when none was.
   */
  lemma AcceptIs(s: Store, mailbox: Mailbox, urn: Urn, delivery: Option<Address>)
    ensures var n := Accepted(s, mailbox, urn, delivery);
            && n.live == s.live
            && (urn in s.live && AnyOffered(s.refs, mailbox, urn) ==>
                  Moved(s.refs, n.refs, OfferedOrExpected(mailbox, urn), Available))
            && (!(urn in s.live && AnyOffered(s.refs, mailbox, urn)) && delivery.Some? ==>
                  Moved(s.refs, n.refs, OfferedIn(mailbox, urn, delivery.value), Expected))
            && (!(urn in s.live && AnyOffered(s.refs, mailbox, urn)) && delivery.None? ==> n == s)
  {
    if AnyOffered(s.refs, mailbox, urn) {
      var i :| 0 <= i < |s.refs| && Of(mailbox, urn, Offered)(s.refs[i]);
      assert OfferedTo(mailbox, urn)(s.refs[i]);
    }
    if Matches(s.refs, OfferedTo(mailbox, urn)) {
      var i :| 0 <= i < |s.refs| && OfferedTo(mailbox, urn)(s.refs[i]);
      assert Of(mailbox, urn, Offered)(s.refs[i]);
    }
  }

  function ExpectedOf(urn: Urn): Ref -> bool
  {
    (r: Ref) => r.urn == urn && r.state == Expected
  }

  /** A verified object goes live, and what expected it becomes available in every mailbox. */
  lemma VerifiedIs(s: Store, urn: Urn)
    ensures var n := Verified(s, urn);
            n.live == s.live + {urn} && Moved(s.refs, n.refs, ExpectedOf(urn), Available)
  {
  }

  function OfferedUntil(now: int): Ref -> bool
  {
    (r: Ref) => r.state == Offered && r.until < now
  }

  /** Offers whose window has closed become unavailable for good; nothing else does. */
  lemma ExpiredIs(s: Store, now: int)
    ensures var n := OffersExpired(s, now);
            n.live == s.live && Moved(s.refs, n.refs, OfferedUntil(now), Unavailable(ExpiredRemote))
  {
  }

  function Untaken(urn: Urn): Ref -> bool
  {
    (r: Ref) => r.urn == urn && (r.state == Available || r.state == Expected || r.state == Offered)
  }

  /** Some reference to the object is offered or expected: the trigger refuses its expiry by a sweep. */
  ghost predicate Refused(refs: seq<Ref>, urn: Urn)
  {
    exists i :: 0 <= i < |refs| && refs[i].urn == urn && (refs[i].state == Offered || refs[i].state == Expected)
  }

  /** One object's transaction: it fails exactly when the trigger refuses; else the object and what is not pinned go. */
  lemma CollectIs(s: Store, urn: Urn, enforced: bool)
    ensures CollectOne(s, urn, enforced).None? <==> enforced && Refused(s.refs, urn)
    ensures CollectOne(s, urn, enforced).Some? ==>
              var n := CollectOne(s, urn, enforced).value;
              n.live == s.live - {urn} && Moved(s.refs, n.refs, Untaken(urn), Unavailable(ExpiredLocal))
  {
    hide Passes;
    PassesExactlyWhen(s.refs, urn);
    assert Waiting(s.refs, urn) <==> Refused(s.refs, urn);
  }

  ghost predicate RefIs(refs: seq<Ref>, urn: Urn, i: int)
  {
    0 <= i < |refs| && refs[i].urn == urn
  }

  /**
   The sweep lists a live object exactly when nobody pins it and either no reference needs it any more or all that do
   are of the ephemeral class.
   */
  lemma CollectableIs(s: Store, urn: Urn)
    ensures Collectable(s, urn)
            <==> urn in s.live && (forall i :: RefIs(s.refs, urn, i) ==> s.refs[i].state != Pinned)
                 && ((forall i :: RefIs(s.refs, urn, i) ==> s.refs[i].state.Unavailable?)
                     || forall i :: RefIs(s.refs, urn, i) && !s.refs[i].state.Unavailable? ==> s.refs[i].ephemeral)
  {
    assert forall i :: RefIs(s.refs, urn, i) <==> 0 <= i < |s.refs| && s.refs[i].urn == urn;
    if forall i :: RefIs(s.refs, urn, i) && !s.refs[i].state.Unavailable? ==> s.refs[i].ephemeral {
      forall i | 0 <= i < |s.refs| && s.refs[i].urn == urn ensures s.refs[i].state.Unavailable? || s.refs[i].ephemeral
      {
        assert RefIs(s.refs, urn, i);
      }
    }
    if forall i :: RefIs(s.refs, urn, i) ==> s.refs[i].state.Unavailable? {
      forall i | 0 <= i < |s.refs| && s.refs[i].urn == urn ensures s.refs[i].state.Unavailable?
      {
        assert RefIs(s.refs, urn, i);
      }
    }
    if forall i :: RefIs(s.refs, urn, i) ==> s.refs[i].state != Pinned {
      forall i | 0 <= i < |s.refs| && s.refs[i].urn == urn ensures !s.refs[i].state.Pinned?
      {
        assert RefIs(s.refs, urn, i);
      }
    }
  }

  /** A sweep goes on after each object it takes, and ends at the first it may not. */
  lemma SweepIs(s: Store, eligible: seq<Urn>, enforced: bool)
    ensures eligible == [] ==> Sweep(s, eligible, enforced) == (s, true)
    ensures eligible != [] && CollectOne(s, eligible[0], enforced).None? ==> Sweep(s, eligible, enforced) == (s, false)
    ensures eligible != [] && CollectOne(s, eligible[0], enforced).Some? ==>
              Sweep(s, eligible, enforced)
              == Sweep(CollectOne(s, eligible[0], enforced).value, eligible[1..], enforced)
  {
  }

  // ----- runs -----

  function OfferedAnywhere(mailbox: Mailbox, urn: Urn): Ref -> bool
  {
    Of(mailbox, urn, Offered)
  }

  predicate KeyIs(r: Ref, mailbox: Mailbox, urn: Urn, content: Address)
  {
    r.mailbox == mailbox && r.urn == urn && r.content == content
  }

  /** What each event of a run does to the references, and to which objects are live. */
  lemma EventIs(s: State, e: Event)
    ensures var b, n := s.store, Next(s, e);
            && (e.Deliver? ==> n == s.(store := b.(refs := n.store.refs))
                               && n.store.refs == Materialized(b.refs, e.mailboxes, e.content, e.manifest, e.granted))
            && (e.Promise? ==> n == s.(store := b.(refs := n.store.refs))
                               && n.store.refs
                                  == if exists i :: 0 <= i < |b.refs| && KeyIs(b.refs[i], e.mailbox, e.urn, e.content)
                                     then b.refs
                                     else b.refs + [Ref(e.mailbox, e.urn, e.content, Promised, false, e.until)])
            && (e.Ask? ==> n.store.live == b.live && n.listed == s.listed
                           && Moved(b.refs, n.store.refs,
                                    if e.delivery.Some? then OfferedIn(e.mailbox, e.urn, e.delivery.value)
                                    else OfferedAnywhere(e.mailbox, e.urn),
                                    Expected))
            && (e.Complete? ==> n.store.live == b.live && n.listed == s.listed
                                && Moved(b.refs, n.store.refs, Of(e.mailbox, e.urn, Expected), Available))
            && (e.GoLive? ==> n == s.(store := b.(live := b.live + {e.urn})))
            && (e.Announce? ==> n.store.live == b.live && n.listed == s.listed
                                && Moved(b.refs, n.store.refs, ExpectedOf(e.urn), Available))
            && (e.Pin? ==> n == s.(store := PinFlip(b, e.mailbox, e.urn, e.pin)))
            && (e.Expire? ==> n == s.(store := OffersExpired(b, e.now)))
            && (e.List? ==> n == s.(listed := e.eligible))
  {
  }

  /** The next transaction of the sweep: nothing when nothing is listed; the list goes when the trigger refuses. */
  lemma CollectEventIs(s: State, enforced: bool)
    ensures s.listed == [] ==> Next(s, Collect(enforced)) == s && Takes(s, Collect(enforced)) == None
    ensures s.listed != [] ==>
              var next := CollectOne(s.store, s.listed[0], enforced);
              && Next(s, Collect(enforced))
                 == (if next.None? then State(s.store, []) else State(next.value, s.listed[1..]))
              && Takes(s, Collect(enforced)) == if next.None? then None else Some(s.listed[0])
  {
  }

  /** A run takes its events one after the other. */
  lemma {:induction false} RunIs(s: State, es: seq<Event>, e: Event)
    ensures RunTo(s, []) == s && RunTo(s, es + [e]) == Next(RunTo(s, es), e)
    ensures LegalRun(s, es + [e]) <==> LegalRun(s, es) && Legal(RunTo(s, es), e)
    ensures SafeRun(s, es + [e]) <==> SafeRun(s, es) && Safe(RunTo(s, es), e)
    ensures FreshRun(s, es + [e]) <==> FreshRun(s, es) && Fresh(RunTo(s, es), e)
    ensures HeldThroughout(s, es + [e]) <==> HeldThroughout(s, es) && HeldLive(RunTo(s, es + [e]).store)
    decreases |es|
  {
    hide Next, Legal, Safe, Fresh, HeldLive;
    if es == [] {
      assert [] + [e] == [e] && [e][1..] == [];
    } else {
      assert (es + [e])[1..] == es[1..] + [e];
      RunIs(Next(s, es[0]), es[1..], e);
    }
  }
}
