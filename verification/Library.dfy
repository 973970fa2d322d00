/**
 References and live objects (server/sn/materialize.go, server/sn/gc.go, server/clientapi/endpoints.go:38-92,
 server/clientapi/media.go:92-115, server/cmd/mlpd/main.go:193-195) over the table and trigger of
 server/store/migrations/0001_init.sql:33-75.
 */
module Library {
  import opened Wrappers

  type Urn = string
  type Address = string
  type Mailbox = int

  datatype Cause = ExpiredRemote | ExpiredLocal | Declined | Failed | Deleted

  datatype RefState = Offered | Expected | Available | Pinned | Promised | Unavailable(cause: Cause)

  datatype Ref = Ref(mailbox: Mailbox, urn: Urn, content: Address, state: RefState, ephemeral: bool, until: int)

  /** The reference rows in order of insertion, and the URNs of the live objects. */
  datatype Store = Store(refs: seq<Ref>, live: set<Urn>)

  /** The database's transition table; a change outside it aborts the statement. */
  predicate Allowed(before: RefState, next: RefState)
  {
    || before == next
    || (before.Offered? && (next.Expected? || next in {Unavailable(ExpiredRemote), Unavailable(Declined)}))
    || (before.Expected? && (next.Available? || next.Offered?
      || next in {Unavailable(Failed), Unavailable(ExpiredRemote)}))
    || (before.Available? && (next.Pinned? || next in {Unavailable(ExpiredLocal), Unavailable(Deleted)}))
    || (before.Pinned? && (next.Available? || next == Unavailable(Deleted)))
  }

  /** UPDATE refs SET state, and the class where one is given, WHERE the condition holds. */
  function Update(refs: seq<Ref>, where: Ref -> bool, state: RefState, ephemeral: bool): (r: seq<Ref>)
    ensures |r| == |refs|
  {
    seq(|refs|, i requires 0 <= i < |refs| =>
      if where(refs[i]) then refs[i].(state := state, ephemeral := refs[i].ephemeral || ephemeral) else refs[i])
  }

  /** Whether the trigger lets an update through. */
  predicate Passes(refs: seq<Ref>, where: Ref -> bool, state: RefState)
  {
    forall i :: 0 <= i < |refs| && where(refs[i]) ==> Allowed(refs[i].state, state)
  }

  // ----- deliveries -----

  datatype Entry = Entry(urn: Urn, until: int)

  predicate HasRef(refs: seq<Ref>, mailbox: Mailbox, urn: Urn, content: Address)
  {
    exists i :: 0 <= i < |refs| && refs[i].mailbox == mailbox && refs[i].urn == urn && refs[i].content == content
  }

  /** INSERT OR IGNORE under the unique (mailbox, urn, content). */
  function Insert(refs: seq<Ref>, ref: Ref): seq<Ref>
  {
    if HasRef(refs, ref.mailbox, ref.urn, ref.content) then refs else refs + [ref]
  }

  function OfferedHere(mailbox: Mailbox, urn: Urn, content: Address): Ref -> bool
  {
    (r: Ref) => r.mailbox == mailbox && r.urn == urn && r.content == content && r.state.Offered?
  }

  function MaterializeEntry(refs: seq<Ref>, mailbox: Mailbox, content: Address, e: Entry, granted: set<Urn>): seq<Ref>
  {
    var inserted := Insert(refs, Ref(mailbox, e.urn, content, Offered, false, e.until));
    if e.urn in granted then Update(inserted, OfferedHere(mailbox, e.urn, content), Expected, true) else inserted
  }

  function MaterializeFor(refs: seq<Ref>, mailbox: Mailbox, content: Address, manifest: seq<Entry>, granted: set<Urn>)
    : seq<Ref>
  {
    if manifest == [] then refs
    else
      MaterializeEntry(MaterializeFor(refs, mailbox, content, manifest[..|manifest| - 1], granted), mailbox, content,
                       manifest[|manifest| - 1], granted)
  }

  /** materialize, for the mailboxes that did not have the message yet. */
  function Materialized(refs: seq<Ref>, mailboxes: seq<Mailbox>, content: Address, manifest: seq<Entry>,
                        granted: set<Urn>)
    : seq<Ref>
  {
    if mailboxes == [] then refs
    else
      MaterializeFor(Materialized(refs, mailboxes[..|mailboxes| - 1], content, manifest, granted),
                     mailboxes[|mailboxes| - 1], content, manifest, granted)
  }

  datatype Source = Source(urns: seq<Urn>, until: Option<int>)

  /** effectiveDeadline: the latest of the manifest's window and every covering source's. */
  method EffectiveDeadline(e: Entry, sources: seq<Source>) returns (deadline: int)
    ensures e.until <= deadline
    ensures forall s :: s in sources && s.until.Some? && (s.urns == [] || e.urn in s.urns) ==> s.until.value <= deadline
    ensures deadline == e.until
            || exists s :: s in sources && s.until == Some(deadline) && (s.urns == [] || e.urn in s.urns)
  {
    deadline := e.until;
    for i := 0 to |sources|
      invariant e.until <= deadline
      invariant forall s :: s in sources[..i] && s.until.Some? && (s.urns == [] || e.urn in s.urns) ==>
                  s.until.value <= deadline
      invariant deadline == e.until
                || exists s :: s in sources && s.until == Some(deadline) && (s.urns == [] || e.urn in s.urns)
    {
      var s := sources[i];
      assert sources[..i + 1] == sources[..i] + [s];
      if s.until.Some? && (s.urns == [] || e.urn in s.urns) && s.until.value > deadline { deadline := s.until.value; }
    }
  }

  // ----- the recipient's actions -----

  function OfferedTo(mailbox: Mailbox, urn: Urn): Ref -> bool
  {
    (r: Ref) => r.mailbox == mailbox && r.urn == urn && r.state.Offered?
  }

  function ExpectedBy(mailbox: Mailbox, urn: Urn): Ref -> bool
  {
    (r: Ref) => r.mailbox == mailbox && r.urn == urn && r.state.Expected?
  }

  function AnyExpected(urn: Urn): Ref -> bool
  {
    (r: Ref) => r.urn == urn && r.state.Expected?
  }

  function StateOf(mailbox: Mailbox, urn: Urn, state: RefState): Ref -> bool
  {
    (r: Ref) => r.mailbox == mailbox && r.urn == urn && r.state == state
  }

  function Overdue(now: int): Ref -> bool
  {
    (r: Ref) => r.state.Offered? && r.until < now
  }

  predicate Matches(refs: seq<Ref>, where: Ref -> bool)
  {
    exists i :: 0 <= i < |refs| && where(refs[i])
  }

  /** handleAccept: on the spot when the object is live, else the deferred delivery found for it, if any. */
  function Accepted(s: Store, mailbox: Mailbox, urn: Urn, delivery: Option<Address>): Store
  {
    if urn in s.live && Matches(s.refs, OfferedTo(mailbox, urn)) then
      var expected := Update(s.refs, OfferedTo(mailbox, urn), Expected, false);
      s.(refs := Update(expected, ExpectedBy(mailbox, urn), Available, false))
    else if delivery.Some? then
      s.(refs := Update(s.refs, OfferedHere(mailbox, urn, delivery.value), Expected, false))
    else s
  }

  /** An object goes live and its expected references with it. */
  function Verified(s: Store, urn: Urn): Store
  {
    Flipped(s.(live := s.live + {urn}), urn)
  }

  /** The flip alone. */
  function Flipped(s: Store, urn: Urn): Store
  {
    s.(refs := Update(s.refs, AnyExpected(urn), Available, false))
  }

  function PinFlip(s: Store, mailbox: Mailbox, urn: Urn, pin: bool): Store
  {
    var was, becomes := if pin then Available else Pinned, if pin then Pinned else Available;
    s.(refs := Update(s.refs, StateOf(mailbox, urn, was), becomes, false))
  }

  function OffersExpired(s: Store, now: int): Store
  {
    s.(refs := Update(s.refs, Overdue(now), Unavailable(ExpiredRemote), false))
  }

  // ----- garbage collection -----

  /** No pin, and nothing of the standard class that is not already unavailable. */
  predicate Collectable(s: Store, urn: Urn)
  {
    && urn in s.live
    && (forall i :: 0 <= i < |s.refs| && s.refs[i].urn == urn ==> !s.refs[i].state.Pinned?)
    && ((forall i :: 0 <= i < |s.refs| && s.refs[i].urn == urn ==> s.refs[i].state.Unavailable?)
        || forall i :: 0 <= i < |s.refs| && s.refs[i].urn == urn ==>
             s.refs[i].state.Unavailable? || s.refs[i].ephemeral)
  }

  function Swept(urn: Urn): Ref -> bool
  {
    (r: Ref) => r.urn == urn && (r.state.Available? || r.state.Expected? || r.state.Offered?)
  }

  /** One object's transaction; None when the trigger aborts it. */
  function CollectOne(s: Store, urn: Urn, enforced: bool): Option<Store>
  {
    if enforced && !Passes(s.refs, Swept(urn), Unavailable(ExpiredLocal)) then None
    else Some(Store(Update(s.refs, Swept(urn), Unavailable(ExpiredLocal), false), s.live - {urn}))
  }

  /** The sweep over the eligible objects in the order the query lists them, up to an aborted one. */
  function Sweep(s: Store, eligible: seq<Urn>, enforced: bool): (Store, bool)
    decreases |eligible|
  {
    if eligible == [] then (s, true)
    else
      match CollectOne(s, eligible[0], enforced)
      case None => (s, false)
      case Some(next) => Sweep(next, eligible[1..], enforced)
  }

  /** What the query lists. */
  ghost predicate Eligible(s: Store, eligible: seq<Urn>)
  {
    && (forall u :: u in eligible <==> Collectable(s, u))
    && forall i, j :: 0 <= i < j < |eligible| ==> eligible[i] != eligible[j]
  }

  class Shelf {
    var refs: seq<Ref>
    var live: set<Urn>

    function Value(): Store
      reads this
    {
      Store(refs, live)
    }

    constructor ()
      ensures Value() == Store([], {})
    {
      refs, live := [], {};
    }

    method Materialize(mailboxes: seq<Mailbox>, content: Address, manifest: seq<Entry>, granted: set<Urn>)
      modifies this`refs
      ensures refs == Materialized(old(refs), mailboxes, content, manifest, granted)
    {
      hide MaterializeEntry;
      for m := 0 to |mailboxes|
        invariant refs == Materialized(old(refs), mailboxes[..m], content, manifest, granted)
      {
        assert mailboxes[..m + 1][..m] == mailboxes[..m];
        MaterializeOne(mailboxes[m], content, manifest, granted);
      }
      assert mailboxes[..|mailboxes|] == mailboxes;
    }

    method MaterializeOne(mailbox: Mailbox, content: Address, manifest: seq<Entry>, granted: set<Urn>)
      modifies this`refs
      ensures refs == MaterializeFor(old(refs), mailbox, content, manifest, granted)
    {
      hide HasRef;
      for i := 0 to |manifest|
        invariant refs == MaterializeFor(old(refs), mailbox, content, manifest[..i], granted)
      {
        assert manifest[..i + 1][..i] == manifest[..i];
        var e := manifest[i];
        if !HasRef(refs, mailbox, e.urn, content) {
          refs := refs + [Ref(mailbox, e.urn, content, Offered, false, e.until)];
        }
        if e.urn in granted { refs := Update(refs, OfferedHere(mailbox, e.urn, content), Expected, true); }
      }
      assert manifest[..|manifest|] == manifest;
    }

    method Accept(mailbox: Mailbox, urn: Urn, delivery: Option<Address>)
      modifies this
      ensures Value() == Accepted(old(Value()), mailbox, urn, delivery)
    {
      if urn in live && Matches(refs, OfferedTo(mailbox, urn)) {
        refs := Update(refs, OfferedTo(mailbox, urn), Expected, false);
        refs := Update(refs, ExpectedBy(mailbox, urn), Available, false);
        return;
      }
      if delivery.Some? { refs := Update(refs, OfferedHere(mailbox, urn, delivery.value), Expected, false); }
    }

    /** The sweep: every eligible object in its own transaction; false when one aborts. */
    method CollectGarbage(eligible: seq<Urn>, enforced: bool) returns (done: bool)
      modifies this
      ensures (Value(), done) == Sweep(old(Value()), eligible, enforced)
    {
      hide Update, Passes;
      for i := 0 to |eligible|
        invariant Sweep(Value(), eligible[i..], enforced) == Sweep(old(Value()), eligible, enforced)
      {
        assert eligible[i..][1..] == eligible[i + 1..];
        if enforced && !Passes(refs, Swept(eligible[i]), Unavailable(ExpiredLocal)) { return false; }
        refs := Update(refs, Swept(eligible[i]), Unavailable(ExpiredLocal), false);
        live := live - {eligible[i]};
      }
      return true;
    }
  }
}
