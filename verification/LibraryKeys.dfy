/** References by their unique key: what one delivery gives each mailbox, and one row a key over every run. */
module LibraryKeys {
  import opened Library
  import opened LibraryProofs
  import opened Wrappers

  predicate HasKey(r: Ref, mailbox: Mailbox, urn: Urn, content: Address)
  {
    r.mailbox == mailbox && r.urn == urn && r.content == content
  }

  /** The first row with the key. */
  function Find(refs: seq<Ref>, mailbox: Mailbox, urn: Urn, content: Address): Option<Ref>
  {
    if refs == [] then None
    else if HasKey(refs[0], mailbox, urn, content) then Some(refs[0])
    else Find(refs[1..], mailbox, urn, content)
  }

  lemma {:induction false} FindFinds(refs: seq<Ref>, mailbox: Mailbox, urn: Urn, content: Address)
    ensures Find(refs, mailbox, urn, content).Some? <==> HasRef(refs, mailbox, urn, content)
    ensures Find(refs, mailbox, urn, content).Some?
            ==> HasKey(Find(refs, mailbox, urn, content).value, mailbox, urn, content)
  {
    if refs != [] {
      FindFinds(refs[1..], mailbox, urn, content);
      if HasRef(refs[1..], mailbox, urn, content) {
        var i :| 0 <= i < |refs[1..]| && HasKey(refs[1..][i], mailbox, urn, content);
        assert HasKey(refs[i + 1], mailbox, urn, content);
      } else if HasRef(refs, mailbox, urn, content) {
        var i :| 0 <= i < |refs| && HasKey(refs[i], mailbox, urn, content);
        assert i > 0 ==> HasKey(refs[1..][i - 1], mailbox, urn, content);
      }
    }
  }

  lemma {:induction false} FindConcat(a: seq<Ref>, b: seq<Ref>, mailbox: Mailbox, urn: Urn, content: Address)
    ensures Find(a + b, mailbox, urn, content)
            == if Find(a, mailbox, urn, content).Some? then Find(a, mailbox, urn, content)
              else Find(b, mailbox, urn, content)
  {
    if a == [] {
      assert a + b == b;
    } else {
      FindConcat(a[1..], b, mailbox, urn, content);
      assert (a + b)[1..] == a[1..] + b;
    }
  }

  /** A reference that a delivery meets, or brings: an offer steps to expected when it was granted. */
  function Stepped(r: Ref, granted: bool): Ref
  {
    if granted && r.state.Offered? then r.(state := Expected, ephemeral := true) else r
  }

  lemma {:induction false} FindUpdated(refs: seq<Ref>, mailbox: Mailbox, urn: Urn, content: Address,
                                       m: Mailbox, u: Urn, ct: Address)
    ensures var n := Update(refs, OfferedHere(mailbox, urn, content), Expected, true);
            Find(n, m, u, ct)
            == match Find(refs, m, u, ct)
               case None => None
               case Some(r) => Some(Stepped(r, m == mailbox && u == urn && ct == content))
  {
    if refs != [] {
      var n := Update(refs, OfferedHere(mailbox, urn, content), Expected, true);
      FindUpdated(refs[1..], mailbox, urn, content, m, u, ct);
      assert n[1..] == Update(refs[1..], OfferedHere(mailbox, urn, content), Expected, true);
      assert n[0] == if OfferedHere(mailbox, urn, content)(refs[0])
             then refs[0].(state := Expected, ephemeral := true) else refs[0];
    }
  }

  lemma FindInserted(refs: seq<Ref>, ref: Ref, m: Mailbox, u: Urn, ct: Address)
    ensures Find(Insert(refs, ref), m, u, ct)
            == if Find(refs, m, u, ct).None? && HasKey(ref, m, u, ct) then Some(ref) else Find(refs, m, u, ct)
  {
    FindFinds(refs, ref.mailbox, ref.urn, ref.content);
    FindConcat(refs, [ref], m, u, ct);
  }

  /** What the key (mailbox, urn, content) holds after one manifest entry. */
  function After(before: Option<Ref>, offer: Ref, granted: bool): Option<Ref>
  {
    Some(Stepped(if before.Some? then before.value else offer, granted))
  }

  lemma EntryGives(refs: seq<Ref>, mailbox: Mailbox, content: Address, e: Entry, granted: set<Urn>,
                   m: Mailbox, u: Urn, ct: Address)
    ensures Find(MaterializeEntry(refs, mailbox, content, e, granted), m, u, ct)
            == if m == mailbox && u == e.urn && ct == content then
                 After(Find(refs, m, u, ct), Ref(mailbox, e.urn, content, Offered, false, e.until), e.urn in granted)
               else Find(refs, m, u, ct)
  {
    hide Insert, Update, Find;
    var ref := Ref(mailbox, e.urn, content, Offered, false, e.until);
    FindInserted(refs, ref, m, u, ct);
    FindUpdated(Insert(refs, ref), mailbox, e.urn, content, m, u, ct);
  }

  /** The first entry of the manifest for urn. */
  function EntryFor(manifest: seq<Entry>, urn: Urn): Option<Entry>
  {
    if manifest == [] then None
    else
      var before := EntryFor(manifest[..|manifest| - 1], urn);
      if before.Some? then before
      else if manifest[|manifest| - 1].urn == urn then Some(manifest[|manifest| - 1]) else None
  }

  lemma {:induction false} ManifestGives(refs: seq<Ref>, mailbox: Mailbox, content: Address, manifest: seq<Entry>,
                                         granted: set<Urn>, m: Mailbox, u: Urn, ct: Address)
    ensures Find(MaterializeFor(refs, mailbox, content, manifest, granted), m, u, ct)
            == match EntryFor(manifest, u)
               case None => Find(refs, m, u, ct)
               case Some(e) =>
                 if m == mailbox && ct == content then
                   After(Find(refs, m, u, ct), Ref(mailbox, u, content, Offered, false, e.until), u in granted)
                 else Find(refs, m, u, ct)
  {
    hide MaterializeEntry, Find;
    if manifest != [] {
      var front, e := manifest[..|manifest| - 1], manifest[|manifest| - 1];
      ManifestGives(refs, mailbox, content, front, granted, m, u, ct);
      EntryGives(MaterializeFor(refs, mailbox, content, front, granted), mailbox, content, e, granted, m, u, ct);
    }
  }

  /**
   A delivery, key by key: each mailbox it reaches has a reference for each manifest entry, expected and ephemeral if
   the entry was granted and nothing had happened to it before, and no other reference changes.
   */
  lemma {:induction false} DeliveryGives(refs: seq<Ref>, mailboxes: seq<Mailbox>, content: Address,
                                         manifest: seq<Entry>,
                                         granted: set<Urn>, m: Mailbox, u: Urn, ct: Address)
    ensures Find(Materialized(refs, mailboxes, content, manifest, granted), m, u, ct)
            == match EntryFor(manifest, u)
               case None => Find(refs, m, u, ct)
               case Some(e) =>
                 if m in mailboxes && ct == content then
                   After(Find(refs, m, u, ct), Ref(m, u, content, Offered, false, e.until), u in granted)
                 else Find(refs, m, u, ct)
  {
    hide MaterializeFor, Find, EntryFor;
    if mailboxes != [] {
      var front, last := mailboxes[..|mailboxes| - 1], mailboxes[|mailboxes| - 1];
      DeliveryGives(refs, front, content, manifest, granted, m, u, ct);
      ManifestGives(Materialized(refs, front, content, manifest, granted), last, content, manifest, granted, m, u, ct);
      assert m in mailboxes <==> m in front || m == last by { assert mailboxes == front + [last]; }
    }
  }

  /** A redelivery to some of the mailboxes, of the same manifest and grants, changes no reference. */
  lemma RedeliveryChangesNothing(refs: seq<Ref>, mailboxes: seq<Mailbox>, again: seq<Mailbox>, content: Address,
                                 manifest: seq<Entry>, granted: set<Urn>, m: Mailbox, u: Urn, ct: Address)
    requires forall x :: x in again ==> x in mailboxes
    ensures var once := Materialized(refs, mailboxes, content, manifest, granted);
            Find(Materialized(once, again, content, manifest, granted), m, u, ct) == Find(once, m, u, ct)
  {
    hide Materialized, Find, EntryFor;
    DeliveryGives(refs, mailboxes, content, manifest, granted, m, u, ct);
    DeliveryGives(Materialized(refs, mailboxes, content, manifest, granted), again, content, manifest, granted, m, u,
      ct);
  }

  /**
   Whoever sends it, a granted entry gives a new reference the ephemeral class; an entry that is not granted does not.
   */
  lemma NewGrantsAreEphemeral(refs: seq<Ref>, mailboxes: seq<Mailbox>, content: Address, manifest: seq<Entry>,
                              granted: set<Urn>, m: Mailbox, e: Entry)
    requires m in mailboxes && EntryFor(manifest, e.urn) == Some(e) && Find(refs, m, e.urn, content).None?
    ensures Find(Materialized(refs, mailboxes, content, manifest, granted), m, e.urn, content)
            == Some(Ref(m, e.urn, content, if e.urn in granted then Expected else Offered, e.urn in granted, e.until))
  {
    hide Materialized, Find, EntryFor;
    DeliveryGives(refs, mailboxes, content, manifest, granted, m, e.urn, content);
  }

  // ----- one row a key -----

  ghost predicate UniqueKeys(refs: seq<Ref>)
  {
    forall i, j :: 0 <= i < j < |refs| ==> !HasKey(refs[j], refs[i].mailbox, refs[i].urn, refs[i].content)
  }

  lemma UpdateKeepsKeys(refs: seq<Ref>, where: Ref -> bool, state: RefState, ephemeral: bool)
    requires UniqueKeys(refs)
    ensures UniqueKeys(Update(refs, where, state, ephemeral))
  {
  }

  lemma InsertKeepsKeys(refs: seq<Ref>, ref: Ref)
    requires UniqueKeys(refs)
    ensures UniqueKeys(Insert(refs, ref))
  {
    if !HasRef(refs, ref.mailbox, ref.urn, ref.content) {
      forall i | 0 <= i < |refs| ensures !HasKey(ref, refs[i].mailbox, refs[i].urn, refs[i].content) {
        assert !HasKey(refs[i], ref.mailbox, ref.urn, ref.content);
      }
    }
  }

  lemma {:induction false} ManifestKeepsKeys(refs: seq<Ref>, mailbox: Mailbox, content: Address, manifest: seq<Entry>,
                                             granted: set<Urn>)
    requires UniqueKeys(refs)
    ensures UniqueKeys(MaterializeFor(refs, mailbox, content, manifest, granted))
  {
    hide UniqueKeys, Insert, Update;
    if manifest != [] {
      var front, e := manifest[..|manifest| - 1], manifest[|manifest| - 1];
      ManifestKeepsKeys(refs, mailbox, content, front, granted);
      var mid := MaterializeFor(refs, mailbox, content, front, granted);
      var ref := Ref(mailbox, e.urn, content, Offered, false, e.until);
      InsertKeepsKeys(mid, ref);
      UpdateKeepsKeys(Insert(mid, ref), OfferedHere(mailbox, e.urn, content), Expected, true);
    }
  }

  lemma {:induction false} DeliveryKeepsKeys(refs: seq<Ref>, mailboxes: seq<Mailbox>, content: Address,
                                             manifest: seq<Entry>, granted: set<Urn>)
    requires UniqueKeys(refs)
    ensures UniqueKeys(Materialized(refs, mailboxes, content, manifest, granted))
  {
    hide UniqueKeys, MaterializeFor;
    if mailboxes != [] {
      var front := mailboxes[..|mailboxes| - 1];
      DeliveryKeepsKeys(refs, front, content, manifest, granted);
      ManifestKeepsKeys(Materialized(refs, front, content, manifest, granted), mailboxes[|mailboxes| - 1], content,
                        manifest, granted);
    }
  }

  lemma NextKeepsKeys(s: State, e: Event)
    requires UniqueKeys(s.store.refs)
    ensures UniqueKeys(Next(s, e).store.refs)
  {
    hide UniqueKeys, Update, Materialized, Insert, Passes;
    var refs := s.store.refs;
    match e
    case Deliver(mailboxes, content, manifest, granted) =>
      DeliveryKeepsKeys(refs, mailboxes, content, manifest, granted);
    case Promise(mailbox, urn, content, until) =>
      InsertKeepsKeys(refs, Ref(mailbox, urn, content, Promised, false, until));
    case Ask(mailbox, urn, delivery) => UpdateKeepsKeys(refs, Asked(mailbox, urn, delivery), Expected, false);
    case Complete(mailbox, urn) => UpdateKeepsKeys(refs, ExpectedBy(mailbox, urn), Available, false);
    case GoLive(urn) =>
    case Announce(urn) => UpdateKeepsKeys(refs, AnyExpected(urn), Available, false);
    case Pin(mailbox, urn, pin) =>
      var was, becomes := if pin then Available else Pinned, if pin then Pinned else Available;
      UpdateKeepsKeys(refs, StateOf(mailbox, urn, was), becomes, false);
    case Expire(now) => UpdateKeepsKeys(refs, Overdue(now), Unavailable(ExpiredRemote), false);
    case List(eligible) =>
    case Collect(enforced) =>
      if s.listed != [] { UpdateKeepsKeys(refs, Swept(s.listed[0]), Unavailable(ExpiredLocal), false); }
  }

  /** Over every run of every interleaving there is at most one reference for a mailbox, object and message. */
  lemma {:induction false} EveryRunKeepsKeys(s: State, es: seq<Event>)
    requires UniqueKeys(s.store.refs)
    ensures UniqueKeys(RunTo(s, es).store.refs)
    decreases |es|
  {
    hide UniqueKeys, Next;
    if es != [] {
      NextKeepsKeys(s, es[0]);
      EveryRunKeepsKeys(Next(s, es[0]), es[1..]);
    }
  }
}
