/**
 The files behind the live objects: an upload renames its verified file into place and then records the object as live
 (server/bs/bs.go:572-609); a sweep deletes the record and then unlinks the file (server/sn/gc.go:59-81). Neither pair
 is one step, and nothing keeps the two apart.
 */
module LibraryBytes {
  import opened Library
  import LibraryProofs
  import opened Wrappers

  /**
   The library, the files in place, the uploads that have renamed their file and not yet recorded it, and the sweep's
   removals that are recorded and not yet carried out.
   */
  datatype Disk = Disk(library: LibraryProofs.State, files: set<Urn>, promoted: multiset<Urn>, doomed: multiset<Urn>)

  datatype Step =
    | Promote(urn: Urn)
    | Record(urn: Urn)
    | Transaction(event: LibraryProofs.Event)
    | Unlink(urn: Urn)
    | Restart

  ghost predicate Legal(d: Disk, e: Step)
  {
    match e
    case Promote(_) => true
    case Record(urn) => urn in d.promoted
    case Transaction(event) => !event.GoLive? && LibraryProofs.Legal(d.library, event)
    case Unlink(urn) => urn in d.doomed
    case Restart => true
  }

  function Next(d: Disk, e: Step): Disk
  {
    match e
    case Promote(urn) => d.(files := d.files + {urn}, promoted := d.promoted + multiset{urn})
    case Record(urn) =>
      d.(library := LibraryProofs.Next(d.library, LibraryProofs.GoLive(urn)), promoted := d.promoted - multiset{urn})
    case Transaction(event) =>
      var taken := LibraryProofs.Takes(d.library, event);
      d.(library := LibraryProofs.Next(d.library, event),
         doomed := if taken.Some? then d.doomed + multiset{taken.value} else d.doomed)
    case Unlink(urn) => d.(files := d.files - {urn}, doomed := d.doomed - multiset{urn})
    case Restart => Disk(d.library.(listed := []), d.files, multiset{}, multiset{})
  }

  function Live(d: Disk): set<Urn>
  {
    d.library.store.live
  }

  /** Every live object has its bytes. */
  predicate Backed(d: Disk)
  {
    Live(d) <= d.files
  }

  ghost predicate LegalRun(d: Disk, es: seq<Step>)
    decreases |es|
  {
    es == [] || (Legal(d, es[0]) && LegalRun(Next(d, es[0]), es[1..]))
  }

  ghost predicate BackedThroughout(d: Disk, es: seq<Step>)
    decreases |es|
  {
    Backed(d) && (es == [] || BackedThroughout(Next(d, es[0]), es[1..]))
  }

  // ----- step by step -----

  /** The object is not recorded over a missing file, and no file is unlinked under a live object. */
  predicate Sound(d: Disk, e: Step)
  {
    match e
    case Record(urn) => urn in d.files
    case Unlink(urn) => urn !in Live(d)
    case _ => true
  }

  predicate SoundRun(d: Disk, es: seq<Step>)
    decreases |es|
  {
    es == [] || (Sound(d, es[0]) && SoundRun(Next(d, es[0]), es[1..]))
  }

  /** Only a transaction of the sweep takes an object, and only the recording of an upload adds one. */
  lemma LiveAfter(s: LibraryProofs.State, e: LibraryProofs.Event)
    ensures LibraryProofs.Next(s, e).store.live
            == if e.GoLive? then s.store.live + {e.urn}
               else if LibraryProofs.Takes(s, e).Some? then s.store.live - {LibraryProofs.Takes(s, e).value}
               else s.store.live
  {
    hide Update, Passes, Materialized, Insert;
  }

  lemma NextIsBackedExactlyWhen(d: Disk, e: Step)
    requires Backed(d) && Legal(d, e)
    ensures Backed(Next(d, e)) <==> Sound(d, e)
  {
    hide LibraryProofs.Next, LibraryProofs.Takes;
    match e
    case Promote(_) =>
    case Record(urn) => LiveAfter(d.library, LibraryProofs.GoLive(urn));
    case Transaction(event) => LiveAfter(d.library, event);
    case Unlink(_) =>
    case Restart =>
  }

  /** Over every run: live objects have their bytes at every moment if and only if every step is sound when it comes. */
  lemma {:induction false} BackedExactlyWhenSound(d: Disk, es: seq<Step>)
    requires Backed(d) && LegalRun(d, es)
    ensures BackedThroughout(d, es) <==> SoundRun(d, es)
    decreases |es|
  {
    hide Backed, Next, Sound, Legal;
    if es != [] {
      NextIsBackedExactlyWhen(d, es[0]);
      if Sound(d, es[0]) { BackedExactlyWhenSound(Next(d, es[0]), es[1..]); }
      else { assert !BackedThroughout(Next(d, es[0]), es[1..]); }
    }
  }

  // ----- what would keep the two apart -----

  /** An upload renames no file whose removal is under way, and a sweep takes no object that an upload is recording. */
  predicate Guarded(d: Disk, e: Step)
  {
    match e
    case Promote(urn) => urn !in d.doomed
    case Transaction(event) =>
      LibraryProofs.Takes(d.library, event).Some? ==> LibraryProofs.Takes(d.library, event).value !in d.promoted
    case _ => true
  }

  predicate GuardedRun(d: Disk, es: seq<Step>)
    decreases |es|
  {
    es == [] || (Guarded(d, es[0]) && GuardedRun(Next(d, es[0]), es[1..]))
  }

  /** Nothing live or being recorded is without its file, or about to lose it. */
  ghost predicate Apart(d: Disk)
  {
    && Backed(d)
    && (forall u :: u in d.promoted ==> u in d.files)
    && (forall u :: u in d.doomed ==> u !in Live(d) && u !in d.promoted)
  }

  lemma GuardKeepsApart(d: Disk, e: Step)
    requires Apart(d) && Legal(d, e) && Guarded(d, e)
    ensures Apart(Next(d, e))
  {
    hide LibraryProofs.Next, LibraryProofs.Takes;
    match e
    case Promote(_) =>
    case Record(urn) => LiveAfter(d.library, LibraryProofs.GoLive(urn));
    case Transaction(event) => TransactionKeepsApart(d, event);
    case Unlink(_) =>
    case Restart =>
  }

  lemma TransactionKeepsApart(d: Disk, event: LibraryProofs.Event)
    requires Apart(d) && Legal(d, Transaction(event)) && Guarded(d, Transaction(event))
    ensures Apart(Next(d, Transaction(event)))
  {
    hide LibraryProofs.Next, LibraryProofs.Takes;
    LiveAfter(d.library, event);
  }

  lemma {:induction false} GuardedRunsAreBacked(d: Disk, es: seq<Step>)
    requires Apart(d) && LegalRun(d, es) && GuardedRun(d, es)
    ensures BackedThroughout(d, es)
    decreases |es|
  {
    hide Next, Guarded, Legal;
    if es != [] {
      GuardKeepsApart(d, es[0]);
      GuardedRunsAreBacked(Next(d, es[0]), es[1..]);
    }
  }

  /** Two steps already under way: an upload's record and a sweep's unlink. */
  function Rest(u: Urn): seq<Step>
  {
    [Record(u), Unlink(u)]
  }

  lemma RestLoses(d: Disk, u: Urn)
    requires u in d.promoted && u in d.doomed
    ensures LegalRun(d, Rest(u)) && GuardedRun(d, Rest(u)) && !BackedThroughout(d, Rest(u))
  {
    var e := Next(d, Record(u));
    LiveAfter(d.library, LibraryProofs.GoLive(u));
    assert u in Live(e) && e.doomed == d.doomed;
    var f := Next(e, Unlink(u));
    assert u in Live(f) && u !in f.files;
    assert Rest(u)[1..] == [Unlink(u)] && [Unlink(u)][1..] == [];
    assert !BackedThroughout(f, []);
    assert !BackedThroughout(e, [Unlink(u)]);
    assert LegalRun(f, []) && LegalRun(e, [Unlink(u)]);
    assert GuardedRun(f, []) && GuardedRun(e, [Unlink(u)]);
  }

  /** Every run that goes on from here, guarded from now on, leaves live objects their bytes. */
  ghost predicate Recoverable(d: Disk)
  {
    forall es :: LegalRun(d, es) && GuardedRun(d, es) ==> BackedThroughout(d, es)
  }

  /**
   The guard is exact: a step after which every further guarded run leaves live objects their bytes is a guarded one,
   and a guarded one is such a step.
   */
  lemma RecoverableExactlyWhenGuarded(d: Disk, e: Step)
    requires Apart(d) && Legal(d, e)
    ensures Recoverable(Next(d, e)) <==> Guarded(d, e)
  {
    hide BackedThroughout, LegalRun, GuardedRun, Backed, LibraryProofs.Next, LibraryProofs.Takes;
    if Guarded(d, e) {
      GuardKeepsApart(d, e);
      forall es | LegalRun(Next(d, e), es) && GuardedRun(Next(d, e), es) ensures BackedThroughout(Next(d, e), es)
      {
        GuardedRunsAreBacked(Next(d, e), es);
      }
    } else {
      var u := if e.Promote? then e.urn else LibraryProofs.Takes(d.library, e.event).value;
      RestLoses(Next(d, e), u);
    }
  }

  /** An object uploaded again between the sweep's transaction and its unlink ends up live without its bytes. */
  lemma UploadedWhileUnlinked()
    ensures var d := Disk(LibraryProofs.State(Store([], {"u"}), []), {"u"}, multiset{}, multiset{});
            var es := [Transaction(LibraryProofs.List(["u"])), Transaction(LibraryProofs.Collect(true)), Promote("u"),
                       Record("u"), Unlink("u")];
            Apart(d) && LegalRun(d, es) && !BackedThroughout(d, es)
  {
    hide Next, Legal, BackedThroughout, LegalRun, Apart;
    var d := Disk(LibraryProofs.State(Store([], {"u"}), []), {"u"}, multiset{}, multiset{});
    var es := [Transaction(LibraryProofs.List(["u"])), Transaction(LibraryProofs.Collect(true)), Promote("u"),
               Record("u"), Unlink("u")];
    var d1, d2 := Next(d, es[0]), Next(Next(d, es[0]), es[1]);
    TakenUnused();
    RestLoses(Next(d2, es[2]), "u");
    assert es[1..][1..] == es[2..] && es[2..][1..] == Rest("u");
    Onward(d2, es[2..]);
    Onward(d1, es[1..]);
    Onward(d, es);
  }

  /** A run goes on from its first step. */
  lemma Onward(d: Disk, es: seq<Step>)
    requires es != [] && Legal(d, es[0]) && LegalRun(Next(d, es[0]), es[1..])
    requires !BackedThroughout(Next(d, es[0]), es[1..])
    ensures LegalRun(d, es) && !BackedThroughout(d, es)
  {
    hide Next, Legal;
  }

  lemma TakenUnused()
    ensures var d := Disk(LibraryProofs.State(Store([], {"u"}), []), {"u"}, multiset{}, multiset{});
            var list, take := Transaction(LibraryProofs.List(["u"])), Transaction(LibraryProofs.Collect(true));
            var d2 := Next(Next(d, list), take);
            && Apart(d) && Legal(d, list) && Legal(Next(d, list), take) && Legal(d2, Promote("u"))
            && "u" in Next(d2, Promote("u")).promoted && "u" in Next(d2, Promote("u")).doomed
  {
    var d := Disk(LibraryProofs.State(Store([], {"u"}), []), {"u"}, multiset{}, multiset{});
    var list, take := Transaction(LibraryProofs.List(["u"])), Transaction(LibraryProofs.Collect(true));
    assert Collectable(d.library.store, "u") && Eligible(d.library.store, ["u"]);
    assert Passes([], Swept("u"), Unavailable(ExpiredLocal));
    assert LibraryProofs.Takes(Next(d, list).library, take.event) == Some("u");
  }
}
