/** All uploads of one blob store over whole runs of requests, crashes, restarts and lost storage. */
module UploadRuns {
  import opened Bytes
  import opened Blake3
  import opened BaoEncoder
  import opened BaoDecoder
  import opened Upload
  import opened UploadProofs
  import opened Wrappers

  datatype Store = Store(rows: map<Token, Row>, partials: map<Token, seq<byte>>, memory: map<Token, Checkpoint>,
                         objects: map<Digest, seq<byte>>, live: set<Digest>)

  const EMPTY_STORE := Store(map[], map[], map[], map[], {})

  function Get<K, V>(m: map<K, V>, k: K, absent: V): V
  {
    if k in m then m[k] else absent
  }

  function View(s: Store, t: Token): Upload
    requires t in s.rows
  {
    var g := s.rows[t].digest;
    Upload(Disk(s.rows[t], Get(s.partials, t, []), if g in s.objects then Some(s.objects[g]) else None, g in s.live),
           Get(s.memory, t, FORGOTTEN))
  }

  function Put(s: Store, t: Token, u: Upload): Store
  {
    var g := u.disk.row.digest;
    Store(s.rows[t := u.disk.row], s.partials[t := u.disk.partial], s.memory[t := u.memory],
          if u.disk.stored.Some? then s.objects[g := u.disk.stored.value] else s.objects,
          if u.disk.live then s.live + {g} else s.live)
  }

  datatype Call =
    | Remote(now: int, req: Request)
    | Local(now: int, claimed: seq<byte>, offset: nat, body: Body)
    | Probe(now: int, signed: bool)

  /**
   Requests arrive one at a time per token; a crash may strike after any of a request's durable writes; a restart
   forgets the memory; storage may lose the end of a partial.
   */
  datatype Event =
    | Reserve(token: Token, digest: Digest, size: Size, expires: int)
    | Serve(token: Token, call: Call)
    | CrashIn(token: Token, call: Call, writes: nat)
    | Restart
    | Lose(token: Token, keep: nat)

  function Answer(c: Compress, sha: Sha, u: Upload, call: Call): (Run, Reply)
  {
    match call
    case Remote(now, req) => Patched(c, sha, Run(u, []), now, req)
    case Local(now, claimed, offset, body) => LocalPatched(c, sha, Run(u, []), now, claimed, offset, body)
    case Probe(now, signed) =>
      var (r, answer) := HeadRead(Run(u, []), now, signed);
      (r, if answer.Ok? then Reply(answer.value.0, false, None) else Reply(0, false, Some(answer.error)))
  }

  /** Reservations have tokens of their own, and storage is lost from the end of what there is. */
  predicate Possible(s: Store, e: Event)
  {
    match e
    case Reserve(t, _, _, _) => t !in s.rows
    case Lose(t, keep) => t in s.rows && keep <= |View(s, t).disk.partial|
    case _ => true
  }

  /**
   The end of an mlp-bao partial is lost under a decoder that is still in memory; LossIsHealedExactlyWhen says more.
   */
  predicate Unnoticed(s: Store, e: Event)
  {
    e.Lose? && Possible(s, e)
    && var u := View(s, e.token);
       u.disk.row.encoding.Bao? && u.memory.decoder.Some? && e.keep < u.disk.row.offset
  }

  const GONE := Problem(410, ReservationInvalid)
  const UNKNOWN := Problem(401, ReservationInvalid)

  /** A request by its token: an unknown one is refused. */
  function Reached(c: Compress, sha: Sha, s: Store, t: Token, call: Call): (Store, Reply)
  {
    if t !in s.rows then (s, Reply(0, false, Some(UNKNOWN)))
    else
      var (r, reply) := Answer(c, sha, View(s, t), call);
      (Put(s, t, r.upload), reply)
  }

  function Next(c: Compress, sha: Sha, s: Store, e: Event): Store
  {
    if !Possible(s, e) then s
    else
      match e
      case Reserve(t, digest, size, expires) =>
        s.(rows := s.rows[t := Row(digest, size, expires, Pending, 0, Raw)], partials := s.partials[t := []],
           memory := s.memory[t := FORGOTTEN])
      case Serve(t, call) => Reached(c, sha, s, t, call).0
      case CrashIn(t, call, k) =>
        if t !in s.rows then s.(memory := map[])
        else
          var d := After(View(s, t), Answer(c, sha, View(s, t), call).0.trace, k);
          Put(s, t, Upload(d, FORGOTTEN)).(memory := map[])
      case Restart => s.(memory := map[])
      case Lose(t, keep) => Put(s, t, Lost(View(s, t), keep))
  }

  function RunTo(c: Compress, sha: Sha, s: Store, es: seq<Event>): Store
    decreases |es|
  {
    if es == [] then s else RunTo(c, sha, Next(c, sha, s, es[0]), es[1..])
  }

  /** No loss of the run goes unnoticed. */
  predicate NoticedRun(c: Compress, sha: Sha, s: Store, es: seq<Event>)
    decreases |es|
  {
    es == [] || (!Unnoticed(s, es[0]) && NoticedRun(c, sha, Next(c, sha, s, es[0]), es[1..]))
  }

  // ----- the invariant -----

  ghost predicate StoreOk(c: Compress, s: Store)
  {
    && (forall g :: g in s.objects ==> Root(c, s.objects[g]) == g)
    && s.live <= s.objects.Keys
    && forall t :: t in s.rows ==> UploadOk(c, View(s, t))
  }

  /** What one request may do to its upload's row and object. */
  ghost predicate Grows(d: Disk, e: Disk)
  {
    && e.row.digest == d.row.digest && e.row.maxSize == d.row.maxSize
    && (d.stored.Some? ==> e.stored.Some?) && (d.live ==> e.live)
    && (d.row.state.Consumed? ==> e.row == d.row)
  }

  ghost predicate GrowsRun(d: Disk, r: Run)
  {
    Grows(d, r.upload.disk) && forall e :: e in r.trace ==> Grows(d, e)
  }

  lemma CoreGrows(c: Compress, sha: Sha, d: Disk, r: Run, claimed: seq<byte>, offset: nat, body: Body)
    requires GrowsRun(d, r) && d.row.state.Pending?
    ensures GrowsRun(d, CorePatched(c, sha, r, claimed, offset, body).0)
  {
    hide Feed, Rederive, Root, EncodedSize, Advance, Finished, Ingested, Opened, Run.Truncate, Run.Reset, Run.SetOffset,
         TornStates;
    if offset == r.upload.disk.row.offset {
      OpenedGrows(c, d, r);
      IngestedGrows(c, sha, d, Opened(c, r), claimed, body);
    }
  }

  lemma OpenedGrows(c: Compress, d: Disk, r: Run)
    requires GrowsRun(d, r) && d.row.state.Pending?
    ensures GrowsRun(d, Opened(c, r))
  {
    hide Feed, Rederive, Root, EncodedSize, NewDecoder, RestoreVerifier, Reconcile;
    ReconcileGrows(d, r);
    RestoreGrows(c, d, Reconcile(r));
  }

  lemma ReconcileGrows(d: Disk, r: Run)
    requires GrowsRun(d, r) && d.row.state.Pending?
    ensures GrowsRun(d, Reconcile(r))
  {
  }

  lemma RestoreGrows(c: Compress, d: Disk, r: Run)
    requires GrowsRun(d, r) && d.row.state.Pending?
    ensures GrowsRun(d, RestoreVerifier(c, r))
  {
    hide Feed, Rederive, Root, EncodedSize, NewDecoder;
  }

  lemma FinishedGrows(c: Compress, d: Disk, r: Run)
    requires GrowsRun(d, r) && d.row.state.Pending?
    requires var u := r.upload; if u.disk.row.encoding.Bao? then u.memory.decoder.Some? else u.memory.hasher.Some?
    ensures GrowsRun(d, Finished(c, r).0)
  {
    hide Feed, Rederive, Root, EncodedSize, DecodeToRaw;
  }

  lemma IngestedGrows(c: Compress, sha: Sha, d: Disk, r: Run, claimed: seq<byte>, body: Body)
    requires GrowsRun(d, r) && d.row.state.Pending?
    requires var u := r.upload; if u.disk.row.encoding.Bao? then u.memory.decoder.Some? else u.memory.hasher.Some?
    ensures GrowsRun(d, Ingested(c, sha, r, claimed, body).0)
  {
    hide Feed, Rederive, Root, EncodedSize, Advance, Finished;
    var taken := Taken(r.upload.disk.row, body);
    assert GrowsRun(d, r.Append(taken));
    if Advance(c, r.upload, taken).Some? {
      FinishedGrows(c, d, r.Append(taken).SetOffset(r.upload.disk.row.offset + |taken|)
                          .Remember(Advance(c, r.upload, taken).value));
    }
  }

  /** A request never takes an object away, and leaves a consumed row exactly as it is. */
  lemma AnswerGrows(c: Compress, sha: Sha, u: Upload, call: Call)
    ensures GrowsRun(u.disk, Answer(c, sha, u, call).0)
    ensures u.disk.row.state.Consumed? ==>
              Answer(c, sha, u, call) == (Run(u, []), Reply(0, false, Some(GONE)))
  {
    hide CorePatched;
    var r := Run(u, []);
    var (loaded, gone) := Loaded(r, call.now);
    if gone.None? {
      match call
      case Remote(_, req) =>
        var bound := EncodingBound(r, req.encoding).0;
        if req.claimed.Some? && req.offset.Some? {
          CoreGrows(c, sha, u.disk, bound, req.claimed.value, req.offset.value, req.body);
        }
      case Local(_, claimed, offset, body) => CoreGrows(c, sha, u.disk, r, claimed, offset, body);
      case Probe(_, _) =>
    }
  }

  lemma AnswerOk(c: Compress, sha: Sha, u: Upload, call: Call)
    requires UploadOk(c, u)
    ensures var (r, reply) := Answer(c, sha, u, call);
            RunOk(c, r) && (reply.verified ==> VerifiedLive(r, u.disk.row.maxSize))
  {
    hide DiskOk, MemoryOk, Patched, LocalPatched;
    var r := Run(u, []);
    match call
    case Remote(now, req) => PatchedOk(c, sha, r, now, req);
    case Local(now, claimed, offset, body) => LocalPatchedOk(c, sha, r, now, claimed, offset, body);
    case Probe(now, _) => LoadedOk(c, r, now);
  }

  /** Writing back one upload keeps the store sound. */
  lemma PutOk(c: Compress, s: Store, t: Token, u: Upload)
    requires StoreOk(c, s) && t in s.rows && UploadOk(c, u) && Grows(View(s, t).disk, u.disk)
    ensures StoreOk(c, Put(s, t, u)) && View(Put(s, t, u), t) == u
  {
    hide Rederive, Root, EncodedSize;
    var n := Put(s, t, u);
    forall t' | t' in n.rows
      ensures UploadOk(c, View(n, t'))
    {
      if t' != t { OtherUpload(c, s, t, u, t'); }
    }
  }

  /** Another upload sees only that the object at its address may have come to be. */
  lemma OtherUpload(c: Compress, s: Store, t: Token, u: Upload, t': Token)
    requires StoreOk(c, s) && t in s.rows && t' in s.rows && t' != t
    requires UploadOk(c, u) && Grows(View(s, t).disk, u.disk)
    ensures UploadOk(c, View(Put(s, t, u), t'))
  {
    hide Rederive, Root, EncodedSize;
    var before, after := View(s, t'), View(Put(s, t, u), t');
    assert after.memory == before.memory && after.disk.row == before.disk.row
           && after.disk.partial == before.disk.partial;
    assert UploadOk(c, before);
  }

  lemma ForgetOk(c: Compress, s: Store)
    requires StoreOk(c, s)
    ensures StoreOk(c, s.(memory := map[]))
  {
    hide DiskOk;
    forall t | t in s.rows
      ensures UploadOk(c, View(s.(memory := map[]), t))
    {
      assert UploadOk(c, View(s, t));
    }
  }

  lemma LostOk(c: Compress, u: Upload, keep: nat)
    requires UploadOk(c, u) && keep <= |u.disk.partial|
    requires !(u.disk.row.encoding.Bao? && u.memory.decoder.Some? && keep < u.disk.row.offset)
    ensures UploadOk(c, Lost(u, keep))
  {
    hide Rederive, Root, EncodedSize;
    if u.disk.row.offset <= keep { assert Behind(Lost(u, keep).disk) == Behind(u.disk); }
  }

  lemma NextOk(c: Compress, sha: Sha, s: Store, e: Event)
    requires StoreOk(c, s) && !Unnoticed(s, e)
    ensures StoreOk(c, Next(c, sha, s, e))
  {
    hide Answer, UploadOk, Put;
    if Possible(s, e) {
      match e
      case Reserve(t, digest, size, expires) => ReserveOk(c, s, t, Row(digest, size, expires, Pending, 0, Raw));
      case Serve(t, call) =>
        if t in s.rows {
          AnswerOk(c, sha, View(s, t), call);
          AnswerGrows(c, sha, View(s, t), call);
          PutOk(c, s, t, Answer(c, sha, View(s, t), call).0.upload);
        }
      case CrashIn(t, call, k) =>
        ForgetOk(c, s);
        if t in s.rows {
          AnswerOk(c, sha, View(s, t), call);
          AnswerGrows(c, sha, View(s, t), call);
          var d := After(View(s, t), Answer(c, sha, View(s, t), call).0.trace, k);
          CrashedOk(c, View(s, t), d);
          PutOk(c, s, t, Upload(d, FORGOTTEN));
          ForgetOk(c, Put(s, t, Upload(d, FORGOTTEN)));
        }
      case Restart => ForgetOk(c, s);
      case Lose(t, keep) =>
        LostOk(c, View(s, t), keep);
        PutOk(c, s, t, Lost(View(s, t), keep));
    }
  }

  lemma CrashedOk(c: Compress, u: Upload, d: Disk)
    requires UploadOk(c, u) && (DiskOk(c, d) || d == u.disk)
    ensures UploadOk(c, Upload(d, FORGOTTEN))
  {
  }

  lemma ReserveOk(c: Compress, s: Store, t: Token, row: Row)
    requires StoreOk(c, s) && t !in s.rows && row.state.Pending? && row.offset == 0 && row.encoding.Raw?
    ensures StoreOk(c, s.(rows := s.rows[t := row], partials := s.partials[t := []],
            memory := s.memory[t := FORGOTTEN]))
  {
    hide Rederive, Root, EncodedSize;
    var n := s.(rows := s.rows[t := row], partials := s.partials[t := []], memory := s.memory[t := FORGOTTEN]);
    forall t' | t' in n.rows
      ensures UploadOk(c, View(n, t'))
    {
      if t' != t { assert View(n, t') == View(s, t'); }
    }
  }

  /**
   Over every run of requests, crashes, restarts and lost storage, as long as no loss goes unnoticed: an object is at
   its address, and live, only with bytes that hash to it; every checkpoint in memory is the one its partial determines.
   */
  lemma {:induction false} EveryRunIsSound(c: Compress, sha: Sha, s: Store, es: seq<Event>)
    requires StoreOk(c, s) && NoticedRun(c, sha, s, es)
    ensures StoreOk(c, RunTo(c, sha, s, es))
    decreases |es|
  {
    hide StoreOk, Next, Unnoticed;
    if es != [] {
      NextOk(c, sha, s, es[0]);
      EveryRunIsSound(c, sha, Next(c, sha, s, es[0]), es[1..]);
    }
  }

  lemma EmptyStoreOk(c: Compress)
    ensures StoreOk(c, EMPTY_STORE)
  {
  }

  /** Spent stays spent, and live stays live. */
  lemma NextKeeps(c: Compress, sha: Sha, s: Store, e: Event, t: Token)
    requires t in s.rows
    ensures var n := Next(c, sha, s, e);
            t in n.rows && (s.rows[t].state.Consumed? ==> n.rows[t] == s.rows[t]) && s.live <= n.live
  {
    hide Answer;
    if (e.Serve? || e.CrashIn?) && e.token in s.rows { AnswerGrows(c, sha, View(s, e.token), e.call); }
  }

  /** A consumed token accepts nothing: whatever happens next, its row stands and every request for it is refused. */
  lemma {:induction false} ConsumedForGood(c: Compress, sha: Sha, s: Store, es: seq<Event>, t: Token, call: Call)
    requires t in s.rows && s.rows[t].state.Consumed?
    ensures var n := RunTo(c, sha, s, es);
            t in n.rows && n.rows[t] == s.rows[t] && s.live <= n.live
            && Answer(c, sha, View(n, t), call) == (Run(View(n, t), []), Reply(0, false, Some(GONE)))
    decreases |es|
  {
    hide Next;
    if es == [] {
      AnswerGrows(c, sha, View(s, t), call);
    } else {
      NextKeeps(c, sha, s, es[0], t);
      ConsumedForGood(c, sha, Next(c, sha, s, es[0]), es[1..], t, call);
    }
  }
}
