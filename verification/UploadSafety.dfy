/** Objects are safe in every run, whatever storage is lost and whatever the memory holds (server/bs/bs.go:245-613). */
module UploadSafety {
  import opened Bytes
  import opened Blake3
  import opened BaoEncoder
  import opened BaoDecoder
  import opened BaoProofs
  import opened Upload
  import opened UploadProofs
  import opened UploadRuns
  import opened Wrappers

  /** A hasher in memory has hashed what is behind the offset; nothing is known of a decoder. */
  ghost predicate HasherOk(u: Upload)
  {
    var d := u.disk;
    u.memory.hasher.Some? ==>
      && (d.row.encoding.Raw? || d.row.offset == 0)
      && (d.row.offset <= |d.partial| ==> u.memory.hasher.value == Behind(d))
  }

  ghost predicate SafeUpload(c: Compress, u: Upload)
  {
    ObjectOk(c, u.disk) && (u.disk.row.state.Pending? ==> HasherOk(u))
  }

  ghost predicate SafeRun(c: Compress, r: Run)
  {
    SafeUpload(c, r.upload) && ObjectsOk(c, r)
  }

  ghost predicate ObjectsOk(c: Compress, r: Run)
  {
    forall d :: d in r.trace ==> ObjectOk(c, d)
  }

  lemma WriteKeepsObjects(c: Compress, r: Run, d: Disk)
    requires ObjectsOk(c, r) && ObjectOk(c, d)
    ensures ObjectsOk(c, r.Write(d))
  {
  }

  /** A partial at a checkpoint: it ends at the offset, and a raw upload's hasher has hashed it. */
  ghost predicate AtCheckpoint(c: Compress, r: Run)
  {
    var u := r.upload;
    && ObjectsOk(c, r) && ObjectOk(c, u.disk) && u.disk.row.state.Pending? && |u.disk.partial| == u.disk.row.offset
    && if u.disk.row.encoding.Raw? then u.memory.hasher == Some(u.disk.partial)
       else u.memory.decoder.Some? && HasherOk(u)
  }

  lemma TruncateSafe(c: Compress, r: Run, n: nat)
    requires ObjectsOk(c, r) && ObjectOk(c, r.upload.disk)
    ensures ObjectsOk(c, r.Truncate(n)) && ObjectOk(c, r.Truncate(n).upload.disk)
    ensures ObjectsOk(c, r.SetOffset(n)) && ObjectOk(c, r.SetOffset(n).upload.disk)
  {
    hide Root;
    WriteKeepsObjects(c, r, r.Truncate(n).upload.disk);
    WriteKeepsObjects(c, r, r.SetOffset(n).upload.disk);
  }

  lemma ReconcileSafe(c: Compress, r: Run)
    requires SafeRun(c, r) && r.upload.disk.row.state.Pending?
    ensures var o := Reconcile(r);
            SafeRun(c, o) && |o.upload.disk.partial| == o.upload.disk.row.offset && o.upload.disk.row.state.Pending?
            && o.upload.disk.row == r.upload.disk.row.(offset := o.upload.disk.row.offset)
  {
    hide Root;
    var d := r.upload.disk;
    if |d.partial| > d.row.offset {
      TruncateSafe(c, r, d.row.offset);
      assert Behind(r.Truncate(d.row.offset).upload.disk) == Behind(d);
    } else if |d.partial| < d.row.offset {
      TruncateSafe(c, r, 0);
      TruncateSafe(c, r.Truncate(0).Remember(r.upload.memory.(hasher := None)), 0);
    }
  }

  lemma OpenedSafe(c: Compress, r: Run)
    requires SafeRun(c, r) && r.upload.disk.row.state.Pending?
    ensures AtCheckpoint(c, Opened(c, r))
    ensures Opened(c, r).upload.disk.row == r.upload.disk.row.(offset := Opened(c, r).upload.disk.row.offset)
  {
    hide Root, Rederive, Reconcile, NewDecoder;
    ReconcileSafe(c, r);
    var m := Reconcile(r);
    var d := m.upload.disk;
    assert Behind(d) == d.partial == Clamp(d.partial, 0, d.row.offset);
    TruncateSafe(c, m, 0);
    TruncateSafe(c, m.Truncate(0), 0);
    assert Behind(m.Truncate(0).SetOffset(0).upload.disk) == [];
  }

  lemma ResetSafe(c: Compress, r: Run)
    requires ObjectsOk(c, r) && ObjectOk(c, r.upload.disk)
    ensures SafeRun(c, r.Reset()) && SafeRun(c, r.Truncate(0).Reset())
  {
    hide Root;
    TruncateSafe(c, r, 0);
    TruncateSafe(c, r.Truncate(0).Remember(FORGOTTEN), 0);
    TruncateSafe(c, r.Truncate(0), 0);
    TruncateSafe(c, r.Truncate(0).Truncate(0).Remember(FORGOTTEN), 0);
  }

  lemma FinalizedSafe(c: Compress, r: Run, bytes: seq<byte>)
    requires ObjectsOk(c, r) && ObjectOk(c, r.upload.disk) && r.upload.disk.row.state.Pending?
    requires Root(c, bytes) == r.upload.disk.row.digest
    ensures SafeRun(c, Finalized(r, bytes).0)
  {
    hide Root;
    var d := r.upload.disk;
    var d1 := d.(stored := Some(bytes), partial := if d.row.encoding.Raw? then [] else d.partial);
    var d2 := d1.(live := true, row := d1.row.(state := Consumed));
    WriteKeepsObjects(c, r, d1);
    WriteKeepsObjects(c, r.Write(d1), d2);
    WriteKeepsObjects(c, r.Write(d1).Write(d2), d2.(partial := []));
  }

  /** Promotion verifies the file: raw bytes by the hasher that hashed them, an encoding by decoding it once more. */
  lemma FinishedSafe(c: Compress, r: Run)
    requires AtCheckpoint(c, r)
    ensures SafeRun(c, Finished(c, r).0)
  {
    hide Root, Feed, Finalized, Run.Truncate, Run.Reset;
    ResetSafe(c, r);
    var row, s := r.upload.disk.row, r.upload.disk.partial;
    if row.encoding.Bao? {
      if DecodeToRaw(c, row, s).Some? {
        AcceptedIsVerified(c, row.digest, row.maxSize, s);
        FinalizedSafe(c, r, DecodeToRaw(c, row, s).value);
      }
    } else if Root(c, s) == row.digest {
      FinalizedSafe(c, r, s);
    }
  }

  lemma AppendSafe(c: Compress, r: Run, bytes: seq<byte>)
    requires ObjectsOk(c, r) && ObjectOk(c, r.upload.disk)
    ensures ObjectsOk(c, r.Append(bytes)) && ObjectOk(c, r.Append(bytes).upload.disk)
  {
    hide Root;
    forall t | t in TornStates(r.upload.disk, bytes) ensures ObjectOk(c, t)
    {
      var k :| 0 <= k < |bytes| && t == Torn(r.upload.disk, bytes, k + 1);
    }
  }

  /** Cutting the file back to the checkpoint it was appended to. */
  lemma RollBackSafe(c: Compress, r: Run, bytes: seq<byte>)
    requires AtCheckpoint(c, r)
    ensures SafeRun(c, r.Append(bytes).Truncate(r.upload.disk.row.offset))
  {
    hide Root, TornStates;
    AppendSafe(c, r, bytes);
    TruncateSafe(c, r.Append(bytes), r.upload.disk.row.offset);
    var d := r.upload.disk;
    assert (d.partial + bytes)[..|d.partial|] == d.partial;
    assert r.Append(bytes).Truncate(d.row.offset).upload.disk == d;
    assert Behind(d) == d.partial;
  }

  lemma RecordSafe(c: Compress, r: Run, taken: seq<byte>)
    requires AtCheckpoint(c, r) && Advance(c, r.upload, taken).Some?
    ensures var n := r.upload.disk.row.offset + |taken|;
            var o := r.Append(taken).SetOffset(n).Remember(Advance(c, r.upload, taken).value);
            AtCheckpoint(c, o) && SafeRun(c, o)
  {
    hide Root, Feed, TornStates;
    AppendSafe(c, r, taken);
    TruncateSafe(c, r.Append(taken), r.upload.disk.row.offset + |taken|);
    var p := r.upload.disk.partial + taken;
    assert p[..|p|] == p;
  }

  lemma IngestedSafe(c: Compress, sha: Sha, r: Run, claimed: seq<byte>, body: Body)
    requires AtCheckpoint(c, r)
    ensures SafeRun(c, Ingested(c, sha, r, claimed, body).0)
  {
    hide Root, Advance, Finished, Run.Truncate, Run.Reset, Run.Append, Run.SetOffset, AtCheckpoint, SafeRun;
    Restored(c, r);
    var taken := Taken(r.upload.disk.row, body);
    AppendSafe(c, r, taken);
    ResetSafe(c, r.Append(taken));
    RollBackSafe(c, r, taken);
    if Advance(c, r.upload, taken).Some? {
      RecordSafe(c, r, taken);
      var n := r.upload.disk.row.offset + |taken|;
      var o := r.Append(taken).SetOffset(n).Remember(Advance(c, r.upload, taken).value);
      Restored(c, o);
      FinishedSafe(c, o);
    }
  }

  lemma Restored(c: Compress, r: Run)
    requires AtCheckpoint(c, r)
    ensures var u := r.upload; if u.disk.row.encoding.Bao? then u.memory.decoder.Some? else u.memory.hasher.Some?
    ensures ObjectsOk(c, r) && ObjectOk(c, r.upload.disk)
  {
  }

  lemma CoreSafe(c: Compress, sha: Sha, r: Run, claimed: seq<byte>, reqOffset: nat, body: Body)
    requires SafeRun(c, r) && r.upload.disk.row.state.Pending?
    ensures SafeRun(c, CorePatched(c, sha, r, claimed, reqOffset, body).0)
  {
    hide Opened, Ingested, AtCheckpoint, SafeRun;
    if reqOffset == r.upload.disk.row.offset {
      OpenedSafe(c, r);
      IngestedSafe(c, sha, Opened(c, r), claimed, body);
    }
  }

  lemma LoadedSafe(c: Compress, r: Run, now: int)
    requires SafeRun(c, r)
    ensures SafeRun(c, Loaded(r, now).0)
  {
    hide Root;
    var d := r.upload.disk;
    if d.row.state.Pending? && now > d.row.expires {
      var expired := d.(row := d.row.(state := Expired));
      WriteKeepsObjects(c, r, expired);
      WriteKeepsObjects(c, r.Write(expired), expired.(partial := []));
    }
  }

  lemma BoundSafe(c: Compress, r: Run, enc: Option<Encoding>)
    requires SafeRun(c, r) && r.upload.disk.row.state.Pending?
    ensures SafeRun(c, EncodingBound(r, enc).0) && EncodingBound(r, enc).0.upload.disk.row.state.Pending?
  {
    hide Root;
    var d := r.upload.disk;
    if enc.Some? && enc.value != d.row.encoding && d.row.offset == 0 {
      WriteKeepsObjects(c, r, d.(row := d.row.(encoding := enc.value)));
    }
  }

  lemma AnswerSafe(c: Compress, sha: Sha, u: Upload, call: Call)
    requires SafeUpload(c, u)
    ensures SafeRun(c, Answer(c, sha, u, call).0)
  {
    hide CorePatched, Loaded, EncodingBound, SafeUpload;
    var r := Run(u, []);
    LoadedSafe(c, r, call.now);
    StandingIsPending(r, call.now);
    if Loaded(r, call.now).1.None? {
      match call
      case Remote(_, req) =>
        BoundSafe(c, r, req.encoding);
        if req.claimed.Some? && req.offset.Some? {
          CoreSafe(c, sha, EncodingBound(r, req.encoding).0, req.claimed.value, req.offset.value, req.body);
        }
      case Local(_, claimed, offset, body) => CoreSafe(c, sha, r, claimed, offset, body);
      case Probe(_, _) =>
    }
  }

  lemma StandingIsPending(r: Run, now: int)
    ensures Loaded(r, now).1.None? ==> Loaded(r, now).0 == r && r.upload.disk.row.state.Pending?
  {
  }

  // ----- the store -----

  ghost predicate SafeStore(c: Compress, s: Store)
  {
    && (forall g :: g in s.objects ==> Root(c, s.objects[g]) == g)
    && s.live <= s.objects.Keys
    && forall t :: t in s.rows ==> SafeUpload(c, View(s, t))
  }

  lemma PutSafe(c: Compress, s: Store, t: Token, u: Upload)
    requires SafeStore(c, s) && t in s.rows && SafeUpload(c, u) && Grows(View(s, t).disk, u.disk)
    ensures SafeStore(c, Put(s, t, u))
  {
    hide Root;
    var n := Put(s, t, u);
    forall t' | t' in n.rows ensures SafeUpload(c, View(n, t'))
    {
      if t' == t {
        assert View(n, t) == u;
      } else {
        OtherSafe(c, s, t, u, t');
      }
    }
  }

  lemma OtherSafe(c: Compress, s: Store, t: Token, u: Upload, t': Token)
    requires SafeStore(c, s) && t in s.rows && t' in s.rows && t' != t
    requires SafeUpload(c, u) && Grows(View(s, t).disk, u.disk)
    ensures SafeUpload(c, View(Put(s, t, u), t'))
  {
    hide Root;
    var before, after := View(s, t'), View(Put(s, t, u), t');
    assert after.memory == before.memory && after.disk.row == before.disk.row
           && after.disk.partial == before.disk.partial;
    assert SafeUpload(c, before);
  }

  lemma ForgetSafe(c: Compress, s: Store)
    requires SafeStore(c, s)
    ensures SafeStore(c, s.(memory := map[]))
  {
    hide Root;
    forall t | t in s.rows ensures SafeUpload(c, View(s.(memory := map[]), t))
    {
      assert SafeUpload(c, View(s, t));
    }
  }

  lemma LostSafe(c: Compress, u: Upload, keep: nat)
    requires SafeUpload(c, u) && keep <= |u.disk.partial|
    ensures SafeUpload(c, Lost(u, keep)) && Grows(u.disk, Lost(u, keep).disk)
  {
    hide Root;
    if u.disk.row.offset <= keep { assert Behind(Lost(u, keep).disk) == Behind(u.disk); }
  }

  lemma CrashedSafe(c: Compress, u: Upload, r: Run, k: nat)
    requires SafeUpload(c, u) && ObjectsOk(c, r)
    ensures SafeUpload(c, Upload(After(u, r.trace, k), FORGOTTEN))
  {
    hide Root;
    if 0 < k <= |r.trace| { assert After(u, r.trace, k) in r.trace; }
  }

  lemma ReserveSafe(c: Compress, s: Store, t: Token, row: Row)
    requires SafeStore(c, s) && t !in s.rows && row.state.Pending? && row.offset == 0
    ensures SafeStore(c,
            s.(rows := s.rows[t := row], partials := s.partials[t := []], memory := s.memory[t := FORGOTTEN]))
  {
    hide Root;
    var n := s.(rows := s.rows[t := row], partials := s.partials[t := []], memory := s.memory[t := FORGOTTEN]);
    forall t' | t' in n.rows ensures SafeUpload(c, View(n, t'))
    {
      if t' != t { assert View(n, t') == View(s, t'); }
    }
  }

  lemma NextSafe(c: Compress, sha: Sha, s: Store, e: Event)
    requires SafeStore(c, s)
    ensures SafeStore(c, Next(c, sha, s, e))
  {
    hide Answer, SafeUpload, Put, After, Root;
    if Possible(s, e) {
      match e
      case Reserve(t, digest, size, expires) => ReserveSafe(c, s, t, Row(digest, size, expires, Pending, 0, Raw));
      case Serve(t, call) =>
        if t in s.rows {
          AnswerSafe(c, sha, View(s, t), call);
          AnswerGrows(c, sha, View(s, t), call);
          PutSafe(c, s, t, Answer(c, sha, View(s, t), call).0.upload);
        }
      case CrashIn(t, call, k) =>
        ForgetSafe(c, s);
        if t in s.rows {
          AnswerSafe(c, sha, View(s, t), call);
          AnswerGrows(c, sha, View(s, t), call);
          var r := Answer(c, sha, View(s, t), call).0;
          CrashedSafe(c, View(s, t), r, k);
          CrashGrows(View(s, t), r, k);
          PutSafe(c, s, t, Upload(After(View(s, t), r.trace, k), FORGOTTEN));
          ForgetSafe(c, Put(s, t, Upload(After(View(s, t), r.trace, k), FORGOTTEN)));
        }
      case Restart => ForgetSafe(c, s);
      case Lose(t, keep) =>
        LostSafe(c, View(s, t), keep);
        PutSafe(c, s, t, Lost(View(s, t), keep));
    }
  }

  lemma CrashGrows(u: Upload, r: Run, k: nat)
    requires GrowsRun(u.disk, r)
    ensures Grows(u.disk, After(u, r.trace, k))
  {
    if 0 < k <= |r.trace| { assert After(u, r.trace, k) in r.trace; }
  }

  /**
   Over every run, with every loss of storage: an object is at its address, and live, only with bytes that hash to it,
   and a consumed token's object is live.
   */
  lemma {:induction false} ObjectsAreSafe(c: Compress, sha: Sha, s: Store, es: seq<Event>)
    requires SafeStore(c, s)
    ensures SafeStore(c, RunTo(c, sha, s, es))
    decreases |es|
  {
    hide SafeStore, Next;
    if es != [] {
      NextSafe(c, sha, s, es[0]);
      ObjectsAreSafe(c, sha, Next(c, sha, s, es[0]), es[1..]);
    }
  }
}
