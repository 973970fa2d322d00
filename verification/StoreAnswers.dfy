/** What each event does to a blob store with many uploads, and what a run is (server/bs/bs.go). */
module StoreAnswers {
  import opened Bytes
  import opened Blake3
  import opened BaoEncoder
  import opened BaoDecoder
  import opened Upload
  import opened UploadProofs
  import opened UploadRuns
  import opened Wrappers

  /** Nothing of any other token, and no object under another address, is touched. */
  ghost predicate OthersStand(s: Store, n: Store, t: Token, g: Digest)
  {
    && (forall u :: u != t ==> (u in n.rows <==> u in s.rows) && (u in n.partials <==> u in s.partials))
    && (forall u :: u in s.rows && u != t ==> n.rows[u] == s.rows[u])
    && (forall u :: u in s.partials && u != t ==> n.partials[u] == s.partials[u])
    && (forall h :: h != g ==> (h in n.objects <==> h in s.objects) && (h in n.live <==> h in s.live))
    && forall h :: h in s.objects && h != g ==> n.objects[h] == s.objects[h]
  }

  /** Nor are checkpoints of other tokens. */
  ghost predicate OthersRemember(s: Store, n: Store, t: Token)
  {
    forall u :: u != t ==> (u in n.memory <==> u in s.memory) && (u in s.memory ==> n.memory[u] == s.memory[u])
  }

  /** What an upload sees of the store. */
  lemma ViewIs(s: Store, t: Token)
    requires t in s.rows
    ensures var u := View(s, t);
            && u.disk.row == s.rows[t]
            && (t in s.partials ==> u.disk.partial == s.partials[t]) && (t !in s.partials ==> u.disk.partial == [])
            && (t in s.memory ==> u.memory == s.memory[t]) && (t !in s.memory ==> u.memory == Checkpoint(None, None))
            && (u.disk.live <==> s.rows[t].digest in s.live)
            && (s.rows[t].digest in s.objects ==> u.disk.stored == Some(s.objects[s.rows[t].digest]))
            && (s.rows[t].digest !in s.objects ==> u.disk.stored == None)
  {
  }

  /** A reservation under a new token is a pending row at offset zero with an empty file; a used token is refused. */
  lemma ReservedIs(c: Compress, sha: Sha, s: Store, t: Token, digest: Digest, size: Size, expires: int)
    ensures var n := Next(c, sha, s, Reserve(t, digest, size, expires));
            if t in s.rows then n == s
            else
              && OthersStand(s, n, t, digest) && OthersRemember(s, n, t)
              && n.objects == s.objects && n.live == s.live
              && t in n.rows && n.rows[t] == Row(digest, size, expires, Pending, 0, Raw)
              && View(n, t).disk.partial == [] && View(n, t).memory == Checkpoint(None, None)
  {
  }

  /** A request is refused under an unknown token; otherwise it changes its own upload, as that upload answers it. */
  lemma ServedIs(c: Compress, sha: Sha, s: Store, t: Token, call: Call)
    ensures var (n, reply) := Reached(c, sha, s, t, call);
            && Next(c, sha, s, Serve(t, call)) == n
            && (t !in s.rows ==> n == s && reply == Reply(0, false, Some(Problem(401, ReservationInvalid))))
            && (t in s.rows ==>
                  var (r, answer) := Answer(c, sha, View(s, t), call);
                  && reply == answer && t in n.rows && View(n, t) == r.upload
                  && OthersStand(s, n, t, s.rows[t].digest) && OthersRemember(s, n, t))
  {
    hide Answer, View, OthersStand, Put;
    if t in s.rows {
      var u := View(s, t);
      AnswerGrows(c, sha, u, call);
      ViewIs(s, t);
      PutIs(s, t, Answer(c, sha, u, call).0.upload);
    }
  }

  lemma PutIs(s: Store, t: Token, u: Upload)
    requires t in s.rows && u.disk.row.digest == s.rows[t].digest
    requires (View(s, t).disk.stored.Some? ==> u.disk.stored.Some?) && (View(s, t).disk.live ==> u.disk.live)
    ensures var n := Put(s, t, u);
            && t in n.rows && View(n, t) == u
            && OthersStand(s, n, t, s.rows[t].digest) && OthersRemember(s, n, t)
  {
  }

  /**
   A crash leaves one of the durable states that the request passes through, or the one before it, and no checkpoint of
   any upload.
   */
  lemma CrashedIs(c: Compress, sha: Sha, s: Store, t: Token, call: Call, k: nat)
    ensures var n := Next(c, sha, s, CrashIn(t, call, k));
            && n.memory == map[]
            && (t !in s.rows ==> n == s.(memory := map[]))
            && (t in s.rows ==>
                  var (u, trace) := (View(s, t), Answer(c, sha, View(s, t), call).0.trace);
                  && t in n.rows && OthersStand(s, n, t, s.rows[t].digest)
                  && View(n, t).disk == if 0 < k <= |trace| then trace[k - 1] else u.disk)
  {
    hide Answer, View, OthersStand, Put;
    if t in s.rows {
      var u := View(s, t);
      AnswerGrows(c, sha, u, call);
      var trace := Answer(c, sha, u, call).0.trace;
      var d := if 0 < k <= |trace| then trace[k - 1] else u.disk;
      assert Grows(u.disk, d) by { if 0 < k <= |trace| { assert d in trace; } }
      ViewIs(s, t);
      PutIs(s, t, Upload(d, Checkpoint(None, None)));
      Forgets(Put(s, t, Upload(d, Checkpoint(None, None))), s, t);
    }
  }

  lemma Forgets(n: Store, s: Store, t: Token)
    requires t in n.rows && t in s.rows
    ensures View(n.(memory := map[]), t).disk == View(n, t).disk
    ensures OthersStand(s, n, t, s.rows[t].digest) ==> OthersStand(s, n.(memory := map[]), t, s.rows[t].digest)
  {
  }

  /** A restart loses every checkpoint and nothing else; lost storage is the end of one file and nothing else. */
  lemma LostIs(c: Compress, sha: Sha, s: Store, t: Token, keep: nat)
    ensures Next(c, sha, s, Restart) == Store(s.rows, s.partials, map[], s.objects, s.live)
    ensures var n := Next(c, sha, s, Lose(t, keep));
            if t !in s.rows || keep > |View(s, t).disk.partial| then n == s
            else
              && OthersStand(s, n, t, s.rows[t].digest) && OthersRemember(s, n, t) && t in n.rows
              && View(n, t) == Upload(View(s, t).disk.(partial := View(s, t).disk.partial[..keep]), View(s, t).memory)
  {
    hide OthersStand, Put;
    if t in s.rows && keep <= |View(s, t).disk.partial| {
      PutIs(s, t, Lost(View(s, t), keep));
    }
  }

  /** A loss leaves a sound store with a pending upload sound exactly when it is not the unnoticed one. */
  lemma SoundExactlyUnlessUnnoticed(c: Compress, sha: Sha, s: Store, t: Token, keep: nat)
    requires StoreOk(c, s) && t in s.rows && s.rows[t].state.Pending? && keep <= |View(s, t).disk.partial|
    ensures StoreOk(c, Next(c, sha, s, Lose(t, keep)))
            <==> !(s.rows[t].encoding.Bao? && View(s, t).memory.decoder.Some? && keep < s.rows[t].offset)
    ensures StoreOk(c, Next(c, sha, s, Lose(t, keep))) <==> !Unnoticed(s, Lose(t, keep))
  {
    hide Root, Rederive, EffTotal, Next;
    ViewIs(s, t);
    LostIs(c, sha, s, t, keep);
    if Unnoticed(s, Lose(t, keep)) {
      var n := Next(c, sha, s, Lose(t, keep));
      assert !UploadOk(c, View(n, t));
    } else {
      NextOk(c, sha, s, Lose(t, keep));
    }
  }

  /** A run takes its events one after the other. */
  lemma {:induction false} RunIs(c: Compress, sha: Sha, s: Store, es: seq<Event>, e: Event)
    ensures RunTo(c, sha, s, []) == s && NoticedRun(c, sha, s, [])
    ensures RunTo(c, sha, s, es + [e]) == Next(c, sha, RunTo(c, sha, s, es), e)
    ensures NoticedRun(c, sha, s, es + [e])
            <==> NoticedRun(c, sha, s, es) && !Unnoticed(RunTo(c, sha, s, es), e)
    decreases |es|
  {
    hide Next, Unnoticed;
    if es == [] {
      assert [] + [e] == [e] && [e][1..] == [];
    } else {
      assert (es + [e])[1..] == es[1..] + [e];
      RunIs(c, sha, Next(c, sha, s, es[0]), es[1..], e);
    }
  }
}
