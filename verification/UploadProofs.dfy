/** What every upload keeps through every request, crash and restart (server/bs/bs.go:267-613). */
module UploadProofs {
  import opened Bytes
  import opened Blake3
  import opened BaoEncoder
  import opened BaoDecoder
  import opened BaoProofs
  import opened Upload
  import opened Wrappers

  /** The object at the address verifies, and a consumed token's object is live. */
  ghost predicate ObjectOk(c: Compress, d: Disk)
  {
    && (d.stored.Some? ==> Root(c, d.stored.value) == d.row.digest)
    && (d.live ==> d.stored.Some?)
    && (d.row.state.Consumed? ==> d.live)
  }

  /** The bytes behind the durable offset. */
  function Behind(d: Disk): seq<byte>
  {
    Clamp(d.partial, 0, d.row.offset)
  }

  ghost predicate DiskOk(c: Compress, d: Disk)
  {
    && ObjectOk(c, d)
    && d.row.offset <= EffTotal(d.row)
    && (d.row.state.Pending? && d.row.encoding.Bao? && d.row.offset <= |d.partial|
        ==> Rederive(c, d.row.digest, d.row.maxSize, Behind(d)).Some?)
  }

  /** A checkpoint in memory is the one the partial's first offset bytes determine. */
  ghost predicate MemoryOk(c: Compress, u: Upload)
  {
    var d := u.disk;
    d.row.state.Pending? ==>
      && (u.memory.hasher.Some? ==> d.row.encoding.Raw? || d.row.offset == 0)
      && (u.memory.hasher.Some? && d.row.offset <= |d.partial| ==> u.memory.hasher.value == Behind(d))
      && (u.memory.decoder.Some? ==> d.row.encoding.Bao? || d.row.offset == 0)
      && (u.memory.decoder.Some?
        ==> d.row.offset <= |d.partial| && Rederive(c, d.row.digest, d.row.maxSize, Behind(d)) == u.memory.decoder)
  }

  ghost predicate UploadOk(c: Compress, u: Upload)
  {
    DiskOk(c, u.disk) && MemoryOk(c, u)
  }

  /** Every durable state passed through is sound, and so is the present one. */
  ghost predicate RunOk(c: Compress, r: Run)
  {
    UploadOk(c, r.upload) && forall d :: d in r.trace ==> DiskOk(c, d)
  }

  /** The verifier in memory is exactly what re-deriving it would give. */
  ghost predicate CheckpointExact(c: Compress, u: Upload)
  {
    var d := u.disk;
    d.row.offset <= |d.partial|
    && if d.row.encoding.Bao?
      then u.memory.decoder.Some? && Rederive(c, d.row.digest, d.row.maxSize, Behind(d)) == u.memory.decoder
       else u.memory.hasher == Some(Behind(d))
  }

  lemma NothingDerived(c: Compress, digest: Digest, size: Size)
    ensures Rederive(c, digest, size, []) == Some(NewDecoder(digest, size))
  {
  }

  /** What a checkpoint takes next continues what the partial already holds. */
  lemma RederiveMore(c: Compress, digest: Digest, size: Size, p: seq<byte>, more: seq<byte>)
    requires Rederive(c, digest, size, p).Some?
    ensures var o := Feed(c, Rederive(c, digest, size, p).value, more);
            Rederive(c, digest, size, p + more) == if o.error.Some? then None else Some(o.state)
  {
    hide Feed;
    FeedConcat(c, NewDecoder(digest, size), p, more);
  }

  /** The state after one more durable write. */
  lemma WriteOk(c: Compress, r: Run, d: Disk)
    requires RunOk(c, r) && UploadOk(c, r.upload.(disk := d))
    ensures RunOk(c, r.Write(d))
  {
    hide DiskOk, MemoryOk;
  }

  /** Truncating to the offset or beyond keeps everything behind it. */
  lemma TruncateBeyond(c: Compress, r: Run, n: nat)
    requires RunOk(c, r) && r.upload.disk.row.offset <= n <= |r.upload.disk.partial|
    ensures RunOk(c, r.Truncate(n)) && Behind(r.Truncate(n).upload.disk) == Behind(r.upload.disk)
    ensures r.Truncate(n).upload.disk == r.upload.disk.(partial := r.upload.disk.partial[..n])
  {
    hide Rederive, EncodedSize, Root;
    var d := r.upload.disk;
    assert Clamp(d.partial, 0, n) == d.partial[..n];
    assert d.partial[..n][..d.row.offset] == d.partial[..d.row.offset];
    WriteOk(c, r, d.(partial := d.partial[..n]));
  }

  /** With no decoder in memory an upload can start over. */
  lemma RestartOk(c: Compress, r: Run, m: Checkpoint)
    requires RunOk(c, r) && r.upload.memory.decoder.None? && m == r.upload.memory.(hasher := None)
    ensures RunOk(c, r.Truncate(0).Remember(m).SetOffset(0))
    ensures r.Truncate(0).Remember(m).SetOffset(0).upload
            == Upload(r.upload.disk.(partial := [], row := r.upload.disk.row.(offset := 0)), m)
  {
    hide Rederive, EncodedSize, Root;
    var d := r.upload.disk;
    NothingDerived(c, d.row.digest, d.row.maxSize);
    assert Clamp(d.partial, 0, 0) == [];
    var r1 := r.Truncate(0).Remember(m);
    assert r1.upload.disk == d.(partial := []) && r1.trace == r.trace + [d.(partial := [])];
    assert DiskOk(c, d.(partial := []));
    assert RunOk(c, r1);
    WriteOk(c, r1, d.(partial := [], row := d.row.(offset := 0)));
  }

  lemma ReconcileOk(c: Compress, r: Run)
    requires RunOk(c, r) && r.upload.disk.row.state.Pending?
    ensures var o := Reconcile(r);
            RunOk(c, o) && |o.upload.disk.partial| == o.upload.disk.row.offset
            && o.upload.disk.row == r.upload.disk.row.(offset := o.upload.disk.row.offset)
            && o.upload.disk.stored == r.upload.disk.stored && o.upload.disk.live == r.upload.disk.live
    ensures r.upload.disk.row.offset <= |r.upload.disk.partial| ==>
              Reconcile(r).upload.disk == r.upload.disk.(partial := Behind(r.upload.disk))
  {
    hide Rederive, EncodedSize, Root;
    var d := r.upload.disk;
    if |d.partial| > d.row.offset {
      TruncateBeyond(c, r, d.row.offset);
    } else if |d.partial| < d.row.offset {
      RestartOk(c, r, r.upload.memory.(hasher := None));
    }
  }

  /** openCheckpoint of a pending upload: the partial ends at the offset and the checkpoint is exact. */
  lemma OpenedOk(c: Compress, r: Run)
    requires RunOk(c, r) && r.upload.disk.row.state.Pending?
    ensures var o := Opened(c, r);
            RunOk(c, o) && CheckpointExact(c, o.upload) && |o.upload.disk.partial| == o.upload.disk.row.offset
            && o.upload.disk.row == r.upload.disk.row.(offset := o.upload.disk.row.offset)
            && o.upload.disk.stored == r.upload.disk.stored && o.upload.disk.live == r.upload.disk.live
    ensures r.upload.disk.row.offset <= |r.upload.disk.partial| ==>
              Opened(c, r).upload.disk == r.upload.disk.(partial := Behind(r.upload.disk))
  {
    hide Rederive, NewDecoder, Root, EncodedSize, Reconcile, Run.Truncate, Run.SetOffset;
    ReconcileOk(c, r);
  }

  // ----- taking a body -----

  /** Every durable state so far is sound, whatever the memory holds. */
  ghost predicate TraceOk(c: Compress, r: Run)
  {
    DiskOk(c, r.upload.disk) && forall d :: d in r.trace ==> DiskOk(c, d)
  }

  lemma TraceWrite(c: Compress, r: Run, d: Disk)
    requires TraceOk(c, r) && DiskOk(c, d)
    ensures TraceOk(c, r.Write(d))
  {
    hide DiskOk;
  }

  /** Discarding the partial and the checkpoint is always sound, at every point on the way. */
  lemma DiscardOk(c: Compress, r: Run)
    requires TraceOk(c, r)
    ensures TraceOk(c, r.Truncate(0)) && RunOk(c, r.Reset()) && RunOk(c, r.Truncate(0).Reset())
    ensures r.Truncate(0).Reset().upload.disk == r.upload.disk.(partial := [], row := r.upload.disk.row.(offset := 0))
    ensures r.Reset().upload.disk == r.upload.disk.(partial := [], row := r.upload.disk.row.(offset := 0))
  {
    hide Rederive, EncodedSize, Root;
    var d := r.upload.disk;
    NothingDerived(c, d.row.digest, d.row.maxSize);
    var empty := d.(partial := []);
    var zero := d.(partial := [], row := d.row.(offset := 0));
    TraceWrite(c, r, empty);
    TraceWrite(c, r.Write(empty), zero);
    TraceWrite(c, r.Write(empty).Write(empty), zero);
    TraceWrite(c, r.Write(empty), empty);
    assert r.Truncate(0) == r.Write(empty);
    assert r.Truncate(0).Truncate(0) == r.Write(empty).Write(empty);
  }

  /** Whatever part of the appended bytes reaches the file, the bytes behind the offset stand. */
  lemma AppendOk(c: Compress, r: Run, bytes: seq<byte>)
    requires RunOk(c, r) && r.upload.disk.row.offset == |r.upload.disk.partial|
    ensures RunOk(c, r.Append(bytes))
    ensures Behind(r.Append(bytes).upload.disk) == r.upload.disk.partial
  {
    hide Rederive, EncodedSize, Root;
    var d := r.upload.disk;
    assert Behind(d) == d.partial;
    assert Behind(r.Append(bytes).upload.disk) == d.partial;
    forall t | t in TornStates(d, bytes)
      ensures DiskOk(c, t)
    {
      var k :| 0 <= k < |bytes| && t == Torn(d, bytes, k + 1);
      assert Behind(t) == d.partial;
    }
  }

  /** The working verifier after the taken bytes is the one the longer partial determines. */
  lemma AdvanceExact(c: Compress, u: Upload, taken: seq<byte>)
    requires CheckpointExact(c, u) && |u.disk.partial| == u.disk.row.offset
    ensures Advance(c, u, taken).Some? ==>
              var d := u.disk.(partial := u.disk.partial + taken,
                  row := u.disk.row.(offset := u.disk.row.offset + |taken|));
              CheckpointExact(c, Upload(d, Advance(c, u, taken).value))
              && (d.row.encoding.Bao? ==> Advance(c, u, taken).value.hasher.None?)
              && (d.row.encoding.Raw? ==> Advance(c, u, taken).value.decoder.None?)
  {
    hide Feed, Rederive;
    var longer := u.disk.(partial := u.disk.partial + taken, row := u.disk.row.(offset := u.disk.row.offset + |taken|));
    assert Behind(u.disk) == u.disk.partial && Behind(longer) == longer.partial;
    if u.disk.row.encoding.Bao? {
      RederiveMore(c, u.disk.row.digest, u.disk.row.maxSize, u.disk.partial, taken);
    }
  }

  /** Recording the new offset and the advanced verifier together. */
  lemma RecordOk(c: Compress, r: Run, taken: seq<byte>)
    requires RunOk(c, r) && CheckpointExact(c, r.upload) && |r.upload.disk.partial| == r.upload.disk.row.offset
    requires |taken| <= Room(r.upload.disk.row) && Advance(c, r.upload, taken).Some?
    ensures var n := r.upload.disk.row.offset + |taken|;
            var o := r.Append(taken).SetOffset(n).Remember(Advance(c, r.upload, taken).value);
            RunOk(c, o) && CheckpointExact(c, o.upload)
  {
    hide Rederive, EncodedSize, Root, Advance, TornStates;
    AppendOk(c, r, taken);
    AdvanceExact(c, r.upload, taken);
    var d := r.Append(taken).upload.disk;
    var n := r.upload.disk.row.offset + |taken|;
    assert DiskOk(c, d.(row := d.row.(offset := n)));
    TraceWrite(c, r.Append(taken), d.(row := d.row.(offset := n)));
  }

  // ----- completion -----

  /** Promotion of verified bytes, then the commit that makes them live and consumes the token. */
  lemma FinalizedOk(c: Compress, r: Run, bytes: seq<byte>)
    requires RunOk(c, r) && r.upload.disk.row.state.Pending? && Root(c, bytes) == r.upload.disk.row.digest
    ensures var o := Finalized(r, bytes);
            RunOk(c, o.0) && o.1 == Reply(r.upload.disk.row.offset, true, None)
            && o.0.upload.disk.live && o.0.upload.disk.stored == Some(bytes) && o.0.upload.disk.row.state.Consumed?
  {
    hide Rederive, EncodedSize, Root;
    var d := r.upload.disk;
    NothingDerived(c, d.row.digest, d.row.maxSize);
    var moved := d.row.encoding.Raw?;
    var d1 := d.(stored := Some(bytes), partial := if moved then [] else d.partial);
    var d2 := d1.(live := true, row := d1.row.(state := Consumed));
    assert Behind(d.(partial := [])) == [];
    TraceWrite(c, r, d1);
    TraceWrite(c, r.Write(d1), d2);
    TraceWrite(c, r.Write(d1).Write(d2), d2.(partial := []));
  }

  /** At full length: either everything starts over, or bytes that hash to the digest are live. */
  lemma FinishedOk(c: Compress, r: Run)
    requires RunOk(c, r) && r.upload.disk.row.state.Pending? && CheckpointExact(c, r.upload)
    requires r.upload.disk.row.offset == |r.upload.disk.partial| == EffTotal(r.upload.disk.row)
    ensures var (o, reply) := Finished(c, r);
            RunOk(c, o)
            && if reply.verified then
                 reply == Reply(r.upload.disk.row.offset, true, None) && o.upload.disk.row.state.Consumed?
                 && o.upload.disk.live && o.upload.disk.stored.Some?
                 && |o.upload.disk.stored.value| == r.upload.disk.row.maxSize
               else
                 reply.offset == 0 && reply.problem in {Some(Problem(422, BaoVerifyFailed)),
                   Some(Problem(422, HashMismatch))}
                 && o.upload.disk.row == r.upload.disk.row.(offset := 0)
                 && o.upload.disk.live == r.upload.disk.live && o.upload.disk.stored == r.upload.disk.stored
  {
    hide Root, Feed, EncodedSize, Finalized, Run.Truncate, Run.Reset;
    DiscardOk(c, r);
    var row := r.upload.disk.row;
    assert Behind(r.upload.disk) == r.upload.disk.partial;
    if Verifies(c, row, r.upload.memory) {
      if row.encoding.Bao? {
        var raw := DecodeToRaw(c, row, r.upload.disk.partial);
        if raw.Some? {
          AcceptedIsVerified(c, row.digest, row.maxSize, r.upload.disk.partial);
          FinalizedOk(c, r, raw.value);
        }
      } else {
        FinalizedOk(c, r, r.upload.disk.partial);
      }
    }
  }

  /** One body: sound at every durable state; a refusal of the request's digest leaves the disk as it was. */
  lemma IngestedOk(c: Compress, sha: Sha, r: Run, claimed: seq<byte>, body: Body)
    requires RunOk(c, r) && r.upload.disk.row.state.Pending? && CheckpointExact(c, r.upload)
    requires |r.upload.disk.partial| == r.upload.disk.row.offset
    ensures var (o, reply) := Ingested(c, sha, r, claimed, body);
            RunOk(c, o)
            && (reply.verified ==>
                  o.upload.disk.live && o.upload.disk.stored.Some? && o.upload.disk.row.state.Consumed?
                  && |o.upload.disk.stored.value| == r.upload.disk.row.maxSize)
            && (reply.problem == Some(Problem(422, DigestMismatch)) ==> o.upload.disk == r.upload.disk)
  {
    hide Root, Feed, Rederive, EncodedSize, Finished, Advance, Run.Truncate, Run.Reset, TornStates;
    var taken := Taken(r.upload.disk.row, body);
    AppendOk(c, r, taken);
    var filled := r.Append(taken);
    DiscardOk(c, filled);
    TruncateBeyond(c, filled, r.upload.disk.row.offset);
    assert filled.upload.disk.partial[..r.upload.disk.row.offset] == r.upload.disk.partial;
    if Advance(c, r.upload, taken).Some? {
      RecordOk(c, r, taken);
      var recorded := filled.SetOffset(r.upload.disk.row.offset + |taken|).Remember(Advance(c, r.upload, taken).value);
      if recorded.upload.disk.row.offset == EffTotal(r.upload.disk.row) { FinishedOk(c, recorded); }
    }
  }

  // ----- the doors -----

  lemma LoadedOk(c: Compress, r: Run, now: int)
    requires RunOk(c, r)
    ensures RunOk(c, Loaded(r, now).0)
    ensures Loaded(r, now).1.None? ==> Loaded(r, now).0 == r && r.upload.disk.row.state.Pending?
    ensures Loaded(r, now).1.Some? ==> Loaded(r, now).1.value.status == 410
  {
    hide Rederive, EncodedSize, Root;
    var d := r.upload.disk;
    if d.row.state.Pending? && now > d.row.expires {
      var expired := d.(row := d.row.(state := Expired));
      TraceWrite(c, r, expired);
      TraceWrite(c, r.Write(expired), expired.(partial := []));
    }
  }

  lemma EncodingBoundOk(c: Compress, r: Run, enc: Option<Encoding>)
    requires RunOk(c, r) && r.upload.disk.row.state.Pending?
    ensures var (o, problem) := EncodingBound(r, enc);
            RunOk(c, o) && (problem.Some? ==> o == r && problem.value.code.Malformed?)
            && o.upload.disk == r.upload.disk.(row := r.upload.disk.row.(encoding := o.upload.disk.row.encoding))
  {
    hide Rederive, EncodedSize, Root;
    var d := r.upload.disk;
    if enc.Some? && enc.value != d.row.encoding && d.row.offset == 0 {
      NothingDerived(c, d.row.digest, d.row.maxSize);
      var other := d.(row := d.row.(encoding := enc.value));
      assert Behind(other) == [] == Behind(d);
      WriteOk(c, r, other);
    }
  }

  lemma CorePatchedOk(c: Compress, sha: Sha, r: Run, claimed: seq<byte>, reqOffset: nat, body: Body)
    requires RunOk(c, r) && r.upload.disk.row.state.Pending?
    ensures var (o, reply) := CorePatched(c, sha, r, claimed, reqOffset, body);
            RunOk(c, o) && (reply.verified ==> VerifiedLive(o, r.upload.disk.row.maxSize))
            && (reply.problem == Some(Problem(422, DigestMismatch))
                && r.upload.disk.row.offset <= |r.upload.disk.partial|
                ==> o.upload.disk == r.upload.disk.(partial := Behind(r.upload.disk)))
  {
    hide Opened, Ingested, DiskOk, MemoryOk, CheckpointExact;
    if reqOffset == r.upload.disk.row.offset {
      OpenedOk(c, r);
      IngestedOk(c, sha, Opened(c, r), claimed, body);
    }
  }

  /** What a verified reply promises: an object of the declared size is live and the token is spent. */
  predicate VerifiedLive(r: Run, size: nat)
  {
    var d := r.upload.disk;
    d.live && d.row.state.Consumed? && d.stored.Some? && |d.stored.value| == size
  }

  /**
   A PATCH keeps every upload sound at every durable state it passes through; a verified reply means a live object of
   the declared size; a digest failure at an intact checkpoint leaves row, bytes behind the offset and object as they
   were.
   */
  lemma PatchedOk(c: Compress, sha: Sha, r: Run, now: int, req: Request)
    requires RunOk(c, r)
    ensures var (o, reply) := Patched(c, sha, r, now, req);
            RunOk(c, o) && (reply.verified ==> VerifiedLive(o, r.upload.disk.row.maxSize))
            && (reply.problem == Some(Problem(422, DigestMismatch))
                && r.upload.disk.row.offset <= |r.upload.disk.partial|
                ==> o.upload.disk.(row := r.upload.disk.row) == r.upload.disk.(partial := Behind(r.upload.disk))
                    && o.upload.disk.row.(encoding := r.upload.disk.row.encoding) == r.upload.disk.row)
  {
    hide CorePatched, EncodingBound, Loaded, DiskOk, MemoryOk;
    LoadedOk(c, r, now);
    var (loaded, gone) := Loaded(r, now);
    if gone.None? && req.claimed.Some? && req.offset.Some? {
      EncodingBoundOk(c, r, req.encoding);
      var (bound, switched) := EncodingBound(r, req.encoding);
      if switched.None? { CorePatchedOk(c, sha, bound, req.claimed.value, req.offset.value, req.body); }
    }
  }

  lemma LocalPatchedOk(c: Compress, sha: Sha, r: Run, now: int, claimed: seq<byte>, reqOffset: nat, body: Body)
    requires RunOk(c, r)
    ensures var (o, reply) := LocalPatched(c, sha, r, now, claimed, reqOffset, body);
            RunOk(c, o) && (reply.verified ==> VerifiedLive(o, r.upload.disk.row.maxSize))
  {
    hide CorePatched, Loaded, DiskOk, MemoryOk;
    LoadedOk(c, r, now);
    if Loaded(r, now).1.None? { CorePatchedOk(c, sha, r, claimed, reqOffset, body); }
  }

  // ----- lost storage -----

  /** Losing the end of the partial's file. */
  function Lost(u: Upload, keep: nat): Upload
    requires keep <= |u.disk.partial|
  {
    u.(disk := u.disk.(partial := u.disk.partial[..keep]))
  }

  /** A decoder that has taken a byte is not a fresh one. */
  lemma FedIsNotFresh(c: Compress, digest: Digest, size: Size, p: seq<byte>)
    requires p != [] && Rederive(c, digest, size, p).Some?
    ensures Rederive(c, digest, size, p).value != NewDecoder(digest, size)
  {
    hide Feed;
    FeedRemaining(c, NewDecoder(digest, size), p);
  }

  /**
   After storage is lost, reopening restores an exact checkpoint if and only if it was not an mlp-bao upload whose
   decoder is still in memory and whose file no longer reaches the offset: that branch clears the hasher only.
   */
  lemma LossIsHealedExactlyWhen(c: Compress, u: Upload, keep: nat)
    requires UploadOk(c, u) && u.disk.row.state.Pending? && keep <= |u.disk.partial|
    ensures CheckpointExact(c, Opened(c, Run(Lost(u, keep), [])).upload)
            <==> !(u.disk.row.encoding.Bao? && u.memory.decoder.Some? && keep < u.disk.row.offset)
  {
    hide Rederive, EncodedSize, Root, NewDecoder;
    var lost := Lost(u, keep);
    var d := u.disk;
    if d.row.offset <= keep {
      assert Behind(lost.disk) == Behind(d);
      OpenedOk(c, Run(lost, []));
    } else if d.row.encoding.Bao? && u.memory.decoder.Some? {
      NothingDerived(c, d.row.digest, d.row.maxSize);
      FedIsNotFresh(c, d.row.digest, d.row.maxSize, Behind(d));
    } else {
      OpenedOk(c, Run(lost, []));
    }
  }

  /**
   A body is taken in at the offset the request names if and only if the file still reaches that offset: the degrade
   to zero happens after the offset has been compared.
   */
  lemma BodyLandsAtItsOffsetExactlyWhen(c: Compress, u: Upload)
    requires UploadOk(c, u) && u.disk.row.state.Pending?
    ensures Opened(c, Run(u, [])).upload.disk.row.offset == u.disk.row.offset <==> u.disk.row.offset <= |u.disk.partial|
  {
    hide Rederive, EncodedSize, Root;
    if u.disk.row.offset <= |u.disk.partial| { OpenedOk(c, Run(u, [])); }
  }
}
