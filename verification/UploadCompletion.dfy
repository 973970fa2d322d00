/** Exactly which request completes an upload, and with which object (server/bs/bs.go:245-440). */
module UploadCompletion {
  import opened Bytes
  import opened Blake3
  import opened BaoEncoder
  import opened BaoDecoder
  import opened BaoProofs
  import opened Upload
  import opened UploadProofs
  import opened Wrappers

  /** What a row reserves, and in which encoding. */
  datatype Terms = Terms(digest: Digest, size: Size, encoding: Encoding)

  function TermsOf(row: Row): Terms
  {
    Terms(row.digest, row.maxSize, row.encoding)
  }

  /** s is what an upload of content sends, and content is what was reserved. */
  ghost predicate Carries(c: Compress, t: Terms, s: seq<byte>, content: seq<byte>)
  {
    |content| == t.size && Root(c, content) == t.digest && s == if t.encoding.Bao? then Encode(c, content) else content
  }

  ghost predicate CarriesSome(c: Compress, t: Terms, s: seq<byte>)
  {
    exists content :: Carries(c, t, s, content)
  }

  /** A complete mlp-bao partial decodes exactly when it is the encoding of what the row reserves. */
  lemma BaoCarries(c: Compress, row: Row, s: seq<byte>)
    requires row.encoding.Bao?
    ensures DecodeToRaw(c, row, s).Some? <==> CarriesSome(c, TermsOf(row), s)
    ensures DecodeToRaw(c, row, s).Some? ==> Carries(c, TermsOf(row), s, DecodeToRaw(c, row, s).value)
  {
    hide Feed, Root, Encode;
    AcceptsExactlyEncodings(c, row.digest, row.maxSize, s);
    assert Accepts(c, row.digest, row.maxSize, s) <==> DecodeToRaw(c, row, s).Some?;
    if DecodeToRaw(c, row, s).Some? {
      AcceptedIsVerified(c, row.digest, row.maxSize, s);
      assert Carries(c, TermsOf(row), s, DecodeToRaw(c, row, s).value);
    }
  }

  lemma RawCarries(c: Compress, row: Row, s: seq<byte>)
    requires row.encoding.Raw? && |s| == row.maxSize
    ensures CarriesSome(c, TermsOf(row), s) <==> Root(c, s) == row.digest
    ensures CarriesSome(c, TermsOf(row), s) ==> Carries(c, TermsOf(row), s, s)
  {
    hide Root;
    if Root(c, s) == row.digest { assert Carries(c, TermsOf(row), s, s); }
  }

  /** At full length the upload completes if and only if the partial carries what the row reserves. */
  lemma FinishedExactlyWhen(c: Compress, r: Run)
    requires RunOk(c, r) && r.upload.disk.row.state.Pending? && CheckpointExact(c, r.upload)
    requires r.upload.disk.row.offset == |r.upload.disk.partial| == EffTotal(r.upload.disk.row)
    ensures var t, s := TermsOf(r.upload.disk.row), r.upload.disk.partial;
            var (o, reply) := Finished(c, r);
            && (reply.verified <==> CarriesSome(c, t, s))
            && (reply.verified ==> o.upload.disk.stored.Some? && Carries(c, t, s, o.upload.disk.stored.value))
  {
    hide Feed, Root, Encode, EncodedSize, Run.Truncate, Run.Reset, Finalized, CarriesSome, DiskOk, MemoryOk;
    var row, s := r.upload.disk.row, r.upload.disk.partial;
    assert Behind(r.upload.disk) == s;
    if row.encoding.Bao? {
      BaoCarries(c, row, s);
      if DecodeToRaw(c, row, s).Some? { FinalizedOk(c, r, DecodeToRaw(c, row, s).value); }
    } else {
      RawCarries(c, row, s);
      if Root(c, s) == row.digest { FinalizedOk(c, r, s); }
    }
  }

  /** What carries an object is taken by the verifier. */
  lemma CarriedAdvances(c: Compress, u: Upload, bytes: seq<byte>)
    requires CheckpointExact(c, u) && |u.disk.partial| == u.disk.row.offset
    requires CarriesSome(c, TermsOf(u.disk.row), u.disk.partial + bytes)
    ensures Advance(c, u, bytes).Some?
  {
    hide Feed, Root, Encode, EncodedSize, Carries, CarriesSome;
    var row := u.disk.row;
    assert Behind(u.disk) == u.disk.partial;
    if row.encoding.Bao? {
      BaoCarries(c, row, u.disk.partial + bytes);
      RederiveMore(c, row.digest, row.maxSize, u.disk.partial, bytes);
    }
  }

  /** A body completes the upload exactly when it is all that was missing, as claimed, and right. */
  lemma IngestedExactlyWhen(c: Compress, sha: Sha, r: Run, claimed: seq<byte>, body: Body)
    requires RunOk(c, r) && r.upload.disk.row.state.Pending? && CheckpointExact(c, r.upload)
    requires |r.upload.disk.partial| == r.upload.disk.row.offset
    ensures var row, s := r.upload.disk.row, r.upload.disk.partial + body.bytes;
            var (o, reply) := Ingested(c, sha, r, claimed, body);
            && (reply.verified <==>
                  |body.bytes| == Room(row) && sha(body.bytes) == claimed && CarriesSome(c, TermsOf(row), s))
            && (reply.verified ==>
                  o.upload.disk.stored.Some? && Carries(c, TermsOf(row), s, o.upload.disk.stored.value))
  {
    hide Root, Feed, Rederive, EncodedSize, Finished, Advance, Run.Truncate, Run.Reset, TornStates, Carries,
      CarriesSome;
    var row := r.upload.disk.row;
    if |body.bytes| == Room(row) {
      assert Taken(row, body) == body.bytes;
      if CarriesSome(c, TermsOf(row), r.upload.disk.partial + body.bytes) { CarriedAdvances(c, r.upload, body.bytes); }
      if Advance(c, r.upload, body.bytes).Some? {
        RecordOk(c, r, body.bytes);
        var n := row.offset + |body.bytes|;
        var recorded := r.Append(body.bytes).SetOffset(n).Remember(Advance(c, r.upload, body.bytes).value);
        FinishedExactlyWhen(c, recorded);
      }
    }
  }

  /** What a request continues: the bytes behind the offset, or nothing when the file does not reach it. */
  function Kept(d: Disk): seq<byte>
  {
    if d.row.offset <= |d.partial| then Behind(d) else []
  }

  /** The row as the request would have it. */
  function Rebound(row: Row, enc: Option<Encoding>): Row
  {
    row.(encoding := if enc.Some? then enc.value else row.encoding)
  }

  /** What a PATCH must be to complete a pending upload. */
  ghost predicate Completing(c: Compress, sha: Sha, d: Disk, now: int, req: Request)
  {
    var row := Rebound(d.row, req.encoding);
    && d.row.state.Pending? && now <= d.row.expires && req.signed
    && req.claimed == Some(sha(req.body.bytes)) && req.offset == Some(d.row.offset)
    && (row.encoding == d.row.encoding || d.row.offset == 0)
    && |req.body.bytes| == EffTotal(row) - |Kept(d)| && CarriesSome(c, TermsOf(row), Kept(d) + req.body.bytes)
  }

  /**
   A PATCH of a sound upload answers verified if and only if the reservation stands, the request is signed and well-
   formed, it starts at the recorded offset in an encoding it may use, its body has the claimed digest and is exactly
   what was missing, and together with what the file holds of the recorded bytes it is, in that encoding, an object of
   the reserved size and digest; that object is then the one stored.
   */
  lemma VerifiedExactlyWhen(c: Compress, sha: Sha, r: Run, now: int, req: Request)
    requires RunOk(c, r)
    ensures var d := r.upload.disk;
            var (o, reply) := Patched(c, sha, r, now, req);
            && (reply.verified <==> Completing(c, sha, d, now, req))
            && (reply.verified ==>
                  o.upload.disk.stored.Some?
                  && Carries(c, TermsOf(Rebound(d.row, req.encoding)), Kept(d) + req.body.bytes,
                    o.upload.disk.stored.value))
  {
    hide CorePatched, DiskOk, MemoryOk, Carries, CarriesSome, Run.Truncate, EffTotal;
    LoadedOk(c, r, now);
    var (loaded, gone) := Loaded(r, now);
    if gone.None? && req.claimed.Some? && req.offset.Some? {
      EncodingBoundOk(c, r, req.encoding);
      var (bound, switched) := EncodingBound(r, req.encoding);
      if switched.None? {
        assert bound.upload.disk == r.upload.disk.(row := Rebound(r.upload.disk.row, req.encoding));
        CoreExactlyWhen(c, sha, bound, req.claimed.value, req.offset.value, req.body);
      }
    }
  }

  /** When the file does not reach the offset, reopening starts over. */
  lemma OpenedShort(c: Compress, r: Run)
    requires RunOk(c, r) && r.upload.disk.row.state.Pending? && r.upload.disk.row.offset > |r.upload.disk.partial|
    ensures Opened(c, r).upload.disk == r.upload.disk.(partial := [], row := r.upload.disk.row.(offset := 0))
  {
    hide Rederive, EncodedSize, Root;
    NothingDerived(c, r.upload.disk.row.digest, r.upload.disk.row.maxSize);
  }

  lemma CoreExactlyWhen(c: Compress, sha: Sha, r: Run, claimed: seq<byte>, reqOffset: nat, body: Body)
    requires RunOk(c, r) && r.upload.disk.row.state.Pending?
    ensures var row, s := r.upload.disk.row, Kept(r.upload.disk) + body.bytes;
            var (o, reply) := CorePatched(c, sha, r, claimed, reqOffset, body);
            && (reply.verified <==>
                  reqOffset == row.offset && |body.bytes| == EffTotal(row) - |Kept(r.upload.disk)|
                    && sha(body.bytes) == claimed
                  && CarriesSome(c, TermsOf(row), s))
            && (reply.verified ==>
                  o.upload.disk.stored.Some? && Carries(c, TermsOf(row), s, o.upload.disk.stored.value))
  {
    hide Opened, Ingested, MemoryOk, CheckpointExact, Carries, CarriesSome, Rederive;
    if reqOffset == r.upload.disk.row.offset {
      OpenedOk(c, r);
      if r.upload.disk.row.offset > |r.upload.disk.partial| { OpenedShort(c, r); }
      IngestedExactlyWhen(c, sha, Opened(c, r), claimed, body);
    }
  }
}
