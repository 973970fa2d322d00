/**
 What a PATCH answers, what it leaves on disk and through which durable states, from the request and the disk alone
 (server/bs/bs.go:147-440 and 540-613).
 */
module UploadAnswers {
  import opened Bytes
  import opened Blake3
  import opened BaoEncoder
  import opened BaoDecoder
  import opened Upload
  import opened UploadProofs
  import opened UploadCompletion
  import opened Wrappers

  /** The reservation is refused with this answer, leaving this disk after these writes. */
  ghost predicate Refuses(r: Run, o: (Run, Reply), offset: nat, status: nat, code: Code, d: Disk, writes: seq<Disk>)
  {
    o.1 == Reply(offset, false, Some(Problem(status, code))) && o.0.upload.disk == d && o.0.trace == r.trace + writes
  }

  function Emptied(d: Disk): Disk
  {
    d.(partial := [])
  }

  function Zeroed(d: Disk): Disk
  {
    d.(partial := [], row := d.row.(offset := 0))
  }

  /** The bytes of a whole object in the encoding of its row. */
  function Total(row: Row): nat
  {
    if row.encoding.Raw? then row.maxSize
    else row.maxSize + 8 + if row.maxSize <= 16384 then 0 else 64 * ((row.maxSize - 1) / 16384)
  }

  lemma TotalIs(row: Row)
    ensures EffTotal(row) == Total(row)
  {
  }

  /** The bytes of a body that are still missing. */
  function Wanted(row: Row, body: Body): seq<byte>
    requires row.offset <= Total(row)
  {
    if |body.bytes| <= Total(row) - row.offset then body.bytes else body.bytes[..Total(row) - row.offset]
  }

  /** The states of an append, one more byte at a time. */
  function Growing(d: Disk, bytes: seq<byte>): seq<Disk>
  {
    seq(|bytes|, k requires 0 <= k < |bytes| => d.(partial := d.partial + bytes[..k + 1]))
  }

  /** Raw bytes are judged at the end; of an encoding the decoder takes every byte without a failure. */
  ghost predicate Verifiable(c: Compress, row: Row, bytes: seq<byte>)
  {
    InitialShape(CvFrom(row.digest), row.maxSize);
    row.encoding.Raw? || Feed(c, Initial(CvFrom(row.digest), row.maxSize), bytes).error.None?
  }

  /** A pending upload whose partial ends at its offset, with the verifier the partial determines. */
  ghost predicate Poised(c: Compress, r: Run)
  {
    var d := r.upload.disk;
    && RunOk(c, r) && d.row.state.Pending? && CheckpointExact(c, r.upload)
    && |d.partial| == d.row.offset <= Total(d.row)
  }

  /** What the body is read for: it ends, or holds all that is missing. */
  predicate Whole(row: Row, body: Body)
    requires row.offset <= Total(row)
  {
    body.ends || |body.bytes| >= Total(row) - row.offset
  }

  ghost predicate Good(c: Compress, sha: Sha, d: Disk, claimed: seq<byte>, body: Body)
    requires d.row.offset <= Total(d.row)
  {
    && Verifiable(c, d.row, d.partial + body.bytes) && Whole(d.row, body)
    && |body.bytes| <= Total(d.row) - d.row.offset && sha(body.bytes) == claimed
  }

  lemma VerifiableMeans(c: Compress, r: Run, taken: seq<byte>)
    requires Poised(c, r)
    ensures Advance(c, r.upload, taken).Some? <==> Verifiable(c, r.upload.disk.row, r.upload.disk.partial + taken)
  {
    hide Feed, Root, EncodedSize, DiskOk, MemoryOk;
    var d := r.upload.disk;
    assert Behind(d) == d.partial;
    if d.row.encoding.Bao? { RederiveMore(c, d.row.digest, d.row.maxSize, d.partial, taken); }
  }

  /** A body that is refused, from its bytes and the claimed digest. */
  lemma RefusedBody(c: Compress, sha: Sha, r: Run, claimed: seq<byte>, body: Body)
    requires Poised(c, r)
    ensures var d := r.upload.disk;
            var taken := Wanted(d.row, body);
            var filled := d.(partial := d.partial + taken);
            var o := Ingested(c, sha, r, claimed, body);
            && (!Verifiable(c, d.row, d.partial + taken) ==>
                  Refuses(r, o, 0, 422, BaoVerifyFailed, Zeroed(d),
                          Growing(d, taken) + [Emptied(filled), Emptied(filled), Zeroed(filled)]))
            && (Verifiable(c, d.row, d.partial + taken) && !Whole(d.row, body) ==>
                  Refuses(r, o, d.row.offset, 400, DigestMismatch, d, Growing(d, taken) + [d]))
            && (Verifiable(c, d.row, d.partial + taken) && |body.bytes| > Total(d.row) - d.row.offset ==>
                  Refuses(r, o, 0, 422, HashMismatch, Zeroed(d),
                          Growing(d, taken) + [Emptied(filled), Emptied(filled), Zeroed(filled)]))
            && (Verifiable(c, d.row, d.partial + taken) && Whole(d.row, body)
                && |body.bytes| <= Total(d.row) - d.row.offset && sha(body.bytes) != claimed ==>
                  Refuses(r, o, d.row.offset, 422, DigestMismatch, d, Growing(d, taken) + [d])
                  && o.0.upload.memory == r.upload.memory)
  {
    hide Feed, Root, EncodedSize, Rederive, Finished, Verifiable, Poised, Advance, DiskOk, MemoryOk, Run.Append,
         Run.Truncate, Run.Reset, EffTotal;
    PoisedFacts(c, r);
    TotalIs(r.upload.disk.row);
    var d := r.upload.disk;
    var taken := Wanted(d.row, body);
    assert taken == Taken(d.row, body);
    VerifiableMeans(c, r, taken);
    Rolled(r, taken);
    Discarded(r.Append(taken));
  }

  /** The whole of the bytes written, and then rolled back. */
  lemma Rolled(r: Run, bytes: seq<byte>)
    requires r.upload.disk.row.offset == |r.upload.disk.partial|
    ensures var d := r.upload.disk;
            var o := r.Append(bytes);
            && o.upload.disk == d.(partial := d.partial + bytes) && o.trace == r.trace + Growing(d, bytes)
            && o.upload.memory == r.upload.memory
            && o.Truncate(d.row.offset).upload == r.upload
            && o.Truncate(d.row.offset).trace == r.trace + (Growing(d, bytes) + [d])
  {
    var d := r.upload.disk;
    assert Growing(d, bytes) == TornStates(d, bytes);
    assert (d.partial + bytes)[..d.row.offset] == d.partial;
  }

  /** The file is emptied twice, by handle and by name, before the offset is recorded. */
  lemma Discarded(r: Run)
    ensures var d := r.upload.disk;
            var o := r.Truncate(0).Reset();
            o.upload == Upload(Zeroed(d), FORGOTTEN) && o.trace == r.trace + [Emptied(d), Emptied(d), Zeroed(d)]
  {
  }

  lemma PoisedFacts(c: Compress, r: Run)
    requires Poised(c, r)
    ensures var d := r.upload.disk;
            && d.row.state.Pending? && |d.partial| == d.row.offset <= Total(d.row)
            && if d.row.encoding.Bao? then r.upload.memory.decoder.Some? else r.upload.memory.hasher.Some?
  {
    hide Feed, Root, EncodedSize, Rederive, DiskOk, MemoryOk;
  }

  /** The bytes and then the offset are recorded, with the verifier the longer partial determines. */
  ghost predicate Advanced(c: Compress, r: Run, o: (Run, Reply), bytes: seq<byte>)
  {
    var d := r.upload.disk;
    var next := d.(partial := d.partial + bytes, row := d.row.(offset := d.row.offset + |bytes|));
    && o.1 == Reply(d.row.offset + |bytes|, false, None)
    && o.0.upload.disk == next && o.0.trace == r.trace + Growing(d, bytes) + [next] && CheckpointExact(c, o.0.upload)
  }

  /** The object takes its address, then it goes live with the reservation consumed, then an encoded partial goes. */
  ghost predicate Completed(r: Run, o: (Run, Reply), bytes: seq<byte>, content: seq<byte>)
  {
    var d := r.upload.disk;
    var next := d.(partial := d.partial + bytes, row := d.row.(offset := d.row.offset + |bytes|));
    var placed := next.(stored := Some(content), partial := if d.row.encoding.Raw? then [] else next.partial);
    var done := placed.(live := true, row := next.row.(state := Consumed));
    && o.1 == Reply(d.row.offset + |bytes|, true, None)
    && o.0.upload == Upload(done.(partial := []), FORGOTTEN)
    && o.0.trace == r.trace + Growing(d, bytes)
                    + ([next, placed, done] + if d.row.encoding.Raw? then [] else [done.(partial := [])])
  }

  /** Full length, and wrong. */
  ghost predicate StartsOver(r: Run, o: (Run, Reply), bytes: seq<byte>)
  {
    var d := r.upload.disk;
    var next := d.(partial := d.partial + bytes, row := d.row.(offset := d.row.offset + |bytes|));
    Refuses(r, o, 0, 422, if d.row.encoding.Raw? then HashMismatch else BaoVerifyFailed, Zeroed(d),
            Growing(d, bytes) + [next, Emptied(next), Emptied(next), Zeroed(next)])
  }

  /** A good body that leaves something missing moves the offset past it. */
  lemma AdvancingBody(c: Compress, sha: Sha, r: Run, claimed: seq<byte>, body: Body)
    requires Poised(c, r) && Good(c, sha, r.upload.disk, claimed, body)
    requires r.upload.disk.row.offset + |body.bytes| < Total(r.upload.disk.row)
    ensures Advanced(c, r, Ingested(c, sha, r, claimed, body), body.bytes)
  {
    hide Feed, Root, EncodedSize, Rederive, Finished, Verifiable, Advance, DiskOk, MemoryOk, Run.Append, EffTotal,
         CheckpointExact;
    var d := r.upload.disk;
    TotalIs(d.row);
    assert Taken(d.row, body) == body.bytes;
    VerifiableMeans(c, r, body.bytes);
    Rolled(r, body.bytes);
    RecordOk(c, r, body.bytes);
  }

  /**
   A good body that leaves nothing missing completes the upload if the partial then carries an object of the reserved
   size and digest, and starts it over if not.
   */
  lemma LastBody(c: Compress, sha: Sha, r: Run, claimed: seq<byte>, body: Body)
    requires Poised(c, r) && Good(c, sha, r.upload.disk, claimed, body)
    requires r.upload.disk.row.offset + |body.bytes| == Total(r.upload.disk.row)
    ensures var d := r.upload.disk;
            var o := Ingested(c, sha, r, claimed, body);
            if CarriesSome(c, TermsOf(d.row), d.partial + body.bytes) then
              exists content ::
                Carries(c, TermsOf(d.row), d.partial + body.bytes, content) && Completed(r, o, body.bytes, content)
            else StartsOver(r, o, body.bytes)
  {
    hide Feed, Root, EncodedSize, Rederive, Finished, Verifiable, Advance, DiskOk, MemoryOk, Run.Append, EffTotal,
         CheckpointExact, CarriesSome, Carries, Completed, StartsOver;
    var d := r.upload.disk;
    TotalIs(d.row);
    assert Taken(d.row, body) == body.bytes;
    VerifiableMeans(c, r, body.bytes);
    Rolled(r, body.bytes);
    RecordOk(c, r, body.bytes);
    PoisedFacts(c, r);
    TotalIs(d.row.(offset := d.row.offset + |body.bytes|));
    var m := Advance(c, r.upload, body.bytes).value;
    FullPartial(c, r, r.Append(body.bytes).SetOffset(d.row.offset + |body.bytes|).Remember(m), body.bytes);
  }

  lemma FullPartial(c: Compress, r: Run, n: Run, bytes: seq<byte>)
    requires RunOk(c, n) && CheckpointExact(c, n.upload) && n.upload.disk.row.state.Pending?
    requires var d := r.upload.disk;
             var next := d.(partial := d.partial + bytes, row := d.row.(offset := d.row.offset + |bytes|));
             n.upload.disk == next && n.trace == r.trace + Growing(d, bytes) + [next]
             && |next.partial| == next.row.offset == EffTotal(next.row)
    ensures var d := r.upload.disk;
            var o := Finished(c, n);
            if CarriesSome(c, TermsOf(d.row), d.partial + bytes) then
              exists content ::
                Carries(c, TermsOf(d.row), d.partial + bytes, content) && Completed(r, o, bytes, content)
            else StartsOver(r, o, bytes)
  {
    hide Feed, Root, EncodedSize, DiskOk, MemoryOk, CarriesSome, Carries, Run.Reset, Run.Truncate, EffTotal,
         Finalized, Completed, StartsOver, Rederive;
    var row, s := n.upload.disk.row, n.upload.disk.partial;
    assert Behind(n.upload.disk) == s;
    assert TermsOf(row) == TermsOf(r.upload.disk.row);
    if row.encoding.Bao? {
      BaoCarries(c, row, s);
      var raw := DecodeToRaw(c, row, s);
      if raw.Some? { Placed(r, n, bytes, raw.value); } else { Wrong(r, n, bytes); }
    } else {
      RawSize(row);
      RawCarries(c, row, s);
      if Root(c, s) == row.digest { Placed(r, n, bytes, s); } else { Wrong(r, n, bytes); }
    }
  }

  lemma RawSize(row: Row)
    requires row.encoding.Raw?
    ensures EffTotal(row) == row.maxSize
  {
  }

  lemma Placed(r: Run, n: Run, bytes: seq<byte>, content: seq<byte>)
    requires var d := r.upload.disk;
             var next := d.(partial := d.partial + bytes, row := d.row.(offset := d.row.offset + |bytes|));
             n.upload.disk == next && n.trace == r.trace + Growing(d, bytes) + [next]
    ensures Completed(r, Finalized(n, content), bytes, content)
  {
  }

  lemma Wrong(r: Run, n: Run, bytes: seq<byte>)
    requires var d := r.upload.disk;
             var next := d.(partial := d.partial + bytes, row := d.row.(offset := d.row.offset + |bytes|));
             n.upload.disk == next && n.trace == r.trace + Growing(d, bytes) + [next]
    ensures var code := if r.upload.disk.row.encoding.Raw? then HashMismatch else BaoVerifyFailed;
            StartsOver(r, Refuse(n.Truncate(0).Reset(), 422, code), bytes)
  {
    hide Run.Truncate, Run.Reset;
    Discarded(n);
  }

  // ----- the whole request -----

  /** The row and the file as a body finds them: the encoding bound, what the file holds of the recorded bytes. */
  function Resumed(d: Disk, enc: Option<Encoding>): Disk
  {
    var kept := if d.row.offset <= |d.partial| then d.partial[..d.row.offset] else [];
    d.(partial := kept, row := d.row.(offset := |kept|, encoding := if enc.Some? then enc.value else d.row.encoding))
  }

  /** The states on the way there: the binding, then the file cut to the offset, or emptied before the offset is. */
  function Resuming(d: Disk, enc: Option<Encoding>): seq<Disk>
  {
    var bound := d.(row := Resumed(d, enc).row.(offset := d.row.offset));
    (if bound == d then [] else [bound])
    + if |d.partial| > d.row.offset then [Resumed(d, enc)]
      else if |d.partial| < d.row.offset then [Emptied(bound), Zeroed(bound)]
      else []
  }

  /** An upload about to take a body, as a sound one is resumed. */
  ghost predicate ResumedAs(c: Compress, r: Run, n: Run, enc: Option<Encoding>)
  {
    && Poised(c, n) && n.upload.disk == Resumed(r.upload.disk, enc)
    && n.trace == r.trace + Resuming(r.upload.disk, enc)
  }

  /** The reservation stands. */
  predicate Stands(row: Row, now: int)
  {
    row.state.Pending? && now <= row.expires
  }

  /** Every refusal before the body, in the order of the checks; nothing is written but an overdue row's expiry. */
  lemma RefusedRequest(c: Compress, sha: Sha, r: Run, now: int, req: Request)
    ensures var d := r.upload.disk;
            var late := d.(row := d.row.(state := Expired));
            var o := Patched(c, sha, r, now, req);
            && (d.row.state.Consumed? ==> Refuses(r, o, 0, 410, ReservationInvalid, d, []))
            && (d.row.state.Expired? ==> Refuses(r, o, 0, 410, ReservationExpired, d, []))
            && (d.row.state.Pending? && now > d.row.expires ==>
                  Refuses(r, o, 0, 410, ReservationExpired, Emptied(late), [late, Emptied(late)]))
            && (Stands(d.row, now) && !req.signed ==> Refuses(r, o, 0, 401, SignatureInvalid, d, []))
            && (Stands(d.row, now) && req.signed && req.claimed.None? ==> Refuses(r, o, 0, 400, DigestMismatch, d, []))
            && (Stands(d.row, now) && req.signed && req.claimed.Some? && req.offset.None? ==>
                  Refuses(r, o, 0, 409, OffsetMismatch, d, []))
            && (Stands(d.row, now) && req.signed && req.claimed.Some? && req.offset.Some?
                && Switches(d.row, req) ==>
                  Refuses(r, o, d.row.offset, 415, Malformed, d, []))
  {
    hide CorePatched;
  }

  /** Another encoding than the bound one, after the first byte. */
  predicate Switches(row: Row, req: Request)
  {
    req.encoding.Some? && req.encoding.value != row.encoding && row.offset != 0
  }

  predicate Admitted(row: Row, now: int, req: Request)
  {
    Stands(row, now) && req.signed && req.claimed.Some? && req.offset.Some? && !Switches(row, req)
  }

  /** An admitted request at another offset is refused with the recorded one; its encoding is bound already. */
  lemma RefusedOffset(c: Compress, sha: Sha, r: Run, now: int, req: Request)
    requires Admitted(r.upload.disk.row, now, req) && req.offset.value != r.upload.disk.row.offset
    ensures var d := r.upload.disk;
            var enc := if req.encoding.Some? then req.encoding.value else d.row.encoding;
            var bound := d.(row := d.row.(encoding := enc));
            Refuses(r, Patched(c, sha, r, now, req), d.row.offset, 409, OffsetMismatch, bound,
                    if bound == d then [] else [bound])
  {
  }

  /** An admitted request at the recorded offset streams its body into the upload as it is resumed. */
  lemma ResumedBody(c: Compress, sha: Sha, r: Run, now: int, req: Request) returns (n: Run)
    requires RunOk(c, r) && Admitted(r.upload.disk.row, now, req) && req.offset.value == r.upload.disk.row.offset
    ensures ResumedAs(c, r, n, req.encoding)
    ensures Patched(c, sha, r, now, req) == Ingested(c, sha, n, req.claimed.value, req.body)
  {
    hide Rederive, EncodedSize, Root, Ingested, NewDecoder, Opened, DiskOk, MemoryOk, CheckpointExact, RunOk;
    var (bound, switched) := EncodingBound(r, req.encoding);
    EncodingBoundOk(c, r, req.encoding);
    n := Opened(c, bound);
    OpenedOk(c, bound);
    OpenedWrites(c, bound);
    PoisedAfter(c, n);
  }

  lemma PoisedAfter(c: Compress, n: Run)
    requires RunOk(c, n) && CheckpointExact(c, n.upload) && n.upload.disk.row.state.Pending?
    requires |n.upload.disk.partial| == n.upload.disk.row.offset
    ensures Poised(c, n)
  {
    hide Rederive, EncodedSize, Root, MemoryOk;
    TotalIs(n.upload.disk.row);
  }

  /** Reopening a sound pending upload: the file is cut to the offset, or emptied before the offset is. */
  lemma OpenedWrites(c: Compress, r: Run)
    requires RunOk(c, r) && r.upload.disk.row.state.Pending?
    ensures var o := Opened(c, r);
            o.upload.disk == Resumed(r.upload.disk, None) && o.trace == r.trace + Resuming(r.upload.disk, None)
  {
    hide Rederive, EncodedSize, Root, Reconcile;
    ReconcileOk(c, r);
    ReconcileWrites(r);
    RestoreWritesNothing(c, Reconcile(r));
  }

  lemma ReconcileWrites(r: Run)
    ensures var o := Reconcile(r);
            o.upload.disk == Resumed(r.upload.disk, None) && o.trace == r.trace + Resuming(r.upload.disk, None)
  {
    assert r.trace + [] == r.trace;
  }

  lemma RestoreWritesNothing(c: Compress, r: Run)
    requires RunOk(c, r) && r.upload.disk.row.state.Pending? && |r.upload.disk.partial| == r.upload.disk.row.offset
    ensures RestoreVerifier(c, r).upload.disk == r.upload.disk && RestoreVerifier(c, r).trace == r.trace
  {
    hide Rederive, EncodedSize, Root;
  }

  /**
   A body whose bytes are fine but for the claimed digest: the request is refused at its offset, the row and the bytes
   behind the offset stand, and so does the checkpoint.
   */
  lemma MismatchedDigest(c: Compress, sha: Sha, r: Run, now: int, req: Request)
    requires RunOk(c, r) && Admitted(r.upload.disk.row, now, req) && req.offset.value == r.upload.disk.row.offset
    requires r.upload.disk.row.offset <= |r.upload.disk.partial|
    requires var d := Resumed(r.upload.disk, req.encoding);
             && d.row.offset + |req.body.bytes| <= Total(d.row) && Whole(d.row, req.body)
             && Verifiable(c, d.row, d.partial + req.body.bytes) && sha(req.body.bytes) != req.claimed.value
    ensures var d := r.upload.disk;
            var (o, reply) := Patched(c, sha, r, now, req);
            && reply == Reply(d.row.offset, false, Some(Problem(422, DigestMismatch)))
            && o.upload.disk == Resumed(d, req.encoding) && o.upload.disk.partial == Behind(d)
            && o.upload.disk.row.offset == d.row.offset && CheckpointExact(c, o.upload)
  {
    hide Root, EncodedSize, Rederive, Ingested, Patched, Verifiable, RunOk, MemoryOk, DiskOk, Feed;
    var n := ResumedBody(c, sha, r, now, req);
    RefusedBody(c, sha, n, req.claimed.value, req.body);
    assert CheckpointExact(c, n.upload);
  }

  /** The intra-domain door is a signed request in the bound encoding. */
  lemma LocalIsSigned(c: Compress, sha: Sha, r: Run, now: int, claimed: seq<byte>, reqOffset: nat, body: Body)
    ensures LocalPatched(c, sha, r, now, claimed, reqOffset, body)
            == Patched(c, sha, r, now, Request(true, Some(claimed), Some(reqOffset), None, body))
  {
    hide CorePatched;
  }

  /** HEAD tells the recorded offset and the whole size of a standing reservation, and is refused as a PATCH is. */
  lemma HeadAnswers(c: Compress, sha: Sha, r: Run, now: int, signed: bool)
    ensures var d := r.upload.disk;
            var (o, answer) := HeadRead(r, now, signed);
            if Stands(d.row, now) && signed then o == r && answer == Ok((d.row.offset, Total(d.row)))
            else
              var (p, reply) := Patched(c, sha, r, now, Request(signed, None, None, None, Body([], true)));
              o == p && answer.Err? && reply.problem == Some(answer.error)
  {
    hide CorePatched, EffTotal, Total;
    TotalIs(r.upload.disk.row);
  }

  /** A recorded prefix of an encoding that the decoder does not take is dropped when the upload is reopened. */
  lemma SpoiledPartial(c: Compress, r: Run)
    requires r.upload.disk.row.encoding.Bao? && r.upload.memory.decoder.None?
    requires |r.upload.disk.partial| == r.upload.disk.row.offset
             && !Verifiable(c, r.upload.disk.row, r.upload.disk.partial)
    ensures var d := r.upload.disk;
            var o := Opened(c, r);
            && o.upload.disk == Zeroed(d) && o.trace == r.trace + [Emptied(d), Zeroed(d)]
            && o.upload.memory.decoder == Some(NewDecoder(d.row.digest, d.row.maxSize))
  {
    hide Feed;
    assert Clamp(r.upload.disk.partial, 0, r.upload.disk.row.offset) == r.upload.disk.partial;
  }
}
