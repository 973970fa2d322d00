/**
 The transactional upload resource (server/bs/bs.go:53-613): reservations, quarantined partials, in-memory verifier
 checkpoints and the object store.

 CorePatched says what one request does to one upload, including every durable state it passes through, any of which
 a crash may leave behind. Class Resource runs the source's steps in place and is proved to do exactly that.
 */
module Upload {
  import opened Bytes
  import opened Blake3
  import opened BaoEncoder
  import opened BaoDecoder
  import opened Wrappers

  type Token = string
  type Digest = s: seq<byte> | |s| == 32 witness Zeros(32)
  type Size = n: nat | n < INT64_LIMIT
  type Sha = seq<byte> -> seq<byte>

  datatype Encoding = Raw | Bao
  datatype RowState = Pending | Consumed | Expired

  datatype Row = Row(digest: Digest, maxSize: Size, expires: int, state: RowState, offset: nat, encoding: Encoding)

  datatype Code =
    | ReservationInvalid | ReservationExpired | SignatureInvalid | OffsetMismatch | DigestMismatch | HashMismatch
    | BaoVerifyFailed | Malformed

  datatype Problem = Problem(status: nat, code: Code)

  /** A decoder between writes that have not failed. */
  type Decoding = s: State | Shape(s) ghost witness (InitialShape(IV, 0); Initial(IV, 0))

  /** The verifier checkpoint in memory: the bytes hashed so far, or the decoder; absent means re-derive. */
  datatype Checkpoint = Checkpoint(hasher: Option<seq<byte>>, decoder: Option<Decoding>)

  const FORGOTTEN := Checkpoint(None, None)

  /** What survives a crash of one upload: its row, its partial and the object at its address. */
  datatype Disk = Disk(row: Row, partial: seq<byte>, stored: Option<seq<byte>>, live: bool)

  datatype Upload = Upload(disk: Disk, memory: Checkpoint)

  datatype Body = Body(bytes: seq<byte>, ends: bool)

  datatype Reply = Reply(offset: nat, verified: bool, problem: Option<Problem>)

  /** An upload together with the durable states it has passed through. */
  datatype Run = Run(upload: Upload, trace: seq<Disk>) {
    function Write(d: Disk): Run
    {
      Run(upload.(disk := d), trace + [d])
    }

    function Truncate(n: nat): Run
    {
      var end := if n < |upload.disk.partial| then n else |upload.disk.partial|;
      Write(upload.disk.(partial := Clamp(upload.disk.partial, 0, end)))
    }

    function SetOffset(n: nat): Run
    {
      Write(upload.disk.(row := upload.disk.row.(offset := n)))
    }

    /** Appending to the partial; a crash may leave any prefix of the bytes. */
    function Append(bytes: seq<byte>): (r: Run)
      ensures r.upload == upload.(disk := upload.disk.(partial := upload.disk.partial + bytes))
    {
      Run(upload.(disk := Torn(upload.disk, bytes, |bytes|)), trace + TornStates(upload.disk, bytes))
    }

    function Remember(m: Checkpoint): Run
    {
      this.(upload := upload.(memory := m))
    }

    /** resetToZero: the partial is discarded and the reservation is back at offset zero. */
    function Reset(): Run
    {
      Truncate(0).Remember(FORGOTTEN).SetOffset(0)
    }

    function Promote(bytes: seq<byte>, moved: bool): Run
    {
      Write(upload.disk.(stored := Some(bytes), partial := if moved then [] else upload.disk.partial))
    }

    function Commit(): Run
    {
      Write(upload.disk.(live := true, row := upload.disk.row.(state := Consumed)))
    }
  }

  function Torn(d: Disk, bytes: seq<byte>, k: nat): Disk
    requires k <= |bytes|
  {
    d.(partial := d.partial + bytes[..k])
  }

  function TornStates(d: Disk, bytes: seq<byte>): seq<Disk>
  {
    seq(|bytes|, k requires 0 <= k < |bytes| => Torn(d, bytes, k + 1))
  }

  function EffTotal(row: Row): nat
  {
    if row.encoding.Bao? then EncodedSize(row.maxSize) else row.maxSize
  }

  function NewDecoder(digest: Digest, size: Size): Decoding
  {
    InitialShape(CvFrom(digest), size);
    Initial(CvFrom(digest), size)
  }

  /** Whether the decoder takes the whole of p; the checkpoint it then stands at. */
  function Rederive(c: Compress, digest: Digest, size: Size, p: seq<byte>): Option<Decoding>
  {
    var o := Feed(c, NewDecoder(digest, size), p);
    if o.error.Some? then None else Some(o.state)
  }

  // ----- openCheckpoint -----

  /** Bytes beyond the durable offset are dropped; an offset beyond the bytes degrades to zero. */
  function Reconcile(r: Run): Run
  {
    var d := r.upload.disk;
    if |d.partial| > d.row.offset then r.Truncate(d.row.offset)
    else if |d.partial| < d.row.offset then
      r.Truncate(0).Remember(r.upload.memory.(hasher := None)).SetOffset(0)
    else r
  }

  /** A verifier checkpoint that is not in memory is derived from the partial. */
  function RestoreVerifier(c: Compress, r: Run): Run
  {
    var u := r.upload;
    var p := Clamp(u.disk.partial, 0, u.disk.row.offset);
    if u.disk.row.encoding.Bao? then
      if u.memory.decoder.Some? then r
      else
        match Rederive(c, u.disk.row.digest, u.disk.row.maxSize, p)
        case Some(d) => r.Remember(u.memory.(decoder := Some(d)))
        case None =>
          var d := NewDecoder(u.disk.row.digest, u.disk.row.maxSize);
          r.Truncate(0).SetOffset(0).Remember(u.memory.(decoder := Some(d)))
    else if u.memory.hasher.Some? then r
    else r.Remember(u.memory.(hasher := Some(p)))
  }

  function Opened(c: Compress, r: Run): (o: Run)
    ensures var u := o.upload;
            if u.disk.row.encoding.Bao? then u.memory.decoder.Some? else u.memory.hasher.Some?
  {
    RestoreVerifier(c, Reconcile(r))
  }

  // ----- patchCore -----

  function Refuse(r: Run, status: nat, code: Code): (Run, Reply)
  {
    (r, Reply(r.upload.disk.row.offset, false, Some(Problem(status, code))))
  }

  function Room(row: Row): nat
  {
    if row.offset < EffTotal(row) then EffTotal(row) - row.offset else 0
  }

  function Taken(row: Row, body: Body): seq<byte>
  {
    if Room(row) < |body.bytes| then body.bytes[..Room(row)] else body.bytes
  }

  /** The verifier after the taken bytes, or None if they do not verify. */
  function Advance(c: Compress, u: Upload, taken: seq<byte>): (w: Option<Checkpoint>)
    requires if u.disk.row.encoding.Bao? then u.memory.decoder.Some? else u.memory.hasher.Some?
    ensures w.Some? ==> if u.disk.row.encoding.Bao? then w.value.decoder.Some? else w.value.hasher.Some?
  {
    if u.disk.row.encoding.Bao? then
      var o := Feed(c, u.memory.decoder.value, taken);
      if o.error.Some? then None else Some(Checkpoint(None, Some(o.state)))
    else Some(Checkpoint(Some(u.memory.hasher.value + taken), None))
  }

  /** The raw object in a complete partial, or None if it does not decode. */
  function DecodeToRaw(c: Compress, row: Row, partial: seq<byte>): Option<seq<byte>>
  {
    match Rederive(c, row.digest, row.maxSize, partial)
    case Some(d) => if Complete(d) then Some(d.released) else None
    case None => None
  }

  /** The URN comparison at full length. */
  predicate Verifies(c: Compress, row: Row, m: Checkpoint)
    requires if row.encoding.Bao? then m.decoder.Some? else m.hasher.Some?
  {
    if row.encoding.Bao? then Complete(m.decoder.value) else Root(c, m.hasher.value) == row.digest
  }

  function Finalized(r: Run, bytes: seq<byte>): (Run, Reply)
  {
    var offset := r.upload.disk.row.offset;
    var bao := r.upload.disk.row.encoding.Bao?;
    var done := r.Promote(bytes, !bao).Commit();
    (((if bao then done.Truncate(0) else done).Remember(FORGOTTEN)), Reply(offset, true, None))
  }

  /** Completion: the offset is recorded at the full length. */
  function Finished(c: Compress, r: Run): (Run, Reply)
    requires var u := r.upload; if u.disk.row.encoding.Bao? then u.memory.decoder.Some? else u.memory.hasher.Some?
  {
    var row := r.upload.disk.row;
    var wrong := if row.encoding.Bao? then BaoVerifyFailed else HashMismatch;
    if !Verifies(c, row, r.upload.memory) then Refuse(r.Truncate(0).Reset(), 422, wrong)
    else if row.encoding.Bao? then
      match DecodeToRaw(c, row, r.upload.disk.partial)
      case None => Refuse(r.Reset(), 422, wrong)
      case Some(bytes) => Finalized(r, bytes)
    else Finalized(r, r.upload.disk.partial)
  }

  /** Streaming the body into the opened partial. */
  function Ingested(c: Compress, sha: Sha, r: Run, claimed: seq<byte>, body: Body): (Run, Reply)
    requires var u := r.upload; if u.disk.row.encoding.Bao? then u.memory.decoder.Some? else u.memory.hasher.Some?
  {
    var row := r.upload.disk.row;
    var taken := Taken(row, body);
    var working := Advance(c, r.upload, taken);
    var filled := r.Append(taken);
    if working.None? then Refuse(filled.Truncate(0).Reset(), 422, BaoVerifyFailed)
    else if !body.ends && |body.bytes| < Room(row) then Refuse(filled.Truncate(row.offset), 400, DigestMismatch)
    else if |body.bytes| > Room(row) then Refuse(filled.Truncate(0).Reset(), 422, HashMismatch)
    else if sha(taken) != claimed then Refuse(filled.Truncate(row.offset), 422, DigestMismatch)
    else
      var recorded := filled.SetOffset(row.offset + |taken|).Remember(working.value);
      if row.offset + |taken| < EffTotal(row) then (recorded, Reply(row.offset + |taken|, false, None))
      else Finished(c, recorded)
  }

  function CorePatched(c: Compress, sha: Sha, r: Run, claimed: seq<byte>, reqOffset: nat, body: Body): (Run, Reply)
  {
    if reqOffset != r.upload.disk.row.offset then Refuse(r, 409, OffsetMismatch)
    else Ingested(c, sha, Opened(c, r), claimed, body)
  }

  // ----- the two doors -----

  /** loadReservation: a consumed, expired or overdue reservation is refused; an overdue one is collected. */
  function Loaded(r: Run, now: int): (Run, Option<Problem>)
  {
    var d := r.upload.disk;
    if d.row.state.Consumed? then (r, Some(Problem(410, ReservationInvalid)))
    else if d.row.state.Expired? then (r, Some(Problem(410, ReservationExpired)))
    else if now > d.row.expires then
      (r.Write(d.(row := d.row.(state := Expired))).Truncate(0), Some(Problem(410, ReservationExpired)))
    else (r, None)
  }

  /** The first PATCH fixes the encoding; a later one may only change it at offset zero. */
  function EncodingBound(r: Run, enc: Option<Encoding>): (Run, Option<Problem>)
  {
    var d := r.upload.disk;
    if enc.None? || enc.value == d.row.encoding then (r, None)
    else if d.row.offset != 0 then (r, Some(Problem(415, Malformed)))
    else (r.Write(d.(row := d.row.(encoding := enc.value))), None)
  }

  /**
   A signed PATCH as its headers read: signed says whether the signature verifies, None that a header is malformed.
   */
  datatype Request = Request(signed: bool, claimed: Option<seq<byte>>, offset: Option<nat>, encoding: Option<Encoding>,
                             body: Body)

  function Patched(c: Compress, sha: Sha, r: Run, now: int, req: Request): (Run, Reply)
  {
    var (loaded, gone) := Loaded(r, now);
    if gone.Some? then (loaded, Reply(0, false, gone))
    else if !req.signed then (loaded, Reply(0, false, Some(Problem(401, SignatureInvalid))))
    else if req.claimed.None? then (loaded, Reply(0, false, Some(Problem(400, DigestMismatch))))
    else if req.offset.None? then (loaded, Reply(0, false, Some(Problem(409, OffsetMismatch))))
    else
      var (bound, switched) := EncodingBound(loaded, req.encoding);
      if switched.Some? then (bound, Reply(bound.upload.disk.row.offset, false, switched))
      else CorePatched(c, sha, bound, req.claimed.value, req.offset.value, req.body)
  }

  function LocalPatched(c: Compress, sha: Sha, r: Run, now: int, claimed: seq<byte>, reqOffset: nat, body: Body)
    : (Run, Reply)
  {
    var (loaded, gone) := Loaded(r, now);
    if gone.Some? then (loaded, Reply(0, false, gone))
    else CorePatched(c, sha, loaded, claimed, reqOffset, body)
  }

  /** HEAD: the durable checkpoint and the effective length. */
  function HeadRead(r: Run, now: int, signed: bool): (Run, Result<(nat, nat), Problem>)
  {
    var (loaded, gone) := Loaded(r, now);
    var row := loaded.upload.disk.row;
    (loaded, if gone.Some? then Err(gone.value)
             else if !signed then Err(Problem(401, SignatureInvalid))
             else Ok((row.offset, EffTotal(row))))
  }

  /** What is on disk after k of the request's durable writes. */
  function After(u: Upload, trace: seq<Disk>, k: nat): Disk
  {
    if k == 0 || k > |trace| then u.disk else trace[k - 1]
  }

  // ----- the source's steps -----

  /** One reservation's row, quarantine file, checkpoint and object address, updated in place. */
  class Resource {
    const c: Compress
    const sha: Sha
    var row: Row
    var partial: seq<byte>
    var hasher: Option<seq<byte>>
    var decoder: Option<Decoding>
    var stored: Option<seq<byte>>
    var live: bool
    ghost var trace: seq<Disk>

    function Durable(): Disk
      reads this
    {
      Disk(row, partial, stored, live)
    }

    ghost function Now(): Run
      reads this
    {
      Run(Upload(Durable(), Checkpoint(hasher, decoder)), trace)
    }

    constructor (c: Compress, sha: Sha, digest: Digest, maxSize: Size, expires: int)
      ensures this.c == c && this.sha == sha
      ensures Now() == Run(Upload(Disk(Row(digest, maxSize, expires, Pending, 0, Raw), [], None, false), FORGOTTEN), [])
    {
      this.c, this.sha := c, sha;
      row := Row(digest, maxSize, expires, Pending, 0, Raw);
      partial, hasher, decoder, stored, live, trace := [], None, None, None, false, [];
    }

    method Truncate(n: nat)
      modifies this`partial, this`trace
      ensures Now() == old(Now()).Truncate(n)
    {
      if n < |partial| { partial := partial[..n]; }
      trace := trace + [Durable()];
    }

    method SetOffset(n: nat)
      modifies this`row, this`trace
      ensures Now() == old(Now()).SetOffset(n)
    {
      row := row.(offset := n);
      trace := trace + [Durable()];
    }

    method Append(bytes: seq<byte>)
      modifies this`partial, this`trace
      ensures Now() == old(Now()).Append(bytes)
    {
      var i := 0;
      while i < |bytes|
        invariant i <= |bytes| && partial == old(partial) + bytes[..i]
        invariant trace == old(trace) + seq(i, k requires 0 <= k < i => Torn(old(Durable()), bytes, k + 1))
      {
        partial, i := partial + [bytes[i]], i + 1;
        trace := trace + [Durable()];
      }
    }

    method ResetToZero()
      modifies this`partial, this`row, this`hasher, this`decoder, this`trace
      ensures Now() == old(Now()).Reset()
    {
      Truncate(0);
      hasher, decoder := None, None;
      SetOffset(0);
    }

    method OpenCheckpoint()
      modifies this`partial, this`row, this`hasher, this`decoder, this`trace
      ensures Now() == Opened(c, old(Now()))
    {
      if |partial| > row.offset {
        Truncate(row.offset);
      } else if |partial| < row.offset {
        Truncate(0);
        hasher := None;
        SetOffset(0);
      }
      if row.encoding.Bao? {
        if decoder.None? {
          var o := Feed(c, NewDecoder(row.digest, row.maxSize), partial[..row.offset]);
          if o.error.None? {
            decoder := Some(o.state);
          } else {
            Truncate(0);
            SetOffset(0);
            decoder := Some(NewDecoder(row.digest, row.maxSize));
          }
        }
      } else if hasher.None? {
        hasher := Some(partial[..row.offset]);
      }
    }

    method Finalize(bytes: seq<byte>) returns (reply: Reply)
      modifies this
      ensures (Now(), reply) == Finalized(old(Now()), bytes)
    {
      stored := Some(bytes);
      if row.encoding.Raw? { partial := []; }
      trace := trace + [Durable()];
      live, row := true, row.(state := Consumed);
      trace := trace + [Durable()];
      if row.encoding.Bao? { Truncate(0); }
      hasher, decoder := None, None;
      return Reply(row.offset, true, None);
    }

    method Complete() returns (reply: Reply)
      requires if row.encoding.Bao? then decoder.Some? else hasher.Some?
      modifies this
      ensures (Now(), reply) == Finished(c, old(Now()))
    {
      if row.encoding.Bao? {
        if !BaoDecoder.Complete(decoder.value) {
          reply := Discard(BaoVerifyFailed);
          return;
        }
        var o := Feed(c, NewDecoder(row.digest, row.maxSize), partial);
        if o.error.Some? || !BaoDecoder.Complete(o.state) {
          ResetToZero();
          return Reply(0, false, Some(Problem(422, BaoVerifyFailed)));
        }
        reply := Finalize(o.state.released);
      } else {
        if Root(c, hasher.value) != row.digest {
          reply := Discard(HashMismatch);
          return;
        }
        reply := Finalize(partial);
      }
    }

    /** Object-level wrongness: the partial goes and the reservation starts over. */
    method Discard(code: Code) returns (reply: Reply)
      modifies this
      ensures (Now(), reply) == Refuse(old(Now()).Truncate(0).Reset(), 422, code)
    {
      Truncate(0);
      ResetToZero();
      return Reply(row.offset, false, Some(Problem(422, code)));
    }

    /** Request-level wrongness: back to the checkpoint. */
    method RollBack(offset: nat, status: nat) returns (reply: Reply)
      requires offset == row.offset
      modifies this
      ensures (Now(), reply) == Refuse(old(Now()).Truncate(offset), status, DigestMismatch)
    {
      Truncate(offset);
      return Reply(offset, false, Some(Problem(status, DigestMismatch)));
    }

    /** The copy loop's three sinks: the file, and the working copy of the verifier. */
    method Copy(taken: seq<byte>) returns (working: Option<Checkpoint>)
      requires if row.encoding.Bao? then decoder.Some? else hasher.Some?
      modifies this`partial, this`trace
      ensures Now() == old(Now()).Append(taken)
      ensures working == Advance(c, old(Now()).upload, taken)
    {
      Append(taken);
      if row.encoding.Bao? {
        var o := Feed(c, decoder.value, taken);
        working := if o.error.Some? then None else Some(Checkpoint(None, Some(o.state)));
      } else {
        working := Some(Checkpoint(Some(hasher.value + taken), None));
      }
    }

    method Stream(claimed: seq<byte>, body: Body) returns (reply: Reply)
      requires if row.encoding.Bao? then decoder.Some? else hasher.Some?
      modifies this
      ensures (Now(), reply) == Ingested(c, sha, old(Now()), claimed, body)
    {
      hide Finished, TornStates, Torn, EffTotal, Advance, Run.Append, Run.Truncate, Run.Reset, Refuse;
      var offset, total := row.offset, EffTotal(row);
      var remaining := if offset < total then total - offset else 0;
      var taken := if remaining < |body.bytes| then body.bytes[..remaining] else body.bytes;
      var working := Copy(taken);
      if working.None? {
        reply := Discard(BaoVerifyFailed);
      } else if !body.ends && |body.bytes| < remaining {
        reply := RollBack(offset, 400);
      } else if |body.bytes| > remaining {
        reply := Discard(HashMismatch);
      } else if sha(taken) != claimed {
        reply := RollBack(offset, 422);
      } else {
        var newOffset := offset + |taken|;
        SetOffset(newOffset);
        hasher, decoder := working.value.hasher, working.value.decoder;
        if newOffset < total { return Reply(newOffset, false, None); }
        reply := Complete();
      }
    }

    method PatchCore(claimed: seq<byte>, reqOffset: nat, body: Body) returns (reply: Reply)
      modifies this
      ensures (Now(), reply) == CorePatched(c, sha, old(Now()), claimed, reqOffset, body)
    {
      hide Ingested, Opened;
      if reqOffset != row.offset {
        return Reply(row.offset, false, Some(Problem(409, OffsetMismatch)));
      }
      OpenCheckpoint();
      reply := Stream(claimed, body);
    }

    method LoadReservation(now: int) returns (problem: Option<Problem>)
      modifies this`row, this`partial, this`trace
      ensures (Now(), problem) == Loaded(old(Now()), now)
    {
      if row.state.Consumed? { return Some(Problem(410, ReservationInvalid)); }
      if row.state.Expired? || now > row.expires {
        if !row.state.Expired? {
          row := row.(state := Expired);
          trace := trace + [Durable()];
          Truncate(0);
        }
        return Some(Problem(410, ReservationExpired));
      }
      return None;
    }

    method Patch(now: int, req: Request) returns (reply: Reply)
      modifies this
      ensures (Now(), reply) == Patched(c, sha, old(Now()), now, req)
    {
      hide CorePatched;
      var problem := LoadReservation(now);
      if problem.Some? { return Reply(0, false, problem); }
      if !req.signed { return Reply(0, false, Some(Problem(401, SignatureInvalid))); }
      if req.claimed.None? { return Reply(0, false, Some(Problem(400, DigestMismatch))); }
      if req.offset.None? { return Reply(0, false, Some(Problem(409, OffsetMismatch))); }
      if req.encoding.Some? && req.encoding.value != row.encoding {
        if row.offset != 0 { return Reply(row.offset, false, Some(Problem(415, Malformed))); }
        row := row.(encoding := req.encoding.value);
        trace := trace + [Durable()];
      }
      reply := PatchCore(req.claimed.value, req.offset.value, req.body);
    }

    method Head(now: int, signed: bool) returns (r: Result<(nat, nat), Problem>)
      modifies this`row, this`partial, this`trace
      ensures (Now(), r) == HeadRead(old(Now()), now, signed)
    {
      var problem := LoadReservation(now);
      if problem.Some? { return Err(problem.value); }
      if !signed { return Err(Problem(401, SignatureInvalid)); }
      return Ok((row.offset, EffTotal(row)));
    }
  }
}
