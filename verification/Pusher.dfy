/**
 The resuming pusher (server/bs/pusher.go:104-247) against the upload resource, over a network that may lose or cut
 requests, lose replies, and crash or restart the receiver at any of its durable writes.
 */
module Pusher {
  import opened Bytes
  import opened Blake3
  import opened BaoEncoder
  import opened BaoDecoder
  import opened BaoProofs
  import opened Upload
  import opened UploadProofs
  import opened Wrappers

  /** The byte stream an encoding pushes. */
  function Stream(c: Compress, content: seq<byte>, enc: Encoding): seq<byte>
  {
    if enc.Bao? then Encode(c, content) else content
  }

  /** A request for a part of the stream, possibly cut short in transit. */
  function PartOf(c: Compress, sha: Sha, content: seq<byte>, enc: Encoding, offset: nat, n: nat,
                  cut: Option<nat>): Request
    requires offset + n <= |Stream(c, content, enc)|
  {
    var body := Stream(c, content, enc)[offset..offset + n];
    Request(true, Some(sha(body)), Some(offset), Some(enc),
            if cut.Some? && cut.value < n then Body(body[..cut.value], false) else Body(body, true))
  }

  /** What happens to one request: the receiver may restart first; the request may be lost, or cut in its body; the
      receiver may crash at a durable write; the reply may be lost. */
  datatype Fate = Fate(now: int, restarted: bool, arrives: bool, cut: Option<nat>, crash: Option<nat>, answered: bool)

  // ----- an honest source's upload -----

  /**
   The partial is a prefix of a stream; a pending upload reaches its offset in it, or has just promoted the whole
   object; a consumed one has left exactly the content live.
   */
  ghost predicate HonestDisk(c: Compress, content: seq<byte>, d: Disk)
  {
    && d.row.digest == Root(c, content) && d.row.maxSize == |content| && FromStream(c, content, d)
    && (d.row.state.Pending? ==> HonestPrefix(c, content, d) || Promoted(content, d))
    && (d.row.state.Consumed? ==> d.live && d.stored == Some(content))
  }

  ghost predicate HonestPrefix(c: Compress, content: seq<byte>, d: Disk)
  {
    d.row.offset <= |d.partial| && Behind(d) <= Stream(c, content, d.row.encoding)
  }

  /**
   The whole partial is a prefix of the bound encoding's stream, or of another's that left nothing behind the offset.
   */
  ghost predicate FromStream(c: Compress, content: seq<byte>, d: Disk)
  {
    d.partial <= Stream(c, content, d.row.encoding)
      || (d.row.offset == 0 && exists enc :: d.partial <= Stream(c, content, enc))
  }

  ghost predicate Promoted(content: seq<byte>, d: Disk)
  {
    d.row.offset == EffTotal(d.row) && d.stored == Some(content)
  }

  /** A state a request for n bytes may leave: honest, with the offset where it was or n further on. */
  ghost predicate Fine(c: Compress, content: seq<byte>, from: nat, n: nat, d: Disk)
  {
    HonestDisk(c, content, d) && (d.row.offset == from || d.row.offset == from + n)
  }

  ghost predicate FineRun(c: Compress, content: seq<byte>, from: nat, n: nat, r: Run)
  {
    RunOk(c, r) && Fine(c, content, from, n, r.upload.disk) && forall d :: d in r.trace ==> Fine(c, content, from, n, d)
  }

  /** A run of one upload in any state of an honest push. */
  ghost predicate HonestUpload(c: Compress, content: seq<byte>, u: Upload)
  {
    UploadOk(c, u) && HonestDisk(c, content, u.disk)
  }

  lemma StreamSize(c: Compress, content: seq<byte>, row: Row)
    requires row.maxSize == |content|
    ensures |Stream(c, content, row.encoding)| == EffTotal(row)
  {
    EncodeSize(c, content);
  }

  /** The decoder takes every prefix of the encoding, and all of it to completion. */
  lemma PrefixVerifies(c: Compress, content: seq<byte>, p: seq<byte>)
    requires |content| < INT64_LIMIT && p <= Encode(c, content)
    ensures Rederive(c, Root(c, content), |content|, p).Some?
    ensures p == Encode(c, content) ==> DecodeAll(c, content, p)
  {
    hide Feed, Encode, Root, SubtreeCV;
    RoundTrip(c, content);
    var s := NewDecoder(Root(c, content), |content|);
    assert Encode(c, content) == p + Encode(c, content)[|p|..];
    FeedConcat(c, s, p, Encode(c, content)[|p|..]);
  }

  ghost predicate DecodeAll(c: Compress, content: seq<byte>, p: seq<byte>)
    requires |content| < INT64_LIMIT
  {
    var d := Rederive(c, Root(c, content), |content|, p);
    d.Some? && Complete(d.value) && d.value.released == content
  }

  lemma FineWrite(c: Compress, content: seq<byte>, from: nat, n: nat, r: Run, d: Disk)
    requires forall e :: e in r.trace ==> Fine(c, content, from, n, e)
    requires Fine(c, content, from, n, d)
    ensures forall e :: e in r.Write(d).trace ==> Fine(c, content, from, n, e)
  {
  }

  /** Reopening an honest partial leaves what is behind the offset, and writes nothing else. */
  lemma HonestOpened(c: Compress, content: seq<byte>, n: nat, r: Run)
    requires FineRun(c, content, r.upload.disk.row.offset, n, r)
    requires r.upload.disk.row.state.Pending? && HonestPrefix(c, content, r.upload.disk)
    ensures var o := Opened(c, r);
            var row := r.upload.disk.row;
            FineRun(c, content, row.offset, n, o) && CheckpointExact(c, o.upload) && o.upload.disk.row == row
            && |o.upload.disk.partial| == row.offset && o.upload.disk.partial <= Stream(c, content, row.encoding)
            && o.upload.disk.live == r.upload.disk.live
  {
    hide Rederive, Root, EncodedSize, Stream;
    OpenedOk(c, r);
    var d := r.upload.disk;
    var cut := d.(partial := Behind(d));
    assert Behind(cut) == Behind(d);
    assert Clamp(d.partial, 0, d.row.offset) == Behind(d);
    FineWrite(c, content, d.row.offset, n, r, cut);
  }

  /** Whatever part of a genuine body reaches the file, the upload stays fine. */
  lemma HonestAppend(c: Compress, content: seq<byte>, n: nat, r: Run, bytes: seq<byte>)
    requires FineRun(c, content, r.upload.disk.row.offset, n, r) && r.upload.disk.row.state.Pending?
    requires |r.upload.disk.partial| == r.upload.disk.row.offset && HonestPrefix(c, content, r.upload.disk)
    requires r.upload.disk.partial + bytes <= Stream(c, content, r.upload.disk.row.encoding)
    ensures FineRun(c, content, r.upload.disk.row.offset, n, r.Append(bytes))
  {
    hide Rederive, Root, EncodedSize, Stream;
    var d := r.upload.disk;
    AppendOk(c, r, bytes);
    assert Behind(d) == d.partial == Behind(r.Append(bytes).upload.disk);
    forall t | t in TornStates(d, bytes)
      ensures Fine(c, content, d.row.offset, n, t)
    {
      var k :| 0 <= k < |bytes| && t == Torn(d, bytes, k + 1);
      assert Behind(t) == d.partial;
      assert t.partial == (d.partial + bytes)[..|t.partial|];
    }
  }

  /** The verifier takes every honest continuation. */
  lemma HonestAdvance(c: Compress, content: seq<byte>, u: Upload, bytes: seq<byte>)
    requires HonestUpload(c, content, u) && CheckpointExact(c, u) && |u.disk.partial| == u.disk.row.offset
    requires u.disk.partial + bytes <= Stream(c, content, u.disk.row.encoding)
    ensures Advance(c, u, bytes).Some?
  {
    hide Feed, Root, Encode;
    assert Behind(u.disk) == u.disk.partial;
    if u.disk.row.encoding.Bao? {
      PrefixVerifies(c, content, u.disk.partial);
      PrefixVerifies(c, content, u.disk.partial + bytes);
      RederiveMore(c, u.disk.row.digest, u.disk.row.maxSize, u.disk.partial, bytes);
    }
  }

  /** At full length an honest upload verifies, and exactly the content goes live. */
  lemma HonestFinished(c: Compress, content: seq<byte>, from: nat, n: nat, r: Run)
    requires FineRun(c, content, from, n, r) && r.upload.disk.row.state.Pending? && CheckpointExact(c, r.upload)
    requires r.upload.disk.row.offset == |r.upload.disk.partial| == EffTotal(r.upload.disk.row) == from + n
    requires r.upload.disk.partial == Stream(c, content, r.upload.disk.row.encoding)
    ensures var (o, reply) := Finished(c, r);
            FineRun(c, content, from, n, o) && reply == Reply(from + n, true, None)
            && o.upload.disk.row == r.upload.disk.row.(state := Consumed)
  {
    hide Feed, Root, Encode, Rederive, EncodedSize;
    var d := r.upload.disk;
    assert Behind(d) == d.partial;
    if d.row.encoding.Bao? { PrefixVerifies(c, content, d.partial); }
    FinalizedOk(c, r, content);
    var d1 := d.(stored := Some(content), partial := if d.row.encoding.Raw? then [] else d.partial);
    var d2 := d1.(live := true, row := d1.row.(state := Consumed));
    assert Fine(c, content, from, n, d1) && Fine(c, content, from, n, d2)
           && Fine(c, content, from, n, d2.(partial := []));
    assert Finished(c, r) == Finalized(r, content);
  }

  lemma PartExtends(stream: seq<byte>, prefix: seq<byte>, n: nat, k: nat)
    requires prefix <= stream && |prefix| + n <= |stream| && k <= n
    ensures prefix + stream[|prefix|..|prefix| + n][..k] == stream[..|prefix| + k]
  {
  }

  /** An honest upload at a checkpoint, about to take the next n bytes of its stream. */
  ghost predicate Ready(c: Compress, content: seq<byte>, n: nat, r: Run)
  {
    var row := r.upload.disk.row;
    && FineRun(c, content, row.offset, n, r) && row.state.Pending? && CheckpointExact(c, r.upload)
    && |r.upload.disk.partial| == row.offset && r.upload.disk.partial <= Stream(c, content, row.encoding)
    && row.offset + n <= |Stream(c, content, row.encoding)|
  }

  /** A body cut in transit is rolled back. */
  lemma CutIngested(c: Compress, sha: Sha, content: seq<byte>, n: nat, r: Run, k: nat)
    requires Ready(c, content, n, r) && k < n
    ensures var row := r.upload.disk.row;
            var req := PartOf(c, sha, content, row.encoding, row.offset, n, Some(k));
            var (o, reply) := Ingested(c, sha, r, req.claimed.value, req.body);
            FineRun(c, content, row.offset, n, o) && o.upload.disk == r.upload.disk
            && reply == Reply(row.offset, false, Some(Problem(400, DigestMismatch)))
  {
    hide Feed, Root, Encode, Rederive, EncodedSize, Finished, Advance, TornStates, Stream;
    var d := r.upload.disk;
    StreamSize(c, content, d.row);
    var req := PartOf(c, sha, content, d.row.encoding, d.row.offset, n, Some(k));
    var bytes := req.body.bytes;
    assert Taken(d.row, req.body) == bytes;
    PartExtends(Stream(c, content, d.row.encoding), d.partial, n, k);
    assert Behind(d) == d.partial;
    HonestAppend(c, content, n, r, bytes);
    HonestAdvance(c, content, r.upload, bytes);
    TruncateBeyond(c, r.Append(bytes), d.row.offset);
    assert (d.partial + bytes)[..d.row.offset] == d.partial;
    FineWrite(c, content, d.row.offset, n, r.Append(bytes), d);
  }

  /** The state once a whole part and its offset are recorded. */
  function Recorded(c: Compress, r: Run, bytes: seq<byte>): Run
    requires var u := r.upload; if u.disk.row.encoding.Bao? then u.memory.decoder.Some? else u.memory.hasher.Some?
    requires Advance(c, r.upload, bytes).Some?
  {
    r.Append(bytes).SetOffset(r.upload.disk.row.offset + |bytes|).Remember(Advance(c, r.upload, bytes).value)
  }

  lemma HonestRecorded(c: Compress, content: seq<byte>, n: nat, r: Run, bytes: seq<byte>)
    requires Ready(c, content, n, r)
    requires var row := r.upload.disk.row;
             bytes == Stream(c, content, row.encoding)[row.offset..row.offset + n]
    ensures var d := r.upload.disk;
            Advance(c, r.upload, bytes).Some?
            && var o := Recorded(c, r, bytes);
               FineRun(c, content, d.row.offset, n, o) && CheckpointExact(c, o.upload)
               && o.upload.disk.row == d.row.(offset := d.row.offset + n)
               && o.upload.disk.partial == Stream(c, content, d.row.encoding)[..d.row.offset + n]
  {
    hide Feed, Root, Encode, Rederive, EncodedSize, Advance, TornStates, Stream;
    var d := r.upload.disk;
    var stream := Stream(c, content, d.row.encoding);
    StreamSize(c, content, d.row);
    PartExtends(stream, d.partial, n, n);
    assert bytes == bytes[..n];
    HonestAppend(c, content, n, r, bytes);
    HonestAdvance(c, content, r.upload, bytes);
    RecordOk(c, r, bytes);
    var d' := d.(partial := d.partial + bytes, row := d.row.(offset := d.row.offset + n));
    assert Behind(d') == d'.partial;
    FineWrite(c, content, d.row.offset, n, r.Append(bytes), d');
  }

  lemma FineIsSound(c: Compress, content: seq<byte>, from: nat, n: nat, r: Run)
    requires FineRun(c, content, from, n, r)
    ensures HonestUpload(c, content, r.upload)
  {
  }

  /** A whole part moves the offset past it, and the last one completes the object. */
  lemma WholeIngested(c: Compress, sha: Sha, content: seq<byte>, n: nat, r: Run, cut: Option<nat>)
    requires Ready(c, content, n, r) && n > 0 && (cut.Some? ==> n <= cut.value)
    ensures var row := r.upload.disk.row;
            var req := PartOf(c, sha, content, row.encoding, row.offset, n, cut);
            var (o, reply) := Ingested(c, sha, r, req.claimed.value, req.body);
            FineRun(c, content, row.offset, n, o)
            && reply == Reply(row.offset + n, row.offset + n == EffTotal(row), None)
            && o.upload.disk.row == row.(offset := row.offset + n, state := if reply.verified then Consumed
                else Pending)
  {
    hide Feed, Root, Encode, Rederive, EncodedSize, Finished, Advance, TornStates, Stream, FineRun, Run.Append,
         Run.Truncate, Run.Reset;
    var d := r.upload.disk;
    var stream := Stream(c, content, d.row.encoding);
    FineIsSound(c, content, d.row.offset, n, r);
    StreamSize(c, content, d.row);
    var req := PartOf(c, sha, content, d.row.encoding, d.row.offset, n, cut);
    var bytes := stream[d.row.offset..d.row.offset + n];
    assert req.body == Body(bytes, true) && Taken(d.row, req.body) == bytes;
    HonestRecorded(c, content, n, r, bytes);
    if d.row.offset + n == EffTotal(d.row) {
      HonestFinished(c, content, d.row.offset, n, Recorded(c, r, bytes));
    }
  }

  // ----- one exchange -----

  ghost predicate Whole(n: nat, cut: Option<nat>)
  {
    cut.None? || n <= cut.value
  }

  /**
   A genuine part sent to an honest upload: the upload stays honest at every durable state, with its offset where it
   was or just past the part; a reply without a problem means the part was taken where it belongs, and a verified one
   that it was the last. An honest source is never told that its bytes do not verify.
   */
  lemma HonestPatched(c: Compress, sha: Sha, content: seq<byte>, r: Run, now: int, enc: Encoding, offset: nat, n: nat,
                      cut: Option<nat>)
    requires FineRun(c, content, r.upload.disk.row.offset, n, r) && n > 0
    requires offset + n <= |Stream(c, content, enc)|
    ensures var row := r.upload.disk.row;
            var (o, reply) := Patched(c, sha, r, now, PartOf(c, sha, content, enc, offset, n, cut));
            var next := o.upload.disk.row;
            FineRun(c, content, row.offset, n, o)
            && (reply.problem.Some? ==>
                  next.offset == row.offset && !reply.verified
                  && NotBlamed(reply.problem.value.code, row.offset != 0 && row.encoding != enc)
                  && (reply.problem.value.code.ReservationInvalid? ==> row.state.Consumed?)
                  && (reply.problem.value.code.ReservationExpired? ==> next.state.Expired?))
            && (reply.problem.None? ==>
                  row.offset == offset && reply.offset == next.offset == offset + n && next.encoding == enc
                  && (reply.verified <==> offset + n == |Stream(c, content, enc)|)
                  && next.state == if reply.verified then Consumed else Pending)
            && (row.state.Pending? && now <= row.expires && offset == row.offset && (offset > 0 ==> enc == row.encoding)
                && Whole(n, cut) ==>
                  reply.problem.None?
                  && next == row.(offset := offset + n, encoding := enc, state := if reply.verified then Consumed
                      else Pending))
  {
    hide Root, Encode, Rederive, EncodedSize, Stream, CorePatched, Opened, Ingested, FineRun, DiskOk, MemoryOk;
    FineIsSound(c, content, r.upload.disk.row.offset, n, r);
    var row := r.upload.disk.row;
    if row.state.Pending? && now <= row.expires {
      var bound := EncodingBound(r, Some(enc));
      if bound.1.None? {
        BoundFine(c, content, n, r, enc);
        HonestCore(c, sha, content, bound.0, offset, n, cut);
      }
    } else {
      LoadedFine(c, content, n, r, now);
    }
  }

  /** The answers an honest request may get: never that the source's bytes are wrong. */
  predicate NotBlamed(code: Code, switched: bool)
  {
    code in {ReservationInvalid, ReservationExpired, OffsetMismatch, DigestMismatch} || (code == Malformed && switched)
  }

  lemma LoadedFine(c: Compress, content: seq<byte>, n: nat, r: Run, now: int)
    requires FineRun(c, content, r.upload.disk.row.offset, n, r)
    ensures FineRun(c, content, r.upload.disk.row.offset, n, Loaded(r, now).0)
    ensures Loaded(r, now).0.upload.disk.row.offset == r.upload.disk.row.offset
  {
    hide Root, Rederive, EncodedSize, Stream;
    LoadedOk(c, r, now);
  }

  /** Binding the encoding is honest; unless it is refused, the upload is now a prefix of that encoding's stream. */
  lemma BoundFine(c: Compress, content: seq<byte>, n: nat, r: Run, enc: Encoding)
    requires FineRun(c, content, r.upload.disk.row.offset, n, r) && r.upload.disk.row.state.Pending?
    requires EncodingBound(r, Some(enc)).1.None?
    ensures var o := EncodingBound(r, Some(enc)).0;
            FineRun(c, content, r.upload.disk.row.offset, n, o)
              && o.upload.disk.row == r.upload.disk.row.(encoding := enc)
  {
    hide Root, Rederive, EncodedSize, Stream;
    EncodingBoundOk(c, r, Some(enc));
  }

  lemma HonestCore(c: Compress, sha: Sha, content: seq<byte>, r: Run, offset: nat, n: nat, cut: Option<nat>)
    requires FineRun(c, content, r.upload.disk.row.offset, n, r) && n > 0 && r.upload.disk.row.state.Pending?
    requires offset + n <= |Stream(c, content, r.upload.disk.row.encoding)|
    ensures var row := r.upload.disk.row;
            var req := PartOf(c, sha, content, row.encoding, offset, n, cut);
            var (o, reply) := CorePatched(c, sha, r, req.claimed.value, offset, req.body);
            var next := o.upload.disk.row;
            FineRun(c, content, row.offset, n, o)
            && (reply.problem.Some? ==>
                  next.offset == row.offset && !reply.verified
                  && reply.problem.value.code in {OffsetMismatch, DigestMismatch})
            && (reply.problem.None? ==>
                  row.offset == offset && reply.offset == next.offset == offset + n && next.encoding == row.encoding
                  && (reply.verified <==> offset + n == |Stream(c, content, row.encoding)|)
                  && next.state == if reply.verified then Consumed else Pending)
            && (offset == row.offset && Whole(n, cut) ==>
                  reply.problem.None?
                  && next == row.(offset := offset + n, state := if reply.verified then Consumed else Pending))
  {
    hide Root, Encode, Rederive, EncodedSize, Stream, Opened, Ingested, DiskOk, MemoryOk, CheckpointExact;
    var row := r.upload.disk.row;
    StreamSize(c, content, row);
    if offset == row.offset {
      assert HonestPrefix(c, content, r.upload.disk);
      HonestOpened(c, content, n, r);
      if Whole(n, cut) {
        WholeIngested(c, sha, content, n, Opened(c, r), cut);
      } else {
        CutIngested(c, sha, content, n, Opened(c, r), cut.value);
      }
    }
  }

  // ----- the push loop -----

  function Arriving(u: Upload, fate: Fate): Upload
  {
    if fate.restarted then u.(memory := FORGOTTEN) else u
  }

  /** The receiver after a request, and what the pusher hears of it. */
  function Heard<T>(u: Upload, fate: Fate, r: Run, answer: T): (Upload, Option<T>)
  {
    if !fate.arrives then (u, None)
    else if fate.crash.Some? then (Upload(After(u, r.trace, fate.crash.value), FORGOTTEN), None)
    else (r.upload, if fate.answered then Some(answer) else None)
  }

  /** What can become of a request: the receiver may restart before it and crash in it, and the reply may be lost. */
  lemma FateIs<T>(u: Upload, fate: Fate, r: Run, answer: T)
    ensures Arriving(u, fate) == Upload(u.disk, if fate.restarted then Checkpoint(None, None) else u.memory)
    ensures var (next, heard) := Heard(u, fate, r, answer);
            && (!fate.arrives ==> next == u)
            && (fate.arrives && fate.crash.None? ==> next == r.upload)
            && (fate.arrives && fate.crash.Some? ==>
                  next.memory == Checkpoint(None, None)
                  && next.disk == if 0 < fate.crash.value <= |r.trace| then r.trace[fate.crash.value - 1] else u.disk)
            && heard == if fate.arrives && fate.crash.None? && fate.answered then Some(answer) else None
  {
  }

  /** A genuine request that may arrive at any time, whoever sent it and whatever has become of its sender. */
  datatype Part = Part(enc: Encoding, offset: nat, n: nat, fate: Fate)

  predicate Genuine(c: Compress, content: seq<byte>, p: Part)
  {
    p.n > 0 && p.offset + p.n <= |Stream(c, content, p.enc)|
  }

  function After1(c: Compress, sha: Sha, content: seq<byte>, u: Upload, p: Part): Upload
    requires Genuine(c, content, p)
  {
    var r := Patched(c, sha, Run(Arriving(u, p.fate), []), p.fate.now,
                     PartOf(c, sha, content, p.enc, p.offset, p.n, p.fate.cut));
    Heard(Arriving(u, p.fate), p.fate, r.0, r.1).0
  }

  function AfterAll(c: Compress, sha: Sha, content: seq<byte>, u: Upload, parts: seq<Part>): Upload
    requires forall p :: p in parts ==> Genuine(c, content, p)
    decreases |parts|
  {
    if parts == [] then u
    else
      var last := parts[|parts| - 1];
      assert forall p :: p in parts[..|parts| - 1] ==> p in parts;
      After1(c, sha, content, AfterAll(c, sha, content, u, parts[..|parts| - 1]), last)
  }

  /** Parts arrive one after the other. */
  lemma {:induction false} ArriveInTurn(c: Compress, sha: Sha, content: seq<byte>, u: Upload, p: Part,
                                        parts: seq<Part>)
    requires Genuine(c, content, p) && forall q :: q in parts ==> Genuine(c, content, q)
    ensures AfterAll(c, sha, content, u, []) == u
    ensures AfterAll(c, sha, content, u, [p] + parts)
            == AfterAll(c, sha, content, After1(c, sha, content, u, p), parts)
    decreases |parts|
  {
    hide After1, Genuine;
    if parts == [] {
      assert [p] + [] == [p] && [p][..0] == [];
    } else {
      var n := |parts| - 1;
      assert forall q :: q in parts[..n] ==> q in parts;
      assert ([p] + parts)[..n + 1] == [p] + parts[..n] && ([p] + parts)[n + 1] == parts[n];
      ArriveInTurn(c, sha, content, u, p, parts[..n]);
    }
  }

  /** A part that does not start at the recorded offset moves nothing, at no durable write. */
  lemma MismatchStays(c: Compress, sha: Sha, content: seq<byte>, r: Run, now: int, enc: Encoding, offset: nat, n: nat,
                      cut: Option<nat>)
    requires FineRun(c, content, r.upload.disk.row.offset, 0, r) && offset != r.upload.disk.row.offset
    requires offset + n <= |Stream(c, content, enc)|
    ensures FineRun(c, content, r.upload.disk.row.offset, 0,
                    Patched(c, sha, r, now, PartOf(c, sha, content, enc, offset, n, cut)).0)
  {
    hide Root, Encode, Rederive, EncodedSize, Stream, Opened, Ingested, FineRun, DiskOk, MemoryOk;
    FineIsSound(c, content, r.upload.disk.row.offset, 0, r);
    if r.upload.disk.row.state.Pending? && now <= r.upload.disk.row.expires {
      if EncodingBound(r, Some(enc)).1.None? { BoundFine(c, content, 0, r, enc); }
    } else {
      LoadedFine(c, content, 0, r, now);
    }
  }

  lemma OnePart(c: Compress, sha: Sha, content: seq<byte>, u: Upload, p: Part)
    requires HonestUpload(c, content, u) && Genuine(c, content, p)
    ensures var v := After1(c, sha, content, u, p);
            && HonestUpload(c, content, v)
            && (v.disk.row.offset == u.disk.row.offset
                || (u.disk.row.offset == p.offset && v.disk.row.offset == p.offset + p.n))
  {
    hide Root, Encode, Rederive, EncodedSize, Stream, Patched, FineRun, HonestUpload;
    var w := Arriving(u, p.fate);
    var r := Patched(c, sha, Run(w, []), p.fate.now, PartOf(c, sha, content, p.enc, p.offset, p.n, p.fate.cut));
    if p.offset == u.disk.row.offset {
      HonestArrival(c, content, u, p.fate, p.n);
      HonestPatched(c, sha, content, Run(w, []), p.fate.now, p.enc, p.offset, p.n, p.fate.cut);
      HonestHeard(c, content, w, p.fate, p.n, r.0, r.1);
    } else {
      HonestArrival(c, content, u, p.fate, 0);
      MismatchStays(c, sha, content, Run(w, []), p.fate.now, p.enc, p.offset, p.n, p.fate.cut);
      HonestHeard(c, content, w, p.fate, 0, r.0, r.1);
    }
  }

  /**
   Genuine requests in any number and order, late, repeated or from several pushers at once, whatever their fates: the
   whole partial stays a prefix of a stream, and the ranges that moved the offset follow one another, each one a
   request's.
   */
  lemma {:induction false} AnyGenuineRequests(c: Compress, sha: Sha, content: seq<byte>, u: Upload, parts: seq<Part>)
    returns (ranges: seq<(nat, nat)>)
    requires HonestUpload(c, content, u) && forall p :: p in parts ==> Genuine(c, content, p)
    ensures var v := AfterAll(c, sha, content, u, parts);
            && HonestUpload(c, content, v) && FromStream(c, content, v.disk)
            && Consecutive(ranges, u.disk.row.offset, v.disk.row.offset)
    ensures forall x :: x in ranges ==> exists p :: p in parts && x == (p.offset, p.offset + p.n)
    decreases |parts|
  {
    hide UploadOk, After1, Stream;
    if parts == [] { return []; }
    var front, last := parts[..|parts| - 1], parts[|parts| - 1];
    assert parts == front + [last];
    ranges := AnyGenuineRequests(c, sha, content, u, front);
    var mid := AfterAll(c, sha, content, u, front);
    OnePart(c, sha, content, mid, last);
    var v := AfterAll(c, sha, content, u, parts);
    if v.disk.row.offset != mid.disk.row.offset {
      NextRange(ranges, u.disk.row.offset, mid.disk.row.offset, v.disk.row.offset);
      ranges := ranges + [(last.offset, last.offset + last.n)];
    }
  }

  datatype PushState = Waiting | Pushing | Done | Failed | Lapsed

  datatype PushOutcome = Verified | Renegotiate | SourceMismatch | Refused(problem: Seen) | GaveUp

  /** A problem as the pusher reads it: the code stands in the body only. */
  datatype Seen = Seen(status: nat, code: Option<Code>)

  function ReadProblem(problem: Problem, body: bool): Seen
  {
    Seen(problem.status, if body then Some(problem.code) else None)
  }

  function ReadHead(answer: Result<(nat, nat), Problem>): Result<(nat, nat), Seen>
  {
    match answer
    case Ok(x) => Ok(x)
    case Err(problem) => Err(ReadProblem(problem, false))
  }

  /** What is left of the receiver's refusals when they answer a HEAD, whose replies have no body. */
  const GONE := Seen(410, None)

  /** One request of a push, and what came back. */
  datatype Exchange = Asked(answer: Option<Result<(nat, nat), Seen>>) | Sent(offset: nat, n: nat, reply: Option<Reply>)

  predicate RefusedHead(e: Exchange)
  {
    e.Asked? && e.answer.Some? && e.answer.value.Err?
  }

  predicate GonePatch(e: Exchange)
  {
    e.Sent? && e.reply.Some? && e.reply.value.problem.Some?
    && e.reply.value.problem.value.code in {ReservationExpired, ReservationInvalid}
  }

  ghost predicate AnyRefusedHead(log: seq<Exchange>)
  {
    exists e :: e in log && RefusedHead(e)
  }

  ghost predicate AnyGonePatch(log: seq<Exchange>)
  {
    exists e :: e in log && GonePatch(e)
  }

  /** How many times the receiver was asked for its offset. */
  ghost function Asks(log: seq<Exchange>): nat
  {
    if log == [] then 0 else Asks(log[..|log| - 1]) + if log[|log| - 1].Asked? then 1 else 0
  }

  /** Every part is of the size of a chunk, or smaller and the last of a stream. */
  ghost predicate InChunks(c: Compress, content: seq<byte>, chunk: nat, log: seq<Exchange>)
  {
    forall e :: e in log && e.Sent? ==>
      0 < e.n <= chunk && (e.n == chunk || e.offset + e.n in {|content|, |Encode(c, content)|})
  }

  lemma OneMorePart(c: Compress, content: seq<byte>, chunk: nat, log: seq<Exchange>, e: Exchange)
    requires InChunks(c, content, chunk, log)
    requires e.Sent? ==> 0 < e.n <= chunk
    requires e.Sent? && e.n < chunk ==> exists enc :: e.offset + e.n == |Stream(c, content, enc)|
    ensures InChunks(c, content, chunk, log + [e])
  {
    hide Encode;
  }

  lemma NothingSent(c: Compress, content: seq<byte>, chunk: nat)
    ensures InChunks(c, content, chunk, []) && Asks([]) == 0
  {
  }

  lemma OneMore(log: seq<Exchange>, e: Exchange)
    ensures AnyRefusedHead(log + [e]) <==> AnyRefusedHead(log) || RefusedHead(e)
    ensures AnyGonePatch(log + [e]) <==> AnyGonePatch(log) || GonePatch(e)
    ensures !AnyRefusedHead([]) && !AnyGonePatch([])
    ensures Asks(log + [e]) == Asks(log) + if e.Asked? then 1 else 0
  {
    hide RefusedHead, GonePatch;
    assert (log + [e])[..|log|] == log;
    if RefusedHead(e) || GonePatch(e) { assert e in log + [e]; }
    if x :| x in log && RefusedHead(x) { assert x in log + [e]; }
    if x :| x in log && GonePatch(x) { assert x in log + [e]; }
  }

  /** No refusal that ends a push. */
  ghost predicate Quiet(log: seq<Exchange>)
  {
    !AnyRefusedHead(log) && !AnyGonePatch(log)
  }

  predicate Open(row: Row, now: int)
  {
    row.state.Pending? && now <= row.expires
  }

  /** The request arrives and its reply comes back. */
  predicate Delivered(fate: Fate)
  {
    fate.arrives && fate.crash.None? && fate.answered
  }

  /** The ranges follow one another from one offset to the other, without gap or overlap. */
  ghost predicate Consecutive(ranges: seq<(nat, nat)>, from: nat, to: nat)
    decreases |ranges|
  {
    if ranges == [] then from == to
    else Last(ranges).0 < Last(ranges).1 == to && Consecutive(Pop(ranges), from, Last(ranges).0)
  }

  /** Each range is not empty and starts where the one before it ends. */
  lemma {:induction false} ConsecutiveIs(ranges: seq<(nat, nat)>, from: nat, to: nat)
    ensures Consecutive(ranges, from, to)
            <==> if ranges == [] then from == to
                 else
                   && ranges[0].0 == from && ranges[|ranges| - 1].1 == to
                   && (forall i :: 0 <= i < |ranges| ==> ranges[i].0 < ranges[i].1)
                   && forall i :: 0 < i < |ranges| ==> ranges[i].0 == ranges[i - 1].1
    decreases |ranges|
  {
    if ranges != [] {
      var front := Pop(ranges);
      ConsecutiveIs(front, from, Last(ranges).0);
      if |ranges| > 1 {
        assert front[0] == ranges[0] && front[|front| - 1] == ranges[|ranges| - 2];
        assert forall i :: 0 <= i < |front| ==> front[i] == ranges[i];
      }
    }
  }

  lemma NextRange(ranges: seq<(nat, nat)>, from: nat, mid: nat, to: nat)
    requires Consecutive(ranges, from, mid) && mid < to
    ensures Consecutive(ranges + [(mid, to)], from, to)
  {
    assert Pop(ranges + [(mid, to)]) == ranges;
  }

  /** The encoded size tells the encodings apart: a HEAD reveals the binding. */
  lemma LengthRevealsEncoding(row: Row)
    ensures EncodedSize(row.maxSize) != row.maxSize
    ensures EffTotal(row) == EncodedSize(row.maxSize) <==> row.encoding.Bao?
  {
  }

  lemma HonestArrival(c: Compress, content: seq<byte>, u: Upload, fate: Fate, n: nat)
    requires HonestUpload(c, content, u)
    ensures HonestUpload(c, content, Arriving(u, fate)) && Arriving(u, fate).disk == u.disk
    ensures FineRun(c, content, u.disk.row.offset, n, Run(Arriving(u, fate), []))
  {
    hide Rederive, Root, EncodedSize, Stream;
  }

  /** Whatever fate a fine request meets, the receiver it leaves is honest and has moved by nothing or by n. */
  lemma HonestHeard<T>(c: Compress, content: seq<byte>, u: Upload, fate: Fate, n: nat, r: Run, answer: T)
    requires HonestUpload(c, content, u) && FineRun(c, content, u.disk.row.offset, n, r)
    ensures var next := Heard(u, fate, r, answer).0;
            HonestUpload(c, content, next) && Fine(c, content, u.disk.row.offset, n, next.disk)
  {
    hide Rederive, Root, EncodedSize, Stream, HonestDisk, DiskOk;
    if fate.crash.Some? && 0 < fate.crash.value <= |r.trace| {
      assert After(u, r.trace, fate.crash.value) in r.trace;
    }
  }

  /** One part sent from the recorded offset, under any fate. */
  lemma SentPart(c: Compress, sha: Sha, content: seq<byte>, u: Upload, fate: Fate, enc: Encoding, offset: nat, n: nat)
    requires HonestUpload(c, content, u) && n > 0 && offset + n <= |Stream(c, content, enc)|
    requires offset == u.disk.row.offset && (offset > 0 ==> u.disk.row.encoding == enc)
    ensures var w := Arriving(u, fate);
            var r := Patched(c, sha, Run(w, []), fate.now, PartOf(c, sha, content, enc, offset, n, fate.cut));
            var (next, answer) := Heard(w, fate, r.0, r.1);
            var row := next.disk.row;
            && HonestUpload(c, content, next) && row.offset in {offset, offset + n}
            && (answer.Some? && answer.value.problem.Some? ==>
                  NotBlamed(answer.value.problem.value.code, false)
                  && (answer.value.problem.value.code.ReservationInvalid? ==> u.disk.row.state.Consumed?)
                  && (answer.value.problem.value.code.ReservationExpired? ==> row.state.Expired?))
            && (answer.Some? && answer.value.problem.None? ==>
                  row.offset == answer.value.offset == offset + n && row.encoding == enc
                  && (answer.value.verified <==> offset + n == |Stream(c, content, enc)|)
                  && row.state == if answer.value.verified then Consumed else Pending)
            && (fate.now <= u.disk.row.expires && u.disk.row.state.Pending? && fate.arrives && fate.cut.None?
                && fate.crash.None? && fate.answered ==>
                  answer.Some? && answer.value.problem.None? && row.expires == u.disk.row.expires)
  {
    hide Stream, FineRun, Patched, HonestUpload, PartOf, Arriving;
    var w := Arriving(u, fate);
    var r := Patched(c, sha, Run(w, []), fate.now, PartOf(c, sha, content, enc, offset, n, fate.cut));
    HonestArrival(c, content, u, fate, n);
    HonestPatched(c, sha, content, Run(w, []), fate.now, enc, offset, n, fate.cut);
    HonestHeard(c, content, w, fate, n, r.0, r.1);
  }

  /** A network and a reservation that never fail. */
  ghost predicate Reliable(fates: nat -> Fate, expires: int)
  {
    forall i :: var f := fates(i); f.now <= expires && f.arrives && f.cut.None? && f.crash.None? && f.answered
  }

  class Pusher {
    const c: Compress
    const sha: Sha
    const content: seq<byte>
    const chunk: nat
    const attempts: nat
    const wantBao: bool
    var receiver: Upload
    var state: PushState
    /** What the queue row claims the receiver holds: never more than it does. */
    var confirmed: nat
    ghost const from: nat
    ghost var accepted: seq<(nat, nat)>
    ghost var log: seq<Exchange>

    ghost predicate Valid()
      reads this
    {
      && chunk > 0 && HonestUpload(c, content, receiver)
      && Consecutive(accepted, from, receiver.disk.row.offset)
      && confirmed <= receiver.disk.row.offset
    }

    constructor (c: Compress, sha: Sha, content: seq<byte>, chunk: nat, attempts: nat, wantBao: bool, receiver: Upload)
      requires chunk > 0 && HonestUpload(c, content, receiver)
      ensures Valid() && this.receiver == receiver && this.c == c && this.content == content
    {
      this.c, this.sha, this.content, this.chunk, this.attempts, this.wantBao := c, sha, content, chunk, attempts,
          wantBao;
      this.receiver, state, confirmed := receiver, Waiting, 0;
      from, accepted, log := receiver.disk.row.offset, [], [];
    }

    method Head(fate: Fate) returns (answer: Option<Result<(nat, nat), Seen>>)
      requires Valid()
      modifies this`receiver, this`log
      ensures Valid() && log == old(log) + [Asked(answer)]
      ensures receiver.disk.row.(state := old(receiver.disk.row.state)) == old(receiver.disk.row)
      ensures old(receiver.disk.row.state.Consumed?) ==> receiver.disk.row.state.Consumed?
      ensures answer.Some? ==>
                match answer.value
                case Ok((offset, length)) =>
                  Open(old(receiver.disk.row), fate.now) && receiver.disk == old(receiver.disk)
                  && offset == receiver.disk.row.offset && length == EffTotal(receiver.disk.row)
                case Err(problem) => !Open(old(receiver.disk.row), fate.now) && problem == GONE
      ensures Delivered(fate) ==> answer.Some?
    {
      hide Rederive, Root, EncodedSize, Stream, FineRun, DiskOk, MemoryOk, HonestDisk;
      var u := Arriving(receiver, fate);
      var r := HeadRead(Run(u, []), fate.now, true);
      HonestArrival(c, content, receiver, fate, 0);
      LoadedFine(c, content, 0, Run(u, []), fate.now);
      HonestHeard(c, content, u, fate, 0, r.0, r.1);
      HeadKeeps(u, fate, r.0, r.1);
      var next := Heard(u, fate, r.0, r.1);
      receiver := next.0;
      answer := if next.1.None? then None else Some(ReadHead(next.1.value));
      log := log + [Asked(answer)];
    }

    method Send(fate: Fate, enc: Encoding, offset: nat, n: nat) returns (answer: Option<Reply>)
      requires Valid() && n > 0 && offset + n <= |Stream(c, content, enc)|
      requires offset == receiver.disk.row.offset && (offset > 0 ==> receiver.disk.row.encoding == enc)
      modifies this`receiver, this`accepted, this`log
      ensures Valid() && receiver.disk.row.offset in {offset, offset + n} && log == old(log) + [Sent(offset, n, answer)]
      ensures answer.Some? && answer.value.problem.Some? ==>
                NotBlamed(answer.value.problem.value.code, false)
                && (answer.value.problem.value.code.ReservationInvalid? ==> old(receiver.disk.row.state.Consumed?))
                && (answer.value.problem.value.code.ReservationExpired? ==> receiver.disk.row.state.Expired?)
      ensures answer.Some? && answer.value.problem.None? ==>
                receiver.disk.row.offset == answer.value.offset == offset + n && receiver.disk.row.encoding == enc
                && (answer.value.verified <==> offset + n == |Stream(c, content, enc)|)
                && receiver.disk.row.state == if answer.value.verified then Consumed else Pending
      ensures fate.now <= old(receiver.disk.row.expires) && old(receiver.disk.row.state.Pending?) && fate.arrives
              && fate.cut.None?
              && fate.crash.None? && fate.answered ==>
                answer.Some? && answer.value.problem.None?
                && receiver.disk.row.expires == old(receiver.disk.row.expires)
    {
      hide Stream, Patched, HonestUpload, PartOf, Arriving, Heard, Consecutive;
      var u := Arriving(receiver, fate);
      var r := Patched(c, sha, Run(u, []), fate.now, PartOf(c, sha, content, enc, offset, n, fate.cut));
      SentPart(c, sha, content, receiver, fate, enc, offset, n);
      var next := Heard(u, fate, r.0, r.1);
      receiver, answer := next.0, next.1;
      if receiver.disk.row.offset > offset {
        NextRange(accepted, from, offset, receiver.disk.row.offset);
        accepted := accepted + [(offset, receiver.disk.row.offset)];
      }
      log := log + [Sent(offset, n, answer)];
    }

    method Classify(problem: Seen) returns (outcome: PushOutcome)
      modifies this`state
      ensures state == Lapsed <==> problem.code == Some(ReservationExpired)
      ensures state in {Lapsed, Failed}
      ensures outcome.Renegotiate? <==> problem.code in {Some(ReservationExpired), Some(ReservationInvalid)}
      ensures outcome.SourceMismatch? <==> problem.code == Some(HashMismatch)
      ensures outcome.Renegotiate? || outcome.SourceMismatch? || outcome == Refused(problem)
    {
      state := if problem.code == Some(ReservationExpired) then Lapsed else Failed;
      outcome := match problem.code
        case Some(ReservationExpired) => Renegotiate
        case Some(ReservationInvalid) => Renegotiate
        case Some(HashMismatch) => SourceMismatch
        case _ => Refused(problem);
    }

    /** The encoding a push adopts: the bound one once there is an offset, else the one the capabilities ask for. */
    function Chosen(row: Row): Encoding
      reads this
    {
      if row.offset > 0 then row.encoding else if wantBao then Bao else Raw
    }

    /** Step 3: PATCH what remains, until a reply is lost or asks for a new HEAD. */
    method PushFrom(fates: nat -> Fate, at: nat, enc: Encoding) returns (outcome: Option<PushOutcome>, next: nat)
      requires Valid() && receiver.disk.row.state.Pending? && Quiet(log) && InChunks(c, content, chunk, log)
      requires receiver.disk.row.offset > 0 ==> receiver.disk.row.encoding == enc
      modifies this
      ensures Valid() && InChunks(c, content, chunk, log) && Asks(log) == Asks(old(log))
      ensures match outcome
              case None => state == Pushing && Quiet(log)
              case Some(end) =>
                (end == Verified && state == Done && Quiet(log))
                || (end == Renegotiate && state == Lapsed && receiver.disk.row.state.Expired?
                    && !AnyRefusedHead(log) && AnyGonePatch(log))
      ensures outcome == Some(Verified) ==>
                receiver.disk.row.state.Consumed? && confirmed == receiver.disk.row.offset == |Stream(c, content, enc)|
      ensures Reliable(fates, old(receiver.disk.row.expires)) && old(receiver.disk.row.state.Pending?) ==>
                if old(receiver.disk.row.offset) < |Stream(c, content, enc)| then outcome == Some(Verified)
                else outcome.None? && receiver == old(receiver)
    {
      hide Rederive, Root, EncodedSize, Stream, HonestUpload, Consecutive, AnyRefusedHead, AnyGonePatch, InChunks, Asks;
      var offset, size := receiver.disk.row.offset, |Stream(c, content, enc)|;
      next, state, confirmed := at, Pushing, offset;
      while offset < size
        invariant Valid() && state == Pushing && offset == receiver.disk.row.offset && receiver.disk.row.state.Pending?
        invariant Quiet(log) && InChunks(c, content, chunk, log) && Asks(log) == Asks(old(log))
        invariant offset > 0 ==> receiver.disk.row.encoding == enc
        invariant Reliable(fates, old(receiver.disk.row.expires)) && old(receiver.disk.row.state.Pending?) ==>
                    receiver.disk.row.expires == old(receiver.disk.row.expires)
                    && (offset > old(receiver.disk.row.offset) ==> offset < size)
                    && (offset == old(receiver.disk.row.offset) ==> receiver == old(receiver))
      {
        var n := if size - offset < chunk then size - offset else chunk;
        ghost var before := log;
        var reply := Send(fates(next), enc, offset, n);
        OneMore(before, Sent(offset, n, reply));
        OneMorePart(c, content, chunk, before, Sent(offset, n, reply));
        next := next + 1;
        if reply.None? { return None, next; }
        if reply.value.problem.Some? {
          if reply.value.problem.value.code in {DigestMismatch, OffsetMismatch} { return None, next; }
          var failed := Classify(ReadProblem(reply.value.problem.value, true));
          return Some(failed), next;
        }
        offset := reply.value.offset;
        confirmed := offset;
        if reply.value.verified {
          state := Done;
          return Some(Verified), next;
        }
      }
      outcome := None;
    }

    /**
     The whole push. A refused PATCH asks for a new reservation only when the old one has expired; a refused HEAD never
     does, because its code is lost with the body.
     */
    method Push(now: int, expires: int, fates: nat -> Fate) returns (outcome: PushOutcome)
      requires Valid()
      modifies this
      ensures Valid()
      ensures outcome in {Verified, Renegotiate, Refused(GONE), GaveUp}
      ensures state == match outcome case Verified => Done case Renegotiate => Lapsed case _ => Failed
      ensures outcome.Renegotiate? <==> now > expires || AnyGonePatch(log)
      ensures outcome.Renegotiate? && now <= expires ==> receiver.disk.row.state.Expired?
      ensures outcome.Refused? <==> AnyRefusedHead(log)
      ensures InChunks(c, content, chunk, log) && Asks(log) <= attempts
      ensures outcome.GaveUp? ==> Asks(log) == attempts
      ensures now <= expires && attempts > 0 && Delivered(fates(0)) && !Open(old(receiver.disk.row), fates(0).now) ==>
                outcome == Refused(GONE)
      ensures outcome.Verified? ==>
                receiver.disk.live && receiver.disk.stored == Some(content) && confirmed == receiver.disk.row.offset
      ensures old(receiver.disk.row.state.Consumed?) ==> !outcome.Verified?
      ensures now <= expires && attempts > 0 && Reliable(fates, old(receiver.disk.row.expires))
              && old(receiver.disk.row.state.Pending?) ==>
                (outcome.Verified?
                 <==> old(receiver.disk.row.offset) < |Stream(c, content, Chosen(old(receiver.disk.row)))|)
    {
      hide Rederive, Root, EncodedSize, Stream, HonestUpload, Consecutive, AnyRefusedHead, AnyGonePatch, InChunks, Asks;
      HonestFacts(c, content, receiver);
      log := [];
      OneMore([], Asked(None));
      NothingSent(c, content, chunk);
      if now > expires {
        state, confirmed := Lapsed, 0;
        return Renegotiate;
      }
      state := Pushing;
      var next := 0;
      for attempt := 0 to attempts
        invariant Valid() && state == Pushing && Quiet(log) && InChunks(c, content, chunk, log) && Asks(log) == attempt
        invariant attempt == 0 ==> next == 0 && receiver == old(receiver)
        invariant attempt > 0 && Delivered(fates(0)) ==> Open(old(receiver.disk.row), fates(0).now)
        invariant old(receiver.disk.row.state.Consumed?) ==> receiver.disk.row.state.Consumed?
        invariant Reliable(fates, old(receiver.disk.row.expires)) && old(receiver.disk.row.state.Pending?) ==>
                    receiver.disk == old(receiver.disk)
                    && (attempt > 0 ==> receiver.disk.row.offset >= |Stream(c, content, Chosen(receiver.disk.row))|)
      {
        ghost var before := log;
        var answer := Head(fates(next));
        next := next + 1;
        OneMore(before, Asked(answer));
        OneMorePart(c, content, chunk, before, Asked(answer));
        if answer.Some? {
          if answer.value.Err? {
            outcome := Classify(answer.value.error);
            return;
          }
          var (offset, length) := answer.value.value;
          var useBao := if offset > 0 then length == EncodedSize(|content|) && length != |content| else wantBao;
          HonestFacts(c, content, receiver);
          LengthRevealsEncoding(receiver.disk.row);
          var done;
          done, next := PushFrom(fates, next, if useBao then Bao else Raw);
          HonestFacts(c, content, receiver);
          if done.Some? { return done.value; }
        }
      }
      state := Failed;
      return GaveUp;
    }
  }

  /** A fresh reservation for the content is the start of an honest push. */
  lemma FreshIsHonest(c: Compress, content: seq<byte>, expires: int)
    requires |content| < INT64_LIMIT
    ensures HonestUpload(c, content,
              Upload(Disk(Row(Root(c, content), |content|, expires, Pending, 0, Raw), [], None, false), FORGOTTEN))
  {
    hide Root, Encode;
  }

  lemma HonestFacts(c: Compress, content: seq<byte>, u: Upload)
    requires HonestUpload(c, content, u)
    ensures u.disk.row.maxSize == |content|
    ensures u.disk.row.state.Consumed? ==> u.disk.live && u.disk.stored == Some(content)
  {
  }

  lemma HeadKeeps(u: Upload, fate: Fate, r: Run, answer: Result<(nat, nat), Problem>)
    requires (r, answer) == HeadRead(Run(u, []), fate.now, true)
    ensures var next := Heard(u, fate, r, answer).0.disk;
            next.row.(state := u.disk.row.state) == u.disk.row
            && (u.disk.row.state.Consumed? ==> next.row.state.Consumed?)
            && (Open(u.disk.row, fate.now) ==> next == u.disk)
    ensures match answer
            case Ok(_) => Open(u.disk.row, fate.now)
            case Err(problem) => !Open(u.disk.row, fate.now) && ReadProblem(problem, false) == GONE
  {
  }

  /** The part that ends the stream, from where an open upload stands. */
  ghost predicate FinalPart(c: Compress, content: seq<byte>, u: Upload, p: Part)
  {
    && Open(u.disk.row, p.fate.now) && p.enc == u.disk.row.encoding && p.offset == u.disk.row.offset
    && p.n > 0 && p.offset + p.n == |Stream(c, content, p.enc)|
  }

  /** The HEAD is answered with a refusal the pusher cannot read, and changes nothing. */
  predicate AnswersGone(u: Upload, fate: Fate)
  {
    var (r, answer) := HeadRead(Run(u, []), fate.now, true);
    Heard(u, fate, r, answer) == (u, Some(answer)) && ReadHead(answer) == Err(GONE)
  }

  /**
   When only the reply to the last part is lost, the receiver holds the content, and every HEAD delivered after it is
   answered with a refusal the pusher cannot read.
   */
  lemma LostFinalReply(c: Compress, sha: Sha, content: seq<byte>, u: Upload, p: Part, again: Fate)
    requires HonestUpload(c, content, u) && FinalPart(c, content, u, p)
    requires p.fate.arrives && p.fate.cut.None? && p.fate.crash.None? && Delivered(again)
    ensures var v := After1(c, sha, content, u, p);
            && v.disk.row.state.Consumed? && v.disk.live && v.disk.stored == Some(content)
            && AnswersGone(Arriving(v, again), again)
  {
    hide Root, Encode, Rederive, EncodedSize, Stream, Patched, FineRun, HonestUpload, PartOf;
    HonestArrival(c, content, u, p.fate, p.n);
    HonestPatched(c, sha, content, Run(Arriving(u, p.fate), []), p.fate.now, p.enc, p.offset, p.n, p.fate.cut);
    OnePart(c, sha, content, u, p);
    HonestFacts(c, content, After1(c, sha, content, u, p));
  }
}
