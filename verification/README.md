# Medialet: verified model

Medialet is a federated delivery protocol. A message (a medialet) travels in signed envelopes between domains; its
media objects are named by their BLAKE3 digest, offered, granted or deferred by the recipient's domain, pushed in
resumable transactional uploads, verified while they stream in, and kept until garbage collection. This project models
the parts where that logic lives and proves what they are for. `dafny verify dfyconfig.toml` checks everything.

| files | subject |
|---|---|
| `Blake3`, `BaoEncoder`, `HashedBytes`, `BaoDecoder`, `BaoProofs`, `BaoAnswers` | the mlp-bao codec: the BLAKE3 tree cut at 16-chunk groups, its encoder and its incremental verifying decoder |
| `BaoSlice`, `SliceProofs` | the slice form of the encoding and its verifying walker |
| `Upload`, `UploadProofs`, `UploadCompletion`, `UploadAnswers`, `UploadRuns`, `StoreAnswers`, `UploadSafety` | the transactional upload resource, with every durable state a crash may leave |
| `Pusher` | the resuming pusher against that resource over an unreliable network |
| `Verdicts`, `VerdictProofs`, `VerdictAnswers` | verdict snapshots: first verdicts, accepts, and their delivery in any order |
| `Forwarding`, `ForwardingProofs`, `ForwardingBound`, `ForwardAnswers` | dispatch records, attestation chains and fulfillment sources over many domains |
| `Delegation`, `DelegationProofs`, `FulfillAnswers` | delegated fulfillment: credentials, candidates, budget and replay |
| `Jcs`, `JcsProofs`, `JcsText` | canonical JSON (RFC 8785) and the signing inputs built on it |
| `Sanitizer`, `SanitizerProofs`, `PermittedValues` | the HTML filter: tables, style, attributes and trees, as the server runs it |
| `ClientFilter`, `ClientProofs` | the client's form of the filter, which can throw |
| `HtmlParser`, `HtmlText`, `HtmlProofs`, `CheckedProofs` | the serializer, the fragment parser and the client's checked pipeline |
| `Cbor`, `CborProofs`, `CborSpellings`, `CborPanics` | the CBOR subset (section 3 of RFC 8949) |
| `Signatures`, `SignatureHeaders`, `SignatureProofs`, `SignatureAnswers` | the HTTP message signature profile (RFC 9421) |
| `Library`, `LibraryProofs`, `LibraryKeys`, `LibraryBytes`, `LibraryAnswers` | references, live objects and their files, offer expiry and garbage collection |
| `Urn` | base32 (RFC 4648) and content addresses |
| `Bytes`, `Strings`, `Lists`, `Wrappers` | byte layouts, strings, places in lists, options and results |

How the model is built:

- Code that works step by step is a class or a loop with the source's fields and order of steps, proved equal to a
  specification function; the theorems are about those functions, so they hold of the loops.
- What the main ones of those functions answer is stated once more from its inputs alone, in literals and without the functions
  it is made of: in the `Answers` modules, and in `HashedBytes`, `JcsText`, `PermittedValues`, `SignatureHeaders`,
  `HtmlText` and `CborSpellings`.
- The compression function is a parameter `c`, and every theorem holds for all of them. Nothing is assumed about its
  injectivity: where the design relies on collision resistance, the theorem says "or here are two different
  compression inputs with one output", and a function computes them.
- Crashes: an upload's specification records every durable state a request passes through, including every prefix of
  an append. A crash leaves any one of them, and nothing in memory.
- Other cryptography (SHA-256, Ed25519, base64), lower-casing outside ASCII, quoting outside plain characters, numeric
  character references and the order in which a map is walked are parameters too, known only where it matters. So is
  the language the filter is written in: what trimming removes, what `\s` matches and how a string's length counts.

What the proofs found about the code, each stated as an if-and-only-if or shown by a concrete input:

- After the end of an mlp-bao partial is lost while its decoder is still in memory, `openCheckpoint` restarts the file at
  zero but keeps the decoder (`LossIsHealedExactlyWhen`). Exact checkpoints are proved over the runs without that event;
  that objects hash to their addresses is proved over all of them (`ObjectsAreSafe`).
- When the file no longer reaches the recorded offset, a body whose offset was accepted is written at zero
  (`BodyLandsAtItsOffsetExactlyWhen`).
- A push whose bytes are all recorded but not promoted, or of an empty raw object, never completes, even on a network
  that never fails: no PATCH is left to send (`Pusher.Push`).
- A refused HEAD is always a plain failure: its code stands in a body that replies to HEAD do not have. A push whose last
  reply is lost, or whose reservation has expired at the receiver, ends as `failed` without asking for renegotiation
  when a HEAD meets it (`Pusher.Push`, `LostFinalReply`).
- An accept makes the origin queue again every entry that was already granted (`AcceptRequeuesExactlyGrants`).
- A sweep stops at the first eligible object that still has an offered or expected reference, because the database's
  transition table refuses their expiry (`SweepCompletesExactlyWhen`). The comment in `server/sn/gc.go:62-65` expects
  them to expire; the model follows the code and the table.
- The server's tree comparison reads a missing attribute as an empty value (`ServerComparisonIsExactWhen`).
- A key id with a semicolon, or one that quoting must escape, is printed but not parsed back
  (`HeaderParsesBackExactlyWhen`).
- The slice verifier reads what is missing at the end as zeros: a truncated slice passes exactly when no byte of a group is
  kept and the encoder's slice ends in a zero (`ShortSlicePassesExactlyWhen`).
- A sweep works on its list long after the query: a pin in between is left without an object (`PinAfterListing`), and
  nothing else breaks the invariant but a reference that becomes available after its object has gone
  (`HeldExactlyWhenSafe`). Each object is taken while it is needed exactly when it has stopped being collectable since it
  was listed (`NothingNeededTakenExactlyWhenFresh`).
- Loop prevention bounds chains, not the number of forwards: an automatic forward can be repeated without end
  (`RepeatsSucceed`); forwarding each received envelope once to each target is what bounds it
  (`AutomaticForwardsAreBounded`).
- The client asks its table with `in`, which finds inherited names. A body with an element `constructor` stops the
  pipeline by an exception if the element has an attribute other than `name`, and shows it otherwise
  (`RendersExactlyWhen`, `RendersTableTagsExactlyWhen`, `InheritedNameReachesReaders`). The comment in
  `client/lib/sanitizer.js:165` says that the filter never throws.
- A sweep unlinks a file after its transaction: an object uploaded again in between ends up live without its bytes
  (`UploadedWhileUnlinked`). `RecoverableExactlyWhenGuarded` gives the guard that would be needed.
- An address is not unique as text: a digest has eight spellings, and line breaks are skipped
  (`ParsesExactlyWhenSpelled`).
- A `Signature-Input` parameter that is exactly `keyid="` makes the parser slice out of range
  (`ParserPanicsExactlyWhen`), and so does a CBOR string, anywhere in an input, whose length overflows when the offset is
  added (`PanicsExactlyWhen`).
- The least 64-bit integer is encoded in CBOR but not decoded (`LeastInteger`).
- A comment that is never closed loses the last three characters of the text (`OpenCommentIs`); the parser is the test
  harness's own.
- Every granted reference is marked ephemeral, although the comment in `server/sn/materialize.go:87-93` speaks of grants
  by policy only: grants to correspondents are marked as well (`NewGrantsAreEphemeral`).

## Model

| member | source | states |
|---|---|---|
| `Blake3.ChunkCVLoop` | server/bao/bao.go:110-131 | the block loop with its explicit block count and per-block flags computes the recursive chunk value: START on the first block, END (and ROOT) on the last, the last block its true length |
| `Blake3.LeftUnique` | server/bao/bao.go:144-160 | the recursive split is the one power of two in [n/2, n), so every loop that doubles while it stays below n finds the same split |
| `Blake3.LeftLoop` | server/bao/bao.go:344-347 | the doubling loop of the tree walks ends at exactly that power of two |
| `Blake3.BlocksDetermine` | server/bao/bao.go:99-131 | the compression inputs of a chunk determine its bytes, length included, although blocks are padded with zeros |
| `Blake3.DifferenceCollides` | server/bao/bao.go:110-131 | two different chained runs of blocks with one final output contain two different inputs with one output, found from their ends |
| `Blake3.SubtreeCollides` | server/bao/bao.go:147-160 | two different byte strings, of any lengths, with one tree value yield an explicit pair of colliding compression inputs; no injectivity is assumed |
| `Blake3.DigestBinds` | server/bao/bao.go:180-182 | two different contents with one root digest yield such a pair |
| `Blake3.CvRoundTrip` | server/bao/bao.go:162-176 | the 32-byte layout of a chaining value reads back |
| `BaoEncoder.GroupSplitIsChunkSplit` | server/bao/bao.go:147-160 | 16 times the largest power of two below the number of groups is the largest power of two below the number of chunks: the 16-chunk profile cuts where BLAKE3 cuts |
| `BaoEncoder.GroupTreeIsChunkTree` | server/bao/bao.go:196-216 | hence the tree value of several groups is the parent of the two sides the encoder writes |
| `BaoEncoder.EncodeSize` | server/bao/bao.go:30-32 | the encoding of every content has EncodedSize(len) bytes: 8, content, 64 for each parent |
| `HashedBytes.ChunkIs` | server/bao/bao.go:99-131 | what a chunk hashes, in literals: its value is the last of a chain from the eight constants, one input for each 64 bytes, with its counter, true length, flags 1 first and 2 last (8 more at the root) and, as words, its padded bytes lowest first |
| `HashedBytes.ParentIs` | server/bao/bao.go:133-160 | the value of more than one chunk is one compression of the eight constants over the left and then the right value, counter 0, length 64, flags 4 or 12, cut at the one power of two of chunks that leaves no more on the right than on the left and something there |
| `HashedBytes.DigestIs` | server/bao/bao.go:162-182 | every byte of the digest: the root's eight words in order, each lowest byte first |
| `HashedBytes.EncodingIs` | server/bao/bao.go:187-194 | every byte of an encoding: the length in eight bytes, lowest first, and then the tree from chunk 0 |
| `HashedBytes.TreeIs` | server/bao/bao.go:196-216 | up to 16384 bytes the tree is the data; more is the values of the left and the right side and then both sides in the same way, cut as ParentIs says |
| `BaoDecoder.FeedConcat` | server/bao/bao.go:286-356 | feeding a and then b is feeding a ++ b: same state, releases, verdict and byte count, up to the first failure |
| `BaoDecoder.Decoder.constructor` | server/bao/bao.go:252-256 | a new decoder expects the root span over all groups |
| `BaoDecoder.Decoder.Clone` | server/bao/bao.go:259-265 | a clone has every field of the original, so it continues identically |
| `BaoDecoder.Decoder.ProcessGroup` | server/bao/bao.go:325-338 | a complete group is popped, checked against the wanted value and released, or refused with its index and nothing released |
| `BaoDecoder.Decoder.ProcessParent` | server/bao/bao.go:325-352 | a complete parent node is popped, checked and replaced by its two halves, left on top; the pending item count falls by one |
| `BaoDecoder.Decoder.Write` | server/bao/bao.go:286-356 | the incremental loop, whatever its buffer held, ends in the state, error and byte count of the byte-at-a-time decoder; it terminates by the sum of 2*(hi-lo)-1 over the stack; consumed counts only accepted writes |
| `BaoDecoder.Accept` | server/bao/bao.go:325-352 | after every accepted item the stack again lists the unverified groups in order, without gap or overlap |
| `BaoDecoder.GroupSize` | server/bao/bao.go:272-281 | group sizes are the differences of consecutive offsets and zero only for the empty content |
| `BaoProofs.RoundTrip` | server/bao/bao.go:187-216 | for every content, a decoder for its root and length takes its encoding without failing, releases exactly the content and is complete |
| `BaoProofs.CutsDoNotMatter` | server/bao/bao.go:286-356 | any sequence of writes has the outcome of one write of their concatenation |
| `BaoProofs.RoundTripInPieces` | server/bao/bao.go:187-356 | the round trip holds for every way of cutting the encoding into writes, and takes EncodedSize bytes |
| `BaoProofs.CompleteAtEncodedSize` | server/bao/bao.go:268-270 | on arbitrary input that has not failed, at most EncodedSize bytes were taken and the decoder is complete exactly at that many |
| `BaoProofs.AcceptedIsVerified` | server/bao/bao.go:286-356 | on arbitrary input: a completed decoder has released bytes of the declared length whose root is the digest, and what it read is their encoding |
| `BaoProofs.AcceptsExactlyEncodings` | server/bao/bao.go:286-356 | a decoder accepts p if and only if p is the encoding of some content with its digest and length |
| `BaoProofs.OneContentPerDigest` | server/bao/bao.go:268-356 | two accepted streams for one digest, under any declared lengths, are the same stream of the same content, or exhibit a collision |
| `BaoProofs.ReleasesOnlyContent` | server/bao/bao.go:286-356 | from any state that agrees with a content, the bytes released at every later moment are a prefix of it, or the first foreign item accepted exhibits a collision |
| `BaoProofs.NothingUnverifiedIsReleased` | server/bao/bao.go:250-356 | the same from the start: before completion nothing but a prefix of the content with that root and length is released |
| `BaoAnswers.RefusedHeader` | server/bao/bao.go:289-305 | a stream is refused for its header if and only if its first eight bytes, lowest first, are not the length, and then after exactly those eight |
| `BaoAnswers.RefusedItem` | server/bao/bao.go:306-352 | after the header a byte is refused if and only if it completes a group or parent whose value is not the wanted one; the refusal names the first unreleased group, and for a parent the last group below it |
| `BaoAnswers.RefusedStream` | server/bao/bao.go:286-356 | a refused stream has a shortest refused part: bytes beyond are refused exactly after a part that is complete, groups and parents one byte after a part that was accepted, named by the first group not yet released |
| `BaoSlice.Walker.Walk` | conformance/generators/tv-008.py:194-220 | the recursive walk over a shared position and a shared result list does what the functional walk says, error cases included |
| `BaoSlice.KeepMeansMeets` | conformance/generators/tv-008.py:190-192 | for a non-empty range and content, a group is kept if and only if one of its bytes lies in the range |
| `BaoSlice.KeptGroups` | conformance/generators/tv-008.py:190-223 | the kept groups are exactly those the range keeps, in increasing order |
| `BaoAnswers.SpanKeptExactlyWhen` | conformance/generators/tv-008.py:190-213 | a span of groups is walked if and only if the range keeps one of its groups, or is empty itself and lies at a boundary between two of them |
| `BaoSlice.SliceRoundTrip` | conformance/generators/tv-008.py:145-223 | the verifier accepts the encoder's slice of any content and range and returns exactly the kept groups in order |
| `BaoSlice.FullSliceIsCombined` | conformance/generators/tv-008.py:145-178 | a range that covers the content gives the combined form, byte for byte |
| `SliceProofs.AcceptedWalkIsSound` | conformance/generators/tv-008.py:194-223 | any accepted walk, at any place of any slice, has read the encoder's bytes (missing bytes as zeros) and kept groups, or exhibits a collision |
| `SliceProofs.GenuineWalk` | conformance/generators/tv-008.py:194-223 | conversely, a walk that reads the encoder's bytes, the kept groups' literally, is accepted and never leaves the content's tree |
| `SliceProofs.AcceptsOnlyItsSlices` | conformance/generators/tv-008.py:181-223 | for every content, range and slice: a slice whose walk stays in the content's tree is accepted if and only if it begins with the encoder's slice, or, where no byte of a group is kept, if it reads as that slice followed by zeros; it yields the kept groups; any other accepted slice exhibits a collision |
| `SliceProofs.ShortSlicePassesExactlyWhen` | conformance/generators/tv-008.py:181-223 | some slice passes without the encoder's last bytes if and only if no byte of a group is kept and the last byte of the encoder's slice is zero |
| `SliceProofs.EmptySlicePasses` | conformance/generators/tv-008.py:185-187 | a concrete one: the empty slice passes for the empty content |
| `SliceProofs.ShortHeaderPasses` | conformance/generators/tv-008.py:185-223 | another: for a content of one byte and a range past it, one byte of the header passes |
| `Upload.Resource.OpenCheckpoint` | server/bs/bs.go:483-552 | the partial is cut to the offset or the offset falls to zero, and a verifier that is not in memory is re-derived, in the durable steps of the specification |
| `Upload.Resource.ResetToZero` | server/bs/bs.go:557-567 | the partial, offset and checkpoint are dropped together |
| `Upload.Resource.Stream` | server/bs/bs.go:325-386 | one body: at most the missing bytes are taken, written and hashed by a working copy of the verifier; digest, verification and length outcomes, the new offset and every durable state on the way |
| `Upload.Resource.Complete` | server/bs/bs.go:388-440 | at full length: verification of the whole, decoding of an mlp-bao partial, promotion, or starting over |
| `Upload.Resource.Finalize` | server/bs/bs.go:572-613 | the object takes its address, goes live and the reservation is consumed |
| `Upload.Resource.PatchCore` | server/bs/bs.go:305-440 | refusal of a wrong offset, else reopening and streaming |
| `Upload.Resource.LoadReservation` | server/bs/bs.go:163-178 | consumed and expired reservations are refused; an overdue one is expired and its partial collected |
| `Upload.Resource.Patch` | server/bs/bs.go:245-280 | the order of the checks of a signed PATCH and the binding of its encoding |
| `Upload.Resource.Head` | server/bs/bs.go:230-240 | the durable offset and the effective length of the bound encoding, or a refusal |
| `UploadProofs.OpenedOk` | server/bs/bs.go:483-552 | reopening any sound pending upload leaves a partial that ends at the offset and the verifier that its bytes determine; when the file reached the offset only bytes beyond it are dropped |
| `UploadProofs.FinishedOk` | server/bs/bs.go:388-478 | at full length either everything starts over from zero with a verification problem, or an object of the declared size with the right digest is live and the token is spent |
| `UploadProofs.IngestedOk` | server/bs/bs.go:325-440 | every durable state a body passes through is sound; a request-digest failure leaves the disk as it was |
| `UploadProofs.PatchedOk` | server/bs/bs.go:245-440 | a PATCH of any content keeps the invariant at every durable state; verified means live; a digest mismatch changes no offset, no byte behind it, no object |
| `UploadProofs.LocalPatchedOk` | server/bs/bs.go:286-292 | the same for the local entry point |
| `UploadProofs.LossIsHealedExactlyWhen` | server/bs/bs.go:497-546 | after the end of a partial is lost, reopening yields an exact checkpoint if and only if it is not an mlp-bao upload whose decoder is in memory and whose file no longer reaches the offset |
| `UploadProofs.BodyLandsAtItsOffsetExactlyWhen` | server/bs/bs.go:313-323 | a body whose offset was accepted is written at that offset if and only if the file still reaches it; otherwise it is written at zero |
| `UploadCompletion.BaoCarries` | server/bs/bs.go:447-478 | a complete mlp-bao partial decodes to a raw object if and only if it is the encoding of an object with the reserved size and digest, and to that object |
| `UploadCompletion.IngestedExactlyWhen` | server/bs/bs.go:325-440 | a body completes the upload if and only if it is exactly what was missing, has the claimed digest, and with what was recorded carries the reserved object, which is then the one stored |
| `UploadCompletion.VerifiedExactlyWhen` | server/bs/bs.go:245-440 | a PATCH of any sound upload answers verified if and only if the reservation stands, the request is signed and well-formed, starts at the recorded offset in an encoding it may use, and its body has the claimed digest and, with the recorded bytes the file still holds, is exactly the reserved object in that encoding; that object is stored |
| `UploadAnswers.RefusedRequest` | server/bs/bs.go:147-280 | every refusal before the body, from the request: the reply of a consumed, expired, overdue, unsigned, undigested or badly addressed request, or one in another encoding, the row after it, and that nothing durable changes but an overdue row and its file |
| `UploadAnswers.RefusedOffset` | server/bs/bs.go:305-316 | an admitted request at another offset is told the recorded one with 409 offset-mismatch, and only its encoding is bound |
| `UploadAnswers.ResumedBody` | server/bs/bs.go:313-323 | an admitted request at the recorded offset streams its body into the reopened upload, whose file is first cut to the offset or emptied |
| `UploadAnswers.RefusedBody` | server/bs/bs.go:343-369 | a body that is refused, from its bytes and the claimed digest: one that the decoder does not take or that overruns starts over; one that breaks off or has another digest leaves the bytes behind the offset, the offset and the checkpoint, and is told so at that offset; with every durable state on the way |
| `UploadAnswers.MismatchedDigest` | server/bs/bs.go:364-369 | a whole request whose body is good but for the claimed digest: 422 digest-mismatch at its offset, the old row, the file cut to the offset, the checkpoint of the reopened upload |
| `UploadAnswers.AdvancingBody` | server/bs/bs.go:371-386 | a good body that leaves something missing moves the offset, file and checkpoint to its end and promotes nothing |
| `UploadAnswers.LastBody` | server/bs/bs.go:388-440 | a good body that leaves nothing missing makes the reserved object live and consumes the row if the file then carries it, and starts over with the refusal of its encoding if not |
| `UploadAnswers.HeadAnswers` | server/bs/bs.go:229-240 | HEAD tells the recorded offset and the whole size of a standing reservation to a signed request, and is refused as a PATCH is |
| `UploadAnswers.SpoiledPartial` | server/bs/bs.go:497-546 | a recorded prefix of an encoding that the decoder refuses is dropped when the upload is reopened without its decoder |
| `UploadRuns.AnswerGrows` | server/bs/bs.go:147-301 | no request takes an object away; a consumed row stays as it is and every request for it is answered 410 |
| `UploadRuns.NextOk` | server/bs/bs.go:245-613 | every request, a crash after any of its durable writes (torn appends included), a restart and every loss of storage but the unnoticed one keep the whole store sound, uploads sharing one address included |
| `UploadRuns.EveryRunIsSound` | server/bs/bs.go:53-613 | over every run in which no mlp-bao partial loses its end under a decoder in memory: objects are live only with bytes that hash to their address, in both encodings, and every checkpoint in memory is the one re-derived from the partial |
| `UploadRuns.ConsumedForGood` | server/bs/bs.go:147-178 | in every run, once consumed a token accepts nothing, whatever happens in between |
| `StoreAnswers.ServedIs` | server/bs/bs.go:147-301 | a request under an unknown token is refused with 401 and changes nothing; any other is answered by its own upload and leaves the rows, files, checkpoints and objects of all the others as they are |
| `StoreAnswers.CrashedIs` | server/bs/bs.go:371-613 | a crash leaves exactly one of the durable states that the request passes through, or the one before it, and no checkpoint |
| `StoreAnswers.SoundExactlyUnlessUnnoticed` | server/bs/bs.go:497-546 | after storage is lost a sound store with a pending upload is sound if and only if it was not an mlp-bao upload whose decoder is in memory and whose file no longer reaches its offset |
| `UploadSafety.FinishedSafe` | server/bs/bs.go:388-478 | whatever a decoder in memory believes, promotion takes only bytes that hash to the address: raw ones their hasher hashed, encoded ones decoded once more |
| `UploadSafety.ObjectsAreSafe` | server/bs/bs.go:53-613 | over every run, with every loss of storage: an object is at its address, and live, only with bytes that hash to it, and a consumed token's object is live |
| `Pusher.PrefixVerifies` | server/bao/bao.go:286-356 | every prefix of a content's encoding is a decoder state, and the whole of it is complete |
| `Pusher.HonestPatched` | server/bs/bs.go:245-440 | a genuine part, cut anywhere in transit, never gets a verdict against the source's bytes; it is accepted only at the recorded offset, moves it to exactly its end, and completes exactly at the stream's end; a whole part at the right offset is accepted |
| `Pusher.FateIs` | server/bs/bs.go:245-440 | what can become of a request: it may not arrive, the receiver may restart before it or crash after any of its durable writes, and the reply may be lost |
| `Pusher.HonestHeard` | server/bs/pusher.go:160-227 | whatever is lost, cut, crashed or left unanswered, the receiver keeps a prefix of a stream in its whole partial and has moved by nothing or by one whole part |
| `Pusher.AnyGenuineRequests` | server/bs/bs.go:245-440 | genuine requests in any number and order, late, repeated or from several pushers at once, under any fates: the whole partial stays a prefix of a stream, and the ranges that moved the offset follow one another without gap or overlap, each one a request's |
| `Pusher.Pusher.Head` | server/bs/pusher.go:161-172 | a lost reply moves nothing; an answer is the offset and length of a receiver that is still open, unchanged, or, exactly when it is not, a refusal without its code: replies to HEAD have no body |
| `Pusher.Pusher.Send` | server/bs/pusher.go:197-219 | one PATCH at the receiver's offset under any fate: the receiver moves by nothing or by the whole part, accepted ranges stay consecutive, a refusal never blames the source and tells a consumed from an expired reservation, and a verified reply means consumed |
| `Pusher.Pusher.Classify` | server/bs/pusher.go:232-247 | which refusals ask for renegotiation, which name the source, that only an expired reservation lapses the queue row, and that a refusal without a code is a plain failure |
| `Pusher.Pusher.PushFrom` | server/bs/pusher.go:189-227 | the PATCH loop from the offset a HEAD returned: verified only at the stream's end, with the queue row confirming exactly that; it asks for renegotiation only when a PATCH was refused because the reservation expired; on a network that never fails it verifies exactly when something is left to send |
| `Pusher.Pusher.Push` | server/bs/pusher.go:112-230 | with an honest source and any losses, cuts, crashes and restarts: the queue row never claims more than the receiver holds; success only when the receiver holds exactly the content, live, and never for a token already consumed; renegotiation if and only if the reservation expired locally or a PATCH was refused for it, and then the row lapses; a plain failure if and only if a HEAD was refused, as it is whenever one is delivered to a consumed or expired reservation; on a reliable network success if and only if the recorded offset is short of the stream; every part sent is a chunk or the last of its stream, and it gives up only after asking as often as it may |
| `Pusher.LostFinalReply` | server/bs/pusher.go:161-172 | when only the reply to the last part is lost, the receiver holds the content, live, and every HEAD delivered after it is answered with a refusal the pusher cannot read |
| `Verdicts.Origin.MatchDispatch` | server/sn/origin.go:49-69 | a snapshot is taken only for an envelope this domain dispatched to its issuer |
| `Verdicts.Origin.CurrentMediaState` | server/sn/origin.go:209-240 | the latest stored snapshot by (created, verdict_id) and its state for each URN |
| `Verdicts.Origin.CollectChanges` | server/sn/origin.go:104-124 | a change outside the transition table refuses the snapshot at its first such URN; otherwise the new and changed grants are collected in order |
| `Verdicts.Origin.AddRefreshes` | server/sn/origin.go:125-131 | restated grants with a reservation are added once each |
| `Verdicts.Origin.Enqueue` | server/sn/origin.go:152-167 | one queue row a grant, for the dispatched target |
| `Verdicts.Origin.ProcessVerdictUpdate` | server/sn/origin.go:34-173 | known snapshots change nothing, stale ones are stored only, superseding ones are stored and queue their grants |
| `Verdicts.Recipient.Accept` | server/sn/sn.go:453-509 | an accept upgrades the deferred URNs of the latest snapshot, mints their reservations and issues a new snapshot; it does nothing when an entry is not in the manifest |
| `Verdicts.MediaOutcomes` | server/sn/sn.go:322-385 | the loop over the manifest with its running budget computes the per-entry outcomes |
| `VerdictAnswers.IgnoredExactlyWhen` | server/sn/origin.go:49-94 | a snapshot changes nothing if it is for another domain, for no dispatch or for one to another target, which is answered unknown, or stored already, which is not |
| `VerdictAnswers.FirstSnapshot` | server/sn/origin.go:132-166 | without a baseline a snapshot is stored and exactly its grants are queued, once each and in order |
| `VerdictAnswers.StaleSnapshot` | server/sn/origin.go:100-151 | one that is not later by creation time and then id is stored and queues nothing |
| `VerdictAnswers.NewerSnapshot` | server/sn/origin.go:104-167 | one that is later is refused at its first change other than deferral to grant, deferral to denial and grant to denial; otherwise it is stored, and queued are its grants of what was not granted and then its restated grants that bring a reservation, once each and in order |
| `VerdictAnswers.AcceptIs` | server/sn/sn.go:453-509 | an accept grants exactly what was deferred, each with its minted reservation, restates the rest in place, and fails exactly when one cannot be minted |
| `VerdictAnswers.FirstVerdictIs` | server/sn/sn.go:322-385 | the first verdict entry by entry: nothing for senders nobody admits; have or grant for correspondents; a grant while policy and remaining budget allow, and deferral after, for other admitted senders; deferral in quarantine |
| `VerdictProofs.QueuesItsGrantsOnce` | server/sn/origin.go:83-173 | a snapshot with no baseline, or newer than it, queues exactly its own grants, each once; a stale one none |
| `VerdictProofs.DeliveriesConverge` | server/sn/origin.go:83-173 | for a history ordered by (created, verdict_id) with consecutive changes in the table, every delivery order with duplicates and gaps is never refused, leaves the largest delivered snapshot latest, and queues exactly the grants of each superseding delivery |
| `VerdictProofs.OrderDoesNotMatter` | server/sn/origin.go:83-240 | what is stored and what is current depend only on which snapshots were delivered |
| `VerdictProofs.AcceptIsLegalExactlyWhen` | server/sn/sn.go:453-509 | an accept is a legal successor if and only if its (created, verdict_id) is larger |
| `VerdictProofs.AcceptExtendsHistory` | server/sn/sn.go:453-509 | so a clock that never runs back and new ids keep the history legal, accept after accept |
| `VerdictProofs.AcceptRequeuesExactlyGrants` | server/sn/origin.go:125-131 | an accept makes the origin queue the entries of the prior snapshot that were already granted, and no other old entry, again |
| `VerdictProofs.BudgetIsKept` | server/sn/sn.go:356-378 | the sizes granted automatically sum to the used budget, never more than the policy's; an entry is granted if and only if it fits the entry maximum and what is left |
| `VerdictProofs.EntitlementDecides` | server/sn/sn.go:329-383 | correspondents are granted what is not held and told what is; quarantined senders are always deferred; exactly grants carry the minted reservation |
| `VerdictProofs.StrangersLearnNothing` | server/sn/sn.go:356-382 | without a correspondent the outcomes do not depend on which objects are held |
| `VerdictProofs.FirstVerdictIsHistory` | server/sn/sn.go:322-385 | the first verdict on a manifest starts a legal history |
| `Forwarding.Server.ChainMember` | server/sn/forward.go:114-124 | membership in the chain: the received envelope's origin or any attestation's |
| `Forwarding.Server.BuildSources` | server/sn/forward.go:256-279 | the list filled with a seen map is the specified list |
| `Forwarding.Server.Forward` | server/sn/forward.go:142-250 | the refusals in order, the recorded dispatch and the signed envelope with the chain extended by one |
| `ForwardAnswers.ForwardsExactlyWhen` | server/sn/forward.go:142-174 | a forward succeeds if and only if the envelope was received, it is not an automatic one of a domain in the chain, the chain has fewer than 32 attestations, there are 1 to 128 addresses of one domain and the content is held; otherwise the first of these that fails is named and nothing changes |
| `ForwardAnswers.ForwardSends` | server/sn/forward.go:180-250 | what it sends: the received content to that domain, the received chain extended by the envelope that brought it, and the offered sources, first entry of every domain; recorded under the new id, with nothing else changed |
| `ForwardAnswers.SourcesAre` | server/sn/forward.go:256-279 | the sources by mode, with the place in the offers that each entry comes from |
| `ForwardAnswers.DeliveryIs` | server/sn/envelope.go:286-288 | a delivery is recorded, once, if and only if it is addressed to this domain and its chain is no longer than 32 |
| `ForwardingProofs.SourcesOfForward` | server/sn/forward.go:256-279 | the sources of a forward are distinct and named, contain the chain's root and every received source, begin with the custodian itself in custody mode, and nobody else |
| `ForwardingProofs.EveryRunIsOk` | server/sn/forward.go:142-279 | in every run of sends, deliveries (late, repeated, reordered) and forwards over any domains, each attestation of each chain equals the dispatch its origin recorded, for the same content; sources are distinct chain members with the root among them; no chain exceeds the cap |
| `ForwardingProofs.DeliveryIsRecorded` | server/sn/envelope.go:286-288 | no envelope of such a run is refused for the length of its chain; admitted at its target it is recorded with the content its origin dispatched under that id, and a retry changes nothing |
| `ForwardingProofs.AutomaticRunsNeverRevisit` | server/sn/forward.go:148-153 | when every forward is automatic no chain revisits a domain, so no chain is longer than the number of domains |
| `ForwardingBound.AutomaticForwardsAreBounded` | server/sn/forward.go:142-250 | from an untouched system, when every forward is automatic and no domain forwards one received envelope to one target twice, a run of any length makes at most as many forwards as there are journeys from its sends over its domains |
| `ForwardingBound.SameJourneySameOccasion` | server/sn/forward.go:148-186 | two forwards with one root, one sequence of dispatching domains and one target forward the same received envelope at the same domain |
| `ForwardingBound.RepeatsSucceed` | server/sn/forward.go:142-250 | without that discipline nothing ends: an automatic forward that succeeded succeeds again under any unused id |
| `Delegation.FindCredential` | server/sn/delegation.go:100-110 | the loop finds the received envelope's own attestation or the first hop of the source |
| `Delegation.RequestFulfillment` | server/sn/delegation.go:179-218 | the candidates are asked in order until one promises a push |
| `Delegation.OwnDeclaredUntil` | server/sn/delegation.go:583-643 | the scan returns the latest window this domain declared about itself over the URN, if any |
| `Delegation.Source.PriorResponse` | server/sn/delegation.go:432-463 | the outcomes recorded for (requester, request_id) |
| `Delegation.Source.JudgeMedia` | server/sn/delegation.go:326-372 | the loop's outcomes and accepted entries are those of the entry-by-entry judgement |
| `Delegation.Source.ProcessFulfill` | server/sn/delegation.go:269-407 | the order of skew, signature, replay, credential and content checks, the judgement and the rows written |
| `FulfillAnswers.AnsweredExactlyWhen` | server/sn/delegation.go:269-324 | a request not answered before is answered if and only if it is signed, within 48 hours, its root is an envelope of this domain recorded with that very signature, key id and time, the content is the dispatched one, its manifest is held and no size contradicts it; otherwise the first of these that fails is named |
| `FulfillAnswers.JudgeIs` | server/sn/delegation.go:326-372 | one entry is promised if and only if it is in the manifest, live, no later than the later of its window and what this domain declared, and fewer than ten promises of it were made under the envelope |
| `FulfillAnswers.AnswerRecords` | server/sn/delegation.go:326-402 | an answered request records one row for each entry in the request's order and queues one push for each promise in the same order; any other request changes nothing |
| `FulfillAnswers.AnsweredBefore` | server/sn/delegation.go:278-284 | a request answered before, signed and in time again, is told the recorded outcomes in order, and nothing is added |
| `ForwardAnswers.CandidatesAre` | server/sn/delegation.go:184-196 | the candidates: every listed domain of the chain, once and in order, or the envelope's origin if there is none |
| `ForwardAnswers.CredentialIs` | server/sn/delegation.go:100-110 | the credential shown to a source: the envelope's own attestation if that is its origin, else the first hop of that origin |
| `DelegationProofs.CredentialExactlyForMembers` | server/sn/delegation.go:100-110 | there is a credential for a source if and only if it is a chain member, and it is that source's attestation in the chain |
| `DelegationProofs.EveryCandidateAccepts` | server/sn/delegation.go:286-309 | after every run of the forwarding system, every candidate a recipient asks accepts the credential and content binding it is shown |
| `DelegationProofs.NoSourceIsDiscarded` | server/sn/delegation.go:184-196 | in such a run no listed source is skipped: the candidates are the listed sources in order |
| `DelegationProofs.FirstPromiseWins` | server/sn/delegation.go:198-217 | the answer is that of the first candidate that promises a push; there is none exactly when no candidate does |
| `DelegationProofs.FulfilledKeepsBook` | server/sn/delegation.go:326-402 | one request keeps the budget and the match of rows and pushes |
| `DelegationProofs.BudgetHoldsForever` | server/sn/delegation.go:269-463 | over every sequence of requests, accepted delegations for one (envelope, urn) never exceed ten and the push queue holds exactly one push an accepted entry, in order |
| `DelegationProofs.AnswerStandsForever` | server/sn/delegation.go:432-463 | an answer once recorded for (requester, request_id) is never changed |
| `DelegationProofs.ReplayChangesNothing` | server/sn/delegation.go:278-284 | replaying a (requester, request_id) inside the skew window, after any other requests, returns the same response and changes no record |
| `Jcs.Utf16Less` | server/core/jcs.go:199-208 | the index loop decides the lexicographic order of UTF-16 code units |
| `Jcs.LessIsStrictTotalOrder` | server/core/jcs.go:199-208 | that order is irreflexive, transitive and total on strings of Unicode scalar values |
| `Jcs.SortKeys` | server/core/jcs.go:97-102 | whatever order the map yields its keys in, the sorted list is the same |
| `Jcs.IntegerToken` | server/core/jcs.go:177-197 | the index loop accepts exactly an optional minus and digits without a leading zero |
| `Jcs.Builder.WriteJcsString` | server/core/jcs.go:125-152 | appends the quoted string with exactly the mandatory escapes |
| `Jcs.Builder.WriteJcsNumber` | server/core/jcs.go:158-175 | succeeds exactly on the dialect's integers and appends their shortest form |
| `Jcs.Builder.WriteCanonical` | server/core/jcs.go:67-119 | succeeds exactly on dialect documents and appends the canonical text of their value |
| `JcsText.EscapeIs` | server/core/jcs.go:125-152 | how every character stands inside quotes, in literals: the seven short escapes, four hexadecimal digits for the other controls, itself otherwise |
| `JcsText.QuoteIs` | server/core/jcs.go:125-152 | a quoted string is its characters in order, each as EscapeIs says, between two quotes |
| `JcsText.NumberIs` | server/core/jcs.go:158-197 | a token is taken for n if and only if n is within 2^53 - 1 of zero and the token is its decimal text, or -0 for zero |
| `JcsText.LessIs` | server/core/jcs.go:199-208 | one key is before another if and only if at the first code unit in which they differ it has the smaller one, or it ends there |
| `JcsText.ListIs` | server/core/jcs.go:67-119 | a list is its items in order, with a comma between neighbours, in brackets |
| `JcsText.ObjectIs` | server/core/jcs.go:67-119 | an object is its members in the one order of LessIs, each a quoted key, a colon and the value, with a comma between neighbours, in braces |
| `JcsProofs.ReadPrinted` | server/core/jcs.go:67-175 | a reader of JSON gives back every printed value, whatever follows it that could not continue a number |
| `JcsProofs.PrintIsInjective` | server/core/jcs.go:59-65 | equal canonical text means equal value |
| `JcsProofs.CanonicalIsFixpoint` | server/core/jcs.go:33-65 | re-reading canonical text and printing it again changes nothing |
| `JcsProofs.SigningInputDetermines` | server/core/sign.go:26-42 | the signing input determines label, protected block and payload, so what is signed under one label is not signed under another |
| `JcsText.SigningTextIs` | server/core/sign.go:26-42 | the signed text in literals: label, payload and protected block, in this order |
| `JcsText.VerifiesExactlyWhen` | server/core/sign.go:49-78 | a signature object is accepted if and only if it carries the wanted label and a protected block that names ed25519, and the key made its value over the text of that label, the payload and that very block |
| `JcsProofs.NoRelabelling` | server/core/sign.go:49-78 | if only logged inputs verify, an accepted document was logged with that label, block and payload |
| `Sanitizer.FilterStyleLoop` | server/render/sanitize.go:268-292 | the loop over the declarations computes the style filter |
| `Sanitizer.FilterAttrsLoop` | server/render/sanitize.go:195-265 | the loop over the attributes computes the attribute filter |
| `Sanitizer.Sanitize` | server/render/sanitize.go:168-193 | the loop over the siblings computes the tree filter |
| `Sanitizer.Measurement.Walk` | server/render/sanitize.go:150-165 | the shared counters come to the node count and the depth |
| `SanitizerProofs.StyleIsIdempotent` | server/render/sanitize.go:268-292 | filtering a style twice is filtering it once, with splitting, trimming, lower-casing and the length cap |
| `SanitizerProofs.AttrsAreIdempotent` | server/render/sanitize.go:195-265 | the same for the attributes of an element |
| `SanitizerProofs.SanitizedIsClean` | server/render/sanitize.go:168-265 | every output node is one the filter leaves alone |
| `SanitizerProofs.SanitizingIsIdempotent` | server/render/sanitize.go:168-193 | sanitizing twice is sanitizing once, for every tree and manifest |
| `SanitizerProofs.CleanIsPermitted` | server/render/sanitize.go:168-302 | a clean element has a permitted name and attributes, and an embed names something in the manifest |
| `PermittedValues.PermittedExactlyWhen` | server/render/sanitize.go:31-45 | the permitted elements, by name |
| `PermittedValues.AttrIs` | server/render/sanitize.go:195-265 | an attribute other than style survives, unchanged, if and only if its value is permissible: a link is https or mailto in any case, a listed address or a fragment; a direction one of three; identifiers, classes, languages, numbers and embeds have their shapes |
| `PermittedValues.AttrsAre` | server/render/sanitize.go:195-265 | a permitted element is removed exactly when it embeds what the manifest does not list; otherwise exactly its permissible attributes stay, a style as StyleKept says, and an image has a text |
| `PermittedValues.StyleKept` | server/render/sanitize.go:268-292 | a style becomes the permitted declarations between its semicolons, in order and in short form; it goes when it is too long or nothing is kept |
| `PermittedValues.OutputIsProper` | server/render/sanitize.go:168-302 | whatever the input, every element of the filter's output is in the table, with none but permissible attributes and styles of none but permitted declarations |
| `PermittedValues.NodeIs` | server/render/sanitize.go:168-193 | what becomes of each kind of node: text stays, comments and dropped elements go with all they hold, unknown elements leave their filtered children, unlisted embeds go, the others stay with theirs |
| `PermittedValues.ClientIsProper` | client/lib/sanitizer.js:170-234 | the same of the client's output, but for bare elements of inherited names |
| `SanitizerProofs.SanitizingShrinks` | server/render/sanitize.go:150-193 | sanitizing adds no node and no level |
| `SanitizerProofs.ServerComparisonIsExactWhen` | server/render/sanitize.go:353-382 | the server's comparison takes some other tree for this one if and only if this one has an attribute with an empty value |
| `SanitizerProofs.ServerComparisonFails` | server/render/sanitize.go:353-382 | a concrete pair of different trees that it takes for equal |
| `ClientFilter.AttrsLoop` | client/lib/sanitizer.js:195-234 | the loop over the attributes throws if and only if the tag is an inherited name and some attribute is not `name`; otherwise it computes what is left of them |
| `ClientFilter.Filter` | client/lib/sanitizer.js:170-185 | the loop over the siblings computes the tree filter, and a throw leaves it at once |
| `ClientProofs.ThrowsExactlyWhen` | client/lib/sanitizer.js:170-201 | the filter throws if and only if some element of an inherited name, outside every dropped element, has an attribute other than `name`, be it inside elements that are unwrapped or removed |
| `ClientProofs.FilteringIsIdempotent` | client/lib/sanitizer.js:170-234 | what passed the filter passes it again, unchanged and without a throw |
| `ClientProofs.TableTagsExactlyWhen` | client/lib/sanitizer.js:170-185 | every tag in the output is in the table if and only if no element of an inherited name stands outside the dropped and removed ones |
| `ClientProofs.FiltersAgreeExactlyWhen` | client/lib/sanitizer.js:170-185 | the output is the one the server's filter computes if and only if every tag in it is in the table |
| `HtmlParser.SerializeTree` | client/lib/sanitizer.js:248-260 | the loop over the siblings computes the serialization |
| `HtmlParser.Parser.Attributes` | client/test/mini-html5-parser.js:85-110 | the attribute loop reads what the specification reads, and reports when it would never end |
| `HtmlParser.Parser.StartTag` | client/test/mini-html5-parser.js:77-124 | a start tag opens, adds or takes raw text as the specification says |
| `HtmlParser.Parser.EndTag` | client/test/mini-html5-parser.js:68-76 | an end tag closes the innermost open element of its name and everything inside it |
| `HtmlParser.Parser.Run` | client/test/mini-html5-parser.js:44-127 | the loop over an index and a stack computes the parsed forest, or reports that it would never end |
| `HtmlText.TextIs` | client/test/mini-html5-parser.js:54-60 | a run without an angle bracket is one text, decoded, at the end of the innermost open element |
| `HtmlText.CommentIs` | client/test/mini-html5-parser.js:61-67 | a comment reaches to its first closing mark |
| `HtmlText.OpenCommentIs` | client/test/mini-html5-parser.js:63-65 | one that is never closed takes the rest of the text but its last three characters, which are lost |
| `HtmlText.EndTagIs` | client/test/mini-html5-parser.js:68-76 | an end tag of any text up to the next bracket, trimmed and folded, closes the innermost open element of that name with all that is open inside it, nested as it is, or nothing |
| `HtmlText.StartTagIs` | client/test/mini-html5-parser.js:77-124 | a start tag of any letters and any text after it: it never ends, adds a childless element, takes raw text or stays open, by its folded name and how its attributes end |
| `HtmlText.RawIs` | client/test/mini-html5-parser.js:115-123 | raw text reaches to the first closing tag of its name in any case, and parsing goes on after the next bracket |
| `HtmlText.AttrIs` | client/test/mini-html5-parser.js:89-109 | an attribute with blanks around its sign and a value between quotes of either kind, behind an opening one that is never closed, or bare: the folded name is set to the decoded value |
| `HtmlText.LessIs` | client/test/mini-html5-parser.js:78-79 | an angle bracket that starts no tag and no comment is a text of its own |
| `HtmlText.DecodedIs` | client/test/mini-html5-parser.js:27-37 | a reference stands for its character; six names in literals |
| `HtmlText.EndOfTextIs` | client/test/mini-html5-parser.js:126-126 | at the end every open element is closed inside the one before it |
| `HtmlText.SerializedIs` | client/lib/sanitizer.js:248-260 | what is written for every node, in literals |
| `HtmlProofs.DecodeEscText` | client/test/mini-html5-parser.js:27-37 | decoding undoes the escaping of text |
| `HtmlProofs.DecodeEscAttr` | client/test/mini-html5-parser.js:27-37 | decoding undoes the escaping of attribute values |
| `HtmlProofs.ParseOfSerialize` | client/lib/sanitizer.js:239-260 | parsing a printed tree without comments gives that tree with neighbouring texts joined, empty ones gone and nothing below void elements |
| `CheckedProofs.ParseUndoesPrint` | client/lib/sanitizer.js:239-260 | for every tree the filter leaves of a parser's fragment, parsing gives back exactly the tree if and only if it has none of those |
| `HtmlProofs.TreesEqualIsEquality` | client/lib/sanitizer.js:271-287 | the client's comparison is equality for trees without comments |
| `CheckedProofs.ParsedTagsAreLetters` | client/test/mini-html5-parser.js:77-124 | whatever the parser reads, every tag starts with a lower-case letter |
| `CheckedProofs.RendersExactlyWhen` | client/lib/sanitizer.js:310-327 | over every parser's fragment the checked pipeline always ends: beyond the caps it degrades; within them it throws if and only if an element of an inherited name, outside every dropped element, has an attribute other than `name`; otherwise it renders the filtered tree if and only if that has none of those shapes, and degrades if it has |
| `CheckedProofs.RendersTableTagsExactlyWhen` | client/lib/sanitizer.js:310-327 | a rendered tree holds only the table's tags, and is then what the server's filter computes, if and only if no element of an inherited name survives the filter |
| `CheckedProofs.InheritedNameReachesReaders` | client/lib/sanitizer.js:179-201 | the body `<constructor title="x">` is parsed as such and makes the pipeline throw; `<constructor>` is rendered, outside the table |
| `Cbor.AppendHead` | server/webauthn/cbor.go:186-202 | appends the shortest head |
| `Cbor.Decoder.Take` | server/webauthn/cbor.go:33-40 | in wrapping 64-bit arithmetic: the bytes and the advanced offset, a refusal, or a slice out of range when the sum wraps |
| `Cbor.Decoder.Head` | server/webauthn/cbor.go:44-78 | reads a head and advances the offset past it, or fails as specified |
| `Cbor.Decoder.Item` | server/webauthn/cbor.go:83-157 | reads an item at a depth, its containers in loops that fill a sequence or a map, as the recursive specification does, refusals and slices out of range included |
| `CborProofs.HeadReads` | server/webauthn/cbor.go:44-78 | every head is read back, whatever follows |
| `CborProofs.DecodeEncode` | server/webauthn/cbor.go:83-248 | decoding the encoding of a value, followed by anything, at any depth, gives the value and what follows if it is within the limits, and fails otherwise |
| `CborProofs.RoundTripExactlyWithinLimits` | server/webauthn/cbor.go:162-248 | from the start of the input: the value and exactly its encoded length if and only if depth is at most 8, containers have at most 64 entries and no integer is the smallest 64-bit one, whatever the key order |
| `CborProofs.StringPanicsExactlyWhen` | server/webauthn/cbor.go:33-40 | a string slices out of range if and only if its announced length fits a signed integer but not after the offset is added |
| `CborPanics.PanicsExactlyWhen` | server/webauthn/cbor.go:33-157 | decoding any input, containers included, slices out of range if and only if the decoder comes to a head that announces such a length, with everything before it decoded |
| `CborSpellings.DecodesExactlyWhenSpelled` | server/webauthn/cbor.go:44-157 | for every input: decoding gives a value and the bytes after it if and only if the input starts with a spelling of that value: heads of any width, the highest byte first, integers within the signed range but its least, at most 64 items or entries, nine levels, and keys that are numbers or texts and differ |
| `CborSpellings.SpellingsAreDistinct` | server/webauthn/cbor.go:83-157 | no spelling is the beginning of another one |
| `CborSpellings.ShortestHead` | server/webauthn/cbor.go:186-202 | the encoder writes the shortest of the spellings of a head |
| `CborProofs.LeastInteger` | server/webauthn/cbor.go:97-107 | the least 64-bit integer is written in nine bytes that the decoder refuses |
| `CborProofs.NineBytesPanic` | server/webauthn/cbor.go:108-121 | nine bytes that do |
| `Signatures.ParseSignatureInput` | server/bs/sig9421.go:36-79 | the two loops fill the struct as the specification says, with its refusals |
| `Signatures.BuildBase` | server/bs/sig9421.go:108-129 | the loop over the covered components builds the signature base, or refuses an absent component |
| `SignatureProofs.FieldsOfJoin` | server/bs/sig9421.go:49-54 | splitting at white space undoes joining with single spaces |
| `SignatureProofs.SeparatorFails` | server/bs/sig9421.go:55-77 | a printed header whose key id contains a semicolon never parses |
| `SignatureProofs.ParserPanicsExactlyWhen` | server/bs/sig9421.go:55-74 | the header's parser slices out of range if and only if the list is well-formed and a parameter it reaches is the key id's opening quote alone |
| `SignatureProofs.HeaderParsesBackExactlyWhen` | server/bs/sig9421.go:36-151 | the printed header is parsed back to the same components, created, key id and verbatim parameters if and only if created is not zero and the key id is not empty, has no semicolon and needs no escape |
| `SignatureProofs.BaseDetermines` | server/bs/sig9421.go:108-129 | equal bases mean equal method, target URI, covered header values and parameters, when none of them has a newline |
| `Signatures.ComponentsEqual` | server/bs/sig9421.go:92-102 | the index loop decides equality, exactly as ordered |
| `Signatures.VerifySignature` | server/bs/bs.go:183-227 | the order of the checks: header, covered components, freshness, base, signature |
| `SignatureAnswers.AcceptedExactlyWhen` | server/bs/bs.go:183-227 | for every header and signature: accepted if and only if the header parses, covers exactly the profile's components in their order, was made within 300 seconds, every covered header is there and the key it names made the signature over the text spelled out; otherwise the first of these that fails is named |
| `SignatureAnswers.BaseIs` | server/bs/sig9421.go:108-129 | the signed text in literals: a line for each component of the profile and the parameters as they came |
| `SignatureHeaders.ListedIs` | server/bs/sig9421.go:36-79 | for every header with a list: it parses if and only if every word is quoted, every parameter is empty, a 64-bit creation time, a key id or ed25519, and a time other than zero and a key id are set; the last of each stands; otherwise the first fault is named |
| `SignatureHeaders.UnlistedIs` | server/bs/sig9421.go:36-48 | a header without the label, without a list or with one that never ends is refused as such |
| `SignatureHeaders.FieldsExactlyWhen` | server/bs/sig9421.go:49-54 | the words of a list are exactly what stands between white space |
| `SignatureProofs.SignedRequestVerifiesExactlyWhenFresh` | server/bs/sig9421.go:133-151 | both sides build the same base: a request signed under a plain key id at a time that is not zero, arriving with its covered headers, is accepted if and only if it is within the freshness window |
| `Library.EffectiveDeadline` | server/sn/materialize.go:191-199 | the maximum-tracking loop returns the latest of the manifest's window and every covering source's, and one of them |
| `Library.Shelf.Materialize` | server/sn/materialize.go:74-101 | the nested loops insert and step references as specified |
| `Library.Shelf.Accept` | server/clientapi/endpoints.go:38-92 | an accept takes the reference to available at once when the object is live and offered, else to expected for the delivery found |
| `Library.Shelf.CollectGarbage` | server/sn/gc.go:34-85 | the loop over a listing, with nothing in between: references expire and the object goes, one transaction an object, up to an aborted one |
| `LibraryAnswers.PinIs` | server/clientapi/media.go:94-103 | a pin holds the mailbox's available references to the object, an unpin frees its pinned ones, and no other reference changes |
| `LibraryAnswers.UnpinUndoesExactlyWhen` | server/clientapi/media.go:94-103 | an unpin undoes a pin if and only if nothing was pinned before it |
| `LibraryAnswers.TableIs` | server/store/migrations/0001_init.sql:57-75 | the transition table, change by change |
| `LibraryAnswers.AcceptIs` | server/clientapi/endpoints.go:38-92 | an accept of an offered object that is live makes the mailbox's offered and expected references available at once; any other lets the deferred delivery that was found be expected |
| `LibraryAnswers.ExpiredIs` | server/sn/materialize.go:201-210 | exactly the offers whose window has closed become unavailable |
| `LibraryAnswers.CollectableIs` | server/sn/gc.go:35-42 | what the query lists: a live object that nobody pins and whose references are all unavailable or ephemeral |
| `LibraryAnswers.CollectIs` | server/sn/gc.go:56-78 | one transaction of a sweep fails exactly when the trigger refuses; otherwise the object goes and its references that are neither pinned nor unavailable become unavailable |
| `LibraryKeys.DeliveryGives` | server/sn/materialize.go:74-101 | key by key: every reached mailbox has a reference for every entry, expected and ephemeral if granted and still offered, offered if new and not granted, and no other reference changes |
| `LibraryKeys.RedeliveryChangesNothing` | server/sn/materialize.go:68-101 | a redelivery to some of the mailboxes changes no reference |
| `LibraryKeys.NewGrantsAreEphemeral` | server/sn/materialize.go:94-101 | whoever sends it, a granted entry gives a new reference the ephemeral class, and only a granted one does |
| `LibraryKeys.EveryRunKeepsKeys` | server/store/migrations/0001_init.sql:33-53 | over every run of every interleaving there is at most one reference for a mailbox, object and message |
| `LibraryProofs.NextKeepsExactlyWhen` | server/sn/gc.go:34-85 | one transaction of a handler, the verifier or the sweep keeps 'held references have a live object' if and only if it is safe when it comes: a reference becomes available while its object is live, an object is taken while nothing pins it |
| `LibraryProofs.HeldExactlyWhenSafe` | server/sn/gc.go:34-85 | over every run of every interleaving, a sweep working on a list that may be stale: held references have a live object at every moment if and only if every step was safe when it came |
| `LibraryProofs.NothingNeededTakenExactlyWhenFresh` | server/sn/gc.go:34-85 | over every such run that is safe: no object that a reference pins or holds in the standard class is ever taken if and only if each taken object was still collectable at that moment |
| `LibraryProofs.UnavailableIsFinal` | server/store/migrations/0001_init.sql:57-75 | in every run references stay for their object, and an unavailable one never changes |
| `LibraryProofs.TakingIsSafeExactlyWhen` | server/sn/gc.go:56-78 | one transaction of a sweep keeps the invariant if and only if no reference pins the object at that moment, and takes nothing needed if and only if the object is gone or still collectable |
| `LibraryProofs.PinAfterListing` | server/sn/gc.go:35-80 | a run in which a pin between the list and the transaction is left without an object |
| `LibraryProofs.SweepAlone` | server/sn/gc.go:34-85 | a sweep that nothing interrupts is the loop over its list, is safe, and takes only what was collectable |
| `LibraryProofs.HandlersAlone` | server/clientapi/endpoints.go:38-54 | an accept and a verification that nothing interrupts are safe and do what their handlers do |
| `LibraryProofs.SweepKeeps` | server/sn/gc.go:34-85 | a sweep that nothing interrupts keeps the invariant and takes only objects that were collectable when it began |
| `LibraryProofs.SweepCompletesExactlyWhen` | server/sn/gc.go:34-85 | under the database's transition table such a sweep runs to its end if and only if no eligible object has an offered or expected reference; the first that has one aborts it |
| `LibraryProofs.FlipIsSafeExactlyWhen` | server/cmd/mlpd/main.go:193-195 | the flip to available keeps the invariant if and only if the object is live or nothing expects it |
| `LibraryBytes.BackedExactlyWhenSound` | server/sn/gc.go:59-81 | over every run of library transactions, renames, recordings, unlinks and restarts: every live object has its bytes at every moment if and only if no object is recorded over a missing file and no file is unlinked under a live object |
| `LibraryBytes.RecoverableExactlyWhenGuarded` | server/sn/gc.go:59-81 | a guard that would ensure it, and is exact: a step leaves every guarded continuation with the bytes of its live objects if and only if it renames no file whose removal is under way and takes no object that an upload is recording |
| `LibraryBytes.UploadedWhileUnlinked` | server/bs/bs.go:572-609 | a run in which an object uploaded again between the transaction of a sweep and its unlink ends up live without its bytes |
| `Urn.Base32Lower` | client/lib/mlet-urn.js:20-34 | the wrapping 32-bit buffer loop equals the regrouping of the input's bits into fives |
| `Urn.Drain` | client/lib/mlet-urn.js:27-30 | the inner loop writes every whole group of five pending bits, in order, and leaves the rest pending |
| `Urn.Base32` | client/lib/mlet-urn.js:20-34 | the output has ceil(8n/5) letters |
| `Urn.Base32RoundTrip` | server/core/multiformats.go:42-54 | decoding undoes base32 for every input |
| `Urn.ParseUrnOf` | server/core/multiformats.go:36-54 | parsing an address returns the digest it was built from |
| `Urn.AddressBinds` | server/core/multiformats.go:36-67 | two contents share an address if and only if they share a digest, and if they differ that exhibits a collision |
| `Urn.ParsesExactlyWhenSpelled` | server/core/multiformats.go:42-54 | a string parses to a digest if and only if it is the prefix and then, with line breaks taken out, the multihash in base32 with any three filling bits |
| `Urn.SpellingsDiffer` | server/core/multiformats.go:36-54 | the built address is the spelling with zeros, and no two spellings, of one digest or of two, are the same |
| `Urn.AnyAddressBinds` | server/core/multiformats.go:56-67 | whatever string is taken for an address verifies one content, or exhibits a collision |

## Left out

- The rounds of the BLAKE3 compression function, SHA-256, Ed25519, base64 and random ids: parameters or inputs.
- HTTP handlers, SQL text, sockets, file handles, sessions, the search index and every user interface component.
- I/O and database errors, and errors of a group sink: the model's writes succeed or the process crashes between them.
- Overflow of 64-bit sizes and offsets outside the CBOR decoder: sizes are below 2^63 where the source's type makes them
  so, and sums of sizes and offsets are unbounded.
- Upload.Resource.Stream: takes a body as one buffer; that `io.Copy` cuts it into several makes no difference to the
  verifier (`CutsDoNotMatter`).
- Upload.Resource.Patch: two requests to one token at once are left out (TryLock refuses the second), and the row is
  read in the same step; concurrent requests to different tokens are steps of a run.
- Upload.Resource.Finalize: the branch for systems where a rename cannot replace a file is not modelled.
- UploadRuns.EveryRunIsSound: leaves out the loss of an mlp-bao partial under a decoder in memory, the exact condition
  of `LossIsHealedExactlyWhen`; `ObjectsAreSafe` does not.
- UploadRuns.ConsumedForGood: upload runs have no garbage collection; what a sweep does to live objects and to their
  files is the subject of `LibraryProofs` and `LibraryBytes`.
- Upload.Resource.LoadReservation: speaks of a known token; an empty or unknown one is refused where tokens are looked up,
  in `UploadRuns.Reached`.
- The upload and its receiver in `Pusher` are values, so aliasing between a pusher and a blob store is not captured.
- Pusher.Pusher.Push: requests that arrive late or twice are covered for the receiver (`AnyGenuineRequests`), not inside
  the push loop; the source is always readable and the encoding is computed, not kept in a temporary file; it does
  not promise success after the last reply is lost, because the source then ends in a plain failure.
- Verdicts.Origin.ProcessVerdictUpdate: parsing, signatures and discovery are inputs; timestamps and verdict ids count
  by their place in the byte order; the timeline event is not modelled.
- Verdicts.Recipient.Accept: the minted reservation's token and expiry are inputs.
- Recipient policy, the conflict of one (author, id) under two contents, and refused signatures: a delivery that is
  refused is one that does not happen.
- Forwarding.Server.Forward: `forwarded_by`, `list` and the medialet's own bytes are not part of the envelope modelled.
- `Redispatch`, which writes no dispatch record, and the owner's delete, which removes an object others may reference.
- Delegation.Source.ProcessFulfill: one request at a time; the windows a domain has declared are given by a function,
  and `OwnDeclaredUntil` is proved to compute them.
- The rows that BuildDelegationRequest mints on the requester's side, and the transport of a delegation request.
- Jcs.Builder.WriteCanonical: output is a sequence of Unicode scalar values, before UTF-8; parsing of JSON text by the
  library is replaced by a reader of canonical text.
- Sanitizer.Sanitize: lower-casing that changes a string's length is not modelled.
- ClientFilter.Filter: takes trees whose tag and attribute names are lower-case already, as its parsers make them in
  ASCII; `client/lib/sanitizer.js:176` and `:202` lower them once more.
- CheckedProofs.RendersExactlyWhen: speaks of fragments whose tags start with a lower-case letter, as HTML's tokenizer
  makes them and `ParsedTagsAreLetters` proves of the parser here; the derived text of a degraded body is not modelled.
- HtmlParser.Parser.Run: open elements hold the children they have so far, instead of nodes filled in place; numeric
  character references, and names the decoder's table inherits from its prototype, are a parameter; the server's HTML
  library is not part of this model.
- CheckedProofs.ParseUndoesPrint: speaks of the filter's output, which has no comments; with empty or adjacent texts, or
  children below a void element, it shows that the tree does not come back.
- CborProofs.RoundTripExactlyWithinLimits: text is not checked for UTF-8, as in the source.
- Signatures.VerifySignature: base64, key discovery, roles and validity windows of keys are inputs.
- Signing documents and verifying them (`server/core/sign.go`) appear as what a signing input determines; the base64url
  length check and canonicalization errors are not modelled.
- SignatureProofs.HeaderParsesBackExactlyWhen: how Go quotes characters that are not plain is a parameter; what is
  assumed of it holds of Go's quoting for every choice of printable characters (`GoQuotingOk`).
- Library.Shelf.CollectGarbage: the loop with nothing in between; `LibraryProofs` runs its transactions beside all others.
- Library.Shelf.Materialize: threads, unread counts, names and types of entries are not modelled, nor is the insertion
  of the message row, which only selects the mailboxes.
- Urn.ParsesExactlyWhenSpelled: strings of a length no bytes encode to are refused, whether the library's decoder does
  so or the check of the decoded length.
- WebAuthn ceremonies, guest pages, document extraction, full-text search and vector generators other than the slice one.
