# macula-go, verified

A Dafny model of the parts of macula-go, a client for a signed mesh protocol, that are hard to get right: the
deterministic CBOR codec every signature and content id is taken over, content addressing, the time windows that must
fit each other across files, the call protocol, the stream verifier, the inbox, the subscription queues and the
handshake's negotiation. `dafny verify dfyconfig.toml` checks all of it.

The modules, from the ground up:

- `Bytes`, `Options`, `Sorting`: byte strings and their order, UTF-8, a value that may be absent, a stable sort.
- `Cbor`, `CborRoundTrip`, `CborCanon`, `CborSound`, `CborDecoder`: the wire value, the encoder and strict decoder as
  functions, their laws, and the decoder as the Go type works, with a position and a budget it moves.
- `FrameCheck`, `FrameCodec`: the send-side check against the decoder, and length-prefixed frames read in pieces.
- `Fields`, `TextMaps`: maps with text keys, what a reader finds in one that was built, and a frame rebuilt with its
  signature emptied.
- `Manifest`: chunking, the Merkle fold, content ids and the acceptance path of a fetch.
- `Admission`, `SealKeyring`, `Identity`, `Issuer`, `Records`, `Publication` (with `EventDedup`): the stores whose
  expiries must fit another file's acceptance windows.
- `GroupEpoch`, `GroupHeld`, `GroupKeyring`, `GroupRuns`: epochs, a joined group, and the keyring as its critical
  sections interleave, over every run.
- `PoolCall`: one pool call under any answers.
- `Streams`, `StreamsSigned` (with `StreamNames`), `StreamRuns`: the stream verifiers, their builders, and runs of both.
- `Inbox`, `Coverage`, `Deliveries`: the inbox in every interleaving, the notices of a subscription, its two queues.
- `Handshake`, `HandshakeProof`, `HandshakeAgree`: negotiation, the frames, and what the proofs make both ends agree on.

How the source's parts are taken:

- Signatures, hashes and key ids are function parameters. A key's own signature verifies under its public key
  (`Identity.Lawful`); nothing else is assumed of them. Where a theorem needs two hashed strings to be equal it says
  "equal, or here is a collision".
- The clock is a parameter: each step has a reading of its own, taken before the step takes its lock where the source
  does so, and readings are in the order of the steps only where a theorem says so. Random draws, keys and answers
  from the network are parameters too.
- Integers are unbounded; int64 and uint64 conversions and wrap-around are written out where they matter
  (`Bytes.Wrapped`, `Bytes.Unsigned`, `Bytes.Add64`, the bounds of `Cbor.Fits`). Floats are their 64-bit patterns.
- Names on the wire come from a `Vocabulary`; the laws need only that names differ and are valid text, and the
  source's own names are shown to be such (`Identity.MaculaIsWellChosen`, `Handshake.MaculaIsWellChosen`,
  `StreamNames.MaculaIsWellChosen`).
- Objects whose methods update fields are classes whose methods are proved against functions on values; runs and
  interleavings are then runs of those functions.

Eight properties one would expect turn out to hold only under a condition. Each has its exact condition and an input
that shows it is needed:

- A superseded wake-up of a group never pulls while the group stays joined. After the group is left and joined again,
  generations start over, and an old wake-up pulls exactly when its number is the new group's current one
  (`GroupRuns.WakeUpPullsIff`, `GroupRuns.RejoinedWakeUpPulls`).
- A publication is reported first once, unless another is first heard between two copies of it at a reading past its
  expiry, and exactly then it is reported first again (`EventDedup.FirstAgainIff`). That takes a reading before 1970,
  which becomes a huge unsigned time (`EventDedup.FirstTwiceBefore1970`), or two links: each reads the clock before it
  calls the dedup they share, so the later reading may call first (`EventDedup.FirstTwiceAcrossLinks`).
- A request runs once, unless between two copies of it an arrival in its own window sweeps at a reading past the
  request's deadline and five minutes, and exactly then a copy in its window is new again, when there is room
  (`Admission.NewAgainIff`). The window is judged before the lock is taken, so across links the later reading may sweep
  first (`Admission.AdmittedTwiceAcrossLinks`).
- A tombstone's lifetime is taken exactly when its ttl is within the row and ten minutes, or so large that creation time
  plus ttl wraps at 2^64 (`Records.TombstoneIsValid`, `Records.LongestTtlLives`).
- A pusher that waits for room is woken once there is room or the inbox closes, when pushers wait one at a time. The
  one that takes the room token does not pass it on, so of two that wait when the inbox closes one waits on, against
  the comment at cabi/inbox.go:30-31 (`Inbox.StrandsIff`, `Inbox.LonePusherHeard`, `Inbox.CloseStrands`).
- An epoch outlives its events unless its times lie within five minutes of the end of int64, where the tolerance wraps
  (`GroupEpoch.EpochOutlivesEvents`, `GroupEpoch.WrappedEpoch`).
- Every stream frame signed in its turn is accepted, exactly unless its clear body holds null or its seal scheme is
  2^53 or more, both of which the builders sign (`StreamRuns.SignedVerifies`, `StreamRuns.NullBodyRefused`,
  `StreamRuns.OddSchemeRefused`).
- What a station picks from an opener the client agrees to, exactly when the pick is version 5 with the client's own
  profile and not below its floor. A station of versions [4, 5] picks 4 for a client of [4, 4], and that client refuses
  the challenge as of another version (`HandshakeAgree.SameChoice`, `HandshakeAgree.OldVersionRefused`).

## Model

| member | source | states |
|---|---|---|
| `Bytes.LessBytes` | cbor/encode.go:93-106 | the loop decides the lexicographic order of byte strings that sorted keys stand in |
| `CborCanon.SortIsSorted` | cbor/encode.go:73-91 | appendMap's order is ascending in encoded key and loses or adds no entry |
| `CborCanon.EncodeIsSerializeOfCanon` | cbor/encode.go:32-91 | encoding a value is writing out, in order, the value with each map sorted at every depth |
| `CborRoundTrip.ItemReadsBack` | cbor/decode.go:75-154 | reading back what was written gives the value and the rest exactly when the rule admits it within the budget |
| `CborRoundTrip.SerializePrefixFree` | cbor/encode.go:37-132 | no value's bytes start another's, with anything after them |
| `CborCanon.RuleIffDecodes` | cbor/decode.go:52-316 | a value passes the rule if and only if its encoding decodes, and then to itself with maps sorted |
| `CborCanon.EncodePrefixFree` | cbor/encode.go:37-132 | an encoding that starts another is that encoding |
| `CborCanon.EncodeIffSame` | cbor/encode.go:73-91 | on admissible values encodings are equal exactly when values are equal up to the order of map entries at every depth |
| `CborSound.DecodeSound` | cbor/decode.go:52-327 | whatever bytes decode, the value passes the rule, re-encodes to a fixed point and to at most three times the input |
| `CborSound.TripleReached` | cbor/decode.go:197-247 | the factor three is reached |
| `CborDecoder.Decoder.Take` | cbor/decode.go:119-134 | the next n bytes for any n up to 2^64-1, or nothing and the position unmoved |
| `CborDecoder.Decoder.CountItem` | cbor/decode.go:110-117 | one item off the budget while there is budget |
| `CborDecoder.Decoder.Argument` | cbor/decode.go:137-154 | an argument in any width, as the parsing function reads it |
| `CborDecoder.Decoder.ReadItem` | cbor/decode.go:75-107 | the method's result and final position and budget are the parsing function's |
| `CborDecoder.Decoder.ReadList` | cbor/decode.go:249-272 | the loop over any declared count agrees with the recursive reading |
| `CborDecoder.Decoder.ReadMap` | cbor/decode.go:290-327 | the loop with its seen keys agrees with the recursive reading, duplicates included |
| `CborDecoder.RunDecode` | cbor/decode.go:52-73 | the stateful decoder agrees with the decoding function on every input |
| `FrameCheck.RuleCheck.CheckValue` | frame/check_payload.go:89-108 | the walk passes exactly the values the rule admits within its nesting and item limits |
| `FrameCheck.RuleCheck.CheckMap` | frame/check_payload.go:156-178 | with duplicate keys told by their bytes |
| `FrameCheck.CheckFrame` | frame/check_payload.go:71-87 | passes if and only if the encoding decodes where it arrives, and then to the same value sorted |
| `FrameCheck.CheckPayload` | frame/check_payload.go:52-69 | passes exactly the payloads within the tighter limits and the frame cap |
| `FrameCheck.PayloadTravels` | frame/check_payload.go:14-32 | a checked payload in any frame of at most 64 other items makes a frame that decodes |
| `FrameCodec.DrainAcross` | frame/codec.go:45-64 | draining two pieces one after the other is draining them joined |
| `FrameCodec.CutsDoNotMatter` | frame/codec.go:45-64 | reads cut anywhere give the same frames, the same refusal and the same remainder |
| `FrameCodec.FrameReadsBack` | frame/codec.go:17-64 | an encoded frame followed by anything decodes to its value and leaves exactly what follows |
| `FrameCodec.StreamArrives` | frame/codec.go:17-64 | frames sent in a row and read in any pieces arrive in order, sorted, with nothing left |
| `FrameCodec.NeedMoreIsMissing` | frame/codec.go:45-64 | a partial frame asks for something, and never more than is missing |
| `Fields.GetOfCanon` | cbor/value.go:155-166 | sorting a map for the wire changes no lookup in it |
| `Manifest.ChunksJoin` | manifest/manifest.go:252-265 | chunks concatenate back to the data |
| `Manifest.DoChunk` | manifest/manifest.go:252-265 | the loop cuts as the function does |
| `Manifest.RunCombine` | manifest/manifest.go:294-313 | the loop pairs from the front into a new list and doubles an odd last hash |
| `Manifest.RootHashFor` | manifest/manifest.go:277-292 | the loop of passes computes the fold, and the hash of nothing for no chunks |
| `Manifest.FoldInjective` | manifest/manifest.go:277-313 | at one chunk count, one root means one list of hashes, or a collision among the strings hashed |
| `Manifest.OddLastDoubled` | manifest/manifest.go:294-313 | across counts it is not injective: an odd list folds as itself with its last hash repeated |
| `Manifest.CanonicalInjective` | manifest/manifest.go:315-329 | the bytes a content id hashes say name, sizes, count and root |
| `Manifest.MakeChunkInfos` | manifest/manifest.go:267-275 | the loop records each chunk's index, offset, size and hash |
| `Manifest.CheckWhole` | manifest/manifest.go:204-250 | passes exactly the manifests cut as Create cuts |
| `Manifest.RootDeterminesData` | manifest/manifest.go:113-182 | one size, chunk size and root mean one content, or a collision |
| `Manifest.FetchParts` | pool/content.go:490-550 | workers that finish in any order give every chunk in its place, or one refusal fails them all |
| `Manifest.JoinParts` | pool/content.go:473-486 | the loop joins the parts |
| `Manifest.FetchFrom` | pool/content.go:438-590 | accepts exactly what the acceptance rule says, on any replies and in any order of arrival |
| `Manifest.FetchedIsCreated` | pool/content.go:438-486 | bytes accepted for the id Create made are the bytes it was made from, or a collision is exhibited |
| `Manifest.FetchedIsBlock` | pool/content.go:438-472 | the same for content that is one block |
| `Manifest.CreateIsWhole` | manifest/manifest.go:113-132 | what Create makes is whole, verifies against its data, and verifies under its own id exactly when its name is UTF-8 |
| `Manifest.CreatedIsFetched` | pool/content.go:438-590 | content served as Create made it is fetched back, byte for byte |
| `Admission.Admission.Admit` | stationlink/admission.go:121-156 | verdict and entries as specified for any reading, in whatever order readings reach the lock; counters still a recount of the held entries and within their bounds |
| `Admission.Admission.Store` | stationlink/admission.go:158-173 | a reply is kept for copies when the byte bounds have room, and counted |
| `Admission.Admission.Sweep` | stationlink/admission.go:175-198 | the loop removes exactly the expired entries and every counter still equals a recount |
| `Admission.HeldUntilSwept` | stationlink/admission.go:121-198 | an admitted request is held, with its first reply, until an arrival in its own window sweeps at a reading past its deadline and five minutes |
| `Admission.NewAgainIff` | stationlink/admission.go:121-156 | whatever the readings and their order, a copy is new again exactly when in its window, swept so in between, and there is room; unswept it gets exactly what the first reply left |
| `Admission.TwiceMeansSwept` | stationlink/admission.go:129-130 | a request new twice had such a sweep in between, whatever else was admitted |
| `Admission.AdmittedOnce` | stationlink/admission.go:121-173 | where arrivals take the lock in the order of their readings no request is new twice, and a copy gets exactly the stored reply, or two signed requests share a hash |
| `Admission.AdmittedTwiceAcrossLinks` | stationlink/admission.go:121-130 | three arrivals whose readings cross at the lock, and a request that is new twice |
| `SealKeyring.RotatedSound` | seal/keyring.go:91-110 | however the clock moves, at most one replaced key is kept |
| `SealKeyring.Keyring.Rotate` | seal/keyring.go:91-110 | the method keeps and replaces keys as specified |
| `SealKeyring.Keyring.Find` | seal/keyring.go:65-80 | finds exactly the current key and a replaced one still kept |
| `SealKeyring.NamedKeyIsFound` | seal/keyring.go:57-110 | over every run, a key named less than thirty minutes ago on the keyring's clock is found |
| `SealKeyring.AdmittedRequestOpens` | stationlink/admission.go:121-128 | a sealed request admission takes names a key the keyring still finds when asked later, within a margin of five minutes, whatever the caller's clock, when the caller could verify the advertisement |
| `SealKeyring.MarginIsExact` | seal/keyring.go:10-22 | at five minutes past, a key replaced as it was named is not found |
| `Identity.IssuedBindingVerifies` | identity/binding.go:116-251 | an issued binding verifies exactly within five minutes of its period, and is refused by name outside it |
| `Identity.IssuedStatusVerifies` | identity/binding.go:154-286 | the same for a status statement and its binding |
| `Identity.MaculaIsWellChosen` | identity/binding.go:116-175 | the labels and field names the source signs tell its fields apart |
| `Issuer.IdentityIsHonest` | identity/binding.go:116-286 | signing and verifying as the source does gives the issuer all its guarantees rest on |
| `Issuer.LaterInWindow` | identity/issuer.go:319-326 | a reissued statement is dated in [now, now + 5 min], and after the last unless that would leave this window |
| `Issuer.ReissuedGenuine` | identity/issuer.go:296-326 | a reissued statement is the office's own, dated as that says |
| `Issuer.ReissueEach` | identity/issuer.go:296-317 | the loop reissues each binding not past its end, in any order |
| `Issuer.StatementIssuer.ConnectMaterial` | identity/issuer.go:127-157 | material at every representable reading, and all it hands out verifies at that reading |
| `Issuer.StatementIssuer.Tick` | identity/issuer.go:209-242 | afterwards the current binding is in force |
| `Issuer.StatementIssuer.Rotate` | identity/issuer.go:339-363 | a new key becomes current only bound and stated; a failure is counted and changes nothing else |
| `Issuer.DropEach` | identity/issuer.go:272-286 | the loop lets go of exactly the expired bindings other than the current one, in any order |
| `Issuer.StatementIssuer.DropExpired` | identity/issuer.go:272-286 | and the issuer stays valid |
| `Issuer.DialThrough` | identity/issuer.go:127-242 | over any dials and ticks at any readings, backward ones included, every dial verifies |
| `Records.TombstoneParts` | record/tombstone.go:46-96 | own fields and slot fields do not overlap, so each is read back from a tombstone |
| `Records.TombstoneTakesSlot` | record/storage_key.go:23-143 | a tombstone signed by the same key has the storage slot of the record it withdraws, and there is one |
| `Records.TombstoneIsValid` | record/record.go:637-714 | whoever may sign the record may sign it; it keeps payload and row rules; its times are taken exactly when from 1970 on, below 2^53, and its ttl is within the row and ten minutes or wraps at 2^64; and it outlives the record |
| `Records.LongestTtlLives` | record/tombstone.go:65-74 | a ttl of 2^64-1 is taken where a smaller one is too long |
| `Records.PreimageInjective` | record/storage_key.go:89-205 | the bytes a storage key hashes say type and slot, for every type but node records |
| `Publication.AcceptedStretch` | frame/publication.go:226-265 | an accepted publication is accepted over one stretch of at most 70 minutes |
| `EventDedup.EventDedup.First` | stationlink/dedup.go:20-33 | new exactly when not held, with the loop sweeping what expired |
| `EventDedup.FirstAgainIff` | stationlink/dedup.go:20-33 | whatever the readings and their order, the next copy is first again exactly when another publication was first heard in between at a reading, as uint64, past the expiry |
| `EventDedup.AgainIffForgotten` | stationlink/dedup.go:20-33 | by the time of any copy it was first again exactly when such a sweep came |
| `EventDedup.FirstOnce` | frame/publication.go:229-265 | from 1970 on, where calls come in the order of their readings, no publication is first again while it is accepted, or two share a hash |
| `EventDedup.FirstTwiceBefore1970` | stationlink/dedup.go:26-30 | before 1970 one is |
| `EventDedup.FirstTwiceAcrossLinks` | stationlink/pubsub.go:259-277 | three accepted events whose readings cross at the dedup, and a publication first twice |
| `GroupEpoch.EpochOutlivesEvents` | group/epoch.go:61-63 | an event accepted by its own time rules, stamped while its epoch published or 5 min after, finds it acceptable, unless int64 wraps |
| `GroupEpoch.NoRoomToSpare` | group/wire.go:107-120 | the bound is exact to the millisecond |
| `GroupEpoch.WrappedEpoch` | group/epoch.go:61-63 | an epoch at the end of int64 is handed out and never acceptable |
| `GroupEpoch.ForPublishIsNewest` | group/epoch.go:67-76 | the newest held epoch that publishes, if any does |
| `GroupEpoch.PickForPublish` | group/epoch.go:67-76 | the loop picks it |
| `GroupEpoch.LiveMembers` | group/epoch.go:79-87 | exactly the acceptable epochs are kept |
| `GroupEpoch.KeepLive` | group/epoch.go:79-87 | the loop keeps them |
| `GroupEpoch.RepullInWindow` | group/epoch.go:47-59 | a re-pull falls in the last third of publishing and before its end |
| `GroupHeld.MergeOrderly` | group/keyring.go:462-473 | merging keeps ids distinct and issue order, loses nothing held, takes only the reply's, and holds every id it named |
| `GroupHeld.Held.Merge` | group/keyring.go:462-473 | policy, rotation and epochs as specified |
| `GroupHeld.Held.Spend` | group/keyring.go:476-487 | charges at most three pulls per publisher and rotation |
| `GroupHeld.Held.Store` | group/keyring.go:490-495 | erases exactly the epochs of no more use |
| `GroupKeyring.PutBackSame` | group/keyring.go:490-495 | a pulled group is never put back over another that took its key |
| `GroupKeyring.StepKeeps` | group/keyring.go:224-564 | every critical section, at any clock readings, keeps the keyring in order: placement, epochs, budgets, generations, delays, monotone policy |
| `GroupRuns.EpochsOrdered` | group/keyring.go:462-473 | at every moment of every run held epoch ids are distinct and in issue order |
| `GroupRuns.PolicyMonotone` | group/keyring.go:462-466 | once preferred or required, never off while held, and a user's pin stays |
| `GroupRuns.GivesOnlyWhatMayBe` | group/keyring.go:300-408 | a publish is given only the newest publishing epoch, an open only the asked id while acceptable |
| `GroupRuns.EpochKept` | group/keyring.go:490-513 | no epoch is erased while it is acceptable |
| `GroupRuns.EventOpens` | group/keyring.go:348-408 | an event its time rules accept opens at once under an epoch the group held, whatever the run did meanwhile |
| `GroupRuns.WakeUpPullsIff` | group/keyring.go:516-553 | exactly when a wake-up pulls: unreplaced, or carrying the number of a group joined since |
| `GroupRuns.RejoinedWakeUpPulls` | group/keyring.go:524-553 | a replaced wake-up pulls after leave and join |
| `GroupRuns.WakeUpsWait` | group/keyring.go:500-531 | no wake-up is armed for less than a second ahead |
| `GroupRuns.AtMostThreeCharged` | group/keyring.go:476-487 | over every run at most three pulls are charged between budget resets |
| `PoolCall.LinkCallDisciplined` | stationlink/call.go:145-206 | one link call sends at most twice, clear only first, and says which key its result was sealed to |
| `PoolCall.CallAtDisciplined` | pool/call.go:341-403 | one candidate's call sends at most three, none clear after a sealed one |
| `PoolCall.CallDisciplined` | pool/call.go:130-214 | all sends go to one candidate, none clear when sealing is required, and a sealed report names its request's key |
| `PoolCall.ResealKeyIsAdvertised` | pool/call.go:434-458 | a reseal goes only to a key a fresh advertisement names, and finds the named one whenever it is there |
| `PoolCall.PickResealKey` | pool/call.go:434-458 | the loop picks it |
| `PoolCall.LearntIsNeverClear` | pool/call.go:258-296 | a provider whose key was learnt is never called in the clear |
| `PoolCall.PoolCaller.LinkedCall` | stationlink/call.go:145-181 | the method with its adopted key sends, answers and learns as specified |
| `PoolCall.PoolCaller.CallCandidate` | pool/call.go:341-376 | the call, its reseal after a sealed refusal and its report are the candidate function's |
| `PoolCall.PoolCaller.RunCall` | pool/call.go:130-166 | the candidate loop is the specified call |
| `Streams.RunsInOrder` | frame/stream_frames.go:413-540 | over every threaded run each side's accepted frames are 0, 1, 2, ..., none after its END, the provider's all under its first key, whose id is the target |
| `Streams.VerifyGoesOn` | frame/stream_frames.go:413-540 | an accepted frame moves its side by one and nothing else; a refusal changes nothing |
| `Streams.AcceptedIsSigned` | identity/signed_object.go:249-279 | an accepted frame's bytes verify under its side's label and its key, and name the request |
| `StreamsSigned.NullInCanon` | frame/signed_frames.go:227-236 | sorting a value neither hides nor adds a null |
| `StreamsSigned.SealedReadsBack` | frame/sealed.go:63-134 | a sealed map in its side's shape reads back so exactly when its scheme is below 2^53 |
| `StreamsSigned.BuiltTable` | frame/stream_frames.go:230-388 | what the builders sign decodes, bulky bodies and payloads included |
| `StreamsSigned.BuiltReads` | frame/stream_frames.go:576-611 | and is read, unless it holds the null or the scheme no verifier takes |
| `StreamNames.MaculaIsWellChosen` | frame/stream_frames.go:613-630 | the source's field names tell fields apart |
| `StreamRuns.SignedVerifies` | frame/stream_frames.go:180-247 | whatever its builder signs in turn is accepted exactly when it is readable, and the next is then in turn; else it is malformed and changes nothing |
| `StreamRuns.SequenceAccepted` | frame/stream_frames.go:180-540 | whatever both sides sign in sequence, interleaved in any way, every frame is accepted with its own fields |
| `StreamRuns.HugeSchemeRefused` | frame/sealed.go:63-81 | a frame signed under a scheme past int64 is malformed to every verifier |
| `StreamRuns.NullBodyRefused` | frame/signed_frames.go:171-189 | a null body is signed and refused |
| `StreamRuns.OddSchemeRefused` | frame/sealed.go:84-134 | every scheme from 2^53 on is signed and refused |
| `Inbox.Inbox.PushSection` | cabi/inbox.go:71-99 | closed, room, refused, evicting or waiting, with the drop count |
| `Inbox.Inbox.NextSection` | cabi/inbox.go:114-141 | the oldest item, the end, or nothing |
| `Inbox.InboxHolds` | cabi/inbox.go:71-150 | in every interleaving no consumer's wakeup is lost, consumers and pushers never all wait on each other, items come in push order, at most 256 are held, drops are refusals plus evictions |
| `Inbox.StrandsIff` | cabi/inbox.go:71-99 | a waiting pusher is left without a wakeup exactly when the last one woken is done, with no token or signal left and the inbox closed or with room |
| `Inbox.LonePusherHeard` | cabi/inbox.go:71-99 | where pushers wait one at a time none ever is |
| `Inbox.TakenFromTwo` | cabi/inbox.go:114-128 | two takes whose signals become one token leave one of two pushers waiting beside room |
| `Inbox.CloseStrands` | cabi/inbox.go:143-151 | a run in which two wait, the inbox closes and one waits on |
| `Inbox.NoItemLost` | cabi/inbox.go:71-99 | where pushers wait, or no notice is pushed and the newest is dropped, what was taken comes out whole |
| `Coverage.Coverage.Covers` | pool/delivery.go:71-78 | the set and the Gap owed |
| `Coverage.Coverage.Ended` | pool/delivery.go:83-94 | the set and the Interrupted owed |
| `Coverage.NoticesAlternate` | pool/delivery.go:71-94 | over every run notices alternate and each Gap repeats its Interrupted |
| `Coverage.NoticeIffSetTurns` | pool/delivery.go:71-94 | a notice comes exactly when the set empties or fills again |
| `Coverage.InterruptedFromLatest` | pool/delivery.go:83-94 | an Interrupted starts at the latest moment any link lost since was heard |
| `Deliveries.Subscription.Queue` | pool/pubsub.go:244-255 | queued, or dropped and counted when full, and nothing once ended |
| `Deliveries.Subscription.Deliver` | pool/pubsub.go:288-296 | refused and counted, or queued |
| `Deliveries.Subscription.Push` | pool/pubsub.go:270-285 | the loop always lets a notice in, at the cost of the oldest delivery alone |
| `Deliveries.PushIsSteps` | pool/pubsub.go:260-285 | an uninterrupted push is its steps |
| `Deliveries.WhatLeaves` | pool/pubsub.go:270-313 | what leaves the queues is a counted event, or a notice evicted by one that entered after it |
| `Deliveries.SubscriptionHolds` | pool/pubsub.go:225-313 | at every moment of every interleaving each event is in one place, deliveries stay in order, the newest notice is never lost |
| `TextMaps.TableDecodes` | cbor/decode.go:290-327 | a map of named fields decodes with each field under its name |
| `TextMaps.Rebuild` | handshake/handshake.go:713-726 | the loop empties the signature field and no other |
| `TextMaps.BuiltFrameTBS` | handshake/handshake.go:713-726 | the tbs rebuilt from a built frame is byte for byte that frame with its signature empty |
| `TextMaps.TBSFixesFields` | handshake/handshake.go:713-726 | whatever bytes were received, every other field reads as in the frame that was signed |
| `Handshake.PickProfile` | handshake/handshake.go:222-226 | the loop finds the client's first shared profile |
| `Handshake.NegotiateIsBest` | handshake/handshake.go:217-228 | the highest version in both ranges and this library's, and the client's best shared profile; none only when there is none |
| `Handshake.FrameReads` | handshake/handshake.go:898-1023 | a built frame is read exactly when of this version with every field of its type |
| `Handshake.MaculaIsWellChosen` | handshake/handshake.go:251-275 | the source's keys tell fields apart |
| `HandshakeAgree.OpenerReads` | handshake/handshake.go:277-309 | a station weighs exactly the client's ranges |
| `HandshakeAgree.ChallengeReads` | handshake/handshake.go:324-424 | a client judges exactly the station's version, profile and ranges |
| `HandshakeAgree.SameChoice` | handshake/handshake.go:411-424 | the client agrees to the station's choice, when it is of this version, and to no other |
| `HandshakeAgree.OldVersionRefused` | handshake/handshake.go:898-922 | a station's pick of version 4 is refused by the client it was picked for |
| `HandshakeAgree.ConnectRebuilds` | handshake/handshake.go:469-489 | the tbs a station rebuilds from a CONNECT is what the client signed |
| `HandshakeAgree.HelloRebuilds` | handshake/handshake.go:705-726 | the same for a HELLO |
| `HandshakeAgree.ProofMessageSays` | handshake/handshake.go:758-771 | no two sequences of fields give one proof message |
| `HandshakeAgree.SessionMessageSays` | handshake/handshake.go:778-789 | nor one session proof message |
| `HandshakeAgree.BothAcceptBothAgree` | handshake/handshake.go:613-678 | when both accept they agree on version, profile, both ranges, ids, exporter value, leaf and the client's keys, capabilities and endorsement, or a SHA-384 collision is exhibited |
| `HandshakeAgree.HelloAnswersSession` | handshake/handshake.go:833-864 | an accepted HELLO answers this challenge and this CONNECT with the capabilities sent, or a collision |

## Left out

- The cryptography itself, QUIC, TLS, goroutines and timers as such, key files, and the C ABI besides the inbox.
- How `sort.Slice` orders map entries with equal keys: on admissible values there are none (`CborCanon.EncodeIffSame`).
- `cbor.sizeHint`, which only presizes slices.
- Manifest.FetchFrom: reading a manifest's map from the wire (FromWire) is taken as done.
- `Admission.openSession` and `chargeInbox`, counters beside the entry store that no listed window depends on.
- `StatementIssuer.Subscribe` and its channels, which hand out the statements ticks make and close with their binding.
- TLS bindings, which differ from CONNECT bindings in label and subject alone.
- Rules about payload fields no slot holds, and extension maps: a record may break them and its tombstone is as good.
- The remaining checks of a publication besides its times and publisher, and the plumtree frames that carry one.
- GroupKeyring.StepKeeps: the keyring's methods are modelled on values, one step per critical section, since a group left during a pull is still updated through the pointer the pull holds; generation numbers do not wrap at 2^64.
- `group.Keyring.Policy`, `OrgOf` and `Under`, string matching; and the map shape of a reply, of which only the rules for its epochs are kept.
- GroupEpoch.RepullInWindow: the product of the window and the drawn fraction is exact, over reals; the rounding of float64 is not modelled.
- PoolCall.CallDisciplined: resolving advertisements, the pool's memory of candidates and the division of the deadline are answers of the environment.
- Streams.RunsInOrder: the envelope around a stream frame and the meaning of extension maps are parameters.
- StreamRuns.SignedVerifies: the provider's builder with extensions (SignProviderStreamWithExt) is modelled without any.
- A CONNECT's checks of keys, puzzle, binding and statement, which choose nothing; bindings and statements have their own theorems.
- Deliveries.SubscriptionHolds: says nothing of a subscription once it has ended, when what its channels still hold may be abandoned.
