# Pigeonhole storage protocol: a verified model

This project models the Pigeonhole storage protocol of Katzenpost and proves what
it promises. Clients write and read small signed boxes at storage replicas through
couriers; a client daemon retransmits until it is answered; replicas keep boxes for
the current and the previous epoch and replicate them to each other.

| Part | Files |
|---|---|
| Wire messages | `Options.dfy`, `Bytes.dfy`, `Trunnel.dfy` (parsers and encoders), `TrunnelLayout.dfy` (byte offsets) |
| Copy streams: framing, re-chunking and streaming decoders | `CopyStream.dfy` (specification and theorems), `CopyStreamSound.dfy` (the decoder on arbitrary bytes), `CopyStreamCodec.dfy` (the classes) |
| The client's retransmission engine | `ArqIndex.dfy` (the two indexes), `ArqMachine.dfy` (handlers as steps), `ArqOutcomes.dfy` (what becomes of each operation), `ArqDaemon.dfy` (the handlers themselves), `ArqInterleaved.dfy` (handlers cut at their lock), `ArqGrain.dfy` (the two grains agree) |
| Replica box store | `BoxStore.dfy` (the class), `BoxRegister.dfy` (register per box), `BoxLocks.dfy` (lock table under every interleaving) |
| Replication | `RetryQueue.dfy`, `Replication.dfy`, `Sharding.dfy` |
| Round-robin scheduler | `Scheduler.dfy`, `SchedulerQueues.dfy` |
| Padding, random choice, envelope keys | `Padding.dfy`, `RandomIndex.dfy`, `EnvelopeKeys.dfy` |

Code that updates state in place is a class whose methods are proved equal to
functions, and the theorems are about those functions. Concurrency is a state machine
whose steps are the critical sections. What the environment decides is an argument:
the clock, random draws, whether a Sphinx packet could be composed, what a ciphertext
decrypts to, what verifies under which key, which faults occur.

Integers are unbounded in Dafny; the widths of the source are written out where they
matter (length prefixes, epochs, the random word, the replica count).

## Where the code does less than its comments say

Each has a lemma at a concrete input or run, and a theorem that says exactly when it
happens.

- A read whose retry after BoxIDNotFound cannot be composed is left in
  PayloadReceived; the data that later arrives is ignored and nothing retries it
  (`ComposeFailureWedgesRead`; exactly when: `StepSticksIff`).
- A copy command answered by a reply of the wrong type loses its retry
  (`WrongTypeWedgesCopy`; exactly when: `WrongTypeLosesRetryIff`).
- Rescheduling after a compose failure puts a message that was cancelled meanwhile
  back into both indexes (`CancelUndoneByReschedule`; exactly when:
  `CancelledHashReturnsIff`).
- A restart of a cancelled hash while its reply handler is dropping it leaves the new
  operation without its hash entry (`RestartOrphansOperation`; exactly when:
  `InverseKeptIff` for a step, `IndexesInverseIff` for a run).
- An operation can be answered twice: by a cancel and then by the reply handler still in
  flight, or again after a reschedule brought it back (`CancelDuringReplyAnswersTwice`,
  `CancelTwiceAnswersTwice`; exactly when: `AnsweredAgainIff`, `AnsweredOnceIff`).
- A stream of stateless calls whose last call is empty never carries a final flag
  (`EmptyLastCallLosesFinal`; exactly when: `StatelessCallsEncodeIff`).
- Saving an encoder before it emitted anything loses the start flag
  (`EarlyCutLosesStart`; exactly when: `SaveRestoreTransparent`).
- An idempotent re-write is acknowledged without being stored again, so it does not
  last through the next epoch (`RewriteDoesNotLast`; exactly when:
  `AcknowledgedWriteLastsIff`).
- A full peer answers a replication write with a permanent error and the write is
  forgotten (`FullPeerBreaksConvergence`; exactly when: `CoverageLostIff`).
- Pruning envelope keys in epoch 0 removes every key (`PruneAtEpochZero`; exactly when:
  `PruneIsExactIff`).
- A message of 2^32 bytes or more does not survive its padding (`HugeMessageIsLost`;
  exactly when: `ExtractUndoesPaddingIff`).

## Model

| member | source | states |
|---|---|---|
| `Trunnel.CourierEnvelopeFormat` | pigeonhole/trunnel_messages.go:22-181 | parsing an encoded courier envelope followed by anything returns it and the rest; every successful parse read exactly an encoding; every strict prefix is too short |
| `Trunnel.ReadCourierEnvelope` | pigeonhole/trunnel_messages.go:22-100 | the cursor-advancing parser with its loops computes the specified parse |
| `Trunnel.WriteCourierEnvelope` | pigeonhole/trunnel_messages.go:111-181 | the appending encoder refuses exactly what fails validation and otherwise writes the specified bytes |
| `Trunnel.CourierEnvelopeReplyFormat` | pigeonhole/trunnel_messages.go:192-297 | canonical and self-delimiting, also with the constraint on the reply type |
| `Trunnel.ReadCourierEnvelopeReply` | pigeonhole/trunnel_messages.go:192-245 | the parser computes the specified parse, constraint errors included |
| `Trunnel.CourierQueryFormat` | pigeonhole/trunnel_messages.go:305-393 | canonical and self-delimiting over both arms of the union |
| `Trunnel.CourierQueryReadsBackIffComplete` | pigeonhole/trunnel_messages.go:351-393 | a query reads back from its encoding exactly when the selected arm is present and the other is not |
| `Trunnel.ReadCourierQuery` | pigeonhole/trunnel_messages.go:305-340 | the parser computes the specified parse |
| `Trunnel.ReplicaWriteFormat` | pigeonhole/trunnel_messages.go:755-850 | canonical and self-delimiting |
| `Trunnel.ReadReplicaWrite` | pigeonhole/trunnel_messages.go:755-793 | the parser computes the specified parse |
| `Trunnel.ReplicaInnerMessageFormat` | pigeonhole/trunnel_messages.go:658-746 | canonical and self-delimiting over both arms of the union |
| `Trunnel.ReadReplicaInnerMessage` | pigeonhole/trunnel_messages.go:658-693 | the parser computes the specified parse |
| `Trunnel.BoxFormat` | pigeonhole/trunnel_messages.go:994-1086 | canonical and self-delimiting |
| `Trunnel.ReadBox` | pigeonhole/trunnel_messages.go:994-1032 | the parser computes the specified parse |
| `Trunnel.CopyCommandFormat` | pigeonhole/trunnel_messages.go:1093-1155 | canonical and self-delimiting |
| `Trunnel.ReadCopyCommand` | pigeonhole/trunnel_messages.go:1093-1113 | the parser computes the specified parse |
| `Trunnel.CopyStreamElementFormat` | pigeonhole/trunnel_messages.go:1223-1289 | canonical and self-delimiting |
| `Trunnel.ReadCopyStreamElement` | pigeonhole/trunnel_messages.go:1223-1250 | the parser computes the specified parse |
| `TrunnelLayout.CourierEnvelopeHeadLayout` | pigeonhole/trunnel_messages.go:22-54 | replicas at 0, first key at 2, second at 62, reply index at 122 of what was parsed |
| `TrunnelLayout.CourierEnvelopeBodyLayout` | pigeonhole/trunnel_messages.go:55-101 | epoch at 123, then the sender key and the ciphertext, each behind its length; nothing past them is read |
| `TrunnelLayout.CourierEnvelopeReplyLayout` | pigeonhole/trunnel_messages.go:192-246 | hash at 0, index at 32, type at 33, payload behind its length at 34, error code last |
| `TrunnelLayout.CopyCommandLayout` | pigeonhole/trunnel_messages.go:1093-1114 | the capability behind its four-byte length |
| `TrunnelLayout.CourierQueryLayout` | pigeonhole/trunnel_messages.go:305-341 | parses exactly when byte 0 is 0 and an envelope follows or 1 and a copy command follows |
| `TrunnelLayout.ReplicaWriteLayout` | pigeonhole/trunnel_messages.go:755-794 | box ID at 0, signature at 32, payload behind its length at 96 |
| `TrunnelLayout.ReplicaInnerMessageLayout` | pigeonhole/trunnel_messages.go:658-694 | parses exactly when byte 0 is 0 and 32 bytes follow or 1 and a write follows |
| `TrunnelLayout.BoxLayout` | pigeonhole/trunnel_messages.go:994-1033 | box ID at 0, payload behind its length at 32, signature after it |
| `TrunnelLayout.CopyStreamElementLayout` | pigeonhole/trunnel_messages.go:1223-1251 | flags at 0, chunk behind its length at 1 |
| `CopyStream.StreamShape` | pigeonhole/copy_stream.go:106-201 | in a stream the start flag is on the first element only, the final flag on the last only, and all elements but the last are full |
| `CopyStream.StreamPayload` | pigeonhole/copy_stream.go:106-201 | the chunks of a stream, joined, are the framed bytes |
| `CopyStream.RunEmitsStream` | pigeonhole/copy_stream.go:82-201 | any run of AddEnvelope calls, saved and restored anywhere, then Flush, emits the stream of all framed envelopes |
| `CopyStream.StartSurvivesIffEmitted` | pigeonhole/copy_stream.go:61-139 | the start flag survives the first save and restore exactly when an element was emitted before it |
| `CopyStream.SaveRestoreTransparent` | pigeonhole/copy_stream.go:262-288 | a run cut and restored anywhere emits the same chunks as the uncut run, and identical elements exactly when some element came before the first cut |
| `CopyStream.DecodeAvailableInStream` | pigeonhole/copy_stream.go:326-357 | at any point of a stream the element decoder returns the next element exactly when all its bytes are there, and never an error |
| `CopyStream.DrainElementsInStream` | pigeonhole/copy_stream.go:423-450 | draining takes exactly the complete elements and keeps their joined data |
| `CopyStream.NextEnvelopeInStream` | pigeonhole/copy_stream.go:450-486 | the envelope decoder returns the next envelope exactly when all its bytes are there |
| `CopyStream.DrainEnvelopesInStream` | pigeonhole/copy_stream.go:450-486 | draining returns exactly the complete envelopes, in order |
| `CopyStream.AnyFragmentationDecodes` | pigeonhole/copy_stream.go:315-492 | however the bytes are cut and whenever decoding is called, the calls together return exactly the envelopes in order, without error, nothing remains, and final is reported exactly from the last byte on |
| `CopyStream.CopyStreamRoundTrip` | pigeonhole/copy_stream.go:82-492 | encode with any cuts, fragment in any way, decode at any points: exactly the envelopes come back |
| `CopyStream.StatelessCallsEncodeIff` | client/pigeonhole.go:549-570 | elements of any number of stateless calls, each flushing its own encoder, encode all their envelopes in order exactly when the last call has an envelope or none has |
| `CopyStream.EmptyLastCallNeverFinal` | client/pigeonhole.go:384-397 | after an empty last call no element of the stream is final |
| `CopyStream.EmptyLastCallLosesFinal` | client/pigeonhole.go:565-569 | one envelope, then an empty last call: all data, no final flag |
| `CopyStream.EarlyCutLosesStart` | client/pigeonhole.go:638-650 | an envelope that fits one chunk, saved and restored before it is flushed, comes out without the start flag |
| `CopyStreamSound.ElementStepIff` | pigeonhole/copy_stream.go:326-358 | refuses exactly a declared size over the limit, takes exactly a complete element, and then what it took is that element's encoding |
| `CopyStreamSound.EnvelopeStepIff` | pigeonhole/copy_stream.go:444-484 | too large, waiting, malformed, trailing bytes and a good envelope, each if and only if the bytes are so |
| `CopyStreamSound.EnvelopeTakenIff` | pigeonhole/copy_stream.go:444-484 | an envelope comes out if and only if the buffer begins with the frame of an acceptable one |
| `CopyStreamSound.DecodeExplained` | pigeonhole/copy_stream.go:423-487 | one call returns whole frames in order, reports an error exactly for what it leaves at the head of its buffers, and otherwise leaves nothing it could take |
| `CopyStreamSound.DecoderIsSound` | pigeonhole/copy_stream.go:315-492 | for any bytes in any pieces, errors or not, the envelopes returned are exactly those whose frames the chunks begin with, and every byte is a header, part of a returned frame, or remaining |
| `CopyStreamSound.FlagByte` | pigeonhole/copy_stream.go:365-373 | 1 for start, 2 for final, 3 for both |
| `CopyStreamSound.FrameLayout` | pigeonhole/copy_stream.go:82-103 | a four-byte big-endian length and the envelope |
| `CopyStreamSound.StatelessStartIff` | client/pigeonhole.go:549-575 | over any stateless calls only the first element can carry the start flag, and does exactly when the first call starts the stream and has an envelope |
| `CopyStreamCodec.CopyStreamEncoder.constructor` | pigeonhole/copy_stream.go:50-56 | a fresh encoder expects to emit the first element |
| `CopyStreamCodec.CopyStreamEncoder.SuppressStart` | pigeonhole/copy_stream.go:61-63 | only the start flag is given up |
| `CopyStreamCodec.CopyStreamEncoder.AddEnvelope` | pigeonhole/copy_stream.go:82-103 | refuses a missing or invalid envelope and otherwise emits and keeps what the specification says |
| `CopyStreamCodec.CopyStreamEncoder.ExtractElements` | pigeonhole/copy_stream.go:106-139 | the slicing loop emits every full chunk and keeps the rest |
| `CopyStreamCodec.CopyStreamEncoder.FlushAll` | pigeonhole/copy_stream.go:145-201 | the loop emits everything left, the last element final |
| `CopyStreamCodec.CopyStreamEncoder.FlushPart` | pigeonhole/copy_stream.go:207-255 | the loop emits everything left, nothing final |
| `CopyStreamCodec.CopyStreamEncoder.GetBuffer` | pigeonhole/copy_stream.go:262-275 | returns what is buffered and changes nothing |
| `CopyStreamCodec.CopyStreamEncoder.SetBuffer` | pigeonhole/copy_stream.go:280-288 | replaces the buffer, ignores a missing state, and leaves the start flag alone |
| `CopyStreamCodec.Resume` | client/pigeonhole.go:638-650 | a fresh encoder given a saved buffer and told to suppress start is the specified restored encoder |
| `CopyStreamCodec.CopyStreamDecoder.AddData` | pigeonhole/copy_stream.go:315-318 | appends to the buffer |
| `CopyStreamCodec.CopyStreamDecoder.NextElement` | pigeonhole/copy_stream.go:326-357 | computes the specified element step, the size limit included |
| `CopyStreamCodec.CopyStreamEnvelopeDecoder.AddBoxData` | pigeonhole/copy_stream.go:406-408 | appends to the element decoder |
| `CopyStreamCodec.CopyStreamEnvelopeDecoder.DecodeAll` | pigeonhole/copy_stream.go:423-486 | computes the specified result and state |
| `CopyStreamCodec.CopyStreamEnvelopeDecoder.TakeElements` | pigeonhole/copy_stream.go:423-450 | the first loop drains the elements |
| `CopyStreamCodec.CopyStreamEnvelopeDecoder.TakeEnvelopes` | pigeonhole/copy_stream.go:450-486 | the second loop drains the envelopes |
| `CopyStreamCodec.CopyStreamEnvelopeDecoder.RemainingBytes` | pigeonhole/copy_stream.go:490-492 | counts both buffers |
| `ArqIndex.RegisterKeepsInverse` | client/pigeonhole.go:1153-1156 | starting an untracked hash under a new SURB ID keeps the indexes inverse |
| `ArqIndex.RotateKeepsInverse` | client/daemon.go:848-871 | rotation keeps the indexes inverse and the message tracked |
| `ArqIndex.ReregisterKeepsInverse` | client/daemon.go:773-782 | re-registering keeps them inverse, for a tracked message and for one that nothing replaced |
| `ArqIndex.DropKeepsInverse` | client/daemon.go:833-841 | dropping keeps them inverse and untracks the message |
| `ArqIndex.CancelKeepsInverse` | client/pigeonhole.go:1261-1269 | after a cancel the hash is in neither index |
| `ArqIndex.CleanupKeepsInverse` | client/daemon.go:975-995 | keeps the indexes inverse and leaves the client nothing; what it leaves others is CleanupIsExact |
| `ArqMachine.ComputeTransition` | client/arq.go:66-138 | a reply is ignored exactly in PayloadReceived without an error; an entry is removed exactly on error or completion; only writes complete on an ACK |
| `ArqMachine.ReportsSuccessIff` | client/pigeonhole.go:1382-1492 | a client is told success exactly when its copy succeeded, its write was acknowledged, stored or already there, or its read came back readable |
| `ArqMachine.ReportsFailuresAsTheyAre` | client/pigeonhole.go:1806-1840 | every courier error, payload and decryption outcome has exactly the effect its flags decide: reported as itself, retried, or taken as success |
| `ArqMachine.ReplyMovesIff` | client/pigeonhole.go:1426-1486 | a reply keeps its operation going exactly on an ACK that is not the answer, a not-found that is to be asked again, or a copy in progress, each with its next state and rotation |
| `ArqMachine.ReplyForgetsIff` | client/pigeonhole.go:1320-1362 | an operation is forgotten without an answer exactly when the reply is garbled; a failed or unknown copy status is answered |
| `ArqMachine.RunKeepsInv` | client/daemon.go:766-1018 | every run of starts, timer fires, picks, resends, replies, cancels, cleanups, connects and disconnects keeps the invariant |
| `ArqMachine.IndexesInverseOverEveryRun` | client/daemon.go:848-852 | after every run the two indexes are exact inverses, no operation was answered twice, and an answered one is untracked |
| `ArqMachine.StepSticksIff` | client/pigeonhole.go:1842-1870 | a step leaves a message in PayloadReceived exactly when it is a payload retry that could not be composed |
| `ArqMachine.NoReplyIgnored` | client/arq.go:66-138 | in runs without that failure no tracked message is in PayloadReceived, so no reply is ignored |
| `ArqMachine.NoRetryLost` | client/daemon.go:498-505 | while the owner stays connected, every tracked message has after every step exactly one token: a timer entry, a resend channel entry or a resend in flight |
| `ArqMachine.ReadyWhenConnected` | client/daemon.go:801-829 | after every run the premise of NoRetryLost holds for every client that connects owning no tracked message |
| `ArqMachine.StaleTokensDoNothing` | client/daemon.go:801-887 | tokens and replies for SURB IDs no longer tracked have no effect |
| `ArqMachine.ReplyLeavesIff` | client/pigeonhole.go:1320-1492 | a reply leaves its message alone exactly when the client is gone, a copy command got another kind of reply, or the state is PayloadReceived |
| `ArqMachine.WrongTypeLosesRetryIff` | client/pigeonhole.go:1512-1518 | such a reply to a copy command uses up its retry exactly when its timer entry was in the queue |
| `ArqMachine.WrongTypeWedgesCopy` | client/pigeonhole.go:1512-1518 | a run from the start that ends with a copy command tracked, unanswered and without a token |
| `ArqMachine.ComposeFailureWedgesRead` | client/pigeonhole.go:1866-1870 | a run in which the data arrives, is ignored, and the read stays tracked, unanswered and without a token |
| `ArqOutcomes.StepTouchesNoOther` | client/pigeonhole.go:1320-1492 | every step leaves the message, hash entry and timer of every operation it does not address as they were |
| `ArqOutcomes.CleanupIsExact` | client/daemon.go:975-995 | a cleanup removes from both indexes exactly the entries of its client's messages |
| `ArqOutcomes.CleanupStopsTimersIff` | client/daemon.go:975-1018 | a cleaned-up message keeps a timer entry exactly when the queue had not taken it in |
| `ArqOutcomes.CleanupLeavesOthers` | client/daemon.go:961-1018 | another client's operation stays tracked with the same message, hash entry and timer |
| `ArqOutcomes.StartTracks` | client/pigeonhole.go:1132-1166 | a composed start is tracked with one timer; one that cannot be composed is answered |
| `ArqOutcomes.TimerHandsOver` | client/daemon.go:801-829 | a timer hands its SURB ID to the client's resend channel, or stays set while that is full |
| `ArqOutcomes.PickHandsOver` | client/listener.go:358-368 | a pick moves the oldest resend to the egress worker |
| `ArqOutcomes.ResendRearms` | client/daemon.go:873-957 | a resend moves the operation to the fresh SURB ID in its state, with one timer and one more transmission if it was sent |
| `ArqOutcomes.CancelAnswers` | client/pigeonhole.go:1244-1303 | a cancel forgets exactly the hash's operation, stops its queued timer and answers it Cancelled |
| `ArqOutcomes.AckKeepsOperation` | client/pigeonhole.go:1426-1486 | after an ACK the operation is tracked under the fresh SURB ID in ACKReceived with one timer, unanswered |
| `ArqOutcomes.NotFoundAsksAgain` | client/pigeonhole.go:1850-1905 | a read that hears not-found starts over under the fresh SURB ID, unanswered |
| `ArqOutcomes.InProgressPollsAgain` | client/pigeonhole.go:1512-1623 | a copy in progress is polled again under the fresh SURB ID in its state |
| `ArqOutcomes.EndingReplyAnswers` | client/pigeonhole.go:1320-1492 | a reply that ends an operation untracks it and appends exactly its answer |
| `ArqOutcomes.StepEndsByAnswering` | client/pigeonhole.go:1320-1492 | a connected client's operation stops being tracked only with an answer to it, a garbled reply, or its own cleanup |
| `ArqOutcomes.NoOperationDisappears` | client/pigeonhole.go:1320-1492 | over every run without those two, an operation is at the end either still tracked or answered, never both |
| `ArqDaemon.ClientDaemon.ArqSend` | client/pigeonhole.go:1132-1165 | is the start step |
| `ArqDaemon.ClientDaemon.EnqueueResend` | client/daemon.go:801-829 | is the timer step; a full channel re-arms the timer |
| `ArqDaemon.ClientDaemon.PickResend` | client/listener.go:358-368 | is the pick step and returns the oldest entry |
| `ArqDaemon.ClientDaemon.RotateARQSurbIDLocked` | client/daemon.go:853-871 | is the rotation of the indexes |
| `ArqDaemon.ClientDaemon.RescheduleARQAfterComposeFailure` | client/daemon.go:766-790 | is the re-registration, with a timer entry |
| `ArqDaemon.ClientDaemon.DropARQMessage` | client/daemon.go:833-841 | is the drop of the indexes |
| `ArqDaemon.ClientDaemon.ArqDoResend` | client/daemon.go:873-957 | is the resend step |
| `ArqDaemon.ClientDaemon.HandleReply` | client/daemon.go:470-506 | is the reply step, its second timer cancellation having nothing left to find; what that step does to the operation is AckKeepsOperation, NotFoundAsksAgain, InProgressPollsAgain and EndingReplyAnswers |
| `ArqDaemon.ClientDaemon.HandlePigeonholeARQReply` | client/pigeonhole.go:1320-1492 | applies the effect the reply has, which ReplyMovesIff, ReplyForgetsIff, ReplyLeavesIff and ReportsSuccessIff fix |
| `ArqDaemon.ClientDaemon.SendNewSurb` | client/pigeonhole.go:1426-1486 | moves the message to a new SURB, or reschedules it |
| `ArqDaemon.ClientDaemon.HandlePayloadReply` | client/pigeonhole.go:1842-2014 | applies the effect of a payload |
| `ArqDaemon.ClientDaemon.RetryRead` | client/pigeonhole.go:1850-1905 | moves a read back to WaitingForACK under a new SURB, or leaves it in PayloadReceived when composing fails |
| `ArqDaemon.ClientDaemon.HandleCopyCommandARQReply` | client/pigeonhole.go:1512-1580 | applies the effect of a copy reply |
| `ArqDaemon.ClientDaemon.ScheduleCopyCommandPoll` | client/pigeonhole.go:1586-1622 | re-registers the message and arms the poll |
| `ArqDaemon.ClientDaemon.CancelResending` | client/pigeonhole.go:1244-1303 | is the cancel step |
| `ArqDaemon.ClientDaemon.RemoveOwned` | client/daemon.go:975-989 | the scan removes exactly the client's entries, in any order, and collects their hashes and SURB IDs, each once |
| `ArqDaemon.ClientDaemon.CleanupForAppID` | client/daemon.go:961-1018 | is the cleanup step, which CleanupIsExact, CleanupStopsTimersIff and CleanupLeavesOthers fix |
| `ArqInterleaved.StepKeepsSane` | client/daemon.go:470-957 | in every interleaving a message sits only under its own SURB ID and a hash never leads to a message of another hash |
| `ArqInterleaved.InverseKeptIff` | client/daemon.go:833-841 | a critical section leaves the indexes exact inverses exactly when it does not start a hash in use and does not drop or reschedule a message whose hash leads to another |
| `ArqInterleaved.IndexesInverseIff` | client/daemon.go:848-852 | over every interleaving, restarts and compose failures included, the indexes are inverse after every step exactly when no step does that |
| `ArqInterleaved.IndexesInverseOverEveryInterleaving` | client/daemon.go:848-852 | every interleaving in which no hash is started twice keeps the indexes inverse after every step |
| `ArqInterleaved.HashReturnsIff` | client/daemon.go:773-782 | a step brings an untracked hash back exactly when it starts it or finishes a reschedule of it |
| `ArqInterleaved.CancelledHashReturnsIff` | client/pigeonhole.go:1261-1275 | a cancelled hash is in the index at some point of a run exactly when the run starts it or finishes a reschedule of it |
| `ArqInterleaved.CancelIsFinal` | client/pigeonhole.go:1450-1471 | while composing works, a cancelled hash stays out of both indexes whatever handlers in flight and later ones do and whatever happens to other hashes, until it is started again |
| `ArqInterleaved.CancelUndoneByReschedule` | client/daemon.go:766-790 | a run in which a reschedule puts a cancelled message back |
| `ArqInterleaved.RestartOrphansOperation` | client/pigeonhole.go:1383-1399 | a run in which the handler of the old operation deletes the hash entry of the new one |
| `ArqInterleaved.TrackedAgainIff` | client/daemon.go:766-790 | a message out of the index is tracked again exactly by a reschedule of it |
| `ArqInterleaved.AnsweredAgainIff` | client/pigeonhole.go:1281-1293 | an operation out of the index is answered in a run exactly when the reply handler in flight finishes by answering it, or a reschedule puts it back and it is answered after that |
| `ArqInterleaved.AnsweredOnceIff` | client/pigeonhole.go:1281-1293 | over every run no operation is answered twice exactly when no answer is followed by one of those outcomes |
| `ArqInterleaved.RaceFreeRunsAnswerOnce` | client/pigeonhole.go:1281-1293 | it is enough that no answer is given while another handler in flight holds the operation |
| `ArqInterleaved.CancelDuringReplyAnswersTwice` | client/pigeonhole.go:1401-1419 | a run that answers an operation twice through the handler in flight |
| `ArqInterleaved.CancelTwiceAnswersTwice` | client/daemon.go:930-937 | a run that answers an operation twice through a reschedule |
| `ArqInterleaved.CleanupTakesOnlyItsOwn` | client/daemon.go:961-1018 | at the grain of the lock too, a cleanup leaves the other clients' entries as they were |
| `ArqGrain.UninterruptedReplyIsTheStep` | client/pigeonhole.go:1320-1492 | a reply handler cut at its lock and not interrupted does to the indexes and answers what the whole step does |
| `ArqGrain.UninterruptedStartIsTheStep` | client/pigeonhole.go:1132-1166 | the same for a start |
| `ArqGrain.UninterruptedResendIsTheStep` | client/daemon.go:873-957 | the same for a resend |
| `ArqGrain.UninterruptedCancelIsTheStep` | client/pigeonhole.go:1244-1303 | the same for a cancel |
| `ArqGrain.UninterruptedCleanupIsTheStep` | client/daemon.go:961-1018 | the same for a cleanup |
| `BoxStore.BoxKey` | replica/state.go:56-61 | epoch and box ID can both be read back from a key |
| `BoxStore.KeptEpochs` | replica/state.go:66-71 | exactly the current and the previous epoch, newest first |
| `BoxStore.ReplicaState.StateHandleReplicaRead` | replica/state.go:322-361 | the loop returns the newest stored value of the window, or that there is none |
| `BoxStore.ReplicaState.HandleReplicaWrite` | replica/state.go:363-435 | refuses when closed, full or differently occupied, accepts a repetition without change, and otherwise stores under the current epoch |
| `BoxStore.ReplicaState.HandleReplicaTombstone` | replica/state.go:440-476 | stores an empty payload under the current epoch, full or not |
| `BoxStore.ReplicaState.WipeStaleBoxes` | replica/state_gc.go:25-50 | deletes the byte range of the old epochs |
| `BoxStore.WipeIsExact` | replica/state_gc.go:25-50 | a box's key goes exactly when its epoch is older than the previous one |
| `BoxRegister.ServeWrite` | replica/handlers.go:370-483 | checks size, key and signature in order (RefusedIff), then stores, buries or refuses as specified; with the database closed what would be admitted fails as a database failure |
| `BoxRegister.ServeRead` | replica/handlers.go:305-368 | replies with the box, a tombstone or an error code as specified |
| `BoxRegister.RefusedIff` | replica/handlers.go:391-414 | code 5 exactly for a non-empty payload of another size, 2 exactly for a box ID that is no key, 3 exactly for a signature that does not verify; the store stays as it was |
| `BoxRegister.GenuineWriteReadsBack` | replica/handlers.go:391-440 | a payload of the right size under a key and its signature, for a box not there in a store with room, is accepted and read back in this epoch and the next |
| `BoxRegister.ReadAgrees` | replica/state.go:337-361 | what the store reads is what the register holds, if that is still live |
| `BoxRegister.RequestAgrees` | replica/state.go:322-476 | one request gets the same reply from the store and from the registers, and keeps them related |
| `BoxRegister.StoreIsARegisterPerBox` | replica/state.go:322-476 | every run of reads, writes, tombstones, collections and storage pressure under a clock that does not go back is answered as one register per box would |
| `BoxRegister.CollectionIsInvisible` | replica/state_gc.go:25-50 | running the collector anywhere changes no later reply |
| `BoxRegister.StoredBoxStaysReadable` | replica/state.go:391-435 | a stored box is served unchanged for its epoch and the next, unless it is buried |
| `BoxRegister.TombstoneHidesAndBlocks` | replica/state.go:440-476 | after a tombstone, for its epoch and the next, reads report it and no payload is accepted |
| `BoxRegister.AcknowledgedWriteLastsIff` | replica/state.go:398-416 | an acknowledged write can be read in the next epoch exactly when the box was not already there from the previous one only |
| `BoxRegister.RewriteDoesNotLast` | replica/state.go:398-416 | stored in one epoch, written again with success in the next, not found in the one after |
| `BoxRegister.EveryReadIsSigned` | replica/handlers.go:400-414 | in every run, what a read returns verifies under the box's key |
| `BoxLocks.RunKeepsInv` | replica/state.go:133-161 | in every interleaving all goroutines of a box share one lock object, its count is the number of its users, its holder is the one between lock and unlock, and what a goroutine saw stays true until it acts |
| `BoxLocks.NoTwoWritersEver` | replica/state.go:133-161 | after every run two goroutines in one box's critical section are the same |
| `BoxLocks.TableHoldsLocksInUse` | replica/state.go:152-161 | a box has a lock in the table exactly while some goroutine is registered for it |
| `BoxLocks.ConcurrentRunsAreSequential` | replica/state.go:383-435 | every interleaving leaves the boxes and gives the answers of running its requests one at a time in the order they acted |
| `BoxLocks.LockedWriteIsTheStores` | replica/state.go:391-476 | a request under the lock answers and changes what the epoch-keyed database does |
| `BoxLocks.ConcurrentRunsAreTheStores` | replica/state.go:383-476 | so every interleaving within an epoch gives the answers that database gives to the same requests one at a time, and leaves what it then shows |
| `BoxLocks.AcceptedWritesAgree` | replica/state.go:391-416 | of racing writes to one box all accepted ones carry the same content, until a tombstone |
| `BoxLocks.LogIsTheActs` | replica/state.go:363-476 | the log is exactly the requests that acted, in order |
| `BoxLocks.StepKeepsRequests` | replica/state.go:133-161 | a goroutine keeps its box and request from acquisition to release, and a step of one leaves the others alone |
| `BoxLocks.NeverStuck` | replica/state.go:133-161 | after every run a goroutine can step, or waits for the mutex of its own box whose holder can step |
| `RetryQueue.Connector.PruneRetryQueueLocked` | replica/connector.go:181-199 | compacting in place is filtering by age |
| `RetryQueue.Connector.QueueForRetry` | replica/connector.go:131-178 | updates the entry for the same work or appends, as specified |
| `RetryQueue.Connector.ScanFor` | replica/connector.go:139-154 | finds the first entry for the same work, or counts the peer's entries |
| `RetryQueue.Connector.EvictOldest` | replica/connector.go:156-166 | removes the peer's first entry and no other |
| `RetryQueue.Connector.DispatchCommand` | replica/connector.go:106-125 | hands over to a connection or queues |
| `RetryQueue.Connector.ProcessRetryQueue` | replica/connector.go:202-234 | the reverse scan sends the entries of connected peers, last first, and keeps exactly the others in order |
| `RetryQueue.EnqueueLeavesOtherPeers` | replica/connector.go:131-178 | queueing for one peer changes nothing for any other |
| `RetryQueue.EnqueueIsBoundedFifo` | replica/connector.go:131-178 | for its own peer the queue is a bounded first-in first-out queue with updates in place |
| `RetryQueue.EveryRunKeepsBounds` | replica/connector.go:58-67 | over every run no peer exceeds its bound, no two entries are for the same work of a peer, and entries stay in first-seen order |
| `RetryQueue.DrainConserves` | replica/connector.go:202-234 | draining sends or keeps every entry exactly once |
| `RetryQueue.DrainKeepsIff` | replica/connector.go:181-234 | an entry survives a drain exactly when it is no older than the time to live and its peer has no connection |
| `RetryQueue.QueueKeepsOthersIff` | replica/connector.go:131-199 | queueing for one peer removes exactly the expired entries of the others |
| `RetryQueue.QueuedIsThere` | replica/connector.go:131-178 | what was queued is in the queue with that command |
| `RetryQueue.NoWorkTwice` | replica/connector.go:95-178 | over every run no peer has two writes of one box or two messages of one envelope hash |
| `Replication.FindShard` | replica/handlers.go:253-259 | the flag loop decides membership |
| `Replication.DoReplication` | replica/connector.go:251-311 | the loop sends or queues for every shard but the sender, and without shards gives up |
| `Replication.QueuesMatch` | replica/connector.go:131-178 | the network's retry entries of a replica change as the Connector's queue does, while nothing has to be evicted |
| `Replication.OnlyShardsEverStore` | replica/handlers.go:241-298 | in every run, with any faults and losses, only shards of a box store it |
| `Replication.CascadeIsFinite` | replica/handlers.go:261-298 | over every run the steps the network takes of itself are bounded by the weight of what was pending plus what each client write, repetition and fault adds |
| `Replication.OneHopAndNoEcho` | replica/handlers.go:64-72 | a client write starts one piece of work at most, a proxied write goes no further, a replication write starts nothing; that the write is not lost is ClientWriteIsTaken |
| `Replication.ClientWriteIsTaken` | replica/handlers.go:241-298 | a shard holds the box after the write and replicates it if it accepted; any other replica has passed box and content on to a shard |
| `Replication.StoredContentNeverChanges` | replica/state.go:398-416 | over every run what a replica stores stays, with the same content |
| `Replication.CarriedLostIff` | replica/handlers.go:641-790 | a box held or on its way to a shard stays so through every step but the one that abandons its last proxied write |
| `Replication.WrittenBoxReachesEveryShard` | replica/handlers.go:241-298 | a box some client wrote, with one content, is at exactly its shards with that content once nothing is pending for it, in every run that neither abandons its last write nor forgets a last copy |
| `Replication.TaskReachesEveryOtherShard` | replica/connector.go:251-311 | a replication is sent to every other shard with a connection and queued for every other without |
| `Replication.AnswersAreHandled` | replica/replication_reply.go:36-47 | codes 4 and 7 are queued again with the same content, success and the others are done with |
| `Replication.CoverageLostIff` | replica/outgoing_conn.go:466-544 | a step breaks "every shard holds the box or is due it" exactly when it forgets, by expiry, an abandoned channel, a failed task, another answer or a permanent error, the last write on its way to a shard that lacks it |
| `Replication.QuietShardsAgree` | replica/connector.go:251-311 | for a box written with one content, in runs that forget no last copy, a network with nothing pending has it at all shards or nowhere |
| `Replication.FullPeerBreaksConvergence` | replica/replication_reply.go:36-47 | a run that comes to rest with the box at one shard of two |
| `Sharding.Shard2` | replica/common/shard.go:54-69 | the single pass finds the keys at the two places with the lowest hashes, in order |
| `Sharding.LowestPlacesAreTheTwoLowest` | replica/common/shard.go:54-69 | without collisions those are the two keys with the lowest hashes |
| `Sharding.SameShardTwiceIff` | replica/common/shard.go:54-69 | one replica is both shards exactly when the configuration repeats the key with the lowest hash |
| `Sharding.FastIsSlow` | replica/common/shard.go:77-98 | those are the first two of any sorting by hash |
| `Sharding.ShardsDoNotDependOnOrder` | replica/common/shard.go:104-126 | every order of the configured keys gives the same shards |
| `Scheduler.Listener.RegisterConn` | client/listener.go:299-302 | the newcomer enters the rotation behind the last of the order |
| `Scheduler.Listener.UnregisterConn` | client/listener.go:308-327 | order and cursor change so that the rotation only loses the client |
| `Scheduler.Listener.ResumeSession` | client/listener.go:422-436 | the resumed session takes over its connection's place in the rotation; the listing stays without duplicates exactly when the session has no other live connection |
| `Scheduler.Listener.FindReady` | client/listener.go:349-355 | the wrapping loop finds the first client of the rotation with something to send |
| `Scheduler.Listener.PickNextRequest` | client/listener.go:342-382 | serves that client, resends first, and moves everybody visited to the back |
| `Scheduler.OneTurnEach` | client/listener.go:299-382 | in every run each connected client has exactly one turn in the rotation |
| `Scheduler.PickServesOldestWork` | client/listener.go:357-379 | a pick takes the oldest item of one client, resends before requests, changes no other client, and takes nothing only when nobody has work |
| `Scheduler.TurnComesNearer` | client/listener.go:342-382 | a pick that passes over a waiting client brings it nearer, a newcomer delays it by one, nothing else delays it |
| `Scheduler.ServedInTime` | client/listener.go:329-341 | a client with work that stays is served within as many picks as there are clients now plus those that join meanwhile |
| `SchedulerQueues.EveryItemIsServedInOrder` | client/listener.go:342-386 | over every run, what was served to a client that stays and what is still queued is what was queued and what arrived, in order, for resends and requests alike |
| `SchedulerQueues.PickMovesOn` | client/listener.go:342-386 | a pick sends the client it served, or the next in turn when nobody has work, to the back |
| `SchedulerQueues.OrderIsKept` | client/listener.go:299-340 | joins, leaves and resumes keep the order of the clients that stay |
| `SchedulerQueues.ResumedKeepsItsTurn` | client/listener.go:418-478 | a resumed session keeps the place and the queues of its connection |
| `Padding.CreatePaddedPayload` | pigeonhole/helpers.go:77-97 | fills the buffer with length prefix, message and zeros |
| `Padding.ExtractMessageFromPaddedPayload` | pigeonhole/helpers.go:101-122 | takes the message out or refuses, as specified |
| `Padding.ExtractUndoesPaddingIff` | pigeonhole/helpers.go:77-122 | a message that fits comes back exactly when its length fits 32 bits |
| `Padding.HugeMessageIsLost` | pigeonhole/helpers.go:88-92 | any 2^32 bytes come back as none |
| `Padding.ChunkPayload` | client/pigeonhole.go:384-397 | the chunks join to the payload, none is empty or too long, all but the last are full |
| `Padding.PadChunks` | client/pigeonhole.go:401-494 | succeeds exactly on admissible payloads; all plaintexts have one length and restore the payload |
| `Padding.InnerMessagesLookAlikeIff` | pigeonhole/helpers.go:26-43 | reads, writes and tombstones pad to one length and parse back to themselves exactly when the payload fits a box |
| `Padding.PaddedLayout` | pigeonhole/helpers.go:77-98 | the low 32 bits of the length in four bytes, the message, zeros |
| `RandomIndex.EveryIndexEquallyLikely` | pigeonhole/pki.go:27-48 | each index below n is what CryptoRandIndex answers on exactly floor(2^64 / n) words |
| `RandomIndex.EveryReplicaEquallyLikely` | pigeonhole/pki.go:111-129 | of all 2^64 words each listed replica is picked by the same number, floor(2^64 / replicas), and no other by any |
| `RandomIndex.DrawnIsFirst` | pigeonhole/pki.go:111-129 | a draw returns what the first admissible word picks and leaves the words after it |
| `RandomIndex.FewReplicas` | pigeonhole/pki.go:131-140 | no choice with fewer than two replicas, both of them with two |
| `RandomIndex.AtLeastHalfAccepted` | pigeonhole/pki.go:27-48 | the lower half of all words is accepted for every n |
| `RandomIndex.CryptoRandIndex` | pigeonhole/pki.go:27-48 | returns the index of the first accepted word, or fails when the source does |
| `RandomIndex.PickRandomReplicaID` | pigeonhole/pki.go:111-129 | the loop returns the first accepted word's replica that is not excluded, or fails with the source |
| `RandomIndex.DrawnFrom` | pigeonhole/pki.go:111-129 | a draw yields a listed replica that is not excluded and uses up no word that picks another such replica |
| `RandomIndex.ChooseIntermediates` | pigeonhole/pki.go:131-189 | computes the specified choice for every number of replicas |
| `RandomIndex.FourReplicasIff` | pigeonhole/pki.go:170-189 | with four or more: two different listed replicas, neither a shard, exactly when the words offer two such replicas |
| `RandomIndex.ThreeReplicasIff` | pigeonhole/pki.go:141-169 | with three: the first online shard and a different replica, exactly when the words offer one; without a shard, two different replicas |
| `RandomIndex.IntermediatesCanBeChosen` | pigeonhole/pki.go:170-189 | with 4 to 255 distinct replicas and at most two shards, two more words always can settle the choice |
| `RandomIndex.LoopCanEnd` | pigeonhole/pki.go:111-129 | with fewer exclusions than distinct replicas some accepted word ends the loop |
| `EnvelopeKeys.KeyStore.constructor` | replica/keys.go:36-70 | the current key is loaded or made, the previous one only loaded |
| `EnvelopeKeys.KeyStore.Generate` | replica/keys.go:116-126 | stores the new key unless its files could not be written |
| `EnvelopeKeys.KeyStore.Prune` | replica/keys.go:128-143 | the loop removes exactly the keys below the epoch before the current one, and says whether it did |
| `EnvelopeKeys.KeyStore.GetKeypair` | replica/keys.go:145-153 | returns the key held for the epoch |
| `EnvelopeKeys.KeyStore.EnsureKey` | replica/keys.go:162-180 | makes a key only for the current or a future epoch that has none |
| `EnvelopeKeys.KeyStore.TryDecapsulate` | replica/envelope_epoch.go:36-69 | the loop tries the window in order, as specified |
| `EnvelopeKeys.TriedOpensIff` | replica/envelope_epoch.go:36-69 | it opens exactly when a key held for an epoch of the window opens |
| `EnvelopeKeys.WindowFindsTheKey` | replica/envelope_epoch.go:20-69 | a ciphertext for a held key of the window is opened with it when no other key opens it |
| `EnvelopeKeys.KeyIsKept` | replica/keys.go:116-180 | over every run from epoch 1 on, a key is never replaced and stays until the epoch passes the one after its own |
| `EnvelopeKeys.NoKeyForThePast` | replica/keys.go:155-166 | no run makes a key for an epoch that has passed |
| `EnvelopeKeys.PruneIsExactIff` | replica/keys.go:128-143 | pruning removes exactly the keys two epochs old or older, except in epoch 0 |
| `EnvelopeKeys.PruneAtEpochZero` | replica/keys.go:128-143 | the current key of epoch 0 is pruned |
| `EnvelopeKeys.PublishedKeyOpensNextEpoch` | replica/pki.go:353-366 | a ciphertext for a published key is opened with it in the key's epoch and the next, whatever was made and pruned since |
| `EnvelopeKeys.KeyIsMadeIff` | replica/keys.go:162-180 | a key is made exactly for an epoch that has not passed and whose files could be written, and none is replaced |
| `EnvelopeKeys.MadeKeyOpens` | replica/envelope_epoch.go:36-69 | what is encrypted to a key made in an epoch opens in that epoch and the next, whatever else is made and pruned |

## Left out

- Sphinx packets, Noise sessions, sockets, CBOR and configuration files: input and output.
- MKEM, BACAP, Ed25519 and BLAKE2b: abstract functions; a signature scheme is a predicate, decryption an outcome.
- Failure of the system's random source while drawing a SURB ID: drawn IDs are arguments and do not repeat.
- The legacy reply and decoy maps of the daemon, which share its lock but none of its ARQ state.
- ReplicaReadReply, ReplicaMessageReplyInnerMessage, CopyCommandReply, CourierQueryReply and ReplicaWriteReply: generated from the same template as the messages modelled here.
- Payload chunks and boxes of 2^32 bytes and more, except for padding: lengths travel in 32 bits.
- Progress of a client's messages after it disconnects: entries then wait for the cleanup.
- Scheduler.OneTurnEach: its runs resume only sessions without a live connection; otherwise the order can list a client twice.
- CopyStreamCodec.CopyStreamEncoder.constructor: geometries with five bytes of plaintext or less, which leave no room for a chunk; extracting would then not advance, or slice out of range.
- CopyStreamCodec.Resume: the same geometries.
- Database read and write errors, other than a closed database.
- Tombstones and expiry between replicas: the retry queue keeps the newest command per box, so their order across replicas is not promised.
- Concurrent calls of EnsureKey for one epoch, and key files across a restart.
- Rebalancing after a change of the replica set, decoy traffic, timers' durations, jitter and metrics.
- BoxLocks.RunKeepsInv: time does not pass within it, so the collector and the epoch boundary do not interleave with a critical section.
- ArqInterleaved.StepKeepsSane: does not model the timer queue, whose tokens are covered by the machine of whole handlers.
- Replication.QuietShardsAgree: assumes all replicas use one PKI document; GetShards is the list it yields for a box.
