/** The handlers of client/daemon.go and client/pigeonhole.go as they update the
    daemon's fields. Each public handler is proved to be the step of ArqMachine
    of the same name, so the theorems about runs hold of these handlers. */
module ArqDaemon {
  import opened ArqIndex
  import opened ArqMachine

  class ClientDaemon {
    /** What the *ARQMessage pointers point at. */
    var msgs: map<Op, ARQMessage>
    var arqSurbIDMap: map<SurbID, Op>
    var arqEnvelopeHashMap: map<Hash, SurbID>
    var arqTimerQueue: multiset<SurbID>
    /** Per live connection, its resend channel. */
    var resendCh: map<AppID, seq<SurbID>>
    /** Resend requests picked by the scheduler and not yet run. */
    var egressCh: multiset<SurbID>
    var responses: seq<Reply>
    ghost var used: set<SurbID>
    var nextOp: Op

    ghost function Ix(): Index
      reads this
    {
      Index(msgs, arqSurbIDMap, arqEnvelopeHashMap)
    }

    ghost function State(): Daemon
      reads this
    {
      Daemon(Ix(), arqTimerQueue, resendCh, egressCh, responses, used, nextOp)
    }

    constructor ()
      ensures State() == INITIAL
    {
      msgs, arqSurbIDMap, arqEnvelopeHashMap := map[], map[], map[];
      arqTimerQueue, egressCh := multiset{}, multiset{};
      resendCh, responses, used, nextOp := map[], [], {}, 0;
    }

    // ------------------------------------------------------------ small sections

    method CancelTimerEntry(s: SurbID, queued: bool)
      modifies `arqTimerQueue
      ensures arqTimerQueue == CancelTimer(old(arqTimerQueue), s, queued)
    {
      if queued {
        arqTimerQueue := arqTimerQueue - multiset{s};
      }
    }

    method PushTimer(s: SurbID)
      modifies `arqTimerQueue, `used
      ensures arqTimerQueue == old(arqTimerQueue) + multiset{s} && used == old(used) + {s}
    {
      arqTimerQueue := arqTimerQueue + multiset{s};
      used := used + {s};
    }

    method DropARQMessage(op: Op)
      requires op in msgs
      modifies `arqSurbIDMap, `arqEnvelopeHashMap
      ensures Ix() == Drop(old(Ix()), op)
    {
      arqSurbIDMap := arqSurbIDMap - {msgs[op].surbID};
      arqEnvelopeHashMap := arqEnvelopeHashMap - {msgs[op].envelopeHash};
    }

    method SetMessageState(op: Op, state: ARQState)
      requires op in msgs
      modifies `msgs
      ensures Ix() == SetState(old(Ix()), op, state)
    {
      msgs := msgs[op := msgs[op].(state := state)];
    }

    method RotateARQSurbIDLocked(op: Op, newSurbID: SurbID)
      requires op in msgs
      modifies `msgs, `arqSurbIDMap, `arqEnvelopeHashMap
      ensures Ix() == Rotate(old(Ix()), op, newSurbID)
    {
      arqSurbIDMap := arqSurbIDMap - {msgs[op].surbID};
      msgs := msgs[op := msgs[op].(surbID := newSurbID)];
      msgs := msgs[op := msgs[op].(retransmissions := msgs[op].retransmissions + 1)];
      arqSurbIDMap := arqSurbIDMap[newSurbID := op];
      arqEnvelopeHashMap := arqEnvelopeHashMap[msgs[op].envelopeHash := newSurbID];
    }

    method RescheduleARQAfterComposeFailure(op: Op, placeholder: SurbID)
      requires op in msgs
      modifies `msgs, `arqSurbIDMap, `arqEnvelopeHashMap, `arqTimerQueue, `used
      ensures Ix() == Reregister(old(Ix()), op, placeholder)
      ensures arqTimerQueue == old(arqTimerQueue) + multiset{placeholder} && used == old(used) + {placeholder}
    {
      arqSurbIDMap := arqSurbIDMap - {msgs[op].surbID};
      msgs := msgs[op := msgs[op].(surbID := placeholder)];
      arqSurbIDMap := arqSurbIDMap[placeholder := op];
      arqEnvelopeHashMap := arqEnvelopeHashMap[msgs[op].envelopeHash := placeholder];
      PushTimer(placeholder);
    }

    /** Removes the message from both indexes and answers the thin client. */
    method FinishOperation(op: Op, answer: Answer)
      requires op in msgs
      modifies `arqSurbIDMap, `arqEnvelopeHashMap, `responses
      ensures Ix() == Drop(old(Ix()), op)
      ensures responses == old(responses) + [Reply(op, answer)]
    {
      DropARQMessage(op);
      responses := responses + [Reply(op, answer)];
    }

    // ------------------------------------------------------------------ handlers

    method ArqSend(message: ARQMessage, composed: bool)
      modifies this
      ensures State() == StartStep(old(State()), message, composed)
    {
      var op := nextOp;
      nextOp := nextOp + 1;
      if !composed {
        responses := responses + [Reply(op, InternalError)];
        return;
      }
      msgs := msgs[op := message];
      arqSurbIDMap := arqSurbIDMap[message.surbID := op];
      arqEnvelopeHashMap := arqEnvelopeHashMap[message.envelopeHash := message.surbID];
      PushTimer(message.surbID);
    }

    /** The timer callback. A full channel re-arms the timer instead of dropping. */
    method EnqueueResend(surbID: SurbID)
      requires surbID in arqTimerQueue
      modifies `arqTimerQueue, `resendCh
      ensures State() == TimerStep(old(State()), surbID)
    {
      arqTimerQueue := arqTimerQueue - multiset{surbID};
      if surbID !in arqSurbIDMap || arqSurbIDMap[surbID] !in msgs {
        return;
      }
      var app := msgs[arqSurbIDMap[surbID]].appID;
      if app !in resendCh {
        return;
      }
      if |resendCh[app]| < RESEND_BUFFER {
        resendCh := resendCh[app := resendCh[app] + [surbID]];
      } else {
        arqTimerQueue := arqTimerQueue + multiset{surbID};
      }
    }

    method PickResend(app: AppID) returns (surbID: SurbID)
      requires app in resendCh && resendCh[app] != []
      modifies `resendCh, `egressCh
      ensures State() == PickStep(old(State()), app)
      ensures surbID == old(resendCh[app][0])
    {
      surbID := resendCh[app][0];
      resendCh := resendCh[app := resendCh[app][1..]];
      egressCh := egressCh + multiset{surbID};
    }

    method ArqDoResend(surbID: SurbID, freshID: SurbID, composed: bool)
      requires Inv(State()) && surbID in egressCh && freshID !in used
      modifies this
      ensures State() == ResendStep(old(State()), surbID, freshID, composed)
    {
      hide Inverse, IdsUsed, AnsweredOnce;
      InvGives(State(), surbID);
      egressCh := egressCh - multiset{surbID};
      if surbID !in arqSurbIDMap {
        return;
      }
      var op := arqSurbIDMap[surbID];
      if msgs[op].appID !in resendCh {
        arqSurbIDMap := arqSurbIDMap - {surbID};
        arqEnvelopeHashMap := arqEnvelopeHashMap - {msgs[op].envelopeHash};
        return;
      }
      SetSameState(Ix(), op, freshID);
      if !composed {
        RescheduleARQAfterComposeFailure(op, freshID);
        return;
      }
      RotateARQSurbIDLocked(op, freshID);
      PushTimer(freshID);
    }

    method HandleReply(surbID: SurbID, content: Content, queued: bool, freshID: SurbID, composed: bool)
      requires Inv(State()) && freshID !in used
      modifies this
      ensures State() == ReplyStep(old(State()), surbID, content, queued, freshID, composed)
    {
      hide Inverse, IdsUsed, AnsweredOnce, ReplyEffect;
      InvGives(State(), surbID);
      if surbID !in arqSurbIDMap {
        return;
      }
      var op := arqSurbIDMap[surbID];
      CancelTimerEntry(msgs[op].surbID, queued);
      HandlePigeonholeARQReply(op, content, queued, freshID, composed);
    }

    method HandlePigeonholeARQReply(op: Op, content: Content, queued: bool, freshID: SurbID, composed: bool)
      requires Ix().Tracked(op) && freshID !in arqSurbIDMap
      requires CancelTimer(arqTimerQueue, msgs[op].surbID, queued) == arqTimerQueue
      requires freshID != msgs[op].surbID
      modifies this
      ensures State() == Apply(old(State()), op,
        ReplyEffect(old(msgs[op]), old(msgs[op].appID in resendCh), content, composed), freshID)
    {
      var m := msgs[op];
      if m.appID !in resendCh {
        return;
      }
      if content.Undecryptable? || content.Unparsable? {
        DropARQMessage(op);
        return;
      }
      if m.messageType == CopyCommandType {
        HandleCopyCommandARQReply(op, content, freshID);
        return;
      }
      if m.messageType != EnvelopeType || !content.EnvelopeReply? {
        DropARQMessage(op);
        return;
      }
      var transition := ComputeTransition(
        m.state, content.replyType, content.errorCode, m.isRead, m.noIdempotentBoxAlreadyExists);
      match transition.action {
        case Error => FinishOperation(op, CourierError(transition.errorCode));
        case Complete => FinishOperation(op, Success);
        case HandlePayload => HandlePayloadReply(op, content.decryption, queued, freshID, composed);
        case SendNewSURB => SendNewSurb(op, transition.newState, queued, freshID, composed);
        case Ignore =>
      }
    }

    /** The branch of handlePayloadReply that asks for the box again. */
    method RetryRead(op: Op, queued: bool, freshID: SurbID, composed: bool)
      requires Ix().Tracked(op) && freshID != msgs[op].surbID
      requires CancelTimer(arqTimerQueue, msgs[op].surbID, queued) == arqTimerQueue
      modifies `msgs, `arqSurbIDMap, `arqEnvelopeHashMap, `arqTimerQueue, `used
      ensures State() == Apply(old(State()), op,
        if composed then Move(true, WaitingForACK) else Move(false, PayloadReceived), freshID)
    {
      MoveCommutes(Ix(), op, freshID, PayloadReceived, if composed then WaitingForACK else PayloadReceived);
      SetMessageState(op, PayloadReceived);
      if !composed {
        RescheduleARQAfterComposeFailure(op, freshID);
        return;
      }
      var oldSurbID := msgs[op].surbID;
      if oldSurbID !in arqSurbIDMap || arqSurbIDMap[oldSurbID] != op {
        return;
      }
      RotateARQSurbIDLocked(op, freshID);
      SetMessageState(op, WaitingForACK);
      CancelTimerEntry(oldSurbID, queued);
      PushTimer(freshID);
    }

    /** The ACK branch of handlePigeonholeARQReply: send a new SURB for the payload. */
    method SendNewSurb(op: Op, state: ARQState, queued: bool, freshID: SurbID, composed: bool)
      requires Ix().Tracked(op) && freshID != msgs[op].surbID
      requires CancelTimer(arqTimerQueue, msgs[op].surbID, queued) == arqTimerQueue
      modifies `msgs, `arqSurbIDMap, `arqEnvelopeHashMap, `arqTimerQueue, `used
      ensures State() == Apply(old(State()), op, Move(composed, state), freshID)
    {
      MoveCommutes(Ix(), op, freshID, state, state);
      SetMessageState(op, state);
      if !composed {
        RescheduleARQAfterComposeFailure(op, freshID);
        return;
      }
      var oldSurbID := msgs[op].surbID;
      if oldSurbID !in arqSurbIDMap || arqSurbIDMap[oldSurbID] != op {
        return;
      }
      RotateARQSurbIDLocked(op, freshID);
      CancelTimerEntry(oldSurbID, queued);
      PushTimer(freshID);
    }

    method HandlePayloadReply(op: Op, decryption: Decryption, queued: bool, freshID: SurbID, composed: bool)
      requires Ix().Tracked(op) && freshID !in arqSurbIDMap
      requires CancelTimer(arqTimerQueue, msgs[op].surbID, queued) == arqTimerQueue
      requires freshID != msgs[op].surbID
      modifies this
      ensures State() == Apply(old(State()), op, PayloadEffect(old(msgs[op]), decryption, composed), freshID)
    {
      var m := msgs[op];
      if decryption.Plaintext? {
        DropARQMessage(op);
        var answer :=
          if !m.isRead then Success
          else if decryption.isEmpty then Tombstone
          else if !decryption.unpads then InternalError
          else Success;
        responses := responses + [Reply(op, answer)];
        return;
      }
      var action := DeterminePayloadErrorAction(
        decryption, m.isRead, m.noRetryOnBoxIDNotFound, m.noIdempotentBoxAlreadyExists);
      match action {
        case Retry => RetryRead(op, queued, freshID, composed);
        case IdempotentSuccess => FinishOperation(op, Success);
        case ReturnError => FinishOperation(op, MapDecryptionErrorToCode(decryption));
      }
    }

    method HandleCopyCommandARQReply(op: Op, content: Content, freshID: SurbID)
      requires Ix().Tracked(op) && freshID !in arqSurbIDMap
      modifies this
      ensures State() == Apply(old(State()), op, CopyEffect(old(msgs[op]), content), freshID)
    {
      if !content.CopyReply? {
        return;
      }
      match content.status {
        case InProgress =>
          SetSameState(Ix(), op, freshID);
          ScheduleCopyCommandPoll(op, freshID);
        case Succeeded => FinishOperation(op, Success);
        case Failed => FinishOperation(op, CopyCommandFailed);
        case UnknownStatus => FinishOperation(op, InternalError);
      }
    }

    method ScheduleCopyCommandPoll(op: Op, placeholder: SurbID)
      requires Ix().Tracked(op)
      modifies this
      ensures State() == old(State()).(ix := Reregister(old(Ix()), op, placeholder),
        timers := old(arqTimerQueue) + multiset{placeholder}, used := old(used) + {placeholder})
    {
      var oldSurbID := msgs[op].surbID;
      if oldSurbID !in arqSurbIDMap || arqSurbIDMap[oldSurbID] != op {
        return;
      }
      arqSurbIDMap := arqSurbIDMap - {oldSurbID};
      msgs := msgs[op := msgs[op].(surbID := placeholder)];
      arqSurbIDMap := arqSurbIDMap[placeholder := op];
      arqEnvelopeHashMap := arqEnvelopeHashMap[msgs[op].envelopeHash := placeholder];
      PushTimer(placeholder);
    }

    /** cancelResendingEncryptedMessage and cancelResendingCopyCommand. */
    method CancelResending(app: AppID, hash: Hash, queued: bool)
      modifies this
      ensures State() == CancelStep(old(State()), app, hash, queued)
    {
      if app !in resendCh || hash !in arqEnvelopeHashMap {
        return;
      }
      var surbID := arqEnvelopeHashMap[hash];
      var found := surbID in arqSurbIDMap && arqSurbIDMap[surbID] in msgs;
      var op := if found then arqSurbIDMap[surbID] else 0;
      arqSurbIDMap := arqSurbIDMap - {surbID};
      arqEnvelopeHashMap := arqEnvelopeHashMap - {hash};
      if found {
        CancelTimerEntry(msgs[op].surbID, queued);
        responses := responses + [Reply(op, Cancelled)];
      }
    }

    method DropHashes(envHashesToDrop: seq<Hash>)
      modifies `arqEnvelopeHashMap
      ensures arqEnvelopeHashMap == old(arqEnvelopeHashMap) - Elements(envHashesToDrop)
    {
      for i := 0 to |envHashesToDrop|
        invariant arqEnvelopeHashMap == old(arqEnvelopeHashMap) - Elements(envHashesToDrop[..i])
      {
        ElementsSnoc(envHashesToDrop, i);
        arqEnvelopeHashMap := arqEnvelopeHashMap - {envHashesToDrop[i]};
      }
      assert envHashesToDrop[..|envHashesToDrop|] == envHashesToDrop;
    }

    /** allQueued holds the IDs whose entries the queue's worker has taken in. */
    method CancelTimers(arqSurbIDsToCancel: seq<SurbID>, allQueued: set<SurbID>)
      requires forall i, j :: 0 <= i < j < |arqSurbIDsToCancel| ==> arqSurbIDsToCancel[i] != arqSurbIDsToCancel[j]
      modifies `arqTimerQueue
      ensures arqTimerQueue == old(arqTimerQueue) - multiset(Elements(arqSurbIDsToCancel) * allQueued)
    {
      for i := 0 to |arqSurbIDsToCancel|
        invariant arqTimerQueue == old(arqTimerQueue) - multiset(Elements(arqSurbIDsToCancel[..i]) * allQueued)
      {
        ElementsSnoc(arqSurbIDsToCancel, i);
        RemoveOneMore(old(arqTimerQueue), Elements(arqSurbIDsToCancel[..i]), arqSurbIDsToCancel[i], allQueued);
        CancelTimerEntry(arqSurbIDsToCancel[i], arqSurbIDsToCancel[i] in allQueued);
      }
      assert arqSurbIDsToCancel[..|arqSurbIDsToCancel|] == arqSurbIDsToCancel;
    }

    /** The scan of cleanupForAppID, in whatever order the map yields its keys. */
    method RemoveOwned(app: AppID) returns (envHashesToDrop: seq<Hash>, arqSurbIDsToCancel: seq<SurbID>)
      requires Inverse(Ix())
      modifies `arqSurbIDMap
      ensures arqSurbIDMap == old(arqSurbIDMap) - OwnedBy(old(Ix()), app)
      ensures Elements(arqSurbIDsToCancel) == OwnedBy(old(Ix()), app)
      ensures Elements(envHashesToDrop) == HashesOf(old(Ix()), OwnedBy(old(Ix()), app))
      ensures forall i, j :: 0 <= i < j < |arqSurbIDsToCancel| ==> arqSurbIDsToCancel[i] != arqSurbIDsToCancel[j]
    {
      hide Inverse, OwnedBy, HashesOf, Elements;
      envHashesToDrop, arqSurbIDsToCancel := [], [];
      ScanNone(Ix(), app);
      ghost var before := Ix();
      var pending := arqSurbIDMap.Keys;
      while pending != {}
        invariant pending <= before.surbs.Keys
        invariant arqSurbIDMap == before.surbs - (OwnedBy(before, app) - pending)
        invariant Elements(arqSurbIDsToCancel) == OwnedBy(before, app) - pending
        invariant Elements(envHashesToDrop) == HashesOf(before, OwnedBy(before, app) - pending)
        invariant forall i, j :: 0 <= i < j < |arqSurbIDsToCancel| ==> arqSurbIDsToCancel[i] != arqSurbIDsToCancel[j]
        decreases |pending|
      {
        var surbID :| surbID in pending;
        ScanOne(before, app, pending, surbID);
        var message := msgs[arqSurbIDMap[surbID]];
        if message.appID == app {
          ElementsAppend(envHashesToDrop, message.envelopeHash);
          ElementsAppend(arqSurbIDsToCancel, message.surbID);
          envHashesToDrop := envHashesToDrop + [message.envelopeHash];
          arqSurbIDsToCancel := arqSurbIDsToCancel + [message.surbID];
          arqSurbIDMap := arqSurbIDMap - {surbID};
        }
        pending := pending - {surbID};
      }
      assert OwnedBy(before, app) - {} == OwnedBy(before, app);
    }

    method CleanupForAppID(app: AppID, allQueued: set<SurbID>)
      requires Inv(State())
      modifies this
      ensures State() == CleanupStep(old(State()), app, allQueued)
    {
      hide Inverse, IdsUsed, AnsweredOnce, OwnedBy, HashesOf, Elements;
      var envHashesToDrop, arqSurbIDsToCancel := RemoveOwned(app);
      DropHashes(envHashesToDrop);
      CancelTimers(arqSurbIDsToCancel, allQueued);
    }
  }

  function Elements(s: seq<nat>): set<nat>
  {
    set x | x in s
  }

  lemma ElementsAppend(s: seq<nat>, x: nat)
    ensures Elements(s + [x]) == Elements(s) + {x}
    ensures x in Elements(s) <==> x in s
  {
  }

  lemma ElementsSnoc(s: seq<nat>, i: nat)
    requires i < |s|
    ensures Elements(s[..i + 1]) == Elements(s[..i]) + {s[i]}
  {
    assert s[..i + 1] == s[..i] + [s[i]];
  }

  lemma RemoveOneMore(timers: multiset<SurbID>, done: set<SurbID>, s: SurbID, queued: set<SurbID>)
    requires s !in done
    ensures timers - multiset((done + {s}) * queued) == CancelTimer(timers - multiset(done * queued), s, s in queued)
  {
    if s in queued {
      assert (done + {s}) * queued == done * queued + {s};
      assert multiset((done * queued) + {s}) == multiset(done * queued) + multiset{s};
    } else {
      assert (done + {s}) * queued == done * queued;
    }
  }

  lemma ScanNone(ix: Index, app: AppID)
    ensures OwnedBy(ix, app) <= ix.surbs.Keys
    ensures OwnedBy(ix, app) - ix.surbs.Keys == {}
    ensures Elements([]) == {} && HashesOf(ix, {}) == {}
  {
  }

  /** One iteration of the scan moves at most its own key. */
  lemma ScanOne(ix: Index, app: AppID, pending: set<SurbID>, s: SurbID)
    requires Inverse(ix) && s in pending && pending <= ix.surbs.Keys
    ensures ix.surbs[s] in ix.msgs && ix.msgs[ix.surbs[s]].surbID == s
    ensures ix.msgs[ix.surbs[s]].appID == app ==>
              && OwnedBy(ix, app) - (pending - {s}) == OwnedBy(ix, app) - pending + {s}
              && HashesOf(ix, OwnedBy(ix, app) - (pending - {s}))
                 == HashesOf(ix, OwnedBy(ix, app) - pending) + {ix.msgs[ix.surbs[s]].envelopeHash}
    ensures ix.msgs[ix.surbs[s]].appID != app ==> OwnedBy(ix, app) - (pending - {s}) == OwnedBy(ix, app) - pending
  {
    if ix.msgs[ix.surbs[s]].appID == app {
      assert OwnedBy(ix, app) - (pending - {s}) == OwnedBy(ix, app) - pending + {s};
    } else {
      assert OwnedBy(ix, app) - (pending - {s}) == OwnedBy(ix, app) - pending;
    }
  }

  /** What the handlers use of the invariant. */
  lemma InvGives(d: Daemon, s: SurbID)
    requires Inv(d)
    ensures s in d.ix.surbs ==>
              && d.ix.surbs[s] in d.ix.msgs
              && d.ix.msgs[d.ix.surbs[s]].surbID == s
    ensures d.ix.surbs.Keys <= d.used
    ensures d.timers[s] <= 1
  {
  }

  /** Setting the state a message already has changes nothing. */
  lemma SetSameState(ix: Index, op: Op, freshID: SurbID)
    requires op in ix.msgs
    ensures SetState(Rotate(ix, op, freshID), op, ix.msgs[op].state) == Rotate(ix, op, freshID)
    ensures SetState(Reregister(ix, op, freshID), op, ix.msgs[op].state) == Reregister(ix, op, freshID)
  {
  }

  /** The handlers set the state before they move the message. */
  lemma MoveCommutes(ix: Index, op: Op, freshID: SurbID, first: ARQState, last: ARQState)
    requires op in ix.msgs
    ensures SetState(Rotate(SetState(ix, op, first), op, freshID), op, last) == SetState(Rotate(ix, op, freshID), op, last)
    ensures Reregister(SetState(ix, op, last), op, freshID) == SetState(Reregister(ix, op, freshID), op, last)
    ensures Rotate(SetState(ix, op, last), op, freshID) == SetState(Rotate(ix, op, freshID), op, last)
  {
  }
}
