/** The client's stop-and-wait retransmission engine as a state machine whose
    steps are whole handlers, and what holds after every run of it.

    The environment is in the events: whether composing a Sphinx packet
    worked, what a reply decrypts to, which random SURB ID was drawn, whether a
    timer entry was already in the queue when it was cancelled. */
module ArqMachine {
  import opened ArqIndex

  type Code = n: int | 0 <= n < 0x100

  const BOX_ID_NOT_FOUND: Code := 1
  const BOX_ALREADY_EXISTS: Code := 10

  /** Capacity of a client's resend channel. */
  const RESEND_BUFFER: nat := 8

  // ------------------------------------------------------- pure decisions

  datatype Action = SendNewSURB | Complete | HandlePayload | Error | Ignore

  datatype Transition = Transition(newState: ARQState, action: Action, shouldRemove: bool, errorCode: Code)

  function ComputeTransition(
    state: ARQState, replyType: Code, errorCode: Code, isRead: bool, noIdempotentBoxAlreadyExists: bool)
    : (t: Transition)
    ensures t.action == Ignore <==> errorCode == 0 && state == PayloadReceived
    ensures t.shouldRemove <==> t.action == Error || t.action == Complete
    ensures t.action == Complete ==> !isRead && state == WaitingForACK && replyType == 0
    ensures t.action == HandlePayload <==> t.newState == PayloadReceived && state != PayloadReceived
    ensures t.action == SendNewSURB ==> t.newState == ACKReceived && replyType != 1
  {
    if errorCode != 0 then Transition(state, Error, true, errorCode) else
      match state
      case WaitingForACK =>
        if replyType == 0 then
          if !isRead && !noIdempotentBoxAlreadyExists then Transition(state, Complete, true, 0)
          else Transition(ACKReceived, SendNewSURB, false, 0)
        else Transition(PayloadReceived, HandlePayload, false, 0)
      case ACKReceived =>
        if replyType == 1 then Transition(PayloadReceived, HandlePayload, false, 0)
        else Transition(ACKReceived, SendNewSURB, false, 0)
      case PayloadReceived => Transition(PayloadReceived, Ignore, false, 0)
  }

  /** What decryptPigeonholeReply can return. */
  datatype Decryption =
    | Plaintext(isEmpty: bool, unpads: bool)
    | ReplicaFailure(code: Code)
    | MkemFailure
    | BacapFailure
    | OtherFailure

  datatype PayloadErrorAction = ReturnError | Retry | IdempotentSuccess

  function DeterminePayloadErrorAction(
    err: Decryption, isRead: bool, noRetryOnBoxIDNotFound: bool, noIdempotentBoxAlreadyExists: bool)
    : PayloadErrorAction
  {
    if !err.ReplicaFailure? then ReturnError
    else if err.code == BOX_ID_NOT_FOUND && isRead && !noRetryOnBoxIDNotFound then Retry
    else if err.code == BOX_ALREADY_EXISTS && !isRead && !noIdempotentBoxAlreadyExists then IdempotentSuccess
    else ReturnError
  }

  /** What the thin client is told about its StartResending request. */
  datatype Answer =
    | Success
    | Cancelled
    | InternalError
    | CourierError(code: Code)
    | ReplicaError(code: Code)
    | MkemDecryptionFailed
    | BacapDecryptionFailed
    | Tombstone
    | CopyCommandFailed

  function MapDecryptionErrorToCode(err: Decryption): Answer
  {
    match err
    case MkemFailure => MkemDecryptionFailed
    case BacapFailure => BacapDecryptionFailed
    case ReplicaFailure(code) => ReplicaError(code)
    case _ => InternalError
  }

  datatype CopyStatus = InProgress | Succeeded | Failed | UnknownStatus

  /** What arrived on a SURB. */
  datatype Content =
    | Undecryptable
    | Unparsable
    | CopyReply(status: CopyStatus)
    | EnvelopeReply(replyType: Code, errorCode: Code, decryption: Decryption)

  /** What a reply does to the message it answers. */
  datatype Effect =
    | Leave
    | Forget
    | Finish(answer: Answer)
    | Move(rotates: bool, state: ARQState)

  /** handlePayloadReply. */
  function PayloadEffect(m: ARQMessage, decryption: Decryption, composed: bool): Effect
  {
    if !decryption.Plaintext? then
      match DeterminePayloadErrorAction(decryption, m.isRead, m.noRetryOnBoxIDNotFound, m.noIdempotentBoxAlreadyExists)
      case Retry => if composed then Move(true, WaitingForACK) else Move(false, PayloadReceived)
      case IdempotentSuccess => Finish(Success)
      case ReturnError => Finish(MapDecryptionErrorToCode(decryption))
    else if !m.isRead then Finish(Success)
    else if decryption.isEmpty then Finish(Tombstone)
    else if !decryption.unpads then Finish(InternalError)
    else Finish(Success)
  }

  /** handleCopyCommandARQReply. */
  function CopyEffect(m: ARQMessage, content: Content): Effect
  {
    if !content.CopyReply? then Leave else
      match content.status
      case InProgress => Move(false, m.state)
      case Succeeded => Finish(Success)
      case Failed => Finish(CopyCommandFailed)
      case UnknownStatus => Finish(InternalError)
  }

  /** handlePigeonholeARQReply. */
  function ReplyEffect(m: ARQMessage, connected: bool, content: Content, composed: bool): Effect
  {
    if !connected then Leave
    else if content.Undecryptable? || content.Unparsable? then Forget
    else if m.messageType == CopyCommandType then CopyEffect(m, content)
    else if m.messageType != EnvelopeType || !content.EnvelopeReply? then Forget
    else
      var t := ComputeTransition(m.state, content.replyType, content.errorCode, m.isRead, m.noIdempotentBoxAlreadyExists);
      match t.action
      case Error => Finish(CourierError(t.errorCode))
      case Complete => Finish(Success)
      case HandlePayload => PayloadEffect(m, content.decryption, composed)
      case SendNewSURB => Move(composed, t.newState)
      case Ignore => Leave
  }

  /** The reply carries the replica's answer rather than the courier's ACK. */
  predicate CarriesPayload(m: ARQMessage, content: Content)
  {
    && m.messageType == EnvelopeType && content.EnvelopeReply? && content.errorCode == 0
    && (if m.state == WaitingForACK then content.replyType != 0 else m.state == ACKReceived && content.replyType == 1)
  }

  /** A client is told Success exactly when its copy command succeeded, its write was
      acknowledged, stored or already there, or its read came back readable. */
  lemma ReportsSuccessIff(m: ARQMessage, content: Content, composed: bool)
    ensures ReplyEffect(m, true, content, composed) == Finish(Success) <==>
      || (m.messageType == CopyCommandType && content == CopyReply(Succeeded))
      || (CarriesPayload(m, content) && m.isRead && content.decryption == Plaintext(false, true))
      || (CarriesPayload(m, content) && !m.isRead
          && (content.decryption.Plaintext?
              || (content.decryption == ReplicaFailure(BOX_ALREADY_EXISTS) && !m.noIdempotentBoxAlreadyExists)))
      || (m.messageType == EnvelopeType && content.EnvelopeReply? && content.errorCode == 0 && content.replyType == 0
          && m.state == WaitingForACK && !m.isRead && !m.noIdempotentBoxAlreadyExists)
  {
  }

  /** Every other end of an operation is reported as what it was. */
  lemma ReportsFailuresAsTheyAre(m: ARQMessage, content: Content, composed: bool)
    requires m.messageType == EnvelopeType && content.EnvelopeReply?
    ensures content.errorCode != 0 ==> ReplyEffect(m, true, content, composed) == Finish(CourierError(content.errorCode))
    ensures CarriesPayload(m, content) ==>
      var effect := ReplyEffect(m, true, content, composed);
      match content.decryption
      case MkemFailure => effect == Finish(MkemDecryptionFailed)
      case BacapFailure => effect == Finish(BacapDecryptionFailed)
      case OtherFailure => effect == Finish(InternalError)
      case Plaintext(isEmpty, unpads) =>
        effect == Finish(if !m.isRead then Success else if isEmpty then Tombstone else if unpads then Success else InternalError)
      case ReplicaFailure(code) =>
        effect == if code == BOX_ALREADY_EXISTS && !m.isRead && !m.noIdempotentBoxAlreadyExists then Finish(Success)
                  else if code == BOX_ID_NOT_FOUND && m.isRead && !m.noRetryOnBoxIDNotFound then
                    Move(composed, if composed then WaitingForACK else PayloadReceived)
                  else Finish(ReplicaError(code))
  {
  }

  /** The courier acknowledges, and the answer proper has still to be fetched: a read,
      or a write that wants to know whether the box was there. */
  predicate AcknowledgesOnly(m: ARQMessage, content: Content)
  {
    && m.messageType == EnvelopeType && content.EnvelopeReply? && content.errorCode == 0
    && (if m.state == WaitingForACK then content.replyType == 0 && (m.isRead || m.noIdempotentBoxAlreadyExists)
        else m.state == ACKReceived && content.replyType != 1)
  }

  /** A read hears that its box is not there yet, and is to ask again. */
  predicate AsksAgain(m: ARQMessage, content: Content)
  {
    && CarriesPayload(m, content) && m.isRead && !m.noRetryOnBoxIDNotFound
    && content.decryption == ReplicaFailure(BOX_ID_NOT_FOUND)
  }

  /** The reply cannot be read, or is not of the kind the operation expects. */
  predicate Garbled(m: ARQMessage, content: Content)
  {
    || content.Undecryptable? || content.Unparsable?
    || m.messageType == OtherType || (m.messageType == EnvelopeType && !content.EnvelopeReply?)
  }

  /** A reply keeps its operation going in exactly three cases, and each moves it to
      the state and with the rotation the next step needs. */
  lemma ReplyMovesIff(m: ARQMessage, content: Content, composed: bool)
    ensures ReplyEffect(m, true, content, composed).Move? <==>
      AcknowledgesOnly(m, content) || AsksAgain(m, content)
      || (m.messageType == CopyCommandType && content == CopyReply(InProgress))
    ensures AcknowledgesOnly(m, content) ==> ReplyEffect(m, true, content, composed) == Move(composed, ACKReceived)
    ensures AsksAgain(m, content) ==>
      ReplyEffect(m, true, content, composed) == Move(composed, if composed then WaitingForACK else PayloadReceived)
    ensures m.messageType == CopyCommandType && content == CopyReply(InProgress) ==>
      ReplyEffect(m, true, content, composed) == Move(false, m.state)
  {
  }

  /** It makes the daemon forget the operation without a word exactly when it is
      garbled, and every copy status but InProgress ends the command with its answer. */
  lemma ReplyForgetsIff(m: ARQMessage, content: Content, composed: bool)
    ensures ReplyEffect(m, true, content, composed).Forget? <==> Garbled(m, content)
    ensures m.messageType == CopyCommandType && content == CopyReply(Failed) ==>
      ReplyEffect(m, true, content, composed) == Finish(CopyCommandFailed)
    ensures m.messageType == CopyCommandType && content == CopyReply(UnknownStatus) ==>
      ReplyEffect(m, true, content, composed) == Finish(InternalError)
  {
  }

  // ------------------------------------------------------------- the machine

  datatype Reply = Reply(op: Op, answer: Answer)

  /** timers is the ARQ timer queue; resend maps each live connection to its
      resend channel; egress holds the resend requests the scheduler has picked
      but not run; replies is everything ever answered; used and nextOp record
      which SURB IDs and operations have ever been handed out. */
  datatype Daemon = Daemon(
    ix: Index,
    timers: multiset<SurbID>,
    resend: map<AppID, seq<SurbID>>,
    egress: multiset<SurbID>,
    replies: seq<Reply>,
    used: set<SurbID>,
    nextOp: Op)

  const INITIAL: Daemon := Daemon(Index(map[], map[], map[]), multiset{}, map[], multiset{}, [], {}, 0)

  datatype Event =
    | Start(message: ARQMessage, composed: bool)
    | TimerFires(surb: SurbID)
    | SchedulerPicks(app: AppID)
    | Resend(surb: SurbID, freshID: SurbID, composed: bool)
    | ReplyArrives(surb: SurbID, content: Content, queued: bool, freshID: SurbID, composed: bool)
    | Cancel(app: AppID, hash: Hash, queued: bool)
    | Cleanup(app: AppID, allQueued: set<SurbID>)
    | Connect(app: AppID)
    | Disconnect(app: AppID)

  /** TimerQueue.Cancel finds an entry only once the queue's worker has taken it in. */
  function CancelTimer(timers: multiset<SurbID>, s: SurbID, queued: bool): multiset<SurbID>
  {
    if queued then timers - multiset{s} else timers
  }

  function Apply(d: Daemon, op: Op, effect: Effect, freshID: SurbID): Daemon
    requires op in d.ix.msgs
  {
    match effect
    case Leave => d
    case Forget => d.(ix := Drop(d.ix, op))
    case Finish(answer) => d.(ix := Drop(d.ix, op), replies := d.replies + [Reply(op, answer)])
    case Move(rotates, state) =>
      var ix := if rotates then Rotate(d.ix, op, freshID) else Reregister(d.ix, op, freshID);
      d.(ix := SetState(ix, op, state), timers := d.timers + multiset{freshID}, used := d.used + {freshID})
  }

  /** arqSend and the error reply of its callers. */
  function StartStep(d: Daemon, m: ARQMessage, composed: bool): Daemon
  {
    if !composed then d.(replies := d.replies + [Reply(d.nextOp, InternalError)], nextOp := d.nextOp + 1)
    else d.(ix := Register(d.ix, d.nextOp, m), timers := d.timers + multiset{m.surbID},
            used := d.used + {m.surbID}, nextOp := d.nextOp + 1)
  }

  /** The timer callback: enqueueResend. */
  function TimerStep(d: Daemon, s: SurbID): Daemon
  {
    var fired := d.(timers := d.timers - multiset{s});
    if s !in d.ix.surbs || d.ix.surbs[s] !in d.ix.msgs then fired else
      var app := d.ix.msgs[d.ix.surbs[s]].appID;
      if app !in d.resend then fired
      else if |d.resend[app]| < RESEND_BUFFER then fired.(resend := d.resend[app := d.resend[app] + [s]])
      else d
  }

  function PickStep(d: Daemon, app: AppID): Daemon
    requires app in d.resend && d.resend[app] != []
  {
    d.(resend := d.resend[app := d.resend[app][1..]], egress := d.egress + multiset{d.resend[app][0]})
  }

  /** arqDoResend. */
  function ResendStep(d: Daemon, s: SurbID, freshID: SurbID, composed: bool): Daemon
  {
    var run := d.(egress := d.egress - multiset{s});
    if s !in d.ix.surbs || d.ix.surbs[s] !in d.ix.msgs then run else
      var op := d.ix.surbs[s];
      var m := d.ix.msgs[op];
      Apply(run, op, if m.appID in d.resend then Move(composed, m.state) else Forget, freshID)
  }

  /** handleReply for a SURB of the retransmission engine. */
  function ReplyStep(d: Daemon, s: SurbID, content: Content, queued: bool, freshID: SurbID, composed: bool): Daemon
  {
    if s !in d.ix.surbs || d.ix.surbs[s] !in d.ix.msgs then d else
      var op := d.ix.surbs[s];
      var m := d.ix.msgs[op];
      var acked := d.(timers := CancelTimer(d.timers, m.surbID, queued));
      Apply(acked, op, ReplyEffect(m, m.appID in d.resend, content, composed), freshID)
  }

  /** cancelResendingEncryptedMessage and cancelResendingCopyCommand. */
  function CancelStep(d: Daemon, app: AppID, h: Hash, queued: bool): Daemon
  {
    if app !in d.resend || h !in d.ix.hashes then d else
      var s := d.ix.hashes[h];
      var removed := d.(ix := CancelHash(d.ix, h));
      if s !in d.ix.surbs || d.ix.surbs[s] !in d.ix.msgs then removed else
        var op := d.ix.surbs[s];
        removed.(timers := CancelTimer(d.timers, d.ix.msgs[op].surbID, queued),
                 replies := d.replies + [Reply(op, Cancelled)])
  }

  function CleanupStep(d: Daemon, app: AppID, queued: set<SurbID>): Daemon
  {
    d.(ix := CleanupApp(d.ix, app), timers := d.timers - multiset(OwnedBy(d.ix, app) * queued))
  }

  function Step(d: Daemon, e: Event): Daemon
    requires Enabled(d, e)
  {
    match e
    case Start(m, composed) => StartStep(d, m, composed)
    case TimerFires(s) => TimerStep(d, s)
    case SchedulerPicks(app) => PickStep(d, app)
    case Resend(s, freshID, composed) => ResendStep(d, s, freshID, composed)
    case ReplyArrives(s, content, queued, freshID, composed) => ReplyStep(d, s, content, queued, freshID, composed)
    case Cancel(app, h, queued) => CancelStep(d, app, h, queued)
    case Cleanup(app, queued) => CleanupStep(d, app, queued)
    case Connect(app) => d.(resend := d.resend[app := []])
    case Disconnect(app) => d.(resend := d.resend - {app})
  }

  /** Random SURB IDs do not repeat, a hash that is still tracked is not started
      again, and only what is queued can fire or be picked. */
  predicate Enabled(d: Daemon, e: Event)
  {
    match e
    case Start(m, _) =>
      m.surbID !in d.used && m.envelopeHash !in d.ix.hashes && m.state == WaitingForACK
    case TimerFires(s) => s in d.timers
    case SchedulerPicks(app) => app in d.resend && d.resend[app] != []
    case Resend(s, freshID, _) => s in d.egress && freshID !in d.used
    case ReplyArrives(_, _, _, freshID, _) => freshID !in d.used
    case Connect(app) => app !in d.resend
    case _ => true
  }

  /** A run: every event is possible when its turn comes. */
  predicate IsRun(d: Daemon, events: seq<Event>)
    decreases |events|
  {
    events == [] || (Enabled(d, events[0]) && IsRun(Step(d, events[0]), events[1..]))
  }

  function After(d: Daemon, events: seq<Event>): Daemon
    requires IsRun(d, events)
    decreases |events|
  {
    if events == [] then d else After(Step(d, events[0]), events[1..])
  }

  // ------------------------------------------------- indexes and replies

  /** Every SURB ID anywhere in the engine was handed out, and none is in the
      timer queue twice. */
  ghost predicate IdsUsed(d: Daemon)
  {
    && d.ix.surbs.Keys <= d.used
    && (forall s :: s in d.timers ==> s in d.used)
    && (forall s :: d.timers[s] <= 1)
    && (forall s :: s in d.egress ==> s in d.used)
    && (forall app, s :: app in d.resend && s in d.resend[app] ==> s in d.used)
  }

  /** No operation is answered twice, and an answered one is not tracked. */
  ghost predicate AnsweredOnce(d: Daemon)
  {
    && (forall i, j :: 0 <= i < j < |d.replies| ==> d.replies[i].op != d.replies[j].op)
    && (forall i :: 0 <= i < |d.replies| ==> d.replies[i].op < d.nextOp && !d.ix.Tracked(d.replies[i].op))
    && (forall op :: op in d.ix.msgs ==> op < d.nextOp)
  }

  ghost predicate Inv(d: Daemon)
  {
    Inverse(d.ix) && IdsUsed(d) && AnsweredOnce(d)
  }

  lemma ApplyKeepsInverse(d: Daemon, op: Op, effect: Effect, freshID: SurbID)
    requires Inverse(d.ix) && d.ix.Tracked(op) && freshID !in d.ix.surbs
    ensures Inverse(Apply(d, op, effect, freshID).ix)
    ensures effect.Forget? || effect.Finish? ==> !Apply(d, op, effect, freshID).ix.Tracked(op)
    ensures effect.Move? ==> Apply(d, op, effect, freshID).ix.Tracked(op)
  {
    hide Inverse;
    match effect
    case Leave =>
    case Forget => DropKeepsInverse(d.ix, op);
    case Finish(_) => DropKeepsInverse(d.ix, op);
    case Move(rotates, state) =>
      RotateKeepsInverse(d.ix, op, freshID);
      ReregisterKeepsInverse(d.ix, op, freshID);
      var ix := if rotates then Rotate(d.ix, op, freshID) else Reregister(d.ix, op, freshID);
      SetStateKeepsInverse(ix, op, state);
  }

  /** Which operations a handler of op can track afterwards: those that were, and op. */
  lemma ApplyTracksNoOther(d: Daemon, op: Op, effect: Effect, freshID: SurbID, other: Op)
    requires d.ix.Tracked(op) && freshID !in d.ix.surbs
    requires other != op
    ensures Apply(d, op, effect, freshID).ix.Tracked(other) ==> d.ix.Tracked(other)
  {
  }

  lemma ApplyKeepsAnsweredOnce(d: Daemon, op: Op, effect: Effect, freshID: SurbID)
    requires Inverse(d.ix) && AnsweredOnce(d) && d.ix.Tracked(op) && freshID !in d.ix.surbs
    ensures AnsweredOnce(Apply(d, op, effect, freshID))
  {
    var r := Apply(d, op, effect, freshID);
    ApplyKeepsInverse(d, op, effect, freshID);
    assert r.ix.msgs.Keys == d.ix.msgs.Keys;
    forall i | 0 <= i < |r.replies|
      ensures r.replies[i].op < r.nextOp && !r.ix.Tracked(r.replies[i].op)
    {
      if i < |d.replies| {
        assert d.replies[i].op != op;
        ApplyTracksNoOther(d, op, effect, freshID, d.replies[i].op);
      }
    }
  }

  lemma ApplyKeepsInv(d: Daemon, op: Op, effect: Effect, freshID: SurbID)
    requires Inv(d) && d.ix.Tracked(op) && freshID !in d.used
    ensures Inv(Apply(d, op, effect, freshID))
  {
    ApplyKeepsInverse(d, op, effect, freshID);
    ApplyKeepsAnsweredOnce(d, op, effect, freshID);
  }

  lemma StartKeepsInv(d: Daemon, m: ARQMessage, composed: bool)
    requires Inv(d) && Enabled(d, Start(m, composed))
    ensures Inv(StartStep(d, m, composed))
  {
    if composed {
      RegisterKeepsInverse(d.ix, d.nextOp, m);
    }
  }

  lemma CancelKeepsInv(d: Daemon, app: AppID, h: Hash, queued: bool)
    requires Inv(d)
    ensures Inv(CancelStep(d, app, h, queued))
  {
    CancelKeepsInverse(d.ix, h);
  }

  lemma CleanupKeepsInv(d: Daemon, app: AppID, queued: set<SurbID>)
    requires Inv(d)
    ensures Inv(CleanupStep(d, app, queued))
  {
    CleanupKeepsInverse(d.ix, app);
  }

  lemma TimerKeepsInv(d: Daemon, s: SurbID)
    requires Inv(d) && s in d.timers
    ensures Inv(TimerStep(d, s))
  {
  }

  lemma PickKeepsInv(d: Daemon, app: AppID)
    requires Inv(d) && app in d.resend && d.resend[app] != []
    ensures Inv(PickStep(d, app))
  {
  }

  lemma ResendKeepsInv(d: Daemon, s: SurbID, freshID: SurbID, composed: bool)
    requires Inv(d) && s in d.egress && freshID !in d.used
    ensures Inv(ResendStep(d, s, freshID, composed))
  {
    var run := d.(egress := d.egress - multiset{s});
    assert Inv(run);
    if s in d.ix.surbs {
      var m := d.ix.msgs[d.ix.surbs[s]];
      var effect := if m.appID in d.resend then Move(composed, m.state) else Forget;
      ApplyKeepsInv(run, d.ix.surbs[s], effect, freshID);
    }
  }

  lemma ReplyKeepsInv(d: Daemon, s: SurbID, content: Content, queued: bool, freshID: SurbID, composed: bool)
    requires Inv(d) && freshID !in d.used
    ensures Inv(ReplyStep(d, s, content, queued, freshID, composed))
  {
    if s in d.ix.surbs {
      var op := d.ix.surbs[s];
      var m := d.ix.msgs[op];
      var acked := d.(timers := CancelTimer(d.timers, m.surbID, queued));
      assert Inv(acked);
      ApplyKeepsInv(acked, op, ReplyEffect(m, m.appID in d.resend, content, composed), freshID);
    }
  }

  lemma StepKeepsInv(d: Daemon, e: Event)
    requires Inv(d) && Enabled(d, e)
    ensures Inv(Step(d, e))
  {
    match e
    case Start(m, composed) => StartKeepsInv(d, m, composed);
    case TimerFires(s) => TimerKeepsInv(d, s);
    case SchedulerPicks(app) => PickKeepsInv(d, app);
    case Resend(s, freshID, composed) => ResendKeepsInv(d, s, freshID, composed);
    case ReplyArrives(s, content, queued, freshID, composed) =>
      ReplyKeepsInv(d, s, content, queued, freshID, composed);
    case Cancel(app, h, queued) => CancelKeepsInv(d, app, h, queued);
    case Cleanup(app, queued) => CleanupKeepsInv(d, app, queued);
    case Connect(_) =>
    case Disconnect(_) =>
  }

  /** Over every run, with every outcome of every handler, the two indexes stay
      exact inverses, every ID in circulation was handed out, no operation gets
      a second StartResending reply and an answered one is no longer tracked. */
  lemma {:induction false} RunKeepsInv(d: Daemon, events: seq<Event>)
    requires Inv(d) && IsRun(d, events)
    ensures Inv(After(d, events))
    decreases |events|
  {
    if events != [] {
      StepKeepsInv(d, events[0]);
      RunKeepsInv(Step(d, events[0]), events[1..]);
    }
  }

  lemma IndexesInverseOverEveryRun(events: seq<Event>)
    requires IsRun(INITIAL, events)
    ensures var d := After(INITIAL, events); Inverse(d.ix) && AnsweredOnce(d)
  {
    RunKeepsInv(INITIAL, events);
  }

  // ---------------------------------------------- nothing stays PayloadReceived

  /** op is tracked and belongs to the client. */
  predicate Mine(d: Daemon, app: AppID, op: Op)
  {
    d.ix.Tracked(op) && d.ix.msgs[op].appID == app
  }

  /** No message of the client is left in PayloadReceived, the state in which
      the engine ignores every reply. */
  ghost predicate NoneStuck(d: Daemon, app: AppID)
  {
    forall op :: Mine(d, app, op) ==> d.ix.msgs[op].state != PayloadReceived
  }

  /** A read is told BoxIDNotFound, wants to ask again, and composing fails. */
  predicate PayloadRetryFailsToCompose(m: ARQMessage, content: Content, composed: bool)
  {
    && !composed
    && m.messageType == EnvelopeType && m.isRead && !m.noRetryOnBoxIDNotFound
    && content.EnvelopeReply? && content.errorCode == 0
    && (if m.state == WaitingForACK then content.replyType != 0 else content.replyType == 1)
    && content.decryption == ReplicaFailure(BOX_ID_NOT_FOUND)
  }

  /** e is a reply to a tracked message of the client. */
  predicate Answers(d: Daemon, e: Event, app: AppID)
  {
    e.ReplyArrives? && e.surb in d.ix.surbs && Mine(d, app, d.ix.surbs[e.surb])
  }

  predicate GetsStuck(d: Daemon, e: Event, app: AppID)
  {
    && Answers(d, e, app)
    && app in d.resend
    && PayloadRetryFailsToCompose(d.ix.msgs[d.ix.surbs[e.surb]], e.content, e.composed)
  }

  lemma ReplyEffectSticksIff(m: ARQMessage, content: Content, composed: bool)
    requires m.state != PayloadReceived
    ensures ReplyEffect(m, true, content, composed) == Move(false, PayloadReceived)
            <==> PayloadRetryFailsToCompose(m, content, composed)
    ensures ReplyEffect(m, true, content, composed) != Move(true, PayloadReceived)
  {
  }

  /** A handler of op leaves the other messages as they are. */
  lemma ApplyElsewhere(d: Daemon, op: Op, effect: Effect, freshID: SurbID, other: Op)
    requires Inverse(d.ix) && d.ix.Tracked(op) && freshID !in d.ix.surbs && other != op
    ensures var r := Apply(d, op, effect, freshID);
      && (r.ix.Tracked(other) <==> d.ix.Tracked(other))
      && (other in r.ix.msgs <==> other in d.ix.msgs)
      && (other in d.ix.msgs ==> r.ix.msgs[other] == d.ix.msgs[other])
  {
  }

  lemma ApplyHere(d: Daemon, op: Op, effect: Effect, freshID: SurbID)
    requires Inverse(d.ix) && d.ix.Tracked(op) && freshID !in d.ix.surbs
    ensures var r := Apply(d, op, effect, freshID);
      && (r.ix.Tracked(op) <==> effect.Leave? || effect.Move?)
      && (effect.Leave? ==> r == d)
      && (effect.Move? ==> r.ix.msgs[op].state == effect.state && r.ix.msgs[op].surbID == freshID)
      && op in r.ix.msgs && r.ix.msgs[op].appID == d.ix.msgs[op].appID
      && r.ix.msgs[op].messageType == d.ix.msgs[op].messageType
  {
  }

  predicate SameMessage(m: ARQMessage, n: ARQMessage)
  {
    m.appID == n.appID && m.messageType == n.messageType && m.state == n.state && m.envelopeHash == n.envelopeHash
  }

  lemma ResendKeepsMessages(d: Daemon, s: SurbID, freshID: SurbID, composed: bool, op: Op)
    requires Inv(d) && s in d.egress && freshID !in d.used
    requires ResendStep(d, s, freshID, composed).ix.Tracked(op)
    ensures d.ix.Tracked(op) && SameMessage(ResendStep(d, s, freshID, composed).ix.msgs[op], d.ix.msgs[op])
  {
    if s in d.ix.surbs {
      var other := d.ix.surbs[s];
      var run := d.(egress := d.egress - multiset{s});
      var m := d.ix.msgs[other];
      var effect := if m.appID in d.resend then Move(composed, m.state) else Forget;
      if op == other {
        ApplyHere(run, other, effect, freshID);
      } else {
        ApplyElsewhere(run, other, effect, freshID, op);
      }
    }
  }

  /** Handlers other than the reply handler keep owner and state of whatever
      stays tracked, and only Start adds a message. */
  lemma OtherStepsKeepMessages(d: Daemon, e: Event, op: Op)
    requires Inv(d) && Enabled(d, e) && !e.ReplyArrives?
    requires Step(d, e).ix.Tracked(op)
    ensures var m := Step(d, e).ix.msgs[op];
      || (d.ix.Tracked(op) && SameMessage(m, d.ix.msgs[op]))
      || (e.Start? && op == d.nextOp && m == e.message)
  {
    hide ResendStep;
    match e
    case Start(m, composed) =>
    case TimerFires(s) =>
    case SchedulerPicks(app) =>
    case Resend(s, freshID, composed) => ResendKeepsMessages(d, s, freshID, composed, op);
    case Cancel(app, h, queued) =>
    case Cleanup(app, queued) =>
    case Connect(_) =>
    case Disconnect(_) =>
  }

  /** One step leaves a message of the client in PayloadReceived exactly when it
      is a payload retry whose packet could not be composed. */
  lemma StepSticksIff(d: Daemon, e: Event, app: AppID)
    requires Inv(d) && Enabled(d, e) && NoneStuck(d, app)
    ensures NoneStuck(Step(d, e), app) <==> !GetsStuck(d, e, app)
  {
    hide Step, Inverse, IdsUsed, AnsweredOnce;
    if e.ReplyArrives? {
      ReplySticksIff(d, e, app);
    } else {
      forall op | Mine(Step(d, e), app, op)
        ensures Step(d, e).ix.msgs[op].state != PayloadReceived
      {
        OtherStepsKeepMessages(d, e, op);
        if !e.Start? || Step(d, e).ix.msgs[op] != e.message {
          assert Mine(d, app, op);
        }
      }
    }
  }

  lemma ReplySticksIff(d: Daemon, e: Event, app: AppID)
    requires Inv(d) && Enabled(d, e) && NoneStuck(d, app) && e.ReplyArrives?
    ensures NoneStuck(Step(d, e), app) <==> !GetsStuck(d, e, app)
  {
    if e.surb in d.ix.surbs {
      var op := d.ix.surbs[e.surb];
      var m := d.ix.msgs[op];
      var effect := ReplyEffect(m, m.appID in d.resend, e.content, e.composed);
      var acked := d.(timers := CancelTimer(d.timers, m.surbID, e.queued));
      var r := Step(d, e);
      assert r == Apply(acked, op, effect, e.freshID);
      assert Mine(d, app, op) <==> m.appID == app;
      ApplyHere(acked, op, effect, e.freshID);
      if m.appID == app {
        ReplyEffectSticksIff(m, e.content, e.composed);
      }
      hide *;
      forall other | other != op
        ensures Mine(r, app, other) <==> Mine(d, app, other)
        ensures Mine(d, app, other) ==> r.ix.msgs[other] == d.ix.msgs[other]
      {
        ApplyElsewhere(acked, op, effect, e.freshID, other);
      }
    }
  }

  /** A run in which that failure does not happen to the client's messages. */
  predicate NeverSticks(d: Daemon, events: seq<Event>, app: AppID)
    requires IsRun(d, events)
    decreases |events|
  {
    events == [] || (!GetsStuck(d, events[0], app) && NeverSticks(Step(d, events[0]), events[1..], app))
  }

  /** In such a run no message of the client is ever left in PayloadReceived, so
      no reply to one is ever ignored. */
  lemma {:induction false} NoReplyIgnored(d: Daemon, events: seq<Event>, app: AppID)
    requires Inv(d) && NoneStuck(d, app) && IsRun(d, events) && NeverSticks(d, events, app)
    ensures NoneStuck(After(d, events), app)
    ensures forall op, replyType, errorCode :: Mine(After(d, events), app, op) ==>
      var m := After(d, events).ix.msgs[op];
      ComputeTransition(m.state, replyType, errorCode, m.isRead, m.noIdempotentBoxAlreadyExists).action != Ignore
    decreases |events|
  {
    hide Inv, Step, Enabled, GetsStuck;
    if events != [] {
      StepSticksIff(d, events[0], app);
      StepKeepsInv(d, events[0]);
      NoReplyIgnored(Step(d, events[0]), events[1..], app);
    }
  }

  // ------------------------------------------------------- no retry is lost

  /** How many tokens for the SURB ID are waiting to be turned into a resend on
      behalf of the client: timer entries, entries of its resend channel, and
      resend requests in flight. */
  function Tokens(d: Daemon, app: AppID, s: SurbID): nat
  {
    d.timers[s] + (if app in d.resend then multiset(d.resend[app])[s] else 0) + d.egress[s]
  }

  /** Every tracked message of the client has exactly one token. */
  ghost predicate Live(d: Daemon, app: AppID)
  {
    forall op :: Mine(d, app, op) ==> Tokens(d, app, d.ix.msgs[op].surbID) == 1
  }

  /** A tracked SURB ID is only ever queued with the client that owns it. */
  ghost predicate QueuesHonest(d: Daemon)
  {
    forall app, s :: app in d.resend && s in d.resend[app] && s in d.ix.surbs && d.ix.surbs[s] in d.ix.msgs ==>
      d.ix.msgs[d.ix.surbs[s]].appID == app
  }

  /** A copy command is answered by something that is not a copy reply. */
  predicate WrongType(m: ARQMessage, content: Content)
  {
    m.messageType == CopyCommandType && content.EnvelopeReply?
  }

  /** The steps after which progress of the client's messages is not promised. */
  predicate Excused(d: Daemon, e: Event, app: AppID)
  {
    || e == Disconnect(app)
    || GetsStuck(d, e, app)
    || (Answers(d, e, app) && WrongType(d.ix.msgs[d.ix.surbs[e.surb]], e.content))
  }

  ghost predicate Ready(d: Daemon, app: AppID)
  {
    Inv(d) && app in d.resend && QueuesHonest(d) && NoneStuck(d, app) && Live(d, app)
  }

  lemma FreshHasNoToken(d: Daemon, app: AppID, freshID: SurbID)
    requires IdsUsed(d) && freshID !in d.used
    ensures Tokens(d, app, freshID) == 0
  {
  }

  /** The tokens of every message but op are there, and op is going to be moved
      or forgotten: then the handler leaves every message with its token. */
  lemma ApplyKeepsLive(d: Daemon, op: Op, effect: Effect, freshID: SurbID, app: AppID)
    requires Inverse(d.ix) && IdsUsed(d) && d.ix.Tracked(op) && freshID !in d.used
    requires forall other :: other != op && Mine(d, app, other) ==> Tokens(d, app, d.ix.msgs[other].surbID) == 1
    requires effect.Leave? ==> d.ix.msgs[op].appID != app
    ensures Live(Apply(d, op, effect, freshID), app)
  {
    var r := Apply(d, op, effect, freshID);
    ApplyHere(d, op, effect, freshID);
    FreshHasNoToken(d, app, freshID);
    forall other | Mine(r, app, other)
      ensures Tokens(r, app, r.ix.msgs[other].surbID) == 1
    {
      if other != op {
        ApplyElsewhere(d, op, effect, freshID, other);
        assert Mine(d, app, other) && d.ix.msgs[other].surbID != freshID;
      }
    }
  }

  lemma ApplyKeepsHonest(d: Daemon, op: Op, effect: Effect, freshID: SurbID)
    requires Inverse(d.ix) && IdsUsed(d) && QueuesHonest(d) && d.ix.Tracked(op) && freshID !in d.used
    ensures QueuesHonest(Apply(d, op, effect, freshID))
  {
  }

  /** Two tracked messages never share a SURB ID. */
  lemma SurbsDiffer(d: Daemon, op: Op, other: Op)
    requires d.ix.Tracked(op) && d.ix.Tracked(other) && op != other
    ensures d.ix.msgs[op].surbID != d.ix.msgs[other].surbID
  {
  }

  lemma ResendKeepsLive(d: Daemon, s: SurbID, freshID: SurbID, composed: bool, app: AppID)
    requires Ready(d, app) && s in d.egress && freshID !in d.used
    ensures Live(ResendStep(d, s, freshID, composed), app) && QueuesHonest(ResendStep(d, s, freshID, composed))
  {
    var run := d.(egress := d.egress - multiset{s});
    if s in d.ix.surbs {
      var op := d.ix.surbs[s];
      var m := d.ix.msgs[op];
      var effect := if m.appID in d.resend then Move(composed, m.state) else Forget;
      assert IdsUsed(run);
      forall other | other != op && Mine(run, app, other)
        ensures Tokens(run, app, run.ix.msgs[other].surbID) == 1
      {
        assert Mine(d, app, other);
        SurbsDiffer(d, op, other);
      }
      ApplyKeepsLive(run, op, effect, freshID, app);
      ApplyKeepsHonest(run, op, effect, freshID);
    } else {
      forall op | Mine(run, app, op)
        ensures Tokens(run, app, run.ix.msgs[op].surbID) == 1
      {
        assert Mine(d, app, op);
      }
    }
  }

  /** A reply leaves the message where it is exactly when the client is gone, a
      copy command got a reply of the wrong type, or the state is PayloadReceived. */
  lemma ReplyLeavesIff(m: ARQMessage, connected: bool, content: Content, composed: bool)
    ensures ReplyEffect(m, connected, content, composed).Leave? <==>
      || !connected
      || WrongType(m, content)
      || (m.messageType == EnvelopeType && content.EnvelopeReply? && content.errorCode == 0 && m.state == PayloadReceived)
  {
  }

  lemma ReplyKeepsLive(d: Daemon, e: Event, app: AppID)
    requires Ready(d, app) && Enabled(d, e) && e.ReplyArrives? && !Excused(d, e, app)
    ensures Live(Step(d, e), app) && QueuesHonest(Step(d, e))
  {
    hide ReplyEffect, AnsweredOnce;
    if e.surb in d.ix.surbs {
      var op := d.ix.surbs[e.surb];
      var m := d.ix.msgs[op];
      var acked := d.(timers := CancelTimer(d.timers, m.surbID, e.queued));
      var effect := ReplyEffect(m, m.appID in d.resend, e.content, e.composed);
      assert IdsUsed(acked) && acked.ix == d.ix;
      forall other | other != op && Mine(acked, app, other)
        ensures Tokens(acked, app, acked.ix.msgs[other].surbID) == 1
      {
        assert Mine(d, app, other);
        SurbsDiffer(d, op, other);
      }
      if m.appID == app {
        assert Mine(d, app, op) && Answers(d, e, app);
        ReplyLeavesIff(m, true, e.content, e.composed);
      }
      ApplyKeepsLive(acked, op, effect, e.freshID, app);
      ApplyKeepsHonest(acked, op, effect, e.freshID);
    }
  }

  lemma StartKeepsLive(d: Daemon, m: ARQMessage, composed: bool, app: AppID)
    requires Ready(d, app) && Enabled(d, Start(m, composed))
    ensures Live(StartStep(d, m, composed), app) && QueuesHonest(StartStep(d, m, composed))
  {
    var r := StartStep(d, m, composed);
    FreshHasNoToken(d, app, m.surbID);
    forall op | Mine(r, app, op)
      ensures Tokens(r, app, r.ix.msgs[op].surbID) == 1
    {
      if op != d.nextOp || !composed {
        assert Mine(d, app, op) && d.ix.msgs[op].surbID != m.surbID;
      }
    }
  }

  /** A timer that fires hands its token on; it never loses or doubles one of a
      connected client. */
  lemma TimerMovesToken(d: Daemon, s: SurbID, app: AppID, op: Op)
    requires s in d.timers && app in d.resend && Mine(d, app, op)
    ensures Tokens(TimerStep(d, s), app, d.ix.msgs[op].surbID) == Tokens(d, app, d.ix.msgs[op].surbID)
  {
    var r := TimerStep(d, s);
    if d.ix.msgs[op].surbID == s {
      assert multiset(d.resend[app] + [s]) == multiset(d.resend[app]) + multiset{s};
    } else if s in d.ix.surbs && d.ix.surbs[s] in d.ix.msgs && d.ix.msgs[d.ix.surbs[s]].appID == app {
      assert multiset(d.resend[app] + [s]) == multiset(d.resend[app]) + multiset{s};
    }
  }

  lemma TimerKeepsHonest(d: Daemon, s: SurbID)
    requires Inverse(d.ix) && QueuesHonest(d) && s in d.timers
    ensures QueuesHonest(TimerStep(d, s))
  {
  }

  lemma TimerKeepsLive(d: Daemon, s: SurbID, app: AppID)
    requires Ready(d, app) && s in d.timers
    ensures Live(TimerStep(d, s), app) && QueuesHonest(TimerStep(d, s))
  {
    TimerKeepsHonest(d, s);
    var r := TimerStep(d, s);
    assert r.ix == d.ix;
    hide TimerStep, Tokens;
    forall op | Mine(r, app, op)
      ensures Tokens(r, app, r.ix.msgs[op].surbID) == 1
    {
      assert Mine(d, app, op);
      TimerMovesToken(d, s, app, op);
    }
  }

  lemma PickKeepsLive(d: Daemon, from: AppID, app: AppID)
    requires Ready(d, app) && from in d.resend && d.resend[from] != []
    ensures Live(PickStep(d, from), app) && QueuesHonest(PickStep(d, from))
  {
    var r := PickStep(d, from);
    var queue := d.resend[from];
    assert queue == [queue[0]] + queue[1..];
    forall op | Mine(r, app, op)
      ensures Tokens(r, app, r.ix.msgs[op].surbID) == 1
    {
      assert Mine(d, app, op);
      if d.ix.msgs[op].surbID == queue[0] {
        assert queue[0] in d.resend[from];
        assert from == app;
      }
    }
  }

  lemma CancelKeepsLive(d: Daemon, requester: AppID, h: Hash, queued: bool, app: AppID)
    requires Ready(d, app)
    ensures Live(CancelStep(d, requester, h, queued), app) && QueuesHonest(CancelStep(d, requester, h, queued))
  {
    var r := CancelStep(d, requester, h, queued);
    forall op | Mine(r, app, op)
      ensures Tokens(r, app, r.ix.msgs[op].surbID) == 1
    {
      assert Mine(d, app, op);
    }
  }

  lemma CleanupKeepsLive(d: Daemon, of: AppID, queued: set<SurbID>, app: AppID)
    requires Ready(d, app)
    ensures Live(CleanupStep(d, of, queued), app) && QueuesHonest(CleanupStep(d, of, queued))
  {
    var r := CleanupStep(d, of, queued);
    forall op | Mine(r, app, op)
      ensures Tokens(r, app, r.ix.msgs[op].surbID) == 1
    {
      assert Mine(d, app, op);
    }
  }

  lemma StepKeepsLive(d: Daemon, e: Event, app: AppID)
    requires Ready(d, app) && Enabled(d, e) && !Excused(d, e, app)
    ensures Live(Step(d, e), app) && QueuesHonest(Step(d, e))
  {
    hide StartStep, TimerStep, PickStep, ResendStep, ReplyStep, CancelStep, CleanupStep;
    match e
    case Start(m, composed) => StartKeepsLive(d, m, composed, app);
    case TimerFires(s) => TimerKeepsLive(d, s, app);
    case SchedulerPicks(from) => PickKeepsLive(d, from, app);
    case Resend(s, freshID, composed) => ResendKeepsLive(d, s, freshID, composed, app);
    case ReplyArrives(_, _, _, _, _) => ReplyKeepsLive(d, e, app);
    case Cancel(requester, h, queued) => CancelKeepsLive(d, requester, h, queued, app);
    case Cleanup(of, queued) => CleanupKeepsLive(d, of, queued, app);
    case Connect(other) => ConnectKeepsLive(d, e, app);
    case Disconnect(other) => ConnectKeepsLive(d, e, app);
  }

  lemma ConnectKeepsLive(d: Daemon, e: Event, app: AppID)
    requires Ready(d, app) && Enabled(d, e) && (e.Connect? || (e.Disconnect? && e.app != app))
    ensures Live(Step(d, e), app) && QueuesHonest(Step(d, e))
  {
    forall op | Mine(Step(d, e), app, op)
      ensures Tokens(Step(d, e), app, d.ix.msgs[op].surbID) == 1
    {
      assert Mine(d, app, op);
    }
  }

  lemma StepKeepsConnection(d: Daemon, e: Event, app: AppID)
    requires Enabled(d, e) && app in d.resend && e != Disconnect(app)
    ensures app in Step(d, e).resend
  {
  }

  lemma StepKeepsReady(d: Daemon, e: Event, app: AppID)
    requires Ready(d, app) && Enabled(d, e) && !Excused(d, e, app)
    ensures Ready(Step(d, e), app)
  {
    hide Step, Inv, NoneStuck, Live, QueuesHonest, Enabled, GetsStuck;
    StepKeepsInv(d, e);
    StepSticksIff(d, e, app);
    StepKeepsLive(d, e, app);
    StepKeepsConnection(d, e, app);
  }

  predicate NeverExcused(d: Daemon, events: seq<Event>, app: AppID)
    requires IsRun(d, events)
    decreases |events|
  {
    events == [] || (!Excused(d, events[0], app) && NeverExcused(Step(d, events[0]), events[1..], app))
  }

  /** While a client stays connected, its copy commands get copy replies and no
      payload retry fails to compose, every tracked message of that client has,
      after every step, exactly one token in its timer, its resend channel or an
      in-flight resend, whatever happens to other clients. */
  lemma {:induction false} NoRetryLost(d: Daemon, events: seq<Event>, app: AppID)
    requires Ready(d, app) && IsRun(d, events) && NeverExcused(d, events, app)
    ensures Ready(After(d, events), app)
    decreases |events|
  {
    hide Ready, Step, Enabled, Excused;
    if events != [] {
      StepKeepsReady(d, events[0], app);
      NoRetryLost(Step(d, events[0]), events[1..], app);
    }
  }

  lemma StepKeepsHonest(d: Daemon, e: Event)
    requires Inv(d) && QueuesHonest(d) && Enabled(d, e)
    ensures QueuesHonest(Step(d, e))
  {
    match e
    case TimerFires(s) => TimerKeepsHonest(d, s);
    case Resend(s, freshID, composed) =>
      if s in d.ix.surbs {
        var m := d.ix.msgs[d.ix.surbs[s]];
        ApplyKeepsHonest(d.(egress := d.egress - multiset{s}), d.ix.surbs[s],
                         if m.appID in d.resend then Move(composed, m.state) else Forget, freshID);
      }
    case ReplyArrives(s, content, queued, freshID, composed) =>
      if s in d.ix.surbs {
        var m := d.ix.msgs[d.ix.surbs[s]];
        ApplyKeepsHonest(d.(timers := CancelTimer(d.timers, m.surbID, queued)), d.ix.surbs[s],
                         ReplyEffect(m, m.appID in d.resend, content, composed), freshID);
      }
    case _ => QueueOrIndexShrinks(d, e);
  }

  lemma QueueOrIndexShrinks(d: Daemon, e: Event)
    requires Inv(d) && QueuesHonest(d) && Enabled(d, e)
    requires !e.TimerFires? && !e.Resend? && !e.ReplyArrives?
    ensures QueuesHonest(Step(d, e))
  {
    assert d.nextOp !in d.ix.msgs;
    hide AnsweredOnce;
    if e.SchedulerPicks? {
      var queue := d.resend[e.app];
      assert forall s :: s in queue[1..] ==> s in queue;
    }
  }

  lemma {:induction false} RunKeepsHonest(d: Daemon, events: seq<Event>)
    requires Inv(d) && QueuesHonest(d) && IsRun(d, events)
    ensures Inv(After(d, events)) && QueuesHonest(After(d, events))
    decreases |events|
  {
    if events != [] {
      StepKeepsHonest(d, events[0]);
      StepKeepsInv(d, events[0]);
      hide Inv, QueuesHonest, Step, Enabled;
      RunKeepsHonest(Step(d, events[0]), events[1..]);
    }
  }

  /** After every run from the start the daemon is ready for a client that connects
      owning nothing, as every new one does and every returning one after its cleanup. */
  lemma ReadyWhenConnected(events: seq<Event>, app: AppID)
    requires IsRun(INITIAL, events)
    requires var d := After(INITIAL, events); app !in d.resend && forall op :: !Mine(d, app, op)
    ensures var d := After(INITIAL, events); Enabled(d, Connect(app)) && Ready(Step(d, Connect(app)), app)
  {
    var d := After(INITIAL, events);
    RunKeepsHonest(INITIAL, events);
    StepKeepsHonest(d, Connect(app));
    StepKeepsInv(d, Connect(app));
    assert forall op :: Mine(Step(d, Connect(app)), app, op) <==> Mine(d, app, op);
    hide Inv, QueuesHonest;
  }

  /** A token whose SURB ID is no longer tracked is used up without any effect. */
  lemma StaleTokensDoNothing(d: Daemon, s: SurbID, freshID: SurbID, composed: bool)
    requires s !in d.ix.surbs
    ensures TimerStep(d, s) == d.(timers := d.timers - multiset{s})
    ensures ResendStep(d, s, freshID, composed) == d.(egress := d.egress - multiset{s})
    ensures forall content, queued :: ReplyStep(d, s, content, queued, freshID, composed) == d
  {
  }

  // ---------------------------------------- what the excused steps really do

  /** A copy command answered by the wrong type loses its retry exactly when the
      answer found its timer entry in the queue and removed it. */
  lemma WrongTypeLosesRetryIff(d: Daemon, e: Event, app: AppID)
    requires Ready(d, app) && Enabled(d, e) && Answers(d, e, app)
    requires WrongType(d.ix.msgs[d.ix.surbs[e.surb]], e.content)
    ensures Step(d, e).ix == d.ix
    ensures Tokens(Step(d, e), app, e.surb) == 0 <==> e.queued && e.surb in d.timers
  {
    var op := d.ix.surbs[e.surb];
    assert Mine(d, app, op);
    assert Tokens(d, app, d.ix.msgs[op].surbID) == 1;
  }

  /** A read of client 7 in some state, under some SURB ID. */
  function ReadMessage(surb: SurbID, state: ARQState, retransmissions: nat): ARQMessage
  {
    ARQMessage(EnvelopeType, 7, 40, surb, retransmissions, true, state, false, false)
  }

  /** A daemon that knows nothing but that read. */
  function OneRead(
    m: ARQMessage, timers: multiset<SurbID>, channel: seq<SurbID>, egress: multiset<SurbID>, used: set<SurbID>): Daemon
  {
    Daemon(Index(map[0 := m], map[m.surbID := 0], map[40 := m.surbID]), timers, map[7 := channel], egress, [], used, 1)
  }

  function StuckState(k: nat): Daemon
    requires k <= 7
  {
    var waiting := ReadMessage(2, PayloadReceived, 0);
    var sent := ReadMessage(3, PayloadReceived, 1);
    match k
    case 0 => INITIAL
    case 1 => INITIAL.(resend := map[7 := []])
    case 2 => OneRead(ReadMessage(1, WaitingForACK, 0), multiset{1}, [], multiset{}, {1})
    case 3 => OneRead(waiting, multiset{2}, [], multiset{}, {1, 2})
    case 4 => OneRead(waiting, multiset{}, [2], multiset{}, {1, 2})
    case 5 => OneRead(waiting, multiset{}, [], multiset{2}, {1, 2})
    case 6 => OneRead(sent, multiset{3}, [], multiset{}, {1, 2, 3})
    case 7 => OneRead(sent, multiset{}, [], multiset{}, {1, 2, 3})
  }

  /** A payload retry that cannot be composed; then the answer comes. */
  function StuckEvent(k: nat): Event
    requires k < 7
  {
    match k
    case 0 => Connect(7)
    case 1 => Start(ReadMessage(1, WaitingForACK, 0), true)
    case 2 => ReplyArrives(1, EnvelopeReply(1, 0, ReplicaFailure(BOX_ID_NOT_FOUND)), true, 2, false)
    case 3 => TimerFires(2)
    case 4 => SchedulerPicks(7)
    case 5 => Resend(2, 3, true)
    case 6 => ReplyArrives(3, EnvelopeReply(1, 0, Plaintext(false, true)), true, 4, true)
  }

  lemma StuckConnect()
    ensures Enabled(StuckState(0), StuckEvent(0)) && Step(StuckState(0), StuckEvent(0)) == StuckState(1)
  {
  }

  lemma StuckStart()
    ensures Enabled(StuckState(1), StuckEvent(1)) && Step(StuckState(1), StuckEvent(1)) == StuckState(2)
  {
    var m := ReadMessage(1, WaitingForACK, 0);
    assert Register(INITIAL.ix, 0, m) == Index(map[0 := m], map[1 := 0], map[40 := 1]);
  }

  lemma StuckRetryEffect()
    ensures ReplyEffect(ReadMessage(1, WaitingForACK, 0), true, StuckEvent(2).content, false)
            == Move(false, PayloadReceived)
  {
  }

  lemma StuckRetryFails()
    ensures Enabled(StuckState(2), StuckEvent(2)) && Step(StuckState(2), StuckEvent(2)) == StuckState(3)
  {
    var m := ReadMessage(1, WaitingForACK, 0);
    var d := StuckState(2);
    StuckRetryEffect();
    hide ReplyEffect;
    assert Reregister(d.ix, 0, 2) == Index(map[0 := m.(surbID := 2)], map[2 := 0], map[40 := 2]);
  }

  lemma StuckTimer(k: nat)
    requires 3 <= k < 5
    ensures Enabled(StuckState(k), StuckEvent(k)) && Step(StuckState(k), StuckEvent(k)) == StuckState(k + 1)
  {
    assert [] + [2] == [2] && [2][1..] == [];
  }

  lemma StuckResend()
    ensures Enabled(StuckState(5), StuckEvent(5)) && Step(StuckState(5), StuckEvent(5)) == StuckState(6)
  {
    var d := StuckState(5);
    assert Rotate(d.ix, 0, 3) == Index(map[0 := ReadMessage(3, PayloadReceived, 1)], map[3 := 0], map[40 := 3]);
    assert SetState(Rotate(d.ix, 0, 3), 0, PayloadReceived) == Rotate(d.ix, 0, 3);
  }

  lemma StuckAnswerIgnored()
    ensures Enabled(StuckState(6), StuckEvent(6)) && Step(StuckState(6), StuckEvent(6)) == StuckState(7)
  {
    assert ReplyEffect(ReadMessage(3, PayloadReceived, 1), true, StuckEvent(6).content, true) == Leave;
  }

  function StuckEvents(k: nat): seq<Event>
    requires k <= 7
    decreases 7 - k
  {
    if k == 7 then [] else [StuckEvent(k)] + StuckEvents(k + 1)
  }

  lemma {:induction false} StuckRun(k: nat)
    requires k <= 7
    ensures IsRun(StuckState(k), StuckEvents(k)) && After(StuckState(k), StuckEvents(k)) == StuckState(7)
    decreases 7 - k
  {
    hide Step, Enabled, StuckState, StuckEvent;
    if k < 7 {
      match k {
        case 0 => StuckConnect();
        case 1 => StuckStart();
        case 2 => StuckRetryFails();
        case 5 => StuckResend();
        case 6 => StuckAnswerIgnored();
        case _ => StuckTimer(k);
      }
      StuckRun(k + 1);
      assert StuckEvents(k)[1..] == StuckEvents(k + 1);
    }
  }

  /** That compose failure really costs the answer: in this run the data comes
      back, is ignored, and the read stays tracked, unanswered, with nothing
      left that would ever retry it. */
  lemma ComposeFailureWedgesRead()
    ensures IsRun(INITIAL, StuckEvents(0))
    ensures var d := After(INITIAL, StuckEvents(0));
      Mine(d, 7, 0) && d.replies == [] && Tokens(d, 7, d.ix.msgs[0].surbID) == 0
  {
    StuckRun(0);
  }

  function CopyOf(surb: SurbID): ARQMessage
  {
    ARQMessage(CopyCommandType, 7, 40, surb, 0, false, WaitingForACK, false, false)
  }

  const COPY_PENDING: Daemon :=
    Daemon(Index(map[0 := CopyOf(1)], map[1 := 0], map[40 := 1]), multiset{1}, map[7 := []], multiset{}, [], {1}, 1)

  lemma CopyStarts()
    ensures Enabled(INITIAL, Connect(7)) && Enabled(Step(INITIAL, Connect(7)), Start(CopyOf(1), true))
    ensures Step(Step(INITIAL, Connect(7)), Start(CopyOf(1), true)) == COPY_PENDING
  {
  }

  lemma CopyAnsweredByEnvelope(e: Event)
    requires e == ReplyArrives(1, EnvelopeReply(0, 0, OtherFailure), true, 2, true)
    ensures Enabled(COPY_PENDING, e) && Step(COPY_PENDING, e) == COPY_PENDING.(timers := multiset{})
  {
    assert ReplyEffect(CopyOf(1), true, e.content, true) == Leave;
    hide ReplyEffect;
  }

  /** A copy command answered by an envelope reply while its timer is queued: it stays
      tracked and unanswered, and nothing is left that would ever poll again. */
  lemma WrongTypeWedgesCopy()
    ensures var events := [Connect(7), Start(CopyOf(1), true), ReplyArrives(1, EnvelopeReply(0, 0, OtherFailure), true, 2, true)];
            && IsRun(INITIAL, events)
            && var d := After(INITIAL, events);
               Mine(d, 7, 0) && d.replies == [] && Tokens(d, 7, d.ix.msgs[0].surbID) == 0
  {
    var e0, e1, e2 := Connect(7), Start(CopyOf(1), true), ReplyArrives(1, EnvelopeReply(0, 0, OtherFailure), true, 2, true);
    CopyStarts();
    CopyAnsweredByEnvelope(e2);
    assert [e0, e1, e2][1..] == [e1, e2] && [e1, e2][1..] == [e2] && [e2][1..] == [];
    hide Step, Enabled;
    assert IsRun(COPY_PENDING, [e2]) && After(COPY_PENDING, [e2]) == Step(COPY_PENDING, e2);
    assert IsRun(Step(INITIAL, e0), [e1, e2]) && After(Step(INITIAL, e0), [e1, e2]) == Step(COPY_PENDING, e2);
  }
}
