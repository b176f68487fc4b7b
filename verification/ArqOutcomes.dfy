/** What the steps of the retransmission engine do to the messages they are about, that
    they touch no other, and that no operation of a connected client disappears
    unanswered. */
module ArqOutcomes {
  import opened ArqIndex
  import opened ArqMachine

  // ----------------------------------------------------- what each step is about

  /** The message an event acts on. */
  predicate Addresses(d: Daemon, e: Event, op: Op)
  {
    match e
    case Resend(s, _, _) => s in d.ix.surbs && d.ix.surbs[s] == op
    case ReplyArrives(s, _, _, _, _) => s in d.ix.surbs && d.ix.surbs[s] == op
    case Cancel(app, h, _) => app in d.resend && h in d.ix.hashes && d.ix.hashes[h] in d.ix.surbs
                              && d.ix.surbs[d.ix.hashes[h]] == op
    case Cleanup(app, _) => d.ix.Tracked(op) && d.ix.msgs[op].appID == app
    case _ => false
  }

  /** Nothing about a message is changed: what it says, whether it is tracked, where
      its hash leads, and how many timer entries it has. */
  ghost predicate Untouched(d: Daemon, n: Daemon, op: Op)
  {
    && op in d.ix.msgs && op in n.ix.msgs && n.ix.msgs[op] == d.ix.msgs[op]
    && (n.ix.Tracked(op) <==> d.ix.Tracked(op))
    && (d.ix.Tracked(op) ==>
          && d.ix.msgs[op].envelopeHash in d.ix.hashes && d.ix.msgs[op].envelopeHash in n.ix.hashes
          && n.ix.hashes[d.ix.msgs[op].envelopeHash] == d.ix.hashes[d.ix.msgs[op].envelopeHash]
          && n.timers[d.ix.msgs[op].surbID] == d.timers[d.ix.msgs[op].surbID])
  }

  lemma ApplyLeavesOthers(d: Daemon, op: Op, effect: Effect, freshID: SurbID, other: Op)
    requires Inv(d) && d.ix.Tracked(op) && freshID !in d.used && other in d.ix.msgs && other != op
    ensures Untouched(d, Apply(d, op, effect, freshID), other)
  {
    hide AnsweredOnce;
  }

  lemma StartLeavesOthers(d: Daemon, m: ARQMessage, composed: bool, other: Op)
    requires Inv(d) && Enabled(d, Start(m, composed)) && other in d.ix.msgs
    ensures Untouched(d, StartStep(d, m, composed), other)
  {
    assert d.nextOp !in d.ix.msgs;
    hide AnsweredOnce;
  }

  lemma CancelLeavesOthers(d: Daemon, app: AppID, h: Hash, queued: bool, other: Op)
    requires Inv(d) && other in d.ix.msgs && !Addresses(d, Cancel(app, h, queued), other)
    ensures Untouched(d, CancelStep(d, app, h, queued), other)
  {
    hide AnsweredOnce;
  }

  /** A cleanup takes from the indexes exactly what belongs to its client. */
  lemma CleanupIsExact(ix: Index, app: AppID)
    requires Inverse(ix)
    ensures var n := CleanupApp(ix, app);
            && n.msgs == ix.msgs
            && (forall s :: s in n.surbs <==> s in ix.surbs && ix.msgs[ix.surbs[s]].appID != app)
            && (forall s :: s in n.surbs ==> n.surbs[s] == ix.surbs[s])
            && (forall h :: h in n.hashes <==> h in ix.hashes && ix.msgs[ix.surbs[ix.hashes[h]]].appID != app)
            && (forall h :: h in n.hashes ==> n.hashes[h] == ix.hashes[h])
  {
    var gone := OwnedBy(ix, app);
    forall h | h in ix.hashes
      ensures h in HashesOf(ix, gone) <==> ix.msgs[ix.surbs[ix.hashes[h]]].appID == app
    {
      var s := ix.hashes[h];
      assert s in gone <==> ix.msgs[ix.surbs[s]].appID == app;
      if h in HashesOf(ix, gone) {
        var t :| t in gone && ix.msgs[ix.surbs[t]].envelopeHash == h;
        assert t == s;
      }
    }
  }

  /** Its own messages are forgotten and their timers stopped, except those the timer
      queue had not taken in yet. */
  lemma CleanupStopsTimersIff(d: Daemon, app: AppID, queued: set<SurbID>, op: Op)
    requires Inv(d) && d.ix.Tracked(op) && d.ix.msgs[op].appID == app
    ensures var after := CleanupStep(d, app, queued); var s := d.ix.msgs[op].surbID;
            && !after.ix.Tracked(op) && after.replies == d.replies
            && (s in after.timers <==> s in d.timers && s !in queued)
  {
    CleanupIsExact(d.ix, app);
    assert d.ix.msgs[op].surbID in OwnedBy(d.ix, app);
    hide AnsweredOnce, CleanupApp;
  }

  /** So other clients' messages, hashes and timers stay as they are. */
  lemma CleanupLeavesOthers(d: Daemon, app: AppID, queued: set<SurbID>, other: Op)
    requires Inv(d) && other in d.ix.msgs && d.ix.msgs[other].appID != app
    ensures Untouched(d, CleanupStep(d, app, queued), other)
  {
    CleanupIsExact(d.ix, app);
    assert d.ix.Tracked(other) ==> d.ix.msgs[other].surbID !in OwnedBy(d.ix, app);
    hide AnsweredOnce, CleanupApp, HashesOf;
  }

  lemma UntrackedByCleanup(d: Daemon, app: AppID, queued: set<SurbID>, other: Op)
    requires Inv(d) && other in d.ix.msgs && !d.ix.Tracked(other)
    ensures Untouched(d, CleanupStep(d, app, queued), other)
  {
    CleanupIsExact(d.ix, app);
    hide AnsweredOnce, CleanupApp, HashesOf, OwnedBy;
  }

  lemma ResendLeavesOthers(d: Daemon, s: SurbID, freshID: SurbID, composed: bool, op: Op)
    requires Inv(d) && freshID !in d.used && op in d.ix.msgs && !(s in d.ix.surbs && d.ix.surbs[s] == op)
    ensures Untouched(d, ResendStep(d, s, freshID, composed), op)
  {
    if s in d.ix.surbs {
      var m := d.ix.msgs[d.ix.surbs[s]];
      var run := d.(egress := d.egress - multiset{s});
      InvWithoutEgress(d, s);
      assert Untouched(d, run, op) by { hide AnsweredOnce; }
      ApplyLeavesOthers(run, d.ix.surbs[s], if m.appID in d.resend then Move(composed, m.state) else Forget, freshID, op);
    }
    hide Apply, IdsUsed, AnsweredOnce;
  }

  lemma QueuesLeaveMessages(d: Daemon, e: Event, op: Op)
    requires Inv(d) && Enabled(d, e) && op in d.ix.msgs
    requires e.TimerFires? || e.SchedulerPicks? || e.Connect? || e.Disconnect?
    requires e.TimerFires? ==> e.surb != d.ix.msgs[op].surbID
    ensures Untouched(d, Step(d, e), op)
  {
    hide AnsweredOnce;
  }

  /** Every step leaves every message it is not about untouched. Only a timer that
      fires takes a timer entry, its own. */
  lemma StepTouchesNoOther(d: Daemon, e: Event, op: Op)
    requires Inv(d) && Enabled(d, e) && op in d.ix.msgs && !Addresses(d, e, op)
    requires e.TimerFires? ==> e.surb != d.ix.msgs[op].surbID
    ensures Untouched(d, Step(d, e), op)
  {
    hide Inv, Untouched, StartStep, ResendStep, ReplyStep, CancelStep, CleanupStep, TimerStep, PickStep;
    match e {
      case Start(m, composed) => StartLeavesOthers(d, m, composed, op);
      case Resend(s, freshID, composed) => ResendLeavesOthers(d, s, freshID, composed, op);
      case ReplyArrives(_, _, _, _, _) => ReplyLeavesOthers(d, e, op);
      case Cancel(app, h, queued) => CancelLeavesOthers(d, app, h, queued, op);
      case Cleanup(app, queued) =>
        if d.ix.Tracked(op) {
          CleanupLeavesOthers(d, app, queued, op);
        } else {
          UntrackedByCleanup(d, app, queued, op);
        }
      case _ => QueuesLeaveMessages(d, e, op);
    }
  }

  lemma InvWithoutEgress(d: Daemon, s: SurbID)
    requires Inv(d)
    ensures Inv(d.(egress := d.egress - multiset{s}))
  {
    hide Inverse;
  }

  lemma InvWithoutTimer(d: Daemon, s: SurbID, queued: bool)
    requires Inv(d)
    ensures Inv(d.(timers := CancelTimer(d.timers, s, queued)))
  {
    hide Inverse;
  }

  lemma ReplyLeavesOthers(d: Daemon, e: Event, op: Op)
    requires Inv(d) && Enabled(d, e) && e.ReplyArrives? && op in d.ix.msgs && !Addresses(d, e, op)
    ensures Untouched(d, Step(d, e), op)
  {
    if e.surb in d.ix.surbs {
      var answered := d.ix.surbs[e.surb];
      var m := d.ix.msgs[answered];
      var acked := d.(timers := CancelTimer(d.timers, m.surbID, e.queued));
      InvWithoutTimer(d, m.surbID, e.queued);
      assert Untouched(d, acked, op) by { hide AnsweredOnce; }
      ApplyLeavesOthers(acked, answered, ReplyEffect(m, m.appID in d.resend, e.content, e.composed), e.freshID, op);
    }
    hide Apply, ReplyEffect, Inverse, IdsUsed, AnsweredOnce;
  }

  // ------------------------------------------------------ what each step does

  /** A started operation is tracked, armed and unanswered, or answered and unknown. */
  lemma StartTracks(d: Daemon, m: ARQMessage, composed: bool)
    requires Inv(d) && Enabled(d, Start(m, composed))
    ensures var n := StartStep(d, m, composed);
            if composed
            then n.ix.Tracked(d.nextOp) && n.ix.msgs[d.nextOp] == m && n.ix.hashes[m.envelopeHash] == m.surbID
                 && n.timers[m.surbID] == 1 && n.replies == d.replies
            else n.ix == d.ix && n.timers == d.timers && n.replies == d.replies + [Reply(d.nextOp, InternalError)]
  {
    assert d.timers[m.surbID] == 0;
    hide AnsweredOnce;
  }

  /** A timer that fires hands its message over to the owner's channel, at its end, as
      long as there is room; a full channel leaves the entry where it was. */
  lemma TimerHandsOver(d: Daemon, op: Op)
    requires Inv(d) && d.ix.Tracked(op) && d.ix.msgs[op].appID in d.resend && d.ix.msgs[op].surbID in d.timers
    ensures var m := d.ix.msgs[op]; var n := TimerStep(d, m.surbID);
            if |d.resend[m.appID]| < 8
            then n.timers[m.surbID] == 0 && n.resend == d.resend[m.appID := d.resend[m.appID] + [m.surbID]]
                 && n.ix == d.ix && n.egress == d.egress && n.replies == d.replies
            else n == d
  {
    assert d.timers[d.ix.msgs[op].surbID] == 1;
    hide AnsweredOnce;
  }

  /** A pick hands the oldest entry of the channel to the egress worker. */
  lemma PickHandsOver(d: Daemon, app: AppID)
    requires app in d.resend && d.resend[app] != []
    ensures var n := PickStep(d, app); var s := d.resend[app][0];
            && app in n.resend && d.resend[app] == [s] + n.resend[app] && n.resend - {app} == d.resend - {app}
            && n.egress == d.egress + multiset{s} && n.ix == d.ix && n.timers == d.timers && n.replies == d.replies
  {
  }

  /** The message sits under the new SURB ID with one timer entry for it. */
  ghost predicate MovedTo(d: Daemon, n: Daemon, op: Op, freshID: SurbID, state: ARQState, sent: bool)
  {
    && op in d.ix.msgs && op in n.ix.msgs
    && n.ix.msgs[op] == d.ix.msgs[op].(surbID := freshID, state := state,
         retransmissions := if sent then d.ix.msgs[op].retransmissions + 1 else d.ix.msgs[op].retransmissions)
    && n.ix.Tracked(op) && d.ix.msgs[op].surbID !in n.ix.surbs
    && d.ix.msgs[op].envelopeHash in n.ix.hashes && n.ix.hashes[d.ix.msgs[op].envelopeHash] == freshID
    && n.timers[freshID] == 1 && n.replies == d.replies
  }

  lemma MoveMoves(d: Daemon, op: Op, rotates: bool, state: ARQState, freshID: SurbID)
    requires Inv(d) && d.ix.Tracked(op) && freshID !in d.used
    ensures MovedTo(d, Apply(d, op, Move(rotates, state), freshID), op, freshID, state, rotates)
  {
    assert d.timers[freshID] == 0;
    hide AnsweredOnce;
  }

  /** A resend of a connected client's message moves it to a new SURB ID in the same
      state, counted as a retransmission exactly when a packet was composed. */
  lemma ResendRearms(d: Daemon, op: Op, freshID: SurbID, composed: bool)
    requires Inv(d) && d.ix.Tracked(op) && d.ix.msgs[op].appID in d.resend && freshID !in d.used
    ensures var m := d.ix.msgs[op];
            MovedTo(d, ResendStep(d, m.surbID, freshID, composed), op, freshID, m.state, composed)
  {
    var m := d.ix.msgs[op];
    var run := d.(egress := d.egress - multiset{m.surbID});
    InvWithoutEgress(d, m.surbID);
    MoveMoves(run, op, composed, m.state, freshID);
    hide Apply, Inv;
  }

  /** A cancel by a connected client untracks the operation of that hash and answers it
      as cancelled; without such an operation, or from a client that is gone, it
      changes nothing. */
  lemma CancelAnswers(d: Daemon, app: AppID, h: Hash, queued: bool)
    requires Inv(d)
    ensures var n := CancelStep(d, app, h, queued);
            && (app !in d.resend || h !in d.ix.hashes ==> n == d)
            && (app in d.resend && h in d.ix.hashes ==>
                  var op := d.ix.surbs[d.ix.hashes[h]];
                  && d.ix.msgs[op].envelopeHash == h && h !in n.ix.hashes && !n.ix.Tracked(op)
                  && n.replies == d.replies + [Reply(op, Cancelled)]
                  && (queued ==> n.timers[d.ix.msgs[op].surbID] == 0))
  {
    if h in d.ix.hashes {
      assert d.timers[d.ix.hashes[h]] <= 1;
    }
    hide AnsweredOnce;
  }

  /** The event is a reply to this operation, whose client is connected. */
  predicate RepliesTo(d: Daemon, e: Event, op: Op)
  {
    e.ReplyArrives? && d.ix.Tracked(op) && e.surb == d.ix.msgs[op].surbID && d.ix.msgs[op].appID in d.resend
  }

  lemma MovingReplyMoves(d: Daemon, e: Event, op: Op, rotates: bool, state: ARQState)
    requires Inv(d) && Enabled(d, e) && RepliesTo(d, e, op)
    requires ReplyEffect(d.ix.msgs[op], true, e.content, e.composed) == Move(rotates, state)
    ensures MovedTo(d, Step(d, e), op, e.freshID, state, rotates)
    ensures Tokens(Step(d, e), d.ix.msgs[op].appID, e.freshID) == 1
  {
    var m := d.ix.msgs[op];
    var acked := d.(timers := CancelTimer(d.timers, m.surbID, e.queued));
    InvWithoutTimer(d, m.surbID, e.queued);
    MoveMoves(acked, op, rotates, state, e.freshID);
    FreshElsewhere(d, m.appID, e.freshID);
    hide ReplyEffect, Inv;
  }

  /** An ACK to an operation whose answer has still to be fetched keeps it: tracked under
      the new SURB ID in ACKReceived, unanswered, and with exactly one token. */
  lemma AckKeepsOperation(d: Daemon, e: Event, op: Op)
    requires Inv(d) && Enabled(d, e) && RepliesTo(d, e, op) && AcknowledgesOnly(d.ix.msgs[op], e.content)
    ensures MovedTo(d, Step(d, e), op, e.freshID, ACKReceived, e.composed)
    ensures Tokens(Step(d, e), d.ix.msgs[op].appID, e.freshID) == 1
  {
    ReplyMovesIff(d.ix.msgs[op], e.content, e.composed);
    hide *;
    MovingReplyMoves(d, e, op, e.composed, ACKReceived);
  }

  /** So does BoxIDNotFound to a read that waits for its box, which starts over. */
  lemma NotFoundAsksAgain(d: Daemon, e: Event, op: Op)
    requires Inv(d) && Enabled(d, e) && RepliesTo(d, e, op) && AsksAgain(d.ix.msgs[op], e.content) && e.composed
    ensures MovedTo(d, Step(d, e), op, e.freshID, WaitingForACK, true)
    ensures Tokens(Step(d, e), d.ix.msgs[op].appID, e.freshID) == 1
  {
    ReplyMovesIff(d.ix.msgs[op], e.content, e.composed);
    hide *;
    MovingReplyMoves(d, e, op, true, WaitingForACK);
  }

  /** And a copy command that is in progress is polled again, in its state. */
  lemma InProgressPollsAgain(d: Daemon, e: Event, op: Op)
    requires Inv(d) && Enabled(d, e) && RepliesTo(d, e, op)
    requires d.ix.msgs[op].messageType == CopyCommandType && e.content == CopyReply(InProgress)
    ensures MovedTo(d, Step(d, e), op, e.freshID, d.ix.msgs[op].state, false)
    ensures Tokens(Step(d, e), d.ix.msgs[op].appID, e.freshID) == 1
  {
    ReplyMovesIff(d.ix.msgs[op], e.content, e.composed);
    hide *;
    MovingReplyMoves(d, e, op, false, d.ix.msgs[op].state);
  }

  /** A reply that ends its operation takes it out of both indexes and gives the one
      answer; one that leaves or forgets it answers nothing. */
  lemma EndingReplyAnswers(d: Daemon, e: Event, op: Op)
    requires Inv(d) && Enabled(d, e) && RepliesTo(d, e, op)
    ensures var m := d.ix.msgs[op]; var effect := ReplyEffect(m, true, e.content, e.composed); var n := Step(d, e);
            && (effect.Finish? || effect.Forget? ==> !n.ix.Tracked(op) && m.envelopeHash !in n.ix.hashes)
            && (effect.Leave? ==> n.ix == d.ix)
            && n.replies == if effect.Finish? then d.replies + [Reply(op, effect.answer)] else d.replies
  {
    hide ReplyEffect, IdsUsed, AnsweredOnce;
  }

  lemma FreshElsewhere(d: Daemon, app: AppID, freshID: SurbID)
    requires Inv(d) && freshID !in d.used
    ensures d.egress[freshID] == 0 && (app in d.resend ==> multiset(d.resend[app])[freshID] == 0)
  {
    assert app in d.resend ==> freshID !in d.resend[app];
  }

  // ------------------------------------------------- no operation disappears

  /** The event is a reply to this operation that the daemon cannot make sense of. */
  predicate GarbledReply(d: Daemon, e: Event, op: Op)
  {
    e.ReplyArrives? && op in d.ix.msgs && Addresses(d, e, op) && Garbled(d.ix.msgs[op], e.content)
  }

  /** The step's last reply is one to this operation. */
  predicate JustAnswered(d: Daemon, n: Daemon, op: Op)
  {
    |n.replies| == |d.replies| + 1 && n.replies[..|d.replies|] == d.replies && n.replies[|d.replies|].op == op
  }

  lemma ApplyEnds(d: Daemon, op: Op, effect: Effect, freshID: SurbID)
    requires Inv(d) && d.ix.Tracked(op) && freshID !in d.used
    ensures effect.Leave? || effect.Move? ==> Apply(d, op, effect, freshID).ix.Tracked(op)
    ensures effect.Finish? ==> JustAnswered(d, Apply(d, op, effect, freshID), op)
    ensures Apply(d, op, effect, freshID).ix.msgs.Keys == d.ix.msgs.Keys
    ensures Apply(d, op, effect, freshID).ix.msgs[op].appID == d.ix.msgs[op].appID
  {
    hide AnsweredOnce, IdsUsed;
  }

  lemma ReplyEndsByAnswering(d: Daemon, e: Event, app: AppID, op: Op)
    requires Inv(d) && Enabled(d, e) && app in d.resend && Mine(d, app, op)
    requires e.ReplyArrives? && Addresses(d, e, op) && !GarbledReply(d, e, op)
    ensures Mine(Step(d, e), app, op) || JustAnswered(d, Step(d, e), op)
  {
    var m := d.ix.msgs[op];
    var acked := d.(timers := CancelTimer(d.timers, m.surbID, e.queued));
    InvWithoutTimer(d, m.surbID, e.queued);
    ReplyForgetsIff(m, e.content, e.composed);
    ApplyEnds(acked, op, ReplyEffect(m, true, e.content, e.composed), e.freshID);
    assert d.ix.msgs[op].surbID == e.surb;
    hide ReplyEffect, Apply, Inv, Garbled;
  }

  /** While its client stays connected and cleaned up after by nobody, an operation is
      tracked until the step that answers it, unless a garbled reply ends it. */
  lemma StepEndsByAnswering(d: Daemon, e: Event, app: AppID, op: Op)
    requires Inv(d) && Enabled(d, e) && app in d.resend && Mine(d, app, op)
    requires !(e.Cleanup? && e.app == app) && !GarbledReply(d, e, op)
    ensures Mine(Step(d, e), app, op) || JustAnswered(d, Step(d, e), op)
  {
    if !Addresses(d, e, op) {
      if e.TimerFires? {
        assert Step(d, e).ix == d.ix;
      } else {
        StepTouchesNoOther(d, e, op);
      }
      hide Inv, Step;
    } else if e.Resend? {
      assert e.surb == d.ix.msgs[op].surbID;
      ResendRearms(d, op, e.freshID, e.composed);
      hide Inv, ResendStep;
    } else if e.Cancel? {
      CancelAnswers(d, e.app, e.hash, e.queued);
      hide Inv, CancelStep;
    } else if e.ReplyArrives? {
      ReplyEndsByAnswering(d, e, app, op);
    }
  }

  predicate Answered(d: Daemon, op: Op)
  {
    exists i :: 0 <= i < |d.replies| && d.replies[i].op == op
  }

  lemma AnsweredStays(d: Daemon, e: Event, op: Op)
    requires Enabled(d, e)
    ensures d.replies <= Step(d, e).replies
    ensures Answered(d, op) ==> Answered(Step(d, e), op)
  {
    RepliesGrow(d, e);
    hide Step;
    if Answered(d, op) {
      var i :| 0 <= i < |d.replies| && d.replies[i].op == op;
      assert Step(d, e).replies[i] == d.replies[i];
    }
  }

  lemma RepliesGrow(d: Daemon, e: Event)
    requires Enabled(d, e)
    ensures d.replies <= Step(d, e).replies
  {
  }

  /** No cleanup or disconnect of the client, and no garbled reply to the operation. */
  predicate Undisturbed(d: Daemon, events: seq<Event>, app: AppID, op: Op)
    requires IsRun(d, events)
    decreases |events|
  {
    events == [] ||
    (!(events[0].Cleanup? && events[0].app == app) && events[0] != Disconnect(app) && !GarbledReply(d, events[0], op)
     && Undisturbed(Step(d, events[0]), events[1..], app, op))
  }

  lemma {:induction false} AnsweredToTheEnd(d: Daemon, events: seq<Event>, op: Op)
    requires IsRun(d, events) && Answered(d, op)
    ensures Answered(After(d, events), op)
    decreases |events|
  {
    if events != [] {
      AnsweredStays(d, events[0], op);
      hide Step, Enabled, Answered;
      AnsweredToTheEnd(Step(d, events[0]), events[1..], op);
    }
  }

  /** Over every run in which the client stays and no reply to it is garbled, an
      operation is at the end still tracked or has been answered, and, as no
      answered operation is tracked, exactly one of the two. */
  lemma {:induction false} NoOperationDisappears(d: Daemon, events: seq<Event>, app: AppID, op: Op)
    requires Inv(d) && app in d.resend && Mine(d, app, op) && IsRun(d, events) && Undisturbed(d, events, app, op)
    ensures Mine(After(d, events), app, op) || Answered(After(d, events), op)
    ensures !(Mine(After(d, events), app, op) && Answered(After(d, events), op))
    decreases |events|
  {
    RunKeepsInv(d, events);
    if events != [] {
      var next := Step(d, events[0]);
      StepEndsByAnswering(d, events[0], app, op);
      StepKeepsInv(d, events[0]);
      StepKeepsConnection(d, events[0], app);
      if Mine(next, app, op) {
        hide Inv, Step, Enabled;
        NoOperationDisappears(next, events[1..], app, op);
      } else {
        assert next.replies[|d.replies|].op == op;
        assert Answered(next, op);
        hide Step, Enabled;
        AnsweredToTheEnd(next, events[1..], op);
      }
    }
  }
}
