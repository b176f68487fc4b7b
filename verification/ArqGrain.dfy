/** The two models of the retransmission engine agree: a handler whose critical sections
    run one after the other, with nothing between them, does to the indexes what
    the machine of whole handlers says, and answers when it answers. */
module ArqGrain {
  import opened ArqIndex
  import M = ArqMachine
  import I = ArqInterleaved

  /** Both see the same indexes. */
  ghost predicate Agree(d: M.Daemon, e: I.Engine)
  {
    M.Inv(d) && e.ix == d.ix && e.nextOp == d.nextOp && e.ingress.Idle? && e.egress.Idle?
  }

  /** What a reply handler decides to do when the machine says this is the effect. */
  function ChoiceFor(m: ARQMessage, effect: M.Effect): I.Choice
  {
    match effect
    case Leave => I.Return
    case Forget => I.Drop(false)
    case Finish(_) => I.Drop(true)
    case Move(rotates, _) => if rotates then I.Rotate else if m.messageType == CopyCommandType then I.Poll else I.Reschedule
  }

  /** The engine after looking a message up, deciding and finishing. */
  function Handled(e: I.Engine, op: Op, choice: I.Choice, freshID: SurbID): I.Engine
    requires op in e.ix.msgs && e.ingress.Idle?
  {
    var decided := e.(ingress := I.Chosen(op, e.ix.msgs[op], choice));
    if choice.Return? then decided else I.FinishStep(decided, freshID, true)
  }

  lemma HandledIsARun(e: I.Engine, s: SurbID, choice: I.Choice, freshID: SurbID)
    requires e.ingress.Idle? && s in e.ix.surbs && e.ix.surbs[s] in e.ix.msgs && freshID !in e.used
    ensures var op := e.ix.surbs[s];
            && I.Enabled(e, I.Lookup(s))
            && var looked := I.Step(e, I.Lookup(s));
            && I.Enabled(looked, I.Decide(choice))
            && var decided := I.Step(looked, I.Decide(choice));
            && (choice.Return? ==> decided == Handled(e, op, choice, freshID))
            && (!choice.Return? ==> I.Enabled(decided, I.Finish(freshID, true))
                                    && I.Step(decided, I.Finish(freshID, true)) == Handled(e, op, choice, freshID))
  {
  }

  /** The index a message's state is the only difference in. */
  lemma EffectsAgree(ix: Index, e: I.Engine, d: M.Daemon, op: Op, effect: M.Effect, freshID: SurbID)
    requires Agree(d, e) && ix == d.ix && ix.Tracked(op)
    ensures var n := Handled(e, op, ChoiceFor(ix.msgs[op], effect), freshID);
            && op in n.ix.msgs
            && M.Apply(d, op, effect, freshID).ix == (if effect.Move? then SetState(n.ix, op, effect.state) else n.ix)
            && n.replies == (if effect.Finish? then e.replies + [op] else e.replies)
            && n.ingress.Idle?
  {
    hide M.Inv;
  }

  /** A reply handled without interruption is the machine's reply step. */
  lemma UninterruptedReplyIsTheStep(
    d: M.Daemon, e: I.Engine, s: SurbID, content: M.Content, queued: bool, freshID: SurbID, composed: bool)
    requires Agree(d, e) && s in d.ix.surbs
    ensures var op := d.ix.surbs[s]; op in d.ix.msgs && d.ix.Tracked(op)
    ensures var op := d.ix.surbs[s];
            var m := d.ix.msgs[op];
            var effect := M.ReplyEffect(m, m.appID in d.resend, content, composed);
            var n := Handled(e, op, ChoiceFor(m, effect), freshID);
            var after := M.ReplyStep(d, s, content, queued, freshID, composed);
            && op in n.ix.msgs
            && after.ix == (if effect.Move? then SetState(n.ix, op, effect.state) else n.ix)
            && (|after.replies| - |d.replies| == |n.replies| - |e.replies|)
  {
    assert d.ix.surbs[s] in d.ix.msgs && d.ix.msgs[d.ix.surbs[s]].surbID == s;
    var op := d.ix.surbs[s];
    var m := d.ix.msgs[op];
    var effect := M.ReplyEffect(m, m.appID in d.resend, content, composed);
    hide M.ReplyEffect;
    EffectsAgree(d.ix, e, d, op, effect, freshID);
    hide M.Inv, Handled, ChoiceFor;
  }

  lemma UninterruptedStartIsTheStep(d: M.Daemon, e: I.Engine, m: ARQMessage)
    requires Agree(d, e) && m.surbID !in e.used
    ensures I.Enabled(e, I.Start(m)) && I.Step(e, I.Start(m)).ix == M.StartStep(d, m, true).ix
  {
    hide M.Inv;
  }

  lemma SameStateTwice(ix: Index, op: Op, freshID: SurbID)
    requires op in ix.msgs
    ensures SetState(Rotate(ix, op, freshID), op, ix.msgs[op].state) == Rotate(ix, op, freshID)
    ensures SetState(Reregister(ix, op, freshID), op, ix.msgs[op].state) == Reregister(ix, op, freshID)
  {
  }

  /** What the machine's resend does to the index. */
  lemma ResendIndex(d: M.Daemon, s: SurbID, freshID: SurbID, composed: bool)
    requires s in d.ix.surbs && d.ix.surbs[s] in d.ix.msgs
    ensures var op := d.ix.surbs[s];
            M.ResendStep(d, s, freshID, composed).ix
            == if d.ix.msgs[op].appID !in d.resend then Drop(d.ix, op)
               else if composed then Rotate(d.ix, op, freshID) else Reregister(d.ix, op, freshID)
  {
    SameStateTwice(d.ix, d.ix.surbs[s], freshID);
    hide Rotate, Reregister, Drop;
  }

  /** So is a resend: composed, failed and rescheduled, or without its client. */
  lemma UninterruptedResendIsTheStep(d: M.Daemon, e: I.Engine, s: SurbID, freshID: SurbID)
    requires Agree(d, e) && s in d.ix.surbs && freshID !in e.used
    ensures d.ix.surbs[s] in d.ix.msgs && I.Enabled(e, I.ResendFails(s))
    ensures var m := d.ix.msgs[d.ix.surbs[s]];
            var failed := I.Step(e, I.ResendFails(s));
            if m.appID in d.resend
            then && I.Step(e, I.ResendComposed(s, freshID)).ix == M.ResendStep(d, s, freshID, true).ix
                 && I.Enabled(failed, I.FinishResend(freshID))
                 && I.Step(failed, I.FinishResend(freshID)).ix == M.ResendStep(d, s, freshID, false).ix
            else I.Step(e, I.ResendDisconnected(s)).ix == M.ResendStep(d, s, freshID, true).ix
  {
    assert d.ix.surbs[s] in d.ix.msgs;
    ResendIndex(d, s, freshID, true);
    ResendIndex(d, s, freshID, false);
    hide M.Inv, M.ResendStep, Rotate, Reregister, Drop;
  }

  lemma UninterruptedCancelIsTheStep(d: M.Daemon, e: I.Engine, app: AppID, h: Hash, queued: bool)
    requires Agree(d, e) && app in d.resend
    ensures I.Step(e, I.Cancel(h)).ix == M.CancelStep(d, app, h, queued).ix
    ensures |I.Step(e, I.Cancel(h)).replies| - |e.replies| == |M.CancelStep(d, app, h, queued).replies| - |d.replies|
  {
  }

  lemma UninterruptedCleanupIsTheStep(d: M.Daemon, e: I.Engine, app: AppID, queued: set<SurbID>)
    requires Agree(d, e)
    ensures I.Step(e, I.Cleanup(app)).ix == M.CleanupStep(d, app, queued).ix
  {
    hide M.Inv;
  }
}
