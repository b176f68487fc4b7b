/** The same engine at the grain of replyLock: a handler looks a message up in
    one critical section, works on it without the lock, and changes the indexes
    in another. The ingress worker runs replies, the egress worker runs starts
    and resends, and cancellations and cleanups run on the readers of the thin
    clients, so at most two handlers are in flight beside any number of those.

    A message's ARQ state is not part of this model: no index depends on it. */
module ArqInterleaved {
  import opened ArqIndex

  /** What a worker is in the middle of. */
  datatype Handler =
    | Idle
    | Looked(op: Op)
    | Dropping(op: Op, answers: bool)
    | Rotating(op: Op, oldSurbID: SurbID)
    | Polling(op: Op)
    | Rescheduling(op: Op)
  {
    predicate Holds(o: Op) { !Idle? && op == o }
  }

  /** replies lists the operations answered so far, oldest first. */
  datatype Engine = Engine(ix: Index, ingress: Handler, egress: Handler, replies: seq<Op>, used: set<SurbID>, nextOp: Op)
  {
    /** A message some index or some handler can still act on. */
    predicate Alive(op: Op) { ix.Tracked(op) || ingress.Holds(op) || egress.Holds(op) }
  }

  const INITIAL: Engine := Engine(Index(map[], map[], map[]), Idle, Idle, [], {}, 0)

  /** What a reply handler decides to do while it holds no lock. */
  datatype Choice = Return | Drop(answers: bool) | Rotate | Poll | Reschedule

  datatype Event =
    | Start(message: ARQMessage)
    | Lookup(surb: SurbID)
    | Decide(choice: Choice)
    | Finish(freshID: SurbID, connected: bool)
    | ResendComposed(surb: SurbID, freshID: SurbID)
    | ResendFails(surb: SurbID)
    | ResendDisconnected(surb: SurbID)
    | FinishResend(freshID: SurbID)
    | Cancel(hash: Hash)
    | Cleanup(app: AppID)

  function Chosen(op: Op, m: ARQMessage, choice: Choice): Handler
  {
    match choice
    case Return => Idle
    case Drop(answers) => Dropping(op, answers)
    case Rotate => Rotating(op, m.surbID)
    case Poll => Polling(op)
    case Reschedule => Rescheduling(op)
  }

  /** The second critical section of a reply handler. Rotation and polling first
      check that the message is still tracked; dropping and rescheduling do not. */
  function FinishStep(e: Engine, freshID: SurbID, connected: bool): Engine
    requires e.ingress.Idle? || e.ingress.op in e.ix.msgs
  {
    var done := e.(ingress := Idle);
    match e.ingress
    case Idle | Looked(_) => e
    case Dropping(op, answers) =>
      done.(ix := ArqIndex.Drop(e.ix, op), replies := if answers then e.replies + [op] else e.replies)
    case Rotating(op, captured) =>
      if captured in e.ix.surbs && e.ix.surbs[captured] == op && connected
      then done.(ix := ArqIndex.Rotate(e.ix, op, freshID), used := e.used + {freshID})
      else done
    case Polling(op) =>
      if e.ix.Tracked(op) then done.(ix := Reregister(e.ix, op, freshID), used := e.used + {freshID}) else done
    case Rescheduling(op) => done.(ix := Reregister(e.ix, op, freshID), used := e.used + {freshID})
  }

  function CancelStep(e: Engine, h: Hash): Engine
  {
    if h !in e.ix.hashes then e else
      var s := e.ix.hashes[h];
      e.(ix := CancelHash(e.ix, h),
         replies := if s in e.ix.surbs then e.replies + [e.ix.surbs[s]] else e.replies)
  }

  function Step(e: Engine, event: Event): Engine
    requires Enabled(e, event)
  {
    match event
    case Start(m) =>
      e.(ix := Register(e.ix, e.nextOp, m), used := e.used + {m.surbID}, nextOp := e.nextOp + 1)
    case Lookup(s) => if s in e.ix.surbs then e.(ingress := Looked(e.ix.surbs[s])) else e
    case Decide(choice) => e.(ingress := Chosen(e.ingress.op, e.ix.msgs[e.ingress.op], choice))
    case Finish(freshID, connected) => FinishStep(e, freshID, connected)
    case ResendComposed(s, freshID) =>
      if s in e.ix.surbs && e.ix.surbs[s] in e.ix.msgs
      then e.(ix := ArqIndex.Rotate(e.ix, e.ix.surbs[s], freshID), used := e.used + {freshID})
      else e
    case ResendFails(s) => if s in e.ix.surbs then e.(egress := Rescheduling(e.ix.surbs[s])) else e
    case ResendDisconnected(s) =>
      if s in e.ix.surbs && e.ix.surbs[s] in e.ix.msgs then e.(ix := ArqIndex.Drop(e.ix, e.ix.surbs[s])) else e
    case FinishResend(freshID) =>
      e.(ix := Reregister(e.ix, e.egress.op, freshID), egress := Idle, used := e.used + {freshID})
    case Cancel(h) => CancelStep(e, h)
    case Cleanup(app) => e.(ix := CleanupApp(e.ix, app))
  }

  /** What the code lets happen: a worker does one thing at a time and random SURB
      IDs do not repeat. arqSend itself does not look whether the hash is in use. */
  predicate Enabled(e: Engine, event: Event)
  {
    match event
    case Start(m) => e.egress.Idle? && m.surbID !in e.used
    case Lookup(_) => e.ingress.Idle?
    case Decide(_) => e.ingress.Looked? && e.ingress.op in e.ix.msgs
    case Finish(freshID, _) =>
      !e.ingress.Idle? && !e.ingress.Looked? && e.ingress.op in e.ix.msgs && freshID !in e.used
    case ResendComposed(_, freshID) => e.egress.Idle? && freshID !in e.used
    case ResendFails(_) => e.egress.Idle?
    case ResendDisconnected(_) => e.egress.Idle?
    case FinishResend(freshID) => e.egress.Rescheduling? && e.egress.op in e.ix.msgs && freshID !in e.used
    case _ => true
  }

  predicate IsRun(e: Engine, events: seq<Event>)
    decreases |events|
  {
    events == [] || (Enabled(e, events[0]) && IsRun(Step(e, events[0]), events[1..]))
  }

  function After(e: Engine, events: seq<Event>): Engine
    requires IsRun(e, events)
    decreases |events|
  {
    if events == [] then e else After(Step(e, events[0]), events[1..])
  }

  // ----------------------------------------------- what every run keeps for free

  /** A message sits only under its own SURB ID, and a hash never leads to a message
      of another hash. */
  ghost predicate Filed(ix: Index)
  {
    && (forall s :: s in ix.surbs ==> ix.surbs[s] in ix.msgs && ix.msgs[ix.surbs[s]].surbID == s)
    && (forall h :: h in ix.hashes && ix.hashes[h] in ix.surbs ==> ix.msgs[ix.surbs[ix.hashes[h]]].envelopeHash == h)
  }

  /** All SURB IDs were drawn, and no two messages ever share one. */
  ghost predicate Drawn(e: Engine)
  {
    && e.ix.surbs.Keys <= e.used
    && (forall h :: h in e.ix.hashes ==> e.ix.hashes[h] in e.used)
    && (forall op :: op in e.ix.msgs ==> op < e.nextOp && e.ix.msgs[op].surbID in e.used)
    && (forall a, b :: a in e.ix.msgs && b in e.ix.msgs && e.ix.msgs[a].surbID == e.ix.msgs[b].surbID ==> a == b)
  }

  ghost predicate Sane(e: Engine)
  {
    && (e.ingress.Idle? || e.ingress.op in e.ix.msgs)
    && (e.egress.Idle? || (e.egress.Rescheduling? && e.egress.op in e.ix.msgs))
    && Filed(e.ix) && Drawn(e)
  }

  lemma SectionsStayFiled(e: Engine, op: Op, freshID: SurbID)
    requires Filed(e.ix) && Drawn(e) && op in e.ix.msgs && freshID !in e.used
    ensures Filed(ArqIndex.Drop(e.ix, op))
    ensures Filed(ArqIndex.Rotate(e.ix, op, freshID))
    ensures Filed(Reregister(e.ix, op, freshID))
  {
  }

  lemma FinishStaysFiled(e: Engine, freshID: SurbID, connected: bool)
    requires Sane(e) && Enabled(e, Finish(freshID, connected))
    ensures Filed(FinishStep(e, freshID, connected).ix)
  {
    SectionsStayFiled(e, e.ingress.op, freshID);
    hide Filed, Drawn;
  }

  lemma FinishStaysDrawn(e: Engine, freshID: SurbID, connected: bool)
    requires Sane(e) && Enabled(e, Finish(freshID, connected))
    ensures Drawn(FinishStep(e, freshID, connected))
  {
    hide Filed;
  }

  lemma StepStaysFiled(e: Engine, event: Event)
    requires Sane(e) && Enabled(e, event)
    ensures Filed(Step(e, event).ix)
  {
    match event {
      case Finish(freshID, connected) => FinishStaysFiled(e, freshID, connected);
      case ResendComposed(s, freshID) => if s in e.ix.surbs { SectionsStayFiled(e, e.ix.surbs[s], freshID); }
      case FinishResend(freshID) => SectionsStayFiled(e, e.egress.op, freshID);
      case _ => hide FinishStep;
    }
  }

  lemma StepStaysDrawn(e: Engine, event: Event)
    requires Sane(e) && Enabled(e, event)
    ensures Drawn(Step(e, event))
  {
    if event.Finish? {
      FinishStaysDrawn(e, event.freshID, event.connected);
    }
    hide FinishStep;
  }

  lemma StepKeepsSane(e: Engine, event: Event)
    requires Sane(e) && Enabled(e, event)
    ensures Sane(Step(e, event))
  {
    StepStaysFiled(e, event);
    StepStaysDrawn(e, event);
    hide Drawn;
  }

  lemma {:induction false} SaneOverEveryRun(e: Engine, events: seq<Event>)
    requires Sane(e) && IsRun(e, events)
    ensures Sane(After(e, events))
    decreases |events|
  {
    if events != [] {
      StepKeepsSane(e, events[0]);
      hide Sane, Step;
      SaneOverEveryRun(Step(e, events[0]), events[1..]);
    }
  }

  // ------------------------------------------- when the indexes stay inverse

  /** The two indexes agree about one hash. */
  ghost predicate InverseAt(ix: Index, h: Hash)
  {
    && (forall s :: s in ix.surbs && ix.surbs[s] in ix.msgs && ix.msgs[ix.surbs[s]].envelopeHash == h ==>
          h in ix.hashes && ix.hashes[h] == s)
    && (h in ix.hashes ==> ix.hashes[h] in ix.surbs)
  }

  lemma InverseByHash(ix: Index)
    requires Filed(ix)
    ensures Inverse(ix) <==> forall h :: InverseAt(ix, h)
  {
    if forall h :: InverseAt(ix, h) {
      forall s | s in ix.surbs
        ensures ix.msgs[ix.surbs[s]].envelopeHash in ix.hashes && ix.hashes[ix.msgs[ix.surbs[s]].envelopeHash] == s
      {
        assert InverseAt(ix, ix.msgs[ix.surbs[s]].envelopeHash);
      }
      forall h | h in ix.hashes
        ensures ix.hashes[h] in ix.surbs
      {
        assert InverseAt(ix, h);
      }
    }
  }

  /** The hash leads to another message than this one. */
  predicate LeadsElsewhere(ix: Index, op: Op)
  {
    op in ix.msgs && ix.msgs[op].envelopeHash in ix.hashes && ix.hashes[ix.msgs[op].envelopeHash] != ix.msgs[op].surbID
  }

  /** The steps that overwrite or delete another message's hash entry: a start of a
      hash that is in use, and a drop or a reschedule of a message whose hash has
      meanwhile been given to another. */
  predicate Clobbers(e: Engine, event: Event, h: Hash)
  {
    match event
    case Start(m) => m.envelopeHash == h && h in e.ix.hashes
    case Finish(_, _) =>
      && (e.ingress.Dropping? || e.ingress.Rescheduling?)
      && LeadsElsewhere(e.ix, e.ingress.op) && e.ix.msgs[e.ingress.op].envelopeHash == h
    case FinishResend(_) =>
      e.egress.Rescheduling? && LeadsElsewhere(e.ix, e.egress.op) && e.ix.msgs[e.egress.op].envelopeHash == h
    case _ => false
  }

  lemma RegisterAt(e: Engine, m: ARQMessage, h: Hash)
    requires Sane(e) && InverseAt(e.ix, h) && m.surbID !in e.used
    ensures InverseAt(Register(e.ix, e.nextOp, m), h) <==> !(m.envelopeHash == h && h in e.ix.hashes)
  {
    var n := Register(e.ix, e.nextOp, m);
    assert e.nextOp !in e.ix.msgs;
    if m.envelopeHash == h && h in e.ix.hashes {
      var s := e.ix.hashes[h];
      assert s != m.surbID && s in n.surbs && n.msgs[n.surbs[s]].envelopeHash == h;
    }
  }

  lemma DropAt(e: Engine, op: Op, h: Hash)
    requires Sane(e) && InverseAt(e.ix, h) && op in e.ix.msgs
    ensures InverseAt(ArqIndex.Drop(e.ix, op), h) <==> !(e.ix.msgs[op].envelopeHash == h && LeadsElsewhere(e.ix, op))
  {
    var n := ArqIndex.Drop(e.ix, op);
    if e.ix.msgs[op].envelopeHash == h && LeadsElsewhere(e.ix, op) {
      var s := e.ix.hashes[h];
      assert s in n.surbs && n.msgs[n.surbs[s]].envelopeHash == h && h !in n.hashes;
    }
  }

  lemma ReregisterAt(e: Engine, op: Op, freshID: SurbID, h: Hash)
    requires Sane(e) && InverseAt(e.ix, h) && op in e.ix.msgs && freshID !in e.used
    ensures InverseAt(Reregister(e.ix, op, freshID), h) <==> !(e.ix.msgs[op].envelopeHash == h && LeadsElsewhere(e.ix, op))
  {
    var n := Reregister(e.ix, op, freshID);
    if e.ix.msgs[op].envelopeHash == h && LeadsElsewhere(e.ix, op) {
      var s := e.ix.hashes[h];
      assert s != freshID && s in n.surbs && n.msgs[n.surbs[s]].envelopeHash == h && n.hashes[h] == freshID;
    }
  }

  lemma RotateAt(e: Engine, op: Op, freshID: SurbID, h: Hash)
    requires Sane(e) && InverseAt(e.ix, h) && e.ix.Tracked(op) && freshID !in e.used
    ensures InverseAt(ArqIndex.Rotate(e.ix, op, freshID), h)
    ensures e.ix.msgs[op].envelopeHash == h ==> !LeadsElsewhere(e.ix, op)
  {
  }

  lemma CancelAt(e: Engine, cancelled: Hash, h: Hash)
    requires Sane(e) && InverseAt(e.ix, h)
    ensures InverseAt(CancelHash(e.ix, cancelled), h)
  {
  }

  lemma CleanupAt(e: Engine, app: AppID, h: Hash)
    requires Sane(e) && InverseAt(e.ix, h)
    ensures InverseAt(CleanupApp(e.ix, app), h)
  {
    var n := CleanupApp(e.ix, app);
    if h in e.ix.hashes {
      assert e.ix.hashes[h] in e.ix.surbs;
    }
  }

  /** A cleanup takes exactly its client's messages out of the index, and with them
      exactly their hashes wherever the indexes agree. */
  lemma CleanupTakesOnlyItsOwn(e: Engine, app: AppID)
    requires Sane(e)
    ensures var n := Step(e, Cleanup(app));
            && n == e.(ix := n.ix) && n.ix.msgs == e.ix.msgs
            && (forall s :: s in n.ix.surbs <==> s in e.ix.surbs && e.ix.msgs[e.ix.surbs[s]].appID != app)
            && (forall s :: s in n.ix.surbs ==> n.ix.surbs[s] == e.ix.surbs[s])
            && (forall h :: InverseAt(e.ix, h) ==>
                  (h in n.ix.hashes <==> h in e.ix.hashes && e.ix.msgs[e.ix.surbs[e.ix.hashes[h]]].appID != app))
            && (forall h :: h in n.ix.hashes ==> h in e.ix.hashes && n.ix.hashes[h] == e.ix.hashes[h])
  {
    var gone := OwnedBy(e.ix, app);
    forall h | InverseAt(e.ix, h) && h in e.ix.hashes
      ensures h in HashesOf(e.ix, gone) <==> e.ix.msgs[e.ix.surbs[e.ix.hashes[h]]].appID == app
    {
      var s := e.ix.hashes[h];
      assert s in gone <==> e.ix.msgs[e.ix.surbs[s]].appID == app;
      if h in HashesOf(e.ix, gone) {
        var t :| t in gone && e.ix.msgs[e.ix.surbs[t]].envelopeHash == h;
        assert t == s;
      }
    }
    hide Drawn;
  }

  lemma FinishAt(e: Engine, freshID: SurbID, connected: bool, h: Hash)
    requires Sane(e) && InverseAt(e.ix, h) && Enabled(e, Finish(freshID, connected))
    ensures InverseAt(FinishStep(e, freshID, connected).ix, h) <==> !Clobbers(e, Finish(freshID, connected), h)
  {
    var op := e.ingress.op;
    hide InverseAt, Filed, Drawn, LeadsElsewhere;
    match e.ingress {
      case Dropping(_, _) => DropAt(e, op, h);
      case Rescheduling(_) => ReregisterAt(e, op, freshID, h);
      case Polling(_) =>
        ReregisterAt(e, op, freshID, h);
        if e.ix.Tracked(op) { RotateAt(e, op, freshID, h); }
      case Rotating(_, captured) =>
        if captured in e.ix.surbs && e.ix.surbs[captured] == op && connected {
          LookedUpIsTracked(e, captured);
          RotateAt(e, op, freshID, h);
        }
    }
  }

  lemma LookedUpIsTracked(e: Engine, s: SurbID)
    requires Sane(e) && s in e.ix.surbs
    ensures e.ix.Tracked(e.ix.surbs[s])
  {
  }

  /** Exactly when a step breaks the agreement about a hash. */
  lemma InverseAtKeptIff(e: Engine, event: Event, h: Hash)
    requires Sane(e) && InverseAt(e.ix, h) && Enabled(e, event)
    ensures InverseAt(Step(e, event).ix, h) <==> !Clobbers(e, event, h)
  {
    hide InverseAt, Filed, Drawn, LeadsElsewhere, FinishStep;
    match event {
      case Start(m) => RegisterAt(e, m, h);
      case Finish(freshID, connected) => FinishAt(e, freshID, connected, h);
      case ResendComposed(s, freshID) =>
        if s in e.ix.surbs {
          LookedUpIsTracked(e, s);
          RotateAt(e, e.ix.surbs[s], freshID, h);
        }
      case ResendDisconnected(s) =>
        if s in e.ix.surbs {
          TrackedLeadsHere(e, s, h);
          DropAt(e, e.ix.surbs[s], h);
        }
      case FinishResend(freshID) => ReregisterAt(e, e.egress.op, freshID, h);
      case Cancel(cancelled) => CancelAt(e, cancelled, h);
      case Cleanup(app) => CleanupAt(e, app, h);
      case _ =>
    }
  }

  lemma TrackedLeadsHere(e: Engine, s: SurbID, h: Hash)
    requires Sane(e) && InverseAt(e.ix, h) && s in e.ix.surbs
    ensures e.ix.surbs[s] in e.ix.msgs
    ensures e.ix.msgs[e.ix.surbs[s]].envelopeHash == h ==> !LeadsElsewhere(e.ix, e.ix.surbs[s])
  {
  }

  /** A step leaves the two indexes exact inverses of each other exactly when it does
      not clobber the entry of any hash. */
  lemma InverseKeptIff(e: Engine, event: Event)
    requires Sane(e) && Inverse(e.ix) && Enabled(e, event)
    ensures Inverse(Step(e, event).ix) <==> forall h :: !Clobbers(e, event, h)
  {
    InverseByHash(e.ix);
    StepKeepsSane(e, event);
    InverseByHash(Step(e, event).ix);
    forall h
      ensures InverseAt(Step(e, event).ix, h) <==> !Clobbers(e, event, h)
    {
      InverseAtKeptIff(e, event, h);
    }
    hide Step, Inverse, InverseAt, Clobbers;
  }

  ghost predicate InverseThroughout(e: Engine, events: seq<Event>)
    requires IsRun(e, events)
    decreases |events|
  {
    Inverse(e.ix) && (events != [] ==> InverseThroughout(Step(e, events[0]), events[1..]))
  }

  ghost predicate NeverClobbers(e: Engine, events: seq<Event>)
    requires IsRun(e, events)
    decreases |events|
  {
    events == [] || ((forall h :: !Clobbers(e, events[0], h)) && NeverClobbers(Step(e, events[0]), events[1..]))
  }

  /** In every interleaving, with any compose failures, cancels and restarts, the two
      indexes are inverse after every step exactly when no step clobbers. */
  lemma {:induction false} IndexesInverseIff(e: Engine, events: seq<Event>)
    requires Sane(e) && Inverse(e.ix) && IsRun(e, events)
    ensures InverseThroughout(e, events) <==> NeverClobbers(e, events)
    decreases |events|
  {
    if events != [] {
      var next := Step(e, events[0]);
      InverseKeptIff(e, events[0]);
      StepKeepsSane(e, events[0]);
      hide Sane, Step, Inverse, Clobbers;
      if Inverse(next.ix) {
        IndexesInverseIff(next, events[1..]);
      }
    }
  }

  /** What a thin client can see to: no hash is started twice. */
  ghost predicate StartsDistinct(events: seq<Event>)
  {
    forall i, j :: 0 <= i < j < |events| && events[i].Start? && events[j].Start? ==>
      events[i].message.envelopeHash != events[j].message.envelopeHash
  }

  /** No message so far has the hash of a later start, nor that of another message. */
  ghost predicate HashesApart(e: Engine, events: seq<Event>)
  {
    && (forall a, b :: a in e.ix.msgs && b in e.ix.msgs && a != b ==>
          e.ix.msgs[a].envelopeHash != e.ix.msgs[b].envelopeHash)
    && (forall op, k :: op in e.ix.msgs && 0 <= k < |events| && events[k].Start? ==>
          e.ix.msgs[op].envelopeHash != events[k].message.envelopeHash)
  }

  /** No step changes a message's hash, and only a start adds a message. */
  lemma StepKeepsHashes(e: Engine, event: Event, op: Op)
    requires Sane(e) && Enabled(e, event) && op in Step(e, event).ix.msgs
    ensures (event.Start? && op == e.nextOp && Step(e, event).ix.msgs[op] == event.message)
         || (op in e.ix.msgs && Step(e, event).ix.msgs[op].envelopeHash == e.ix.msgs[op].envelopeHash)
  {
    hide Filed, Drawn;
  }

  lemma StepKeepsHashesApart(e: Engine, events: seq<Event>)
    requires Sane(e) && events != [] && Enabled(e, events[0]) && StartsDistinct(events) && HashesApart(e, events)
    ensures HashesApart(Step(e, events[0]), events[1..])
  {
    var n := Step(e, events[0]);
    forall a, b | a in n.ix.msgs && b in n.ix.msgs && a != b
      ensures n.ix.msgs[a].envelopeHash != n.ix.msgs[b].envelopeHash
    {
      StepKeepsHashes(e, events[0], a);
      StepKeepsHashes(e, events[0], b);
      hide Step, Sane;
    }
    var rest := events[1..];
    forall op, k | op in n.ix.msgs && 0 <= k < |rest| && rest[k].Start?
      ensures n.ix.msgs[op].envelopeHash != rest[k].message.envelopeHash
    {
      StepKeepsHashes(e, events[0], op);
      assert rest[k] == events[k + 1];
      hide Step, Sane;
    }
    hide Step, Sane;
  }

  lemma ApartNeverClobbers(e: Engine, events: seq<Event>, h: Hash)
    requires Sane(e) && Inverse(e.ix) && events != [] && Enabled(e, events[0]) && HashesApart(e, events)
    ensures !Clobbers(e, events[0], h)
  {
    if h in e.ix.hashes {
      var op := e.ix.surbs[e.ix.hashes[h]];
      assert op in e.ix.msgs && e.ix.msgs[op].envelopeHash == h;
      assert events[0].Start? ==> e.ix.msgs[op].envelopeHash != events[0].message.envelopeHash;
    }
  }

  lemma {:induction false} ApartStaysInverse(e: Engine, events: seq<Event>)
    requires Sane(e) && Inverse(e.ix) && IsRun(e, events) && StartsDistinct(events) && HashesApart(e, events)
    ensures NeverClobbers(e, events)
    decreases |events|
  {
    if events != [] {
      forall h
        ensures !Clobbers(e, events[0], h)
      {
        ApartNeverClobbers(e, events, h);
      }
      InverseKeptIff(e, events[0]);
      StepKeepsSane(e, events[0]);
      StepKeepsHashesApart(e, events);
      assert StartsDistinct(events[1..]);
      hide Sane, Step, Inverse, Clobbers, HashesApart, StartsDistinct;
      ApartStaysInverse(Step(e, events[0]), events[1..]);
    }
  }

  /** Every interleaving from the start in which no hash is started twice keeps the two
      indexes inverse after every step. An envelope hash covers a fresh ephemeral key,
      so only the repetition of one and the same request can start a hash twice. */
  lemma IndexesInverseOverEveryInterleaving(events: seq<Event>)
    requires IsRun(INITIAL, events) && StartsDistinct(events)
    ensures InverseThroughout(INITIAL, events)
  {
    ApartStaysInverse(INITIAL, events);
    IndexesInverseIff(INITIAL, events);
  }

  /** A restart while the reply handler is dropping the cancelled operation: the
      handler then deletes the new operation's hash entry. The new operation
      stays tracked, and no cancel can find it. */
  lemma RestartOrphansOperation(m: ARQMessage, again: ARQMessage, unused: SurbID)
    requires again.envelopeHash == m.envelopeHash && again.surbID != m.surbID
    requires unused != m.surbID && unused != again.surbID
    ensures var h := m.envelopeHash;
            var events := [Start(m), Lookup(m.surbID), Decide(Drop(true)), Cancel(h)] + [Start(again), Finish(unused, true)];
            && IsRun(INITIAL, events)
            && var end := After(INITIAL, events);
               !Inverse(end.ix) && end.ix.Tracked(1) && end.ix.TracksHash(h) && h !in end.ix.hashes
  {
    var h := m.envelopeHash;
    var e1 := Step(INITIAL, Start(m));
    var e2 := Step(e1, Lookup(m.surbID));
    var e3 := Step(e2, Decide(Drop(true)));
    var e4 := Step(e3, Cancel(h));
    var e5 := Step(e4, Start(again));
    var end := Step(e5, Finish(unused, true));
    TwoSteps(e4, Start(again), Finish(unused, true));
    FourSteps(INITIAL, Start(m), Lookup(m.surbID), Decide(Drop(true)), Cancel(h), [Start(again), Finish(unused, true)]);
    assert end.ix.surbs[again.surbID] == 1 && end.ix.msgs[1] == again;
  }

  lemma TwoSteps(e: Engine, a: Event, b: Event)
    requires Enabled(e, a) && Enabled(Step(e, a), b)
    ensures IsRun(e, [a, b]) && After(e, [a, b]) == Step(Step(e, a), b)
  {
    hide Step, Enabled;
    assert [a, b][1..] == [b] && [b][1..] == [];
    assert IsRun(Step(e, a), [b]) && After(Step(e, a), [b]) == Step(Step(e, a), b);
  }

  /** Unfolds the first four steps of a run. */
  lemma FourSteps(e: Engine, a: Event, b: Event, c: Event, d: Event, rest: seq<Event>)
    requires Enabled(e, a) && Enabled(Step(e, a), b) && Enabled(Step(Step(e, a), b), c)
    requires Enabled(Step(Step(Step(e, a), b), c), d)
    requires IsRun(Step(Step(Step(Step(e, a), b), c), d), rest)
    ensures IsRun(e, [a, b, c, d] + rest)
    ensures After(e, [a, b, c, d] + rest) == After(Step(Step(Step(Step(e, a), b), c), d), rest)
  {
    hide Step, Enabled;
    assert ([a, b, c, d] + rest)[1..] == [b, c, d] + rest;
    assert ([b, c, d] + rest)[1..] == [c, d] + rest;
    assert ([c, d] + rest)[1..] == [d] + rest;
    assert ([d] + rest)[1..] == rest;
    var e1 := Step(e, a);
    var e2 := Step(e1, b);
    var e3 := Step(e2, c);
    assert IsRun(e3, [d] + rest) && After(e3, [d] + rest) == After(Step(e3, d), rest);
    assert IsRun(e2, [c, d] + rest) && After(e2, [c, d] + rest) == After(e3, [d] + rest);
    assert IsRun(e1, [b, c, d] + rest) && After(e1, [b, c, d] + rest) == After(e2, [c, d] + rest);
  }

  // ----------------------------------------------------- when cancel is final

  /** The event puts this message back into the indexes, whatever they say. */
  predicate Reschedules(e: Engine, event: Event, op: Op)
  {
    (event.Finish? && e.ingress == Rescheduling(op)) || (event.FinishResend? && e.egress == Rescheduling(op))
  }

  /** The steps that can bring a hash back: a start, and the second half of a
      handler that failed to compose a packet. */
  ghost predicate Revives(e: Engine, event: Event, h: Hash)
  {
    || (event.Start? && event.message.envelopeHash == h)
    || (exists op :: op in e.ix.msgs && Reschedules(e, event, op) && e.ix.msgs[op].envelopeHash == h)
  }

  lemma FinishReturnsHashIff(e: Engine, freshID: SurbID, connected: bool, h: Hash)
    requires Sane(e) && InverseAt(e.ix, h) && Enabled(e, Finish(freshID, connected)) && h !in e.ix.hashes
    ensures h in FinishStep(e, freshID, connected).ix.hashes
       <==> e.ingress.Rescheduling? && e.ix.msgs[e.ingress.op].envelopeHash == h
  {
  }

  lemma HashReturnsIff(e: Engine, event: Event, h: Hash)
    requires Sane(e) && InverseAt(e.ix, h) && Enabled(e, event) && h !in e.ix.hashes
    ensures h in Step(e, event).ix.hashes <==> Revives(e, event, h)
  {
    match event {
      case Finish(freshID, connected) =>
        FinishReturnsHashIff(e, freshID, connected, h);
        assert e.ingress.Rescheduling? ==> Reschedules(e, event, e.ingress.op);
        hide Filed, Drawn, InverseAt, FinishStep;
      case FinishResend(_) =>
        assert Reschedules(e, event, e.egress.op);
      case _ =>
    }
  }

  ghost predicate EverTracked(e: Engine, events: seq<Event>, h: Hash)
    requires IsRun(e, events)
    decreases |events|
  {
    h in e.ix.hashes || (events != [] && EverTracked(Step(e, events[0]), events[1..], h))
  }

  ghost predicate EverRevived(e: Engine, events: seq<Event>, h: Hash)
    requires IsRun(e, events)
    decreases |events|
  {
    events != [] && (Revives(e, events[0], h) || EverRevived(Step(e, events[0]), events[1..], h))
  }

  /** Once a hash has left the indexes, a run brings it back exactly when it contains
      a start of that hash or finishes a reschedule of it. */
  lemma {:induction false} CancelledHashReturnsIff(e: Engine, events: seq<Event>, h: Hash)
    requires Sane(e) && InverseAt(e.ix, h) && IsRun(e, events) && h !in e.ix.hashes
    ensures EverTracked(e, events, h) <==> EverRevived(e, events, h)
    ensures !EverRevived(e, events, h) ==>
      h !in After(e, events).ix.hashes && InverseAt(After(e, events).ix, h) && Filed(After(e, events).ix)
    decreases |events|
  {
    if events != [] {
      var next := Step(e, events[0]);
      HashReturnsIff(e, events[0], h);
      InverseAtKeptIff(e, events[0], h);
      StepKeepsSane(e, events[0]);
      hide InverseAt, Filed, Drawn, Step, Revives;
      if h !in next.ix.hashes {
        CancelledHashReturnsIff(next, events[1..], h);
      }
    }
  }

  /** No handler is rescheduling and none will. */
  ghost predicate ComposeWorks(e: Engine, events: seq<Event>)
  {
    && !e.ingress.Rescheduling? && !e.egress.Rescheduling?
    && (forall k :: 0 <= k < |events| ==> !events[k].ResendFails? && events[k] != Decide(Reschedule))
  }

  ghost predicate NeverStarts(events: seq<Event>, h: Hash)
  {
    forall k :: 0 <= k < |events| && events[k].Start? ==> events[k].message.envelopeHash != h
  }

  lemma {:induction false} NothingRevives(e: Engine, events: seq<Event>, h: Hash)
    requires IsRun(e, events) && ComposeWorks(e, events) && NeverStarts(events, h)
    ensures !EverRevived(e, events, h)
    decreases |events|
  {
    if events != [] {
      assert events[0] != Decide(Reschedule) && !events[0].ResendFails?;
      assert !Revives(e, events[0], h);
      NothingRevives(Step(e, events[0]), events[1..], h);
    }
  }

  /** Cancelling is final while composing works: whatever the handlers already in
      flight and all later ones do, and whatever happens to other hashes, this one
      stays out of both indexes until the thin client starts it again. */
  lemma CancelIsFinal(e: Engine, h: Hash, events: seq<Event>)
    requires Sane(e) && InverseAt(e.ix, h) && IsRun(Step(e, Cancel(h)), events)
    requires ComposeWorks(e, events) && NeverStarts(events, h)
    ensures !EverTracked(Step(e, Cancel(h)), events, h)
    ensures h !in After(Step(e, Cancel(h)), events).ix.hashes
    ensures !After(Step(e, Cancel(h)), events).ix.TracksHash(h)
  {
    var cancelled := Step(e, Cancel(h));
    StepKeepsSane(e, Cancel(h));
    CancelAt(e, h, h);
    NothingRevives(cancelled, events, h);
    CancelledHashReturnsIff(cancelled, events, h);
  }

  /** Not so when composing fails: the reply handler that is rescheduling puts the
      cancelled message back into both indexes. */
  lemma CancelUndoneByReschedule(m: ARQMessage, placeholder: SurbID)
    requires placeholder != m.surbID
    ensures var h := m.envelopeHash;
            var before := [Start(m), Lookup(m.surbID), Decide(Reschedule), Cancel(h)];
            && IsRun(INITIAL, before + []) && IsRun(INITIAL, before + [Finish(placeholder, true)])
            && h !in After(INITIAL, before + []).ix.hashes
            && h in After(INITIAL, before + [Finish(placeholder, true)]).ix.hashes
  {
    var h := m.envelopeHash;
    var e1 := Step(INITIAL, Start(m));
    var e2 := Step(e1, Lookup(m.surbID));
    var e3 := Step(e2, Decide(Reschedule));
    var e4 := Step(e3, Cancel(h));
    var e5 := Step(e4, Finish(placeholder, true));
    var last := [Finish(placeholder, true)];
    assert e4.ingress == Rescheduling(0) && h !in e4.ix.hashes && h in e5.ix.hashes;
    assert last[1..] == [];
    assert After(e4, last) == After(e5, last[1..]);
    FourSteps(INITIAL, Start(m), Lookup(m.surbID), Decide(Reschedule), Cancel(h), []);
    FourSteps(INITIAL, Start(m), Lookup(m.surbID), Decide(Reschedule), Cancel(h), last);
  }

  // ---------------------------------------------- when an answer is the only one

  ghost predicate Unique(replies: seq<Op>)
  {
    forall i, j :: 0 <= i < j < |replies| ==> replies[i] != replies[j]
  }

  /** The operation an event answers, if any. */
  predicate Answers(e: Engine, event: Event, op: Op)
  {
    match event
    case Cancel(h) => h in e.ix.hashes && e.ix.hashes[h] in e.ix.surbs && e.ix.surbs[e.ix.hashes[h]] == op
    case Finish(_, _) => e.ingress == Dropping(op, true)
    case _ => false
  }

  lemma AnswerAppends(e: Engine, event: Event)
    requires Sane(e) && Enabled(e, event)
    ensures (forall op :: !Answers(e, event, op)) ==> Step(e, event).replies == e.replies
    ensures forall op :: Answers(e, event, op) ==>
      op in e.ix.msgs && Step(e, event).replies == e.replies + [op] && !Step(e, event).ix.Tracked(op)
  {
    match event {
      case Cancel(h) =>
        if h in e.ix.hashes && e.ix.hashes[h] in e.ix.surbs {
          assert Answers(e, event, e.ix.surbs[e.ix.hashes[h]]);
        }
      case Finish(_, _) => assert e.ingress.Dropping? && e.ingress.answers ==> Answers(e, event, e.ingress.op);
      case _ =>
    }
    hide Drawn;
  }

  /** A message that is not tracked becomes tracked only by a reschedule. */
  lemma TrackedAgainIff(e: Engine, event: Event, op: Op)
    requires Sane(e) && Enabled(e, event) && op in e.ix.msgs && !e.ix.Tracked(op)
    ensures op in Step(e, event).ix.msgs
    ensures Step(e, event).ix.Tracked(op) <==> Reschedules(e, event, op)
  {
    if event.Finish? && op != e.ingress.op {
      SectionsTrackNoOther(e.ix, e.ingress.op, event.freshID, op);
    }
    hide Drawn;
  }

  /** The sections change nothing about any other message. */
  lemma SectionsTrackNoOther(ix: Index, op: Op, freshID: SurbID, other: Op)
    requires op in ix.msgs && other != op
    ensures ArqIndex.Drop(ix, op).Tracked(other) ==> ix.Tracked(other)
    ensures ArqIndex.Rotate(ix, op, freshID).Tracked(other) ==> ix.Tracked(other)
    ensures Reregister(ix, op, freshID).Tracked(other) ==> ix.Tracked(other)
  {
  }

  predicate AnsweredIn(e: Engine, events: seq<Event>, op: Op)
    requires IsRun(e, events)
    decreases |events|
  {
    events != [] && (Answers(e, events[0], op) || AnsweredIn(Step(e, events[0]), events[1..], op))
  }

  /** The reply handler now in flight holds the operation and finishes by answering it. */
  predicate HandlerAnswers(e: Engine, events: seq<Event>, op: Op)
    requires IsRun(e, events)
    decreases |events|
  {
    && events != [] && e.ingress.Holds(op)
    && (if events[0].Finish? then e.ingress == Dropping(op, true) else HandlerAnswers(Step(e, events[0]), events[1..], op))
  }

  /** A reschedule of the operation finishes, and the operation is answered after it. */
  predicate AnsweredAfterReschedule(e: Engine, events: seq<Event>, op: Op)
    requires IsRun(e, events)
    decreases |events|
  {
    && events != []
    && var next := Step(e, events[0]);
       if Reschedules(e, events[0], op) then AnsweredIn(next, events[1..], op)
       else AnsweredAfterReschedule(next, events[1..], op)
  }

  lemma {:induction false} BothAreAnswers(e: Engine, events: seq<Event>, op: Op)
    requires IsRun(e, events)
    ensures HandlerAnswers(e, events, op) || AnsweredAfterReschedule(e, events, op) ==> AnsweredIn(e, events, op)
    decreases |events|
  {
    if events != [] {
      hide Step, Enabled;
      BothAreAnswers(Step(e, events[0]), events[1..], op);
    }
  }

  /** A step that neither answers nor reschedules an untracked operation leaves the
      question to the same handler. */
  lemma SameHandler(e: Engine, events: seq<Event>, op: Op)
    requires Sane(e) && op in e.ix.msgs && !e.ix.Tracked(op) && events != [] && IsRun(e, events)
    requires !Answers(e, events[0], op)
    ensures HandlerAnswers(Step(e, events[0]), events[1..], op) ==> HandlerAnswers(e, events, op)
    ensures HandlerAnswers(e, events, op) ==> HandlerAnswers(Step(e, events[0]), events[1..], op)
  {
    hide Drawn, HandlerAnswers;
    var next := Step(e, events[0]);
    assert next.ingress.Holds(op) ==> e.ingress.Holds(op) && !events[0].Finish?;
    HandlerUnfolds(e, events, op);
    HandlerUnfolds(next, events[1..], op);
  }

  lemma HandlerUnfolds(e: Engine, events: seq<Event>, op: Op)
    requires IsRun(e, events)
    ensures HandlerAnswers(e, events, op) ==> events != [] && e.ingress.Holds(op)
    ensures events != [] && e.ingress.Holds(op) ==>
      (HandlerAnswers(e, events, op) <==>
       if events[0].Finish? then e.ingress == Dropping(op, true) else HandlerAnswers(Step(e, events[0]), events[1..], op))
  {
  }

  /** An operation that is out of the index is answered in a run exactly when the
      reply handler in flight finishes by answering it, or a reschedule puts it
      back and it is answered after that. */
  lemma {:induction false} AnsweredAgainIff(e: Engine, events: seq<Event>, op: Op)
    requires Sane(e) && op in e.ix.msgs && !e.ix.Tracked(op) && IsRun(e, events)
    ensures AnsweredIn(e, events, op) <==> HandlerAnswers(e, events, op) || AnsweredAfterReschedule(e, events, op)
    decreases |events|
  {
    BothAreAnswers(e, events, op);
    if events != [] {
      var next := Step(e, events[0]);
      TrackedAgainIff(e, events[0], op);
      StepKeepsSane(e, events[0]);
      if Answers(e, events[0], op) {
        OnlyHandlerAnswers(e, events[0], op);
      } else {
        SameHandler(e, events, op);
        hide Sane, Step, Enabled, Answers, Reschedules, HandlerAnswers;
        if !Reschedules(e, events[0], op) {
          AnsweredAgainIff(next, events[1..], op);
        }
      }
    }
  }

  lemma OnlyHandlerAnswers(e: Engine, event: Event, op: Op)
    requires Sane(e) && op in e.ix.msgs && !e.ix.Tracked(op) && Answers(e, event, op)
    ensures event.Finish? && e.ingress == Dropping(op, true)
  {
  }

  /** Some event answers an operation, and afterwards the handler still in flight
      answers it too, or a reschedule brings it back to be answered again. */
  ghost predicate AnswersTwice(e: Engine, events: seq<Event>)
    requires IsRun(e, events)
    decreases |events|
  {
    && events != []
    && var next := Step(e, events[0]);
       || (exists op :: Answers(e, events[0], op)
             && (HandlerAnswers(next, events[1..], op) || AnsweredAfterReschedule(next, events[1..], op)))
       || AnswersTwice(next, events[1..])
  }

  lemma UniqueSnoc(replies: seq<Op>, op: Op)
    ensures Unique(replies + [op]) <==> Unique(replies) && op !in replies
  {
    var longer := replies + [op];
    assert longer[|replies|] == op;
    if Unique(longer) {
      forall i | 0 <= i < |replies|
        ensures replies[i] != op
      {
        assert longer[i] == replies[i];
      }
      forall i, j | 0 <= i < j < |replies|
        ensures replies[i] != replies[j]
      {
        assert longer[i] == replies[i] && longer[j] == replies[j];
      }
    }
  }

  lemma {:induction false} UniqueOverRun(e: Engine, events: seq<Event>)
    requires Sane(e) && IsRun(e, events)
    ensures Unique(After(e, events).replies) <==>
      Unique(e.replies) && (forall op :: op in e.replies ==> !AnsweredIn(e, events, op)) && !AnswersTwice(e, events)
    decreases |events|
  {
    if events != [] {
      var event, rest := events[0], events[1..];
      var next := Step(e, event);
      StepKeepsSane(e, event);
      AnswerAppends(e, event);
      UniqueOverRun(next, rest);
      assert forall x :: AnsweredIn(e, events, x) <==> Answers(e, event, x) || AnsweredIn(next, rest, x);
      if op :| Answers(e, event, op) {
        assert op in next.ix.msgs by { StepKeepsOps(e, event, op); }
        AnsweredAgainIff(next, rest, op);
        UniqueSnoc(e.replies, op);
        OneAnswer(e, event, op);
        assert AnswersTwice(e, events) <==> AnsweredIn(next, rest, op) || AnswersTwice(next, rest);
        hide Sane, Step, Enabled, Answers, Unique, AnsweredIn, AnswersTwice;
        assert forall x :: x in next.replies <==> x in e.replies || x == op;
        assert (forall x :: x in e.replies ==> !AnsweredIn(e, events, x)) <==>
               op !in e.replies && (forall x :: x in e.replies ==> !AnsweredIn(next, rest, x));
        assert (forall x :: x in next.replies ==> !AnsweredIn(next, rest, x)) <==>
               !AnsweredIn(next, rest, op) && (forall x :: x in e.replies ==> !AnsweredIn(next, rest, x));
      } else {
        assert AnswersTwice(e, events) <==> AnswersTwice(next, rest);
        hide Sane, Step, Enabled, Answers, Unique, AnsweredIn, AnswersTwice;
        assert forall x :: AnsweredIn(e, events, x) <==> AnsweredIn(next, rest, x);
      }
    }
  }

  lemma StepKeepsOps(e: Engine, event: Event, op: Op)
    requires Sane(e) && Enabled(e, event) && op in e.ix.msgs
    ensures op in Step(e, event).ix.msgs
  {
    hide Filed, Drawn;
  }

  lemma OneAnswer(e: Engine, event: Event, op: Op)
    requires Answers(e, event, op)
    ensures forall other :: Answers(e, event, other) ==> other == op
  {
  }

  /** Over every run from the start, no operation is answered twice exactly when no
      answer is followed by one of those two outcomes. */
  lemma AnsweredOnceIff(events: seq<Event>)
    requires IsRun(INITIAL, events)
    ensures Unique(After(INITIAL, events).replies) <==> !AnswersTwice(INITIAL, events)
  {
    UniqueOverRun(INITIAL, events);
  }

  /** The first outcome: a cancel while the final reply is being handled answers the
      operation, and the handler answers it again. */
  lemma CancelDuringReplyAnswersTwice(m: ARQMessage, unused: SurbID)
    requires unused != m.surbID
    ensures var events := [Start(m), Lookup(m.surbID), Decide(Drop(true)), Cancel(m.envelopeHash)] + [Finish(unused, true)];
            IsRun(INITIAL, events) && After(INITIAL, events).replies == [0, 0]
  {
    var h := m.envelopeHash;
    var e1 := Step(INITIAL, Start(m));
    var e2 := Step(e1, Lookup(m.surbID));
    var e3 := Step(e2, Decide(Drop(true)));
    var e4 := Step(e3, Cancel(h));
    var last := [Finish(unused, true)];
    FourSteps(INITIAL, Start(m), Lookup(m.surbID), Decide(Drop(true)), Cancel(h), last);
    assert last[1..] == [];
    assert After(e4, last) == After(Step(e4, last[0]), last[1..]);
  }

  /** The second outcome: a resend that cannot be composed puts a cancelled operation
      back, and the thin client cancels it once more. */
  lemma CancelTwiceAnswersTwice(m: ARQMessage, placeholder: SurbID)
    requires placeholder != m.surbID
    ensures var h := m.envelopeHash;
            var events := [Start(m), ResendFails(m.surbID), Cancel(h), FinishResend(placeholder)] + [Cancel(h)];
            IsRun(INITIAL, events) && After(INITIAL, events).replies == [0, 0]
  {
    var h := m.envelopeHash;
    var e1 := Step(INITIAL, Start(m));
    var e2 := Step(e1, ResendFails(m.surbID));
    var e3 := Step(e2, Cancel(h));
    var e4 := Step(e3, FinishResend(placeholder));
    var last := [Cancel(h)];
    FourSteps(INITIAL, Start(m), ResendFails(m.surbID), Cancel(h), FinishResend(placeholder), last);
    assert last[1..] == [];
    assert After(e4, last) == After(Step(e4, last[0]), last[1..]);
  }

  // ------------------------------------------------- a condition on each answer

  /** An answer races when some other handler in flight still holds the operation. */
  ghost predicate Races(e: Engine, event: Event)
  {
    exists op :: Answers(e, event, op) && (e.egress.Holds(op) || (event.Cancel? && e.ingress.Holds(op)))
  }

  ghost predicate RaceFree(e: Engine, events: seq<Event>)
    requires IsRun(e, events)
    decreases |events|
  {
    events == [] || (!Races(e, events[0]) && RaceFree(Step(e, events[0]), events[1..]))
  }

  /** A message neither index nor handler holds stays that way. */
  lemma DeadStaysDead(e: Engine, event: Event, op: Op)
    requires Sane(e) && Enabled(e, event) && op in e.ix.msgs && !e.Alive(op)
    ensures op in Step(e, event).ix.msgs && !Step(e, event).Alive(op)
  {
    TrackedAgainIff(e, event, op);
    if event.Lookup? && event.surb in e.ix.surbs {
      LookedUpIsTracked(e, event.surb);
    }
    if event.ResendFails? && event.surb in e.ix.surbs {
      LookedUpIsTracked(e, event.surb);
    }
    hide Filed, Drawn, Index.Tracked;
  }

  lemma {:induction false} DeadIsNotAnswered(e: Engine, events: seq<Event>, op: Op)
    requires Sane(e) && IsRun(e, events) && op in e.ix.msgs && !e.Alive(op)
    ensures !AnsweredIn(e, events, op)
    decreases |events|
  {
    if events != [] {
      DeadStaysDead(e, events[0], op);
      StepKeepsSane(e, events[0]);
      assert !Answers(e, events[0], op);
      hide Sane, Step, Enabled;
      DeadIsNotAnswered(Step(e, events[0]), events[1..], op);
    }
  }

  /** An answer that does not race leaves its operation dead. */
  lemma RaceFreeAnswerKills(e: Engine, event: Event, op: Op)
    requires Sane(e) && Enabled(e, event) && Answers(e, event, op) && !Races(e, event)
    ensures op in Step(e, event).ix.msgs && !Step(e, event).Alive(op)
  {
    AnswerAppends(e, event);
    StepKeepsOps(e, event, op);
    hide Filed, Drawn, Index.Tracked;
  }

  lemma {:induction false} RaceFreeNeverTwice(e: Engine, events: seq<Event>)
    requires Sane(e) && IsRun(e, events) && RaceFree(e, events)
    ensures !AnswersTwice(e, events)
    decreases |events|
  {
    if events != [] {
      var next, rest := Step(e, events[0]), events[1..];
      StepKeepsSane(e, events[0]);
      RaceFreeNeverTwice(next, rest);
      forall op | Answers(e, events[0], op)
        ensures !HandlerAnswers(next, rest, op) && !AnsweredAfterReschedule(next, rest, op)
      {
        RaceFreeAnswerKills(e, events[0], op);
        DeadIsNotAnswered(next, rest, op);
        BothAreAnswers(next, rest, op);
      }
      hide Sane, Step, Enabled, Answers, HandlerAnswers, AnsweredAfterReschedule, Races;
    }
  }

  /** So it is enough that no answer is given while another handler in flight holds
      the operation. It is not necessary: that handler may yet return or abort. */
  lemma RaceFreeRunsAnswerOnce(events: seq<Event>)
    requires IsRun(INITIAL, events) && RaceFree(INITIAL, events)
    ensures Unique(After(INITIAL, events).replies)
  {
    RaceFreeNeverTwice(INITIAL, events);
    AnsweredOnceIff(events);
  }
}
