/** The per-box locks of replica/state.go under every interleaving of the
    goroutines that write and bury boxes. A lock object is shared through a table,
    counted, and removed from the table by its last user; a goroutine checks the
    box in one step and stores it in a later one.

    Time stands still here: a box's content is what the store would read in the
    current epoch, which LockedWriteIsTheStores makes precise. */
module BoxLocks {
  import opened Bytes
  import opened Options
  import opened BoxStore

  type Thread = nat
  type LockID = nat

  datatype Op = Write(content: Content) | Tombstone(signature: Signature)

  datatype Answer = Accepted | Rejected

  /** Between two steps: registered and waiting, holding the mutex, having looked
      the box up, having acted, having unlocked but still counted. */
  datatype Phase = Waiting | Holding | Checked(seen: Option<Content>) | Acted | Unlocked
  {
    predicate Holds() { Holding? || Checked? || Acted? }
  }

  datatype Goroutine = Goroutine(boxID: BoxID, op: Op, lock: LockID, phase: Phase)

  datatype Commit = Commit(boxID: BoxID, op: Op, answer: Answer)

  /** table is boxLocks; refCount and holder are the fields of the lock objects;
      log lists what took effect, in order. */
  datatype System = System(
    table: map<BoxID, LockID>,
    refCount: map<LockID, nat>,
    holder: map<LockID, Option<Thread>>,
    threads: map<Thread, Goroutine>,
    boxes: map<BoxID, Content>,
    log: seq<Commit>,
    nextLock: LockID)

  const INITIAL: System := System(map[], map[], map[], map[], map[], [], 0)

  datatype Event =
    | Acquire(t: Thread, boxID: BoxID, op: Op)
    | Lock(t: Thread)
    | Check(t: Thread)
    | Act(t: Thread)
    | Unlock(t: Thread)
    | Release(t: Thread)

  function Lookup(boxes: map<BoxID, Content>, boxID: BoxID): Option<Content>
  {
    if boxID in boxes then Some(boxes[boxID]) else None
  }

  // ------------------------------------------------------ one request by itself

  function AnswerTo(seen: Option<Content>, op: Op): Answer
  {
    if op.Tombstone? || seen.None? || seen.value == op.content then Accepted else Rejected
  }

  function Effect(boxes: map<BoxID, Content>, seen: Option<Content>, boxID: BoxID, op: Op): map<BoxID, Content>
  {
    match op
    case Tombstone(signature) => boxes[boxID := Content([], signature)]
    case Write(content) => if seen.None? then boxes[boxID := content] else boxes
  }

  // --------------------------------------------------------------------- steps

  predicate Enabled(s: System, e: Event)
  {
    match e
    case Acquire(t, _, _) => t !in s.threads
    case Lock(t) =>
      t in s.threads && s.threads[t].phase.Waiting? && s.threads[t].lock in s.holder && s.holder[s.threads[t].lock].None?
    case Check(t) => t in s.threads && s.threads[t].phase.Holding?
    case Act(t) => t in s.threads && s.threads[t].phase.Checked?
    case Unlock(t) => t in s.threads && s.threads[t].phase.Acted?
    case Release(t) =>
      t in s.threads && s.threads[t].phase.Unlocked? && s.threads[t].lock in s.refCount && s.refCount[s.threads[t].lock] > 0
  }

  function At(s: System, t: Thread, phase: Phase): map<Thread, Goroutine>
    requires t in s.threads
  {
    s.threads[t := s.threads[t].(phase := phase)]
  }

  function Join(s: System, t: Thread, boxID: BoxID, op: Op, l: LockID): System
    requires l in s.refCount
  {
    s.(refCount := s.refCount[l := s.refCount[l] + 1], threads := s.threads[t := Goroutine(boxID, op, l, Waiting)])
  }

  function Create(s: System, t: Thread, boxID: BoxID, op: Op): System
  {
    var l := s.nextLock;
    s.(table := s.table[boxID := l], refCount := s.refCount[l := 1], holder := s.holder[l := None],
       threads := s.threads[t := Goroutine(boxID, op, l, Waiting)], nextLock := l + 1)
  }

  /** acquireBoxLock up to bl.mu.Lock(), under locksMu. */
  function AcquireStep(s: System, t: Thread, boxID: BoxID, op: Op): System
  {
    if boxID in s.table && s.table[boxID] in s.refCount then Join(s, t, boxID, op, s.table[boxID])
    else Create(s, t, boxID, op)
  }

  /** The part of releaseBoxLock under locksMu. */
  function ReleaseStep(s: System, t: Thread): System
    requires Enabled(s, Release(t))
  {
    var g := s.threads[t];
    var count := s.refCount[g.lock] - 1;
    s.(refCount := s.refCount[g.lock := count], table := if count == 0 then s.table - {g.boxID} else s.table,
       threads := s.threads - {t})
  }

  /** Acts on what the goroutine saw, which is all it has. */
  function ActStep(s: System, t: Thread): System
    requires Enabled(s, Act(t))
  {
    var g := s.threads[t];
    s.(boxes := Effect(s.boxes, g.phase.seen, g.boxID, g.op), threads := At(s, t, Acted),
       log := s.log + [Commit(g.boxID, g.op, AnswerTo(g.phase.seen, g.op))])
  }

  function Step(s: System, e: Event): System
    requires Enabled(s, e)
  {
    match e
    case Acquire(t, boxID, op) => AcquireStep(s, t, boxID, op)
    case Lock(t) => s.(holder := s.holder[s.threads[t].lock := Some(t)], threads := At(s, t, Holding))
    case Check(t) => s.(threads := At(s, t, Checked(Lookup(s.boxes, s.threads[t].boxID))))
    case Act(t) => ActStep(s, t)
    case Unlock(t) => s.(holder := s.holder[s.threads[t].lock := None], threads := At(s, t, Unlocked))
    case Release(t) => ReleaseStep(s, t)
  }

  predicate IsRun(s: System, events: seq<Event>)
    decreases |events|
  {
    events == [] || (Enabled(s, events[0]) && IsRun(Step(s, events[0]), events[1..]))
  }

  function After(s: System, events: seq<Event>): System
    requires IsRun(s, events)
    decreases |events|
  {
    if events == [] then s else After(Step(s, events[0]), events[1..])
  }

  // ----------------------------------------------------------------- invariant

  function Users(threads: map<Thread, Goroutine>, l: LockID): set<Thread>
  {
    set t | t in threads && threads[t].lock == l
  }

  /** Every registered goroutine uses the lock the table names for its box, and no
      lock serves two boxes. */
  ghost predicate Shared(s: System)
  {
    && (forall t :: t in s.threads ==>
          s.threads[t].boxID in s.table && s.table[s.threads[t].boxID] == s.threads[t].lock)
    && (forall b, c :: b in s.table && c in s.table && s.table[b] == s.table[c] ==> b == c)
    && (forall b :: b in s.table ==> s.table[b] in s.refCount && s.table[b] in s.holder && s.table[b] < s.nextLock)
  }

  /** A lock in the table counts its users, and has some. */
  ghost predicate Counted(s: System)
  {
    forall b :: b in s.table ==> CountsAt(s, b)
  }

  /** A mutex is held by exactly the goroutine that is between Lock and Unlock. */
  ghost predicate Exclusive(s: System)
  {
    && (forall t :: t in s.threads ==> s.threads[t].lock in s.holder)
    && (forall t :: t in s.threads ==>
          (s.threads[t].phase.Holds() <==> s.holder[s.threads[t].lock] == Some(t)))
    && (forall l :: l in s.holder && s.holder[l].Some? ==>
          s.holder[l].value in s.threads && s.threads[s.holder[l].value].lock == l)
  }

  /** What a goroutine saw is still true when it acts. */
  ghost predicate Current(s: System)
  {
    forall t :: t in s.threads && s.threads[t].phase.Checked? ==>
      s.threads[t].phase.seen == Lookup(s.boxes, s.threads[t].boxID)
  }

  ghost predicate Inv(s: System)
  {
    Shared(s) && Counted(s) && Exclusive(s) && Current(s)
  }

  lemma UsersOf(threads: map<Thread, Goroutine>, t: Thread, g: Goroutine, l: LockID)
    ensures t !in threads ==> Users(threads[t := g], l) == if g.lock == l then Users(threads, l) + {t} else Users(threads, l)
    ensures t in threads && threads[t].lock == g.lock ==> Users(threads[t := g], l) == Users(threads, l)
    ensures Users(threads - {t}, l) == Users(threads, l) - {t}
    ensures t in Users(threads, l) <==> t in threads && threads[t].lock == l
  {
  }

  lemma JoinKeepsShared(s: System, t: Thread, boxID: BoxID, op: Op)
    requires Shared(s) && boxID in s.table
    ensures Shared(Join(s, t, boxID, op, s.table[boxID]))
  {
  }

  lemma CreateKeepsShared(s: System, t: Thread, boxID: BoxID, op: Op)
    requires Shared(s) && t !in s.threads && boxID !in s.table
    ensures Shared(Create(s, t, boxID, op))
  {
  }

  lemma AcquireKeepsShared(s: System, t: Thread, boxID: BoxID, op: Op)
    requires Shared(s) && t !in s.threads
    ensures Shared(AcquireStep(s, t, boxID, op))
  {
    hide Join, Create;
    if boxID in s.table {
      JoinKeepsShared(s, t, boxID, op);
    } else {
      CreateKeepsShared(s, t, boxID, op);
    }
  }

  ghost predicate CountsAt(s: System, b: BoxID)
    requires b in s.table
  {
    s.table[b] in s.refCount && s.refCount[s.table[b]] == |Users(s.threads, s.table[b])| > 0
  }

  lemma JoinCountsAt(s: System, t: Thread, boxID: BoxID, op: Op, b: BoxID)
    requires Shared(s) && t !in s.threads && boxID in s.table && b in s.table && CountsAt(s, b)
    ensures CountsAt(Join(s, t, boxID, op, s.table[boxID]), b)
  {
    UsersOf(s.threads, t, Goroutine(boxID, op, s.table[boxID], Waiting), s.table[b]);
    assert s.table[b] == s.table[boxID] <==> b == boxID;
    hide Users, Shared;
  }

  lemma CreateCountsAt(s: System, t: Thread, boxID: BoxID, op: Op, b: BoxID)
    requires Shared(s) && t !in s.threads && boxID !in s.table && (b == boxID || (b in s.table && CountsAt(s, b)))
    ensures CountsAt(Create(s, t, boxID, op), b)
  {
    var l := if b == boxID then s.nextLock else s.table[b];
    UsersOf(s.threads, t, Goroutine(boxID, op, s.nextLock, Waiting), l);
    assert Users(s.threads, s.nextLock) == {};
    assert b != boxID ==> s.table[b] < s.nextLock;
    hide Users, Shared;
  }

  lemma AcquireKeepsCounted(s: System, t: Thread, boxID: BoxID, op: Op)
    requires Shared(s) && Counted(s) && t !in s.threads
    ensures Counted(AcquireStep(s, t, boxID, op))
  {
    var n := AcquireStep(s, t, boxID, op);
    hide Users;
    forall b | b in n.table
      ensures CountsAt(n, b)
    {
      if boxID in s.table {
        JoinCountsAt(s, t, boxID, op, b);
      } else {
        CreateCountsAt(s, t, boxID, op, b);
      }
      hide Shared, Counted, CountsAt;
    }
  }

  lemma ReleaseKeepsShared(s: System, t: Thread)
    requires Shared(s) && Counted(s) && Enabled(s, Release(t))
    ensures Shared(ReleaseStep(s, t))
  {
    var n := ReleaseStep(s, t);
    var l := s.threads[t].lock;
    UsersOf(s.threads, t, s.threads[t], l);
    forall u | u in n.threads && n.threads[u].lock == l
      ensures n.refCount[l] > 0
    {
      UsersOf(s.threads, u, s.threads[u], l);
      TwoUsers(Users(s.threads, l), t, u);
    }
    hide Users, Counted;
  }

  lemma TwoUsers(users: set<Thread>, t: Thread, u: Thread)
    requires t in users && u in users && t != u
    ensures |users| >= 2
  {
    assert {t, u} <= users;
    assert users == {t, u} + (users - {t, u});
  }

  lemma ReleaseKeepsCounted(s: System, t: Thread)
    requires Shared(s) && Counted(s) && Enabled(s, Release(t))
    ensures Counted(ReleaseStep(s, t))
  {
    var n := ReleaseStep(s, t);
    forall b | b in n.table
      ensures CountsAt(n, b)
    {
      UsersOf(s.threads, t, s.threads[t], s.table[b]);
      hide Users;
    }
  }

  /** Steps that change neither the table nor the counts. */
  lemma PhaseKeepsCounted(s: System, n: System, t: Thread, phase: Phase)
    requires Counted(s) && t in s.threads && n.threads == At(s, t, phase)
    requires n.table == s.table && n.refCount == s.refCount
    ensures Counted(n)
  {
    forall b | b in n.table
      ensures CountsAt(n, b)
    {
      UsersOf(s.threads, t, n.threads[t], s.table[b]);
      assert CountsAt(s, b);
      hide Users;
    }
  }

  lemma PhaseKeepsShared(s: System, n: System, t: Thread, phase: Phase)
    requires Shared(s) && t in s.threads && n.threads == At(s, t, phase)
    requires n.table == s.table && n.refCount == s.refCount && n.nextLock == s.nextLock && s.holder.Keys <= n.holder.Keys
    ensures Shared(n)
  {
  }

  lemma StepKeepsCounted(s: System, e: Event)
    requires Shared(s) && Counted(s) && Enabled(s, e)
    ensures Shared(Step(s, e)) && Counted(Step(s, e))
  {
    hide Shared, Counted;
    match e {
      case Acquire(t, boxID, op) =>
        AcquireKeepsShared(s, t, boxID, op);
        AcquireKeepsCounted(s, t, boxID, op);
      case Release(t) =>
        ReleaseKeepsShared(s, t);
        ReleaseKeepsCounted(s, t);
      case _ =>
        PhaseKeepsShared(s, Step(s, e), e.t, Step(s, e).threads[e.t].phase);
        PhaseKeepsCounted(s, Step(s, e), e.t, Step(s, e).threads[e.t].phase);
    }
  }

  lemma AcquireKeepsExclusive(s: System, t: Thread, boxID: BoxID, op: Op)
    requires Shared(s) && Exclusive(s) && t !in s.threads
    ensures Exclusive(AcquireStep(s, t, boxID, op))
  {
    if boxID in s.table {
      JoinKeepsExclusive(s, t, boxID, op);
    } else {
      CreateKeepsExclusive(s, t, boxID, op);
    }
    hide Exclusive, Join, Create;
  }

  lemma JoinKeepsExclusive(s: System, t: Thread, boxID: BoxID, op: Op)
    requires Shared(s) && Exclusive(s) && t !in s.threads && boxID in s.table
    ensures Exclusive(Join(s, t, boxID, op, s.table[boxID]))
  {
  }

  lemma CreateKeepsExclusive(s: System, t: Thread, boxID: BoxID, op: Op)
    requires Shared(s) && Exclusive(s) && t !in s.threads
    ensures Exclusive(Create(s, t, boxID, op))
  {
    assert forall u :: u in s.threads ==> s.threads[u].lock < s.nextLock;
  }

  lemma LockKeepsExclusive(s: System, t: Thread)
    requires Exclusive(s) && Enabled(s, Lock(t))
    ensures Exclusive(Step(s, Lock(t)))
  {
  }

  lemma UnlockKeepsExclusive(s: System, t: Thread)
    requires Exclusive(s) && Enabled(s, Unlock(t))
    ensures Exclusive(Step(s, Unlock(t)))
  {
  }

  /** Steps of a goroutine that keep it on its side of the mutex. */
  lemma PhaseKeepsExclusive(s: System, n: System, t: Thread, phase: Phase)
    requires Exclusive(s) && t in s.threads && n.threads == At(s, t, phase) && n.holder == s.holder
    requires phase.Holds() && s.threads[t].phase.Holds()
    ensures Exclusive(n)
  {
  }

  lemma ReleaseKeepsExclusive(s: System, t: Thread)
    requires Exclusive(s) && Enabled(s, Release(t))
    ensures Exclusive(ReleaseStep(s, t))
  {
  }

  lemma StepKeepsExclusive(s: System, e: Event)
    requires Shared(s) && Exclusive(s) && Enabled(s, e)
    ensures Exclusive(Step(s, e))
  {
    hide Shared, Exclusive, AcquireStep;
    match e {
      case Acquire(t, boxID, op) => AcquireKeepsExclusive(s, t, boxID, op);
      case Lock(t) => LockKeepsExclusive(s, t);
      case Unlock(t) => UnlockKeepsExclusive(s, t);
      case Release(t) => ReleaseKeepsExclusive(s, t);
      case _ => PhaseKeepsExclusive(s, Step(s, e), e.t, Step(s, e).threads[e.t].phase);
    }
  }

  /** Two goroutines between Lock and Unlock on one box are the same goroutine. */
  lemma MutualExclusion(s: System, t: Thread, u: Thread)
    requires Inv(s) && t in s.threads && u in s.threads && s.threads[t].boxID == s.threads[u].boxID
    requires s.threads[t].phase.Holds() && s.threads[u].phase.Holds()
    ensures t == u
  {
  }

  lemma ActKeepsCurrent(s: System, t: Thread)
    requires Inv(s) && Enabled(s, Act(t))
    ensures Current(ActStep(s, t))
  {
    var n := ActStep(s, t);
    forall u | u in n.threads && n.threads[u].phase.Checked?
      ensures s.threads[u].boxID != s.threads[t].boxID
    {
      assert s.threads[u] == n.threads[u];
      if s.threads[u].boxID == s.threads[t].boxID {
        MutualExclusion(s, u, t);
      }
    }
    hide Shared, Counted, Exclusive;
  }

  lemma StepKeepsCurrent(s: System, e: Event)
    requires Inv(s) && Enabled(s, e)
    ensures Current(Step(s, e))
  {
    hide Shared, Counted, Exclusive;
    if e.Act? {
      ActKeepsCurrent(s, e.t);
    }
  }

  lemma {:induction false} RunKeepsInv(s: System, events: seq<Event>)
    requires Inv(s) && IsRun(s, events)
    ensures Inv(After(s, events))
    decreases |events|
  {
    if events != [] {
      StepKeepsCounted(s, events[0]);
      StepKeepsExclusive(s, events[0]);
      StepKeepsCurrent(s, events[0]);
      hide Shared, Counted, Exclusive, Current, Step;
      RunKeepsInv(Step(s, events[0]), events[1..]);
    }
  }

  /** After every run, no two goroutines are in one box's critical section. */
  lemma NoTwoWritersEver(events: seq<Event>, t: Thread, u: Thread)
    requires IsRun(INITIAL, events)
    requires var s := After(INITIAL, events);
      && t in s.threads && u in s.threads && s.threads[t].boxID == s.threads[u].boxID
      && s.threads[t].phase.Holds() && s.threads[u].phase.Holds()
    ensures t == u
  {
    RunKeepsInv(INITIAL, events);
    MutualExclusion(After(INITIAL, events), t, u);
  }

  /** The table holds the locks that are in use and no others; when the replica is
      idle it is empty. */
  lemma TableHoldsLocksInUse(events: seq<Event>, boxID: BoxID)
    requires IsRun(INITIAL, events)
    ensures var s := After(INITIAL, events);
            boxID in s.table <==> exists t :: t in s.threads && s.threads[t].boxID == boxID
  {
    RunKeepsInv(INITIAL, events);
    var s := After(INITIAL, events);
    if boxID in s.table {
      var users := Users(s.threads, s.table[boxID]);
      assert users != {};
      var t :| t in users;
      assert s.threads[t].boxID == boxID;
    }
  }

  // ------------------------------------------------------- the order of commits

  /** The requests of the log, one at a time, each on what the one before left. */
  function Replay(log: seq<Commit>): map<BoxID, Content>
    decreases |log|
  {
    if log == [] then map[] else
      var before := Replay(log[..|log| - 1]);
      var c := log[|log| - 1];
      Effect(before, Lookup(before, c.boxID), c.boxID, c.op)
  }

  /** Every answer in the log is the one a lone request would have got. */
  ghost predicate AnsweredInOrder(log: seq<Commit>)
  {
    forall k :: 0 <= k < |log| ==> log[k].answer == AnswerTo(Lookup(Replay(log[..k]), log[k].boxID), log[k].op)
  }

  lemma AppendCommit(log: seq<Commit>, c: Commit)
    requires AnsweredInOrder(log) && c.answer == AnswerTo(Lookup(Replay(log), c.boxID), c.op)
    ensures AnsweredInOrder(log + [c])
    ensures Replay(log + [c]) == Effect(Replay(log), Lookup(Replay(log), c.boxID), c.boxID, c.op)
  {
    var longer := log + [c];
    assert longer[..|log|] == log;
    forall k | 0 <= k < |longer|
      ensures longer[k].answer == AnswerTo(Lookup(Replay(longer[..k]), longer[k].boxID), longer[k].op)
    {
      if k < |log| {
        assert longer[..k] == log[..k] && longer[k] == log[k];
      }
      hide Replay, AnswerTo;
    }
  }

  lemma StepExtendsReplay(s: System, e: Event)
    requires Inv(s) && Enabled(s, e) && s.boxes == Replay(s.log) && AnsweredInOrder(s.log)
    ensures Step(s, e).boxes == Replay(Step(s, e).log) && AnsweredInOrder(Step(s, e).log)
  {
    hide Shared, Counted, Exclusive, Replay, AnsweredInOrder;
    if e.Act? {
      var g := s.threads[e.t];
      AppendCommit(s.log, Commit(g.boxID, g.op, AnswerTo(g.phase.seen, g.op)));
    }
  }

  lemma {:induction false} RunExtendsReplay(s: System, events: seq<Event>)
    requires Inv(s) && IsRun(s, events) && s.boxes == Replay(s.log) && AnsweredInOrder(s.log)
    ensures var n := After(s, events); n.boxes == Replay(n.log) && AnsweredInOrder(n.log)
    decreases |events|
  {
    if events != [] {
      StepExtendsReplay(s, events[0]);
      StepKeepsCounted(s, events[0]);
      StepKeepsExclusive(s, events[0]);
      StepKeepsCurrent(s, events[0]);
      hide Shared, Counted, Exclusive, Current, Step, Replay, AnsweredInOrder;
      RunExtendsReplay(Step(s, events[0]), events[1..]);
    }
  }

  /** Check and store are one step to everybody else: every interleaving leaves
      the boxes, and gives the answers, of running its requests one at a time
      in the order in which they acted. */
  lemma ConcurrentRunsAreSequential(events: seq<Event>)
    requires IsRun(INITIAL, events)
    ensures var s := After(INITIAL, events); s.boxes == Replay(s.log) && AnsweredInOrder(s.log)
  {
    RunExtendsReplay(INITIAL, events);
  }

  /** So of any number of racing writes to one box with different contents, every
      accepted one after the first carried the first one's content, until a
      tombstone. */
  lemma AcceptedWritesAgree(log: seq<Commit>, i: nat, j: nat)
    requires AnsweredInOrder(log) && i < j < |log| && log[i].boxID == log[j].boxID
    requires log[i].op.Write? && log[j].op.Write? && log[i].answer.Accepted? && log[j].answer.Accepted?
    requires forall k :: i < k < j ==> !(log[k].boxID == log[i].boxID && log[k].op.Tombstone?)
    ensures log[i].op == log[j].op
  {
    ContentPersists(log, i, j);
  }

  lemma {:induction false} ContentPersists(log: seq<Commit>, i: nat, j: nat)
    requires AnsweredInOrder(log) && i < j <= |log|
    requires log[i].op.Write? && log[i].answer.Accepted?
    requires forall k :: i < k < j ==> !(log[k].boxID == log[i].boxID && log[k].op.Tombstone?)
    ensures Lookup(Replay(log[..j]), log[i].boxID) == Some(log[i].op.content)
    decreases j
  {
    LastCommit(log, j);
    var before := Replay(log[..j - 1]);
    hide Replay;
    if j > i + 1 {
      ContentPersists(log, i, j - 1);
    }
  }

  lemma LastCommit(log: seq<Commit>, j: nat)
    requires 0 < j <= |log|
    ensures var before := Replay(log[..j - 1]);
            Replay(log[..j]) == Effect(before, Lookup(before, log[j - 1].boxID), log[j - 1].boxID, log[j - 1].op)
  {
    assert log[..j][..j - 1] == log[..j - 1];
  }

  // ------------------------------------------------------------ the real store

  /** The map is what the database shows in the epoch. */
  ghost predicate Shows(db: DB, now: Uint64, boxes: map<BoxID, Content>)
  {
    forall boxID: BoxID :: ReadAt(db, now, boxID) == if boxID in boxes then Found(boxes[boxID]) else BoxIDNotFound
  }

  /** What the store itself answers and does, with room left. */
  function StoreAnswer(db: DB, now: Uint64, boxID: BoxID, op: Op): Answer
  {
    match op
    case Tombstone(_) => Accepted
    case Write(content) =>
      match WriteResultAt(db, false, now, boxID, content)
      case Stored | Identical => Accepted
      case _ => Rejected
  }

  function StoreEffect(db: DB, now: Uint64, boxID: BoxID, op: Op): DB
  {
    match op
    case Tombstone(signature) => Put(db, now, boxID, Content([], signature))
    case Write(content) => AfterWrite(db, false, now, boxID, content)
  }

  lemma PutShows(db: DB, now: Uint64, boxes: map<BoxID, Content>, boxID: BoxID, content: Content)
    requires Shows(db, now, boxes)
    ensures Shows(Put(db, now, boxID, content), now, boxes[boxID := content])
  {
    ReadAfterPut(db, now, boxID, content);
    forall other: BoxID | other != boxID
      ensures ReadAt(Put(db, now, boxID, content), now, other) == ReadAt(db, now, other)
    {
      ReadOfOthers(db, now, boxID, content, other);
    }
    hide ReadAt, Put;
  }

  /** One request by itself is the store's handling of it. */
  lemma LockedWriteIsTheStores(db: DB, now: Uint64, boxes: map<BoxID, Content>, boxID: BoxID, op: Op)
    requires Shows(db, now, boxes)
    ensures StoreAnswer(db, now, boxID, op) == AnswerTo(Lookup(boxes, boxID), op)
    ensures Shows(StoreEffect(db, now, boxID, op), now, Effect(boxes, Lookup(boxes, boxID), boxID, op))
  {
    assert ReadAt(db, now, boxID) == if boxID in boxes then Found(boxes[boxID]) else BoxIDNotFound;
    match op {
      case Tombstone(signature) => PutShows(db, now, boxes, boxID, Content([], signature));
      case Write(content) => PutShows(db, now, boxes, boxID, content);
    }
    hide Shows, ReadAt, Put;
  }

  /** The database after the requests of the log, one at a time. */
  function StoreReplay(now: Uint64, log: seq<Commit>): DB
    decreases |log|
  {
    if log == [] then map[] else
      var c := log[|log| - 1];
      StoreEffect(StoreReplay(now, log[..|log| - 1]), now, c.boxID, c.op)
  }

  lemma EmptyShowsNothing(now: Uint64)
    ensures Shows(map[], now, map[])
  {
    forall boxID: BoxID
      ensures ReadAt(map[], now, boxID) == BoxIDNotFound
    {
      NothingThere(map[], KeptEpochs(now), boxID);
    }
    hide ReadAt;
  }

  lemma {:induction false} ReplaysAgree(now: Uint64, log: seq<Commit>)
    ensures Shows(StoreReplay(now, log), now, Replay(log))
    decreases |log|
  {
    if log == [] {
      EmptyShowsNothing(now);
    } else {
      var before, c := log[..|log| - 1], log[|log| - 1];
      ReplaysAgree(now, before);
      LockedWriteIsTheStores(StoreReplay(now, before), now, Replay(before), c.boxID, c.op);
      hide Shows, StoreEffect, Effect;
    }
  }

  /** So every interleaving within an epoch gives the answers the epoch-keyed database
      gives to the same requests one at a time, and leaves what it then shows. */
  lemma ConcurrentRunsAreTheStores(events: seq<Event>, now: Uint64, k: nat)
    requires IsRun(INITIAL, events)
    ensures var s := After(INITIAL, events);
            && Shows(StoreReplay(now, s.log), now, s.boxes)
            && (k < |s.log| ==>
                  s.log[k].answer == StoreAnswer(StoreReplay(now, s.log[..k]), now, s.log[k].boxID, s.log[k].op))
  {
    ConcurrentRunsAreSequential(events);
    var s := After(INITIAL, events);
    ReplaysAgree(now, s.log);
    if k < |s.log| {
      ReplaysAgree(now, s.log[..k]);
      LockedWriteIsTheStores(StoreReplay(now, s.log[..k]), now, Replay(s.log[..k]), s.log[k].boxID, s.log[k].op);
    }
    hide Shows, Replay, StoreReplay, StoreAnswer, AnswerTo;
  }

  // ---------------------------------------------------- every request takes effect

  /** The requests that acted in a run, in order. */
  function Acts(s: System, events: seq<Event>): seq<(BoxID, Op)>
    requires IsRun(s, events)
    decreases |events|
  {
    if events == [] then [] else
      (if events[0].Act? then [(s.threads[events[0].t].boxID, s.threads[events[0].t].op)] else [])
      + Acts(Step(s, events[0]), events[1..])
  }

  function Requests(log: seq<Commit>): seq<(BoxID, Op)>
  {
    seq(|log|, k requires 0 <= k < |log| => (log[k].boxID, log[k].op))
  }

  /** The log is the requests that acted: none is skipped, repeated or changed. */
  lemma {:induction false} LogIsTheActs(s: System, events: seq<Event>)
    requires IsRun(s, events)
    ensures Requests(After(s, events).log) == Requests(s.log) + Acts(s, events)
    decreases |events|
  {
    if events != [] {
      var next := Step(s, events[0]);
      if events[0].Act? {
        var g := s.threads[events[0].t];
        assert Requests(next.log) == Requests(s.log) + [(g.boxID, g.op)];
      } else {
        assert next.log == s.log;
      }
      hide Step, Enabled;
      LogIsTheActs(next, events[1..]);
    }
  }

  /** From its acquisition to its release a goroutine keeps its box and its request, and
      a step of one goroutine leaves the others where they are. */
  lemma StepKeepsRequests(s: System, e: Event, t: Thread)
    requires Enabled(s, e)
    ensures e.Acquire? && e.t == t ==>
              t in Step(s, e).threads && Step(s, e).threads[t].boxID == e.boxID && Step(s, e).threads[t].op == e.op
              && Step(s, e).threads[t].phase == Waiting
    ensures t in s.threads && !(e.Release? && e.t == t) ==>
              t in Step(s, e).threads && Step(s, e).threads[t].boxID == s.threads[t].boxID
              && Step(s, e).threads[t].op == s.threads[t].op
    ensures e.t != t ==> (t in s.threads <==> t in Step(s, e).threads) && (t in s.threads ==> Step(s, e).threads[t] == s.threads[t])
  {
  }

  /** The step a goroutine that does not wait for the mutex takes next. */
  function NextOf(t: Thread, phase: Phase): Event
  {
    match phase
    case Waiting => Lock(t)
    case Holding => Check(t)
    case Checked(_) => Act(t)
    case Acted => Unlock(t)
    case Unlocked => Release(t)
  }

  /** The goroutine waits for the mutex of its box, which another has. */
  ghost predicate WaitsFor(s: System, t: Thread, u: Thread)
    requires t in s.threads
  {
    && s.threads[t].phase.Waiting? && u in s.threads && s.threads[u].phase.Holds()
    && s.threads[u].boxID == s.threads[t].boxID
  }

  lemma CanMove(s: System, t: Thread)
    requires Inv(s) && t in s.threads && (s.threads[t].phase.Waiting? ==> s.holder[s.threads[t].lock].None?)
    ensures Enabled(s, NextOf(t, s.threads[t].phase))
  {
    assert CountsAt(s, s.threads[t].boxID);
    hide Users, Current;
  }

  /** No deadlock: after every run, a goroutine's next step is possible, or it waits for
      the mutex of its own box and the next step of the goroutine that has it is. */
  lemma NeverStuck(events: seq<Event>, t: Thread)
    requires IsRun(INITIAL, events) && t in After(INITIAL, events).threads
    ensures var s := After(INITIAL, events);
            || Enabled(s, NextOf(t, s.threads[t].phase))
            || exists u :: WaitsFor(s, t, u) && Enabled(s, NextOf(u, s.threads[u].phase))
  {
    RunKeepsInv(INITIAL, events);
    hide Counted, Current, Enabled, NextOf;
    var s := After(INITIAL, events);
    var g := s.threads[t];
    if g.phase.Waiting? && s.holder[g.lock].Some? {
      var u := s.holder[g.lock].value;
      assert WaitsFor(s, t, u);
      CanMove(s, u);
    } else {
      CanMove(s, t);
    }
  }
}
