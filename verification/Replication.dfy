/** Replication between storage replicas as a network of steps: the write path of
    replica/handlers.go, doReplication and the retry queue of replica/connector.go,
    sendAndRecv of replica/outgoing_conn.go and classifyReplicationReply.

    All replicas use one PKI document, so the shards of a box are a fixed list.
    Contents are only compared; expiry and tombstones are not part of this model. */
module Replication {
  import opened Options
  import RetryQueue

  type Replica = nat
  type Box = nat
  type Content = nat
  type Code = n: int | 0 <= n < 0x100

  /** The codes handleReplicaWrite can return before it looks at the box, and 0. */
  type Fault = n: int | 0 <= n <= 7 && n != 1

  type Shards = Box -> seq<Replica>

  /** A write that is on its way. Outgoing is in a connection's channel or on the
      wire; Retrying is in the sender's retry queue; Task is a doReplication that has
      not run; Proxied is a client's message passed on by a replica that is not
      a shard. */
  datatype Work =
    | Task(src: Replica, box: Box, content: Content)
    | Outgoing(src: Replica, dst: Replica, box: Box, content: Content)
    | Retrying(src: Replica, dst: Replica, box: Box, content: Content)
    | Proxied(src: Replica, dst: Replica, box: Box, content: Content)

  datatype Network = Network(store: map<(Replica, Box), Content>, work: seq<Work>)

  const INITIAL: Network := Network(map[], [])

  // ------------------------------------------------------------------- replies

  datatype ReplyAction = OK | Retry | Drop

  function ClassifyReplicationReply(code: Code): ReplyAction
  {
    if code == 0 || code == 10 then OK else if code == 4 || code == 7 then Retry else Drop
  }

  /** handleReplicaWrite at a replica; fault is the code it fails with before it
      reaches the box, or 0. */
  function WriteCode(store: map<(Replica, Box), Content>, at: Replica, box: Box, content: Content, fault: Fault): Code
  {
    if fault != 0 then fault
    else if (at, box) !in store || store[(at, box)] == content then 0
    else 10
  }

  function Written(store: map<(Replica, Box), Content>, at: Replica, box: Box, content: Content, fault: Fault)
    : map<(Replica, Box), Content>
  {
    if fault == 0 && (at, box) !in store then store[(at, box) := content] else store
  }

  // ------------------------------------------------------------ work list

  function Without(work: seq<Work>, i: nat): seq<Work>
    requires i < |work|
  {
    work[..i] + work[i + 1..]
  }

  predicate SameRetry(a: Work, b: Work)
  {
    a.Retrying? && b.Retrying? && a.src == b.src && a.dst == b.dst && a.box == b.box
  }

  /** QueueForRetry: the newest command for a peer and box replaces an older one. */
  function QueueForRetry(work: seq<Work>, w: Work): seq<Work>
  {
    if work == [] then [w]
    else if SameRetry(work[0], w) then [w] + work[1..]
    else [work[0]] + QueueForRetry(work[1..], w)
  }

  /** doReplication over the list of shards: every shard but the sender. */
  function Fanout(src: Replica, targets: seq<Replica>, conns: set<Replica>, box: Box, content: Content, work: seq<Work>): seq<Work>
    decreases |targets|
  {
    if targets == [] then work else
      var dst := targets[0];
      var next :=
        if dst == src then work
        else if dst in conns then work + [Outgoing(src, dst, box, content)]
        else QueueForRetry(work, Retrying(src, dst, box, content));
      Fanout(src, targets[1..], conns, box, content, next)
  }

  /** doReplication and its loop. Without a document, or when GetShards fails, it
      gives up and the replication is not tried again. */
  method DoReplication(src: Replica, allShards: Option<seq<Replica>>, conns: set<Replica>, box: Box, content: Content, work: seq<Work>)
    returns (r: seq<Work>)
    ensures r == if allShards.Some? then Fanout(src, allShards.value, conns, box, content, work) else work
  {
    r := work;
    if allShards.None? {
      return;
    }
    var targets := allShards.value;
    var i := 0;
    while i < |targets|
      invariant 0 <= i <= |targets|
      invariant Fanout(src, targets, conns, box, content, work) == Fanout(src, targets[i..], conns, box, content, r)
    {
      var dst := targets[i];
      assert targets[i..][1..] == targets[i + 1..];
      if dst != src {
        if dst in conns {
          r := r + [Outgoing(src, dst, box, content)];
        } else {
          r := QueueForRetry(r, Retrying(src, dst, box, content));
        }
      }
      i := i + 1;
    }
  }

  /** The flag loop of handleReplicaMessage. */
  method FindShard(shards: seq<Replica>, me: Replica) returns (isShard: bool)
    ensures isShard <==> me in shards
  {
    isShard := false;
    var i := 0;
    while i < |shards|
      invariant 0 <= i <= |shards| && !isShard && me !in shards[..i]
    {
      if shards[i] == me {
        isShard := true;
        break;
      }
      i := i + 1;
    }
  }

  // --------------------------------------------------------------------- steps

  /** What came of sending one command: an answer with the peer's fault, a send that
      failed before the peer had it, an answer that was lost after the peer
      acted, or an answer of another kind, on which the command is forgotten. */
  datatype Delivery = Answered(fault: Fault) | SendFailed | AnswerLost(fault: Fault) | OtherAnswer(fault: Fault)

  /** When a connection closes, what is still in its own channel is queued again; what
      its sender had already passed to the session's channel is abandoned with it. */
  datatype Event =
    | ClientWrite(replica: Replica, box: Box, content: Content, fault: Fault, target: Replica)
    | ProxyArrives(i: nat, fault: Fault, target: Replica, repeats: bool)
    | ProxyGivesUp(i: nat)
    | RunTask(i: nat, conns: set<Replica>)
    | Deliver(i: nat, delivery: Delivery)
    | Reconnects(i: nat)
    | ConnectionCloses(i: nat)
    | ChannelAbandoned(i: nat)
    | TaskFails(i: nat)
    | Expires(i: nat)

  predicate Enabled(shards: Shards, n: Network, e: Event)
  {
    match e
    case ClientWrite(at, box, _, _, target) => at !in shards(box) ==> target in shards(box)
    case ProxyArrives(i, _, target, _) => i < |n.work| && n.work[i].Proxied? && target in shards(n.work[i].box)
    case ProxyGivesUp(i) => i < |n.work| && n.work[i].Proxied?
    case RunTask(i, _) => i < |n.work| && n.work[i].Task?
    case Deliver(i, _) => i < |n.work| && n.work[i].Outgoing?
    case Reconnects(i) => i < |n.work| && n.work[i].Retrying?
    case ConnectionCloses(i) => i < |n.work| && n.work[i].Outgoing?
    case ChannelAbandoned(i) => i < |n.work| && n.work[i].Outgoing?
    case TaskFails(i) => i < |n.work| && n.work[i].Task?
    case Expires(i) => i < |n.work| && n.work[i].Retrying?
  }

  /** handleReplicaMessage for a write: a shard stores and, when that succeeds,
      starts replication; any other replica passes it on to one shard. */
  function HandleMessage(
    shards: Shards, n: Network, at: Replica, box: Box, content: Content, fault: Fault, target: Replica): Network
  {
    if at !in shards(box) then n.(work := n.work + [Proxied(at, target, box, content)])
    else
      Network(Written(n.store, at, box, content, fault),
              if WriteCode(n.store, at, box, content, fault) == 0 then n.work + [Task(at, box, content)] else n.work)
  }

  function Requeued(w: Work): Work
    requires w.Outgoing?
  {
    Retrying(w.src, w.dst, w.box, w.content)
  }

  /** sendAndRecv, with the peer's handling of the command. A replication write
      starts no replication of its own. */
  function DeliverStep(n: Network, i: nat, delivery: Delivery): Network
    requires i < |n.work| && n.work[i].Outgoing?
  {
    var w := n.work[i];
    var rest := Without(n.work, i);
    match delivery
    case SendFailed => n.(work := QueueForRetry(rest, Requeued(w)))
    case AnswerLost(fault) => Network(Written(n.store, w.dst, w.box, w.content, fault), QueueForRetry(rest, Requeued(w)))
    case OtherAnswer(fault) => Network(Written(n.store, w.dst, w.box, w.content, fault), rest)
    case Answered(fault) =>
      Network(Written(n.store, w.dst, w.box, w.content, fault),
              if ClassifyReplicationReply(WriteCode(n.store, w.dst, w.box, w.content, fault)).Retry?
              then QueueForRetry(rest, Requeued(w)) else rest)
  }

  function Step(shards: Shards, n: Network, e: Event): Network
    requires Enabled(shards, n, e)
  {
    match e
    case ClientWrite(at, box, content, fault, target) => HandleMessage(shards, n, at, box, content, fault, target)
    case ProxyArrives(i, fault, target, repeats) =>
      var w := n.work[i];
      HandleMessage(shards, if repeats then n else n.(work := Without(n.work, i)), w.dst, w.box, w.content, fault, target)
    case RunTask(i, conns) =>
      var w := n.work[i];
      n.(work := Fanout(w.src, shards(w.box), conns, w.box, w.content, Without(n.work, i)))
    case Deliver(i, delivery) => DeliverStep(n, i, delivery)
    case Reconnects(i) =>
      var w := n.work[i];
      n.(work := Without(n.work, i) + [Outgoing(w.src, w.dst, w.box, w.content)])
    case ConnectionCloses(i) => n.(work := QueueForRetry(Without(n.work, i), Requeued(n.work[i])))
    case ProxyGivesUp(i) => n.(work := Without(n.work, i))
    case ChannelAbandoned(i) => n.(work := Without(n.work, i))
    case TaskFails(i) => n.(work := Without(n.work, i))
    case Expires(i) => n.(work := Without(n.work, i))
  }

  predicate IsRun(shards: Shards, n: Network, events: seq<Event>)
    decreases |events|
  {
    events == [] || (Enabled(shards, n, events[0]) && IsRun(shards, Step(shards, n, events[0]), events[1..]))
  }

  function After(shards: Shards, n: Network, events: seq<Event>): Network
    requires IsRun(shards, n, events)
    decreases |events|
  {
    if events == [] then n else After(shards, Step(shards, n, events[0]), events[1..])
  }

  // --------------------------------------------- the retry queue of one replica

  /** What one replica has queued for retry, in order. */
  function Pending(work: seq<Work>, src: Replica): seq<(Replica, Box, Content)>
  {
    if work == [] then []
    else if work[0].Retrying? && work[0].src == src
    then [(work[0].dst, work[0].box, work[0].content)] + Pending(work[1..], src)
    else Pending(work[1..], src)
  }

  /** What a queue of ReplicaWrites holds, in order. */
  function Entries(q: RetryQueue.Queue): seq<(Replica, Box, Content)>
  {
    seq(|q|, k requires 0 <= k < |q| => (q[k].idHash, q[k].ident, q[k].cmd.body))
  }

  predicate AllWrites(q: RetryQueue.Queue)
  {
    forall rc :: rc in q ==> rc.cmd.ReplicaWrite? && rc.hasIdent && rc.ident == rc.cmd.boxID
  }

  /** The newest content for a peer and box replaces an older one, or goes last. */
  function Upsert(list: seq<(Replica, Box, Content)>, dst: Replica, box: Box, content: Content): seq<(Replica, Box, Content)>
  {
    if list == [] then [(dst, box, content)]
    else if list[0].0 == dst && list[0].1 == box then [(dst, box, content)] + list[1..]
    else [list[0]] + Upsert(list[1..], dst, box, content)
  }

  lemma PendingCons(w: Work, rest: seq<Work>, src: Replica)
    ensures Pending([w] + rest, src)
         == if w.Retrying? && w.src == src then [(w.dst, w.box, w.content)] + Pending(rest, src) else Pending(rest, src)
  {
    assert ([w] + rest)[1..] == rest;
  }

  lemma {:induction false} QueueUpserts(work: seq<Work>, src: Replica, dst: Replica, box: Box, content: Content)
    ensures Pending(QueueForRetry(work, Retrying(src, dst, box, content)), src) == Upsert(Pending(work, src), dst, box, content)
  {
    var w := Retrying(src, dst, box, content);
    if work == [] {
      PendingCons(w, [], src);
      assert [w] + [] == [w];
    } else {
      var rest := work[1..];
      QueueUpserts(rest, src, dst, box, content);
      PendingCons(w, rest, src);
      PendingCons(work[0], QueueForRetry(rest, w), src);
      var list := Pending(work, src);
      if work[0].Retrying? && work[0].src == src {
        assert list[1..] == Pending(rest, src);
      }
    }
  }

  lemma {:induction false} UpsertAt(q: RetryQueue.Queue, dst: Replica, box: Box, content: Content)
    requires AllWrites(q)
    ensures var i := RetryQueue.FindWork(q, dst, box);
            Upsert(Entries(q), dst, box, content)
            == if i < |q| then Entries(q)[i := (dst, box, content)] else Entries(q) + [(dst, box, content)]
  {
    if q != [] {
      var rest := q[1..];
      UpsertAt(rest, dst, box, content);
      assert Entries(q)[1..] == Entries(rest);
      assert Entries(q) == [Entries(q)[0]] + Entries(rest);
      var i := RetryQueue.FindWork(q, dst, box);
      if !RetryQueue.SameWork(q[0], dst, box) {
        assert i == RetryQueue.FindWork(rest, dst, box) + 1;
        if i < |q| {
          assert Entries(q)[i := (dst, box, content)] == [Entries(q)[0]] + Entries(rest)[i - 1 := (dst, box, content)];
        }
      }
    }
  }

  /** The queue in this network is the Connector's: while nothing has to be evicted,
      queueing a write does the same to both. */
  lemma QueuesMatch(
    bounds: RetryQueue.Bounds, q: RetryQueue.Queue, now: nat, work: seq<Work>,
    src: Replica, dst: Replica, box: Box, content: Content)
    requires AllWrites(q) && |RetryQueue.Filter(q, RetryQueue.To(dst))| < bounds.maxPerPeer
    requires Pending(work, src) == Entries(q)
    ensures var next := RetryQueue.Enqueued(bounds, q, RetryQueue.ReplicaWrite(box, content), dst, now);
            && AllWrites(next)
            && Pending(QueueForRetry(work, Retrying(src, dst, box, content)), src) == Entries(next)
  {
    QueueUpserts(work, src, dst, box, content);
    UpsertAt(q, dst, box, content);
    var next := RetryQueue.Enqueued(bounds, q, RetryQueue.ReplicaWrite(box, content), dst, now);
    var i := RetryQueue.FindWork(q, dst, box);
    if i < |q| {
      assert Entries(next) == Entries(q)[i := (dst, box, content)];
    } else {
      assert Entries(next) == Entries(q) + [(dst, box, content)];
    }
  }

  // --------------------------------------------------- properties of every piece

  /** A property of every piece of work survives the list operations. */
  ghost predicate All(work: seq<Work>, p: Work -> bool)
  {
    forall i :: 0 <= i < |work| ==> p(work[i])
  }

  lemma {:induction false} QueueKeepsAll(work: seq<Work>, w: Work, p: Work -> bool)
    requires All(work, p) && p(w)
    ensures All(QueueForRetry(work, w), p)
  {
    if work != [] && !SameRetry(work[0], w) {
      QueueKeepsAll(work[1..], w, p);
    }
  }

  lemma {:induction false} FanoutKeepsAll(
    src: Replica, targets: seq<Replica>, conns: set<Replica>, box: Box, content: Content, work: seq<Work>, p: Work -> bool)
    requires All(work, p)
    requires forall dst :: dst in targets && dst != src ==>
      p(Outgoing(src, dst, box, content)) && p(Retrying(src, dst, box, content))
    ensures All(Fanout(src, targets, conns, box, content, work), p)
    decreases |targets|
  {
    if targets != [] {
      var dst := targets[0];
      if dst != src && dst !in conns {
        QueueKeepsAll(work, Retrying(src, dst, box, content), p);
      }
      var next :=
        if dst == src then work
        else if dst in conns then work + [Outgoing(src, dst, box, content)]
        else QueueForRetry(work, Retrying(src, dst, box, content));
      hide QueueForRetry;
      FanoutKeepsAll(src, targets[1..], conns, box, content, next, p);
    }
  }

  // ------------------------------------------------------ only shards store

  /** Everything on its way is on its way to a shard of its box. */
  function ToShard(shards: Shards): Work -> bool
  {
    (w: Work) => if w.Task? then w.src in shards(w.box) else w.dst in shards(w.box)
  }

  ghost predicate OnlyShards(shards: Shards, n: Network)
  {
    && (forall r, b :: (r, b) in n.store ==> r in shards(b))
    && All(n.work, ToShard(shards))
  }

  lemma StepKeepsOnlyShards(shards: Shards, n: Network, e: Event)
    requires OnlyShards(shards, n) && Enabled(shards, n, e)
    ensures OnlyShards(shards, Step(shards, n, e))
  {
    var p := ToShard(shards);
    if !e.ClientWrite? {
      var w := n.work[e.i];
      assert p(w);
      var rest := Without(n.work, e.i);
      assert All(rest, p);
      if e.RunTask? {
        FanoutKeepsAll(w.src, shards(w.box), e.conns, w.box, w.content, rest, p);
      } else if w.Outgoing? {
        QueueKeepsAll(rest, Requeued(w), p);
      }
    }
    hide QueueForRetry, Fanout, Without;
  }

  /** In every run, with any faults, losses and retries, a box is stored by shards
      of that box and by no other replica. */
  lemma {:induction false} OnlyShardsEverStore(shards: Shards, n: Network, events: seq<Event>)
    requires OnlyShards(shards, n) && IsRun(shards, n, events)
    ensures OnlyShards(shards, After(shards, n, events))
    decreases |events|
  {
    if events != [] {
      StepKeepsOnlyShards(shards, n, events[0]);
      hide OnlyShards, Step;
      OnlyShardsEverStore(shards, Step(shards, n, events[0]), events[1..]);
    }
  }

  // -------------------------------------------------------- the cascade is finite

  function Weight(shards: Shards, w: Work): nat
  {
    match w
    case Outgoing(_, _, _, _) => 1
    case Retrying(_, _, _, _) => 2
    case Task(_, box, _) => 1 + 2 * |shards(box)|
    case Proxied(_, _, box, _) => 2 + 2 * |shards(box)|
  }

  function Total(shards: Shards, work: seq<Work>): nat
  {
    if work == [] then 0 else Weight(shards, work[0]) + Total(shards, work[1..])
  }

  lemma {:induction false} TotalConcat(shards: Shards, a: seq<Work>, b: seq<Work>)
    ensures Total(shards, a + b) == Total(shards, a) + Total(shards, b)
  {
    if a == [] {
      assert a + b == b;
    } else {
      assert (a + b)[1..] == a[1..] + b;
      TotalConcat(shards, a[1..], b);
    }
  }

  lemma TotalSnoc(shards: Shards, work: seq<Work>, w: Work)
    ensures Total(shards, work + [w]) == Total(shards, work) + Weight(shards, w)
  {
    TotalConcat(shards, work, [w]);
    assert Total(shards, [w]) == Weight(shards, w) + Total(shards, []);
  }

  lemma TotalCons(shards: Shards, w: Work, rest: seq<Work>)
    ensures Total(shards, [w] + rest) == Weight(shards, w) + Total(shards, rest)
  {
    assert ([w] + rest)[1..] == rest;
  }

  lemma TotalWithout(shards: Shards, work: seq<Work>, i: nat)
    requires i < |work|
    ensures Total(shards, work) == Total(shards, Without(work, i)) + Weight(shards, work[i])
  {
    var front, back := work[..i], work[i + 1..];
    assert work == front + ([work[i]] + back);
    hide Total;
    TotalConcat(shards, front, [work[i]] + back);
    TotalConcat(shards, front, back);
    TotalCons(shards, work[i], back);
  }

  lemma {:induction false} TotalQueue(shards: Shards, work: seq<Work>, w: Work)
    requires w.Retrying?
    ensures Total(shards, QueueForRetry(work, w)) <= Total(shards, work) + 2
  {
    if work == [] {
      assert Total(shards, [w]) == 2 + Total(shards, []);
    } else if SameRetry(work[0], w) {
      assert ([w] + work[1..])[1..] == work[1..];
    } else {
      TotalQueue(shards, work[1..], w);
      var rest := QueueForRetry(work[1..], w);
      assert ([work[0]] + rest)[1..] == rest;
    }
  }

  lemma {:induction false} TotalFanout(
    shards: Shards, src: Replica, targets: seq<Replica>, conns: set<Replica>, box: Box, content: Content, work: seq<Work>)
    ensures Total(shards, Fanout(src, targets, conns, box, content, work)) <= Total(shards, work) + 2 * |targets|
    decreases |targets|
  {
    if targets != [] {
      var dst := targets[0];
      TotalSnoc(shards, work, Outgoing(src, dst, box, content));
      TotalQueue(shards, work, Retrying(src, dst, box, content));
      var next :=
        if dst == src then work
        else if dst in conns then work + [Outgoing(src, dst, box, content)]
        else QueueForRetry(work, Retrying(src, dst, box, content));
      hide QueueForRetry, Total;
      TotalFanout(shards, src, targets[1..], conns, box, content, next);
    }
  }

  /** The network working off what it has, with nothing going wrong. */
  predicate Calm(e: Event)
  {
    match e
    case ProxyArrives(_, _, _, repeats) => !repeats
    case RunTask(_, _) => true
    case Deliver(_, delivery) => delivery == Answered(0)
    case Reconnects(_) => true
    case _ => false
  }

  lemma CalmStepsUseUpWork(shards: Shards, n: Network, e: Event)
    requires OnlyShards(shards, n) && Enabled(shards, n, e) && Calm(e)
    ensures Total(shards, Step(shards, n, e).work) < Total(shards, n.work)
  {
    var w := n.work[e.i];
    var rest := Without(n.work, e.i);
    TotalWithout(shards, n.work, e.i);
    match e {
      case ProxyArrives(_, _, _, _) =>
        assert ToShard(shards)(w);
        TotalSnoc(shards, rest, Task(w.dst, w.box, w.content));
      case RunTask(_, conns) => TotalFanout(shards, w.src, shards(w.box), conns, w.box, w.content, rest);
      case Reconnects(_) => TotalSnoc(shards, rest, Outgoing(w.src, w.dst, w.box, w.content));
      case Deliver(_, _) =>
    }
    hide Total, Fanout, Without, OnlyShards, QueueForRetry;
  }

  /** What a step that is not calm can add: a client's write, a proxied write handled
      once more, and the difference between a write sent and one queued again. */
  function Charge(shards: Shards, n: Network, e: Event): nat
    requires Enabled(shards, n, e)
  {
    match e
    case ClientWrite(_, box, _, _, _) => 2 + 2 * |shards(box)|
    case ProxyArrives(i, _, _, repeats) => if repeats then 1 + 2 * |shards(n.work[i].box)| else 0
    case Deliver(_, delivery) => if delivery == Answered(0) then 0 else 1
    case ConnectionCloses(_) => 1
    case _ => 0
  }

  lemma MessageAdds(shards: Shards, n: Network, at: Replica, box: Box, content: Content, fault: Fault, target: Replica)
    ensures Total(shards, HandleMessage(shards, n, at, box, content, fault, target).work)
            <= Total(shards, n.work) + if at in shards(box) then 1 + 2 * |shards(box)| else 2 + 2 * |shards(box)|
  {
    TotalSnoc(shards, n.work, Task(at, box, content));
    TotalSnoc(shards, n.work, Proxied(at, target, box, content));
    hide Total;
  }

  lemma OtherStepsAddTheirCharge(shards: Shards, n: Network, e: Event)
    requires OnlyShards(shards, n) && Enabled(shards, n, e) && !Calm(e)
    ensures Total(shards, Step(shards, n, e).work) <= Total(shards, n.work) + Charge(shards, n, e)
  {
    if e.ClientWrite? {
      MessageAdds(shards, n, e.replica, e.box, e.content, e.fault, e.target);
    } else {
      var w := n.work[e.i];
      var rest := Without(n.work, e.i);
      TotalWithout(shards, n.work, e.i);
      if e.ProxyArrives? {
        assert ToShard(shards)(w);
        MessageAdds(shards, n, w.dst, w.box, w.content, e.fault, e.target);
      } else if w.Outgoing? {
        TotalQueue(shards, rest, Requeued(w));
      }
    }
    hide Total, HandleMessage, Without, OnlyShards, QueueForRetry;
  }

  function CalmCount(events: seq<Event>): nat
  {
    if events == [] then 0 else (if Calm(events[0]) then 1 else 0) + CalmCount(events[1..])
  }

  function Charges(shards: Shards, n: Network, events: seq<Event>): nat
    requires IsRun(shards, n, events)
    decreases |events|
  {
    if events == [] then 0
    else Charge(shards, n, events[0]) + Charges(shards, Step(shards, n, events[0]), events[1..])
  }

  /** What client writes set off always comes to rest: over every run, the steps the
      network takes of itself are bounded by the weight of what was pending, plus
      what each client write, repetition and fault adds. */
  lemma {:induction false} CascadeIsFinite(shards: Shards, n: Network, events: seq<Event>)
    requires OnlyShards(shards, n) && IsRun(shards, n, events)
    ensures CalmCount(events) + Total(shards, After(shards, n, events).work)
            <= Total(shards, n.work) + Charges(shards, n, events)
    decreases |events|
  {
    if events != [] {
      if Calm(events[0]) {
        CalmStepsUseUpWork(shards, n, events[0]);
      } else {
        OtherStepsAddTheirCharge(shards, n, events[0]);
      }
      StepKeepsOnlyShards(shards, n, events[0]);
      hide OnlyShards, Step, Total, Charge;
      CascadeIsFinite(shards, Step(shards, n, events[0]), events[1..]);
    }
  }

  /** A client write starts one piece of work at most, a proxied write is handled
      where it arrives and goes no further, and delivering a replication write
      starts nothing. */
  lemma OneHopAndNoEcho(shards: Shards, n: Network, e: Event)
    requires OnlyShards(shards, n) && Enabled(shards, n, e)
    ensures e.ClientWrite? ==> |Step(shards, n, e).work| <= |n.work| + 1
    ensures e.ProxyArrives? ==>
              forall w :: w in Step(shards, n, e).work && w.Proxied? ==> w in n.work
    ensures e.Deliver? ==>
              forall w :: w in Step(shards, n, e).work && (w.Task? || w.Proxied?) ==> w in n.work
  {
    if e.ProxyArrives? {
      assert ToShard(shards)(n.work[e.i]);
    } else if e.Deliver? {
      var old' := (w: Work) => (w.Task? || w.Proxied?) ==> w in n.work;
      assert All(Without(n.work, e.i), old');
      QueueKeepsAll(Without(n.work, e.i), Requeued(n.work[e.i]), old');
    }
    hide QueueForRetry;
  }

  // ---------------------------------------------------------------- convergence

  /** The work will bring the box to the replica. */
  predicate Covers(w: Work, b: Box, r: Replica)
  {
    w.box == b && (if w.Task? then w.src != r else !w.Proxied? && w.dst == r)
  }

  ghost predicate HasCover(work: seq<Work>, b: Box, r: Replica)
  {
    exists i :: 0 <= i < |work| && Covers(work[i], b, r)
  }

  lemma SnocCover(work: seq<Work>, w: Work, b: Box, r: Replica)
    ensures HasCover(work + [w], b, r) <==> HasCover(work, b, r) || Covers(w, b, r)
  {
    if HasCover(work, b, r) {
      var i :| 0 <= i < |work| && Covers(work[i], b, r);
      assert (work + [w])[i] == work[i];
    }
    assert (work + [w])[|work|] == w;
  }

  lemma ConsCover(w: Work, work: seq<Work>, b: Box, r: Replica)
    ensures HasCover([w] + work, b, r) <==> Covers(w, b, r) || HasCover(work, b, r)
  {
    if HasCover(work, b, r) {
      var i :| 0 <= i < |work| && Covers(work[i], b, r);
      assert ([w] + work)[i + 1] == work[i];
    }
    assert ([w] + work)[0] == w;
  }

  lemma WithoutCover(work: seq<Work>, i: nat, b: Box, r: Replica)
    requires i < |work|
    ensures HasCover(work, b, r) <==> HasCover(Without(work, i), b, r) || Covers(work[i], b, r)
  {
    var rest := Without(work, i);
    if HasCover(rest, b, r) {
      var k :| 0 <= k < |rest| && Covers(rest[k], b, r);
      assert rest[k] == work[if k < i then k else k + 1];
    }
    if HasCover(work, b, r) && !Covers(work[i], b, r) {
      var k :| 0 <= k < |work| && Covers(work[k], b, r);
      assert rest[if k < i then k else k - 1] == work[k];
    }
  }

  lemma {:induction false} QueueCover(work: seq<Work>, w: Work, b: Box, r: Replica)
    requires w.Retrying?
    ensures HasCover(QueueForRetry(work, w), b, r) <==> HasCover(work, b, r) || Covers(w, b, r)
  {
    if work == [] {
      SnocCover(work, w, b, r);
      assert work + [w] == [w];
    } else {
      assert work == [work[0]] + work[1..];
      ConsCover(work[0], work[1..], b, r);
      if SameRetry(work[0], w) {
        ConsCover(w, work[1..], b, r);
      } else {
        QueueCover(work[1..], w, b, r);
        ConsCover(work[0], QueueForRetry(work[1..], w), b, r);
      }
    }
  }

  lemma {:induction false} FanoutCover(
    src: Replica, targets: seq<Replica>, conns: set<Replica>, box: Box, content: Content, work: seq<Work>, b: Box, r: Replica)
    ensures HasCover(Fanout(src, targets, conns, box, content, work), b, r)
       <==> HasCover(work, b, r) || (b == box && r in targets && r != src)
    decreases |targets|
  {
    if targets != [] {
      var dst := targets[0];
      SnocCover(work, Outgoing(src, dst, box, content), b, r);
      QueueCover(work, Retrying(src, dst, box, content), b, r);
      var next :=
        if dst == src then work
        else if dst in conns then work + [Outgoing(src, dst, box, content)]
        else QueueForRetry(work, Retrying(src, dst, box, content));
      hide QueueForRetry, HasCover;
      FanoutCover(src, targets[1..], conns, box, content, next, b, r);
    }
  }

  /** Whoever replicates a box has it. */
  function Backed(n: Network): Work -> bool
  {
    (w: Work) => w.Proxied? || (w.src, w.box) in n.store
  }

  lemma StepKeepsBacked(shards: Shards, n: Network, e: Event)
    requires All(n.work, Backed(n)) && Enabled(shards, n, e)
    ensures All(Step(shards, n, e).work, Backed(Step(shards, n, e)))
    ensures n.store.Keys <= Step(shards, n, e).store.Keys
  {
    var p := Backed(Step(shards, n, e));
    assert All(n.work, p) by {
      forall i | 0 <= i < |n.work|
        ensures p(n.work[i])
      {
        assert Backed(n)(n.work[i]);
      }
    }
    if !e.ClientWrite? {
      var w := n.work[e.i];
      var rest := Without(n.work, e.i);
      assert p(w) && All(rest, p);
      if e.RunTask? {
        FanoutKeepsAll(w.src, shards(w.box), e.conns, w.box, w.content, rest, p);
      } else if w.Outgoing? {
        QueueKeepsAll(rest, Requeued(w), p);
      }
    }
    hide QueueForRetry, Fanout, Without;
  }

  ghost predicate Held(n: Network, b: Box)
  {
    exists s :: (s, b) in n.store
  }

  predicate Stored(n: Network, b: Box, r: Replica)
  {
    (r, b) in n.store
  }

  /** Once any replica holds the box, each of its shards holds it or is due it. */
  ghost predicate Covered(shards: Shards, n: Network, b: Box)
  {
    Held(n, b) ==> forall r :: r in shards(b) ==> Stored(n, b, r) || HasCover(n.work, b, r)
  }

  /** The steps that forget a replication the peer may not have: expiry or eviction
      from the queue, an abandoned channel, a task that gives up, and an answer of
      another kind or with a permanent error from a peer that did not store. */
  predicate Forgets(e: Event)
  {
    match e
    case Expires(_) => true
    case ChannelAbandoned(_) => true
    case TaskFails(_) => true
    case Deliver(_, OtherAnswer(fault)) => fault != 0
    case Deliver(_, Answered(fault)) => ClassifyReplicationReply(fault).Drop?
    case _ => false
  }

  /** Forgetting hurts a shard that does not hold the box when nothing else will bring
      it there. */
  ghost predicate LosesFor(shards: Shards, n: Network, e: Event, b: Box, r: Replica)
    requires Enabled(shards, n, e)
  {
    && Forgets(e) && Covers(n.work[e.i], b, r)
    && !Stored(n, b, r) && !HasCover(Without(n.work, e.i), b, r)
  }

  ghost predicate LosesLast(shards: Shards, n: Network, e: Event, b: Box)
    requires Enabled(shards, n, e)
  {
    exists r :: r in shards(b) && LosesFor(shards, n, e, b, r)
  }

  /** handleReplicaMessage keeps coverage: what a shard stores it also replicates. */
  lemma HandleKeepsCovered(
    shards: Shards, n: Network, at: Replica, box: Box, content: Content, fault: Fault, target: Replica, b: Box)
    requires Covered(shards, n, b)
    ensures Covered(shards, HandleMessage(shards, n, at, box, content, fault, target), b)
  {
    var after := HandleMessage(shards, n, at, box, content, fault, target);
    forall r
      ensures Stored(n, b, r) ==> Stored(after, b, r)
      ensures HasCover(n.work, b, r) ==> HasCover(after.work, b, r)
      ensures box == b && !Held(n, b) && Held(after, b) ==> Stored(after, b, r) || HasCover(after.work, b, r)
    {
      SnocCover(n.work, Task(at, box, content), b, r);
      SnocCover(n.work, Proxied(at, target, box, content), b, r);
      hide HasCover;
    }
    assert Held(after, b) && !Held(n, b) ==> box == b by {
      if Held(after, b) && !Held(n, b) {
        var s :| (s, b) in after.store;
      }
    }
    hide HandleMessage, HasCover;
  }

  lemma ProxyKeepsCovered(shards: Shards, n: Network, e: Event, b: Box)
    requires Covered(shards, n, b) && Enabled(shards, n, e) && e.ProxyArrives?
    ensures Covered(shards, Step(shards, n, e), b)
  {
    var w := n.work[e.i];
    var rest := n.(work := Without(n.work, e.i));
    forall r
      ensures HasCover(n.work, b, r) <==> HasCover(rest.work, b, r)
    {
      WithoutCover(n.work, e.i, b, r);
    }
    assert Held(n, b) == Held(rest, b);
    assert forall r :: Stored(n, b, r) == Stored(rest, b, r);
    hide HasCover, Held, Stored;
    HandleKeepsCovered(shards, if e.repeats then n else rest, w.dst, w.box, w.content, e.fault, e.target, b);
  }

  predicate Moves(e: Event)
  {
    !e.ClientWrite? && !e.ProxyArrives?
  }

  ghost predicate Due(n: Network, b: Box, r: Replica)
  {
    Stored(n, b, r) || HasCover(n.work, b, r)
  }

  /** What happens to one shard's due box in a step that moves work along. */
  lemma MoveKeepsDueIff(shards: Shards, n: Network, e: Event, b: Box, r: Replica)
    requires Enabled(shards, n, e) && Moves(e) && r in shards(b)
    ensures Due(Step(shards, n, e), b, r) <==>
            Due(n, b, r) && !LosesFor(shards, n, e, b, r)
  {
    var w := n.work[e.i];
    var rest := Without(n.work, e.i);
    WithoutCover(n.work, e.i, b, r);
    match e {
      case RunTask(_, conns) => FanoutCover(w.src, shards(w.box), conns, w.box, w.content, rest, b, r);
      case Deliver(_, _) => QueueCover(rest, Requeued(w), b, r);
      case ConnectionCloses(_) => QueueCover(rest, Requeued(w), b, r);
      case Reconnects(_) => SnocCover(rest, Outgoing(w.src, w.dst, w.box, w.content), b, r);
      case _ =>
    }
    hide HasCover, QueueForRetry, Fanout, Without;
  }

  lemma MoveKeepsHeld(shards: Shards, n: Network, e: Event, b: Box)
    requires All(n.work, Backed(n)) && Enabled(shards, n, e) && Moves(e)
    ensures Held(Step(shards, n, e), b) <==> Held(n, b)
  {
    var w := n.work[e.i];
    assert Backed(n)(w);
    if Held(n, b) {
      var s :| (s, b) in n.store;
      assert (s, b) in Step(shards, n, e).store;
    }
    if Held(Step(shards, n, e), b) {
      var s :| (s, b) in Step(shards, n, e).store;
      assert (s, b) in n.store || (w.src, b) in n.store;
    }
  }

  lemma MoveKeepsCoveredIff(shards: Shards, n: Network, e: Event, b: Box)
    requires OnlyShards(shards, n) && All(n.work, Backed(n)) && Covered(shards, n, b)
    requires Enabled(shards, n, e) && Moves(e)
    ensures Covered(shards, Step(shards, n, e), b) <==> !LosesLast(shards, n, e, b)
  {
    var after := Step(shards, n, e);
    MoveKeepsHeld(shards, n, e, b);
    forall r | r in shards(b)
      ensures Due(after, b, r) <==> Due(n, b, r) && !LosesFor(shards, n, e, b, r)
    {
      MoveKeepsDueIff(shards, n, e, b, r);
    }
    if LosesLast(shards, n, e, b) {
      var r :| r in shards(b) && LosesFor(shards, n, e, b, r);
      assert Backed(n)(n.work[e.i]);
      assert (n.work[e.i].src, b) in n.store && Held(n, b);
      assert !Due(after, b, r);
    }
    hide Step, LosesFor, HasCover, Stored, Held;
    assert Covered(shards, after, b) <==> (Held(after, b) ==> forall r :: r in shards(b) ==> Due(after, b, r));
  }

  /** Every step keeps each shard holding or due the box, except exactly the one
      that forgets the last write on its way to a shard that lacks it. */
  lemma CoverageLostIff(shards: Shards, n: Network, e: Event, b: Box)
    requires OnlyShards(shards, n) && All(n.work, Backed(n)) && Covered(shards, n, b) && Enabled(shards, n, e)
    ensures Covered(shards, Step(shards, n, e), b) <==> !LosesLast(shards, n, e, b)
  {
    if e.ClientWrite? {
      HandleKeepsCovered(shards, n, e.replica, e.box, e.content, e.fault, e.target, b);
    } else if e.ProxyArrives? {
      ProxyKeepsCovered(shards, n, e, b);
    } else {
      MoveKeepsCoveredIff(shards, n, e, b);
    }
    hide Covered, All, OnlyShards, HandleMessage;
  }

  ghost predicate NeverLosesLast(shards: Shards, n: Network, events: seq<Event>, b: Box)
    requires IsRun(shards, n, events)
    decreases |events|
  {
    events == [] ||
    (!LosesLast(shards, n, events[0], b) && NeverLosesLast(shards, Step(shards, n, events[0]), events[1..], b))
  }

  lemma {:induction false} RunKeepsCovered(shards: Shards, n: Network, events: seq<Event>, b: Box)
    requires OnlyShards(shards, n) && All(n.work, Backed(n)) && Covered(shards, n, b)
    requires IsRun(shards, n, events) && NeverLosesLast(shards, n, events, b)
    ensures Covered(shards, After(shards, n, events), b)
    decreases |events|
  {
    if events != [] {
      CoverageLostIff(shards, n, events[0], b);
      StepKeepsOnlyShards(shards, n, events[0]);
      StepKeepsBacked(shards, n, events[0]);
      hide OnlyShards, All, Covered, LosesLast, Step;
      RunKeepsCovered(shards, Step(shards, n, events[0]), events[1..], b);
    }
  }

  // --------------------------------------------------------- a single content

  function Carries(b: Box, c: Content): Work -> bool
  {
    (w: Work) => w.box == b ==> w.content == c
  }

  /** Everything stored and on its way for the box is that content. */
  ghost predicate Uniform(n: Network, b: Box, c: Content)
  {
    && (forall r :: (r, b) in n.store ==> n.store[(r, b)] == c)
    && All(n.work, Carries(b, c))
  }

  predicate Writes(e: Event, b: Box, c: Content)
  {
    e.ClientWrite? && e.box == b ==> e.content == c
  }

  /** Moving work along keeps what is true of a piece wherever it goes. */
  lemma MoveKeepsAll(shards: Shards, n: Network, e: Event, p: Work -> bool)
    requires Enabled(shards, n, e) && Moves(e) && All(n.work, p)
    requires var w := n.work[e.i];
      && (w.Task? ==> forall dst :: p(Outgoing(w.src, dst, w.box, w.content)) && p(Retrying(w.src, dst, w.box, w.content)))
      && (w.Outgoing? ==> p(Requeued(w)))
      && (w.Retrying? ==> p(Outgoing(w.src, w.dst, w.box, w.content)))
    ensures All(Step(shards, n, e).work, p)
  {
    var w := n.work[e.i];
    var rest := Without(n.work, e.i);
    assert All(rest, p);
    if e.RunTask? {
      FanoutKeepsAll(w.src, shards(w.box), e.conns, w.box, w.content, rest, p);
    } else if w.Outgoing? {
      QueueKeepsAll(rest, Requeued(w), p);
    }
    hide QueueForRetry, Fanout, Without;
  }

  lemma StepKeepsUniform(shards: Shards, n: Network, e: Event, b: Box, c: Content)
    requires Uniform(n, b, c) && Enabled(shards, n, e) && Writes(e, b, c)
    ensures Uniform(Step(shards, n, e), b, c)
  {
    if e.ClientWrite? {
      MessageKeepsUniform(shards, n, e.replica, e.box, e.content, e.fault, e.target, b, c);
    } else {
      var w := n.work[e.i];
      assert Carries(b, c)(w);
      if e.ProxyArrives? {
        var rest := n.(work := Without(n.work, e.i));
        assert Uniform(rest, b, c);
        MessageKeepsUniform(shards, if e.repeats then n else rest, w.dst, w.box, w.content, e.fault, e.target, b, c);
      } else {
        MoveKeepsAll(shards, n, e, Carries(b, c));
      }
    }
    hide QueueForRetry, Fanout, Without, HandleMessage;
  }

  lemma MessageKeepsUniform(
    shards: Shards, n: Network, at: Replica, box: Box, content: Content, fault: Fault, target: Replica, b: Box, c: Content)
    requires Uniform(n, b, c) && (box == b ==> content == c)
    ensures Uniform(HandleMessage(shards, n, at, box, content, fault, target), b, c)
  {
  }

  lemma {:induction false} RunKeepsUniform(shards: Shards, n: Network, events: seq<Event>, b: Box, c: Content)
    requires Uniform(n, b, c) && IsRun(shards, n, events)
    requires forall k :: 0 <= k < |events| ==> Writes(events[k], b, c)
    ensures Uniform(After(shards, n, events), b, c)
    decreases |events|
  {
    if events != [] {
      assert Writes(events[0], b, c);
      StepKeepsUniform(shards, n, events[0], b, c);
      hide Uniform, Step, Writes;
      RunKeepsUniform(shards, Step(shards, n, events[0]), events[1..], b, c);
    }
  }

  /** Replication converges: in every run from the start in which all writes of a
      box carry one content and no last copy on its way is forgotten, a network
      with nothing left to deliver for the box has it at all of its shards, with
      that content, or at no replica at all. */
  lemma QuietShardsAgree(shards: Shards, events: seq<Event>, b: Box, c: Content)
    requires IsRun(shards, INITIAL, events) && NeverLosesLast(shards, INITIAL, events, b)
    requires forall k :: 0 <= k < |events| ==> Writes(events[k], b, c)
    requires forall w :: w in After(shards, INITIAL, events).work ==> w.box != b || w.Proxied?
    ensures var n := After(shards, INITIAL, events);
            || (forall r :: (r, b) !in n.store)
            || (forall r :: (r in shards(b) ==> (r, b) in n.store && n.store[(r, b)] == c)
                            && ((r, b) in n.store ==> r in shards(b)))
  {
    RunKeepsCovered(shards, INITIAL, events, b);
    RunKeepsUniform(shards, INITIAL, events, b, c);
    OnlyShardsEverStore(shards, INITIAL, events);
    var n := After(shards, INITIAL, events);
    assert forall r :: !HasCover(n.work, b, r);
    if r :| (r, b) in n.store {
      assert Held(n, b);
      assert forall s :: s in shards(b) ==> Stored(n, b, s);
    }
  }

  // ------------------------------------------------- no client write disappears

  /** A client's write of the box is on its way to a shard. */
  predicate ProxyOf(w: Work, b: Box)
  {
    w.Proxied? && w.box == b
  }

  ghost predicate HasProxy(work: seq<Work>, b: Box)
  {
    exists i :: 0 <= i < |work| && ProxyOf(work[i], b)
  }

  lemma SnocProxy(work: seq<Work>, w: Work, b: Box)
    ensures HasProxy(work + [w], b) <==> HasProxy(work, b) || ProxyOf(w, b)
  {
    if HasProxy(work, b) {
      var i :| 0 <= i < |work| && ProxyOf(work[i], b);
      assert (work + [w])[i] == work[i];
    }
    assert (work + [w])[|work|] == w;
  }

  lemma ConsProxy(w: Work, work: seq<Work>, b: Box)
    ensures HasProxy([w] + work, b) <==> ProxyOf(w, b) || HasProxy(work, b)
  {
    if HasProxy(work, b) {
      var i :| 0 <= i < |work| && ProxyOf(work[i], b);
      assert ([w] + work)[i + 1] == work[i];
    }
    assert ([w] + work)[0] == w;
  }

  lemma WithoutProxy(work: seq<Work>, i: nat, b: Box)
    requires i < |work|
    ensures HasProxy(work, b) <==> HasProxy(Without(work, i), b) || ProxyOf(work[i], b)
  {
    var rest := Without(work, i);
    if HasProxy(rest, b) {
      var k :| 0 <= k < |rest| && ProxyOf(rest[k], b);
      assert rest[k] == work[if k < i then k else k + 1];
    }
    if HasProxy(work, b) && !ProxyOf(work[i], b) {
      var k :| 0 <= k < |work| && ProxyOf(work[k], b);
      assert rest[if k < i then k else k - 1] == work[k];
    }
  }

  lemma {:induction false} QueueProxy(work: seq<Work>, w: Work, b: Box)
    requires w.Retrying?
    ensures HasProxy(QueueForRetry(work, w), b) <==> HasProxy(work, b)
  {
    if work == [] {
      assert QueueForRetry(work, w) == [w];
    } else {
      assert work == [work[0]] + work[1..];
      ConsProxy(work[0], work[1..], b);
      ConsProxy(w, work[1..], b);
      QueueProxy(work[1..], w, b);
      ConsProxy(work[0], QueueForRetry(work[1..], w), b);
    }
  }

  lemma {:induction false} FanoutProxy(
    src: Replica, targets: seq<Replica>, conns: set<Replica>, box: Box, content: Content, work: seq<Work>, b: Box)
    ensures HasProxy(Fanout(src, targets, conns, box, content, work), b) <==> HasProxy(work, b)
    decreases |targets|
  {
    if targets != [] {
      var dst := targets[0];
      SnocProxy(work, Outgoing(src, dst, box, content), b);
      QueueProxy(work, Retrying(src, dst, box, content), b);
      var next :=
        if dst == src then work
        else if dst in conns then work + [Outgoing(src, dst, box, content)]
        else QueueForRetry(work, Retrying(src, dst, box, content));
      hide QueueForRetry, HasProxy;
      FanoutProxy(src, targets[1..], conns, box, content, next, b);
    }
  }

  /** Some replica holds the box, or a client's write of it is on its way to a shard. */
  ghost predicate Carried(n: Network, b: Box)
  {
    Held(n, b) || HasProxy(n.work, b)
  }

  /** A client's write is taken: the shard it reaches holds the box afterwards, with that
      content unless it held another, and starts to replicate it when it accepted;
      any other replica passes it on, box and content, to a shard. */
  lemma ClientWriteIsTaken(shards: Shards, n: Network, e: Event)
    requires Enabled(shards, n, e) && e.ClientWrite? && e.fault == 0
    ensures var after := Step(shards, n, e);
            if e.replica in shards(e.box)
            then && (e.replica, e.box) in after.store
                 && ((e.replica, e.box) !in n.store ==> after.store[(e.replica, e.box)] == e.content)
                 && (after.store[(e.replica, e.box)] == e.content ==> Task(e.replica, e.box, e.content) in after.work)
            else && after.store == n.store
                 && exists w :: w in after.work && w.Proxied? && w.box == e.box && w.content == e.content && w.dst in shards(e.box)
    ensures Carried(Step(shards, n, e), e.box)
  {
    var after := Step(shards, n, e);
    var proxied := Proxied(e.replica, e.target, e.box, e.content);
    if e.replica in shards(e.box) {
      assert Held(after, e.box);
    } else {
      assert after.work[|n.work|] == proxied;
      assert ProxyOf(after.work[|n.work|], e.box);
      assert proxied in after.work;
    }
  }

  /** What is stored stays stored, with the same content. */
  lemma StepKeepsContents(shards: Shards, n: Network, e: Event)
    requires Enabled(shards, n, e)
    ensures forall k :: k in n.store ==> k in Step(shards, n, e).store && Step(shards, n, e).store[k] == n.store[k]
  {
    hide QueueForRetry, Fanout, Without;
  }

  lemma {:induction false} StoredContentNeverChanges(shards: Shards, n: Network, events: seq<Event>)
    requires IsRun(shards, n, events)
    ensures var after := After(shards, n, events);
            forall k :: k in n.store ==> k in after.store && after.store[k] == n.store[k]
    decreases |events|
  {
    if events != [] {
      StepKeepsContents(shards, n, events[0]);
      hide Step, Enabled;
      StoredContentNeverChanges(shards, Step(shards, n, events[0]), events[1..]);
    }
  }

  /** The step that ends a client's write of a box nobody holds: the proxying replica
      gives up, or the shard fails and the message is not sent again, and no other
      write of the box is on its way. */
  ghost predicate Abandons(n: Network, e: Event, b: Box)
  {
    && !Held(n, b) && (e.ProxyGivesUp? || (e.ProxyArrives? && e.fault != 0 && !e.repeats))
    && e.i < |n.work| && n.work[e.i].box == b && !HasProxy(Without(n.work, e.i), b)
  }

  lemma HeldStays(shards: Shards, n: Network, e: Event, b: Box)
    requires Enabled(shards, n, e) && Held(n, b)
    ensures Held(Step(shards, n, e), b)
  {
    StepKeepsContents(shards, n, e);
    var s :| (s, b) in n.store;
    assert (s, b) in Step(shards, n, e).store;
  }

  lemma MoveKeepsProxies(shards: Shards, n: Network, e: Event, b: Box)
    requires Enabled(shards, n, e) && Moves(e) && !e.ProxyGivesUp?
    ensures HasProxy(Step(shards, n, e).work, b) <==> HasProxy(n.work, b)
  {
    var w := n.work[e.i];
    var rest := Without(n.work, e.i);
    WithoutProxy(n.work, e.i, b);
    match e {
      case RunTask(_, conns) => FanoutProxy(w.src, shards(w.box), conns, w.box, w.content, rest, b);
      case Deliver(_, _) => QueueProxy(rest, Requeued(w), b);
      case ConnectionCloses(_) => QueueProxy(rest, Requeued(w), b);
      case Reconnects(_) => SnocProxy(rest, Outgoing(w.src, w.dst, w.box, w.content), b);
      case _ =>
    }
    hide HasProxy, QueueForRetry, Fanout, Without;
  }

  lemma ProxyStepCarriesIff(shards: Shards, n: Network, e: Event, b: Box)
    requires OnlyShards(shards, n) && Enabled(shards, n, e) && e.ProxyArrives? && !Held(n, b) && HasProxy(n.work, b)
    ensures Carried(Step(shards, n, e), b) <==> !Abandons(n, e, b)
  {
    var w := n.work[e.i];
    var rest := Without(n.work, e.i);
    assert ToShard(shards)(w);
    WithoutProxy(n.work, e.i, b);
    SnocProxy(rest, Task(w.dst, w.box, w.content), b);
    SnocProxy(n.work, Task(w.dst, w.box, w.content), b);
    var after := Step(shards, n, e);
    if e.fault == 0 && w.box == b {
      assert (w.dst, b) in after.store;
    } else {
      assert forall s :: (s, b) in after.store ==> (s, b) in n.store;
    }
    hide HasProxy, Without;
  }

  /** A box that is held or on its way stays so through every step, except exactly the
      one that abandons its last write. */
  lemma CarriedLostIff(shards: Shards, n: Network, e: Event, b: Box)
    requires OnlyShards(shards, n) && All(n.work, Backed(n)) && Enabled(shards, n, e) && Carried(n, b)
    ensures Carried(Step(shards, n, e), b) <==> !Abandons(n, e, b)
  {
    if Held(n, b) {
      HeldStays(shards, n, e, b);
    } else if e.ClientWrite? {
      var done := Task(e.replica, e.box, e.content);
      SnocProxy(n.work, done, b);
      SnocProxy(n.work, Proxied(e.replica, e.target, e.box, e.content), b);
    } else if e.ProxyArrives? {
      ProxyStepCarriesIff(shards, n, e, b);
    } else if e.ProxyGivesUp? {
      WithoutProxy(n.work, e.i, b);
    } else {
      MoveKeepsProxies(shards, n, e, b);
    }
    hide HasProxy, Without, OnlyShards, QueueForRetry, Fanout, All;
  }

  ghost predicate NeverAbandons(shards: Shards, n: Network, events: seq<Event>, b: Box)
    requires IsRun(shards, n, events)
    decreases |events|
  {
    events == [] || (!Abandons(n, events[0], b) && NeverAbandons(shards, Step(shards, n, events[0]), events[1..], b))
  }

  predicate WritesBox(e: Event, b: Box)
  {
    e.ClientWrite? && e.box == b && e.fault == 0
  }

  lemma {:induction false} WrittenBoxIsCarried(shards: Shards, n: Network, events: seq<Event>, b: Box)
    requires OnlyShards(shards, n) && All(n.work, Backed(n)) && IsRun(shards, n, events) && NeverAbandons(shards, n, events, b)
    requires Carried(n, b) || exists k :: 0 <= k < |events| && WritesBox(events[k], b)
    ensures Carried(After(shards, n, events), b)
    decreases |events|
  {
    if events != [] {
      var next := Step(shards, n, events[0]);
      if WritesBox(events[0], b) {
        ClientWriteIsTaken(shards, n, events[0]);
      } else if Carried(n, b) {
        CarriedLostIff(shards, n, events[0], b);
      } else {
        var k :| 0 <= k < |events| && WritesBox(events[k], b);
        assert events[1..][k - 1] == events[k];
      }
      StepKeepsOnlyShards(shards, n, events[0]);
      StepKeepsBacked(shards, n, events[0]);
      hide OnlyShards, All, Carried, Abandons, Step, Enabled;
      WrittenBoxIsCarried(shards, next, events[1..], b);
    }
  }

  /** A box some client wrote, always with the same content, is at every one of its
      shards with that content once the network has nothing left to do for it, in
      every run that neither abandons its last write nor forgets a last copy. */
  lemma WrittenBoxReachesEveryShard(shards: Shards, events: seq<Event>, b: Box, c: Content)
    requires IsRun(shards, INITIAL, events)
    requires NeverLosesLast(shards, INITIAL, events, b) && NeverAbandons(shards, INITIAL, events, b)
    requires forall k :: 0 <= k < |events| ==> Writes(events[k], b, c)
    requires exists k :: 0 <= k < |events| && WritesBox(events[k], b)
    requires forall w :: w in After(shards, INITIAL, events).work ==> w.box != b
    ensures var n := After(shards, INITIAL, events);
            forall r :: ((r, b) in n.store <==> r in shards(b)) && ((r, b) in n.store ==> n.store[(r, b)] == c)
  {
    WrittenBoxIsCarried(shards, INITIAL, events, b);
    QuietShardsAgree(shards, events, b, c);
    var n := After(shards, INITIAL, events);
    assert !HasProxy(n.work, b);
    assert Held(n, b);
    RunKeepsUniform(shards, INITIAL, events, b, c);
    hide IsRun, NeverLosesLast, NeverAbandons;
  }

  /** What the sender does with each answer: an accepted or already present box is done,
      a transient error is queued again with the same content, any other error is
      dropped; and the peer stored the box exactly when it did not fail. */
  lemma AnswersAreHandled(shards: Shards, n: Network, i: nat, fault: Fault)
    requires Enabled(shards, n, Deliver(i, Answered(fault)))
    ensures var w := n.work[i]; var after := Step(shards, n, Deliver(i, Answered(fault)));
            && (fault == 0 ==> (w.dst, w.box) in after.store && after.work == Without(n.work, i))
            && (fault != 0 ==> after.store == n.store)
            && (fault == 4 || fault == 7 ==> Retrying(w.src, w.dst, w.box, w.content) in after.work)
            && (fault != 4 && fault != 7 ==> after.work == Without(n.work, i))
  {
    var w := n.work[i];
    QueuedIsThere(Without(n.work, i), Requeued(w));
    hide QueueForRetry, Without;
  }

  lemma {:induction false} QueuedIsThere(work: seq<Work>, w: Work)
    ensures w in QueueForRetry(work, w)
  {
    if work != [] && !SameRetry(work[0], w) {
      QueuedIsThere(work[1..], w);
    }
  }

  lemma {:induction false} QueueKeepsMember(work: seq<Work>, w: Work, queued: Work)
    requires w in work && (SameRetry(w, queued) ==> w == queued)
    ensures w in QueueForRetry(work, queued)
  {
    if work[0] != w && !SameRetry(work[0], queued) {
      QueueKeepsMember(work[1..], w, queued);
    }
  }

  lemma {:induction false} FanoutKeepsMember(
    src: Replica, targets: seq<Replica>, conns: set<Replica>, box: Box, content: Content, work: seq<Work>, w: Work)
    requires w in work && (w.Outgoing? || (w.Retrying? && w.content == content))
    ensures w in Fanout(src, targets, conns, box, content, work)
    decreases |targets|
  {
    if targets != [] {
      QueueKeepsMember(work, w, Retrying(src, targets[0], box, content));
      hide QueueForRetry;
      var next :=
        if targets[0] == src then work
        else if targets[0] in conns then work + [Outgoing(src, targets[0], box, content)]
        else QueueForRetry(work, Retrying(src, targets[0], box, content));
      FanoutKeepsMember(src, targets[1..], conns, box, content, next, w);
    }
  }

  lemma {:induction false} FanoutReaches(
    src: Replica, targets: seq<Replica>, conns: set<Replica>, box: Box, content: Content, work: seq<Work>, r: Replica)
    requires r in targets && r != src
    ensures (if r in conns then Outgoing(src, r, box, content) else Retrying(src, r, box, content))
            in Fanout(src, targets, conns, box, content, work)
    decreases |targets|
  {
    var dst := targets[0];
    QueuedIsThere(work, Retrying(src, dst, box, content));
    hide QueueForRetry;
    var next :=
      if dst == src then work
      else if dst in conns then work + [Outgoing(src, dst, box, content)]
      else QueueForRetry(work, Retrying(src, dst, box, content));
    if dst == r {
      FanoutKeepsMember(src, targets[1..], conns, box, content, next,
        if r in conns then Outgoing(src, r, box, content) else Retrying(src, r, box, content));
    } else {
      FanoutReaches(src, targets[1..], conns, box, content, next, r);
    }
  }

  /** A replication goes to every other shard, at once to those with a connection and
      through the retry queue to those without. */
  lemma TaskReachesEveryOtherShard(shards: Shards, n: Network, i: nat, conns: set<Replica>, r: Replica)
    requires Enabled(shards, n, RunTask(i, conns)) && r in shards(n.work[i].box) && r != n.work[i].src
    ensures var w := n.work[i];
            (if r in conns then Outgoing(w.src, r, w.box, w.content) else Retrying(w.src, r, w.box, w.content))
            in Step(shards, n, RunTask(i, conns)).work
  {
    var w := n.work[i];
    FanoutReaches(w.src, shards(w.box), conns, w.box, w.content, Without(n.work, i), r);
  }

  /** A permanent error forgets the write: with a full store at the second shard the
      network comes to rest with the box at the first shard only. */
  lemma FullPeerBreaksConvergence(shards: Shards, b: Box, c: Content, x: Replica, y: Replica)
    requires x != y && shards(b) == [x, y]
    ensures var events := [ClientWrite(x, b, c, 0, x), RunTask(0, {y}), Deliver(0, Answered(6))];
            && IsRun(shards, INITIAL, events)
            && var n := After(shards, INITIAL, events);
               n.work == [] && (x, b) in n.store && (y, b) !in n.store
  {
    var e0, e1, e2 := ClientWrite(x, b, c, 0, x), RunTask(0, {y}), Deliver(0, Answered(6));
    var events := [e0, e1, e2];
    var n1 := Step(shards, INITIAL, e0);
    assert n1.work == [Task(x, b, c)];
    assert Without(n1.work, 0) == [];
    var n2 := Step(shards, n1, e1);
    assert [x, y][1..] == [y] && [y][1..] == [];
    assert Fanout(x, [y], {y}, b, c, []) == [Outgoing(x, y, b, c)];
    assert n2.work == [Outgoing(x, y, b, c)];
    assert Without(n2.work, 0) == [];
    var n3 := Step(shards, n2, e2);
    assert n3.work == [];
    assert events[1..] == [e1, e2] && events[1..][1..] == [e2] && [e2][1..] == [];
    hide Step, Fanout;
    assert IsRun(shards, n2, [e2]) && After(shards, n2, [e2]) == n3;
    assert IsRun(shards, n1, [e1, e2]) && After(shards, n1, [e1, e2]) == n3;
  }
}
