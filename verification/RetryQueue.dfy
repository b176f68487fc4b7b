/** The retry queue of replica/connector.go: commands for peers without a
    connection, deduplicated by what they are about, bounded per peer, pruned by
    age and drained when a connection appears. */
module RetryQueue {

  type Peer = nat
  type Ident = nat
  type Time = nat

  datatype Command = ReplicaWrite(boxID: Ident, body: nat) | ReplicaMessage(envelopeHash: Ident, body: nat) | Other(body: nat)

  datatype RetryCommand = RetryCommand(
    cmd: Command, idHash: Peer, ident: Ident, hasIdent: bool, attempts: nat, firstSeen: Time, lastTry: Time)

  /** The bounds are variables in the source so that tests can shrink them. */
  datatype Bounds = Bounds(maxPerPeer: nat, ttl: nat)

  type Queue = seq<RetryCommand>

  function CmdIdentity(cmd: Command): (Ident, bool)
  {
    match cmd
    case ReplicaWrite(boxID, _) => (boxID, true)
    case ReplicaMessage(envelopeHash, _) => (envelopeHash, true)
    case Other(_) => (0, false)
  }

  // ------------------------------------------------------------- specification

  function Filter(q: Queue, keep: RetryCommand -> bool): Queue
  {
    if q == [] then [] else if keep(q[0]) then [q[0]] + Filter(q[1..], keep) else Filter(q[1..], keep)
  }

  function Fresh(b: Bounds, now: Time): RetryCommand -> bool
  {
    (rc: RetryCommand) => now - rc.firstSeen <= b.ttl
  }

  function To(peer: Peer): RetryCommand -> bool
  {
    (rc: RetryCommand) => rc.idHash == peer
  }

  function Connected(conns: set<Peer>, yes: bool): RetryCommand -> bool
  {
    (rc: RetryCommand) => (rc.idHash in conns) == yes
  }

  predicate SameWork(rc: RetryCommand, peer: Peer, ident: Ident)
  {
    rc.idHash == peer && rc.hasIdent && rc.ident == ident
  }

  /** The first entry for the same work, or the length of the queue. */
  function FindWork(q: Queue, peer: Peer, ident: Ident): (i: nat)
    ensures i <= |q|
    ensures i < |q| ==> SameWork(q[i], peer, ident)
    ensures forall k :: 0 <= k < i ==> !SameWork(q[k], peer, ident)
  {
    if q == [] || SameWork(q[0], peer, ident) then 0 else FindWork(q[1..], peer, ident) + 1
  }

  function Again(rc: RetryCommand, cmd: Command, now: Time): RetryCommand
  {
    rc.(cmd := cmd, lastTry := now, attempts := rc.attempts + 1)
  }

  function RemoveFirst(q: Queue, peer: Peer): Queue
  {
    if q == [] then [] else if q[0].idHash == peer then q[1..] else [q[0]] + RemoveFirst(q[1..], peer)
  }

  function New(cmd: Command, peer: Peer, now: Time): RetryCommand
  {
    RetryCommand(cmd, peer, CmdIdentity(cmd).0, CmdIdentity(cmd).1, 1, now, now)
  }

  /** What is dispatched next is the entry of the highest index. */
  function Reversed(q: Queue): seq<(Peer, Command)>
  {
    if q == [] then [] else Reversed(q[1..]) + [(q[0].idHash, q[0].cmd)]
  }

  /** QueueForRetry after pruning. */
  function Enqueued(b: Bounds, q: Queue, cmd: Command, peer: Peer, now: Time): Queue
  {
    var (ident, hasIdent) := CmdIdentity(cmd);
    var i := FindWork(q, peer, ident);
    if hasIdent && i < |q| then q[i := Again(q[i], cmd, now)]
    else (if |Filter(q, To(peer))| >= b.maxPerPeer then RemoveFirst(q, peer) else q) + [New(cmd, peer, now)]
  }

  // ------------------------------------------------------------- list lemmas

  lemma {:induction false} FilterConcat(a: Queue, b: Queue, keep: RetryCommand -> bool)
    ensures Filter(a + b, keep) == Filter(a, keep) + Filter(b, keep)
  {
    if a == [] {
      assert a + b == b;
    } else {
      assert (a + b)[1..] == a[1..] + b && (a + b)[0] == a[0];
      FilterConcat(a[1..], b, keep);
      var rest, more := Filter(a[1..], keep), Filter(b, keep);
      assert Filter(a + b, keep) == if keep(a[0]) then [a[0]] + (rest + more) else rest + more;
      assert [a[0]] + (rest + more) == ([a[0]] + rest) + more;
    }
  }

  lemma FilterSnoc(q: Queue, i: nat, keep: RetryCommand -> bool)
    requires i < |q|
    ensures Filter(q[..i + 1], keep) == Filter(q[..i], keep) + (if keep(q[i]) then [q[i]] else [])
  {
    assert q[..i + 1] == q[..i] + [q[i]];
    FilterConcat(q[..i], [q[i]], keep);
    assert Filter([q[i]], keep) == if keep(q[i]) then [q[i]] else [];
  }

  lemma {:induction false} FilterLength(q: Queue, keep: RetryCommand -> bool)
    ensures |Filter(q, keep)| <= |q|
  {
    if q != [] {
      FilterLength(q[1..], keep);
    }
  }

  /** Everything kept satisfies the test and was there. */
  lemma {:induction false} FilterMembers(q: Queue, keep: RetryCommand -> bool, rc: RetryCommand)
    ensures rc in Filter(q, keep) <==> rc in q && keep(rc)
  {
    if q != [] {
      FilterMembers(q[1..], keep, rc);
      assert q == [q[0]] + q[1..];
    }
  }

  lemma {:induction false} FilterFilter(q: Queue, p: RetryCommand -> bool, r: RetryCommand -> bool)
    ensures Filter(Filter(q, p), r) == Filter(Filter(q, r), p)
  {
    if q != [] {
      FilterFilter(q[1..], p, r);
      FilterConcat(if p(q[0]) then [q[0]] else [], Filter(q[1..], p), r);
      FilterConcat(if r(q[0]) then [q[0]] else [], Filter(q[1..], r), p);
    }
  }

  lemma {:induction false} ReversedConcat(a: Queue, b: Queue)
    ensures Reversed(a + b) == Reversed(b) + Reversed(a)
  {
    if a == [] {
      assert a + b == b;
    } else {
      assert (a + b)[1..] == a[1..] + b;
      ReversedConcat(a[1..], b);
    }
  }

  lemma FilterCons(q: Queue, i: nat, keep: RetryCommand -> bool)
    requires i < |q|
    ensures Filter(q[i..], keep) == if keep(q[i]) then [q[i]] + Filter(q[i + 1..], keep) else Filter(q[i + 1..], keep)
  {
    assert q[i..][1..] == q[i + 1..];
  }

  lemma ReversedCons(rc: RetryCommand, rest: Queue)
    ensures Reversed([rc] + rest) == Reversed(rest) + [(rc.idHash, rc.cmd)]
  {
    assert ([rc] + rest)[1..] == rest;
  }

  lemma RemoveFirstCons(q: Queue, i: nat, peer: Peer)
    requires i < |q|
    ensures q[i].idHash == peer ==> q[..i] + RemoveFirst(q[i..], peer) == q[..i] + q[i + 1..]
    ensures q[i].idHash != peer ==> q[..i] + RemoveFirst(q[i..], peer) == q[..i + 1] + RemoveFirst(q[i + 1..], peer)
  {
    assert q[i..][1..] == q[i + 1..];
  }

  lemma RemoveFirstNone(peer: Peer)
    ensures RemoveFirst([], peer) == []
  {
  }

  lemma AppendLast<T>(a: seq<T>, b: seq<T>, x: T)
    ensures (a + b) + [x] == a + (b + [x])
  {
  }

  lemma RemoveAt<T>(q: seq<T>, i: nat, rest: seq<T>, queue: seq<T>)
    requires i < |q| && queue == q[..i + 1] + rest
    ensures queue[i] == q[i] && queue[..i] + queue[i + 1..] == q[..i] + rest && queue == q[..i] + ([q[i]] + rest)
  {
  }

  /** One round of the reverse scan: what is sent from i on. */
  lemma SentFrom(q: Queue, i: nat, conns: set<Peer>)
    requires i < |q|
    ensures Reversed(Filter(q[i..], Connected(conns, true)))
         == if q[i].idHash in conns
            then Reversed(Filter(q[i + 1..], Connected(conns, true))) + [(q[i].idHash, q[i].cmd)]
            else Reversed(Filter(q[i + 1..], Connected(conns, true)))
  {
    FilterCons(q, i, Connected(conns, true));
    ReversedCons(q[i], Filter(q[i + 1..], Connected(conns, true)));
    hide Filter, Reversed;
  }

  // ---------------------------------------------------------------- the class

  class Connector {
    const bounds: Bounds
    var conns: set<Peer>
    var retryQueue: Queue
    /** Everything handed to a connection, oldest first. */
    var dispatched: seq<(Peer, Command)>

    constructor (bounds: Bounds)
      ensures this.bounds == bounds && conns == {} && retryQueue == [] && dispatched == []
    {
      this.bounds := bounds;
      conns, retryQueue, dispatched := {}, [], [];
    }

    /** Compacts the queue in place; what is kept moves down over what expired. */
    method PruneRetryQueueLocked(now: Time)
      modifies `retryQueue
      ensures retryQueue == Filter(old(retryQueue), Fresh(bounds, now))
    {
      if |retryQueue| == 0 {
        return;
      }
      ghost var q := retryQueue;
      ghost var keep := Fresh(bounds, now);
      var j := 0;
      for i := 0 to |retryQueue|
        invariant j <= i <= |q| == |retryQueue|
        invariant retryQueue[..j] == Filter(q[..i], keep)
        invariant retryQueue[i..] == q[i..]
      {
        var rc := retryQueue[i];
        assert rc == q[i] by {
          assert retryQueue[i..][0] == q[i..][0];
        }
        FilterSnoc(q, i, keep);
        ghost var before := retryQueue;
        if now - rc.firstSeen <= bounds.ttl {
          if i != j {
            retryQueue := retryQueue[j := rc];
          }
          j := j + 1;
          assert retryQueue[..j] == before[..j - 1] + [rc];
        }
        assert retryQueue[i + 1..] == before[i..][1..] == q[i..][1..] == q[i + 1..];
      }
      assert q[..|q|] == q;
      retryQueue := retryQueue[..j];
    }

    method QueueForRetry(cmd: Command, idHash: Peer, now: Time, later: Time)
      modifies `retryQueue
      ensures retryQueue == Enqueued(bounds, Filter(old(retryQueue), Fresh(bounds, now)), cmd, idHash, later)
    {
      PruneRetryQueueLocked(now);
      var (ident, hasIdent) := CmdIdentity(cmd);
      ghost var q := retryQueue;
      hide Filter, RemoveFirst;
      var i, peerCount := ScanFor(idHash, ident, hasIdent);
      if i < |retryQueue| {
        var rc := retryQueue[i];
        retryQueue := retryQueue[i := rc.(cmd := cmd, lastTry := later, attempts := rc.attempts + 1)];
        return;
      }
      if peerCount >= bounds.maxPerPeer {
        EvictOldest(idHash);
      }
      retryQueue := retryQueue + [RetryCommand(cmd, idHash, ident, hasIdent, 1, later, later)];
    }

    /** The first loop of QueueForRetry: the entry to update, or how many entries
        the peer has when there is none. */
    method ScanFor(idHash: Peer, ident: Ident, hasIdent: bool) returns (i: nat, peerCount: nat)
      ensures i == if hasIdent then FindWork(retryQueue, idHash, ident) else |retryQueue|
      ensures i == |retryQueue| ==> peerCount == |Filter(retryQueue, To(idHash))|
    {
      ghost var q := retryQueue;
      ghost var found := FindWork(q, idHash, ident);
      assert Filter(q[..0], To(idHash)) == [];
      hide Filter, FindWork;
      i, peerCount := 0, 0;
      while i < |retryQueue|
        invariant 0 <= i <= |q|
        invariant peerCount == |Filter(q[..i], To(idHash))|
        invariant hasIdent ==> i <= found
      {
        var rc := retryQueue[i];
        FilterSnoc(q, i, To(idHash));
        if rc.idHash == idHash {
          if hasIdent && rc.hasIdent && rc.ident == ident {
            return;
          }
          peerCount := peerCount + 1;
        }
        i := i + 1;
      }
      assert q[..|q|] == q;
    }

    method EvictOldest(idHash: Peer)
      modifies `retryQueue
      ensures retryQueue == RemoveFirst(old(retryQueue), idHash)
    {
      ghost var q := retryQueue;
      assert q[0..] == q && q[..0] + RemoveFirst(q, idHash) == RemoveFirst(q, idHash);
      var i := 0;
      hide RemoveFirst;
      while i < |retryQueue|
        invariant 0 <= i <= |q| && retryQueue == q
        invariant RemoveFirst(q, idHash) == q[..i] + RemoveFirst(q[i..], idHash)
      {
        RemoveFirstCons(q, i, idHash);
        if retryQueue[i].idHash == idHash {
          retryQueue := retryQueue[..i] + retryQueue[i + 1..];
          return;
        }
        i := i + 1;
      }
      RemoveFirstNone(idHash);
      assert q[|q|..] == [] && q[..|q|] + [] == q;
    }

    method DispatchCommand(cmd: Command, idHash: Peer, now: Time, later: Time)
      modifies `retryQueue, `dispatched
      ensures idHash in conns ==> dispatched == old(dispatched) + [(idHash, cmd)] && retryQueue == old(retryQueue)
      ensures idHash !in conns ==>
        && dispatched == old(dispatched)
        && retryQueue == Enqueued(bounds, Filter(old(retryQueue), Fresh(bounds, now)), cmd, idHash, later)
    {
      if idHash in conns {
        dispatched := dispatched + [(idHash, cmd)];
      } else {
        QueueForRetry(cmd, idHash, now, later);
      }
    }

    /** Walks the queue from its end so that removing an entry moves none that is
        still to come. */
    method ProcessRetryQueue(now: Time)
      modifies `retryQueue, `dispatched
      ensures var kept := Filter(old(retryQueue), Fresh(bounds, now));
              && retryQueue == Filter(kept, Connected(conns, false))
              && dispatched == old(dispatched) + Reversed(Filter(kept, Connected(conns, true)))
    {
      PruneRetryQueueLocked(now);
      ghost var q := retryQueue;
      ghost var sent, waiting := Connected(conns, true), Connected(conns, false);
      var i := |retryQueue|;
      ghost var left, done: seq<(Peer, Command)> := q[i..], [];
      assert Filter(q[i..], waiting) == [] && Filter(q[i..], sent) == [] && Reversed([]) == [];
      hide Filter, Reversed;
      while i > 0
        invariant 0 <= i <= |q|
        invariant left == Filter(q[i..], waiting) && retryQueue == q[..i] + left
        invariant done == Reversed(Filter(q[i..], sent)) && dispatched == old(dispatched) + done
      {
        i := i - 1;
        RemoveAt(q, i, left, retryQueue);
        SentFrom(q, i, conns);
        FilterCons(q, i, waiting);
        var retryCmd := retryQueue[i];
        if retryCmd.idHash in conns {
          AppendLast(old(dispatched), done, (retryCmd.idHash, retryCmd.cmd));
          dispatched := dispatched + [(retryCmd.idHash, retryCmd.cmd)];
          retryQueue := retryQueue[..i] + retryQueue[i + 1..];
          done := done + [(retryCmd.idHash, retryCmd.cmd)];
        } else {
          left := [q[i]] + left;
        }
      }
      assert q[0..] == q;
    }
  }

  // --------------------------------------------------- a bounded queue per peer

  lemma {:induction false} RemoveFirstForOthers(q: Queue, peer: Peer, other: Peer)
    requires other != peer
    ensures Filter(RemoveFirst(q, peer), To(other)) == Filter(q, To(other))
  {
    if q != [] && q[0].idHash != peer {
      RemoveFirstForOthers(q[1..], peer, other);
      assert ([q[0]] + RemoveFirst(q[1..], peer))[1..] == RemoveFirst(q[1..], peer);
    }
  }

  lemma {:induction false} RemoveFirstForPeer(q: Queue, peer: Peer)
    ensures var mine := Filter(q, To(peer));
            Filter(RemoveFirst(q, peer), To(peer)) == if mine == [] then [] else mine[1..]
  {
    if q != [] && q[0].idHash != peer {
      RemoveFirstForPeer(q[1..], peer);
      assert ([q[0]] + RemoveFirst(q[1..], peer))[1..] == RemoveFirst(q[1..], peer);
    }
  }

  lemma FilterUpdate(q: Queue, i: nat, rc: RetryCommand, keep: RetryCommand -> bool)
    requires i < |q| && keep(q[i]) == keep(rc)
    ensures var k := |Filter(q[..i], keep)|;
            && (keep(rc) ==> k < |Filter(q, keep)| && Filter(q[i := rc], keep) == Filter(q, keep)[k := rc])
            && (!keep(rc) ==> Filter(q[i := rc], keep) == Filter(q, keep))
  {
    var rest := q[i + 1..];
    assert q == q[..i] + ([q[i]] + rest);
    assert q[i := rc] == q[..i] + ([rc] + rest);
    FilterConcat(q[..i], [q[i]] + rest, keep);
    FilterConcat(q[..i], [rc] + rest, keep);
    assert ([q[i]] + rest)[1..] == rest && ([rc] + rest)[1..] == rest;
  }

  /** Queueing for one peer changes no other peer's entries or their order. */
  lemma EnqueueLeavesOtherPeers(b: Bounds, q: Queue, cmd: Command, peer: Peer, now: Time, other: Peer)
    requires other != peer
    ensures Filter(Enqueued(b, q, cmd, peer, now), To(other)) == Filter(q, To(other))
  {
    var (ident, hasIdent) := CmdIdentity(cmd);
    var i := FindWork(q, peer, ident);
    if hasIdent && i < |q| {
      FilterUpdate(q, i, Again(q[i], cmd, now), To(other));
    } else {
      RemoveFirstForOthers(q, peer, other);
      var room := if |Filter(q, To(peer))| >= b.maxPerPeer then RemoveFirst(q, peer) else q;
      FilterConcat(room, [New(cmd, peer, now)], To(other));
      assert Filter([New(cmd, peer, now)], To(other)) == [];
    }
  }

  /** For its own peer it is a bounded first-in first-out queue: the same work is
      updated where it stands; new work goes last, and pushes out the peer's
      oldest entry when the peer is at its bound. */
  lemma EnqueueIsBoundedFifo(b: Bounds, q: Queue, cmd: Command, peer: Peer, now: Time)
    ensures var mine := Filter(q, To(peer));
            var next := Filter(Enqueued(b, q, cmd, peer, now), To(peer));
            var (ident, hasIdent) := CmdIdentity(cmd);
            if hasIdent && exists rc :: rc in q && SameWork(rc, peer, ident)
            then |next| == |mine| && exists k :: 0 <= k < |mine| && SameWork(mine[k], peer, ident)
                                                 && next == mine[k := RetryCommand(cmd, peer, ident, true,
                                                      mine[k].attempts + 1, mine[k].firstSeen, now)]
            else next == (if |mine| >= b.maxPerPeer && mine != [] then mine[1..] else mine)
                         + [RetryCommand(cmd, peer, ident, hasIdent, 1, now, now)]
  {
    var (ident, hasIdent) := CmdIdentity(cmd);
    var mine := Filter(q, To(peer));
    var i := FindWork(q, peer, ident);
    if hasIdent && i < |q| {
      assert q[i] in q && SameWork(q[i], peer, ident);
      FilterUpdate(q, i, Again(q[i], cmd, now), To(peer));
      FilterUpdate(q, i, q[i], To(peer));
      assert q[i := q[i]] == q;
      var k := |Filter(q[..i], To(peer))|;
      assert mine[k] == q[i];
    } else {
      RemoveFirstForPeer(q, peer);
      var room := if |mine| >= b.maxPerPeer then RemoveFirst(q, peer) else q;
      FilterConcat(room, [New(cmd, peer, now)], To(peer));
      assert Filter([New(cmd, peer, now)], To(peer)) == [New(cmd, peer, now)];
      assert mine != [] || |mine| < b.maxPerPeer || Filter(room, To(peer)) == [];
    }
  }

  // ------------------------------------------------------ over every run of it

  /** Every earlier entry is related to every later one. */
  ghost predicate Pairwise(q: Queue, rel: (RetryCommand, RetryCommand) -> bool)
  {
    forall i, j :: 0 <= i < j < |q| ==> rel(q[i], q[j])
  }

  function OtherWork(): (RetryCommand, RetryCommand) -> bool
  {
    (a: RetryCommand, c: RetryCommand) => !(a.hasIdent && SameWork(c, a.idHash, a.ident))
  }

  function NoYounger(): (RetryCommand, RetryCommand) -> bool
  {
    (a: RetryCommand, c: RetryCommand) => a.firstSeen <= c.firstSeen
  }

  lemma PairwiseTail(q: Queue, rel: (RetryCommand, RetryCommand) -> bool)
    requires Pairwise(q, rel) && q != []
    ensures Pairwise(q[1..], rel)
  {
  }

  lemma PairwiseCons(rc: RetryCommand, q: Queue, rel: (RetryCommand, RetryCommand) -> bool)
    requires Pairwise(q, rel) && (forall c :: c in q ==> rel(rc, c))
    ensures Pairwise([rc] + q, rel)
  {
  }

  lemma {:induction false} FilterPairwise(q: Queue, keep: RetryCommand -> bool, rel: (RetryCommand, RetryCommand) -> bool)
    requires Pairwise(q, rel)
    ensures Pairwise(Filter(q, keep), rel)
  {
    if q != [] {
      PairwiseTail(q, rel);
      FilterPairwise(q[1..], keep, rel);
      forall c | c in Filter(q[1..], keep)
        ensures rel(q[0], c)
      {
        FilterMembers(q[1..], keep, c);
      }
      if keep(q[0]) {
        PairwiseCons(q[0], Filter(q[1..], keep), rel);
      }
    }
  }

  lemma {:induction false} RemoveFirstMembers(q: Queue, peer: Peer, rc: RetryCommand)
    requires rc in RemoveFirst(q, peer)
    ensures rc in q
  {
    if q[0].idHash != peer && rc != q[0] {
      RemoveFirstMembers(q[1..], peer, rc);
    }
  }

  lemma {:induction false} RemoveFirstPairwise(q: Queue, peer: Peer, rel: (RetryCommand, RetryCommand) -> bool)
    requires Pairwise(q, rel)
    ensures Pairwise(RemoveFirst(q, peer), rel)
  {
    if q != [] {
      PairwiseTail(q, rel);
      if q[0].idHash != peer {
        RemoveFirstPairwise(q[1..], peer, rel);
        forall c | c in RemoveFirst(q[1..], peer)
          ensures rel(q[0], c)
        {
          RemoveFirstMembers(q[1..], peer, c);
        }
        PairwiseCons(q[0], RemoveFirst(q[1..], peer), rel);
      }
    }
  }

  /** The queue's promises at a time. */
  ghost predicate Kept(b: Bounds, q: Queue, now: Time)
  {
    && (forall peer :: |Filter(q, To(peer))| <= if b.maxPerPeer == 0 then 1 else b.maxPerPeer)
    && Pairwise(q, OtherWork())
    && Pairwise(q, NoYounger())
    && (forall rc :: rc in q ==> rc.firstSeen <= now && (rc.ident, rc.hasIdent) == CmdIdentity(rc.cmd))
  }

  lemma {:induction false} FilterShrinks(q: Queue, keep: RetryCommand -> bool, peer: Peer)
    ensures |Filter(Filter(q, keep), To(peer))| <= |Filter(q, To(peer))|
  {
    FilterFilter(q, keep, To(peer));
    FilterLength(Filter(q, To(peer)), keep);
  }

  lemma FilterKeeps(b: Bounds, q: Queue, keep: RetryCommand -> bool, now: Time, later: Time)
    requires Kept(b, q, now) && now <= later
    ensures Kept(b, Filter(q, keep), later)
  {
    FilterPairwise(q, keep, OtherWork());
    FilterPairwise(q, keep, NoYounger());
    forall rc | rc in Filter(q, keep)
      ensures rc in q
    {
      FilterMembers(q, keep, rc);
    }
    forall peer
      ensures |Filter(Filter(q, keep), To(peer))| <= |Filter(q, To(peer))|
    {
      FilterShrinks(q, keep, peer);
    }
    hide Filter, Pairwise, CmdIdentity;
  }

  lemma UpdateKeeps(q: Queue, cmd: Command, peer: Peer, now: Time, i: nat)
    requires i < |q| && SameWork(q[i], peer, CmdIdentity(cmd).0) && CmdIdentity(cmd).1
    requires Pairwise(q, OtherWork()) && Pairwise(q, NoYounger())
    ensures Pairwise(q[i := Again(q[i], cmd, now)], OtherWork()) && Pairwise(q[i := Again(q[i], cmd, now)], NoYounger())
  {
  }

  lemma AppendKeeps(q: Queue, cmd: Command, peer: Peer, now: Time)
    requires Pairwise(q, OtherWork()) && Pairwise(q, NoYounger())
    requires forall rc :: rc in q ==> rc.firstSeen <= now
    requires CmdIdentity(cmd).1 ==> forall rc :: rc in q ==> !SameWork(rc, peer, CmdIdentity(cmd).0)
    ensures Pairwise(q + [New(cmd, peer, now)], OtherWork()) && Pairwise(q + [New(cmd, peer, now)], NoYounger())
  {
  }

  lemma EnqueueKeepsPairs(b: Bounds, q: Queue, cmd: Command, peer: Peer, now: Time)
    requires Kept(b, q, now)
    ensures var n := Enqueued(b, q, cmd, peer, now);
            && Pairwise(n, OtherWork()) && Pairwise(n, NoYounger())
            && (forall rc :: rc in n ==> rc.firstSeen <= now && (rc.ident, rc.hasIdent) == CmdIdentity(rc.cmd))
  {
    var (ident, hasIdent) := CmdIdentity(cmd);
    var i := FindWork(q, peer, ident);
    if hasIdent && i < |q| {
      UpdateKeeps(q, cmd, peer, now, i);
      hide Pairwise, Filter, FindWork;
    } else {
      RemoveFirstPairwise(q, peer, OtherWork());
      RemoveFirstPairwise(q, peer, NoYounger());
      var room := if |Filter(q, To(peer))| >= b.maxPerPeer then RemoveFirst(q, peer) else q;
      forall rc | rc in room
        ensures rc in q
      {
        if rc !in q {
          RemoveFirstMembers(q, peer, rc);
        }
      }
      AppendKeeps(room, cmd, peer, now);
      hide Pairwise, Filter, RemoveFirst, FindWork, CmdIdentity;
    }
  }

  lemma EnqueueKeepsBound(b: Bounds, q: Queue, cmd: Command, peer: Peer, now: Time, any: Peer)
    requires forall p :: |Filter(q, To(p))| <= if b.maxPerPeer == 0 then 1 else b.maxPerPeer
    ensures |Filter(Enqueued(b, q, cmd, peer, now), To(any))| <= if b.maxPerPeer == 0 then 1 else b.maxPerPeer
  {
    if any != peer {
      EnqueueLeavesOtherPeers(b, q, cmd, peer, now, any);
    } else {
      EnqueueIsBoundedFifo(b, q, cmd, peer, now);
    }
    assert |Filter(q, To(peer))| <= if b.maxPerPeer == 0 then 1 else b.maxPerPeer;
    hide Filter, Enqueued;
  }

  datatype Event = Queue(cmd: Command, peer: Peer, pruned: Time, now: Time) | Drain(now: Time, conns: set<Peer>)

  /** QueueForRetry and processRetryQueue, as the class computes them. */
  function After(b: Bounds, q: Queue, e: Event): Queue
  {
    match e
    case Queue(cmd, peer, pruned, now) => Enqueued(b, Filter(q, Fresh(b, pruned)), cmd, peer, now)
    case Drain(now, conns) => Filter(Filter(q, Fresh(b, now)), Connected(conns, false))
  }

  predicate Clocked(now: Time, events: seq<Event>)
    decreases |events|
  {
    events == [] ||
    (now <= events[0].now && (events[0].Queue? ==> now <= events[0].pruned <= events[0].now)
     && Clocked(events[0].now, events[1..]))
  }

  function AfterAll(b: Bounds, q: Queue, events: seq<Event>): Queue
    decreases |events|
  {
    if events == [] then q else AfterAll(b, After(b, q, events[0]), events[1..])
  }

  function EndTime(now: Time, events: seq<Event>): Time
    decreases |events|
  {
    if events == [] then now else EndTime(events[0].now, events[1..])
  }

  lemma EventKeeps(b: Bounds, q: Queue, now: Time, e: Event)
    requires Kept(b, q, now) && now <= e.now && (e.Queue? ==> now <= e.pruned <= e.now)
    ensures Kept(b, After(b, q, e), e.now)
  {
    match e {
      case Queue(cmd, peer, pruned, later) =>
        FilterKeeps(b, q, Fresh(b, pruned), now, later);
        var kept := Filter(q, Fresh(b, pruned));
        EnqueueKeepsPairs(b, kept, cmd, peer, later);
        forall any
          ensures |Filter(Enqueued(b, kept, cmd, peer, later), To(any))| <= if b.maxPerPeer == 0 then 1 else b.maxPerPeer
        {
          EnqueueKeepsBound(b, kept, cmd, peer, later, any);
        }
        hide Filter, Enqueued, Pairwise, CmdIdentity;
      case Drain(later, conns) =>
        FilterKeeps(b, q, Fresh(b, later), now, later);
        FilterKeeps(b, Filter(q, Fresh(b, later)), Connected(conns, false), later, later);
    }
  }

  /** Whatever is queued and drained, no peer ever has more than its bound, no two
      entries are for the same work of the same peer, and the queue stays in the
      order in which its entries were first seen. A bound of zero acts as one. */
  lemma {:induction false} EveryRunKeepsBounds(b: Bounds, q: Queue, now: Time, events: seq<Event>)
    requires Kept(b, q, now) && Clocked(now, events)
    ensures Kept(b, AfterAll(b, q, events), EndTime(now, events))
    decreases |events|
  {
    if events != [] {
      EventKeeps(b, q, now, events[0]);
      hide Kept, After;
      EveryRunKeepsBounds(b, After(b, q, events[0]), events[0].now, events[1..]);
    }
  }

  /** Draining sends or keeps every entry exactly once. */
  lemma {:induction false} DrainConserves(q: Queue, conns: set<Peer>)
    ensures multiset(Reversed(q))
         == multiset(Reversed(Filter(q, Connected(conns, true)))) + multiset(Reversed(Filter(q, Connected(conns, false))))
  {
    if q != [] {
      var rest := q[1..];
      assert q == [q[0]] + rest && q[0..] == q;
      DrainConserves(rest, conns);
      ReversedCons(q[0], rest);
      SentFrom(q, 0, conns);
      FilterCons(q, 0, Connected(conns, false));
      ReversedCons(q[0], Filter(rest, Connected(conns, false)));
      hide Filter, Reversed;
    }
  }

  // ------------------------------------------------------- what leaves the queue

  /** An entry survives a drain exactly when it is no older than the time to live and
      its peer has no connection. */
  lemma DrainKeepsIff(b: Bounds, q: Queue, now: Time, conns: set<Peer>, rc: RetryCommand)
    ensures rc in After(b, q, Drain(now, conns)) <==>
              rc in q && now <= rc.firstSeen + b.ttl && rc.idHash !in conns
  {
    FilterMembers(q, Fresh(b, now), rc);
    FilterMembers(Filter(q, Fresh(b, now)), Connected(conns, false), rc);
    hide Filter;
  }

  /** Queueing for a peer removes from another peer's entries exactly the expired ones. */
  lemma QueueKeepsOthersIff(b: Bounds, q: Queue, cmd: Command, peer: Peer, pruned: Time, now: Time, rc: RetryCommand)
    requires rc.idHash != peer
    ensures rc in After(b, q, Queue(cmd, peer, pruned, now)) <==> rc in q && pruned <= rc.firstSeen + b.ttl
  {
    var kept := Filter(q, Fresh(b, pruned));
    FilterMembers(q, Fresh(b, pruned), rc);
    EnqueueLeavesOtherPeers(b, kept, cmd, peer, now, rc.idHash);
    FilterMembers(kept, To(rc.idHash), rc);
    FilterMembers(Enqueued(b, kept, cmd, peer, now), To(rc.idHash), rc);
    hide Filter, Enqueued;
  }

  /** What was queued is there, tried just now. */
  lemma QueuedIsThere(b: Bounds, q: Queue, cmd: Command, peer: Peer, now: Time)
    ensures exists rc :: rc in Enqueued(b, q, cmd, peer, now) && rc.cmd == cmd && rc.idHash == peer && rc.lastTry == now
  {
    var (ident, hasIdent) := CmdIdentity(cmd);
    var i := FindWork(q, peer, ident);
    var next := Enqueued(b, q, cmd, peer, now);
    var last := if hasIdent && i < |q| then i else |next| - 1;
    assert next[last] in next;
    hide Filter, RemoveFirst, FindWork;
  }

  /** From an empty queue, no run leaves one peer two writes of the same box or two
      messages with the same envelope hash. */
  lemma NoWorkTwice(b: Bounds, now: Time, events: seq<Event>, i: nat, j: nat)
    requires Clocked(now, events) && i < j < |AfterAll(b, [], events)|
    ensures var q := AfterAll(b, [], events);
            q[i].idHash == q[j].idHash ==>
              && !(q[i].cmd.ReplicaWrite? && q[j].cmd.ReplicaWrite? && q[i].cmd.boxID == q[j].cmd.boxID)
              && !(q[i].cmd.ReplicaMessage? && q[j].cmd.ReplicaMessage? && q[i].cmd.envelopeHash == q[j].cmd.envelopeHash)
  {
    var q := AfterAll(b, [], events);
    EveryRunKeepsBounds(b, [], now, events);
    assert q[i] in q && q[j] in q && OtherWork()(q[i], q[j]);
    hide AfterAll, Clocked, Filter;
  }
}
