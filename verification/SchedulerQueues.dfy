/** What the round-robin scheduler of client/listener.go owes each client over a run:
    every item it was given, once and in order, and its place among the others. */
module SchedulerQueues {
  import opened Options
  import opened Scheduler

  // ------------------------------------------------------------- nothing is lost

  /** What a step gives this client's items of one kind. */
  function ServedNow(t: Turns, e: Event, a: AppID, isResend: bool): seq<nat>
  {
    if !e.Picks? then [] else
      match Pick(t).1
      case Some(Resend(app, surbID)) => if app == a && isResend then [surbID] else []
      case Some(Fresh(app, request)) => if app == a && !isResend then [request] else []
      case None => []
  }

  /** The same over a run, oldest first. */
  function ServedTo(t: Turns, events: seq<Event>, a: AppID, isResend: bool): seq<nat>
    requires IsRun(t, events)
    decreases |events|
  {
    if events == [] then []
    else ServedNow(t, events[0], a, isResend) + ServedTo(Step(t, events[0]), events[1..], a, isResend)
  }

  function ArrivesNow(e: Event, a: AppID, isResend: bool): seq<nat>
  {
    if e.Arrives? && e.id == a && e.isResend == isResend then [e.item] else []
  }

  function Arrivals(events: seq<Event>, a: AppID, isResend: bool): seq<nat>
  {
    if events == [] then [] else ArrivesNow(events[0], a, isResend) + Arrivals(events[1..], a, isResend)
  }

  function Items(c: Conn, isResend: bool): seq<nat>
  {
    if isResend then c.resendCh else c.requestCh
  }

  /** The client keeps its connection. */
  predicate Stays(e: Event, a: AppID)
  {
    !(e.Leaves? && e.id == a) && !(e.Resumes? && e.oldID == a)
  }

  lemma PickQueues(t: Turns, a: AppID, isResend: bool)
    requires t.Valid() && a in t.conns
    ensures a in Pick(t).0.conns
    ensures ServedNow(t, Picks, a, isResend) + Items(Pick(t).0.conns[a], isResend) == Items(t.conns[a], isResend)
  {
    hide Pick;
    PickServesOldestWork(t);
  }

  lemma StepQueues(t: Turns, e: Event, a: AppID, isResend: bool)
    requires t.Valid() && Enabled(t, e) && a in t.conns && Stays(e, a)
    ensures a in Step(t, e).conns
    ensures ServedNow(t, e, a, isResend) + Items(Step(t, e).conns[a], isResend)
         == Items(t.conns[a], isResend) + ArrivesNow(e, a, isResend)
  {
    if e.Picks? {
      PickQueues(t, a, isResend);
      hide Pick, ServedNow;
      var items := Items(t.conns[a], isResend);
      assert items + [] == items;
    } else {
      assert ServedNow(t, e, a, isResend) == [];
      var items := Items(Step(t, e).conns[a], isResend);
      assert [] + items == items;
    }
  }

  lemma Regroup(s0: seq<nat>, s1: seq<nat>, end: seq<nat>, mid: seq<nat>, start: seq<nat>, a0: seq<nat>, a1: seq<nat>)
    requires s1 + end == mid + a1 && s0 + mid == start + a0
    ensures (s0 + s1) + end == start + (a0 + a1)
  {
    assert (s0 + s1) + end == s0 + (s1 + end);
    assert s0 + (mid + a1) == (s0 + mid) + a1;
  }

  /** A client that stays connected gets every request and every resend it was given,
      once, in the order they came: what was served and what is still queued is what
      was queued at first and what arrived. */
  lemma {:induction false} EveryItemIsServedInOrder(t: Turns, events: seq<Event>, a: AppID, isResend: bool)
    requires t.Valid() && IsRun(t, events) && a in t.conns
    requires forall k :: 0 <= k < |events| ==> Stays(events[k], a)
    ensures a in After(t, events).conns
    ensures ServedTo(t, events, a, isResend) + Items(After(t, events).conns[a], isResend)
         == Items(t.conns[a], isResend) + Arrivals(events, a, isResend)
    decreases |events|
  {
    hide Step, Enabled, Items, ServedNow, ArrivesNow;
    if events == [] {
      var items := Items(t.conns[a], isResend);
      assert [] + items == items + [];
    } else {
      var e, rest := events[0], events[1..];
      var next := Step(t, e);
      StepQueues(t, e, a, isResend);
      StepKeepsValid(t, e);
      EveryItemIsServedInOrder(next, rest, a, isResend);
      Regroup(ServedNow(t, e, a, isResend), ServedTo(next, rest, a, isResend), Items(After(next, rest).conns[a], isResend),
              Items(next.conns[a], isResend), Items(t.conns[a], isResend), ArrivesNow(e, a, isResend),
              Arrivals(rest, a, isResend));
    }
  }

  // --------------------------------------------------------- turns keep their order

  lemma OtherPlace(s: seq<AppID>, a: AppID, id: AppID)
    requires a in s && a != id
    ensures IndexOf(s, a) < |s| && IndexOf(s, a) != IndexOf(s, id)
  {
    hide IndexOf;
  }

  lemma PlaceAfterInsert(s: seq<AppID>, at: nat, id: AppID, a: AppID)
    requires Distinct(s) && at <= |s| && id !in s && a in s
    ensures IndexOf(Inserted(s, at, id), a) == IndexOf(s, a) + if IndexOf(s, a) < at then 0 else 1
  {
    var k := IndexOf(s, a);
    hide IndexOf;
    InsertedDistinct(s, at, id);
    IndexIn(Inserted(s, at, id), a, if k < at then k else k + 1);
  }

  lemma PlaceAfterRemove(s: seq<AppID>, id: AppID, a: AppID)
    requires Distinct(s) && a in s && a != id
    ensures IndexOf(Removed(s, id), a) == IndexOf(s, a) - if IndexOf(s, id) < IndexOf(s, a) then 1 else 0
  {
    hide IndexOf, Distinct;
    var k, i := IndexOf(s, a), IndexOf(s, id);
    OtherPlace(s, a, id);
    if i < |s| {
      CutAt(s, i, k);
      RemovedDistinct(s, id);
      IndexIn(Removed(s, id), a, if i < k then k - 1 else k);
    }
  }

  /** A pick always moves on: the client it served, or the next in turn when nobody has
      work, goes last with those before it, and the others keep their order. */
  lemma PickMovesOn(t: Turns)
    requires t.Valid() && t.rotation != []
    ensures var (after, served) := Pick(t);
            exists k :: && 0 < k <= |t.rotation| && after.rotation == t.rotation[k..] + t.rotation[..k]
                        && (if served.Some? then t.rotation[k - 1] == served.value.app else k == 1)
  {
    var i := FirstReady(t.conns, t.rotation);
    hide FirstReady, Distinct;
    var k := if i < |t.rotation| then i + 1 else 1;
    assert Pick(t).0.rotation == t.rotation[k..] + t.rotation[..k];
  }

  /** Coming and going changes nothing for two clients that stay: the one that was to be
      visited first still is. */
  lemma OrderIsKept(t: Turns, e: Event, a: AppID, b: AppID)
    requires t.Valid() && Enabled(t, e) && !e.Picks? && a in t.conns && b in t.conns && Stays(e, a) && Stays(e, b)
    ensures Ahead(t, a) < Ahead(t, b) <==> Ahead(Step(t, e), a) < Ahead(Step(t, e), b)
  {
    hide Distinct, IndexOf, Inserted, Removed, Replaced;
    assert a in t.rotation && b in t.rotation;
    match e {
      case Joins(id, at) =>
        PlaceAfterInsert(t.rotation, at, id, a);
        PlaceAfterInsert(t.rotation, at, id, b);
      case Leaves(id) =>
        PlaceAfterRemove(t.rotation, id, a);
        PlaceAfterRemove(t.rotation, id, b);
        OtherPlace(t.rotation, a, id);
        OtherPlace(t.rotation, b, id);
      case Resumes(oldID, existing) =>
        IndexAfterReplace(t.rotation, oldID, existing, a);
        IndexAfterReplace(t.rotation, oldID, existing, b);
      case _ =>
    }
  }

  /** A resumed session keeps the place and the queues of the connection it came in on. */
  lemma ResumedKeepsItsTurn(t: Turns, oldID: AppID, existing: AppID)
    requires t.Valid() && Enabled(t, Resumes(oldID, existing))
    ensures var after := Step(t, Resumes(oldID, existing));
            && existing in after.conns && after.conns[existing] == t.conns[oldID] && oldID !in after.conns
            && Ahead(after, existing) == Ahead(t, oldID) && |after.rotation| == |t.rotation|
  {
    assert oldID in t.rotation && existing !in t.rotation;
    var k := IndexOf(t.rotation, oldID);
    hide IndexOf;
    ReplacedDistinct(t.rotation, oldID, existing);
    IndexIn(Replaced(t.rotation, oldID, existing), existing, k);
  }
}
