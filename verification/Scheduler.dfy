/** The round-robin scheduler over thin clients (client/listener.go): a map of
    connections, the order in which they take turns, and a cursor into it that has
    to survive joins, leaves and resumed sessions.

    The rotation, the clients in the order in which they will be visited next, is
    what the operations are specified by; no cursor arithmetic is left in it. */
module Scheduler {
  import opened Options

  type AppID = nat
  type SurbID = nat
  type Request = nat

  datatype Conn = Conn(resendCh: seq<SurbID>, requestCh: seq<Request>)
  {
    predicate Ready() { resendCh != [] || requestCh != [] }

    /** A resend goes before a new request. */
    function Taken(): Conn
      requires Ready()
    {
      if resendCh != [] then this.(resendCh := resendCh[1..]) else this.(requestCh := requestCh[1..])
    }
  }

  datatype Served = Resend(app: AppID, surbID: SurbID) | Fresh(app: AppID, request: Request)

  function ServedBy(app: AppID, c: Conn): Served
    requires c.Ready()
  {
    if c.resendCh != [] then Resend(app, c.resendCh[0]) else Fresh(app, c.requestCh[0])
  }

  /** conns and the rotation: all there is to a scheduler's behaviour. */
  datatype Turns = Turns(conns: map<AppID, Conn>, rotation: seq<AppID>)
  {
    ghost predicate Valid() {
      && Distinct(rotation)
      && (forall id :: id in rotation <==> id in conns)
    }
  }

  function Rotation(connOrder: seq<AppID>, rrCursor: nat): seq<AppID>
    requires rrCursor <= |connOrder|
  {
    connOrder[rrCursor..] + connOrder[..rrCursor]
  }

  // ------------------------------------------------------ what the calls compute

  /** The position of the first client with something to send, or the length. */
  function FirstReady(conns: map<AppID, Conn>, rotation: seq<AppID>): (i: nat)
    ensures i <= |rotation|
    ensures i < |rotation| ==> rotation[i] in conns && conns[rotation[i]].Ready()
    ensures forall k :: 0 <= k < i ==> rotation[k] !in conns || !conns[rotation[k]].Ready()
  {
    if rotation == [] || (rotation[0] in conns && conns[rotation[0]].Ready()) then 0
    else FirstReady(conns, rotation[1..]) + 1
  }

  /** Visited clients go to the back. */
  function Rotated(rotation: seq<AppID>, k: nat): seq<AppID>
    requires k <= |rotation|
  {
    rotation[k..] + rotation[..k]
  }

  function Pick(t: Turns): (Turns, Option<Served>)
  {
    var i := FirstReady(t.conns, t.rotation);
    if i < |t.rotation| then
      var id := t.rotation[i];
      (Turns(t.conns[id := t.conns[id].Taken()], Rotated(t.rotation, i + 1)), Some(ServedBy(id, t.conns[id])))
    else if t.rotation == [] then (t, None)
    else (t.(rotation := Rotated(t.rotation, 1)), None)
  }

  function IndexOf(s: seq<AppID>, id: AppID): (i: nat)
    ensures i <= |s|
    ensures i < |s| ==> s[i] == id
    ensures forall k :: 0 <= k < i ==> s[k] != id
  {
    if s == [] || s[0] == id then 0 else IndexOf(s[1..], id) + 1
  }

  function Removed(s: seq<AppID>, id: AppID): seq<AppID>
  {
    var i := IndexOf(s, id);
    if i < |s| then s[..i] + s[i + 1..] else s
  }

  function Replaced(s: seq<AppID>, id: AppID, replacement: AppID): seq<AppID>
  {
    var i := IndexOf(s, id);
    if i < |s| then s[i := replacement] else s
  }

  function Unregister(t: Turns, id: AppID): Turns
  {
    Turns(t.conns - {id}, Removed(t.rotation, id))
  }

  /** A resumed session takes its connection's turn. */
  function Resume(t: Turns, oldID: AppID, existing: AppID): Turns
    requires oldID in t.conns
  {
    Turns((t.conns - {oldID})[existing := t.conns[oldID]], Replaced(t.rotation, oldID, existing))
  }

  // ---------------------------------------------------------------- list lemmas

  /** The source's remainder, of naturals only. */
  function Modulo(x: nat, n: nat): nat
    requires n > 0
  {
    x % n
  }

  function Wrap(x: nat, n: nat): nat
  {
    if x < n then x else x - n
  }

  /** Who is visited k turns from now. */
  lemma RotationAt(order: seq<AppID>, cursor: nat, k: nat)
    requires cursor <= |order| && k < |order|
    ensures Wrap(cursor + k, |order|) < |order|
    ensures Rotation(order, cursor)[k] == order[Wrap(cursor + k, |order|)]
  {
  }

  lemma VisitedAt(order: seq<AppID>, cursor: nat, k: nat)
    requires cursor < |order| && k < |order|
    ensures Modulo(cursor + k, |order|) < |order| == |Rotation(order, cursor)|
    ensures order[Modulo(cursor + k, |order|)] == Rotation(order, cursor)[k]
  {
    hide Modulo;
    WrapModulo(cursor + k, |order|);
    RotationAt(order, cursor, k);
  }

  lemma AdvanceTo(order: seq<AppID>, cursor: nat, k: nat, m: nat)
    requires cursor < |order| && k <= |order| && m == Wrap(cursor + k, |order|)
    ensures m <= |order| && Rotation(order, m) == Rotated(Rotation(order, cursor), k)
  {
    var n := |order|;
    var r := Rotation(order, cursor);
    var rotated := Rotated(r, k);
    forall j | 0 <= j < n
      ensures Rotation(order, m)[j] == rotated[j]
    {
      RotationAt(order, m, j);
      var from := if j < n - k then k + j else j - (n - k);
      assert rotated[j] == r[from];
      RotationAt(order, cursor, from);
      hide Rotation, Rotated;
    }
  }

  lemma AdvanceRotation(order: seq<AppID>, cursor: nat, k: nat)
    requires cursor < |order| && k <= |order|
    ensures Modulo(cursor + k, |order|) < |order|
    ensures Rotation(order, Modulo(cursor + k, |order|)) == Rotated(Rotation(order, cursor), k)
  {
    hide Modulo;
    WrapModulo(cursor + k, |order|);
    AdvanceTo(order, cursor, k, Wrap(cursor + k, |order|));
    hide Rotation, Rotated;
  }

  lemma WrapModulo(x: nat, n: nat)
    requires 0 < n && x < 2 * n
    ensures Modulo(x, n) == Wrap(x, n) < n
  {
    if x >= n {
      assert x == n + (x - n);
    }
  }

  /** A cursor at the end is a cursor at the start. */
  lemma WrapRotation(order: seq<AppID>)
    ensures Rotation(order, |order|) == Rotation(order, 0)
  {
  }

  ghost predicate Distinct(s: seq<AppID>)
  {
    forall i, j :: 0 <= i < j < |s| ==> s[i] != s[j]
  }

  lemma IndexIn(s: seq<AppID>, id: AppID, k: nat)
    requires Distinct(s) && k < |s| && s[k] == id
    ensures IndexOf(s, id) == k
  {
    hide IndexOf;
  }

  lemma RotationDistinct(order: seq<AppID>, cursor: nat)
    requires cursor <= |order| && Distinct(order)
    ensures Distinct(Rotation(order, cursor))
    ensures forall id :: id in Rotation(order, cursor) <==> id in order
  {
    assert order == order[..cursor] + order[cursor..];
  }

  /** Removing from a rotation is removing from the order and moving the cursor. */
  lemma RemoveFromRotation(order: seq<AppID>, cursor: nat, i: nat)
    requires cursor <= |order| && i < |order| && Distinct(order)
    ensures var left := order[..i] + order[i + 1..];
            var c := if cursor > i then cursor - 1 else cursor;
            c <= |left| && Rotation(left, c) == Removed(Rotation(order, cursor), order[i])
  {
    var k := if i >= cursor then i - cursor else |order| - cursor + i;
    hide IndexOf, Rotation, Distinct;
    PlaceInRotation(order, cursor, i, k);
    if i >= cursor {
      RemoveAfterCursor(order, cursor, i);
    } else {
      RemoveBeforeCursor(order, cursor, i);
    }
  }

  lemma PlaceInRotation(order: seq<AppID>, cursor: nat, i: nat, k: nat)
    requires cursor <= |order| && i < |order| && Distinct(order)
    requires k == if i >= cursor then i - cursor else |order| - cursor + i
    ensures |Rotation(order, cursor)| == |order| && IndexOf(Rotation(order, cursor), order[i]) == k
  {
    RotationLength(order, cursor);
    RotationAt(order, cursor, k);
    RotationDistinct(order, cursor);
    hide IndexOf, Rotation, Distinct;
    IndexIn(Rotation(order, cursor), order[i], k);
  }

  lemma RemoveAfterCursor(order: seq<AppID>, cursor: nat, i: nat)
    requires cursor <= i < |order|
    ensures var r := Rotation(order, cursor);
            r[..i - cursor] + r[i - cursor + 1..] == Rotation(order[..i] + order[i + 1..], cursor)
  {
    CutAfter(order[..cursor], order[cursor..i], order[i], order[i + 1..]);
    assert order == order[..cursor] + order[cursor..i] + [order[i]] + order[i + 1..];
    assert order[..i] == order[..cursor] + order[cursor..i];
    hide Rotation;
  }

  lemma RemoveBeforeCursor(order: seq<AppID>, cursor: nat, i: nat)
    requires i < cursor <= |order|
    ensures var r := Rotation(order, cursor);
            var k := |order| - cursor + i;
            r[..k] + r[k + 1..] == Rotation(order[..i] + order[i + 1..], cursor - 1)
  {
    CutBefore(order[..i], order[i], order[i + 1..cursor], order[cursor..]);
    assert order == order[..i] + [order[i]] + order[i + 1..cursor] + order[cursor..];
    assert order[i + 1..] == order[i + 1..cursor] + order[cursor..];
    hide Rotation;
  }

  lemma CutAfter(a: seq<AppID>, b: seq<AppID>, x: AppID, c: seq<AppID>)
    ensures var r := Rotation(a + b + [x] + c, |a|);
            r[..|b|] + r[|b| + 1..] == Rotation((a + b) + c, |a|)
  {
    assert (a + b + [x] + c)[|a|..] == b + [x] + c && (a + b + [x] + c)[..|a|] == a;
    assert ((a + b) + c)[|a|..] == b + c && ((a + b) + c)[..|a|] == a;
  }

  lemma CutBefore(a: seq<AppID>, x: AppID, b: seq<AppID>, c: seq<AppID>)
    ensures var r := Rotation(a + [x] + b + c, |a| + 1 + |b|);
            r[..|c| + |a|] + r[|c| + |a| + 1..] == Rotation(a + (b + c), |a| + |b|)
  {
    var cut := |a| + 1 + |b|;
    assert (a + [x] + b + c)[cut..] == c && (a + [x] + b + c)[..cut] == a + [x] + b;
    assert (a + (b + c))[|a| + |b|..] == c && (a + (b + c))[..|a| + |b|] == a + b;
  }

  lemma ReplaceInRotation(order: seq<AppID>, cursor: nat, id: AppID, i: nat)
    requires cursor <= |order| && i < |order| && Distinct(order)
    ensures Rotation(order[i := id], cursor) == Replaced(Rotation(order, cursor), order[i], id)
  {
    var k := if i >= cursor then i - cursor else |order| - cursor + i;
    RotationAt(order, cursor, k);
    RotationDistinct(order, cursor);
    IndexIn(Rotation(order, cursor), order[i], k);
    hide IndexOf, Wrap;
  }

  /** A newcomer takes the place at, which is just behind the last in the order. */
  function Inserted(s: seq<AppID>, at: nat, id: AppID): seq<AppID>
    requires at <= |s|
  {
    s[..at] + [id] + s[at..]
  }

  function Register(t: Turns, id: AppID, at: nat): Turns
    requires at <= |t.rotation|
  {
    Turns(t.conns[id := Conn([], [])], Inserted(t.rotation, at, id))
  }

  lemma InsertIntoRotation(order: seq<AppID>, cursor: nat, id: AppID)
    requires cursor <= |order|
    ensures Rotation(order + [id], cursor) == Inserted(Rotation(order, cursor), |order| - cursor, id)
  {
    assert (order + [id])[cursor..] == order[cursor..] + [id] && (order + [id])[..cursor] == order[..cursor];
  }

  // ---------------------------------------------------------------- the class

  class Listener {
    var conns: map<AppID, Conn>
    var connOrder: seq<AppID>
    var rrCursor: nat

    /** connOrder lists the connected clients, each once, with the cursor in it. */
    ghost predicate Valid()
      reads this
    {
      && Distinct(connOrder)
      && (forall id :: id in connOrder <==> id in conns)
      && (if connOrder == [] then rrCursor == 0 else rrCursor < |connOrder|)
    }

    ghost function State(): Turns
      reads this
      requires Valid()
    {
      Turns(conns, Rotation(connOrder, rrCursor))
    }

    constructor ()
      ensures Valid() && State() == Turns(map[], [])
    {
      conns, connOrder, rrCursor := map[], [], 0;
    }

    method RegisterConn(appID: AppID)
      requires Valid() && appID !in conns
      modifies this
      ensures Valid() && State() == Register(old(State()), appID, old(|connOrder| - rrCursor))
    {
      InsertIntoRotation(connOrder, rrCursor, appID);
      conns := conns[appID := Conn([], [])];
      connOrder := connOrder + [appID];
    }

    method UnregisterConn(appID: AppID)
      requires Valid()
      modifies this
      ensures Valid() && State() == Unregister(old(State()), appID)
    {
      hide Rotation, IndexOf, Distinct, Modulo;
      RemovalIsRotationRemoval(connOrder, rrCursor, appID);
      conns := conns - {appID};
      var i := FindInOrder(appID);
      if i < |connOrder| {
        connOrder := connOrder[..i] + connOrder[i + 1..];
        if rrCursor > i {
          rrCursor := rrCursor - 1;
        }
      }
      var n := |connOrder|;
      if n == 0 {
        rrCursor := 0;
      } else if rrCursor >= n {
        rrCursor := Modulo(rrCursor, n);
      }
    }

    method FindInOrder(appID: AppID) returns (i: nat)
      ensures i == IndexOf(connOrder, appID)
    {
      hide IndexOf;
      i := 0;
      while i < |connOrder|
        invariant i <= IndexOf(connOrder, appID)
      {
        if connOrder[i] == appID {
          return;
        }
        i := i + 1;
      }
    }

    /** The part of handleSessionToken for a known token. The listing stays one without
        duplicates exactly when the resumed session has no other live connection. */
    method ResumeSession(oldAppID: AppID, existingAppID: AppID)
      requires Valid() && oldAppID in conns
      modifies this
      ensures conns == (old(conns) - {oldAppID})[existingAppID := old(conns[oldAppID])]
      ensures connOrder == Replaced(old(connOrder), oldAppID, existingAppID) && rrCursor == old(rrCursor)
      ensures Valid() <==> existingAppID !in old(conns) || existingAppID == oldAppID
      ensures Valid() ==> State() == Resume(old(State()), oldAppID, existingAppID)
    {
      hide Rotation, IndexOf, Distinct;
      ReplacementIsRotationReplacement(connOrder, rrCursor, oldAppID, existingAppID);
      var c := conns[oldAppID];
      conns := conns - {oldAppID};
      conns := conns[existingAppID := c];
      var i := FindInOrder(oldAppID);
      if i < |connOrder| {
        connOrder := connOrder[i := existingAppID];
      }
    }

    /** The loop of PickNextRequest up to the first client with something to send. */
    method FindReady() returns (i: nat, idx: nat)
      requires Valid() && connOrder != []
      ensures i == FirstReady(conns, Rotation(connOrder, rrCursor)) <= |connOrder|
      ensures i < |connOrder| ==>
        && idx == Modulo(rrCursor + i, |connOrder|) < |connOrder|
        && connOrder[idx] == Rotation(connOrder, rrCursor)[i]
    {
      RotationLength(connOrder, rrCursor);
      ghost var rotation := Rotation(connOrder, rrCursor);
      hide Rotation, FirstReady, Distinct, Modulo;
      var n := |connOrder|;
      i, idx := 0, 0;
      while i < n
        invariant i <= FirstReady(conns, rotation)
      {
        idx := Modulo(rrCursor + i, n);
        VisitedAt(connOrder, rrCursor, i);
        var c := conns[connOrder[idx]];
        if c.resendCh != [] || c.requestCh != [] {
          return;
        }
        i := i + 1;
      }
    }

    method PickNextRequest() returns (r: Option<Served>)
      requires Valid()
      modifies this
      ensures Valid() && (State(), r) == Pick(old(State()))
    {
      hide Rotation, Rotated, FirstReady, Distinct, Modulo;
      RotationLength(connOrder, rrCursor);
      var n := |connOrder|;
      if n == 0 {
        EmptyRotation();
        return None;
      }
      var i, idx := FindReady();
      if i < n {
        NextTurn(connOrder, rrCursor, i);
        var id := connOrder[idx];
        var c := conns[id];
        if c.resendCh != [] {
          r := Some(Resend(id, c.resendCh[0]));
          conns := conns[id := c.(resendCh := c.resendCh[1..])];
        } else {
          r := Some(Fresh(id, c.requestCh[0]));
          conns := conns[id := c.(requestCh := c.requestCh[1..])];
        }
        rrCursor := Modulo(idx + 1, n);
        return;
      }
      AdvanceRotation(connOrder, rrCursor, 1);
      rrCursor := Modulo(rrCursor + 1, n);
      return None;
    }
  }

  lemma EmptyRotation()
    ensures Rotation([], 0) == [] && FirstReady(map[], []) == 0
  {
  }

  lemma NextTurn(order: seq<AppID>, cursor: nat, i: nat)
    requires cursor < |order| && i < |order|
    ensures var next := Modulo(Modulo(cursor + i, |order|) + 1, |order|);
            next < |order| && Rotation(order, next) == Rotated(Rotation(order, cursor), i + 1)
  {
    hide Rotation, Rotated, Modulo;
    NextModulo(cursor + i, |order|);
    AdvanceRotation(order, cursor, i + 1);
  }

  /** The cursor after unregisterConn. */
  function CursorWithout(order: seq<AppID>, cursor: nat, id: AppID): nat
  {
    var i := IndexOf(order, id);
    var c := if i < |order| && cursor > i then cursor - 1 else cursor;
    var n := |Removed(order, id)|;
    if n == 0 then 0 else if c >= n then Modulo(c, n) else c
  }

  lemma RemovalIsRotationRemoval(order: seq<AppID>, cursor: nat, id: AppID)
    requires Distinct(order) && (if order == [] then cursor == 0 else cursor < |order|)
    ensures var left := Removed(order, id);
            var c := CursorWithout(order, cursor, id);
            && Distinct(left) && (forall x :: x in left <==> x in order && x != id)
            && (if left == [] then c == 0 else c < |left|)
            && Rotation(left, c) == Removed(Rotation(order, cursor), id)
  {
    var i := IndexOf(order, id);
    hide Rotation, IndexOf, Distinct, Modulo;
    if i < |order| {
      RemoveFromRotation(order, cursor, i);
      LeftBehind(order, i);
      CursorIsPlaced(order[..i] + order[i + 1..], if cursor > i then cursor - 1 else cursor);
    } else {
      RotationDistinct(order, cursor);
      NotThere(Rotation(order, cursor), id);
    }
  }

  /** A cursor at the end goes back to the start. */
  lemma CursorIsPlaced(left: seq<AppID>, c: nat)
    requires c <= |left|
    ensures var placed := if |left| == 0 then 0 else if c >= |left| then Modulo(c, |left|) else c;
            (if left == [] then placed == 0 else placed < |left|) && Rotation(left, placed) == Rotation(left, c)
  {
    hide Rotation, Modulo;
    if c == |left| && left != [] {
      WrapModulo(c, |left|);
    }
    WrapRotation(left);
  }

  lemma NotThere(s: seq<AppID>, id: AppID)
    requires id !in s
    ensures IndexOf(s, id) == |s|
  {
    hide IndexOf;
  }

  lemma ReplacementIsRotationReplacement(order: seq<AppID>, cursor: nat, id: AppID, replacement: AppID)
    requires Distinct(order) && cursor < |order| && id in order
    ensures var i := IndexOf(order, id);
            && i < |order|
            && Rotation(order[i := replacement], cursor) == Replaced(Rotation(order, cursor), id, replacement)
            && (Distinct(order[i := replacement]) <==> replacement !in order || replacement == id)
            && (Distinct(order[i := replacement]) ==>
                  forall x :: x in order[i := replacement] <==> x == replacement || (x in order && x != id))
  {
    var i := IndexOf(order, id);
    hide IndexOf;
    ReplaceInRotation(order, cursor, replacement, i);
    if replacement == id {
      assert order[i := replacement] == order;
    } else if replacement !in order {
      ReplacedIn(order, i, replacement);
    } else {
      var k :| 0 <= k < |order| && order[k] == replacement;
      var next := order[i := replacement];
      assert next[i] == next[k] && i != k;
      assert !Distinct(next) by { assert if i < k then next[i] == next[k] else next[k] == next[i]; }
    }
    hide Rotation, Replaced, Distinct;
  }

  lemma RotationLength(order: seq<AppID>, cursor: nat)
    requires cursor <= |order|
    ensures |Rotation(order, cursor)| == |order|
  {
  }

  lemma NextModulo(x: nat, n: nat)
    requires 0 < n && x < 2 * n - 1
    ensures Modulo(Modulo(x, n) + 1, n) == Modulo(x + 1, n)
  {
    hide Modulo;
    WrapModulo(x, n);
    WrapModulo(x + 1, n);
    WrapModulo(Wrap(x, n) + 1, n);
  }

  lemma LeftBehind(order: seq<AppID>, i: nat)
    requires Distinct(order) && i < |order|
    ensures var left := order[..i] + order[i + 1..];
            Distinct(left) && forall id :: id in left <==> id in order && id != order[i]
  {
    var left := order[..i] + order[i + 1..];
    forall id
      ensures id in left <==> id in order && id != order[i]
    {
      if id in order && id != order[i] {
        var k :| 0 <= k < |order| && order[k] == id;
        assert left[if k < i then k else k - 1] == id;
      }
    }
  }

  lemma ReplacedIn(order: seq<AppID>, i: nat, id: AppID)
    requires Distinct(order) && i < |order| && id !in order
    ensures Distinct(order[i := id]) && forall x :: x in order[i := id] <==> x == id || (x in order && x != order[i])
  {
    forall x
      ensures x in order[i := id] <==> x == id || (x in order && x != order[i])
    {
      assert order[i := id][i] == id;
      if x in order && x != order[i] {
        var k :| 0 <= k < |order| && order[k] == x;
        assert order[i := id][k] == x;
      }
    }
  }

  // ------------------------------------------------------------------- runs

  datatype Event =
    | Joins(id: AppID, at: nat)
    | Leaves(id: AppID)
    | Resumes(oldID: AppID, existing: AppID)
    | Arrives(id: AppID, isResend: bool, item: nat)
    | Picks

  predicate Enabled(t: Turns, e: Event)
  {
    match e
    case Joins(id, at) => id !in t.conns && at <= |t.rotation|
    case Resumes(oldID, existing) => oldID in t.conns && existing !in t.conns
    case Arrives(id, _, _) => id in t.conns
    case _ => true
  }

  function Queued(c: Conn, isResend: bool, item: nat): Conn
  {
    if isResend then c.(resendCh := c.resendCh + [item]) else c.(requestCh := c.requestCh + [item])
  }

  function Step(t: Turns, e: Event): Turns
    requires Enabled(t, e)
  {
    match e
    case Joins(id, at) => Register(t, id, at)
    case Leaves(id) => Unregister(t, id)
    case Resumes(oldID, existing) => Resume(t, oldID, existing)
    case Arrives(id, isResend, item) => t.(conns := t.conns[id := Queued(t.conns[id], isResend, item)])
    case Picks => Pick(t).0
  }

  predicate IsRun(t: Turns, events: seq<Event>)
    decreases |events|
  {
    events == [] || (Enabled(t, events[0]) && IsRun(Step(t, events[0]), events[1..]))
  }

  function After(t: Turns, events: seq<Event>): Turns
    requires IsRun(t, events)
    decreases |events|
  {
    if events == [] then t else After(Step(t, events[0]), events[1..])
  }

  lemma InsertedDistinct(s: seq<AppID>, at: nat, id: AppID)
    requires Distinct(s) && at <= |s| && id !in s
    ensures Distinct(Inserted(s, at, id))
    ensures forall x :: x in Inserted(s, at, id) <==> x in s || x == id
  {
    assert s == s[..at] + s[at..];
  }

  lemma RotatedDistinct(s: seq<AppID>, k: nat)
    requires Distinct(s) && k <= |s|
    ensures Distinct(Rotated(s, k))
    ensures forall x :: x in Rotated(s, k) <==> x in s
  {
    assert s == s[..k] + s[k..];
  }

  lemma RemovedDistinct(s: seq<AppID>, id: AppID)
    requires Distinct(s)
    ensures Distinct(Removed(s, id))
    ensures forall x :: x in Removed(s, id) <==> x in s && x != id
  {
    if IndexOf(s, id) < |s| {
      LeftBehind(s, IndexOf(s, id));
    }
    hide IndexOf, Distinct;
  }

  lemma ReplacedDistinct(s: seq<AppID>, id: AppID, replacement: AppID)
    requires Distinct(s) && id in s && replacement !in s
    ensures Distinct(Replaced(s, id, replacement))
    ensures forall x :: x in Replaced(s, id, replacement) <==> x == replacement || (x in s && x != id)
  {
    ReplacedIn(s, IndexOf(s, id), replacement);
    hide IndexOf, Distinct;
  }

  lemma StepKeepsValid(t: Turns, e: Event)
    requires t.Valid() && Enabled(t, e)
    ensures Step(t, e).Valid()
  {
    hide Distinct, Rotated, Inserted, Removed, Replaced, FirstReady;
    match e {
      case Joins(id, at) => InsertedDistinct(t.rotation, at, id);
      case Leaves(id) => RemovedDistinct(t.rotation, id);
      case Resumes(oldID, existing) => ReplacedDistinct(t.rotation, oldID, existing);
      case Picks =>
        var i := FirstReady(t.conns, t.rotation);
        if i < |t.rotation| {
          RotatedDistinct(t.rotation, i + 1);
        } else if t.rotation != [] {
          RotatedDistinct(t.rotation, 1);
        }
      case _ =>
    }
  }

  /** In every run, every connected client has exactly one turn in the rotation. */
  lemma {:induction false} OneTurnEach(t: Turns, events: seq<Event>)
    requires t.Valid() && IsRun(t, events)
    ensures After(t, events).Valid()
    decreases |events|
  {
    if events != [] {
      StepKeepsValid(t, events[0]);
      hide Step;
      OneTurnEach(Step(t, events[0]), events[1..]);
    }
  }

  /** A pick takes the oldest item of one client and changes no other client: a new
      request only when that client has nothing to resend, and nothing at all only
      when no client has work. */
  lemma PickServesOldestWork(t: Turns)
    requires t.Valid()
    ensures var (after, served) := Pick(t);
            match served
            case None => after.conns == t.conns && forall id :: id in t.conns ==> !t.conns[id].Ready()
            case Some(Resend(app, surbID)) =>
              && app in t.conns && app in after.conns && after.conns == t.conns[app := after.conns[app]]
              && t.conns[app].resendCh == [surbID] + after.conns[app].resendCh
              && t.conns[app].requestCh == after.conns[app].requestCh
            case Some(Fresh(app, request)) =>
              && app in t.conns && app in after.conns && after.conns == t.conns[app := after.conns[app]]
              && t.conns[app].resendCh == [] == after.conns[app].resendCh
              && t.conns[app].requestCh == [request] + after.conns[app].requestCh
  {
    var i := FirstReady(t.conns, t.rotation);
    hide FirstReady, Rotated, Distinct;
    if i < |t.rotation| {
      var c := t.conns[t.rotation[i]];
      assert c.resendCh != [] ==> c.resendCh == [c.resendCh[0]] + c.resendCh[1..];
      assert c.requestCh != [] ==> c.requestCh == [c.requestCh[0]] + c.requestCh[1..];
    } else {
      forall id | id in t.conns
        ensures !t.conns[id].Ready()
      {
        assert id in t.rotation;
        var k :| 0 <= k < |t.rotation| && t.rotation[k] == id;
      }
    }
  }

  // ------------------------------------------------------------- bounded wait

  /** How many clients are visited before this one. */
  function Ahead(t: Turns, a: AppID): nat
  {
    IndexOf(t.rotation, a)
  }

  predicate Waiting(t: Turns, a: AppID)
  {
    a in t.conns && t.conns[a].Ready()
  }

  predicate Serves(t: Turns, e: Event, a: AppID)
  {
    e.Picks? && Pick(t).1.Some? && Pick(t).1.value.app == a
  }

  /** The client stays and is not served. */
  predicate PassesOver(t: Turns, e: Event, a: AppID)
  {
    && !(e.Leaves? && e.id == a) && !(e.Resumes? && e.oldID == a)
    && !Serves(t, e, a)
  }

  function Cost(e: Event): int
  {
    if e.Picks? then -1 else if e.Joins? then 1 else 0
  }

  lemma IndexAfterInsert(s: seq<AppID>, at: nat, id: AppID, a: AppID)
    requires Distinct(s) && at <= |s| && id !in s && a in s
    ensures IndexOf(Inserted(s, at, id), a) <= IndexOf(s, a) + 1
  {
    var k := IndexOf(s, a);
    hide IndexOf;
    InsertedDistinct(s, at, id);
    IndexIn(Inserted(s, at, id), a, if k < at then k else k + 1);
  }

  lemma CutAt(s: seq<AppID>, i: nat, k: nat)
    requires i < |s| && k < |s| && k != i
    ensures (s[..i] + s[i + 1..])[if i < k then k - 1 else k] == s[k]
  {
  }

  lemma IndexAfterRemove(s: seq<AppID>, id: AppID, a: AppID)
    requires Distinct(s) && a in s && a != id
    ensures IndexOf(Removed(s, id), a) <= IndexOf(s, a)
  {
    hide IndexOf, Distinct;
    var k, i := IndexOf(s, a), IndexOf(s, id);
    if i < |s| {
      CutAt(s, i, k);
      RemovedDistinct(s, id);
      IndexIn(Removed(s, id), a, if i < k then k - 1 else k);
    }
  }

  lemma IndexAfterReplace(s: seq<AppID>, id: AppID, replacement: AppID, a: AppID)
    requires Distinct(s) && a in s && a != id && id in s && replacement !in s
    ensures IndexOf(Replaced(s, id, replacement), a) == IndexOf(s, a)
  {
    var k := IndexOf(s, a);
    hide IndexOf;
    ReplacedDistinct(s, id, replacement);
    IndexIn(Replaced(s, id, replacement), a, k);
  }

  lemma IndexAfterRotate(s: seq<AppID>, n: nat, a: AppID)
    requires Distinct(s) && a in s && n <= IndexOf(s, a)
    ensures IndexOf(Rotated(s, n), a) == IndexOf(s, a) - n
  {
    var k := IndexOf(s, a);
    hide IndexOf;
    RotatedDistinct(s, n);
    IndexIn(Rotated(s, n), a, k - n);
  }

  lemma PickBringsNearer(t: Turns, a: AppID)
    requires t.Valid() && Waiting(t, a) && !Serves(t, Picks, a)
    ensures Waiting(Pick(t).0, a)
    ensures Ahead(Pick(t).0, a) < Ahead(t, a)
  {
    hide Distinct, IndexOf, FirstReady, Rotated;
    var i := FirstReady(t.conns, t.rotation);
    var k := IndexOf(t.rotation, a);
    assert t.rotation[k] == a && i <= k by {
      assert a in t.rotation;
    }
    assert t.rotation[i] == a ==> Serves(t, Picks, a);
    IndexAfterRotate(t.rotation, i + 1, a);
  }

  /** A pick that passes over a waiting client brings its turn nearer; a newcomer
      delays it by one; nothing else delays it. */
  lemma TurnComesNearer(t: Turns, e: Event, a: AppID)
    requires t.Valid() && Enabled(t, e) && Waiting(t, a) && PassesOver(t, e, a)
    ensures Waiting(Step(t, e), a)
    ensures Ahead(Step(t, e), a) <= Ahead(t, a) + Cost(e)
  {
    hide Distinct, IndexOf, Pick, Inserted, Removed, Replaced;
    match e {
      case Joins(id, at) => IndexAfterInsert(t.rotation, at, id, a);
      case Leaves(id) => IndexAfterRemove(t.rotation, id, a);
      case Resumes(oldID, existing) => IndexAfterReplace(t.rotation, oldID, existing, a);
      case Picks => PickBringsNearer(t, a);
      case _ =>
    }
  }

  function PickCount(events: seq<Event>): nat
  {
    if events == [] then 0 else (if events[0].Picks? then 1 else 0) + PickCount(events[1..])
  }

  function JoinCount(events: seq<Event>): nat
  {
    if events == [] then 0 else (if events[0].Joins? then 1 else 0) + JoinCount(events[1..])
  }

  /** The client stays registered, and no pick of the run serves it. */
  predicate StaysUnserved(t: Turns, events: seq<Event>, a: AppID)
    requires IsRun(t, events)
    decreases |events|
  {
    events == [] || (PassesOver(t, events[0], a) && StaysUnserved(Step(t, events[0]), events[1..], a))
  }

  lemma {:induction false} WaitIsBounded(t: Turns, events: seq<Event>, a: AppID)
    requires t.Valid() && Waiting(t, a) && IsRun(t, events) && StaysUnserved(t, events, a)
    ensures PickCount(events) <= Ahead(t, a) + JoinCount(events)
    decreases |events|
  {
    if events != [] {
      TurnComesNearer(t, events[0], a);
      StepKeepsValid(t, events[0]);
      hide Step, Ahead, Waiting, PassesOver;
      WaitIsBounded(Step(t, events[0]), events[1..], a);
    }
  }

  /** Bounded wait: whatever joins, leaves, resumes and arrives, a client with work
      that stays registered is served by one of the next n picks, n being the
      clients connected now plus those that join meanwhile. */
  lemma ServedInTime(t: Turns, events: seq<Event>, a: AppID)
    requires t.Valid() && Waiting(t, a) && IsRun(t, events)
    requires PickCount(events) >= |t.rotation| + JoinCount(events)
    ensures !StaysUnserved(t, events, a)
  {
    assert a in t.rotation;
    assert Ahead(t, a) < |t.rotation|;
    if StaysUnserved(t, events, a) {
      WaitIsBounded(t, events, a);
    }
  }
}
