/** What a replica's clients see of its store: the write and read handlers of
    replica/handlers.go over the database, a register per box as the reference,
    and the proof that no run of requests can tell the two apart. */
module BoxRegister {
  import opened Options
  import opened Bytes
  import opened Trunnel
  import opened BoxStore

  const SUCCESS: Byte := 0
  const BOX_ID_NOT_FOUND: Byte := 1
  const INVALID_BOX_ID: Byte := 2
  const INVALID_SIGNATURE: Byte := 3
  const DATABASE_FAILURE: Byte := 4
  const INVALID_PAYLOAD: Byte := 5
  const STORAGE_FULL: Byte := 6
  const BOX_ALREADY_EXISTS: Byte := 10
  const TOMBSTONE: Byte := 11

  /** The signature scheme and the geometry: which box IDs are public keys, what
      verifies under them, and the one admitted payload size. */
  datatype Scheme = Scheme(isKey: BoxID -> bool, verifies: (BoxID, seq<Byte>, Signature) -> bool, payloadSize: nat)

  datatype Request = Read(boxID: BoxID) | Write(boxID: BoxID, content: Content) | Collect | Pressure(full: bool)

  datatype Timed = At(now: Uint64, request: Request)

  /** A reply's error code, with the box for a read that found one. */
  datatype Reply = Reply(code: Byte, content: Option<Content>)

  /** The checks before the store is touched; None admits the write. */
  function Admission(scheme: Scheme, boxID: BoxID, content: Content): Option<Byte>
  {
    if content.payload != [] && |content.payload| != scheme.payloadSize then Some(INVALID_PAYLOAD)
    else if !scheme.isKey(boxID) then Some(INVALID_BOX_ID)
    else if !scheme.verifies(boxID, content.payload, content.signature) then Some(INVALID_SIGNATURE)
    else None
  }

  function CodeOf(r: WriteResult): Byte
  {
    match r
    case Stored | Identical => SUCCESS
    case BoxAlreadyExists => BOX_ALREADY_EXISTS
    case StorageFull => STORAGE_FULL
  }

  function ReadReply(r: ReadResult): Reply
  {
    match r
    case Found(content) => Reply(if content.payload == [] then TOMBSTONE else SUCCESS, Some(content))
    case BoxIDNotFound => Reply(BOX_ID_NOT_FOUND, None)
    case FailedToDeserialize => Reply(DATABASE_FAILURE, None)
  }

  // --------------------------------------------------------- over the database

  datatype Store = Store(db: DB, full: bool)

  function StoreReply(s: Store, scheme: Scheme, t: Timed): Reply
  {
    match t.request
    case Read(boxID) => ReadReply(ReadAt(s.db, t.now, boxID))
    case Write(boxID, content) =>
      var admission := Admission(scheme, boxID, content);
      if admission.Some? then Reply(admission.value, None)
      else if content.payload == [] then Reply(SUCCESS, None)
      else Reply(CodeOf(WriteResultAt(s.db, s.full, t.now, boxID, content)), None)
    case _ => Reply(SUCCESS, None)
  }

  function StoreAfter(s: Store, scheme: Scheme, t: Timed): Store
  {
    match t.request
    case Read(_) => s
    case Write(boxID, content) =>
      if Admission(scheme, boxID, content).Some? then s
      else if content.payload == [] then s.(db := Put(s.db, t.now, boxID, content))
      else s.(db := AfterWrite(s.db, s.full, t.now, boxID, content))
    case Collect => s.(db := AfterWipe(s.db, t.now))
    case Pressure(full) => s.(full := full)
  }

  /** handleReplicaWrite and handleTombstone of the connection handler. */
  method ServeWrite(state: ReplicaState, scheme: Scheme, now: Uint64, boxID: BoxID, content: Content)
    returns (reply: Reply)
    modifies state`db
    ensures state.isOpen ==> reply == StoreReply(Store(old(state.db), state.storageFull), scheme, At(now, Write(boxID, content)))
    ensures state.isOpen ==>
      Store(state.db, state.storageFull) == StoreAfter(Store(old(state.db), state.storageFull), scheme, At(now, Write(boxID, content)))
    ensures !state.isOpen ==> state.db == old(state.db)
    ensures !state.isOpen ==>
      reply == if Genuine(scheme, boxID, content) then Reply(DATABASE_FAILURE, None)
               else StoreReply(Store(state.db, state.storageFull), scheme, At(now, Write(boxID, content)))
  {
    var isTombstone := content.payload == [];
    if !isTombstone && |content.payload| != scheme.payloadSize {
      return Reply(INVALID_PAYLOAD, None);
    }
    if !scheme.isKey(boxID) {
      return Reply(INVALID_BOX_ID, None);
    }
    if !scheme.verifies(boxID, content.payload, content.signature) {
      return Reply(INVALID_SIGNATURE, None);
    }
    if isTombstone {
      var r := state.HandleReplicaTombstone(now, boxID, content.signature);
      return Reply(if r.DatabaseClosed? then DATABASE_FAILURE else SUCCESS, None);
    }
    var r := state.HandleReplicaWrite(now, boxID, content);
    return Reply(if r.DatabaseClosed? then DATABASE_FAILURE else CodeOf(r.value), None);
  }

  method ServeRead(state: ReplicaState, scheme: Scheme, now: Uint64, boxID: BoxID) returns (reply: Reply)
    ensures reply == if state.isOpen
                     then StoreReply(Store(state.db, state.storageFull), scheme, At(now, Read(boxID)))
                     else Reply(DATABASE_FAILURE, None)
  {
    var r := state.StateHandleReplicaRead(now, boxID);
    if r.DatabaseClosed? {
      return Reply(DATABASE_FAILURE, None);
    }
    match r.value {
      case Found(content) =>
        if |content.payload| == 0 {
          return Reply(TOMBSTONE, Some(content));
        }
        return Reply(SUCCESS, Some(content));
      case BoxIDNotFound => return Reply(BOX_ID_NOT_FOUND, None);
      case FailedToDeserialize => return Reply(DATABASE_FAILURE, None);
    }
  }

  // ------------------------------------------------------------- the reference

  datatype Entry = Entry(epoch: Uint64, content: Content)

  /** One register per box: what was last put, and in which epoch. */
  datatype Registers = Registers(boxes: map<BoxID, Entry>, full: bool)
  {
    predicate Live(now: Uint64, boxID: BoxID) { boxID in boxes && now <= boxes[boxID].epoch + 1 }
  }

  function RegisterReply(a: Registers, scheme: Scheme, t: Timed): Reply
  {
    match t.request
    case Read(boxID) =>
      if !a.Live(t.now, boxID) then Reply(BOX_ID_NOT_FOUND, None)
      else Reply(if a.boxes[boxID].content.payload == [] then TOMBSTONE else SUCCESS, Some(a.boxes[boxID].content))
    case Write(boxID, content) =>
      if content.payload != [] && |content.payload| != scheme.payloadSize then Reply(INVALID_PAYLOAD, None)
      else if !scheme.isKey(boxID) then Reply(INVALID_BOX_ID, None)
      else if !scheme.verifies(boxID, content.payload, content.signature) then Reply(INVALID_SIGNATURE, None)
      else if content.payload == [] then Reply(SUCCESS, None)
      else if a.full then Reply(STORAGE_FULL, None)
      else if a.Live(t.now, boxID) && a.boxes[boxID].content != content then Reply(BOX_ALREADY_EXISTS, None)
      else Reply(SUCCESS, None)
    case _ => Reply(SUCCESS, None)
  }

  /** A tombstone or a payload of the one size, signed under the key the box is named by. */
  predicate Genuine(scheme: Scheme, boxID: BoxID, content: Content)
  {
    && (content.payload == [] || |content.payload| == scheme.payloadSize)
    && scheme.isKey(boxID) && scheme.verifies(boxID, content.payload, content.signature)
  }

  /** Collecting does nothing to a register. */
  function RegisterAfter(a: Registers, scheme: Scheme, t: Timed): Registers
  {
    match t.request
    case Write(boxID, content) =>
      if !Genuine(scheme, boxID, content) then a
      else if content.payload != [] && (a.full || a.Live(t.now, boxID)) then a
      else a.(boxes := a.boxes[boxID := Entry(t.now, content)])
    case Pressure(full) => a.(full := full)
    case _ => a
  }

  // ---------------------------------------------------------------- refinement

  /** No key is from the future, none is newer than its register's epoch, and a
      live register's content is stored under exactly that epoch. */
  ghost predicate Refines(s: Store, a: Registers, now: Uint64)
  {
    && s.full == a.full
    && (forall epoch: Uint64, boxID: BoxID :: BoxKey(epoch, boxID) in s.db ==>
          boxID in a.boxes && epoch <= a.boxes[boxID].epoch)
    && (forall boxID :: boxID in a.boxes ==> a.boxes[boxID].epoch <= now)
    && (forall boxID :: a.Live(now, boxID) ==>
          && BoxKey(a.boxes[boxID].epoch, boxID) in s.db
          && s.db[BoxKey(a.boxes[boxID].epoch, boxID)] == Record(boxID, a.boxes[boxID].content))
  }

  /** The newest value in the window is the live register's content. */
  lemma ReadAgrees(s: Store, a: Registers, now: Uint64, boxID: BoxID)
    requires Refines(s, a, now)
    ensures ReadAt(s.db, now, boxID) == if a.Live(now, boxID) then Found(a.boxes[boxID].content) else BoxIDNotFound
  {
    var epochs := KeptEpochs(now);
    hide BoxKey, Record, ReadResultOf;
    if a.Live(now, boxID) {
      RecordReadsBack(boxID, a.boxes[boxID].content);
      assert FirstValue(s.db, epochs, boxID) == Record(boxID, a.boxes[boxID].content) by {
        if a.boxes[boxID].epoch != now {
          assert BoxKey(now, boxID) !in s.db;
          assert epochs[1..] == [now - 1];
        }
      }
    } else {
      assert FirstValue(s.db, epochs, boxID) == [] by {
        forall e: Uint64 | e in epochs
          ensures BoxKey(e, boxID) !in s.db
        {
        }
        NothingThere(s.db, epochs, boxID);
      }
      EmptyIsNotFound();
    }
  }

  lemma EmptyIsNotFound()
    ensures ReadResultOf([]) == BoxIDNotFound
  {
  }

  lemma TimePasses(s: Store, a: Registers, now: Uint64, later: Uint64)
    requires Refines(s, a, now) && now <= later
    ensures Refines(s, a, later)
  {
    hide BoxKey, Record;
  }

  lemma PutRefines(s: Store, a: Registers, now: Uint64, boxID: BoxID, content: Content)
    requires Refines(s, a, now)
    ensures Refines(s.(db := Put(s.db, now, boxID, content)), a.(boxes := a.boxes[boxID := Entry(now, content)]), now)
  {
    hide BoxKey, Record;
  }

  lemma WipeRefines(s: Store, a: Registers, now: Uint64)
    requires Refines(s, a, now)
    ensures Refines(s.(db := AfterWipe(s.db, now)), a, now)
  {
    forall epoch: Uint64, boxID: BoxID
      ensures BoxKey(epoch, boxID) in AfterWipe(s.db, now) <==> BoxKey(epoch, boxID) in s.db && now <= epoch + 1
      ensures BoxKey(epoch, boxID) in AfterWipe(s.db, now) ==>
                AfterWipe(s.db, now)[BoxKey(epoch, boxID)] == s.db[BoxKey(epoch, boxID)]
    {
      WipeIsExact(s.db, now, epoch, boxID);
    }
    hide BoxKey, Record, AfterWipe;
  }

  /** One request: same reply, and the two stay related. */
  lemma RequestAgrees(s: Store, a: Registers, scheme: Scheme, now: Uint64, t: Timed)
    requires Refines(s, a, now) && now <= t.now
    ensures StoreReply(s, scheme, t) == RegisterReply(a, scheme, t)
    ensures Refines(StoreAfter(s, scheme, t), RegisterAfter(a, scheme, t), t.now)
  {
    TimePasses(s, a, now, t.now);
    match t.request {
      case Read(boxID) => ReadAgrees(s, a, t.now, boxID);
      case Write(boxID, content) =>
        ReadAgrees(s, a, t.now, boxID);
        PutRefines(s, a, t.now, boxID, content);
      case Collect => WipeRefines(s, a, t.now);
      case Pressure(full) => PressureRefines(s, a, t.now, full);
    }
    hide Refines, ReadAt, Put, AfterWipe;
  }

  lemma PressureRefines(s: Store, a: Registers, now: Uint64, full: bool)
    requires Refines(s, a, now)
    ensures Refines(s.(full := full), a.(full := full), now)
  {
    hide BoxKey, Record;
    assert forall boxID :: a.(full := full).Live(now, boxID) == a.Live(now, boxID);
  }

  /** Which writes are refused before the store is looked at, and with which code; a
      refused write changes nothing. */
  lemma RefusedIff(s: Store, scheme: Scheme, now: Uint64, boxID: BoxID, content: Content)
    ensures var code := StoreReply(s, scheme, At(now, Write(boxID, content))).code;
            && (code == 5 <==> |content.payload| != 0 && |content.payload| != scheme.payloadSize)
            && (code == 2 <==> |content.payload| in {0, scheme.payloadSize} && !scheme.isKey(boxID))
            && (code == 3 <==> |content.payload| in {0, scheme.payloadSize} && scheme.isKey(boxID)
                               && !scheme.verifies(boxID, content.payload, content.signature))
            && (code in {2, 3, 5} ==> StoreAfter(s, scheme, At(now, Write(boxID, content))) == s)
  {
    hide WriteResultAt, Put, AfterWrite;
    assert content.payload == [] <==> |content.payload| == 0;
  }

  /** A genuine payload for a box that is not there is stored, and read back through the
      end of the next epoch. */
  lemma GenuineWriteReadsBack(
    s: Store, a: Registers, scheme: Scheme, now: Uint64, boxID: BoxID, content: Content, later: Uint64)
    requires Refines(s, a, now) && !s.full && !a.Live(now, boxID) && now <= later <= now + 1
    requires 0 < |content.payload| == scheme.payloadSize
    requires scheme.isKey(boxID) && scheme.verifies(boxID, content.payload, content.signature)
    ensures var w := At(now, Write(boxID, content));
            && StoreReply(s, scheme, w) == Reply(0, None)
            && StoreReply(StoreAfter(s, scheme, w), scheme, At(later, Read(boxID))) == Reply(0, Some(content))
  {
    var w := At(now, Write(boxID, content));
    RequestAgrees(s, a, scheme, now, w);
    var s1, a1 := StoreAfter(s, scheme, w), RegisterAfter(a, scheme, w);
    assert a1.boxes[boxID] == Entry(now, content);
    RequestAgrees(s1, a1, scheme, now, At(later, Read(boxID)));
    hide StoreReply, StoreAfter, ReadAt;
  }

  /** The clock of a run never goes back. */
  predicate Clocked(now: Uint64, requests: seq<Timed>)
    decreases |requests|
  {
    requests == [] || (now <= requests[0].now && Clocked(requests[0].now, requests[1..]))
  }

  function StoreReplies(s: Store, scheme: Scheme, requests: seq<Timed>): seq<Reply>
    decreases |requests|
  {
    if requests == [] then []
    else [StoreReply(s, scheme, requests[0])] + StoreReplies(StoreAfter(s, scheme, requests[0]), scheme, requests[1..])
  }

  function RegisterReplies(a: Registers, scheme: Scheme, requests: seq<Timed>): seq<Reply>
    decreases |requests|
  {
    if requests == [] then []
    else [RegisterReply(a, scheme, requests[0])]
         + RegisterReplies(RegisterAfter(a, scheme, requests[0]), scheme, requests[1..])
  }

  lemma {:induction false} RunsAgree(s: Store, a: Registers, scheme: Scheme, now: Uint64, requests: seq<Timed>)
    requires Refines(s, a, now) && Clocked(now, requests)
    ensures StoreReplies(s, scheme, requests) == RegisterReplies(a, scheme, requests)
    decreases |requests|
  {
    if requests != [] {
      var t := requests[0];
      RequestAgrees(s, a, scheme, now, t);
      hide Refines, StoreReply, RegisterReply, StoreAfter, RegisterAfter;
      RunsAgree(StoreAfter(s, scheme, t), RegisterAfter(a, scheme, t), scheme, t.now, requests[1..]);
    }
  }

  /** From an empty database, every run of reads, writes, tombstones and
      collections is answered as one register per box would answer it. */
  lemma StoreIsARegisterPerBox(scheme: Scheme, requests: seq<Timed>)
    requires Clocked(0, requests)
    ensures StoreReplies(Store(map[], false), scheme, requests)
         == RegisterReplies(Registers(map[], false), scheme, requests)
  {
    RunsAgree(Store(map[], false), Registers(map[], false), scheme, 0, requests);
  }

  // ----------------------------------------------- what follows for the store

  /** Running the collector at any point of a run changes no later reply. */
  lemma CollectionIsInvisible(s: Store, a: Registers, scheme: Scheme, now: Uint64, t: Uint64, later: seq<Timed>)
    requires Refines(s, a, now) && now <= t && Clocked(t, later)
    ensures StoreReplies(StoreAfter(s, scheme, At(t, Collect)), scheme, later) == StoreReplies(s, scheme, later)
  {
    TimePasses(s, a, now, t);
    WipeRefines(s, a, t);
    hide Refines;
    RunsAgree(s, a, scheme, t, later);
    RunsAgree(StoreAfter(s, scheme, At(t, Collect)), a, scheme, t, later);
  }

  function StoreAfterAll(s: Store, scheme: Scheme, requests: seq<Timed>): Store
    decreases |requests|
  {
    if requests == [] then s else StoreAfterAll(StoreAfter(s, scheme, requests[0]), scheme, requests[1..])
  }

  function RegistersAfterAll(a: Registers, scheme: Scheme, requests: seq<Timed>): Registers
    decreases |requests|
  {
    if requests == [] then a else RegistersAfterAll(RegisterAfter(a, scheme, requests[0]), scheme, requests[1..])
  }

  lemma {:induction false} RunsStayRelated(s: Store, a: Registers, scheme: Scheme, now: Uint64, requests: seq<Timed>, end: Uint64)
    requires Refines(s, a, now) && Clocked(now, requests) && now <= end
    requires forall k :: 0 <= k < |requests| ==> requests[k].now <= end
    ensures Refines(StoreAfterAll(s, scheme, requests), RegistersAfterAll(a, scheme, requests), end)
    decreases |requests|
  {
    if requests == [] {
      TimePasses(s, a, now, end);
    } else {
      var t := requests[0];
      RequestAgrees(s, a, scheme, now, t);
      hide Refines, StoreAfter, RegisterAfter;
      RunsStayRelated(StoreAfter(s, scheme, t), RegisterAfter(a, scheme, t), scheme, t.now, requests[1..], end);
    }
  }

  /** An admitted tombstone for the box. */
  predicate Buries(scheme: Scheme, r: Request, boxID: BoxID)
  {
    r.Write? && r.boxID == boxID && r.content.payload == [] && Genuine(scheme, boxID, r.content)
  }

  lemma {:induction false} LiveContentStays(a: Registers, scheme: Scheme, requests: seq<Timed>, boxID: BoxID)
    requires boxID in a.boxes
    requires forall k :: 0 <= k < |requests| ==>
      requests[k].now <= a.boxes[boxID].epoch + 1 && !Buries(scheme, requests[k].request, boxID)
    ensures var end := RegistersAfterAll(a, scheme, requests);
            boxID in end.boxes && end.boxes[boxID] == a.boxes[boxID]
    decreases |requests|
  {
    if requests != [] {
      assert requests[0].now <= a.boxes[boxID].epoch + 1 && !Buries(scheme, requests[0].request, boxID);
      hide Genuine;
      LiveContentStays(RegisterAfter(a, scheme, requests[0]), scheme, requests[1..], boxID);
    }
  }

  /** A box that was stored is served, unchanged, for the rest of its epoch and
      all of the next, whatever else is written and collected meanwhile, unless
      its owner buries it. */
  lemma StoredBoxStaysReadable(
    s: Store, a: Registers, scheme: Scheme, boxID: BoxID, content: Content, stored: Uint64, requests: seq<Timed>, end: Uint64)
    requires Refines(s, a, stored) && Clocked(stored, requests) && stored <= end <= stored + 1
    requires content.payload != [] && Genuine(scheme, boxID, content)
    requires WriteResultAt(s.db, s.full, stored, boxID, content).Stored?
    requires forall k :: 0 <= k < |requests| ==>
      requests[k].now <= end && !Buries(scheme, requests[k].request, boxID)
    ensures var after := StoreAfterAll(StoreAfter(s, scheme, At(stored, Write(boxID, content))), scheme, requests);
            StoreReply(after, scheme, At(end, Read(boxID))) == Reply(SUCCESS, Some(content))
  {
    var w := At(stored, Write(boxID, content));
    ReadAgrees(s, a, stored, boxID);
    RequestAgrees(s, a, scheme, stored, w);
    var s1, a1 := StoreAfter(s, scheme, w), RegisterAfter(a, scheme, w);
    assert a1.boxes[boxID] == Entry(stored, content);
    hide Refines, StoreAfter, RegisterAfter, Genuine, ReadAt;
    RunsStayRelated(s1, a1, scheme, stored, requests, end);
    LiveContentStays(a1, scheme, requests, boxID);
    ReadAgrees(StoreAfterAll(s1, scheme, requests), RegistersAfterAll(a1, scheme, requests), end, boxID);
  }

  lemma {:induction false} BuriedStaysBuried(a: Registers, scheme: Scheme, requests: seq<Timed>, boxID: BoxID, buried: Uint64, end: Uint64)
    requires boxID in a.boxes && a.boxes[boxID].content.payload == [] && buried <= a.boxes[boxID].epoch
    requires end <= buried + 1 && (forall k :: 0 <= k < |requests| ==> buried <= requests[k].now <= end)
    ensures var after := RegistersAfterAll(a, scheme, requests);
            boxID in after.boxes && after.boxes[boxID].content.payload == [] && buried <= after.boxes[boxID].epoch
    decreases |requests|
  {
    if requests != [] {
      assert requests[0].now <= end;
      hide Genuine;
      BuriedStaysBuried(RegisterAfter(a, scheme, requests[0]), scheme, requests[1..], boxID, buried, end);
    }
  }

  lemma BuriedBoxReplies(s: Store, a: Registers, scheme: Scheme, now: Uint64, boxID: BoxID)
    requires Refines(s, a, now) && a.Live(now, boxID) && a.boxes[boxID].content.payload == []
    ensures StoreReply(s, scheme, At(now, Read(boxID))).code == TOMBSTONE
    ensures forall content: Content :: content.payload != [] ==>
              StoreReply(s, scheme, At(now, Write(boxID, content))).code != SUCCESS
  {
    ReadAgrees(s, a, now, boxID);
    hide Refines, ReadAt;
  }

  /** After a tombstone, through the end of the next epoch, every read of the box
      reports the tombstone and no write of any payload is accepted. */
  lemma TombstoneHidesAndBlocks(
    s: Store, a: Registers, scheme: Scheme, boxID: BoxID, tombstone: Content, buried: Uint64, requests: seq<Timed>, end: Uint64)
    requires Refines(s, a, buried) && Clocked(buried, requests) && buried <= end <= buried + 1
    requires Buries(scheme, Write(boxID, tombstone), boxID)
    requires forall k :: 0 <= k < |requests| ==> buried <= requests[k].now <= end
    ensures var after := StoreAfterAll(StoreAfter(s, scheme, At(buried, Write(boxID, tombstone))), scheme, requests);
            && StoreReply(after, scheme, At(end, Read(boxID))).code == TOMBSTONE
            && (forall content: Content :: content.payload != [] ==>
                  StoreReply(after, scheme, At(end, Write(boxID, content))).code != SUCCESS)
  {
    var w := At(buried, Write(boxID, tombstone));
    RequestAgrees(s, a, scheme, buried, w);
    var s1, a1 := StoreAfter(s, scheme, w), RegisterAfter(a, scheme, w);
    assert a1.boxes[boxID] == Entry(buried, tombstone);
    hide Refines, StoreAfter, RegisterAfter, ReadAt, StoreReply, Genuine;
    RunsStayRelated(s1, a1, scheme, buried, requests, end);
    BuriedStaysBuried(a1, scheme, requests, boxID, buried, end);
    BuriedBoxReplies(StoreAfterAll(s1, scheme, requests), RegistersAfterAll(a1, scheme, requests), scheme, end, boxID);
  }

  lemma RegisterLastsIff(a: Registers, scheme: Scheme, now: Uint64, boxID: BoxID, content: Content)
    requires content.payload != [] && now + 1 < TWO_TO_64
    requires forall b :: b in a.boxes ==> a.boxes[b].epoch <= now
    requires RegisterReply(a, scheme, At(now, Write(boxID, content))).code == SUCCESS
    ensures RegisterReply(RegisterAfter(a, scheme, At(now, Write(boxID, content))), scheme, At(now + 1, Read(boxID)))
              == Reply(SUCCESS, Some(content))
        <==> !(a.Live(now, boxID) && a.boxes[boxID].epoch != now)
  {
  }

  /** An acknowledged write lasts through the next epoch exactly when the box was
      not already there from the previous one: the idempotent path acknowledges
      without storing again. */
  lemma AcknowledgedWriteLastsIff(s: Store, a: Registers, scheme: Scheme, now: Uint64, boxID: BoxID, content: Content)
    requires Refines(s, a, now) && content.payload != [] && now + 1 < TWO_TO_64
    requires StoreReply(s, scheme, At(now, Write(boxID, content))).code == SUCCESS
    ensures StoreReply(StoreAfter(s, scheme, At(now, Write(boxID, content))), scheme, At(now + 1, Read(boxID)))
              == Reply(SUCCESS, Some(content))
        <==> !(now > 0 && BoxKey(now - 1, boxID) in s.db && BoxKey(now, boxID) !in s.db)
  {
    var w := At(now, Write(boxID, content));
    RequestAgrees(s, a, scheme, now, w);
    RequestAgrees(StoreAfter(s, scheme, w), RegisterAfter(a, scheme, w), scheme, now, At(now + 1, Read(boxID)));
    RegisterLastsIff(a, scheme, now, boxID, content);
    if a.Live(now, boxID) {
      assert a.boxes[boxID].epoch == now || a.boxes[boxID].epoch == now - 1;
    }
    hide BoxKey, Record, StoreReply, StoreAfter, RegisterReply, RegisterAfter;
  }

  /** The failing case at an input: stored in one epoch, written again with success in
      the next, and not there in the one after. */
  lemma RewriteDoesNotLast(scheme: Scheme, boxID: BoxID, content: Content, k: Uint64)
    requires content.payload != [] && Genuine(scheme, boxID, content) && k + 2 < TWO_TO_64
    ensures StoreReplies(Store(map[], false), scheme,
              [At(k, Write(boxID, content)), At(k + 1, Write(boxID, content)), At(k + 2, Read(boxID))])
         == [Reply(SUCCESS, None), Reply(SUCCESS, None), Reply(BOX_ID_NOT_FOUND, None)]
  {
    var w0, w1, r := At(k, Write(boxID, content)), At(k + 1, Write(boxID, content)), At(k + 2, Read(boxID));
    var requests := [w0, w1, r];
    assert requests[1..] == [w1, r] && [w1, r][1..] == [r] && [r][1..] == [];
    assert Clocked(k + 2, []) && Clocked(k + 1, [r]) && Clocked(k, [w1, r]) && Clocked(0, requests);
    StoreIsARegisterPerBox(scheme, requests);
    var a0 := Registers(map[], false);
    var a1 := RegisterAfter(a0, scheme, w0);
    assert a1 == Registers(map[boxID := Entry(k, content)], false);
    assert RegisterAfter(a1, scheme, w1) == a1;
    hide StoreReplies;
    assert RegisterReplies(a1, scheme, [r]) == [RegisterReply(a1, scheme, r)] + [];
    assert RegisterReplies(a1, scheme, [w1, r]) == [RegisterReply(a1, scheme, w1)] + RegisterReplies(a1, scheme, [r]);
    assert RegisterReplies(a0, scheme, requests) == [RegisterReply(a0, scheme, w0)] + RegisterReplies(a1, scheme, [w1, r]);
  }

  /** Every register holds what its box's key signed. */
  ghost predicate Signed(a: Registers, scheme: Scheme)
  {
    forall boxID :: boxID in a.boxes ==>
      scheme.verifies(boxID, a.boxes[boxID].content.payload, a.boxes[boxID].content.signature)
  }

  lemma {:induction false} SignedRuns(a: Registers, scheme: Scheme, requests: seq<Timed>, k: nat)
    requires Signed(a, scheme) && k < |requests| && requests[k].request.Read?
    ensures |RegisterReplies(a, scheme, requests)| == |requests|
    ensures var content := RegisterReplies(a, scheme, requests)[k].content;
            content.Some? ==>
              scheme.verifies(requests[k].request.boxID, content.value.payload, content.value.signature)
    decreases |requests|
  {
    RepliesLength(a, scheme, requests);
    if k > 0 {
      SignedRuns(RegisterAfter(a, scheme, requests[0]), scheme, requests[1..], k - 1);
    }
  }

  lemma {:induction false} RepliesLength(a: Registers, scheme: Scheme, requests: seq<Timed>)
    ensures |RegisterReplies(a, scheme, requests)| == |requests|
    decreases |requests|
  {
    if requests != [] {
      RepliesLength(RegisterAfter(a, scheme, requests[0]), scheme, requests[1..]);
    }
  }

  /** Whatever a run's reads return was signed by the key the box is named by. */
  lemma EveryReadIsSigned(scheme: Scheme, requests: seq<Timed>, k: nat)
    requires Clocked(0, requests) && k < |requests| && requests[k].request.Read?
    ensures var replies := StoreReplies(Store(map[], false), scheme, requests);
            && |replies| == |requests|
            && (replies[k].content.Some? ==>
                  scheme.verifies(requests[k].request.boxID,
                    replies[k].content.value.payload, replies[k].content.value.signature))
  {
    StoreIsARegisterPerBox(scheme, requests);
    SignedRuns(Registers(map[], false), scheme, requests, k);
  }
}
