/** The two indexes of the client's retransmission engine and the critical
    sections that change them (client/daemon.go, client/pigeonhole.go).

    A Go *ARQMessage is an operation number: msgs is what the pointer points
    at, so two indexes or a handler and an index can hold the same message. */
module ArqIndex {

  type SurbID = nat
  type Hash = nat
  type AppID = nat
  type Op = nat

  datatype MessageType = EnvelopeType | CopyCommandType | OtherType

  datatype ARQState = WaitingForACK | ACKReceived | PayloadReceived

  datatype ARQMessage = ARQMessage(
    messageType: MessageType,
    appID: AppID,
    envelopeHash: Hash,
    surbID: SurbID,
    retransmissions: nat,
    isRead: bool,
    state: ARQState,
    noRetryOnBoxIDNotFound: bool,
    noIdempotentBoxAlreadyExists: bool)

  /** msgs is the heap; surbs is arqSurbIDMap; hashes is arqEnvelopeHashMap. */
  datatype Index = Index(msgs: map<Op, ARQMessage>, surbs: map<SurbID, Op>, hashes: map<Hash, SurbID>)
  {
    predicate Tracked(op: Op) {
      op in msgs && msgs[op].surbID in surbs && surbs[msgs[op].surbID] == op
    }

    predicate TracksHash(h: Hash) {
      exists s :: s in surbs && surbs[s] in msgs && msgs[surbs[s]].envelopeHash == h
    }
  }

  /** The invariant stated beside rotateARQSurbIDLocked, in both directions: a
      tracked message sits under its own current SURB ID, its hash leads to
      that ID, and a hash leads nowhere else. */
  ghost predicate Inverse(ix: Index)
  {
    && (forall s :: s in ix.surbs ==>
          && ix.surbs[s] in ix.msgs
          && ix.msgs[ix.surbs[s]].surbID == s
          && ix.msgs[ix.surbs[s]].envelopeHash in ix.hashes
          && ix.hashes[ix.msgs[ix.surbs[s]].envelopeHash] == s)
    && (forall h :: h in ix.hashes ==>
          && ix.hashes[h] in ix.surbs
          && ix.surbs[ix.hashes[h]] in ix.msgs
          && ix.msgs[ix.surbs[ix.hashes[h]]].envelopeHash == h)
  }

  // ---------------------------------------------------------- critical sections

  /** arqSend: a new message under a new SURB ID. */
  function Register(ix: Index, op: Op, m: ARQMessage): Index
  {
    Index(ix.msgs[op := m], ix.surbs[m.surbID := op], ix.hashes[m.envelopeHash := m.surbID])
  }

  /** rescheduleARQAfterComposeFailure and scheduleCopyCommandPoll: move the
      message to a placeholder SURB ID, whatever the indexes said before. */
  function Reregister(ix: Index, op: Op, placeholder: SurbID): Index
    requires op in ix.msgs
  {
    var m := ix.msgs[op];
    Index(ix.msgs[op := m.(surbID := placeholder)],
          (ix.surbs - {m.surbID})[placeholder := op],
          ix.hashes[m.envelopeHash := placeholder])
  }

  /** rotateARQSurbIDLocked. */
  function Rotate(ix: Index, op: Op, newSurbID: SurbID): Index
    requires op in ix.msgs
  {
    var m := ix.msgs[op];
    Index(ix.msgs[op := m.(surbID := newSurbID, retransmissions := m.retransmissions + 1)],
          (ix.surbs - {m.surbID})[newSurbID := op],
          ix.hashes[m.envelopeHash := newSurbID])
  }

  /** dropARQMessage and every terminal branch. */
  function Drop(ix: Index, op: Op): Index
    requires op in ix.msgs
  {
    ix.(surbs := ix.surbs - {ix.msgs[op].surbID}, hashes := ix.hashes - {ix.msgs[op].envelopeHash})
  }

  /** Both cancel handlers: forget whatever the hash leads to. */
  function CancelHash(ix: Index, h: Hash): Index
  {
    if h !in ix.hashes then ix
    else ix.(surbs := ix.surbs - {ix.hashes[h]}, hashes := ix.hashes - {h})
  }

  function OwnedBy(ix: Index, app: AppID): set<SurbID>
  {
    set s | s in ix.surbs && ix.surbs[s] in ix.msgs && ix.msgs[ix.surbs[s]].appID == app
  }

  function HashesOf(ix: Index, ids: set<SurbID>): set<Hash>
  {
    set s | s in ids && s in ix.surbs && ix.surbs[s] in ix.msgs :: ix.msgs[ix.surbs[s]].envelopeHash
  }

  /** cleanupForAppID. */
  function CleanupApp(ix: Index, app: AppID): Index
  {
    var gone := OwnedBy(ix, app);
    ix.(surbs := ix.surbs - gone,
        hashes := ix.hashes - HashesOf(ix, gone))
  }

  function SetState(ix: Index, op: Op, state: ARQState): Index
    requires op in ix.msgs
  {
    ix.(msgs := ix.msgs[op := ix.msgs[op].(state := state)])
  }

  // -------------------------------------------------- each section keeps Inverse

  lemma RegisterKeepsInverse(ix: Index, op: Op, m: ARQMessage)
    requires Inverse(ix) && op !in ix.msgs && m.surbID !in ix.surbs && m.envelopeHash !in ix.hashes
    ensures Inverse(Register(ix, op, m))
  {
  }

  /** Re-registering is safe for a message that is tracked, and also for one
      that is not, as long as no other message holds its hash. */
  lemma ReregisterKeepsInverse(ix: Index, op: Op, placeholder: SurbID)
    requires Inverse(ix) && op in ix.msgs && placeholder !in ix.surbs
    requires ix.Tracked(op) || (ix.msgs[op].envelopeHash !in ix.hashes && ix.msgs[op].surbID !in ix.surbs)
    ensures Inverse(Reregister(ix, op, placeholder))
    ensures Reregister(ix, op, placeholder).Tracked(op)
  {
  }

  lemma RotateKeepsInverse(ix: Index, op: Op, newSurbID: SurbID)
    requires Inverse(ix) && ix.Tracked(op) && newSurbID !in ix.surbs
    ensures Inverse(Rotate(ix, op, newSurbID))
    ensures Rotate(ix, op, newSurbID).Tracked(op)
  {
  }

  lemma DropKeepsInverse(ix: Index, op: Op)
    requires Inverse(ix) && op in ix.msgs
    requires ix.Tracked(op) || (ix.msgs[op].envelopeHash !in ix.hashes && ix.msgs[op].surbID !in ix.surbs)
    ensures Inverse(Drop(ix, op))
    ensures !Drop(ix, op).Tracked(op)
  {
  }

  lemma CancelKeepsInverse(ix: Index, h: Hash)
    requires Inverse(ix)
    ensures Inverse(CancelHash(ix, h))
    ensures h !in CancelHash(ix, h).hashes && !CancelHash(ix, h).TracksHash(h)
  {
  }

  lemma CleanupKeepsInverse(ix: Index, app: AppID)
    requires Inverse(ix)
    ensures Inverse(CleanupApp(ix, app))
    ensures OwnedBy(CleanupApp(ix, app), app) == {}
  {
    var r := CleanupApp(ix, app);
    forall s | s in r.surbs
      ensures r.msgs[r.surbs[s]].envelopeHash in r.hashes
    {
      var h := r.msgs[r.surbs[s]].envelopeHash;
      assert ix.hashes[h] == s;
    }
  }

  lemma SetStateKeepsInverse(ix: Index, op: Op, state: ARQState)
    requires Inverse(ix) && op in ix.msgs
    ensures Inverse(SetState(ix, op, state))
    ensures ix.Tracked(op) ==> SetState(ix, op, state).Tracked(op)
  {
  }
}
