/** A replica's envelope keys (replica/keys.go, replica/envelope_epoch.go): a key
    per replica epoch, made on demand, pruned after its epoch, and tried over a
    window of epochs when a ciphertext arrives. Key pairs are numbers; which key
    opens which ciphertext is a function of the scheme. */
module EnvelopeKeys {
  import opened Options
  import opened Bytes

  type Epoch = Uint64
  type Key = nat
  type Ciphertext = nat
  type Plaintext = nat

  type Opens = (Key, Ciphertext) -> Option<Plaintext>

  function Plus(a: Epoch, b: Epoch): Epoch
  {
    if a + b < TWO_TO_64 then a + b else a + b - TWO_TO_64
  }

  // ------------------------------------------------------------ specification

  function Pruned(keys: map<Epoch, Key>, now: Epoch): map<Epoch, Key>
  {
    map e | e in keys && !(e < Minus(now, 1)) :: keys[e]
  }

  /** newKey is the key pair the scheme would make; wrote, whether its files could
      be written. */
  function Ensured(keys: map<Epoch, Key>, now: Epoch, epoch: Epoch, newKey: Key, wrote: bool): map<Epoch, Key>
  {
    if epoch < now || epoch in keys || !wrote then keys else keys[epoch := newKey]
  }

  /** The epochs tried around the current one, in order. */
  function Window(current: Epoch): seq<Epoch>
  {
    (if current == 0 then [] else [current - 1]) + [current, Plus(current, 1)]
  }

  datatype Decapsulation = Opened(plaintext: Plaintext, key: Key, epoch: Epoch) | NoKeyOpens | NoKeys

  /** What comes of trying the epochs in order; failed says a key was tried before. */
  function Tried(keys: map<Epoch, Key>, opens: Opens, ct: Ciphertext, epochs: seq<Epoch>, failed: bool): Decapsulation
    decreases |epochs|
  {
    if epochs == [] then (if failed then NoKeyOpens else NoKeys)
    else if epochs[0] !in keys then Tried(keys, opens, ct, epochs[1..], failed)
    else
      match opens(keys[epochs[0]], ct)
      case Some(plaintext) => Opened(plaintext, keys[epochs[0]], epochs[0])
      case None => Tried(keys, opens, ct, epochs[1..], true)
  }

  // ---------------------------------------------------------------- the class

  class KeyStore {
    var keys: map<Epoch, Key>

    /** onDisk are the key files found at start. */
    constructor (onDisk: map<Epoch, Key>, epoch: Epoch, newKey: Key)
      ensures epoch in keys && keys[epoch] == (if epoch in onDisk then onDisk[epoch] else newKey)
      ensures forall e :: e in keys && e != epoch ==> epoch > 0 && e == epoch - 1 && e in onDisk && keys[e] == onDisk[e]
      ensures epoch > 0 && epoch - 1 in onDisk ==> epoch - 1 in keys
    {
      var loaded := map[epoch := if epoch in onDisk then onDisk[epoch] else newKey];
      if epoch > 0 && epoch - 1 in onDisk {
        loaded := loaded[epoch - 1 := onDisk[epoch - 1]];
      }
      keys := loaded;
    }

    method Generate(epoch: Epoch, newKey: Key, wrote: bool) returns (ok: bool)
      modifies this
      ensures ok == wrote && keys == if wrote then old(keys)[epoch := newKey] else old(keys)
    {
      if !wrote {
        return false;
      }
      keys := keys[epoch := newKey];
      return true;
    }

    method Prune(now: Epoch) returns (didPrune: bool)
      modifies this
      ensures keys == Pruned(old(keys), now)
      ensures didPrune <==> keys != old(keys)
    {
      didPrune := false;
      var pending := keys.Keys;
      ghost var before := keys;
      while pending != {}
        invariant pending <= before.Keys
        invariant keys.Keys == set e | e in before && (e in pending || !(e < Minus(now, 1)))
        invariant forall e :: e in keys ==> keys[e] == before[e]
        invariant didPrune <==> exists e :: e in before && e !in keys
        decreases |pending|
      {
        var key :| key in pending;
        if key < Minus(now, 1) {
          keys := keys - {key};
          didPrune := true;
          assert key in before && key !in keys;
        }
        pending := pending - {key};
      }
    }

    method GetKeypair(epoch: Epoch) returns (r: Option<Key>)
      ensures r == if epoch in keys then Some(keys[epoch]) else None
    {
      return if epoch in keys then Some(keys[epoch]) else None;
    }

    method EnsureKey(now: Epoch, epoch: Epoch, newKey: Key, wrote: bool) returns (r: Option<Key>)
      modifies this
      ensures keys == Ensured(old(keys), now, epoch, newKey, wrote)
      ensures r == if epoch in keys then Some(keys[epoch]) else None
    {
      r := GetKeypair(epoch);
      if epoch < now || r.Some? {
        return;
      }
      var ok := Generate(epoch, newKey, wrote);
      if !ok {
        return None;
      }
      r := GetKeypair(epoch);
    }

    /** tryDecapsulateAcrossEpochWindow. */
    method TryDecapsulate(opens: Opens, ct: Ciphertext, current: Epoch) returns (r: Decapsulation)
      ensures r == Tried(keys, opens, ct, Window(current), false)
    {
      var failed := false;
      var delta := -1;
      ghost var left := Window(current);
      while delta <= 1
        invariant -1 <= delta <= 2
        invariant left == if delta == -1 then Window(current) else [current, Plus(current, 1)][delta..]
        invariant Tried(keys, opens, ct, Window(current), false) == Tried(keys, opens, ct, left, failed)
      {
        if delta < 0 && -delta > current {
          delta := delta + 1;
          continue;
        }
        var epoch := if delta < 0 then current - 1 else Plus(current, delta);
        assert left[0] == epoch;
        var keypair := GetKeypair(epoch);
        if keypair.Some? {
          var plaintext := opens(keypair.value, ct);
          if plaintext.Some? {
            return Opened(plaintext.value, keypair.value, epoch);
          }
          failed := true;
        }
        left := left[1..];
        delta := delta + 1;
      }
      return if failed then NoKeyOpens else NoKeys;
    }
  }

  /** The trial opens exactly when some key held for one of the epochs opens, and
      then returns what a key of one of those epochs gives. */
  lemma {:induction false} TriedOpensIff(keys: map<Epoch, Key>, opens: Opens, ct: Ciphertext, epochs: seq<Epoch>, failed: bool)
    ensures var r := Tried(keys, opens, ct, epochs, failed);
            && (r.Opened? <==> exists e :: e in epochs && e in keys && opens(keys[e], ct).Some?)
            && (r.Opened? ==> r.epoch in epochs && r.epoch in keys && r.key == keys[r.epoch] && opens(r.key, ct) == Some(r.plaintext))
            && (r.NoKeys? <==> !failed && forall e :: e in epochs ==> e !in keys)
    decreases |epochs|
  {
    if epochs != [] {
      TriedOpensIff(keys, opens, ct, epochs[1..], failed || epochs[0] in keys);
      assert epochs == [epochs[0]] + epochs[1..];
    }
  }

  /** A ciphertext made for the key of an epoch in the window is opened, with that
      key, whenever the key is held and no other key opens it. */
  lemma WindowFindsTheKey(keys: map<Epoch, Key>, opens: Opens, ct: Ciphertext, current: Epoch, made: Epoch)
    requires made in keys && current <= made + 1 <= current + 2
    requires opens(keys[made], ct).Some? && (forall k: Key :: opens(k, ct).Some? ==> k == keys[made])
    ensures var r := Tried(keys, opens, ct, Window(current), false);
            r.Opened? && r.key == keys[made] && Some(r.plaintext) == opens(keys[made], ct)
  {
    assert made in Window(current);
    TriedOpensIff(keys, opens, ct, Window(current), false);
  }

  // -------------------------------------------------------------------- runs

  datatype Event = Ensure(now: Epoch, epoch: Epoch, newKey: Key, wrote: bool) | Purge(now: Epoch)

  function After(keys: map<Epoch, Key>, e: Event): map<Epoch, Key>
  {
    match e
    case Ensure(now, epoch, newKey, wrote) => Ensured(keys, now, epoch, newKey, wrote)
    case Purge(now) => Pruned(keys, now)
  }

  function AfterAll(keys: map<Epoch, Key>, events: seq<Event>): map<Epoch, Key>
    decreases |events|
  {
    if events == [] then keys else AfterAll(After(keys, events[0]), events[1..])
  }

  /** A key is never replaced, and is held for as long as the epoch has not passed
      the one after the key's own. */
  lemma {:induction false} KeyIsKept(keys: map<Epoch, Key>, events: seq<Event>, epoch: Epoch)
    requires epoch in keys
    requires forall k :: 0 <= k < |events| ==> 1 <= events[k].now <= epoch + 1
    ensures epoch in AfterAll(keys, events) && AfterAll(keys, events)[epoch] == keys[epoch]
    decreases |events|
  {
    if events != [] {
      assert 1 <= events[0].now <= epoch + 1;
      KeyIsKept(After(keys, events[0]), events[1..], epoch);
    }
  }

  /** No key is ever made for an epoch that has passed. */
  lemma {:induction false} NoKeyForThePast(keys: map<Epoch, Key>, events: seq<Event>, epoch: Epoch)
    requires epoch !in keys
    requires forall k :: 0 <= k < |events| ==> epoch < events[k].now
    ensures epoch !in AfterAll(keys, events)
    decreases |events|
  {
    if events != [] {
      assert epoch < events[0].now;
      NoKeyForThePast(After(keys, events[0]), events[1..], epoch);
    }
  }

  /** Pruning destroys exactly the keys older than the previous epoch, unless the
      epoch is 0: there the subtraction wraps and every key goes, the current
      one too, except one for the last representable epoch. */
  lemma PruneIsExactIff(keys: map<Epoch, Key>, now: Epoch, epoch: Epoch)
    requires epoch in keys
    ensures (epoch in Pruned(keys, now) <==> now <= epoch + 1) <==> now >= 1 || epoch == TWO_TO_64 - 1
  {
  }

  /** In epoch 0 pruning destroys the current key. */
  lemma PruneAtEpochZero(key: Key)
    ensures Pruned(map[0 := key], 0) == map[]
  {
  }

  /** What was published for an epoch is what the replica opens with in that epoch and
      the next, whatever was made and pruned since, when no other key opens it. */
  lemma PublishedKeyOpensNextEpoch(
    keys: map<Epoch, Key>, events: seq<Event>, opens: Opens, ct: Ciphertext, published: Epoch, current: Epoch)
    requires published in keys && 1 <= published <= current <= published + 1
    requires forall k :: 0 <= k < |events| ==> 1 <= events[k].now <= current
    requires opens(keys[published], ct).Some? && (forall k: Key :: opens(k, ct).Some? ==> k == keys[published])
    ensures var r := Tried(AfterAll(keys, events), opens, ct, Window(current), false);
            r.Opened? && r.key == keys[published] && Some(r.plaintext) == opens(keys[published], ct)
  {
    KeyIsKept(keys, events, published);
    WindowFindsTheKey(AfterAll(keys, events), opens, ct, current, published);
  }

  /** Asking for a key makes one exactly for an epoch that has not passed, when its files
      can be written, and replaces none. */
  lemma KeyIsMadeIff(keys: map<Epoch, Key>, now: Epoch, epoch: Epoch, newKey: Key, wrote: bool, e: Epoch)
    ensures e in After(keys, Ensure(now, epoch, newKey, wrote)) <==> e in keys || (e == epoch && now <= epoch && wrote)
    ensures e in After(keys, Ensure(now, epoch, newKey, wrote)) ==>
              After(keys, Ensure(now, epoch, newKey, wrote))[e] == if e in keys then keys[e] else newKey
  {
  }

  /** So a key made in an epoch opens, in that epoch and the next, what was encrypted to
      it, whatever else is made and pruned meanwhile. */
  lemma MadeKeyOpens(
    keys: map<Epoch, Key>, made: Epoch, newKey: Key, events: seq<Event>, opens: Opens, ct: Ciphertext, current: Epoch)
    requires made !in keys && 1 <= made <= current <= made + 1
    requires forall k :: 0 <= k < |events| ==> 1 <= events[k].now <= current
    requires opens(newKey, ct).Some? && (forall k: Key :: opens(k, ct).Some? ==> k == newKey)
    ensures var r := Tried(AfterAll(keys, [Ensure(made, made, newKey, true)] + events), opens, ct, Window(current), false);
            r.Opened? && r.key == newKey && Some(r.plaintext) == opens(newKey, ct)
  {
    var all := [Ensure(made, made, newKey, true)] + events;
    assert all[1..] == events;
    PublishedKeyOpensNextEpoch(After(keys, all[0]), events, opens, ct, made, current);
  }
}
