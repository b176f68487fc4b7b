/** Which replicas store a box (replica/common/shard.go): the two whose keys hash
    lowest together with the box ID. Shard2 finds them in one pass; Shard sorts.

    A key's hash is a number: 32 bytes compared byte by byte order as the number
    they spell. */
module Sharding {
  import opened Options

  type Key = nat

  /** All 32 bytes 0xff. */
  const MAX_HASH: nat := 0x1_0000_0000_0000_0000_0000_0000_0000_0000 * 0x1_0000_0000_0000_0000_0000_0000_0000_0000 - 1

  type Hash = n: int | 0 <= n <= MAX_HASH

  /** What slices.Compare returns. */
  function Compare(a: Hash, b: Hash): int
  {
    if a < b then -1 else if a == b then 0 else 1
  }

  /** (c & 2) >> 1 of a comparison: minus one has all bits set. */
  function SecondBit(c: int): nat
    requires -1 <= c <= 1
  {
    if c == -1 then 1 else 0
  }

  ghost predicate NoCollisions(keys: seq<Key>, hash: Key -> Hash)
  {
    forall i, j :: 0 <= i < j < |keys| ==> hash(keys[i]) != hash(keys[j])
  }

  /** a and b are keys of the list, a hashes below b, and b below all the others. */
  ghost predicate AreTwoLowest(keys: seq<Key>, hash: Key -> Hash, a: Key, b: Key)
  {
    a in keys && b in keys && hash(a) < hash(b) && forall k :: k in keys ==> k == a || k == b || hash(b) < hash(k)
  }

  /** The keys at two places hash lowest of all places, in this order. */
  ghost predicate LowestPlaces(keys: seq<Key>, hash: Key -> Hash, i: int, j: int)
  {
    && 0 <= i < |keys| && 0 <= j < |keys| && i != j && hash(keys[i]) <= hash(keys[j])
    && forall k :: 0 <= k < |keys| && k != i && k != j ==> hash(keys[j]) <= hash(keys[k])
  }

  /** What the two slots hold after the keys so far. */
  ghost predicate Slots(seen: seq<Key>, hash: Key -> Hash, hashes: (Hash, Hash), keys: (Option<Key>, Option<Key>))
  {
    match |seen|
    case 0 => keys == (None, None) && hashes == (MAX_HASH, MAX_HASH)
    case 1 => keys == (Some(seen[0]), None) && hashes == (hash(seen[0]), MAX_HASH)
    case _ =>
      exists i, j :: LowestPlaces(seen, hash, i, j)
        && keys == (Some(seen[i]), Some(seen[j])) && hashes == (hash(seen[i]), hash(seen[j]))
  }

  /** One key into the two slots; none when it hashes above both. */
  function Insert(hash: Key -> Hash, h: (Hash, Hash), k: (Option<Key>, Option<Key>), key: Key)
    : ((Hash, Hash), (Option<Key>, Option<Key>))
  {
    var it := hash(key);
    if Compare(h.1, it) == -1 then (h, k)
    else if SecondBit(Compare(h.0, it)) == 1 then ((h.0, it), (k.0, Some(key)))
    else ((it, h.0), (Some(key), k.0))
  }

  lemma LowestWithOneMore(seen: seq<Key>, key: Key, hash: Key -> Hash, i: int, j: int)
    requires LowestPlaces(seen, hash, i, j)
    ensures var more := seen + [key];
            && (hash(seen[j]) <= hash(key) ==> LowestPlaces(more, hash, i, j))
            && (hash(seen[i]) <= hash(key) <= hash(seen[j]) ==> LowestPlaces(more, hash, i, |seen|))
            && (hash(key) <= hash(seen[i]) ==> LowestPlaces(more, hash, |seen|, i))
  {
    var more := seen + [key];
    forall k | 0 <= k < |seen|
      ensures more[k] == seen[k] && (k != i && k != j ==> hash(seen[j]) <= hash(more[k]))
    {
    }
  }

  lemma InsertKeepsSlots(keys: seq<Key>, n: nat, hash: Key -> Hash, h: (Hash, Hash), k: (Option<Key>, Option<Key>))
    requires n < |keys| && Slots(keys[..n], hash, h, k)
    ensures var (h1, k1) := Insert(hash, h, k, keys[n]); Slots(keys[..n + 1], hash, h1, k1)
  {
    var seen, more := keys[..n], keys[..n + 1];
    assert more == seen + [keys[n]];
    if n == 1 {
      assert more == [keys[0], keys[1]];
      assert LowestPlaces(more, hash, 0, 1) || LowestPlaces(more, hash, 1, 0);
    } else if n >= 2 {
      var i, j :| LowestPlaces(seen, hash, i, j) && k == (Some(seen[i]), Some(seen[j]))
        && h == (hash(seen[i]), hash(seen[j]));
      LowestWithOneMore(seen, keys[n], hash, i, j);
      assert more[i] == seen[i] && more[j] == seen[j] && more[n] == keys[n];
      hide LowestPlaces;
    }
  }

  /** Shard2, with its loop over the configured keys. */
  method Shard2(keys: seq<Key>, hash: Key -> Hash) returns (shards: (Option<Key>, Option<Key>))
    ensures |keys| >= 2 ==>
      exists i, j :: LowestPlaces(keys, hash, i, j) && shards == (Some(keys[i]), Some(keys[j]))
    ensures |keys| == 1 ==> shards == (Some(keys[0]), None)
    ensures |keys| == 0 ==> shards == (None, None)
  {
    var hashes: (Hash, Hash) := (MAX_HASH, MAX_HASH);
    shards := (None, None);
    for i := 0 to |keys|
      invariant Slots(keys[..i], hash, hashes, shards)
    {
      InsertKeepsSlots(keys, i, hash, hashes, shards);
      var it := hash(keys[i]);
      if Compare(hashes.1, it) == -1 {
        continue;
      }
      var cmpidx := SecondBit(Compare(hashes.0, it));
      if cmpidx == 1 {
        hashes, shards := (hashes.0, it), (shards.0, Some(keys[i]));
      } else {
        hashes, shards := (it, hashes.0), (Some(keys[i]), shards.0);
      }
    }
    assert keys[..|keys|] == keys;
  }

  lemma LowestPlacesAreTheTwoLowest(keys: seq<Key>, hash: Key -> Hash, i: int, j: int)
    requires NoCollisions(keys, hash) && LowestPlaces(keys, hash, i, j)
    ensures AreTwoLowest(keys, hash, keys[i], keys[j])
  {
    forall k | k in keys
      ensures k == keys[i] || k == keys[j] || hash(keys[j]) < hash(k)
    {
      var m :| 0 <= m < |keys| && keys[m] == k;
      if m != i && m != j {
        assert hash(keys[m]) != hash(keys[j]);
      }
    }
  }

  /** One replica is both shards exactly when the configuration lists the key with the
      lowest hash more than once. */
  lemma SameShardTwiceIff(keys: seq<Key>, hash: Key -> Hash, i: int, j: int)
    requires LowestPlaces(keys, hash, i, j)
    requires forall a, b :: a in keys && b in keys && hash(a) == hash(b) ==> a == b
    ensures keys[i] == keys[j] <==> exists m :: 0 <= m < |keys| && m != i && keys[m] == keys[i]
  {
    if m :| 0 <= m < |keys| && m != i && keys[m] == keys[i] {
      assert hash(keys[i]) == hash(keys[j]);
    }
  }

  // ------------------------------------------------------------ the slow form

  /** The keys in order of hash, as Shard sorts them. */
  ghost predicate IsSorting(keys: seq<Key>, hash: Key -> Hash, sorted: seq<Key>)
  {
    multiset(sorted) == multiset(keys) && forall i, j :: 0 <= i < j < |sorted| ==> hash(sorted[i]) <= hash(sorted[j])
  }

  lemma OncePerKey(keys: seq<Key>, hash: Key -> Hash, sorted: seq<Key>, i: nat, j: nat)
    requires NoCollisions(keys, hash) && multiset(sorted) == multiset(keys) && i < j < |sorted|
    ensures sorted[i] != sorted[j]
  {
    if sorted[i] == sorted[j] {
      TwiceCounts(sorted, i, j);
      OnceCounts(keys, hash, sorted[i]);
    }
  }

  lemma TwiceCounts(s: seq<Key>, i: nat, j: nat)
    requires i < j < |s| && s[i] == s[j]
    ensures multiset(s)[s[i]] >= 2
  {
    var front, back := s[..j], s[j..];
    assert s == front + back;
    assert s[i] == front[i] && s[j] == back[0];
    assert multiset(s) == multiset(front) + multiset(back);
  }

  lemma {:induction false} OnceCounts(keys: seq<Key>, hash: Key -> Hash, k: Key)
    requires NoCollisions(keys, hash)
    ensures multiset(keys)[k] <= 1
  {
    if keys != [] {
      OnceCounts(keys[1..], hash, k);
      assert keys == [keys[0]] + keys[1..];
      assert keys[0] !in keys[1..];
      assert multiset(keys) == multiset{keys[0]} + multiset(keys[1..]);
    }
  }

  /** The fast form computes the slow one: whatever order sorting finds, its first
      two keys are the ones Shard2 returns, in the same order. */
  lemma FastIsSlow(keys: seq<Key>, hash: Key -> Hash, sorted: seq<Key>, a: Key, b: Key)
    requires NoCollisions(keys, hash) && |keys| >= 2
    requires IsSorting(keys, hash, sorted) && AreTwoLowest(keys, hash, a, b)
    ensures |sorted| >= 2 && sorted[0] == a && sorted[1] == b
  {
    assert |multiset(sorted)| == |multiset(keys)|;
    assert |sorted| == |keys|;
    assert a in multiset(keys) && b in multiset(keys);
    assert a in sorted && b in sorted;
    OncePerKey(keys, hash, sorted, 0, 1);
    assert sorted[0] in multiset(sorted) && sorted[1] in multiset(sorted);
    assert sorted[0] in keys && sorted[1] in keys;
    var i :| 0 <= i < |sorted| && sorted[i] == a;
    var j :| 0 <= j < |sorted| && sorted[j] == b;
    assert hash(sorted[0]) <= hash(sorted[i]);
    assert sorted[0] == a;
    assert j >= 1 && hash(sorted[1]) <= hash(sorted[j]);
  }

  /** Every replica finds the same shards, in whatever order its document lists the
      configured keys. */
  lemma ShardsDoNotDependOnOrder(keys: seq<Key>, others: seq<Key>, hash: Key -> Hash, a: Key, b: Key, c: Key, d: Key)
    requires multiset(keys) == multiset(others)
    requires AreTwoLowest(keys, hash, a, b) && AreTwoLowest(others, hash, c, d)
    ensures a == c && b == d
  {
    assert forall k :: k in keys <==> k in others by {
      assert forall k :: k in keys <==> k in multiset(keys);
      assert forall k :: k in others <==> k in multiset(others);
    }
  }
}
