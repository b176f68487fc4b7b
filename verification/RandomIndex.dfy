/** Unbiased random choice (pigeonhole/pki.go): rejection sampling of an index from
    64-bit words, and the choice of two intermediate replicas built on it. The
    random source is a list of words; running out of it is its read error. */
module RandomIndex {
  import opened Options
  import opened Bytes

  /** The words at the top of the range that would favour small indexes. */
  function Excess(n: Uint64): Uint64
    requires n > 0
  {
    Minus(0, n) % n
  }

  predicate Accepted(n: Uint64, v: Uint64)
    requires n > 0
  {
    Excess(n) == 0 || v < Minus(0, Excess(n))
  }

  /** The index an accepted word gives. */
  function IndexFrom(n: Uint64, v: Uint64): (i: nat)
    requires n > 0
    ensures i < n
  {
    v % n
  }

  // ------------------------------------------------------------------- exactness

  /** How many words below k are accepted and give the index j. */
  function Hits(n: Uint64, j: nat, k: nat): nat
    requires n > 0 && k <= TWO_TO_64
  {
    if k == 0 then 0
    else Hits(n, j, k - 1) + if Accepted(n, k - 1) && IndexFrom(n, k - 1) == j then 1 else 0
  }

  /** How many numbers below k leave the remainder j. */
  function Residues(n: nat, j: nat, k: nat): nat
    requires n > 0
  {
    if k == 0 then 0 else Residues(n, j, k - 1) + if (k - 1) % n == j then 1 else 0
  }

  /** What is rejected is the remainder of the whole range. */
  lemma ExcessIsRemainder(n: Uint64)
    requires n > 0
    ensures TWO_TO_64 == n * (TWO_TO_64 / n) + Excess(n) && Excess(n) < n
  {
    var m := TWO_TO_64 - n;
    var q, r := m / n, m % n;
    assert m == n * q + r;
    assert n * (q + 1) == n * q + n;
    ModuloOfSum(n, q + 1, r);
  }

  /** Within one block of n numbers each remainder occurs once. */
  lemma {:induction false} ResiduesInBlock(n: nat, j: nat, q: nat, i: nat)
    requires j < n && i <= n
    ensures Residues(n, j, n * q + i) == Residues(n, j, n * q) + if j < i then 1 else 0
    decreases i
  {
    if i > 0 {
      ResiduesInBlock(n, j, q, i - 1);
      ModuloOfSum(n, q, i - 1);
    }
  }

  lemma {:induction false} ResiduesInBlocks(n: nat, j: nat, q: nat)
    requires j < n
    ensures Residues(n, j, n * q) == q
  {
    if q > 0 {
      ResiduesInBlocks(n, j, q - 1);
      ResiduesInBlock(n, j, q - 1, n);
      assert n * (q - 1) + n == n * q;
    }
  }

  lemma AcceptedBelow(n: Uint64, v: Uint64)
    requires n > 0
    ensures Accepted(n, v) <==> v < n * (TWO_TO_64 / n)
  {
    ExcessIsRemainder(n);
  }

  lemma {:induction false} HitsAreResidues(n: Uint64, j: nat, k: nat, limit: nat)
    requires n > 0 && k <= TWO_TO_64 && limit == n * (TWO_TO_64 / n)
    ensures Hits(n, j, k) == Residues(n, j, if k < limit then k else limit)
  {
    if k > 0 {
      HitsAreResidues(n, j, k - 1, limit);
      AcceptedBelow(n, k - 1);
    }
  }

  /** Exactly unbiased: every index is hit by the same number of accepted words. */
  lemma EveryIndexEquallyLikely(n: Uint64, j: nat)
    requires 0 < n && j < n
    ensures Hits(n, j, TWO_TO_64) == TWO_TO_64 / n
  {
    var limit := n * (TWO_TO_64 / n);
    ExcessIsRemainder(n);
    HitsAreResidues(n, j, TWO_TO_64, limit);
    ResiduesInBlocks(n, j, TWO_TO_64 / n);
  }

  lemma RemainderNoLarger(m: nat, n: nat)
    requires n > 0
    ensures m % n <= m && m % n < n
  {
    if m < n {
      ModuloOfSum(n, 0, m);
    }
  }

  /** At least half of all words are accepted. */
  lemma AtLeastHalfAccepted(n: Uint64, v: Uint64)
    requires n > 0 && 2 * v < TWO_TO_64
    ensures Accepted(n, v)
  {
    RemainderNoLarger(TWO_TO_64 - n, n);
  }

  // ------------------------------------------------------------------- the loop

  /** CryptoRandIndex on the words the source delivers; unread are those left. */
  method CryptoRandIndex(n: int, words: seq<Uint64>) returns (index: Option<nat>, unread: seq<Uint64>)
    requires n < TWO_TO_64 / 2
    ensures n <= 0 ==> index.None? && unread == words
    ensures n > 0 && index.Some? ==>
      exists k :: 0 <= k < |words| && Accepted(n, words[k]) && index.value == IndexFrom(n, words[k])
        && unread == words[k + 1..] && forall i :: 0 <= i < k ==> !Accepted(n, words[i])
    ensures n > 0 && index.None? ==> unread == [] && forall i :: 0 <= i < |words| ==> !Accepted(n, words[i])
  {
    if n <= 0 {
      return None, words;
    }
    var r := Minus(0, n) % n;
    var i := 0;
    while i < |words|
      invariant 0 <= i <= |words|
      invariant forall k :: 0 <= k < i ==> !Accepted(n, words[k])
    {
      var v := words[i];
      if r == 0 || v < Minus(0, r) {
        assert Accepted(n, v);
        return Some(v % n), words[i + 1..];
      }
      i := i + 1;
    }
    return None, [];
  }

  // ------------------------------------------------------ intermediate replicas

  type ReplicaID = Byte

  /** The word is accepted and picks this replica. */
  predicate Picks(all: seq<ReplicaID>, v: Uint64, id: ReplicaID)
    requires |all| < TWO_TO_64 / 2
  {
    all != [] && Accepted(|all|, v) && all[IndexFrom(|all|, v)] == id
  }

  /** The first accepted word whose replica is not excluded, with the words after it. */
  function Drawn(all: seq<ReplicaID>, exclude: seq<ReplicaID>, words: seq<Uint64>): Option<(ReplicaID, seq<Uint64>)>
    requires |all| < TWO_TO_64 / 2
    decreases |words|
  {
    if all == [] || words == [] then None
    else if Accepted(|all|, words[0]) && all[IndexFrom(|all|, words[0])] !in exclude
    then Some((all[IndexFrom(|all|, words[0])], words[1..]))
    else Drawn(all, exclude, words[1..])
  }

  lemma {:induction false} SkipRejected(all: seq<ReplicaID>, exclude: seq<ReplicaID>, words: seq<Uint64>, k: nat)
    requires 0 < |all| < TWO_TO_64 / 2 && k <= |words|
    requires forall i :: 0 <= i < k ==> !Accepted(|all|, words[i]) || all[IndexFrom(|all|, words[i])] in exclude
    ensures Drawn(all, exclude, words) == Drawn(all, exclude, words[k..])
    decreases k
  {
    hide Accepted, IndexFrom;
    if k > 0 {
      SkipRejected(all, exclude, words[1..], k - 1);
      assert words[1..][k - 1..] == words[k..];
    } else {
      assert words[0..] == words;
    }
  }

  /** pickRandomReplicaID: draws again while the candidate is excluded. */
  method PickRandomReplicaID(all: seq<ReplicaID>, exclude: seq<ReplicaID>, words: seq<Uint64>)
    returns (id: Option<ReplicaID>, unread: seq<Uint64>)
    requires |all| < TWO_TO_64 / 2
    ensures id.Some? <==> Drawn(all, exclude, words).Some?
    ensures id.Some? ==> Drawn(all, exclude, words) == Some((id.value, unread))
  {
    unread := words;
    hide Accepted, IndexFrom;
    while true
      invariant Drawn(all, exclude, words) == Drawn(all, exclude, unread)
      decreases |unread|
    {
      var index, rest := CryptoRandIndex(|all|, unread);
      if index.None? {
        if all != [] {
          SkipRejected(all, exclude, unread, |unread|);
        }
        return None, rest;
      }
      var candidate := all[index.value];
      ghost var k :| 0 <= k < |unread| && Accepted(|all|, unread[k]) && index.value == IndexFrom(|all|, unread[k])
        && rest == unread[k + 1..] && forall i :: 0 <= i < k ==> !Accepted(|all|, unread[i]);
      SkipRejected(all, exclude, unread, k);
      assert unread[k..][0] == unread[k] && unread[k..][1..] == rest;
      var excluded := Contains(exclude, candidate);
      if !excluded {
        return Some(candidate), rest;
      }
      unread := rest;
    }
  }

  method Contains(ids: seq<ReplicaID>, candidate: ReplicaID) returns (found: bool)
    ensures found <==> candidate in ids
  {
    for i := 0 to |ids|
      invariant candidate !in ids[..i]
    {
      if ids[i] == candidate {
        return true;
      }
    }
    return false;
  }

  ghost predicate Distinct(ids: seq<ReplicaID>)
  {
    forall i, j :: 0 <= i < j < |ids| ==> ids[i] != ids[j]
  }

  /** The ReplicaIDs GetRandomIntermediateReplicas settles on. The number of replicas
      is taken modulo 256, as the source does. */
  function Chosen(all: seq<ReplicaID>, shardIDs: seq<ReplicaID>, words: seq<Uint64>): Option<(ReplicaID, ReplicaID)>
    requires |all| < TWO_TO_64 / 2
  {
    var numReplicas := |all| % 256;
    if numReplicas < 2 then None
    else if numReplicas == 2 then Some((all[0], all[1]))
    else
      var first :=
        if numReplicas == 3 && shardIDs != [] then Some((shardIDs[0], words))
        else Drawn(all, if numReplicas == 3 then [] else shardIDs, words);
      if first.None? then None else
        var second := Drawn(all, [first.value.0] + if numReplicas == 3 then [] else shardIDs, first.value.1);
        if second.None? then None else Some((first.value.0, second.value.0))
  }

  method ChooseIntermediates(all: seq<ReplicaID>, shardIDs: seq<ReplicaID>, words: seq<Uint64>)
    returns (chosen: Option<(ReplicaID, ReplicaID)>)
    requires |all| < TWO_TO_64 / 2
    ensures chosen == Chosen(all, shardIDs, words)
  {
    hide Drawn;
    var numReplicas := |all| % 256;
    if numReplicas < 2 {
      return None;
    }
    if numReplicas == 2 {
      return Some((all[0], all[1]));
    }
    var replica1: Option<ReplicaID>, unread := None, words;
    if numReplicas == 3 && |shardIDs| > 0 {
      replica1 := Some(shardIDs[0]);
    } else {
      replica1, unread := PickRandomReplicaID(all, if numReplicas == 3 then [] else shardIDs, words);
    }
    if replica1.None? {
      return None;
    }
    var exclude := [replica1.value] + if numReplicas == 3 then [] else shardIDs;
    var replica2, _ := PickRandomReplicaID(all, exclude, unread);
    if replica2.None? {
      return None;
    }
    return Some((replica1.value, replica2.value));
  }

  // ------------------------------------------------------------ even-handed draws

  /** How many words below k pick this replica. */
  function Pickers(all: seq<ReplicaID>, id: ReplicaID, k: nat): nat
    requires |all| < TWO_TO_64 / 2 && k <= TWO_TO_64
  {
    if k == 0 then 0 else Pickers(all, id, k - 1) + if Picks(all, k - 1, id) then 1 else 0
  }

  lemma {:induction false} PickersAreHits(all: seq<ReplicaID>, i: nat, k: nat)
    requires i < |all| < TWO_TO_64 / 2 && k <= TWO_TO_64 && Distinct(all)
    ensures Pickers(all, all[i], k) == Hits(|all|, i, k)
  {
    if k > 0 {
      PickersAreHits(all, i, k - 1);
      var j := IndexFrom(|all|, k - 1);
      assert all[j] == all[i] <==> j == i;
      hide Accepted, IndexFrom;
    }
  }

  lemma {:induction false} NoPickers(all: seq<ReplicaID>, id: ReplicaID, k: nat)
    requires |all| < TWO_TO_64 / 2 && k <= TWO_TO_64 && id !in all
    ensures Pickers(all, id, k) == 0
  {
    if k > 0 {
      NoPickers(all, id, k - 1);
      hide Accepted, IndexFrom;
    }
  }

  /** One draw favours no replica: of the 2^64 words, every listed replica is picked by
      the same number, and no other replica by any. So is every replica that a later
      draw still admits. */
  lemma EveryReplicaEquallyLikely(all: seq<ReplicaID>, id: ReplicaID)
    requires 0 < |all| < TWO_TO_64 / 2 && Distinct(all)
    ensures Pickers(all, id, TWO_TO_64) == if id in all then TWO_TO_64 / |all| else 0
  {
    hide Accepted, IndexFrom, Pickers, Hits;
    if id in all {
      var i :| 0 <= i < |all| && all[i] == id;
      PickersAreHits(all, i, TWO_TO_64);
      EveryIndexEquallyLikely(|all|, i);
    } else {
      NoPickers(all, id, TWO_TO_64);
    }
  }

  /** The position of the word a draw ends on: it picks a replica that is not excluded,
      and no earlier word does. */
  ghost predicate EndsAt(all: seq<ReplicaID>, exclude: seq<ReplicaID>, words: seq<Uint64>, k: nat)
    requires |all| < TWO_TO_64 / 2
  {
    && k < |words| && Admits(all, exclude, words[k])
    && forall i :: 0 <= i < k ==> !Admits(all, exclude, words[i])
  }

  ghost predicate Admits(all: seq<ReplicaID>, exclude: seq<ReplicaID>, v: Uint64)
    requires |all| < TWO_TO_64 / 2
  {
    exists id :: Picks(all, v, id) && id !in exclude
  }

  /** A draw returns what the first admissible word picks and leaves the words after it. */
  lemma {:induction false} DrawnIsFirst(all: seq<ReplicaID>, exclude: seq<ReplicaID>, words: seq<Uint64>, k: nat,
    id: ReplicaID)
    requires |all| < TWO_TO_64 / 2 && k < |words|
    ensures EndsAt(all, exclude, words, k) && Picks(all, words[k], id) ==>
              Drawn(all, exclude, words) == Some((id, words[k + 1..]))
    decreases |words|
  {
    if EndsAt(all, exclude, words, k) && Picks(all, words[k], id) {
      if k > 0 {
        var rest := words[1..];
        assert forall i :: 0 <= i < k ==> rest[i] == words[i + 1];
        assert EndsAt(all, exclude, rest, k - 1);
        DrawnIsFirst(all, exclude, rest, k - 1, id);
        assert rest[k - 1 + 1..] == words[k + 1..];
        assert !Admits(all, exclude, words[0]);
        assert Accepted(|all|, words[0]) ==> Picks(all, words[0], all[IndexFrom(|all|, words[0])]);
      } else {
        var other :| Picks(all, words[0], other) && other !in exclude;
        assert other == id;
      }
    }
    hide Accepted, IndexFrom;
  }

  /** With fewer than two replicas there is no choice, with two it is both of them. */
  lemma FewReplicas(all: seq<ReplicaID>, shardIDs: seq<ReplicaID>, words: seq<Uint64>)
    requires |all| <= 2 && Distinct(all)
    ensures Chosen(all, shardIDs, words).Some? <==> |all| == 2
    ensures var chosen := Chosen(all, shardIDs, words);
            |all| == 2 ==> chosen.value.0 != chosen.value.1 && forall id :: id in all <==> id == chosen.value.0 || id == chosen.value.1
  {
    if |all| == 2 {
      assert all == [all[0], all[1]];
    }
  }

  /** Some word of the list picks this replica. */
  ghost predicate Offers(all: seq<ReplicaID>, words: seq<Uint64>, id: ReplicaID)
    requires |all| < TWO_TO_64 / 2
  {
    exists k :: 0 <= k < |words| && Picks(all, words[k], id)
  }

  lemma OffersCons(all: seq<ReplicaID>, words: seq<Uint64>, id: ReplicaID)
    requires |all| < TWO_TO_64 / 2 && words != []
    ensures Offers(all, words, id) <==> Picks(all, words[0], id) || Offers(all, words[1..], id)
  {
    hide Picks;
    var rest := words[1..];
    if Offers(all, rest, id) {
      var k :| 0 <= k < |rest| && Picks(all, rest[k], id);
      assert words[k + 1] == rest[k];
    }
    if Offers(all, words, id) && !Picks(all, words[0], id) {
      var k :| 0 <= k < |words| && Picks(all, words[k], id);
      assert rest[k - 1] == words[k];
    }
  }

  /** A draw yields a replica the words offer and the exclusions do not name, and uses
      up no word that picks another such replica. */
  lemma {:induction false} DrawnFrom(all: seq<ReplicaID>, exclude: seq<ReplicaID>, words: seq<Uint64>, id: ReplicaID)
    requires |all| < TWO_TO_64 / 2
    ensures var d := Drawn(all, exclude, words);
            && (d.Some? ==> d.value.0 in all && d.value.0 !in exclude && Offers(all, words, d.value.0))
            && (id !in exclude && Offers(all, words, id) ==> d.Some? && (id == d.value.0 || Offers(all, d.value.1, id)))
            && (d.Some? && Offers(all, d.value.1, id) ==> Offers(all, words, id))
    decreases |words|
  {
    if words != [] && all != [] {
      OffersCons(all, words, id);
      var first := all[IndexFrom(|all|, words[0])];
      OffersCons(all, words, first);
      var d := Drawn(all, exclude, words[1..]);
      DrawnFrom(all, exclude, words[1..], id);
      if d.Some? {
        OffersCons(all, words, d.value.0);
      }
      hide Accepted, IndexFrom, Offers;
    }
  }

  /** With four replicas or more: two different replicas, both listed, neither a shard,
      exactly when the words offer two such replicas. */
  lemma FourReplicasIff(all: seq<ReplicaID>, shardIDs: seq<ReplicaID>, words: seq<Uint64>)
    requires |all| < TWO_TO_64 / 2 && |all| % 256 >= 4
    ensures var chosen := Chosen(all, shardIDs, words);
            && (chosen.Some? <==> exists a, b :: a != b && a !in shardIDs && b !in shardIDs
                                                 && Offers(all, words, a) && Offers(all, words, b))
            && (chosen.Some? ==> chosen.value.0 != chosen.value.1 && chosen.value.0 in all && chosen.value.1 in all
                                 && chosen.value.0 !in shardIDs && chosen.value.1 !in shardIDs)
  {
    var first := Drawn(all, shardIDs, words);
    hide Drawn, Offers;
    if a, b :| a != b && a !in shardIDs && b !in shardIDs && Offers(all, words, a) && Offers(all, words, b) {
      DrawnFrom(all, shardIDs, words, a);
      DrawnFrom(all, shardIDs, words, b);
      var other := if a == first.value.0 then b else a;
      DrawnFrom(all, [first.value.0] + shardIDs, first.value.1, other);
    } else if first.Some? {
      DrawnFrom(all, shardIDs, words, first.value.0);
      var second := Drawn(all, [first.value.0] + shardIDs, first.value.1);
      if second.Some? {
        DrawnFrom(all, [first.value.0] + shardIDs, first.value.1, second.value.0);
        DrawnFrom(all, shardIDs, words, second.value.0);
      }
    }
    if Chosen(all, shardIDs, words).Some? {
      DrawnFrom(all, shardIDs, words, first.value.0);
      DrawnFrom(all, [first.value.0] + shardIDs, first.value.1, first.value.0);
    }
  }

  /** With three: the first online shard, if there is one, and a different replica,
      exactly when the words offer one; without a shard, two different replicas. */
  lemma ThreeReplicasIff(all: seq<ReplicaID>, shardIDs: seq<ReplicaID>, words: seq<Uint64>)
    requires |all| < TWO_TO_64 / 2 && |all| % 256 == 3
    ensures var chosen := Chosen(all, shardIDs, words);
            && (shardIDs != [] ==>
                  && (chosen.Some? <==> exists b :: b != shardIDs[0] && Offers(all, words, b))
                  && (chosen.Some? ==> chosen.value.0 == shardIDs[0] != chosen.value.1 && chosen.value.1 in all))
            && (shardIDs == [] ==>
                  && (chosen.Some? <==> exists a, b :: a != b && Offers(all, words, a) && Offers(all, words, b))
                  && (chosen.Some? ==> chosen.value.0 != chosen.value.1 && chosen.value.0 in all && chosen.value.1 in all))
  {
    hide Drawn, Offers;
    if shardIDs != [] {
      var second := Drawn(all, [shardIDs[0]] + [], words);
      if b :| b != shardIDs[0] && Offers(all, words, b) {
        DrawnFrom(all, [shardIDs[0]] + [], words, b);
      } else if second.Some? {
        DrawnFrom(all, [shardIDs[0]] + [], words, second.value.0);
      }
    } else {
      var first := Drawn(all, [], words);
      if a, b :| a != b && Offers(all, words, a) && Offers(all, words, b) {
        DrawnFrom(all, [], words, a);
        DrawnFrom(all, [], words, b);
        var other := if a == first.value.0 then b else a;
        DrawnFrom(all, [first.value.0] + [], first.value.1, other);
      } else if first.Some? {
        DrawnFrom(all, [], words, first.value.0);
        var second := Drawn(all, [first.value.0] + [], first.value.1);
        if second.Some? {
          DrawnFrom(all, [first.value.0] + [], first.value.1, second.value.0);
          DrawnFrom(all, [], words, second.value.0);
        }
      }
    }
  }

  function Elements(ids: seq<ReplicaID>): (r: set<ReplicaID>)
    ensures forall id :: id in r <==> id in ids
    ensures |r| <= |ids|
  {
    if ids == [] then {} else {ids[0]} + Elements(ids[1..])
  }

  lemma {:induction false} AsManyAsDistinct(ids: seq<ReplicaID>)
    requires Distinct(ids)
    ensures |Elements(ids)| == |ids|
  {
    if ids != [] {
      AsManyAsDistinct(ids[1..]);
      assert ids[0] !in Elements(ids[1..]);
    }
  }

  /** Each selection loop has a candidate to find, and words that find it: among more
      distinct replicas than are excluded one is admissible, and the word that is its
      position is accepted. With four replicas or more at most three are excluded. */
  lemma LoopCanEnd(all: seq<ReplicaID>, exclude: seq<ReplicaID>)
    requires Distinct(all) && |exclude| < |all| < TWO_TO_64 / 2
    ensures exists w: Uint64 :: Accepted(|all|, w) && all[IndexFrom(|all|, w)] !in exclude
  {
    AsManyAsDistinct(all);
    var a, x := Elements(all), Elements(exclude);
    if a <= x {
      SubsetSmaller(a, x);
    }
    var id :| id in a && id !in x;
    var i :| 0 <= i < |all| && all[i] == id;
    AtLeastHalfAccepted(|all|, i);
    ModuloOfSum(|all|, 0, i);
    assert all[IndexFrom(|all|, i)] !in exclude;
  }

  lemma OffersAppended(all: seq<ReplicaID>, words: seq<Uint64>, more: seq<Uint64>, k: nat, id: ReplicaID)
    requires |all| < TWO_TO_64 / 2 && k < |more| && Picks(all, more[k], id)
    ensures Offers(all, words + more, id)
  {
    hide Picks;
    assert (words + more)[|words| + k] == more[k];
  }

  /** Neither loop can be stuck: with 4 to 255 distinct replicas and at most two shards,
      whatever was drawn so far, two more words are enough to settle the choice. */
  lemma IntermediatesCanBeChosen(all: seq<ReplicaID>, shardIDs: seq<ReplicaID>, words: seq<Uint64>)
    requires Distinct(all) && 4 <= |all| < 256 && |shardIDs| <= 2
    ensures exists v: Uint64, w: Uint64 :: Chosen(all, shardIDs, words + [v, w]).Some?
  {
    LoopCanEnd(all, shardIDs);
    var v: Uint64 :| Accepted(|all|, v) && all[IndexFrom(|all|, v)] !in shardIDs;
    var a := all[IndexFrom(|all|, v)];
    LoopCanEnd(all, [a] + shardIDs);
    var w: Uint64 :| Accepted(|all|, w) && all[IndexFrom(|all|, w)] !in [a] + shardIDs;
    var b := all[IndexFrom(|all|, w)];
    OffersAppended(all, words, [v, w], 0, a);
    OffersAppended(all, words, [v, w], 1, b);
    assert a != b && b !in shardIDs;
    hide Accepted, IndexFrom, Offers, Chosen, Distinct;
    FourReplicasIff(all, shardIDs, words + [v, w]);
  }

  lemma {:induction false} SubsetSmaller(a: set<ReplicaID>, b: set<ReplicaID>)
    requires a <= b
    ensures |a| <= |b|
    decreases a
  {
    if x :| x in a {
      SubsetSmaller(a - {x}, b - {x});
    }
  }
}
