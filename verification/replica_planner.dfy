/**
 * Replica reassignment planning for one partition (kafka/client.go): the
 * broker pool, the brokers a partition does not use yet, and the planner that
 * grows or shrinks a partition's replica list by a signed delta.
 *
 * `rand.Intn(n)` is modelled as an arbitrary index below `n`, so the planner
 * is specified by a relation (`Planned`) rather than by a function: growth
 * appends brokers drawn without replacement from the unused list, whichever
 * ones the random source picks.
 */
module ReplicaPlanner {
  import opened IntTypes
  import opened Outcomes
  import opened Filtering

  /** The id sarama reports for a broker it does not know. */
  const NoBroker: int32 := -1

  /**
   * The errors the planner returns: Go's `errors.New("dropping too many
   * replicas")` and `errors.New("not enough brokers")`.
   */
  datatype PlanError =
    | DroppingTooManyReplicas
    | NotEnoughBrokers

  /** The brokers eligible to host replicas: the known ids in order, without the "no broker" id. */
  function Pool(brokers: seq<int32>): seq<int32>
  {
    Without(brokers, {NoBroker})
  }

  /** The brokers of `all`, in `all`'s order, that `used` does not hold. */
  function Unused(all: seq<int32>, used: seq<int32>): seq<int32>
  {
    Without(all, Elems(used))
  }

  /**
   * What `buildNewReplicas(all, used, deltaRF)` may return. The delta is
   * compared with the lengths as Go's int16 arithmetic does; the guard for
   * growth is `len(all) - len(used)`, not the length of the unused list.
   */
  predicate Planned(all: seq<int32>, used: seq<int32>, deltaRF: int16, r: Result<seq<int32>, PlanError>)
  {
    if deltaRF == 0 then
      r == Ok(used)
    else if deltaRF < 0 then
      if |used| + deltaRF as int < 1 then r == Err(DroppingTooManyReplicas)
      else r == Ok(used[..|used| + deltaRF as int])
    else if |all| - |used| < deltaRF as int then
      r == Err(NotEnoughBrokers)
    else
      && r.Ok?
      && |r.value| == |used| + deltaRF as int
      && r.value[..|used|] == used
      && multiset(r.value[|used|..]) <= multiset(Unused(all, used))
  }

  /** `allReplicas`: the ids of the cluster's brokers with every "no broker" id dropped. */
  method AllReplicas(brokers: seq<int32>) returns (replicas: seq<int32>)
    ensures replicas == Pool(brokers)
    ensures NoBroker !in replicas
    ensures forall b :: b in replicas <==> b in brokers && b != NoBroker
  {
    replicas := [];
    for i := 0 to |brokers|
      invariant replicas == Without(brokers[..i], {NoBroker})
    {
      WithoutSnoc(brokers, i, {NoBroker});
      var id := brokers[i];
      if id != NoBroker {
        replicas := replicas + [id];
      }
    }
    assert brokers[..|brokers|] == brokers;
    forall b
      ensures b in replicas <==> b in brokers && b != NoBroker
    {
      WithoutMembers(brokers, {NoBroker}, b);
    }
  }

  /**
   * `findUnusedReplicas`: a set of the used ids, then the ids of `all` outside
   * it, in `all`'s order. `extraCount` only sizes the result's capacity in
   * Go, where `make` panics on a negative capacity.
   */
  method FindUnusedReplicas(all: seq<int32>, used: seq<int32>, extraCount: int16) returns (unused: seq<int32>)
    requires 0 <= extraCount
    ensures unused == Unused(all, used)
  {
    var usedMap: map<int32, bool> := map[];
    for i := 0 to |used|
      invariant usedMap.Keys == Elems(used[..i])
    {
      assert used[..i + 1] == used[..i] + [used[i]];
      usedMap := usedMap[used[i] := true];
    }
    assert used[..|used|] == used;
    unused := [];
    for i := 0 to |all|
      invariant unused == Without(all[..i], usedMap.Keys)
    {
      WithoutSnoc(all, i, usedMap.Keys);
      var r := all[i];
      if r !in usedMap {
        unused := unused + [r];
      }
    }
    assert all[..|all|] == all;
  }

  /**
   * Replacing slot `j` by the last element and dropping the last slot removes
   * exactly `s[j]`: moving it to the drawn brokers keeps their multiset union.
   */
  lemma SwapRemove(drawn: seq<int32>, s: seq<int32>, j: nat)
    requires j < |s|
    ensures multiset(drawn + [s[j]]) + multiset(s[j := s[|s| - 1]][..|s| - 1]) == multiset(drawn) + multiset(s)
  {
    var n := |s|;
    var t := s[j := s[n - 1]][..n - 1];
    if j == n - 1 {
      assert t == s[..n - 1];
      assert s == s[..n - 1] + [s[n - 1]];
    } else {
      assert t == s[..j] + [s[n - 1]] + s[j + 1..n - 1];
      assert s == s[..j] + [s[j]] + s[j + 1..n - 1] + [s[n - 1]];
    }
  }

  /**
   * `buildNewReplicas`: keep the list, keep a prefix of it, or append
   * `deltaRF` brokers picked at random from the unused ones, removing each
   * pick from the candidates by swapping the last candidate into its slot.
   * Go converts `len(used)` (and, for growth, `len(all)`) to int16; the model
   * requires them to fit. Growth picks `rand.Intn(len(unused))` `deltaRF`
   * times, which can only be safe when the pool is duplicate-free.
   */
  method BuildNewReplicas(all: seq<int32>, used: seq<int32>, deltaRF: int16)
    returns (r: Result<seq<int32>, PlanError>)
    requires |used| <= MaxInt16
    requires 0 < deltaRF ==> |all| <= MaxInt16 && NoDup(all)
    ensures Planned(all, used, deltaRF, r)
  {
    var usedCount := |used| as int16;
    if deltaRF == 0 {
      return Ok(used);
    } else if deltaRF < 0 {
      var end := usedCount + deltaRF;
      if end < 1 {
        return Err(DroppingTooManyReplicas);
      }
      var head := used[..end];
      return Ok(head);
    } else {
      var extraCount := |all| as int16 - usedCount;
      if extraCount < deltaRF {
        return Err(NotEnoughBrokers);
      }
      var unusedReplicas := FindUnusedReplicas(all, used, extraCount);
      ghost var candidates := unusedReplicas;
      WithoutLowerBound(all, used);
      var newReplicas := used;
      ghost var drawn: seq<int32> := [];
      var i: int16 := 0;
      while i < deltaRF
        invariant 0 <= i <= deltaRF
        invariant newReplicas == used + drawn && |drawn| == i as int
        invariant |unusedReplicas| == |candidates| - i as int
        invariant multiset(drawn) + multiset(unusedReplicas) == multiset(candidates)
      {
        var j :| 0 <= j < |unusedReplicas|;
        var last := |unusedReplicas| - 1;
        SwapRemove(drawn, unusedReplicas, j);
        newReplicas := newReplicas + [unusedReplicas[j]];
        drawn := drawn + [unusedReplicas[j]];
        unusedReplicas := unusedReplicas[j := unusedReplicas[last]][..last];
        i := i + 1;
      }
      assert newReplicas[..|used|] == used && newReplicas[|used|..] == drawn;
      return Ok(newReplicas);
    }
  }

  /** The pool never contains the "no broker" id, and holds every other known id. */
  lemma PoolMembers(brokers: seq<int32>, b: int32)
    ensures b in Pool(brokers) <==> b in brokers && b != NoBroker
  {
    WithoutMembers(brokers, {NoBroker}, b);
  }

  /** The unused list is exactly the pool's brokers that the partition does not use. */
  lemma UnusedMembers(all: seq<int32>, used: seq<int32>, b: int32)
    ensures b in Unused(all, used) <==> b in all && b !in used
  {
    WithoutMembers(all, Elems(used), b);
  }

  /**
   * When the pool is duplicate-free and holds every used broker, and `used`
   * is duplicate-free, the guard's count `len(all) - len(used)` is the true
   * number of unused brokers.
   */
  lemma UnusedCount(all: seq<int32>, used: seq<int32>)
    requires NoDup(all) && NoDup(used)
    requires forall b :: b in used ==> b in all
    ensures |Unused(all, used)| == |all| - |used|
  {
    WithoutLength(all, Elems(used));
    ElemsCard(used);
    assert Elems(used) * Elems(all) == Elems(used);
  }

  /**
   * On success the planner's list has `len(used) + deltaRF` entries and agrees
   * with `used` on their common prefix, so the preferred leader (index 0) is
   * kept.
   */
  lemma PlannedShape(all: seq<int32>, used: seq<int32>, deltaRF: int16, r: seq<int32>)
    requires Planned(all, used, deltaRF, Ok(r))
    ensures |r| == |used| + deltaRF as int
    ensures deltaRF <= 0 ==> r == used[..|r|]
    ensures 0 <= deltaRF ==> r[..|used|] == used
    ensures |r| >= 1 || (deltaRF == 0 && used == [])
    ensures used != [] ==> r[0] == used[0]
  {
  }

  /**
   * Growth adds only brokers of the pool that the partition did not use, and
   * no broker twice; with a duplicate-free `used` the whole list stays
   * duplicate-free.
   */
  lemma PlannedReplicasDistinct(all: seq<int32>, used: seq<int32>, deltaRF: int16, r: seq<int32>)
    requires NoDup(all)
    requires Planned(all, used, deltaRF, Ok(r))
    ensures 0 < deltaRF ==> NoDup(r[|used|..])
    ensures forall k :: |used| <= k < |r| ==> r[k] in all && r[k] !in used
    ensures NoDup(used) ==> NoDup(r)
  {
    if 0 < deltaRF {
      var tail := r[|used|..];
      var candidates := Unused(all, used);
      WithoutNoDup(all, Elems(used));
      SubMultisetNoDup(tail, candidates);
      forall k | |used| <= k < |r|
        ensures r[k] in all && r[k] !in used
      {
        assert r[k] == tail[k - |used|];
        UnusedMembers(all, used, r[k]);
      }
      if NoDup(used) {
        assert r == used + tail;
        forall i, j | 0 <= i < j < |r|
          ensures r[i] != r[j]
        {
          if j >= |used| && i < |used| {
            assert r[i] in used;
          }
        }
      }
    }
  }

  /** Planning errors exactly in the two documented cases; otherwise a list comes back. */
  lemma PlannedFails(all: seq<int32>, used: seq<int32>, deltaRF: int16, r: Result<seq<int32>, PlanError>)
    requires Planned(all, used, deltaRF, r)
    ensures r == Err(DroppingTooManyReplicas) <==> deltaRF < 0 && |used| + deltaRF as int < 1
    ensures r == Err(NotEnoughBrokers) <==> 0 < deltaRF && |all| - |used| < deltaRF as int
    ensures r.Ok? <==> !(deltaRF < 0 && |used| + deltaRF as int < 1) && !(0 < deltaRF && |all| - |used| < deltaRF as int)
  {
  }

  /** Brokers 1..5, replicas [1, 2], growth by 2: [1, 2] followed by two distinct brokers from 3, 4, 5. */
  lemma ScenarioGrowByTwo(r: seq<int32>)
    requires Planned([1, 2, 3, 4, 5], [1, 2], 2, Ok(r))
    ensures |r| == 4 && r[..2] == [1, 2]
    ensures r[2] != r[3]
    ensures r[2] in {3, 4, 5} && r[3] in {3, 4, 5}
  {
    var all: seq<int32> := [1, 2, 3, 4, 5];
    var used: seq<int32> := [1, 2];
    assert NoDup(all);
    PlannedReplicasDistinct(all, used, 2, r);
    assert r[2..] == [r[2], r[3]];
    assert r[2] in all && r[2] !in used;
    assert r[3] in all && r[3] !in used;
  }

  /** Brokers 1..3 all used: growth by 1 fails for lack of brokers. */
  lemma ScenarioNoBrokerLeft(r: Result<seq<int32>, PlanError>)
    requires Planned([1, 2, 3], [1, 2, 3], 1, r)
    ensures r == Err(NotEnoughBrokers)
  {
  }

  /** Replicas [1, 2, 3, 4]: shrinking by 3 keeps [1], shrinking by 4 fails. */
  lemma ScenarioShrink(r3: Result<seq<int32>, PlanError>, r4: Result<seq<int32>, PlanError>)
    requires Planned([], [1, 2, 3, 4], -3, r3)
    requires Planned([], [1, 2, 3, 4], -4, r4)
    ensures r3 == Ok([1])
    ensures r4 == Err(DroppingTooManyReplicas)
  {
    assert [1, 2, 3, 4][..1] == [1 as int32];
  }
}
