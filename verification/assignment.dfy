/**
 * Topic-wide replication-factor change (kafka/client.go): `buildAssignment`
 * runs the planner for every partition, and `IsReplicationFactorUpdating`
 * decides from the cluster's reassignment status whether a change is still
 * in flight. The sarama lookups (`Brokers`, `Partitions`, `Replicas`,
 * `ListPartitionReassignments`) are the inputs.
 */
module Assignment {
  import opened IntTypes
  import opened Outcomes
  import opened Filtering
  import opened ReplicaPlanner

  /** Why building an assignment stopped. */
  datatype AssignmentError =
    | ReplicasLookupFailed(partition: int32)  // `c.client.Replicas` returned an error
    | PlanFailed(cause: PlanError)

  /**
   * The partition ids of a topic: a permutation of `0 .. N-1`, since Go uses
   * each id as an index into an array of length N. (The length bound follows
   * from the ids being distinct non-negative int32 values.)
   */
  predicate IsPartitionList(partitions: seq<int32>)
  {
    && NoDup(partitions)
    && |partitions| <= 0x8000_0000
    && forall k :: 0 <= k < |partitions| ==> 0 <= partitions[k] as int < |partitions|
  }

  /**
   * What one iteration of `buildAssignment`'s loop may produce for partition
   * `p`: the lookup error when the replicas of `p` cannot be read, otherwise a
   * planner outcome for its replicas with `deltaRF = newRF - oldRF` computed
   * in int16.
   */
  predicate PartitionPlanned(pool: seq<int32>, replicasOf: map<int32, seq<int32>>, newRF: int16,
                             p: int32, r: Result<seq<int32>, AssignmentError>)
  {
    if p !in replicasOf then
      r == Err(ReplicasLookupFailed(p))
    else
      var current := replicasOf[p];
      && |current| <= MaxInt16
      && match r
         case Ok(replicas) => Planned(pool, current, Sub16(newRF, |current| as int16), Ok(replicas))
         case Err(PlanFailed(e)) => Planned(pool, current, Sub16(newRF, |current| as int16), Err(e))
         case Err(ReplicasLookupFailed(_)) => false
  }

  /**
   * Whatever int16 target Go is given, a successful plan has exactly that
   * many replicas. When `newRF - oldRF` overflows int16 the wrapped delta is
   * a large growth, and the broker guard always rejects it.
   */
  lemma PlannedLengthIsTarget(all: seq<int32>, oldReplicas: seq<int32>, newRF: int16, r: seq<int32>)
    requires |oldReplicas| <= MaxInt16 && |all| <= MaxInt16
    requires Planned(all, oldReplicas, Sub16(newRF, |oldReplicas| as int16), Ok(r))
    ensures |r| == newRF as int
  {
    // When `newRF - oldRF` is below MinInt16, the wrapped delta exceeds
    // MaxInt16 - |oldReplicas| >= |all| - |oldReplicas|, so the plan failed.
  }

  /** The int32 values `0 .. n-1`. */
  function Slots(n: nat): (slots: set<int32>)
    requires n <= 0x8000_0000
    ensures forall x: int32 :: x in slots <==> 0 <= x as int < n
    ensures |slots| == n
  {
    if n == 0 then {}
    else
      var below := Slots(n - 1);
      assert ((n - 1) as int32) !in below;
      below + {(n - 1) as int32}
  }

  /** A permutation of `0 .. N-1` lists every slot of an array of length N. */
  lemma PartitionListCoversSlots(partitions: seq<int32>, s: int)
    requires IsPartitionList(partitions)
    requires 0 <= s < |partitions|
    ensures exists k :: 0 <= k < |partitions| && partitions[k] as int == s
  {
    var n := |partitions|;
    var listed := Elems(partitions);
    var slots := Slots(n);
    ElemsCard(partitions);
    assert listed <= slots;
    assert |slots - listed| == |slots| - |listed| == 0;
    assert (s as int32) in slots;
    assert (s as int32) in listed;
  }

  /**
   * `buildAssignment`: one planner call per partition, in the order Go lists
   * them, each result stored at index `p` of an array of `len(partitions)`
   * lists. The first failure stops the loop and is returned together with the
   * partly filled array.
   */
  method BuildAssignment(brokers: seq<int32>, partitions: seq<int32>,
                         replicasOf: map<int32, seq<int32>>, newRF: int16)
    returns (assignment: array<seq<int32>>, err: Option<AssignmentError>)
    requires IsPartitionList(partitions)
    requires forall p :: p in replicasOf ==> |replicasOf[p]| <= MaxInt16
    requires |Pool(brokers)| <= MaxInt16 && NoDup(Pool(brokers))
    ensures fresh(assignment) && assignment.Length == |partitions|
    ensures err.None? ==>
      forall k :: 0 <= k < |partitions| ==>
        PartitionPlanned(Pool(brokers), replicasOf, newRF, partitions[k], Ok(assignment[partitions[k]]))
    ensures err.None? ==> forall s :: 0 <= s < assignment.Length ==> |assignment[s]| == newRF as int
    ensures err.Some? ==>
      exists k :: 0 <= k < |partitions|
        && (forall i :: 0 <= i < k ==>
              PartitionPlanned(Pool(brokers), replicasOf, newRF, partitions[i], Ok(assignment[partitions[i]])))
        && PartitionPlanned(Pool(brokers), replicasOf, newRF, partitions[k], Err(err.value))
  {
    var allReplicas := AllReplicas(brokers);
    assignment := new seq<int32>[|partitions|](_ => []);
    for k := 0 to |partitions|
      invariant forall i :: 0 <= i < k ==>
        PartitionPlanned(allReplicas, replicasOf, newRF, partitions[i], Ok(assignment[partitions[i]]))
      invariant forall i :: 0 <= i < k ==> |assignment[partitions[i]]| == newRF as int
    {
      var p := partitions[k];
      if p !in replicasOf {
        assert PartitionPlanned(allReplicas, replicasOf, newRF, partitions[k], Err(ReplicasLookupFailed(p)));
        return assignment, Some(ReplicasLookupFailed(p));
      }
      var oldReplicas := replicasOf[p];
      var oldRF := |oldReplicas| as int16;
      var deltaRF := Sub16(newRF, oldRF);
      var newReplicas := BuildNewReplicas(allReplicas, oldReplicas, deltaRF);
      if newReplicas.Err? {
        assert PartitionPlanned(allReplicas, replicasOf, newRF, partitions[k], Err(PlanFailed(newReplicas.error)));
        return assignment, Some(PlanFailed(newReplicas.error));
      }
      PlannedLengthIsTarget(allReplicas, oldReplicas, newRF, newReplicas.value);
      assignment[p] := newReplicas.value;
    }
    forall s | 0 <= s < assignment.Length
      ensures |assignment[s]| == newRF as int
    {
      PartitionListCoversSlots(partitions, s);
    }
    err := None;
  }

  /** sarama's reassignment status of one partition. */
  datatype ReassignmentStatus = ReassignmentStatus(
    replicas: seq<int32>,
    addingReplicas: seq<int32>,
    removingReplicas: seq<int32>)

  /** `isPartitionRFChanging`: replicas are still being added or removed. */
  predicate IsPartitionRFChanging(status: ReassignmentStatus)
  {
    |status.addingReplicas| != 0 || |status.removingReplicas| != 0
  }

  /** A partition's replication factor is changing exactly while some broker is being added or removed. */
  lemma PartitionRFChangingMeans(status: ReassignmentStatus)
    ensures IsPartitionRFChanging(status) <==>
      exists b :: b in status.addingReplicas || b in status.removingReplicas
  {
    if |status.addingReplicas| != 0 {
      assert status.addingReplicas[0] in status.addingReplicas;
    } else if |status.removingReplicas| != 0 {
      assert status.removingReplicas[0] in status.removingReplicas;
    }
  }

  /**
   * The status loop of `IsReplicationFactorUpdating`: the topic's statuses
   * are visited in Go's (unspecified) map order and the first changing one
   * answers true. A topic absent from the status map has no statuses.
   */
  method IsReplicationFactorUpdating(topic: string, statusMap: map<string, map<int32, ReassignmentStatus>>)
    returns (updating: bool)
    ensures updating <==>
      topic in statusMap && exists p :: p in statusMap[topic] && IsPartitionRFChanging(statusMap[topic][p])
  {
    var statuses := if topic in statusMap then statusMap[topic] else map[];
    var remaining := statuses.Keys;
    while remaining != {}
      invariant remaining <= statuses.Keys
      invariant forall p :: p in statuses && p !in remaining ==> !IsPartitionRFChanging(statuses[p])
      decreases remaining
    {
      var p :| p in remaining;
      if IsPartitionRFChanging(statuses[p]) {
        return true;
      }
      remaining := remaining - {p};
    }
    return false;
  }
}
