# Kafka provider: replica reassignment planning and client quotas

A Dafny model of two self-contained pieces of the Terraform Kafka provider's
client.

**Replica reassignment planning** (`kafka/client.go`). This part changes a
topic's replication factor.

- The broker pool is the list of known broker ids with the "no broker" id `-1`
  dropped (`AllReplicas`).
- For each partition, the planner (`BuildNewReplicas`) either:
  - keeps the replica list (delta 0);
  - keeps a prefix of it (negative delta), or fails with "dropping too many
    replicas";
  - appends `deltaRF` brokers drawn at random, without replacement, from the
    pool brokers the partition does not use yet (`FindUnusedReplicas`), or
    fails with "not enough brokers".
- `BuildAssignment` runs the planner for every partition, with
  `deltaRF = newRF - len(old)` computed in Go's int16 arithmetic. It stores each
  result at index `p` of an array and stops at the first error.
- `IsReplicationFactorUpdating` reports whether any partition still has replicas
  being added or removed.

**Client quotas** (`kafka/kafka_quotas.go`):

- the quota key `name|type`, where the name `entity-default` stands for an empty
  entity name (`Quota.ID`, `Quota.String`);
- the choice between Default and Exact entity match in alter and describe
  requests;
- the one-to-one copy of ops into an alter request;
- the flattening of a describe response into quotas, and its "could not be
  found" error.

Modelling choices:

- `rand.Intn(n)` is an arbitrary index `0 <= j < n`, chosen nondeterministically.
  For that reason the planner is specified by the relation
  `ReplicaPlanner.Planned`, which lists each delta case and its outcome. For
  growth it says the appended tail is a sub-multiset of the unused list.
- The sarama lookups are inputs:
  - `Brokers` is a sequence of ids;
  - `Partitions` is the partition list;
  - `Replicas` is a map, where a missing key stands for a failed lookup;
  - `ListPartitionReassignments` is a map from topic to partition to status.
- Go map iteration (the status map, a describe entry's values) visits the
  remaining keys in an arbitrary order.
- Go's `int16`/`int32` are newtypes. The int16 subtraction
  `newRF - oldRF` (kafka/client.go:292) wraps, as `IntTypes.Sub16`.
- The planner requires `len(used)` to fit in int16. On growth it also requires
  `len(all)` to fit in int16 and the pool to hold no duplicates. That is all the
  growth loop needs: with a duplicate-free pool, the unused list always has at
  least `len(all) - len(used)` entries, so `rand.Intn` never gets 0. This holds
  even if `used` has duplicates or brokers outside the pool.
- `BuildAssignment` requires the partition ids to be a permutation of
  `0 .. N-1`, because Go indexes the result array with them.
- `DescribeQuota` requires a successful, non-empty response to name at least one
  entity component, because Go returns `res[0]`.
- Quota values (`float64`) are kept as opaque 64-bit patterns. They are only
  copied.

Two behaviours of the Go code worth knowing:

- Growth is refused when `len(all) - len(used) < deltaRF`. The number of actual
  unused candidates is not checked. `ReplicaPlanner.UnusedCount` shows that the
  two are equal when the pool and the replica list are duplicate-free and the
  list lies in the pool.
- The planner accepts delta 0 on an empty replica list, which yields a
  partition with zero replicas.

Two consequences of the code, proved rather than assumed:

- `Assignment.PlannedLengthIsTarget`: a successful entry has exactly `newRF`
  replicas for every int16 `newRF`. When the int16 subtraction wraps, the
  wrapped delta is a large growth that the broker guard always rejects.
- `Quotas.IDDefaultCollision`: a quota on the default entity and one on an
  entity literally named `entity-default` have the same key.

## Model

| member | source | states |
|---|---|---|
| `ReplicaPlanner.AllReplicas` | kafka/client.go:304-316 | the pool is the broker ids in order with every `-1` removed; `-1` never occurs in it and every other id does |
| `ReplicaPlanner.PoolMembers` | kafka/client.go:308-313 | an id is in the pool iff it is a known broker id other than `-1` |
| `ReplicaPlanner.FindUnusedReplicas` | kafka/client.go:350-365 | the result is `all` filtered by "not in `used`", order kept; `extraCount` only sets the capacity, and Go panics if it is negative |
| `ReplicaPlanner.UnusedMembers` | kafka/client.go:351-362 | a broker is unused iff it is in the pool and not among the partition's replicas |
| `ReplicaPlanner.UnusedCount` | kafka/client.go:332-337 | with a duplicate-free pool containing the duplicate-free used list, the guard's `len(all) - len(used)` equals the number of unused brokers |
| `Filtering.WithoutLowerBound` | kafka/client.go:332-340 | with a duplicate-free pool, at least `len(all) - len(used)` brokers are unused whatever `used` holds, so the guarded loop never calls `rand.Intn(0)` |
| `ReplicaPlanner.SwapRemove` | kafka/client.go:340-343 | moving the last candidate into slot `j` and truncating removes exactly the picked broker from the candidates (as a multiset) |
| `ReplicaPlanner.BuildNewReplicas` | kafka/client.go:318-348 | delta 0 returns the list unchanged; a negative delta returns the prefix of length `len+delta` or fails "dropping too many replicas" when that is below 1; growth fails "not enough brokers" when `len(all)-len(used) < delta`, otherwise it returns `used` followed by `delta` brokers drawn without replacement from the unused list |
| `ReplicaPlanner.PlannedShape` | kafka/client.go:321-346 | a successful plan has `len(used)+delta` entries, agrees with `used` on their common prefix and keeps the preferred leader at index 0 |
| `ReplicaPlanner.PlannedReplicasDistinct` | kafka/client.go:337-346 | appended brokers are pairwise distinct, in the pool and not already used; with a duplicate-free `used` the whole list is duplicate-free |
| `ReplicaPlanner.PlannedFails` | kafka/client.go:323-335 | the planner fails with "dropping too many replicas" iff shrinking leaves fewer than 1, with "not enough brokers" iff growth exceeds `len(all)-len(used)`, and succeeds otherwise |
| `ReplicaPlanner.ScenarioGrowByTwo` | kafka/client.go:331-346 | pool 1..5, replicas [1,2], delta +2: four entries starting [1,2], the last two distinct and from {3,4,5} |
| `ReplicaPlanner.ScenarioNoBrokerLeft` | kafka/client.go:332-335 | pool 1..3 fully used, delta +1: "not enough brokers" |
| `ReplicaPlanner.ScenarioShrink` | kafka/client.go:323-330 | replicas [1,2,3,4]: delta -3 keeps [1], delta -4 fails |
| `IntTypes.Sub16` | kafka/client.go:292 | Go's int16 `newRF - oldRF`: the exact difference when it fits in int16, otherwise the difference shifted by 2^16 back into range |
| `IntTypes.Wrap16` | kafka/client.go:291-292 | an int16 result equals the exact value when it fits and is shifted by 2^16 when it overflows by less than 2^16 |
| `Assignment.PlannedLengthIsTarget` | kafka/client.go:291-293 | for every int16 target, a successful plan for a partition with `deltaRF = newRF - oldRF` (int16) has exactly `newRF` replicas |
| `Assignment.PartitionListCoversSlots` | kafka/client.go:284-298 | a permutation of `0..N-1` lists every index of the N-slot assignment array |
| `Assignment.BuildAssignment` | kafka/client.go:275-302 | one slot per partition; on success slot `p` holds a planner outcome for partition `p`'s replicas and every slot has `newRF` entries; on failure some partition `k` failed (lookup or planner), every earlier partition succeeded and its slot holds its plan |
| `Assignment.PartitionRFChangingMeans` | kafka/client.go:397-399 | `isPartitionRFChanging` holds iff some broker is still being added to or removed from the partition |
| `Assignment.IsReplicationFactorUpdating` | kafka/client.go:388-399 | true iff some partition of the topic has a non-empty adding or removing list |
| `Quotas.Quota.ID` | kafka/kafka_quotas.go:33-40 | the key is `entity-default|type` for an empty name and `name|type` otherwise |
| `Quotas.Quota.String` | kafka/kafka_quotas.go:29-31 | a quota renders as its key |
| `Quotas.IDRoundTrip` | kafka/kafka_quotas.go:35-40 | splitting a key at its last `|` gives back the name (or `entity-default`) and a `|`-free entity type |
| `Quotas.IDInjective` | kafka/kafka_quotas.go:35-40 | quotas with `|`-free types and names other than `entity-default` have equal keys only if they have equal type and name |
| `Quotas.IDDefaultCollision` | kafka/kafka_quotas.go:33-39 | the default entity and an entity named `entity-default` share a key |
| `Quotas.AlterEntity` | kafka/kafka_quotas.go:49-61 | an empty name selects Default match with no name; a non-empty name selects Exact match carrying it |
| `Quotas.DescribeFilter` | kafka/kafka_quotas.go:108-120 | an empty name filters with Default match and no name; a non-empty name filters with Exact match on it |
| `Quotas.AlterAndDescribeAgree` | kafka/kafka_quotas.go:108-120 | describing by a quota's type and name filters on the same type, match type and name that altering it sends |
| `Quotas.EntityOfIDMatchesAlter` | kafka/kafka_quotas.go:35-61 | the entity a key denotes is the entity the alter request names |
| `Quotas.BuildAlterRequest` | kafka/kafka_quotas.go:49-82 | one entry naming the quota's entity; its ops have the same length and order as the quota's, with key, value and remove copied |
| `Quotas.BuildDescribeRequest` | kafka/kafka_quotas.go:108-125 | a strict request carrying exactly the entity filter |
| `Quotas.ValuesToOps` | kafka/kafka_quotas.go:147-154 | each value of the entry becomes exactly one non-removing op with its key and value |
| `Quotas.OpsOfMembers` | kafka/kafka_quotas.go:148-154 | the ops listed for an entry are exactly its `key -> value` pairs with `Remove = false`, none twice |
| `Quotas.OpsDetermined` | kafka/kafka_quotas.go:148-154 | two listings of an entry's values are equal as multisets: only map order varies |
| `Quotas.FirstOwner` | kafka/kafka_quotas.go:145-165 | the index of the first response entry naming an entity component |
| `Quotas.FlattenHead` | kafka/kafka_quotas.go:155-165 | the first flattened quota is the first component of the first entry that has one, carrying that entry's ops |
| `Quotas.FlattenLength` | kafka/kafka_quotas.go:155-163 | flattening yields exactly one quota per entity component of the response, whatever order the values are listed in |
| `Quotas.FlattenEntries` | kafka/kafka_quotas.go:145-163 | one quota per entity component of each entry, in order, each carrying a listing of that entry's values; as many quotas as components |
| `Quotas.DescribeQuota` | kafka/kafka_quotas.go:135-165 | a non-zero error code fails; an empty response fails with "<name> could not be found"; otherwise the first flattened quota is returned |

## Left out

- `NewClient`, `SaramaClient`, `extractTopics` and the topic cache with its lock (kafka/client.go:57-121, 429-431): connection setup and a lock-guarded refresh of a remote listing.
- `DeleteTopic`, `UpdateTopic`, `CreateTopic`, `AddPartitions`, `CanAlterReplicationFactor`, `ReadTopic`, `topicConfig`, `getKafkaTopics`: request/response mapping over the admin API, built on helpers (`configToResources`, `ReplicaCount`, `isDefault`, `isAWSMSKServerless`) that are not part of this model.
- `AlterReplicationFactor`, and the metadata refresh, admin creation and `Partitions` calls in `buildAssignment` and `IsReplicationFactorUpdating`: they pass transport errors through unchanged. The partition list and the status map are inputs.
- The ACL creation and deletion queues and the ACL cache (kafka/client.go:24-44): only their fields appear in the source here. The debounced batching itself is timers, mutexes and channels, i.e. concurrency.
- The distribution of `rand.Intn`: any index is allowed, and uniformity is not modelled.
- Slice aliasing: Go's shrink result shares the caller's backing array, and growth appends after a copy of the caller's slice header. The model works on values.
- `AlterQuota`'s and `DescribeQuota`'s broker calls and the per-entry error-code loop of the alter response (kafka/kafka_quotas.go:85-96): network calls and pass-through of broker error codes.
- Float arithmetic: quota values are never computed with, only copied, so they are opaque bit patterns.
- Logging throughout.
