/**
 * Client quotas (kafka/kafka_quotas.go): the resource key of a quota, the
 * entity component a request names, the ops copied into an alter request and
 * the flattening of a describe response into quotas. The broker calls
 * themselves are left out; their responses are inputs.
 */
module Quotas {
  import opened IntTypes
  import opened Outcomes
  import opened Filtering

  /** A Go float64, kept as its bit pattern: quota values are only copied, never computed with. */
  type Float64 = bv64

  /** The name part of the key of a quota on the default entity. */
  const EntityDefault: string := "entity-default"

  /** sarama's `ErrNoError`. */
  const ErrNoError: int16 := 0

  datatype QuotaOp = QuotaOp(key: string, value: Float64, remove: bool)

  /** Go's `strings.Join`. */
  function Join(elems: seq<string>, sep: string): (s: string)
    ensures |elems| == 1 ==> s == elems[0]
    ensures |elems| == 2 ==> s == elems[0] + sep + elems[1]
  {
    if elems == [] then ""
    else if |elems| == 1 then elems[0]
    else elems[0] + sep + Join(elems[1..], sep)
  }

  datatype Quota = Quota(entityType: string, entityName: string, ops: seq<QuotaOp>)
  {
    /** The resource key: `name|type`, with `entity-default` standing for an empty name. */
    function ID(): (id: string)
      ensures entityName == "" ==> id == EntityDefault + "|" + entityType
      ensures entityName != "" ==> id == entityName + "|" + entityType
    {
      if entityName == "" then Join([EntityDefault, entityType], "|")
      else Join([entityName, entityType], "|")
    }

    /** `String` renders a quota as its key. */
    function String(): (s: string)
      ensures s == ID()
    {
      ID()
    }
  }

  /** The position of the last `c` in `s`, if any. */
  function LastIndex(s: string, c: char): (r: Option<nat>)
    ensures r.None? ==> c !in s
    ensures r.Some? ==> r.value < |s| && s[r.value] == c
    ensures r.Some? ==> forall k :: r.value < k < |s| ==> s[k] != c
  {
    if s == [] then None
    else if s[|s| - 1] == c then Some(|s| - 1)
    else LastIndex(s[..|s| - 1], c)
  }

  /** Splits a key at its last `|` into the name part and the entity type. */
  function ParseID(id: string): (r: Option<(string, string)>)
    ensures r.None? ==> '|' !in id
    ensures r.Some? ==> r.value.0 + "|" + r.value.1 == id && '|' !in r.value.1
  {
    match LastIndex(id, '|')
    case None => None
    case Some(k) =>
      assert id == id[..k] + "|" + id[k + 1..];
      Some((id[..k], id[k + 1..]))
  }

  /**
   * The key of a quota whose entity type has no `|` splits back into the
   * name it was built from (or `entity-default`) and the type.
   */
  lemma IDRoundTrip(q: Quota)
    requires '|' !in q.entityType
    ensures ParseID(q.ID()) == Some((if q.entityName == "" then EntityDefault else q.entityName, q.entityType))
  {
    var name := if q.entityName == "" then EntityDefault else q.entityName;
    var id := q.ID();
    assert id == name + "|" + q.entityType;
    var k := |name|;
    assert id[k] == '|';
    var r := LastIndex(id, '|');
    assert r.Some? && r.value == k;
    assert id[..k] == name;
    assert id[k + 1..] == q.entityType;
  }

  /**
   * Keys tell quotas apart as long as entity types carry no `|` and no
   * entity is literally named `entity-default`.
   */
  lemma IDInjective(a: Quota, b: Quota)
    requires '|' !in a.entityType && '|' !in b.entityType
    requires a.entityName != EntityDefault && b.entityName != EntityDefault
    requires a.ID() == b.ID()
    ensures a.entityType == b.entityType && a.entityName == b.entityName
  {
    IDRoundTrip(a);
    IDRoundTrip(b);
  }

  /** The default entity and an entity literally named `entity-default` share a key. */
  lemma IDDefaultCollision(entityType: string, ops: seq<QuotaOp>)
    ensures Quota(entityType, "", ops).ID() == Quota(entityType, EntityDefault, ops).ID()
  {
  }

  /** sarama's `QuotaMatchExact`, `QuotaMatchDefault` and `QuotaMatchAny`. */
  datatype MatchType = MatchExact | MatchDefault | MatchAny

  /** sarama's `QuotaEntityComponent`, as sent in an alter request and received in a describe response. */
  datatype EntityComponent = EntityComponent(entityType: string, matchType: MatchType, name: string)

  /** sarama's `QuotaFilterComponent`, as sent in a describe request. */
  datatype FilterComponent = FilterComponent(entityType: string, matchType: MatchType, matchName: string)

  /** The entity `AlterQuota` names: the default entity for an empty name, else exactly that name. */
  function AlterEntity(quota: Quota): (c: EntityComponent)
    ensures c.entityType == quota.entityType
    ensures c.matchType == MatchDefault <==> quota.entityName == ""
    ensures c.matchType == MatchExact <==> quota.entityName != ""
    ensures c.name == quota.entityName
  {
    if quota.entityName == "" then
      EntityComponent(quota.entityType, MatchDefault, "")
    else
      EntityComponent(quota.entityType, MatchExact, quota.entityName)
  }

  /** The filter `DescribeQuota` sends: default match for an empty name, else an exact match on it. */
  function DescribeFilter(entityType: string, entityName: string): (f: FilterComponent)
    ensures f.entityType == entityType
    ensures f.matchType == MatchDefault <==> entityName == ""
    ensures f.matchType == MatchExact <==> entityName != ""
    ensures f.matchName == entityName
  {
    if entityName == "" then
      FilterComponent(entityType, MatchDefault, "")
    else
      FilterComponent(entityType, MatchExact, entityName)
  }

  /** Describing a quota by its type and name filters on the very entity that altering it names. */
  lemma AlterAndDescribeAgree(quota: Quota)
    ensures var f, c := DescribeFilter(quota.entityType, quota.entityName), AlterEntity(quota);
      f.entityType == c.entityType && f.matchType == c.matchType && f.matchName == c.name
  {
  }

  /** The entity a key denotes: `entity-default` is the default entity, any other name an exact one. */
  function EntityOfID(id: string): Option<EntityComponent>
  {
    match ParseID(id)
    case None => None
    case Some((name, entityType)) =>
      if name == EntityDefault then Some(EntityComponent(entityType, MatchDefault, ""))
      else Some(EntityComponent(entityType, MatchExact, name))
  }

  /** The key of a quota denotes exactly the entity its alter request names. */
  lemma EntityOfIDMatchesAlter(quota: Quota)
    requires '|' !in quota.entityType
    requires quota.entityName != EntityDefault
    ensures EntityOfID(quota.ID()) == Some(AlterEntity(quota))
  {
    IDRoundTrip(quota);
  }

  /** sarama's `ClientQuotasOp`. */
  datatype ClientQuotasOp = ClientQuotasOp(key: string, value: Float64, remove: bool)

  /** `ops` carries `configs` one to one, in order, with key, value and removal flag unchanged. */
  predicate CopiedOps(ops: seq<ClientQuotasOp>, configs: seq<QuotaOp>)
  {
    && |ops| == |configs|
    && forall i :: 0 <= i < |ops| ==>
         ops[i].key == configs[i].key && ops[i].value == configs[i].value && ops[i].remove == configs[i].remove
  }

  datatype AlterEntry = AlterEntry(entity: seq<EntityComponent>, ops: seq<ClientQuotasOp>)

  datatype AlterRequest = AlterRequest(entries: seq<AlterEntry>, validateOnly: bool)

  /** The request `AlterQuota` sends: one entry naming the quota's entity and carrying its ops. */
  method BuildAlterRequest(quota: Quota, validateOnly: bool) returns (request: AlterRequest)
    ensures request.validateOnly == validateOnly
    ensures |request.entries| == 1
    ensures request.entries[0].entity == [AlterEntity(quota)]
    ensures CopiedOps(request.entries[0].ops, quota.ops)
  {
    var entity := AlterEntity(quota);
    var configs := quota.ops;
    var ops: seq<ClientQuotasOp> := [];
    for i := 0 to |configs|
      invariant CopiedOps(ops, configs[..i])
    {
      var o := configs[i];
      ops := ops + [ClientQuotasOp(o.key, o.value, o.remove)];
    }
    assert configs[..|configs|] == configs;
    var entry := AlterEntry([entity], ops);
    request := AlterRequest([entry], validateOnly);
  }

  datatype DescribeRequest = DescribeRequest(components: seq<FilterComponent>, strict: bool)

  /** The request `DescribeQuota` sends: the one filter, strictly matched. */
  function BuildDescribeRequest(entityType: string, entityName: string): (request: DescribeRequest)
    ensures request.strict
    ensures request.components == [DescribeFilter(entityType, entityName)]
  {
    DescribeRequest([DescribeFilter(entityType, entityName)], true)
  }

  /** One entry of a describe response: the entity it applies to and its quota values by key. */
  datatype DescribeEntry = DescribeEntry(entity: seq<EntityComponent>, values: map<string, Float64>)

  datatype QuotaError =
    | DescribeFailed(code: int16)   // "error describing quota <code>"
    | QuotaMissing(msg: string)     // "<name> could not be found"

  /**
   * `ops` lists each entry of `values` once, as a non-removing op, in some
   * order: Go ranges over a map in an unspecified order.
   */
  predicate OpsOf(ops: seq<QuotaOp>, values: map<string, Float64>)
  {
    && (forall i :: 0 <= i < |ops| ==>
          ops[i].key in values && ops[i].value == values[ops[i].key] && !ops[i].remove)
    && (forall i, j :: 0 <= i < j < |ops| ==> ops[i].key != ops[j].key)
    && (forall k :: k in values ==> exists i :: 0 <= i < |ops| && ops[i].key == k)
  }

  /** The inner map loop of `DescribeQuota`: one op per value, visited in map order. */
  method ValuesToOps(values: map<string, Float64>) returns (ops: seq<QuotaOp>)
    ensures OpsOf(ops, values)
  {
    ops := [];
    var remaining := values.Keys;
    while remaining != {}
      invariant remaining <= values.Keys
      invariant forall i :: 0 <= i < |ops| ==>
        ops[i].key in values && ops[i].key !in remaining && ops[i].value == values[ops[i].key] && !ops[i].remove
      invariant forall i, j :: 0 <= i < j < |ops| ==> ops[i].key != ops[j].key
      invariant forall k :: k in values && k !in remaining ==> exists i :: 0 <= i < |ops| && ops[i].key == k
      decreases remaining
    {
      var k :| k in remaining;
      ghost var before := ops;
      ops := ops + [QuotaOp(k, values[k], false)];
      remaining := remaining - {k};
      forall key | key in values && key !in remaining
        ensures exists i :: 0 <= i < |ops| && ops[i].key == key
      {
        if key == k {
          assert ops[|before|].key == key;
        } else {
          var i :| 0 <= i < |before| && before[i].key == key;
          assert ops[i].key == key;
        }
      }
    }
  }

  /** A listing of `values` holds exactly the non-removing ops of the map's entries, each once. */
  lemma OpsOfMembers(ops: seq<QuotaOp>, values: map<string, Float64>, x: QuotaOp)
    requires OpsOf(ops, values)
    ensures NoDup(ops)
    ensures x in ops <==> x.key in values && x == QuotaOp(x.key, values[x.key], false)
  {
  }

  /**
   * Two listings of the same values differ at most in order: as a multiset
   * the ops of a describe entry are determined.
   */
  lemma OpsDetermined(a: seq<QuotaOp>, b: seq<QuotaOp>, values: map<string, Float64>)
    requires OpsOf(a, values) && OpsOf(b, values)
    ensures multiset(a) == multiset(b)
  {
    forall x
      ensures multiset(a)[x] == multiset(b)[x]
    {
      OpsOfMembers(a, values, x);
      OpsOfMembers(b, values, x);
      NoDupMultiplicity(a, x);
      NoDupMultiplicity(b, x);
      assert x in a <==> x in b;
      assert x in a <==> x in multiset(a);
      assert x in b <==> x in multiset(b);
    }
  }

  /** The quotas one response entry flattens to: one per entity component, each with the entry's ops. */
  function QuotasOf(e: DescribeEntry, ops: seq<QuotaOp>): seq<Quota>
  {
    seq(|e.entity|, k requires 0 <= k < |e.entity| => Quota(e.entity[k].entityType, e.entity[k].name, ops))
  }

  /** All entries flattened in order, entry `i` carrying the op listing `opsOf[i]`. */
  function Flatten(entries: seq<DescribeEntry>, opsOf: seq<seq<QuotaOp>>): seq<Quota>
    requires |opsOf| == |entries|
  {
    if entries == [] then []
    else
      var n := |entries| - 1;
      Flatten(entries[..n], opsOf[..n]) + QuotasOf(entries[n], opsOf[n])
  }

  /** The number of entity components across all entries. */
  function ComponentCount(entries: seq<DescribeEntry>): nat
  {
    if entries == [] then 0
    else ComponentCount(entries[..|entries| - 1]) + |entries[|entries| - 1].entity|
  }

  /** Flattening yields exactly one quota per entity component, whatever the op listings. */
  lemma {:induction false} FlattenLength(entries: seq<DescribeEntry>, opsOf: seq<seq<QuotaOp>>)
    requires |opsOf| == |entries|
    ensures |Flatten(entries, opsOf)| == ComponentCount(entries)
  {
    if entries != [] {
      var n := |entries| - 1;
      FlattenLength(entries[..n], opsOf[..n]);
    }
  }

  /** Some entry names at least one entity component. */
  predicate HasComponent(entries: seq<DescribeEntry>)
  {
    exists i :: 0 <= i < |entries| && entries[i].entity != []
  }

  /** The first entry that names an entity component. */
  function FirstOwner(entries: seq<DescribeEntry>): (i: nat)
    requires HasComponent(entries)
    ensures i < |entries| && entries[i].entity != []
    ensures forall k :: 0 <= k < i ==> entries[k].entity == []
  {
    if entries[0].entity != [] then 0
    else
      assert HasComponent(entries[1..]) by {
        var i :| 0 <= i < |entries| && entries[i].entity != [];
        assert entries[1..][i - 1] == entries[i];
      }
      1 + FirstOwner(entries[1..])
  }

  /** Entries without entity components flatten to nothing. */
  lemma {:induction false} FlattenNothing(entries: seq<DescribeEntry>, opsOf: seq<seq<QuotaOp>>)
    requires |opsOf| == |entries|
    requires forall k :: 0 <= k < |entries| ==> entries[k].entity == []
    ensures Flatten(entries, opsOf) == []
  {
    if entries != [] {
      var n := |entries| - 1;
      FlattenNothing(entries[..n], opsOf[..n]);
    }
  }

  /**
   * The first flattened quota comes from the first component of the first
   * entry that has one, and carries that entry's ops.
   */
  lemma {:induction false} FlattenHead(entries: seq<DescribeEntry>, opsOf: seq<seq<QuotaOp>>)
    requires |opsOf| == |entries|
    requires HasComponent(entries)
    ensures var i := FirstOwner(entries);
      Flatten(entries, opsOf) != [] &&
      Flatten(entries, opsOf)[0] == Quota(entries[i].entity[0].entityType, entries[i].entity[0].name, opsOf[i])
  {
    var i := FirstOwner(entries);
    var n := |entries| - 1;
    if n == i {
      FlattenNothing(entries[..n], opsOf[..n]);
    } else {
      assert entries[..n][i] == entries[i];
      assert HasComponent(entries[..n]);
      assert FirstOwner(entries[..n]) == i by {
        var j := FirstOwner(entries[..n]);
        assert entries[..n][j] == entries[j];
      }
      FlattenHead(entries[..n], opsOf[..n]);
    }
  }

  /** One step of the describe loop: flattening one more entry appends its quotas. */
  lemma FlattenSnoc(entries: seq<DescribeEntry>, opsOf: seq<seq<QuotaOp>>, ops: seq<QuotaOp>)
    requires |opsOf| < |entries|
    ensures var i := |opsOf|;
      Flatten(entries[..i + 1], opsOf + [ops]) == Flatten(entries[..i], opsOf) + QuotasOf(entries[i], ops)
  {
    var i := |opsOf|;
    assert entries[..i + 1][..i] == entries[..i];
    assert (opsOf + [ops])[..i] == opsOf;
  }

  /** The describe loop: flatten every entry, listing each entry's values once. */
  method FlattenEntries(entries: seq<DescribeEntry>) returns (res: seq<Quota>, ghost opsOf: seq<seq<QuotaOp>>)
    ensures |opsOf| == |entries|
    ensures forall i :: 0 <= i < |entries| ==> OpsOf(opsOf[i], entries[i].values)
    ensures res == Flatten(entries, opsOf)
    ensures |res| == ComponentCount(entries)
  {
    res := [];
    opsOf := [];
    for i := 0 to |entries|
      invariant |opsOf| == i
      invariant forall k :: 0 <= k < i ==> OpsOf(opsOf[k], entries[k].values)
      invariant res == Flatten(entries[..i], opsOf)
    {
      var e := entries[i];
      var ops := ValuesToOps(e.values);
      ghost var before := res;
      for c := 0 to |e.entity|
        invariant res == before + QuotasOf(e, ops)[..c]
      {
        var entry := e.entity[c];
        assert QuotasOf(e, ops)[..c + 1] == QuotasOf(e, ops)[..c] + [Quota(entry.entityType, entry.name, ops)];
        res := res + [Quota(entry.entityType, entry.name, ops)];
      }
      assert QuotasOf(e, ops)[..|e.entity|] == QuotasOf(e, ops);
      FlattenSnoc(entries, opsOf, ops);
      opsOf := opsOf + [ops];
    }
    assert entries[..|entries|] == entries;
    FlattenLength(entries, opsOf);
  }

  /**
   * `DescribeQuota` after the broker call: a non-zero error code fails, an
   * empty response is a missing quota, otherwise the first flattened quota is
   * returned. Go indexes `res[0]`, so a non-empty response must name at least
   * one entity component.
   */
  method DescribeQuota(entityName: string, errorCode: int16, entries: seq<DescribeEntry>)
    returns (r: Result<Quota, QuotaError>)
    requires errorCode == ErrNoError && entries != [] ==> HasComponent(entries)
    ensures errorCode != ErrNoError ==> r == Err(DescribeFailed(errorCode))
    ensures errorCode == ErrNoError && entries == [] ==> r == Err(QuotaMissing(entityName + " could not be found"))
    ensures errorCode == ErrNoError && entries != [] ==>
      && r.Ok?
      && var i := FirstOwner(entries);
      && r.value.entityType == entries[i].entity[0].entityType
      && r.value.entityName == entries[i].entity[0].name
      && OpsOf(r.value.ops, entries[i].values)
  {
    if errorCode != ErrNoError {
      return Err(DescribeFailed(errorCode));
    }
    if |entries| < 1 {
      return Err(QuotaMissing(entityName + " could not be found"));
    }
    var res, opsOf := FlattenEntries(entries);
    FlattenHead(entries, opsOf);
    return Ok(res[0]);
  }
}
