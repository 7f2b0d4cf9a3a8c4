/**
 Policies and active operations bucketed by unordered pair of clusters
 (packages/mco/hooks/useDRPoliciesByClusterPair.ts, packages/mco/hooks/useActiveDROperations.ts).
 */
module ClusterPairs {
  import opened Options
  import opened Sequences
  import opened Grouping

  // ----- the key -----

  /** JavaScript's default order on strings: by code unit, a prefix first. */
  predicate AtMost(a: string, b: string) {
    a == "" || (b != "" && (a[0] < b[0] || (a[0] == b[0] && AtMost(a[1..], b[1..]))))
  }

  function SortedPair(a: string, b: string): (string, string) {
    if AtMost(a, b) then (a, b) else (b, a)
  }

  function PairKey(a: string, b: string): string {
    var (first, second) := SortedPair(a, b);
    first + "::" + second
  }

  /** The parts of a string around each `::`, taken from the left. */
  function SplitAtColons(s: string): (parts: seq<string>)
    ensures |parts| > 0
  {
    if |s| < 2 then [s]
    else if s[0] == ':' && s[1] == ':' then [""] + SplitAtColons(s[2..])
    else
      var rest := SplitAtColons(s[1..]);
      [[s[0]] + rest[0]] + rest[1..]
  }

  /** The first two parts; the second is undefined if there is none. */
  function ClustersFromPairKey(key: string): (string, Option<string>) {
    var parts := SplitAtColons(key);
    (parts[0], if |parts| > 1 then Some(parts[1]) else None)
  }

  /** The order of strings: they agree up to some place, where the first one ends or has the lesser character. */
  lemma {:induction false} AtMostIff(a: string, b: string)
    ensures AtMost(a, b) <==>
              exists i :: 0 <= i <= |a| && i <= |b| && a[..i] == b[..i] && (i == |a| || (i < |b| && a[i] < b[i]))
  {
    if a == "" {
      assert a[..0] == b[..0];
    } else if b == "" || a[0] != b[0] {
      if b != "" && a[0] < b[0] {
        assert a[..0] == b[..0];
      }
      forall i | 0 < i <= |a| && i <= |b|
        ensures a[..i] != b[..i]
      {
        assert a[..i][0] == a[0] && b[..i][0] == b[0];
      }
    } else {
      AtMostIff(a[1..], b[1..]);
      forall i | 0 < i <= |a| && i <= |b|
        ensures a[..i] == b[..i] <==> a[1..][..i - 1] == b[1..][..i - 1]
      {
        assert a[..i] == [a[0]] + a[1..][..i - 1] && b[..i] == [b[0]] + b[1..][..i - 1];
        assert a[1..][..i - 1] == a[..i][1..] && b[1..][..i - 1] == b[..i][1..];
      }
      if i :| 0 <= i <= |a[1..]| && i <= |b[1..]| && a[1..][..i] == b[1..][..i]
              && (i == |a[1..]| || (i < |b[1..]| && a[1..][i] < b[1..][i])) {
        assert a[..i + 1] == b[..i + 1];
      }
    }
  }

  lemma {:induction false} AtMostAntisymmetric(a: string, b: string)
    requires AtMost(a, b) && AtMost(b, a)
    ensures a == b
  {
    if a == "" {
    } else {
      AtMostAntisymmetric(a[1..], b[1..]);
      assert a == [a[0]] + a[1..] && b == [b[0]] + b[1..];
    }
  }

  lemma {:induction false} AtMostTotal(a: string, b: string)
    ensures AtMost(a, b) || AtMost(b, a)
  {
    if a == "" || b == "" || a[0] != b[0] {
    } else {
      AtMostTotal(a[1..], b[1..]);
    }
  }

  /** The key joins the two names, in order, by two colons. */
  lemma PairKeyIs(a: string, b: string)
    ensures AtMost(a, b) ==> PairKey(a, b) == a + "::" + b
    ensures AtMost(b, a) ==> PairKey(a, b) == b + "::" + a
    ensures AtMost(a, b) || AtMost(b, a)
  {
    AtMostTotal(a, b);
    if AtMost(a, b) && AtMost(b, a) {
      AtMostAntisymmetric(a, b);
    }
  }

  lemma PairKeySymmetric(a: string, b: string)
    ensures PairKey(a, b) == PairKey(b, a)
  {
    AtMostTotal(a, b);
    if AtMost(a, b) && AtMost(b, a) {
      AtMostAntisymmetric(a, b);
    }
  }

  lemma {:induction false} SplitNoColon(b: string)
    requires ':' !in b
    ensures SplitAtColons(b) == [b]
  {
    if |b| < 2 {
    } else {
      SplitNoColon(b[1..]);
      assert b == [b[0]] + b[1..];
    }
  }

  lemma {:induction false} SplitColonFree(a: string, b: string)
    requires ':' !in a && ':' !in b
    ensures SplitAtColons(a + "::" + b) == [a, b]
  {
    var s := a + "::" + b;
    if a == "" {
      assert s[2..] == b;
      SplitNoColon(b);
    } else {
      SplitColonFree(a[1..], b);
      assert s[1..] == a[1..] + "::" + b;
      assert a == [a[0]] + a[1..];
    }
  }

  /** The key gives the two clusters back, in sorted order. */
  lemma PairComesBack(a: string, b: string)
    requires ':' !in a && ':' !in b
    ensures ClustersFromPairKey(PairKey(a, b)) == (SortedPair(a, b).0, Some(SortedPair(a, b).1))
  {
    var (first, second) := SortedPair(a, b);
    SplitColonFree(first, second);
  }

  /** Two pairs share a key exactly if they are the same unordered pair. */
  lemma PairKeyInjective(a: string, b: string, c: string, d: string)
    requires ':' !in a && ':' !in b && ':' !in c && ':' !in d
    ensures PairKey(a, b) == PairKey(c, d) <==> (a == c && b == d) || (a == d && b == c)
  {
    PairComesBack(a, b);
    PairComesBack(c, d);
    PairKeySymmetric(c, d);
  }

  /** With colons in names, different pairs can share a key. */
  lemma ColonsCollide()
    ensures exists a, b, c, d :: PairKey(a, b) == PairKey(c, d) && {a, b} != {c, d}
  {
    assert PairKey("0", ":1") == "0" + "::" + ":1" == "0:" + "::" + "1" == PairKey("0:", "1");
    assert "0" in {"0", ":1"} && "0" !in {"0:", "1"};
  }

  // ----- active operations -----

  datatype Action = Failover | Relocate

  datatype Drpc = Drpc(
    name: string, ns: string, action: Option<Action>, progression: string, phase: string,
    preferredCluster: string, failoverCluster: string)  // empty where unset

  const ACTIVE_PHASES: seq<string> := ["Initiating", "Deploying", "FailingOver", "Relocating"]

  predicate IsActiveOperation(drpc: Drpc) {
    (drpc.progression != "" && drpc.progression != "Completed") || drpc.phase in ACTIVE_PHASES
  }

  datatype Operation = Operation(drpc: Drpc, sourceCluster: Option<string>, targetCluster: Option<string>)

  /** Both clusters and the action are known. */
  predicate HasDirection(drpc: Drpc) {
    drpc.action.Some? && drpc.preferredCluster != "" && drpc.failoverCluster != ""
  }

  function OperationOf(drpc: Drpc): Operation {
    if !HasDirection(drpc) then Operation(drpc, None, None)
    else if drpc.action.value == Failover then
      Operation(drpc, Some(drpc.preferredCluster), Some(drpc.failoverCluster))
    else Operation(drpc, Some(drpc.failoverCluster), Some(drpc.preferredCluster))
  }

  /** How a template literal spells a cluster; `undefined` also sorts behind every string. */
  function Spelled(cluster: Option<string>): string {
    if cluster.Some? then cluster.value else "undefined"
  }

  function BucketKey(op: Operation): string {
    if op.sourceCluster.Some? && op.targetCluster.Some? then PairKey(op.sourceCluster.value, op.targetCluster.value)
    else if op.targetCluster.Some? then op.targetCluster.value + "::undefined"
    else Spelled(op.sourceCluster) + "::undefined"
  }

  function ActiveOperations(drpcs: seq<Drpc>): seq<Operation> {
    if drpcs == [] then []
    else
      var drpc := drpcs[|drpcs| - 1];
      ActiveOperations(drpcs[..|drpcs| - 1]) + if IsActiveOperation(drpc) then [OperationOf(drpc)] else []
  }

  function BucketKeys(ops: seq<Operation>): (r: seq<string>)
    ensures |r| == |ops|
  {
    if ops == [] then [] else BucketKeys(ops[..|ops| - 1]) + [BucketKey(ops[|ops| - 1])]
  }

  lemma BucketKeysSnoc(ops: seq<Operation>, op: Operation)
    ensures BucketKeys(ops + [op]) == BucketKeys(ops) + [BucketKey(op)]
  {
    assert (ops + [op])[..|ops|] == ops;
  }

  lemma ActiveSnoc(drpcs: seq<Drpc>, i: nat)
    requires i < |drpcs|
    ensures ActiveOperations(drpcs[..i + 1])
         == ActiveOperations(drpcs[..i]) + if IsActiveOperation(drpcs[i]) then [OperationOf(drpcs[i])] else []
  {
    assert drpcs[..i + 1][..i] == drpcs[..i];
  }

  method Direct(drpc: Drpc) returns (operation: Operation)
    ensures operation == OperationOf(drpc)
  {
    var sourceCluster, targetCluster: Option<string> := None, None;
    if drpc.action == Some(Failover) && drpc.failoverCluster != "" && drpc.preferredCluster != "" {
      sourceCluster := Some(drpc.preferredCluster);
      targetCluster := Some(drpc.failoverCluster);
    } else if drpc.action == Some(Relocate) && drpc.preferredCluster != "" && drpc.failoverCluster != "" {
      sourceCluster := Some(drpc.failoverCluster);
      targetCluster := Some(drpc.preferredCluster);
    }
    operation := Operation(drpc, sourceCluster, targetCluster);
  }

  method CollectOperations(drpcs: seq<Drpc>) returns (operationsMap: Buckets<Operation>)
    ensures var ops := ActiveOperations(drpcs); operationsMap.Contents() == IndexBy(BucketKeys(ops), ops)
  {
    operationsMap := new Buckets<Operation>();
    ghost var ops := [];
    for i := 0 to |drpcs|
      invariant ops == ActiveOperations(drpcs[..i]) && operationsMap.Contents() == IndexBy(BucketKeys(ops), ops)
    {
      ActiveSnoc(drpcs, i);
      if IsActiveOperation(drpcs[i]) {
        var operation := Direct(drpcs[i]);
        BucketKeysSnoc(ops, operation);
        IndexSnoc(BucketKeys(ops), ops, BucketKey(operation), operation);
        operationsMap.Push(BucketKey(operation), operation);
        ops := ops + [operation];
      }
    }
    assert drpcs[..|drpcs|] == drpcs;
  }

  lemma {:induction false} BucketHolds(ops: seq<Operation>, key: string, op: Operation)
    ensures op in Matching(BucketKeys(ops), ops, key) <==> op in ops && BucketKey(op) == key
  {
    if ops == [] {
    } else {
      var n := |ops| - 1;
      BucketHolds(ops[..n], key, op);
      assert ops == ops[..n] + [ops[n]];
      assert BucketKeys(ops)[..n] == BucketKeys(ops[..n]);
    }
  }

  lemma {:induction false} ActiveHas(drpcs: seq<Drpc>, op: Operation)
    ensures op in ActiveOperations(drpcs)
       <==> exists drpc :: drpc in drpcs && IsActiveOperation(drpc) && op == OperationOf(drpc)
  {
    if drpcs == [] {
    } else {
      var n := |drpcs| - 1;
      ActiveHas(drpcs[..n], op);
      assert drpcs == drpcs[..n] + [drpcs[n]];
    }
  }

  /** A failover runs from the preferred to the failover cluster, a relocation back; if the action or
      a cluster is not set, neither end is known. */
  lemma OperationIs(drpc: Drpc)
    ensures var known := drpc.preferredCluster != "" && drpc.failoverCluster != "";
            var op := OperationOf(drpc);
            && op.drpc == drpc
            && op.sourceCluster == (if known && drpc.action == Some(Failover) then Some(drpc.preferredCluster)
                                    else if known && drpc.action == Some(Relocate) then Some(drpc.failoverCluster)
                                    else None)
            && op.targetCluster == (if known && drpc.action == Some(Failover) then Some(drpc.failoverCluster)
                                    else if known && drpc.action == Some(Relocate) then Some(drpc.preferredCluster)
                                    else None)
  {
    assert drpc.action.Some? ==> drpc.action.value.Failover? || drpc.action.value.Relocate?;
  }

  /** The operations are those of the DRPCs with an unfinished progression or a transitional phase, in
      their order. */
  lemma {:induction false} OperationsAre(drpcs: seq<Drpc>) returns (at: seq<nat>, active: seq<Drpc>)
    ensures Picks(drpcs, at, active) && |active| == |ActiveOperations(drpcs)|
    ensures forall i :: 0 <= i < |active| ==> ActiveOperations(drpcs)[i] == OperationOf(active[i])
    ensures forall k: nat :: k in at <==>
              && k < |drpcs|
              && (|| (drpcs[k].progression != "" && drpcs[k].progression != "Completed")
                  || drpcs[k].phase in ["Initiating", "Deploying", "FailingOver", "Relocating"])
  {
    if drpcs == [] {
      at, active := [], [];
    } else {
      var n := |drpcs| - 1;
      at, active := OperationsAre(drpcs[..n]);
      PicksSnoc(drpcs[..n], at, active, drpcs[n]);
      assert drpcs[..n] + [drpcs[n]] == drpcs;
      if IsActiveOperation(drpcs[n]) {
        at, active := at + [n], active + [drpcs[n]];
      }
    }
  }

  /** The buckets together hold the operation of every active DRPC exactly as often as the DRPC
      occurs, and each operation is in the bucket of its key and no other. */
  lemma OperationsPartition(drpcs: seq<Drpc>)
    ensures var ops := ActiveOperations(drpcs);
            var keys := BucketKeys(ops);
            var index := IndexBy(keys, ops);
            && multiset(Regrouped(keys, ops, index.order)) == multiset(ops)
            && NoDup(index.order)
            && forall drpc, key :: drpc in drpcs && IsActiveOperation(drpc) ==>
                 (OperationOf(drpc) in ListAt(index, key) <==> key == BucketKey(OperationOf(drpc)))
  {
    var ops := ActiveOperations(drpcs);
    IndexIsNaive(BucketKeys(ops), ops);
    GroupsPartition(BucketKeys(ops), ops);
    DistinctNoDup(BucketKeys(ops));
    forall drpc, key | drpc in drpcs && IsActiveOperation(drpc)
      ensures OperationOf(drpc) in ListAt(IndexBy(BucketKeys(ops), ops), key) <==> key == BucketKey(OperationOf(drpc))
    {
      ActiveHas(drpcs, OperationOf(drpc));
      BucketHolds(ops, key, OperationOf(drpc));
    }
  }

  predicate ColonFree(drpc: Drpc) {
    ':' !in drpc.preferredCluster && ':' !in drpc.failoverCluster
  }

  /** Two operations with a direction share a bucket exactly if they run between the same two
      clusters, whichever way each goes, and it is the bucket of a policy over those clusters. */
  lemma SameBucketIff(x: Drpc, y: Drpc)
    requires HasDirection(x) && HasDirection(y) && ColonFree(x) && ColonFree(y)
    ensures BucketKey(OperationOf(x)) == PairKey(x.preferredCluster, x.failoverCluster)
    ensures BucketKey(OperationOf(x)) == BucketKey(OperationOf(y))
       <==> {x.preferredCluster, x.failoverCluster} == {y.preferredCluster, y.failoverCluster}
  {
    var a, b, c, d := x.preferredCluster, x.failoverCluster, y.preferredCluster, y.failoverCluster;
    PairKeySymmetric(a, b);
    PairKeySymmetric(c, d);
    PairKeyInjective(a, b, c, d);
    if {a, b} == {c, d} {
      assert a in {c, d} && b in {c, d} && c in {a, b} && d in {a, b};
    }
  }

  /** An active operation lands in the bucket of its cluster pair exactly if its direction is known;
      all others share one bucket, whatever their clusters. */
  lemma UndirectedShareABucket(x: Drpc)
    requires ColonFree(x)
    ensures !HasDirection(x) ==> BucketKey(OperationOf(x)) == "undefined::undefined"
    ensures x.preferredCluster != "undefined" ==>
              (BucketKey(OperationOf(x)) == PairKey(x.preferredCluster, x.failoverCluster) <==> HasDirection(x))
  {
    var a, b := x.preferredCluster, x.failoverCluster;
    PairKeySymmetric(a, b);
    if !HasDirection(x) {
      var u := "undefined";
      assert PairKey(u, u) == u + "::" + u == "undefined::undefined" == u + "::undefined";
      PairKeyInjective(a, b, u, u);
    }
  }

  // ----- policies -----

  datatype Policy = Policy(name: string, drClusters: seq<string>, schedulingInterval: string, validated: bool)

  /** The policies over exactly two clusters. */
  function Paired(policies: seq<Policy>): seq<Policy> {
    if policies == [] then []
    else
      var policy := policies[|policies| - 1];
      Paired(policies[..|policies| - 1]) + if |policy.drClusters| == 2 then [policy] else []
  }

  function PolicyKey(policy: Policy): string {
    if |policy.drClusters| == 2 then PairKey(policy.drClusters[0], policy.drClusters[1]) else ""
  }

  function PolicyKeys(policies: seq<Policy>): (r: seq<string>)
    ensures |r| == |policies|
  {
    if policies == [] then [] else PolicyKeys(policies[..|policies| - 1]) + [PolicyKey(policies[|policies| - 1])]
  }

  /** The policies that are listed: those over exactly two clusters, in their order. */
  lemma {:induction false} PairedPicks(policies: seq<Policy>) returns (at: seq<nat>)
    ensures Picks(policies, at, Paired(policies))
    ensures forall k: nat :: k in at <==> k < |policies| && |policies[k].drClusters| == 2
    ensures forall p :: p in Paired(policies) ==>
              |p.drClusters| == 2 && PolicyKey(p) == PairKey(p.drClusters[0], p.drClusters[1])
  {
    if policies == [] {
      at := [];
    } else {
      var n := |policies| - 1;
      at := PairedPicks(policies[..n]);
      PicksSnoc(policies[..n], at, Paired(policies[..n]), policies[n]);
      assert policies[..n] + [policies[n]] == policies;
      if |policies[n].drClusters| == 2 {
        at := at + [n];
      }
    }
  }

  lemma PolicyKeysSnoc(policies: seq<Policy>, policy: Policy)
    ensures PolicyKeys(policies + [policy]) == PolicyKeys(policies) + [PolicyKey(policy)]
  {
    assert (policies + [policy])[..|policies|] == policies;
  }

  lemma PairedSnoc(policies: seq<Policy>, i: nat)
    requires i < |policies|
    ensures Paired(policies[..i + 1])
         == Paired(policies[..i]) + if |policies[i].drClusters| == 2 then [policies[i]] else []
  {
    assert policies[..i + 1][..i] == policies[..i];
  }

  method CollectPolicies(policies: seq<Policy>) returns (policiesMap: Buckets<Policy>)
    ensures var paired := Paired(policies); policiesMap.Contents() == IndexBy(PolicyKeys(paired), paired)
  {
    policiesMap := new Buckets<Policy>();
    ghost var paired := [];
    for i := 0 to |policies|
      invariant paired == Paired(policies[..i]) && policiesMap.Contents() == IndexBy(PolicyKeys(paired), paired)
    {
      var policy := policies[i];
      PairedSnoc(policies, i);
      if |policy.drClusters| == 2 {
        PolicyKeysSnoc(paired, policy);
        IndexSnoc(PolicyKeys(paired), paired, PolicyKey(policy), policy);
        policiesMap.Push(PairKey(policy.drClusters[0], policy.drClusters[1]), policy);
        paired := paired + [policy];
      }
    }
    assert policies[..|policies|] == policies;
  }

  /** The operations shown under a policy's key are those between its two clusters. */
  lemma PolicyFindsItsOperations(policy: Policy, x: Drpc)
    requires |policy.drClusters| == 2 && ':' !in policy.drClusters[0] && ':' !in policy.drClusters[1]
    requires HasDirection(x) && ColonFree(x)
    ensures BucketKey(OperationOf(x)) == PolicyKey(policy)
       <==> {x.preferredCluster, x.failoverCluster} == {policy.drClusters[0], policy.drClusters[1]}
  {
    var y := x.(preferredCluster := policy.drClusters[0], failoverCluster := policy.drClusters[1]);
    var a, b, c, d := x.preferredCluster, x.failoverCluster, policy.drClusters[0], policy.drClusters[1];
    PairKeySymmetric(a, b);
    PairKeyInjective(a, b, c, d);
    if {a, b} == {c, d} {
      assert a in {c, d} && b in {c, d} && c in {a, b} && d in {a, b};
    }
  }
}
