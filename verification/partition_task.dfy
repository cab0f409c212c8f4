/** One unit of partitioned work: classifying the ids of one partition against
    two indexes that all partitions share and only read. */
module PartitionTask {
  import opened Core
  import opened Config
  import opened Comparator
  import opened Matcher

  class ReconciliationTask {
    var partition: set<string>
    var mapA: map<string, Trade>
    var mapB: map<string, Trade>
    /** Stored but never read: comparisons use the service's configuration. */
    var appConfig: AppConfig
    var reconciliationService: ReconciliationService

    constructor (partition: set<string>, mapA: map<string, Trade>, mapB: map<string, Trade>,
                 appConfig: AppConfig, reconciliationService: ReconciliationService)
      ensures this.partition == partition && this.mapA == mapA && this.mapB == mapB
      ensures this.appConfig == appConfig && this.reconciliationService == reconciliationService
    {
      this.partition := partition;
      this.mapA := mapA;
      this.mapB := mapB;
      this.appConfig := appConfig;
      this.reconciliationService := reconciliationService;
    }

    /** `call`: visits every id of the partition once, in an unspecified order,
        and classifies it exactly as the sequential path does. It changes
        nothing: no field, and neither shared index. */
    method Call() returns (matchResults: seq<MatchResult>, ghost order: seq<string>)
      ensures multiset(order) == multiset(partition)
      ensures matchResults == ClassifyAll(reconciliationService.appConfig, mapA, mapB, order)
      ensures |matchResults| == |partition|
      ensures partition <= mapA.Keys + mapB.Keys ==> forall r :: r in matchResults ==> WellFormed(r)
    {
      var config := reconciliationService.appConfig;
      matchResults, order := [], [];
      var remaining := partition;
      while remaining != {}
        invariant multiset(order) + multiset(remaining) == multiset(partition)
        invariant matchResults == ClassifyAll(config, mapA, mapB, order)
        decreases remaining
      {
        var tradeId :| tradeId in remaining;
        var tradeA := Get(mapA, tradeId);
        var tradeB := Get(mapB, tradeId);
        var result;
        if tradeA.Some? && tradeB.Some? {
          result := CompareTrades(config, tradeA.value, tradeB.value);
        } else if tradeA.None? {
          result := MatchResult(MissingInA, tradeId, None, tradeB, MissingDifferences);
        } else {
          result := MatchResult(MissingInB, tradeId, tradeA, None, MissingDifferences);
        }
        ClassifyAllAppend(config, mapA, mapB, order, [tradeId]);
        assert multiset(remaining) == multiset(remaining - {tradeId}) + multiset{tradeId};
        matchResults := matchResults + [result];
        order := order + [tradeId];
        remaining := remaining - {tradeId};
      }
      assert |order| == |multiset(order)| == |multiset(partition)| == |partition|;
      if partition <= mapA.Keys + mapB.Keys {
        forall r | r in matchResults ensures WellFormed(r) {
          var i :| 0 <= i < |matchResults| && matchResults[i] == r;
          assert order[i] in multiset(partition);
          ClassifyWellFormed(config, mapA, mapB, order[i]);
        }
      }
    }
  }

  /** The concatenation of a list of lists. */
  function Flatten<T>(xss: seq<seq<T>>): seq<T>
  {
    if xss == [] then [] else xss[0] + Flatten(xss[1..])
  }

  /** The union of a list of partitions. */
  function UnionAll(parts: seq<set<string>>): set<string>
  {
    if parts == [] then {} else parts[0] + UnionAll(parts[1..])
  }

  predicate PairwiseDisjoint(parts: seq<set<string>>)
  {
    forall i, j :: 0 <= i < j < |parts| ==> parts[i] !! parts[j]
  }

  /** An id of the union lies in one of the partitions. */
  lemma {:induction false} UnionAllMember(parts: seq<set<string>>, id: string)
    requires id in UnionAll(parts)
    ensures exists i :: 0 <= i < |parts| && id in parts[i]
  {
    if id !in parts[0] {
      UnionAllMember(parts[1..], id);
      var i :| 0 <= i < |parts[1..]| && id in parts[1..][i];
      assert id in parts[i + 1];
    }
  }

  /** Enumerations of disjoint partitions, concatenated, enumerate their union. */
  lemma {:induction false} FlattenEnumeratesUnion(parts: seq<set<string>>, orders: seq<seq<string>>)
    requires |orders| == |parts|
    requires forall i :: 0 <= i < |parts| ==> multiset(orders[i]) == multiset(parts[i])
    requires PairwiseDisjoint(parts)
    ensures multiset(Flatten(orders)) == multiset(UnionAll(parts))
  {
    if parts != [] {
      var rest := UnionAll(parts[1..]);
      FlattenEnumeratesUnion(parts[1..], orders[1..]);
      assert parts[0] !! rest by {
        forall id | id in rest ensures id !in parts[0] {
          UnionAllMember(parts[1..], id);
          var i :| 0 <= i < |parts[1..]| && id in parts[1..][i];
          assert parts[0] !! parts[i + 1];
        }
      }
      assert multiset(parts[0] + rest) == multiset(parts[0]) + multiset(rest) by {
        forall id ensures multiset(parts[0] + rest)[id] == (multiset(parts[0]) + multiset(rest))[id] {
        }
      }
    }
  }

  /** The concatenated task results are the classification of the concatenated
      enumerations. */
  lemma {:induction false} FlattenResults(config: AppConfig, mapA: map<string, Trade>,
                                          mapB: map<string, Trade>, orders: seq<seq<string>>,
                                          taskResults: seq<seq<MatchResult>>)
    requires |taskResults| == |orders|
    requires forall i :: 0 <= i < |orders| ==> taskResults[i] == ClassifyAll(config, mapA, mapB, orders[i])
    ensures Flatten(taskResults) == ClassifyAll(config, mapA, mapB, Flatten(orders))
  {
    if orders != [] {
      FlattenResults(config, mapA, mapB, orders[1..], taskResults[1..]);
      ClassifyAllAppend(config, mapA, mapB, orders[0], Flatten(orders[1..]));
    }
  }

  /** Running one task per partition of a disjoint cover of the key union and
      concatenating their results gives the same multiset of results as the
      sequential path, whatever order either visits the ids in. */
  lemma PartitionedEqualsSequential(config: AppConfig, mapA: map<string, Trade>,
                                    mapB: map<string, Trade>, parts: seq<set<string>>,
                                    orders: seq<seq<string>>, taskResults: seq<seq<MatchResult>>,
                                    order: seq<string>)
    requires PairwiseDisjoint(parts) && UnionAll(parts) == mapA.Keys + mapB.Keys
    requires |orders| == |parts| && |taskResults| == |parts|
    requires forall i :: 0 <= i < |parts| ==> multiset(orders[i]) == multiset(parts[i])
    requires forall i :: 0 <= i < |parts| ==> taskResults[i] == ClassifyAll(config, mapA, mapB, orders[i])
    requires multiset(order) == multiset(mapA.Keys + mapB.Keys)
    ensures multiset(Flatten(taskResults)) == multiset(ClassifyAll(config, mapA, mapB, order))
  {
    FlattenEnumeratesUnion(parts, orders);
    FlattenResults(config, mapA, mapB, orders, taskResults);
    ClassifyAllPermutation(config, mapA, mapB, Flatten(orders), order);
  }
}
