/** The sequential reconciliation path: index both sides, take the union of
    their ids and classify every id once. */
module Matcher {
  import opened Core
  import opened Config
  import opened Indexer
  import opened Comparator

  /** The service object; its only state is the configuration its comparator reads. */
  datatype ReconciliationService = ReconciliationService(appConfig: AppConfig)

  /** `Map.get`: the trade filed under `id`, or `None` where Java returns null. */
  function Get(m: map<string, Trade>, id: string): Option<Trade>
  {
    if id in m then Some(m[id]) else None
  }

  /** The classification of one id, shared by the sequential loop and the
      partition task: both present are compared, otherwise the missing side
      is reported. An id in neither map falls into the MISSING_IN_A branch. */
  function Classify(config: AppConfig, mapA: map<string, Trade>, mapB: map<string, Trade>,
                    tradeId: string): MatchResult
  {
    var tradeA, tradeB := Get(mapA, tradeId), Get(mapB, tradeId);
    if tradeA.Some? && tradeB.Some? then CompareTrades(config, tradeA.value, tradeB.value)
    else if tradeA.None? then MatchResult(MissingInA, tradeId, None, tradeB, MissingDifferences)
    else MatchResult(MissingInB, tradeId, tradeA, None, MissingDifferences)
  }

  /** What each branch of the classification yields. */
  lemma ClassifyCases(config: AppConfig, mapA: map<string, Trade>, mapB: map<string, Trade>,
                      id: string)
    ensures id in mapA && id in mapB ==>
              Classify(config, mapA, mapB, id) == CompareTrades(config, mapA[id], mapB[id])
    ensures id !in mapA && id in mapB ==>
              Classify(config, mapA, mapB, id) ==
              MatchResult(MissingInA, id, None, Some(mapB[id]), MissingDifferences)
    ensures id in mapA && id !in mapB ==>
              Classify(config, mapA, mapB, id) ==
              MatchResult(MissingInB, id, Some(mapA[id]), None, MissingDifferences)
    ensures id !in mapA && id !in mapB ==>
              Classify(config, mapA, mapB, id) == MatchResult(MissingInA, id, None, None, MissingDifferences)
  {
  }

  /** For an id of either index, the status decides which sides are present;
      when A's index files every trade under its own id, so is the result. */
  lemma ClassifyWellFormed(config: AppConfig, mapA: map<string, Trade>, mapB: map<string, Trade>,
                           id: string)
    requires id in mapA.Keys + mapB.Keys
    ensures WellFormed(Classify(config, mapA, mapB, id))
    ensures WellKeyed(mapA) ==> Classify(config, mapA, mapB, id).tradeId == id
  {
  }

  /** Classifying a sequence of ids, one result per id, in the same order. */
  function ClassifyAll(config: AppConfig, mapA: map<string, Trade>, mapB: map<string, Trade>,
                       ids: seq<string>): seq<MatchResult>
  {
    seq(|ids|, i requires 0 <= i < |ids| => Classify(config, mapA, mapB, ids[i]))
  }

  lemma ClassifyAllAppend(config: AppConfig, mapA: map<string, Trade>, mapB: map<string, Trade>,
                          ids: seq<string>, more: seq<string>)
    ensures ClassifyAll(config, mapA, mapB, ids + more) ==
            ClassifyAll(config, mapA, mapB, ids) + ClassifyAll(config, mapA, mapB, more)
  {
  }

  /** The results, as a multiset, depend only on the multiset of ids and not
      on the order they are visited in. */
  lemma {:induction false} ClassifyAllPermutation(config: AppConfig, mapA: map<string, Trade>,
                                                  mapB: map<string, Trade>,
                                                  ids: seq<string>, ids': seq<string>)
    requires multiset(ids) == multiset(ids')
    ensures multiset(ClassifyAll(config, mapA, mapB, ids)) ==
            multiset(ClassifyAll(config, mapA, mapB, ids'))
    decreases |ids|
  {
    if ids == [] {
      assert |ids'| == |multiset(ids')| == 0;
    } else {
      var x := ids[0];
      assert x in multiset(ids');
      var k :| 0 <= k < |ids'| && ids'[k] == x;
      var rest' := ids'[..k] + ids'[k + 1..];
      assert ids' == ids'[..k] + [x] + ids'[k + 1..];
      assert ids == [x] + ids[1..];
      assert multiset(ids) == multiset{x} + multiset(ids[1..]);
      assert multiset(ids') == multiset(ids'[..k]) + multiset{x} + multiset(ids'[k + 1..]);
      assert multiset(rest') == multiset(ids'[..k]) + multiset(ids'[k + 1..]);
      assert multiset(ids[1..]) == multiset(ids) - multiset{x};
      assert multiset(ids') - multiset{x} == multiset(rest');
      ClassifyAllPermutation(config, mapA, mapB, ids[1..], rest');
      ClassifyAllAppend(config, mapA, mapB, [x], ids[1..]);
      ClassifyAllAppend(config, mapA, mapB, ids'[..k] + [x], ids'[k + 1..]);
      ClassifyAllAppend(config, mapA, mapB, ids'[..k], [x]);
      ClassifyAllAppend(config, mapA, mapB, ids'[..k], ids'[k + 1..]);
    }
  }

  /** A sequence that enumerates a set visits each element exactly once. */
  lemma EnumerationDistinct(order: seq<string>, ids: set<string>, i: nat, j: nat)
    requires multiset(order) == multiset(ids)
    requires i < j < |order|
    ensures order[i] != order[j]
  {
    var x := order[j];
    assert order == order[..j] + [x] + order[j + 1..];
    assert order[..j][i] == order[i];
    assert multiset(order)[x] == multiset(order[..j])[x] + 1 + multiset(order[j + 1..])[x];
    assert multiset(ids)[x] <= 1;
  }

  /** Each result of an enumeration of the key union is filed under the id it
      was computed for and is well-formed. */
  lemma ResultsFiledUnderTheirIds(config: AppConfig, mapA: map<string, Trade>,
                                  mapB: map<string, Trade>, order: seq<string>)
    requires WellKeyed(mapA)
    requires multiset(order) == multiset(mapA.Keys + mapB.Keys)
    ensures |ClassifyAll(config, mapA, mapB, order)| == |order| == |mapA.Keys + mapB.Keys|
    ensures forall i :: 0 <= i < |order| ==>
              ClassifyAll(config, mapA, mapB, order)[i].tradeId == order[i] &&
              WellFormed(ClassifyAll(config, mapA, mapB, order)[i])
  {
    var all := mapA.Keys + mapB.Keys;
    assert |order| == |multiset(order)| == |multiset(all)| == |all|;
    forall i | 0 <= i < |order|
      ensures ClassifyAll(config, mapA, mapB, order)[i].tradeId == order[i]
      ensures WellFormed(ClassifyAll(config, mapA, mapB, order)[i])
    {
      assert order[i] in multiset(order);
      ClassifyWellFormed(config, mapA, mapB, order[i]);
    }
  }

  /** The results for an enumeration of the key union: one well-formed result
      per id, each id of either index exactly once. */
  lemma OneResultPerId(config: AppConfig, mapA: map<string, Trade>,
                       mapB: map<string, Trade>, order: seq<string>)
    requires WellKeyed(mapA)
    requires multiset(order) == multiset(mapA.Keys + mapB.Keys)
    ensures |ClassifyAll(config, mapA, mapB, order)| == |mapA.Keys + mapB.Keys|
    ensures (set r | r in ClassifyAll(config, mapA, mapB, order) :: r.tradeId) == mapA.Keys + mapB.Keys
    ensures forall i, j :: 0 <= i < j < |order| ==>
              ClassifyAll(config, mapA, mapB, order)[i].tradeId !=
              ClassifyAll(config, mapA, mapB, order)[j].tradeId
    ensures forall r :: r in ClassifyAll(config, mapA, mapB, order) ==> WellFormed(r)
  {
    var all := mapA.Keys + mapB.Keys;
    var results := ClassifyAll(config, mapA, mapB, order);
    ResultsFiledUnderTheirIds(config, mapA, mapB, order);
    var ids := set r | r in results :: r.tradeId;
    forall id | id in ids ensures id in all {
      var r :| r in results && r.tradeId == id;
      var i :| 0 <= i < |results| && results[i] == r;
      assert order[i] in multiset(order);
    }
    forall id | id in all ensures id in ids {
      assert id in multiset(order);
      var i :| 0 <= i < |order| && order[i] == id;
      assert results[i] in results;
    }
    forall i, j | 0 <= i < j < |order| ensures results[i].tradeId != results[j].tradeId {
      EnumerationDistinct(order, all, i, j);
    }
  }

  /** `buildReconciliationResults`: visits every id of the set once, in an
      unspecified order, and appends its classification. */
  method BuildReconciliationResults(config: AppConfig, allTradeIds: set<string>,
                                    mapA: map<string, Trade>, mapB: map<string, Trade>)
    returns (matchResults: seq<MatchResult>, ghost order: seq<string>)
    ensures multiset(order) == multiset(allTradeIds)
    ensures matchResults == ClassifyAll(config, mapA, mapB, order)
    ensures |matchResults| == |allTradeIds|
    ensures allTradeIds <= mapA.Keys + mapB.Keys ==> forall r :: r in matchResults ==> WellFormed(r)
  {
    matchResults, order := [], [];
    var remaining := allTradeIds;
    while remaining != {}
      invariant multiset(order) + multiset(remaining) == multiset(allTradeIds)
      invariant matchResults == ClassifyAll(config, mapA, mapB, order)
      decreases remaining
    {
      var tradeId :| tradeId in remaining;
      var tradeA := Get(mapA, tradeId);
      var tradeB := Get(mapB, tradeId);
      var result;
      if tradeA.Some? && tradeB.Some? {
        result := CompareTrades(config, tradeA.value, tradeB.value);
      } else if tradeA.None? {
        result := MatchResult(MissingInA, tradeId, None, tradeB, MissingDifferences);
      } else {
        result := MatchResult(MissingInB, tradeId, tradeA, None, MissingDifferences);
      }
      ClassifyAllAppend(config, mapA, mapB, order, [tradeId]);
      assert multiset(remaining) == multiset(remaining - {tradeId}) + multiset{tradeId};
      matchResults := matchResults + [result];
      order := order + [tradeId];
      remaining := remaining - {tradeId};
    }
    assert |order| == |multiset(order)| == |multiset(allTradeIds)| == |allTradeIds|;
    if allTradeIds <= mapA.Keys + mapB.Keys {
      forall r | r in matchResults ensures WellFormed(r) {
        var i :| 0 <= i < |matchResults| && matchResults[i] == r;
        assert order[i] in multiset(allTradeIds);
        ClassifyWellFormed(config, mapA, mapB, order[i]);
      }
    }
  }

  /** `reconcileTrades`: indexes both sides, then classifies every id of the
      union once. */
  method ReconcileTrades(config: AppConfig, systemA: seq<Trade>, systemB: seq<Trade>)
    returns (results: seq<MatchResult>, ghost order: seq<string>)
    ensures multiset(order) == multiset(TradeIds(systemA) + TradeIds(systemB))
    ensures results == ClassifyAll(config, Indexed(systemA), Indexed(systemB), order)
    ensures |results| == |TradeIds(systemA) + TradeIds(systemB)|
    ensures (set r | r in results :: r.tradeId) == TradeIds(systemA) + TradeIds(systemB)
    ensures forall r :: r in results ==> WellFormed(r)
  {
    var mapA := MapTrades(systemA);
    var mapB := MapTrades(systemB);
    var allTradeIds := mapA.Keys + mapB.Keys;
    results, order := BuildReconciliationResults(config, allTradeIds, mapA, mapB);
    IndexedContents(systemA);
    IndexedContents(systemB);
    OneResultPerId(config, mapA, mapB, order);
  }
}
