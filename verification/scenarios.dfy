/** Worked reconciliations under the default configuration. */
module Scenarios {
  import opened Core
  import opened Config
  import opened Indexer
  import opened Comparator
  import opened Matcher

  /** The ids of a one-trade list. */
  lemma SingletonIds(t: Trade)
    ensures TradeIds([t]) == {t.tradeId}
  {
    assert [] + [t] == [t];
    TradeIdsSnoc([], t);
  }

  /** With one id on the two sides, any enumeration of the union is that id. */
  lemma SingleIdOrder(order: seq<string>, id: string)
    requires multiset(order) == multiset({id})
    ensures order == [id]
  {
    assert |order| == |multiset(order)| == 1;
    assert order[0] in multiset(order);
  }

  /** A price difference within the default tolerance is a match with no differences. */
  lemma PriceWithinToleranceMatches(order: seq<string>)
    requires multiset(order) ==
             multiset(TradeIds([Trade("T1", "IBM", 100.0, 10.0, Buy, 0)]) +
                      TradeIds([Trade("T1", "IBM", 100.00005, 10.0, Buy, 0)]))
    ensures ClassifyAll(Defaults, Indexed([Trade("T1", "IBM", 100.0, 10.0, Buy, 0)]),
                        Indexed([Trade("T1", "IBM", 100.00005, 10.0, Buy, 0)]), order) ==
            [MatchResult(Matched, "T1", Some(Trade("T1", "IBM", 100.0, 10.0, Buy, 0)),
                         Some(Trade("T1", "IBM", 100.00005, 10.0, Buy, 0)), [])]
  {
    var a, b := Trade("T1", "IBM", 100.0, 10.0, Buy, 0), Trade("T1", "IBM", 100.00005, 10.0, Buy, 0);
    SingletonIds(a);
    SingletonIds(b);
    SingleIdOrder(order, "T1");
    IndexedKeepsFirst([a], 0);
    IndexedKeepsFirst([b], 0);
    DifferencesEmptyIffAgree(Defaults, a, b);
  }

  /** A price difference beyond the default tolerance is a mismatch with a
      single price entry. */
  lemma PriceBeyondToleranceMismatches(order: seq<string>)
    requires multiset(order) ==
             multiset(TradeIds([Trade("T2", "IBM", 50.0, 10.0, Buy, 0)]) +
                      TradeIds([Trade("T2", "IBM", 50.01, 10.0, Buy, 0)]))
    ensures ClassifyAll(Defaults, Indexed([Trade("T2", "IBM", 50.0, 10.0, Buy, 0)]),
                        Indexed([Trade("T2", "IBM", 50.01, 10.0, Buy, 0)]), order) ==
            [MatchResult(Mismatched, "T2", Some(Trade("T2", "IBM", 50.0, 10.0, Buy, 0)),
                         Some(Trade("T2", "IBM", 50.01, 10.0, Buy, 0)), [PriceMismatch(50.0, 50.01)])]
  {
    var a, b := Trade("T2", "IBM", 50.0, 10.0, Buy, 0), Trade("T2", "IBM", 50.01, 10.0, Buy, 0);
    SingletonIds(a);
    SingletonIds(b);
    SingleIdOrder(order, "T2");
    IndexedKeepsFirst([a], 0);
    IndexedKeepsFirst([b], 0);
    DifferencesUnfold(Defaults, a, b);
    assert EqualsIgnoreCase(a.symbol, b.symbol);
    assert Reported(Defaults, PriceCheck, a, b) == [PriceMismatch(50.0, 50.01)];
    assert Differences(Defaults, a, b) == [PriceMismatch(50.0, 50.01)];
  }

  /** A trade present only on side A is reported as missing in B, with the
      four fixed entries. */
  lemma OnlyInAIsMissingInB(order: seq<string>)
    requires multiset(order) == multiset(TradeIds([Trade("T3", "IBM", 1.0, 1.0, Sell, 0)]) + TradeIds([]))
    ensures ClassifyAll(Defaults, Indexed([Trade("T3", "IBM", 1.0, 1.0, Sell, 0)]), Indexed([]), order) ==
            [MatchResult(MissingInB, "T3", Some(Trade("T3", "IBM", 1.0, 1.0, Sell, 0)), None,
                         [Missing("Action missing"), Missing("Symbol missing"),
                          Missing("Price missing"), Missing("Quantity missing")])]
  {
    var a := Trade("T3", "IBM", 1.0, 1.0, Sell, 0);
    SingletonIds(a);
    assert TradeIds([]) == {};
    SingleIdOrder(order, "T3");
    IndexedKeepsFirst([a], 0);
  }

  /** Of two trades sharing an id, only the first is indexed. */
  lemma DuplicateIdKeepsFirst()
    ensures Indexed([Trade("T4", "IBM", 1.0, 1.0, Buy, 0), Trade("T4", "MSFT", 2.0, 2.0, Sell, 0)]) ==
            map["T4" := Trade("T4", "IBM", 1.0, 1.0, Buy, 0)]
  {
    var first, second := Trade("T4", "IBM", 1.0, 1.0, Buy, 0), Trade("T4", "MSFT", 2.0, 2.0, Sell, 0);
    IndexedKeepsFirst([first], 0);
    assert [first] + [second] == [first, second];
    IndexedSnoc([first], second);
    assert TradeIds([first]) == {"T4"};
  }
}
