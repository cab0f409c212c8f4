/** Indexing one side's trades by id, where the first trade with a given id wins. */
module Indexer {
  import opened Core

  /** The ids occurring in a list of trades. */
  function TradeIds(trades: seq<Trade>): set<string>
  {
    set i | 0 <= i < |trades| :: trades[i].tradeId
  }

  /** The position of the first trade carrying `id`. */
  function FirstIndex(trades: seq<Trade>, id: string): (k: nat)
    requires id in TradeIds(trades)
    ensures k < |trades| && trades[k].tradeId == id
    ensures forall i :: 0 <= i < k ==> trades[i].tradeId != id
    decreases |trades|
  {
    if trades[0].tradeId == id then 0
    else
      assert id in TradeIds(trades[1..]) by {
        var j :| 0 <= j < |trades| && trades[j].tradeId == id;
        assert trades[1..][j - 1].tradeId == id;
      }
      1 + FirstIndex(trades[1..], id)
  }

  /** The index the source builds: every id of the list, mapped to the first
      trade that carries it. */
  function Indexed(trades: seq<Trade>): map<string, Trade>
  {
    map id | id in TradeIds(trades) :: trades[FirstIndex(trades, id)]
  }

  /** Every key of an index maps to a trade with that id. */
  predicate WellKeyed(m: map<string, Trade>)
  {
    forall id :: id in m ==> m[id].tradeId == id
  }

  /** The index holds exactly the ids of the list; each value is an element of
      the list filed under its own id. */
  lemma IndexedContents(trades: seq<Trade>)
    ensures Indexed(trades).Keys == TradeIds(trades)
    ensures WellKeyed(Indexed(trades))
    ensures forall id :: id in Indexed(trades) ==> Indexed(trades)[id] in trades
  {
  }

  /** The first trade with a given id is the one stored. */
  lemma IndexedKeepsFirst(trades: seq<Trade>, j: nat)
    requires j < |trades|
    requires forall i :: 0 <= i < j ==> trades[i].tradeId != trades[j].tradeId
    ensures trades[j].tradeId in Indexed(trades)
    ensures Indexed(trades)[trades[j].tradeId] == trades[j]
  {
  }

  /** Appending a trade adds its id to the ids of the list. */
  lemma TradeIdsSnoc(trades: seq<Trade>, t: Trade)
    ensures TradeIds(trades + [t]) == TradeIds(trades) + {t.tradeId}
  {
    var s := trades + [t];
    forall id | id in TradeIds(s) ensures id in TradeIds(trades) + {t.tradeId} {
      var j :| 0 <= j < |s| && s[j].tradeId == id;
      if j < |trades| { assert trades[j].tradeId == id; }
    }
    forall id | id in TradeIds(trades) ensures id in TradeIds(s) {
      var j :| 0 <= j < |trades| && trades[j].tradeId == id;
      assert s[j].tradeId == id;
    }
    assert s[|trades|] == t;
  }

  /** Appending a trade does not move the first occurrence of an id already
      present, and places the first occurrence of a new id at the end. */
  lemma FirstIndexSnoc(trades: seq<Trade>, t: Trade, id: string)
    requires id in TradeIds(trades) || id == t.tradeId
    ensures id in TradeIds(trades + [t])
    ensures FirstIndex(trades + [t], id) ==
            if id in TradeIds(trades) then FirstIndex(trades, id) else |trades|
  {
    TradeIdsSnoc(trades, t);
    var s := trades + [t];
    if id in TradeIds(trades) {
      var k := FirstIndex(trades, id);
      assert s[k] == trades[k];
    } else {
      assert s[|trades|] == t;
    }
  }

  /** Indexing one more trade: a trade whose id is already present is skipped
      and never overwrites the stored one; a new id is added. */
  lemma IndexedSnoc(trades: seq<Trade>, t: Trade)
    ensures Indexed(trades + [t]) ==
            if t.tradeId in Indexed(trades) then Indexed(trades)
            else Indexed(trades)[t.tradeId := t]
  {
    var s := trades + [t];
    var m, m' := Indexed(trades), Indexed(s);
    var expected := if t.tradeId in m then m else m[t.tradeId := t];
    TradeIdsSnoc(trades, t);
    assert m'.Keys == expected.Keys;
    forall id | id in m'.Keys ensures m'[id] == expected[id] {
      FirstIndexSnoc(trades, t, id);
      if id in TradeIds(trades) {
        assert s[FirstIndex(trades, id)] == trades[FirstIndex(trades, id)];
      }
    }
  }

  /** The index has at most as many entries as the list has trades. */
  lemma {:induction false} IndexedSize(trades: seq<Trade>)
    ensures |Indexed(trades)| <= |trades|
  {
    if trades != [] {
      var init := trades[..|trades| - 1];
      assert trades == init + [trades[|trades| - 1]];
      IndexedSnoc(init, trades[|trades| - 1]);
      IndexedSize(init);
    }
  }

  /** `mapTrades`: folds the list into an id-to-trade map, skipping (and only
      warning about) every trade whose id is already present. */
  method MapTrades(system: seq<Trade>) returns (result: map<string, Trade>)
    ensures result == Indexed(system)
  {
    result := map[];
    var i := 0;
    while i < |system|
      invariant 0 <= i <= |system|
      invariant result == Indexed(system[..i])
    {
      var trade := system[i];
      var tradeId := trade.tradeId;
      IndexedSnoc(system[..i], trade);
      assert system[..i + 1] == system[..i] + [trade];
      if tradeId in result {
        // duplicate trade id: reported on the error stream, the stored trade stays
      } else {
        result := result[tradeId := trade];
      }
      i := i + 1;
    }
    assert system[..i] == system;
  }
}
