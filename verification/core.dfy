/** The record types of the engine: a trade booking, the four match states and
    the result of classifying one trade id. */
module Core {

  /** A value that may be absent; stands for a Java reference that may be null. */
  datatype Option<+T> = None | Some(value: T)

  /** The trade direction. The engine only ever compares two actions for equality. */
  datatype Action = Buy | Sell

  /** The argument of `Trade.equals`: a Java `Object` that is null, another trade,
      or an instance of some other class. */
  datatype JavaObject = Null | TradeObject(trade: Trade) | OtherObject

  /** An immutable trade booking. `timestamp` stands for a `LocalDateTime`; it is
      carried along but never compared. */
  datatype Trade = Trade(tradeId: string, symbol: string, price: real, quantity: real,
                         action: Action, timestamp: int)
  {
    /** Identity of a trade is its id alone. The identity short-cut `this == o`
        is modelled as value equality, which only ever answers true where the
        id comparison would too. */
    function Equals(o: JavaObject): (r: bool)
      ensures r <==> o.TradeObject? && o.trade.tradeId == tradeId
    {
      if o == TradeObject(this) then true
      else if !o.TradeObject? then false
      else o.trade.tradeId == tradeId
    }
  }

  /** `Equals` is an equivalence relation on trades. */
  lemma EqualsIsEquivalence(a: Trade, b: Trade, c: Trade)
    ensures a.Equals(TradeObject(a))
    ensures a.Equals(TradeObject(b)) <==> b.Equals(TradeObject(a))
    ensures a.Equals(TradeObject(b)) && b.Equals(TradeObject(c)) ==> a.Equals(TradeObject(c))
  {
  }

  /** Symbol, price, quantity, action and timestamp play no part in equality. */
  lemma EqualsIgnoresNonIdFields(a: Trade, b: Trade, symbol: string, price: real,
                                 quantity: real, action: Action, timestamp: int)
    ensures a.Equals(TradeObject(b)) ==
            a.Equals(TradeObject(b.(symbol := symbol, price := price, quantity := quantity,
                                    action := action, timestamp := timestamp)))
  {
  }

  /** The outcome of reconciling one trade id. */
  datatype MatchStatus = Matched | Mismatched | MissingInA | MissingInB

  /** One entry of a difference list. The comparator's entries carry the two
      values that disagree (their message text is not modelled); the entries of
      a missing-side result carry their fixed message verbatim. */
  datatype Difference =
    | ActionMismatch(actionA: Action, actionB: Action)
    | SymbolMismatch(symbolA: string, symbolB: string)
    | PriceMismatch(priceA: real, priceB: real)
    | QuantityMismatch(quantityA: real, quantityB: real)
    | Missing(message: string)

  /** The result of reconciling one trade id; an absent side is `None`. */
  datatype MatchResult = MatchResult(matchStatus: MatchStatus, tradeId: string,
                                     tradeA: Option<Trade>, tradeB: Option<Trade>,
                                     differences: seq<Difference>)

  /** The four fixed entries every missing-side result carries, whatever the
      present side holds. */
  const MissingDifferences: seq<Difference> :=
    [Missing("Action missing"), Missing("Symbol missing"),
     Missing("Price missing"), Missing("Quantity missing")]

  /** The invariant a well-formed result keeps: the status decides which sides
      are present, a match has no differences and a missing side reports the
      four fixed entries. */
  predicate WellFormed(r: MatchResult)
  {
    && (r.tradeA.None? <==> r.matchStatus == MissingInA)
    && (r.tradeB.None? <==> r.matchStatus == MissingInB)
    && (r.matchStatus == Matched <==> r.differences == [])
    && (r.matchStatus in {MissingInA, MissingInB} ==> r.differences == MissingDifferences)
  }
}
