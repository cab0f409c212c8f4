/** Field-by-field comparison of two trades believed to share an id. */
module Comparator {
  import opened Core
  import opened Config

  function Abs(x: real): real
  {
    if x < 0.0 then -x else x
  }

  /** ASCII case folding, standing for the character folding of `equalsIgnoreCase`. */
  function LowerAscii(c: char): char
  {
    if 'A' <= c <= 'Z' then (c as int + 32) as char else c
  }

  predicate EqualsIgnoreCase(s: string, t: string)
  {
    |s| == |t| && forall i :: 0 <= i < |s| ==> LowerAscii(s[i]) == LowerAscii(t[i])
  }

  /** Whether two symbols agree under the configured case policy. */
  predicate SymbolsAgree(config: AppConfig, s: string, t: string)
  {
    if config.caseInsensitiveSymbols then EqualsIgnoreCase(s, t) else s == t
  }

  /** The four checks of the comparator, and the order in which they run. */
  datatype Check = ActionCheck | SymbolCheck | PriceCheck | QuantityCheck

  const CheckOrder: seq<Check> := [ActionCheck, SymbolCheck, PriceCheck, QuantityCheck]

  /** Whether a check finds a difference. Price and quantity are flagged only
      when the absolute difference strictly exceeds the tolerance. */
  predicate Fails(config: AppConfig, c: Check, a: Trade, b: Trade)
  {
    match c
    case ActionCheck => a.action != b.action
    case SymbolCheck => !SymbolsAgree(config, a.symbol, b.symbol)
    case PriceCheck => Abs(a.price - b.price) > config.priceTolerance
    case QuantityCheck => Abs(a.quantity - b.quantity) > config.quantityTolerance
  }

  /** The entry a failing check reports. */
  function Entry(c: Check, a: Trade, b: Trade): Difference
  {
    match c
    case ActionCheck => ActionMismatch(a.action, b.action)
    case SymbolCheck => SymbolMismatch(a.symbol, b.symbol)
    case PriceCheck => PriceMismatch(a.price, b.price)
    case QuantityCheck => QuantityMismatch(a.quantity, b.quantity)
  }

  /** What one check contributes: its entry if it fails, nothing otherwise. */
  function Reported(config: AppConfig, c: Check, a: Trade, b: Trade): seq<Difference>
  {
    if Fails(config, c, a, b) then [Entry(c, a, b)] else []
  }

  /** The contributions of `checks`, in the order of `checks`. */
  function RunChecks(config: AppConfig, checks: seq<Check>, a: Trade, b: Trade): seq<Difference>
  {
    if checks == [] then []
    else Reported(config, checks[0], a, b) + RunChecks(config, checks[1..], a, b)
  }

  /** The difference list of two trades: one entry per failing check, in check order. */
  function Differences(config: AppConfig, a: Trade, b: Trade): seq<Difference>
  {
    RunChecks(config, CheckOrder, a, b)
  }

  /** The difference list spelled out check by check. */
  lemma DifferencesUnfold(config: AppConfig, a: Trade, b: Trade)
    ensures Differences(config, a, b) ==
            Reported(config, ActionCheck, a, b) + Reported(config, SymbolCheck, a, b)
            + Reported(config, PriceCheck, a, b) + Reported(config, QuantityCheck, a, b)
  {
    var cs := CheckOrder;
    assert cs[1..][1..][1..][1..] == [];
    assert cs[1..][1..][1..] == [QuantityCheck];
    assert RunChecks(config, cs[1..][1..][1..], a, b) == Reported(config, QuantityCheck, a, b);
    assert cs[1..][1..] == [PriceCheck, QuantityCheck];
    assert RunChecks(config, cs[1..][1..], a, b) ==
           Reported(config, PriceCheck, a, b) + Reported(config, QuantityCheck, a, b);
    assert cs[1..] == [SymbolCheck, PriceCheck, QuantityCheck];
    assert RunChecks(config, cs[1..], a, b) ==
           Reported(config, SymbolCheck, a, b) + Reported(config, PriceCheck, a, b)
           + Reported(config, QuantityCheck, a, b);
  }

  /** Position of the check an entry comes from; missing-side entries come last. */
  function Rank(d: Difference): nat
  {
    match d
    case ActionMismatch(_, _) => 0
    case SymbolMismatch(_, _) => 1
    case PriceMismatch(_, _) => 2
    case QuantityMismatch(_, _) => 3
    case Missing(_) => 4
  }

  /** `getDifferences` reports at most one entry per check, in the fixed order
      action, symbol, price, quantity; it never produces a missing-side entry. */
  lemma DifferencesInCheckOrder(config: AppConfig, a: Trade, b: Trade)
    ensures |Differences(config, a, b)| <= 4
    ensures forall i, j :: 0 <= i < j < |Differences(config, a, b)| ==>
              Rank(Differences(config, a, b)[i]) < Rank(Differences(config, a, b)[j])
    ensures forall d :: d in Differences(config, a, b) ==> !d.Missing?
  {
    DifferencesUnfold(config, a, b);
    var r0, r1 := Reported(config, ActionCheck, a, b), Reported(config, SymbolCheck, a, b);
    var r2, r3 := Reported(config, PriceCheck, a, b), Reported(config, QuantityCheck, a, b);
    var d := Differences(config, a, b);
    // each entry sits at the position where its check's contribution starts
    forall i | 0 <= i < |d|
      ensures || (Rank(d[i]) == 0 && i == 0)
              || (Rank(d[i]) == 1 && i == |r0|)
              || (Rank(d[i]) == 2 && i == |r0| + |r1|)
              || (Rank(d[i]) == 3 && i == |r0| + |r1| + |r2|)
    {
      if i < |r0| { assert d[i] == r0[i]; }
      else if i < |r0| + |r1| { assert d[i] == r1[i - |r0|]; }
      else if i < |r0| + |r1| + |r2| { assert d[i] == r2[i - |r0| - |r1|]; }
      else { assert d[i] == r3[i - |r0| - |r1| - |r2|]; }
    }
  }

  /** Each check contributes its entry exactly when it fails. */
  lemma DifferencesReportFailingChecks(config: AppConfig, a: Trade, b: Trade)
    ensures (ActionMismatch(a.action, b.action) in Differences(config, a, b)) <==> a.action != b.action
    ensures (SymbolMismatch(a.symbol, b.symbol) in Differences(config, a, b)) <==>
            !SymbolsAgree(config, a.symbol, b.symbol)
    ensures (PriceMismatch(a.price, b.price) in Differences(config, a, b)) <==>
            Abs(a.price - b.price) > config.priceTolerance
    ensures (QuantityMismatch(a.quantity, b.quantity) in Differences(config, a, b)) <==>
            Abs(a.quantity - b.quantity) > config.quantityTolerance
  {
    DifferencesUnfold(config, a, b);
  }

  /** Two trades agree when every one of the four checks passes. */
  predicate Agree(config: AppConfig, a: Trade, b: Trade)
  {
    && a.action == b.action
    && SymbolsAgree(config, a.symbol, b.symbol)
    && Abs(a.price - b.price) <= config.priceTolerance
    && Abs(a.quantity - b.quantity) <= config.quantityTolerance
  }

  /** The difference list is empty exactly when the trades agree. */
  lemma DifferencesEmptyIffAgree(config: AppConfig, a: Trade, b: Trade)
    ensures Differences(config, a, b) == [] <==> Agree(config, a, b)
  {
    DifferencesUnfold(config, a, b);
  }

  /** The timestamps of the two trades are never consulted. */
  lemma DifferencesIgnoreTimestamp(config: AppConfig, a: Trade, b: Trade, ta: int, tb: int)
    ensures Differences(config, a.(timestamp := ta), b.(timestamp := tb)) == Differences(config, a, b)
  {
    DifferencesUnfold(config, a, b);
    DifferencesUnfold(config, a.(timestamp := ta), b.(timestamp := tb));
  }

  /** A price or quantity difference equal to the tolerance is not flagged;
      any larger one is. */
  lemma ToleranceBoundary(config: AppConfig, a: Trade, b: Trade)
    ensures Abs(a.price - b.price) == config.priceTolerance ==>
            PriceMismatch(a.price, b.price) !in Differences(config, a, b)
    ensures Abs(a.price - b.price) > config.priceTolerance ==>
            PriceMismatch(a.price, b.price) in Differences(config, a, b)
    ensures Abs(a.quantity - b.quantity) == config.quantityTolerance ==>
            QuantityMismatch(a.quantity, b.quantity) !in Differences(config, a, b)
    ensures Abs(a.quantity - b.quantity) > config.quantityTolerance ==>
            QuantityMismatch(a.quantity, b.quantity) in Differences(config, a, b)
  {
    DifferencesReportFailingChecks(config, a, b);
  }

  /** Symbols are compared ignoring case exactly when the configuration says so. */
  lemma SymbolCasePolicy(config: AppConfig, a: Trade, b: Trade)
    requires a.action == b.action && a.price == b.price && a.quantity == b.quantity
    requires 0.0 <= config.priceTolerance && 0.0 <= config.quantityTolerance
    requires a.symbol != b.symbol && EqualsIgnoreCase(a.symbol, b.symbol)
    ensures Differences(config, a, b) == [] <==> config.caseInsensitiveSymbols
  {
    DifferencesEmptyIffAgree(config, a, b);
  }

  /** `getDifferences`: appends one entry per failing check to an initially
      empty list. */
  method GetDifferences(config: AppConfig, tradeA: Trade, tradeB: Trade)
    returns (differences: seq<Difference>)
    ensures differences == Differences(config, tradeA, tradeB)
  {
    differences := [];
    if tradeA.action != tradeB.action {
      differences := differences + [ActionMismatch(tradeA.action, tradeB.action)];
    }
    if config.caseInsensitiveSymbols {
      if !EqualsIgnoreCase(tradeA.symbol, tradeB.symbol) {
        differences := differences + [SymbolMismatch(tradeA.symbol, tradeB.symbol)];
      }
    } else {
      if tradeA.symbol != tradeB.symbol {
        differences := differences + [SymbolMismatch(tradeA.symbol, tradeB.symbol)];
      }
    }
    if Abs(tradeA.price - tradeB.price) > config.priceTolerance {
      differences := differences + [PriceMismatch(tradeA.price, tradeB.price)];
    }
    if Abs(tradeA.quantity - tradeB.quantity) > config.quantityTolerance {
      differences := differences + [QuantityMismatch(tradeA.quantity, tradeB.quantity)];
    }
    DifferencesUnfold(config, tradeA, tradeB);
  }

  /** `compareTrades`: MATCHED when no check fails, MISMATCHED otherwise; the
      result is filed under the first trade's id and carries both trades. */
  function CompareTrades(config: AppConfig, tradeA: Trade, tradeB: Trade): (r: MatchResult)
    ensures r.matchStatus in {Matched, Mismatched}
    ensures r.matchStatus == Matched <==> Agree(config, tradeA, tradeB)
    ensures r.tradeId == tradeA.tradeId && r.tradeA == Some(tradeA) && r.tradeB == Some(tradeB)
    ensures r.differences == Differences(config, tradeA, tradeB)
    ensures WellFormed(r)
  {
    DifferencesEmptyIffAgree(config, tradeA, tradeB);
    DifferencesInCheckOrder(config, tradeA, tradeB);
    var differences := Differences(config, tradeA, tradeB);
    var status := if differences == [] then Matched else Mismatched;
    MatchResult(status, tradeA.tradeId, Some(tradeA), Some(tradeB), differences)
  }
}
