# Trade reconciliation engine — a Dafny model

This project models the reconciliation engine of the trade-recon application.
The engine takes two lists of trade bookings, "system A" and "system B". It
indexes each list by trade id; when an id repeats, the first trade wins. It
then classifies every id of the union of the two indexes:

- an id present on both sides is compared field by field, giving MATCHED or MISMATCHED;
- an id present only in B gives MISSING_IN_A;
- an id present only in A gives MISSING_IN_B.

A missing-side result always carries the same four fixed entries.

The comparator runs four checks in a fixed order:

1. action: exact equality;
2. symbol: case-insensitive or exact, as configured;
3. price: flagged only when the absolute difference strictly exceeds the price tolerance;
4. quantity: the same rule as price, with the quantity tolerance.

A `ReconciliationTask` runs the same per-id classification over one partition of
the ids, against two indexes that every task shares and only reads.

Modules, one per component of the source:

- `Core` (`core.dfy`): the `Trade` record and its id-only `equals`, `MatchStatus`,
  `MatchResult`, the difference entries and the four fixed "missing" entries.
- `Config` (`config.dfy`): the three configuration values the engine reads, and their defaults.
- `Indexer` (`indexer.dfy`): `mapTrades`, a loop proved against the declarative
  index `Indexed`, where each id maps to the trade at its first position.
- `Comparator` (`comparator.dfy`): `getDifferences`, a method proved equal to the
  specification `Differences`. `Differences` is driven by a table: the checks
  in `CheckOrder`, each reporting its entry when it fails. `compareTrades` is a
  function of it.
- `Matcher` (`matcher.dfy`): the per-id classification `Classify`, shared by
  both loops; `buildReconciliationResults` and `reconcileTrades`, and the
  lemmas that give one result per id.
- `PartitionTask` (`partition_task.dfy`): the `ReconciliationTask` class with its
  constructor and `call()`. It also holds the lemma that tasks over a disjoint
  cover of the ids, concatenated, give the same multiset of results as the
  sequential path.
- `Scenarios` (`scenarios.dfy`): worked reconciliations under the default configuration.

Java `HashSet` iteration order is unspecified. Both loops over a set of ids
therefore pick the next id with `:|`, and they return the visiting order as a
ghost out-parameter. Their results are stated for every such order. The lemma
`ClassifyAllPermutation` shows that the multiset of results does not depend on
that order.

Where the design description and the code disagree, the model follows the code:

- The design calls for a parallel entry point that takes a worker count and
  reports a failure in any partition. The code has only `reconcileTradesParallel`
  (compare/ReconciliationService.java:109-111), which returns an empty list.
  The model keeps the task's own semantics and the concatenation lemma.
- The design says that `tradeA` is absent exactly when the status is MISSING_IN_A.
  In the code, a task given an id that is in neither map reports MISSING_IN_A
  with both sides absent. `ClassifyCases` states this case. `Call` guarantees
  well-formed results only when the partition lies within the union of the keys.
- A task stores its own `appConfig` but never reads it. Comparisons use the
  configuration of the service the task delegates to, and `Call` is specified
  with that configuration.

## Model

| member | source | states |
|---|---|---|
| `Core.Trade.Equals` | src/main/java/com/traderecon/core/Trade.java:21-27 | true exactly when the argument is a trade with the same id; false for null and for an object of another class |
| `Core.EqualsIsEquivalence` | src/main/java/com/traderecon/core/Trade.java:23-26 | id equality is reflexive, symmetric and transitive |
| `Core.EqualsIgnoresNonIdFields` | src/main/java/com/traderecon/core/Trade.java:26 | changing symbol, price, quantity, action or timestamp never changes the outcome of `equals` |
| `Indexer.FirstIndex` | src/main/java/com/traderecon/compare/ReconciliationService.java:59-66 | the returned position carries the id, and no earlier position does |
| `Indexer.IndexedContents` | src/main/java/com/traderecon/compare/ReconciliationService.java:57-65 | the keys of the index are exactly the ids of the list; every value is an element of the list filed under its own id |
| `Indexer.IndexedKeepsFirst` | src/main/java/com/traderecon/compare/ReconciliationService.java:59-66 | the first trade carrying an id is the one stored under it |
| `Indexer.IndexedSnoc` | src/main/java/com/traderecon/compare/ReconciliationService.java:61-65 | one more trade: an id already present leaves the index unchanged (no overwrite); a new id is added with that trade |
| `Indexer.IndexedSize` | src/main/java/com/traderecon/compare/ReconciliationService.java:56-68 | the index has no more entries than the list has trades |
| `Indexer.MapTrades` | src/main/java/com/traderecon/compare/ReconciliationService.java:56-69 | the loop builds exactly the first-wins index of the whole list |
| `Comparator.DifferencesUnfold` | src/main/java/com/traderecon/compare/ReconciliationService.java:81-107 | the difference list is the action, symbol, price and quantity contributions concatenated in that order |
| `Comparator.DifferencesInCheckOrder` | src/main/java/com/traderecon/compare/ReconciliationService.java:81-107 | at most four entries, at most one per check, in check order, and none of them a missing-side entry |
| `Comparator.DifferencesReportFailingChecks` | src/main/java/com/traderecon/compare/ReconciliationService.java:84-104 | each check's entry is in the list if and only if that check fails |
| `Comparator.DifferencesEmptyIffAgree` | src/main/java/com/traderecon/compare/ReconciliationService.java:73-75 | the list is empty if and only if action, symbol, price and quantity all agree |
| `Comparator.DifferencesIgnoreTimestamp` | src/main/java/com/traderecon/compare/ReconciliationService.java:81-107 | the timestamps of the two trades never affect the differences |
| `Comparator.ToleranceBoundary` | src/main/java/com/traderecon/compare/ReconciliationService.java:98-104 | a price or quantity difference equal to the tolerance is not flagged; a larger one is |
| `Comparator.SymbolCasePolicy` | src/main/java/com/traderecon/compare/ReconciliationService.java:88-96 | symbols that differ only in case match exactly when the configuration asks for case-insensitive symbols |
| `Comparator.GetDifferences` | src/main/java/com/traderecon/compare/ReconciliationService.java:81-107 | the step-by-step appends produce exactly the specified difference list |
| `Comparator.CompareTrades` | src/main/java/com/traderecon/compare/ReconciliationService.java:72-78 | MATCHED exactly when all checks pass, otherwise MISMATCHED; filed under trade A's id, with both trades and the difference list; the result is well-formed |
| `Matcher.ClassifyCases` | src/main/java/com/traderecon/compare/ReconciliationService.java:35-41 | both present: the comparison; only in B: MISSING_IN_A with A absent; only in A: MISSING_IN_B with B absent; in neither: MISSING_IN_A with both absent; missing sides carry the four fixed entries |
| `Matcher.ClassifyWellFormed` | src/main/java/com/traderecon/compare/ReconciliationService.java:35-41 | for an id of either index the status decides which sides are present; with a well-keyed index A the result carries the id |
| `Matcher.ClassifyAllPermutation` | src/main/java/com/traderecon/compare/ReconciliationService.java:31-42 | the multiset of results depends only on the multiset of ids visited, not on their order |
| `Matcher.ResultsFiledUnderTheirIds` | src/main/java/com/traderecon/compare/ReconciliationService.java:29-45 | for an enumeration of the key union, the i-th result carries the i-th id and is well-formed; as many results as ids |
| `Matcher.OneResultPerId` | src/main/java/com/traderecon/compare/ReconciliationService.java:22-44 | exactly one result per id of the key union: the result ids are the union, pairwise distinct, the count equals the union's size, and every result is well-formed |
| `Matcher.BuildReconciliationResults` | src/main/java/com/traderecon/compare/ReconciliationService.java:29-45 | the loop visits each id of the set once, in some order, and appends its classification |
| `Matcher.ReconcileTrades` | src/main/java/com/traderecon/compare/ReconciliationService.java:17-27 | one well-formed result per id of either list, the result ids being exactly that union, each computed from the two first-wins indexes |
| `PartitionTask.ReconciliationTask.constructor` | src/main/java/com/traderecon/compare/ReconciliationTask.java:21-27 | stores the partition, both indexes, the configuration and the service |
| `PartitionTask.ReconciliationTask.Call` | src/main/java/com/traderecon/compare/ReconciliationTask.java:29-47 | one result per id of the partition, each classified as in the sequential path with the service's configuration; nothing is modified; well-formed when the partition lies within the key union |
| `PartitionTask.PartitionedEqualsSequential` | src/main/java/com/traderecon/compare/ReconciliationTask.java:33-44 | task results over a disjoint cover of the key union, concatenated, form the same multiset as the sequential results |
| `Scenarios.PriceWithinToleranceMatches` | src/main/java/com/traderecon/compare/ReconciliationService.java:98-100 | prices 100.0 and 100.00005 under the default tolerance give one MATCHED result with no differences |
| `Scenarios.PriceBeyondToleranceMismatches` | src/main/java/com/traderecon/compare/ReconciliationService.java:98-100 | prices 50.0 and 50.01 give one MISMATCHED result with a single price entry |
| `Scenarios.OnlyInAIsMissingInB` | src/main/java/com/traderecon/compare/ReconciliationService.java:39-40 | a trade only in A gives one MISSING_IN_B result, B absent, with the four fixed entries |
| `Scenarios.DuplicateIdKeepsFirst` | src/main/java/com/traderecon/compare/ReconciliationService.java:61-65 | of two trades with the same id, only the first is indexed |

## Left out

- Floating point: prices, quantities and tolerances are `real`. Rounding in `Math.abs(a - b)`, NaN and infinities are not captured.
- Difference message text: comparator entries carry the two values that disagree, not the rendered text. The text uses `String.valueOf(double)` and enum names. The four "missing" messages are kept verbatim.
- `equalsIgnoreCase`: modelled with ASCII case folding. Java's Unicode case mapping is not captured.
- Console output: the trace line of `reconcileTrades` and the duplicate-id warning on the error stream are not modelled. The `toString` overrides of `Trade` and `MatchResult` are not modelled either.
- Aliasing: the indexes a task holds are Java `HashMap`s shared by reference. They are modelled as map values. No task writes them, and `Call` has no `modifies` clause.
- `reconcileTradesParallel`: the method in the code returns an empty list and has no partitioning or thread pool. It is not modelled, and no executor is invented. Equivalence with the sequential path is stated as a lemma over task results.
- Worker-count validation and per-partition failure reporting: the code has no counterpart for either.
- `call() throws Exception`: nothing in the loop throws, so no error path is modelled.
- Configuration loading, the interactive runner, CSV loading and CSV export: file I/O and user interaction. The configuration is an immutable input value holding the defaults 0.0001, 0 and true.
- `Trade.hashCode`: the record's generated hash code uses every field. It is not modelled.
- `Core.Trade.Equals`: the reference-identity short-cut `this == o` is modelled as value equality. The result is the same, because both answer true only for equal ids.
