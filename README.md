# PocketSmith transaction matcher — Dafny model

This project models the core of a terminal tool that reconciles PayPal and Amazon CSV exports with PocketSmith ledger transactions. It has two parts.

- **The automatic matching engine** (`matchTransactions`). For each CSV transaction, in input order, it builds a candidate list in ledger order. A ledger transaction is a candidate when:
  - its date is within `daysTolerance` days;
  - its amount is within `amountToleranceExact` relative tolerance;
  - its amount is not zero, its date parses, and it is not a negative amount facing an Amazon source.

  Assignment is greedy first-fit over a set of used ledger ids. An Amazon order paid in several split payments takes at most one distinct candidate per split payment: a split payment takes one only when some still-unused candidate is within tolerance of it. Only when no split matched does it fall back to one candidate matched on the order total.
- **The workflow decision rules around it**, each modelled as a synchronous step from the state record to the events it dispatches:
  - the reducer's CSV-stage transitions and its per-file counting;
  - the transaction-matching watcher, which runs one matching call per CSV kind and builds the interactive queue;
  - the interactive-matching watcher's three guards;
  - the match-confirmation watcher: routing, the confirm/reject index step, the sequential manual-update pass and the final statistics;
  - the ledger-fetch watcher: the date window and the fetch events;
  - the two start-up watchers, as a small driver.

Modules follow the source files:
- `Types`: the state record, transactions and events.
- `MatchingService`: `transaction-matching.service.ts`.
- `Reducer`: `reducer.tsx`.
- `MatchingWatcher`, `InteractiveWatcher`, `ConfirmationWatcher` and `FetchWatcher`: the four watchers.
- `Driver`: the start-up watchers, and how the reducer carries their events to the fetch watcher.
- `Scenarios`: worked examples of the engine.

How the source is turned into Dafny:
- Code that loops and pushes into arrays is a `method` with loop invariants. It is proved equal to a specification function. `MatchingService.Spec`, `Candidates` and `ScanSplits` are recursive. `Reducer.PerCsvCounts` is a map comprehension. `ConfirmationWatcher.ManualRequests` is a sequence comprehension. The lemmas state what those functions guarantee.
- Dates are day numbers of type `real` (luxon's `diff` gives fractional days). Amounts are exact `real`s.
- Three calls are not visible to the model, so their outcomes are parameters:
  - a thrown exception (`Fault`);
  - the result of a remote update (`bool`);
  - the result of the ledger fetch and of CSV processing (`Attempt`).

  Today's date is a parameter too.

Behaviour of the code worth noting:
- The matcher never reads the foreign-currency tolerance. Only `amountToleranceExact` is used, for foreign transactions too (`MatchingService.ForeignCurrencyIgnored`).
- Every failed remote update is only logged; no failure stops the run.
- A failed update of a confirmed match does not advance the confirmation loop: no event is dispatched.
- `csvType` is optional. The CSV processing service builds transactions without it, and the matching watcher selects transactions by kind, so a transaction without a kind is never matched and never queued (`MatchingWatcher.UntypedLeftOut`).

## Model

| member | source | states |
|---|---|---|
| MatchingService.WithinToleranceMul | src/logic/services/transaction-matching.service.ts:223-226 | for a positive ledger amount p, `abs(a - p) / p <= tol` holds exactly when `abs(a - p) <= tol * p` |
| MatchingService.CandidateTolerance | src/logic/services/transaction-matching.service.ts:118-175 | a non-split source and a ledger transaction are candidates iff: no Amazon-vs-negative exclusion, the date parses and is within `daysTolerance`, the ledger amount is non-zero, and the absolute amounts differ by at most `amountToleranceExact` times the ledger amount |
| MatchingService.ForeignCurrencyIgnored | src/logic/services/transaction-matching.service.ts:166-175 | candidacy does not depend on the foreign-currency flag or on the foreign tolerance |
| MatchingService.CandidatesIff | src/logic/services/transaction-matching.service.ts:112-137 | a pairing is in a source's candidate list iff its ledger transaction is in the ledger list and passes the filter; it carries that source and score 1 |
| MatchingService.NeverCandidate | src/logic/services/transaction-matching.service.ts:118-175 | a zero ledger amount, an unparseable ledger date, or a negative amount facing an Amazon source is never a candidate |
| MatchingService.FindPotentialMatches | src/logic/services/transaction-matching.service.ts:112-137 | the loop returns exactly `Candidates`: the filtered ledger list in ledger order |
| MatchingService.AvailableFirst | src/logic/services/transaction-matching.service.ts:87-92 | the unused candidates are empty iff every candidate id is used; otherwise the first is the first candidate in order whose id is unused |
| MatchingService.AvailableSub | src/logic/services/transaction-matching.service.ts:87-89 | every available pairing is a candidate with an unused id |
| MatchingService.FirstFreeSplit | src/logic/services/transaction-matching.service.ts:51-62 | the result is the least split index at or after k that is not yet matched and is within tolerance; None iff there is none |
| MatchingService.FindFreeSplit | src/logic/services/transaction-matching.service.ts:51-62 | the inner loop with its `continue` and `break` returns `FirstFreeSplit` from index 0 |
| MatchingService.ScanSplitsInvariant | src/logic/services/transaction-matching.service.ts:46-64 | the split pass takes only unused candidates, with no repeated id; it adds their ids to the used set; it records one distinct in-range split index per pairing taken |
| MatchingService.ScanSplitsPairing | src/logic/services/transaction-matching.service.ts:46-64 | each pairing of the split pass has its own split index: the indices are distinct, are exactly the matched split indices, and each split amount is within tolerance of its pairing's absolute ledger amount |
| MatchingService.SplitMatchesBounded | src/logic/services/transaction-matching.service.ts:38-64 | a split order gets at most as many pairings from the split pass as it has split payments |
| MatchingService.MatchSplitPayments | src/logic/services/transaction-matching.service.ts:46-64 | the loop over potential matches computes exactly `ScanSplits`: the matches for the order, the used ids and the matched split indices |
| MatchingService.DecideFresh | src/logic/services/transaction-matching.service.ts:38-97 | what a source takes is drawn from its candidates, has no repeated id, and uses no id taken before |
| MatchingService.DecideFirstFit | src/logic/services/transaction-matching.service.ts:82-97 | a non-split source takes at most one pairing: the first candidate whose id is unused; it takes nothing iff every candidate id is used |
| MatchingService.DecideSplit | src/logic/services/transaction-matching.service.ts:38-80 | a split order takes at most one pairing per split. The split-pass result is used when non-empty; otherwise at most one fallback is taken. It takes nothing iff no split matched and every candidate id is used |
| MatchingService.ScanNothingFound | src/logic/services/transaction-matching.service.ts:46-64 | a split pass that matched nothing leaves the used ids unchanged, and no unused candidate had a split within tolerance |
| MatchingService.SplitFallbackMatchesTotal | src/logic/services/transaction-matching.service.ts:66-79 | the total-amount fallback takes a single candidate that no split payment is within tolerance of, and that is within tolerance of the order total |
| MatchingService.MatchSource | src/logic/services/transaction-matching.service.ts:33-98 | one iteration of the source loop takes exactly `Decide`'s pairings and adds exactly their ids to the used set |
| MatchingService.MatchTransactions | src/logic/services/transaction-matching.service.ts:20-110 | the imperative loop returns exactly `Spec`: the flattened pairings, the sources that took nothing, and the ledger transactions with unused ids |
| MatchingService.RunInvariant | src/logic/services/transaction-matching.service.ts:28-98 | after any prefix of the sources, the used ids are exactly the ids of the pairings taken; no id is taken twice; each source's pairings are its own candidates |
| MatchingService.MatchedIdsDistinct | src/logic/services/transaction-matching.service.ts:28-98 | no ledger id appears in two successful matches of one call |
| MatchingService.MatchesAreCandidates | src/logic/services/transaction-matching.service.ts:41-97 | every successful match has score 1, pairs an input source with a ledger transaction of the list, and passes the date and amount tests |
| MatchingService.UnusedLedgerIff | src/logic/services/transaction-matching.service.ts:101-103 | a ledger transaction is kept by the final filter iff it is in the list and its id is unused |
| MatchingService.UnmatchedLedgerExact | src/logic/services/transaction-matching.service.ts:101-103 | `unmatchedPocketSmith` holds exactly the ledger transactions whose id no successful match uses |
| MatchingService.UnusedLedgerSnoc | src/logic/services/transaction-matching.service.ts:101-103 | one more ledger transaction is appended to the filtered list iff its id is unused |
| MatchingService.UnusedLedgerInOrder | src/logic/services/transaction-matching.service.ts:101-103 | the filter keeps, at strictly increasing ledger positions, every ledger transaction with an unused id and nothing else, so order and repeats are kept |
| MatchingService.UnmatchedLedgerInOrder | src/logic/services/transaction-matching.service.ts:101-103 | `unmatchedPocketSmith` lists, at strictly increasing ledger positions, exactly the ledger transactions whose id no successful match uses, in ledger order and with their repeats |
| MatchingService.SourcePartition | src/logic/services/transaction-matching.service.ts:66-97 | the sources that took nothing and the sources that took something together make up the input, counted with multiplicity |
| MatchingService.MatchPartitionsSources | src/logic/services/transaction-matching.service.ts:66-97 | `unmatchedCSV` and the matched sources partition the input: no source is both matched and unmatched, and none is lost |
| MatchingService.RunPicksOwnSource | src/logic/services/transaction-matching.service.ts:126-132 | every pairing a source takes carries that source and score 1 |
| MatchingService.UnmatchedInOrder | src/logic/services/transaction-matching.service.ts:32-99 | `unmatchedCSV` lists, at strictly increasing input positions, exactly the sources that took nothing |
| MatchingService.RunPick | src/logic/services/transaction-matching.service.ts:32-99 | source i's pairings are decided against the ids used by the sources before it |
| MatchingService.IsCandidate | src/logic/services/transaction-matching.service.ts:118-133 | the candidate filter: not a negative amount facing an Amazon source, and the date and amount tests pass; its meaning is stated by `CandidateTolerance` and `NeverCandidate` |
| MatchingService.DateMatches | src/logic/services/transaction-matching.service.ts:139-164 | `checkDateMatch`: the ledger date parses and lies within `daysTolerance` days of the source date |
| MatchingService.AmountMatches | src/logic/services/transaction-matching.service.ts:166-237 | `checkAmountMatch`: a zero ledger amount never matches; a split order matches when a split or the total is within the relative tolerance; otherwise the amount is |
| MatchingService.Decide | src/logic/services/transaction-matching.service.ts:38-97 | what one source takes: the split-pass result when non-empty, otherwise the first unused candidate; its properties are `DecideFresh`, `DecideFirstFit` and `DecideSplit` |
| MatchingService.Run | src/logic/services/transaction-matching.service.ts:28-99 | the source loop as a fold over the sources: one entry of pairings per source, each decided against the ids used before it |
| MatchingService.Spec | src/logic/services/transaction-matching.service.ts:20-110 | the three result lists of `matchTransactions`; `MatchTransactions` is proved to return it |
| MatchingService.NonSplitExactlyOne | src/logic/services/transaction-matching.service.ts:82-97 | a non-split source either takes one pairing (a candidate whose id no earlier source used) or none, and it takes none iff every candidate id was used earlier |
| Reducer.CsvNames | src/logic/reducer.tsx:27 | the file-name list has one entry per transaction: its `OriginalCSV`, or "" |
| Reducer.UniqueCorrect | src/logic/reducer.tsx:27 | the de-duplicated list has no duplicates and holds exactly the elements of its input |
| Reducer.CountInPositive | src/logic/reducer.tsx:28-38 | the count for a file name is positive iff some transaction carries that name |
| Reducer.PerCsvCountsSnoc | src/logic/reducer.tsx:28-38 | one more transaction leaves the per-file record unchanged when it has no file name, and otherwise adds 1 to its file's entry, creating the entry at 0 first |
| Reducer.CountPerCsv | src/logic/reducer.tsx:28-38 | the in-place `reduce` builds exactly `PerCsvCounts` |
| Reducer.PerCsvCountsCorrect | src/logic/reducer.tsx:28-38 | a file has an entry iff its name is non-empty and some transaction carries it; the entry is that count, and it is positive |
| Reducer.SumCountsSnoc | src/logic/reducer.tsx:28-38 | over a duplicate-free file list, one more transaction adds 1 to the summed counts iff its non-empty file name is in the list |
| Reducer.SumOverCsvFiles | src/logic/reducer.tsx:27-39 | the counts over `csvFiles`, plus the transactions with no file name, add up to the number of transactions |
| Reducer.CsvFilesExact | src/logic/reducer.tsx:27-39 | `csvFiles` has no duplicates and holds exactly the transactions' file names; the summed counts are at most the number of transactions |
| Reducer.Reduce | src/logic/reducer.tsx:5-50 | the reducer: its transitions are stated by `CsvStartClears`, `CsvSuccessState`, `CsvSuccessCounts`, `OtherTransitions` and `Driver.StartUp` |
| Reducer.CsvSuccessState | src/logic/reducer.tsx:20-41 | CSV_PROCESSING_SUCCESS sets the step, the transactions, their count, the de-duplicated file list and the per-file counts, and clears the error; every other field is kept |
| Reducer.CsvFilesOfState | src/logic/reducer.tsx:27-39 | a state whose file list is built from the transactions has no duplicate file names and per-file counts summing to at most the total |
| Reducer.CsvSuccessCounts | src/logic/reducer.tsx:20-41 | CSV_PROCESSING_SUCCESS sets the step and the transactions. `totalTransactions` is the payload length and the error is cleared. `csvFiles` is duplicate-free and the per-file counts sum to at most the total; every other field is kept |
| Reducer.CsvStartClears | src/logic/reducer.tsx:11-19 | CSV_PROCESSING_START sets IS_PROCESSING_CSV and clears the error, files, transactions and total; every other field is unchanged |
| Reducer.OtherTransitions | src/logic/reducer.tsx:5-50 | INITIALISING and BEGIN_PROCESSING_INPUTS change only the step. CSV_PROCESSING_ERROR changes only the step and the message. Every other action returns the state unchanged |
| MatchingWatcher.OfTypeAppend | src/logic/watchers/transaction-matching.watcher.ts:32-37 | filtering by kind distributes over concatenation |
| MatchingWatcher.OfTypeAll | src/logic/watchers/transaction-matching.watcher.ts:32-37 | filtering keeps a list whose elements are all of the kind, and empties one with none of that kind |
| MatchingWatcher.OfTypeMember | src/logic/watchers/transaction-matching.watcher.ts:32-37 | an element is in the filtered list iff it is in the list and has that kind |
| MatchingWatcher.UnmatchedFromInput | src/logic/watchers/transaction-matching.watcher.ts:43-60 | every unmatched CSV transaction of a matching call comes from that call's input |
| MatchingWatcher.PayPalUnmatchedFilter | src/logic/watchers/transaction-matching.watcher.ts:81-84 | filtering all unmatched CSV transactions to PayPal gives back exactly the PayPal call's unmatched list, so no Amazon CSV transaction passes |
| MatchingWatcher.EmptyKind | src/logic/watchers/transaction-matching.watcher.ts:43-53 | a kind with no transactions contributes no matches and no unmatched transactions, so skipping its call changes nothing |
| MatchingWatcher.ProjectedAppend | src/logic/watchers/transaction-matching.watcher.ts:87-94 | the projection of matches to transactions distributes over concatenation |
| MatchingWatcher.ToQueueItem | src/logic/watchers/transaction-matching.watcher.ts:63-73 | a leftover ledger transaction as a queue item; its fields are stated by `QueueComposition` |
| MatchingWatcher.MatchedTransactions | src/logic/watchers/transaction-matching.watcher.ts:87-94 | the matched list sent with the success event; its shape is stated by `MatchedTransactionsShape` |
| MatchingWatcher.InteractiveQueue | src/logic/watchers/transaction-matching.watcher.ts:62-84 | the interactive queue sent with the success event; its shape is stated by `InteractiveQueueShape` |
| MatchingWatcher.MatchingEvents | src/logic/watchers/transaction-matching.watcher.ts:24-108 | the events of one matching pass; `DoTransactionMatching` is proved to dispatch exactly these |
| MatchingWatcher.KindMatches | src/logic/watchers/transaction-matching.watcher.ts:43-53 | every match of the call for one kind has score 1 and a source of that kind |
| MatchingWatcher.UntypedLeftOut | src/logic/watchers/transaction-matching.watcher.ts:32-84 | a CSV transaction without a kind is in neither per-kind batch, and neither in the matched list nor in the queue; every entry of both lists has a kind |
| MatchingWatcher.MatchByKind | src/logic/watchers/transaction-matching.watcher.ts:32-85 | the pushes build the PayPal matches followed by the Amazon matches, and the interactive queue |
| MatchingWatcher.DoTransactionMatching | src/logic/watchers/transaction-matching.watcher.ts:24-108 | with a list missing, no event. Otherwise a start event, then a success event carrying the matched list and the queue, or, when an exception is thrown, an error event with the prefix |
| MatchingWatcher.TransactionMatchingWatcher | src/logic/watchers/transaction-matching.watcher.ts:111-119 | matching runs only at POCKETSMITH_FETCH_SUCCESS with both lists present and no matches yet. Then exactly two events: the start, and one success or one prefixed error |
| MatchingWatcher.MatchedTransactionsShape | src/logic/watchers/transaction-matching.watcher.ts:87-94 | the matched list is the PayPal matches, then the Amazon matches. Each entry is its CSV transaction with the ledger id set and score 1. Ids are distinct within each kind only |
| MatchingWatcher.QueueComposition | src/logic/watchers/transaction-matching.watcher.ts:62-84 | queue items made from ledger transactions carry the ledger amount and id, the payee or 'Unknown', and no labels; they come first, and then the PayPal transactions |
| MatchingWatcher.InteractiveQueueShape | src/logic/watchers/transaction-matching.watcher.ts:62-84 | the queue is Amazon's unmatched ledger transactions turned into items, then the unmatched PayPal transactions; no Amazon CSV transaction is queued |
| InteractiveWatcher.AdvanceOrComplete | src/logic/watchers/interactive-matching.watcher.ts:15-28 | under the "no match" guard it emits index+1 when that is within the queue, and otherwise completion; it emits nothing when the guard fails; any emitted index is within the queue |
| InteractiveWatcher.ManualMatchTrigger | src/logic/watchers/interactive-matching.watcher.ts:39-48 | PROCESS_MANUAL_MATCH is emitted iff the step is interactive matching, no input is pending, the operator found a match, and both strings are non-empty |
| InteractiveWatcher.EmptyQueueTrigger | src/logic/watchers/interactive-matching.watcher.ts:58-65 | completion is emitted iff the step is interactive matching and the queue is present and empty |
| InteractiveWatcher.InteractiveEvents | src/logic/watchers/interactive-matching.watcher.ts:14-66 | the events of one pass of the three effects, in order; stated by `InteractiveEventsSound` |
| InteractiveWatcher.InteractiveEventsSound | src/logic/watchers/interactive-matching.watcher.ts:14-66 | outside INTERACTIVE_MATCHING nothing is emitted. Emitted indices are within the queue. Completion happens only for an empty queue or after the last item. At most two events per pass |
| ConfirmationWatcher.CurrentTxn | src/logic/watchers/match-confirmation.watcher.ts:64-65 | the current match exists iff `currentMatchIndex \|\| 0` is within the matched list |
| ConfirmationWatcher.RouteAfterMatching | src/logic/watchers/match-confirmation.watcher.ts:36-53 | a non-empty queue starts interactive matching. An empty queue with matches and a falsy index starts confirmation at index 0. Nothing else is dispatched |
| ConfirmationWatcher.FinalStats | src/logic/watchers/match-confirmation.watcher.ts:86-113 | the statistics at the end of confirmation; stated by `FinalStatsCounts` |
| ConfirmationWatcher.ConfirmedAtIndex | src/logic/watchers/match-confirmation.watcher.ts:67-72 | the current match exists and sits in the confirmed list at the current index; used by `ConfirmationStep` |
| ConfirmationWatcher.RejectedAtIndex | src/logic/watchers/match-confirmation.watcher.ts:123-128 | the current match sits in the rejected list at the current index; used by `ConfirmationStep` and `RejectedNotUpdated` |
| ConfirmationWatcher.NoConfirmationStats | src/logic/watchers/match-confirmation.watcher.ts:193-241 | the statistics when there are no automatic matches; stated by `NoAutomaticMatches` |
| ConfirmationWatcher.FinalStatsCounts | src/logic/watchers/match-confirmation.watcher.ts:86-113 | the counts are the confirmed, rejected and manual list lengths. The unmatched list is the queue, then every rejected match flagged as skipped. Its length is the queue length plus the rejected count |
| ConfirmationWatcher.Advance | src/logic/watchers/match-confirmation.watcher.ts:81-118 | the next index when it is below the number of matches; otherwise the final statistics followed by processing-complete |
| ConfirmationWatcher.ConfirmationStep | src/logic/watchers/match-confirmation.watcher.ts:62-167 | at most one update, issued iff the current match sits in the confirmed list at the current index; the loop advances iff that update succeeded, or, when not confirmed, the match sits in the rejected list at that index |
| ConfirmationWatcher.ConfirmationProgress | src/logic/watchers/match-confirmation.watcher.ts:81-165 | an emitted index is the current one plus 1 and is within the matched list; processing completes only after the last match, with the final statistics first |
| ConfirmationWatcher.RejectedNotUpdated | src/logic/watchers/match-confirmation.watcher.ts:123-165 | a rejected match issues no update and, at the confirmation step, advances or finishes |
| ConfirmationWatcher.ManualRequests | src/logic/watchers/match-confirmation.watcher.ts:177-184 | one update request per manual match |
| ConfirmationWatcher.FailedRequests | src/logic/watchers/match-confirmation.watcher.ts:185-190 | the logged failures are among the requests, at most one per manual match |
| ConfirmationWatcher.FailedRequestsLogsFailures | src/logic/watchers/match-confirmation.watcher.ts:176-191 | the log has exactly one entry per failed update, and the request of every failed update is logged |
| ConfirmationWatcher.FailedInOrder | src/logic/watchers/match-confirmation.watcher.ts:176-191 | the log lists, at strictly increasing positions of the manual list, the request of each failed update and of no successful one |
| ConfirmationWatcher.FailedRequestsStep | src/logic/watchers/match-confirmation.watcher.ts:176-191 | one more update adds its request to the log iff it failed |
| ConfirmationWatcher.ProcessManualMatches | src/logic/watchers/match-confirmation.watcher.ts:176-191 | the loop sends every manual match's update in list order, whatever earlier updates returned, and logs exactly the failed ones |
| ConfirmationWatcher.AfterInteractiveComplete | src/logic/watchers/match-confirmation.watcher.ts:170-250 | at INTERACTIVE_MATCHING_COMPLETE every manual match is updated. Without automatic matches the run ends with zero automatic and skipped counts; with some, confirmation starts at index 0 |
| ConfirmationWatcher.InteractiveCompleteWatcher | src/logic/watchers/match-confirmation.watcher.ts:170-250 | the effect with its update loop issues exactly the updates and events of `AfterInteractiveComplete` |
| ConfirmationWatcher.NoAutomaticMatches | src/logic/watchers/match-confirmation.watcher.ts:193-242 | with no automatic matches: statistics then processing-complete, zero automatic and skipped counts, the manual count, the whole queue as remaining, and one update per manual match carrying its ledger id |
| Types.UpdateFor | src/logic/watchers/match-confirmation.watcher.ts:74-79 | the update sent for a transaction: its ledger id, payee, note and labels; used by `ConfirmationStep`, `ManualRequests` and `NoAutomaticMatches` |
| FetchWatcher.Earliest | src/logic/watchers/pocketsmith-fetch.watcher.ts:26 | the earliest date is one of the dates and at most every date |
| FetchWatcher.Latest | src/logic/watchers/pocketsmith-fetch.watcher.ts:27 | the latest date is one of the dates and at least every date |
| FetchWatcher.Dates | src/logic/watchers/pocketsmith-fetch.watcher.ts:22-24 | the date list holds exactly the transactions' dates |
| FetchWatcher.CalculateDateRange | src/logic/watchers/pocketsmith-fetch.watcher.ts:17-39 | it throws the no-transactions error iff there are no transactions. Otherwise the start plus the buffer is the earliest date. The end is the latest date plus the buffer, or today when that would be later |
| FetchWatcher.WindowCoversDates | src/logic/watchers/pocketsmith-fetch.watcher.ts:22-33 | with a non-negative buffer every CSV date is at or after the start; a date whose end of buffer is not past today is at or before the end |
| FetchWatcher.FetchStep | src/logic/watchers/pocketsmith-fetch.watcher.ts:41-72 | fires only at CSV_PROCESSING_SUCCESS with no ledger loaded. A failing window gives one prefixed error. Otherwise one query (the window, "Paypal", uncategorised, 1000 per page), the start event, then success with the fetched list or a prefixed error |
| FetchWatcher.FetchEndsOnce | src/logic/watchers/pocketsmith-fetch.watcher.ts:41-63 | every run that fires ends in exactly one success or one error with the prefix, preceded only by the start; a success carries exactly the fetched list |
| Driver.InitialisingStep | src/logic/watchers/initialising.watcher.ts:6-11 | BEGIN_PROCESSING_INPUTS is emitted iff the step is INITIALISING |
| Driver.ProcessingInputsStep | src/logic/watchers/processing-inputs.watcher.ts:15-40 | at PROCESSING_INPUTS with no transactions: the start event, then success with the processed list or a prefixed error; otherwise nothing |
| Driver.ReduceAll | src/logic/reducer.tsx:5-50 | dispatching a list of events folds the reducer over them in order; used by `StartUp` and `CsvStageHandsOverToFetch` |
| Driver.StartUp | src/logic/reducer.tsx:9-10 | start-up moves the workflow to PROCESSING_INPUTS and changes nothing else |
| Driver.CsvStageHandsOverToFetch | src/logic/watchers/pocketsmith-fetch.watcher.ts:66-72 | after CSV success the fetch fires iff no ledger is loaded, and its window fails iff no transactions were read; after a CSV failure the fetch does not fire |
| Scenarios.SingleSource | src/logic/services/transaction-matching.service.ts:20-110 | a call with one CSV transaction returns what it picks against no used ids; it is unmatched iff it picks nothing; the ledger transactions it did not take are left |
| Scenarios.ExactAmountMatches | src/logic/services/transaction-matching.service.ts:82-97 | -45.00 on day 0 against -45.00 on day 1 is matched, and nothing is left over |
| Scenarios.AmountOutsideToleranceRejected | src/logic/services/transaction-matching.service.ts:223-236 | -45.00 against 50.00 is not matched; both transactions stay unmatched |
| Scenarios.SplitOrderTwoMatches | src/logic/services/transaction-matching.service.ts:38-67 | splits 12.50 and 7.25 against ledger charges of 12.50 and 7.25 give two matches for the same order |

## Left out

- Match reasons and their text (`matchReasons`, the `reason` strings, `toFixed` formatting, and the closest-match `reduce` at transaction-matching.service.ts:202-220). They only feed messages, never a decision.
- The terminal UI components, keystroke capture and the 5-second exit: operator answers are fields of the state record.
- CSV ingestion (file reads, parsing, time zones, exchange rates): its output list is an input.
- The PocketSmith fetch and update clients and the exchange-rate client: their outcomes are inputs. So is the console logging of failures, apart from the list of failed manual updates.
- The environment proxy: `daysTolerance`, `amountToleranceExact` and `dateRangeBufferDays` are fields of `Config`.
- React effect scheduling, dependency arrays and promise timing. Each effect is one synchronous step. The model does not say which effects run in the same render.
- Keep/replace conflict resolution, and what the reducer does with actions other than the five it handles (confirm, reject, set index, manual match): that code is not part of this model. So the model does not follow the confirmation or interactive loops across several steps.
- The account-selection watcher, which is not registered with the other watchers.
- ConfirmationWatcher.ConfirmedAtIndex: JavaScript compares the confirmed entry with the current match by reference (`===`). The model compares values.
- ConfirmationWatcher.RejectedAtIndex: JavaScript compares the rejected entry with the current match by reference (`===`); the model compares values.
- MatchingWatcher.ToQueueItem: an invalid ledger date is a luxon "invalid" DateTime in the source; the model uses day 0.
- Types.UpdateFor: a matched transaction without a ledger id would be sent with `undefined`; the model sends id 0.
- Interactive-matching indices are natural numbers; the source reads a number field that is never negative there.
- Only the fields the watchers and the reducer read are in the state record.
