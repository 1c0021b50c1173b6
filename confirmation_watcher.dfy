/** The match-confirmation watcher: routing after automatic matching, the
    confirm/reject step over `currentMatchIndex`, the sequential update of
    manually matched transactions, and the final statistics. Remote
    updates are calls the model cannot see: each step returns the update
    requests it issues, and whether an update succeeded is an input. */
module ConfirmationWatcher {
  import opened Types

  /** What one step of the watcher does: the remote updates it issues, in
      order, and the events it dispatches. */
  datatype Outcome = Outcome(updates: seq<UpdateRequest>, events: seq<Action>)

  /** `list || []`. */
  function ListOr(o: Option<seq<SourceTxn>>): seq<SourceTxn> {
    if o.Some? then o.value else []
  }

  /** `currentMatchIndex || 0`. */
  function CurrentIndex(s: MatcherState): nat {
    if s.currentMatchIndex.Some? then s.currentMatchIndex.value else 0
  }

  /** The matched transaction under review, if the index is in range. */
  function CurrentTxn(s: MatcherState): (r: Option<SourceTxn>)
    ensures r.Some? <==> CurrentIndex(s) < |ListOr(s.successfullyMatchedTransactions)|
  {
    var matched := ListOr(s.successfullyMatchedTransactions);
    if CurrentIndex(s) < |matched| then Some(matched[CurrentIndex(s)]) else None
  }

  // ---------------------------------------------------------------------
  // Routing after automatic matching
  // ---------------------------------------------------------------------

  /** At TRANSACTION_MATCHING_SUCCESS a non-empty interactive queue starts
      the interactive loop; otherwise at least one automatic match, with
      no index yet (or index 0, which is just as falsy), starts
      confirmation at index 0. */
  function RouteAfterMatching(s: MatcherState): (r: seq<Action>)
    ensures r == [InteractiveMatchingStart] <==>
      s.currentStep == Some(TransactionMatchingSuccess) && ListOr(s.unmatchedTransactions) != []
    ensures r == [ConfirmingMatchedTransactionsStart, SetCurrentMatchIndex(0)] <==>
      && s.currentStep == Some(TransactionMatchingSuccess)
      && ListOr(s.unmatchedTransactions) == []
      && ListOr(s.successfullyMatchedTransactions) != []
      && CurrentIndex(s) == 0
    ensures r == [] || r == [InteractiveMatchingStart] || r == [ConfirmingMatchedTransactionsStart, SetCurrentMatchIndex(0)]
  {
    if s.currentStep != Some(TransactionMatchingSuccess) then []
    else if s.unmatchedTransactions.Some? && |s.unmatchedTransactions.value| > 0 then
      [InteractiveMatchingStart]
    else if && s.successfullyMatchedTransactions.Some?
            && |s.successfullyMatchedTransactions.value| > 0
            && (s.currentMatchIndex.None? || s.currentMatchIndex.value == 0) then
      [ConfirmingMatchedTransactionsStart, SetCurrentMatchIndex(0)]
    else []
  }

  // ---------------------------------------------------------------------
  // Final statistics
  // ---------------------------------------------------------------------

  function FlagSkipped(t: SourceTxn): SourceTxn {
    t.(skippedDuringMatching := true)
  }

  function Flagged(ts: seq<SourceTxn>): seq<SourceTxn> {
    seq(|ts|, i requires 0 <= i < |ts| => FlagSkipped(ts[i]))
  }

  function LedgerCount(s: MatcherState): nat {
    if s.pocketsmithTransactions.Some? then |s.pocketsmithTransactions.value| else 0
  }

  /** The statistics dispatched when the confirmation loop ends. */
  function FinalStats(s: MatcherState): Stats {
    var unmatched := ListOr(s.unmatchedTransactions) + Flagged(ListOr(s.rejectedMatches));
    Stats(
      totalPocketsmithTransactions := LedgerCount(s),
      automaticallyMatched := |ListOr(s.confirmedMatches)|,
      manuallyMatched := |ListOr(s.manuallyMatchedTransactions)|,
      skippedDuringConfirmation := |ListOr(s.rejectedMatches)|,
      remainingUnmatched := |unmatched|,
      unmatchedTransactions := unmatched)
  }

  /** The final statistics count what the state holds: the remaining
      unmatched list is the interactive queue followed by every rejected
      match, flagged as skipped, so its length is the queue length plus
      the number skipped during confirmation. */
  lemma FinalStatsCounts(s: MatcherState)
    ensures var st := FinalStats(s);
      var queue := ListOr(s.unmatchedTransactions);
      var rejected := ListOr(s.rejectedMatches);
      && st.automaticallyMatched == |ListOr(s.confirmedMatches)|
      && st.skippedDuringConfirmation == |rejected|
      && st.manuallyMatched == |ListOr(s.manuallyMatchedTransactions)|
      && st.remainingUnmatched == |st.unmatchedTransactions| == |queue| + st.skippedDuringConfirmation
      && st.unmatchedTransactions[..|queue|] == queue
      && (forall i :: 0 <= i < |rejected| ==>
            && st.unmatchedTransactions[|queue| + i].skippedDuringMatching
            && st.unmatchedTransactions[|queue| + i].(skippedDuringMatching := rejected[i].skippedDuringMatching) == rejected[i])
  {
  }

  /** The events that end or continue the loop after the current item:
      move to the next index, or, past the last match, dispatch the final
      statistics and then processing-complete. */
  function Advance(s: MatcherState): (r: seq<Action>)
    ensures var next := CurrentIndex(s) + 1;
      var total := |ListOr(s.successfullyMatchedTransactions)|;
      && (next < total ==> r == [SetCurrentMatchIndex(next)])
      && (next >= total ==> r == [ConfirmingMatchedTransactionsComplete(FinalStats(s)), ProcessingComplete])
  {
    var nextIndex := CurrentIndex(s) + 1;
    var totalMatches := |ListOr(s.successfullyMatchedTransactions)|;
    if nextIndex >= totalMatches then [ConfirmingMatchedTransactionsComplete(FinalStats(s)), ProcessingComplete]
    else [SetCurrentMatchIndex(nextIndex)]
  }

  // ---------------------------------------------------------------------
  // The confirm/reject step
  // ---------------------------------------------------------------------

  /** The current match was confirmed: `confirmedMatches` holds it at the
      current index (a positional test, not membership). */
  predicate ConfirmedAtIndex(s: MatcherState) {
    var i := CurrentIndex(s);
    && CurrentTxn(s).Some?
    && s.confirmedMatches.Some?
    && |s.confirmedMatches.value| > i
    && s.confirmedMatches.value[i] == CurrentTxn(s).value
  }

  /** The current match was rejected: `rejectedMatches` holds it at the
      current index. */
  predicate RejectedAtIndex(s: MatcherState) {
    var i := CurrentIndex(s);
    && s.rejectedMatches.Some?
    && |s.rejectedMatches.value| > i
    && CurrentTxn(s).Some?
    && s.rejectedMatches.value[i] == CurrentTxn(s).value
  }

  /** One run of the confirmation effect. `updateOk` says whether the
      remote update of a confirmed match resolved; a failed one is only
      logged, so nothing is dispatched. */
  function ConfirmationStep(s: MatcherState, updateOk: bool): (r: Outcome)
    ensures |r.updates| <= 1
    ensures r.updates != [] <==> s.currentStep == Some(ConfirmingMatchedTransactions) && ConfirmedAtIndex(s)
    ensures r.updates != [] ==> r.updates == [UpdateFor(ListOr(s.successfullyMatchedTransactions)[CurrentIndex(s)])]
    ensures r.events != [] <==>
      && s.currentStep == Some(ConfirmingMatchedTransactions)
      && ((ConfirmedAtIndex(s) && updateOk) || (!ConfirmedAtIndex(s) && RejectedAtIndex(s)))
    ensures r.events != [] ==> r.events == Advance(s)
  {
    if s.currentStep != Some(ConfirmingMatchedTransactions) then Outcome([], [])
    else if ConfirmedAtIndex(s) then
      Outcome([UpdateFor(CurrentTxn(s).value)], if updateOk then Advance(s) else [])
    else if RejectedAtIndex(s) then Outcome([], Advance(s))
    else Outcome([], [])
  }

  /** The index only moves forward, one item at a time, and stays within
      the matched list; the loop finishes exactly when the item under
      review is the last one (or the index has run past the list). */
  lemma {:induction false} ConfirmationProgress(s: MatcherState, updateOk: bool)
    ensures forall a :: a in ConfirmationStep(s, updateOk).events && a.SetCurrentMatchIndex? ==>
      a.index == CurrentIndex(s) + 1 && a.index < |ListOr(s.successfullyMatchedTransactions)|
    ensures ProcessingComplete in ConfirmationStep(s, updateOk).events ==>
      && CurrentIndex(s) + 1 >= |ListOr(s.successfullyMatchedTransactions)|
      && ConfirmationStep(s, updateOk).events == [ConfirmingMatchedTransactionsComplete(FinalStats(s)), ProcessingComplete]
  {
    var r := ConfirmationStep(s, updateOk);
    if r.events != [] {
      var next := CurrentIndex(s) + 1;
      if next < |ListOr(s.successfullyMatchedTransactions)| {
        assert r.events == [SetCurrentMatchIndex(next)];
      } else {
        assert r.events == [ConfirmingMatchedTransactionsComplete(FinalStats(s)), ProcessingComplete];
      }
    }
  }

  /** A rejected match is never sent to the ledger; a confirmed one is
      sent exactly once per step, with its ledger id, payee, note and
      labels. */
  lemma RejectedNotUpdated(s: MatcherState, updateOk: bool)
    requires !ConfirmedAtIndex(s) && RejectedAtIndex(s)
    ensures ConfirmationStep(s, updateOk).updates == []
    ensures s.currentStep == Some(ConfirmingMatchedTransactions) ==> ConfirmationStep(s, updateOk).events == Advance(s)
  {
  }

  // ---------------------------------------------------------------------
  // After interactive matching
  // ---------------------------------------------------------------------

  function ManualRequests(manual: seq<SourceTxn>): (r: seq<UpdateRequest>)
    ensures |r| == |manual|
  {
    seq(|manual|, i requires 0 <= i < |manual| => UpdateFor(manual[i]))
  }

  /** What the log of a manual pass promises about `manual` and `results`:
      one entry per failed update, each failed update among them, and
      nothing that is not one of the pass's requests. */
  predicate LogsFailures(manual: seq<SourceTxn>, results: seq<bool>, r: seq<UpdateRequest>)
    requires |results| == |manual|
  {
    && |r| <= |manual|
    && |r| == multiset(results)[false]
    && (forall i :: 0 <= i < |manual| && !results[i] ==> UpdateFor(manual[i]) in r)
    && (forall u :: u in r ==> u in ManualRequests(manual))
  }

  /** One more update keeps `LogsFailures` when its request is logged
      exactly if it failed. */
  lemma LogsFailuresSnoc(manual: seq<SourceTxn>, results: seq<bool>, init: seq<UpdateRequest>, r: seq<UpdateRequest>)
    requires |results| == |manual| && manual != []
    requires LogsFailures(manual[..|manual| - 1], results[..|manual| - 1], init)
    requires r == init + (if Last(results) then [] else [UpdateFor(Last(manual))])
    ensures LogsFailures(manual, results, r)
  {
    var n := |manual| - 1;
    assert results == results[..n] + [results[n]];
    forall u | u in ManualRequests(manual[..n]) ensures u in ManualRequests(manual) {
      var j :| 0 <= j < n && ManualRequests(manual[..n])[j] == u;
      assert ManualRequests(manual)[j] == u;
    }
    assert UpdateFor(manual[n]) == ManualRequests(manual)[n];
    forall i | 0 <= i < |manual| && !results[i] ensures UpdateFor(manual[i]) in r {
      if i < n {
        assert manual[..n][i] == manual[i] && results[..n][i] == results[i];
        assert UpdateFor(manual[i]) in init;
      } else {
        assert r[|r| - 1] == UpdateFor(manual[n]);
      }
    }
  }

  /** The requests of `manual` whose update failed (the ones logged). */
  function FailedRequests(manual: seq<SourceTxn>, results: seq<bool>): (r: seq<UpdateRequest>)
    requires |results| == |manual|
    ensures |r| <= |manual|
    ensures forall u :: u in r ==> u in ManualRequests(manual)
    decreases |manual|
  {
    if manual == [] then []
    else
      var n := |manual| - 1;
      var init := FailedRequests(manual[..n], results[..n]);
      assert forall u :: u in ManualRequests(manual[..n]) ==> u in ManualRequests(manual) by {
        forall u | u in ManualRequests(manual[..n]) ensures u in ManualRequests(manual) {
          var j :| 0 <= j < n && ManualRequests(manual[..n])[j] == u;
          assert ManualRequests(manual)[j] == u;
        }
      }
      assert UpdateFor(manual[n]) == ManualRequests(manual)[n];
      init + (if results[n] then [] else [UpdateFor(manual[n])])
  }

  /** The log holds one entry per failed update, and the request of every
      failed update is among them. */
  lemma {:induction false} FailedRequestsLogsFailures(manual: seq<SourceTxn>, results: seq<bool>)
    requires |results| == |manual|
    ensures var r := FailedRequests(manual, results);
      && |r| == multiset(results)[false]
      && (forall i :: 0 <= i < |manual| && !results[i] ==> UpdateFor(manual[i]) in r)
    decreases |manual|
  {
    if manual != [] {
      var n := |manual| - 1;
      FailedRequestsLogsFailures(manual[..n], results[..n]);
      LogsFailuresSnoc(manual, results, FailedRequests(manual[..n], results[..n]), FailedRequests(manual, results));
    }
  }

  /** Taking one more update into the pass logs its request exactly when
      it failed. */
  lemma FailedRequestsStep(manual: seq<SourceTxn>, results: seq<bool>, i: nat)
    requires |results| == |manual| && i < |manual|
    ensures FailedRequests(manual[..i + 1], results[..i + 1])
      == FailedRequests(manual[..i], results[..i]) + (if results[i] then [] else [UpdateFor(manual[i])])
  {
    assert manual[..i + 1][..i] == manual[..i];
    assert results[..i + 1][..i] == results[..i];
  }

  /** `idx` lists the positions of the failed updates: `logged` holds, in
      list order, the request of each position whose result is false and
      of no other. */
  predicate FailedPositions(manual: seq<SourceTxn>, results: seq<bool>, logged: seq<UpdateRequest>, idx: seq<nat>)
    requires |results| == |manual|
  {
    && |idx| == |logged|
    && (forall k :: 0 <= k < |idx| ==>
          idx[k] < |manual| && !results[idx[k]] && logged[k] == UpdateFor(manual[idx[k]]))
    && (forall k1, k2 :: 0 <= k1 < k2 < |idx| ==> idx[k1] < idx[k2])
    && (forall i :: 0 <= i < |manual| && !results[i] ==> i in idx)
  }

  /** One more update extends the positions of the failures by its own
      position exactly when it failed. */
  lemma FailedPositionsSnoc(manual: seq<SourceTxn>, results: seq<bool>, lp: seq<UpdateRequest>, prev: seq<nat>, logged: seq<UpdateRequest>)
    returns (idx: seq<nat>)
    requires |results| == |manual| && manual != []
    requires FailedPositions(manual[..|manual| - 1], results[..|manual| - 1], lp, prev)
    requires logged == lp + (if Last(results) then [] else [UpdateFor(Last(manual))])
    ensures FailedPositions(manual, results, logged, idx)
  {
    var n := |manual| - 1;
    idx := if results[n] then prev else prev + [n];
    forall k | 0 <= k < |prev|
      ensures prev[k] < n && !results[prev[k]] && lp[k] == UpdateFor(manual[prev[k]])
    {
      assert results[..n][prev[k]] == results[prev[k]];
      assert manual[..n][prev[k]] == manual[prev[k]];
    }
    forall k | 0 <= k < |idx|
      ensures idx[k] < |manual| && !results[idx[k]] && logged[k] == UpdateFor(manual[idx[k]])
    {
      if k < |prev| {
        assert idx[k] == prev[k] && logged[k] == lp[k];
      }
    }
    forall i | 0 <= i < |manual| && !results[i] ensures i in idx {
      if i < n {
        assert results[..n][i] == results[i];
        assert i in prev;
      }
    }
  }

  /** The log of the manual pass is exactly the failed requests, in list
      order: each logged request belongs to a failed update, and every
      failed update is logged once, at its turn. */
  lemma {:induction false} FailedInOrder(manual: seq<SourceTxn>, results: seq<bool>) returns (idx: seq<nat>)
    requires |results| == |manual|
    ensures FailedPositions(manual, results, FailedRequests(manual, results), idx)
    decreases |manual|
  {
    if manual == [] {
      idx := [];
    } else {
      var n := |manual| - 1;
      var prev := FailedInOrder(manual[..n], results[..n]);
      idx := FailedPositionsSnoc(manual, results, FailedRequests(manual[..n], results[..n]), prev, FailedRequests(manual, results));
    }
  }

  /** The manual-update pass: every manually matched transaction is sent,
      one after the other in list order; `results[i]` says whether the
      i-th update succeeded, and a failure is logged and the pass goes
      on. */
  method ProcessManualMatches(manual: seq<SourceTxn>, results: seq<bool>)
    returns (requests: seq<UpdateRequest>, logged: seq<UpdateRequest>)
    requires |results| == |manual|
    ensures requests == ManualRequests(manual)
    ensures logged == FailedRequests(manual, results)
  {
    requests := [];
    logged := [];
    for i := 0 to |manual|
      invariant requests == ManualRequests(manual[..i])
      invariant logged == FailedRequests(manual[..i], results[..i])
    {
      var transaction := manual[i];
      requests := requests + [UpdateFor(transaction)];
      if !results[i] {
        logged := logged + [UpdateFor(transaction)];
      }
      FailedRequestsStep(manual, results, i);
    }
    assert manual[..|manual|] == manual;
    assert results[..|results|] == results;
  }

  /** The statistics dispatched when no automatic match needs
      confirming. */
  function NoConfirmationStats(s: MatcherState, manuallyMatched: nat): Stats {
    var unmatched := ListOr(s.unmatchedTransactions);
    Stats(LedgerCount(s), 0, manuallyMatched, 0, |unmatched|, unmatched)
  }

  /** The effect at INTERACTIVE_MATCHING_COMPLETE. With manual matches, all
      of them are updated first; then, without automatic matches, the run
      ends, and with some, confirmation starts at index 0. */
  function AfterInteractiveComplete(s: MatcherState): (r: Outcome)
    ensures s.currentStep != Some(InteractiveMatchingComplete) ==> r == Outcome([], [])
    ensures s.currentStep == Some(InteractiveMatchingComplete) ==>
      && r.updates == ManualRequests(ListOr(s.manuallyMatchedTransactions))
      && (ListOr(s.successfullyMatchedTransactions) == [] ==>
            r.events == [ConfirmingMatchedTransactionsComplete(
                           NoConfirmationStats(s, |ListOr(s.manuallyMatchedTransactions)|)),
                         ProcessingComplete])
      && (ListOr(s.successfullyMatchedTransactions) != [] ==>
            r.events == [ConfirmingMatchedTransactionsStart, SetCurrentMatchIndex(0)])
  {
    var manual := ListOr(s.manuallyMatchedTransactions);
    var noAuto := s.successfullyMatchedTransactions.None? || |s.successfullyMatchedTransactions.value| == 0;
    if s.currentStep != Some(InteractiveMatchingComplete) then Outcome([], [])
    else if s.manuallyMatchedTransactions.Some? && |s.manuallyMatchedTransactions.value| > 0 then
      var events :=
        if noAuto then [ConfirmingMatchedTransactionsComplete(NoConfirmationStats(s, |manual|)), ProcessingComplete]
        else [ConfirmingMatchedTransactionsStart, SetCurrentMatchIndex(0)];
      Outcome(ManualRequests(manual), events)
    else if noAuto then
      Outcome([], [ConfirmingMatchedTransactionsComplete(NoConfirmationStats(s, 0)), ProcessingComplete])
    else Outcome([], [ConfirmingMatchedTransactionsStart, SetCurrentMatchIndex(0)])
  }

  /** The effect as the watcher runs it: the manual pass is the loop
      above, and its outcome does not change what is dispatched. */
  method InteractiveCompleteWatcher(s: MatcherState, results: seq<bool>)
    returns (updates: seq<UpdateRequest>, logged: seq<UpdateRequest>, events: seq<Action>)
    requires |results| == |ListOr(s.manuallyMatchedTransactions)|
    ensures Outcome(updates, events) == AfterInteractiveComplete(s)
    ensures logged == (if s.currentStep == Some(InteractiveMatchingComplete)
                       then FailedRequests(ListOr(s.manuallyMatchedTransactions), results) else [])
  {
    updates, logged, events := [], [], [];
    if s.currentStep != Some(InteractiveMatchingComplete) {
      return;
    }
    var noAuto := s.successfullyMatchedTransactions.None? || |s.successfullyMatchedTransactions.value| == 0;
    if s.manuallyMatchedTransactions.Some? && |s.manuallyMatchedTransactions.value| > 0 {
      var manual := s.manuallyMatchedTransactions.value;
      updates, logged := ProcessManualMatches(manual, results);
      if noAuto {
        events := [ConfirmingMatchedTransactionsComplete(NoConfirmationStats(s, |manual|)), ProcessingComplete];
      } else {
        events := [ConfirmingMatchedTransactionsStart, SetCurrentMatchIndex(0)];
      }
    } else if noAuto {
      events := [ConfirmingMatchedTransactionsComplete(NoConfirmationStats(s, 0)), ProcessingComplete];
    } else {
      events := [ConfirmingMatchedTransactionsStart, SetCurrentMatchIndex(0)];
    }
  }

  /** With no matches of either kind the run ends with all-zero counts and
      the whole queue still unmatched; with manual matches only, it ends
      after one update per manual match, in order, with no automatic
      match counted. */
  lemma {:induction false} NoAutomaticMatches(s: MatcherState)
    requires s.currentStep == Some(InteractiveMatchingComplete)
    requires ListOr(s.successfullyMatchedTransactions) == []
    ensures var r := AfterInteractiveComplete(s);
      var manual := ListOr(s.manuallyMatchedTransactions);
      var st := r.events[0].stats;
      && |r.events| == 2 && r.events[0].ConfirmingMatchedTransactionsComplete? && r.events[1] == ProcessingComplete
      && st.automaticallyMatched == 0 && st.skippedDuringConfirmation == 0
      && st.manuallyMatched == |manual|
      && st.remainingUnmatched == |ListOr(s.unmatchedTransactions)|
      && |r.updates| == |manual|
      && (forall i :: 0 <= i < |manual| ==> r.updates[i].transactionId == (if manual[i].ledgerId.Some? then manual[i].ledgerId.value else 0))
  {
    var r := AfterInteractiveComplete(s);
    var manual := ListOr(s.manuallyMatchedTransactions);
    forall i | 0 <= i < |manual|
      ensures r.updates[i].transactionId == (if manual[i].ledgerId.Some? then manual[i].ledgerId.value else 0)
    {
      assert r.updates[i] == UpdateFor(manual[i]);
    }
  }
}
