/** The interactive-matching watcher: three independent guards, each
    computing at most one next event from the state while the operator
    works through the interactive queue. */
module InteractiveWatcher {
  import opened Types

  predicate InInteractiveMatching(s: MatcherState) {
    s.currentStep == Some(InteractiveMatching)
  }

  /** The guard of the first effect: the operator answered "no match" for
      the current item and no input is pending. */
  predicate NoMatchGuard(s: MatcherState) {
    && InInteractiveMatching(s)
    && !s.waitingForUserInput
    && s.userFoundMatch == Some(false)
    && s.unmatchedTransactions.Some?
    && s.currentUnmatchedIndex.Some?
  }

  /** The first effect: move on to the next queue item, or finish the
      loop when the current item was the last one. */
  function AdvanceOrComplete(s: MatcherState): (r: Option<Action>)
    ensures r.Some? <==> NoMatchGuard(s)
    ensures r.Some? ==>
      var queue := s.unmatchedTransactions.value;
      var next := s.currentUnmatchedIndex.value + 1;
      && (next < |queue| ==> r.value == SetCurrentUnmatchedTransaction(next))
      && (next >= |queue| ==> r.value == InteractiveMatchingCompleteAction)
    ensures r.Some? && r.value.SetCurrentUnmatchedTransaction? ==>
      s.currentUnmatchedIndex.value < r.value.index < |s.unmatchedTransactions.value|
  {
    if NoMatchGuard(s) then
      var next := s.currentUnmatchedIndex.value + 1;
      if next < |s.unmatchedTransactions.value| then Some(SetCurrentUnmatchedTransaction(next))
      else Some(InteractiveMatchingCompleteAction)
    else None
  }

  /** The second effect: the operator found the match and entered both the
      PayPal transaction number and the payee name (an empty string counts
      as not entered). */
  function ManualMatchTrigger(s: MatcherState): (r: Option<Action>)
    ensures r.Some? ==> r.value == ProcessManualMatch
    ensures r.Some? <==>
      && InInteractiveMatching(s)
      && !s.waitingForUserInput
      && s.userFoundMatch == Some(true)
      && s.paypalTransactionNumber != ""
      && s.payeeName != ""
  {
    if && InInteractiveMatching(s)
       && !s.waitingForUserInput
       && s.userFoundMatch == Some(true)
       && |s.paypalTransactionNumber| > 0
       && |s.payeeName| > 0
    then Some(ProcessManualMatch)
    else None
  }

  /** The third effect: an empty queue ends the interactive loop at once. */
  function EmptyQueueTrigger(s: MatcherState): (r: Option<Action>)
    ensures r.Some? <==> InInteractiveMatching(s) && s.unmatchedTransactions == Some([])
    ensures r.Some? ==> r.value == InteractiveMatchingCompleteAction
  {
    if InInteractiveMatching(s) && s.unmatchedTransactions.Some? && |s.unmatchedTransactions.value| == 0 then
      Some(InteractiveMatchingCompleteAction)
    else None
  }

  function AsList(o: Option<Action>): seq<Action> {
    if o.Some? then [o.value] else []
  }

  /** The events of one pass over the three effects, in declaration
      order. */
  function InteractiveEvents(s: MatcherState): seq<Action> {
    AsList(AdvanceOrComplete(s)) + AsList(ManualMatchTrigger(s)) + AsList(EmptyQueueTrigger(s))
  }

  /** Outside INTERACTIVE_MATCHING the watcher emits nothing; inside it,
      every queue index it emits is within the queue, and the loop is
      finished only when the queue is empty or the current item was the
      last. */
  lemma {:induction false} InteractiveEventsSound(s: MatcherState)
    ensures !InInteractiveMatching(s) ==> InteractiveEvents(s) == []
    ensures forall a :: a in InteractiveEvents(s) && a.SetCurrentUnmatchedTransaction? ==>
      0 < a.index < |s.unmatchedTransactions.value|
    ensures InteractiveMatchingCompleteAction in InteractiveEvents(s) ==>
      s.unmatchedTransactions.Some?
      && (|s.unmatchedTransactions.value| == 0
          || (s.currentUnmatchedIndex.Some? && s.currentUnmatchedIndex.value + 1 >= |s.unmatchedTransactions.value|))
    ensures ProcessManualMatch in InteractiveEvents(s) ==>
      s.userFoundMatch == Some(true) && s.paypalTransactionNumber != "" && s.payeeName != ""
    ensures |InteractiveEvents(s)| <= 2
  {
    var a1 := AsList(AdvanceOrComplete(s));
    var a2 := AsList(ManualMatchTrigger(s));
    var a3 := AsList(EmptyQueueTrigger(s));
    assert InteractiveEvents(s) == a1 + a2 + a3;
    // The first two guards need opposite answers from the operator.
    assert a1 == [] || a2 == [];
    forall a | a in InteractiveEvents(s)
      ensures a in a1 || a in a2 || a in a3
    {
    }
  }
}
