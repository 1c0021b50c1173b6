/** The first two workflow steps (start-up and CSV processing), and how the
    reducer carries their events into the state the fetch watcher reads.
    CSV ingestion itself is a call the model cannot see: its result is an
    input. */
module Driver {
  import opened Types
  import Reducer
  import FW = FetchWatcher

  const CsvErrorPrefix := "Error processing CSV files: "

  /** At INITIALISING, begin processing the inputs. */
  function InitialisingStep(s: MatcherState): (r: seq<Action>)
    ensures r != [] <==> s.currentStep == Some(Initialising)
    ensures r != [] ==> r == [BeginProcessingInputs]
  {
    if s.currentStep == Some(Initialising) then [BeginProcessingInputs] else []
  }

  /** At PROCESSING_INPUTS with no transactions loaded: a start event, then
      the processed transactions or a prefixed error. */
  function ProcessingInputsStep(s: MatcherState, processed: FW.Attempt<seq<SourceTxn>>): (r: seq<Action>)
    ensures r != [] <==> s.currentStep == Some(ProcessingInputs) && s.transactions.None?
    ensures r != [] ==> |r| == 2 && r[0] == CsvProcessingStart
    ensures r != [] && processed.Ok? ==> r[1] == CsvProcessingSuccessAction(processed.value)
    ensures r != [] && processed.Thrown? ==> r[1] == CsvProcessingErrorAction(CsvErrorPrefix + FaultMessage(processed.fault))
  {
    if s.currentStep == Some(ProcessingInputs) && s.transactions.None? then
      var outcome :=
        match processed
        case Ok(txns) => CsvProcessingSuccessAction(txns)
        case Thrown(f) => CsvProcessingErrorAction(CsvErrorPrefix + FaultMessage(f));
      [CsvProcessingStart, outcome]
    else []
  }

  /** The state after the reducer has taken the events in order. */
  function ReduceAll(s: MatcherState, events: seq<Action>): MatcherState
    decreases |events|
  {
    if events == [] then s else ReduceAll(Reducer.Reduce(s, events[0]), events[1..])
  }

  /** Start-up moves the workflow to PROCESSING_INPUTS and changes nothing
      else. */
  lemma {:induction false} StartUp(s: MatcherState)
    requires s.currentStep == Some(Initialising)
    ensures ReduceAll(s, InitialisingStep(s)) == s.(currentStep := Some(ProcessingInputs))
  {
    var ev := InitialisingStep(s);
    assert ev[1..] == [];
  }

  /** Successful CSV processing leaves the transactions in the state and
      hands over to the fetch watcher: it fires exactly when no ledger
      transactions are loaded, and its window computation fails exactly
      when there were no CSV transactions. A failure stops the workflow at
      CSV_PROCESSING_ERROR, where the fetch watcher does not fire. */
  lemma {:induction false} CsvStageHandsOverToFetch(s: MatcherState, processed: FW.Attempt<seq<SourceTxn>>, buffer: real, today: real)
    requires s.currentStep == Some(ProcessingInputs) && s.transactions.None?
    ensures var s' := ReduceAll(s, ProcessingInputsStep(s, processed));
      && (processed.Ok? ==>
            && s'.currentStep == Some(Step.CsvProcessingSuccess)
            && s'.transactions == Some(processed.value)
            && s'.totalTransactions == Some(|processed.value|)
            && (FW.FetchTriggered(s') <==> s.pocketsmithTransactions.None?)
            && (FW.CalculateDateRange(s'.transactions, buffer, today).Thrown? <==> processed.value == []))
      && (processed.Thrown? ==>
            && s'.currentStep == Some(Step.CsvProcessingError)
            && s'.csvProcessingError == Some(CsvErrorPrefix + FaultMessage(processed.fault))
            && s'.transactions.None?
            && !FW.FetchTriggered(s'))
  {
    var ev := ProcessingInputsStep(s, processed);
    var s1 := Reducer.Reduce(s, ev[0]);
    assert ev[1..][0] == ev[1] && ev[1..][1..] == [];
    assert ReduceAll(s, ev) == ReduceAll(s1, ev[1..]);
    assert ReduceAll(s1, ev[1..]) == ReduceAll(Reducer.Reduce(s1, ev[1]), []);
  }
}
