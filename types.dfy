/** Entities shared by the matching engine and the workflow watchers:
    the standardised CSV transaction, the PocketSmith ledger transaction,
    the workflow steps, the matcher state record and the actions (events)
    that the watchers dispatch to the reducer. */
module Types {

  datatype Option<+T> = None | Some(value: T)

  /** The two CSV schemas a standardised transaction can come from. */
  datatype CsvType = PayPal | Amazon

  /** A standardised CSV transaction. Dates are day numbers (fractional
      days allowed); amounts are exact reals. `originalCsv` is "" when the
      transaction carries no file name, and `splits` is [] when the order
      has no split payments. `csvType` is optional: a transaction built
      without one (as the CSV processing service builds them) has None. */
  datatype SourceTxn = SourceTxn(
    date: real,
    note: string,
    amount: real,
    payee: string,
    labels: seq<string>,
    originalCsv: string,
    csvType: Option<CsvType>,
    isForeignCurrency: bool,
    splits: seq<real>,
    ledgerId: Option<int>,
    matchScore: Option<int>,
    skippedDuringMatching: bool)

  /** A PocketSmith ledger transaction. `date` is None when its ISO date
      string does not parse; `payee` is "" when the ledger has none. */
  datatype LedgerTxn = LedgerTxn(id: int, amount: real, date: Option<real>, payee: string)

  /** The matching and fetching parameters read from the environment
      (defaults: 2 days, 0.01, 0.2 and 5 days). */
  datatype Config = Config(
    daysTolerance: real,
    amountToleranceExact: real,
    amountToleranceForeignPercent: real,
    dateRangeBufferDays: real)

  function DefaultConfig(): Config {
    Config(2.0, 0.01, 0.2, 5.0)
  }

  datatype Step =
    | Initialising
    | ProcessingInputs
    | IsProcessingCsv
    | CsvProcessingSuccess
    | CsvProcessingError
    | PocketsmithFetchSuccess
    | TransactionMatchingSuccess
    | InteractiveMatching
    | InteractiveMatchingComplete
    | ConfirmingMatchedTransactions

  /** The date window requested from the ledger. */
  datatype DateRange = DateRange(startDate: real, endDate: real)

  /** The payload of confirmingMatchedTransactionsComplete. */
  datatype Stats = Stats(
    totalPocketsmithTransactions: nat,
    automaticallyMatched: nat,
    manuallyMatched: nat,
    skippedDuringConfirmation: nat,
    remainingUnmatched: nat,
    unmatchedTransactions: seq<SourceTxn>)

  /** The events produced by the action creators. */
  datatype Action =
    | InitialisingAction
    | BeginProcessingInputs
    | CsvProcessingStart
    | CsvProcessingSuccessAction(transactions: seq<SourceTxn>)
    | CsvProcessingErrorAction(message: string)
    | PocketsmithFetchStart(range: DateRange)
    | PocketsmithFetchSuccessAction(ledger: seq<LedgerTxn>)
    | PocketsmithFetchError(message: string)
    | TransactionMatchingStart
    | TransactionMatchingSuccessAction(matched: seq<SourceTxn>, unmatched: seq<SourceTxn>)
    | TransactionMatchingError(message: string)
    | InteractiveMatchingStart
    | SetCurrentUnmatchedTransaction(index: nat)
    | ProcessManualMatch
    | InteractiveMatchingCompleteAction
    | ConfirmingMatchedTransactionsStart
    | SetCurrentMatchIndex(index: nat)
    | ConfirmMatch
    | RejectMatch
    | ConfirmingMatchedTransactionsComplete(stats: Stats)
    | ProcessingComplete

  /** The fields of the matcher state that the reducer and the watchers
      read. An absent optional list is None; `waitingForUserInput` is
      false when absent; the two operator strings are "" when absent. */
  datatype MatcherState = MatcherState(
    currentStep: Option<Step>,
    transactions: Option<seq<SourceTxn>>,
    csvFiles: Option<seq<string>>,
    csvProcessingError: Option<string>,
    totalTransactions: Option<nat>,
    totalTransactionsPerCsv: Option<map<string, nat>>,
    pocketsmithTransactions: Option<seq<LedgerTxn>>,
    successfullyMatchedTransactions: Option<seq<SourceTxn>>,
    unmatchedTransactions: Option<seq<SourceTxn>>,
    currentUnmatchedIndex: Option<nat>,
    waitingForUserInput: bool,
    userFoundMatch: Option<bool>,
    paypalTransactionNumber: string,
    payeeName: string,
    currentMatchIndex: Option<nat>,
    confirmedMatches: Option<seq<SourceTxn>>,
    rejectedMatches: Option<seq<SourceTxn>>,
    manuallyMatchedTransactions: Option<seq<SourceTxn>>)

  /** How a call the model cannot see ended when it threw: with an Error
      carrying a message, or with some other thrown value. */
  datatype Fault = ErrorThrown(message: string) | NonErrorThrown

  /** The text a watcher's catch block appends to its prefix. */
  function FaultMessage(f: Fault): string {
    match f
    case ErrorThrown(m) => m
    case NonErrorThrown => "Unknown error"
  }

  /** A remote update of one ledger transaction. */
  datatype UpdateRequest = UpdateRequest(transactionId: int, payee: string, memo: string, labels: seq<string>)

  /** The update issued for a matched transaction. A matched transaction
      without a ledger id would be sent with an undefined id; the model
      uses 0 there. */
  function UpdateFor(t: SourceTxn): UpdateRequest {
    UpdateRequest(if t.ledgerId.Some? then t.ledgerId.value else 0, t.payee, t.note, t.labels)
  }

  /** The last element of a non-empty sequence. */
  function Last<T>(s: seq<T>): T
    requires s != []
  {
    s[|s| - 1]
  }

  function Abs(x: real): real {
    if x < 0.0 then -x else x
  }
}
