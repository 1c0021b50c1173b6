/** The PocketSmith-fetch watcher: once the CSV files are processed and no
    ledger transactions are loaded, it computes the date window from the
    CSV transactions and fetches the ledger transactions inside it. The
    clock and the ledger service are calls the model cannot see: `today`
    and the fetch result are inputs. */
module FetchWatcher {
  import opened Types

  const NoTransactionsMessage := "No CSV transactions available to calculate date range"
  const FetchErrorPrefix := "Error fetching PocketSmith transactions: "

  /** How a computation that may throw ended. */
  datatype Attempt<T> = Ok(value: T) | Thrown(fault: Fault)

  /** The parameters of the ledger query. */
  datatype FetchRequest = FetchRequest(range: DateRange, search: string, uncategorised: bool, perPage: nat)

  /** The queries a step issues and the events it dispatches. */
  datatype FetchOutcome = FetchOutcome(requests: seq<FetchRequest>, events: seq<Action>)

  /** The earliest of a non-empty list of dates. */
  function Earliest(ds: seq<real>): (r: real)
    requires ds != []
    ensures r in ds
    ensures forall d :: d in ds ==> r <= d
  {
    if |ds| == 1 then ds[0]
    else
      var rest := Earliest(ds[1..]);
      assert forall d :: d in ds[1..] ==> d in ds;
      assert forall d :: d in ds ==> d == ds[0] || d in ds[1..];
      if ds[0] <= rest then ds[0] else rest
  }

  /** The latest of a non-empty list of dates. */
  function Latest(ds: seq<real>): (r: real)
    requires ds != []
    ensures r in ds
    ensures forall d :: d in ds ==> d <= r
  {
    if |ds| == 1 then ds[0]
    else
      var rest := Latest(ds[1..]);
      assert forall d :: d in ds[1..] ==> d in ds;
      assert forall d :: d in ds ==> d == ds[0] || d in ds[1..];
      if ds[0] >= rest then ds[0] else rest
  }

  function Dates(txns: seq<SourceTxn>): (r: seq<real>)
    ensures |r| == |txns|
    ensures forall t :: t in txns ==> t.date in r
    ensures forall d :: d in r ==> exists t :: t in txns && t.date == d
  {
    var r := seq(|txns|, i requires 0 <= i < |txns| => txns[i].date);
    assert forall t :: t in txns ==> t.date in r by {
      forall t | t in txns ensures t.date in r {
        var i :| 0 <= i < |txns| && txns[i] == t;
        assert r[i] == t.date;
      }
    }
    assert forall d :: d in r ==> exists t :: t in txns && t.date == d by {
      forall d | d in r ensures exists t :: t in txns && t.date == d {
        var i :| 0 <= i < |r| && r[i] == d;
        assert txns[i] in txns;
      }
    }
    r
  }

  /** The window to fetch: from `buffer` days before the earliest CSV date
      to `buffer` days after the latest one, but never past today. Without
      CSV transactions it throws. */
  function CalculateDateRange(transactions: Option<seq<SourceTxn>>, buffer: real, today: real): (r: Attempt<DateRange>)
    ensures r.Thrown? <==> transactions.None? || transactions.value == []
    ensures r.Thrown? ==> r.fault == ErrorThrown(NoTransactionsMessage)
    ensures r.Ok? ==>
      var txns := transactions.value;
      && (forall t :: t in txns ==> r.value.startDate + buffer <= t.date)
      && (exists t :: t in txns && r.value.startDate + buffer == t.date)
      && r.value.endDate <= today
      && (forall t :: t in txns ==> t.date + buffer <= r.value.endDate || r.value.endDate == today)
      && (r.value.endDate == today || exists t :: t in txns && t.date + buffer == r.value.endDate)
      && (exists t :: t in txns && (forall u :: u in txns ==> u.date <= t.date)
            && r.value.endDate == (if t.date + buffer > today then today else t.date + buffer))
  {
    if transactions.None? || |transactions.value| == 0 then Thrown(ErrorThrown(NoTransactionsMessage))
    else
      var transactionDates := Dates(transactions.value);
      var earliestDate := Earliest(transactionDates);
      var latestDate := Latest(transactionDates);
      assert exists t :: t in transactions.value && t.date == latestDate;
      var startDate := earliestDate - buffer;
      var endDate := latestDate + buffer;
      var finalEndDate := if endDate > today then today else endDate;
      Ok(DateRange(startDate, finalEndDate))
  }

  /** With a non-negative buffer every CSV date lies at or after the start
      of the window, and, unless the window was clipped at today, at or
      before its end. */
  lemma WindowCoversDates(txns: seq<SourceTxn>, buffer: real, today: real, t: SourceTxn)
    requires buffer >= 0.0
    requires t in txns
    ensures var r := CalculateDateRange(Some(txns), buffer, today);
      && r.Ok?
      && r.value.startDate <= t.date
      && (t.date + buffer <= today ==> t.date <= r.value.endDate)
  {
  }

  /** The trigger: CSV processing has succeeded and no ledger transactions
      are loaded yet. */
  predicate FetchTriggered(s: MatcherState) {
    s.currentStep == Some(Step.CsvProcessingSuccess) && s.pocketsmithTransactions.None?
  }

  /** One run of the watcher. `fetched` is how the ledger query ended. A
      failing window computation dispatches only the error; otherwise the
      start event carries the window, the query asks for uncategorised
      transactions matching "Paypal", up to 1000 per page, and its result
      becomes a success or an error event. */
  function FetchStep(s: MatcherState, cfg: Config, today: real, fetched: Attempt<seq<LedgerTxn>>): (r: FetchOutcome)
    ensures !FetchTriggered(s) ==> r == FetchOutcome([], [])
    ensures FetchTriggered(s) ==>
      var range := CalculateDateRange(s.transactions, cfg.dateRangeBufferDays, today);
      && (range.Thrown? ==>
            r == FetchOutcome([], [PocketsmithFetchError(FetchErrorPrefix + FaultMessage(range.fault))]))
      && (range.Ok? ==>
            && r.requests == [FetchRequest(range.value, "Paypal", true, 1000)]
            && |r.events| == 2
            && r.events[0] == PocketsmithFetchStart(range.value)
            && (fetched.Ok? ==> r.events[1] == PocketsmithFetchSuccessAction(fetched.value))
            && (fetched.Thrown? ==> r.events[1] == PocketsmithFetchError(FetchErrorPrefix + FaultMessage(fetched.fault))))
  {
    if !FetchTriggered(s) then FetchOutcome([], [])
    else
      match CalculateDateRange(s.transactions, cfg.dateRangeBufferDays, today)
      case Thrown(f) => FetchOutcome([], [PocketsmithFetchError(FetchErrorPrefix + FaultMessage(f))])
      case Ok(dateRange) =>
        var request := FetchRequest(dateRange, "Paypal", true, 1000);
        var outcome :=
          match fetched
          case Ok(transactions) => PocketsmithFetchSuccessAction(transactions)
          case Thrown(f) => PocketsmithFetchError(FetchErrorPrefix + FaultMessage(f));
        FetchOutcome([request], [PocketsmithFetchStart(dateRange), outcome])
  }

  /** Every run that fires ends in exactly one success or one prefixed
      error, and a success carries exactly the fetched transactions. */
  lemma {:induction false} FetchEndsOnce(s: MatcherState, cfg: Config, today: real, fetched: Attempt<seq<LedgerTxn>>)
    requires FetchTriggered(s)
    ensures var ev := FetchStep(s, cfg, today, fetched).events;
      && ev != []
      && (Last(ev).PocketsmithFetchSuccessAction? || Last(ev).PocketsmithFetchError?)
      && (forall i :: 0 <= i < |ev| - 1 ==> ev[i].PocketsmithFetchStart?)
      && (Last(ev).PocketsmithFetchError? ==> Last(ev).message[..|FetchErrorPrefix|] == FetchErrorPrefix)
      && (Last(ev).PocketsmithFetchSuccessAction? ==> fetched == Ok(Last(ev).ledger))
  {
    var range := CalculateDateRange(s.transactions, cfg.dateRangeBufferDays, today);
    var ev := FetchStep(s, cfg, today, fetched).events;
    if range.Thrown? {
      assert ev == [PocketsmithFetchError(FetchErrorPrefix + FaultMessage(range.fault))];
    } else if fetched.Thrown? {
      assert ev[1] == PocketsmithFetchError(FetchErrorPrefix + FaultMessage(fetched.fault));
    }
  }
}
