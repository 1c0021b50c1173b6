/** The transaction-matching watcher: once the ledger transactions are
    fetched, it matches the PayPal and the Amazon transactions in two
    separate calls against the same ledger list, and builds the interactive
    queue from Amazon's unmatched ledger transactions followed by the
    unmatched PayPal transactions. */
module MatchingWatcher {
  import opened Types
  import MS = MatchingService

  const ErrorPrefix := "Error matching transactions: "
  const LedgerItemNote := "PocketSmith transaction - find matching Amazon order"

  /** `transactions.filter(t => t.csvType === kind)`. */
  function OfType(txns: seq<SourceTxn>, kind: CsvType): seq<SourceTxn> {
    if txns == [] then []
    else (if txns[0].csvType == Some(kind) then [txns[0]] else []) + OfType(txns[1..], kind)
  }

  lemma {:induction false} OfTypeAppend(a: seq<SourceTxn>, b: seq<SourceTxn>, kind: CsvType)
    ensures OfType(a + b, kind) == OfType(a, kind) + OfType(b, kind)
  {
    if a != [] {
      OfTypeAppend(a[1..], b, kind);
      assert (a + b)[0] == a[0];
      assert (a + b)[1..] == a[1..] + b;
    } else {
      assert a + b == b;
    }
  }

  lemma {:induction false} OfTypeAll(a: seq<SourceTxn>, kind: CsvType)
    ensures (forall t :: t in a ==> t.csvType == Some(kind)) ==> OfType(a, kind) == a
    ensures (forall t :: t in a ==> t.csvType != Some(kind)) ==> OfType(a, kind) == []
  {
    if a != [] {
      OfTypeAll(a[1..], kind);
      assert a == [a[0]] + a[1..];
      forall t | t in a[1..] ensures t in a { }
    }
  }

  lemma {:induction false} OfTypeMember(a: seq<SourceTxn>, kind: CsvType, t: SourceTxn)
    ensures t in OfType(a, kind) <==> t in a && t.csvType == Some(kind)
  {
    if a != [] {
      OfTypeMember(a[1..], kind, t);
      assert a == [a[0]] + a[1..];
    }
  }

  /** A ledger transaction turned into an item of the interactive queue.
      An unparseable ledger date becomes day 0. */
  function ToQueueItem(l: LedgerTxn): SourceTxn {
    SourceTxn(
      date := if l.date.Some? then l.date.value else 0.0,
      note := LedgerItemNote,
      amount := l.amount,
      payee := if l.payee == "" then "Unknown" else l.payee,
      labels := [],
      originalCsv := "",
      csvType := Some(Amazon),
      isForeignCurrency := false,
      splits := [],
      ledgerId := Some(l.id),
      matchScore := None,
      skippedDuringMatching := false)
  }

  function QueueItems(ls: seq<LedgerTxn>): seq<SourceTxn> {
    seq(|ls|, i requires 0 <= i < |ls| => ToQueueItem(ls[i]))
  }

  /** A successful match as listed in `successfullyMatchedTransactions`:
      the CSV transaction with the matched ledger id and the score. */
  function WithLedgerId(m: MS.TxnMatch): SourceTxn {
    m.source.(ledgerId := Some(m.ledger.id), matchScore := Some(m.score))
  }

  function Projected(ms: seq<MS.TxnMatch>): seq<SourceTxn> {
    seq(|ms|, i requires 0 <= i < |ms| => WithLedgerId(ms[i]))
  }

  function PayPalResult(txns: seq<SourceTxn>, ledger: seq<LedgerTxn>, cfg: Config): MS.MatchResult {
    MS.Spec(OfType(txns, PayPal), ledger, cfg)
  }

  function AmazonResult(txns: seq<SourceTxn>, ledger: seq<LedgerTxn>, cfg: Config): MS.MatchResult {
    MS.Spec(OfType(txns, Amazon), ledger, cfg)
  }

  /** PayPal matches first, then Amazon matches. */
  function MatchedTransactions(txns: seq<SourceTxn>, ledger: seq<LedgerTxn>, cfg: Config): seq<SourceTxn> {
    Projected(PayPalResult(txns, ledger, cfg).successfulMatches)
    + Projected(AmazonResult(txns, ledger, cfg).successfulMatches)
  }

  /** Amazon's unmatched ledger transactions (only when there are Amazon
      transactions at all), then the unmatched PayPal transactions. */
  function InteractiveQueue(txns: seq<SourceTxn>, ledger: seq<LedgerTxn>, cfg: Config): seq<SourceTxn> {
    (if OfType(txns, Amazon) != [] then QueueItems(AmazonResult(txns, ledger, cfg).unmatchedLedger) else [])
    + PayPalResult(txns, ledger, cfg).unmatchedCsv
  }

  /** The events doTransactionMatching dispatches. `fault` stands for an
      exception thrown inside its try block. */
  function MatchingEvents(s: MatcherState, cfg: Config, fault: Option<Fault>): seq<Action> {
    if s.pocketsmithTransactions.None? || s.transactions.None? then []
    else if fault.Some? then [TransactionMatchingStart, TransactionMatchingError(ErrorPrefix + FaultMessage(fault.value))]
    else
      var txns := s.transactions.value;
      var ledger := s.pocketsmithTransactions.value;
      [TransactionMatchingStart,
       TransactionMatchingSuccessAction(MatchedTransactions(txns, ledger, cfg), InteractiveQueue(txns, ledger, cfg))]
  }

  /** The unmatched CSV transactions of one call are drawn from its
      input. */
  lemma UnmatchedFromInput(srcs: seq<SourceTxn>, ledger: seq<LedgerTxn>, cfg: Config, t: SourceTxn)
    requires t in MS.Spec(srcs, ledger, cfg).unmatchedCsv
    ensures t in srcs
  {
    MS.MatchPartitionsSources(srcs, ledger, cfg);
    assert t in multiset(MS.Spec(srcs, ledger, cfg).unmatchedCsv);
    assert multiset(srcs)[t] > 0;
  }

  /** Filtering all unmatched CSV transactions down to PayPal ones gives
      back exactly the PayPal call's unmatched list. */
  lemma PayPalUnmatchedFilter(txns: seq<SourceTxn>, ledger: seq<LedgerTxn>, cfg: Config)
    ensures var pp := PayPalResult(txns, ledger, cfg).unmatchedCsv;
      OfType(pp + AmazonResult(txns, ledger, cfg).unmatchedCsv, PayPal) == pp
  {
    var pp := PayPalResult(txns, ledger, cfg).unmatchedCsv;
    var am := AmazonResult(txns, ledger, cfg).unmatchedCsv;
    forall t | t in pp ensures t.csvType == Some(PayPal) {
      UnmatchedFromInput(OfType(txns, PayPal), ledger, cfg, t);
      OfTypeMember(txns, PayPal, t);
    }
    forall t | t in am ensures t.csvType != Some(PayPal) {
      UnmatchedFromInput(OfType(txns, Amazon), ledger, cfg, t);
      OfTypeMember(txns, Amazon, t);
    }
    OfTypeAppend(pp, am, PayPal);
    OfTypeAll(pp, PayPal);
    OfTypeAll(am, PayPal);
  }

  /** A kind with no transactions contributes no matches and no
      unmatched transactions. */
  lemma EmptyKind(txns: seq<SourceTxn>, ledger: seq<LedgerTxn>, cfg: Config, kind: CsvType)
    requires OfType(txns, kind) == []
    ensures MS.Spec(OfType(txns, kind), ledger, cfg).successfulMatches == []
    ensures MS.Spec(OfType(txns, kind), ledger, cfg).unmatchedCsv == []
  {
  }

  lemma ProjectedAppend(a: seq<MS.TxnMatch>, b: seq<MS.TxnMatch>)
    ensures Projected(a + b) == Projected(a) + Projected(b)
  {
  }

  /** The body of the try block up to the projection: one matching call
      per kind that has transactions, pushing the matches, the unmatched
      CSV transactions and the queue items in the order the calls run. */
  method MatchByKind(txns: seq<SourceTxn>, ledger: seq<LedgerTxn>, cfg: Config)
    returns (allSuccessfulMatches: seq<MS.TxnMatch>, unmatchedForInteractiveMatching: seq<SourceTxn>)
    ensures allSuccessfulMatches == PayPalResult(txns, ledger, cfg).successfulMatches + AmazonResult(txns, ledger, cfg).successfulMatches
    ensures unmatchedForInteractiveMatching == InteractiveQueue(txns, ledger, cfg)
  {
    var paypalTransactions := OfType(txns, PayPal);
    var amazonTransactions := OfType(txns, Amazon);
    allSuccessfulMatches := [];
    var allUnmatchedCsv: seq<SourceTxn> := [];
    unmatchedForInteractiveMatching := [];
    ghost var pp := PayPalResult(txns, ledger, cfg);
    ghost var am := AmazonResult(txns, ledger, cfg);
    if paypalTransactions == [] {
      EmptyKind(txns, ledger, cfg, PayPal);
    }
    if amazonTransactions == [] {
      EmptyKind(txns, ledger, cfg, Amazon);
    }

    if |paypalTransactions| > 0 {
      var paypalMatches := MS.MatchTransactions(paypalTransactions, ledger, cfg);
      allSuccessfulMatches := allSuccessfulMatches + paypalMatches.successfulMatches;
      allUnmatchedCsv := allUnmatchedCsv + paypalMatches.unmatchedCsv;
    }

    if |amazonTransactions| > 0 {
      var amazonMatches := MS.MatchTransactions(amazonTransactions, ledger, cfg);
      allSuccessfulMatches := allSuccessfulMatches + amazonMatches.successfulMatches;
      allUnmatchedCsv := allUnmatchedCsv + amazonMatches.unmatchedCsv;
      var unmatchedPocketSmithTransactions := QueueItems(amazonMatches.unmatchedLedger);
      unmatchedForInteractiveMatching := unmatchedForInteractiveMatching + unmatchedPocketSmithTransactions;
    }
    assert allUnmatchedCsv == pp.unmatchedCsv + am.unmatchedCsv;

    if |paypalTransactions| > 0 {
      PayPalUnmatchedFilter(txns, ledger, cfg);
      unmatchedForInteractiveMatching := unmatchedForInteractiveMatching + OfType(allUnmatchedCsv, PayPal);
    }
  }

  method DoTransactionMatching(s: MatcherState, cfg: Config, fault: Option<Fault>) returns (events: seq<Action>)
    ensures events == MatchingEvents(s, cfg, fault)
  {
    if s.pocketsmithTransactions.None? || s.transactions.None? {
      return [];
    }
    var ledger := s.pocketsmithTransactions.value;
    var txns := s.transactions.value;
    events := [TransactionMatchingStart];
    if fault.Some? {
      events := events + [TransactionMatchingError(ErrorPrefix + FaultMessage(fault.value))];
      return;
    }
    var allSuccessfulMatches, unmatchedForInteractiveMatching := MatchByKind(txns, ledger, cfg);
    var successfullyMatchedTransactions := Projected(allSuccessfulMatches);
    ProjectedAppend(PayPalResult(txns, ledger, cfg).successfulMatches, AmazonResult(txns, ledger, cfg).successfulMatches);
    events := events + [TransactionMatchingSuccessAction(successfullyMatchedTransactions, unmatchedForInteractiveMatching)];
  }

  /** The trigger: the ledger fetch has succeeded, both lists are present
      and nothing has been matched yet. */
  predicate MatchingTriggered(s: MatcherState) {
    && s.currentStep == Some(Step.PocketsmithFetchSuccess)
    && s.pocketsmithTransactions.Some?
    && s.transactions.Some?
    && s.successfullyMatchedTransactions.None?
  }

  /** The watcher: matching runs only when triggered. A start event
      precedes the outcome, which is a single success or a single error
      whose message carries the prefix. */
  method TransactionMatchingWatcher(s: MatcherState, cfg: Config, fault: Option<Fault>) returns (events: seq<Action>)
    ensures !MatchingTriggered(s) ==> events == []
    ensures MatchingTriggered(s) ==> |events| == 2 && events[0] == TransactionMatchingStart
    ensures MatchingTriggered(s) && fault.None? ==>
      events[1] == TransactionMatchingSuccessAction(
        MatchedTransactions(s.transactions.value, s.pocketsmithTransactions.value, cfg),
        InteractiveQueue(s.transactions.value, s.pocketsmithTransactions.value, cfg))
    ensures MatchingTriggered(s) && fault.Some? ==>
      events[1].TransactionMatchingError? && events[1].message == ErrorPrefix + FaultMessage(fault.value)
  {
    if MatchingTriggered(s) {
      events := DoTransactionMatching(s, cfg, fault);
    } else {
      events := [];
    }
  }

  // ---------------------------------------------------------------------
  // Properties of the matched list and the queue
  // ---------------------------------------------------------------------

  /** Every match of the call for one kind pairs a transaction of that
      kind, with score 1. */
  lemma KindMatches(txns: seq<SourceTxn>, ledger: seq<LedgerTxn>, cfg: Config, kind: CsvType)
    ensures forall m :: m in MS.Spec(OfType(txns, kind), ledger, cfg).successfulMatches ==>
      m.score == 1 && m.source.csvType == Some(kind)
  {
    forall m | m in MS.Spec(OfType(txns, kind), ledger, cfg).successfulMatches
      ensures m.score == 1 && m.source.csvType == Some(kind)
    {
      MS.MatchesAreCandidates(OfType(txns, kind), ledger, cfg, m);
      OfTypeMember(txns, kind, m.source);
    }
  }

  /** Projecting matches of one kind with score 1: each entry is its CSV
      transaction with the ledger id and the score filled in. */
  lemma ProjectedShape(ms: seq<MS.TxnMatch>, kind: CsvType)
    requires forall m :: m in ms ==> m.score == 1 && m.source.csvType == Some(kind)
    ensures |Projected(ms)| == |ms|
    ensures forall i :: 0 <= i < |ms| ==>
      var e := Projected(ms)[i];
      e.ledgerId == Some(ms[i].ledger.id) && e.matchScore == Some(1)
      && e.(ledgerId := ms[i].source.ledgerId, matchScore := ms[i].source.matchScore) == ms[i].source
      && e.csvType == Some(kind)
  {
    forall i | 0 <= i < |ms|
      ensures ms[i].score == 1 && ms[i].source.csvType == Some(kind)
    {
      assert ms[i] in ms;
    }
  }

  /** `successfullyMatchedTransactions` lists the PayPal matches, then the
      Amazon matches; each entry is its CSV transaction with the matched
      ledger id and score 1 filled in. Ledger ids are unique within each
      of the two parts (the two calls do not share their used ids). */
  lemma MatchedTransactionsShape(txns: seq<SourceTxn>, ledger: seq<LedgerTxn>, cfg: Config)
    ensures var pp := PayPalResult(txns, ledger, cfg).successfulMatches;
      var am := AmazonResult(txns, ledger, cfg).successfulMatches;
      var r := MatchedTransactions(txns, ledger, cfg);
      && |r| == |pp| + |am|
      && (forall i :: 0 <= i < |pp| ==>
            r[i].ledgerId == Some(pp[i].ledger.id) && r[i].matchScore == Some(1)
            && r[i].(ledgerId := pp[i].source.ledgerId, matchScore := pp[i].source.matchScore) == pp[i].source
            && r[i].csvType == Some(PayPal))
      && (forall i :: 0 <= i < |am| ==>
            r[|pp| + i].ledgerId == Some(am[i].ledger.id) && r[|pp| + i].matchScore == Some(1)
            && r[|pp| + i].(ledgerId := am[i].source.ledgerId, matchScore := am[i].source.matchScore) == am[i].source
            && r[|pp| + i].csvType == Some(Amazon))
      && MS.DistinctIds(pp) && MS.DistinctIds(am)
  {
    var pp := PayPalResult(txns, ledger, cfg).successfulMatches;
    var am := AmazonResult(txns, ledger, cfg).successfulMatches;
    MS.MatchedIdsDistinct(OfType(txns, PayPal), ledger, cfg);
    MS.MatchedIdsDistinct(OfType(txns, Amazon), ledger, cfg);
    KindMatches(txns, ledger, cfg, PayPal);
    KindMatches(txns, ledger, cfg, Amazon);
    ProjectedPair(pp, am);
  }

  /** The PayPal projections followed by the Amazon projections. */
  lemma ProjectedPair(pp: seq<MS.TxnMatch>, am: seq<MS.TxnMatch>)
    requires forall m :: m in pp ==> m.score == 1 && m.source.csvType == Some(PayPal)
    requires forall m :: m in am ==> m.score == 1 && m.source.csvType == Some(Amazon)
    ensures var r := Projected(pp) + Projected(am);
      && |r| == |pp| + |am|
      && (forall i :: 0 <= i < |pp| ==>
            r[i].ledgerId == Some(pp[i].ledger.id) && r[i].matchScore == Some(1)
            && r[i].(ledgerId := pp[i].source.ledgerId, matchScore := pp[i].source.matchScore) == pp[i].source
            && r[i].csvType == Some(PayPal))
      && (forall i :: 0 <= i < |am| ==>
            r[|pp| + i].ledgerId == Some(am[i].ledger.id) && r[|pp| + i].matchScore == Some(1)
            && r[|pp| + i].(ledgerId := am[i].source.ledgerId, matchScore := am[i].source.matchScore) == am[i].source
            && r[|pp| + i].csvType == Some(Amazon))
  {
    var r := Projected(pp) + Projected(am);
    ProjectedShape(pp, PayPal);
    ProjectedShape(am, Amazon);
    assert forall i :: 0 <= i < |am| ==> r[|pp| + i] == Projected(am)[i];
  }

  /** A queue made of items from ledger transactions `ls` followed by
      PayPal transactions `pu`. */
  lemma QueueComposition(ls: seq<LedgerTxn>, pu: seq<SourceTxn>, ledger: seq<LedgerTxn>)
    requires forall l :: l in ls ==> l in ledger
    requires forall t :: t in pu ==> t.csvType == Some(PayPal)
    ensures var q := QueueItems(ls) + pu;
      && |q| == |ls| + |pu|
      && (forall i :: 0 <= i < |ls| ==>
            && q[i].amount == ls[i].amount
            && q[i].payee == (if ls[i].payee == "" then "Unknown" else ls[i].payee)
            && q[i].ledgerId == Some(ls[i].id)
            && q[i].labels == [])
      && q[|ls|..] == pu
      && (forall t :: t in q ==> t.csvType == Some(PayPal) || (t.note == LedgerItemNote && exists l :: l in ledger && t == ToQueueItem(l)))
  {
    var q := QueueItems(ls) + pu;
    forall t | t in q ensures t.csvType == Some(PayPal) || (t.note == LedgerItemNote && exists l :: l in ledger && t == ToQueueItem(l)) {
      var i :| 0 <= i < |q| && q[i] == t;
      if i >= |ls| {
        assert t == pu[i - |ls|];
      } else {
        assert t == ToQueueItem(ls[i]) && ls[i] in ledger;
      }
    }
  }

  /** The queue is Amazon's unmatched ledger transactions, each turned
      into an item with the ledger amount, the ledger payee or 'Unknown',
      the ledger id and no labels, followed by the unmatched PayPal
      transactions. No Amazon CSV transaction is ever queued: every queued
      item is a PayPal transaction or an item made from a ledger
      transaction. */
  lemma InteractiveQueueShape(txns: seq<SourceTxn>, ledger: seq<LedgerTxn>, cfg: Config)
    ensures var q := InteractiveQueue(txns, ledger, cfg);
      var ls := if OfType(txns, Amazon) != [] then AmazonResult(txns, ledger, cfg).unmatchedLedger else [];
      var pu := PayPalResult(txns, ledger, cfg).unmatchedCsv;
      && |q| == |ls| + |pu|
      && (forall i :: 0 <= i < |ls| ==>
            && q[i].amount == ls[i].amount
            && q[i].payee == (if ls[i].payee == "" then "Unknown" else ls[i].payee)
            && q[i].ledgerId == Some(ls[i].id)
            && q[i].labels == []
            && ls[i] in ledger)
      && q[|ls|..] == pu
      && (forall t :: t in q ==> t.csvType == Some(PayPal) || (t.note == LedgerItemNote && exists l :: l in ledger && t == ToQueueItem(l)))
  {
    var ls := if OfType(txns, Amazon) != [] then AmazonResult(txns, ledger, cfg).unmatchedLedger else [];
    var pu := PayPalResult(txns, ledger, cfg).unmatchedCsv;
    forall l | l in ls ensures l in ledger {
      MS.UnmatchedLedgerExact(OfType(txns, Amazon), ledger, cfg, l);
    }
    forall t | t in pu ensures t.csvType == Some(PayPal) {
      UnmatchedFromInput(OfType(txns, PayPal), ledger, cfg, t);
      OfTypeMember(txns, PayPal, t);
    }
    QueueComposition(ls, pu, ledger);
    assert InteractiveQueue(txns, ledger, cfg) == QueueItems(ls) + pu;
  }

  /** Only transactions whose `csvType` is PayPal or Amazon take part: a
      transaction without a kind is in neither batch, so every matched
      entry and every queued item carries a kind, and such a transaction
      is neither matched nor queued. */
  lemma UntypedLeftOut(txns: seq<SourceTxn>, ledger: seq<LedgerTxn>, cfg: Config)
    ensures forall t :: t in txns && t.csvType.None? ==> t !in OfType(txns, PayPal) && t !in OfType(txns, Amazon)
    ensures forall r :: r in MatchedTransactions(txns, ledger, cfg) ==> r.csvType.Some?
    ensures forall r :: r in InteractiveQueue(txns, ledger, cfg) ==> r.csvType.Some?
    ensures forall t :: t in txns && t.csvType.None? ==>
      t !in MatchedTransactions(txns, ledger, cfg) && t !in InteractiveQueue(txns, ledger, cfg)
  {
    forall t | t in txns && t.csvType.None?
      ensures t !in OfType(txns, PayPal) && t !in OfType(txns, Amazon)
    {
      OfTypeMember(txns, PayPal, t);
      OfTypeMember(txns, Amazon, t);
    }
    var r := MatchedTransactions(txns, ledger, cfg);
    MatchedTransactionsShape(txns, ledger, cfg);
    forall t | t in r ensures t.csvType.Some? {
      var i :| 0 <= i < |r| && r[i] == t;
      var pp := PayPalResult(txns, ledger, cfg).successfulMatches;
      if i >= |pp| {
        assert r[|pp| + (i - |pp|)] == t;
      }
    }
    InteractiveQueueShape(txns, ledger, cfg);
  }
}
