/** The state reducer: the CSV-stage transitions and the per-file
    counting done when CSV processing succeeds. Every other action leaves
    the state as it is. */
module Reducer {
  import opened Types

  /** `transactions.map(t => t.OriginalCSV || '')` (a missing file name is
      already "" in the model). */
  function CsvNames(txns: seq<SourceTxn>): (r: seq<string>)
    ensures |r| == |txns|
    ensures forall i :: 0 <= i < |txns| ==> r[i] == txns[i].originalCsv
  {
    if txns == [] then [] else CsvNames(txns[..|txns| - 1]) + [Last(txns).originalCsv]
  }

  /** The distinct elements of `xs`, each where it first occurs. */
  function Unique(xs: seq<string>): seq<string>
    decreases |xs|
  {
    if xs == [] then []
    else
      var u := Unique(xs[..|xs| - 1]);
      if Last(xs) in u then u else u + [Last(xs)]
  }

  predicate NoDuplicates(xs: seq<string>) {
    forall i, j :: 0 <= i < j < |xs| ==> xs[i] != xs[j]
  }

  /** `Unique` keeps every element and repeats none. */
  lemma {:induction false} UniqueCorrect(xs: seq<string>)
    ensures NoDuplicates(Unique(xs))
    ensures forall x :: x in Unique(xs) <==> x in xs
    decreases |xs|
  {
    if xs != [] {
      var init := xs[..|xs| - 1];
      UniqueCorrect(init);
      assert xs == init + [Last(xs)];
    }
  }

  /** The number of transactions whose file name is `f`. */
  function CountIn(txns: seq<SourceTxn>, f: string): nat
    decreases |txns|
  {
    if txns == [] then 0
    else CountIn(txns[..|txns| - 1], f) + (if Last(txns).originalCsv == f then 1 else 0)
  }

  lemma {:induction false} CountInPositive(txns: seq<SourceTxn>, f: string)
    ensures CountIn(txns, f) > 0 <==> exists t :: t in txns && t.originalCsv == f
    decreases |txns|
  {
    if txns != [] {
      var init := txns[..|txns| - 1];
      CountInPositive(init, f);
      assert txns == init + [Last(txns)];
    }
  }

  function NamesSet(txns: seq<SourceTxn>): set<string> {
    set t | t in txns :: t.originalCsv
  }

  /** The `totalTransactionsPerCSV` record: one entry per non-empty file
      name, holding the number of transactions from that file. */
  function PerCsvCounts(txns: seq<SourceTxn>): map<string, nat> {
    map f | f in NamesSet(txns) && f != "" :: CountIn(txns, f)
  }

  /** One more transaction in the per-file record: none for a missing
      file name, otherwise its file's entry, created at 0 if absent, goes
      up by 1. */
  function Bump(acc: map<string, nat>, csv: string): map<string, nat> {
    if csv == "" then acc
    else acc[csv := (if csv in acc then acc[csv] else 0) + 1]
  }

  lemma NamesSetSnoc(init: seq<SourceTxn>, t: SourceTxn)
    ensures NamesSet(init + [t]) == NamesSet(init) + {t.originalCsv}
  {
    var txns := init + [t];
    forall x | x in txns ensures x in init || x == t { }
  }

  lemma CountInSnoc(init: seq<SourceTxn>, t: SourceTxn, f: string)
    ensures CountIn(init + [t], f) == CountIn(init, f) + (if t.originalCsv == f then 1 else 0)
  {
    var txns := init + [t];
    assert txns[..|txns| - 1] == init;
  }

  lemma PerCsvCountsSnoc(init: seq<SourceTxn>, t: SourceTxn)
    ensures PerCsvCounts(init + [t]) == Bump(PerCsvCounts(init), t.originalCsv)
  {
    var csv := t.originalCsv;
    var r := PerCsvCounts(init + [t]);
    var expected := Bump(PerCsvCounts(init), csv);
    NamesSetSnoc(init, t);
    forall f ensures f in r <==> f in expected {
      if f == csv && csv != "" && csv !in NamesSet(init) {
        assert f in NamesSet(init + [t]);
      }
    }
    forall f | f in r ensures r[f] == expected[f] {
      CountInSnoc(init, t, f);
      if f == csv && csv !in NamesSet(init) {
        CountInPositive(init, csv);
      }
    }
    assert r.Keys == expected.Keys;
  }

  /** The `reduce` that fills `totalTransactionsPerCSV`, mutating its
      accumulator in place. */
  method CountPerCsv(txns: seq<SourceTxn>) returns (acc: map<string, nat>)
    ensures acc == PerCsvCounts(txns)
  {
    acc := map[];
    for i := 0 to |txns|
      invariant acc == PerCsvCounts(txns[..i])
    {
      var csv := txns[i].originalCsv;
      ghost var before := acc;
      if csv != "" {
        if csv !in acc || acc[csv] == 0 {
          acc := acc[csv := 0];
        }
        acc := acc[csv := acc[csv] + 1];
      }
      assert acc == Bump(before, csv);
      PerCsvCountsSnoc(txns[..i], txns[i]);
      assert txns[..i + 1] == txns[..i] + [txns[i]];
    }
    assert txns[..|txns|] == txns;
  }

  /** The per-file counts say exactly which files occur and how often. */
  lemma PerCsvCountsCorrect(txns: seq<SourceTxn>, f: string)
    ensures f in PerCsvCounts(txns) <==> f != "" && exists t :: t in txns && t.originalCsv == f
    ensures f in PerCsvCounts(txns) ==> PerCsvCounts(txns)[f] == CountIn(txns, f) > 0
  {
    CountInPositive(txns, f);
  }

  function Reduce(s: MatcherState, a: Action): MatcherState {
    match a
    case InitialisingAction => s.(currentStep := Some(Initialising))
    case BeginProcessingInputs => s.(currentStep := Some(ProcessingInputs))
    case CsvProcessingStart =>
      s.(currentStep := Some(IsProcessingCsv), csvProcessingError := None,
         csvFiles := None, transactions := None, totalTransactions := None)
    case CsvProcessingSuccessAction(txns) =>
      s.(currentStep := Some(Step.CsvProcessingSuccess), transactions := Some(txns),
         csvFiles := Some(Unique(CsvNames(txns))), totalTransactionsPerCsv := Some(PerCsvCounts(txns)),
         totalTransactions := Some(|txns|), csvProcessingError := None)
    case CsvProcessingErrorAction(message) =>
      s.(currentStep := Some(Step.CsvProcessingError), csvProcessingError := Some(message))
    case _ => s
  }

  /** The sum of the per-file counts over a list of file names (the empty
      name has no entry). */
  function SumCounts(files: seq<string>, txns: seq<SourceTxn>): nat
    decreases |files|
  {
    if files == [] then 0
    else SumCounts(files[..|files| - 1], txns) + (if Last(files) != "" then CountIn(txns, Last(files)) else 0)
  }

  lemma {:induction false} SumCountsSnoc(files: seq<string>, init: seq<SourceTxn>, t: SourceTxn)
    requires NoDuplicates(files)
    ensures SumCounts(files, init + [t]) ==
      SumCounts(files, init) + (if t.originalCsv in files && t.originalCsv != "" then 1 else 0)
    decreases |files|
  {
    var txns := init + [t];
    assert txns[..|txns| - 1] == init;
    if files != [] {
      var fi := files[..|files| - 1];
      assert NoDuplicates(fi);
      SumCountsSnoc(fi, init, t);
      assert files == fi + [Last(files)];
      if t.originalCsv == Last(files) {
        assert t.originalCsv !in fi;
      }
    }
  }

  /** Every transaction with a file name is counted once under it: the
      counts over `csvFiles` add up to the transactions with a name. */
  lemma {:induction false} SumOverCsvFiles(txns: seq<SourceTxn>)
    ensures SumCounts(Unique(CsvNames(txns)), txns) + CountIn(txns, "") == |txns|
    decreases |txns|
  {
    if txns != [] {
      var init := txns[..|txns| - 1];
      var t := Last(txns);
      assert txns == init + [t];
      SumOverCsvFiles(init);
      assert CsvNames(txns)[..|txns| - 1] == CsvNames(init);
      var u := Unique(CsvNames(init));
      UniqueCorrect(CsvNames(init));
      SumCountsSnoc(u, init, t);
      if t.originalCsv !in u {
        CountInPositive(init, t.originalCsv);
        assert forall x :: x in init ==> x.originalCsv in CsvNames(init);
        var u' := u + [t.originalCsv];
        assert u'[..|u'| - 1] == u;
      }
    }
  }

  /** `csvFiles` lists each file name of the transactions (with "" for a
      missing one) exactly once, and the per-file counts over it add up to
      at most the number of transactions. */
  lemma CsvFilesExact(txns: seq<SourceTxn>)
    ensures var files := Unique(CsvNames(txns));
      && NoDuplicates(files)
      && (forall f :: f in files <==> exists t :: t in txns && t.originalCsv == f)
      && SumCounts(files, txns) <= |txns|
  {
    var names := CsvNames(txns);
    UniqueCorrect(names);
    SumOverCsvFiles(txns);
    forall f ensures f in names <==> exists t :: t in txns && t.originalCsv == f {
      if f in names {
        var i :| 0 <= i < |names| && names[i] == f;
        assert txns[i] in txns;
      }
    }
  }

  /** A state whose file list and total are those of `txns` has the
      file-list properties of `CsvFilesExact`. */
  lemma CsvFilesOfState(r: MatcherState, txns: seq<SourceTxn>)
    requires r.csvFiles == Some(Unique(CsvNames(txns))) && r.totalTransactions == Some(|txns|)
    ensures NoDuplicates(r.csvFiles.value) && SumCounts(r.csvFiles.value, txns) <= r.totalTransactions.value
  {
    CsvFilesExact(txns);
  }

  /** On CSV_PROCESSING_SUCCESS: `totalTransactions` is the payload length,
      the error is cleared, `csvFiles` lists each file name once, and the
      per-file counts add up to at most `totalTransactions`; every field the
      action does not set is kept. */
  lemma CsvSuccessCounts(s: MatcherState, txns: seq<SourceTxn>)
    ensures var r := Reduce(s, CsvProcessingSuccessAction(txns));
      && r.currentStep == Some(Step.CsvProcessingSuccess)
      && r.transactions == Some(txns)
      && r.totalTransactions == Some(|txns|)
      && r.csvProcessingError.None?
      && r.csvFiles == Some(Unique(CsvNames(txns)))
      && NoDuplicates(r.csvFiles.value)
      && r.totalTransactionsPerCsv == Some(PerCsvCounts(txns))
      && SumCounts(r.csvFiles.value, txns) <= r.totalTransactions.value
      && r.(currentStep := s.currentStep, transactions := s.transactions, totalTransactions := s.totalTransactions,
            csvProcessingError := s.csvProcessingError, csvFiles := s.csvFiles,
            totalTransactionsPerCsv := s.totalTransactionsPerCsv) == s
  {
    CsvSuccessState(s, txns);
    CsvFilesOfState(Reduce(s, CsvProcessingSuccessAction(txns)), txns);
  }

  /** The fields CSV_PROCESSING_SUCCESS sets; every other field is kept. */
  lemma CsvSuccessState(s: MatcherState, txns: seq<SourceTxn>)
    ensures var r := Reduce(s, CsvProcessingSuccessAction(txns));
      && r.currentStep == Some(Step.CsvProcessingSuccess)
      && r.transactions == Some(txns)
      && r.totalTransactions == Some(|txns|)
      && r.csvProcessingError.None?
      && r.csvFiles == Some(Unique(CsvNames(txns)))
      && r.totalTransactionsPerCsv == Some(PerCsvCounts(txns))
      && r.(currentStep := s.currentStep, transactions := s.transactions, totalTransactions := s.totalTransactions,
            csvProcessingError := s.csvProcessingError, csvFiles := s.csvFiles,
            totalTransactionsPerCsv := s.totalTransactionsPerCsv) == s
  {
  }

  /** CSV_PROCESSING_START moves to IS_PROCESSING_CSV and clears the error,
      the file list, the transactions and their total; nothing else
      changes. */
  lemma CsvStartClears(s: MatcherState)
    ensures var r := Reduce(s, CsvProcessingStart);
      && r.currentStep == Some(IsProcessingCsv)
      && r.csvProcessingError.None? && r.csvFiles.None? && r.transactions.None? && r.totalTransactions.None?
      && r.(currentStep := s.currentStep, csvProcessingError := s.csvProcessingError, csvFiles := s.csvFiles,
            transactions := s.transactions, totalTransactions := s.totalTransactions) == s
  {
  }

  /** INITIALISING and BEGIN_PROCESSING_INPUTS change only the step;
      CSV_PROCESSING_ERROR sets the step and the message and keeps the
      rest; every action the reducer does not handle changes nothing. */
  lemma OtherTransitions(s: MatcherState, a: Action)
    ensures a == InitialisingAction ==> Reduce(s, a).(currentStep := s.currentStep) == s && Reduce(s, a).currentStep == Some(Initialising)
    ensures a == BeginProcessingInputs ==> Reduce(s, a).(currentStep := s.currentStep) == s && Reduce(s, a).currentStep == Some(ProcessingInputs)
    ensures a.CsvProcessingErrorAction? ==>
      && Reduce(s, a).currentStep == Some(Step.CsvProcessingError)
      && Reduce(s, a).csvProcessingError == Some(a.message)
      && Reduce(s, a).(currentStep := s.currentStep, csvProcessingError := s.csvProcessingError) == s
    ensures (!a.InitialisingAction? && !a.BeginProcessingInputs? && !a.CsvProcessingStart?
             && !a.CsvProcessingSuccessAction? && !a.CsvProcessingErrorAction?) ==> Reduce(s, a) == s
  {
  }
}
