/** The automatic matcher: pairs standardised CSV transactions with
    PocketSmith ledger transactions by date and amount tolerance, greedily
    and first-fit, never using a ledger id twice within one call.

    `MatchTransactions` and `FindPotentialMatches` are the imperative
    loops; each is proved equal to a specification function (`Spec`,
    `Candidates`), and the lemmas below state what the specification
    promises. */
module MatchingService {
  import opened Types

  /** One potential pairing. The source always gives it score 1. */
  datatype TxnMatch = TxnMatch(source: SourceTxn, ledger: LedgerTxn, score: int)

  datatype MatchResult = MatchResult(
    successfulMatches: seq<TxnMatch>,
    unmatchedCsv: seq<SourceTxn>,
    unmatchedLedger: seq<LedgerTxn>)

  // ---------------------------------------------------------------------
  // Tolerance predicates (checkDateMatch, checkAmountMatch)
  // ---------------------------------------------------------------------

  /** `|a - p| / p <= tol`, evaluated as in JavaScript: dividing by a zero
      `p` gives NaN or Infinity, and neither compares `<=` a finite
      tolerance, so a zero `p` never fits. */
  predicate WithinTolerance(a: real, p: real, tol: real) {
    p != 0.0 && Abs(a - p) / p <= tol
  }

  /** The same test without division, for a positive reference amount. */
  lemma WithinToleranceMul(a: real, p: real, tol: real)
    requires p > 0.0
    ensures WithinTolerance(a, p, tol) <==> Abs(a - p) <= tol * p
  {
    var d := Abs(a - p);
    assert d / p * p == d;
    if d / p <= tol {
      assert d / p * p <= tol * p;
    } else {
      assert d / p * p > tol * p;
    }
  }

  /** An Amazon order paid in more than one split payment. */
  predicate IsSplitOrder(src: SourceTxn) {
    src.csvType == Some(Amazon) && |src.splits| > 1
  }

  /** checkDateMatch: the ledger date parses and lies within
      `daysTolerance` days of the CSV date (fractional days allowed). */
  predicate DateMatches(src: SourceTxn, l: LedgerTxn, cfg: Config) {
    l.date.Some? && Abs(src.date - l.date.value) <= cfg.daysTolerance
  }

  /** checkAmountMatch. Only `amountToleranceExact` is read. A split order
      matches when some split amount (compared as written, without taking
      its absolute value) or the absolute order total is within tolerance
      of the absolute ledger amount. */
  predicate AmountMatches(src: SourceTxn, l: LedgerTxn, cfg: Config) {
    var p := Abs(l.amount);
    var tol := cfg.amountToleranceExact;
    if p == 0.0 then false
    else if IsSplitOrder(src) then
      (exists k :: 0 <= k < |src.splits| && WithinTolerance(src.splits[k], p, tol))
      || WithinTolerance(Abs(src.amount), p, tol)
    else WithinTolerance(Abs(src.amount), p, tol)
  }

  /** The filter applied to each ledger transaction by findPotentialMatches. */
  predicate IsCandidate(src: SourceTxn, l: LedgerTxn, cfg: Config) {
    !(src.csvType == Some(Amazon) && l.amount < 0.0) && DateMatches(src, l, cfg) && AmountMatches(src, l, cfg)
  }

  /** For a transaction that is not a split order, candidacy is exactly the
      two tolerance conditions, with the amount condition stated without
      division: a non-zero ledger amount whose absolute value differs from
      the CSV amount's by at most `amountToleranceExact` times itself. */
  lemma CandidateTolerance(src: SourceTxn, l: LedgerTxn, cfg: Config)
    requires !IsSplitOrder(src)
    ensures IsCandidate(src, l, cfg) <==>
      && !(src.csvType == Some(Amazon) && l.amount < 0.0)
      && l.date.Some? && Abs(src.date - l.date.value) <= cfg.daysTolerance
      && l.amount != 0.0
      && Abs(Abs(src.amount) - Abs(l.amount)) <= cfg.amountToleranceExact * Abs(l.amount)
  {
    if l.amount != 0.0 {
      WithinToleranceMul(Abs(src.amount), Abs(l.amount), cfg.amountToleranceExact);
      assert Abs(Abs(src.amount) - Abs(l.amount)) == Abs(Abs(l.amount) - Abs(src.amount));
    }
  }

  /** Neither the foreign-currency flag nor the foreign tolerance takes
      part in candidacy. */
  lemma ForeignCurrencyIgnored(src: SourceTxn, l: LedgerTxn, cfg: Config, foreign: bool, foreignTolerance: real)
    ensures IsCandidate(src.(isForeignCurrency := foreign), l, cfg.(amountToleranceForeignPercent := foreignTolerance))
        == IsCandidate(src, l, cfg)
  {
    var src' := src.(isForeignCurrency := foreign);
    var cfg' := cfg.(amountToleranceForeignPercent := foreignTolerance);
    assert IsSplitOrder(src') == IsSplitOrder(src);
    assert DateMatches(src', l, cfg') == DateMatches(src, l, cfg);
    assert AmountMatches(src', l, cfg') == AmountMatches(src, l, cfg);
  }

  // ---------------------------------------------------------------------
  // findPotentialMatches
  // ---------------------------------------------------------------------

  /** The candidate list of `src`, in ledger-list order. */
  function Candidates(src: SourceTxn, ledger: seq<LedgerTxn>, cfg: Config): seq<TxnMatch>
    decreases |ledger|
  {
    if ledger == [] then []
    else
      Candidates(src, ledger[..|ledger| - 1], cfg)
      + (if IsCandidate(src, Last(ledger), cfg) then [TxnMatch(src, Last(ledger), 1)] else [])
  }

  /** A pairing is in the candidate list exactly when its ledger
      transaction is in the list and passes the filter; it always carries
      the source and score 1. */
  lemma {:induction false} CandidatesIff(src: SourceTxn, ledger: seq<LedgerTxn>, cfg: Config, m: TxnMatch)
    ensures m in Candidates(src, ledger, cfg) <==>
      m.source == src && m.score == 1 && m.ledger in ledger && IsCandidate(src, m.ledger, cfg)
    decreases |ledger|
  {
    if ledger != [] {
      var init := ledger[..|ledger| - 1];
      CandidatesIff(src, init, cfg, m);
      assert ledger == init + [Last(ledger)];
    }
  }

  /** Ledger transactions with a zero amount, an unparseable date, or (for
      Amazon sources) a negative amount are never candidates. */
  lemma NeverCandidate(src: SourceTxn, ledger: seq<LedgerTxn>, cfg: Config, m: TxnMatch)
    requires m.ledger.amount == 0.0 || m.ledger.date.None? || (src.csvType == Some(Amazon) && m.ledger.amount < 0.0)
    ensures m !in Candidates(src, ledger, cfg)
  {
    CandidatesIff(src, ledger, cfg, m);
  }

  method FindPotentialMatches(src: SourceTxn, ledger: seq<LedgerTxn>, cfg: Config) returns (potential: seq<TxnMatch>)
    ensures potential == Candidates(src, ledger, cfg)
  {
    potential := [];
    for j := 0 to |ledger|
      invariant potential == Candidates(src, ledger[..j], cfg)
    {
      assert ledger[..j + 1][..j] == ledger[..j];
      if IsCandidate(src, ledger[j], cfg) {
        potential := potential + [TxnMatch(src, ledger[j], 1)];
      }
    }
    assert ledger[..|ledger|] == ledger;
  }

  // ---------------------------------------------------------------------
  // Helpers over lists of pairings
  // ---------------------------------------------------------------------

  function IdsOf(ms: seq<TxnMatch>): set<int> {
    set m | m in ms :: m.ledger.id
  }

  /** No ledger id occurs twice. */
  predicate DistinctIds(ms: seq<TxnMatch>) {
    forall i, j :: 0 <= i < j < |ms| ==> ms[i].ledger.id != ms[j].ledger.id
  }

  /** The pairings whose ledger id is not yet used (an array `filter`). */
  function Available(cands: seq<TxnMatch>, used: set<int>): seq<TxnMatch> {
    if cands == [] then []
    else (if cands[0].ledger.id in used then [] else [cands[0]]) + Available(cands[1..], used)
  }

  /** The available list is empty exactly when every candidate is used,
      and otherwise starts with the first unused candidate. */
  lemma {:induction false} AvailableFirst(cands: seq<TxnMatch>, used: set<int>)
    ensures Available(cands, used) == [] <==> forall m :: m in cands ==> m.ledger.id in used
    ensures Available(cands, used) != [] ==>
      exists k :: 0 <= k < |cands| && Available(cands, used)[0] == cands[k]
        && cands[k].ledger.id !in used
        && forall j :: 0 <= j < k ==> cands[j].ledger.id in used
  {
    if cands != [] {
      AvailableFirst(cands[1..], used);
      if cands[0].ledger.id in used && Available(cands, used) != [] {
        var k :| 0 <= k < |cands[1..]| && Available(cands[1..], used)[0] == cands[1..][k]
          && cands[1..][k].ledger.id !in used
          && forall j :: 0 <= j < k ==> cands[1..][j].ledger.id in used;
        assert Available(cands, used)[0] == cands[k + 1];
        forall j | 0 <= j < k + 1 ensures cands[j].ledger.id in used {
          if j > 0 { assert cands[j] == cands[1..][j - 1]; }
        }
      }
      forall m | m in cands[1..] ensures m in cands { }
      forall m | m in cands && m != cands[0] ensures m in cands[1..] {
        var i :| 0 <= i < |cands| && cands[i] == m;
        assert cands[1..][i - 1] == m;
      }
    }
  }

  /** Every available pairing is an unused candidate. */
  lemma {:induction false} AvailableSub(cands: seq<TxnMatch>, used: set<int>)
    ensures forall m :: m in Available(cands, used) ==> m in cands && m.ledger.id !in used
  {
    if cands != [] {
      AvailableSub(cands[1..], used);
      forall m | m in cands[1..] ensures m in cands { }
    }
  }

  /** The first element as a list of at most one element. */
  function FirstOf(s: seq<TxnMatch>): seq<TxnMatch> {
    if s == [] then [] else [s[0]]
  }

  // ---------------------------------------------------------------------
  // Split orders
  // ---------------------------------------------------------------------

  /** The first split index at or after `k` that is not yet matched and
      whose amount is within tolerance of `p`. */
  function FirstFreeSplit(splits: seq<real>, taken: set<nat>, p: real, tol: real, k: nat): (r: Option<nat>)
    ensures r.Some? ==> k <= r.value < |splits| && r.value !in taken && WithinTolerance(splits[r.value], p, tol)
    ensures r.Some? ==> forall j :: k <= j < r.value ==> j in taken || !WithinTolerance(splits[j], p, tol)
    ensures r.None? ==> forall j :: k <= j < |splits| ==> j in taken || !WithinTolerance(splits[j], p, tol)
    decreases |splits| - k
  {
    if k >= |splits| then None
    else if k !in taken && WithinTolerance(splits[k], p, tol) then Some(k)
    else FirstFreeSplit(splits, taken, p, tol, k + 1)
  }

  /** The inner loop over split indices, up to its `break`. */
  method FindFreeSplit(splits: seq<real>, taken: set<nat>, p: real, tol: real) returns (r: Option<nat>)
    ensures r == FirstFreeSplit(splits, taken, p, tol, 0)
  {
    var i := 0;
    while i < |splits|
      invariant 0 <= i <= |splits|
      invariant FirstFreeSplit(splits, taken, p, tol, 0) == FirstFreeSplit(splits, taken, p, tol, i)
    {
      if i !in taken && WithinTolerance(splits[i], p, tol) {
        return Some(i);
      }
      i := i + 1;
    }
    r := None;
  }

  /** The state of the pass over the candidates of a split order: the
      pairings taken for this order, the used ledger ids, and the split
      indices already matched. */
  datatype SplitScan = SplitScan(found: seq<TxnMatch>, used: set<int>, taken: set<nat>)

  function SplitStep(st: SplitScan, m: TxnMatch, splits: seq<real>, tol: real): SplitScan {
    if m.ledger.id in st.used then st
    else
      match FirstFreeSplit(splits, st.taken, Abs(m.ledger.amount), tol, 0)
      case None => st
      case Some(i) => SplitScan(st.found + [m], st.used + {m.ledger.id}, st.taken + {i})
  }

  /** The outer loop over the candidates of a split order. */
  function ScanSplits(cands: seq<TxnMatch>, splits: seq<real>, tol: real, used: set<int>): SplitScan
    decreases |cands|
  {
    if cands == [] then SplitScan([], used, {})
    else SplitStep(ScanSplits(cands[..|cands| - 1], splits, tol, used), Last(cands), splits, tol)
  }

  /** The split indices 0 .. n-1. */
  function SplitIndices(n: nat): set<nat> {
    if n == 0 then {} else SplitIndices(n - 1) + {n - 1}
  }

  lemma {:induction false} SplitIndicesCard(n: nat)
    ensures |SplitIndices(n)| == n
    ensures forall k: nat :: k in SplitIndices(n) <==> k < n
  {
    if n > 0 {
      SplitIndicesCard(n - 1);
      assert SplitIndices(n) == SplitIndices(n - 1) + {n - 1};
      assert n - 1 !in SplitIndices(n - 1);
    }
  }

  lemma SubsetCard(a: set<nat>, b: set<nat>)
    requires a <= b
    ensures |a| <= |b|
  {
    assert b == a + (b - a);
    assert a * (b - a) == {};
  }

  /** The pass over a split order's candidates takes only unused
      candidates, never two with the same id, records their ids as used,
      and matches each split index at most once: one index per pairing
      taken. */
  lemma {:induction false} ScanSplitsInvariant(cands: seq<TxnMatch>, splits: seq<real>, tol: real, used: set<int>)
    ensures var sc := ScanSplits(cands, splits, tol, used);
      && (forall m :: m in sc.found ==> m in cands && m.ledger.id !in used)
      && DistinctIds(sc.found)
      && sc.used == used + IdsOf(sc.found)
      && |sc.taken| == |sc.found|
      && (forall k :: k in sc.taken ==> k < |splits|)
    decreases |cands|
  {
    if cands != [] {
      var init := cands[..|cands| - 1];
      ScanSplitsInvariant(init, splits, tol, used);
      var st := ScanSplits(init, splits, tol, used);
      var m := Last(cands);
      assert cands == init + [m];
      forall x | x in init ensures x in cands { }
      if m.ledger.id !in st.used {
        match FirstFreeSplit(splits, st.taken, Abs(m.ledger.amount), tol, 0)
        case None =>
        case Some(i) =>
          var found' := st.found + [m];
          assert m.ledger.id !in IdsOf(st.found);
          forall a, b | 0 <= a < b < |found'| ensures found'[a].ledger.id != found'[b].ledger.id {
            if b == |st.found| {
              assert found'[a] in st.found;
            }
          }
          assert IdsOf(found') == IdsOf(st.found) + {m.ledger.id};
      }
    }
  }

  /** Each pairing of the split pass is matched to a split payment of its
      own: `splitOf[k]` is the split index recorded for the k-th pairing.
      These indices are distinct, they are exactly the matched indices, and
      each split amount is within tolerance of its pairing's absolute
      ledger amount. */
  lemma {:induction false} ScanSplitsPairing(cands: seq<TxnMatch>, splits: seq<real>, tol: real, used: set<int>)
    returns (splitOf: seq<nat>)
    ensures var sc := ScanSplits(cands, splits, tol, used);
      && |splitOf| == |sc.found|
      && (forall k :: 0 <= k < |splitOf| ==>
            splitOf[k] < |splits| && splitOf[k] in sc.taken
            && WithinTolerance(splits[splitOf[k]], Abs(sc.found[k].ledger.amount), tol))
      && (forall k1, k2 :: 0 <= k1 < k2 < |splitOf| ==> splitOf[k1] != splitOf[k2])
      && (forall i :: i in sc.taken ==> i in splitOf)
    decreases |cands|
  {
    if cands == [] {
      splitOf := [];
    } else {
      var init := cands[..|cands| - 1];
      var prev := ScanSplitsPairing(init, splits, tol, used);
      var st := ScanSplits(init, splits, tol, used);
      var m := Last(cands);
      splitOf := prev;
      if m.ledger.id !in st.used {
        match FirstFreeSplit(splits, st.taken, Abs(m.ledger.amount), tol, 0)
        case None =>
        case Some(i) =>
          splitOf := prev + [i];
          assert ScanSplits(cands, splits, tol, used).found == st.found + [m];
      }
    }
  }

  /** A split order never receives more pairings than it has split
      payments. */
  lemma SplitMatchesBounded(cands: seq<TxnMatch>, splits: seq<real>, tol: real, used: set<int>)
    ensures |ScanSplits(cands, splits, tol, used).found| <= |splits|
  {
    ScanSplitsInvariant(cands, splits, tol, used);
    SplitIndicesCard(|splits|);
    var sc := ScanSplits(cands, splits, tol, used);
    SubsetCard(sc.taken, SplitIndices(|splits|));
  }

  // ---------------------------------------------------------------------
  // matchTransactions
  // ---------------------------------------------------------------------

  /** The pairings one source takes, given the ledger ids used so far: for
      a split order, one pairing per split matched, or, when no split
      matched, the first unused candidate (which matched on the order
      total); for any other source, the first unused candidate. An empty
      result means the source goes to `unmatchedCSV`. */
  function Decide(src: SourceTxn, cands: seq<TxnMatch>, tol: real, used: set<int>): seq<TxnMatch> {
    if IsSplitOrder(src) then
      var sc := ScanSplits(cands, src.splits, tol, used);
      if sc.found != [] then sc.found else FirstOf(Available(cands, used))
    else FirstOf(Available(cands, used))
  }

  /** What a source takes is drawn from its candidates, is free of
      repeated ids and uses no id taken before. */
  lemma DecideFresh(src: SourceTxn, cands: seq<TxnMatch>, tol: real, used: set<int>)
    ensures var picked := Decide(src, cands, tol, used);
      && (forall m :: m in picked ==> m in cands && m.ledger.id !in used)
      && DistinctIds(picked)
  {
    ScanSplitsInvariant(cands, src.splits, tol, used);
    AvailableSub(cands, used);
  }

  /** A source that is not a split order takes the first candidate, in
      ledger-list order, whose id is not yet used; it takes nothing exactly
      when every candidate's id is used. */
  lemma DecideFirstFit(src: SourceTxn, cands: seq<TxnMatch>, tol: real, used: set<int>)
    requires !IsSplitOrder(src)
    ensures var picked := Decide(src, cands, tol, used);
      && |picked| <= 1
      && (picked == [] <==> forall m :: m in cands ==> m.ledger.id in used)
      && (picked != [] ==>
            exists k :: 0 <= k < |cands| && picked == [cands[k]] && cands[k].ledger.id !in used
              && forall j :: 0 <= j < k ==> cands[j].ledger.id in used)
  {
    AvailableFirst(cands, used);
  }

  /** A split order takes at most one pairing per split payment; it falls
      back to a single candidate only when no split matched, and is
      unmatched only when, in addition, every candidate is used. */
  lemma DecideSplit(src: SourceTxn, cands: seq<TxnMatch>, tol: real, used: set<int>)
    requires IsSplitOrder(src)
    ensures var picked := Decide(src, cands, tol, used);
      var sc := ScanSplits(cands, src.splits, tol, used);
      && |picked| <= |src.splits|
      && (sc.found != [] ==> picked == sc.found)
      && (sc.found == [] ==> |picked| <= 1)
      && (picked == [] <==> sc.found == [] && forall m :: m in cands ==> m.ledger.id in used)
  {
    SplitMatchesBounded(cands, src.splits, tol, used);
    AvailableFirst(cands, used);
  }

  /** The pass over a split order's candidates: each unused candidate is
      paired with the first unmatched split payment within tolerance of
      its absolute amount, if any. */
  method MatchSplitPayments(potential: seq<TxnMatch>, splits: seq<real>, tol: real, used0: set<int>)
    returns (matchesForThisOrder: seq<TxnMatch>, used: set<int>, splitPaymentsMatched: set<nat>)
    ensures SplitScan(matchesForThisOrder, used, splitPaymentsMatched) == ScanSplits(potential, splits, tol, used0)
  {
    matchesForThisOrder, used, splitPaymentsMatched := [], used0, {};
    for j := 0 to |potential|
      invariant ScanSplits(potential[..j], splits, tol, used0)
             == SplitScan(matchesForThisOrder, used, splitPaymentsMatched)
    {
      var m := potential[j];
      assert potential[..j + 1][..j] == potential[..j];
      if m.ledger.id !in used {
        var psAmount := Abs(m.ledger.amount);
        var hit := FindFreeSplit(splits, splitPaymentsMatched, psAmount, tol);
        if hit.Some? {
          matchesForThisOrder := matchesForThisOrder + [m];
          splitPaymentsMatched := splitPaymentsMatched + {hit.value};
          used := used + {m.ledger.id};
        }
      }
    }
    assert potential[..|potential|] == potential;
  }

  /** The progress of the pass over the sources: what each source took,
      and the used ledger ids. */
  datatype Progress = Progress(picks: seq<seq<TxnMatch>>, used: set<int>)

  function Run(srcs: seq<SourceTxn>, ledger: seq<LedgerTxn>, cfg: Config): (p: Progress)
    ensures |p.picks| == |srcs|
    decreases |srcs|
  {
    if srcs == [] then Progress([], {})
    else
      var prev := Run(srcs[..|srcs| - 1], ledger, cfg);
      var src := Last(srcs);
      var picked := Decide(src, Candidates(src, ledger, cfg), cfg.amountToleranceExact, prev.used);
      Progress(prev.picks + [picked], prev.used + IdsOf(picked))
  }

  /** All pairings, source by source (the pushes into successfulMatches). */
  function Flatten(picks: seq<seq<TxnMatch>>): seq<TxnMatch>
    decreases |picks|
  {
    if picks == [] then [] else Flatten(picks[..|picks| - 1]) + Last(picks)
  }

  /** The sources that took nothing, in input order. */
  function Unmatched(srcs: seq<SourceTxn>, picks: seq<seq<TxnMatch>>): seq<SourceTxn>
    requires |srcs| == |picks|
    decreases |srcs|
  {
    if srcs == [] then []
    else
      Unmatched(srcs[..|srcs| - 1], picks[..|picks| - 1])
      + (if Last(picks) == [] then [Last(srcs)] else [])
  }

  /** The sources that took at least one pairing, in input order. */
  function MatchedSources(srcs: seq<SourceTxn>, picks: seq<seq<TxnMatch>>): seq<SourceTxn>
    requires |srcs| == |picks|
    decreases |srcs|
  {
    if srcs == [] then []
    else
      MatchedSources(srcs[..|srcs| - 1], picks[..|picks| - 1])
      + (if Last(picks) != [] then [Last(srcs)] else [])
  }

  /** The ledger transactions whose id was never used, in ledger order. */
  function UnusedLedger(ledger: seq<LedgerTxn>, used: set<int>): seq<LedgerTxn> {
    if ledger == [] then []
    else (if ledger[0].id in used then [] else [ledger[0]]) + UnusedLedger(ledger[1..], used)
  }

  lemma {:induction false} UnusedLedgerIff(ledger: seq<LedgerTxn>, used: set<int>, l: LedgerTxn)
    ensures l in UnusedLedger(ledger, used) <==> l in ledger && l.id !in used
  {
    if ledger != [] {
      UnusedLedgerIff(ledger[1..], used, l);
      assert ledger == [ledger[0]] + ledger[1..];
    }
  }

  /** The result matchTransactions returns. */
  function Spec(srcs: seq<SourceTxn>, ledger: seq<LedgerTxn>, cfg: Config): MatchResult {
    var p := Run(srcs, ledger, cfg);
    MatchResult(Flatten(p.picks), Unmatched(srcs, p.picks), UnusedLedger(ledger, p.used))
  }

  /** The body of the loop over the sources: the pairings this source
      takes, pushed in order onto `successfulMatches` (none means the
      source is pushed onto `unmatchedCSV`), and the used ids afterwards. */
  method MatchSource(src: SourceTxn, potential: seq<TxnMatch>, tol: real, used0: set<int>)
    returns (taken: seq<TxnMatch>, used: set<int>)
    ensures taken == Decide(src, potential, tol, used0)
    ensures used == used0 + IdsOf(taken)
  {
    used := used0;
    if IsSplitOrder(src) {
      var matchesForThisOrder, splitPaymentsMatched;
      matchesForThisOrder, used, splitPaymentsMatched := MatchSplitPayments(potential, src.splits, tol, used);
      assert used == used0 + IdsOf(matchesForThisOrder) by {
        ScanSplitsInvariant(potential, src.splits, tol, used0);
      }
      if |matchesForThisOrder| > 0 {
        taken := matchesForThisOrder;
      } else {
        assert IdsOf(matchesForThisOrder) == {} && used == used0;
        var totalAmountMatches := Available(potential, used);
        if |totalAmountMatches| > 0 {
          var bestMatch := totalAmountMatches[0];
          taken := [bestMatch];
          used := used + {bestMatch.ledger.id};
        } else {
          taken := [];
        }
      }
    } else {
      var availableMatches := Available(potential, used);
      if |availableMatches| > 0 {
        var bestMatch := availableMatches[0];
        taken := [bestMatch];
        used := used + {bestMatch.ledger.id};
      } else {
        taken := [];
      }
    }
  }

  method MatchTransactions(srcs: seq<SourceTxn>, ledger: seq<LedgerTxn>, cfg: Config) returns (res: MatchResult)
    ensures res == Spec(srcs, ledger, cfg)
  {
    var successfulMatches: seq<TxnMatch> := [];
    var unmatchedCsv: seq<SourceTxn> := [];
    var used: set<int> := {};
    ghost var picks: seq<seq<TxnMatch>> := [];
    for i := 0 to |srcs|
      invariant Run(srcs[..i], ledger, cfg) == Progress(picks, used)
      invariant successfulMatches == Flatten(picks)
      invariant unmatchedCsv == Unmatched(srcs[..i], picks)
    {
      var src := srcs[i];
      assert srcs[..i + 1][..i] == srcs[..i];
      var potential := FindPotentialMatches(src, ledger, cfg);
      var taken;
      taken, used := MatchSource(src, potential, cfg.amountToleranceExact, used);
      if |taken| > 0 {
        successfulMatches := successfulMatches + taken;
      } else {
        unmatchedCsv := unmatchedCsv + [src];
      }
      assert (picks + [taken])[..|picks|] == picks;
      picks := picks + [taken];
    }
    assert srcs[..|srcs|] == srcs;
    var unmatchedPocketSmith := UnusedLedger(ledger, used);
    res := MatchResult(successfulMatches, unmatchedCsv, unmatchedPocketSmith);
  }

  // ---------------------------------------------------------------------
  // Properties of the result
  // ---------------------------------------------------------------------

  lemma DistinctAppend(a: seq<TxnMatch>, b: seq<TxnMatch>)
    requires DistinctIds(a) && DistinctIds(b)
    requires forall m :: m in b ==> m.ledger.id !in IdsOf(a)
    ensures DistinctIds(a + b)
  {
    var ab := a + b;
    forall i, j | 0 <= i < j < |ab| ensures ab[i].ledger.id != ab[j].ledger.id {
      if j >= |a| {
        assert ab[j] == b[j - |a|];
        if i < |a| {
          assert ab[i] in a;
        } else {
          assert ab[i] == b[i - |a|];
        }
      }
    }
  }

  lemma FlattenIds(a: seq<TxnMatch>, b: seq<TxnMatch>)
    ensures IdsOf(a + b) == IdsOf(a) + IdsOf(b)
  {
    forall m | m in a + b ensures m in a || m in b { }
  }

  /** The invariant of the pass over the sources: the used ids are
      exactly the ids of the pairings taken, no id is taken twice, and
      every pairing of source `i` is a candidate of source `i`. */
  lemma {:induction false} RunInvariant(srcs: seq<SourceTxn>, ledger: seq<LedgerTxn>, cfg: Config)
    ensures var p := Run(srcs, ledger, cfg);
      && p.used == IdsOf(Flatten(p.picks))
      && DistinctIds(Flatten(p.picks))
      && forall i, m :: 0 <= i < |srcs| && m in p.picks[i] ==> m in Candidates(srcs[i], ledger, cfg)
    decreases |srcs|
  {
    if srcs != [] {
      var init := srcs[..|srcs| - 1];
      RunInvariant(init, ledger, cfg);
      var prev := Run(init, ledger, cfg);
      var src := Last(srcs);
      var cands := Candidates(src, ledger, cfg);
      var picked := Decide(src, cands, cfg.amountToleranceExact, prev.used);
      var p := Run(srcs, ledger, cfg);
      DecideFresh(src, cands, cfg.amountToleranceExact, prev.used);
      assert p.picks == prev.picks + [picked];
      assert p.picks[..|p.picks| - 1] == prev.picks;
      assert Flatten(p.picks) == Flatten(prev.picks) + picked;
      DistinctAppend(Flatten(prev.picks), picked);
      FlattenIds(Flatten(prev.picks), picked);
      forall i, m | 0 <= i < |srcs| && m in p.picks[i] ensures m in Candidates(srcs[i], ledger, cfg) {
        if i < |init| {
          assert p.picks[i] == prev.picks[i];
          assert srcs[i] == init[i];
        }
      }
    }
  }

  /** No ledger id appears in two successful matches of one call. */
  lemma MatchedIdsDistinct(srcs: seq<SourceTxn>, ledger: seq<LedgerTxn>, cfg: Config)
    ensures DistinctIds(Spec(srcs, ledger, cfg).successfulMatches)
  {
    RunInvariant(srcs, ledger, cfg);
  }

  /** The matches of source `i` are listed consecutively after those of
      the sources before it. */
  lemma {:induction false} FlattenMember(picks: seq<seq<TxnMatch>>, m: TxnMatch)
    ensures m in Flatten(picks) <==> exists i :: 0 <= i < |picks| && m in picks[i]
    decreases |picks|
  {
    if picks != [] {
      var init := picks[..|picks| - 1];
      FlattenMember(init, m);
      assert Flatten(picks) == Flatten(init) + Last(picks);
      if m in Flatten(init) {
        var i :| 0 <= i < |init| && m in init[i];
        assert picks[i] == init[i];
      }
      if exists i :: 0 <= i < |picks| && m in picks[i] {
        var i :| 0 <= i < |picks| && m in picks[i];
        if i < |init| { assert init[i] == picks[i]; }
      }
    }
  }

  /** Every successful match pairs an input source with a ledger
      transaction of the list that passes the date and amount tolerances,
      and has score 1. */
  lemma MatchesAreCandidates(srcs: seq<SourceTxn>, ledger: seq<LedgerTxn>, cfg: Config, m: TxnMatch)
    requires m in Spec(srcs, ledger, cfg).successfulMatches
    ensures m.score == 1 && m.source in srcs && m.ledger in ledger
    ensures IsCandidate(m.source, m.ledger, cfg)
    ensures DateMatches(m.source, m.ledger, cfg) && AmountMatches(m.source, m.ledger, cfg)
  {
    var p := Run(srcs, ledger, cfg);
    RunInvariant(srcs, ledger, cfg);
    FlattenMember(p.picks, m);
    var i :| 0 <= i < |p.picks| && m in p.picks[i];
    CandidatesIff(srcs[i], ledger, cfg, m);
  }

  /** `unmatchedPocketSmith` holds exactly the ledger transactions whose
      id no successful match uses (`UnmatchedLedgerInOrder` adds their
      order and repeats). */
  lemma UnmatchedLedgerExact(srcs: seq<SourceTxn>, ledger: seq<LedgerTxn>, cfg: Config, l: LedgerTxn)
    ensures var r := Spec(srcs, ledger, cfg);
      l in r.unmatchedLedger <==> l in ledger && forall m :: m in r.successfulMatches ==> m.ledger.id != l.id
  {
    var p := Run(srcs, ledger, cfg);
    RunInvariant(srcs, ledger, cfg);
    UnusedLedgerIff(ledger, p.used, l);
  }

  /** The filter of a list is the filter of all but its last entry,
      followed by that entry when its id is unused. */
  lemma {:induction false} UnusedLedgerSnoc(ledger: seq<LedgerTxn>, used: set<int>)
    requires ledger != []
    ensures UnusedLedger(ledger, used)
      == UnusedLedger(ledger[..|ledger| - 1], used) + (if Last(ledger).id in used then [] else [Last(ledger)])
    decreases |ledger|
  {
    var n := |ledger| - 1;
    if n == 0 {
      assert ledger[1..] == [] && ledger[..n] == [];
    } else {
      var rest := ledger[1..];
      UnusedLedgerSnoc(rest, used);
      assert rest[..|rest| - 1] == ledger[..n][1..];
      assert Last(rest) == Last(ledger);
      assert ledger[..n][0] == ledger[0];
    }
  }

  /** `idx` lists, at strictly increasing positions of `ledger`, the
      entries of `u`, which are exactly the entries whose id is not in
      `used`. */
  predicate FilterPositions(ledger: seq<LedgerTxn>, used: set<int>, u: seq<LedgerTxn>, idx: seq<nat>) {
    && |idx| == |u|
    && (forall k :: 0 <= k < |idx| ==> idx[k] < |ledger| && u[k] == ledger[idx[k]] && ledger[idx[k]].id !in used)
    && (forall k1, k2 :: 0 <= k1 < k2 < |idx| ==> idx[k1] < idx[k2])
    && (forall i :: 0 <= i < |ledger| && ledger[i].id !in used ==> i in idx)
  }

  /** The positions of a filter extend with the list, one entry at a
      time. */
  lemma FilterPositionsSnoc(ledger: seq<LedgerTxn>, used: set<int>, up: seq<LedgerTxn>, prev: seq<nat>)
    requires ledger != []
    requires FilterPositions(ledger[..|ledger| - 1], used, up, prev)
    ensures var n := |ledger| - 1;
      FilterPositions(ledger, used, up + (if ledger[n].id in used then [] else [ledger[n]]),
                      if ledger[n].id in used then prev else prev + [n])
  {
    var n := |ledger| - 1;
    var u := up + (if ledger[n].id in used then [] else [ledger[n]]);
    var idx := if ledger[n].id in used then prev else prev + [n];
    forall k | 0 <= k < |idx|
      ensures idx[k] < |ledger| && u[k] == ledger[idx[k]] && ledger[idx[k]].id !in used
    {
      if k < |prev| {
        assert idx[k] == prev[k] && u[k] == up[k];
      }
    }
    forall i | 0 <= i < |ledger| && ledger[i].id !in used ensures i in idx {
      if i < n {
        assert ledger[..n][i] == ledger[i];
      }
    }
  }

  /** The unused filter keeps ledger order and repeats: it lists, at
      strictly increasing positions, the ledger entries whose id is not
      used, and every such position is listed. */
  lemma {:induction false} UnusedLedgerInOrder(ledger: seq<LedgerTxn>, used: set<int>) returns (idx: seq<nat>)
    ensures FilterPositions(ledger, used, UnusedLedger(ledger, used), idx)
    decreases |ledger|
  {
    if ledger == [] {
      idx := [];
    } else {
      var n := |ledger| - 1;
      var prev := UnusedLedgerInOrder(ledger[..n], used);
      UnusedLedgerSnoc(ledger, used);
      FilterPositionsSnoc(ledger, used, UnusedLedger(ledger[..n], used), prev);
      idx := if ledger[n].id in used then prev else prev + [n];
    }
  }

  /** `unmatchedPocketSmith` is the ledger list with the entries whose id
      a successful match uses removed, in ledger order and with repeats
      kept. */
  lemma UnmatchedLedgerInOrder(srcs: seq<SourceTxn>, ledger: seq<LedgerTxn>, cfg: Config) returns (idx: seq<nat>)
    ensures var r := Spec(srcs, ledger, cfg);
      && |idx| == |r.unmatchedLedger|
      && (forall k :: 0 <= k < |idx| ==>
            idx[k] < |ledger| && r.unmatchedLedger[k] == ledger[idx[k]]
            && ledger[idx[k]].id !in IdsOf(r.successfulMatches))
      && (forall k1, k2 :: 0 <= k1 < k2 < |idx| ==> idx[k1] < idx[k2])
      && (forall i :: 0 <= i < |ledger| && ledger[i].id !in IdsOf(r.successfulMatches) ==> i in idx)
  {
    var p := Run(srcs, ledger, cfg);
    RunInvariant(srcs, ledger, cfg);
    idx := UnusedLedgerInOrder(ledger, p.used);
  }

  /** Every source is either matched or in `unmatchedCSV`, never both:
      the two lists together are the input, counted with multiplicity. */
  lemma {:induction false} SourcePartition(srcs: seq<SourceTxn>, picks: seq<seq<TxnMatch>>)
    requires |srcs| == |picks|
    ensures multiset(Unmatched(srcs, picks)) + multiset(MatchedSources(srcs, picks)) == multiset(srcs)
    decreases |srcs|
  {
    if srcs != [] {
      var n := |srcs| - 1;
      SourcePartition(srcs[..n], picks[..n]);
      PartitionSnoc(srcs, Unmatched(srcs, picks), MatchedSources(srcs, picks),
                    Unmatched(srcs[..n], picks[..n]), MatchedSources(srcs[..n], picks[..n]), picks[n] != []);
    }
  }

  /** A partition of all but the last source extends to one of all the
      sources by adding the last source to exactly one side. */
  lemma PartitionSnoc(srcs: seq<SourceTxn>, u: seq<SourceTxn>, m: seq<SourceTxn>,
                      up: seq<SourceTxn>, mp: seq<SourceTxn>, took: bool)
    requires srcs != []
    requires multiset(up) + multiset(mp) == multiset(srcs[..|srcs| - 1])
    requires u == up + (if took then [] else [Last(srcs)])
    requires m == mp + (if took then [Last(srcs)] else [])
    ensures multiset(u) + multiset(m) == multiset(srcs)
  {
    assert srcs == srcs[..|srcs| - 1] + [Last(srcs)];
  }

  /** The matched sources and `unmatchedCSV` of one call partition its
      input. */
  lemma MatchPartitionsSources(srcs: seq<SourceTxn>, ledger: seq<LedgerTxn>, cfg: Config)
    ensures var p := Run(srcs, ledger, cfg);
      multiset(Spec(srcs, ledger, cfg).unmatchedCsv) + multiset(MatchedSources(srcs, p.picks)) == multiset(srcs)
  {
    SourcePartition(srcs, Run(srcs, ledger, cfg).picks);
  }

  /** Everything source `i` took is a pairing of that source with
      score 1. */
  lemma {:induction false} RunPicksOwnSource(srcs: seq<SourceTxn>, ledger: seq<LedgerTxn>, cfg: Config, i: nat)
    requires i < |srcs|
    ensures var p := Run(srcs, ledger, cfg);
      forall m :: m in p.picks[i] ==> m.source == srcs[i] && m.score == 1
  {
    RunInvariant(srcs, ledger, cfg);
    var p := Run(srcs, ledger, cfg);
    forall m | m in p.picks[i] ensures m.source == srcs[i] && m.score == 1 {
      CandidatesIff(srcs[i], ledger, cfg, m);
    }
  }

  /** `idx` lists, at strictly increasing positions, the entries of `u`,
      which are exactly the sources that took nothing. */
  predicate PicklessPositions(srcs: seq<SourceTxn>, picks: seq<seq<TxnMatch>>, u: seq<SourceTxn>, idx: seq<nat>)
    requires |srcs| == |picks|
  {
    && |idx| == |u|
    && (forall k :: 0 <= k < |idx| ==> idx[k] < |srcs| && u[k] == srcs[idx[k]] && picks[idx[k]] == [])
    && (forall k1, k2 :: 0 <= k1 < k2 < |idx| ==> idx[k1] < idx[k2])
    && (forall i :: 0 <= i < |srcs| && picks[i] == [] ==> i in idx)
  }

  /** The positions of the pickless sources extend with the input, one
      source at a time. */
  lemma PicklessPositionsSnoc(srcs: seq<SourceTxn>, picks: seq<seq<TxnMatch>>, up: seq<SourceTxn>, prev: seq<nat>,
                              u: seq<SourceTxn>) returns (idx: seq<nat>)
    requires |srcs| == |picks| && srcs != []
    requires PicklessPositions(srcs[..|srcs| - 1], picks[..|picks| - 1], up, prev)
    requires u == up + (if Last(picks) == [] then [Last(srcs)] else [])
    ensures PicklessPositions(srcs, picks, u, idx)
  {
    var n := |srcs| - 1;
    idx := if picks[n] == [] then prev + [n] else prev;
    forall k | 0 <= k < |idx|
      ensures idx[k] < |srcs| && u[k] == srcs[idx[k]] && picks[idx[k]] == []
    {
      if k < |prev| {
        assert idx[k] == prev[k] && u[k] == up[k];
        assert picks[..n][prev[k]] == picks[prev[k]];
      }
    }
    forall i | 0 <= i < |srcs| && picks[i] == [] ensures i in idx {
      if i < n {
        assert picks[..n][i] == picks[i];
      }
    }
  }

  /** `unmatchedCSV` keeps input order: it is the sources that took
      nothing, listed at strictly increasing input positions, and every
      source that took nothing is listed. */
  lemma {:induction false} UnmatchedInOrder(srcs: seq<SourceTxn>, picks: seq<seq<TxnMatch>>) returns (idx: seq<nat>)
    requires |srcs| == |picks|
    ensures PicklessPositions(srcs, picks, Unmatched(srcs, picks), idx)
    decreases |srcs|
  {
    if srcs == [] {
      idx := [];
    } else {
      var prev := UnmatchedInOrder(srcs[..|srcs| - 1], picks[..|picks| - 1]);
      idx := PicklessPositionsSnoc(srcs, picks, Unmatched(srcs[..|srcs| - 1], picks[..|picks| - 1]), prev,
                                   Unmatched(srcs, picks));
    }
  }

  /** What source `i` takes is decided against the ids used by the sources
      before it. */
  lemma {:induction false} RunPick(srcs: seq<SourceTxn>, ledger: seq<LedgerTxn>, cfg: Config, i: nat)
    requires i < |srcs|
    ensures Run(srcs, ledger, cfg).picks[i] ==
      Decide(srcs[i], Candidates(srcs[i], ledger, cfg), cfg.amountToleranceExact, Run(srcs[..i], ledger, cfg).used)
    decreases |srcs|
  {
    var n := |srcs| - 1;
    var init := srcs[..n];
    var prev := Run(init, ledger, cfg);
    var picked := Decide(srcs[n], Candidates(srcs[n], ledger, cfg), cfg.amountToleranceExact, prev.used);
    assert Run(srcs, ledger, cfg) == Progress(prev.picks + [picked], prev.used + IdsOf(picked));
    if i < n {
      RunPick(init, ledger, cfg, i);
      assert init[..i] == srcs[..i] && init[i] == srcs[i];
      assert Run(srcs, ledger, cfg).picks[i] == prev.picks[i];
    } else {
      assert srcs[..i] == init;
    }
  }

  /** A source that is not a split order ends up in exactly one place:
      it takes a single pairing (the first candidate whose id no earlier
      source used), or, when every candidate's id is already used, it is
      listed in `unmatchedCSV`. */
  lemma NonSplitExactlyOne(srcs: seq<SourceTxn>, ledger: seq<LedgerTxn>, cfg: Config, i: nat)
    requires i < |srcs| && !IsSplitOrder(srcs[i])
    ensures var p := Run(srcs, ledger, cfg);
      var usedBefore := Run(srcs[..i], ledger, cfg).used;
      && |p.picks[i]| <= 1
      && (p.picks[i] == [] <==> forall m :: m in Candidates(srcs[i], ledger, cfg) ==> m.ledger.id in usedBefore)
      && (p.picks[i] != [] ==> p.picks[i][0] in Candidates(srcs[i], ledger, cfg) && p.picks[i][0].ledger.id !in usedBefore)
  {
    var cands := Candidates(srcs[i], ledger, cfg);
    var usedBefore := Run(srcs[..i], ledger, cfg).used;
    RunPick(srcs, ledger, cfg, i);
    DecideFirstFit(srcs[i], cands, cfg.amountToleranceExact, usedBefore);
  }

  /** A pass over a split order's candidates that matched no split took
      nothing and found no split within tolerance of any unused
      candidate. */
  lemma {:induction false} ScanNothingFound(cands: seq<TxnMatch>, splits: seq<real>, tol: real, used: set<int>)
    requires ScanSplits(cands, splits, tol, used).found == []
    ensures ScanSplits(cands, splits, tol, used).taken == {}
    ensures ScanSplits(cands, splits, tol, used).used == used
    ensures forall m :: m in cands && m.ledger.id !in used ==> FirstFreeSplit(splits, {}, Abs(m.ledger.amount), tol, 0).None?
    decreases |cands|
  {
    if cands != [] {
      var init := cands[..|cands| - 1];
      assert ScanSplits(init, splits, tol, used).found == [];
      ScanNothingFound(init, splits, tol, used);
      assert cands == init + [Last(cands)];
    }
  }

  /** The total-amount fallback of a split order takes a candidate that
      matched on the order total: no split payment is within tolerance of
      it. */
  lemma SplitFallbackMatchesTotal(src: SourceTxn, ledger: seq<LedgerTxn>, cfg: Config, used: set<int>)
    requires IsSplitOrder(src)
    ensures var cands := Candidates(src, ledger, cfg);
      var tol := cfg.amountToleranceExact;
      var picked := Decide(src, cands, tol, used);
      ScanSplits(cands, src.splits, tol, used).found == [] && picked != [] ==>
        |picked| == 1
        && (forall k :: 0 <= k < |src.splits| ==> !WithinTolerance(src.splits[k], Abs(picked[0].ledger.amount), tol))
        && WithinTolerance(Abs(src.amount), Abs(picked[0].ledger.amount), tol)
  {
    var cands := Candidates(src, ledger, cfg);
    var tol := cfg.amountToleranceExact;
    var picked := Decide(src, cands, tol, used);
    if ScanSplits(cands, src.splits, tol, used).found == [] && picked != [] {
      AvailableSub(cands, used);
      var m := picked[0];
      assert m in Available(cands, used);
      CandidatesIff(src, ledger, cfg, m);
      ScanNothingFound(cands, src.splits, tol, used);
      assert FirstFreeSplit(src.splits, {}, Abs(m.ledger.amount), tol, 0).None?;
    }
  }
}
