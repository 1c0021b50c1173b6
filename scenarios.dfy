/** Worked examples of the matching engine under the default configuration
    (2 days, 0.01), with dates as day numbers. */
module Scenarios {
  import opened Types
  import opened MatchingService

  function PayPalTxn(amount: real, date: real): SourceTxn {
    SourceTxn(date, "", amount, "Shop", [], "paypal.csv", Some(PayPal), false, [], None, None, false)
  }

  /** A call with a single CSV transaction: it takes what `Decide` picks
      against no used ids, is unmatched iff that is nothing, and leaves the
      ledger transactions whose ids it did not take. */
  lemma SingleSource(src: SourceTxn, ledger: seq<LedgerTxn>, cfg: Config)
    ensures var picked := Decide(src, Candidates(src, ledger, cfg), cfg.amountToleranceExact, {});
      Spec([src], ledger, cfg)
        == MatchResult(picked, if picked == [] then [src] else [], UnusedLedger(ledger, IdsOf(picked)))
  {
    var picked := Decide(src, Candidates(src, ledger, cfg), cfg.amountToleranceExact, {});
    assert [src][..0] == [];
    assert Run([src], ledger, cfg) == Progress([picked], IdsOf(picked));
    assert [picked][..0] == [];
    assert Flatten([picked]) == picked;
    assert Unmatched([src], [picked]) == (if picked == [] then [src] else []);
  }

  /** A PayPal payment of -45.00 on day 0 and a ledger charge of -45.00 on
      day 1 are paired: one day apart, no amount difference. */
  lemma ExactAmountMatches()
    ensures var src := PayPalTxn(-45.0, 0.0);
      var l := LedgerTxn(7, -45.0, Some(1.0), "PAYPAL");
      Spec([src], [l], DefaultConfig()) == MatchResult([TxnMatch(src, l, 1)], [], [])
  {
    var src := PayPalTxn(-45.0, 0.0);
    var l := LedgerTxn(7, -45.0, Some(1.0), "PAYPAL");
    var cfg := DefaultConfig();
    var m := TxnMatch(src, l, 1);
    assert [l][..0] == [];
    assert IsCandidate(src, l, cfg);
    assert Candidates(src, [l], cfg) == [m];
    assert [m][1..] == [];
    assert Available([m], {}) == [m];
    assert Decide(src, [m], 0.01, {}) == [m];
    SingleSource(src, [l], cfg);
    assert IdsOf([m]) == {7};
    assert UnusedLedger([l], {7}) == [];
  }

  /** The same payment against a ledger amount of 50.00 is left unmatched
      (a difference of about 11% of the ledger amount exceeds 1%), and so
      is the ledger transaction. */
  lemma AmountOutsideToleranceRejected()
    ensures var src := PayPalTxn(-45.0, 0.0);
      var l := LedgerTxn(7, 50.0, Some(1.0), "PAYPAL");
      Spec([src], [l], DefaultConfig()) == MatchResult([], [src], [l])
  {
    var src := PayPalTxn(-45.0, 0.0);
    var l := LedgerTxn(7, 50.0, Some(1.0), "PAYPAL");
    var cfg := DefaultConfig();
    assert [l][..0] == [];
    WithinToleranceMul(45.0, 50.0, 0.01);
    assert !IsCandidate(src, l, cfg);
    assert Candidates(src, [l], cfg) == [];
    assert Decide(src, [], 0.01, {}) == [];
    SingleSource(src, [l], cfg);
    assert IdsOf([]) == {};
    assert [l][1..] == [];
    assert UnusedLedger([l], {}) == [l];
  }

  /** An Amazon order of 19.75 paid as splits 12.50 and 7.25, against
      ledger charges of 12.50 and 7.25 on the same day, yields two matches,
      both for that order. */
  lemma SplitOrderTwoMatches()
    ensures var order := SourceTxn(0.0, "Order", 19.75, "Amazon", [], "amazon.csv", Some(Amazon), false, [12.5, 7.25], None, None, false);
      var l1 := LedgerTxn(1, 12.5, Some(0.0), "AMAZON");
      var l2 := LedgerTxn(2, 7.25, Some(0.0), "AMAZON");
      Spec([order], [l1, l2], DefaultConfig()).successfulMatches == [TxnMatch(order, l1, 1), TxnMatch(order, l2, 1)]
  {
    var order := SourceTxn(0.0, "Order", 19.75, "Amazon", [], "amazon.csv", Some(Amazon), false, [12.5, 7.25], None, None, false);
    var l1 := LedgerTxn(1, 12.5, Some(0.0), "AMAZON");
    var l2 := LedgerTxn(2, 7.25, Some(0.0), "AMAZON");
    var cfg := DefaultConfig();
    var m1 := TxnMatch(order, l1, 1);
    var m2 := TxnMatch(order, l2, 1);
    assert [l1, l2][..1] == [l1] && [l1][..0] == [];
    assert WithinTolerance(order.splits[0], 12.5, 0.01);
    assert WithinTolerance(order.splits[1], 7.25, 0.01);
    assert IsCandidate(order, l1, cfg) && IsCandidate(order, l2, cfg);
    assert Candidates(order, [l1], cfg) == [m1];
    assert Candidates(order, [l1, l2], cfg) == [m1, m2];
    assert [m1, m2][..1] == [m1] && [m1][..0] == [];
    WithinToleranceMul(12.5, 7.25, 0.01);
    assert FirstFreeSplit([12.5, 7.25], {}, 12.5, 0.01, 0) == Some(0);
    assert FirstFreeSplit([12.5, 7.25], {0}, 7.25, 0.01, 0) == Some(1);
    assert ScanSplits([m1], order.splits, 0.01, {}) == SplitScan([m1], {1}, {0});
    assert ScanSplits([m1, m2], order.splits, 0.01, {}).found == [m1, m2];
    assert Decide(order, [m1, m2], 0.01, {}) == [m1, m2];
    SingleSource(order, [l1, l2], cfg);
  }
}
