/** The input check of the tracker's "Add Transaction" menu option. The
    prompts, the parsing of the typed text and the other options are not
    modelled; the type code arrives already lower-cased and the amount
    already parsed. */
module Menu {
  import opened Ledger
  import opened Aggregate
  import opened Tracker

  datatype InputError = InvalidTransactionType | InvalidAmount

  datatype Verdict = Accepted | Rejected(error: InputError)

  /** The menu's acceptance rule: the type code is checked first and must
      be "c" or "d"; then the amount must not be negative. */
  function Admit(code: string, amount: real): (v: Verdict)
    ensures v == Accepted <==> (code == "c" || code == "d") && amount >= 0.0
    ensures v == Rejected(InvalidTransactionType) <==> code != "c" && code != "d"
    ensures v == Rejected(InvalidAmount) <==> (code == "c" || code == "d") && amount < 0.0
  {
    if code != "c" && code != "d" then Rejected(InvalidTransactionType)
    else if amount < 0.0 then Rejected(InvalidAmount)
    else Accepted
  }

  /** One pass through the "Add Transaction" option: a rejected input
      leaves the ledger and the data file as they were; an accepted one is
      appended. */
  method SubmitTransaction(tracker: FinanceTracker, code: string, amount: real, category: string)
    returns (v: Verdict)
    requires tracker.Valid()
    modifies tracker
    ensures tracker.Valid()
    ensures v == Admit(code, amount)
    ensures v.Rejected? ==> tracker.transactions == old(tracker.transactions) && tracker.saved == old(tracker.saved)
    ensures v.Accepted? ==> tracker.transactions == old(tracker.transactions) + [Transaction(amount, category, KindOf(code))]
  {
    v := Admit(code, amount);
    if v.Accepted? {
      tracker.AddTransaction(amount, category, code);
    }
  }

  /** Accepted input keeps every recorded amount non-negative, so the
      totals and the category values stay non-negative too. */
  lemma AdmittedKeepsNonNegative(ts: seq<Transaction>, code: string, amount: real, category: string)
    requires AllNonNegative(ts)
    requires Admit(code, amount) == Accepted
    ensures AllNonNegative(ts + [Transaction(amount, category, KindOf(code))])
    ensures KindOf(code) == (if code == "c" then Credit else Debit)
  {
  }

  /** The ledger of the example session below. */
  const ExampleLedger: seq<Transaction> :=
    [Transaction(1000.0, "salary", Credit), Transaction(200.0, "groceries", Debit), Transaction(50.0, "rent", Debit)]

  lemma ExampleFigures()
    ensures Summarize(ExampleLedger) == Summary(1000.0, 250.0, 750.0)
    ensures Breakdown(ExampleLedger) == map["groceries" := 200.0, "rent" := 50.0]
  {
    var ts := ExampleLedger;
    assert [ts[0]] == ts[..1] && ts[..1] + [ts[1]] == ts[..2] && ts[..2] + [ts[2]] == ts;
    AppendSummary([], ts[0]);
    AppendSummary(ts[..1], ts[1]);
    AppendSummary(ts[..2], ts[2]);
    assert Breakdown(ts[..1]) == map[];
    assert Breakdown(ts[..2]) == map["groceries" := 200.0];
  }

  /** A session from an empty data file: a salary credit and two debits,
      then a rejected negative amount. */
  method ExampleSession()
  {
    var tracker := new FinanceTracker(None);
    var v := SubmitTransaction(tracker, "c", 1000.0, "salary");
    v := SubmitTransaction(tracker, "d", 200.0, "groceries");
    v := SubmitTransaction(tracker, "d", 50.0, "rent");
    v := SubmitTransaction(tracker, "d", -5.0, "rent");
    assert v == Rejected(InvalidAmount);
    assert tracker.transactions == ExampleLedger;
    ExampleFigures();
    var s := tracker.GetSummary();
    assert s == Summary(1000.0, 250.0, 750.0);
    var m := tracker.CategoryBreakdown();
    assert m == map["groceries" := 200.0, "rent" := 50.0];
  }
}
