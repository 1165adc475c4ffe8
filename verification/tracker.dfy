/** The `FinanceTracker` object: an in-memory ledger that is loaded from the
    data file once and written back in full after every append. */
module Tracker {
  import opened Ledger
  import opened Aggregate

  class FinanceTracker {
    const filename: string
    /** The ledger, in insertion order. */
    var transactions: seq<Transaction>
    /** What the data file holds: None while no file exists. */
    ghost var saved: Option<seq<Transaction>>

    /** The in-memory ledger is what the data file holds, and empty when
        there is no file yet. */
    ghost predicate Valid()
      reads this
    {
      transactions == (if saved.Some? then saved.value else [])
    }

    /** Opens the tracker on a data file whose content is `persisted`
        (None when the file is not found, which is a first run, not an error). */
    constructor (persisted: Option<seq<Transaction>>, filename: string := "finance_data.json")
      ensures Valid()
      ensures this.filename == filename && saved == persisted
      ensures persisted.None? ==> transactions == []
      ensures persisted.Some? ==> transactions == persisted.value
    {
      this.filename := filename;
      saved := persisted;
      transactions := if persisted.Some? then persisted.value else [];
    }

    /** Appends one record built from the arguments and writes the whole
        ledger back to the data file. */
    method AddTransaction(amount: real, category: string, code: string)
      requires Valid()
      modifies this
      ensures Valid() && saved == Some(transactions)
      ensures transactions == old(transactions) + [Transaction(amount, category, KindOf(code))]
      ensures |transactions| == |old(transactions)| + 1
      ensures transactions[|old(transactions)|].kind == Credit <==> code == "c"
    {
      var transaction := Transaction(amount, category, KindOf(code));
      transactions := transactions + [transaction];
      saved := Some(transactions);
    }

    /** The figures of `get_summary` for the current ledger. */
    function GetSummary(): (s: Summary)
      reads this
      ensures s.balance == s.credit - s.debit
      ensures s.credit == Total(transactions, Credit) && s.debit == Total(transactions, Debit)
      ensures transactions == [] ==> s == Summary(0.0, 0.0, 0.0)
      ensures AllNonNegative(transactions) ==> s.credit >= 0.0 && s.debit >= 0.0
    {
      Summarize(transactions)
    }

    /** Folds the debit records into a dictionary keyed by category; credit
        records are skipped. */
    method CategoryBreakdown() returns (debitCategories: map<string, real>)
      ensures debitCategories == Breakdown(transactions)
      ensures debitCategories.Keys == DebitCategories(transactions)
      ensures forall c :: c in debitCategories ==> debitCategories[c] == CategoryTotal(transactions, c)
      ensures SumOfValues(debitCategories) == Total(transactions, Debit)
      ensures AllNonNegative(transactions) ==> forall c :: c in debitCategories ==> debitCategories[c] >= 0.0
    {
      debitCategories := map[];
      for i := 0 to |transactions|
        invariant debitCategories == Breakdown(transactions[..i])
      {
        var t := transactions[i];
        assert transactions[..i + 1] == transactions[..i] + [t];
        if t.kind == Debit {
          var cat := t.category;
          debitCategories := debitCategories[cat := Get(debitCategories, cat, 0.0) + t.amount];
        }
      }
      assert transactions[..|transactions|] == transactions;
      BreakdownKeys(transactions);
      BreakdownValues(transactions);
      BreakdownSum(transactions);
      forall c | c in debitCategories
        ensures debitCategories[c] == CategoryTotal(transactions, c)
      {
        assert Get(debitCategories, c, 0.0) == CategoryTotal(transactions, c);
      }
      if AllNonNegative(transactions) {
        forall c | c in debitCategories
          ensures debitCategories[c] >= 0.0
        {
          BreakdownNonNegative(transactions, c);
        }
      }
    }
  }
}
