/** The two reductions of the finance tracker over its ledger: the
    credit/debit totals of `get_summary` and the debit-by-category
    accumulation of `category_breakdown`. */
module Aggregate {
  import opened Ledger

  /** Sum of the amounts of the records `keep` selects, added left to right
      starting from zero, as a filtered `sum(...)` does. */
  function SumWhere(ts: seq<Transaction>, keep: Transaction -> bool): real
  {
    if ts == [] then 0.0
    else SumWhere(ts[..|ts| - 1], keep) + (if keep(ts[|ts| - 1]) then ts[|ts| - 1].amount else 0.0)
  }

  /** Total amount of the records of one kind. */
  function Total(ts: seq<Transaction>, k: Kind): real
  {
    SumWhere(ts, (t: Transaction) => t.kind == k)
  }

  /** Total amount of every record, whatever its kind. */
  function GrandTotal(ts: seq<Transaction>): real
  {
    SumWhere(ts, (t: Transaction) => true)
  }

  /** Total amount of the debit records filed under exactly `category`. */
  function CategoryTotal(ts: seq<Transaction>, category: string): real
  {
    SumWhere(ts, (t: Transaction) => t.kind == Debit && t.category == category)
  }

  /** The categories that occur on at least one debit record. */
  function DebitCategories(ts: seq<Transaction>): set<string>
  {
    set i | 0 <= i < |ts| && ts[i].kind == Debit :: ts[i].category
  }

  datatype Summary = Summary(credit: real, debit: real, balance: real)

  /** The three figures `get_summary` reports. */
  function Summarize(ts: seq<Transaction>): (s: Summary)
    ensures s.credit == Total(ts, Credit) && s.debit == Total(ts, Debit)
    ensures s.balance == s.credit - s.debit
    ensures s.credit + s.debit == GrandTotal(ts)
    ensures ts == [] ==> s == Summary(0.0, 0.0, 0.0)
    ensures AllNonNegative(ts) ==> s.credit >= 0.0 && s.debit >= 0.0
  {
    TotalsPartition(ts);
    TotalNonNegative(ts, Credit);
    TotalNonNegative(ts, Debit);
    var credit := Total(ts, Credit);
    var debit := Total(ts, Debit);
    Summary(credit, debit, credit - debit)
  }

  /** `m.get(key, default)`. */
  function Get(m: map<string, real>, key: string, default: real): real
  {
    if key in m then m[key] else default
  }

  /** The dictionary `category_breakdown` builds: each debit record, in
      ledger order, adds its amount to the entry of its category, which
      starts from zero; credit records are skipped. */
  function Breakdown(ts: seq<Transaction>): map<string, real>
  {
    if ts == [] then map[]
    else
      var m := Breakdown(ts[..|ts| - 1]);
      var t := ts[|ts| - 1];
      if t.kind == Debit then m[t.category := Get(m, t.category, 0.0) + t.amount] else m
  }

  /** The sum of all the values of a map, in no particular order. */
  ghost function SumOfValues(m: map<string, real>): real
    decreases |m|
  {
    if m == map[] then 0.0
    else
      var k :| k in m;
      m[k] + SumOfValues(m - {k})
  }

  // ---------------------------------------------------------------------
  // Sums over a ledger

  lemma {:induction false} SumWhereConcat(a: seq<Transaction>, b: seq<Transaction>, keep: Transaction -> bool)
    ensures SumWhere(a + b, keep) == SumWhere(a, keep) + SumWhere(b, keep)
    decreases |b|
  {
    if b == [] {
      assert a + b == a;
    } else {
      var n := |b| - 1;
      assert (a + b)[..|a + b| - 1] == a + b[..n];
      SumWhereConcat(a, b[..n], keep);
    }
  }

  lemma {:induction false} SumWhereNonNegative(ts: seq<Transaction>, keep: Transaction -> bool)
    requires AllNonNegative(ts)
    ensures SumWhere(ts, keep) >= 0.0
  {
    if ts != [] {
      SumWhereNonNegative(ts[..|ts| - 1], keep);
    }
  }

  /** With non-negative amounts, a sum is at least each amount it includes. */
  lemma {:induction false} SumWhereAtLeast(ts: seq<Transaction>, keep: Transaction -> bool, i: int)
    requires AllNonNegative(ts)
    requires 0 <= i < |ts| && keep(ts[i])
    ensures SumWhere(ts, keep) >= ts[i].amount
  {
    var n := |ts| - 1;
    if i == n {
      SumWhereNonNegative(ts[..n], keep);
    } else {
      SumWhereAtLeast(ts[..n], keep, i);
    }
  }

  /** A filtered sum does not depend on the order of the records. */
  lemma {:induction false} SumWherePermutation(a: seq<Transaction>, b: seq<Transaction>, keep: Transaction -> bool)
    requires multiset(a) == multiset(b)
    ensures SumWhere(a, keep) == SumWhere(b, keep)
    decreases |a|
  {
    if a == [] {
      assert |b| == |multiset(b)| == 0;
    } else {
      var n := |a| - 1;
      var x := a[n];
      assert a == a[..n] + [x];
      assert x in multiset(b);
      var j :| 0 <= j < |b| && b[j] == x;
      assert b == b[..j] + [x] + b[j + 1..];
      var rest := b[..j] + b[j + 1..];
      assert multiset(rest) == multiset(b[..j]) + multiset(b[j + 1..]);
      assert multiset(b) == multiset(b[..j]) + multiset{x} + multiset(b[j + 1..]);
      assert multiset(a) == multiset(a[..n]) + multiset{x};
      assert multiset(a[..n]) == multiset(a) - multiset{x};
      assert multiset(rest) == multiset(b) - multiset{x};
      SumWherePermutation(a[..n], rest, keep);
      SumWhereConcat(b[..j] + [x], b[j + 1..], keep);
      SumWhereConcat(b[..j], [x], keep);
      SumWhereConcat(b[..j], b[j + 1..], keep);
      assert [x][..0] == [];
    }
  }

  // ---------------------------------------------------------------------
  // Totals (get_summary)

  /** Every record is either a credit or a debit, so the two totals
      together account for every amount exactly once. */
  lemma {:induction false} TotalsPartition(ts: seq<Transaction>)
    ensures Total(ts, Credit) + Total(ts, Debit) == GrandTotal(ts)
  {
    if ts != [] {
      TotalsPartition(ts[..|ts| - 1]);
    }
  }

  lemma TotalNonNegative(ts: seq<Transaction>, k: Kind)
    ensures AllNonNegative(ts) ==> Total(ts, k) >= 0.0
  {
    if AllNonNegative(ts) {
      SumWhereNonNegative(ts, (t: Transaction) => t.kind == k);
    }
  }

  /** Appending one record changes exactly the total of its kind, by its amount. */
  lemma AppendSummary(ts: seq<Transaction>, t: Transaction)
    ensures Summarize(ts + [t]).credit == Summarize(ts).credit + (if t.kind == Credit then t.amount else 0.0)
    ensures Summarize(ts + [t]).debit == Summarize(ts).debit + (if t.kind == Debit then t.amount else 0.0)
  {
    assert (ts + [t])[..|ts|] == ts;
  }

  /** The summary does not depend on the order in which the records were added. */
  lemma SummaryReorder(a: seq<Transaction>, b: seq<Transaction>)
    requires multiset(a) == multiset(b)
    ensures Summarize(a) == Summarize(b)
  {
    SumWherePermutation(a, b, (t: Transaction) => t.kind == Credit);
    SumWherePermutation(a, b, (t: Transaction) => t.kind == Debit);
  }

  // ---------------------------------------------------------------------
  // Debit-by-category breakdown (category_breakdown)

  lemma DebitCategoriesSnoc(ts: seq<Transaction>, t: Transaction)
    ensures DebitCategories(ts + [t]) == DebitCategories(ts) + (if t.kind == Debit then {t.category} else {})
  {
    var ts' := ts + [t];
    forall c | c in DebitCategories(ts')
      ensures c in DebitCategories(ts) + (if t.kind == Debit then {t.category} else {})
    {
      var i :| 0 <= i < |ts'| && ts'[i].kind == Debit && ts'[i].category == c;
      if i < |ts| {
        assert ts[i] == ts'[i];
      }
    }
    forall c | c in DebitCategories(ts)
      ensures c in DebitCategories(ts')
    {
      var i :| 0 <= i < |ts| && ts[i].kind == Debit && ts[i].category == c;
      assert ts'[i] == ts[i];
    }
    if t.kind == Debit {
      assert ts'[|ts|] == t;
    }
  }

  /** The breakdown has a key for exactly the categories of the debit
      records: credits never add a key. */
  lemma {:induction false} BreakdownKeys(ts: seq<Transaction>)
    ensures Breakdown(ts).Keys == DebitCategories(ts)
  {
    if ts != [] {
      var n := |ts| - 1;
      BreakdownKeys(ts[..n]);
      assert ts == ts[..n] + [ts[n]];
      DebitCategoriesSnoc(ts[..n], ts[n]);
    }
  }

  /** Looked up with default zero, the breakdown gives for every category
      the total of the debit records filed under exactly that string. */
  lemma {:induction false} BreakdownValues(ts: seq<Transaction>)
    ensures forall c :: Get(Breakdown(ts), c, 0.0) == CategoryTotal(ts, c)
  {
    if ts != [] {
      var n := |ts| - 1;
      BreakdownValues(ts[..n]);
      forall c ensures Get(Breakdown(ts), c, 0.0) == CategoryTotal(ts, c) {
        assert Get(Breakdown(ts[..n]), c, 0.0) == CategoryTotal(ts[..n], c);
      }
    }
  }

  /** Removing any one key splits off exactly that key's value. */
  lemma {:induction false} SumOfValuesRemove(m: map<string, real>, k: string)
    requires k in m
    ensures SumOfValues(m) == m[k] + SumOfValues(m - {k})
    decreases |m|
  {
    var j :| j in m && SumOfValues(m) == m[j] + SumOfValues(m - {j});
    if j != k {
      assert |m - {j}| == |m| - 1;
      SumOfValuesRemove(m - {j}, k);
      assert |m - {k}| == |m| - 1;
      SumOfValuesRemove(m - {k}, j);
      assert m - {j} - {k} == m - {k} - {j};
    }
  }

  /** The category values add up to the debit total. */
  lemma {:induction false} BreakdownSum(ts: seq<Transaction>)
    ensures SumOfValues(Breakdown(ts)) == Total(ts, Debit)
  {
    if ts != [] {
      var n := |ts| - 1;
      var m := Breakdown(ts[..n]);
      var t := ts[n];
      BreakdownSum(ts[..n]);
      if t.kind == Debit {
        var m' := m[t.category := Get(m, t.category, 0.0) + t.amount];
        SumOfValuesRemove(m', t.category);
        assert m' - {t.category} == m - {t.category};
        if t.category in m {
          SumOfValuesRemove(m, t.category);
        } else {
          assert m - {t.category} == m;
        }
      }
    }
  }

  /** The breakdown is empty, which the tracker reports as "no debit data",
      exactly when the ledger holds no debit record. */
  lemma {:induction false} NoDebitData(ts: seq<Transaction>)
    ensures Breakdown(ts) == map[] <==> forall i :: 0 <= i < |ts| ==> ts[i].kind == Credit
  {
    BreakdownKeys(ts);
    if Breakdown(ts) != map[] {
      var c :| c in Breakdown(ts);
      var i :| 0 <= i < |ts| && ts[i].kind == Debit && ts[i].category == c;
    } else {
      assert forall i :: 0 <= i < |ts| && ts[i].kind == Debit ==> ts[i].category in DebitCategories(ts);
    }
  }

  /** With non-negative amounts every category value is non-negative, and
      a value is zero only when a zero-amount debit was recorded under
      that category. */
  lemma {:induction false} BreakdownNonNegative(ts: seq<Transaction>, c: string)
    requires AllNonNegative(ts)
    requires c in Breakdown(ts)
    ensures Breakdown(ts)[c] >= 0.0
    ensures Breakdown(ts)[c] == 0.0 ==>
      exists i :: 0 <= i < |ts| && ts[i].kind == Debit && ts[i].category == c && ts[i].amount == 0.0
  {
    BreakdownKeys(ts);
    BreakdownValues(ts);
    assert Get(Breakdown(ts), c, 0.0) == CategoryTotal(ts, c);
    var keep := (t: Transaction) => t.kind == Debit && t.category == c;
    SumWhereNonNegative(ts, keep);
    var i :| 0 <= i < |ts| && ts[i].kind == Debit && ts[i].category == c;
    SumWhereAtLeast(ts, keep, i);
  }
}
