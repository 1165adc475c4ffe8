/** The records the finance tracker keeps: one per credit or debit. */
module Ledger {

  datatype Option<+T> = None | Some(value: T)

  /** The record's "type" field. The tracker only ever writes "credit" or
      "debit", so the string becomes a two-variant type. */
  datatype Kind = Credit | Debit

  /** One recorded money movement; amounts are exact reals. */
  datatype Transaction = Transaction(amount: real, category: string, kind: Kind)

  /** The type code passed to `add_transaction`: "c" selects a credit and
      every other code, not only "d", selects a debit. */
  function KindOf(code: string): (k: Kind)
    ensures k == Credit <==> code == "c"
    ensures k == Debit <==> code != "c"
  {
    if code == "c" then Credit else Debit
  }

  /** Every recorded amount is non-negative, as the menu guarantees for the
      records it lets through. */
  predicate AllNonNegative(ts: seq<Transaction>)
  {
    forall i :: 0 <= i < |ts| ==> ts[i].amount >= 0.0
  }
}
