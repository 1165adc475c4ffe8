# Personal finance tracker, modelled in Dafny

The tracker keeps one ledger of transactions. Each transaction has an amount, a free-text category, and a type: credit or debit. It reads the ledger from a JSON data file at start-up and rewrites the whole file after every append. It reports three things:
- the credit total, the debit total and the balance (`get_summary`);
- the debit amounts folded into a dictionary keyed by category (`category_breakdown`).

The text menu only lets a transaction through when its type code is `"c"` or `"d"` and its amount is not negative.

The model has four modules:

- `Ledger` (ledger.dfy) holds the transaction record and the two-variant `Kind` that replaces the `"credit"`/`"debit"` strings. It also holds `KindOf`, the mapping from the type code to the kind.
- `Aggregate` (aggregate.dfy) defines the reductions as recursive functions over a `seq<Transaction>`:
  - `SumWhere` is a filtered sum, added left to right from zero.
  - `Total`, `GrandTotal` and `CategoryTotal` are built on `SumWhere`.
  - `DebitCategories` is the set of categories that occur on debit records.
  - `Breakdown` is a functional image of the dictionary-building loop.
  - `SumOfValues` sums the values of a map.

  The lemmas prove that the breakdown has one key per debit category and no other keys. They prove that each key's value is that category's debit total, and that the values add up to the debit total. They also prove that the totals do not depend on the order of the records, and cover the non-negativity properties.
- `Tracker` (tracker.dfy) holds the `FinanceTracker` class. Its `transactions` field is a sequence that `AddTransaction` extends in place. A ghost field `saved` stands for the content of the data file. `CategoryBreakdown` is the imperative accumulation loop, and it is proved against `Breakdown`.
- `Menu` (menu.dfy) holds the acceptance rule `Admit` and the "Add Transaction" step `SubmitTransaction`. It also has an example session: a salary credit of 1000 and debits of 200 for groceries and 50 for rent give totals (1000, 250, 750) and the breakdown {groceries: 200, rent: 50}.

Amounts are Dafny `real`s, so every sum is exact.

Where a design description of this program and its code differ, the model follows the code:
- `add_transaction` does not check the amount itself. Only the menu rejects negative amounts, so `AddTransaction` stores any amount and `Admit`/`SubmitTransaction` carry the check.
- The code for a credit is `"c"`.
- There is no rollback when writing the file fails.

## Model

| member | source | states |
|---|---|---|
| Ledger.KindOf | capstoneproject.py:24 | the stored kind is credit exactly when the code is "c"; every other code gives debit |
| Tracker.FinanceTracker.constructor | capstoneproject.py:5-14 | the ledger is the data file's content, or empty when no file is found; the in-memory ledger matches the file |
| Tracker.FinanceTracker.AddTransaction | capstoneproject.py:20-27 | the ledger grows by exactly one record at its end with the given amount and category and the kind of the code; earlier records are unchanged and in order; the file then holds the whole new ledger |
| Tracker.FinanceTracker.GetSummary | capstoneproject.py:37-40 | credit and debit are the totals of the credit and debit records, balance is credit minus debit, all zero on an empty ledger, totals non-negative when amounts are |
| Tracker.FinanceTracker.CategoryBreakdown | capstoneproject.py:56-61 | the loop's dictionary equals the functional breakdown; its keys are exactly the debit categories; each value is that category's debit total; the values sum to the debit total; values are non-negative when amounts are |
| Aggregate.Summarize | capstoneproject.py:38-40 | credit/debit are the sums over records of that kind, balance == credit - debit, credit + debit is the sum of all amounts, zeros on an empty ledger, non-negative totals for non-negative amounts |
| Aggregate.TotalsPartition | capstoneproject.py:38-39 | every record falls in exactly one of the two totals |
| Aggregate.TotalNonNegative | capstoneproject.py:38-39 | a per-kind total of non-negative amounts is non-negative |
| Aggregate.AppendSummary | capstoneproject.py:38-39 | appending a record raises the total of its own kind by its amount and leaves the other total unchanged |
| Aggregate.SummaryReorder | capstoneproject.py:38-40 | two ledgers holding the same records in any order have the same summary |
| Aggregate.SumWherePermutation | capstoneproject.py:38-39 | a filtered sum depends only on the multiset of records |
| Aggregate.SumWhereConcat | capstoneproject.py:38-39 | a filtered sum over a concatenation is the sum of the two parts |
| Aggregate.SumWhereNonNegative | capstoneproject.py:38-39 | a filtered sum of non-negative amounts is non-negative |
| Aggregate.SumWhereAtLeast | capstoneproject.py:38-39 | with non-negative amounts a filtered sum is at least each amount it includes |
| Aggregate.DebitCategoriesSnoc | capstoneproject.py:58-60 | appending a debit adds its category to the debit categories; appending a credit adds nothing |
| Aggregate.BreakdownKeys | capstoneproject.py:58-61 | the breakdown's keys are exactly the categories of debit records; credits never add a key |
| Aggregate.BreakdownValues | capstoneproject.py:59-61 | for every category, the value looked up with default 0 is the sum of the debit amounts filed under exactly that string |
| Aggregate.SumOfValuesRemove | capstoneproject.py:61 | removing one key from a map splits its value off the sum of the values |
| Aggregate.BreakdownSum | capstoneproject.py:56-61 | the breakdown's values add up to the debit total |
| Aggregate.NoDebitData | capstoneproject.py:57-65 | the breakdown is empty ("no debit data") exactly when every record is a credit |
| Aggregate.BreakdownNonNegative | capstoneproject.py:58-61 | with non-negative amounts each category value is non-negative, and zero only if a zero-amount debit was recorded under it |
| Menu.Admit | capstoneproject.py:90-100 | input is accepted exactly when the code is "c" or "d" and the amount is not negative; a bad code is reported before a bad amount |
| Menu.SubmitTransaction | capstoneproject.py:89-103 | a rejected input leaves the ledger and the file unchanged; an accepted one appends the record |
| Menu.AdmittedKeepsNonNegative | capstoneproject.py:91-102 | accepted input keeps every amount in the ledger non-negative, and "c" gives a credit and "d" a debit |
| Menu.ExampleFigures | capstoneproject.py:37-61 | the salary/groceries/rent ledger gives totals (1000, 250, 750) and breakdown {groceries: 200, rent: 50} |

## Left out

- JSON serialisation (`load_data`, `save_data`): the file's content is a constructor parameter, and the ghost field `saved` stands for the file after each write. Read and write failures are not modelled. A malformed file, which makes `json.load` raise, is not modelled either.
- Records loaded from a file whose `"type"` is neither `"credit"` nor `"debit"`: the code would count them in neither total. The two-variant `Kind` cannot represent them.
- IEEE floating point: amounts are exact reals, so the properties hold for exact arithmetic, not for Python's rounded float sums.
- `.lower()` on the typed type code and `.strip()` on the typed category: the model takes both as already normalised. The `float()` parsing of the amount is not modelled either; a non-numeric amount is rejected with the same message as a negative one, and only the negative case is modelled.
- `view_transactions` and every `print`, including the `.capitalize()` display: this is presentation only.
- The matplotlib pie charts (`show_pie_chart` and the one in `category_breakdown`): these are foreign library calls.
- The interactive menu loop, its prompts and options 2 to 5: I/O glue. Only the acceptance rule and the add step are modelled.
- Insertion order of the breakdown dictionary's keys: it affects only display order, and the model uses a Dafny `map`.
