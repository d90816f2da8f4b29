# my-finances-app: OFX import and reconciliation, modelled in Dafny

This project models the ledger engine of `my_finances_app/__init__.py`:

- **Statement import** (`convertOfx`). A parsed OFX statement is resolved to an internal account and to the USD currency. The statement is skipped when its closing balance assertion is already recorded. Otherwise each transaction is imported in turn:
  - a transaction already in `ofx_txn_id_mapping` is skipped;
  - an "Autosave" transfer leg joins the txn whose note is its memo;
  - any other transaction gets a new txn row;
  - its postings are allocated, its notes added with `INSERT OR IGNORE`, and its mapping recorded.
  The statement's balance assertion is recorded last.
- **Posting allocation** (`extractPostings`). The payee is matched against the `instr` substring rules. No match gives one posting. One match gives a balancing pair and an audit note. More than one match is fatal.
- **Reconciliation** (the computation in `assertionsBalance`). Each assertion, in date order, is compared with the sum of the postings on its account and currency whose txn is dated strictly before it. A row reports the difference asserted minus actual.
- **Imbalance count** (the first query of `allTransactions`). It counts the txns whose postings do not sum to zero.

The modules:

- `Tables` (tables.dfy): the tables as sequences of rows and the `Db` value; the lookups, `INSERT OR IGNORE` and the store invariants.
- `Amounts` (amounts.dfy): `int(decimal * divisor)`.
- `Rules` (rules.dfy): `instr`, rule matching and allocation.
- `Balances` (balances.dfy): the sums over `posting`.
- `Reconcile` (reconcile.dfy): the reconciliation report.
- `Import` (import.dfy): `convertOfx` and a whole import run as functions of the store, with the lemmas about them.
- `Store` (store.dfy): the class `Ledger`. Its fields are the tables. Its methods perform the inserts of `convertOfx` and `extractPostings` in the source's order and are proved to reach the state the `Import` functions describe.

Two points of the code that are easy to misread:

- **Amounts are truncated, not rounded.** The ledger stores `int(decimal * divisor)`, and `int()` truncates toward zero (`Amounts.Trunc`). So 12.349 dollars is stored as 1234 cents, and -12.349 as -1234.
- **The reported difference is asserted minus actual.** A row carries `assert_balance - account_balance`. Postings summing to X against an assertion of Y give Y − X (`Reconcile.ReportsAssertedMinusActual`).

Inputs the code gets from outside are parameters here:

- the parsed statement (`Import.Statement`);
- timestamps, as integer seconds;
- decimals, as exact `real`s.

## Model

| member | source | states |
|---|---|---|
| Tables.InsertOrIgnore | my_finances_app/__init__.py:96-99 | `INSERT OR IGNORE`: the table only grows, holds exactly the old rows plus the inserted ones, and stays free of duplicates |
| Tables.InsertPresentIsNoOp | my_finances_app/__init__.py:96-99 | inserting notes that are all present already leaves the table unchanged |
| Tables.ReinsertIsNoOp | my_finances_app/__init__.py:96-99 | `txn_note` behaves as a set: inserting the same notes a second time changes nothing |
| Tables.FindAccount | my_finances_app/__init__.py:24-28 | the account lookup finds nothing exactly when no mapping row has the OFX id; a found account comes from a row with that id |
| Tables.FindCurrency | my_finances_app/__init__.py:36-41 | the currency lookup finds nothing exactly when no currency has the name; a found row is in the table and has the name |
| Tables.FindNoteTxn | my_finances_app/__init__.py:73-79 | the memo lookup finds nothing exactly when no txn note has that description; a found txn carries such a note |
| Tables.IsMapped | my_finances_app/__init__.py:63-68 | the mapping lookup finds a row for the (account, OFX id) pair; its behaviour under appends is stated by `AppendUnmappedKeepsUnique`, `AppendOtherKeepsUnmapped` and `MappedStaysMapped` |
| Tables.HasAssertion | my_finances_app/__init__.py:48-59 | the gate query finds an assertion with the given date, account and balance; what a hit does is stated by `Import.ConvertStatementSpec` |
| Tables.FindNoteTxnInAppended | my_finances_app/__init__.py:73-79 | when the table has no note with the memo, notes appended after it that name one txn make the lookup find that txn |
| Tables.InsertedNoteFound | my_finances_app/__init__.py:88-99 | after the notes of a new txn are inserted into a table without the memo, the memo lookup finds the new txn |
| Tables.AppendUnmappedKeepsUnique | my_finances_app/__init__.py:62-69 | recording a mapping for an unmapped (account, OFX id) keeps each key mapped at most once and leaves the key mapped |
| Tables.AppendOtherKeepsUnmapped | my_finances_app/__init__.py:62-69 | recording a mapping for one key leaves every other unmapped key unmapped |
| Tables.MappedStaysMapped | my_finances_app/__init__.py:62-69 | a key once mapped stays mapped as rows are appended |
| Amounts.Trunc | my_finances_app/__init__.py:121 | `int()` of a decimal is its integer part toward zero: within one unit below a non-negative value, and within one unit above a non-positive one |
| Amounts.Scale | my_finances_app/__init__.py:121 | `int(amount * divisor)`; its bounds are stated by `ScaleWithinOneUnit` and `ScaleCents` |
| Amounts.ScaleWithinOneUnit | my_finances_app/__init__.py:121 | the stored integer is less than one unit from the exact scaled amount, and lies on the zero side of it |
| Amounts.TruncOpposite | my_finances_app/__init__.py:121 | a debit and a credit of the same size are stored as opposite integers |
| Amounts.TruncWhole | my_finances_app/__init__.py:115 | an amount that is a whole number of units is stored exactly |
| Amounts.TruncMonotone | my_finances_app/__init__.py:121 | storing never reorders two amounts |
| Amounts.ScaleCents | my_finances_app/__init__.py:121 | 12.34 with divisor 100 is stored as 1234, and -50.00 as -5000 |
| Rules.InstrSpec | my_finances_app/__init__.py:127-131 | `instr` is 0 exactly when the rule text does not occur in the payee; otherwise it is one past the index of the first occurrence |
| Rules.Instr | my_finances_app/__init__.py:130 | SQLite `instr(payee, payee_contains)`, the 1-based position of the first occurrence or 0; characterized by `InstrSpec` |
| Rules.MatchingRules | my_finances_app/__init__.py:127-132 | the fetched rows are exactly the rules whose text occurs in the payee, each at most as often as in the table (exactly as often: `MatchingRulesCount`) |
| Rules.MatchingRulesCount | my_finances_app/__init__.py:127-132 | `fetchall` returns every matching row as often as it occurs in the table, duplicates included, and no other row |
| Rules.TwoMatchingRowsAreAmbiguous | my_finances_app/__init__.py:127-136 | any two matching rows of the table, even two copies of one rule, make more than one row fetched, so the payee is ambiguous |
| Rules.AllocateSpec | my_finances_app/__init__.py:121-140 | more than one match fails with those matches and nothing else fails. Every posting has the txn and the currency, and the first is (account, amount). No match gives that posting alone and no note. One match adds (rule account, -amount), so the postings sum to zero, plus the note naming the rule text |
| Rules.Allocate | my_finances_app/__init__.py:121-140 | the postings and posting notes of one transaction, or the ambiguity error; characterized by `AllocateSpec` |
| Rules.SingleMatchIsTheRule | my_finances_app/__init__.py:127-140 | when exactly one rule of the table matches the payee, that rule is the only row fetched |
| Rules.NoMatchIsEmpty | my_finances_app/__init__.py:127-132 | no matching rule means no rows fetched |
| Balances.TxnBalanceAppend | my_finances_app/__init__.py:204-212 | a txn's `SUM(amount)` over two batches of postings is the sum over each |
| Balances.TxnBalanceOfGroup | my_finances_app/__init__.py:204-212 | postings of one txn contribute their total to it and nothing to other txns |
| Balances.AppendBalancedGroup | my_finances_app/__init__.py:204-212 | appending postings of one txn that sum to zero changes neither the set nor the count of imbalanced txns |
| Balances.AppendSingleLeg | my_finances_app/__init__.py:204-212 | one non-zero posting for a txn that had none makes exactly that txn imbalanced: the count goes up by one |
| Balances.NoPostingsZeroBalance | my_finances_app/__init__.py:204-212 | a txn with no postings has a zero sum |
| Balances.CountIgnoresCurrency | my_finances_app/__init__.py:204-212 | the count groups by txn only: a txn whose legs cancel in two different currencies counts as balanced |
| Balances.TxnBalance | my_finances_app/__init__.py:207-209 | `SUM(posting.amount)` of one txn group; a txn none of whose postings is present sums to zero |
| Balances.Imbalanced | my_finances_app/__init__.py:204-212 | the imbalanced txns are txns that have postings, and a posting's txn is among them exactly when that txn's sum is non-zero |
| Balances.ImbalanceCount | my_finances_app/__init__.py:204-212 | the count is at most the number of txn groups, and it is zero exactly when every posting's txn sums to zero |
| Balances.TxnDate | my_finances_app/__init__.py:343-344 | the join finds a txn's date exactly when a row with that id exists, and the date is that row's |
| Balances.CountsToward | my_finances_app/__init__.py:343-344 | the WHERE clause: same account and currency, and a joined txn dated strictly before; a posting with no txn row never counts. Its effect on the sum is stated by `ActualBalance` and `LaterPostingsDoNotCount` |
| Balances.ActualBalance | my_finances_app/__init__.py:340-345 | the sum is NULL exactly when no posting is on the account and currency with a txn dated strictly before the assertion |
| Balances.BalanceAdditive | my_finances_app/__init__.py:340-345 | the balance (an empty sum read as 0) over two batches of postings is the sum of their balances |
| Balances.LaterPostingsDoNotCount | my_finances_app/__init__.py:340-345 | postings on another account or currency, or whose txn is dated on or after the assertion, leave its sum unchanged |
| Reconcile.InsertByDate | my_finances_app/__init__.py:312-317 | inserting an assertion into the ordered list adds exactly that assertion |
| Reconcile.InsertByDateSorted | my_finances_app/__init__.py:312-317 | inserting into a list sorted by date keeps it sorted |
| Reconcile.SortByDate | my_finances_app/__init__.py:312-317 | `ORDER BY date` gives a permutation of the assertions, sorted by date |
| Reconcile.ReconcileRows | my_finances_app/__init__.py:335-359 | the loop succeeds exactly when every assertion has a non-NULL sum; it fails on an assertion with a NULL sum. Each row is (date, account, asserted, actual, asserted − actual) of an assertion whose actual balance differs, and every such assertion has its row |
| Reconcile.AssertionsBalance | my_finances_app/__init__.py:312-359 | the report as written succeeds exactly when no assertion's sum is NULL, and otherwise fails on an assertion whose sum is NULL. Its rows are exactly the mismatching assertions, each reported as (date, account, expected, actual, expected − actual) with expected ≠ actual |
| Reconcile.ReconcileRowsTotal | my_finances_app/__init__.py:335-359 | with an empty sum read as 0, a row is reported exactly for each assertion whose balance differs, with asserted − actual |
| Reconcile.AssertionsBalanceTotal | my_finances_app/__init__.py:340-357 | the corrected report never fails. Its rows are exactly the assertions whose balance, an empty sum read as 0, differs from the asserted one, each with difference expected − actual ≠ 0 |
| Reconcile.TotalAgreesWhenDefined | my_finances_app/__init__.py:340-357 | wherever the as-written loop succeeds, the corrected loop gives the same rows |
| Reconcile.EmptySumAbortsReport | my_finances_app/__init__.py:340-357 | an assertion with no qualifying posting makes the as-written report fail; the corrected one reports expected 45000, actual 0, difference 45000 |
| Reconcile.ReportsAssertedMinusActual | my_finances_app/__init__.py:340-357 | postings before the assertion summing to 47000, one posting on the assertion date ignored, against an asserted 45000: exactly one row, difference −2000 |
| Import.ReusedTxn | my_finances_app/__init__.py:71-80 | a txn is reused only for an "Autosave" payee with a memo whose note exists on a txn with non-zero id. Otherwise the memo lookup found nothing or txn 0 |
| Import.NotesForSpec | my_finances_app/__init__.py:88-92 | a transaction's txn notes all name its txn: the payee always, the memo exactly when it is non-empty, and nothing else |
| Import.StepTxnSpec | my_finances_app/__init__.py:62-103 | a mapped transaction changes nothing. An unmapped one fails exactly when its payee matches more than one rule, with that error. On success the tables are only appended to and the transaction is mapped |
| Import.StepTxn | my_finances_app/__init__.py:62-103 | one pass of the transaction loop on the store as a value; characterized by `StepTxnSpec`, `StepTxnBooksTarget` and `StepTxnKeepsValid` |
| Import.StepTxnBooksTarget | my_finances_app/__init__.py:71-103 | the txn row (when new), the mapping, the txn notes and every posting a transaction adds all refer to the txn it is booked to; earlier postings are kept |
| Import.ImportTxns | my_finances_app/__init__.py:62-103 | the loop only appends rows; its only error is the ambiguous payee of one of the statement's transactions |
| Import.ConvertStatement | my_finances_app/__init__.py:23-117 | `convertOfx` on the store as a value; characterized by `ConvertStatementSpec`, `HandledStaysHandled` and `ConvertKeepsValid` |
| Import.ConvertStatementSpec | my_finances_app/__init__.py:23-117 | an unknown account writes nothing. An unknown USD currency is an error, raised before any write. When an assertion with the statement's date, account and scaled balance is already recorded, by this or any other statement, the result is `AlreadyImported` with nothing written. On success the tables only grow and the new assertion is appended last. The only other error is an ambiguous payee |
| Import.ImportRun | my_finances_app/__init__.py:193-197 | a successful run only appends rows to the store |
| Import.StepTxnKeepsValid | my_finances_app/__init__.py:62-103 | one pass keeps the store invariants: rowid txn ids, every row referring to an existing txn, duplicate-free notes, each external key mapped at most once |
| Import.StepTxnKeepsRefs | my_finances_app/__init__.py:71-103 | the postings, notes and mapping a pass adds all name a txn that exists afterwards, the reused one or the new row |
| Import.RuleMatchBalances | my_finances_app/__init__.py:137-145 | a transaction matching exactly one rule adds two postings that sum to zero and leaves the imbalance count unchanged |
| Import.NoRuleSingleLeg | my_finances_app/__init__.py:121-145 | in a store whose rows refer to existing txns, a new transaction matching no rule adds exactly (new txn, account, amount) and no posting note; the imbalance count goes up by one when the scaled amount is non-zero and is unchanged when it is zero |
| Import.FirstLegNotesMemo | my_finances_app/__init__.py:73-99 | the first "Autosave" leg with a memo not yet noted creates the next txn, maps to it, books its postings to it, and the memo now finds it |
| Import.LaterLegJoinsTxn | my_finances_app/__init__.py:73-86 | an "Autosave" leg whose memo is noted on a txn adds no txn row and books its postings and mapping to that txn |
| Import.TransferLegsShareTxn | my_finances_app/__init__.py:73-103 | the two legs of an "Autosave" transfer imported one after the other, with the same memo, end up in one new txn: one txn row, both mappings to it, all their postings on it |
| Import.ImportTxnsErrSticks | my_finances_app/__init__.py:62-103 | an error on some transaction ends the loop with that error |
| Import.ImportTxnsMapsAll | my_finances_app/__init__.py:62-103 | after the loop every transaction of the statement is mapped |
| Import.StoppedAtLeavesFailingUnmapped | my_finances_app/__init__.py:62-103 | after a failed loop the failing transaction is still unmapped, so a later run picks it up; every transaction before it is mapped; the error names its payee and the rules it matched |
| Import.AllMappedIsNoOp | my_finances_app/__init__.py:62-69 | a loop over transactions that are all mapped writes nothing |
| Import.ReimportTxnsIsNoOp | my_finances_app/__init__.py:62-103 | running the loop a second time over the same transactions writes nothing |
| Import.ImportTxnsKeepsValid | my_finances_app/__init__.py:62-103 | the loop keeps the store invariants |
| Import.ConvertKeepsValid | my_finances_app/__init__.py:19-117 | importing a statement keeps the store invariants, mapping uniqueness included |
| Import.HandledStaysHandled | my_finances_app/__init__.py:48-60 | once a statement is handled, handling it in any later store changes nothing. An unknown account stays unknown; otherwise the gate finds the assertion |
| Import.ReimportIsNoOp | my_finances_app/__init__.py:48-60 | importing the same statement a second time changes nothing |
| Import.RunHandlesAll | my_finances_app/__init__.py:193-197 | every statement of a completed run is left alone by the resulting store and by any store grown from it |
| Import.RerunIsNoOp | my_finances_app/__init__.py:193-197 | a run over statements that are all left alone writes nothing |
| Import.RunIsIdempotent | my_finances_app/__init__.py:193-197 | running the same statements again over the result of a run changes nothing |
| Import.ImportRunErrSticks | my_finances_app/__init__.py:11-15 | a fatal error on some statement is the whole run's error |
| Import.ImportedStatementIsMapped | my_finances_app/__init__.py:62-103 | after an imported statement, all its transactions are mapped under its account |
| Import.RunKeepsValid | my_finances_app/__init__.py:193-197 | a run keeps the store invariants |
| Store.Ledger.constructor | my_finances_app/__init__.py:12 | the connection holds the given tables |
| Store.Ledger.InsertTxn | my_finances_app/__init__.py:82-86 | `INSERT INTO txn` appends a row whose `lastrowid` is the next rowid |
| Store.Ledger.InsertPostings | my_finances_app/__init__.py:142-145 | the postings are appended in order |
| Store.Ledger.InsertTxnNotes | my_finances_app/__init__.py:96-99 | `txn_note` becomes `InsertOrIgnore` of the notes |
| Store.Ledger.InsertPostingNotes | my_finances_app/__init__.py:146-149 | `posting_note` becomes `InsertOrIgnore` of the notes |
| Store.Ledger.ExtractPostings | my_finances_app/__init__.py:120-149 | `extractPostings` writes only `posting` and `posting_note`. On an ambiguous payee it fails before writing. Otherwise it appends the allocated postings and inserts their notes |
| Store.Ledger.ResolveTxn | my_finances_app/__init__.py:71-86 | the txn id is the reused txn or the next rowid; a txn row is inserted exactly when none is reused |
| Store.Ledger.BookTxn | my_finances_app/__init__.py:71-103 | postings come before notes and the mapping is written last. On an ambiguous payee the txn table is the old one plus at most the one new txn row (none when a txn is reused), every other table is unchanged, and the transaction stays unmapped. Otherwise every table is as `StepTxn` prescribes |
| Store.Ledger.ImportTxn | my_finances_app/__init__.py:62-103 | one pass leaves the store as `StepTxn` describes; a failed one has appended at most the one new txn row, exactly when no txn is reused, and changed nothing else |
| Store.Ledger.ImportTransactions | my_finances_app/__init__.py:62-103 | the loop leaves the store as `ImportTxns` describes. On the first error it stops (`StoppedAt`): the store holds exactly the rows of the transactions before the failing one, plus at most the failing one's new txn row, and nothing of any later transaction |
| Store.Ledger.ConvertOfx | my_finances_app/__init__.py:19-117 | the statement's outcome is `ConvertStatement`'s, and the store invariants hold after a success. An unknown currency leaves the store untouched. An ambiguous payee leaves exactly the partial state of the transaction loop (`StoppedAt`), with no assertion recorded |
| Store.Ledger.Rollback | my_finances_app/__init__.py:12 | every written table is restored to the snapshot |
| Store.Ledger.ImportOfxStatements | my_finances_app/__init__.py:11-15 | the run's outcome is `ImportRun`'s; a fatal error rolls the store back to its state before the run; the store invariants hold afterwards |

## Left out

- The HTTP server, the request handler and all HTML assembly in `allTransactions`, `accounts`, `rulesPayee` and `assertionsBalance`: this is presentation and socket I/O. The reconciliation keeps only the values of each row.
- `resetDbForImport` and `setupSchema`: schema plumbing. The model starts from any store. `txn` ids are assumed to be rowids 1, 2, … (`Tables.Valid`), which holds because `txn` is recreated empty for every run.
- `importOfxFiles`: the directory walk is replaced by a list of already parsed statements. File order is whatever order that list has.
- `OfxParser` and `codecs.open`: a foreign library. A statement is the `Import.Statement` datatype, and a missing memo is the empty string.
- `int(ofx.account.account_id)`: the OFX account id is taken as already an integer. A non-numeric id, which raises in the source, is not modelled.
- `print` calls and the exception messages: errors are the values of `Tables.ImportError`.
- Timestamps: `.timestamp()` is a float in the source, and the model uses integer seconds.
- Amounts.Scale: decimals are exact `real`s. The precision limits of Python's decimal context are not modelled.
- Tables.FindNoteTxn: the `LIKE` of the memo lookup is taken as exact string equality. SQL's case-insensitive matching and its `%`/`_` wildcards in a memo are not modelled.
- Tables.FindAccount: the lookups without `ORDER BY` (`FindAccount`, `FindCurrency`, `FindNoteTxn` and the mapping lookup) are taken to return the first matching row in insertion order. SQLite does not promise this. If it scanned an index instead, a lookup with several matching rows could return another one. This matters for `FindNoteTxn` when two txns carry the same memo note.
- Reconcile.SortByDate: `ORDER BY date` leaves the order of equal dates unspecified in SQLite. The model picks one order, which only affects the order of rows.
- Reconcile.ReconcileRows: the account-name lookup for a reported row is not modelled, nor the failure it raises for an account with no `account` row. A row carries the account id.
- The rest of `allTransactions`, the per-txn listing, is presentation and is not modelled. The imbalance count is.
- `createAccount` and `createPayeeRule`: single inserts tied to HTTP responses.
- `posting_note` and `txn_note` are taken to be unique on the whole row, which `INSERT OR IGNORE` relies on. `schema.sql` is not part of this model.
- Concurrency: the import is a single writer, and the model has one.

## Findings

| source | as written | input that shows it | evidently intended | confidence | as-written member | corrected member |
|---|---|---|---|---|---|---|
| my_finances_app/__init__.py:340-357 | `SUM(amount)` over no qualifying postings is NULL (`None`). It compares unequal to the asserted balance, and `assert_balance - account_balance` then raises, so the whole reconciliation page fails | one assertion (date 100, account 1, balance 45000, currency 1) and no postings, as for an account whose first statement predates every posting | read the empty sum as 0 and report expected 45000, actual 0, difference 45000 | not executed | Reconcile.EmptySumAbortsReport | Reconcile.AssertionsBalanceTotal |
