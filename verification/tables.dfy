/**
 The ledger's tables as plain values.

 Every SQLite table the import engine touches is a sequence of rows in
 insertion order: the engine only ever appends, and a `fetchone()` returns
 the first row of the table that satisfies the query's WHERE clause.
 */
module Tables {

  datatype Option<+T> = None | Some(value: T)

  datatype Result<+T, +E> = Ok(value: T) | Err(error: E)

  /** A pass/fail status for operations that only change state. */
  datatype Outcome<+E> = Pass | Fail(error: E)

  /** A row of `txn`: the rowid and the transaction's timestamp (seconds). */
  datatype Txn = Txn(id: int, date: int)

  /** A row of `posting`: a signed amount, scaled by the currency's divisor. */
  datatype Posting = Posting(txnId: int, account: int, amount: int, currency: int)

  /** A row of `txn_note`. */
  datatype TxnNote = TxnNote(txnId: int, description: string)

  /** A row of `posting_note`. */
  datatype PostingNote = PostingNote(txnId: int, account: int, description: string)

  /** A row of `ofx_txn_id_mapping`: (internal account, OFX transaction id) to txn id. */
  datatype TxnMapping = TxnMapping(ofxAccount: int, ofxTxn: string, txnId: int)

  /** A row of `ofx_account_id_mapping`: OFX account number to internal account. */
  datatype AccountMapping = AccountMapping(ofxId: int, account: int)

  /** A row of `account_balance_assert`. */
  datatype BalanceAssertion = BalanceAssertion(date: int, account: int, balance: int, currency: int)

  /** A row of `onimport_payee_contains_set_account`. */
  datatype PayeeRule = PayeeRule(payeeContains: string, account: int)

  /** A row of `currency`. */
  datatype Currency = Currency(id: int, name: string, divisor: int)

  /** The whole store the import engine reads and writes. */
  datatype Db = Db(
    txns: seq<Txn>,
    postings: seq<Posting>,
    txnNotes: seq<TxnNote>,
    postingNotes: seq<PostingNote>,
    txnMap: seq<TxnMapping>,
    accountMap: seq<AccountMapping>,
    assertions: seq<BalanceAssertion>,
    rules: seq<PayeeRule>,
    currencies: seq<Currency>)

  /** Why an import run aborts. */
  datatype ImportError =
    | UnknownCurrency(name: string)
    | AmbiguousPayee(payee: string, matches: seq<PayeeRule>)

  predicate NoDuplicates<T(==)>(s: seq<T>) {
    forall i, j :: 0 <= i < j < |s| ==> s[i] != s[j]
  }

  /** The unique key (ofx_account, ofx_txn) of `ofx_txn_id_mapping`. */
  predicate MappingUnique(m: seq<TxnMapping>) {
    forall i, j :: 0 <= i < j < |m| ==>
      m[i].ofxAccount != m[j].ofxAccount || m[i].ofxTxn != m[j].ofxTxn
  }

  /**
   The invariants of the store between statements: txn ids are the rowids
   SQLite hands out to a table that starts empty and is only appended to,
   every other row refers to an existing txn,
   `txn_note` and `posting_note` hold no duplicate row, and no external key
   is mapped twice.
   */
  predicate Valid(db: Db) {
    (forall i :: 0 <= i < |db.txns| ==> db.txns[i].id == i + 1) &&
    RefersToTxns(db) &&
    NoDuplicates(db.txnNotes) &&
    NoDuplicates(db.postingNotes) &&
    MappingUnique(db.txnMap)
  }

  /** Every posting, note and mapping names a txn row that exists (ids are rowids 1, 2, ...). */
  predicate RefersToTxns(db: Db) {
    (forall p :: p in db.postings ==> 1 <= p.txnId <= |db.txns|) &&
    (forall n :: n in db.txnNotes ==> 1 <= n.txnId <= |db.txns|) &&
    (forall n :: n in db.postingNotes ==> 1 <= n.txnId <= |db.txns|) &&
    (forall e :: e in db.txnMap ==> 1 <= e.txnId <= |db.txns|)
  }

  /** The tables the import engine only reads are untouched. */
  predicate SameConfiguration(db: Db, db': Db) {
    db'.accountMap == db.accountMap &&
    db'.rules == db.rules &&
    db'.currencies == db.currencies
  }

  /** `db'` is `db` with rows appended to the five tables a transaction import writes. */
  predicate Extends(db: Db, db': Db) {
    SameConfiguration(db, db') &&
    db'.assertions == db.assertions &&
    db.txns <= db'.txns &&
    db.postings <= db'.postings &&
    db.txnNotes <= db'.txnNotes &&
    db.postingNotes <= db'.postingNotes &&
    db.txnMap <= db'.txnMap
  }

  /** `db'` is `db` with rows appended to any of the tables an import writes, the assertions included. */
  predicate Grows(db: Db, db': Db) {
    SameConfiguration(db, db') &&
    db.assertions <= db'.assertions &&
    db.txns <= db'.txns &&
    db.postings <= db'.postings &&
    db.txnNotes <= db'.txnNotes &&
    db.postingNotes <= db'.postingNotes &&
    db.txnMap <= db'.txnMap
  }

  /**
   `INSERT OR IGNORE` of `rows`, one after the other, into a table whose
   unique key is the whole row: a row already present is skipped.
   */
  function InsertOrIgnore<T(==, !new)>(table: seq<T>, rows: seq<T>): (r: seq<T>)
    ensures table <= r
    ensures forall x :: x in r <==> x in table || x in rows
    ensures NoDuplicates(table) ==> NoDuplicates(r)
    decreases |rows|
  {
    if rows == [] then table
    else
      var t := InsertOrIgnore(table, rows[..|rows| - 1]);
      var x := rows[|rows| - 1];
      assert forall y :: y in rows <==> y in rows[..|rows| - 1] || y == x;
      if x in t then t else t + [x]
  }

  /** Inserting rows that are all present already changes nothing. */
  lemma {:induction false} InsertPresentIsNoOp<T(!new)>(table: seq<T>, rows: seq<T>)
    requires forall x :: x in rows ==> x in table
    ensures InsertOrIgnore(table, rows) == table
    decreases |rows|
  {
    if rows != [] {
      InsertPresentIsNoOp(table, rows[..|rows| - 1]);
    }
  }

  /** Re-inserting the same rows is a no-op: the table behaves as a set. */
  lemma ReinsertIsNoOp<T(!new)>(table: seq<T>, rows: seq<T>)
    ensures InsertOrIgnore(InsertOrIgnore(table, rows), rows) == InsertOrIgnore(table, rows)
  {
    InsertPresentIsNoOp(InsertOrIgnore(table, rows), rows);
  }

  /** `SELECT account_id FROM ofx_account_id_mapping WHERE ofx_id = ?`, first row. */
  function FindAccount(m: seq<AccountMapping>, ofxId: int): (r: Option<int>)
    ensures r.None? <==> forall k :: 0 <= k < |m| ==> m[k].ofxId != ofxId
    ensures r.Some? ==> AccountMapping(ofxId, r.value) in m
  {
    if m == [] then None
    else if m[0].ofxId == ofxId then Some(m[0].account)
    else FindAccount(m[1..], ofxId)
  }

  /** `SELECT id, divisor FROM currency WHERE name = ?`, first row. */
  function FindCurrency(cs: seq<Currency>, name: string): (r: Option<Currency>)
    ensures r.None? <==> forall k :: 0 <= k < |cs| ==> cs[k].name != name
    ensures r.Some? ==> r.value in cs && r.value.name == name
  {
    if cs == [] then None
    else if cs[0].name == name then Some(cs[0])
    else FindCurrency(cs[1..], name)
  }

  /** `SELECT txn_id FROM ofx_txn_id_mapping WHERE ofx_account = ? AND ofx_txn = ?` finds a row. */
  predicate IsMapped(m: seq<TxnMapping>, ofxAccount: int, ofxTxn: string) {
    exists k :: 0 <= k < |m| && m[k].ofxAccount == ofxAccount && m[k].ofxTxn == ofxTxn
  }

  /** The statement-level gate: an assertion with this date, account and balance exists. */
  predicate HasAssertion(a: seq<BalanceAssertion>, date: int, account: int, balance: int) {
    exists k :: 0 <= k < |a| && a[k].date == date && a[k].account == account && a[k].balance == balance
  }

  /** `SELECT txn_id FROM txn_note WHERE description LIKE ?`, first row (LIKE taken as equality). */
  function FindNoteTxn(notes: seq<TxnNote>, description: string): (r: Option<int>)
    ensures r.None? <==> forall k :: 0 <= k < |notes| ==> notes[k].description != description
    ensures r.Some? ==> TxnNote(r.value, description) in notes
  {
    if notes == [] then None
    else if notes[0].description == description then Some(notes[0].txnId)
    else FindNoteTxn(notes[1..], description)
  }

  /**
   Notes appended after a table that has none with this description: the
   lookup finds the appended notes' txn when they all name the same one.
   */
  lemma {:induction false} FindNoteTxnInAppended(notes: seq<TxnNote>, more: seq<TxnNote>, description: string, id: int)
    requires FindNoteTxn(notes, description).None?
    requires TxnNote(id, description) in more
    requires forall n :: n in more && n.description == description ==> n.txnId == id
    ensures FindNoteTxn(notes + more, description) == Some(id)
    decreases |notes|
  {
    if notes == [] {
      assert notes + more == more;
    } else {
      assert (notes + more)[1..] == notes[1..] + more;
      FindNoteTxnInAppended(notes[1..], more, description, id);
    }
  }

  /** `INSERT OR IGNORE` of notes into a table that has none with this description. */
  lemma InsertedNoteFound(table: seq<TxnNote>, rows: seq<TxnNote>, description: string, id: int)
    requires FindNoteTxn(table, description).None?
    requires TxnNote(id, description) in rows
    requires forall n :: n in rows && n.description == description ==> n.txnId == id
    ensures FindNoteTxn(InsertOrIgnore(table, rows), description) == Some(id)
  {
    var r := InsertOrIgnore(table, rows);
    var more := r[|table|..];
    assert r == table + more;
    var k :| 0 <= k < |r| && r[k] == TxnNote(id, description);
    assert more[k - |table|] == r[k];
    forall n | n in more && n.description == description
      ensures n.txnId == id
    {
      var j :| 0 <= j < |more| && more[j] == n;
      assert r[|table| + j] == n;
    }
    FindNoteTxnInAppended(table, more, description, id);
  }

  /** Appending a mapping for a key that is not mapped keeps every key mapped at most once. */
  lemma AppendUnmappedKeepsUnique(m: seq<TxnMapping>, e: TxnMapping)
    requires MappingUnique(m)
    requires !IsMapped(m, e.ofxAccount, e.ofxTxn)
    ensures MappingUnique(m + [e])
    ensures IsMapped(m + [e], e.ofxAccount, e.ofxTxn)
  {
    var m' := m + [e];
    assert m'[|m|] == e;
    forall i, j | 0 <= i < j < |m'|
      ensures m'[i].ofxAccount != m'[j].ofxAccount || m'[i].ofxTxn != m'[j].ofxTxn
    {
      if j == |m| {
        assert m'[i] == m[i];
      }
    }
  }

  /** Appending a mapping for another key leaves an unmapped key unmapped. */
  lemma AppendOtherKeepsUnmapped(m: seq<TxnMapping>, e: TxnMapping, ofxAccount: int, ofxTxn: string)
    requires !IsMapped(m, ofxAccount, ofxTxn)
    requires e.ofxAccount != ofxAccount || e.ofxTxn != ofxTxn
    ensures !IsMapped(m + [e], ofxAccount, ofxTxn)
  {
    var m' := m + [e];
    forall k | 0 <= k < |m'|
      ensures m'[k].ofxAccount != ofxAccount || m'[k].ofxTxn != ofxTxn
    {
      if k < |m| {
        assert m'[k] == m[k];
      }
    }
  }

  /** Mapped keys stay mapped when rows are appended. */
  lemma MappedStaysMapped(m: seq<TxnMapping>, m': seq<TxnMapping>, ofxAccount: int, ofxTxn: string)
    requires m <= m'
    requires IsMapped(m, ofxAccount, ofxTxn)
    ensures IsMapped(m', ofxAccount, ofxTxn)
  {
    var k :| 0 <= k < |m| && m[k].ofxAccount == ofxAccount && m[k].ofxTxn == ofxTxn;
    assert m'[k] == m[k];
  }
}
