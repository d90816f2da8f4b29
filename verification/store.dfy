/**
 The SQLite store as an object whose tables the import updates in place.

 Each method does what the corresponding statements of `convertOfx` and
 `extractPostings` do, in the same order, and is proved to leave the store
 in the state the functions of module Import describe.
 */
module Store {
  import opened Tables
  import opened Amounts
  import opened Rules
  import opened Import

  class Ledger {
    var txns: seq<Txn>
    var postings: seq<Posting>
    var txnNotes: seq<TxnNote>
    var postingNotes: seq<PostingNote>
    var txnMap: seq<TxnMapping>
    var accountMap: seq<AccountMapping>
    var assertions: seq<BalanceAssertion>
    var rules: seq<PayeeRule>
    var currencies: seq<Currency>

    /** The contents of all tables. */
    function State(): Db
      reads this
    {
      Db(txns, postings, txnNotes, postingNotes, txnMap, accountMap, assertions, rules, currencies)
    }

    /** A connection to a store holding `db`. */
    constructor (db: Db)
      ensures State() == db
    {
      txns := db.txns;
      postings := db.postings;
      txnNotes := db.txnNotes;
      postingNotes := db.postingNotes;
      txnMap := db.txnMap;
      accountMap := db.accountMap;
      assertions := db.assertions;
      rules := db.rules;
      currencies := db.currencies;
    }

    /** `INSERT INTO txn (date) VALUES (?)`, returning `lastrowid`. */
    method InsertTxn(date: int) returns (id: int)
      modifies this`txns
      ensures id == |old(txns)| + 1
      ensures txns == old(txns) + [Txn(id, date)]
    {
      id := |txns| + 1;
      txns := txns + [Txn(id, date)];
    }

    /** `executemany` of `INSERT INTO posting`. */
    method InsertPostings(rows: seq<Posting>)
      modifies this`postings
      ensures postings == old(postings) + rows
    {
      var i := 0;
      while i < |rows|
        invariant 0 <= i <= |rows|
        invariant postings == old(postings) + rows[..i]
      {
        assert rows[..i + 1] == rows[..i] + [rows[i]];
        postings := postings + [rows[i]];
        i := i + 1;
      }
      assert rows[..i] == rows;
    }

    /** `executemany` of `INSERT OR IGNORE INTO txn_note`. */
    method InsertTxnNotes(rows: seq<TxnNote>)
      modifies this`txnNotes
      ensures txnNotes == InsertOrIgnore(old(txnNotes), rows)
    {
      var i := 0;
      while i < |rows|
        invariant 0 <= i <= |rows|
        invariant txnNotes == InsertOrIgnore(old(txnNotes), rows[..i])
      {
        assert rows[..i + 1][..i] == rows[..i];
        if rows[i] !in txnNotes {
          txnNotes := txnNotes + [rows[i]];
        }
        i := i + 1;
      }
      assert rows[..i] == rows;
    }

    /** `executemany` of `INSERT OR IGNORE INTO posting_note`. */
    method InsertPostingNotes(rows: seq<PostingNote>)
      modifies this`postingNotes
      ensures postingNotes == InsertOrIgnore(old(postingNotes), rows)
    {
      var i := 0;
      while i < |rows|
        invariant 0 <= i <= |rows|
        invariant postingNotes == InsertOrIgnore(old(postingNotes), rows[..i])
      {
        assert rows[..i + 1][..i] == rows[..i];
        if rows[i] !in postingNotes {
          postingNotes := postingNotes + [rows[i]];
        }
        i := i + 1;
      }
      assert rows[..i] == rows;
    }

    /**
     `extractPostings`: the primary posting, and the balancing posting with its
     note when exactly one rule matches; more than one match fails before
     anything is written.
     */
    method ExtractPostings(account: int, txnId: int, t: OfxTxn, cur: Currency) returns (r: Outcome<ImportError>)
      modifies this`postings, this`postingNotes
      ensures var alloc := Allocate(rules, account, txnId, Scale(t.amount, cur.divisor), cur.id, t.payee);
        alloc.Err? ==> r == Fail(alloc.error) && postings == old(postings) && postingNotes == old(postingNotes)
      ensures var alloc := Allocate(rules, account, txnId, Scale(t.amount, cur.divisor), cur.id, t.payee);
        alloc.Ok? ==>
          r == Pass && postings == old(postings) + alloc.value.postings &&
          postingNotes == InsertOrIgnore(old(postingNotes), alloc.value.notes)
    {
      var amount := Scale(t.amount, cur.divisor);
      ghost var alloc := Allocate(rules, account, txnId, amount, cur.id, t.payee);
      var rows := [Posting(txnId, account, amount, cur.id)];
      var notes: seq<PostingNote> := [];
      var matched := MatchingRules(rules, t.payee);
      if |matched| > 1 {
        assert alloc == Err(AmbiguousPayee(t.payee, matched));
        return Fail(AmbiguousPayee(t.payee, matched));
      } else if |matched| == 1 {
        rows := rows + [Posting(txnId, matched[0].account, -amount, cur.id)];
        notes := notes + [PostingNote(txnId, matched[0].account, RuleNote(matched[0]))];
        assert rows == [Posting(txnId, account, amount, cur.id), Posting(txnId, matched[0].account, -amount, cur.id)];
        assert notes == [PostingNote(txnId, matched[0].account, RuleNote(matched[0]))];
      }
      assert alloc == Ok(Allocation(rows, notes));
      InsertPostings(rows);
      InsertPostingNotes(notes);
      r := Pass;
    }

    /**
     The txn a transaction is booked to: an Autosave transfer whose memo is
     already a txn note joins that txn; otherwise a new txn row is inserted.
     */
    method ResolveTxn(t: OfxTxn) returns (id: int)
      modifies this`txns
      ensures id == TargetTxn(old(State()), t)
      ensures txns == if ReusedTxn(old(State()), t).Some? then old(txns) else old(txns) + [Txn(id, t.date)]
    {
      var found: Option<int> := None;
      if AutosavePrefix <= t.payee && HasMemo(t) {
        found := FindNoteTxn(txnNotes, t.memo);
      }
      if found.None? || found.value == 0 {
        id := InsertTxn(t.date);
      } else {
        id := found.value;
      }
    }

    /**
     The loop body of `convertOfx` for a transaction that is not yet mapped:
     resolve its txn, extract its postings, add its notes, record its
     mapping. The mapping is written last, so a failure in `extractPostings`
     leaves the transaction unmapped.
     */
    method BookTxn(account: int, cur: Currency, t: OfxTxn) returns (r: Outcome<ImportError>)
      modifies this`txns, this`postings, this`txnNotes, this`postingNotes, this`txnMap
      ensures var alloc := AllocationFor(old(State()), account, cur, TargetTxn(old(State()), t), t);
        alloc.Err? ==>
          r == Fail(alloc.error) &&
          txns == (if ReusedTxn(old(State()), t).Some? then old(txns)
                   else old(txns) + [Txn(TargetTxn(old(State()), t), t.date)]) &&
          postings == old(postings) &&
          postingNotes == old(postingNotes) && txnNotes == old(txnNotes) && txnMap == old(txnMap)
      ensures var id := TargetTxn(old(State()), t);
        var alloc := AllocationFor(old(State()), account, cur, id, t);
        alloc.Ok? ==>
          r == Pass &&
          txns == (if ReusedTxn(old(State()), t).Some? then old(txns) else old(txns) + [Txn(id, t.date)]) &&
          postings == old(postings) + alloc.value.postings &&
          postingNotes == InsertOrIgnore(old(postingNotes), alloc.value.notes) &&
          txnNotes == InsertOrIgnore(old(txnNotes), NotesFor(id, t)) &&
          txnMap == old(txnMap) + [TxnMapping(account, t.id, id)]
    {
      ghost var db := State();
      var txnId := ResolveTxn(t);
      ghost var alloc := AllocationFor(db, account, cur, txnId, t);
      assert alloc == Allocate(rules, account, txnId, Scale(t.amount, cur.divisor), cur.id, t.payee);
      var notes := [TxnNote(txnId, t.payee)];
      if HasMemo(t) {
        notes := notes + [TxnNote(txnId, t.memo)];
      }
      assert notes == NotesFor(txnId, t);
      r := ExtractPostings(account, txnId, t, cur);
      if r.Fail? {
        return;
      }
      InsertTxnNotes(notes);
      txnMap := txnMap + [TxnMapping(account, t.id, txnId)];
    }

    /** One pass of the loop of `convertOfx`: a mapped transaction is skipped. */
    method ImportTxn(account: int, cur: Currency, t: OfxTxn) returns (r: Outcome<ImportError>)
      modifies this`txns, this`postings, this`txnNotes, this`postingNotes, this`txnMap
      ensures r.Pass? ==> StepTxn(old(State()), account, cur, t) == Ok(State())
      ensures r.Fail? ==> StepTxn(old(State()), account, cur, t) == Err(r.error)
      ensures r.Fail? ==> Extends(old(State()), State())
      ensures r.Fail? ==>
        txns == (if ReusedTxn(old(State()), t).Some? then old(txns)
                 else old(txns) + [Txn(TargetTxn(old(State()), t), t.date)])
      ensures r.Fail? ==>
        txnMap == old(txnMap) && postings == old(postings) && txnNotes == old(txnNotes) &&
        postingNotes == old(postingNotes)
    {
      if IsMapped(txnMap, account, t.id) {
        return Pass;
      }
      ghost var db := State();
      r := BookTxn(account, cur, t);
      if r.Fail? {
        StepTxnFails(db, account, cur, t);
      } else {
        StepTxnBooks(db, account, cur, t);
      }
    }

    /** The loop of `convertOfx` over a statement's transactions; the first failure ends it. */
    method ImportTransactions(account: int, cur: Currency, ts: seq<OfxTxn>) returns (r: Outcome<ImportError>)
      modifies this`txns, this`postings, this`txnNotes, this`postingNotes, this`txnMap
      ensures r.Pass? ==> ImportTxns(old(State()), account, cur, ts) == Ok(State())
      ensures r.Fail? ==> ImportTxns(old(State()), account, cur, ts) == Err(r.error)
      ensures r.Fail? ==> Extends(old(State()), State())
      ensures r.Fail? ==> StoppedAt(old(State()), account, cur, ts, r.error, State())
    {
      ghost var db := State();
      var i := 0;
      while i < |ts|
        invariant 0 <= i <= |ts|
        invariant ImportTxns(db, account, cur, ts[..i]) == Ok(State())
      {
        ImportTxnsNext(db, account, cur, ts, i, State());
        ghost var d := State();
        var step := ImportTxn(account, cur, ts[i]);
        if step.Fail? {
          assert FailedStep(d, ts[i], State());
          assert ImportTxns(db, account, cur, ts[..i]) == Ok(d) && StepTxn(d, account, cur, ts[i]) == Err(step.error);
          ImportTxnsErrSticks(db, account, cur, ts, i + 1);
          return Fail(step.error);
        }
        i := i + 1;
      }
      assert ts[..i] == ts;
      r := Pass;
    }

    /**
     `convertOfx` on a parsed statement. On a fatal error the rows written so
     far stay in place (the run's rollback removes them) and no assertion is
     recorded.
     */
    method ConvertOfx(stmt: Statement) returns (r: Result<Disposition, ImportError>)
      requires Valid(State())
      modifies this`txns, this`postings, this`txnNotes, this`postingNotes, this`txnMap, this`assertions
      ensures r.Ok? ==> ConvertStatement(old(State()), stmt) == Ok(Converted(r.value, State()))
      ensures r.Ok? ==> Valid(State())
      ensures r.Err? ==> ConvertStatement(old(State()), stmt) == Err(r.error)
      ensures r.Err? ==> Extends(old(State()), State())
      ensures r == Err(UnknownCurrency(HomeCurrency)) ==> State() == old(State())
      ensures r.Err? && r.error.AmbiguousPayee? ==>
        var account := FindAccount(old(accountMap), stmt.ofxAccountId);
        var cur := FindCurrency(old(currencies), HomeCurrency);
        account.Some? && cur.Some? &&
        StoppedAt(old(State()), account.value, cur.value, stmt.transactions, r.error, State())
    {
      var accountRow := FindAccount(accountMap, stmt.ofxAccountId);
      if accountRow.None? {
        return Ok(UnknownAccount);
      }
      var account := accountRow.value;
      var currencyRow := FindCurrency(currencies, HomeCurrency);
      if currencyRow.None? {
        return Err(UnknownCurrency(HomeCurrency));
      }
      var cur := currencyRow.value;
      var balance := Scale(stmt.balance, cur.divisor);
      if HasAssertion(assertions, stmt.balanceDate, account, balance) {
        return Ok(AlreadyImported);
      }
      ghost var db := State();
      ConvertStatementImports(db, stmt, account, cur);
      var imported := ImportTransactions(account, cur, stmt.transactions);
      if imported.Fail? {
        return Err(imported.error);
      }
      ImportTxnsKeepsValid(db, account, cur, stmt.transactions);
      assertions := assertions + [BalanceAssertion(stmt.balanceDate, account, balance, cur.id)];
      r := Ok(Imported);
    }

    /** Undo every write since `snapshot` was taken (the connection's rollback). */
    method Rollback(snapshot: Db)
      modifies this`txns, this`postings, this`txnNotes, this`postingNotes, this`txnMap, this`assertions
      ensures txns == snapshot.txns && postings == snapshot.postings && txnNotes == snapshot.txnNotes
      ensures postingNotes == snapshot.postingNotes && txnMap == snapshot.txnMap
      ensures assertions == snapshot.assertions
    {
      txns := snapshot.txns;
      postings := snapshot.postings;
      txnNotes := snapshot.txnNotes;
      postingNotes := snapshot.postingNotes;
      txnMap := snapshot.txnMap;
      assertions := snapshot.assertions;
    }

    /**
     An import run inside `with sqlite3.connect(...) as db`: the statements
     in order; a fatal error rolls the whole run back.
     */
    method ImportOfxStatements(stmts: seq<Statement>) returns (r: Outcome<ImportError>)
      requires Valid(State())
      modifies this`txns, this`postings, this`txnNotes, this`postingNotes, this`txnMap, this`assertions
      ensures Valid(State())
      ensures r.Pass? ==> ImportRun(old(State()), stmts) == Ok(State())
      ensures r.Fail? ==> ImportRun(old(State()), stmts) == Err(r.error) && State() == old(State())
    {
      var snapshot := State();
      var i := 0;
      while i < |stmts|
        invariant 0 <= i <= |stmts|
        invariant ImportRun(snapshot, stmts[..i]) == Ok(State())
        invariant Valid(State())
      {
        ImportRunNext(snapshot, stmts, i, State());
        var res := ConvertOfx(stmts[i]);
        if res.Err? {
          ImportRunErrSticks(snapshot, stmts, i + 1);
          Rollback(snapshot);
          return Fail(res.error);
        }
        i := i + 1;
      }
      assert stmts[..i] == stmts;
      r := Pass;
    }
  }
}
