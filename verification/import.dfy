/**
 The import of OFX statements (`convertOfx`) as functions of the store.

 These functions are the specification the imperative `Ledger` methods are
 proved against, and the lemmas below state what an import guarantees:
 skipping of mapped transactions, reuse of transfer legs, balanced postings
 when a rule matched, the fatal ambiguity check, uniqueness of mappings and
 idempotent reimport.
 */
module Import {
  import opened Tables
  import opened Amounts
  import opened Rules
  import opened Balances

  /** One transaction of a parsed statement; `memo` is "" when the statement gives none. */
  datatype OfxTxn = OfxTxn(id: string, date: int, payee: string, memo: string, amount: real)

  /** A parsed statement: the OFX account number, the closing balance and its date, the transactions. */
  datatype Statement = Statement(ofxAccountId: int, balance: real, balanceDate: int, transactions: seq<OfxTxn>)

  /** How a statement that did not abort was handled. */
  datatype Disposition = UnknownAccount | AlreadyImported | Imported

  datatype Converted = Converted(disposition: Disposition, db: Db)

  /** The payee prefix of the transfer legs that are merged into one txn. */
  const AutosavePrefix: string := "Autosave"

  /** The only currency statements are imported in. */
  const HomeCurrency: string := "USD"

  /** A memo is present when it is a non-empty string (Python truthiness). */
  predicate HasMemo(t: OfxTxn) {
    |t.memo| > 0
  }

  /**
   The existing txn an "Autosave" transfer leg is merged into: the txn of
   the first note whose text is the memo. A txn id of 0 is falsy and
   counts as not found.
   */
  function ReusedTxn(db: Db, t: OfxTxn): (r: Option<int>)
    ensures r.Some? ==>
      AutosavePrefix <= t.payee && HasMemo(t) && r.value != 0 && TxnNote(r.value, t.memo) in db.txnNotes
    ensures r.None? && AutosavePrefix <= t.payee && HasMemo(t) ==>
      FindNoteTxn(db.txnNotes, t.memo) in {None, Some(0)}
  {
    if AutosavePrefix <= t.payee && HasMemo(t) then
      match FindNoteTxn(db.txnNotes, t.memo)
      case Some(id) => if id != 0 then Some(id) else None
      case None => None
    else None
  }

  /** The txn a new statement transaction is booked to: the reused one or the next rowid. */
  function TargetTxn(db: Db, t: OfxTxn): int {
    match ReusedTxn(db, t)
    case Some(id) => id
    case None => |db.txns| + 1
  }

  /** The txn notes of a transaction: the payee, then the memo when present. */
  function NotesFor(txnId: int, t: OfxTxn): seq<TxnNote> {
    [TxnNote(txnId, t.payee)] + if HasMemo(t) then [TxnNote(txnId, t.memo)] else []
  }

  /** The postings of a transaction, booked to `txnId` in currency `cur`. */
  function AllocationFor(db: Db, account: int, cur: Currency, txnId: int, t: OfxTxn)
    : Result<Allocation, ImportError>
  {
    Allocate(db.rules, account, txnId, Scale(t.amount, cur.divisor), cur.id, t.payee)
  }

  /**
   One pass of the loop over `stmt.transactions`: skip a mapped transaction;
   otherwise reuse or create its txn, allocate its postings, add its notes
   and record its mapping.
   */
  function StepTxn(db: Db, account: int, cur: Currency, t: OfxTxn): Result<Db, ImportError> {
    if IsMapped(db.txnMap, account, t.id) then Ok(db)
    else
      var txnId := TargetTxn(db, t);
      match AllocationFor(db, account, cur, txnId, t)
      case Err(e) => Err(e)
      case Ok(alloc) =>
        Ok(db.(
          txns := if ReusedTxn(db, t).Some? then db.txns else db.txns + [Txn(txnId, t.date)],
          postings := db.postings + alloc.postings,
          postingNotes := InsertOrIgnore(db.postingNotes, alloc.notes),
          txnNotes := InsertOrIgnore(db.txnNotes, NotesFor(txnId, t)),
          txnMap := db.txnMap + [TxnMapping(account, t.id, txnId)]))
  }

  /**
   One pass skips a mapped transaction; on an unmapped one it fails exactly
   when the payee matches more than one rule, and otherwise only appends
   rows and leaves the transaction mapped.
   */
  lemma StepTxnSpec(db: Db, account: int, cur: Currency, t: OfxTxn)
    ensures IsMapped(db.txnMap, account, t.id) ==> StepTxn(db, account, cur, t) == Ok(db)
    ensures !IsMapped(db.txnMap, account, t.id) ==>
      (StepTxn(db, account, cur, t).Err? <==> |MatchingRules(db.rules, t.payee)| > 1)
    ensures var r := StepTxn(db, account, cur, t);
      r.Err? ==> r.error == AmbiguousPayee(t.payee, MatchingRules(db.rules, t.payee))
    ensures var r := StepTxn(db, account, cur, t);
      r.Ok? ==> Extends(db, r.value) && IsMapped(r.value.txnMap, account, t.id)
  {
    if !IsMapped(db.txnMap, account, t.id) {
      var txnId := TargetTxn(db, t);
      AllocateSpec(db.rules, account, txnId, Scale(t.amount, cur.divisor), cur.id, t.payee);
      var mapping := TxnMapping(account, t.id, txnId);
      assert (db.txnMap + [mapping])[|db.txnMap|] == mapping;
    }
  }

  /** One pass on an unmapped transaction whose allocation fails fails with that error. */
  lemma StepTxnFails(db: Db, account: int, cur: Currency, t: OfxTxn)
    requires !IsMapped(db.txnMap, account, t.id)
    requires AllocationFor(db, account, cur, TargetTxn(db, t), t).Err?
    ensures StepTxn(db, account, cur, t) == Err(AllocationFor(db, account, cur, TargetTxn(db, t), t).error)
  {
  }

  /** One pass on an unmapped transaction whose allocation succeeds, written out table by table. */
  lemma StepTxnBooks(db: Db, account: int, cur: Currency, t: OfxTxn)
    requires !IsMapped(db.txnMap, account, t.id)
    requires AllocationFor(db, account, cur, TargetTxn(db, t), t).Ok?
    ensures var alloc := AllocationFor(db, account, cur, TargetTxn(db, t), t).value;
      var txnId := TargetTxn(db, t);
      StepTxn(db, account, cur, t) == Ok(db.(
        txns := if ReusedTxn(db, t).Some? then db.txns else db.txns + [Txn(txnId, t.date)],
        postings := db.postings + alloc.postings,
        postingNotes := InsertOrIgnore(db.postingNotes, alloc.notes),
        txnNotes := InsertOrIgnore(db.txnNotes, NotesFor(txnId, t)),
        txnMap := db.txnMap + [TxnMapping(account, t.id, txnId)]))
  {
  }

  /** The loop over a statement's transactions, in order; the first ambiguous payee aborts it. */
  function ImportTxns(db: Db, account: int, cur: Currency, ts: seq<OfxTxn>): (r: Result<Db, ImportError>)
    ensures r.Ok? ==> Extends(db, r.value)
    ensures r.Err? ==> exists t :: t in ts && r.error == AmbiguousPayee(t.payee, MatchingRules(db.rules, t.payee))
    decreases |ts|
  {
    if ts == [] then Ok(db)
    else
      var t := ts[|ts| - 1];
      assert t in ts;
      assert forall x :: x in ts[..|ts| - 1] ==> x in ts;
      match ImportTxns(db, account, cur, ts[..|ts| - 1])
      case Err(e) => Err(e)
      case Ok(d) =>
        StepTxnSpec(d, account, cur, t);
        StepTxn(d, account, cur, t)
  }

  /** The notes of a transaction all name its txn: the payee always, the memo exactly when present. */
  lemma NotesForSpec(txnId: int, t: OfxTxn)
    ensures forall n :: n in NotesFor(txnId, t) ==>
      n.txnId == txnId && (n.description == t.payee || (HasMemo(t) && n.description == t.memo))
    ensures TxnNote(txnId, t.payee) in NotesFor(txnId, t)
    ensures HasMemo(t) ==> TxnNote(txnId, t.memo) in NotesFor(txnId, t)
    ensures |NotesFor(txnId, t)| == if HasMemo(t) then 2 else 1
  {
  }

  /** The balance assertion a statement records. */
  function AssertionOf(stmt: Statement, account: int, cur: Currency): BalanceAssertion {
    BalanceAssertion(stmt.balanceDate, account, Scale(stmt.balance, cur.divisor), cur.id)
  }

  /**
   `convertOfx` on a parsed statement: resolve the account (unknown: return
   with nothing written) and the USD currency (unknown: fatal), stop if the
   statement's assertion is already recorded, import the transactions, and
   record the assertion last.
   */
  function ConvertStatement(db: Db, stmt: Statement): Result<Converted, ImportError>
  {
    match FindAccount(db.accountMap, stmt.ofxAccountId)
    case None => Ok(Converted(UnknownAccount, db))
    case Some(account) =>
      match FindCurrency(db.currencies, HomeCurrency)
      case None => Err(UnknownCurrency(HomeCurrency))
      case Some(cur) =>
        var a := AssertionOf(stmt, account, cur);
        if HasAssertion(db.assertions, a.date, a.account, a.balance) then
          Ok(Converted(AlreadyImported, db))
        else
          match ImportTxns(db, account, cur, stmt.transactions)
          case Err(e) => Err(e)
          case Ok(d) => Ok(Converted(Imported, d.(assertions := d.assertions + [a])))
  }

  /**
   What handling a statement does: an unknown account writes nothing, an
   unknown currency is an error before any write, an assertion with the
   statement's date, account and balance already recorded (by this or any
   other statement) stops it with nothing written; otherwise the tables only grow,
   the statement's assertion is appended last, and the only other error is
   an ambiguous payee of one of its transactions.
   */
  lemma ConvertStatementSpec(db: Db, stmt: Statement)
    ensures FindAccount(db.accountMap, stmt.ofxAccountId).None? ==>
      ConvertStatement(db, stmt) == Ok(Converted(UnknownAccount, db))
    ensures FindAccount(db.accountMap, stmt.ofxAccountId).Some? && FindCurrency(db.currencies, HomeCurrency).None? ==>
      ConvertStatement(db, stmt) == Err(UnknownCurrency(HomeCurrency))
    ensures var account := FindAccount(db.accountMap, stmt.ofxAccountId);
      var cur := FindCurrency(db.currencies, HomeCurrency);
      account.Some? && cur.Some? &&
      HasAssertion(db.assertions, stmt.balanceDate, account.value, Scale(stmt.balance, cur.value.divisor)) ==>
        ConvertStatement(db, stmt) == Ok(Converted(AlreadyImported, db))
    ensures var r := ConvertStatement(db, stmt);
      r.Ok? && r.value.disposition != Imported ==> r.value.db == db
    ensures var r := ConvertStatement(db, stmt);
      r.Ok? ==> Grows(db, r.value.db)
    ensures var r := ConvertStatement(db, stmt);
      r.Ok? && r.value.disposition == Imported ==>
        var account := FindAccount(db.accountMap, stmt.ofxAccountId).value;
        var cur := FindCurrency(db.currencies, HomeCurrency).value;
        var a := AssertionOf(stmt, account, cur);
        !HasAssertion(db.assertions, a.date, a.account, a.balance) &&
        r.value.db.assertions == db.assertions + [a]
    ensures var r := ConvertStatement(db, stmt);
      r.Err? ==>
        r.error == UnknownCurrency(HomeCurrency) ||
        exists t :: t in stmt.transactions && r.error == AmbiguousPayee(t.payee, MatchingRules(db.rules, t.payee))
  {
  }

  /** A statement for a known account, in a known currency, not yet asserted: its transactions are imported and its assertion recorded. */
  lemma ConvertStatementImports(db: Db, stmt: Statement, account: int, cur: Currency)
    requires FindAccount(db.accountMap, stmt.ofxAccountId) == Some(account)
    requires FindCurrency(db.currencies, HomeCurrency) == Some(cur)
    requires !HasAssertion(db.assertions, stmt.balanceDate, account, Scale(stmt.balance, cur.divisor))
    ensures var imported := ImportTxns(db, account, cur, stmt.transactions);
      imported.Err? ==> ConvertStatement(db, stmt) == Err(imported.error)
    ensures var imported := ImportTxns(db, account, cur, stmt.transactions);
      imported.Ok? ==>
        ConvertStatement(db, stmt) ==
        Ok(Converted(Imported, imported.value.(assertions := imported.value.assertions + [AssertionOf(stmt, account, cur)])))
  {
  }

  /** An import run: the statements in order, the whole run aborting on the first fatal error. */
  function ImportRun(db: Db, stmts: seq<Statement>): (r: Result<Db, ImportError>)
    ensures r.Ok? ==> Grows(db, r.value)
    decreases |stmts|
  {
    if stmts == [] then Ok(db)
    else
      match ImportRun(db, stmts[..|stmts| - 1])
      case Err(e) => Err(e)
      case Ok(d) =>
        ConvertStatementSpec(d, stmts[|stmts| - 1]);
        match ConvertStatement(d, stmts[|stmts| - 1])
        case Err(e) => Err(e)
        case Ok(c) => Ok(c.db)
  }

  // ---------------------------------------------------------------------
  // Properties of one transaction

  /** The store invariants survive one transaction: in particular no external key is mapped twice. */
  lemma StepTxnKeepsValid(db: Db, account: int, cur: Currency, t: OfxTxn)
    requires Valid(db)
    requires StepTxn(db, account, cur, t).Ok?
    ensures Valid(StepTxn(db, account, cur, t).value)
  {
    if !IsMapped(db.txnMap, account, t.id) {
      var d := StepTxn(db, account, cur, t).value;
      AppendUnmappedKeepsUnique(db.txnMap, TxnMapping(account, t.id, TargetTxn(db, t)));
      if ReusedTxn(db, t).None? {
        assert d.txns == db.txns + [Txn(|db.txns| + 1, t.date)];
      }
      StepTxnKeepsRefs(db, account, cur, t, d);
    }
  }

  /** A booked transaction's rows all name its target txn, which exists afterwards. */
  lemma StepTxnKeepsRefs(db: Db, account: int, cur: Currency, t: OfxTxn, d: Db)
    requires RefersToTxns(db)
    requires !IsMapped(db.txnMap, account, t.id)
    requires StepTxn(db, account, cur, t) == Ok(d)
    ensures RefersToTxns(d)
  {
    var id := TargetTxn(db, t);
    StepTxnBooksTarget(db, account, cur, t, d);
    assert 1 <= id <= |d.txns| by {
      if ReusedTxn(db, t).Some? {
        assert TxnNote(id, t.memo) in db.txnNotes;
      }
    }
    forall p | p in d.postings
      ensures 1 <= p.txnId <= |d.txns|
    {
      var k :| 0 <= k < |d.postings| && d.postings[k] == p;
      if k < |db.postings| {
        assert db.postings[k] == p;
      }
    }
    forall n | n in d.txnNotes
      ensures 1 <= n.txnId <= |d.txns|
    {
      assert n in db.txnNotes || n in NotesFor(id, t);
    }
    forall e | e in d.txnMap
      ensures 1 <= e.txnId <= |d.txns|
    {
      assert e in db.txnMap || e == TxnMapping(account, t.id, id);
    }
  }

  /**
   A transaction whose payee matches exactly one rule adds a balanced pair
   of postings, so it leaves the count of imbalanced txns unchanged.
   */
  lemma RuleMatchBalances(db: Db, account: int, cur: Currency, t: OfxTxn)
    requires !IsMapped(db.txnMap, account, t.id)
    requires |MatchingRules(db.rules, t.payee)| == 1
    ensures StepTxn(db, account, cur, t).Ok?
    ensures var d := StepTxn(db, account, cur, t).value;
      |d.postings| == |db.postings| + 2 && Sum(d.postings[|db.postings|..]) == 0 &&
      ImbalanceCount(d.postings) == ImbalanceCount(db.postings)
  {
    var d := StepTxn(db, account, cur, t).value;
    AllocateSpec(db.rules, account, TargetTxn(db, t), Scale(t.amount, cur.divisor), cur.id, t.payee);
    var alloc := AllocationFor(db, account, cur, TargetTxn(db, t), t).value;
    assert d.postings == db.postings + alloc.postings;
    assert d.postings[|db.postings|..] == alloc.postings;
    AppendBalancedGroup(db.postings, alloc.postings, TargetTxn(db, t));
  }

  /**
   A new transaction whose payee matches no rule is booked single-sided to
   a fresh txn: one posting, which leaves that txn imbalanced when non-zero
   and balanced when the scaled amount is zero.
   */
  lemma NoRuleSingleLeg(db: Db, account: int, cur: Currency, t: OfxTxn)
    requires RefersToTxns(db)
    requires !IsMapped(db.txnMap, account, t.id) && ReusedTxn(db, t).None?
    requires |MatchingRules(db.rules, t.payee)| == 0
    ensures StepTxn(db, account, cur, t).Ok?
    ensures var d := StepTxn(db, account, cur, t).value;
      d.postings == db.postings + [Posting(|db.txns| + 1, account, Scale(t.amount, cur.divisor), cur.id)] &&
      d.postingNotes == db.postingNotes
    ensures var d := StepTxn(db, account, cur, t).value;
      (Scale(t.amount, cur.divisor) != 0 ==> ImbalanceCount(d.postings) == ImbalanceCount(db.postings) + 1) &&
      (Scale(t.amount, cur.divisor) == 0 ==> ImbalanceCount(d.postings) == ImbalanceCount(db.postings))
  {
    var id := |db.txns| + 1;
    var p := Posting(id, account, Scale(t.amount, cur.divisor), cur.id);
    assert TargetTxn(db, t) == id;
    AllocateSpec(db.rules, account, id, Scale(t.amount, cur.divisor), cur.id, t.payee);
    assert AllocationFor(db, account, cur, id, t) == Ok(Allocation([p], []));
    StepTxnBooks(db, account, cur, t);
    assert forall q :: q in db.postings ==> q.txnId != p.txnId;
    assert p.txnId !in TxnIds(db.postings);
    if p.amount != 0 {
      AppendSingleLeg(db.postings, p);
    } else {
      assert Sum([p]) == 0;
      AppendBalancedGroup(db.postings, [p], id);
    }
  }

  /**
   A booked transaction's effect, stated for the txn it lands in: the txn row
   (when new), the mapping, the notes and every new posting refer to that txn.
   */
  lemma StepTxnBooksTarget(db: Db, account: int, cur: Currency, t: OfxTxn, d: Db)
    requires !IsMapped(db.txnMap, account, t.id)
    requires StepTxn(db, account, cur, t) == Ok(d)
    ensures d.txns == if ReusedTxn(db, t).Some? then db.txns else db.txns + [Txn(TargetTxn(db, t), t.date)]
    ensures d.txnMap == db.txnMap + [TxnMapping(account, t.id, TargetTxn(db, t))]
    ensures d.txnNotes == InsertOrIgnore(db.txnNotes, NotesFor(TargetTxn(db, t), t))
    ensures db.postings <= d.postings
    ensures forall k :: |db.postings| <= k < |d.postings| ==> d.postings[k].txnId == TargetTxn(db, t)
    ensures forall n :: n in d.postingNotes ==> n in db.postingNotes || n.txnId == TargetTxn(db, t)
  {
    var id := TargetTxn(db, t);
    AllocateSpec(db.rules, account, id, Scale(t.amount, cur.divisor), cur.id, t.payee);
    StepTxnBooks(db, account, cur, t);
    var alloc := AllocationFor(db, account, cur, id, t).value;
    forall k | |db.postings| <= k < |d.postings|
      ensures d.postings[k].txnId == id
    {
      assert d.postings[k] == alloc.postings[k - |db.postings|];
    }
  }

  /**
   The first leg of an "Autosave" transfer whose memo is not yet a note:
   a new txn is created and the memo noted on it.
   */
  lemma FirstLegNotesMemo(db: Db, account: int, cur: Currency, t: OfxTxn, d: Db)
    requires AutosavePrefix <= t.payee && HasMemo(t)
    requires FindNoteTxn(db.txnNotes, t.memo).None?
    requires !IsMapped(db.txnMap, account, t.id)
    requires StepTxn(db, account, cur, t) == Ok(d)
    ensures d.txns == db.txns + [Txn(|db.txns| + 1, t.date)]
    ensures d.txnMap == db.txnMap + [TxnMapping(account, t.id, |db.txns| + 1)]
    ensures FindNoteTxn(d.txnNotes, t.memo) == Some(|db.txns| + 1)
    ensures forall k :: |db.postings| <= k < |d.postings| ==> d.postings[k].txnId == |db.txns| + 1
    ensures db.postings <= d.postings
  {
    assert ReusedTxn(db, t).None?;
    StepTxnBooksTarget(db, account, cur, t, d);
    InsertedNoteFound(db.txnNotes, NotesFor(|db.txns| + 1, t), t.memo, |db.txns| + 1);
  }

  /**
   An "Autosave" leg whose memo is already noted on a txn joins that txn:
   no txn row is added and its postings are booked to the noted txn.
   */
  lemma LaterLegJoinsTxn(db: Db, account: int, cur: Currency, t: OfxTxn, id: int, d: Db)
    requires AutosavePrefix <= t.payee && HasMemo(t)
    requires FindNoteTxn(db.txnNotes, t.memo) == Some(id) && id != 0
    requires !IsMapped(db.txnMap, account, t.id)
    requires StepTxn(db, account, cur, t) == Ok(d)
    ensures d.txns == db.txns
    ensures d.txnMap == db.txnMap + [TxnMapping(account, t.id, id)]
    ensures forall k :: |db.postings| <= k < |d.postings| ==> d.postings[k].txnId == id
    ensures db.postings <= d.postings
  {
    assert ReusedTxn(db, t) == Some(id);
    StepTxnBooksTarget(db, account, cur, t, d);
  }

  /**
   The two legs of an "Autosave" transfer, imported from the two accounts'
   statements with the same memo, end up in one txn: the first leg creates
   it and notes the memo, the second finds the note and joins it.
   */
  lemma TransferLegsShareTxn(db: Db, account1: int, t1: OfxTxn, account2: int, t2: OfxTxn, cur: Currency, d1: Db, d2: Db)
    requires AutosavePrefix <= t1.payee && AutosavePrefix <= t2.payee
    requires HasMemo(t1) && t2.memo == t1.memo
    requires FindNoteTxn(db.txnNotes, t1.memo).None?
    requires !IsMapped(db.txnMap, account1, t1.id) && !IsMapped(db.txnMap, account2, t2.id)
    requires account1 != account2 || t1.id != t2.id
    requires StepTxn(db, account1, cur, t1) == Ok(d1)
    requires StepTxn(d1, account2, cur, t2) == Ok(d2)
    ensures d2.txns == db.txns + [Txn(|db.txns| + 1, t1.date)]
    ensures d2.txnMap == db.txnMap + [TxnMapping(account1, t1.id, |db.txns| + 1)] + [TxnMapping(account2, t2.id, |db.txns| + 1)]
    ensures forall k :: |db.postings| <= k < |d2.postings| ==> d2.postings[k].txnId == |db.txns| + 1
  {
    FirstLegNotesMemo(db, account1, cur, t1, d1);
    AppendOtherKeepsUnmapped(db.txnMap, TxnMapping(account1, t1.id, |db.txns| + 1), account2, t2.id);
    LaterLegJoinsTxn(d1, account2, cur, t2, |db.txns| + 1, d2);
    forall k | |db.postings| <= k < |d2.postings|
      ensures d2.postings[k].txnId == |db.txns| + 1
    {
      if k < |d1.postings| {
        assert d2.postings[k] == d1.postings[k];
      }
    }
  }

  // ---------------------------------------------------------------------
  // Properties of a statement's transaction loop

  /** One more transaction of the statement is one more step from where the prefix left the store. */
  lemma ImportTxnsNext(db: Db, account: int, cur: Currency, ts: seq<OfxTxn>, n: nat, d: Db)
    requires n < |ts|
    requires ImportTxns(db, account, cur, ts[..n]) == Ok(d)
    ensures ImportTxns(db, account, cur, ts[..n + 1]) == StepTxn(d, account, cur, ts[n])
  {
    assert ts[..n + 1][..n] == ts[..n];
  }

  /** The loop stops at the first error: an error on a prefix is the error of the whole loop. */
  lemma {:induction false} ImportTxnsErrSticks(db: Db, account: int, cur: Currency, ts: seq<OfxTxn>, n: nat)
    requires n <= |ts|
    requires ImportTxns(db, account, cur, ts[..n]).Err?
    ensures ImportTxns(db, account, cur, ts) == ImportTxns(db, account, cur, ts[..n])
    decreases |ts| - n
  {
    if n < |ts| {
      assert ts[..n + 1][..n] == ts[..n];
      ImportTxnsErrSticks(db, account, cur, ts, n + 1);
    } else {
      assert ts[..n] == ts;
    }
  }

  /** After the loop, every transaction of the statement is mapped. */
  lemma ImportTxnsMapsAll(db: Db, account: int, cur: Currency, ts: seq<OfxTxn>)
    requires ImportTxns(db, account, cur, ts).Ok?
    ensures forall t :: t in ts ==> IsMapped(ImportTxns(db, account, cur, ts).value.txnMap, account, t.id)
  {
    var d := ImportTxns(db, account, cur, ts).value;
    MappedAfterLoop(db, account, cur, ts, d);
    forall t | t in ts
      ensures IsMapped(d.txnMap, account, t.id)
    {
      var k :| 0 <= k < |ts| && ts[k] == t;
    }
  }

  lemma {:induction false} MappedAfterLoop(db: Db, account: int, cur: Currency, ts: seq<OfxTxn>, d: Db)
    requires ImportTxns(db, account, cur, ts) == Ok(d)
    ensures forall k :: 0 <= k < |ts| ==> IsMapped(d.txnMap, account, ts[k].id)
    decreases |ts|
  {
    if ts != [] {
      var n := |ts| - 1;
      var r := ImportTxns(db, account, cur, ts[..n]);
      assert r.Ok? && StepTxn(r.value, account, cur, ts[n]) == Ok(d);
      MappedAfterLoop(db, account, cur, ts[..n], r.value);
      StepTxnSpec(r.value, account, cur, ts[n]);
      forall k | 0 <= k < n
        ensures IsMapped(d.txnMap, account, ts[k].id)
      {
        assert ts[..n][k] == ts[k];
        MappedStaysMapped(r.value.txnMap, d.txnMap, account, ts[k].id);
      }
    }
  }

  /** Re-running the loop over transactions that are all mapped writes nothing. */
  lemma {:induction false} AllMappedIsNoOp(db: Db, account: int, cur: Currency, ts: seq<OfxTxn>)
    requires forall t :: t in ts ==> IsMapped(db.txnMap, account, t.id)
    ensures ImportTxns(db, account, cur, ts) == Ok(db)
    decreases |ts|
  {
    if ts != [] {
      assert forall x :: x in ts[..|ts| - 1] ==> x in ts;
      AllMappedIsNoOp(db, account, cur, ts[..|ts| - 1]);
      assert ts[|ts| - 1] in ts;
    }
  }

  /** Transaction-level idempotence: the loop run a second time over the same transactions is a no-op. */
  lemma ReimportTxnsIsNoOp(db: Db, account: int, cur: Currency, ts: seq<OfxTxn>)
    requires ImportTxns(db, account, cur, ts).Ok?
    ensures var d := ImportTxns(db, account, cur, ts).value;
      ImportTxns(d, account, cur, ts) == Ok(d)
  {
    ImportTxnsMapsAll(db, account, cur, ts);
    AllMappedIsNoOp(ImportTxns(db, account, cur, ts).value, account, cur, ts);
  }

  lemma {:induction false} ImportTxnsKeepsValid(db: Db, account: int, cur: Currency, ts: seq<OfxTxn>)
    requires Valid(db)
    requires ImportTxns(db, account, cur, ts).Ok?
    ensures Valid(ImportTxns(db, account, cur, ts).value)
    decreases |ts|
  {
    if ts != [] {
      ImportTxnsKeepsValid(db, account, cur, ts[..|ts| - 1]);
      StepTxnKeepsValid(ImportTxns(db, account, cur, ts[..|ts| - 1]).value, account, cur, ts[|ts| - 1]);
    }
  }

  /**
   Where one pass leaves the store when `t`'s payee is ambiguous: at most the
   txn row inserted before `extractPostings` raised (none when `t` joins a
   noted txn); nothing else is written.
   */
  predicate FailedStep(d: Db, t: OfxTxn, after: Db) {
    after == d.(txns := if ReusedTxn(d, t).Some? then d.txns else d.txns + [Txn(TargetTxn(d, t), t.date)])
  }

  /**
   Where a loop over `ts` that fails with `err` leaves the store: the rows of
   the transactions before the failing one `ts[i]`, plus what the failed pass
   over `ts[i]` left. Nothing after `ts[i]` is written.
   */
  ghost predicate StoppedAt(db: Db, account: int, cur: Currency, ts: seq<OfxTxn>, err: ImportError, after: Db) {
    exists i: int, d: Db ::
      0 <= i < |ts| && ImportTxns(db, account, cur, ts[..i]) == Ok(d) &&
      StepTxn(d, account, cur, ts[i]) == Err(err) && FailedStep(d, ts[i], after)
  }

  /**
   A failed loop leaves its failing transaction unmapped, so a later run
   picks it up again, while every transaction before it is mapped; the error
   names that transaction's payee and the rules it matched.
   */
  lemma StoppedAtLeavesFailingUnmapped(db: Db, account: int, cur: Currency, ts: seq<OfxTxn>, err: ImportError, after: Db)
    requires StoppedAt(db, account, cur, ts, err, after)
    ensures exists i ::
      0 <= i < |ts| &&
      !IsMapped(after.txnMap, account, ts[i].id) &&
      err == AmbiguousPayee(ts[i].payee, MatchingRules(db.rules, ts[i].payee)) &&
      forall j :: 0 <= j < i ==> IsMapped(after.txnMap, account, ts[j].id)
  {
    var i: int, d: Db :| 0 <= i < |ts| && ImportTxns(db, account, cur, ts[..i]) == Ok(d) &&
      StepTxn(d, account, cur, ts[i]) == Err(err) && FailedStep(d, ts[i], after);
    StepTxnSpec(d, account, cur, ts[i]);
    ImportTxnsMapsAll(db, account, cur, ts[..i]);
    forall j | 0 <= j < i
      ensures IsMapped(after.txnMap, account, ts[j].id)
    {
      assert ts[..i][j] == ts[j];
    }
  }

  // ---------------------------------------------------------------------
  // Properties of statements and runs

  /** Handling the statement in this store succeeds and writes nothing. */
  predicate LeavesAlone(db: Db, stmt: Statement) {
    ConvertStatement(db, stmt).Ok? && ConvertStatement(db, stmt).value.db == db
  }

  /** Importing a statement keeps the store invariants, mapping uniqueness included. */
  lemma ConvertKeepsValid(db: Db, stmt: Statement)
    requires Valid(db)
    requires ConvertStatement(db, stmt).Ok?
    ensures Valid(ConvertStatement(db, stmt).value.db)
  {
    var acct := FindAccount(db.accountMap, stmt.ofxAccountId);
    var cur := FindCurrency(db.currencies, HomeCurrency);
    if acct.Some? && cur.Some? && ImportTxns(db, acct.value, cur.value, stmt.transactions).Ok? {
      ImportTxnsKeepsValid(db, acct.value, cur.value, stmt.transactions);
    }
  }

  /**
   Once a statement has been handled, handling it again in any later store
   (same configuration, tables only appended to) changes nothing: its
   account is still unknown, or its assertion is found by the gate.
   */
  lemma HandledStaysHandled(db: Db, stmt: Statement, later: Db)
    requires ConvertStatement(db, stmt).Ok?
    requires Grows(ConvertStatement(db, stmt).value.db, later)
    ensures ConvertStatement(later, stmt).Ok?
    ensures ConvertStatement(later, stmt).value.db == later
    ensures ConvertStatement(later, stmt).value.disposition ==
      if ConvertStatement(db, stmt).value.disposition == UnknownAccount then UnknownAccount else AlreadyImported
  {
    var c := ConvertStatement(db, stmt).value;
    if c.disposition != UnknownAccount {
      var account := FindAccount(db.accountMap, stmt.ofxAccountId).value;
      var cur := FindCurrency(db.currencies, HomeCurrency).value;
      var a := AssertionOf(stmt, account, cur);
      var k: int;
      if c.disposition == AlreadyImported {
        k :| 0 <= k < |db.assertions| && db.assertions[k].date == a.date &&
             db.assertions[k].account == a.account && db.assertions[k].balance == a.balance;
      } else {
        k := |db.assertions|;
        assert c.db.assertions[k] == a;
      }
      assert later.assertions[k] == c.db.assertions[k];
      assert HasAssertion(later.assertions, a.date, a.account, a.balance);
    }
  }

  /** Statement-level idempotence: importing the same statement twice changes nothing the second time. */
  lemma ReimportIsNoOp(db: Db, stmt: Statement)
    requires ConvertStatement(db, stmt).Ok?
    ensures var d := ConvertStatement(db, stmt).value.db;
      ConvertStatement(d, stmt).Ok? && ConvertStatement(d, stmt).value.db == d
  {
    HandledStaysHandled(db, stmt, ConvertStatement(db, stmt).value.db);
  }

  /** Every statement of a completed run would be left alone by the final store. */
  lemma {:induction false} RunHandlesAll(db: Db, stmts: seq<Statement>, later: Db)
    requires ImportRun(db, stmts).Ok?
    requires Grows(ImportRun(db, stmts).value, later)
    ensures forall s :: s in stmts ==> LeavesAlone(later, s)
    decreases |stmts|
  {
    if stmts != [] {
      var prefix := stmts[..|stmts| - 1];
      var last := stmts[|stmts| - 1];
      var d := ImportRun(db, prefix).value;
      ConvertStatementSpec(d, last);
      var c := ConvertStatement(d, last).value;
      assert ImportRun(db, stmts).value == c.db;
      RunHandlesAll(db, prefix, later);
      HandledStaysHandled(d, last, later);
      forall s | s in stmts
        ensures LeavesAlone(later, s)
      {
        var k :| 0 <= k < |stmts| && stmts[k] == s;
        if k < |stmts| - 1 {
          assert prefix[k] == s;
        }
      }
    }
  }

  /** Run-level idempotence: running the same statements again over the result changes nothing. */
  lemma {:induction false} RerunIsNoOp(stmts: seq<Statement>, later: Db)
    requires forall s :: s in stmts ==> LeavesAlone(later, s)
    ensures ImportRun(later, stmts) == Ok(later)
    decreases |stmts|
  {
    if stmts != [] {
      assert forall x :: x in stmts[..|stmts| - 1] ==> x in stmts;
      RerunIsNoOp(stmts[..|stmts| - 1], later);
      assert stmts[|stmts| - 1] in stmts;
    }
  }

  lemma RunIsIdempotent(db: Db, stmts: seq<Statement>)
    requires ImportRun(db, stmts).Ok?
    ensures var d := ImportRun(db, stmts).value;
      ImportRun(d, stmts) == Ok(d)
  {
    var d := ImportRun(db, stmts).value;
    RunHandlesAll(db, stmts, d);
    RerunIsNoOp(stmts, d);
  }

  /** One more statement of a run: the run so far, then that statement. */
  lemma ImportRunNext(db: Db, stmts: seq<Statement>, n: nat, d: Db)
    requires n < |stmts|
    requires ImportRun(db, stmts[..n]) == Ok(d)
    ensures ConvertStatement(d, stmts[n]).Err? ==> ImportRun(db, stmts[..n + 1]) == Err(ConvertStatement(d, stmts[n]).error)
    ensures ConvertStatement(d, stmts[n]).Ok? ==> ImportRun(db, stmts[..n + 1]) == Ok(ConvertStatement(d, stmts[n]).value.db)
  {
    assert stmts[..n + 1][..n] == stmts[..n];
  }

  /** A run stops at its first fatal error: an error on a prefix of the statements is the run's error. */
  lemma {:induction false} ImportRunErrSticks(db: Db, stmts: seq<Statement>, n: nat)
    requires n <= |stmts|
    requires ImportRun(db, stmts[..n]).Err?
    ensures ImportRun(db, stmts) == ImportRun(db, stmts[..n])
    decreases |stmts| - n
  {
    if n < |stmts| {
      assert stmts[..n + 1][..n] == stmts[..n];
      ImportRunErrSticks(db, stmts, n + 1);
    } else {
      assert stmts[..n] == stmts;
    }
  }

  /** After an imported statement, every one of its transactions is mapped. */
  lemma ImportedStatementIsMapped(db: Db, stmt: Statement)
    requires ConvertStatement(db, stmt).Ok? && ConvertStatement(db, stmt).value.disposition == Imported
    ensures var d := ConvertStatement(db, stmt).value.db;
      var account := FindAccount(db.accountMap, stmt.ofxAccountId).value;
      forall t :: t in stmt.transactions ==> IsMapped(d.txnMap, account, t.id)
  {
    var account := FindAccount(db.accountMap, stmt.ofxAccountId).value;
    var cur := FindCurrency(db.currencies, HomeCurrency).value;
    ImportTxnsMapsAll(db, account, cur, stmt.transactions);
  }

  lemma {:induction false} RunKeepsValid(db: Db, stmts: seq<Statement>)
    requires Valid(db)
    requires ImportRun(db, stmts).Ok?
    ensures Valid(ImportRun(db, stmts).value)
    decreases |stmts|
  {
    if stmts != [] {
      RunKeepsValid(db, stmts[..|stmts| - 1]);
      ConvertKeepsValid(ImportRun(db, stmts[..|stmts| - 1]).value, stmts[|stmts| - 1]);
    }
  }
}
