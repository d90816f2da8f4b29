/**
 Sums over the `posting` table: the per-transaction balance behind the
 "imbalanced transactions" count, and the account balance as of a date that
 reconciliation compares with a balance assertion.
 */
module Balances {
  import opened Tables
  import opened Rules

  /** The txn ids that have at least one posting (the groups of `GROUP BY posting.txn_id`). */
  function TxnIds(ps: seq<Posting>): set<int> {
    set p | p in ps :: p.txnId
  }

  /** `SUM(posting.amount)` over the postings of one txn, all currencies together. */
  function TxnBalance(ps: seq<Posting>, txnId: int): (b: int)
    ensures (forall p :: p in ps ==> p.txnId != txnId) ==> b == 0
  {
    if ps == [] then 0
    else (if ps[0].txnId == txnId then ps[0].amount else 0) + TxnBalance(ps[1..], txnId)
  }

  /** The txns whose postings do not add up to zero. */
  function Imbalanced(ps: seq<Posting>): (r: set<int>)
    ensures r <= TxnIds(ps)
    ensures forall p :: p in ps ==> (p.txnId in r <==> TxnBalance(ps, p.txnId) != 0)
  {
    set t | t in TxnIds(ps) && TxnBalance(ps, t) != 0
  }

  /** `SELECT COUNT(balance) FROM (SELECT SUM(amount) AS balance ... GROUP BY txn_id) WHERE balance != 0`. */
  function ImbalanceCount(ps: seq<Posting>): (n: nat)
    ensures n <= |TxnIds(ps)|
    ensures n == 0 <==> forall p :: p in ps ==> TxnBalance(ps, p.txnId) == 0
  {
    var r := Imbalanced(ps);
    assert r == {} <==> forall p :: p in ps ==> TxnBalance(ps, p.txnId) == 0 by {
      if r != {} {
        var t :| t in r;
        var p :| p in ps && p.txnId == t;
      }
    }
    SubsetCardinality(r, TxnIds(ps));
    |r|
  }

  lemma SubsetCardinality(a: set<int>, b: set<int>)
    requires a <= b
    ensures |a| <= |b|
  {
    assert b == a + (b - a);
  }

  lemma TxnIdsAppend(ps: seq<Posting>, qs: seq<Posting>)
    ensures TxnIds(ps + qs) == TxnIds(ps) + TxnIds(qs)
  {
    assert forall p :: p in ps + qs <==> p in ps || p in qs;
  }

  /** A txn's balance over two batches of postings is the sum of its balances over each. */
  lemma {:induction false} TxnBalanceAppend(ps: seq<Posting>, qs: seq<Posting>, txnId: int)
    ensures TxnBalance(ps + qs, txnId) == TxnBalance(ps, txnId) + TxnBalance(qs, txnId)
    decreases |ps|
  {
    if ps == [] {
      assert ps + qs == qs;
    } else {
      assert (ps + qs)[0] == ps[0];
      assert (ps + qs)[1..] == ps[1..] + qs;
      TxnBalanceAppend(ps[1..], qs, txnId);
    }
  }

  /** Postings that all belong to one txn contribute their total to it and nothing to others. */
  lemma {:induction false} TxnBalanceOfGroup(qs: seq<Posting>, id: int, txnId: int)
    requires forall q :: q in qs ==> q.txnId == id
    ensures TxnBalance(qs, txnId) == if txnId == id then Sum(qs) else 0
    decreases |qs|
  {
    if qs != [] {
      assert qs[0] in qs;
      TxnBalanceOfGroup(qs[1..], id, txnId);
    }
  }

  /** Appending postings of one txn that sum to zero leaves the imbalanced txns as they were. */
  lemma {:induction false} AppendBalancedGroup(ps: seq<Posting>, qs: seq<Posting>, id: int)
    requires forall q :: q in qs ==> q.txnId == id
    requires Sum(qs) == 0
    ensures Imbalanced(ps + qs) == Imbalanced(ps)
    ensures ImbalanceCount(ps + qs) == ImbalanceCount(ps)
  {
    TxnIdsAppend(ps, qs);
    forall t
      ensures t in Imbalanced(ps + qs) <==> t in Imbalanced(ps)
    {
      TxnBalanceAppend(ps, qs, t);
      TxnBalanceOfGroup(qs, id, t);
      if t !in TxnIds(ps) {
        NoPostingsZeroBalance(ps, t);
      }
    }
  }

  /** A single non-zero posting for a txn that had none makes exactly that txn imbalanced. */
  lemma AppendSingleLeg(ps: seq<Posting>, p: Posting)
    requires p.txnId !in TxnIds(ps)
    requires p.amount != 0
    ensures Imbalanced(ps + [p]) == Imbalanced(ps) + {p.txnId}
    ensures ImbalanceCount(ps + [p]) == ImbalanceCount(ps) + 1
  {
    TxnIdsAppend(ps, [p]);
    forall t
      ensures t in Imbalanced(ps + [p]) <==> t in Imbalanced(ps) || t == p.txnId
    {
      TxnBalanceAppend(ps, [p], t);
      TxnBalanceOfGroup([p], p.txnId, t);
      if t == p.txnId {
        NoPostingsZeroBalance(ps, t);
      }
    }
  }

  lemma {:induction false} NoPostingsZeroBalance(ps: seq<Posting>, txnId: int)
    requires txnId !in TxnIds(ps)
    ensures TxnBalance(ps, txnId) == 0
    decreases |ps|
  {
    if ps != [] {
      assert ps[0] in ps;
      assert TxnIds(ps[1..]) <= TxnIds(ps);
      NoPostingsZeroBalance(ps[1..], txnId);
    }
  }

  /**
   The count groups by txn only: a txn whose legs are in two currencies and
   cancel numerically is counted as balanced.
   */
  lemma CountIgnoresCurrency()
    ensures ImbalanceCount([Posting(1, 10, 100, 1), Posting(1, 20, -100, 2)]) == 0
  {
    var ps := [Posting(1, 10, 100, 1), Posting(1, 20, -100, 2)];
    assert TxnIds(ps) == {1};
    assert TxnBalance(ps, 1) == 0;
    assert Imbalanced(ps) == {};
  }

  /** `SELECT txn.date FROM txn WHERE id = ?`: `txn.id` is the primary key, so the first row is the row. */
  function TxnDate(txns: seq<Txn>, id: int): (r: Option<int>)
    ensures r.Some? ==> Txn(id, r.value) in txns
    ensures r.None? ==> forall k :: 0 <= k < |txns| ==> txns[k].id != id
  {
    if txns == [] then None
    else if txns[0].id == id then Some(txns[0].date)
    else TxnDate(txns[1..], id)
  }

  /**
   The WHERE clause of the reconciliation sum: the posting is on the account,
   in the currency, and its txn (joined on `txn_id = txn.id`) is dated
   strictly before `date`. A posting whose txn row is missing has a NULL
   date and never qualifies.
   */
  predicate CountsToward(p: Posting, txns: seq<Txn>, date: int, account: int, currency: int) {
    p.account == account && p.currency == currency &&
    match TxnDate(txns, p.txnId)
    case Some(d) => d < date
    case None => false
  }

  /**
   `SELECT SUM(amount) FROM posting LEFT JOIN txn ... WHERE txn.date < ? AND
   account_id = ? AND currency = ?`: None (SQL NULL) when no posting qualifies.
   */
  function ActualBalance(ps: seq<Posting>, txns: seq<Txn>, date: int, account: int, currency: int)
    : (r: Option<int>)
    ensures r.None? <==> forall p :: p in ps ==> !CountsToward(p, txns, date, account, currency)
  {
    if ps == [] then None
    else
      var rest := ActualBalance(ps[1..], txns, date, account, currency);
      assert forall p :: p in ps <==> p == ps[0] || p in ps[1..];
      if CountsToward(ps[0], txns, date, account, currency) then
        Some(ps[0].amount + match rest case Some(b) => b case None => 0)
      else rest
  }

  /** The actual balance with an empty sum read as zero. */
  function BalanceOrZero(ps: seq<Posting>, txns: seq<Txn>, date: int, account: int, currency: int): int {
    match ActualBalance(ps, txns, date, account, currency)
    case Some(b) => b
    case None => 0
  }

  /** The balance of two batches of postings is the sum of their balances. */
  lemma {:induction false} BalanceAdditive(ps: seq<Posting>, qs: seq<Posting>, txns: seq<Txn>, date: int, account: int, currency: int)
    ensures BalanceOrZero(ps + qs, txns, date, account, currency) ==
            BalanceOrZero(ps, txns, date, account, currency) + BalanceOrZero(qs, txns, date, account, currency)
    decreases |ps|
  {
    if ps == [] {
      assert ps + qs == qs;
    } else {
      assert (ps + qs)[0] == ps[0];
      assert (ps + qs)[1..] == ps[1..] + qs;
      BalanceAdditive(ps[1..], qs, txns, date, account, currency);
    }
  }

  /**
   Postings that do not qualify (another account or currency, or a txn dated
   on or after the assertion date) leave an assertion's actual balance as it was.
   */
  lemma {:induction false} LaterPostingsDoNotCount(ps: seq<Posting>, qs: seq<Posting>, txns: seq<Txn>, date: int, account: int, currency: int)
    requires forall q :: q in qs ==> !CountsToward(q, txns, date, account, currency)
    ensures ActualBalance(ps + qs, txns, date, account, currency) == ActualBalance(ps, txns, date, account, currency)
    decreases |ps|
  {
    if ps == [] {
      assert ps + qs == qs;
    } else {
      assert (ps + qs)[1..] == ps[1..] + qs;
      LaterPostingsDoNotCount(ps[1..], qs, txns, date, account, currency);
    }
  }
}
