/**
 Reconciliation of balance assertions (the computation of `assertionsBalance`).

 Each stored assertion, taken in date order, is compared with the sum of the
 postings on its account and currency whose txn is dated strictly before the
 assertion date. A mismatch is reported with difference asserted minus
 actual. Everything here is a function of the tables: nothing is written.
 */
module Reconcile {
  import opened Tables
  import opened Balances

  /** One reported row: the assertion's date and account, expected, actual and their difference. */
  datatype Mismatch = Mismatch(date: int, account: int, expected: int, actual: int, difference: int)

  /** Reconciliation raises when an assertion has no qualifying posting at all. */
  datatype ReconcileError = NoPostings(assertion: BalanceAssertion)

  /** The row reported for an assertion whose actual balance is `actual`. */
  function MismatchOf(a: BalanceAssertion, actual: int): Mismatch {
    Mismatch(a.date, a.account, a.balance, actual, a.balance - actual)
  }

  predicate SortedByDate(s: seq<BalanceAssertion>) {
    forall i, j :: 0 <= i < j < |s| ==> s[i].date <= s[j].date
  }

  /** `a` inserted into `s` before the first assertion dated on or after it. */
  function InsertByDate(a: BalanceAssertion, s: seq<BalanceAssertion>): (r: seq<BalanceAssertion>)
    ensures multiset(r) == multiset(s) + multiset{a}
    ensures forall x :: x in r ==> x == a || x in s
  {
    if s == [] || a.date <= s[0].date then [a] + s
    else
      assert s == [s[0]] + s[1..];
      [s[0]] + InsertByDate(a, s[1..])
  }

  /** A sorted list headed by an assertion dated no later than every other. */
  lemma SortedCons(x: BalanceAssertion, s: seq<BalanceAssertion>)
    requires SortedByDate(s)
    requires forall y :: y in s ==> x.date <= y.date
    ensures SortedByDate([x] + s)
  {
    var r := [x] + s;
    forall i, j | 0 <= i < j < |r|
      ensures r[i].date <= r[j].date
    {
      assert r[j] == s[j - 1];
      if i > 0 {
        assert r[i] == s[i - 1];
      }
    }
  }

  lemma {:induction false} InsertByDateSorted(a: BalanceAssertion, s: seq<BalanceAssertion>)
    requires SortedByDate(s)
    ensures SortedByDate(InsertByDate(a, s))
    decreases |s|
  {
    if s == [] || a.date <= s[0].date {
      forall y | y in s
        ensures a.date <= y.date
      {
        var k :| 0 <= k < |s| && s[k] == y;
        assert s[0].date <= s[k].date;
      }
      SortedCons(a, s);
    } else {
      var tail := s[1..];
      assert SortedByDate(tail) by {
        forall i, j | 0 <= i < j < |tail|
          ensures tail[i].date <= tail[j].date
        {
          assert tail[i] == s[i + 1] && tail[j] == s[j + 1];
        }
      }
      InsertByDateSorted(a, tail);
      forall y | y in InsertByDate(a, tail)
        ensures s[0].date <= y.date
      {
        if y != a {
          var k :| 0 <= k < |tail| && tail[k] == y;
          assert s[0].date <= s[k + 1].date;
        }
      }
      SortedCons(s[0], InsertByDate(a, tail));
    }
  }

  /** `ORDER BY date`: the assertions sorted by date (ties in an unspecified order). */
  function SortByDate(s: seq<BalanceAssertion>): (r: seq<BalanceAssertion>)
    ensures multiset(r) == multiset(s)
    ensures SortedByDate(r)
  {
    if s == [] then []
    else
      assert s == [s[0]] + s[1..];
      InsertByDateSorted(s[0], SortByDate(s[1..]));
      InsertByDate(s[0], SortByDate(s[1..]))
  }

  /** The actual balance an assertion is compared with. */
  function ActualFor(a: BalanceAssertion, ps: seq<Posting>, txns: seq<Txn>): Option<int> {
    ActualBalance(ps, txns, a.date, a.account, a.currency)
  }

  /**
   The loop of `assertionsBalance` over the assertions, as written: an assertion whose
   sum is NULL compares unequal and then fails in the subtraction, aborting
   the page; otherwise a row is reported exactly when the actual balance
   differs from the asserted one.
   */
  function ReconcileRows(asserts: seq<BalanceAssertion>, ps: seq<Posting>, txns: seq<Txn>)
    : (r: Result<seq<Mismatch>, ReconcileError>)
    ensures r.Ok? <==> forall a :: a in asserts ==> ActualFor(a, ps, txns).Some?
    ensures r.Err? ==> r.error.assertion in asserts && ActualFor(r.error.assertion, ps, txns).None?
    ensures r.Ok? ==> forall m :: m in r.value ==>
      exists a :: a in asserts && ActualFor(a, ps, txns).Some? && ActualFor(a, ps, txns).value != a.balance &&
        m == MismatchOf(a, ActualFor(a, ps, txns).value)
    ensures r.Ok? ==> forall a :: a in asserts && ActualFor(a, ps, txns).value != a.balance ==>
      MismatchOf(a, ActualFor(a, ps, txns).value) in r.value
  {
    if asserts == [] then Ok([])
    else
      var a := asserts[0];
      assert forall x :: x in asserts <==> x == a || x in asserts[1..];
      match ActualFor(a, ps, txns)
      case None => Err(NoPostings(a))
      case Some(actual) =>
        var rest := ReconcileRows(asserts[1..], ps, txns);
        if rest.Err? then rest
        else if actual != a.balance then Ok([MismatchOf(a, actual)] + rest.value)
        else rest
  }

  /** The reconciliation report as written: every assertion in date order. */
  function AssertionsBalance(asserts: seq<BalanceAssertion>, ps: seq<Posting>, txns: seq<Txn>)
    : (r: Result<seq<Mismatch>, ReconcileError>)
    ensures r.Ok? <==> forall a :: a in asserts ==> ActualFor(a, ps, txns).Some?
    ensures r.Err? ==> r.error.assertion in asserts && ActualFor(r.error.assertion, ps, txns).None?
    ensures r.Ok? ==> forall m :: m in r.value <==>
      exists a :: a in asserts && ActualFor(a, ps, txns).value != a.balance &&
        m == MismatchOf(a, ActualFor(a, ps, txns).value)
    ensures r.Ok? ==> forall m :: m in r.value ==> m.difference == m.expected - m.actual && m.expected != m.actual
  {
    var sorted := SortByDate(asserts);
    assert forall a :: a in asserts <==> a in sorted by {
      assert forall a :: a in asserts <==> a in multiset(asserts);
    }
    ReconcileRows(sorted, ps, txns)
  }

  /**
   The reconciliation loop with an empty sum read as a balance of zero (what
   `COALESCE(SUM(amount), 0)` would give): it never fails, and reports a row
   exactly for the assertions whose actual balance differs.
   */
  function ReconcileRowsTotal(asserts: seq<BalanceAssertion>, ps: seq<Posting>, txns: seq<Txn>)
    : (r: seq<Mismatch>)
    ensures forall m :: m in r <==>
      exists a :: a in asserts && BalanceOrZero(ps, txns, a.date, a.account, a.currency) != a.balance &&
        m == MismatchOf(a, BalanceOrZero(ps, txns, a.date, a.account, a.currency))
  {
    if asserts == [] then []
    else
      var a := asserts[0];
      var actual := BalanceOrZero(ps, txns, a.date, a.account, a.currency);
      var rest := ReconcileRowsTotal(asserts[1..], ps, txns);
      assert forall x :: x in asserts <==> x == a || x in asserts[1..];
      if actual != a.balance then [MismatchOf(a, actual)] + rest else rest
  }

  /** The corrected report: every assertion in date order, an empty sum counting as zero. */
  function AssertionsBalanceTotal(asserts: seq<BalanceAssertion>, ps: seq<Posting>, txns: seq<Txn>)
    : (r: seq<Mismatch>)
    ensures forall m :: m in r <==>
      exists a :: a in asserts && BalanceOrZero(ps, txns, a.date, a.account, a.currency) != a.balance &&
        m == MismatchOf(a, BalanceOrZero(ps, txns, a.date, a.account, a.currency))
    ensures forall m :: m in r ==> m.difference == m.expected - m.actual && m.expected != m.actual
  {
    var sorted := SortByDate(asserts);
    assert forall a :: a in asserts <==> a in sorted by {
      assert forall a :: a in asserts <==> a in multiset(asserts);
    }
    ReconcileRowsTotal(sorted, ps, txns)
  }

  /** Where the as-written report succeeds, the corrected one reports the same rows. */
  lemma {:induction false} TotalAgreesWhenDefined(asserts: seq<BalanceAssertion>, ps: seq<Posting>, txns: seq<Txn>)
    requires ReconcileRows(asserts, ps, txns).Ok?
    ensures ReconcileRowsTotal(asserts, ps, txns) == ReconcileRows(asserts, ps, txns).value
    decreases |asserts|
  {
    if asserts != [] {
      TotalAgreesWhenDefined(asserts[1..], ps, txns);
    }
  }

  /**
   An account whose first statement is recorded before any of its postings is
   dated: the as-written report fails instead of reporting the mismatch.
   */
  lemma EmptySumAbortsReport()
    ensures AssertionsBalance([BalanceAssertion(100, 1, 45000, 1)], [], []).Err?
    ensures AssertionsBalanceTotal([BalanceAssertion(100, 1, 45000, 1)], [], []) ==
      [Mismatch(100, 1, 45000, 0, 45000)]
  {
    var asserts := [BalanceAssertion(100, 1, 45000, 1)];
    assert SortByDate(asserts) == asserts;
    assert BalanceOrZero([], [], 100, 1, 1) == 0;
  }

  /**
   Postings dated before an assertion summing to X, against an asserted Y
   different from X, give exactly one row whose difference is Y - X.
   */
  lemma ReportsAssertedMinusActual()
    ensures AssertionsBalance(
      [BalanceAssertion(200, 1, 45000, 1)],
      [Posting(1, 1, 50000, 1), Posting(2, 1, -3000, 1), Posting(3, 1, 99, 1)],
      [Txn(1, 10), Txn(2, 20), Txn(3, 200)])
      == Ok([Mismatch(200, 1, 45000, 47000, -2000)])
  {
    var asserts := [BalanceAssertion(200, 1, 45000, 1)];
    var ps := [Posting(1, 1, 50000, 1), Posting(2, 1, -3000, 1), Posting(3, 1, 99, 1)];
    var txns := [Txn(1, 10), Txn(2, 20), Txn(3, 200)];
    assert SortByDate(asserts) == asserts;
    assert TxnDate(txns, 1) == Some(10);
    assert TxnDate(txns[1..], 2) == Some(20);
    assert TxnDate(txns[2..], 3) == Some(200);
    assert ActualBalance(ps[2..], txns, 200, 1, 1) == None;
    assert ActualBalance(ps[1..], txns, 200, 1, 1) == Some(-3000);
    assert ActualBalance(ps, txns, 200, 1, 1) == Some(47000);
    assert ReconcileRows(asserts[1..], ps, txns) == Ok([]);
    var row := MismatchOf(asserts[0], 47000);
    assert [row] + [] == [row];
    assert ReconcileRows(asserts, ps, txns) == Ok([row]);
  }
}
