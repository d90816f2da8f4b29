/**
 Payee rules and posting allocation (`extractPostings`).

 A rule matches a payee when `instr(payee, payee_contains) > 0`, that is when
 the rule's text occurs in the payee (case-sensitive). The allocation of one
 transaction's postings depends only on how many rules match.
 */
module Rules {
  import opened Tables

  /** `needle` occurs in `haystack` starting at (0-based) index `i`. */
  predicate Occurs(haystack: string, needle: string, i: int) {
    0 <= i && i + |needle| <= |haystack| && haystack[i..i + |needle|] == needle
  }

  lemma OccursShift(haystack: string, needle: string)
    requires |haystack| > 0
    ensures forall i {:trigger Occurs(haystack, needle, i)} :: 1 <= i ==>
      (Occurs(haystack, needle, i) <==> Occurs(haystack[1..], needle, i - 1))
  {
    forall i | 1 <= i
      ensures Occurs(haystack, needle, i) <==> Occurs(haystack[1..], needle, i - 1)
    {
      if i + |needle| <= |haystack| {
        assert haystack[1..][i - 1..i - 1 + |needle|] == haystack[i..i + |needle|];
      }
    }
  }

  /**
   SQLite's `instr(haystack, needle)`: the 1-based position of the first
   occurrence of `needle`, or 0 when there is none (an empty needle is
   found at position 1).
   */
  function Instr(haystack: string, needle: string): nat
    decreases |haystack|
  {
    if |needle| > |haystack| then 0
    else if needle <= haystack then 1
    else
      var k := Instr(haystack[1..], needle);
      if k == 0 then 0 else k + 1
  }

  /** `instr` is 0 exactly when there is no occurrence, and otherwise one past the first one's index. */
  lemma {:induction false} InstrSpec(haystack: string, needle: string)
    ensures var k := Instr(haystack, needle);
      k == 0 ==> forall i :: !Occurs(haystack, needle, i)
    ensures var k := Instr(haystack, needle);
      k > 0 ==> Occurs(haystack, needle, k - 1) && forall i :: 0 <= i < k - 1 ==> !Occurs(haystack, needle, i)
    decreases |haystack|
  {
    if |needle| > |haystack| {
    } else if needle <= haystack {
      assert Occurs(haystack, needle, 0);
    } else {
      assert !Occurs(haystack, needle, 0);
      OccursShift(haystack, needle);
      InstrSpec(haystack[1..], needle);
    }
  }

  /** The payee contains the rule's text somewhere. */
  predicate Matches(rule: PayeeRule, payee: string) {
    Instr(payee, rule.payeeContains) > 0
  }

  /**
   The rows of `SELECT payee_contains, account_id FROM onimport_payee_contains_set_account
   WHERE instr(?, payee_contains) > 0`, in table order.
   */
  function MatchingRules(rules: seq<PayeeRule>, payee: string): (m: seq<PayeeRule>)
    ensures forall r :: r in m <==> r in rules && Matches(r, payee)
    ensures multiset(m) <= multiset(rules)
  {
    if rules == [] then []
    else
      assert rules == [rules[0]] + rules[1..];
      (if Matches(rules[0], payee) then [rules[0]] else []) + MatchingRules(rules[1..], payee)
  }

  /** The total of a list of postings. */
  function Sum(ps: seq<Posting>): int {
    if ps == [] then 0 else ps[0].amount + Sum(ps[1..])
  }

  /** The postings and posting notes one transaction adds. */
  datatype Allocation = Allocation(postings: seq<Posting>, notes: seq<PostingNote>)

  /** The audit note recorded on the counter-posting. */
  function RuleNote(rule: PayeeRule): string {
    "payee contained '" + rule.payeeContains + "'"
  }

  /**
   The postings of one transaction: the primary posting (source account,
   amount) and, when exactly one rule matches, the balancing posting to the
   rule's account with a note naming the matched text. More than one match
   is a fatal configuration error.
   */
  function Allocate(rules: seq<PayeeRule>, account: int, txnId: int, amount: int, currency: int, payee: string)
    : Result<Allocation, ImportError>
  {
    var primary := Posting(txnId, account, amount, currency);
    var m := MatchingRules(rules, payee);
    if |m| > 1 then Err(AmbiguousPayee(payee, m))
    else if |m| == 1 then
      Ok(Allocation([primary, Posting(txnId, m[0].account, -amount, currency)],
                    [PostingNote(txnId, m[0].account, RuleNote(m[0]))]))
    else Ok(Allocation([primary], []))
  }

  /**
   What an allocation is: an error exactly when more than one rule matches;
   otherwise the primary posting first, every posting on the txn and in the
   currency, and for a single match a balancing posting to the rule's
   account with its note.
   */
  lemma AllocateSpec(rules: seq<PayeeRule>, account: int, txnId: int, amount: int, currency: int, payee: string)
    ensures var r := Allocate(rules, account, txnId, amount, currency, payee);
      var m := MatchingRules(rules, payee);
      (r.Err? <==> |m| > 1) && (r.Err? ==> r.error == AmbiguousPayee(payee, m))
    ensures var r := Allocate(rules, account, txnId, amount, currency, payee);
      r.Ok? ==>
        |r.value.postings| >= 1 && r.value.postings[0] == Posting(txnId, account, amount, currency) &&
        forall p :: p in r.value.postings ==> p.txnId == txnId && p.currency == currency
    ensures var r := Allocate(rules, account, txnId, amount, currency, payee);
      |MatchingRules(rules, payee)| == 0 ==> r == Ok(Allocation([Posting(txnId, account, amount, currency)], []))
    ensures var r := Allocate(rules, account, txnId, amount, currency, payee);
      var m := MatchingRules(rules, payee);
      |m| == 1 ==>
        r.Ok? && |r.value.postings| == 2 && Sum(r.value.postings) == 0 &&
        r.value.postings[1] == Posting(txnId, m[0].account, -amount, currency) &&
        r.value.notes == [PostingNote(txnId, m[0].account, RuleNote(m[0]))]
  {
    var primary := Posting(txnId, account, amount, currency);
    var m := MatchingRules(rules, payee);
    if |m| == 1 {
      var counter := Posting(txnId, m[0].account, -amount, currency);
      assert Sum([primary, counter]) == amount + Sum([counter]);
    }
  }

  /** Which rule a matching payee falls under is determined when rules cannot overlap. */
  lemma {:induction false} SingleMatchIsTheRule(rules: seq<PayeeRule>, payee: string, rule: PayeeRule)
    requires rule in rules && Matches(rule, payee)
    requires forall r :: r in rules && r != rule ==> !Matches(r, payee)
    requires multiset(rules)[rule] == 1
    ensures MatchingRules(rules, payee) == [rule]
    decreases |rules|
  {
    assert rules == [rules[0]] + rules[1..];
    if rules[0] == rule {
      assert rule !in rules[1..] by {
        assert multiset(rules) == multiset{rule} + multiset(rules[1..]);
      }
      NoMatchIsEmpty(rules[1..], payee);
    } else {
      assert multiset(rules) == multiset{rules[0]} + multiset(rules[1..]);
      SingleMatchIsTheRule(rules[1..], payee, rule);
    }
  }

  lemma {:induction false} NoMatchIsEmpty(rules: seq<PayeeRule>, payee: string)
    requires forall r :: r in rules ==> !Matches(r, payee)
    ensures MatchingRules(rules, payee) == []
    decreases |rules|
  {
    if rules != [] {
      NoMatchIsEmpty(rules[1..], payee);
    }
  }

  /** Every matching row is fetched as often as it occurs in the table; other rows not at all. */
  lemma {:induction false} MatchingRulesCount(rules: seq<PayeeRule>, payee: string)
    ensures forall r ::
      multiset(MatchingRules(rules, payee))[r] == if Matches(r, payee) then multiset(rules)[r] else 0
    decreases |rules|
  {
    if rules != [] {
      MatchingRulesCount(rules[1..], payee);
      assert rules == [rules[0]] + rules[1..];
      assert multiset(rules) == multiset{rules[0]} + multiset(rules[1..]);
    }
  }

  /**
   Two rows of the table that both match the payee, even two copies of the
   same rule, make the payee ambiguous.
   */
  lemma {:induction false} TwoMatchingRowsAreAmbiguous(rules: seq<PayeeRule>, payee: string, i: int, j: int)
    requires 0 <= i < j < |rules|
    requires Matches(rules[i], payee) && Matches(rules[j], payee)
    ensures |MatchingRules(rules, payee)| > 1
    decreases i
  {
    var tail := rules[1..];
    assert tail[j - 1] == rules[j];
    if i == 0 {
      assert rules[j] in MatchingRules(tail, payee);
    } else {
      assert tail[i - 1] == rules[i];
      TwoMatchingRowsAreAmbiguous(tail, payee, i - 1, j - 1);
    }
  }
}
