/** The credit ledger: what the balance trigger and the table's constraints let in. Amounts are in
    units of 0.0001, the scale of the columns, so the trigger's rounding changes nothing. */
module CreditLedger {

  /** `created` and `id` order the rows of a tenant. */
  datatype Entry = Entry(id: int, tenant: string, amount: int, balance: int, key: string, created: int)

  type Ledger = seq<Entry>

  datatype Verdict = Accepted | OutOfRange | Mismatch | Negative | Duplicate

  /** numeric(18,4) holds fourteen digits before the point. */
  const LIMIT := 1_000_000_000_000_000_000

  predicate InRange(amount: int) {
    -LIMIT < amount < LIMIT
  }

  /** (created_at, id) of `a` is smaller. */
  predicate Before(a: Entry, b: Entry) {
    a.created < b.created || (a.created == b.created && a.id < b.id)
  }

  predicate OfTenant(e: Entry, tenant: string) {
    e.tenant == tenant
  }

  /** The balance the trigger reads: that of the tenant's row with the greatest (created_at, id). */
  function Prev(l: Ledger, tenant: string): int {
    if Latest(l, tenant) < 0 then 0 else l[Latest(l, tenant)].balance
  }

  /** The position of that row, or -1. */
  function Latest(l: Ledger, tenant: string): (i: int)
    ensures -1 <= i < |l|
    ensures i < 0 <==> forall j :: 0 <= j < |l| ==> !OfTenant(l[j], tenant)
    ensures i >= 0 ==> OfTenant(l[i], tenant)
    ensures i >= 0 ==> forall j :: 0 <= j < |l| && OfTenant(l[j], tenant) ==>
              l[j].created < l[i].created || (l[j].created == l[i].created && l[j].id <= l[i].id)
  {
    if l == [] then -1
    else
      var n := |l| - 1;
      var i := Latest(l[..n], tenant);
      if OfTenant(l[n], tenant) && (i < 0 || Before(l[i], l[n])) then n else i
  }

  predicate HasKey(l: Ledger, e: Entry) {
    exists j :: 0 <= j < |l| && (l[j].id == e.id || (OfTenant(l[j], e.tenant) && l[j].key == e.key))
  }

  /** The checks of an insert, in the order the database makes them. */
  function Check(l: Ledger, e: Entry): Verdict {
    if !InRange(e.amount) || !InRange(e.balance) then OutOfRange
    else if Prev(l, e.tenant) + e.amount != e.balance then Mismatch
    else if e.balance < 0 then Negative
    else if HasKey(l, e) then Duplicate
    else Accepted
  }

  /** Rows only ever come in: `reject_mutation` refuses every update and delete. */
  class CreditLedgerTable {
    var rows: Ledger

    constructor ()
      ensures rows == []
    {
      rows := [];
    }

    method Insert(e: Entry) returns (v: Verdict)
      modifies this
      ensures v == Check(old(rows), e)
      ensures rows == if v == Accepted then old(rows) + [e] else old(rows)
    {
      if !InRange(e.amount) || !InRange(e.balance) {
        return OutOfRange;
      }
      var prev := Prev(rows, e.tenant);
      if prev + e.amount != e.balance {
        return Mismatch;
      }
      if e.balance < 0 {
        return Negative;
      }
      if HasKey(rows, e) {
        return Duplicate;
      }
      rows := rows + [e];
      v := Accepted;
    }
  }

  // ---- Runs ------------------------------------------------------------------------------------------------

  /** The ledger after a run of insert attempts, of many tenants, one at a time. */
  function After(attempts: seq<Entry>): Ledger {
    if attempts == [] then []
    else
      var l, e := After(attempts[..|attempts| - 1]), attempts[|attempts| - 1];
      if Check(l, e) == Accepted then l + [e] else l
  }

  /** Every row was accepted by the rows before it. */
  ghost predicate Built(l: Ledger) {
    forall i :: 0 <= i < |l| ==> Check(l[..i], l[i]) == Accepted
  }

  lemma {:induction false} AfterIsBuilt(attempts: seq<Entry>)
    ensures Built(After(attempts))
  {
    if attempts != [] {
      AfterIsBuilt(attempts[..|attempts| - 1]);
      var l, e := After(attempts[..|attempts| - 1]), attempts[|attempts| - 1];
      if Check(l, e) == Accepted {
        var l' := l + [e];
        forall i | 0 <= i < |l'| ensures Check(l'[..i], l'[i]) == Accepted {
          if i < |l| {
            assert l'[..i] == l[..i];
          } else {
            assert l'[..i] == l;
          }
        }
      }
    }
  }

  function Sum(l: Ledger, tenant: string): int {
    if l == [] then 0
    else Sum(l[..|l| - 1], tenant) + if OfTenant(l[|l| - 1], tenant) then l[|l| - 1].amount else 0
  }

  /** The row is the tenant's latest when it goes in, or moves nothing. */
  predicate Timely(l: Ledger, e: Entry) {
    e.amount == 0 || forall j :: 0 <= j < |l| && OfTenant(l[j], e.tenant) ==> Before(l[j], e)
  }

  ghost predicate AllTimely(l: Ledger) {
    forall i :: 0 <= i < |l| ==> Timely(l[..i], l[i])
  }

  /** What the trigger reads is the sum of what went in. */
  ghost predicate Balanced(l: Ledger) {
    forall tenant :: Prev(l, tenant) == Sum(l, tenant)
  }

  ghost predicate Conserves(l: Ledger) {
    forall n :: 0 <= n <= |l| ==> Balanced(l[..n])
  }

  lemma DistinctIds(l: Ledger, e: Entry)
    requires Check(l, e) == Accepted
    ensures forall j :: 0 <= j < |l| ==> l[j].id != e.id
  {
  }

  lemma PrevNext(l: Ledger, e: Entry)
    requires Check(l, e) == Accepted
    ensures Prev(l + [e], e.tenant) ==
            if forall j :: 0 <= j < |l| && OfTenant(l[j], e.tenant) ==> Before(l[j], e) then e.balance else Prev(l, e.tenant)
    ensures forall tenant :: tenant != e.tenant ==> Prev(l + [e], tenant) == Prev(l, tenant)
  {
    DistinctIds(l, e);
    assert (l + [e])[..|l|] == l;
  }

  /** One insert keeps the ledger balanced exactly when its row is timely. */
  lemma {:induction false} StepBalancedIff(l: Ledger, e: Entry)
    requires Balanced(l) && Check(l, e) == Accepted
    ensures Balanced(l + [e]) <==> Timely(l, e)
    ensures e.balance == Sum(l + [e], e.tenant)
  {
    PrevNext(l, e);
    assert (l + [e])[..|l|] == l;
    assert Prev(l, e.tenant) == Sum(l, e.tenant);
    assert forall tenant :: tenant != e.tenant ==> Sum(l + [e], tenant) == Sum(l, tenant);
  }

  lemma LastRow(front: Ledger, e: Entry)
    ensures Built(front + [e]) <==> Built(front) && Check(front, e) == Accepted
    ensures Conserves(front + [e]) <==> Conserves(front) && Balanced(front + [e])
    ensures AllTimely(front + [e]) <==> AllTimely(front) && Timely(front, e)
  {
    hide Check, Balanced, Timely;
    var l := front + [e];
    assert forall i :: 0 <= i < |front| ==> l[..i] == front[..i] && l[i] == front[i];
    assert l[..|front|] == front == front[..|front|] && l[..|l|] == l;
  }

  lemma NothingYet()
    ensures Conserves([]) && AllTimely([])
  {
    var l: Ledger := [];
    assert l[..0] == [];
  }

  /** A ledger conserves credit throughout, whatever the order of tenants, exactly when every row that
      moves something was its tenant's latest when it went in. */
  lemma {:induction false} ConservesIff(l: Ledger)
    requires Built(l)
    ensures Conserves(l) <==> AllTimely(l)
  {
    NothingYet();
    hide Check, Balanced, Timely, Built, AllTimely;
    if l != [] {
      var front, e := l[..|l| - 1], l[|l| - 1];
      assert l == front + [e];
      LastRow(front, e);
      ConservesIff(front);
      if Conserves(front) {
        assert front[..|front|] == front;
        StepBalancedIff(front, e);
      }
    }
  }

  lemma AcceptedIsCovered(l: Ledger, e: Entry)
    requires Check(l, e) == Accepted
    ensures e.balance >= 0
  {
  }

  /** Then every balance on record is the sum of its tenant's amounts up to it, and no such sum is
      ever negative. */
  lemma {:induction false} BalancesAreSums(attempts: seq<Entry>, i: nat)
    requires AllTimely(After(attempts)) && i < |After(attempts)|
    ensures var l := After(attempts); l[i].balance == Sum(l[..i + 1], l[i].tenant) && l[i].balance >= 0
  {
    AfterIsBuilt(attempts);
    hide After;
    BalanceAt(After(attempts), i);
  }

  lemma BalanceAt(l: Ledger, i: nat)
    requires Built(l) && AllTimely(l) && i < |l|
    ensures l[i].balance == Sum(l[..i + 1], l[i].tenant) && l[i].balance >= 0
  {
    ConservesIff(l);
    assert Check(l[..i], l[i]) == Accepted && Balanced(l[..i]);
    AcceptedIsCovered(l[..i], l[i]);
    hide Check, Built, AllTimely, Sum, Prev, Timely, Balanced;
    StepBalancedIff(l[..i], l[i]);
    assert l[..i] + [l[i]] == l[..i + 1];
  }

  /** The sum of a tenant's amounts, at any point of a timely run. */
  lemma {:induction false} NeverNegative(attempts: seq<Entry>, n: nat, tenant: string)
    requires AllTimely(After(attempts)) && n <= |After(attempts)|
    ensures Sum(After(attempts)[..n], tenant) == Prev(After(attempts)[..n], tenant) >= 0
  {
    var l := After(attempts);
    AfterIsBuilt(attempts);
    ConservesIff(l);
    assert Balanced(l[..n]);
    var i := Latest(l[..n], tenant);
    if i >= 0 {
      assert l[..n][i] == l[i] && Check(l[..i], l[i]) == Accepted;
    }
  }

  /** Fourteen digits before the point and four after, in units of 0.0001. */
  predicate Fits(amount: int) {
    -100_000_000_000_000 * 10_000 < amount < 100_000_000_000_000 * 10_000
  }

  ghost predicate IsNew(l: Ledger, e: Entry) {
    forall j :: 0 <= j < |l| ==> l[j].id != e.id && !(l[j].tenant == e.tenant && l[j].key == e.key)
  }

  /** Over every run that was timely so far: a row goes in exactly when its amounts fit, its balance is the sum
      of the tenant's amounts with its own and not negative, and its id and key are new; a refusal names the
      first of these that fails. */
  lemma {:induction false} AcceptedIff(attempts: seq<Entry>, e: Entry)
    requires AllTimely(After(attempts))
    ensures var l := After(attempts);
            var sum := Sum(l, e.tenant) + e.amount;
            && (After(attempts + [e]) == l + [e] <==>
                  Fits(e.amount) && Fits(e.balance) && e.balance == sum && sum >= 0 && IsNew(l, e))
            && (After(attempts + [e]) != l + [e] ==> After(attempts + [e]) == l)
            && Check(l, e) == if !Fits(e.amount) || !Fits(e.balance) then OutOfRange
                              else if e.balance != sum then Mismatch
                              else if sum < 0 then Negative
                              else if !IsNew(l, e) then Duplicate
                              else Accepted
  {
    NeverNegative(attempts, |After(attempts)|, e.tenant);
    assert After(attempts)[..|After(attempts)|] == After(attempts);
    assert (attempts + [e])[..|attempts|] == attempts;
    assert |After(attempts) + [e]| != |After(attempts)|;
    hide Prev, Sum, AllTimely;
  }

  /** A repeated key of a tenant adds nothing, and no run ever holds two rows of one key or one id. */
  lemma {:induction false} KeysOnce(attempts: seq<Entry>, e: Entry, i: nat, j: nat)
    ensures var l := After(attempts);
            i < j < |l| ==> l[i].id != l[j].id && !(l[i].tenant == l[j].tenant && l[i].key == l[j].key)
    ensures i < |After(attempts)| && After(attempts)[i].tenant == e.tenant && After(attempts)[i].key == e.key ==>
              After(attempts + [e]) == After(attempts)
  {
    var l := After(attempts);
    AfterIsBuilt(attempts);
    assert (attempts + [e])[..|attempts|] == attempts;
    if i < j < |l| {
      assert Check(l[..j], l[j]) == Accepted;
      assert l[..j][i] == l[i];
    }
  }

  const FIRST := Entry(2, "t", 100, 100, "a", 7)
  const SECOND := Entry(1, "t", 50, 150, "b", 7)
  const FORGETFUL := Entry(3, "t", 10, 110, "c", 8)

  lemma {:induction false} InsertNext(before: seq<Entry>, e: Entry)
    ensures After(before + [e]) == if Check(After(before), e) == Accepted then After(before) + [e] else After(before)
    ensures Sum(before + [e], e.tenant) == Sum(before, e.tenant) + e.amount
  {
    assert (before + [e])[..|before|] == before;
  }

  lemma TwoOfOneInstant()
    ensures After([FIRST, SECOND]) == [FIRST, SECOND] && Sum([FIRST, SECOND], "t") == 150
    ensures Prev([FIRST, SECOND], "t") == 100
  {
    InsertNext([], FIRST);
    assert [] + [FIRST] == [FIRST] && [FIRST] + [SECOND] == [FIRST, SECOND];
    InsertNext([FIRST], SECOND);
    hide After, Sum;
    PrevNext([], FIRST);
    assert FIRST.key != SECOND.key;
    PrevNext([FIRST], SECOND);
  }

  /** Two rows of one transaction share `created_at`, and their random ids may fall in either order.
      If the second sorts first, the next row with the right running balance is refused, and one that
      forgets the second amount goes in. */
  lemma SameInstantLosesCredit()
    ensures After([FIRST, SECOND]) == [FIRST, SECOND] && Sum([FIRST, SECOND], "t") == 150
    ensures Check([FIRST, SECOND], FORGETFUL.(balance := 160)) == Mismatch
    ensures After([FIRST, SECOND, FORGETFUL]) == [FIRST, SECOND, FORGETFUL]
    ensures Sum([FIRST, SECOND, FORGETFUL], "t") == 160 && FORGETFUL.balance == 110
  {
    TwoOfOneInstant();
    hide After, Sum, Prev;
    assert [FIRST, SECOND] + [FORGETFUL] == [FIRST, SECOND, FORGETFUL];
    assert FIRST.key != FORGETFUL.key && SECOND.key != FORGETFUL.key;
    InsertNext([FIRST, SECOND], FORGETFUL);
  }
}
