/** Shared vocabulary: optional values, powers of two and facts about sequences. */
module Common {

  datatype Option<+T> = None | Some(value: T)
  {
    function GetOr(default_: T): T {
      if Some? then value else default_
    }
  }

  predicate Distinct<T(==)>(s: seq<T>) {
    forall i, j :: 0 <= i < j < |s| ==> s[i] != s[j]
  }

  function IndexOf<T(==)>(s: seq<T>, x: T): (i: nat)
    requires x in s
    ensures i < |s| && s[i] == x && x !in s[..i]
  {
    if s[0] == x then 0 else 1 + IndexOf(s[1..], x)
  }

  /** Where `x` stands last. */
  function LastIndexOf<T(==)>(s: seq<T>, x: T): (i: nat)
    requires x in s
    ensures i < |s| && s[i] == x && forall j :: i < j < |s| ==> s[j] != x
  {
    if s[|s| - 1] == x then |s| - 1 else LastIndexOf(s[..|s| - 1], x)
  }

  lemma {:induction false} FirstPlace<T>(s: seq<T>, x: T, i: nat)
    requires i < |s| && s[i] == x && forall j :: 0 <= j < i ==> s[j] != x
    ensures IndexOf(s, x) == i
  {
    var k := IndexOf(s, x);
    assert forall p :: 0 <= p < k ==> s[p] == s[..k][p];
  }

  lemma {:induction false} NoneBefore<T>(s: seq<T>, x: T, j: nat)
    requires x in s && j < |s| && s[j] == x
    ensures IndexOf(s, x) <= j <= LastIndexOf(s, x)
  {
    var i := IndexOf(s, x);
    assert forall p :: 0 <= p < i ==> s[p] == s[..i][p];
  }

  function AsSet<T(==)>(s: seq<T>): set<T> { set x | x in s }

  function Pow2(k: nat): nat { if k == 0 then 1 else 2 * Pow2(k - 1) }

  lemma {:induction false} Pow2Positive(k: nat)
    ensures Pow2(k) >= 1
  {
    if k > 0 {
      Pow2Positive(k - 1);
    }
  }
}
