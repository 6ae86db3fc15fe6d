/** What several modules say about sequences of ids, and about the positions of a ring. */
module Sequences {

  predicate Distinct(s: seq<nat>) {
    forall i, j :: 0 <= i < j < |s| ==> s[i] != s[j]
  }

  // The index behind i, and the one in front of i, in a ring of n
  function Succ(i: nat, n: nat): nat {
    if i + 1 == n then 0 else i + 1
  }

  function Pred(i: nat, n: nat): nat
    requires n > 0
  {
    if i == 0 then n - 1 else i - 1
  }

  function IndexOf(s: seq<nat>, x: nat): (i: nat)
    requires x in s
    ensures i < |s| && s[i] == x
  {
    if s[0] == x then 0 else 1 + IndexOf(s[1..], x)
  }

  // s without what stands at i
  function Drop(s: seq<nat>, i: nat): seq<nat>
    requires i < |s|
  {
    s[..i] + s[i + 1..]
  }

  // rt_list_remove: s without the first x
  function Without(s: seq<nat>, x: nat): seq<nat> {
    if s == [] then [] else if s[0] == x then s[1..] else [s[0]] + Without(s[1..], x)
  }

  lemma WithoutMembers(s: seq<nat>, x: nat)
    requires Distinct(s)
    ensures Distinct(Without(s, x)) && |Without(s, x)| == |s| - (if x in s then 1 else 0)
    ensures forall y :: y in Without(s, x) <==> y in s && y != x
    ensures x !in s ==> Without(s, x) == s
  {
    hide Distinct, Without;
    WithoutElements(s, x);
    WithoutDistinct(s, x);
  }

  lemma {:induction false} WithoutElements(s: seq<nat>, x: nat)
    requires Distinct(s)
    ensures |Without(s, x)| == |s| - (if x in s then 1 else 0)
    ensures forall y :: y in Without(s, x) <==> y in s && y != x
    ensures x !in s ==> Without(s, x) == s
  {
    if s != [] {
      hide Distinct, Without;
      DistinctTail(s);
      WithoutElements(s[1..], x);
      WithoutFirst(s, x);
      ConsElements(s[0], Without(s[1..], x));
    } else {
      assert Without(s, x) == s;
    }
  }

  lemma WithoutFirst(s: seq<nat>, x: nat)
    requires s != []
    ensures Without(s, x) == if s[0] == x then s[1..] else [s[0]] + Without(s[1..], x)
    ensures [s[0]] + s[1..] == s
  {
  }

  lemma ConsElements(x: nat, s: seq<nat>)
    ensures forall y :: y in [x] + s <==> y == x || y in s
  {
  }

  lemma {:induction false} WithoutDistinct(s: seq<nat>, x: nat)
    requires Distinct(s)
    ensures Distinct(Without(s, x))
  {
    if s != [] {
      DistinctTail(s);
      WithoutDistinct(s[1..], x);
      WithoutElements(s[1..], x);
      DistinctCons(s[0], Without(s[1..], x));
      hide Distinct;
    }
  }

  lemma DistinctTail(s: seq<nat>)
    requires Distinct(s) && s != []
    ensures Distinct(s[1..]) && s[0] !in s[1..]
    ensures forall x :: x in s <==> x == s[0] || x in s[1..]
    ensures forall x :: x in s[1..] <==> x in s && x != s[0]
  {
    assert s == [s[0]] + s[1..];
  }

  lemma DistinctCons(x: nat, s: seq<nat>)
    requires Distinct(s)
    ensures x !in s ==> Distinct([x] + s)
    ensures forall y :: y in [x] + s <==> y == x || y in s
  {
  }

  lemma {:induction false} WithoutIndex(s: seq<nat>, x: nat)
    requires x in s
    ensures Without(s, x) == Drop(s, IndexOf(s, x))
  {
    if s[0] != x {
      WithoutIndex(s[1..], x);
    }
  }

  lemma {:induction false} WithoutAt(s: seq<nat>, i: nat)
    requires Distinct(s) && i < |s|
    ensures Without(s, s[i]) == Drop(s, i)
  {
    if i > 0 {
      assert s[i] != s[0] && s[1..][i - 1] == s[i];
      WithoutAt(s[1..], i - 1);
    }
  }
}
