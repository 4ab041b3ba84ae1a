/** Counting: sequences without repetition, which are no longer than a set that holds their
    elements, and have none when another with different elements is appended, and the numbers
    below a bound. */
module Finite {
  ghost predicate NoDup<T>(s: seq<T>)
  {
    forall i, j :: 0 <= i < j < |s| ==> s[i] != s[j]
  }

  lemma {:induction false} NoDupSize<T>(s: seq<T>, u: set<T>)
    requires NoDup(s) && forall x :: x in s ==> x in u
    ensures |s| <= |u|
  {
    if s != [] {
      var x := s[|s| - 1];
      NoDupSize(s[..|s| - 1], u - {x});
      assert |u - {x}| == |u| - 1;
    }
  }

  // The numbers below `n`.
  ghost function Below(n: nat): (u: set<nat>)
    ensures |u| == n && forall r :: r in u <==> 0 <= r < n
  {
    if n == 0 then {} else Below(n - 1) + {n - 1}
  }

  lemma {:induction false} Smaller(u: set<nat>, v: set<nat>)
    requires u <= v
    ensures |u| <= |v|
  {
    assert v == u + (v - u);
  }

  lemma {:induction false} OnceNoDup<T>(s: seq<T>)
    requires forall x :: x in s ==> multiset(s)[x] <= 1
    ensures NoDup(s)
  {
    forall i, j | 0 <= i < j < |s| ensures s[i] != s[j] {
      var a, b := s[..j], s[j..];
      assert s == a + b && a[i] in a && b[0] in b;
      assert multiset(s)[s[j]] == multiset(a)[s[j]] + multiset(b)[s[j]];
    }
  }

  lemma {:induction false} NoDupOnce<T>(s: seq<T>, x: T)
    requires NoDup(s)
    ensures multiset(s)[x] <= 1
  {
    if s != [] {
      var t := s[..|s| - 1];
      assert s == t + [s[|s| - 1]];
      NoDupOnce(t, x);
      if x == s[|s| - 1] { assert x !in t; }
    }
  }

  lemma {:induction false} NoDupConcat<T>(s: seq<T>, t: seq<T>)
    requires NoDup(s) && NoDup(t) && forall x :: x in s ==> x !in t
    ensures NoDup(s + t)
  {
    forall i, j | 0 <= i < j < |s + t| ensures (s + t)[i] != (s + t)[j] {
      assert j < |s| || (s + t)[j] in t;
    }
  }
}
