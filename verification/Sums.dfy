/**
 Sums of natural numbers over sequences and finite sets, and the laws that make
 a total independent of the order in which its terms are added.
 */
module Sums {

  /** The sum of f over s. */
  function Sum<T>(s: seq<T>, f: T -> nat): nat
  {
    if s == [] then 0 else Sum(s[..|s| - 1], f) + f(s[|s| - 1])
  }

  lemma SumSnoc<T>(s: seq<T>, x: T, f: T -> nat)
    ensures Sum(s + [x], f) == Sum(s, f) + f(x)
  {
    assert (s + [x])[..|s|] == s;
  }

  lemma {:induction false} SumConcat<T>(s: seq<T>, t: seq<T>, f: T -> nat)
    ensures Sum(s + t, f) == Sum(s, f) + Sum(t, f)
  {
    if t == [] {
      assert s + t == s;
    } else {
      var t', x := t[..|t| - 1], t[|t| - 1];
      SumConcat(s, t', f);
      assert s + t == (s + t') + [x];
      SumSnoc(s + t', x, f);
    }
  }

  /** A sum does not change when the terms are permuted. */
  lemma {:induction false} SumPermutation<T>(s: seq<T>, t: seq<T>, f: T -> nat)
    requires multiset(s) == multiset(t)
    ensures Sum(s, f) == Sum(t, f)
    decreases |s|
  {
    if s == [] {
      assert |multiset(t)| == 0;
    } else {
      var x := s[|s| - 1];
      assert x in multiset(t);
      var i :| 0 <= i < |t| && t[i] == x;
      WithoutOne(s, |s| - 1);
      WithoutOne(t, i);
      assert s[..|s| - 1] + s[|s|..] == s[..|s| - 1];
      SumPermutation(s[..|s| - 1], t[..i] + t[i + 1..], f);
      SumWithoutOne(t, i, f);
    }
  }

  lemma WithoutOne<T>(s: seq<T>, i: nat)
    requires i < |s|
    ensures multiset(s[..i] + s[i + 1..]) == multiset(s) - multiset{s[i]}
  {
    AroundOne(s, i);
  }

  lemma AroundOne<T>(s: seq<T>, i: nat)
    requires i < |s|
    ensures s == s[..i] + [s[i]] + s[i + 1..]
  {
  }

  lemma SumWithoutOne<T>(s: seq<T>, i: nat, f: T -> nat)
    requires i < |s|
    ensures Sum(s, f) == Sum(s[..i] + s[i + 1..], f) + f(s[i])
  {
    AroundOne(s, i);
    SumAround(s[..i], s[i], s[i + 1..], f);
  }

  lemma SumAround<T>(a: seq<T>, x: T, b: seq<T>, f: T -> nat)
    ensures Sum(a + [x] + b, f) == Sum(a + b, f) + f(x)
  {
    SumConcat(a, b, f);
    SumConcat(a + [x], b, f);
    SumSnoc(a, x, f);
  }

  /** Pointwise equal terms give equal sums. */
  lemma {:induction false} SumPointwise<T>(s: seq<T>, t: seq<T>, f: T -> nat, g: T -> nat)
    requires |s| == |t|
    requires forall i :: 0 <= i < |s| ==> f(s[i]) == g(t[i])
    ensures Sum(s, f) == Sum(t, g)
  {
    if s != [] {
      SumPointwise(s[..|s| - 1], t[..|t| - 1], f, g);
    }
  }

  /** The sum of f over a finite set; the choice of order is immaterial (SumSetRemove). */
  ghost function SumSet<T>(s: set<T>, f: T -> nat): nat
  {
    if s == {} then 0 else
      var x :| x in s;
      SumSet(s - {x}, f) + f(x)
  }

  lemma {:induction false} SumSetRemove<T>(s: set<T>, f: T -> nat, y: T)
    requires y in s
    ensures SumSet(s, f) == SumSet(s - {y}, f) + f(y)
    decreases |s|
  {
    var x :| x in s && SumSet(s, f) == SumSet(s - {x}, f) + f(x);
    if x != y {
      SumSetRemove(s - {x}, f, y);
      SumSetRemove(s - {y}, f, x);
      assert s - {x} - {y} == s - {y} - {x};
    }
  }

  /** Adding n to one term of a sum adds n to the sum. */
  lemma {:induction false} SumSetBump<T>(s: set<T>, f: T -> nat, g: T -> nat, y: T, n: nat)
    requires y in s
    requires forall x :: x in s ==> g(x) == f(x) + (if x == y then n else 0)
    ensures SumSet(s, g) == SumSet(s, f) + n
  {
    SumSetRemove(s, f, y);
    SumSetRemove(s, g, y);
    SumSetSame(s - {y}, f, g);
  }

  lemma {:induction false} SumSetSame<T>(s: set<T>, f: T -> nat, g: T -> nat)
    requires forall x :: x in s ==> g(x) == f(x)
    ensures SumSet(s, g) == SumSet(s, f)
    decreases |s|
  {
    if s != {} {
      var x :| x in s;
      SumSetRemove(s, f, x);
      SumSetRemove(s, g, x);
      SumSetSame(s - {x}, f, g);
    }
  }

  lemma {:induction false} SumSetZero<T>(s: set<T>, f: T -> nat)
    requires forall x :: x in s ==> f(x) == 0
    ensures SumSet(s, f) == 0
    decreases |s|
  {
    if s != {} {
      var x :| x in s;
      SumSetRemove(s, f, x);
      SumSetZero(s - {x}, f);
    }
  }

  function Plus<T>(f: T -> nat, g: T -> nat): T -> nat
  {
    (x: T) => f(x) + g(x)
  }

  lemma {:induction false} SumSetPlus<T>(s: set<T>, f: T -> nat, g: T -> nat)
    ensures SumSet(s, Plus(f, g)) == SumSet(s, f) + SumSet(s, g)
    decreases |s|
  {
    if s != {} {
      var x :| x in s;
      SumSetRemove(s, f, x);
      SumSetRemove(s, g, x);
      SumSetRemove(s, Plus(f, g), x);
      SumSetPlus(s - {x}, f, g);
    }
  }

  /** Elements where f is zero do not matter. */
  lemma {:induction false} SumSetSupport<T>(s: set<T>, t: set<T>, f: T -> nat)
    requires s <= t
    requires forall x :: x in t && x !in s ==> f(x) == 0
    ensures SumSet(t, f) == SumSet(s, f)
    decreases |t - s|
  {
    if s != t {
      var x :| x in t && x !in s;
      SumSetRemove(t, f, x);
      assert (t - {x}) - s == (t - s) - {x};
      SumSetSupport(s, t - {x}, f);
    }
  }

  /** Taking one element off what is pending adds it to what is done. */
  lemma TakeOne<T>(all: set<T>, pending: set<T>, x: T)
    requires pending <= all && x in pending
    ensures pending - {x} <= all && x !in all - pending
    ensures all - (pending - {x}) == (all - pending) + {x}
  {
  }

  lemma AllTaken<T>(all: set<T>)
    ensures all - all == {} && all - {} == all
  {
  }
}
