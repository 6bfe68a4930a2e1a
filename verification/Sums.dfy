/** Sums over sets, taken in any order. */
module Sums {
  ghost function SumOver<T(!new)>(s: set<T>, f: T -> nat): nat
  {
    if s == {} then 0
    else
      var x :| x in s;
      SumOver(s - {x}, f) + f(x)
  }

  lemma {:induction false} SumWithout<T(!new)>(s: set<T>, x: T, f: T -> nat)
    requires x in s
    ensures SumOver(s, f) == SumOver(s - {x}, f) + f(x)
    decreases |s|
  {
    var y :| y in s && SumOver(s, f) == SumOver(s - {y}, f) + f(y);
    if y != x {
      SumWithout(s - {y}, x, f);
      SumWithout(s - {x}, y, f);
      assert s - {y} - {x} == s - {x} - {y};
    }
  }

  /** Two sets whose members pair off with equal figures have the same sum. */
  lemma {:induction false} SameSum<S(!new), T(!new)>(s: set<S>, f: S -> nat, t: set<T>, g: T -> nat, to: S -> T)
    requires forall x, y :: x in s && y in s && to(x) == to(y) ==> x == y
    requires t == set x | x in s :: to(x)
    requires forall x :: x in s ==> f(x) == g(to(x))
    ensures SumOver(s, f) == SumOver(t, g)
    decreases |s|
  {
    if s != {} {
      var x :| x in s && SumOver(s, f) == SumOver(s - {x}, f) + f(x);
      assert t - {to(x)} == set y | y in s - {x} :: to(y);
      SameSum(s - {x}, f, t - {to(x)}, g, to);
      SumWithout(t, to(x), g);
    }
  }

  /** A sum of ones is a cardinality. */
  lemma {:induction false} SumCounts<T(!new)>(s: set<T>, f: T -> nat, p: T -> bool)
    requires forall x :: x in s ==> f(x) == if p(x) then 1 else 0
    ensures SumOver(s, f) == |set x | x in s && p(x)|
    decreases |s|
  {
    if s != {} {
      var x :| x in s && SumOver(s, f) == SumOver(s - {x}, f) + f(x);
      SumCounts(s - {x}, f, p);
      var rest := set y | y in s - {x} && p(y);
      assert (set y | y in s && p(y)) == if p(x) then rest + {x} else rest;
    }
  }
}
