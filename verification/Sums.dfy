/** Sums over finite sets. */
module Sums {
  ghost function Sum<T(!new)>(s: set<T>, f: T -> int): int
    decreases |s|
  {
    if s == {} then 0
    else
      var x :| x in s;
      f(x) + Sum(s - {x}, f)
  }

  /** Any element can be taken out first. */
  lemma {:induction false} SumPick<T(!new)>(s: set<T>, f: T -> int, x: T)
    requires x in s
    ensures Sum(s, f) == f(x) + Sum(s - {x}, f)
    decreases |s|
  {
    var y :| y in s && Sum(s, f) == f(y) + Sum(s - {y}, f);
    if y != x {
      SumPick(s - {y}, f, x);
      SumPick(s - {x}, f, y);
      assert s - {y} - {x} == s - {x} - {y};
    }
  }

  lemma SumAdd<T(!new)>(s: set<T>, f: T -> int, x: T)
    requires x !in s
    ensures Sum(s + {x}, f) == f(x) + Sum(s, f)
  {
    SumPick(s + {x}, f, x);
    assert s + {x} - {x} == s;
  }

  lemma {:induction false} SumSame<T(!new)>(s: set<T>, f: T -> int, g: T -> int)
    requires forall x :: x in s ==> f(x) == g(x)
    ensures Sum(s, f) == Sum(s, g)
    decreases |s|
  {
    if x :| x in s {
      SumPick(s, f, x);
      SumPick(s, g, x);
      SumSame(s - {x}, f, g);
    }
  }

  lemma {:induction false} SumUnion<T(!new)>(a: set<T>, b: set<T>, f: T -> int)
    requires a !! b
    ensures Sum(a + b, f) == Sum(a, f) + Sum(b, f)
    decreases |a|
  {
    if x :| x in a {
      SumPick(a, f, x);
      SumPick(a + b, f, x);
      assert a + b - {x} == (a - {x}) + b;
      SumUnion(a - {x}, b, f);
    } else {
      assert a + b == b;
    }
  }

  lemma SumOne<T(!new)>(x: T, f: T -> int)
    ensures Sum({x}, f) == f(x)
  {
    SumPick({x}, f, x);
    assert {x} - {x} == {};
  }

  lemma SumTwo<T(!new)>(s: set<T>, f: T -> int, x: T, y: T)
    requires x in s && y in s && x != y
    ensures Sum(s, f) == f(x) + f(y) + Sum(s - {x} - {y}, f)
  {
    SumPick(s, f, x);
    SumPick(s - {x}, f, y);
  }

  lemma {:induction false} SumNonNegative<T(!new)>(s: set<T>, f: T -> int)
    requires forall x :: x in s ==> f(x) >= 0
    ensures Sum(s, f) >= 0
    decreases |s|
  {
    if x :| x in s {
      SumPick(s, f, x);
      SumNonNegative(s - {x}, f);
    }
  }

  /** A sum of multiples is a multiple. */
  lemma {:induction false} SumMultiple<T(!new)>(s: set<T>, f: T -> int, d: int) returns (k: int)
    requires forall x :: x in s ==> exists j: int :: f(x) == j * d
    ensures Sum(s, f) == k * d
    decreases |s|
  {
    if x :| x in s {
      SumPick(s, f, x);
      var rest := SumMultiple(s - {x}, f, d);
      var j: int :| f(x) == j * d;
      k := j + rest;
      assert (j + rest) * d == j * d + rest * d;
    } else {
      k := 0;
    }
  }

  lemma {:induction false} SumAtMost<T(!new)>(s: set<T>, f: T -> int, m: int)
    requires forall x :: x in s ==> f(x) <= m
    ensures Sum(s, f) <= |s| * m
    decreases |s|
  {
    if x :| x in s {
      SumPick(s, f, x);
      SumAtMost(s - {x}, f, m);
      assert |s| * m == m + (|s| - 1) * m;
    }
  }
}
