/** Exact sums over finite sets, independent of any order of summation. */
module FiniteSums {

  ghost function Sum<T(!new)>(s: set<T>, f: T -> real): real {
    if s == {} then 0.0 else
      var x :| x in s;
      f(x) + Sum(s - {x}, f)
  }

  lemma {:induction false} SumRemove<T(!new)>(s: set<T>, f: T -> real, x: T)
    requires x in s
    ensures Sum(s, f) == f(x) + Sum(s - {x}, f)
    decreases |s|
  {
    var y :| y in s && Sum(s, f) == f(y) + Sum(s - {y}, f);
    if y != x {
      SumRemove(s - {y}, f, x);
      assert s - {y} - {x} == s - {x} - {y};
      SumRemove(s - {x}, f, y);
    }
  }

  lemma {:induction false} SumAdd<T(!new)>(s: set<T>, f: T -> real, x: T)
    requires x !in s
    ensures Sum(s + {x}, f) == f(x) + Sum(s, f)
  {
    SumRemove(s + {x}, f, x);
    assert s + {x} - {x} == s;
  }

  lemma {:induction false} SumUnion<T(!new)>(a: set<T>, b: set<T>, f: T -> real)
    requires a !! b
    ensures Sum(a + b, f) == Sum(a, f) + Sum(b, f)
    decreases |b|
  {
    if b == {} {
      assert a + b == a;
    } else {
      var x :| x in b;
      SumUnion(a, b - {x}, f);
      assert a + b == a + (b - {x}) + {x};
      SumAdd(a + (b - {x}), f, x);
      SumRemove(b, f, x);
    }
  }

  /** Termwise comparison. */
  lemma {:induction false} SumMonotone<T(!new)>(s: set<T>, f: T -> real, g: T -> real)
    requires forall x :: x in s ==> f(x) <= g(x)
    ensures Sum(s, f) <= Sum(s, g)
    decreases |s|
  {
    if s != {} {
      var x :| x in s;
      SumRemove(s, f, x);
      SumRemove(s, g, x);
      SumMonotone(s - {x}, f, g);
    }
  }

  lemma {:induction false} SumSame<T(!new)>(s: set<T>, f: T -> real, g: T -> real)
    requires forall x :: x in s ==> f(x) == g(x)
    ensures Sum(s, f) == Sum(s, g)
  {
    SumMonotone(s, f, g);
    SumMonotone(s, g, f);
  }

  /** A sum of nonnegative terms is nonnegative and grows with its index set. */
  lemma {:induction false} SumNonnegative<T(!new)>(s: set<T>, f: T -> real)
    requires forall x :: x in s ==> f(x) >= 0.0
    ensures Sum(s, f) >= 0.0
    decreases |s|
  {
    if s != {} {
      var x :| x in s;
      SumRemove(s, f, x);
      SumNonnegative(s - {x}, f);
    }
  }

  lemma {:induction false} SumSubset<T(!new)>(a: set<T>, b: set<T>, f: T -> real)
    requires a <= b && forall x :: x in b ==> f(x) >= 0.0
    ensures Sum(a, f) <= Sum(b, f)
  {
    assert b == a + (b - a);
    SumUnion(a, b - a, f);
    SumNonnegative(b - a, f);
  }

  /** `m` maps `a` one to one onto `b`, and each term to an equal term. */
  ghost predicate Corresponds<T(!new), U(!new)>(a: set<T>, b: set<U>, m: map<T, U>, f: T -> real, g: U -> real) {
    && m.Keys == a && (forall x :: x in a ==> m[x] in b && f(x) == g(m[x]))
    && (forall x, y :: x in a && y in a && m[x] == m[y] ==> x == y)
    && (forall u :: u in b ==> exists x :: x in a && m[x] == u)
  }

  lemma {:induction false} RestCorresponds<T(!new), U(!new)>(
    a: set<T>, b: set<U>, m: map<T, U>, f: T -> real, g: U -> real, x: T)
    requires Corresponds(a, b, m, f, g) && x in a
    ensures Corresponds(a - {x}, b - {m[x]}, m - {x}, f, g)
  {
    var rest := m - {x};
    assert forall y :: y in a - {x} ==> rest[y] == m[y] && m[y] != m[x];
    forall u | u in b - {m[x]} ensures exists y :: y in a - {x} && rest[y] == u {
      var y :| y in a && m[y] == u;
      assert y != x;
    }
  }

  /** Sums correspond across a bijection. */
  lemma {:induction false} SumBijection<T(!new), U(!new)>(
    a: set<T>, b: set<U>, m: map<T, U>, f: T -> real, g: U -> real)
    requires Corresponds(a, b, m, f, g)
    ensures Sum(a, f) == Sum(b, g)
    decreases |a|
  {
    if a == {} {
      assert b == {};
    } else {
      var x :| x in a;
      SumRemove(a, f, x);
      SumRemove(b, g, m[x]);
      RestCorresponds(a, b, m, f, g, x);
      SumBijection(a - {x}, b - {m[x]}, m - {x}, f, g);
    }
  }
}
