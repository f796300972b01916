/**
 Common multiples: the gcd/denominator pair of examples/sparse_composition.rs,
 which is also how `math.lcm` combines its arguments.
 */
module Arithmetic {

  predicate Divides(d: nat, n: int)
    requires d > 0
  {
    n % d == 0
  }

  lemma {:induction false} MultipleDivides(d: nat, q: int, n: int)
    requires d > 0 && n == d * q
    ensures Divides(d, n) && n / d == q
  {
    var k := q - n / d;
    assert n == d * (n / d) + n % d;
    assert d * k == n % d;
    assert k >= 1 ==> d * k >= d * 1;
    assert k <= -1 ==> d * k <= d * -1;
  }

  lemma {:induction false} RemainderUnique(m: nat, n: int, q: int, r: nat)
    requires m > 0 && r < m && n == m * q + r
    ensures n % m == r && n / m == q
  {
    var k := q - n / m;
    assert m * k == n % m - r by {
      assert n == m * (n / m) + n % m;
    }
    assert k >= 1 ==> m * k >= m * 1;
    assert k <= -1 ==> m * k <= m * -1;
  }

  lemma {:induction false} SameRemainder(m: nat, a: int, b: int)
    requires m > 0
    ensures a % m == b % m <==> Divides(m, a - b)
  {
    assert a == m * (a / m) + a % m && b == m * (b / m) + b % m;
    if a % m == b % m {
      MultipleDivides(m, a / m - b / m, a - b);
    }
    if Divides(m, a - b) {
      var q := (a - b) / m;
      assert a - b == m * q;
      assert a == m * (b / m + q) + b % m;
      RemainderUnique(m, a, b / m + q, b % m);
    }
  }

  lemma {:induction false} AddBelow(m: nat, base: nat, r: nat)
    requires m > 0 && r < m && Divides(m, base)
    ensures (base + r) % m == r
  {
    RemainderUnique(m, base + r, base / m, r);
  }

  lemma {:induction false} StepApart(i: nat, j: nat, f: nat)
    requires i < j
    ensures j * f - i * f >= f
  {
    var rest: nat := j - i - 1;
    assert j == i + 1 + rest;
    assert rest * f >= 0;
  }

  lemma {:induction false} QuotientIncreases(c: nat, a: int, b: int)
    requires c > 0 && b - a >= c
    ensures a / c < b / c
  {
    assert a == c * (a / c) + a % c && b == c * (b / c) + b % c;
    var gap := b / c - a / c;
    assert c * gap == c * (b / c) - c * (a / c);
    assert gap <= 0 ==> c * gap <= 0;
  }

  lemma {:induction false} QuotientBelow(c: nat, b: int, f: int)
    requires c > 0 && b < c * f
    ensures b / c < f
  {
    assert b == c * (b / c) + b % c;
    var rest := b / c - f;
    assert c * rest == c * (b / c) - c * f;
    assert rest >= 0 ==> c * rest >= 0;
  }

  /** A positive multiple is at least its factor. */
  lemma {:induction false} MultipleAtLeast(m: nat, n: int)
    requires m > 0 && n > 0 && Divides(m, n)
    ensures n >= m
  {
    var q := n / m;
    assert n == m * q;
    assert q <= 0 ==> m * q <= 0;
    assert q >= 1 ==> m * q >= m * 1;
  }

  /** Distinct offsets below the modulus stay distinct after a common shift. */
  lemma {:induction false} ShiftedDistinct(m: nat, shift: nat, a: nat, b: nat)
    requires a < b < m
    ensures (shift + a) % m != (shift + b) % m
  {
    SameRemainder(m, shift + b, shift + a);
    assert shift + b - (shift + a) == b - a;
    if Divides(m, b - a) { MultipleAtLeast(m, b - a); }
  }

  lemma {:induction false} DividesTransitive(d: nat, m: nat, n: int)
    requires d > 0 && m > 0 && Divides(d, m) && Divides(m, n)
    ensures Divides(d, n)
  {
    assert n == d * ((m / d) * (n / m)) by {
      assert m == d * (m / d) && n == m * (n / m);
    }
    MultipleDivides(d, (m / d) * (n / m), n);
  }

  lemma {:induction false} DividesSum(d: nat, a: int, b: int)
    requires d > 0 && Divides(d, a) && Divides(d, b)
    ensures Divides(d, a + b) && Divides(d, a - b)
  {
    assert a + b == d * (a / d + b / d) && a - b == d * (a / d - b / d);
    MultipleDivides(d, a / d + b / d, a + b);
    MultipleDivides(d, a / d - b / d, a - b);
  }

  /** `n` is `d` times the exact value `x`. */
  ghost predicate IsScaled(n: int, d: real, x: real) { n as real == d * x }

  /** Scaling by a positive factor keeps order and equality. */
  lemma {:induction false} ScalingKeepsOrder(d: real, x: real, y: real, dx: int, dy: int)
    requires d > 0.0 && IsScaled(dx, d, x) && IsScaled(dy, d, y)
    ensures dx < dy <==> x < y
    ensures dx == dy <==> x == y
  {
    var gap := y - x;
    assert d * y - d * x == d * gap;
    assert gap > 0.0 ==> d * gap > 0.0;
    assert gap < 0.0 ==> d * gap < 0.0;
  }

  /** Euclid's algorithm, as a function. */
  function Gcd(a: nat, b: nat): (g: nat)
    ensures a > 0 || b > 0 ==> g > 0
    decreases b
  {
    if b == 0 then a else Gcd(b, a % b)
  }

  /** Every common divisor of `a` and `b` divides `Gcd(a, b)`, and conversely. */
  lemma {:induction false} GcdDivides(a: nat, b: nat, d: nat)
    requires (a > 0 || b > 0) && d > 0
    ensures Divides(d, a) && Divides(d, b) <==> Divides(d, Gcd(a, b))
    decreases b
  {
    if b != 0 {
      GcdDivides(b, a % b, d);
      var m := (a / b) * b;
      assert a == m + a % b;
      if Divides(d, b) {
        assert m == b * (a / b);
        MultipleDivides(b, a / b, m);
        DividesTransitive(d, b, m);
        if Divides(d, a) { DividesSum(d, a, m); }
        if Divides(d, a % b) { DividesSum(d, m, a % b); }
      }
    } else {
      assert Divides(d, 0);
    }
  }

  /** The loop of the source computes Euclid's gcd. */
  method GcdLoop(a0: nat, b0: nat) returns (a: nat)
    requires a0 > 0 || b0 > 0
    ensures a == Gcd(a0, b0) > 0
    ensures Divides(a, a0) && Divides(a, b0)
    ensures forall d: nat :: d > 0 && Divides(d, a0) && Divides(d, b0) ==> d <= a
  {
    a := a0;
    var b: nat := b0;
    while b != 0
      invariant b >= 0 && (a > 0 || b > 0)
      invariant Gcd(a, b) == Gcd(a0, b0)
      decreases b
    {
      a, b := b, a % b;
    }
    GcdDivides(a0, b0, a);
    assert a % a == 0;
    forall d: nat | d > 0 && Divides(d, a0) && Divides(d, b0) ensures d <= a {
      GcdDivides(a0, b0, d);
      var q := a / d;
      assert a == d * q;
      assert q <= 0 ==> d * q <= 0;
      assert q >= 1 ==> d * q >= d * 1;
    }
  }

  function Lcm(a: nat, n: nat): (m: nat)
    requires a > 0 && n > 0
  {
    (a / Gcd(a, n)) * n
  }

  lemma {:induction false} LcmIsCommonMultiple(a: nat, n: nat)
    requires a > 0 && n > 0
    ensures Lcm(a, n) > 0 && Divides(a, Lcm(a, n)) && Divides(n, Lcm(a, n))
  {
    var g := Gcd(a, n);
    assert g % g == 0;
    GcdDivides(a, n, g);
    assert a == g * (a / g) && n == g * (n / g);
    assert a / g > 0;
    assert Lcm(a, n) == a * (n / g) by {
      assert (a / g) * (g * (n / g)) == (g * (a / g)) * (n / g);
    }
    MultipleDivides(a, n / g, Lcm(a, n));
    MultipleDivides(n, a / g, Lcm(a, n));
  }

  lemma {:induction false} BezoutStep(a: int, b: int, q: int, r: int, s: int, t: int)
    requires a == q * b + r
    ensures t * a + (s - t * q) * b == s * b + t * r
  {
    assert t * a == (t * q) * b + t * r by {
      assert t * (q * b + r) == t * (q * b) + t * r;
      assert t * (q * b) == (t * q) * b;
    }
    assert (s - t * q) * b == s * b - (t * q) * b;
  }

  /** The gcd is an integer combination of its arguments. */
  lemma {:induction false} Bezout(a: nat, b: nat) returns (s: int, t: int)
    ensures s * a + t * b == Gcd(a, b)
    decreases b
  {
    if b == 0 {
      s, t := 1, 0;
    } else {
      var s', t' := Bezout(b, a % b);
      BezoutStep(a, b, a / b, a % b, s', t');
      s, t := t', s' - t' * (a / b);
    }
  }

  lemma {:induction false} CombineMultiples(a: int, n: int, x: int, y: int, s: int, t: int, g: int, m: int)
    requires m == a * x && m == n * y && s * a + t * n == g
    ensures m * g == (a * n) * (y * s + x * t)
  {
    assert m * g == m * (s * a) + m * (t * n);
    assert m * (s * a) == (a * n) * (y * s) by { assert (n * y) * (s * a) == (a * n) * (y * s); }
    assert m * (t * n) == (a * n) * (x * t) by { assert (a * x) * (t * n) == (a * n) * (x * t); }
  }

  lemma {:induction false} CancelFactor(m: int, k: int, g: int)
    requires g > 0 && m * g == k * g
    ensures m == k
  {
    var d := m - k;
    assert d * g == 0;
    assert d > 0 ==> d * g > 0;
    assert d < 0 ==> d * g < 0;
  }

  lemma {:induction false} LcmTimesGcd(a: nat, n: nat)
    requires a > 0 && n > 0
    ensures a * n == Lcm(a, n) * Gcd(a, n)
  {
    var g := Gcd(a, n);
    assert g % g == 0;
    GcdDivides(a, n, g);
    var q := a / g;
    assert a == g * q;
    assert (g * q) * n == (q * n) * g;
  }

  lemma {:induction false} QuotientOfProducts(m: int, g: int, l: int, product: int, z: int)
    requires g > 0 && m * g == product * z && product == l * g
    ensures m == l * z
  {
    assert (l * g) * z == (l * z) * g;
    CancelFactor(m, l * z, g);
  }

  /** The least common multiple divides every common multiple. */
  lemma {:induction false} LcmIsLeast(a: nat, n: nat, m: nat)
    requires a > 0 && n > 0 && Divides(a, m) && Divides(n, m)
    ensures Lcm(a, n) > 0 && Divides(Lcm(a, n), m)
  {
    LcmIsCommonMultiple(a, n);
    LcmTimesGcd(a, n);
    var s, t := Bezout(a, n);
    var x, y := m / a, m / n;
    CombineMultiples(a, n, x, y, s, t, Gcd(a, n), m);
    var z := y * s + x * t;
    QuotientOfProducts(m, Gcd(a, n), Lcm(a, n), a * n, z);
    MultipleDivides(Lcm(a, n), z, m);
  }

  /** `math.lcm(*ns)`: the fold of `Lcm` over a list of positive numbers. */
  function LcmAll(ns: seq<nat>): (m: nat)
    requires forall n :: n in ns ==> n > 0
    ensures m > 0
    ensures forall n :: n in ns ==> n > 0 && Divides(n, m)
  {
    if ns == [] then 1 else
      var front := ns[..|ns| - 1];
      var last := ns[|ns| - 1];
      assert forall n :: n in front ==> n in ns;
      assert last in ns;
      var a := LcmAll(front);
      LcmIsCommonMultiple(a, last);
      assert forall n :: n in front ==> Divides(n, Lcm(a, last)) by {
        forall n | n in front ensures Divides(n, Lcm(a, last)) {
          DividesTransitive(n, a, Lcm(a, last));
        }
      }
      assert ns == front + [last];
      Lcm(a, last)
  }

  /** It is the least: it divides every common multiple. */
  lemma {:induction false} LcmAllIsLeast(ns: seq<nat>, m: nat)
    requires forall n :: n in ns ==> n > 0 && Divides(n, m)
    ensures Divides(LcmAll(ns), m)
  {
    if ns != [] {
      var front, last := ns[..|ns| - 1], ns[|ns| - 1];
      assert last in ns;
      assert forall n :: n in front ==> n in ns;
      LcmAllIsLeast(front, m);
      LcmIsLeast(LcmAll(front), last, m);
    }
  }
}
