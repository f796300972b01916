/**
 The Walsh codebook, key schedule, query sampling and phase decoder of
 benchmarks/public/check_algebraic_codebook_report.py. Phases are integers modulo 16; the
 phase table is any table of exact complex 16th roots of unity.
 */
module WalshCodebook {
  import opened Arithmetic

  // ----- bits --------------------------------------------------------------

  function BitAnd(a: nat, b: nat): nat {
    if a == 0 || b == 0 then 0 else (if a % 2 == 1 && b % 2 == 1 then 1 else 0) + 2 * BitAnd(a / 2, b / 2)
  }

  function BitCount(n: nat): nat {
    if n == 0 then 0 else n % 2 + BitCount(n / 2)
  }

  function Pow2(m: nat): (p: nat)
    ensures p > 0
  {
    if m == 0 then 1 else 2 * Pow2(m - 1)
  }

  /** The parity sign of the bits `code` and `d` share. */
  function Sign(code: nat, d: nat): (s: int)
    ensures s == 1 || s == -1
  {
    if BitCount(BitAnd(code, d)) % 2 == 0 then 1 else -1
  }

  /** Dropping the lowest bit flips the sign exactly when both lowest bits are set. */
  lemma {:induction false} SignHalf(a: nat, d: nat)
    ensures Sign(a, d) == (if a % 2 == 1 && d % 2 == 1 then -Sign(a / 2, d / 2) else Sign(a / 2, d / 2))
  {
    var low := if a % 2 == 1 && d % 2 == 1 then 1 else 0;
    if a != 0 && d != 0 {
      var n := BitAnd(a, d);
      assert n == low + 2 * BitAnd(a / 2, d / 2);
      assert n % 2 == low && n / 2 == BitAnd(a / 2, d / 2);
      assert BitCount(n) == low + BitCount(n / 2);
    }
  }

  /** Code 0 and position 0 are positive; with `SignHalf` this determines every sign. */
  lemma {:induction false} SignAtZero(a: nat)
    ensures Sign(a, 0) == 1 && Sign(0, a) == 1
  {
    assert BitAnd(a, 0) == 0 && BitAnd(0, a) == 0 && BitCount(0) == 0;
  }

  /** A position with a single bit reads that bit of the code. */
  lemma {:induction false} SignReadsBit(a: nat, m: nat)
    ensures Sign(a, Pow2(m)) == if (a / Pow2(m)) % 2 == 1 then -1 else 1
  {
    if m == 0 {
      SignHalf(a, 1);
      SignAtZero(a / 2);
    } else {
      var p := Pow2(m - 1);
      SignHalf(a, 2 * p);
      assert (2 * p) / 2 == p;
      SignReadsBit(a / 2, m - 1);
      QuotientTwice(a, p);
    }
  }

  lemma {:induction false} QuotientTwice(a: nat, p: nat)
    requires p > 0
    ensures a / 2 / p == a / (2 * p)
  {
    var q, r := a / (2 * p), a % (2 * p);
    assert a == 2 * (p * q) + r by { assert (2 * p) * q == 2 * (p * q); }
    assert a / 2 == p * q + r / 2;
    RemainderUnique(p, a / 2, q, r / 2);
  }

  // ----- orthogonality -----------------------------------------------------

  /** One position of the product of two codes. */
  function Agreement(a: nat, b: nat, d: nat): (s: int)
    ensures s == 1 || s == -1
  {
    if Sign(a, d) == Sign(b, d) then 1 else -1
  }

  ghost function Correlation(a: nat, b: nat, n: nat): int {
    if n == 0 then 0 else Correlation(a, b, n - 1) + Agreement(a, b, n - 1)
  }

  lemma {:induction false} PairOfTerms(a: nat, b: nat, e: nat)
    ensures Agreement(a, b, 2 * e) + Agreement(a, b, 2 * e + 1)
            == (if a % 2 == b % 2 then 2 * Agreement(a / 2, b / 2, e) else 0)
  {
    SignHalf(a, 2 * e);
    SignHalf(b, 2 * e);
    SignHalf(a, 2 * e + 1);
    SignHalf(b, 2 * e + 1);
    assert (2 * e + 1) / 2 == e && (2 * e) / 2 == e;
  }

  lemma {:induction false} HalveCorrelation(a: nat, b: nat, n: nat)
    ensures Correlation(a, b, 2 * n) == (if a % 2 == b % 2 then 2 * Correlation(a / 2, b / 2, n) else 0)
  {
    if n > 0 {
      HalveCorrelation(a, b, n - 1);
      PairOfTerms(a, b, n - 1);
      assert Correlation(a, b, 2 * n) == Correlation(a, b, 2 * n - 1) + Agreement(a, b, 2 * n - 1);
      assert Correlation(a, b, 2 * n - 1) == Correlation(a, b, 2 * n - 2) + Agreement(a, b, 2 * n - 2);
    }
  }

  /** Two parity codes over one period agree completely or cancel completely. */
  lemma {:induction false} PeriodOrthogonal(m: nat, a: nat, b: nat)
    requires a < Pow2(m) && b < Pow2(m)
    ensures Correlation(a, b, Pow2(m)) == (if a == b then Pow2(m) else 0)
  {
    if m == 0 {
      assert Correlation(a, b, 1) == Correlation(a, b, 0) + Agreement(a, b, 0);
    } else {
      HalveCorrelation(a, b, Pow2(m - 1));
      PeriodOrthogonal(m - 1, a / 2, b / 2);
    }
  }

  /** The inner product of two codes of length `dim`. */
  ghost function InnerProduct(labels: nat, a: nat, b: nat, dim: nat): int
    requires labels > 0
  {
    if dim == 0 then 0 else InnerProduct(labels, a, b, dim - 1) + Agreement(a, b, (dim - 1) % labels)
  }

  lemma {:induction false} InnerProductTail(labels: nat, a: nat, b: nat, base: nat, k: nat)
    requires labels > 0 && k <= labels && Divides(labels, base)
    ensures InnerProduct(labels, a, b, base + k) == InnerProduct(labels, a, b, base) + Correlation(a, b, k)
  {
    if k > 0 {
      InnerProductTail(labels, a, b, base, k - 1);
      AddBelow(labels, base, k - 1);
    }
  }

  /** `n` times `c`. */
  ghost function Times(n: nat, c: int): int {
    if n == 0 then 0 else Times(n - 1, c) + c
  }

  lemma {:induction false} TimesIsProduct(n: nat, c: int)
    ensures Times(n, c) == n * c
  {
    if n > 0 { TimesIsProduct(n - 1, c); }
  }

  lemma {:induction false} InnerProductPeriods(labels: nat, a: nat, b: nat, periods: nat, dim: nat)
    requires labels > 0 && dim == Times(periods, labels)
    ensures Divides(labels, dim) && InnerProduct(labels, a, b, dim) == Times(periods, Correlation(a, b, labels))
  {
    if periods > 0 {
      var base := dim - labels;
      TimesIsProduct(periods - 1, labels);
      InnerProductPeriods(labels, a, b, periods - 1, base);
      InnerProductTail(labels, a, b, base, labels);
      assert labels % labels == 0;
      DividesSum(labels, base, labels);
    }
  }

  ghost predicate PowerOfTwo(n: nat) { exists m: nat :: n == Pow2(m) }

  /** For a power-of-two label count and any multiple of it, codes are orthogonal. */
  lemma {:induction false} WalshOrthogonal(labels: nat, dim: nat, a: nat, b: nat)
    requires PowerOfTwo(labels) && dim % labels == 0
    requires a < labels && b < labels
    ensures InnerProduct(labels, a, b, dim) == (if a == b then dim else 0)
  {
    var m: nat :| labels == Pow2(m);
    var periods := dim / labels;
    assert dim == labels * periods;
    PeriodOrthogonal(m, a, b);
    TimesIsProduct(periods, labels);
    TimesIsProduct(periods, 0);
    InnerProductPeriods(labels, a, b, periods, dim);
  }

  // ----- only powers of two --------------------------------------------------

  /** The lowest-bit code alternates in sign. */
  lemma {:induction false} AlternatingCode(n: nat)
    ensures Correlation(1, 0, n) == n % 2
  {
    if n > 0 {
      AlternatingCode(n - 1);
      SignHalf(1, n - 1);
      assert BitAnd(0, (n - 1) / 2) == 0 && BitAnd(0, n - 1) == 0;
    }
  }

  lemma {:induction false} DoublePower(n: nat)
    requires PowerOfTwo(n)
    ensures PowerOfTwo(2 * n)
  {
    var m: nat :| n == Pow2(m);
    assert 2 * n == Pow2(m + 1);
  }

  /** For any other label count, some code is not orthogonal to code 0. */
  lemma {:induction false} SomeCodeOverlaps(labels: nat) returns (a: nat)
    requires labels > 0 && !PowerOfTwo(labels)
    ensures 0 < a < labels && Correlation(a, 0, labels) > 0
  {
    assert Pow2(0) == 1;
    assert PowerOfTwo(1);
    if labels % 2 == 1 {
      a := 1;
      AlternatingCode(labels);
    } else {
      var half := labels / 2;
      if PowerOfTwo(half) { DoublePower(half); }
      var b := SomeCodeOverlaps(half);
      a := 2 * b;
      HalveCorrelation(a, 0, half);
    }
  }

  ghost predicate Orthogonal(labels: nat, dim: nat)
    requires labels > 0
  {
    forall a: nat, b: nat :: a < labels && b < labels ==> InnerProduct(labels, a, b, dim) == if a == b then dim else 0
  }

  /** The codes are orthogonal exactly when the number of labels is a power of two. */
  lemma {:induction false} OrthogonalIffPowerOfTwo(labels: nat, dim: nat)
    requires labels > 0 && dim > 0 && dim % labels == 0
    ensures Orthogonal(labels, dim) <==> PowerOfTwo(labels)
  {
    if PowerOfTwo(labels) {
      forall a: nat, b: nat | a < labels && b < labels
        ensures InnerProduct(labels, a, b, dim) == if a == b then dim else 0
      {
        WalshOrthogonal(labels, dim, a, b);
      }
    } else {
      var a := SomeCodeNotOrthogonal(labels, dim);
    }
  }

  lemma {:induction false} SomeCodeNotOrthogonal(labels: nat, dim: nat) returns (a: nat)
    requires labels > 0 && dim > 0 && dim % labels == 0 && !PowerOfTwo(labels)
    ensures 0 < a < labels && InnerProduct(labels, a, 0, dim) > 0
  {
    a := SomeCodeOverlaps(labels);
    var periods := dim / labels;
    assert dim == labels * periods;
    TimesIsProduct(periods, labels);
    InnerProductPeriods(labels, a, 0, periods, dim);
    TimesPositive(periods, Correlation(a, 0, labels));
    assert periods > 0;
  }

  lemma {:induction false} TimesPositive(n: nat, c: int)
    requires c > 0
    ensures Times(n, c) >= n
  {
    if n > 0 { TimesPositive(n - 1, c); }
  }

  // ----- any number of labels ------------------------------------------------

  /** Two distinct codes differ in sign at a position no larger than one of them. */
  lemma {:induction false} SomeDifference(a: nat, b: nat) returns (d: nat)
    requires a != b
    ensures Agreement(a, b, d) == -1 && (d <= a || d <= b)
    decreases a + b
  {
    if a % 2 != b % 2 {
      d := 1;
      SignHalf(a, 1);
      SignHalf(b, 1);
    } else {
      var e := SomeDifference(a / 2, b / 2);
      d := 2 * e;
      SignHalf(a, d);
      SignHalf(b, d);
      assert d / 2 == e;
    }
  }

  lemma {:induction false} InnerProductOfSame(labels: nat, a: nat, dim: nat)
    requires labels > 0
    ensures InnerProduct(labels, a, a, dim) == dim
  {
    if dim > 0 { InnerProductOfSame(labels, a, dim - 1); }
  }

  lemma {:induction false} InnerProductBound(labels: nat, a: nat, b: nat, dim: nat, d: nat)
    requires d < labels && Agreement(a, b, d) == -1
    ensures InnerProduct(labels, a, b, dim) <= dim && (d < dim ==> InnerProduct(labels, a, b, dim) < dim)
  {
    if dim > 0 {
      InnerProductBound(labels, a, b, dim - 1, d);
      if d == dim - 1 { RemainderUnique(labels, d, 0, d); }
    }
  }

  /** For any number of labels up to the dimension, every rival overlaps less than the code itself. */
  lemma {:induction false} RivalOverlapsLess(labels: nat, a: nat, b: nat, dim: nat)
    requires a < labels <= dim && b < labels && a != b
    ensures InnerProduct(labels, a, b, dim) < dim == InnerProduct(labels, a, a, dim)
  {
    var d := SomeDifference(a, b);
    InnerProductOfSame(labels, a, dim);
    InnerProductBound(labels, a, b, dim, d);
  }

  // ----- the key schedule --------------------------------------------------

  const KEYS := 4096

  /** `(hash & 4095) | 1` */
  function Stride(hash: nat): (s: nat)
    ensures s % 2 == 1 && s < 4096 && s / 2 == (hash % 4096) / 2
  {
    var x := hash % KEYS;
    if x % 2 == 1 then x else x + 1
  }

  function KeyAt(stride: nat, offset: nat, i: nat): (key: nat)
    ensures key < KEYS
  {
    (stride * i + offset) % KEYS
  }

  lemma {:induction false} HalveOddProduct(stride: nat, x: int, t: int) returns (y: int)
    requires stride % 2 == 1 && stride * x == 2 * t
    ensures x == 2 * y && stride * y == t
  {
    var h := stride / 2;
    assert stride * x == 2 * (h * x) + x;
    y := t - h * x;
    assert stride * (2 * y) == 2 * (stride * y);
  }

  lemma {:induction false} DoubleDivides(p: nat, y: int)
    requires p > 0 && Divides(p, y)
    ensures Divides(2 * p, 2 * y)
  {
    assert 2 * y == 2 * p * (y / p);
    MultipleDivides(2 * p, y / p, 2 * y);
  }

  /** An odd factor does not help a power of two divide a product. */
  lemma {:induction false} OddFactor(k: nat, stride: nat, x: int)
    requires stride % 2 == 1 && Divides(Pow2(k), stride * x)
    ensures Divides(Pow2(k), x)
  {
    if k > 0 {
      var p := Pow2(k - 1);
      var q := (stride * x) / Pow2(k);
      assert stride * x == 2 * (p * q) by { assert stride * x == (2 * p) * q; }
      var y := HalveOddProduct(stride, x, p * q);
      MultipleDivides(p, q, stride * y);
      OddFactor(k - 1, stride, y);
      DoubleDivides(p, y);
    }
  }

  lemma {:induction false} KeySpaceIsPowerOfTwo()
    ensures Pow2(12) == KEYS
  {
    assert Pow2(4) == 16;
    assert Pow2(8) == 256 by { assert Pow2(6) == 64; }
    assert Pow2(12) == 16 * Pow2(8) by { assert Pow2(10) == 4 * Pow2(8); }
  }

  lemma {:induction false} StrideDivides(stride: nat, x: int)
    requires Divides(KEYS, x)
    ensures Divides(KEYS, stride * x)
  {
    var q := x / KEYS;
    assert stride * x == KEYS * (stride * q) by { assert x == KEYS * q; }
    MultipleDivides(KEYS, stride * q, stride * x);
  }

  /** Two facts share a key exactly when their positions agree modulo the key space. */
  lemma {:induction false} KeysCollide(stride: nat, offset: nat, i: nat, j: nat)
    requires stride % 2 == 1
    ensures KeyAt(stride, offset, i) == KeyAt(stride, offset, j) <==> Divides(KEYS, i - j)
  {
    var a, b := stride * i + offset, stride * j + offset;
    assert a - b == stride * (i - j);
    SameRemainder(KEYS, a, b);
    KeySpaceIsPowerOfTwo();
    if Divides(KEYS, stride * (i - j)) { OddFactor(12, stride, i - j); }
    if Divides(KEYS, i - j) { StrideDivides(stride, i - j); }
  }

  /** Keys start at the offset and move on by the stride, modulo 4096. */
  lemma {:induction false} KeySteps(stride: nat, offset: nat, i: nat)
    ensures KeyAt(stride, offset, 0) == offset % 4096
    ensures KeyAt(stride, offset, i + 1) == (KeyAt(stride, offset, i) + stride) % 4096
  {
    var n := stride * i + offset;
    assert stride * (i + 1) + offset == n + stride;
    SameRemainder(KEYS, n + stride, n % KEYS + stride);
    assert n + stride - (n % KEYS + stride) == KEYS * (n / KEYS);
    MultipleDivides(KEYS, n / KEYS, n - n % KEYS);
  }

  ghost predicate DistinctKeys(stride: nat, offset: nat, facts: nat) {
    forall i: nat, j: nat :: i < j < facts ==> KeyAt(stride, offset, i) != KeyAt(stride, offset, j)
  }

  /** For every hash the schedule gives pairwise distinct keys exactly up to the size of the key space. */
  lemma {:induction false} KeyScheduleIsPermutation(hash: nat, offset: nat, facts: nat)
    ensures DistinctKeys(Stride(hash), offset, facts) <==> facts <= KEYS
  {
    var stride := Stride(hash);
    if facts <= KEYS {
      forall i: nat, j: nat | i < j < facts ensures KeyAt(stride, offset, i) != KeyAt(stride, offset, j) {
        KeysCollide(stride, offset, j, i);
        assert 0 < j - i < KEYS;
      }
    } else {
      KeysCollide(stride, offset, KEYS, 0);
    }
  }

  // ----- query sampling ----------------------------------------------------

  function QueryAt(shift: nat, i: nat, facts: nat, count: nat): (q: nat)
    requires 0 < count <= facts
    ensures q < facts
  {
    (shift + i * facts / count) % facts
  }

  lemma {:induction false} SpreadIncreases(i: nat, j: nat, facts: nat, count: nat)
    requires 0 < count <= facts && i < j < count
    ensures i * facts / count < j * facts / count < facts
  {
    StepApart(i, j, facts);
    StepApart(j, count, facts);
    QuotientIncreases(count, i * facts, j * facts);
    QuotientBelow(count, j * facts, facts);
  }

  lemma {:induction false} GapOfQuotients(n: nat, facts: nat, count: nat)
    requires count > 0
    ensures facts / count <= (n + facts) / count - n / count <= facts / count + 1
  {
    var q, r := facts / count, facts % count;
    var u, v := n / count, n % count;
    assert n + facts == count * (u + q) + (v + r) by {
      assert n == count * u + v && facts == count * q + r;
      assert count * (u + q) == count * u + count * q;
    }
    if v + r < count {
      RemainderUnique(count, n + facts, u + q, v + r);
    } else {
      assert count * (u + q + 1) == count * (u + q) + count;
      RemainderUnique(count, n + facts, u + q + 1, v + r - count);
    }
  }

  /** Sampling starts at the shift and goes once around the facts in nearly equal steps. */
  lemma {:induction false} QueriesSpread(shift: nat, i: nat, facts: nat, count: nat) returns (step: nat)
    requires 0 < count <= facts && i + 1 < count
    ensures QueryAt(shift, 0, facts, count) == shift % facts
    ensures QueryAt(shift, i + 1, facts, count) == (QueryAt(shift, i, facts, count) + step) % facts
    ensures step == facts / count || step == facts / count + 1
  {
    assert 0 * facts / count == 0;
    var n := i * facts;
    assert (i + 1) * facts == n + facts;
    GapOfQuotients(n, facts, count);
    step := (n + facts) / count - n / count;
    var m := shift + n / count;
    SameRemainder(facts, m + step, m % facts + step);
    assert m + step - (m % facts + step) == facts * (m / facts);
    MultipleDivides(facts, m / facts, m - m % facts);
  }

  /** The sampled fact positions are pairwise distinct. */
  lemma {:induction false} QueriesDistinct(shift: nat, i: nat, j: nat, facts: nat, count: nat)
    requires 0 < count <= facts && i < j < count
    ensures QueryAt(shift, i, facts, count) != QueryAt(shift, j, facts, count)
  {
    SpreadIncreases(i, j, facts, count);
    ShiftedDistinct(facts, shift, i * facts / count, j * facts / count);
  }
}
