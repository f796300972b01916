/**
 The explicit decoder of benchmarks/public/check_algebraic_codebook_report.py: a field is
 the sum of one root of unity per fact and coordinate, and a query unbinds its key, scores
 every label and takes the first maximum. With Walsh codes over any number of labels, the
 stored label wins exactly when the interference of the other facts does not outweigh its lead.
 */
module PhaseDecoder {
  import opened WalshCodebook
  import opened PhaseKeys

  datatype Complex = Complex(re: real, im: real)

  function Add(x: Complex, y: Complex): Complex { Complex(x.re + y.re, x.im + y.im) }
  function Mul(x: Complex, y: Complex): Complex { Complex(x.re * y.re - x.im * y.im, x.re * y.im + x.im * y.re) }
  function Conj(x: Complex): Complex { Complex(x.re, -x.im) }
  const ZERO := Complex(0.0, 0.0)

  lemma {:induction false} MulDistributes(x: Complex, y: Complex, w: Complex)
    ensures Mul(Add(x, y), w) == Add(Mul(x, w), Mul(y, w))
  {
    assert (x.re + y.re) * w.re == x.re * w.re + y.re * w.re;
    assert (x.re + y.re) * w.im == x.re * w.im + y.re * w.im;
    assert (x.im + y.im) * w.re == x.im * w.re + y.im * w.re;
    assert (x.im + y.im) * w.im == x.im * w.im + y.im * w.im;
  }

  // ----- tables of roots ----------------------------------------------------

  lemma {:induction false} Regroup(a: real, b: real, c: real)
    ensures (a * b) * c == a * (b * c)
  {
  }

  lemma {:induction false} MulCommutes(x: Complex, y: Complex)
    ensures Mul(x, y) == Mul(y, x)
  {
  }

  lemma {:induction false} Expand(a: real, b: real, c: real, d: real, e: real)
    ensures (a * b - c * d) * e == a * (b * e) - c * (d * e)
    ensures (a * b + c * d) * e == a * (b * e) + c * (d * e)
  {
    Regroup(a, b, e);
    Regroup(c, d, e);
    assert (a * b - c * d) * e == (a * b) * e - (c * d) * e;
    assert (a * b + c * d) * e == (a * b) * e + (c * d) * e;
  }

  lemma {:induction false} MulAssociates(x: Complex, y: Complex, z: Complex)
    ensures Mul(Mul(x, y), z) == Mul(x, Mul(y, z))
  {
    var a, b, c, d, e, f := x.re, x.im, y.re, y.im, z.re, z.im;
    Expand(a, c, b, d, e);
    Expand(a, c, b, d, f);
    Expand(a, d, b, c, e);
    Expand(a, d, b, c, f);
    assert a * (c * e - d * f) == a * (c * e) - a * (d * f);
    assert b * (c * f + d * e) == b * (c * f) + b * (d * e);
    assert a * (c * f + d * e) == a * (c * f) + a * (d * e);
    assert b * (c * e - d * f) == b * (c * e) - b * (d * f);
  }

  lemma {:induction false} ConjMul(x: Complex, y: Complex)
    ensures Conj(Mul(x, y)) == Mul(Conj(x), Conj(y))
  {
    var a, b, c, d := x.re, x.im, y.re, y.im;
    assert (-b) * (-d) == b * d && a * (-d) == -(a * d) && (-b) * c == -(b * c);
  }

  const ONE := Complex(1.0, 0.0)

  function Power(w: Complex, n: nat): Complex {
    if n == 0 then ONE else Mul(Power(w, n - 1), w)
  }

  lemma {:induction false} PowerAdds(w: Complex, m: nat, n: nat)
    ensures Mul(Power(w, m), Power(w, n)) == Power(w, m + n)
  {
    if n > 0 {
      PowerAdds(w, m, n - 1);
      MulAssociates(Power(w, m), Power(w, n - 1), w);
    }
  }

  lemma {:induction false} ConjPower(w: Complex, n: nat)
    ensures Conj(Power(w, n)) == Power(Conj(w), n)
  {
    if n > 0 {
      ConjPower(w, n - 1);
      ConjMul(Power(w, n - 1), w);
    }
  }

  /** On the unit circle a power times its conjugate is one. */
  lemma {:induction false} UnitPower(w: Complex, n: nat)
    requires Mul(w, Conj(w)) == ONE
    ensures Mul(Power(w, n), Power(Conj(w), n)) == ONE
  {
    if n > 0 {
      var p, q, v := Power(w, n - 1), Power(Conj(w), n - 1), Conj(w);
      UnitPower(w, n - 1);
      MulAssociates(p, w, Mul(q, v));
      MulCommutes(q, v);
      MulAssociates(w, v, q);
    }
  }

  lemma {:induction false} FullTurn(w: Complex)
    requires Power(w, 8) == Complex(-1.0, 0.0)
    ensures Power(w, 16) == ONE
  {
    PowerAdds(w, 8, 8);
  }

  lemma {:induction false} PowerWraps(w: Complex, n: nat)
    requires Power(w, 16) == ONE && n < 32
    ensures Power(w, n) == Power(w, n % 16)
  {
    if n >= 16 { PowerAdds(w, 16, n - 16); }
  }

  lemma {:induction false} ConjIsInverse(w: Complex, q: nat)
    requires Mul(w, Conj(w)) == ONE && Power(w, 16) == ONE && q < 16
    ensures Conj(Power(w, q)) == Power(w, (16 - q) % 16)
  {
    var p, c := Power(w, q), Power(Conj(w), q);
    ConjPower(w, q);
    UnitPower(w, q);
    PowerAdds(w, 16 - q, q);
    MulAssociates(Power(w, 16 - q), p, c);
    PowerWraps(w, 16 - q);
  }

  function PowerTable(w: Complex): (lut: seq<Complex>)
    ensures |lut| == 16
  {
    seq(16, p requires 0 <= p < 16 => Power(w, p))
  }

  /** The powers of any point of the unit circle whose eighth power is -1 are a table of roots. */
  lemma {:induction false} PowersAreRoots(w: Complex)
    requires Mul(w, Conj(w)) == Complex(1.0, 0.0) && Power(w, 8) == Complex(-1.0, 0.0)
    ensures RootsOfUnity(PowerTable(w))
  {
    FullTurn(w);
    var lut := PowerTable(w);
    assert lut[0] == Power(w, 0) && lut[8] == Power(w, 8);
    forall p: nat, q: nat | p < 16 && q < 16 ensures RootProduct(lut, p, q) {
      PowerProduct(w, lut, p, q);
    }
  }

  lemma {:induction false} PowerProduct(w: Complex, lut: seq<Complex>, p: nat, q: nat)
    requires Mul(w, Conj(w)) == ONE && Power(w, 16) == ONE && p < 16 && q < 16
    requires |lut| == 16 && forall n: nat :: n < 16 ==> lut[n] == Power(w, n)
    ensures RootProduct(lut, p, q)
  {
    var x, y := Power(w, p), Power(w, q);
    assert lut[p] == x && lut[q] == y;
    assert Mul(x, y) == Power(w, (p + q) % 16) by {
      PowerAdds(w, p, q);
      PowerWraps(w, p + q);
    }
    assert Conj(y) == Power(w, (16 - q) % 16) by { ConjIsInverse(w, q); }
  }

  ghost predicate RootProduct(lut: seq<Complex>, p: nat, q: nat)
    requires |lut| == 16 && p < 16 && q < 16
  {
    Mul(lut[p], lut[q]) == lut[(p + q) % 16] && Conj(lut[q]) == lut[(16 - q) % 16]
  }

  /** What the exact table `exp(2*pi*i*p/16)` satisfies. */
  ghost predicate RootsOfUnity(lut: seq<Complex>) {
    && |lut| == 16
    && lut[0] == Complex(1.0, 0.0) && lut[8] == Complex(-1.0, 0.0)
    && forall p: nat, q: nat :: p < 16 && q < 16 ==> RootProduct(lut, p, q)
  }

  type Vector = seq<Complex>

  // ----- vectors of phases and of complex numbers ---------------------------

  /** Multiply two phase vectors into one vector of roots. */
  function Bind(lut: seq<Complex>, key: seq<Phase>, code: seq<Phase>): (z: Vector)
    requires |lut| == 16 && |key| == |code|
    ensures |z| == |key|
  {
    seq(|key|, d requires 0 <= d < |key| => lut[(key[d] as int + code[d] as int) % 16])
  }

  /** `raw`: a vector with the key's phases removed. */
  function Unbind(lut: seq<Complex>, z: Vector, key: seq<Phase>): (raw: Vector)
    requires |lut| == 16 && |key| == |z|
    ensures |raw| == |z|
  {
    seq(|z|, d requires 0 <= d < |z| => Mul(z[d], Conj(lut[key[d]])))
  }

  function Terms(lut: seq<Complex>, raw: Vector, code: seq<Phase>): (terms: seq<real>)
    requires |lut| == 16 && |raw| == |code|
    ensures |terms| == |raw|
  {
    seq(|raw|, d requires 0 <= d < |raw| => Mul(raw[d], Conj(lut[code[d]])).re)
  }

  function SumTo(terms: seq<real>, n: nat): real
    requires n <= |terms|
  {
    if n == 0 then 0.0 else SumTo(terms, n - 1) + terms[n - 1]
  }

  function Match(lut: seq<Complex>, raw: Vector, code: seq<Phase>): real
    requires |lut| == 16 && |raw| == |code|
  {
    SumTo(Terms(lut, raw, code), |raw|)
  }

  function PointAdd(xs: Vector, ys: Vector): (zs: Vector)
    requires |xs| == |ys|
    ensures |zs| == |xs|
  {
    seq(|xs|, d requires 0 <= d < |xs| => Add(xs[d], ys[d]))
  }

  function Zeros(n: nat): (zs: Vector)
    ensures |zs| == n
  {
    seq(n, _ => ZERO)
  }

  lemma {:induction false} UnbindAdds(lut: seq<Complex>, xs: Vector, ys: Vector, key: seq<Phase>)
    requires |lut| == 16 && |xs| == |ys| == |key|
    ensures Unbind(lut, PointAdd(xs, ys), key) == PointAdd(Unbind(lut, xs, key), Unbind(lut, ys, key))
  {
    forall d | 0 <= d < |xs|
      ensures Unbind(lut, PointAdd(xs, ys), key)[d] == PointAdd(Unbind(lut, xs, key), Unbind(lut, ys, key))[d]
    {
      MulDistributes(xs[d], ys[d], Conj(lut[key[d]]));
    }
  }

  lemma {:induction false} SumToAdds(xs: seq<real>, ys: seq<real>, zs: seq<real>, n: nat)
    requires n <= |xs| == |ys| == |zs|
    requires forall d :: 0 <= d < n ==> xs[d] == ys[d] + zs[d]
    ensures SumTo(xs, n) == SumTo(ys, n) + SumTo(zs, n)
  {
    if n > 0 { SumToAdds(xs, ys, zs, n - 1); }
  }

  lemma {:induction false} SumToZero(xs: seq<real>, n: nat)
    requires n <= |xs| && forall d :: 0 <= d < n ==> xs[d] == 0.0
    ensures SumTo(xs, n) == 0.0
  {
    if n > 0 { SumToZero(xs, n - 1); }
  }

  lemma {:induction false} SumToPrefix(xs: seq<real>, ys: seq<real>, n: nat)
    requires n <= |xs| && n <= |ys| && forall d :: 0 <= d < n ==> xs[d] == ys[d]
    ensures SumTo(xs, n) == SumTo(ys, n)
  {
    if n > 0 { SumToPrefix(xs, ys, n - 1); }
  }

  lemma {:induction false} MatchAdds(lut: seq<Complex>, xs: Vector, ys: Vector, code: seq<Phase>)
    requires |lut| == 16 && |xs| == |ys| == |code|
    ensures Match(lut, PointAdd(xs, ys), code) == Match(lut, xs, code) + Match(lut, ys, code)
  {
    var s, t, u := Terms(lut, PointAdd(xs, ys), code), Terms(lut, xs, code), Terms(lut, ys, code);
    forall d | 0 <= d < |xs| ensures s[d] == t[d] + u[d] {
      MulDistributes(xs[d], ys[d], Conj(lut[code[d]]));
    }
    SumToAdds(s, t, u, |xs|);
  }

  lemma {:induction false} MulZero(w: Complex)
    ensures Mul(ZERO, w) == ZERO
  {
  }

  lemma {:induction false} MatchZero(lut: seq<Complex>, key: seq<Phase>, code: seq<Phase>)
    requires |lut| == 16 && |key| == |code|
    ensures Match(lut, Unbind(lut, Zeros(|key|), key), code) == 0.0
  {
    var raw := Unbind(lut, Zeros(|key|), key);
    forall d | 0 <= d < |key| ensures raw[d] == ZERO { MulZero(Conj(lut[key[d]])); }
    assert raw == Zeros(|key|);
    var terms := Terms(lut, Zeros(|key|), code);
    forall d | 0 <= d < |key| ensures terms[d] == 0.0 { MulZero(Conj(lut[code[d]])); }
    SumToZero(terms, |key|);
  }

  // ----- fields ------------------------------------------------------------

  datatype Fact = Fact(key: nat, value: nat)
  datatype Codec = Codec(dim: nat, labels: nat, lut: seq<Complex>, keys: Table, codes: seq<seq<Phase>>)

  ghost predicate Valid(c: Codec) {
    && c.dim > 0 && c.labels > 0 && |c.lut| == 16
    && IsTable(c.keys, c.dim)
    && |c.codes| == c.labels && (forall l :: 0 <= l < c.labels ==> |c.codes[l]| == c.dim)
  }

  ghost predicate ValidFact(c: Codec, fact: Fact) {
    fact.key < KEYS && fact.value < c.labels
  }

  ghost predicate ValidFacts(c: Codec, facts: seq<Fact>) {
    forall i :: 0 <= i < |facts| ==> ValidFact(c, facts[i])
  }

  /** The stored vector of a single fact. */
  function FactField(c: Codec, fact: Fact): (z: Vector)
    requires Valid(c) && ValidFact(c, fact)
    ensures |z| == c.dim
  {
    Bind(c.lut, KeyPhases(c.keys, c.dim, fact.key), c.codes[fact.value])
  }

  /** The field: the sum of the vectors of all facts. */
  function FieldOf(c: Codec, facts: seq<Fact>): (z: Vector)
    requires Valid(c) && ValidFacts(c, facts)
    ensures |z| == c.dim
  {
    if facts == [] then Zeros(c.dim) else PointAdd(FieldOf(c, facts[..|facts| - 1]), FactField(c, facts[|facts| - 1]))
  }

  /** The score of a label for the query with this key. */
  function Score(c: Codec, z: Vector, key: nat, code: nat): real
    requires Valid(c) && |z| == c.dim && key < KEYS && code < c.labels
  {
    Match(c.lut, Unbind(c.lut, z, KeyPhases(c.keys, c.dim, key)), c.codes[code])
  }

  // ----- scores are sums of one contribution per fact -----------------------

  /** A measurement of vectors that respects sums. */
  ghost predicate Additive(f: Vector -> real, n: nat) {
    && f(Zeros(n)) == 0.0
    && forall xs: Vector, ys: Vector :: |xs| == |ys| == n ==> f(PointAdd(xs, ys)) == f(xs) + f(ys)
  }

  ghost function Measured(c: Codec, facts: seq<Fact>, f: Vector -> real): (xs: seq<real>)
    requires Valid(c) && ValidFacts(c, facts)
    ensures |xs| == |facts|
  {
    seq(|facts|, i requires 0 <= i < |facts| => f(FactField(c, facts[i])))
  }

  lemma {:induction false} FieldMeasure(c: Codec, facts: seq<Fact>, f: Vector -> real)
    requires Valid(c) && ValidFacts(c, facts) && Additive(f, c.dim)
    ensures f(FieldOf(c, facts)) == SumTo(Measured(c, facts, f), |facts|)
  {
    if facts != [] {
      var n := |facts| - 1;
      FieldMeasure(c, facts[..n], f);
      SumToPrefix(Measured(c, facts[..n], f), Measured(c, facts, f), n);
    }
  }

  ghost function Scorer(c: Codec, key: nat, code: nat): Vector -> real
    requires Valid(c) && key < KEYS && code < c.labels
  {
    (z: Vector) => if |z| == c.dim then Score(c, z, key, code) else 0.0
  }

  lemma {:induction false} ScorerAdditive(c: Codec, key: nat, code: nat)
    requires Valid(c) && key < KEYS && code < c.labels
    ensures Additive(Scorer(c, key, code), c.dim)
  {
    var f, k := Scorer(c, key, code), KeyPhases(c.keys, c.dim, key);
    MatchZero(c.lut, k, c.codes[code]);
    forall xs: Vector, ys: Vector | |xs| == |ys| == c.dim ensures f(PointAdd(xs, ys)) == f(xs) + f(ys) {
      UnbindAdds(c.lut, xs, ys, k);
      MatchAdds(c.lut, Unbind(c.lut, xs, k), Unbind(c.lut, ys, k), c.codes[code]);
    }
  }

  ghost function SumExcept(xs: seq<real>, q: nat, n: nat): real
    requires n <= |xs|
  {
    if n == 0 then 0.0 else SumExcept(xs, q, n - 1) + (if n - 1 == q then 0.0 else xs[n - 1])
  }

  lemma {:induction false} SplitOne(xs: seq<real>, q: nat, n: nat)
    requires n <= |xs|
    ensures SumTo(xs, n) == SumExcept(xs, q, n) + (if q < n then xs[q] else 0.0)
  {
    if n > 0 { SplitOne(xs, q, n - 1); }
  }

  /** The contributions of all facts but the queried one. */
  ghost function Noise(c: Codec, facts: seq<Fact>, q: nat, key: nat, code: nat): real
    requires Valid(c) && ValidFacts(c, facts) && key < KEYS && code < c.labels
  {
    SumExcept(Measured(c, facts, Scorer(c, key, code)), q, |facts|)
  }

  /** A score is the queried fact's own contribution plus the noise of the others. */
  lemma {:induction false} ScoreIsSignalPlusNoise(c: Codec, facts: seq<Fact>, q: nat, key: nat, code: nat)
    requires Valid(c) && ValidFacts(c, facts) && q < |facts| && key < KEYS && code < c.labels
    ensures Score(c, FieldOf(c, facts), key, code)
            == Noise(c, facts, q, key, code) + Score(c, FactField(c, facts[q]), key, code)
  {
    var f := Scorer(c, key, code);
    ScorerAdditive(c, key, code);
    FieldMeasure(c, facts, f);
    SplitOne(Measured(c, facts, f), q, |facts|);
  }

  // ----- Walsh codes -------------------------------------------------------

  /** `8 * ((label & (d % labels)).bit_count() % 2)` */
  function WalshPhase(labels: nat, code: nat, d: nat): Phase
    requires labels > 0
  {
    8 * (BitCount(BitAnd(code, d % labels)) % 2)
  }

  /** The phase of a code is 0 where its parity sign is positive and 8 where it is negative. */
  lemma {:induction false} WalshPhaseIsSign(labels: nat, code: nat, d: nat)
    requires labels > 0
    ensures WalshPhase(labels, code, d) == if Sign(code, d % labels) == 1 then 0 else 8
  {
  }

  ghost predicate IsWalsh(c: Codec) {
    && Valid(c) && RootsOfUnity(c.lut)
    && forall l: nat, d: nat :: l < c.labels && d < c.dim ==> c.codes[l][d] == WalshPhase(c.labels, l, d)
  }

  lemma {:induction false} CancelPhase(key: nat, value: nat)
    requires key < 16 && value < 16
    ensures ((key + value) % 16 + (16 - key) % 16) % 16 == value
  {
  }

  lemma {:induction false} RootQuotient(lut: seq<Complex>, p: nat, q: nat)
    requires RootsOfUnity(lut) && p < 16 && q < 16
    ensures Mul(lut[p], Conj(lut[q])) == lut[(p + (16 - q) % 16) % 16]
  {
    assert RootProduct(lut, p, q) && RootProduct(lut, p, (16 - q) % 16);
  }

  lemma {:induction false} KeyCancels(lut: seq<Complex>, key: nat, value: nat)
    requires RootsOfUnity(lut) && key < 16 && value < 16
    ensures Mul(lut[(key + value) % 16], Conj(lut[key])) == lut[value]
  {
    RootQuotient(lut, (key + value) % 16, key);
    CancelPhase(key, value);
  }

  /** Unbinding with the key that was bound leaves the code, for every key and code. */
  lemma {:induction false} UnbindUndoesBind(lut: seq<Complex>, key: seq<Phase>, code: seq<Phase>)
    requires RootsOfUnity(lut) && |key| == |code|
    ensures forall d :: 0 <= d < |key| ==> Unbind(lut, Bind(lut, key, code), key)[d] == lut[code[d]]
  {
    var z := Bind(lut, key, code);
    var raw := Unbind(lut, z, key);
    forall d | 0 <= d < |key| ensures raw[d] == lut[code[d]] {
      var k: nat, v: nat := key[d], code[d];
      assert z[d] == lut[(k + v) % 16];
      assert raw[d] == Mul(z[d], Conj(lut[k]));
      KeyCancels(lut, k, v);
    }
  }

  /** Two code phases, each 0 or 8, compare to +1 or -1. */
  lemma {:induction false} CompareCodes(lut: seq<Complex>, value: Phase, code: Phase)
    requires RootsOfUnity(lut) && (value == 0 || value == 8) && (code == 0 || code == 8)
    ensures Mul(lut[value], Conj(lut[code])).re == (if value == code then 1.0 else -1.0)
  {
    RootQuotient(lut, value, code);
  }

  lemma {:induction false} SumOfAgreements(terms: seq<real>, labels: nat, a: nat, b: nat, n: nat)
    requires labels > 0 && n <= |terms|
    requires forall d :: 0 <= d < n ==> terms[d] == Agreement(a, b, d % labels) as real
    ensures SumTo(terms, n) == InnerProduct(labels, a, b, n) as real
  {
    if n > 0 { SumOfAgreements(terms, labels, a, b, n - 1); }
  }

  /** Two Walsh phases agree exactly where the two codes do. */
  lemma {:induction false} WalshAgreement(labels: nat, value: nat, code: nat, d: nat)
    requires labels > 0
    ensures WalshPhase(labels, value, d) in {0, 8} && WalshPhase(labels, code, d) in {0, 8}
    ensures Agreement(value, code, d % labels)
            == if WalshPhase(labels, value, d) == WalshPhase(labels, code, d) then 1 else -1
  {
  }

  lemma {:induction false} TermOfCode(lut: seq<Complex>, labels: nat, value: nat, code: nat, d: nat)
    requires RootsOfUnity(lut) && labels > 0
    ensures Mul(lut[WalshPhase(labels, value, d)], Conj(lut[WalshPhase(labels, code, d)])).re
            == Agreement(value, code, d % labels) as real
  {
    WalshAgreement(labels, value, code, d);
    CompareCodes(lut, WalshPhase(labels, value, d), WalshPhase(labels, code, d));
  }

  lemma {:induction false} MatchOfCode(c: Codec, raw: Vector, value: nat, code: nat)
    requires IsWalsh(c) && |raw| == c.dim && value < c.labels && code < c.labels
    requires forall d :: 0 <= d < c.dim ==> raw[d] == c.lut[c.codes[value][d]]
    ensures Match(c.lut, raw, c.codes[code]) == InnerProduct(c.labels, value, code, c.dim) as real
  {
    var terms := Terms(c.lut, raw, c.codes[code]);
    forall d | 0 <= d < c.dim ensures terms[d] == Agreement(value, code, d % c.labels) as real {
      assert c.codes[value][d] == WalshPhase(c.labels, value, d) && c.codes[code][d] == WalshPhase(c.labels, code, d);
      TermOfCode(c.lut, c.labels, value, code, d);
    }
    SumOfAgreements(terms, c.labels, value, code, c.dim);
  }

  /** What a fact scores for a label under its own key is the overlap of the two codes. */
  lemma {:induction false} OwnScore(c: Codec, fact: Fact, code: nat)
    requires IsWalsh(c) && ValidFact(c, fact) && code < c.labels
    ensures Score(c, FactField(c, fact), fact.key, code) == InnerProduct(c.labels, fact.value, code, c.dim) as real
  {
    var k := KeyPhases(c.keys, c.dim, fact.key);
    UnbindUndoesBind(c.lut, k, c.codes[fact.value]);
    MatchOfCode(c, Unbind(c.lut, FactField(c, fact), k), fact.value, code);
  }

  /** For orthogonal codes: one full code length for its own label and nothing for any other. */
  lemma {:induction false} OrthogonalScore(c: Codec, fact: Fact, code: nat)
    requires IsWalsh(c) && PowerOfTwo(c.labels) && c.dim % c.labels == 0 && ValidFact(c, fact) && code < c.labels
    ensures Score(c, FactField(c, fact), fact.key, code) == (if code == fact.value then c.dim as real else 0.0)
  {
    OwnScore(c, fact, code);
    WalshOrthogonal(c.labels, c.dim, fact.value, code);
  }

  // ----- interference ------------------------------------------------------

  lemma {:induction false} SubtractPhase(x: int, k: nat)
    requires k < 16
    ensures (x % 16 + (16 - k) % 16) % 16 == (x - k) % 16
  {
  }

  /** Dividing a root by two others. */
  lemma {:induction false} DivideTwice(lut: seq<Complex>, p: nat, k: nat, l: nat, q: nat, r: nat)
    requires RootsOfUnity(lut) && p < 16 && k < 16 && l < 16
    requires q == (p + (16 - k) % 16) % 16 && r == (q + (16 - l) % 16) % 16
    ensures Mul(Mul(lut[p], Conj(lut[k])), Conj(lut[l])) == lut[r]
  {
    RootQuotient(lut, p, k);
    RootQuotient(lut, q, l);
  }

  /** The phase left when a stored key and value are read under another key and code. */
  ghost function Left(stored: Phase, value: Phase, asked: Phase, code: Phase): (r: Phase) {
    (stored as int + value as int - asked as int - code as int) % 16
  }

  lemma {:induction false} LeftInSteps(stored: Phase, value: Phase, asked: Phase, code: Phase, p: nat)
    requires p == (stored as int + value as int) % 16
    ensures Left(stored, value, asked, code)
            == ((p + (16 - asked as int) % 16) % 16 + (16 - code as int) % 16) % 16
  {
    SubtractPhase(stored as int + value as int, asked);
    SubtractPhase(stored as int + value as int - asked as int, code);
  }

  lemma {:induction false} LeftOfRoot(lut: seq<Complex>, stored: Phase, value: Phase, asked: Phase, code: Phase)
    requires RootsOfUnity(lut)
    ensures Mul(Mul(lut[(stored as int + value as int) % 16], Conj(lut[asked])), Conj(lut[code]))
            == lut[Left(stored, value, asked, code)]
  {
    var p: nat, k: nat, l: nat := (stored as int + value as int) % 16, asked, code;
    LeftInSteps(stored, value, asked, code, p);
    DivideTwice(lut, p, k, l, (p + (16 - k) % 16) % 16, Left(stored, value, asked, code));
  }

  lemma {:induction false} TermLeft(lut: seq<Complex>, stored: seq<Phase>, value: seq<Phase>, asked: seq<Phase>,
                                    code: seq<Phase>, d: nat)
    requires RootsOfUnity(lut) && |stored| == |value| == |asked| == |code| && d < |stored|
    ensures Terms(lut, Unbind(lut, Bind(lut, stored, value), asked), code)[d]
            == lut[Left(stored[d], value[d], asked[d], code[d])].re
  {
    var z := Bind(lut, stored, value);
    var raw := Unbind(lut, z, asked);
    assert z[d] == lut[(stored[d] as int + value[d] as int) % 16];
    assert raw[d] == Mul(z[d], Conj(lut[asked[d]]));
    LeftOfRoot(lut, stored[d], value[d], asked[d], code[d]);
  }

  /** The cosines of the phases left, one per coordinate. */
  ghost function Cosines(lut: seq<Complex>, stored: seq<Phase>, value: seq<Phase>, asked: seq<Phase>, code: seq<Phase>)
    : (xs: seq<real>)
    requires |lut| == 16 && |stored| == |value| == |asked| == |code|
    ensures |xs| == |stored|
  {
    seq(|stored|, d requires 0 <= d < |stored| => lut[Left(stored[d], value[d], asked[d], code[d])].re)
  }

  lemma {:induction false} MatchLeft(lut: seq<Complex>, stored: seq<Phase>, value: seq<Phase>, asked: seq<Phase>,
                                     code: seq<Phase>)
    requires RootsOfUnity(lut) && |stored| == |value| == |asked| == |code|
    ensures Match(lut, Unbind(lut, Bind(lut, stored, value), asked), code)
            == SumTo(Cosines(lut, stored, value, asked, code), |stored|)
  {
    var terms := Terms(lut, Unbind(lut, Bind(lut, stored, value), asked), code);
    forall d | 0 <= d < |stored| ensures terms[d] == Cosines(lut, stored, value, asked, code)[d] {
      TermLeft(lut, stored, value, asked, code, d);
    }
    SumToPrefix(terms, Cosines(lut, stored, value, asked, code), |stored|);
  }

  /** What a fact adds to the score of a label: the sum of cosines of the phases left under the asked key. */
  lemma {:induction false} FactContribution(c: Codec, fact: Fact, key: nat, code: nat)
    requires Valid(c) && RootsOfUnity(c.lut) && ValidFact(c, fact) && key < KEYS && code < c.labels
    ensures Score(c, FactField(c, fact), key, code)
            == SumTo(Cosines(c.lut, KeyPhases(c.keys, c.dim, fact.key), c.codes[fact.value],
                             KeyPhases(c.keys, c.dim, key), c.codes[code]), c.dim)
  {
    MatchLeft(c.lut, KeyPhases(c.keys, c.dim, fact.key), c.codes[fact.value],
              KeyPhases(c.keys, c.dim, key), c.codes[code]);
  }

  // ----- decoding ----------------------------------------------------------

  ghost predicate FirstMaximum(scores: seq<real>, best: nat) {
    && best < |scores|
    && (forall l: nat :: l < best ==> scores[l] < scores[best])
    && (forall l: nat :: best < l < |scores| ==> scores[l] <= scores[best])
  }

  function Scores(c: Codec, z: Vector, key: nat): (scores: seq<real>)
    requires Valid(c) && |z| == c.dim && key < KEYS
    ensures |scores| == c.labels
  {
    seq(c.labels, l requires 0 <= l < c.labels => Score(c, z, key, l))
  }

  /** `max(range(labels), key=scores)`: the first label with the highest score. */
  method Predict(scores: seq<real>) returns (best: nat)
    requires scores != []
    ensures FirstMaximum(scores, best)
  {
    best := 0;
    for l := 1 to |scores|
      invariant best < l
      invariant forall k: nat :: k < best ==> scores[k] < scores[best]
      invariant forall k: nat :: best < k < l ==> scores[k] <= scores[best]
    {
      if scores[l] > scores[best] {
        best := l;
      }
    }
  }

  /** Interference plus code overlap: what a label scores in the query for fact `q`. */
  ghost function Rival(c: Codec, facts: seq<Fact>, q: nat, code: nat): real
    requires Valid(c) && ValidFacts(c, facts) && q < |facts| && code < c.labels
  {
    Noise(c, facts, q, facts[q].key, code) + InnerProduct(c.labels, facts[q].value, code, c.dim) as real
  }

  /** The stored label keeps its lead over every other label; a tie goes to the smaller one. */
  ghost predicate NoiseTolerable(c: Codec, facts: seq<Fact>, q: nat)
    requires Valid(c) && ValidFacts(c, facts) && q < |facts|
  {
    var fact := facts[q];
    var own := c.dim as real + Noise(c, facts, q, fact.key, fact.value);
    && (forall l: nat :: l < fact.value ==> Rival(c, facts, q, l) < own)
    && (forall l: nat :: fact.value < l < c.labels ==> Rival(c, facts, q, l) <= own)
  }

  lemma {:induction false} ScoreIsRival(c: Codec, facts: seq<Fact>, q: nat, code: nat)
    requires IsWalsh(c) && ValidFacts(c, facts) && q < |facts| && code < c.labels
    ensures Score(c, FieldOf(c, facts), facts[q].key, code) == Rival(c, facts, q, code)
  {
    ScoreIsSignalPlusNoise(c, facts, q, facts[q].key, code);
    OwnScore(c, facts[q], code);
  }

  lemma {:induction false} OwnRival(c: Codec, facts: seq<Fact>, q: nat)
    requires Valid(c) && ValidFacts(c, facts) && q < |facts|
    ensures Rival(c, facts, q, facts[q].value) == c.dim as real + Noise(c, facts, q, facts[q].key, facts[q].value)
  {
    InnerProductOfSame(c.labels, facts[q].value, c.dim);
  }

  lemma {:induction false} FirstMaximumIs(scores: seq<real>, best: nat, value: nat)
    requires FirstMaximum(scores, best) && value < |scores|
    ensures best == value
            <==> && (forall l: nat :: l < value ==> scores[l] < scores[value])
                 && (forall l: nat :: value < l < |scores| ==> scores[l] <= scores[value])
  {
    var top, own := scores[best], scores[value];
    assert best != value ==> top > own || value > best;
  }

  /** A query is answered correctly exactly when the interference is tolerable, for any label count. */
  lemma {:induction false} DecodesIffNoiseTolerable(c: Codec, facts: seq<Fact>, q: nat, predicted: nat)
    requires IsWalsh(c) && ValidFacts(c, facts) && q < |facts|
    requires FirstMaximum(Scores(c, FieldOf(c, facts), facts[q].key), predicted)
    ensures predicted == facts[q].value <==> NoiseTolerable(c, facts, q)
  {
    var scores := Scores(c, FieldOf(c, facts), facts[q].key);
    forall l: nat | l < c.labels ensures scores[l] == Rival(c, facts, q, l) {
      ScoreIsRival(c, facts, q, l);
    }
    OwnRival(c, facts, q);
    FirstMaximumIs(scores, predicted, facts[q].value);
  }

  /** With orthogonal codes the lead is one full code length over the bare interference. */
  lemma {:induction false} OrthogonalTolerance(c: Codec, facts: seq<Fact>, q: nat, code: nat)
    requires Valid(c) && ValidFacts(c, facts) && q < |facts| && code < c.labels && code != facts[q].value
    requires PowerOfTwo(c.labels) && c.dim % c.labels == 0
    ensures Rival(c, facts, q, code) == Noise(c, facts, q, facts[q].key, code)
  {
    WalshOrthogonal(c.labels, c.dim, facts[q].value, code);
  }

  lemma {:induction false} OneFactNoNoise(c: Codec, fact: Fact, code: nat)
    requires Valid(c) && ValidFact(c, fact) && code < c.labels
    ensures Noise(c, [fact], 0, fact.key, code) == 0.0
  {
    var xs := Measured(c, [fact], Scorer(c, fact.key, code));
    assert SumExcept(xs, 0, 1) == SumExcept(xs, 0, 0);
  }

  /** A field holding one fact is decoded to its label under every key, for any label count up to the dimension. */
  lemma {:induction false} OneFactDecodes(c: Codec, fact: Fact, predicted: nat)
    requires IsWalsh(c) && c.labels <= c.dim && ValidFact(c, fact)
    requires FirstMaximum(Scores(c, FieldOf(c, [fact]), fact.key), predicted)
    ensures predicted == fact.value
  {
    var facts := [fact];
    OneFactNoNoise(c, fact, fact.value);
    forall l: nat | l < c.labels && l != fact.value ensures Rival(c, facts, 0, l) < c.dim as real {
      OneFactNoNoise(c, fact, l);
      RivalOverlapsLess(c.labels, fact.value, l, c.dim);
    }
    DecodesIffNoiseTolerable(c, facts, 0, predicted);
  }

  /** How many of the first `n` queries have tolerable interference. */
  ghost function CountTolerable(c: Codec, facts: seq<Fact>, queries: seq<nat>, n: nat): nat
    requires Valid(c) && ValidFacts(c, facts) && n <= |queries| && forall i :: 0 <= i < |queries| ==>
               queries[i] < |facts|
  {
    if n == 0 then 0 else
      CountTolerable(c, facts, queries, n - 1) + (if NoiseTolerable(c, facts, queries[n - 1]) then 1 else 0)
  }

  lemma {:induction false} CountStep(c: Codec, facts: seq<Fact>, queries: seq<nat>, n: nat)
    requires Valid(c) && ValidFacts(c, facts) && n < |queries|
    requires forall i :: 0 <= i < |queries| ==> queries[i] < |facts|
    ensures CountTolerable(c, facts, queries, n + 1)
            == CountTolerable(c, facts, queries, n) + (if NoiseTolerable(c, facts, queries[n]) then 1 else 0)
  {
  }

  /** One query: whether the prediction is the stored label. */
  method AnswerQuery(c: Codec, facts: seq<Fact>, field: Vector, q: nat) returns (correct: bool)
    requires IsWalsh(c) && ValidFacts(c, facts) && q < |facts| && field == FieldOf(c, facts)
    ensures correct <==> NoiseTolerable(c, facts, q)
  {
    var best := Predict(Scores(c, field, facts[q].key));
    DecodesIffNoiseTolerable(c, facts, q, best);
    correct := best == facts[q].value;
  }

  /** The query loop: the number of correct answers is the number of tolerable queries. */
  method CountCorrect(c: Codec, facts: seq<Fact>, queries: seq<nat>) returns (correct: nat)
    requires IsWalsh(c) && ValidFacts(c, facts) && forall i :: 0 <= i < |queries| ==> queries[i] < |facts|
    ensures correct == CountTolerable(c, facts, queries, |queries|)
  {
    var field := FieldOf(c, facts);
    correct := 0;
    for i := 0 to |queries|
      invariant correct == CountTolerable(c, facts, queries, i)
    {
      CountStep(c, facts, queries, i);
      var answered := AnswerQuery(c, facts, field, queries[i]);
      if answered {
        correct := correct + 1;
      }
    }
  }
}
