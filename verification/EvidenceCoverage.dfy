/**
 Set selection in benchmarks/public/check_evidence_completeness.py: a beam over candidate
 sets that maximises a weighted sum of priors and facet coverage. For the two mean-coverage
 families the chosen set is within a constant factor of the best set of at most five.
 */
module EvidenceCoverage {
  import opened Ordering
  import opened FiniteSums

  /** `MinimumBeam` scores the worst facet, the other two the mean over facets. */
  datatype Family = MinimumBeam | MeanBeam | MeanGreedy

  /** Candidate priors, and the agreement of each candidate with each facet. */
  datatype Instance = Instance(alpha: real, priors: seq<real>, agreement: seq<seq<real>>, facets: nat)

  ghost predicate Valid(t: Instance) {
    && 0.0 <= t.alpha <= 1.0 && t.facets > 0
    && |t.priors| == |t.agreement| > 0
    && (forall i :: 0 <= i < |t.priors| ==> t.priors[i] >= 0.0)
    && (forall i :: 0 <= i < |t.agreement| ==> |t.agreement[i]| == t.facets)
    && (forall i, c :: 0 <= i < |t.agreement| && 0 <= c < t.facets ==> t.agreement[i][c] >= 0.0)
  }

  // ----- value of a set ----------------------------------------------------

  /** Sum of priors over the members below `k`. */
  function PriorSum(t: Instance, s: set<nat>, k: nat): real
    requires Valid(t) && k <= |t.priors|
  {
    if k == 0 then 0.0 else PriorSum(t, s, k - 1) + (if k - 1 in s then t.priors[k - 1] else 0.0)
  }

  function Max(x: real, y: real): real { if x < y then y else x }
  function Min(x: real, y: real): real { if x < y then x else y }

  /** Best agreement with facet `c` among the members below `k`. */
  function Best(t: Instance, s: set<nat>, c: nat, k: nat): (m: real)
    requires Valid(t) && c < t.facets && k <= |t.priors|
    ensures m >= 0.0
  {
    if k == 0 then 0.0
    else if k - 1 in s then Max(Best(t, s, c, k - 1), t.agreement[k - 1][c])
    else Best(t, s, c, k - 1)
  }

  function Maximum(t: Instance, s: set<nat>, c: nat): (m: real)
    requires Valid(t) && c < t.facets
  {
    Best(t, s, c, |t.priors|)
  }

  function CoverSum(t: Instance, s: set<nat>, c: nat): real
    requires Valid(t) && c <= t.facets
  {
    if c == 0 then 0.0 else CoverSum(t, s, c - 1) + Maximum(t, s, c - 1)
  }

  function CoverMin(t: Instance, s: set<nat>, c: nat): real
    requires Valid(t) && 0 < c <= t.facets
  {
    if c == 1 then Maximum(t, s, 0) else Min(CoverMin(t, s, c - 1), Maximum(t, s, c - 1))
  }

  function Cover(t: Instance, family: Family, s: set<nat>): real
    requires Valid(t)
  {
    if family == MinimumBeam then CoverMin(t, s, t.facets) else CoverSum(t, s, t.facets) / t.facets as real
  }

  function Combined(alpha: real, priors: real, cover: real): real {
    alpha * priors / 5.0 + (1.0 - alpha) * cover
  }

  function Value(t: Instance, family: Family, s: set<nat>): real
    requires Valid(t)
  {
    Combined(t.alpha, PriorSum(t, s, |t.priors|), Cover(t, family, s))
  }

  // ----- what the value means -----------------------------------------------

  ghost function PriorOf(t: Instance): nat -> real {
    (i: nat) => if i < |t.priors| then t.priors[i] else 0.0
  }

  lemma {:induction false} PriorsBelow(t: Instance, s: set<nat>, k: nat, below: set<nat>)
    requires Valid(t) && k <= |t.priors| && forall i: nat :: i in below <==> i in s && i < k
    ensures PriorSum(t, s, k) == Sum(below, PriorOf(t))
  {
    if k == 0 {
      assert below == {};
    } else {
      var last: nat := k - 1;
      var rest := below - {last};
      PriorsBelow(t, s, last, rest);
      if last in s {
        SumRemove(below, PriorOf(t), last);
      } else {
        assert rest == below;
      }
    }
  }

  /** The prior term is the sum over the members. */
  lemma {:induction false} PriorSumIsSum(t: Instance, s: set<nat>)
    requires Valid(t) && forall i :: i in s ==> i < |t.priors|
    ensures PriorSum(t, s, |t.priors|) == Sum(s, PriorOf(t))
  {
    PriorsBelow(t, s, |t.priors|, s);
  }

  ghost function MaximumOf(t: Instance, s: set<nat>): nat -> real
    requires Valid(t)
  {
    (c: nat) => if c < t.facets then Maximum(t, s, c) else 0.0
  }

  ghost function FacetsBelow(n: nat): (r: set<nat>)
    ensures forall c: nat :: c in r <==> c < n
  {
    if n == 0 then {} else FacetsBelow(n - 1) + {n - 1}
  }

  lemma {:induction false} CoverSumIsSum(t: Instance, s: set<nat>, n: nat)
    requires Valid(t) && n <= t.facets
    ensures CoverSum(t, s, n) == Sum(FacetsBelow(n), MaximumOf(t, s))
  {
    if n > 0 {
      var c: nat := n - 1;
      CoverSumIsSum(t, s, c);
      SumAdd(FacetsBelow(c), MaximumOf(t, s), c);
    }
  }

  /** The minimum family covers as well as its worst facet. */
  lemma {:induction false} CoverMinIsLeast(t: Instance, s: set<nat>, n: nat)
    requires Valid(t) && 0 < n <= t.facets
    ensures forall c: nat :: c < n ==> CoverMin(t, s, n) <= Maximum(t, s, c)
    ensures exists c: nat :: c < n && CoverMin(t, s, n) == Maximum(t, s, c)
  {
    if n == 1 {
      assert CoverMin(t, s, n) == Maximum(t, s, 0);
    } else {
      CoverMinIsLeast(t, s, n - 1);
      var c: nat :| c < n - 1 && CoverMin(t, s, n - 1) == Maximum(t, s, c);
      assert CoverMin(t, s, n) == Maximum(t, s, c) || CoverMin(t, s, n) == Maximum(t, s, n - 1);
    }
  }

  /** The value combines the sum of the members' priors with the mean or the minimum coverage of the facets. */
  lemma {:induction false} ValueMeans(t: Instance, family: Family, s: set<nat>)
    requires Valid(t) && forall i :: i in s ==> i < |t.priors|
    ensures family != MinimumBeam ==>
              Value(t, family, s)
              == Combined(t.alpha, Sum(s, PriorOf(t)), Sum(FacetsBelow(t.facets), MaximumOf(t, s)) / t.facets as real)
    ensures family == MinimumBeam ==>
              Value(t, family, s) == Combined(t.alpha, Sum(s, PriorOf(t)), CoverMin(t, s, t.facets))
  {
    PriorSumIsSum(t, s);
    CoverSumIsSum(t, s, t.facets);
  }

  // ----- the effect of one more member -------------------------------------

  lemma {:induction false} PriorAdd(t: Instance, s: set<nat>, x: nat, k: nat)
    requires Valid(t) && x < |t.priors| && k <= |t.priors| && x !in s
    ensures PriorSum(t, s + {x}, k) == PriorSum(t, s, k) + (if x < k then t.priors[x] else 0.0)
  {
    if k > 0 { PriorAdd(t, s, x, k - 1); }
  }

  lemma {:induction false} BestAdd(t: Instance, s: set<nat>, x: nat, c: nat, k: nat)
    requires Valid(t) && x < |t.priors| && c < t.facets && k <= |t.priors|
    ensures Best(t, s + {x}, c, k) == (if x < k then Max(Best(t, s, c, k), t.agreement[x][c]) else Best(t, s, c, k))
  {
    if k > 0 { BestAdd(t, s, x, c, k - 1); }
  }

  lemma {:induction false} BestMonotone(t: Instance, s: set<nat>, u: set<nat>, c: nat, k: nat)
    requires Valid(t) && s <= u && c < t.facets && k <= |t.priors|
    ensures Best(t, s, c, k) <= Best(t, u, c, k)
  {
    if k > 0 { BestMonotone(t, s, u, c, k - 1); }
  }

  /** `Maximum` is the largest agreement of a member. */
  lemma {:induction false} BestIsMaximum(t: Instance, s: set<nat>, c: nat, k: nat)
    requires Valid(t) && c < t.facets && k <= |t.priors| && exists i :: i in s && i < k
    ensures forall i :: i in s && i < k ==> t.agreement[i][c] <= Best(t, s, c, k)
    ensures exists i :: i in s && i < k && t.agreement[i][c] == Best(t, s, c, k)
  {
    if exists i :: i in s && i < k - 1 {
      BestIsMaximum(t, s, c, k - 1);
    } else {
      BestEmpty(t, s, c, k - 1);
      assert k - 1 in s;
    }
  }

  lemma {:induction false} BestEmpty(t: Instance, s: set<nat>, c: nat, k: nat)
    requires Valid(t) && c < t.facets && k <= |t.priors| && forall i :: i in s ==> i >= k
    ensures Best(t, s, c, k) == 0.0
  {
    if k > 0 { BestEmpty(t, s, c, k - 1); }
  }

  /** Coverage grows, and grows less on a larger set. */
  lemma {:induction false} CoverGain(t: Instance, s: set<nat>, u: set<nat>, x: nat, c: nat)
    requires Valid(t) && s <= u && x < |t.priors| && c <= t.facets
    ensures CoverSum(t, s, c) <= CoverSum(t, s + {x}, c)
    ensures CoverSum(t, u + {x}, c) - CoverSum(t, u, c) <= CoverSum(t, s + {x}, c) - CoverSum(t, s, c)
  {
    if c > 0 {
      CoverGain(t, s, u, x, c - 1);
      BestAdd(t, s, x, c - 1, |t.priors|);
      BestAdd(t, u, x, c - 1, |t.priors|);
      BestMonotone(t, s, u, c - 1, |t.priors|);
    }
  }

  lemma {:induction false} Divide(x: real, y: real, n: nat)
    requires n > 0 && x <= y
    ensures x / n as real <= y / n as real
  {
  }

  lemma {:induction false} DivideDifference(x: real, y: real, n: nat)
    requires n > 0
    ensures x / n as real - y / n as real == (x - y) / n as real
  {
  }


  ghost function MeanGain(t: Instance, s: set<nat>, x: nat): real
    requires Valid(t)
  {
    Cover(t, MeanBeam, s + {x}) - Cover(t, MeanBeam, s)
  }

  lemma {:induction false} MeanGainShrinks(t: Instance, s: set<nat>, u: set<nat>, x: nat)
    requires Valid(t) && s <= u && x < |t.priors|
    ensures 0.0 <= MeanGain(t, s, x) && MeanGain(t, u, x) <= MeanGain(t, s, x)
  {
    CoverGain(t, s, u, x, t.facets);
    var n := t.facets;
    var a, b := CoverSum(t, s + {x}, n), CoverSum(t, s, n);
    var a', b' := CoverSum(t, u + {x}, n), CoverSum(t, u, n);
    DivideDifference(a, b, n);
    DivideDifference(a', b', n);
    Divide(a' - b', a - b, n);
    Divide(0.0, a - b, n);
  }

  /** The gain of adding `x` to `s`, for the mean families. */
  ghost function Gain(t: Instance, s: set<nat>, x: nat): real
    requires Valid(t)
  {
    Value(t, MeanBeam, s + {x}) - Value(t, MeanBeam, s)
  }

  lemma {:induction false} GainOf(t: Instance, s: set<nat>, x: nat)
    requires Valid(t) && x < |t.priors| && x !in s
    ensures Gain(t, s, x) == t.alpha * t.priors[x] / 5.0 + (1.0 - t.alpha) * MeanGain(t, s, x)
  {
    var n := |t.priors|;
    PriorAdd(t, s, x, n);
    var q, p, a := PriorSum(t, s, n), t.priors[x], t.alpha;
    var d, c := Cover(t, MeanBeam, s + {x}), Cover(t, MeanBeam, s);
    CombinedDifference(a, p, q, c, d);
  }

  lemma {:induction false} CombinedDifference(alpha: real, p: real, q: real, c: real, d: real)
    ensures Combined(alpha, q + p, d) - Combined(alpha, q, c) == alpha * p / 5.0 + (1.0 - alpha) * (d - c)
  {
    assert alpha * (q + p) == alpha * q + alpha * p;
    assert (1.0 - alpha) * (d - c) == (1.0 - alpha) * d - (1.0 - alpha) * c;
  }

  lemma {:induction false} MixMonotone(alpha: real, p: real, g: real, h: real)
    requires 0.0 <= alpha <= 1.0 && p >= 0.0 && g <= h && 0.0 <= h
    ensures alpha * p / 5.0 + (1.0 - alpha) * g <= alpha * p / 5.0 + (1.0 - alpha) * h
    ensures 0.0 <= alpha * p / 5.0 + (1.0 - alpha) * h
  {
    var b := 1.0 - alpha;
    assert b * h - b * g == b * (h - g);
    assert b * (h - g) >= 0.0 && b * h >= 0.0 && alpha * p >= 0.0;
  }

  /** Monotonicity: one more candidate never lowers the value. */
  lemma {:induction false} GainNonnegative(t: Instance, s: set<nat>, x: nat)
    requires Valid(t) && x < |t.priors|
    ensures Gain(t, s, x) >= 0.0
  {
    if x in s {
      assert s + {x} == s;
    } else {
      GainOf(t, s, x);
      MeanGainShrinks(t, s, s, x);
      MixMonotone(t.alpha, t.priors[x], MeanGain(t, s, x), MeanGain(t, s, x));
    }
  }

  /** Submodularity: a candidate gains no more on a larger set. */
  lemma {:induction false} GainShrinks(t: Instance, s: set<nat>, u: set<nat>, x: nat)
    requires Valid(t) && s <= u && x < |t.priors|
    ensures Gain(t, u, x) <= Gain(t, s, x)
  {
    if x in u {
      assert u + {x} == u;
      GainNonnegative(t, s, x);
    } else {
      GainOf(t, s, x);
      GainOf(t, u, x);
      MeanGainShrinks(t, s, u, x);
      MixMonotone(t.alpha, t.priors[x], MeanGain(t, u, x), MeanGain(t, s, x));
    }
  }

  // ----- the approximation bound -------------------------------------------

  ghost predicate Within(n: nat, s: set<nat>) {
    forall i :: i in s ==> i < n
  }

  ghost predicate Raises(f: set<nat> -> real, s: set<nat>, x: nat) {
    f(s) <= f(s + {x})
  }

  ghost predicate Diminishes(f: set<nat> -> real, s: set<nat>, u: set<nat>, x: nat) {
    f(u + {x}) - f(u) <= f(s + {x}) - f(s)
  }

  /** Adding a member never lowers the value, and gains no more on a larger set. */
  ghost predicate Submodular(f: set<nat> -> real, n: nat) {
    && (forall s: set<nat>, x: nat :: x < n ==> Raises(f, s, x))
    && (forall s: set<nat>, u: set<nat>, x: nat :: s <= u && x < n ==> Diminishes(f, s, u, x))
  }

  /** The value of the mean families, as a function of the set. */
  ghost function MeanValue(t: Instance): set<nat> -> real
    requires Valid(t)
  {
    (s: set<nat>) => Value(t, MeanBeam, s)
  }

  lemma {:induction false} MeanValueSubmodular(t: Instance)
    requires Valid(t)
    ensures Submodular(MeanValue(t), |t.priors|)
  {
    forall s: set<nat>, x: nat | x < |t.priors| ensures Raises(MeanValue(t), s, x) {
      GainNonnegative(t, s, x);
    }
    forall s: set<nat>, u: set<nat>, x: nat | s <= u && x < |t.priors|
      ensures Diminishes(MeanValue(t), s, u, x)
    {
      GainShrinks(t, s, u, x);
    }
  }

  /** The value of the minimum family, as a function of the set. */
  ghost function MinimumValue(t: Instance): set<nat> -> real
    requires Valid(t)
  {
    (s: set<nat>) => Value(t, MinimumBeam, s)
  }

  /**
   Three candidates and two facets that rank them 1, 0, 2 and 2, 0, 1: the scores of the first,
   second and third place are `1 > v > w`, which for the source are 1, 1/sqrt(2) and 1/sqrt(3).
   */
  ghost function TwoHalves(alpha: real, v: real, w: real): (t: Instance)
    requires 0.0 <= alpha <= 1.0 && 0.0 < w < v < 1.0
    ensures Valid(t) && |t.priors| == 3
  {
    Instance(alpha, [1.0, v, w], [[v, v], [1.0, w], [w, 1.0]], 2)
  }

  lemma {:induction false} HalvesBest(alpha: real, v: real, w: real, s: set<nat>, c: nat)
    requires 0.0 <= alpha <= 1.0 && 0.0 < w < v < 1.0 && 0 in s && c < 2
    ensures Maximum(TwoHalves(alpha, v, w), s, c) == (if c + 1 in s then 1.0 else v)
  {
    var t := TwoHalves(alpha, v, w);
    var best := Best(t, s, c, 0);
    assert best == 0.0;
    var best1 := Best(t, s, c, 1);
    assert best1 == Max(best, t.agreement[0][c]) == v;
    var best2 := Best(t, s, c, 2);
    assert best2 == if 1 in s then Max(best1, t.agreement[1][c]) else best1;
    var best3 := Best(t, s, c, 3);
    assert best3 == if 2 in s then Max(best2, t.agreement[2][c]) else best2;
  }

  lemma {:induction false} HalvesCover(alpha: real, v: real, w: real, s: set<nat>)
    requires 0.0 <= alpha <= 1.0 && 0.0 < w < v < 1.0 && 0 in s
    ensures Cover(TwoHalves(alpha, v, w), MinimumBeam, s) == (if 1 in s && 2 in s then 1.0 else v)
  {
    var t := TwoHalves(alpha, v, w);
    HalvesBest(alpha, v, w, s, 0);
    HalvesBest(alpha, v, w, s, 1);
    assert CoverMin(t, s, 1) == Maximum(t, s, 0);
    assert CoverMin(t, s, 2) == Min(CoverMin(t, s, 1), Maximum(t, s, 1));
  }

  /** The gain of the third candidate on a set with the anchor. */
  lemma {:induction false} HalvesGain(alpha: real, v: real, w: real, s: set<nat>)
    requires 0.0 <= alpha <= 1.0 && 0.0 < w < v < 1.0 && 0 in s && 2 !in s
    ensures var f := MinimumValue(TwoHalves(alpha, v, w));
            f(s + {2}) - f(s) == (if 1 in s then alpha * w / 5.0 + (1.0 - alpha) * (1.0 - v) else alpha * w / 5.0)
  {
    var t := TwoHalves(alpha, v, w);
    HalvesCover(alpha, v, w, s);
    HalvesCover(alpha, v, w, s + {2});
    PriorAdd(t, s, 2, 3);
    CombinedDifference(alpha, w, PriorSum(t, s, 3), Cover(t, MinimumBeam, s), Cover(t, MinimumBeam, s + {2}));
  }

  /** The minimum family is never submodular on these rankings: the third candidate gains more beside the second. */
  lemma {:induction false} MinimumIsNotSubmodular(alpha: real, v: real, w: real)
    requires 0.0 <= alpha < 1.0 && 0.0 < w < v < 1.0
    ensures !Submodular(MinimumValue(TwoHalves(alpha, v, w)), 3)
  {
    HalvesGain(alpha, v, w, {0});
    HalvesGain(alpha, v, w, {0, 1});
    PositiveProduct(1.0 - alpha, 1.0 - v);
    GainsMore(MinimumValue(TwoHalves(alpha, v, w)), 3, {0}, {0, 1}, 2);
  }

  lemma {:induction false} GainsMore(f: set<nat> -> real, n: nat, s: set<nat>, u: set<nat>, x: nat)
    requires s <= u && x < n && f(u + {x}) - f(u) > f(s + {x}) - f(s)
    ensures !Submodular(f, n)
  {
    assert !Diminishes(f, s, u, x);
  }

  lemma {:induction false} PositiveProduct(x: real, y: real)
    requires x > 0.0 && y > 0.0
    ensures x * y > 0.0
  {
  }

  lemma {:induction false} Grows(f: set<nat> -> real, n: nat, s: set<nat>, u: set<nat>)
    requires Submodular(f, n) && s <= u && Within(n, u)
    ensures f(s) <= f(u)
    decreases |u - s|
  {
    if u - s == {} {
      assert s == u;
    } else {
      var x :| x in u - s;
      assert Raises(f, s, x);
      assert u - (s + {x}) == u - s - {x};
      Grows(f, n, s + {x}, u);
    }
  }

  ghost predicate GainsAtMost(f: set<nat> -> real, s: set<nat>, x: nat, g: real) {
    f(s + {x}) <= f(s) + g
  }

  /** Adding a whole set gains at most one best single gain per member. */
  lemma {:induction false} UnionGain(f: set<nat> -> real, n: nat, s: set<nat>, a: set<nat>, g: real)
    requires Submodular(f, n) && Within(n, a)
    requires forall x :: x in a ==> GainsAtMost(f, s, x, g)
    ensures f(s + a) <= f(s) + Multiple(|a|, g)
    decreases |a|
  {
    if a == {} {
      assert s + a == s;
    } else {
      var x :| x in a;
      var rest := a - {x};
      UnionGain(f, n, s, rest, g);
      UnionStep(f, n, s, rest, x, g);
      assert s + rest + {x} == s + a;
      assert |a| == |rest| + 1;
    }
  }

  lemma {:induction false} UnionStep(f: set<nat> -> real, n: nat, s: set<nat>, rest: set<nat>, x: nat, g: real)
    requires Submodular(f, n) && x < n && GainsAtMost(f, s, x, g)
    ensures f(s + rest + {x}) <= f(s + rest) + g
  {
    assert Diminishes(f, s, s + rest, x);
  }

  /** `n` times `g`. */
  ghost function Multiple(n: nat, g: real): real {
    if n == 0 then 0.0 else Multiple(n - 1, g) + g
  }

  /** `next` is at least as good as any one-candidate extension of `s`. */
  ghost predicate BeatsExtensions(f: set<nat> -> real, n: nat, s: set<nat>, next: set<nat>) {
    forall x: nat :: x < n ==> f(s + {x}) <= f(next)
  }

  /** One round closes at least a quarter of the gap to any set of at most five. */
  lemma {:induction false} RoundClosesGap(f: set<nat> -> real, n: nat, s: set<nat>, next: set<nat>, o: set<nat>)
    requires Submodular(f, n) && n > 0 && 0 in s && Within(n, s) && BeatsExtensions(f, n, s, next)
    requires 0 in o && Within(n, o) && |o| <= 5
    ensures 4.0 * (f(o) - f(next)) <= 3.0 * (f(o) - f(s))
  {
    var a := o - {0};
    var g := f(next) - f(s);
    assert g >= 0.0 by {
      assert s + {0} == s;
      assert f(s + {0}) <= f(next);
    }
    forall x | x in a ensures GainsAtMost(f, s, x, g) { assert f(s + {x}) <= f(next); }
    UnionGain(f, n, s, a, g);
    assert s + a == s + o;
    Grows(f, n, o, s + o);
    assert |a| <= 4;
    AtMostFour(|a|, g);
  }

  lemma {:induction false} AtMostFour(n: nat, g: real)
    requires n <= 4 && g >= 0.0
    ensures Multiple(n, g) <= Multiple(4, g) == 4.0 * g
  {
    assert Multiple(1, g) == Multiple(0, g) + g;
    assert Multiple(2, g) == 2.0 * g;
    assert Multiple(3, g) == 3.0 * g;
  }

  /** The top states of the rounds: each beats every extension of the one before. */
  ghost predicate IsClimb(f: set<nat> -> real, n: nat, tops: seq<set<nat>>) {
    && tops != [] && tops[0] == {0}
    && (forall j :: 0 <= j < |tops| ==> 0 in tops[j] && Within(n, tops[j]) && |tops[j]| == j + 1)
    && (forall j :: 0 <= j < |tops| - 1 ==> BeatsExtensions(f, n, tops[j], tops[j + 1]))
  }

  lemma {:induction false} ClimbExtends(f: set<nat> -> real, n: nat, tops: seq<set<nat>>, next: set<nat>)
    requires IsClimb(f, n, tops) && BeatsExtensions(f, n, tops[|tops| - 1], next)
    requires 0 in next && Within(n, next) && |next| == |tops| + 1
    ensures IsClimb(f, n, tops + [next])
  {
  }

  ghost function Below(n: nat): (s: set<nat>)
    ensures |s| == n && forall i: nat :: i in s <==> i < n
  {
    if n == 0 then {} else Below(n - 1) + {n - 1}
  }

  lemma {:induction false} WithinAll(n: nat, g: set<nat>, o: set<nat>)
    requires Within(n, g) && Within(n, o) && |g| == n
    ensures o <= g
  {
    var all := Below(n);
    assert g <= all && o <= all;
    assert |all| == |g| + |all - g| by { assert all == g + (all - g); }
    assert all - g == {};
    assert all <= g;
  }

  function Rounds(n: nat): nat
    requires n > 0
  {
    (if n < 5 then n else 5) - 1
  }

  /** `f` at `best` closes all but `(3/4)^4` of the gap to every set of at most five. */
  ghost predicate NearlyBest(f: set<nat> -> real, n: nat, best: set<nat>) {
    forall o: set<nat> :: 0 in o && Within(n, o) && |o| <= 5 ==>
      f(best) - f({0}) >= (1.0 - 81.0 / 256.0) * (f(o) - f({0}))
  }

  /** The approximation bound for the last of the climbing states. */
  lemma {:induction false} ClimbBound(f: set<nat> -> real, n: nat, tops: seq<set<nat>>)
    requires n > 0 && Submodular(f, n) && IsClimb(f, n, tops) && |tops| == Rounds(n) + 1
    ensures NearlyBest(f, n, tops[|tops| - 1])
  {
    forall o: set<nat> | 0 in o && Within(n, o) && |o| <= 5
      ensures f(tops[|tops| - 1]) - f({0}) >= (1.0 - 81.0 / 256.0) * (f(o) - f({0}))
    {
      Grows(f, n, {0}, o);
      if n < 5 {
        WithinAll(n, tops[|tops| - 1], o);
        Grows(f, n, o, tops[|tops| - 1]);
      } else {
        RoundClosesGap(f, n, tops[0], tops[1], o);
        RoundClosesGap(f, n, tops[1], tops[2], o);
        RoundClosesGap(f, n, tops[2], tops[3], o);
        RoundClosesGap(f, n, tops[3], tops[4], o);
      }
    }
  }

  // ----- the beam loop -----------------------------------------------------

  /** The ranking key `(-value, tuple)`. */
  predicate RankLe(t: Instance, family: Family, a: seq<nat>, b: seq<nat>)
    requires Valid(t)
  {
    var x, y := Value(t, family, Members(a)), Value(t, family, Members(b));
    x > y || (x == y && LexLe(a, b))
  }

  /** A larger value comes first, and of equal values the smaller tuple. */
  lemma {:induction false} RankMeans(t: Instance, family: Family, a: seq<nat>, b: seq<nat>)
    requires Valid(t)
    ensures RankLe(t, family, a, b)
            <==> || Value(t, family, Members(a)) > Value(t, family, Members(b))
                 || (Value(t, family, Members(a)) == Value(t, family, Members(b)) && TupleLe(a, b))
  {
    LexMeans(a, b);
  }

  lemma {:induction false} RankTotalOrder(t: Instance, family: Family)
    requires Valid(t)
    ensures TotalOrder((a: seq<nat>, b: seq<nat>) => RankLe(t, family, a, b))
  {
    var le := (a: seq<nat>, b: seq<nat>) => RankLe(t, family, a, b);
    forall a, b ensures le(a, b) || le(b, a) { LexTotal(a, b); }
    forall a, b | le(a, b) && le(b, a) ensures a == b { LexAntisymmetric(a, b); }
    forall a, b, c | le(a, b) && le(b, c) ensures le(a, c) {
      if LexLe(a, b) && LexLe(b, c) { LexTransitive(a, b, c); }
    }
  }

  ghost predicate Increasing(s: seq<nat>) {
    forall i, j :: 0 <= i < j < |s| ==> s[i] < s[j]
  }

  /** A sorted tuple of `size` candidates that contains the anchor. */
  ghost predicate IsTuple(t: Instance, tuple: seq<nat>, size: nat) {
    && |tuple| == size && Increasing(tuple) && 0 in tuple
    && forall k :: 0 <= k < |tuple| ==> tuple[k] < |t.priors|
  }

  lemma {:induction false} TupleMembers(t: Instance, tuple: seq<nat>, size: nat)
    requires IsTuple(t, tuple, size)
    ensures 0 in Members(tuple) && Within(|t.priors|, Members(tuple)) && |Members(tuple)| == size
  {
    assert Distinct(tuple);
    DistinctSize(tuple);
  }

  /** `tuple(sorted(s | {i}))` */
  function Extended(tuple: seq<nat>, i: nat): seq<nat> {
    Sort([i] + tuple, IndexLe)
  }

  lemma {:induction false} ExtendedTuple(t: Instance, tuple: seq<nat>, size: nat, i: nat)
    requires IsTuple(t, tuple, size) && i < |t.priors| && i !in tuple
    ensures IsTuple(t, Extended(tuple, i), size + 1)
    ensures Members(Extended(tuple, i)) == Members(tuple) + {i}
  {
    var e := Extended(tuple, i);
    assert Distinct([i] + tuple);
    SortIndices([i] + tuple);
    assert forall k :: 0 <= k < |e| ==> e[k] in e;
  }

  /** `e` adds one candidate below `n` to `state`. */
  ghost predicate Extends(state: seq<nat>, n: nat, e: seq<nat>) {
    exists i: nat :: i < n && i !in state && e == Extended(state, i)
  }

  lemma {:induction false} ExtendsNext(state: seq<nat>, n: nat, e: seq<nat>)
    ensures Extends(state, n + 1, e) <==> Extends(state, n, e) || (n !in state && e == Extended(state, n))
  {
  }

  /** Adds the extensions of one state that are not yet there. */
  method ExpandState(n: nat, state: seq<nat>, unique0: seq<seq<nat>>) returns (unique: seq<seq<nat>>)
    requires Distinct(unique0)
    ensures Distinct(unique)
    ensures forall e :: e in unique <==> e in unique0 || Extends(state, n, e)
  {
    unique := unique0;
    for i := 0 to n
      invariant Distinct(unique)
      invariant forall e :: e in unique <==> e in unique0 || Extends(state, i, e)
    {
      forall e ensures Extends(state, i + 1, e) <==> Extends(state, i, e) || (i !in state && e == Extended(state, i)) {
        ExtendsNext(state, i, e);
      }
      if i !in state {
        var e := Extended(state, i);
        if e !in unique { unique := unique + [e]; }
      }
    }
  }

  /** `e` extends one of the first `k` states. */
  ghost predicate IsExpansion(states: seq<seq<nat>>, k: nat, n: nat, e: seq<nat>)
    requires k <= |states|
  {
    exists j :: 0 <= j < k && Extends(states[j], n, e)
  }

  /** Exactly the one-candidate extensions of all states, without repetition. */
  method Expand(n: nat, states: seq<seq<nat>>) returns (unique: seq<seq<nat>>)
    ensures Distinct(unique)
    ensures forall e :: e in unique <==> IsExpansion(states, |states|, n, e)
  {
    unique := [];
    for k := 0 to |states|
      invariant Distinct(unique)
      invariant forall e :: e in unique <==> IsExpansion(states, k, n, e)
    {
      unique := ExpandState(n, states[k], unique);
    }
  }

  ghost predicate AllTuples(t: Instance, tuples: seq<seq<nat>>, size: nat) {
    forall k :: 0 <= k < |tuples| ==> IsTuple(t, tuples[k], size)
  }

  lemma {:induction false} ExtensionIsTuple(t: Instance, state: seq<nat>, size: nat, e: seq<nat>)
    requires IsTuple(t, state, size) && Extends(state, |t.priors|, e)
    ensures IsTuple(t, e, size + 1)
  {
    var i: nat :| i < |t.priors| && i !in state && e == Extended(state, i);
    ExtendedTuple(t, state, size, i);
  }

  lemma {:induction false} ExpansionIsTuple(t: Instance, states: seq<seq<nat>>, size: nat, e: seq<nat>)
    requires AllTuples(t, states, size) && IsExpansion(states, |states|, |t.priors|, e)
    ensures IsTuple(t, e, size + 1)
  {
    var j :| 0 <= j < |states| && Extends(states[j], |t.priors|, e);
    var state := states[j];
    assert IsTuple(t, state, size);
    ExtensionIsTuple(t, state, size, e);
  }

  /** A candidate outside a tuple that does not yet hold all of them. */
  lemma {:induction false} SomeOutside(t: Instance, tuple: seq<nat>, size: nat) returns (i: nat)
    requires IsTuple(t, tuple, size) && size < |t.priors|
    ensures i < |t.priors| && i !in tuple
  {
    TupleMembers(t, tuple, size);
    var all, m := Below(|t.priors|), Members(tuple);
    assert m <= all;
    assert |all| == |m| + |all - m| by { assert all == m + (all - m); }
    assert all - m != {};
    i :| i in all - m;
  }

  /** `kept` is best first. */
  ghost predicate Ranked(t: Instance, family: Family, kept: seq<seq<nat>>)
    requires Valid(t)
  {
    forall i, j :: 0 <= i < j < |kept| ==> RankLe(t, family, kept[i], kept[j])
  }

  /** `e` was kept, or the beam is full of states at least as good. */
  ghost predicate KeptOrBeaten(t: Instance, family: Family, width: nat, kept: seq<seq<nat>>, e: seq<nat>)
    requires Valid(t)
  {
    e in kept || (|kept| == width && forall k :: 0 <= k < |kept| ==> RankLe(t, family, kept[k], e))
  }

  /** `kept` is what one round keeps of the expansions of `states`. */
  ghost predicate IsRound(t: Instance, family: Family, width: nat, states: seq<seq<nat>>, kept: seq<seq<nat>>)
    requires Valid(t)
  {
    && Distinct(kept) && Ranked(t, family, kept) && |kept| <= width
    && (forall k :: 0 <= k < |kept| ==> IsExpansion(states, |states|, |t.priors|, kept[k]))
    && (forall e :: IsExpansion(states, |states|, |t.priors|, e) ==> KeptOrBeaten(t, family, width, kept, e))
  }

  /** One round keeps exactly the `width` best of the expansions, best first. */
  method Round(t: Instance, family: Family, width: nat, states: seq<seq<nat>>) returns (kept: seq<seq<nat>>)
    requires Valid(t)
    ensures IsRound(t, family, width, states, kept)
  {
    var unique := Expand(|t.priors|, states);
    var le := (a: seq<nat>, b: seq<nat>) => RankLe(t, family, a, b);
    var ranked := Sort(unique, le);
    RankTotalOrder(t, family);
    SortSorts(unique, le);
    SameElements(ranked, unique);
    DistinctPermutation(unique, ranked);
    kept := Truncate(ranked, width);
    assert Ranked(t, family, ranked) by {
      forall i, j | 0 <= i < j < |ranked| ensures RankLe(t, family, ranked[i], ranked[j]) {
        assert le(ranked[i], ranked[j]);
      }
    }
    TruncatedIsRound(t, family, width, states, ranked);
  }

  /** Cutting the ranked expansions after `width` gives the round. */
  lemma {:induction false} TruncatedIsRound(t: Instance, family: Family, width: nat, states: seq<seq<nat>>,
                                            ranked: seq<seq<nat>>)
    requires Valid(t) && Distinct(ranked) && Ranked(t, family, ranked)
    requires forall e :: e in ranked <==> IsExpansion(states, |states|, |t.priors|, e)
    ensures IsRound(t, family, width, states, Truncate(ranked, width))
  {
    var kept := Truncate(ranked, width);
    forall k | 0 <= k < |kept| ensures IsExpansion(states, |states|, |t.priors|, kept[k]) {
      assert kept[k] == ranked[k] && ranked[k] in ranked;
    }
    forall e | IsExpansion(states, |states|, |t.priors|, e) ensures KeptOrBeaten(t, family, width, kept, e) {
      assert e in ranked;
      var m :| 0 <= m < |ranked| && ranked[m] == e;
      if m < |kept| { assert kept[m] == e; }
    }
  }

  lemma {:induction false} RoundKeepsTuples(t: Instance, family: Family, width: nat, states: seq<seq<nat>>, size: nat,
                                            kept: seq<seq<nat>>)
    requires Valid(t) && states != [] && width > 0 && size < |t.priors| && AllTuples(t, states, size)
    requires IsRound(t, family, width, states, kept)
    ensures kept != [] && AllTuples(t, kept, size + 1)
  {
    var outside := SomeOutside(t, states[0], size);
    var e := Extended(states[0], outside);
    assert Extends(states[0], |t.priors|, e);
    assert KeptOrBeaten(t, family, width, kept, e);
    forall k | 0 <= k < |kept| ensures IsTuple(t, kept[k], size + 1) {
      ExpansionIsTuple(t, states, size, kept[k]);
    }
  }

  lemma {:induction false} RankedFirst(t: Instance, family: Family, width: nat, kept: seq<seq<nat>>, e: seq<nat>)
    requires Valid(t) && kept != [] && Ranked(t, family, kept) && KeptOrBeaten(t, family, width, kept, e)
    ensures Value(t, family, Members(e)) <= Value(t, family, Members(kept[0]))
  {
    if e in kept {
      var k :| 0 <= k < |kept| && kept[k] == e;
      assert k == 0 || RankLe(t, family, kept[0], kept[k]);
    }
  }

  /** The first state kept beats every extension of the first state before. */
  lemma {:induction false} TopBeats(t: Instance, family: Family, width: nat, states: seq<seq<nat>>, size: nat,
                                    kept: seq<seq<nat>>, i: nat)
    requires Valid(t) && states != [] && AllTuples(t, states, size)
    requires kept != [] && IsRound(t, family, width, states, kept)
    requires i < |t.priors| && i !in states[0]
    ensures Value(t, family, Members(states[0]) + {i}) <= Value(t, family, Members(kept[0]))
  {
    var e := Extended(states[0], i);
    ExtendedTuple(t, states[0], size, i);
    assert Extends(states[0], |t.priors|, e);
    RankedFirst(t, family, width, kept, e);
  }

  // ----- when the beam loses nothing ----------------------------------------

  /** Every tuple of this size is among the states. */
  ghost predicate Complete(t: Instance, states: seq<seq<nat>>, size: nat) {
    forall tuple :: IsTuple(t, tuple, size) ==> tuple in states
  }

  lemma {:induction false} ExtendedByLast(tuple: seq<nat>, n: nat)
    requires |tuple| == n + 1 && Increasing(tuple)
    ensures Extended(tuple[..n], tuple[n]) == tuple
  {
    var all := [tuple[n]] + tuple[..n];
    assert tuple == tuple[..n] + [tuple[n]];
    SortSorts(all, IndexLe);
    SortedUnique(Sort(all, IndexLe), tuple, IndexLe);
  }

  /** From all tuples of one size, one round reaches all tuples of the next. */
  lemma {:induction false} TupleIsExpansion(t: Instance, states: seq<seq<nat>>, size: nat, tuple: seq<nat>)
    requires size > 0 && Complete(t, states, size) && IsTuple(t, tuple, size + 1)
    ensures IsExpansion(states, |states|, |t.priors|, tuple)
  {
    var front, last := tuple[..size], tuple[size];
    assert tuple[0] == 0;
    assert front[0] == 0;
    assert IsTuple(t, front, size);
    ExtendedByLast(tuple, size);
    var j :| 0 <= j < |states| && states[j] == front;
    assert Extends(states[j], |t.priors|, tuple);
  }

  /** The number of tuples of a size below `n` that start with the anchor. */
  function Count(n: nat, size: nat): nat {
    if size <= 1 then 1 else if n <= 1 then 0 else Count(n - 1, size) + Count(n - 1, size - 1)
  }

  lemma {:induction false} CountGrows(n: nat, m: nat, size: nat)
    requires n <= m
    ensures Count(n, size) <= Count(m, size)
    decreases m - n
  {
    if n < m { CountGrows(n, m - 1, size); }
  }

  lemma {:induction false} CountOfSeven(n: nat, size: nat)
    requires n <= 7 && size <= 5
    ensures Count(n, size) <= 20
  {
    CountGrows(n, 7, size);
    assert Count(3, 2) == 2 && Count(5, 2) == 4 && Count(7, 2) == 6;
    assert Count(3, 3) == 1 && Count(5, 3) == 6 && Count(7, 3) == 15;
    assert Count(3, 4) == 0 && Count(5, 4) == 4 && Count(7, 4) == 20;
    assert Count(3, 5) == 0 && Count(5, 5) == 1 && Count(7, 5) == 15;
  }

  /** The tuples that do not end in `last`, and those that do, shortened. */
  ghost function Without(tuples: seq<seq<nat>>, last: nat): (r: seq<seq<nat>>)
    ensures forall e :: e in r <==> e in tuples && (e == [] || e[|e| - 1] != last)
    ensures Distinct(tuples) ==> Distinct(r)
  {
    if tuples == [] then [] else
      var front, e := tuples[..|tuples| - 1], tuples[|tuples| - 1];
      assert tuples == front + [e];
      if e == [] || e[|e| - 1] != last then Without(front, last) + [e] else Without(front, last)
  }

  ghost function Shortened(tuples: seq<seq<nat>>, last: nat): (r: seq<seq<nat>>)
    ensures forall e :: e in r ==> e + [last] in tuples
    ensures Distinct(tuples) ==> Distinct(r)
  {
    if tuples == [] then [] else
      var front, e := tuples[..|tuples| - 1], tuples[|tuples| - 1];
      assert tuples == front + [e];
      if e == [] || e[|e| - 1] != last then Shortened(front, last)
      else
        assert e == e[..|e| - 1] + [last];
        Shortened(front, last) + [e[..|e| - 1]]
  }

  lemma {:induction false} SplitByLast(tuples: seq<seq<nat>>, last: nat)
    ensures |Shortened(tuples, last)| + |Without(tuples, last)| == |tuples|
  {
    if tuples != [] { SplitByLast(tuples[..|tuples| - 1], last); }
  }

  /** A tuple of `size` numbers below `n`, the first of them 0. */
  ghost predicate Anchored(e: seq<nat>, n: nat, size: nat) {
    |e| == size && Increasing(e) && size > 0 && e[0] == 0 && forall k :: 0 <= k < |e| ==> e[k] < n
  }

  lemma {:induction false} AnchoredNeedsRoom(e: seq<nat>, n: nat, size: nat)
    requires Anchored(e, n, size) && size > 1
    ensures n > 1
  {
    assert e[0] < e[1];
  }

  ghost predicate AllAnchored(tuples: seq<seq<nat>>, n: nat, size: nat) {
    forall e :: e in tuples ==> Anchored(e, n, size)
  }

  lemma {:induction false} OnlyAnchor(tuples: seq<seq<nat>>, n: nat)
    requires AllAnchored(tuples, n, 1)
    ensures Distinct(tuples) ==> |tuples| <= 1
  {
    if |tuples| > 1 {
      assert tuples[0] in tuples && tuples[1] in tuples;
      assert tuples[0] == [0] && tuples[1] == [0];
    }
  }

  lemma {:induction false} SplitAnchored(tuples: seq<seq<nat>>, n: nat, size: nat)
    requires n > 0 && size > 1 && AllAnchored(tuples, n, size)
    ensures AllAnchored(Without(tuples, n - 1), n - 1, size)
    ensures AllAnchored(Shortened(tuples, n - 1), n - 1, size - 1)
  {
    var rest, short := Without(tuples, n - 1), Shortened(tuples, n - 1);
    forall e | e in rest ensures Anchored(e, n - 1, size) {
      assert Anchored(e, n, size);
      assert forall k :: 0 <= k < |e| - 1 ==> e[k] < e[|e| - 1];
    }
    forall e | e in short ensures Anchored(e, n - 1, size - 1) {
      var longer := e + [n - 1];
      assert Anchored(longer, n, size);
      assert forall k :: 0 <= k < |e| ==> e[k] == longer[k] && longer[k] < longer[size - 1];
    }
  }

  lemma {:induction false} AtMostCount(tuples: seq<seq<nat>>, n: nat, size: nat)
    requires Distinct(tuples) && size > 0 && AllAnchored(tuples, n, size)
    ensures |tuples| <= Count(n, size)
    decreases n
  {
    if size == 1 {
      OnlyAnchor(tuples, n);
    } else if n <= 1 {
      if tuples != [] { AnchoredNeedsRoom(tuples[0], n, size); }
    } else {
      var rest, short := Without(tuples, n - 1), Shortened(tuples, n - 1);
      SplitAnchored(tuples, n, size);
      SplitByLast(tuples, n - 1);
      assert |rest| <= Count(n - 1, size) by { AtMostCount(rest, n - 1, size); }
      assert |short| <= Count(n - 1, size - 1) by { AtMostCount(short, n - 1, size - 1); }
    }
  }

  lemma {:induction false} TupleIsAnchored(t: Instance, tuple: seq<nat>, size: nat)
    requires IsTuple(t, tuple, size)
    ensures Anchored(tuple, |t.priors|, size)
  {
    assert exists k :: 0 <= k < |tuple| && tuple[k] == 0;
  }

  /** With at most seven candidates a beam of 32 never overflows. */
  lemma {:induction false} RoundStaysComplete(t: Instance, family: Family, states: seq<seq<nat>>, size: nat,
                                              kept: seq<seq<nat>>)
    requires Valid(t) && |t.priors| <= 7 && 0 < size <= 4 && Complete(t, states, size)
    requires IsRound(t, family, 32, states, kept) && AllTuples(t, kept, size + 1)
    ensures Complete(t, kept, size + 1)
  {
    forall e | e in kept ensures Anchored(e, |t.priors|, size + 1) { TupleIsAnchored(t, e, size + 1); }
    AtMostCount(kept, |t.priors|, size + 1);
    CountOfSeven(|t.priors|, size + 1);
    forall tuple | IsTuple(t, tuple, size + 1) ensures tuple in kept {
      TupleIsExpansion(t, states, size, tuple);
      assert KeptOrBeaten(t, family, 32, kept, tuple);
    }
  }

  function Width(family: Family): nat { if family == MeanGreedy then 1 else 32 }

  lemma {:induction false} MeanFamiliesAgree(t: Instance, family: Family, s: set<nat>)
    requires Valid(t) && family != MinimumBeam
    ensures Value(t, family, s) == MeanValue(t)(s)
  {
  }

  /** `kept` beats every extension of `top`, members of `top` included. */
  lemma {:induction false} RoundBeats(t: Instance, family: Family, top: seq<nat>, size: nat, kept: seq<nat>)
    requires Valid(t) && family != MinimumBeam && IsTuple(t, top, size) && size < |t.priors|
    requires forall i: nat :: i < |t.priors| && i !in top ==>
               Value(t, family, Members(top) + {i}) <= Value(t, family, Members(kept))
    ensures BeatsExtensions(MeanValue(t), |t.priors|, Members(top), Members(kept))
  {
    var f := MeanValue(t);
    var outside := SomeOutside(t, top, size);
    MeanValueSubmodular(t);
    MeanFamiliesAgree(t, family, Members(kept));
    forall x: nat | x < |t.priors| ensures f(Members(top) + {x}) <= f(Members(kept)) {
      if x in top {
        assert Members(top) + {x} == Members(top);
        assert Raises(f, Members(top), outside);
        MeanFamiliesAgree(t, family, Members(top) + {outside});
      } else {
        MeanFamiliesAgree(t, family, Members(top) + {x});
      }
    }
  }

  /** One round extends the climb. */
  lemma {:induction false} ClimbStep(t: Instance, family: Family, tops: seq<set<nat>>, top: seq<nat>, kept: seq<nat>)
    requires Valid(t) && family != MinimumBeam && IsClimb(MeanValue(t), |t.priors|, tops)
    requires IsTuple(t, top, |tops|) && |tops| < |t.priors| && tops[|tops| - 1] == Members(top)
    requires IsTuple(t, kept, |tops| + 1)
    requires forall i: nat :: i < |t.priors| && i !in top ==>
               Value(t, family, Members(top) + {i}) <= Value(t, family, Members(kept))
    ensures IsClimb(MeanValue(t), |t.priors|, tops + [Members(kept)])
  {
    RoundBeats(t, family, top, |tops|, kept);
    TupleMembers(t, kept, |tops| + 1);
    ClimbExtends(MeanValue(t), |t.priors|, tops, Members(kept));
  }

  /** The best of all tuples of this size, by value and then tuple order. */
  ghost predicate IsBestTuple(t: Instance, family: Family, size: nat, chosen: seq<nat>)
    requires Valid(t)
  {
    forall tuple :: IsTuple(t, tuple, size) ==> RankLe(t, family, chosen, tuple)
  }

  lemma {:induction false} CompleteTopIsBest(t: Instance, family: Family, states: seq<seq<nat>>, size: nat)
    requires Valid(t) && states != [] && Ranked(t, family, states) && Complete(t, states, size)
    ensures IsBestTuple(t, family, size, states[0])
  {
    forall tuple | IsTuple(t, tuple, size) ensures RankLe(t, family, states[0], tuple) {
      var k :| 0 <= k < |states| && states[k] == tuple;
      if k == 0 { LexTotal(tuple, tuple); }
    }
  }

  /** What every round keeps: ranked tuples, the climb of the mean families, and all tuples while they fit. */
  ghost predicate Searched(t: Instance, family: Family, states: seq<seq<nat>>, size: nat, tops: seq<set<nat>>)
    requires Valid(t)
  {
    && states != [] && AllTuples(t, states, size) && Ranked(t, family, states)
    && |tops| == size > 0 && tops[size - 1] == Members(states[0])
    && (family != MinimumBeam ==> IsClimb(MeanValue(t), |t.priors|, tops))
    && (family != MeanGreedy && |t.priors| <= 7 ==> Complete(t, states, size))
  }

  lemma {:induction false} RoundSearches(t: Instance, family: Family, states: seq<seq<nat>>, size: nat,
                                         tops: seq<set<nat>>, kept: seq<seq<nat>>)
    requires Valid(t) && size < |t.priors| && size < 5 && Searched(t, family, states, size, tops)
    requires IsRound(t, family, Width(family), states, kept)
    ensures kept != [] && Searched(t, family, kept, size + 1, tops + [Members(kept[0])])
  {
    RoundKeepsTuples(t, family, Width(family), states, size, kept);
    if family != MinimumBeam {
      forall i: nat | i < |t.priors| && i !in states[0]
        ensures Value(t, family, Members(states[0]) + {i}) <= Value(t, family, Members(kept[0]))
      {
        TopBeats(t, family, Width(family), states, size, kept, i);
      }
      ClimbStep(t, family, tops, states[0], kept[0]);
    }
    if family != MeanGreedy && |t.priors| <= 7 { RoundStaysComplete(t, family, states, size, kept); }
  }

  lemma {:induction false} StartIsSearched(t: Instance, family: Family)
    requires Valid(t)
    ensures Searched(t, family, [[0]], 1, [{0}])
  {
    assert Members([0]) == {0};
    forall tuple | IsTuple(t, tuple, 1) ensures tuple in [[0]] { assert tuple == [0]; }
  }

  // ----- which tuple is returned ----------------------------------------------

  /** Successive rounds of this width from the anchor alone, none of them empty. */
  ghost predicate IsBeam(t: Instance, family: Family, width: nat, rounds: seq<seq<seq<nat>>>)
    requires Valid(t)
  {
    && rounds != [] && rounds[0] == [[0]]
    && (forall j :: 0 <= j < |rounds| ==> rounds[j] != [])
    && (forall j :: 0 <= j < |rounds| - 1 ==> IsRound(t, family, width, rounds[j], rounds[j + 1]))
  }

  /** `chosen` is the head of the last of `min(5, candidates) - 1` rounds of this width. */
  ghost predicate HeadOfBeam(t: Instance, family: Family, width: nat, chosen: seq<nat>)
    requires Valid(t)
  {
    exists rounds :: IsBeam(t, family, width, rounds) && |rounds| == (if |t.priors| < 5 then |t.priors| else 5)
                     && chosen == rounds[|rounds| - 1][0]
  }

  /** `next` adds one candidate to `state`, and comes first by value and tuple among all that do. */
  ghost predicate IsBestExtension(t: Instance, family: Family, state: seq<nat>, next: seq<nat>)
    requires Valid(t)
  {
    && Extends(state, |t.priors|, next)
    && forall e :: Extends(state, |t.priors|, e) ==> RankLe(t, family, next, e)
  }

  /** From the anchor alone, the best extension again and again. */
  ghost predicate IsGreedyChain(t: Instance, family: Family, chain: seq<seq<nat>>)
    requires Valid(t)
  {
    && chain != [] && chain[0] == [0]
    && forall j :: 0 <= j < |chain| - 1 ==> IsBestExtension(t, family, chain[j], chain[j + 1])
  }

  lemma {:induction false} RoundOfOne(t: Instance, family: Family, state: seq<nat>, kept: seq<seq<nat>>)
    requires Valid(t) && IsRound(t, family, 1, [state], kept) && kept != []
    ensures kept == [kept[0]] && IsBestExtension(t, family, state, kept[0])
  {
    var n, states := |t.priors|, [state];
    assert IsExpansion(states, 1, n, kept[0]);
    forall e | Extends(state, n, e) ensures RankLe(t, family, kept[0], e) {
      assert states[0] == state && IsExpansion(states, 1, n, e);
      assert KeptOrBeaten(t, family, 1, kept, e);
      LexTotal(e, e);
    }
  }

  lemma {:induction false} BeamOfOne(t: Instance, family: Family, rounds: seq<seq<seq<nat>>>, n: nat)
    returns (chain: seq<seq<nat>>)
    requires Valid(t) && IsBeam(t, family, 1, rounds) && 0 < n <= |rounds|
    ensures IsGreedyChain(t, family, chain) && |chain| == n && rounds[n - 1] == [chain[n - 1]]
  {
    if n == 1 {
      chain := [[0]];
    } else {
      chain := BeamOfOne(t, family, rounds, n - 1);
      RoundOfOne(t, family, chain[n - 2], rounds[n - 1]);
      chain := chain + [rounds[n - 1][0]];
    }
  }

  lemma {:induction false} BeamExtends(t: Instance, family: Family, width: nat, rounds: seq<seq<seq<nat>>>,
                                       kept: seq<seq<nat>>)
    requires Valid(t) && IsBeam(t, family, width, rounds) && kept != []
    requires IsRound(t, family, width, rounds[|rounds| - 1], kept)
    ensures IsBeam(t, family, width, rounds + [kept])
  {
    var longer, n := rounds + [kept], |rounds|;
    forall j | 0 <= j < n ensures IsRound(t, family, width, longer[j], longer[j + 1]) {
      assert longer[j] == rounds[j];
      if j < n - 1 {
        assert longer[j + 1] == rounds[j + 1];
      } else {
        assert longer[j + 1] == kept;
      }
    }
  }

  /** `chosen` is the last of a greedy chain of `min(5, candidates)` tuples. */
  ghost predicate EndOfGreedyChain(t: Instance, chosen: seq<nat>)
    requires Valid(t)
  {
    exists chain :: IsGreedyChain(t, MeanGreedy, chain) && |chain| == (if |t.priors| < 5 then |t.priors| else 5)
                    && chosen == chain[|chain| - 1]
  }

  /**
   The selection: `min(5, candidates)` candidates including the anchor. The two beam families
   return the head of their last round of width 32, the greedy family the end of the chain of
   best extensions. For the mean families the result is within `1 - (3/4)^4` of every
   competitor's gain, and for the beam families it is the exact optimum whenever there are at
   most seven candidates.
   */
  method Select(t: Instance, family: Family) returns (chosen: seq<nat>)
    requires Valid(t)
    ensures IsTuple(t, chosen, if |t.priors| < 5 then |t.priors| else 5)
    ensures family != MeanGreedy ==> HeadOfBeam(t, family, 32, chosen)
    ensures family == MeanGreedy ==> EndOfGreedyChain(t, chosen)
    ensures family != MinimumBeam ==> NearlyBest(MeanValue(t), |t.priors|, Members(chosen))
    ensures family != MeanGreedy && |t.priors| <= 7 ==> IsBestTuple(t, family, Rounds(|t.priors|) + 1, chosen)
  {
    var states := [[0]];
    ghost var tops := [{0}];
    ghost var rounds := [states];
    StartIsSearched(t, family);
    for round := 0 to Rounds(|t.priors|)
      invariant Searched(t, family, states, round + 1, tops)
      invariant IsBeam(t, family, Width(family), rounds) && |rounds| == round + 1 && rounds[round] == states
    {
      var kept := Round(t, family, Width(family), states);
      RoundSearches(t, family, states, round + 1, tops, kept);
      BeamExtends(t, family, Width(family), rounds, kept);
      tops, rounds := tops + [Members(kept[0])], rounds + [kept];
      states := kept;
    }
    chosen := states[0];
    SearchEnds(t, family, states, tops, rounds);
  }

  /** What the finished search guarantees. */
  lemma {:induction false} SearchEnds(t: Instance, family: Family, states: seq<seq<nat>>, tops: seq<set<nat>>,
                                      rounds: seq<seq<seq<nat>>>)
    requires Valid(t) && Searched(t, family, states, Rounds(|t.priors|) + 1, tops)
    requires IsBeam(t, family, Width(family), rounds)
    requires |rounds| == Rounds(|t.priors|) + 1 && rounds[|rounds| - 1] == states
    ensures family != MeanGreedy ==> HeadOfBeam(t, family, 32, states[0])
    ensures family == MeanGreedy ==> EndOfGreedyChain(t, states[0])
    ensures family != MinimumBeam ==> NearlyBest(MeanValue(t), |t.priors|, Members(states[0]))
    ensures family != MeanGreedy && |t.priors| <= 7 ==> IsBestTuple(t, family, Rounds(|t.priors|) + 1, states[0])
  {
    if family == MeanGreedy {
      var chain := BeamOfOne(t, family, rounds, |rounds|);
    }
    if family != MinimumBeam {
      MeanValueSubmodular(t);
      ClimbBound(MeanValue(t), |t.priors|, tops);
    }
    if family != MeanGreedy && |t.priors| <= 7 {
      CompleteTopIsBest(t, family, states, Rounds(|t.priors|) + 1);
    }
  }
}
