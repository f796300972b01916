/**
 The sparse projection arms of examples/sparse_composition.rs: exact normalization of level
 counts by a common denominator with checked machine arithmetic, and the selection of at most
 `budget` coordinates from the support.
 */
module SparseProjection {
  import opened Wrappers
  import opened Arithmetic
  import opened Ordering


  const U64_MAX: nat := 0xffff_ffff_ffff_ffff
  const U128_MAX: nat := 0xffff_ffff_ffff_ffff_ffff_ffff_ffff_ffff

  // ----- the common denominator --------------------------------------------

  function Positive(ns: seq<nat>): (ps: seq<nat>)
    ensures forall n :: n in ps ==> n > 0
  {
    if ns == [] then [] else
      var front := Positive(ns[..|ns| - 1]);
      if ns[|ns| - 1] > 0 then front + [ns[|ns| - 1]] else front
  }

  lemma {:induction false} PositiveHas(ns: seq<nat>, k: nat)
    requires k < |ns| && ns[k] > 0
    ensures ns[k] in Positive(ns)
  {
    if k < |ns| - 1 { PositiveHas(ns[..|ns| - 1], k); }
  }

  /** The exact common denominator of the nonempty levels. */
  function Denominator(ns: seq<nat>): (d: nat)
    ensures d > 0
  {
    LcmAll(Positive(ns))
  }

  lemma {:induction false} DenominatorStep(ns: seq<nat>, k: nat)
    requires k < |ns|
    ensures Denominator(ns[..k + 1]) == (if ns[k] > 0 then Lcm(Denominator(ns[..k]), ns[k]) else Denominator(ns[..k]))
    ensures Denominator(ns[..k]) <= Denominator(ns[..k + 1])
  {
    assert ns[..k + 1][..k] == ns[..k];
    if ns[k] > 0 {
      var ps := Positive(ns[..k]);
      assert (ps + [ns[k]])[..|ps|] == ps;
      LcmIsCommonMultiple(Denominator(ns[..k]), ns[k]);
      MultipleAtLeast(Denominator(ns[..k]), Lcm(Denominator(ns[..k]), ns[k]));
    }
  }

  lemma {:induction false} DenominatorGrows(ns: seq<nat>, k: nat)
    requires k <= |ns|
    ensures Denominator(ns[..k]) <= Denominator(ns)
    decreases |ns| - k
  {
    if k == |ns| {
      assert ns[..k] == ns;
    } else {
      DenominatorStep(ns, k);
      DenominatorGrows(ns, k + 1);
    }
  }

  /** Every nonempty level divides the denominator. */
  lemma {:induction false} LevelDivides(ns: seq<nat>, k: nat)
    requires k < |ns| && ns[k] > 0
    ensures Divides(ns[k], Denominator(ns))
  {
    PositiveHas(ns, k);
  }

  lemma {:induction false} PositiveComesFrom(ns: seq<nat>, n: nat)
    requires n in Positive(ns)
    ensures exists k :: 0 <= k < |ns| && ns[k] == n
  {
    if n != ns[|ns| - 1] || ns[|ns| - 1] == 0 {
      PositiveComesFrom(ns[..|ns| - 1], n);
      var k :| 0 <= k < |ns| - 1 && ns[..|ns| - 1][k] == n;
      assert ns[k] == n;
    }
  }

  /** The denominator is the least common multiple of the nonempty levels. */
  lemma {:induction false} DenominatorIsLeast(ns: seq<nat>, m: nat)
    requires m > 0 && CommonMultiple(m, ns)
    ensures Denominator(ns) <= m
  {
    forall n | n in Positive(ns) ensures Divides(n, m) { PositiveComesFrom(ns, n); }
    LcmAllIsLeast(Positive(ns), m);
    MultipleAtLeast(Denominator(ns), m);
  }

  /** The checked fold fails exactly when no common multiple fits, and else returns the least. */
  method CheckedDenominator(ns: seq<nat>) returns (r: Option<nat>)
    ensures r.Some? <==> Denominator(ns) <= U128_MAX
    ensures r.Some? ==> r.value == Denominator(ns) && CommonMultiple(r.value, ns)
    ensures r.Some? ==> forall m: nat :: m > 0 && CommonMultiple(m, ns) ==> r.value <= m
    ensures r.None? ==> forall m: nat :: m > 0 && CommonMultiple(m, ns) ==> m > U128_MAX
  {
    var a: nat := 1;
    forall m: nat | m > 0 && CommonMultiple(m, ns) ensures Denominator(ns) <= m { DenominatorIsLeast(ns, m); }
    for k := 0 to |ns|
      invariant a == Denominator(ns[..k]) <= U128_MAX
    {
      DenominatorStep(ns, k);
      DenominatorGrows(ns, k + 1);
      if ns[k] > 0 {
        var g := GcdLoop(a, ns[k]);
        var product := (a / g) * ns[k];
        if product > U128_MAX { return None; }
        a := product;
      }
    }
    assert ns[..|ns|] == ns;
    forall k | 0 <= k < |ns| && ns[k] > 0 ensures Divides(ns[k], a) { LevelDivides(ns, k); }
    r := Some(a);
  }

  // ----- accumulation ------------------------------------------------------

  /** What is kept per coordinate: `sum`, `normalized`, `minimum`, `support_levels`. */
  datatype Cell = Cell(sum: nat, normalized: nat, minimum: nat, levels: nat)

  const EMPTY := Cell(0, 0, U128_MAX, 0)

  /** One coordinate after one level of `n` vectors in which it occurs `count` times. */
  function AddLevel(cell: Cell, common: nat, n: nat, count: nat): Cell {
    if n == 0 || count == 0 then cell
    else
      var term := (common / n) * count;
      var minimum := if term < cell.minimum then term else cell.minimum;
      Cell(cell.sum + count, cell.normalized + term, minimum, cell.levels + 1)
  }

  ghost predicate Rectangular(counts: seq<seq<nat>>, ns: seq<nat>, dim: nat) {
    |counts| == |ns| && forall l :: 0 <= l < |counts| ==> |counts[l]| == dim
  }

  /** Coordinate `i` after the first `levels` levels, without overflow checks. */
  function CellAfter(counts: seq<seq<nat>>, ns: seq<nat>, dim: nat, common: nat, i: nat, levels: nat): Cell
    requires Rectangular(counts, ns, dim) && i < dim && levels <= |counts|
  {
    if levels == 0 then EMPTY
    else AddLevel(CellAfter(counts, ns, dim, common, i, levels - 1), common, ns[levels - 1], counts[levels - 1][i])
  }

  predicate Fits(cell: Cell) { cell.sum <= U64_MAX && cell.normalized <= U128_MAX }

  lemma {:induction false} CellGrows(counts: seq<seq<nat>>, ns: seq<nat>, dim: nat, common: nat, i: nat, a: nat, b: nat)
    requires Rectangular(counts, ns, dim) && i < dim && a <= b <= |counts|
    ensures CellAfter(counts, ns, dim, common, i, a).sum <= CellAfter(counts, ns, dim, common, i, b).sum
    ensures CellAfter(counts, ns, dim, common, i, a).normalized <= CellAfter(counts, ns, dim, common, i, b).normalized
  {
    if a < b { CellGrows(counts, ns, dim, common, i, a, b - 1); }
  }

  /** One checked update, failing on any overflow of the machine types. */
  method CheckedAdd(cell: Cell, common: nat, n: nat, count: nat) returns (r: Option<Cell>)
    requires Fits(cell) && n > 0
    ensures r.Some? <==> Fits(AddLevel(cell, common, n, count))
    ensures r.Some? ==> r.value == AddLevel(cell, common, n, count)
  {
    var sum := cell.sum + count;
    if sum > U64_MAX { return None; }
    if count == 0 { return Some(cell); }
    var term := (common / n) * count;
    if term > U128_MAX { return None; }
    var normalized := cell.normalized + term;
    if normalized > U128_MAX { return None; }
    r := Some(Cell(sum, normalized, if term < cell.minimum then term else cell.minimum, cell.levels + 1));
  }

  ghost predicate Column(counts: seq<seq<nat>>, ns: seq<nat>, dim: nat, common: nat, cell: Cell, i: nat, levels: nat) {
    && Rectangular(counts, ns, dim) && i < dim && levels <= |counts|
    && Fits(cell) && cell == CellAfter(counts, ns, dim, common, i, levels)
  }

  lemma {:induction false} ColumnStep(counts: seq<seq<nat>>, ns: seq<nat>, dim: nat, common: nat, cell: Cell, i: nat,
                                      l: nat)
    requires Column(counts, ns, dim, common, cell, i, l) && l < |counts|
    ensures CellAfter(counts, ns, dim, common, i, l + 1) == AddLevel(cell, common, ns[l], counts[l][i])
    ensures ns[l] == 0 ==> Column(counts, ns, dim, common, cell, i, l + 1)
  {
  }

  /** Coordinate `i` exceeds a machine type within the first `levels` levels. */
  ghost predicate Overflows(counts: seq<seq<nat>>, ns: seq<nat>, dim: nat, common: nat, i: nat, levels: nat)
    requires Rectangular(counts, ns, dim) && i < dim && levels <= |counts|
  {
    !Fits(CellAfter(counts, ns, dim, common, i, levels))
  }

  ghost predicate OverflowsAt(counts: seq<seq<nat>>, ns: seq<nat>, dim: nat, common: nat, i: nat, l: nat)
    requires Rectangular(counts, ns, dim) && i < dim && l < |counts|
  {
    Overflows(counts, ns, dim, common, i, l + 1)
  }

  lemma {:induction false} OverflowStays(counts: seq<seq<nat>>, ns: seq<nat>, dim: nat, common: nat, i: nat, l: nat)
    requires Rectangular(counts, ns, dim) && i < dim && l <= |counts| && Overflows(counts, ns, dim, common, i, l)
    ensures Overflows(counts, ns, dim, common, i, |counts|)
  {
    CellGrows(counts, ns, dim, common, i, l, |counts|);
  }

  /** One level of the accumulation loops. */
  method AccumulateLevel(cells0: seq<Cell>, counts: seq<seq<nat>>, ns: seq<nat>, dim: nat, common: nat, l: nat)
    returns (r: Option<seq<Cell>>)
    requires l < |counts| && |cells0| == dim
    requires forall i: nat :: i < dim ==> Column(counts, ns, dim, common, cells0[i], i, l)
    requires Rectangular(counts, ns, dim)
    ensures r.Some? ==> |r.value| == dim && forall i: nat :: i < dim ==>
              Column(counts, ns, dim, common, r.value[i], i, l + 1)
    ensures r.None? ==> exists i: nat :: i < dim && OverflowsAt(counts, ns, dim, common, i, l)
  {
    var cells := cells0;
    if ns[l] == 0 {
      forall i: nat | i < dim ensures Column(counts, ns, dim, common, cells[i], i, l + 1) {
        ColumnStep(counts, ns, dim, common, cells[i], i, l);
      }
      return Some(cells);
    }
    for i := 0 to dim
      invariant |cells| == dim
      invariant forall j: nat :: j < dim ==> Column(counts, ns, dim, common, cells[j], j, if j < i then l + 1 else l)
    {
      assert Column(counts, ns, dim, common, cells[i], i, l);
      ColumnStep(counts, ns, dim, common, cells[i], i, l);
      var updated := CheckedAdd(cells[i], common, ns[l], counts[l][i]);
      if updated.None? {
        assert OverflowsAt(counts, ns, dim, common, i, l);
        return None;
      }
      cells := cells[i := updated.value];
    }
    r := Some(cells);
  }

  /** The accumulation loops: they succeed exactly when every final cell fits. */
  method Accumulate(counts: seq<seq<nat>>, ns: seq<nat>, dim: nat, common: nat) returns (r: Option<seq<Cell>>)
    requires Rectangular(counts, ns, dim)
    ensures r.Some? <==> forall i: nat :: i < dim ==> !Overflows(counts, ns, dim, common, i, |counts|)
    ensures r.Some? ==> |r.value| == dim && forall i: nat :: i < dim ==>
              Column(counts, ns, dim, common, r.value[i], i, |counts|)
  {
    var cells := seq(dim, _ => EMPTY);
    for l := 0 to |counts|
      invariant |cells| == dim
      invariant forall i: nat :: i < dim ==> Column(counts, ns, dim, common, cells[i], i, l)
    {
      var next := AccumulateLevel(cells, counts, ns, dim, common, l);
      if next.None? {
        ghost var i: nat :| i < dim && OverflowsAt(counts, ns, dim, common, i, l);
        OverflowStays(counts, ns, dim, common, i, l + 1);
        return None;
      }
      cells := next.value;
    }
    forall i: nat | i < dim ensures !Overflows(counts, ns, dim, common, i, |counts|) {
      assert Column(counts, ns, dim, common, cells[i], i, |counts|);
    }
    r := Some(cells);
  }

  // ----- exact normalization -----------------------------------------------

  /** The exact rational score: the sum of count over level size. */
  ghost function Rational(counts: seq<seq<nat>>, ns: seq<nat>, dim: nat, i: nat, levels: nat): real
    requires Rectangular(counts, ns, dim) && i < dim && levels <= |counts|
  {
    if levels == 0 then 0.0 else
      var rest := Rational(counts, ns, dim, i, levels - 1);
      if ns[levels - 1] == 0 then rest else rest + counts[levels - 1][i] as real / ns[levels - 1] as real
  }

  lemma {:induction false} ExactTerm(common: nat, n: nat, count: nat, rest: real)
    requires n > 0 && Divides(n, common)
    ensures common as real * (rest + count as real / n as real)
            == common as real * rest + ((common / n) * count) as real
  {
    var q := common / n;
    assert common == n * q;
    var d, x, c, k := common as real, n as real, count as real, q as real;
    assert d == x * k;
    assert (q * count) as real == k * c;
    QuotientCancels(x, k, c);
    assert d * (rest + c / x) == d * rest + d * (c / x);
  }

  lemma {:induction false} QuotientCancels(x: real, k: real, c: real)
    requires x > 0.0
    ensures (x * k) * (c / x) == k * c
  {
    var q := c / x;
    assert x * q == c;
    assert (x * k) * q == k * (x * q);
  }

  lemma {:induction false} AddLevelExact(cell: Cell, common: nat, n: nat, count: nat, rest: real)
    requires n > 0 && Divides(n, common) && IsScaled(cell.normalized, common as real, rest)
    ensures IsScaled(AddLevel(cell, common, n, count).normalized, common as real, rest + count as real / n as real)
  {
    ExactTerm(common, n, count, rest);
    if count == 0 { assert (common / n) * count == 0; }
  }

  ghost predicate CommonMultiple(common: nat, ns: seq<nat>) {
    forall k :: 0 <= k < |ns| && ns[k] > 0 ==> Divides(ns[k], common)
  }

  /** The integer score is the exact rational score times the common denominator. */
  lemma {:induction false} NormalizedIsExact(counts: seq<seq<nat>>, ns: seq<nat>, dim: nat, common: nat, i: nat,
                                             levels: nat)
    requires Rectangular(counts, ns, dim) && CommonMultiple(common, ns) && i < dim && levels <= |counts|
    ensures IsScaled(CellAfter(counts, ns, dim, common, i, levels).normalized, common as real,
                     Rational(counts, ns, dim, i, levels))
  {
    if levels > 0 {
      var l := levels - 1;
      var cell, rest := CellAfter(counts, ns, dim, common, i, l), Rational(counts, ns, dim, i, l);
      NormalizedIsExact(counts, ns, dim, common, i, l);
      if ns[l] > 0 {
        AddLevelExact(cell, common, ns[l], counts[l][i], rest);
      }
    }
  }

  /** Comparing integer scores compares exact rational scores. */
  lemma {:induction false} NormalizedOrderIsExact(counts: seq<seq<nat>>, ns: seq<nat>, dim: nat, common: nat, i: nat,
                                                  j: nat)
    requires Rectangular(counts, ns, dim) && common > 0 && CommonMultiple(common, ns) && i < dim && j < dim
    ensures CellAfter(counts, ns, dim, common, i, |counts|).normalized
            < CellAfter(counts, ns, dim, common, j, |counts|).normalized
            <==> Rational(counts, ns, dim, i, |counts|) < Rational(counts, ns, dim, j, |counts|)
  {
    var n := |counts|;
    NormalizedIsExact(counts, ns, dim, common, i, n);
    NormalizedIsExact(counts, ns, dim, common, j, n);
    ScalingKeepsOrder(common as real, Rational(counts, ns, dim, i, n), Rational(counts, ns, dim, j, n),
                      CellAfter(counts, ns, dim, common, i, n).normalized,
                      CellAfter(counts, ns, dim, common, j, n).normalized);
  }

  // ----- selection ---------------------------------------------------------

  /** A sort key `(first, second, index)`; reversed scores are negated. */
  datatype Keys = Keys(first: nat -> int, second: nat -> int)

  predicate KeyLe(keys: Keys, a: nat, b: nat) {
    var x, y := keys.first(a), keys.first(b);
    var u, v := keys.second(a), keys.second(b);
    x < y || (x == y && (u < v || (u == v && a <= b)))
  }

  lemma {:induction false} KeyTotalOrder(keys: Keys)
    ensures TotalOrder((a: nat, b: nat) => KeyLe(keys, a, b))
  {
  }

  function OrderBy(keys: Keys, items: seq<nat>): seq<nat> {
    Sort(items, (a: nat, b: nat) => KeyLe(keys, a, b))
  }

  /** `top`: the first `budget` of an order, as a sorted index list. */
  function Top(order: seq<nat>, budget: nat): seq<nat> {
    Sort(Truncate(order, budget), IndexLe)
  }

  ghost predicate StrictlyIncreasing(s: seq<nat>) {
    forall i, j :: 0 <= i < j < |s| ==> s[i] < s[j]
  }

  /** A strictly increasing list of `min(|items|, budget)` items. */
  ghost predicate IsSelection(items: seq<nat>, budget: nat, chosen: seq<nat>) {
    && StrictlyIncreasing(chosen) && (forall x :: x in chosen ==> x in items)
    && |chosen| == if |items| < budget then |items| else budget
  }

  /** Every chosen item, outside `exempt`, ranks before every item left out. */
  ghost predicate Prefers(keys: Keys, items: seq<nat>, chosen: seq<nat>, exempt: seq<nat>) {
    forall x, y :: x in chosen && x !in exempt && y in items && y !in chosen ==> KeyLe(keys, x, y)
  }

  lemma {:induction false} DistinctPrefix(s: seq<nat>, n: nat)
    requires Distinct(s)
    ensures Distinct(Truncate(s, n))
    ensures forall x :: x in s && x !in Truncate(s, n) ==> exists j :: n <= j < |s| && s[j] == x
  {
    forall x | x in s && x !in Truncate(s, n) ensures exists j :: n <= j < |s| && s[j] == x {
      var j :| 0 <= j < |s| && s[j] == x;
      assert forall k :: 0 <= k < |Truncate(s, n)| ==> Truncate(s, n)[k] == s[k];
    }
  }

  lemma {:induction false} TopIsSelection(items: seq<nat>, order: seq<nat>, budget: nat)
    requires Distinct(order) && |order| == |items| && forall x :: x in order <==> x in items
    ensures IsSelection(items, budget, Top(order, budget))
    ensures forall x :: x in Top(order, budget) <==> x in Truncate(order, budget)
  {
    DistinctPrefix(order, budget);
    SortIndices(Truncate(order, budget));
    assert forall x :: x in Truncate(order, budget) ==> x in order;
  }

  lemma {:induction false} OrderFacts(keys: Keys, items: seq<nat>)
    requires Distinct(items)
    ensures Distinct(OrderBy(keys, items)) && |OrderBy(keys, items)| == |items|
    ensures forall x :: x in OrderBy(keys, items) <==> x in items
    ensures forall i, j :: 0 <= i < j < |items| ==> KeyLe(keys, OrderBy(keys, items)[i], OrderBy(keys, items)[j])
  {
    var le := (a: nat, b: nat) => KeyLe(keys, a, b);
    KeyTotalOrder(keys);
    SortSorts(items, le);
    SameElements(OrderBy(keys, items), items);
    DistinctPermutation(items, OrderBy(keys, items));
  }

  /** Whatever is among the first `n` of a sorted list ranks before whatever is not. */
  lemma {:induction false} TruncatedBefore(keys: Keys, items: seq<nat>, n: nat, x: nat, y: nat)
    requires Distinct(items) && x in Truncate(OrderBy(keys, items), n)
    requires y in items && y !in Truncate(OrderBy(keys, items), n)
    ensures x in items && KeyLe(keys, x, y)
  {
    var order := OrderBy(keys, items);
    OrderFacts(keys, items);
    DistinctPrefix(order, n);
    var i :| 0 <= i < |Truncate(order, n)| && Truncate(order, n)[i] == x;
    var j :| n <= j < |order| && order[j] == y;
    assert order[i] == x;
  }

  /** The plain arms: the `budget` best coordinates of the support by the arm's key. */
  lemma {:induction false} PlainArm(keys: Keys, support: seq<nat>, budget: nat)
    requires Distinct(support)
    ensures IsSelection(support, budget, Top(OrderBy(keys, support), budget))
    ensures Prefers(keys, support, Top(OrderBy(keys, support), budget), [])
  {
    var order := OrderBy(keys, support);
    OrderFacts(keys, support);
    TopIsSelection(support, order, budget);
    var chosen := Top(order, budget);
    forall x, y | x in chosen && y in support && y !in chosen ensures KeyLe(keys, x, y) {
      TruncatedBefore(keys, support, budget, x, y);
    }
  }

  /** The reserved arms: the rarest coordinates first, the rest by normalized score. */
  function ReservedOrder(rare: Keys, score: Keys, support: seq<nat>, reserve: nat): seq<nat> {
    var kept := Truncate(OrderBy(rare, support), reserve);
    kept + OrderBy(score, Without(support, kept))
  }

  function Without(items: seq<nat>, kept: seq<nat>): (r: seq<nat>)
    ensures forall x :: x in r <==> x in items && x !in kept
  {
    if items == [] then [] else
      var front := Without(items[..|items| - 1], kept);
      assert items == items[..|items| - 1] + [items[|items| - 1]];
      if items[|items| - 1] in kept then front else front + [items[|items| - 1]]
  }

  lemma {:induction false} WithoutDistinct(items: seq<nat>, kept: seq<nat>)
    requires Distinct(items)
    ensures Distinct(Without(items, kept))
  {
    if items != [] {
      var n := |items| - 1;
      WithoutDistinct(items[..n], kept);
      assert items[n] !in items[..n];
    }
  }

  lemma {:induction false} SameSetSameSize(a: seq<nat>, b: seq<nat>)
    requires Distinct(a) && Distinct(b) && forall x :: x in a <==> x in b
    ensures |a| == |b|
  {
    DistinctCount(a);
    DistinctCount(b);
    forall x ensures multiset(a)[x] == multiset(b)[x] {
      assert x in multiset(a) <==> x in a;
      assert x in multiset(b) <==> x in b;
    }
    assert multiset(a) == multiset(b);
    assert |multiset(a)| == |a| && |multiset(b)| == |b|;
  }

  lemma {:induction false} ReservedOrderFacts(rare: Keys, score: Keys, support: seq<nat>, reserve: nat)
    requires Distinct(support)
    ensures Distinct(ReservedOrder(rare, score, support, reserve))
    ensures |ReservedOrder(rare, score, support, reserve)| == |support|
    ensures forall x :: x in ReservedOrder(rare, score, support, reserve) <==> x in support
  {
    var byRare := OrderBy(rare, support);
    OrderFacts(rare, support);
    DistinctPrefix(byRare, reserve);
    var kept := Truncate(byRare, reserve);
    assert forall x :: x in kept ==> x in byRare;
    var others := Without(support, kept);
    WithoutDistinct(support, kept);
    OrderFacts(score, others);
    var rest := OrderBy(score, others);
    var order := kept + rest;
    forall i, j | 0 <= i < j < |order| ensures order[i] != order[j] {
      if i < |kept| <= j { assert rest[j - |kept|] in others && kept[i] in kept; }
    }
    assert forall x :: x in order <==> x in kept || x in rest;
    SameSetSameSize(order, support);
  }

  /** In an order that is sorted from `cut` on, what is taken after `cut` ranks before what is not. */
  lemma {:induction false} TakenBeforeLeft(keys: Keys, head: seq<nat>, rest: seq<nat>, budget: nat, x: nat, y: nat)
    requires forall i, j :: 0 <= i < j < |rest| ==> KeyLe(keys, rest[i], rest[j])
    requires x in Truncate(head + rest, budget) && x !in head
    requires y in head + rest && y !in Truncate(head + rest, budget) && Distinct(head + rest) && |head| <= budget
    ensures KeyLe(keys, x, y)
  {
    var order := head + rest;
    DistinctPrefix(order, budget);
    var i :| 0 <= i < |Truncate(order, budget)| && Truncate(order, budget)[i] == x;
    var j :| budget <= j < |order| && order[j] == y;
    assert order[i] == x;
    assert forall k :: 0 <= k < |head| ==> head[k] == order[k];
    assert rest[i - |head|] == x && rest[j - |head|] == y;
  }

  /** No reserved coordinate is lost, and the rest are the best by normalized score. */
  lemma {:induction false} ReservedArm(rare: Keys, score: Keys, support: seq<nat>, reserve: nat, budget: nat)
    requires Distinct(support) && reserve <= budget
    ensures var order := ReservedOrder(rare, score, support, reserve);
            var reserved := Truncate(OrderBy(rare, support), reserve);
            && IsSelection(support, budget, Top(order, budget))
            && (forall x :: x in reserved ==> x in Top(order, budget))
            && Prefers(score, support, Top(order, budget), reserved)
  {
    var order := ReservedOrder(rare, score, support, reserve);
    var reserved := Truncate(OrderBy(rare, support), reserve);
    var others := Without(support, reserved);
    ReservedOrderFacts(rare, score, support, reserve);
    TopIsSelection(support, order, budget);
    WithoutDistinct(support, reserved);
    OrderFacts(score, others);
    forall x | x in reserved ensures x in Top(order, budget) {
      var i :| 0 <= i < |reserved| && reserved[i] == x;
      assert Truncate(order, budget)[i] == order[i] == x;
    }
    forall x, y | x in Top(order, budget) && x !in reserved && y in support && y !in Top(order, budget)
      ensures KeyLe(score, x, y)
    {
      TakenBeforeLeft(score, reserved, OrderBy(score, others), budget, x, y);
    }
  }

  // ----- the arms ----------------------------------------------------------

  datatype Arm = UC | F | FN | H | R25 | R50

  function Support(cells: seq<Cell>, n: nat): (s: seq<nat>)
    requires n <= |cells|
    ensures Distinct(s) && forall i: nat :: i in s <==> i < n && cells[i].sum > 0
  {
    if n == 0 then [] else
      var front := Support(cells, n - 1);
      if cells[n - 1].sum > 0 then front + [n - 1] else front
  }

  /** A field of the cells as a key; coordinates outside the cells never occur in an order. */
  function Field(cells: seq<Cell>, f: Cell -> int): nat -> int {
    (i: nat) => if i < |cells| then f(cells[i]) else 0
  }

  function None0(): nat -> int { (_: nat) => 0 }

  function ScoreKeys(arm: Arm, cells: seq<Cell>, hash: nat -> nat): Keys {
    match arm
    case UC => Keys(Field(cells, (c: Cell) => -(c.levels as int)), None0())
    case F => Keys(Field(cells, (c: Cell) => -(c.sum as int)), None0())
    case H => Keys((i: nat) => hash(i), None0())
    case _ => Keys(Field(cells, (c: Cell) => -(c.normalized as int)), None0())
  }

  function RareKeys(cells: seq<Cell>, hash: nat -> nat): Keys {
    Keys(Field(cells, (c: Cell) => c.minimum), (i: nat) => hash(i))
  }

  function Reserve(arm: Arm, budget: nat): nat {
    match arm
    case R25 => budget / 4
    case R50 => budget / 2
    case _ => 0
  }

  /** The coordinates an arm reserves before scoring. */
  function Reserved(arm: Arm, cells: seq<Cell>, hash: nat -> nat, budget: nat): seq<nat> {
    Truncate(OrderBy(RareKeys(cells, hash), Support(cells, |cells|)), Reserve(arm, budget))
  }

  /**
   One arm of the projection: strictly increasing, inside the support, of size
   `min(|support|, budget)`, holding every reserved coordinate and otherwise the best by score.
   */
  method ProjectArm(arm: Arm, cells: seq<Cell>, hash: nat -> nat, budget: nat) returns (indices: seq<nat>)
    ensures IsSelection(Support(cells, |cells|), budget, indices)
    ensures forall x :: x in Reserved(arm, cells, hash, budget) ==> x in indices
    ensures Prefers(ScoreKeys(arm, cells, hash), Support(cells, |cells|), indices, Reserved(arm, cells, hash, budget))
  {
    var support := Support(cells, |cells|);
    var score := ScoreKeys(arm, cells, hash);
    if arm == R25 || arm == R50 {
      var rare := RareKeys(cells, hash);
      var order := ReservedOrder(rare, score, support, Reserve(arm, budget));
      indices := Top(order, budget);
      ReservedArm(rare, score, support, Reserve(arm, budget), budget);
    } else {
      indices := Top(OrderBy(score, support), budget);
      PlainArm(score, support, budget);
    }
  }

  // ----- coordinates that occur ----------------------------------------------

  /** Coordinate `i` occurs in one of the first `levels` levels that are not empty. */
  ghost predicate Occurs(counts: seq<seq<nat>>, ns: seq<nat>, dim: nat, i: nat, levels: nat)
    requires Rectangular(counts, ns, dim) && i < dim && levels <= |counts|
  {
    exists l :: 0 <= l < levels && ns[l] > 0 && counts[l][i] > 0
  }

  lemma {:induction false} SumMeansOccurs(counts: seq<seq<nat>>, ns: seq<nat>, dim: nat, common: nat, i: nat,
                                          levels: nat)
    requires Rectangular(counts, ns, dim) && i < dim && levels <= |counts|
    ensures CellAfter(counts, ns, dim, common, i, levels).sum > 0 <==> Occurs(counts, ns, dim, i, levels)
  {
    if levels > 0 { SumMeansOccurs(counts, ns, dim, common, i, levels - 1); }
  }

  ghost predicate IsSupport(counts: seq<seq<nat>>, ns: seq<nat>, dim: nat, support: seq<nat>)
    requires Rectangular(counts, ns, dim)
  {
    Distinct(support) && forall i: nat :: i in support <==> i < dim && Occurs(counts, ns, dim, i, |counts|)
  }

  /** A larger exact score, or the same score and a smaller coordinate. */
  ghost predicate RanksBefore(counts: seq<seq<nat>>, ns: seq<nat>, dim: nat, x: nat, y: nat)
    requires Rectangular(counts, ns, dim) && x < dim && y < dim
  {
    var u, v := Rational(counts, ns, dim, x, |counts|), Rational(counts, ns, dim, y, |counts|);
    u > v || (u == v && x < y)
  }

  ghost predicate Accumulated(counts: seq<seq<nat>>, ns: seq<nat>, dim: nat, common: nat, cells: seq<Cell>) {
    && Rectangular(counts, ns, dim) && |cells| == dim
    && forall i: nat :: i < dim ==> Column(counts, ns, dim, common, cells[i], i, |counts|)
  }

  lemma {:induction false} SupportIsOccurrence(counts: seq<seq<nat>>, ns: seq<nat>, dim: nat, common: nat,
                                               cells: seq<Cell>)
    requires Accumulated(counts, ns, dim, common, cells)
    ensures IsSupport(counts, ns, dim, Support(cells, dim))
  {
    forall i: nat | i < dim ensures cells[i].sum > 0 <==> Occurs(counts, ns, dim, i, |counts|) {
      assert Column(counts, ns, dim, common, cells[i], i, |counts|);
      SumMeansOccurs(counts, ns, dim, common, i, |counts|);
    }
  }

  // ----- what the arms rank by, in terms of the level counts ----------------

  /** The total count of a coordinate over the nonempty levels. */
  ghost function CountSum(counts: seq<seq<nat>>, ns: seq<nat>, dim: nat, i: nat, levels: nat): nat
    requires Rectangular(counts, ns, dim) && i < dim && levels <= |counts|
  {
    if levels == 0 then 0 else
      CountSum(counts, ns, dim, i, levels - 1) + (if ns[levels - 1] == 0 then 0 else counts[levels - 1][i])
  }

  /** How many nonempty levels a coordinate occurs in. */
  ghost function LevelCount(counts: seq<seq<nat>>, ns: seq<nat>, dim: nat, i: nat, levels: nat): nat
    requires Rectangular(counts, ns, dim) && i < dim && levels <= |counts|
  {
    if levels == 0 then 0 else
      LevelCount(counts, ns, dim, i, levels - 1) + (if ns[levels - 1] > 0 && counts[levels - 1][i] > 0 then 1 else 0)
  }

  lemma {:induction false} CellCounts(counts: seq<seq<nat>>, ns: seq<nat>, dim: nat, common: nat, i: nat, levels: nat)
    requires Rectangular(counts, ns, dim) && i < dim && levels <= |counts|
    ensures CellAfter(counts, ns, dim, common, i, levels).sum == CountSum(counts, ns, dim, i, levels)
    ensures CellAfter(counts, ns, dim, common, i, levels).levels == LevelCount(counts, ns, dim, i, levels)
  {
    if levels > 0 { CellCounts(counts, ns, dim, common, i, levels - 1); }
  }

  /** The exact share `count / n` of a coordinate in a level where it occurs. */
  ghost function Share(counts: seq<seq<nat>>, ns: seq<nat>, dim: nat, i: nat, l: nat): real
    requires Rectangular(counts, ns, dim) && i < dim && l < |counts| && ns[l] > 0
  {
    counts[l][i] as real / ns[l] as real
  }

  /** The smallest positive share of a coordinate that occurs. */
  ghost predicate IsLeastShare(counts: seq<seq<nat>>, ns: seq<nat>, dim: nat, i: nat, levels: nat, x: real)
    requires Rectangular(counts, ns, dim) && i < dim && levels <= |counts|
  {
    && (exists l: nat :: l < levels && ns[l] > 0 && counts[l][i] > 0 && x == Share(counts, ns, dim, i, l))
    && (forall l: nat :: l < levels && ns[l] > 0 && counts[l][i] > 0 ==> x <= Share(counts, ns, dim, i, l))
  }

  lemma {:induction false} ScaledShare(common: nat, n: nat, count: nat)
    requires n > 0 && Divides(n, common)
    ensures IsScaled((common / n) * count, common as real, count as real / n as real)
  {
    ExactTerm(common, n, count, 0.0);
    assert 0.0 + count as real / n as real == count as real / n as real;
    assert common as real * 0.0 == 0.0;
  }

  /** A term of a cell that fits is at most the machine maximum. */
  lemma {:induction false} TermFits(cell: Cell, common: nat, n: nat, count: nat)
    requires n > 0 && count > 0 && Fits(AddLevel(cell, common, n, count))
    ensures (common / n) * count <= U128_MAX
  {
  }

  lemma {:induction false} LeastStep(cell: Cell, common: nat, n: nat, count: nat, x: real, least: real)
    requires common > 0 && n > 0 && count > 0 && Divides(n, common) && IsScaled(cell.minimum, common as real, x)
    requires least == (if count as real / n as real < x then count as real / n as real else x)
    ensures IsScaled(AddLevel(cell, common, n, count).minimum, common as real, least)
  {
    ScaledShare(common, n, count);
    ScalingKeepsOrder(common as real, count as real / n as real, x, (common / n) * count, cell.minimum);
  }

  /** The integer minimum of an occurring coordinate is its smallest exact share times the denominator. */
  lemma {:induction false} MinimumIsLeast(counts: seq<seq<nat>>, ns: seq<nat>, dim: nat, common: nat, i: nat,
                                          levels: nat)
    returns (x: real)
    requires Rectangular(counts, ns, dim) && common > 0 && CommonMultiple(common, ns) && i < dim && levels <= |counts|
    requires Fits(CellAfter(counts, ns, dim, common, i, levels))
    ensures !Occurs(counts, ns, dim, i, levels) ==> CellAfter(counts, ns, dim, common, i, levels).minimum == U128_MAX
    ensures Occurs(counts, ns, dim, i, levels) ==> IsLeastShare(counts, ns, dim, i, levels, x)
    ensures Occurs(counts, ns, dim, i, levels) ==>
              IsScaled(CellAfter(counts, ns, dim, common, i, levels).minimum, common as real, x)
  {
    x := 0.0;
    if levels > 0 {
      var l: nat := levels - 1;
      var cell, n, count := CellAfter(counts, ns, dim, common, i, l), ns[l], counts[l][i];
      CellGrows(counts, ns, dim, common, i, l, levels);
      x := MinimumIsLeast(counts, ns, dim, common, i, l);
      if n > 0 && count > 0 {
        assert Occurs(counts, ns, dim, i, levels);
        var share := Share(counts, ns, dim, i, l);
        TermFits(cell, common, n, count);
        if Occurs(counts, ns, dim, i, l) {
          var least := if share < x then share else x;
          LeastStep(cell, common, n, count, x, least);
          x := least;
        } else {
          ScaledShare(common, n, count);
          x := share;
        }
      }
    }
  }

  // ----- the order of each arm ----------------------------------------------

  /** The order by which an arm chooses outside its reserve, in terms of the level counts. */
  ghost predicate ArmBefore(arm: Arm, counts: seq<seq<nat>>, ns: seq<nat>, dim: nat, hash: nat -> nat, x: nat, y: nat)
    requires Rectangular(counts, ns, dim) && x < dim && y < dim
  {
    var n := |counts|;
    match arm
    case UC =>
      var u, v := LevelCount(counts, ns, dim, x, n), LevelCount(counts, ns, dim, y, n);
      u > v || (u == v && x < y)
    case F =>
      var u, v := CountSum(counts, ns, dim, x, n), CountSum(counts, ns, dim, y, n);
      u > v || (u == v && x < y)
    case H => hash(x) < hash(y) || (hash(x) == hash(y) && x < y)
    case _ => RanksBefore(counts, ns, dim, x, y)
  }

  /** The order of the reserve: the smaller least share first, then hash, then coordinate. */
  ghost predicate Rarer(counts: seq<seq<nat>>, ns: seq<nat>, dim: nat, hash: nat -> nat, x: nat, y: nat)
    requires Rectangular(counts, ns, dim) && x < dim && y < dim
  {
    forall u, v :: IsLeastShare(counts, ns, dim, x, |counts|, u) && IsLeastShare(counts, ns, dim, y, |counts|, v) ==>
      u < v || (u == v && (hash(x) < hash(y) || (hash(x) == hash(y) && x < y)))
  }

  lemma {:induction false} ArmRanksExactly(arm: Arm, counts: seq<seq<nat>>, ns: seq<nat>, dim: nat, common: nat,
                                           cells: seq<Cell>, hash: nat -> nat, x: nat, y: nat)
    requires Accumulated(counts, ns, dim, common, cells) && common > 0 && CommonMultiple(common, ns)
    requires x < dim && y < dim && x != y && KeyLe(ScoreKeys(arm, cells, hash), x, y)
    ensures ArmBefore(arm, counts, ns, dim, hash, x, y)
  {
    assert Column(counts, ns, dim, common, cells[x], x, |counts|);
    assert Column(counts, ns, dim, common, cells[y], y, |counts|);
    match arm
    case H =>
    case UC =>
      CellCounts(counts, ns, dim, common, x, |counts|);
      CellCounts(counts, ns, dim, common, y, |counts|);
    case F =>
      CellCounts(counts, ns, dim, common, x, |counts|);
      CellCounts(counts, ns, dim, common, y, |counts|);
    case _ =>
      NormalizedOrderIsExact(counts, ns, dim, common, x, y);
      NormalizedOrderIsExact(counts, ns, dim, common, y, x);
  }

  lemma {:induction false} LeastShareUnique(counts: seq<seq<nat>>, ns: seq<nat>, dim: nat, i: nat, levels: nat,
                                            x: real, y: real)
    requires Rectangular(counts, ns, dim) && i < dim && levels <= |counts|
    requires IsLeastShare(counts, ns, dim, i, levels, x) && IsLeastShare(counts, ns, dim, i, levels, y)
    ensures x == y
  {
  }

  lemma {:induction false} RareRanksExactly(counts: seq<seq<nat>>, ns: seq<nat>, dim: nat, common: nat,
                                            cells: seq<Cell>, hash: nat -> nat, x: nat, y: nat)
    requires Accumulated(counts, ns, dim, common, cells) && common > 0 && CommonMultiple(common, ns)
    requires x < dim && y < dim && x != y && KeyLe(RareKeys(cells, hash), x, y)
    requires Occurs(counts, ns, dim, x, |counts|) && Occurs(counts, ns, dim, y, |counts|)
    ensures Rarer(counts, ns, dim, hash, x, y)
  {
    var n := |counts|;
    assert Column(counts, ns, dim, common, cells[x], x, n) && Column(counts, ns, dim, common, cells[y], y, n);
    var u := MinimumIsLeast(counts, ns, dim, common, x, n);
    var v := MinimumIsLeast(counts, ns, dim, common, y, n);
    ScalingKeepsOrder(common as real, u, v, cells[x].minimum, cells[y].minimum);
    forall a, b | IsLeastShare(counts, ns, dim, x, n, a) && IsLeastShare(counts, ns, dim, y, n, b)
      ensures a < b || (a == b && (hash(x) < hash(y) || (hash(x) == hash(y) && x < y)))
    {
      LeastShareUnique(counts, ns, dim, x, n, a, u);
      LeastShareUnique(counts, ns, dim, y, n, b, v);
    }
  }

  // ----- the whole projection ----------------------------------------------

  /** How many coordinates an arm reserves: a quarter or half of the budget, or none. */
  ghost predicate ReserveSize(arm: Arm, budget: nat, available: nat, size: nat) {
    match arm
    case R25 => size == if available < budget / 4 then available else budget / 4
    case R50 => size == if available < budget / 2 then available else budget / 2
    case _ => size == 0
  }

  /** The reserve of an arm: the rarest coordinates that occur, as many as it may hold. */
  ghost predicate IsReserve(arm: Arm, counts: seq<seq<nat>>, ns: seq<nat>, dim: nat, hash: nat -> nat, budget: nat,
                            support: seq<nat>, reserved: seq<nat>)
    requires Rectangular(counts, ns, dim)
  {
    && Distinct(reserved) && (forall x :: x in reserved ==> x in support)
    && ReserveSize(arm, budget, |support|, |reserved|)
    && forall x, y :: x in reserved && y in support && y !in reserved ==>
         x < dim && y < dim && Rarer(counts, ns, dim, hash, x, y)
  }

  /** What an arm's indices are, in terms of the level counts alone. */
  ghost predicate Projects(arm: Arm, counts: seq<seq<nat>>, ns: seq<nat>, dim: nat, hash: nat -> nat, budget: nat,
                           support: seq<nat>, reserved: seq<nat>, indices: seq<nat>)
    requires Rectangular(counts, ns, dim)
  {
    && IsSupport(counts, ns, dim, support) && IsSelection(support, budget, indices)
    && IsReserve(arm, counts, ns, dim, hash, budget, support, reserved)
    && (forall x :: x in reserved ==> x in indices)
    && forall x, y :: x in indices && x !in reserved && y in support && y !in indices ==>
         x < dim && y < dim && ArmBefore(arm, counts, ns, dim, hash, x, y)
  }

  lemma {:induction false} ReservedIsReserve(arm: Arm, counts: seq<seq<nat>>, ns: seq<nat>, dim: nat, common: nat,
                                             cells: seq<Cell>, hash: nat -> nat, budget: nat)
    requires Accumulated(counts, ns, dim, common, cells) && common > 0 && CommonMultiple(common, ns)
    ensures IsReserve(arm, counts, ns, dim, hash, budget, Support(cells, dim), Reserved(arm, cells, hash, budget))
  {
    var support, rare, n := Support(cells, dim), RareKeys(cells, hash), Reserve(arm, budget);
    var order := OrderBy(rare, support);
    var reserved := Truncate(order, n);
    OrderFacts(rare, support);
    DistinctPrefix(order, n);
    SupportIsOccurrence(counts, ns, dim, common, cells);
    assert forall x :: x in reserved ==> x in order;
    forall x, y | x in reserved && y in support && y !in reserved
      ensures x < dim && y < dim && Rarer(counts, ns, dim, hash, x, y)
    {
      TruncatedBefore(rare, support, n, x, y);
      RareRanksExactly(counts, ns, dim, common, cells, hash, x, y);
    }
  }

  lemma {:induction false} ArmProjects(arm: Arm, counts: seq<seq<nat>>, ns: seq<nat>, dim: nat, common: nat,
                                       cells: seq<Cell>, hash: nat -> nat, budget: nat, indices: seq<nat>)
    requires Accumulated(counts, ns, dim, common, cells) && common > 0 && CommonMultiple(common, ns)
    requires IsSelection(Support(cells, dim), budget, indices)
    requires forall x :: x in Reserved(arm, cells, hash, budget) ==> x in indices
    requires Prefers(ScoreKeys(arm, cells, hash), Support(cells, dim), indices, Reserved(arm, cells, hash, budget))
    ensures Projects(arm, counts, ns, dim, hash, budget,
                     Support(cells, dim), Reserved(arm, cells, hash, budget), indices)
  {
    var support, reserved := Support(cells, dim), Reserved(arm, cells, hash, budget);
    SupportIsOccurrence(counts, ns, dim, common, cells);
    ReservedIsReserve(arm, counts, ns, dim, common, cells, hash, budget);
    forall x, y | x in indices && x !in reserved && y in support && y !in indices
      ensures x < dim && y < dim && ArmBefore(arm, counts, ns, dim, hash, x, y)
    {
      assert x in support;
      ArmRanksExactly(arm, counts, ns, dim, common, cells, hash, x, y);
    }
  }

  /**
   Normalization, accumulation and one arm: an error exactly when a machine type would overflow.
   Otherwise the indices are a selection of the coordinates that occur, holding the arm's
   reserve and besides it the first by the arm's order: levels for UC, exact counts for F, exact
   sums of count over level size for FN, R25 and R50, hashes for H. The reserve of R25 and R50
   are the coordinates with the smallest positive count over level size.
   */
  method Project(arm: Arm, counts: seq<seq<nat>>, ns: seq<nat>, dim: nat, hash: nat -> nat, budget: nat)
    returns (r: Option<seq<nat>>)
    requires Rectangular(counts, ns, dim)
    ensures r.None? <==> Denominator(ns) > U128_MAX
                         || exists i: nat :: i < dim && Overflows(counts, ns, dim, Denominator(ns), i, |counts|)
    ensures r.Some? ==> exists support, reserved ::
              Projects(arm, counts, ns, dim, hash, budget, support, reserved, r.value)
  {
    var common := CheckedDenominator(ns);
    if common.None? { return None; }
    var cells := Accumulate(counts, ns, dim, common.value);
    if cells.None? { return None; }
    var indices := ProjectArm(arm, cells.value, hash, budget);
    ArmProjects(arm, counts, ns, dim, common.value, cells.value, hash, budget, indices);
    r := Some(indices);
  }
}
