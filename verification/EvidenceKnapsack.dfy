/**
 The exact evidence selector of benchmarks/public/check_evidence_budget.py: a
 meet-in-the-middle knapsack over half enumerations, a running prefix-best table and
 a binary search. `Optimize` is proved to return the best of all feasible selections.
 */
module EvidenceKnapsack {
  import opened Ordering
  import opened Arithmetic

  /** A partial selection: `(used, value, chosen)` in the source. */
  datatype State = State(used: int, value: int, chosen: seq<nat>)

  // ----- selections -------------------------------------------------------

  /** A selection is a strictly increasing tuple of indices in `[lo, hi)`. */
  ghost predicate IsSelection(c: seq<nat>, lo: nat, hi: nat) {
    && (forall i :: 0 <= i < |c| ==> lo <= c[i] < hi)
    && (forall i, j :: 0 <= i < j < |c| ==> c[i] < c[j])
  }

  ghost predicate InRange(c: seq<nat>, n: nat) {
    forall k :: 0 <= k < |c| ==> c[k] < n
  }

  /** The sum of `xs` over the indices of a selection. */
  function Total(xs: seq<int>, c: seq<nat>): int
    requires InRange(c, |xs|)
  {
    if c == [] then 0 else
      Total(xs, c[..|c| - 1]) + xs[c[|c| - 1]]
  }

  lemma {:induction false} TotalNonnegative(xs: seq<int>, c: seq<nat>)
    requires InRange(c, |xs|) && forall k :: 0 <= k < |xs| ==> xs[k] >= 0
    ensures Total(xs, c) >= 0
  {
    if c != [] { TotalNonnegative(xs, c[..|c| - 1]); }
  }

  lemma {:induction false} TotalConcat(xs: seq<int>, a: seq<nat>, b: seq<nat>)
    requires InRange(a + b, |xs|)
    ensures InRange(a, |xs|) && InRange(b, |xs|)
    ensures Total(xs, a + b) == Total(xs, a) + Total(xs, b)
  {
    assert forall k :: 0 <= k < |a| ==> a[k] == (a + b)[k];
    assert forall k :: 0 <= k < |b| ==> b[k] == (a + b)[|a| + k];
    if b == [] {
      assert a + b == a;
    } else {
      assert (a + b)[..|a + b| - 1] == a + b[..|b| - 1];
      TotalConcat(xs, a, b[..|b| - 1]);
    }
  }

  lemma {:induction false} TotalAppend(xs: seq<int>, c: seq<nat>, i: nat)
    requires InRange(c, |xs|) && i < |xs|
    ensures InRange(c + [i], |xs|) && Total(xs, c + [i]) == Total(xs, c) + xs[i]
  {
    assert (c + [i])[..|c|] == c;
  }

  ghost function TotalReal(ws: seq<real>, c: seq<nat>): real
    requires InRange(c, |ws|)
  {
    if c == [] then 0.0 else TotalReal(ws, c[..|c| - 1]) + ws[c[|c| - 1]]
  }

  ghost function Reciprocals(ranks: seq<nat>): seq<real> {
    seq(|ranks|, i requires 0 <= i < |ranks| => 1.0 / (ranks[i] + 1) as real)
  }

  /** The sum of reciprocal ranks that the selector maximises, exactly. */
  ghost function Benefit(ranks: seq<nat>, c: seq<nat>): real
    requires InRange(c, |ranks|)
  {
    TotalReal(Reciprocals(ranks), c)
  }

  ghost predicate Feasible(costs: seq<int>, limit: int, c: seq<nat>) {
    && IsSelection(c, 0, |costs|)
    && c != [] && c[0] == 0
    && Total(costs, c) <= limit
  }

  /** `a` is at least as good as `b`: more benefit, then cheaper, then first in tuple order. */
  ghost predicate AtLeastAsGood(costs: seq<int>, ranks: seq<nat>, a: seq<nat>, b: seq<nat>)
    requires |costs| == |ranks|
    requires IsSelection(a, 0, |costs|) && IsSelection(b, 0, |costs|)
  {
    || Benefit(ranks, a) > Benefit(ranks, b)
    || (Benefit(ranks, a) == Benefit(ranks, b)
        && (Total(costs, a) < Total(costs, b) || (Total(costs, a) == Total(costs, b) && LexLe(a, b))))
  }

  // ----- integer values stand for reciprocal ranks -------------------------

  /** Each integer value is the same multiple `d` of its weight. */
  ghost predicate Scaled(d: real, values: seq<int>, ws: seq<real>) {
    && d > 0.0 && |values| == |ws|
    && forall i :: 0 <= i < |ws| ==> IsScaled(values[i], d, ws[i])
  }

  ghost predicate ScaledTotal(d: real, values: seq<int>, ws: seq<real>, c: seq<nat>)
    requires InRange(c, |ws|) && InRange(c, |values|)
  {
    IsScaled(Total(values, c), d, TotalReal(ws, c))
  }

  lemma {:induction false} TotalIsScaled(d: real, values: seq<int>, ws: seq<real>, c: seq<nat>)
    requires Scaled(d, values, ws) && InRange(c, |ws|)
    ensures ScaledTotal(d, values, ws, c)
  {
    if c != [] {
      var i := c[|c| - 1];
      TotalIsScaled(d, values, ws, c[..|c| - 1]);
      assert IsScaled(values[i], d, ws[i]);
    }
  }

  /** Comparing integer totals compares exact real totals. */
  lemma {:induction false} ScaledOrder(d: real, values: seq<int>, ws: seq<real>, a: seq<nat>, b: seq<nat>)
    requires Scaled(d, values, ws) && InRange(a, |ws|) && InRange(b, |ws|)
    ensures Total(values, a) < Total(values, b) <==> TotalReal(ws, a) < TotalReal(ws, b)
    ensures Total(values, a) == Total(values, b) <==> TotalReal(ws, a) == TotalReal(ws, b)
  {
    assert ScaledTotal(d, values, ws, a) by { TotalIsScaled(d, values, ws, a); }
    assert ScaledTotal(d, values, ws, b) by { TotalIsScaled(d, values, ws, b); }
    OrderFromTotals(d, values, ws, a, b);
  }

  lemma {:induction false} OrderFromTotals(d: real, values: seq<int>, ws: seq<real>, a: seq<nat>, b: seq<nat>)
    requires d > 0.0 && |values| == |ws| && InRange(a, |ws|) && InRange(b, |ws|)
    requires ScaledTotal(d, values, ws, a) && ScaledTotal(d, values, ws, b)
    ensures Total(values, a) < Total(values, b) <==> TotalReal(ws, a) < TotalReal(ws, b)
    ensures Total(values, a) == Total(values, b) <==> TotalReal(ws, a) == TotalReal(ws, b)
  {
    ScalingKeepsOrder(d, TotalReal(ws, a), TotalReal(ws, b), Total(values, a), Total(values, b));
  }

  /** A reciprocal rank times a multiple of its denominator is an integer. */
  lemma {:induction false} ReciprocalIsScaled(n: nat, denominator: nat)
    requires n > 0 && Divides(n, denominator)
    ensures IsScaled(denominator / n, denominator as real, 1.0 / n as real)
  {
    var q := denominator / n;
    assert denominator == n * q;
    var x, y := n as real, q as real;
    assert denominator as real == x * y;
    InverseCancels(x, y);
  }

  lemma {:induction false} InverseCancels(x: real, y: real)
    requires x > 0.0
    ensures (x * y) * (1.0 / x) == y
  {
    var inverse := 1.0 / x;
    assert x * inverse == 1.0;
    assert (x * y) * inverse == y * (x * inverse);
  }

  /** The common denominator makes every `1 / (rank + 1)` an integer. */
  method ReciprocalValues(ranks: seq<nat>) returns (denominator: nat, values: seq<int>)
    ensures Scaled(denominator as real, values, Reciprocals(ranks))
  {
    var shifted := seq(|ranks|, i requires 0 <= i < |ranks| => ranks[i] + 1);
    denominator := LcmAll(shifted);
    values := [];
    for k := 0 to |ranks|
      invariant |values| == k
      invariant forall i :: 0 <= i < k ==> IsScaled(values[i], denominator as real, Reciprocals(ranks)[i])
    {
      var n := ranks[k] + 1;
      assert shifted[k] == n && n in shifted;
      ReciprocalIsScaled(n, denominator);
      values := values + [denominator / n];
    }
  }

  // ----- half enumeration --------------------------------------------------

  /** `st` is the record of one selection from `[lo, hi)` that costs at most `available`. */
  ghost predicate IsState(costs: seq<int>, values: seq<int>, available: int, lo: nat, hi: nat, st: State)
    requires hi <= |costs| == |values|
  {
    && IsSelection(st.chosen, lo, hi)
    && st.used == Total(costs, st.chosen) <= available
    && st.value == Total(values, st.chosen)
  }

  function Extend(costs: seq<int>, values: seq<int>, st: State, i: nat): State
    requires i < |costs| == |values|
  {
    State(st.used + costs[i], st.value + values[i], st.chosen + [i])
  }

  ghost predicate ExtendsSome(costs: seq<int>, values: seq<int>, available: int, states: seq<State>, i: nat, st: State)
    requires i < |costs| == |values|
  {
    exists k :: 0 <= k < |states| && states[k].used + costs[i] <= available && st == Extend(costs, values, states[k], i)
  }

  /** Removing a final index `i` from an affordable selection leaves an affordable one. */
  lemma {:induction false} DropLast(costs: seq<int>, values: seq<int>, available: int, lo: nat, i: nat, st: State)
    returns (before: State)
    requires lo <= i < |costs| == |values| && costs[i] >= 0
    requires IsState(costs, values, available, lo, i + 1, st)
    requires st.chosen != [] && st.chosen[|st.chosen| - 1] == i
    ensures IsState(costs, values, available, lo, i, before)
    ensures before.used + costs[i] <= available && st == Extend(costs, values, before, i)
  {
    var front := st.chosen[..|st.chosen| - 1];
    before := State(Total(costs, front), Total(values, front), front);
    assert st.chosen == front + [i];
  }

  lemma {:induction false} AddLast(costs: seq<int>, values: seq<int>, available: int, lo: nat, i: nat, before: State)
    requires lo <= i < |costs| == |values|
    requires IsState(costs, values, available, lo, i, before) && before.used + costs[i] <= available
    ensures IsState(costs, values, available, lo, i + 1, Extend(costs, values, before, i))
  {
    var c := before.chosen + [i];
    assert IsSelection(c, lo, i + 1);
    assert Total(costs, c) == before.used + costs[i] by { TotalAppend(costs, before.chosen, i); }
    assert Total(values, c) == before.value + values[i] by { TotalAppend(values, before.chosen, i); }
  }

  /** Selections from `[lo, i]` are those from `[lo, i)` plus their affordable extensions by `i`. */
  lemma {:induction false} OneMoreIndex(costs: seq<int>, values: seq<int>, available: int, lo: nat, i: nat,
                                        states: seq<State>, st: State)
    requires lo <= i < |costs| == |values| && costs[i] >= 0
    requires forall s :: s in states <==> IsState(costs, values, available, lo, i, s)
    ensures IsState(costs, values, available, lo, i + 1, st)
            <==> st in states || ExtendsSome(costs, values, available, states, i, st)
  {
    var c := st.chosen;
    if IsState(costs, values, available, lo, i + 1, st) {
      if c != [] && c[|c| - 1] == i {
        var before := DropLast(costs, values, available, lo, i, st);
        assert before in states;
        var k :| 0 <= k < |states| && states[k] == before;
      } else {
        assert IsState(costs, values, available, lo, i, st);
      }
    }
    if ExtendsSome(costs, values, available, states, i, st) {
      var k :| 0 <= k < |states| && states[k].used + costs[i] <= available && st == Extend(costs, values, states[k], i);
      assert states[k] in states;
      AddLast(costs, values, available, lo, i, states[k]);
    }
  }

  /** Enumerates one half; pruning by cost loses no affordable selection. */
  method EnumerateHalf(costs: seq<int>, values: seq<int>, available: int, lo: nat, hi: nat) returns (states: seq<State>)
    requires lo <= hi <= |costs| == |values| && available >= 0
    requires forall k :: 0 <= k < |costs| ==> costs[k] >= 0
    ensures forall st :: st in states <==> IsState(costs, values, available, lo, hi, st)
  {
    states := [State(0, 0, [])];
    for i := lo to hi
      invariant forall st :: st in states <==> IsState(costs, values, available, lo, i, st)
    {
      var added: seq<State> := [];
      for k := 0 to |states|
        invariant forall st :: st in added <==> ExtendsSome(costs, values, available, states[..k], i, st)
      {
        ghost var before := added;
        if states[k].used + costs[i] <= available {
          added := added + [Extend(costs, values, states[k], i)];
        }
        forall st ensures st in added <==> ExtendsSome(costs, values, available, states[..k + 1], i, st) {
          OneMoreState(costs, values, available, states, k, i, st);
          assert st in before <==> ExtendsSome(costs, values, available, states[..k], i, st);
        }
      }
      assert states[..|states|] == states;
      forall st ensures st in states + added <==> IsState(costs, values, available, lo, i + 1, st) {
        OneMoreIndex(costs, values, available, lo, i, states, st);
      }
      states := states + added;
    }
  }

  lemma {:induction false} OneMoreState(costs: seq<int>, values: seq<int>, available: int, states: seq<State>, k: nat,
                                        i: nat, st: State)
    requires i < |costs| == |values| && k < |states|
    ensures ExtendsSome(costs, values, available, states[..k + 1], i, st)
            <==> ExtendsSome(costs, values, available, states[..k], i, st)
                 || (states[k].used + costs[i] <= available && st == Extend(costs, values, states[k], i))
  {
    var longer, shorter := states[..k + 1], states[..k];
    assert longer == shorter + [states[k]];
    if ExtendsSome(costs, values, available, shorter, i, st) {
      var j :| 0 <= j < |shorter| && shorter[j].used + costs[i] <= available
               && st == Extend(costs, values, shorter[j], i);
      assert longer[j] == shorter[j];
    }
    if states[k].used + costs[i] <= available && st == Extend(costs, values, states[k], i) {
      assert longer[k] == states[k];
    }
    if ExtendsSome(costs, values, available, longer, i, st) {
      var j :| 0 <= j < |longer| && longer[j].used + costs[i] <= available && st == Extend(costs, values, longer[j], i);
      if j < k { assert shorter[j] == longer[j]; }
    }
  }

  // ----- the orders of the two tables --------------------------------------

  /** Python's order on `(used, value, chosen)`, by which the right half is sorted. */
  predicate StateLe(a: State, b: State) {
    a.used < b.used || (a.used == b.used && (a.value < b.value || (a.value == b.value && LexLe(a.chosen, b.chosen))))
  }

  /** The order of preference `(-value, used, chosen)`. */
  predicate KeyLe(a: State, b: State) {
    a.value > b.value || (a.value == b.value && (a.used < b.used || (a.used == b.used && LexLe(a.chosen, b.chosen))))
  }

  lemma {:induction false} StateLeTotalOrder()
    ensures TotalOrder(StateLe)
  {
    forall a, b ensures StateLe(a, b) || StateLe(b, a) { LexTotal(a.chosen, b.chosen); }
    forall a, b | StateLe(a, b) && StateLe(b, a) ensures a == b { LexAntisymmetric(a.chosen, b.chosen); }
    forall a, b, c | StateLe(a, b) && StateLe(b, c) ensures StateLe(a, c) {
      if LexLe(a.chosen, b.chosen) && LexLe(b.chosen, c.chosen) { LexTransitive(a.chosen, b.chosen, c.chosen); }
    }
  }

  lemma {:induction false} KeyLeTotalOrder()
    ensures TotalOrder(KeyLe)
  {
    forall a, b ensures KeyLe(a, b) || KeyLe(b, a) { LexTotal(a.chosen, b.chosen); }
    forall a, b | KeyLe(a, b) && KeyLe(b, a) ensures a == b { LexAntisymmetric(a.chosen, b.chosen); }
    forall a, b, c | KeyLe(a, b) && KeyLe(b, c) ensures KeyLe(a, c) {
      if LexLe(a.chosen, b.chosen) && LexLe(b.chosen, c.chosen) { LexTransitive(a.chosen, b.chosen, c.chosen); }
    }
  }

  /** The running best: entry `j` is the preferred state among the first `j + 1`. */
  method PrefixBest(right: seq<State>) returns (prefix: seq<State>)
    ensures |prefix| == |right|
    ensures forall j :: 0 <= j < |right| ==> prefix[j] in right[..j + 1]
    ensures forall j, m :: 0 <= m <= j < |right| ==> KeyLe(prefix[j], right[m])
  {
    KeyLeTotalOrder();
    prefix := [];
    for k := 0 to |right|
      invariant |prefix| == k
      invariant forall j :: 0 <= j < k ==> prefix[j] in right[..j + 1]
      invariant forall j, m :: 0 <= m <= j < k ==> KeyLe(prefix[j], right[m])
    {
      assert right[..k + 1] == right[..k] + [right[k]];
      var best := if k == 0 || !KeyLe(prefix[k - 1], right[k]) then right[k] else prefix[k - 1];
      prefix := prefix + [best];
    }
  }

  /** `bisect.bisect_right` on a nondecreasing list. */
  method BisectRight(xs: seq<int>, x: int) returns (pos: nat)
    requires forall i, j :: 0 <= i < j < |xs| ==> xs[i] <= xs[j]
    ensures pos <= |xs|
    ensures forall i :: 0 <= i < |xs| ==> (i < pos <==> xs[i] <= x)
  {
    pos := 0;
    var hi := |xs|;
    while pos < hi
      invariant pos <= hi <= |xs|
      invariant forall i :: 0 <= i < pos ==> xs[i] <= x
      invariant forall i :: hi <= i < |xs| ==> x < xs[i]
    {
      var mid := (pos + hi) / 2;
      if x < xs[mid] { hi := mid; } else { pos := mid + 1; }
    }
  }

  /** `min` over preference keys. */
  method Preferred(choices: seq<State>) returns (best: State)
    requires choices != []
    ensures best in choices
    ensures forall k :: 0 <= k < |choices| ==> KeyLe(best, choices[k])
  {
    KeyLeTotalOrder();
    best := choices[0];
    for k := 1 to |choices|
      invariant best in choices
      invariant forall j :: 0 <= j < k ==> KeyLe(best, choices[j])
    {
      if !KeyLe(best, choices[k]) { best := choices[k]; }
    }
  }

  // ----- combining the halves ----------------------------------------------

  function Combine(left: State, right: State): State {
    State(left.used + right.used, left.value + right.value, [0] + left.chosen + right.chosen)
  }

  lemma {:induction false} CombineMonotone(left: State, a: State, b: State)
    requires KeyLe(a, b)
    ensures KeyLe(Combine(left, a), Combine(left, b))
  {
    LexPrefix([0] + left.chosen, a.chosen, b.chosen);
  }

  /** Every selection splits at `middle` into one from each half. */
  lemma {:induction false} SplitSelection(c: seq<nat>, lo: nat, middle: nat, hi: nat) returns (k: nat)
    requires IsSelection(c, lo, hi)
    ensures k <= |c| && IsSelection(c[..k], lo, middle) && IsSelection(c[k..], middle, hi)
  {
    k := 0;
    while k < |c| && c[k] < middle
      invariant k <= |c|
      invariant forall i :: 0 <= i < k ==> c[i] < middle
    {
      k := k + 1;
    }
  }

  ghost predicate IsChoice(costs: seq<int>, values: seq<int>, limit: int, st: State)
    requires |costs| == |values| > 0
  {
    && Feasible(costs, limit, st.chosen)
    && st.used + costs[0] == Total(costs, st.chosen)
    && st.value + values[0] == Total(values, st.chosen)
  }

  lemma {:induction false} TotalCombined(xs: seq<int>, l: seq<nat>, r: seq<nat>)
    requires |xs| > 0 && InRange([0] + l + r, |xs|)
    ensures InRange(l, |xs|) && InRange(r, |xs|)
    ensures Total(xs, [0] + l + r) == xs[0] + Total(xs, l) + Total(xs, r)
  {
    TotalConcat(xs, [0] + l, r);
    TotalConcat(xs, [0], l);
    assert Total(xs, [0]) == xs[0];
  }

  lemma {:induction false} CombinedSelection(l: seq<nat>, r: seq<nat>, middle: nat, n: nat)
    requires 1 <= middle <= n && IsSelection(l, 1, middle) && IsSelection(r, middle, n)
    ensures IsSelection([0] + l + r, 0, n)
  {
    var c := [0] + l + r;
    forall i, j | 0 <= i < j < |c| ensures c[i] < c[j] {}
  }

  lemma {:induction false} CombineIsChoice(costs: seq<int>, values: seq<int>, limit: int, middle: nat, left: State,
                                           right: State)
    requires |costs| == |values| > 0 && 1 <= middle <= |costs|
    requires IsState(costs, values, limit - costs[0], 1, middle, left)
    requires IsState(costs, values, limit - costs[0], middle, |costs|, right)
    requires left.used + right.used <= limit - costs[0]
    ensures IsChoice(costs, values, limit, Combine(left, right))
  {
    CombinedSelection(left.chosen, right.chosen, middle, |costs|);
    TotalCombined(costs, left.chosen, right.chosen);
    TotalCombined(values, left.chosen, right.chosen);
  }

  /** Every feasible selection is the combination of two enumerated states. */
  lemma {:induction false} FeasibleIsCombined(costs: seq<int>, values: seq<int>, limit: int, middle: nat, c: seq<nat>)
    returns (left: State, right: State)
    requires |costs| == |values| > 0 && 1 <= middle <= |costs|
    requires forall k :: 0 <= k < |costs| ==> costs[k] >= 0
    requires Feasible(costs, limit, c)
    ensures IsState(costs, values, limit - costs[0], 1, middle, left)
    ensures IsState(costs, values, limit - costs[0], middle, |costs|, right)
    ensures left.used + right.used <= limit - costs[0]
    ensures Combine(left, right).chosen == c && IsChoice(costs, values, limit, Combine(left, right))
  {
    var tail := c[1..];
    var k := SplitSelection(tail, 1, middle, |costs|);
    var l, r := tail[..k], tail[k..];
    assert c == [0] + l + r;
    TotalCombined(costs, l, r);
    left := State(Total(costs, l), Total(values, l), l);
    right := State(Total(costs, r), Total(values, r), r);
    TotalNonnegative(costs, l);
    TotalNonnegative(costs, r);
    CombineIsChoice(costs, values, limit, middle, left, right);
  }

  /** The preference order on states is the exact order on selections. */
  lemma {:induction false} KeyOrderIsExact(costs: seq<int>, ranks: seq<nat>, d: real, values: seq<int>, limit: int,
                                           a: State, b: State)
    requires |costs| == |ranks| > 0 && Scaled(d, values, Reciprocals(ranks))
    requires IsChoice(costs, values, limit, a) && IsChoice(costs, values, limit, b)
    requires KeyLe(a, b)
    ensures AtLeastAsGood(costs, ranks, a.chosen, b.chosen)
  {
    ScaledOrder(d, values, Reciprocals(ranks), b.chosen, a.chosen);
  }

  /** One choice per left state: the preferred affordable right state, found by bisection. */
  method Choices(costs: seq<int>, values: seq<int>, limit: int, middle: nat, left: seq<State>, right: seq<State>)
    returns (choices: seq<State>)
    requires |costs| == |values| > 0 && 1 <= middle <= |costs| && costs[0] <= limit
    requires forall k :: 0 <= k < |costs| ==> costs[k] >= 0
    requires forall st :: st in left <==> IsState(costs, values, limit - costs[0], 1, middle, st)
    requires forall st :: st in right <==> IsState(costs, values, limit - costs[0], middle, |costs|, st)
    requires SortedBy(right, StateLe)
    ensures |choices| == |left|
    ensures forall j :: 0 <= j < |left| ==> IsChoice(costs, values, limit, choices[j])
    ensures forall j, m :: 0 <= j < |left| && 0 <= m < |right| && left[j].used + right[m].used <= limit - costs[0]
                           ==> KeyLe(choices[j], Combine(left[j], right[m]))
  {
    var available := limit - costs[0];
    var prefix := PrefixBest(right);
    var rightCosts := seq(|right|, i requires 0 <= i < |right| => right[i].used);
    choices := [];
    for k := 0 to |left|
      invariant |choices| == k
      invariant forall j :: 0 <= j < k ==> IsChoice(costs, values, limit, choices[j])
      invariant forall j, m :: 0 <= j < k && 0 <= m < |right| && left[j].used + right[m].used <= available
                               ==> KeyLe(choices[j], Combine(left[j], right[m]))
    {
      assert left[k] in left;
      var pos := BisectRight(rightCosts, available - left[k].used);
      assert pos > 0 by {
        assert IsState(costs, values, available, middle, |costs|, State(0, 0, []));
        assert State(0, 0, []) in right;
        var e :| 0 <= e < |right| && right[e] == State(0, 0, []);
        assert rightCosts[e] == 0;
      }
      var other := prefix[pos - 1];
      assert other in right && other.used <= available - left[k].used by {
        var e :| 0 <= e < |right[..pos]| && right[..pos][e] == other;
        assert rightCosts[e] == other.used;
      }
      CombineIsChoice(costs, values, limit, middle, left[k], other);
      forall m | 0 <= m < |right| && left[k].used + right[m].used <= available
        ensures KeyLe(Combine(left[k], other), Combine(left[k], right[m]))
      {
        assert rightCosts[m] == right[m].used;
        CombineMonotone(left[k], other, right[m]);
      }
      choices := choices + [Combine(left[k], other)];
    }
  }

  /** A state at least as good as every choice is at least as good as every feasible selection. */
  lemma {:induction false} BestBeats(costs: seq<int>, ranks: seq<nat>, d: real, values: seq<int>, limit: int,
                                     middle: nat, left: seq<State>, right: seq<State>, choices: seq<State>,
                                     best: State, c: seq<nat>)
    requires |costs| == |ranks| == |values| > 0 && 1 <= middle <= |costs| && Scaled(d, values, Reciprocals(ranks))
    requires forall k :: 0 <= k < |costs| ==> costs[k] >= 0
    requires forall st :: IsState(costs, values, limit - costs[0], 1, middle, st) ==> st in left
    requires forall st :: IsState(costs, values, limit - costs[0], middle, |costs|, st) ==> st in right
    requires |choices| == |left| && IsChoice(costs, values, limit, best)
    requires forall j :: 0 <= j < |choices| ==> KeyLe(best, choices[j])
    requires forall j, m :: 0 <= j < |left| && 0 <= m < |right| && left[j].used + right[m].used <= limit - costs[0]
                            ==> KeyLe(choices[j], Combine(left[j], right[m]))
    requires Feasible(costs, limit, c)
    ensures AtLeastAsGood(costs, ranks, best.chosen, c)
  {
    var l, r := FeasibleIsCombined(costs, values, limit, middle, c);
    assert l in left && r in right;
    var j :| 0 <= j < |left| && left[j] == l;
    var m :| 0 <= m < |right| && right[m] == r;
    KeyLeTotalOrder();
    assert KeyLe(best, choices[j]) && KeyLe(choices[j], Combine(l, r));
    KeyOrderIsExact(costs, ranks, d, values, limit, best, Combine(l, r));
  }

  /**
   The selector: among all feasible selections (strictly increasing, containing index 0,
   total cost within the limit) the result is the best by exact benefit, cost and tuple order.
   */
  method Optimize(costs: seq<int>, ranks: seq<nat>, limit: int) returns (chosen: seq<nat>)
    requires |costs| == |ranks| > 0 && costs[0] <= limit
    requires forall k :: 0 <= k < |costs| ==> costs[k] >= 0
    ensures Feasible(costs, limit, chosen)
    ensures forall c :: Feasible(costs, limit, c) ==> AtLeastAsGood(costs, ranks, chosen, c)
  {
    var denominator, values := ReciprocalValues(ranks);
    var available := limit - costs[0];
    var middle := 1 + (|costs| - 1) / 2;
    var left := EnumerateHalf(costs, values, available, 1, middle);
    var unsorted := EnumerateHalf(costs, values, available, middle, |costs|);
    var right := Sort(unsorted, StateLe);
    StateLeTotalOrder();
    SortSorts(unsorted, StateLe);
    SameElements(right, unsorted);
    var choices := Choices(costs, values, limit, middle, left, right);
    assert State(0, 0, []) in left by {
      assert IsState(costs, values, available, 1, middle, State(0, 0, []));
    }
    var best := Preferred(choices);
    forall c | Feasible(costs, limit, c) ensures AtLeastAsGood(costs, ranks, best.chosen, c) {
      BestBeats(costs, ranks, denominator as real, values, limit, middle, left, right, choices, best, c);
    }
    chosen := best.chosen;
  }

  /** The optimum is unique, so the postcondition of `Optimize` determines its result. */
  lemma {:induction false} OptimumUnique(costs: seq<int>, ranks: seq<nat>, limit: int, a: seq<nat>, b: seq<nat>)
    requires |costs| == |ranks|
    requires Feasible(costs, limit, a) && Feasible(costs, limit, b)
    requires AtLeastAsGood(costs, ranks, a, b) && AtLeastAsGood(costs, ranks, b, a)
    ensures a == b
  {
    LexAntisymmetric(a, b);
  }
}
