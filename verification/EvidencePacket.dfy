/**
 The packet budget and the four selection arms in the main loop of
 benchmarks/public/check_evidence_budget.py. The serializer of one group is opaque: a
 group is given by its encoded bytes, one character per byte.
 */
module EvidencePacket {
  import opened Ordering
  import opened EvidenceKnapsack
  import opened FiniteSums

  type Bytes = string

  // ----- packet size -------------------------------------------------------

  /** The elements of a compact JSON list, joined by commas. */
  function Join(parts: seq<Bytes>): Bytes {
    if |parts| == 0 then ""
    else if |parts| == 1 then parts[0]
    else Join(parts[..|parts| - 1]) + "," + parts[|parts| - 1]
  }

  function Pick<T>(items: seq<T>, selected: seq<nat>): (r: seq<T>)
    requires InRange(selected, |items|)
  {
    seq(|selected|, k requires 0 <= k < |selected| => items[selected[k]])
  }

  const HEAD: Bytes := "{\"v\":1,\"evidence\":["
  const TAIL: Bytes := "]}"

  function Encoded(groups: seq<Bytes>, selected: seq<nat>): Bytes
    requires InRange(selected, |groups|)
  {
    HEAD + Join(Pick(groups, selected)) + TAIL
  }

  /** The text of a packet: a fixed frame around the groups, separated by commas. */
  lemma {:induction false} PacketText(groups: seq<Bytes>, selected: seq<nat>, i: nat)
    requires InRange(selected, |groups|) && i < |groups|
    ensures Encoded(groups, []) == "{\"v\":1,\"evidence\":[" + "]}"
    ensures Encoded(groups, [i]) == "{\"v\":1,\"evidence\":[" + groups[i] + "]}"
    ensures selected != [] ==>
              Encoded(groups, selected + [i])
              == Encoded(groups, selected)[..|Encoded(groups, selected)| - 2] + "," + groups[i] + "]}"
  {
    assert Pick(groups, [i]) == [groups[i]];
    var more := selected + [i];
    assert Pick(groups, more)[..|selected|] == Pick(groups, selected);
    var text := Encoded(groups, selected);
    assert text[..|text| - 2] == HEAD + Join(Pick(groups, selected));
  }

  /** The charge of a group: its bytes and one separator. */
  function Costs(groups: seq<Bytes>): seq<int> {
    seq(|groups|, i requires 0 <= i < |groups| => |groups[i]| + 1)
  }

  lemma {:induction false} JoinSize(groups: seq<Bytes>, selected: seq<nat>)
    requires InRange(selected, |groups|) && selected != []
    ensures |Join(Pick(groups, selected))| + 1 == Total(Costs(groups), selected)
  {
    var front := selected[..|selected| - 1];
    assert Pick(groups, selected)[..|selected| - 1] == Pick(groups, front);
    if |selected| > 1 {
      JoinSize(groups, front);
    } else {
      assert Total(Costs(groups), front) == 0;
    }
  }

  /** A packet holds the fixed frame and exactly the charges of its groups. */
  lemma {:induction false} PacketSize(groups: seq<Bytes>, selected: seq<nat>)
    requires InRange(selected, |groups|) && selected != []
    ensures |Encoded(groups, selected)| == Total(Costs(groups), selected) + 20
  {
    JoinSize(groups, selected);
  }

  /** `limit = budget - len(b'{"v":1,"evidence":[]}') + 1` */
  function Limit(budget: int): int {
    budget - |HEAD + TAIL| + 1
  }

  /** The integer capacity is the byte budget, in both directions. */
  lemma {:induction false} CostLimitIsByteBudget(groups: seq<Bytes>, selected: seq<nat>, budget: int)
    requires InRange(selected, |groups|) && selected != []
    ensures Total(Costs(groups), selected) <= Limit(budget) <==> |Encoded(groups, selected)| <= budget
    ensures budget == |Encoded(groups, selected)| ==> Limit(budget) == Total(Costs(groups), selected)
  {
    PacketSize(groups, selected);
  }

  // ----- candidates --------------------------------------------------------

  /** `list(dict.fromkeys(s))`: first occurrences, in order. */
  function Dedup<T(==, !new)>(s: seq<T>): (d: seq<T>)
    ensures forall x :: x in d <==> x in s
    ensures |d| <= |s| && (s != [] ==> d != [])
  {
    if s == [] then [] else
      var d := Dedup(s[..|s| - 1]);
      assert s == s[..|s| - 1] + [s[|s| - 1]];
      if s[|s| - 1] in d then d else d + [s[|s| - 1]]
  }

  lemma {:induction false} DedupDistinct<T(!new)>(s: seq<T>)
    ensures Distinct(Dedup(s))
  {
    if s != [] { DedupDistinct(s[..|s| - 1]); }
  }

  lemma {:induction false} DedupPrefix<T(!new)>(s: seq<T>, k: nat)
    requires k <= |s|
    ensures Dedup(s[..k]) <= Dedup(s)
  {
    if k == |s| {
      assert s[..k] == s;
    } else {
      assert s[..|s| - 1][..k] == s[..k];
      DedupPrefix(s[..|s| - 1], k);
    }
  }

  /** `list.index` */
  function IndexOf<T(==)>(s: seq<T>, x: T): (i: nat)
    requires x in s
    ensures i < |s| && s[i] == x && x !in s[..i]
  {
    if s[0] == x then 0 else
      assert s == [s[0]] + s[1..];
      var i := IndexOf(s[1..], x) + 1;
      assert s[..i] == [s[0]] + s[1..][..i - 1];
      i
  }

  function Candidates<T(==, !new)>(base: seq<T>): (c: seq<T>) {
    Truncate(Dedup(base), 20)
  }

  /** The first-five arm always selects an initial run of candidate positions. */
  lemma {:induction false} FirstFiveIsInitialRun<T(!new)>(base: seq<T>, k: nat)
    requires k < |Dedup(Truncate(base, 5))|
    ensures |Dedup(Truncate(base, 5))| <= |Candidates(base)|
    ensures Dedup(Truncate(base, 5))[k] in Candidates(base)
    ensures IndexOf(Candidates(base), Dedup(Truncate(base, 5))[k]) == k
  {
    var top := Truncate(base, 5);
    assert top == base[..|top|];
    DedupPrefix(base, |top|);
    var candidates := Candidates(base);
    assert candidates[k] == Dedup(base)[k] == Dedup(top)[k];
    DedupDistinct(base);
    var i := IndexOf(candidates, candidates[k]);
    assert candidates[i] == Dedup(base)[i];
  }

  method FirstFive<T(!new, ==)>(base: seq<T>) returns (first: seq<nat>)
    requires base != []
    ensures 1 <= |first| == |Dedup(Truncate(base, 5))| <= |Candidates(base)|
    ensures forall k :: 0 <= k < |first| ==> first[k] == k
  {
    var top := Dedup(Truncate(base, 5));
    first := [];
    FirstFiveIsInitialRun(base, 0);
    for k := 0 to |top|
      invariant |first| == k
      invariant forall j :: 0 <= j < k ==> first[j] == j
    {
      FirstFiveIsInitialRun(base, k);
      first := first + [IndexOf(Candidates(base), top[k])];
    }
  }

  // ----- the greedy arms ---------------------------------------------------

  lemma {:induction false} TotalInsert(xs: seq<int>, x: nat, s: seq<nat>)
    requires x < |xs| && InRange(s, |xs|)
    ensures InRange(Insert(x, s, IndexLe), |xs|)
    ensures Total(xs, Insert(x, s, IndexLe)) == xs[x] + Total(xs, s)
  {
    assert Total(xs, [x]) == xs[x];
    if s == [] {
    } else if IndexLe(x, s[0]) {
      TotalConcat(xs, [x], s);
    } else {
      assert s == [s[0]] + s[1..];
      TotalInsert(xs, x, s[1..]);
      TotalConcat(xs, [s[0]], s[1..]);
      TotalConcat(xs, [s[0]], Insert(x, s[1..], IndexLe));
    }
  }

  lemma {:induction false} TotalSort(xs: seq<int>, s: seq<nat>)
    requires InRange(s, |xs|)
    ensures InRange(Sort(s, IndexLe), |xs|) && Total(xs, Sort(s, IndexLe)) == Total(xs, s)
  {
    if s != [] {
      TotalSort(xs, s[1..]);
      TotalInsert(xs, s[0], Sort(s[1..], IndexLe));
      assert s == [s[0]] + s[1..];
      TotalConcat(xs, [s[0]], s[1..]);
      assert Total(xs, [s[0]]) == xs[s[0]];
    }
  }

  ghost predicate IsOrder(order: seq<nat>, n: nat) {
    && Distinct(order) && InRange(order, n)
    && forall i: nat :: i < n ==> i in order
  }

  /** The packet cannot take one more group. */
  ghost predicate Maximal(costs: seq<int>, limit: int, chosen: seq<nat>)
    requires InRange(chosen, |costs|)
  {
    forall i :: 0 <= i < |costs| && i !in chosen ==> Total(costs, chosen) + costs[i] > limit
  }

  /** Cheap-first selection never prefers a dearer group to one it left out. */
  ghost predicate CheapestFirst(costs: seq<int>, chosen: seq<nat>)
    requires InRange(chosen, |costs|)
  {
    forall i: nat, j: nat :: i in chosen && i != 0 && j < |costs| && j !in chosen ==> costs[i] <= costs[j]
  }

  function Range(n: nat): (r: seq<nat>) {
    seq(n, i requires 0 <= i < n => i)
  }

  lemma {:induction false} RangeIsOrder(n: nat)
    ensures IsOrder(Range(n), n)
  {
    forall i: nat | i < n ensures i in Range(n) { assert Range(n)[i] == i; }
  }

  ghost predicate Ascending(costs: seq<int>, order: seq<nat>)
    requires InRange(order, |costs|)
  {
    forall i, j :: 0 <= i < j < |order| ==>
      costs[order[i]] < costs[order[j]] || (costs[order[i]] == costs[order[j]] && order[i] < order[j])
  }

  ghost predicate ByCost(costs: seq<int>, order: seq<nat>)
    requires InRange(order, |costs|)
  {
    forall i, j :: 0 <= i < j < |order| ==> costs[order[i]] <= costs[order[j]]
  }

  /** Every selection within the limit that agrees with `chosen` on the first `m` groups of the order
      can hold the next group only if `chosen` does. */
  ghost predicate Ahead(costs: seq<int>, limit: int, order: seq<nat>, m: nat, chosen: seq<nat>, c: seq<nat>)
    requires m < |order|
  {
    (forall i :: i in order[..m] ==> (i in c <==> i in chosen)) && order[m] in c ==> order[m] in chosen
  }

  /** `chosen` comes first among all selections within the limit, compared group by group in `order`. */
  ghost predicate FirstInOrder(costs: seq<int>, limit: int, order: seq<nat>, n: nat, chosen: seq<nat>)
    requires n <= |order|
  {
    forall c, m: nat :: m < n && Feasible(costs, limit, c) ==> Ahead(costs, limit, order, m, chosen, c)
  }

  /** What holds of the groups taken after the first `k` of `order`. */
  ghost predicate Greedy(costs: seq<int>, limit: int, order: seq<nat>, k: nat, taken: seq<nat>)
    requires k <= |order|
  {
    && Distinct(taken) && InRange(taken, |costs|) && 0 in taken
    && Total(costs, taken) <= limit
    && (forall i :: i in taken ==> i == 0 || i in order[..k])
    && (forall i :: i in order[..k] && i < |costs| && i !in taken ==> Total(costs, taken) + costs[i] > limit)
  }

  ghost predicate NoDearer(costs: seq<int>, processed: seq<nat>, taken: seq<nat>) {
    forall i, j :: i in taken && i != 0 && j in processed && j !in taken && i < |costs| && j < |costs| ==>
      costs[i] <= costs[j]
  }

  lemma {:induction false} GreedyTake(costs: seq<int>, limit: int, order: seq<nat>, k: nat, taken: seq<nat>)
    requires k < |order| && IsOrder(order, |costs|) && Greedy(costs, limit, order, k, taken)
    requires order[k] != 0 && Total(costs, taken) + costs[order[k]] <= limit && costs[order[k]] >= 0
    ensures Greedy(costs, limit, order, k + 1, taken + [order[k]])
    ensures Total(costs, taken + [order[k]]) == Total(costs, taken) + costs[order[k]]
  {
    var i := order[k];
    assert order[..k + 1] == order[..k] + [i];
    assert i !in order[..k];
    assert (taken + [i])[..|taken|] == taken;
  }

  lemma {:induction false} GreedySkip(costs: seq<int>, limit: int, order: seq<nat>, k: nat, taken: seq<nat>)
    requires k < |order| && IsOrder(order, |costs|) && Greedy(costs, limit, order, k, taken)
    requires order[k] == 0 || Total(costs, taken) + costs[order[k]] > limit
    ensures Greedy(costs, limit, order, k + 1, taken)
  {
    assert order[..k + 1] == order[..k] + [order[k]];
  }

  /** A group skipped for its cost belongs to no selection holding all groups taken so far. */
  lemma {:induction false} SkippedFitsNowhere(costs: seq<int>, limit: int, taken: seq<nat>, i: nat, c: seq<nat>)
    requires forall k :: 0 <= k < |costs| ==> costs[k] >= 0
    requires Distinct(taken) && InRange(taken, |costs|) && i < |costs| && i !in taken
    requires Feasible(costs, limit, c) && i in c && forall j :: j in taken ==> j in c
    ensures Total(costs, taken) + costs[i] <= limit
  {
    var f := CostOf(costs);
    TotalIsSetSum(costs, taken);
    TotalIsSetSum(costs, c);
    SumAdd(Members(taken), f, i);
    SumSubset(Members(taken) + {i}, Members(c), f);
  }

  lemma {:induction false} GreedyStaysFirst(costs: seq<int>, limit: int, order: seq<nat>, k: nat, taken: seq<nat>,
                                            after: seq<nat>)
    requires forall i :: 0 <= i < |costs| ==> costs[i] >= 0
    requires k < |order| && IsOrder(order, |costs|) && Greedy(costs, limit, order, k, taken)
    requires FirstInOrder(costs, limit, order, k, taken)
    requires after
             == if order[k] != 0 && Total(costs, taken) + costs[order[k]] <= limit then taken + [order[k]] else taken
    ensures FirstInOrder(costs, limit, order, k + 1, after)
  {
    var now := order[k];
    forall c, m: nat | m < k + 1 && Feasible(costs, limit, c) ensures Ahead(costs, limit, order, m, after, c) {
      assert now !in order[..m];
      assert m < k ==> Ahead(costs, limit, order, m, taken, c) && order[m] != now;
      if m == k && now !in after && now in c && forall i :: i in order[..k] ==> (i in c <==> i in taken) {
        SkippedFitsNowhere(costs, limit, taken, now, c);
        assert false;
      }
    }
  }

  /** In ascending order, a group taken is no dearer than any group left out. */
  lemma {:induction false} GreedyNoDearer(costs: seq<int>, limit: int, order: seq<nat>, k: nat, taken: seq<nat>,
                                          after: seq<nat>)
    requires k < |order| && IsOrder(order, |costs|) && Greedy(costs, limit, order, k, taken)
    requires ByCost(costs, order) && NoDearer(costs, order[..k], taken)
    requires after
             == if order[k] != 0 && Total(costs, taken) + costs[order[k]] <= limit then taken + [order[k]] else taken
    ensures NoDearer(costs, order[..k + 1], after)
  {
    var now := order[k];
    assert order[..k + 1] == order[..k] + [now];
    forall i, j | i in after && i != 0 && j in order[..k + 1] && j !in after && i < |costs| && j < |costs|
      ensures costs[i] <= costs[j]
    {
      if i in taken && j !in order[..k] {
        assert i in order[..k];
      }
    }
  }

  lemma {:induction false} GreedyDone(costs: seq<int>, limit: int, order: seq<nat>, taken: seq<nat>, chosen: seq<nat>)
    requires IsOrder(order, |costs|) && Greedy(costs, limit, order, |order|, taken)
    requires chosen == Sort(taken, IndexLe)
    ensures Feasible(costs, limit, chosen) && Maximal(costs, limit, chosen)
    ensures NoDearer(costs, order, taken) ==> CheapestFirst(costs, chosen)
    ensures forall i :: i in chosen <==> i in taken
  {
    assert order[..|order|] == order;
    SortedFeasible(costs, limit, taken, chosen);
    forall i | 0 <= i < |costs| && i !in chosen ensures Total(costs, chosen) + costs[i] > limit {
      assert i in order;
    }
    if NoDearer(costs, order, taken) {
      forall i: nat, j: nat | i in chosen && i != 0 && j < |costs| && j !in chosen ensures costs[i] <= costs[j] {
        assert j in order;
      }
    }
  }

  /** Sorting the groups taken keeps their set and their total. */
  lemma {:induction false} SortedFeasible(costs: seq<int>, limit: int, taken: seq<nat>, chosen: seq<nat>)
    requires Distinct(taken) && InRange(taken, |costs|) && 0 in taken && Total(costs, taken) <= limit
    requires chosen == Sort(taken, IndexLe)
    ensures Feasible(costs, limit, chosen) && Total(costs, chosen) == Total(costs, taken)
    ensures forall i :: i in chosen <==> i in taken
  {
    SortIndices(taken);
    TotalSort(costs, taken);
    assert 0 in chosen;
    assert chosen[0] == 0;
  }

  lemma {:induction false} FirstBySet(costs: seq<int>, limit: int, order: seq<nat>, a: seq<nat>, b: seq<nat>)
    requires FirstInOrder(costs, limit, order, |order|, a) && forall i :: i in b <==> i in a
    ensures FirstInOrder(costs, limit, order, |order|, b)
  {
    forall c, m: nat | m < |order| && Feasible(costs, limit, c) ensures Ahead(costs, limit, order, m, b, c) {
      assert Ahead(costs, limit, order, m, a, c);
    }
  }

  /** Only one selection within the limit comes first, so the greedy arm is determined by its order. */
  lemma {:induction false} FirstInOrderUnique(costs: seq<int>, limit: int, order: seq<nat>, a: seq<nat>, b: seq<nat>,
                                              n: nat)
    requires Feasible(costs, limit, a) && Feasible(costs, limit, b) && n <= |order|
    requires FirstInOrder(costs, limit, order, n, a) && FirstInOrder(costs, limit, order, n, b)
    ensures forall i :: i in order[..n] ==> (i in a <==> i in b)
  {
    if n > 0 {
      FirstInOrderUnique(costs, limit, order, a, b, n - 1);
      assert order[..n] == order[..n - 1] + [order[n - 1]];
      assert Ahead(costs, limit, order, n - 1, a, b) && Ahead(costs, limit, order, n - 1, b, a);
    }
  }

  /** One greedy arm: take each group of `order` that still fits. */
  method GreedyArm(costs: seq<int>, limit: int, order: seq<nat>) returns (chosen: seq<nat>)
    requires |costs| > 0 && costs[0] <= limit && IsOrder(order, |costs|)
    requires forall k :: 0 <= k < |costs| ==> costs[k] >= 0
    ensures Feasible(costs, limit, chosen)
    ensures Maximal(costs, limit, chosen)
    ensures FirstInOrder(costs, limit, order, |order|, chosen)
    ensures ByCost(costs, order) ==> CheapestFirst(costs, chosen)
  {
    var used := costs[0];
    var taken := [0];
    for k := 0 to |order|
      invariant Greedy(costs, limit, order, k, taken) && used == Total(costs, taken)
      invariant FirstInOrder(costs, limit, order, k, taken)
      invariant ByCost(costs, order) ==> NoDearer(costs, order[..k], taken)
    {
      var i := order[k];
      ghost var before := taken;
      if i != 0 && used + costs[i] <= limit {
        GreedyTake(costs, limit, order, k, taken);
        used := used + costs[i];
        taken := taken + [i];
      } else {
        GreedySkip(costs, limit, order, k, taken);
      }
      GreedyStaysFirst(costs, limit, order, k, before, taken);
      if ByCost(costs, order) {
        GreedyNoDearer(costs, limit, order, k, before, taken);
      }
    }
    chosen := Sort(taken, IndexLe);
    GreedyDone(costs, limit, order, taken, chosen);
    FirstBySet(costs, limit, order, taken, chosen);
    assert order[..|order|] == order;
  }

  predicate CheaperLe(costs: seq<int>, a: nat, b: nat)
  {
    var x := if a < |costs| then costs[a] else 0;
    var y := if b < |costs| then costs[b] else 0;
    x < y || (x == y && a <= b)
  }

  method ShortestOrder(costs: seq<int>) returns (order: seq<nat>)
    ensures IsOrder(order, |costs|) && Ascending(costs, order) && ByCost(costs, order)
  {
    var le := (a: nat, b: nat) => CheaperLe(costs, a, b);
    var all := Range(|costs|);
    RangeIsOrder(|costs|);
    order := Sort(all, le);
    SortSorts(all, le);
    SameElements(order, all);
    DistinctPermutation(all, order);
    assert forall k :: 0 <= k < |order| ==> order[k] in order;
  }

  // ----- the shortest arm keeps the most groups ----------------------------

  ghost function CostOf(costs: seq<int>): nat -> real {
    (i: nat) => if i < |costs| then costs[i] as real else 0.0
  }

  lemma {:induction false} TotalIsSetSum(costs: seq<int>, c: seq<nat>)
    requires InRange(c, |costs|) && Distinct(c)
    ensures Total(costs, c) as real == Sum(Members(c), CostOf(costs))
  {
    if c == [] {
      assert Members(c) == {};
    } else {
      var n := |c| - 1;
      TotalIsSetSum(costs, c[..n]);
      assert c == c[..n] + [c[n]];
      MembersExtend(c[..n], c[n]);
      SumAdd(Members(c[..n]), CostOf(costs), c[n]);
    }
  }

  /** More terms, each at least as large as every term of the other sum. */
  lemma {:induction false} LargerSetCostsMore(a: set<nat>, b: set<nat>, f: nat -> real)
    requires |a| >= |b|
    requires forall i :: i in a ==> f(i) >= 0.0
    requires forall i, j :: i in a && j in b ==> f(j) <= f(i)
    ensures Sum(b, f) <= Sum(a, f)
    decreases |b|
  {
    if b == {} {
      SumNonnegative(a, f);
    } else {
      assert a != {};
      var i :| i in a;
      var j :| j in b;
      LargerSetCostsMore(a - {i}, b - {j}, f);
      SumRemove(a, f, i);
      SumRemove(b, f, j);
    }
  }

  /** A set with more members, whose extra members are all dearer, costs more by one extra member. */
  lemma {:induction false} ExtraMember(g: set<nat>, h: set<nat>, f: nat -> real) returns (y: nat)
    requires |h| > |g|
    requires forall i :: i in h ==> f(i) >= 0.0
    requires forall i, j :: i in g - h && j in h - g ==> f(i) <= f(j)
    ensures y in h && y !in g && Sum(g, f) + f(y) <= Sum(h, f)
  {
    var both, mine, other := g * h, g - h, h - g;
    assert g == both + mine && h == both + other;
    SumUnion(both, mine, f);
    SumUnion(both, other, f);
    assert |g| == |both| + |mine| && |h| == |both| + |other|;
    assert other != {};
    y :| y in other;
    SumRemove(other, f, y);
    LargerSetCostsMore(other - {y}, mine, f);
  }

  /** No feasible selection holds more groups than the cheapest-first one. */
  lemma {:induction false} CheapestFirstKeepsMost(costs: seq<int>, limit: int, chosen: seq<nat>, c: seq<nat>)
    requires forall k :: 0 <= k < |costs| ==> costs[k] >= 0
    requires Feasible(costs, limit, chosen) && Maximal(costs, limit, chosen) && CheapestFirst(costs, chosen)
    requires Feasible(costs, limit, c)
    ensures |c| <= |chosen|
  {
    var f := CostOf(costs);
    TotalIsSetSum(costs, chosen);
    TotalIsSetSum(costs, c);
    DistinctSize(chosen);
    DistinctSize(c);
    if |c| > |chosen| {
      assert 0 in Members(c);
      var y := ExtraMember(Members(chosen), Members(c), f);
    }
  }

  // ----- the row loop ------------------------------------------------------

  datatype Arms = Arms(firstFive: seq<nat>, rankSkip: seq<nat>, shortest: seq<nat>, knapsack: seq<nat>)

  ghost predicate FitsBudget(groups: seq<Bytes>, budget: int, selected: seq<nat>) {
    InRange(selected, |groups|) && |Encoded(groups, selected)| <= budget
  }

  /** A selection that contains the first candidate and whose packet is within the budget. */
  ghost predicate IsPacket(groups: seq<Bytes>, budget: int, c: seq<nat>) {
    IsSelection(c, 0, |groups|) && c != [] && c[0] == 0 && FitsBudget(groups, budget, c)
  }

  lemma {:induction false} PacketIffFeasible(groups: seq<Bytes>, budget: int, c: seq<nat>)
    ensures IsPacket(groups, budget, c) <==> Feasible(Costs(groups), Limit(budget), c)
  {
    if IsSelection(c, 0, |groups|) && c != [] {
      CostLimitIsByteBudget(groups, c, budget);
    }
  }

  /** `rank_skip`: within the budget, nothing more fits, and first of all packets in rank order. */
  ghost predicate IsRankSkip(groups: seq<Bytes>, budget: int, chosen: seq<nat>) {
    && IsPacket(groups, budget, chosen) && Maximal(Costs(groups), Limit(budget), chosen)
    && FirstInOrder(Costs(groups), Limit(budget), Range(|groups|), |groups|, chosen)
  }

  /** `shortest`: the same in order of cost, and as many groups as any packet. */
  ghost predicate IsShortest(groups: seq<Bytes>, budget: int, chosen: seq<nat>) {
    && IsPacket(groups, budget, chosen) && Maximal(Costs(groups), Limit(budget), chosen)
    && (exists order :: IsOrder(order, |groups|) && Ascending(Costs(groups), order)
                        && FirstInOrder(Costs(groups), Limit(budget), order, |order|, chosen))
    && (forall c :: IsPacket(groups, budget, c) ==> |c| <= |chosen|)
  }

  /** The two greedy arms. */
  method GreedyArms(groups: seq<Bytes>, budget: int) returns (rankSkip: seq<nat>, shortest: seq<nat>)
    requires |groups| > 0 && |groups[0]| + 1 <= Limit(budget)
    ensures IsRankSkip(groups, budget, rankSkip) && IsShortest(groups, budget, shortest)
  {
    var costs, limit := Costs(groups), Limit(budget);
    RangeIsOrder(|costs|);
    rankSkip := GreedyArm(costs, limit, Range(|costs|));
    PacketIffFeasible(groups, budget, rankSkip);
    var byCost := ShortestOrder(costs);
    shortest := GreedyArm(costs, limit, byCost);
    PacketIffFeasible(groups, budget, shortest);
    forall c | IsPacket(groups, budget, c) ensures |c| <= |shortest| {
      PacketIffFeasible(groups, budget, c);
      CheapestFirstKeepsMost(costs, limit, shortest, c);
    }
  }

  ghost predicate IsBest(groups: seq<Bytes>, ranks: seq<nat>, budget: int, best: seq<nat>)
    requires |groups| == |ranks|
  {
    && IsPacket(groups, budget, best)
    && forall c :: IsPacket(groups, budget, c) ==> AtLeastAsGood(Costs(groups), ranks, best, c)
  }

  /** The knapsack arm, in bytes. */
  method BestArm(groups: seq<Bytes>, ranks: seq<nat>, budget: int) returns (best: seq<nat>)
    requires |ranks| == |groups| > 0 && |groups[0]| + 1 <= Limit(budget)
    ensures IsBest(groups, ranks, budget, best)
  {
    best := Optimize(Costs(groups), ranks, Limit(budget));
    PacketIffFeasible(groups, budget, best);
    forall c | IsPacket(groups, budget, c) ensures AtLeastAsGood(Costs(groups), ranks, best, c) {
      PacketIffFeasible(groups, budget, c);
    }
  }

  /** A packet that starts with the first candidate leaves room for it. */
  lemma {:induction false} BudgetHoldsFirst(groups: seq<Bytes>, first: seq<nat>)
    requires InRange(first, |groups|) && first != [] && first[0] == 0
    ensures |groups[0]| + 1 <= Limit(|Encoded(groups, first)|)
  {
    var costs := Costs(groups);
    CostLimitIsByteBudget(groups, first, |Encoded(groups, first)|);
    assert first == [0] + first[1..];
    TotalConcat(costs, [0], first[1..]);
    TotalNonnegative(costs, first[1..]);
    assert Total(costs, [0]) == costs[0];
  }

  /** `[base.index(t) for t in candidates]` */
  function Ranks<T(==, !new)>(base: seq<T>): (ranks: seq<nat>)
    ensures |ranks| == |Candidates(base)|
  {
    var candidates := Candidates(base);
    seq(|candidates|, i requires 0 <= i < |candidates| =>
      assert candidates[i] == Dedup(base)[i]; IndexOf(base, candidates[i]))
  }

  ghost function Ids<T(!new)>(s: seq<T>): set<T> { set x | x in s }

  lemma {:induction false} DistinctIds<T(!new)>(s: seq<T>)
    requires Distinct(s)
    ensures |Ids(s)| == |s|
  {
    if s == [] {
      assert Ids(s) == {};
    } else {
      var front, last := s[..|s| - 1], s[|s| - 1];
      DistinctIds(front);
      assert Ids(s) == Ids(front) + {last};
      assert last !in Ids(front);
    }
  }

  lemma {:induction false} DedupCounts<T(!new)>(s: seq<T>)
    ensures |Dedup(s)| == |Ids(s)|
  {
    DedupDistinct(s);
    DistinctIds(Dedup(s));
    assert Ids(Dedup(s)) == Ids(s);
  }

  /** The candidates are the first 20 distinct ids of the ranking, in order of first occurrence. */
  ghost predicate AreFirstIds<T(!new)>(base: seq<T>, candidates: seq<T>) {
    && Distinct(candidates) && (forall x :: x in candidates ==> x in base)
    && |candidates| == (if |Ids(base)| < 20 then |Ids(base)| else 20)
  }

  /** Each rank is the first index of its id, and ranks rise. */
  ghost predicate AreFirstIndices<T(!new)>(base: seq<T>, candidates: seq<T>, ranks: seq<nat>) {
    && |ranks| == |candidates|
    && (forall i :: 0 <= i < |ranks| ==>
          ranks[i] < |base| && base[ranks[i]] == candidates[i] && candidates[i] !in base[..ranks[i]])
    && (forall i, j :: 0 <= i < j < |ranks| ==> ranks[i] < ranks[j])
    && (forall k :: 0 <= k < |base| && base[k] !in candidates ==> forall i :: 0 <= i < |ranks| ==> ranks[i] < k)
  }

  lemma {:induction false} CandidatesAreFirstIds<T(!new)>(base: seq<T>)
    ensures AreFirstIds(base, Candidates(base))
  {
    var d, candidates := Dedup(base), Candidates(base);
    DedupDistinct(base);
    DistinctIds(d);
    assert Ids(d) == Ids(base);
    assert forall i :: 0 <= i < |candidates| ==> candidates[i] == d[i];
  }

  /** An id that is no candidate first occurs after every candidate. */
  lemma {:induction false} OthersComeLater<T(!new)>(base: seq<T>, i: nat, k: nat)
    requires i < |Candidates(base)| && k < |base| && base[k] !in Candidates(base)
    ensures Ranks(base)[i] < k
  {
    var d, candidates := Dedup(base), Candidates(base);
    assert base[k] in base && base[k] in d;
    var j :| 0 <= j < |d| && d[j] == base[k];
    assert forall m :: 0 <= m < |candidates| ==> candidates[m] == d[m];
    assert |candidates| <= j;
    DedupBefore(base, j);
    var p := IndexOf(base, d[j]);
    assert forall m :: 0 <= m < p ==> base[..p][m] == base[m];
    assert p <= k;
    assert d[i] in base[..p];
    var q :| 0 <= q < p && base[..p][q] == d[i];
  }

  lemma {:induction false} RanksAreFirstIndices<T(!new)>(base: seq<T>)
    ensures AreFirstIndices(base, Candidates(base), Ranks(base))
  {
    forall i: nat, j: nat | i < j < |Ranks(base)| ensures Ranks(base)[i] < Ranks(base)[j] { RanksIncrease(base, i, j); }
    forall i: nat, k: nat | i < |Ranks(base)| && k < |base| && base[k] !in Candidates(base) ensures Ranks(base)[i] < k {
      OthersComeLater(base, i, k);
    }
  }

  /** Distinct candidates keep the order of their first occurrence. */
  lemma {:induction false} RanksIncrease<T(!new)>(base: seq<T>, i: nat, j: nat)
    requires i < j < |Candidates(base)|
    ensures Ranks(base)[i] < Ranks(base)[j]
  {
    var d := Dedup(base);
    var p := IndexOf(base, d[j]);
    DedupBefore(base, j);
    assert d[i] in base[..p];
    var q :| 0 <= q < p && base[..p][q] == d[i];
  }

  /** Everything listed before a candidate occurs before its first occurrence. */
  lemma {:induction false} DedupBefore<T(!new)>(s: seq<T>, j: nat)
    requires j < |Dedup(s)|
    ensures forall i :: 0 <= i < j ==> Dedup(s)[i] in s[..IndexOf(s, Dedup(s)[j])]
  {
    var d, p := Dedup(s), IndexOf(s, Dedup(s)[j]);
    DedupPrefix(s, p);
    DedupDistinct(s);
    var front := Dedup(s[..p]);
    assert forall x :: x in front <==> x in s[..p];
    DedupPrefix(s, p + 1);
    assert s[..p + 1][..p] == s[..p];
    assert d[j] !in s[..p];
    var wider := Dedup(s[..p + 1]);
    assert wider == front + [d[j]];
    assert wider[|front|] == d[|front|];
    assert |front| == j;
  }

  /**
   One row: the budget is the size of the first-five packet, and each arm is the one packet
   within that budget that its name promises.
   */
  method SelectArms<T(!new, ==)>(base: seq<T>, groups: seq<Bytes>) returns (budget: int, arms: Arms)
    requires base != [] && |groups| == |Candidates(base)|
    ensures AreFirstIds(base, Candidates(base)) && AreFirstIndices(base, Candidates(base), Ranks(base))
    ensures arms.firstFive == Range(|Ids(Truncate(base, 5))|)
    ensures FitsBudget(groups, budget, arms.firstFive) && |Encoded(groups, arms.firstFive)| == budget
    ensures IsRankSkip(groups, budget, arms.rankSkip)
    ensures IsShortest(groups, budget, arms.shortest)
    ensures IsBest(groups, Ranks(base), budget, arms.knapsack)
  {
    var first := FirstFive(base);
    budget := |Encoded(groups, first)|;
    BudgetHoldsFirst(groups, first);
    var rankSkip, shortest := GreedyArms(groups, budget);
    var knapsack := BestArm(groups, Ranks(base), budget);
    CandidatesAreFirstIds(base);
    RanksAreFirstIndices(base);
    DedupCounts(Truncate(base, 5));
    arms := Arms(first, rankSkip, shortest, knapsack);
  }
}
