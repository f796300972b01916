/**
 Whole read histories. The oracle explains every query on its own; this module states when one
 atomic execution explains all queries of all readers together, and shows that explaining each
 query separately is not enough.
 */
module CompactionHistory {
  import opened CompactionOracle
  import opened CompactionCheck

  /** A completed read: its interval, its pair and the state it returned. */
  datatype Read = Read(pair: nat, start: int, end: int, state: PairState)

  ghost predicate Timed(log: seq<Read>) {
    forall j :: 0 <= j < |log| ==> log[j].start < log[j].end
  }

  /** Real-time order: one read returned before the other began. */
  ghost predicate Precedes(earlier: Read, later: Read) {
    earlier.end <= later.start
  }

  ghost predicate ReadAt(ops: seq<Operation>, at: seq<real>, read: Read, t: real)
    requires |at| == |ops|
  {
    read.start as real < t < read.end as real && read.state == Seen(ops, at, read.pair, t)
  }

  ghost predicate Explains(ops: seq<Operation>, log: seq<Read>, at: seq<real>, ts: seq<real>) {
    && Instants(ops, at) && |ts| == |log|
    && forall j :: 0 <= j < |log| ==> ReadAt(ops, at, log[j], ts[j])
  }

  /** One choice of instants for all operations explains all reads. */
  ghost predicate JointlyExplained(ops: seq<Operation>, log: seq<Read>) {
    exists at, ts :: Explains(ops, log, at, ts)
  }

  ghost predicate ReadFits(ops: seq<Operation>, read: Read, k: nat) {
    Fits(ops, read.start, read.end, k) && read.state == After(ops[..k], read.pair)
  }

  /** A later read is never placed before an earlier one. */
  ghost predicate Respects(log: seq<Read>, cuts: seq<nat>) {
    && |cuts| == |log|
    && forall i, j :: 0 <= i < |log| && 0 <= j < |log| && Precedes(log[i], log[j]) ==> cuts[i] <= cuts[j]
  }

  /** For each read a position between operations where it fits, in real-time order. */
  ghost predicate MonotoneCuts(ops: seq<Operation>, log: seq<Read>, cuts: seq<nat>) {
    Respects(log, cuts) && forall j :: 0 <= j < |log| ==> ReadFits(ops, log[j], cuts[j])
  }

  // ----- from an execution to positions ------------------------------------

  lemma {:induction false} CutsOf(ops: seq<Operation>, log: seq<Read>, at: seq<real>, ts: seq<real>, n: nat)
    returns (cuts: seq<nat>)
    requires Ordered(ops) && Explains(ops, log, at, ts) && n <= |log|
    ensures |cuts| == n
    ensures forall j :: 0 <= j < n ==> CutAt(at, ts[j], cuts[j]) && ReadFits(ops, log[j], cuts[j])
  {
    if n == 0 {
      cuts := [];
    } else {
      cuts := CutsOf(ops, log, at, ts, n - 1);
      var read, t := log[n - 1], ts[n - 1];
      assert ReadAt(ops, at, read, t);
      var k := FindCut(ops, at, t);
      SeenIsPrefix(ops, at, read.pair, t, k);
      CutFits(ops, at, t, read.start, read.end, k);
      cuts := cuts + [k];
    }
  }

  lemma {:induction false} LaterCut(at: seq<real>, t: real, u: real, k: nat, m: nat)
    requires CutAt(at, t, k) && CutAt(at, u, m) && t <= u
    ensures k <= m
  {
    var next := if m < |at| then at[m] else u;
    assert m < |at| ==> u < next;
  }

  lemma {:induction false} ExplainedHasCuts(ops: seq<Operation>, log: seq<Read>) returns (cuts: seq<nat>)
    requires Ordered(ops) && JointlyExplained(ops, log)
    ensures MonotoneCuts(ops, log, cuts)
  {
    var at, ts :| Explains(ops, log, at, ts);
    cuts := CutsOf(ops, log, at, ts, |log|);
    forall i, j | 0 <= i < |log| && 0 <= j < |log| && Precedes(log[i], log[j]) ensures cuts[i] <= cuts[j] {
      assert ReadAt(ops, at, log[i], ts[i]) && ReadAt(ops, at, log[j], ts[j]);
      LaterCut(at, ts[i], ts[j], cuts[i], cuts[j]);
    }
  }

  // ----- from positions to an execution ------------------------------------

  /** The latest start among operation `m` and the first `n` reads placed before it. */
  ghost function Floor(ops: seq<Operation>, log: seq<Read>, cuts: seq<nat>, m: nat, n: nat): (x: int)
    requires m < |ops| && n <= |log| == |cuts|
    ensures x >= ops[m].start && forall j :: 0 <= j < n && cuts[j] <= m ==> log[j].start <= x
    ensures x == ops[m].start || exists j :: 0 <= j < n && cuts[j] <= m && x == log[j].start
  {
    if n == 0 then ops[m].start else
      var x := Floor(ops, log, cuts, m, n - 1);
      if cuts[n - 1] <= m && log[n - 1].start > x then log[n - 1].start else x
  }

  /** The earliest end among operation `m` and the first `n` reads placed after it. */
  ghost function Ceiling(ops: seq<Operation>, log: seq<Read>, cuts: seq<nat>, m: nat, n: nat): (x: int)
    requires m < |ops| && n <= |log| == |cuts|
    ensures x <= ops[m].end && forall j :: 0 <= j < n && cuts[j] > m ==> x <= log[j].end
    ensures x == ops[m].end || exists j :: 0 <= j < n && cuts[j] > m && x == log[j].end
  {
    if n == 0 then ops[m].end else
      var x := Ceiling(ops, log, cuts, m, n - 1);
      if cuts[n - 1] > m && log[n - 1].end < x then log[n - 1].end else x
  }

  lemma {:induction false} StartsBeforeEnd(ops: seq<Operation>, read: Read, k: nat, m: nat)
    requires Ordered(ops) && Fits(ops, read.start, read.end, k) && m < |ops|
    ensures k <= m ==> read.start < ops[m].end
    ensures m < k ==> ops[m].start < read.end
  {
    if k < m { assert ops[k].end <= ops[m].start; }
    if m < k - 1 { assert ops[m].end <= ops[k - 1].start; }
  }

  /** There is room for operation `m` after the reads before it and before the reads after it. */
  lemma {:induction false} RoomForOperation(ops: seq<Operation>, log: seq<Read>, cuts: seq<nat>, m: nat)
    requires Ordered(ops) && MonotoneCuts(ops, log, cuts) && m < |ops|
    ensures Floor(ops, log, cuts, m, |log|) < Ceiling(ops, log, cuts, m, |log|)
  {
    var x, y := Floor(ops, log, cuts, m, |log|), Ceiling(ops, log, cuts, m, |log|);
    forall j | 0 <= j < |log| ensures cuts[j] <= m ==> log[j].start < ops[m].end
                              ensures m < cuts[j] ==> ops[m].start < log[j].end
    {
      assert ReadFits(ops, log[j], cuts[j]);
      StartsBeforeEnd(ops, log[j], cuts[j], m);
    }
    forall i, j | 0 <= i < |log| && 0 <= j < |log| && cuts[j] <= m < cuts[i] ensures log[j].start < log[i].end {
      assert !Precedes(log[i], log[j]);
    }
  }

  /** Operation instants that leave room for every read at its position. */
  ghost predicate LeavesRoom(ops: seq<Operation>, log: seq<Read>, cuts: seq<nat>, at: seq<real>) {
    && Instants(ops, at) && |cuts| == |log|
    && forall m, j :: 0 <= m < |ops| && 0 <= j < |log| ==>
         if cuts[j] <= m then log[j].start as real < at[m] else at[m] < log[j].end as real
  }

  lemma {:induction false} PlaceOperations(ops: seq<Operation>, log: seq<Read>, cuts: seq<nat>) returns (at: seq<real>)
    requires Ordered(ops) && MonotoneCuts(ops, log, cuts)
    ensures LeavesRoom(ops, log, cuts, at)
  {
    var n := |log|;
    at := seq(|ops|, m requires 0 <= m < |ops| =>
      (Floor(ops, log, cuts, m, n) as real + Ceiling(ops, log, cuts, m, n) as real) / 2.0);
    forall m | 0 <= m < |ops|
      ensures Floor(ops, log, cuts, m, n) as real < at[m] < Ceiling(ops, log, cuts, m, n) as real
    {
      RoomForOperation(ops, log, cuts, m);
    }
  }

  lemma {:induction false} InstantsIncrease(ops: seq<Operation>, at: seq<real>, i: nat, k: nat)
    requires Ordered(ops) && Instants(ops, at) && i < k < |ops|
    ensures at[i] < at[k]
  {
    assert ops[i].end <= ops[k].start;
  }

  /** An instant inside the read that cuts the operations at `k`. */
  lemma {:induction false} PlaceRead(ops: seq<Operation>, at: seq<real>, read: Read, k: nat) returns (t: real)
    requires Ordered(ops) && Instants(ops, at) && k <= |ops| && read.start < read.end
    requires (k > 0 ==> at[k - 1] < read.end as real) && (k < |ops| ==> read.start as real < at[k])
    ensures read.start as real < t < read.end as real && CutAt(at, t, k)
  {
    var lo := if k > 0 then MaxReal(read.start as real, at[k - 1]) else read.start as real;
    var hi := if k < |ops| then MinReal(read.end as real, at[k]) else read.end as real;
    if 0 < k < |ops| { InstantsIncrease(ops, at, k - 1, k); }
    t := (lo + hi) / 2.0;
    assert lo < t < hi;
    forall i | 0 <= i < |at| ensures if i < k then at[i] <= t else t < at[i] {
      if i < k - 1 { InstantsIncrease(ops, at, i, k - 1); }
      if k < i { InstantsIncrease(ops, at, k, i); }
    }
  }

  lemma {:induction false} PlaceReads(ops: seq<Operation>, log: seq<Read>, cuts: seq<nat>, at: seq<real>, n: nat)
    returns (ts: seq<real>)
    requires Ordered(ops) && Timed(log) && MonotoneCuts(ops, log, cuts) && LeavesRoom(ops, log, cuts, at) && n <= |log|
    ensures |ts| == n && forall j :: 0 <= j < n ==> ReadAt(ops, at, log[j], ts[j])
  {
    if n == 0 {
      ts := [];
    } else {
      ts := PlaceReads(ops, log, cuts, at, n - 1);
      var read, k := log[n - 1], cuts[n - 1];
      assert ReadFits(ops, read, k);
      var t := PlaceRead(ops, at, read, k);
      SeenIsPrefix(ops, at, read.pair, t, k);
      ts := ts + [t];
    }
  }

  lemma {:induction false} CutsExplain(ops: seq<Operation>, log: seq<Read>, cuts: seq<nat>)
    requires Ordered(ops) && Timed(log) && MonotoneCuts(ops, log, cuts)
    ensures JointlyExplained(ops, log)
  {
    var at := PlaceOperations(ops, log, cuts);
    var ts := PlaceReads(ops, log, cuts, at, |log|);
    assert Explains(ops, log, at, ts);
  }

  /**
   One atomic execution explains all reads of any number of readers exactly when the reads can
   be placed between operations, each within its interval, in real-time order.
   */
  lemma {:induction false} ExplainedIffMonotone(ops: seq<Operation>, log: seq<Read>)
    requires Ordered(ops) && Timed(log)
    ensures JointlyExplained(ops, log) <==> exists cuts :: MonotoneCuts(ops, log, cuts)
  {
    if JointlyExplained(ops, log) {
      var cuts := ExplainedHasCuts(ops, log);
    }
    if cuts :| MonotoneCuts(ops, log, cuts) {
      CutsExplain(ops, log, cuts);
    }
  }

  /** A history explained together is explained read by read. */
  lemma {:induction false} JointImpliesEach(ops: seq<Operation>, log: seq<Read>)
    requires JointlyExplained(ops, log)
    ensures EachExplained(ops, log)
  {
    var at, ts :| Explains(ops, log, at, ts);
    forall j | 0 <= j < |log| ensures Observable(ops, log[j].pair, log[j].start, log[j].end, log[j].state) {
      assert ReadAt(ops, at, log[j], ts[j]);
      assert SeenAt(ops, log[j].pair, log[j].start, log[j].end, log[j].state, at, ts[j]);
    }
  }

  // ----- states that never come back ---------------------------------------

  /** A replacement carries a larger revision than everything before it. */
  ghost predicate Rising(ops: seq<Operation>) {
    && (forall j :: 0 <= j < |ops| && ops[j].kind == Replace ==> ops[j].revision >= 1)
    && (forall i, j :: 0 <= i < j < |ops| && ops[j].kind == Replace ==> ops[i].revision < ops[j].revision)
  }

  /** The revision of the last replacement of `pair`. */
  ghost function Revision(ops: seq<Operation>, pair: nat): (r: nat)
    ensures r == 0 || exists i :: 0 <= i < |ops| && r == ops[i].revision
  {
    if ops == [] then 0 else
      var op := ops[|ops| - 1];
      if op.pair == pair && op.kind == Replace then op.revision else Revision(ops[..|ops| - 1], pair)
  }

  /** Has the even document of `pair` been deleted since? */
  ghost predicate Deleted(ops: seq<Operation>, pair: nat) {
    if ops == [] then false else
      var op := ops[|ops| - 1];
      if op.pair == pair then op.kind == Delete else Deleted(ops[..|ops| - 1], pair)
  }

  ghost function Shape(pair: nat, revision: nat, deleted: bool): PairState {
    if deleted then map[pair * 2 + 1 := revision] else map[pair * 2 := revision, pair * 2 + 1 := revision]
  }

  lemma {:induction false} AfterShape(ops: seq<Operation>, pair: nat)
    ensures After(ops, pair) == Shape(pair, Revision(ops, pair), Deleted(ops, pair))
  {
    if ops != [] { AfterShape(ops[..|ops| - 1], pair); }
  }

  /** Revision and deletion as one number that only grows. */
  ghost function Rank(ops: seq<Operation>, pair: nat): nat {
    2 * Revision(ops, pair) + if Deleted(ops, pair) then 1 else 0
  }

  lemma {:induction false} RankIsState(a: seq<Operation>, b: seq<Operation>, pair: nat)
    ensures Rank(a, pair) == Rank(b, pair) <==> After(a, pair) == After(b, pair)
  {
    AfterShape(a, pair);
    AfterShape(b, pair);
    if After(a, pair) == After(b, pair) {
      assert After(a, pair)[pair * 2 + 1] == Revision(a, pair);
      assert pair * 2 in After(a, pair) <==> !Deleted(a, pair);
      assert pair * 2 in After(b, pair) <==> !Deleted(b, pair);
    }
  }

  lemma {:induction false} RankStep(ops: seq<Operation>, pair: nat, n: nat)
    requires Rising(ops) && 0 < n <= |ops|
    ensures Rank(ops[..n - 1], pair) <= Rank(ops[..n], pair)
  {
    var front := ops[..n - 1];
    assert ops[..n][..n - 1] == front;
    var r := Revision(front, pair);
    if r > 0 {
      var i :| 0 <= i < |front| && r == front[i].revision;
      assert front[i] == ops[i];
    }
  }

  lemma {:induction false} RankGrows(ops: seq<Operation>, pair: nat, k: nat, n: nat)
    requires Rising(ops) && k <= n <= |ops|
    ensures Rank(ops[..k], pair) <= Rank(ops[..n], pair)
  {
    if k < n {
      RankGrows(ops, pair, k, n - 1);
      RankStep(ops, pair, n);
    }
  }

  /** Once the journal has left a state it never shows it again. */
  lemma {:induction false} NeverReturns(ops: seq<Operation>, pair: nat, k: nat, m: nat, n: nat)
    requires Rising(ops) && k <= m <= n <= |ops|
    requires After(ops[..k], pair) == After(ops[..n], pair)
    ensures After(ops[..m], pair) == After(ops[..k], pair)
  {
    RankGrows(ops, pair, k, m);
    RankGrows(ops, pair, m, n);
    RankIsState(ops[..k], ops[..n], pair);
    RankIsState(ops[..k], ops[..m], pair);
  }

  lemma {:induction false} ScheduledIsRising(ops: seq<Operation>)
    requires Scheduled(ops)
    ensures Rising(ops)
  {
    forall j: nat | j < |ops| && ops[j].kind == Replace ensures ops[j].revision >= 1 {
      assert Matches(ops[j], SlotAt(j));
    }
    forall i: nat, j: nat | i < j < |ops| && ops[j].kind == Replace ensures ops[i].revision < ops[j].revision {
      assert Matches(ops[i], SlotAt(i)) && Matches(ops[j], SlotAt(j));
      assert i / 5 < j / 5 || i % 5 < j % 5;
    }
  }

  // ----- the exact gap between single reads and a history -------------------

  /** Read `i` shows update `m` done; the later read `j` of the same pair shows it not yet done. */
  ghost predicate Inverted(ops: seq<Operation>, log: seq<Read>, i: nat, j: nat, m: nat) {
    && i < |log| && j < |log| && m < |ops| && Precedes(log[i], log[j])
    && log[i].pair == log[j].pair == ops[m].pair
    && log[i].state == After(ops[..m + 1], log[i].pair) != After(ops[..m], log[i].pair) == log[j].state
  }

  ghost predicate NoInversion(ops: seq<Operation>, log: seq<Read>) {
    forall i: nat, j: nat, m: nat :: !Inverted(ops, log, i, j, m)
  }

  ghost predicate EachExplained(ops: seq<Operation>, log: seq<Read>) {
    forall j :: 0 <= j < |log| ==> Observable(ops, log[j].pair, log[j].start, log[j].end, log[j].state)
  }

  /** `k` is the first position where the read fits. */
  ghost predicate LeastFit(ops: seq<Operation>, read: Read, k: nat) {
    ReadFits(ops, read, k) && forall m: nat :: m < k ==> !ReadFits(ops, read, m)
  }

  lemma {:induction false} SomeLeastFit(ops: seq<Operation>, read: Read, n: nat) returns (k: nat)
    requires ReadFits(ops, read, n)
    ensures LeastFit(ops, read, k)
    decreases n
  {
    if m: nat :| m < n && ReadFits(ops, read, m) {
      k := SomeLeastFit(ops, read, m);
    } else {
      k := n;
    }
  }

  lemma {:induction false} LeastCuts(ops: seq<Operation>, log: seq<Read>, n: nat) returns (least: seq<nat>)
    requires Ordered(ops) && Timed(log) && EachExplained(ops, log) && n <= |log|
    ensures |least| == n && forall j :: 0 <= j < n ==> LeastFit(ops, log[j], least[j])
  {
    if n == 0 {
      least := [];
    } else {
      least := LeastCuts(ops, log, n - 1);
      var k := FirstFit(ops, log[n - 1]);
      least := least + [k];
    }
  }

  lemma {:induction false} FirstFit(ops: seq<Operation>, read: Read) returns (k: nat)
    requires Ordered(ops) && read.start < read.end && Observable(ops, read.pair, read.start, read.end, read.state)
    ensures LeastFit(ops, read, k)
  {
    ObservableIffFits(ops, read.pair, read.start, read.end, read.state);
    var m: nat :| Fits(ops, read.start, read.end, m) && read.state == After(ops[..m], read.pair);
    assert ReadFits(ops, read, m);
    k := SomeLeastFit(ops, read, m);
  }

  lemma {:induction false} OtherPairKeeps(ops: seq<Operation>, pair: nat, m: nat)
    requires m < |ops| && ops[m].pair != pair
    ensures After(ops[..m + 1], pair) == After(ops[..m], pair)
  {
    assert ops[..m + 1][..m] == ops[..m];
  }

  /** First positions of ordered reads cross by at most one operation, which spans both reads. */
  lemma {:induction false} CrossByOne(ops: seq<Operation>, earlier: Read, later: Read, k: nat, m: nat)
    requires Ordered(ops) && earlier.start < earlier.end <= later.start < later.end
    requires Fits(ops, earlier.start, earlier.end, k) && Fits(ops, later.start, later.end, m) && m < k
    ensures k == m + 1 && Fits(ops, earlier.start, earlier.end, m) && Fits(ops, later.start, later.end, k)
  {
    assert ops[m].start < ops[m].end;
    assert k < |ops| ==> ops[m].end <= ops[k].start < ops[k].end;
    assert m > 0 ==> ops[m - 1].start < ops[m - 1].end <= ops[m].start;
  }

  lemma {:induction false} LaterCanWait(ops: seq<Operation>, log: seq<Read>, i: nat, j: nat, k: nat, m: nat)
    requires Ordered(ops) && Timed(log) && i < |log| && j < |log| && Precedes(log[i], log[j])
    requires LeastFit(ops, log[i], k) && ReadFits(ops, log[j], m) && m < k
    requires !Inverted(ops, log, i, j, m)
    ensures ReadFits(ops, log[j], k)
  {
    CrossByOne(ops, log[i], log[j], k, m);
    assert !ReadFits(ops, log[i], m);
    if ops[m].pair != log[i].pair { OtherPairKeeps(ops, log[i].pair, m); }
    if ops[m].pair != log[j].pair { OtherPairKeeps(ops, log[j].pair, m); }
  }

  /** Of read `j` and the first `n` reads, the one placed last among `j` and those before it. */
  ghost function Peak(log: seq<Read>, least: seq<nat>, j: nat, n: nat): (p: nat)
    requires j < |log| == |least| && n <= |log|
    ensures p < |log| && (p == j || Precedes(log[p], log[j])) && least[j] <= least[p]
    ensures forall i :: 0 <= i < n && Precedes(log[i], log[j]) ==> least[i] <= least[p]
  {
    if n == 0 then j else
      var p := Peak(log, least, j, n - 1);
      if Precedes(log[n - 1], log[j]) && least[n - 1] > least[p] then n - 1 else p
  }

  lemma {:induction false} PeaksRespect(log: seq<Read>, least: seq<nat>, cuts: seq<nat>)
    requires Timed(log) && |cuts| == |least| == |log|
    requires forall j: nat :: j < |log| ==> cuts[j] == least[Peak(log, least, j, |log|)]
    ensures Respects(log, cuts)
  {
    forall i: nat, j: nat | i < |log| && j < |log| && Precedes(log[i], log[j]) ensures cuts[i] <= cuts[j] {
      var p := Peak(log, least, i, |log|);
      assert Precedes(log[p], log[j]);
    }
  }

  lemma {:induction false} NoInversionExplains(ops: seq<Operation>, log: seq<Read>)
    requires Ordered(ops) && Timed(log) && EachExplained(ops, log) && NoInversion(ops, log)
    ensures JointlyExplained(ops, log)
  {
    var least := LeastCuts(ops, log, |log|);
    var cuts: seq<nat> := seq(|log|, j requires 0 <= j < |log| => least[Peak(log, least, j, |log|)]);
    forall j: nat | j < |log| ensures ReadFits(ops, log[j], cuts[j]) {
      var i := Peak(log, least, j, |log|);
      assert LeastFit(ops, log[i], least[i]) && LeastFit(ops, log[j], least[j]);
      if least[j] < least[i] { LaterCanWait(ops, log, i, j, least[i], least[j]); }
    }
    PeaksRespect(log, least, cuts);
    CutsExplain(ops, log, cuts);
  }

  lemma {:induction false} MonotoneNotInverted(ops: seq<Operation>, log: seq<Read>, cuts: seq<nat>, i: nat, j: nat,
                                               m: nat)
    requires Rising(ops) && MonotoneCuts(ops, log, cuts)
    ensures !Inverted(ops, log, i, j, m)
  {
    if Inverted(ops, log, i, j, m) {
      var pair, a, b := log[i].pair, cuts[i], cuts[j];
      assert ReadFits(ops, log[i], a) && ReadFits(ops, log[j], b) && a <= b;
      if a <= m {
        NeverReturns(ops, pair, a, m, m + 1);
        assert false;
      } else {
        NeverReturns(ops, pair, m, m + 1, b);
        assert false;
      }
    }
  }

  /**
   On a journal with rising revisions, one atomic execution explains all reads of any number of
   readers exactly when every read is explained on its own and no read goes back behind an
   update of its pair that a read before it has shown.
   */
  lemma {:induction false} ExplainedIffNoInversion(ops: seq<Operation>, log: seq<Read>)
    requires Ordered(ops) && Rising(ops) && Timed(log)
    ensures JointlyExplained(ops, log) <==> EachExplained(ops, log) && NoInversion(ops, log)
  {
    if JointlyExplained(ops, log) {
      JointImpliesEach(ops, log);
      var cuts := ExplainedHasCuts(ops, log);
      forall i: nat, j: nat, m: nat ensures !Inverted(ops, log, i, j, m) {
        MonotoneNotInverted(ops, log, cuts, i, j, m);
      }
    }
    if EachExplained(ops, log) && NoInversion(ops, log) {
      NoInversionExplains(ops, log);
    }
  }

  // ----- what accepted query logs leave open ----------------------------------

  ghost function ReadOf(query: Query): Read {
    Read(query.pair, query.start, query.end, DictOf(query.found))
  }

  ghost function Reads(queries: seq<Query>): (log: seq<Read>)
    ensures |log| == |queries|
  {
    seq(|queries|, i requires 0 <= i < |queries| => ReadOf(queries[i]))
  }

  /** The reads of all readers. */
  ghost function AllReads(logs: seq<seq<Query>>): seq<Read> {
    if logs == [] then [] else Reads(logs[0]) + AllReads(logs[1..])
  }

  /** The logs of readers `first`, `first + 1`, ... are accepted. */
  ghost predicate AllAccepted(logs: seq<seq<Query>>, ops: seq<Operation>, first: nat) {
    forall r: nat :: r < |logs| ==> AllGood(logs[r], ops, first + r, |logs[r]|)
  }

  lemma {:induction false} AcceptedReadsExplained(logs: seq<seq<Query>>, ops: seq<Operation>, first: nat)
    requires AllAccepted(logs, ops, first)
    ensures Timed(AllReads(logs)) && EachExplained(ops, AllReads(logs))
  {
    if logs != [] {
      var log, rest := Reads(logs[0]), logs[1..];
      forall j: nat | j < |log|
        ensures log[j].start < log[j].end && Observable(ops, log[j].pair, log[j].start, log[j].end, log[j].state)
      {
        assert AllGood(logs[0], ops, first + 0, |logs[0]|);
        assert GoodQuery(logs[0], ops, first, j);
      }
      forall r: nat | r < |rest| ensures AllGood(rest[r], ops, first + 1 + r, |rest[r]|) {
        assert AllGood(logs[r + 1], ops, first + (r + 1), |logs[r + 1]|);
      }
      AcceptedReadsExplained(rest, ops, first + 1);
    }
  }

  /**
   What acceptance means for a scheduled journal and the logs of all readers together: one
   atomic execution explains every read of every reader if and only if no two are inverted.
   */
  lemma {:induction false} AcceptedLogsMeaning(ops: seq<Operation>, logs: seq<seq<Query>>)
    requires Scheduled(ops) && AllAccepted(logs, ops, 0)
    ensures JointlyExplained(ops, AllReads(logs)) <==> NoInversion(ops, AllReads(logs))
  {
    ScheduledIsRising(ops);
    AcceptedReadsExplained(logs, ops, 0);
    ExplainedIffNoInversion(ops, AllReads(logs));
  }

  // ----- accepted logs without a common explanation ----------------------------

  /** A journal that follows the schedule, each operation taking 5000 ticks. */
  ghost function SlowJournal(): (ops: seq<Operation>)
    ensures |ops| == OPERATIONS
  {
    seq(OPERATIONS, i requires 0 <= i < OPERATIONS =>
      Operation(SlotAt(i).kind, SlotAt(i).pair, SlotAt(i).revision, 5000 * i, 5000 * i + 5000))
  }

  /** The position between operations at which a read of this log is placed. */
  ghost function SwiftCut(reader: nat, i: nat): nat {
    if reader == 0 && i == 1 then 2 else 1
  }

  ghost function SwiftRevision(reader: nat, i: nat): nat {
    if PairOf(reader, i) == 0 then 1 else if reader == 0 && i == 1 then 2 else 0
  }

  /** All queries fall inside the second replacement; only query 1 of reader 0 sees it. */
  ghost function SwiftQuery(reader: nat, i: nat): Query {
    var pair, revision := PairOf(reader, i), SwiftRevision(reader, i);
    Query(reader, i, pair, 5001 + 2 * i, 5002 + 2 * i, [(pair * 2, revision), (pair * 2 + 1, revision)])
  }

  ghost function SwiftLog(reader: nat): (queries: seq<Query>)
    ensures |queries| == QUERIES && forall i: nat :: i < QUERIES ==> queries[i] == SwiftQuery(reader, i)
  {
    seq(QUERIES, i requires 0 <= i < QUERIES => SwiftQuery(reader, i))
  }

  lemma {:induction false} SwiftFound(pair: nat, revision: nat)
    ensures DictOf([(pair * 2, revision), (pair * 2 + 1, revision)]) == Shape(pair, revision, false)
    ensures |Shape(pair, revision, false)| == 2
  {
    var first, both := [(pair * 2, revision)], [(pair * 2, revision), (pair * 2 + 1, revision)];
    assert both[..1] == first && first[..0] == [];
    assert DictOf(first) == map[pair * 2 := revision];
    var dict := Shape(pair, revision, false);
    assert dict == DictOf(first)[pair * 2 + 1 := revision];
    assert |dict| == |DictOf(first)| + 1;
  }

  lemma {:induction false} SlowJournalScheduled()
    ensures Scheduled(SlowJournal())
  {
  }

  /** The states of the first pairs around the first two replacements. */
  lemma {:induction false} SlowStates(pair: nat)
    ensures After(SlowJournal()[..1], pair) == Shape(pair, if pair == 0 then 1 else 0, false)
    ensures After(SlowJournal()[..2], pair) == Shape(pair, if pair == 0 then 1 else if pair == 1 then 2 else 0, false)
  {
    var ops := SlowJournal();
    assert SlotAt(0) == Slot(Replace, 0, 1) && SlotAt(1) == Slot(Replace, 1, 2);
    assert ops[..1][..0] == [];
    assert ops[..2][..1] == ops[..1];
  }

  lemma {:induction false} SwiftFits(i: nat, k: nat)
    requires i < QUERIES && 1 <= k <= 2
    ensures Fits(SlowJournal(), 5001 + 2 * i, 5002 + 2 * i, k)
  {
  }

  lemma {:induction false} SwiftState(reader: nat, i: nat)
    requires i < QUERIES
    ensures DictOf(SwiftQuery(reader, i).found) == Shape(PairOf(reader, i), SwiftRevision(reader, i), false)
    ensures DictOf(SwiftQuery(reader, i).found) == After(SlowJournal()[..SwiftCut(reader, i)], PairOf(reader, i))
  {
    SwiftFound(PairOf(reader, i), SwiftRevision(reader, i));
    SlowStates(PairOf(reader, i));
    assert PairOf(0, 1) == 1;
  }

  lemma {:induction false} SwiftIsExplained(reader: nat, i: nat)
    requires i < QUERIES
    ensures Explained(SlowJournal(), SwiftQuery(reader, i))
  {
    var ops, query, k := SlowJournal(), SwiftQuery(reader, i), SwiftCut(reader, i);
    SlowJournalScheduled();
    SwiftFound(query.pair, SwiftRevision(reader, i));
    SwiftState(reader, i);
    SwiftFits(i, k);
    ObservableIffFits(ops, query.pair, query.start, query.end, DictOf(query.found));
  }

  lemma {:induction false} SwiftIsWellFormed(reader: nat, i: nat)
    requires i < QUERIES
    ensures WellFormed(SwiftLog(reader), reader, i)
  {
  }

  lemma {:induction false} SwiftLogIsGood(reader: nat)
    ensures AllGood(SwiftLog(reader), SlowJournal(), reader, QUERIES)
  {
    forall i: nat | i < QUERIES ensures GoodQuery(SwiftLog(reader), SlowJournal(), reader, i) {
      SwiftIsWellFormed(reader, i);
      SwiftIsExplained(reader, i);
    }
  }

  lemma {:induction false} SwiftIsInverted(log: seq<Read>)
    requires |log| >= QUERIES && forall i: nat :: i < QUERIES ==> log[i] == ReadOf(SwiftQuery(0, i))
    ensures Inverted(SlowJournal(), log, 1, 17, 1)
  {
    SwiftState(0, 1);
    SwiftState(0, 17);
    assert PairOf(0, 1) == PairOf(0, 17) == 1;
    SlowStates(1);
    assert Shape(1, 2, false)[2] != Shape(1, 0, false)[2];
    assert SlotAt(1) == Slot(Replace, 1, 2);
  }

  /**
   The converse of `JointImpliesEach` fails on inputs of the size the check demands: a scheduled
   journal and four accepted logs of 1024 queries, all starting after the first replacement.
   */
  lemma {:induction false} AcceptedIsNotJoint() returns (ops: seq<Operation>, logs: seq<seq<Query>>)
    ensures Scheduled(ops) && |logs| == READERS && AllAccepted(logs, ops, 0)
    ensures forall r: nat :: r < READERS ==> |logs[r]| == QUERIES
    ensures forall r: nat, i: nat :: r < READERS && i < QUERIES ==> ops[0].end <= logs[r][i].start
    ensures !JointlyExplained(ops, AllReads(logs))
  {
    ops := SlowJournal();
    logs := seq(READERS, r requires 0 <= r < READERS => SwiftLog(r));
    SlowJournalScheduled();
    forall r: nat | r < READERS ensures AllGood(logs[r], ops, 0 + r, |logs[r]|) { SwiftLogIsGood(r); }
    forall i: nat | i < QUERIES ensures |AllReads(logs)| >= QUERIES && AllReads(logs)[i] == ReadOf(SwiftQuery(0, i)) {
      assert AllReads(logs)[i] == Reads(logs[0])[i];
    }
    SwiftIsInverted(AllReads(logs));
    AcceptedLogsMeaning(ops, logs);
  }
}
