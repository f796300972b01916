/**
 The acknowledged-update oracle of benchmarks/public/check_compaction_updates.py. An
 operation or a read is atomic: it takes effect at one real instant strictly inside its
 recorded interval. `States` lists exactly the pair states some such instants can show.
 */
module CompactionOracle {

  datatype Kind = Replace | Delete
  datatype Operation = Operation(kind: Kind, pair: nat, revision: nat, start: int, end: int)

  /** The documents of one pair that are present, with their revisions. */
  type PairState = map<nat, nat>

  datatype Outcome<T> = KeyError | Listed(value: T)

  function Initial(pair: nat): PairState {
    map[pair * 2 := 0, pair * 2 + 1 := 0]
  }

  function Apply(op: Operation, state: PairState): PairState {
    match op.kind
    case Replace => map[op.pair * 2 := op.revision, op.pair * 2 + 1 := op.revision]
    case Delete => state - {op.pair * 2}
  }

  /** The state of `pair` after all of `ops`. */
  ghost function After(ops: seq<Operation>, pair: nat): PairState {
    if ops == [] then Initial(pair) else
      var before := After(ops[..|ops| - 1], pair);
      if ops[|ops| - 1].pair == pair then Apply(ops[|ops| - 1], before) else before
  }

  ghost predicate Ordered(ops: seq<Operation>) {
    && (forall i :: 0 <= i < |ops| ==> ops[i].start < ops[i].end)
    && (forall i, j :: 0 <= i < j < |ops| ==> ops[i].end <= ops[j].start)
  }

  // ----- atomic reads ------------------------------------------------------

  /** One instant per operation, strictly inside its interval. */
  ghost predicate Instants(ops: seq<Operation>, at: seq<real>) {
    && |at| == |ops|
    && forall i :: 0 <= i < |ops| ==> ops[i].start as real < at[i] < ops[i].end as real
  }

  /** What a read of `pair` at instant `t` sees. */
  ghost function Seen(ops: seq<Operation>, at: seq<real>, pair: nat, t: real): PairState
    requires |at| == |ops|
  {
    if ops == [] then Initial(pair) else
      var n := |ops| - 1;
      var before := Seen(ops[..n], at[..n], pair, t);
      if ops[n].pair == pair && at[n] <= t then Apply(ops[n], before) else before
  }

  ghost predicate SeenAt(ops: seq<Operation>, pair: nat, start: int, end: int, state: PairState, at: seq<real>,
                         t: real) {
    && Instants(ops, at)
    && start as real < t < end as real
    && state == Seen(ops, at, pair, t)
  }

  /** Some atomic execution shows `state` to a read over `(start, end)`. */
  ghost predicate Observable(ops: seq<Operation>, pair: nat, start: int, end: int, state: PairState) {
    exists at, t :: SeenAt(ops, pair, start, end, state, at, t)
  }

  /** Instant `t` cuts the operations after the first `k`. */
  ghost predicate CutAt(at: seq<real>, t: real, k: nat) {
    && k <= |at|
    && (forall i :: 0 <= i < k ==> at[i] <= t)
    && (forall i :: k <= i < |at| ==> t < at[i])
  }

  lemma {:induction false} SeenIsPrefix(ops: seq<Operation>, at: seq<real>, pair: nat, t: real, k: nat)
    requires |at| == |ops| && CutAt(at, t, k)
    ensures Seen(ops, at, pair, t) == After(ops[..k], pair)
  {
    if ops == [] {
    } else {
      var n := |ops| - 1;
      if k == |ops| {
        assert ops[..k] == ops;
        SeenIsPrefix(ops[..n], at[..n], pair, t, n);
        assert ops[..n][..n] == ops[..n];
      } else {
        assert ops[..n][..k] == ops[..k];
        SeenIsPrefix(ops[..n], at[..n], pair, t, k);
      }
    }
  }

  lemma {:induction false} FindCut(ops: seq<Operation>, at: seq<real>, t: real) returns (k: nat)
    requires Ordered(ops) && Instants(ops, at)
    ensures CutAt(at, t, k)
  {
    k := 0;
    while k < |at| && at[k] <= t
      invariant k <= |at|
      invariant forall i :: 0 <= i < k ==> at[i] <= t
    {
      k := k + 1;
    }
    forall i | k <= i < |at| ensures t < at[i] {
      if i != k { assert ops[k].end <= ops[i].start; }
    }
  }

  /** A read over `(start, end)` can fall between operation `k - 1` and operation `k`. */
  ghost predicate Fits(ops: seq<Operation>, start: int, end: int, k: nat) {
    && k <= |ops|
    && (k > 0 ==> ops[k - 1].start < end)
    && (k < |ops| ==> start < ops[k].end)
  }

  ghost function MinReal(x: real, y: real): real { if x < y then x else y }
  ghost function MaxReal(x: real, y: real): real { if x < y then y else x }

  lemma {:induction false} FitsIsCut(ops: seq<Operation>, start: int, end: int, k: nat) returns (at: seq<real>, t: real)
    requires Ordered(ops) && start < end && Fits(ops, start, end, k)
    ensures Instants(ops, at) && start as real < t < end as real && CutAt(at, t, k)
  {
    var lo := if k > 0 then MaxReal(start as real, ops[k - 1].start as real) else start as real;
    var hi := if k < |ops| then MinReal(end as real, ops[k].end as real) else end as real;
    assert lo < hi by {
      if 0 < k < |ops| { assert ops[k - 1].end <= ops[k].start; }
    }
    t := (lo + hi) / 2.0;
    at := seq(|ops|, i requires 0 <= i < |ops| =>
      if i < k then (ops[i].start as real + MinReal(ops[i].end as real, t)) / 2.0
      else (MaxReal(ops[i].start as real, t) + ops[i].end as real) / 2.0);
    forall i | 0 <= i < |ops|
      ensures ops[i].start as real < at[i] < ops[i].end as real && (i < k <==> at[i] <= t)
    {
      if i < k {
        assert i < k - 1 ==> ops[i].end <= ops[k - 1].start;
      } else {
        assert k < i ==> ops[k].end <= ops[i].start;
      }
    }
  }

  lemma {:induction false} CutFits(ops: seq<Operation>, at: seq<real>, t: real, start: int, end: int, k: nat)
    requires Instants(ops, at) && start as real < t < end as real && CutAt(at, t, k)
    ensures Fits(ops, start, end, k)
  {
    if k > 0 { assert at[k - 1] <= t; }
    if k < |ops| { assert t < at[k]; }
  }

  /** Observable states are the states between two operations where the read fits. */
  lemma {:induction false} ObservableIffFits(ops: seq<Operation>, pair: nat, start: int, end: int, state: PairState)
    requires Ordered(ops) && start < end
    ensures Observable(ops, pair, start, end, state)
            <==> exists k: nat :: Fits(ops, start, end, k) && state == After(ops[..k], pair)
  {
    if Observable(ops, pair, start, end, state) {
      var at, t :| SeenAt(ops, pair, start, end, state, at, t);
      var k := FindCut(ops, at, t);
      SeenIsPrefix(ops, at, pair, t, k);
      CutFits(ops, at, t, start, end, k);
    }
    if exists k: nat :: Fits(ops, start, end, k) && state == After(ops[..k], pair) {
      var k: nat :| Fits(ops, start, end, k) && state == After(ops[..k], pair);
      var at, t := FitsIsCut(ops, start, end, k);
      SeenIsPrefix(ops, at, pair, t, k);
      assert SeenAt(ops, pair, start, end, state, at, t);
    }
  }

  // ----- the candidate loop ------------------------------------------------

  /** No operation of `pair` among the first `k` starts at or after `end`. */
  ghost predicate Reached(ops: seq<Operation>, pair: nat, end: int, k: nat) {
    k <= |ops| && forall j :: 0 <= j < k && ops[j].pair == pair ==> ops[j].start < end
  }

  ghost predicate Appended(ops: seq<Operation>, pair: nat, start: int, end: int, k: nat) {
    && Reached(ops, pair, end, k) && k < |ops|
    && ops[k].pair == pair && start < ops[k].end && ops[k].start < end
  }

  ghost predicate Last(ops: seq<Operation>, pair: nat, end: int, k: nat) {
    && Reached(ops, pair, end, k)
    && (k < |ops| ==> ops[k].pair == pair && end <= ops[k].start)
  }

  ghost predicate Quiet(ops: seq<Operation>, pair: nat, lo: nat, hi: nat) {
    lo <= hi <= |ops| && forall j :: lo <= j < hi ==> ops[j].pair != pair
  }

  lemma {:induction false} QuietKeepsState(ops: seq<Operation>, pair: nat, lo: nat, hi: nat)
    requires Quiet(ops, pair, lo, hi)
    ensures After(ops[..hi], pair) == After(ops[..lo], pair)
    decreases hi
  {
    if lo < hi {
      QuietKeepsState(ops, pair, lo, hi - 1);
      assert ops[..hi][..hi - 1] == ops[..hi - 1];
    }
  }

  /** The next operation of the pair at or after `k`. */
  lemma {:induction false} NextOfPair(ops: seq<Operation>, pair: nat, k: nat) returns (next: nat)
    requires k <= |ops|
    ensures Quiet(ops, pair, k, next) && (next < |ops| ==> ops[next].pair == pair)
  {
    next := k;
    while next < |ops| && ops[next].pair != pair
      invariant Quiet(ops, pair, k, next)
    {
      next := next + 1;
    }
  }

  lemma {:induction false} ListedFits(ops: seq<Operation>, pair: nat, start: int, end: int, k: nat) returns (cut: nat)
    requires Ordered(ops) && start < end
    requires Appended(ops, pair, start, end, k) || Last(ops, pair, end, k)
    ensures Fits(ops, start, end, cut) && After(ops[..cut], pair) == After(ops[..k], pair)
  {
    if Appended(ops, pair, start, end, k) {
      cut := k;
      if k > 0 { assert ops[k - 1].end <= ops[k].start; }
    } else {
      cut := k;
      while cut > 0 && end <= ops[cut - 1].start
        invariant cut <= k && Quiet(ops, pair, cut, k)
        invariant cut < k ==> end <= ops[cut].start
      {
        cut := cut - 1;
      }
      QuietKeepsState(ops, pair, cut, k);
    }
  }

  lemma {:induction false} FitsListed(ops: seq<Operation>, pair: nat, start: int, end: int, cut: nat) returns (k: nat)
    requires Ordered(ops) && start < end && Fits(ops, start, end, cut)
    ensures Appended(ops, pair, start, end, k) || Last(ops, pair, end, k)
    ensures After(ops[..cut], pair) == After(ops[..k], pair)
  {
    k := NextOfPair(ops, pair, cut);
    QuietKeepsState(ops, pair, cut, k);
    forall j | 0 <= j < k && ops[j].pair == pair ensures ops[j].start < end {
      assert j < cut;
      if j < cut - 1 { assert ops[j].end <= ops[cut - 1].start; }
    }
    if cut < k < |ops| { assert ops[cut].end <= ops[k].start; }
  }

  ghost predicate IsListed(ops: seq<Operation>, pair: nat, start: int, end: int, state: PairState) {
    exists k: nat :: (Appended(ops, pair, start, end, k) || Last(ops, pair, end, k)) && state == After(ops[..k], pair)
  }

  /** Soundness and completeness of the loop's own bookkeeping. */
  lemma {:induction false} ListedIffObservable(ops: seq<Operation>, pair: nat, start: int, end: int, state: PairState)
    requires Ordered(ops) && start < end
    ensures IsListed(ops, pair, start, end, state) <==> Observable(ops, pair, start, end, state)
  {
    ObservableIffFits(ops, pair, start, end, state);
    if IsListed(ops, pair, start, end, state) {
      var k: nat :| (Appended(ops, pair, start, end, k) || Last(ops, pair, end, k)) && state == After(ops[..k], pair);
      var cut := ListedFits(ops, pair, start, end, k);
    }
    if exists cut: nat :: Fits(ops, start, end, cut) && state == After(ops[..cut], pair) {
      var cut: nat :| Fits(ops, start, end, cut) && state == After(ops[..cut], pair);
      var k := FitsListed(ops, pair, start, end, cut);
    }
  }

  // ----- missing keys ------------------------------------------------------

  /** Two deletions of the pair, the second one reached, with no operation of the pair between. */
  ghost predicate DoubleDelete(ops: seq<Operation>, pair: nat, end: int, j: nat, k: nat) {
    && j < k < |ops| && Reached(ops, pair, end, k + 1)
    && ops[j].pair == pair && ops[j].kind == Delete
    && ops[k].pair == pair && ops[k].kind == Delete
    && Quiet(ops, pair, j + 1, k)
  }

  ghost predicate PopMisses(ops: seq<Operation>, pair: nat, end: int) {
    exists j: nat, k: nat :: DoubleDelete(ops, pair, end, j, k)
  }

  /** The first document is missing exactly when the last operation of the pair deleted it. */
  lemma {:induction false} MissingMeansDeleted(ops: seq<Operation>, pair: nat)
    ensures pair * 2 !in After(ops, pair)
            <==> exists j: nat ::
                   j < |ops| && ops[j].pair == pair && ops[j].kind == Delete && Quiet(ops, pair, j + 1, |ops|)
  {
    if ops != [] {
      var n := |ops| - 1;
      var front := ops[..n];
      MissingMeansDeleted(front, pair);
      if ops[n].pair == pair {
        if ops[n].kind == Delete { assert Quiet(ops, pair, n + 1, |ops|); }
      } else {
        if j: nat :|
          j < |front| && front[j].pair == pair && front[j].kind == Delete && Quiet(front, pair, j + 1, |front|)
        {
          assert ops[j] == front[j] && Quiet(ops, pair, j + 1, |ops|);
        }
        if j: nat :| j < |ops| && ops[j].pair == pair && ops[j].kind == Delete && Quiet(ops, pair, j + 1, |ops|) {
          assert j < n && front[j] == ops[j] && Quiet(front, pair, j + 1, |front|);
        }
      }
    }
  }

  lemma {:induction false} MissAt(ops: seq<Operation>, pair: nat, end: int, k: nat)
    requires k < |ops| && Reached(ops, pair, end, k + 1) && ops[k].pair == pair && ops[k].kind == Delete
    ensures pair * 2 !in After(ops[..k], pair) <==> exists j: nat :: DoubleDelete(ops, pair, end, j, k)
  {
    var front := ops[..k];
    MissingMeansDeleted(front, pair);
    if j: nat :| j < |front| && front[j].pair == pair && front[j].kind == Delete && Quiet(front, pair, j + 1, |front|) {
      assert forall i :: j + 1 <= i < k ==> ops[i] == front[i];
      assert DoubleDelete(ops, pair, end, j, k);
    }
    if j: nat :| DoubleDelete(ops, pair, end, j, k) {
      assert front[j] == ops[j] && Quiet(front, pair, j + 1, |front|);
    }
  }

  /** `candidates` holds exactly the states appended before operation `i`. */
  ghost predicate Collected(ops: seq<Operation>, pair: nat, start: int, end: int, i: nat, candidates: seq<PairState>) {
    && i <= |ops|
    && forall s :: s in candidates <==>
      exists k: nat :: k < i && Appended(ops, pair, start, end, k) && s == After(ops[..k], pair)
  }

  lemma {:induction false} CollectNext(ops: seq<Operation>, pair: nat, start: int, end: int, i: nat,
                                       candidates: seq<PairState>)
    requires i < |ops| && Collected(ops, pair, start, end, i, candidates)
    ensures Appended(ops, pair, start, end, i) ==>
              Collected(ops, pair, start, end, i + 1, candidates + [After(ops[..i], pair)])
    ensures !Appended(ops, pair, start, end, i) ==> Collected(ops, pair, start, end, i + 1, candidates)
  {
  }

  /** With the state at the break appended, exactly the observable states are listed. */
  lemma {:induction false} CollectedIsObservable(ops: seq<Operation>, pair: nat, start: int, end: int, i: nat,
                                                 candidates: seq<PairState>, s: PairState)
    requires Ordered(ops) && start < end
    requires Last(ops, pair, end, i) && Collected(ops, pair, start, end, i, candidates)
    ensures s in candidates + [After(ops[..i], pair)] <==> Observable(ops, pair, start, end, s)
  {
    ListedIffObservable(ops, pair, start, end, s);
    forall k: nat | Last(ops, pair, end, k) ensures k == i { LastUnique(ops, pair, end, k, i); }
    forall k: nat | Appended(ops, pair, start, end, k) ensures k < i {}
  }

  /**
   The oracle: it fails exactly when a deletion finds its key already deleted, and otherwise
   lists exactly the states observable by an atomic read strictly inside `(start, end)`.
   */
  method States(ops: seq<Operation>, pair: nat, start: int, end: int) returns (r: Outcome<seq<PairState>>)
    requires Ordered(ops) && start < end
    ensures r.KeyError? <==> PopMisses(ops, pair, end)
    ensures r.Listed? ==> r.value != []
    ensures r.Listed? ==> forall state :: state in r.value <==> Observable(ops, pair, start, end, state)
    ensures r.Listed? ==> exists k: nat :: Last(ops, pair, end, k) && r.value[|r.value| - 1] == After(ops[..k], pair)
  {
    var state := Initial(pair);
    var candidates: seq<PairState> := [];
    var i := 0;
    while i < |ops|
      invariant i <= |ops| && Reached(ops, pair, end, i)
      invariant state == After(ops[..i], pair)
      invariant Collected(ops, pair, start, end, i, candidates)
      invariant forall j: nat, k: nat :: k < i ==> !DoubleDelete(ops, pair, end, j, k)
    {
      var op := ops[i];
      assert ops[..i + 1][..i] == ops[..i];
      CollectNext(ops, pair, start, end, i, candidates);
      if op.pair == pair {
        if op.start >= end { break; }
        if op.end > start {
          candidates := candidates + [state];
        }
        if op.kind == Replace {
          state := map[pair * 2 := op.revision, pair * 2 + 1 := op.revision];
        } else {
          MissAt(ops, pair, end, i);
          if pair * 2 !in state { return KeyError; }
          state := state - {pair * 2};
        }
      }
      i := i + 1;
    }
    assert Last(ops, pair, end, i);
    forall s ensures s in candidates + [state] <==> Observable(ops, pair, start, end, s) {
      CollectedIsObservable(ops, pair, start, end, i, candidates, s);
    }
    candidates := candidates + [state];
    assert !PopMisses(ops, pair, end);
    r := Listed(candidates);
  }

  lemma {:induction false} LastUnique(ops: seq<Operation>, pair: nat, end: int, a: nat, b: nat)
    requires Last(ops, pair, end, a) && Last(ops, pair, end, b)
    ensures a == b
  {
  }
}
