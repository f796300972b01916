/**
 Exact nearest neighbours: the blocked merge of benchmarks/public/check_competitive_ann.py and
 the select-then-sort of examples/vector_discovery_diagnosis.rs, for one query. Scores are
 exact; ties go to the smaller database id.
 */
module ExactNeighbours {
  import opened Ordering

  datatype Row = Row(score: real, id: nat)

  /** Score descending, then id ascending. */
  predicate Before(a: Row, b: Row) {
    a.score > b.score || (a.score == b.score && a.id <= b.id)
  }

  lemma {:induction false} BeforeTotalOrder()
    ensures TotalOrder(Before)
  {
  }

  function Min(a: nat, b: nat): nat { if a < b then a else b }

  /** The specification: the first `k` rows of the whole sorted database. */
  function Top(rows: seq<Row>, k: nat): (r: seq<Row>)
    ensures |r| == Min(k, |rows|)
  {
    Sort(rows, Before)[..Min(k, |rows|)]
  }

  /** `out` is sorted and `rest` is what remains, none of it before any of `out`. */
  ghost predicate Separates(rows: seq<Row>, k: nat, out: seq<Row>, rest: seq<Row>) {
    && SortedBy(out, Before) && |out| == Min(k, |rows|)
    && multiset(out) + multiset(rest) == multiset(rows)
    && forall x, y :: x in out && y in rest ==> Before(x, y)
  }

  lemma {:induction false} ConcatSorted(a: seq<Row>, b: seq<Row>)
    requires SortedBy(a, Before) && SortedBy(b, Before)
    requires forall x, y :: x in a && y in b ==> Before(x, y)
    ensures SortedBy(a + b, Before)
  {
    forall i, j | 0 <= i < j < |a + b| ensures Before((a + b)[i], (a + b)[j]) {
      if i < |a| <= j {
        assert a[i] in a && b[j - |a|] in b;
      }
    }
  }

  /** A separated list is the specification's answer. */
  lemma {:induction false} SeparatedIsTop(rows: seq<Row>, k: nat, out: seq<Row>, rest: seq<Row>)
    requires Separates(rows, k, out, rest)
    ensures out == Top(rows, k)
  {
    BeforeTotalOrder();
    var tail := Sort(rest, Before);
    SortSorts(rest, Before);
    SortSorts(rows, Before);
    SameElements(tail, rest);
    ConcatSorted(out, tail);
    assert multiset(out + tail) == multiset(out) + multiset(tail) == multiset(Sort(rows, Before));
    SortedUnique(out + tail, Sort(rows, Before), Before);
  }

  lemma {:induction false} TopSeparates(rows: seq<Row>, k: nat) returns (rest: seq<Row>)
    ensures Separates(rows, k, Top(rows, k), rest)
    ensures |rows| <= k ==> rest == []
  {
    BeforeTotalOrder();
    SortSorts(rows, Before);
    var sorted := Sort(rows, Before);
    var n := Min(k, |rows|);
    rest := sorted[n..];
    assert sorted == sorted[..n] + rest;
    forall x, y | x in sorted[..n] && y in rest ensures Before(x, y) {
      var i :| 0 <= i < n && sorted[..n][i] == x;
      var j :| 0 <= j < |rest| && rest[j] == y;
      assert x == sorted[i] && y == sorted[n + j];
    }
  }

  /** A row dropped by the running list is after every row of the merged list. */
  lemma {:induction false} DroppedStaysOut(a: seq<Row>, b: seq<Row>, k: nat, best: seq<Row>, dropped: seq<Row>,
                                           out: seq<Row>, rest: seq<Row>, x: Row, y: Row)
    requires Separates(a, k, best, dropped) && Separates(best + b, k, out, rest)
    requires |best| == k && x in out && y in dropped
    ensures Before(x, y)
  {
    BeforeTotalOrder();
    if multiset(best) <= multiset(out) {
      assert |multiset(best)| == |multiset(out)| == k;
      var extra := multiset(out) - multiset(best);
      assert multiset(out) == multiset(best) + extra && |extra| == 0;
      assert x in multiset(out) && x in multiset(best);
    } else {
      var z :| multiset(best)[z] > multiset(out)[z];
      assert multiset(best + b)[z] == multiset(best)[z] + multiset(b)[z];
      assert multiset(out)[z] + multiset(rest)[z] == multiset(best + b)[z];
      assert z in multiset(rest) && z in multiset(best);
      assert Before(x, z) && Before(z, y);
    }
  }

  lemma {:induction false} Regroup(out: seq<Row>, rest: seq<Row>, best: seq<Row>, dropped: seq<Row>, a: seq<Row>,
                                   b: seq<Row>)
    requires multiset(out) + multiset(rest) == multiset(best + b)
    requires multiset(best) + multiset(dropped) == multiset(a)
    ensures multiset(out) + multiset(rest + dropped) == multiset(a + b)
  {
    calc {
      multiset(out) + multiset(rest + dropped);
      (multiset(out) + multiset(rest)) + multiset(dropped);
      (multiset(best) + multiset(b)) + multiset(dropped);
      (multiset(best) + multiset(dropped)) + multiset(b);
      multiset(a + b);
    }
  }

  /** Keeping only the best `k` before adding more rows loses nothing. */
  lemma {:induction false} MergeKeepsTop(a: seq<Row>, b: seq<Row>, k: nat)
    ensures Top(Top(a, k) + b, k) == Top(a + b, k)
  {
    var best := Top(a, k);
    var dropped := TopSeparates(a, k);
    var out := Top(best + b, k);
    var rest := TopSeparates(best + b, k);
    var all := rest + dropped;
    Regroup(out, rest, best, dropped, a, b);
    forall x, y | x in out && y in all ensures Before(x, y) {
      if y !in rest {
        assert y in dropped;
        assert dropped != [] && |a| > k;
        DroppedStaysOut(a, b, k, best, dropped, out, rest, x, y);
      }
    }
    assert |out| == Min(k, |a + b|);
    SeparatedIsTop(a + b, k, out, all);
  }

  /** The rows of the database, scored for one query. */
  function Rows(scores: seq<real>, lo: nat, hi: nat): (rows: seq<Row>)
    requires lo <= hi <= |scores|
    ensures |rows| == hi - lo
  {
    seq(hi - lo, i requires 0 <= i < hi - lo => Row(scores[lo + i], lo + i))
  }

  /** A higher score, or the same score and a smaller id. */
  ghost predicate Nearer(scores: seq<real>, i: nat, j: nat)
    requires i < |scores| && j < |scores|
  {
    scores[i] > scores[j] || (scores[i] == scores[j] && i < j)
  }

  /** The ids of the `k` nearest rows, nearest first. */
  ghost predicate AreNearest(scores: seq<real>, k: nat, ids: seq<nat>) {
    && |ids| == (if k < |scores| then k else |scores|)
    && (forall i :: 0 <= i < |ids| ==> ids[i] < |scores|)
    && (forall i, j :: 0 <= i < j < |ids| ==> Nearer(scores, ids[i], ids[j]))
    && (forall i, id: nat :: 0 <= i < |ids| && id < |scores| && id !in ids ==> Nearer(scores, ids[i], id))
  }

  ghost function IdsOf(rows: seq<Row>): (ids: seq<nat>)
    ensures |ids| == |rows|
  {
    seq(|rows|, i requires 0 <= i < |rows| => rows[i].id)
  }

  lemma {:induction false} RowsDistinct(scores: seq<real>)
    ensures Distinct(Rows(scores, 0, |scores|))
    ensures forall x: Row :: x in Rows(scores, 0, |scores|) <==> x.id < |scores| && x.score == scores[x.id]
  {
    var rows := Rows(scores, 0, |scores|);
    forall x: Row | x.id < |scores| && x.score == scores[x.id] ensures x in rows { assert rows[x.id] == x; }
  }

  ghost predicate AreRows(scores: seq<real>, rows: seq<Row>) {
    Distinct(rows) && forall x: Row :: x in rows <==> x.id < |scores| && x.score == scores[x.id]
  }

  lemma {:induction false} TopRows(scores: seq<real>, k: nat, out: seq<Row>, rest: seq<Row>)
    requires out == Top(Rows(scores, 0, |scores|), k) && Separates(Rows(scores, 0, |scores|), k, out, rest)
    ensures AreRows(scores, out + rest)
  {
    var rows := Rows(scores, 0, |scores|);
    RowsDistinct(scores);
    assert multiset(out + rest) == multiset(rows);
    DistinctPermutation(rows, out + rest);
    SameElements(out + rest, rows);
  }

  lemma {:induction false} BeforeIsNearer(scores: seq<real>, x: Row, y: Row)
    requires x.id < |scores| && x.score == scores[x.id] && y.id < |scores| && y.score == scores[y.id]
    requires Before(x, y) && x != y
    ensures Nearer(scores, x.id, y.id)
  {
  }

  lemma {:induction false} SortedIsNearer(scores: seq<real>, out: seq<Row>, rest: seq<Row>, i: nat, j: nat)
    requires AreRows(scores, out + rest) && SortedBy(out, Before) && i < j < |out|
    ensures out[i].id < |scores| && out[j].id < |scores| && Nearer(scores, out[i].id, out[j].id)
  {
    assert (out + rest)[i] == out[i] && (out + rest)[j] == out[j];
    assert out[i] in out + rest && out[j] in out + rest;
    BeforeIsNearer(scores, out[i], out[j]);
  }

  lemma {:induction false} LeftOutIsFarther(scores: seq<real>, out: seq<Row>, rest: seq<Row>, i: nat, id: nat)
    requires AreRows(scores, out + rest) && (forall x, y :: x in out && y in rest ==> Before(x, y))
    requires i < |out| && id < |scores| && id !in IdsOf(out)
    ensures out[i].id < |scores| && Nearer(scores, out[i].id, id)
  {
    var x, y := out[i], Row(scores[id], id);
    assert x in out && x in out + rest && y in out + rest;
    assert forall j :: 0 <= j < |out| ==> IdsOf(out)[j] == out[j].id;
    assert y !in out;
    assert IdsOf(out)[i] == x.id;
    BeforeIsNearer(scores, x, y);
  }

  /** The specification, in terms of scores and ids alone. */
  lemma {:induction false} TopIsNearest(scores: seq<real>, k: nat)
    ensures AreNearest(scores, k, IdsOf(Top(Rows(scores, 0, |scores|), k)))
  {
    var rows := Rows(scores, 0, |scores|);
    var out := Top(rows, k);
    var rest := TopSeparates(rows, k);
    TopRows(scores, k, out, rest);
    SeparatedIsNearest(scores, k, out, rest);
  }

  lemma {:induction false} SeparatedIsNearest(scores: seq<real>, k: nat, out: seq<Row>, rest: seq<Row>)
    requires AreRows(scores, out + rest) && SortedBy(out, Before) && |out| == Min(k, |scores|)
    requires forall x, y :: x in out && y in rest ==> Before(x, y)
    ensures AreNearest(scores, k, IdsOf(out))
  {
    forall i | 0 <= i < |out| ensures out[i].id < |scores| { assert (out + rest)[i] in out + rest; }
    forall i: nat, j: nat | i < j < |out| ensures Nearer(scores, out[i].id, out[j].id) {
      SortedIsNearer(scores, out, rest, i, j);
    }
    forall i: nat, id: nat | i < |out| && id < |scores| && id !in IdsOf(out) ensures Nearer(scores, out[i].id, id) {
      LeftOutIsFarther(scores, out, rest, i, id);
    }
  }

  /** The blocked merge returns the `k` nearest rows of the whole database, for any block size. */
  method BlockedTop(scores: seq<real>, k: nat, block: nat) returns (best: seq<Row>)
    requires block >= 1
    ensures best == Top(Rows(scores, 0, |scores|), k) && AreNearest(scores, k, IdsOf(best))
  {
    best := [];
    var start := 0;
    assert Sort(Rows(scores, 0, 0), Before) == [];
    while start < |scores|
      invariant start <= |scores|
      invariant best == Top(Rows(scores, 0, start), k)
    {
      var end := Min(start + block, |scores|);
      var merged := best + Rows(scores, start, end);
      MergeKeepsTop(Rows(scores, 0, start), Rows(scores, start, end), k);
      assert Rows(scores, 0, start) + Rows(scores, start, end) == Rows(scores, 0, end);
      best := Top(merged, k);
      start := end;
    }
    TopIsNearest(scores, k);
  }

  /** What `select_nth_unstable_by(k)` leaves behind: a permutation split at `k`. */
  ghost predicate Selected(rows: seq<Row>, k: nat, s: seq<Row>) {
    && multiset(s) == multiset(rows)
    && (k < |s| ==> forall i, j :: 0 <= i < k <= j < |s| ==> Before(s[i], s[j]))
  }

  lemma {:induction false} SplitBefore(s: seq<Row>, k: nat, x: Row, y: Row)
    requires k <= |s| && x in s[..k] && y in s[k..]
    requires k < |s| ==> forall i, j :: 0 <= i < k <= j < |s| ==> Before(s[i], s[j])
    ensures Before(x, y)
  {
    var i :| 0 <= i < k && s[..k][i] == x;
    var j :| 0 <= j < |s[k..]| && s[k..][j] == y;
    assert x == s[i] && y == s[k + j];
  }

  /** Sorting the selected prefix gives the same answer as the blocked merge. */
  lemma {:induction false} SelectThenSortIsTop(rows: seq<Row>, k: nat, s: seq<Row>)
    requires k <= |rows| && Selected(rows, k, s)
    ensures |s| == |rows| && Sort(s[..k], Before) == Top(rows, k)
  {
    assert |multiset(s)| == |s| && |multiset(rows)| == |rows|;
    BeforeTotalOrder();
    var out, rest := Sort(s[..k], Before), s[k..];
    SortSorts(s[..k], Before);
    SameElements(out, s[..k]);
    assert s == s[..k] + rest;
    forall x, y | x in out && y in rest ensures Before(x, y) {
      SplitBefore(s, k, x, y);
    }
    assert multiset(out) + multiset(rest) == multiset(rows);
    SeparatedIsTop(rows, k, out, rest);
  }
}
