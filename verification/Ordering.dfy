/**
 Orders shared by the models: the lexicographic order of Python tuples and the
 contract of a stable library sort (`sorted`, `sort_unstable_by_key`, `lexsort`).
 */
module Ordering {

  ghost predicate TotalOrder<T(!new)>(le: (T, T) -> bool) {
    && (forall a, b :: le(a, b) || le(b, a))
    && (forall a, b :: le(a, b) && le(b, a) ==> a == b)
    && (forall a, b, c :: le(a, b) && le(b, c) ==> le(a, c))
  }

  ghost predicate SortedBy<T(!new)>(s: seq<T>, le: (T, T) -> bool) {
    forall i, j :: 0 <= i < j < |s| ==> le(s[i], s[j])
  }

  function Insert<T>(x: T, s: seq<T>, le: (T, T) -> bool): (r: seq<T>)
    ensures multiset(r) == multiset(s) + multiset{x}
    ensures |r| == |s| + 1
  {
    if s == [] then [x]
    else if le(x, s[0]) then
      [x] + s
    else
      assert s == [s[0]] + s[1..];
      [s[0]] + Insert(x, s[1..], le)
  }

  /** The library sort: a permutation of its input (sortedness is `SortSorts`). */
  function Sort<T>(s: seq<T>, le: (T, T) -> bool): (r: seq<T>)
    ensures multiset(r) == multiset(s)
    ensures |r| == |s|
  {
    if s == [] then [] else
      assert s == [s[0]] + s[1..];
      Insert(s[0], Sort(s[1..], le), le)
  }

  lemma {:induction false} InsertSorted<T(!new)>(x: T, s: seq<T>, le: (T, T) -> bool)
    requires TotalOrder(le) && SortedBy(s, le)
    ensures SortedBy(Insert(x, s, le), le)
  {
    if s == [] {
    } else if le(x, s[0]) {
    } else {
      InsertSorted(x, s[1..], le);
      var t := Insert(x, s[1..], le);
      forall k | 0 <= k < |t| ensures le(s[0], t[k]) {
        assert t[k] in multiset(t);
        assert t[k] == x || t[k] in s[1..];
      }
    }
  }

  lemma {:induction false} SortSorts<T(!new)>(s: seq<T>, le: (T, T) -> bool)
    requires TotalOrder(le)
    ensures SortedBy(Sort(s, le), le)
  {
    if s != [] {
      SortSorts(s[1..], le);
      InsertSorted(s[0], Sort(s[1..], le), le);
    }
  }

  lemma {:induction false} SameElements<T>(s: seq<T>, t: seq<T>)
    requires multiset(s) == multiset(t)
    ensures forall x :: x in s <==> x in t
  {
    forall x ensures x in s <==> x in t {
      assert x in s <==> x in multiset(s);
      assert x in t <==> x in multiset(t);
    }
  }

  lemma {:induction false} TailMultiset<T>(s: seq<T>)
    requires s != []
    ensures multiset(s) == multiset{s[0]} + multiset(s[1..])
  {
    assert s == [s[0]] + s[1..];
  }

  lemma {:induction false} SameMultisetSize<T>(s: seq<T>, t: seq<T>)
    requires multiset(s) == multiset(t)
    ensures |s| == |t|
  {
    assert |multiset(s)| == |s| && |multiset(t)| == |t|;
  }

  ghost predicate Antisymmetric<T(!new)>(le: (T, T) -> bool) {
    forall a, b :: le(a, b) && le(b, a) ==> a == b
  }

  lemma {:induction false} SortedHeads<T(!new)>(s: seq<T>, t: seq<T>, le: (T, T) -> bool)
    requires Antisymmetric(le) && SortedBy(s, le) && SortedBy(t, le) && s != [] && t != []
    requires s[0] in t && t[0] in s
    ensures s[0] == t[0]
  {
    var i :| 0 <= i < |t| && t[i] == s[0];
    var j :| 0 <= j < |s| && s[j] == t[0];
    assert i > 0 ==> le(t[0], t[i]);
    assert j > 0 ==> le(s[0], s[j]);
  }

  lemma {:induction false} SortedTail<T(!new)>(s: seq<T>, le: (T, T) -> bool)
    requires s != [] && SortedBy(s, le)
    ensures SortedBy(s[1..], le)
  {
  }

  lemma {:induction false} SameTails<T>(s: seq<T>, t: seq<T>)
    requires s != [] && t != [] && s[0] == t[0] && multiset(s) == multiset(t)
    ensures multiset(s[1..]) == multiset(t[1..])
  {
    TailMultiset(s);
    TailMultiset(t);
    assert multiset(s[1..]) == multiset(s) - multiset{s[0]};
    assert multiset(t[1..]) == multiset(t) - multiset{s[0]};
  }

  lemma {:induction false} SortedSame<T(!new)>(s: seq<T>, t: seq<T>, le: (T, T) -> bool)
    requires Antisymmetric(le) && SortedBy(s, le) && SortedBy(t, le) && multiset(s) == multiset(t)
    ensures s == t
  {
    SameMultisetSize(s, t);
    if s != [] {
      assert s[0] in t && t[0] in s by { SameElements(s, t); }
      SortedHeads(s, t, le);
      SortedTail(s, le);
      SortedTail(t, le);
      SameTails(s, t);
      SortedSame(s[1..], t[1..], le);
      assert s == [s[0]] + s[1..] && t == [t[0]] + t[1..];
    }
  }

  /** A sorted arrangement of a multiset is unique. */
  lemma {:induction false} SortedUnique<T(!new)>(s: seq<T>, t: seq<T>, le: (T, T) -> bool)
    requires TotalOrder(le) && SortedBy(s, le) && SortedBy(t, le)
    requires multiset(s) == multiset(t)
    ensures s == t
  {
    SortedSame(s, t, le);
  }

  ghost predicate Distinct<T(!new)>(s: seq<T>) {
    forall i, j :: 0 <= i < j < |s| ==> s[i] != s[j]
  }

  lemma {:induction false} DistinctCount<T(!new)>(s: seq<T>)
    ensures Distinct(s) <==> forall x :: multiset(s)[x] <= 1
  {
    if s != [] {
      var front, last := s[..|s| - 1], s[|s| - 1];
      assert s == front + [last];
      DistinctCount(front);
      assert forall x :: multiset(s)[x] == multiset(front)[x] + (if x == last then 1 else 0);
      assert last in front <==> multiset(front)[last] > 0;
      if Distinct(s) {
        assert forall i :: 0 <= i < |front| ==> front[i] == s[i] != last;
      } else {
        var i, j :| 0 <= i < j < |s| && s[i] == s[j];
        if j < |front| {
          assert !Distinct(front) by { assert front[i] == front[j]; }
        } else {
          assert front[i] == last;
        }
      }
    }
  }

  lemma {:induction false} DistinctPermutation<T(!new)>(s: seq<T>, t: seq<T>)
    requires Distinct(s) && multiset(s) == multiset(t)
    ensures Distinct(t)
  {
    DistinctCount(s);
    DistinctCount(t);
  }

  /** The slice `s[:n]`. */
  function Truncate<T>(s: seq<T>, n: nat): (r: seq<T>)
    ensures r <= s && |r| == if |s| < n then |s| else n
  {
    if |s| < n then s else s[..n]
  }

  function Members(s: seq<nat>): set<nat> { set i | i in s }

  lemma {:induction false} MembersExtend(s: seq<nat>, x: nat)
    ensures Members(s + [x]) == Members(s) + {x}
  {
  }

  lemma {:induction false} DistinctSize(s: seq<nat>)
    requires Distinct(s)
    ensures |Members(s)| == |s|
  {
    if s == [] {
      assert Members(s) == {};
    } else {
      var front, last := s[..|s| - 1], s[|s| - 1];
      DistinctSize(front);
      MembersExtend(front, last);
      assert s == front + [last];
      assert last !in Members(front);
    }
  }

  predicate IndexLe(a: nat, b: nat) { a <= b }

  /** `sorted` on distinct indices gives a strictly increasing list of the same indices. */
  lemma {:induction false} SortIndices(s: seq<nat>)
    requires Distinct(s)
    ensures forall i, j :: 0 <= i < j < |s| ==> Sort(s, IndexLe)[i] < Sort(s, IndexLe)[j]
    ensures forall x :: x in Sort(s, IndexLe) <==> x in s
  {
    SortSorts(s, IndexLe);
    DistinctPermutation(s, Sort(s, IndexLe));
    SameElements(Sort(s, IndexLe), s);
  }

  // ----- tuples of indices ------------------------------------------------

  /** Python's `<=` on tuples of integers. */
  predicate LexLe(a: seq<nat>, b: seq<nat>) {
    a == [] || (b != [] && (a[0] < b[0] || (a[0] == b[0] && LexLe(a[1..], b[1..]))))
  }

  /** `b` continues `a`, or is larger at the first position where they differ. */
  ghost predicate TupleLe(a: seq<nat>, b: seq<nat>) {
    a <= b || exists k :: 0 <= k < |a| && k < |b| && a[..k] == b[..k] && a[k] < b[k]
  }

  lemma {:induction false} LexMeans(a: seq<nat>, b: seq<nat>)
    ensures LexLe(a, b) <==> TupleLe(a, b)
  {
    if a != [] && b != [] && a[0] == b[0] {
      var x, y := a[1..], b[1..];
      LexMeans(x, y);
      assert a == [a[0]] + x && b == [b[0]] + y;
      if k :| 0 <= k < |x| && k < |y| && x[..k] == y[..k] && x[k] < y[k] {
        assert a[..k + 1] == [a[0]] + x[..k] && b[..k + 1] == [b[0]] + y[..k];
        assert a[k + 1] < b[k + 1];
      }
      if k :| 0 <= k < |a| && k < |b| && a[..k] == b[..k] && a[k] < b[k] {
        assert x[..k - 1] == a[..k][1..] && y[..k - 1] == b[..k][1..];
        assert x[k - 1] < y[k - 1];
      }
    } else if a != [] && b != [] {
      if a[0] < b[0] { assert a[..0] == b[..0]; }
      assert forall k :: 0 < k <= |a| && k <= |b| ==> a[..k][0] == a[0] && b[..k][0] == b[0];
    }
  }

  lemma {:induction false} LexTotal(a: seq<nat>, b: seq<nat>)
    ensures LexLe(a, b) || LexLe(b, a)
  {
    if a != [] && b != [] { LexTotal(a[1..], b[1..]); }
  }

  lemma {:induction false} LexAntisymmetric(a: seq<nat>, b: seq<nat>)
    requires LexLe(a, b) && LexLe(b, a)
    ensures a == b
  {
    if a != [] {
      LexAntisymmetric(a[1..], b[1..]);
      assert a == [a[0]] + a[1..] && b == [b[0]] + b[1..];
    }
  }

  lemma {:induction false} LexTransitive(a: seq<nat>, b: seq<nat>, c: seq<nat>)
    requires LexLe(a, b) && LexLe(b, c)
    ensures LexLe(a, c)
  {
    if a != [] && a[0] == b[0] == c[0] { LexTransitive(a[1..], b[1..], c[1..]); }
  }

  /** A common prefix does not change the order of two tuples. */
  lemma {:induction false} LexPrefix(p: seq<nat>, a: seq<nat>, b: seq<nat>)
    ensures LexLe(p + a, p + b) <==> LexLe(a, b)
  {
    if p == [] {
      assert p + a == a && p + b == b;
    } else {
      assert (p + a)[1..] == p[1..] + a && (p + b)[1..] == p[1..] + b;
      LexPrefix(p[1..], a, b);
    }
  }
}
