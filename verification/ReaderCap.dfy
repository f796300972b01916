/**
 The token cap on ranked groups: `cap_groups` of
 benchmarks/public/check_longmemeval_role_reader.py drops from the end, the replay loop in
 `check_input` of benchmarks/public/check_longmemeval_answers.py removes the highest rank.
 The token counter is any function of the retained groups.
 */
module ReaderCap {
  import opened Wrappers
  import opened Ordering

  datatype Group = Group(id: string, rank: nat)

  type Counter = seq<Group> -> nat

  /** The result of dropping from the end while the count is over the cap. */
  function Capped(groups: seq<Group>, cap: nat, count: Counter): (r: seq<Group>)
    ensures r <= groups && (groups != [] ==> r != [])
  {
    if |groups| > 1 && count(groups) > cap then Capped(groups[..|groups| - 1], cap, count) else groups
  }

  /** `Capped` is the longest prefix that fits, or the anchor alone. */
  lemma {:induction false} CappedIsLongestFit(groups: seq<Group>, cap: nat, count: Counter)
    requires groups != []
    ensures var k := |Capped(groups, cap, count)|;
            && (count(groups[..k]) <= cap || k == 1)
            && forall j :: k < j <= |groups| ==> count(groups[..j]) > cap
  {
    var n := |groups|;
    assert groups[..n] == groups;
    if n > 1 && count(groups) > cap {
      var front := groups[..n - 1];
      CappedIsLongestFit(front, cap, count);
      assert forall j :: 0 <= j <= n - 1 ==> front[..j] == groups[..j];
    }
  }

  function Reverse<T>(s: seq<T>): (r: seq<T>) {
    if s == [] then [] else [s[|s| - 1]] + Reverse(s[..|s| - 1])
  }

  function Ids(groups: seq<Group>): (ids: seq<string>)
    ensures |ids| == |groups|
  {
    seq(|groups|, i requires 0 <= i < |groups| => groups[i].id)
  }

  datatype Cap = Cap(inputTokens: nat, uncappedTokens: nat, dropped: seq<string>, failed: bool)

  /** Ranks are assigned by position. */
  function Ranked(ids: seq<string>): (groups: seq<Group>)
    ensures |groups| == |ids|
  {
    seq(|ids|, i requires 0 <= i < |ids| => Group(ids[i], i))
  }

  lemma {:induction false} ReverseStep(ids: seq<string>, k: nat)
    requires 0 < k <= |ids|
    ensures Reverse(ids[k - 1..]) == Reverse(ids[k..]) + [ids[k - 1]]
    decreases |ids|
  {
    var whole, tail := ids[k - 1..], ids[k..];
    if tail == [] {
      assert whole == [ids[k - 1]];
      assert Reverse(whole) == [ids[k - 1]] + Reverse(whole[..0]);
    } else {
      var n := |ids| - 1;
      assert whole[..|whole| - 1] == ids[..n][k - 1..] && tail[..|tail| - 1] == ids[..n][k..];
      ReverseStep(ids[..n], k);
    }
  }

  /** The pop loop: what is retained, and the ids dropped, last first. */
  method DropToCap(selected: seq<string>, cap: nat, count: Counter) returns (retained: seq<Group>, dropped: seq<string>)
    requires selected != []
    ensures retained == Capped(Ranked(selected), cap, count)
    ensures dropped == Reverse(selected[|retained|..])
  {
    var ranked := Ranked(selected);
    retained, dropped := ranked, [];
    assert selected[|ranked|..] == [];
    assert ranked[..|ranked|] == ranked;
    while count(retained) > cap && |retained| > 1
      invariant 1 <= |retained| <= |ranked| && retained == ranked[..|retained|]
      invariant Capped(ranked, cap, count) == Capped(retained, cap, count)
      invariant dropped == Reverse(selected[|retained|..])
      decreases |retained|
    {
      ReverseStep(selected, |retained|);
      assert retained[|retained| - 1].id == selected[|retained| - 1];
      dropped := dropped + [retained[|retained| - 1].id];
      assert ranked[..|retained|][..|retained| - 1] == ranked[..|retained| - 1];
      retained := retained[..|retained| - 1];
    }
  }

  lemma {:induction false} Rebuilds(selected: seq<string>, k: nat)
    requires k <= |selected|
    ensures Ids(Ranked(selected)[..k]) + Reverse(Reverse(selected[k..])) == selected
  {
    ReverseTwice(selected[k..]);
    assert Ids(Ranked(selected)[..k]) == selected[..k];
    assert selected[..k] + selected[k..] == selected;
  }

  lemma {:induction false} FailsIffNoneFits(groups: seq<Group>, cap: nat, count: Counter)
    requires groups != []
    ensures count(Capped(groups, cap, count)) > cap <==> forall k :: 1 <= k <= |groups| ==> count(groups[..k]) > cap
  {
    var kept := Capped(groups, cap, count);
    CappedIsLongestFit(groups, cap, count);
    assert groups[..|kept|] == kept;
  }

  /**
   `cap_groups`: keeps the longest fitting prefix or the anchor alone, and the retained groups
   followed by the dropped ids in reverse rebuild the selection.
   */
  method CapGroups(selected: seq<string>, cap: nat, count: Counter) returns (r: Option<(seq<Group>, Cap)>)
    ensures r.Some? <==> 1 <= |selected| <= 64
    ensures r.Some? ==> var (retained, record) := r.value;
              && retained == Capped(Ranked(selected), cap, count)
              && Ids(retained) + Reverse(record.dropped) == selected
              && record.inputTokens == count(retained) && record.uncappedTokens == count(Ranked(selected))
              && (record.failed <==> forall k :: 1 <= k <= |selected| ==> count(Ranked(selected)[..k]) > cap)
  {
    if !(1 <= |selected| <= 64) { return None; }
    var retained, dropped := DropToCap(selected, cap, count);
    var current := count(retained);
    Rebuilds(selected, |retained|);
    FailsIffNoneFits(Ranked(selected), cap, count);
    assert retained == Ranked(selected)[..|retained|];
    r := Some((retained, Cap(current, count(Ranked(selected)), dropped, current > cap)));
  }

  lemma {:induction false} ReverseTwice<T>(s: seq<T>)
    ensures Reverse(Reverse(s)) == s
  {
    if s != [] {
      var n := |s| - 1;
      ReverseAppend([s[n]], Reverse(s[..n]));
      ReverseTwice(s[..n]);
      assert Reverse([s[n]]) == [s[n]] + Reverse([s[n]][..0]);
      assert s[..n] + [s[n]] == s;
    }
  }

  lemma {:induction false} ReverseAppend<T>(a: seq<T>, b: seq<T>)
    ensures Reverse(a + b) == Reverse(b) + Reverse(a)
  {
    if b == [] {
      assert a + b == a;
    } else {
      var n := |b| - 1;
      assert (a + b)[..|a + b| - 1] == a + b[..n];
      ReverseAppend(a, b[..n]);
    }
  }

  // ----- the replay by rank ------------------------------------------------

  /** `max(groups[1:], key=rank)`: the first position after the anchor with the highest rank. */
  ghost predicate IsFirstMax(groups: seq<Group>, i: nat) {
    && 1 <= i < |groups|
    && (forall j :: 1 <= j < i ==> groups[j].rank < groups[i].rank)
    && (forall j :: i < j < |groups| ==> groups[j].rank <= groups[i].rank)
  }

  function FirstMax(groups: seq<Group>, n: nat): (i: nat)
    requires 2 <= n <= |groups|
    ensures i < n && IsFirstMax(groups[..n], i)
  {
    if n == 2 then 1 else
      var i := FirstMax(groups, n - 1);
      assert groups[..n][..n - 1] == groups[..n - 1];
      assert forall j :: 0 <= j < n - 1 ==> groups[..n][j] == groups[..n - 1][j];
      if groups[n - 1].rank > groups[i].rank then n - 1 else i
  }

  /** `list.remove(groups[i])` for the first maximum: by equality, so an equal anchor goes first. */
  function Removed(groups: seq<Group>, i: nat): (r: seq<Group>)
    requires i < |groups|
    ensures |r| == |groups| - 1
  {
    if groups[i] == groups[0] then groups[1..] else groups[..i] + groups[i + 1..]
  }

  /** The replay: remove the group of highest rank while the count is over the cap. */
  function Replayed(groups: seq<Group>, cap: nat, count: Counter): seq<Group>
    decreases |groups|
  {
    if |groups| > 1 && count(groups) > cap then
      Replayed(Removed(groups, FirstMax(groups, |groups|)), cap, count)
    else groups
  }

  /** `max(initial[1:], key=rank)` */
  method HighestRank(groups: seq<Group>) returns (i: nat)
    requires |groups| > 1
    ensures IsFirstMax(groups, i) && i == FirstMax(groups, |groups|)
  {
    i := 1;
    for j := 2 to |groups|
      invariant IsFirstMax(groups[..j], i)
    {
      assert groups[..j + 1][..j] == groups[..j];
      assert forall k :: 0 <= k < j ==> groups[..j + 1][k] == groups[..j][k];
      if groups[j].rank > groups[i].rank { i := j; }
    }
    assert groups[..|groups|] == groups;
    FirstMaxUnique(groups, i, FirstMax(groups, |groups|));
  }

  method Replay(groups: seq<Group>, cap: nat, count: Counter) returns (initial: seq<Group>)
    ensures initial == Replayed(groups, cap, count)
    ensures |initial| <= 1 || count(initial) <= cap
  {
    initial := groups;
    while count(initial) > cap && |initial| > 1
      invariant Replayed(initial, cap, count) == Replayed(groups, cap, count)
      decreases |initial|
    {
      var i := HighestRank(initial);
      initial := Removed(initial, i);
    }
  }

  lemma {:induction false} FirstMaxUnique(groups: seq<Group>, a: nat, b: nat)
    requires IsFirstMax(groups, a) && IsFirstMax(groups, b)
    ensures a == b
  {
    var x, y := groups[a].rank, groups[b].rank;
    assert x <= y || y <= x;
  }

  ghost predicate RanksIncrease(groups: seq<Group>) {
    forall i, j :: 1 <= i < j < |groups| ==> groups[i].rank < groups[j].rank
  }

  /** With ranks increasing in list order, the replay and the cap agree. */
  lemma {:induction false} ReplayIsCap(groups: seq<Group>, cap: nat, count: Counter)
    requires Distinct(groups) && RanksIncrease(groups)
    ensures Replayed(groups, cap, count) == Capped(groups, cap, count)
    decreases |groups|
  {
    if |groups| > 1 && count(groups) > cap {
      var n := |groups| - 1;
      assert groups[..|groups|] == groups;
      FirstMaxUnique(groups, n, FirstMax(groups, |groups|));
      assert Removed(groups, n) == groups[..n];
      ReplayIsCap(groups[..n], cap, count);
    }
  }

  ghost function Length(): Counter { (g: seq<Group>) => |g| }

  /** Without that order, a length cap already tells the two apart. */
  lemma {:induction false} ReplayDiffers(groups: seq<Group>) returns (cap: nat)
    requires Distinct(groups) && !RanksIncrease(groups)
    ensures Replayed(groups, cap, Length()) != Capped(groups, cap, Length())
    decreases |groups|
  {
    var n := |groups| - 1;
    var i := FirstMax(groups, |groups|);
    assert groups[..|groups|] == groups;
    var front := groups[..n];
    if i == n {
      assert !RanksIncrease(front);
      cap := ReplayDiffers(front);
      assert Removed(groups, i) == front;
      SmallCap(front, cap);
    } else {
      cap := n;
      var removed := Removed(groups, i);
      assert |removed| == n;
      assert removed[i] == groups[i + 1] && front[i] == groups[i];
    }
  }

  lemma {:induction false} SmallCap(groups: seq<Group>, cap: nat)
    requires Replayed(groups, cap, Length()) != Capped(groups, cap, Length())
    ensures |groups| > cap
  {
  }

  /** The replay agrees with the cap for every counter exactly when ranks increase in list order. */
  lemma {:induction false} ReplayAgreesIffRanksIncrease(groups: seq<Group>)
    requires Distinct(groups)
    ensures (forall cap: nat, count: Counter :: Replayed(groups, cap, count) == Capped(groups, cap, count))
            <==> RanksIncrease(groups)
  {
    if RanksIncrease(groups) {
      forall cap: nat, count: Counter ensures Replayed(groups, cap, count) == Capped(groups, cap, count) {
        ReplayIsCap(groups, cap, count);
      }
    } else {
      var cap := ReplayDiffers(groups);
    }
  }
}
