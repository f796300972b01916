/**
 The exchange grouping of benchmarks/public/check_longmemeval_role_reader.py: every user turn
 takes the assistant turns that follow it, exchanges with the same historical alias share a
 group, and assistant turns before a session's first user turn form an orphan group.
 */
module ConversationGroups {
  import opened Wrappers

  datatype Role = User | Assistant

  /** Historical aliases, known by number. */
  type Alias = nat

  /** A source record, identified by its session and turn. */
  datatype Record = Record(session: nat, turn: nat)

  /** Sessions, the historical ids, and the legacy id of each turn with its masked form. */
  datatype Conversation = Conversation(
    sessions: seq<seq<Role>>,
    historical: set<Alias>,
    legacy: (nat, nat) -> Alias,
    masked: (nat, nat) -> Alias)

  /** The one historical id among a turn's legacy id and its masked form, if there is exactly one. */
  function ResolveAlias(legacy: Alias, masked: Alias, historical: set<Alias>): Option<Alias> {
    if legacy in historical && (masked == legacy || masked !in historical) then Some(legacy)
    else if legacy !in historical && masked in historical then Some(masked)
    else None
  }

  /** It is found exactly when the two ids meet the historical ids in one. */
  lemma {:induction false} ResolveAliasUnique(legacy: Alias, masked: Alias, historical: set<Alias>, a: Alias)
    ensures ResolveAlias(legacy, masked, historical).Some? <==> |{legacy, masked} * historical| == 1
    ensures ResolveAlias(legacy, masked, historical) == Some(a) <==> {legacy, masked} * historical == {a}
  {
    var matches, r := {legacy, masked} * historical, ResolveAlias(legacy, masked, historical);
    if r.Some? {
      assert matches == {r.value};
      assert matches == {a} ==> r.value in {a};
    } else if legacy in historical {
      assert matches == {legacy, masked} && |matches| == 2;
      assert matches == {a} ==> |matches| == 1;
    } else {
      assert matches == {};
      assert a !in matches;
    }
  }

  /** The alias of turn `t` of session `s`, computed from its two ids. */
  function AliasOf(c: Conversation, s: nat, t: nat): Option<Alias> {
    ResolveAlias(c.legacy(s, t), c.masked(s, t), c.historical)
  }

  // ----- runs --------------------------------------------------------------

  /** The end of the assistant run after turn `t`. */
  function RunEnd(turns: seq<Role>, t: nat): (end: nat)
    requires t < |turns|
    ensures t < end <= |turns|
    ensures forall k :: t < k < end ==> turns[k].Assistant?
    ensures end < |turns| ==> turns[end].User?
    decreases |turns| - t
  {
    if t + 1 < |turns| && turns[t + 1].Assistant? then RunEnd(turns, t + 1) else t + 1
  }

  /** The first user turn of a session, or its length. */
  function FirstUser(turns: seq<Role>): (first: nat)
    ensures first <= |turns|
    ensures forall k :: 0 <= k < first ==> turns[k].Assistant?
    ensures first < |turns| ==> turns[first].User?
  {
    if turns == [] then 0
    else if turns[0].User? then 0
    else
      var rest := FirstUser(turns[1..]);
      assert forall k :: 1 <= k < 1 + rest ==> turns[k] == turns[1..][k - 1];
      1 + rest
  }

  function Records(s: nat, lo: nat, hi: nat): (r: seq<Record>)
    requires lo <= hi
    ensures |r| == hi - lo
  {
    seq(hi - lo, i requires 0 <= i < hi - lo => Record(s, lo + i))
  }

  lemma {:induction false} RecordsConcat(s: nat, lo: nat, mid: nat, hi: nat)
    requires lo <= mid <= hi
    ensures Records(s, lo, mid) + Records(s, mid, hi) == Records(s, lo, hi)
  {
  }

  // ----- groups in insertion order -----------------------------------------

  /** One entry of the alias dictionary. */
  datatype Group = Group(alias: Alias, sources: seq<Record>)

  function Find(groups: seq<Group>, alias: Alias): (i: nat)
    ensures i <= |groups|
    ensures i < |groups| ==> groups[i].alias == alias
    ensures forall j :: 0 <= j < i ==> groups[j].alias != alias
  {
    if groups == [] then 0
    else if groups[0].alias == alias then 0
    else
      var i := Find(groups[1..], alias);
      assert forall j :: 1 <= j < i + 1 ==> groups[j] == groups[1..][j - 1];
      i + 1
  }

  function Lookup(groups: seq<Group>, alias: Alias): seq<Record> {
    var i := Find(groups, alias);
    if i < |groups| then groups[i].sources else []
  }

  /** `exchanges.setdefault(alias, []).extend(records)` */
  function Extend(groups: seq<Group>, alias: Alias, records: seq<Record>): seq<Group> {
    var i := Find(groups, alias);
    if i < |groups| then groups[i := Group(alias, groups[i].sources + records)] else groups + [Group(alias, records)]
  }

  ghost predicate DistinctAliases(groups: seq<Group>) {
    forall i, j :: 0 <= i < j < |groups| ==> groups[i].alias != groups[j].alias
  }

  ghost predicate UniqueAt(groups: seq<Group>, alias: Alias, i: nat) {
    && i <= |groups| && (i < |groups| ==> groups[i].alias == alias)
    && forall j :: 0 <= j < i ==> groups[j].alias != alias
  }

  lemma {:induction false} FindUnique(groups: seq<Group>, alias: Alias, i: nat)
    requires UniqueAt(groups, alias, i)
    ensures Find(groups, alias) == i
  {
  }

  lemma {:induction false} ExtendDistinct(groups: seq<Group>, alias: Alias, records: seq<Record>)
    requires DistinctAliases(groups)
    ensures DistinctAliases(Extend(groups, alias, records))
  {
  }

  lemma {:induction false} ExtendFind(groups: seq<Group>, alias: Alias, records: seq<Record>, other: Alias)
    requires DistinctAliases(groups)
    ensures var i, after := Find(groups, other), Extend(groups, alias, records);
            Find(after, other) == if i < |groups| || other == alias then i else |after|
  {
    var after, i := Extend(groups, alias, records), Find(groups, other);
    FindUnique(after, other, if i < |groups| || other == alias then i else |after|);
  }

  lemma {:induction false} ExtendLookup(groups: seq<Group>, alias: Alias, records: seq<Record>, other: Alias)
    requires DistinctAliases(groups)
    ensures DistinctAliases(Extend(groups, alias, records))
    ensures Lookup(Extend(groups, alias, records), other)
            == Lookup(groups, other) + (if other == alias then records else [])
  {
    ExtendDistinct(groups, alias, records);
    ExtendFind(groups, alias, records, other);
    assert Lookup(groups, other) + [] == Lookup(groups, other);
    assert [] + records == records;
  }

  function Flatten(groups: seq<Group>): seq<Record> {
    if groups == [] then [] else Flatten(groups[..|groups| - 1]) + groups[|groups| - 1].sources
  }

  lemma {:induction false} FlattenUpdate(groups: seq<Group>, i: nat, records: seq<Record>)
    requires i < |groups|
    ensures multiset(Flatten(groups[i := Group(groups[i].alias, groups[i].sources + records)]))
            == multiset(Flatten(groups)) + multiset(records)
  {
    var n := |groups| - 1;
    var after := groups[i := Group(groups[i].alias, groups[i].sources + records)];
    if i == n {
      assert after[..n] == groups[..n];
      assert Flatten(after) == Flatten(groups) + records by {
        assert Flatten(groups[..n]) + (groups[n].sources + records)
            == (Flatten(groups[..n]) + groups[n].sources) + records;
      }
    } else {
      FlattenUpdate(groups[..n], i, records);
      assert after[..n] == groups[..n][i := Group(groups[i].alias, groups[i].sources + records)];
    }
  }

  lemma {:induction false} ExtendFlatten(groups: seq<Group>, alias: Alias, records: seq<Record>)
    ensures multiset(Flatten(Extend(groups, alias, records))) == multiset(Flatten(groups)) + multiset(records)
  {
    var i := Find(groups, alias);
    if i < |groups| {
      FlattenUpdate(groups, i, records);
    } else {
      assert (groups + [Group(alias, records)])[..|groups|] == groups;
    }
  }

  // ----- what a session contributes ----------------------------------------

  /** The runs of the user turns before `k` that carry this alias, in order. */
  ghost function Runs(c: Conversation, s: nat, alias: Alias, k: nat): seq<Record>
    requires s < |c.sessions| && k <= |c.sessions[s]|
  {
    if k == 0 then [] else
      var before := Runs(c, s, alias, k - 1);
      if c.sessions[s][k - 1].User? && AliasOf(c, s, k - 1) == Some(alias)
      then before + Records(s, k - 1, RunEnd(c.sessions[s], k - 1)) else before
  }

  /** The end of the last run that starts before `k`. */
  ghost function Covered(turns: seq<Role>, k: nat): (p: nat)
    requires k <= |turns|
    ensures FirstUser(turns) <= p <= |turns| && (p < |turns| ==> turns[p].User?)
    ensures FirstUser(turns) < k ==> p >= k
    ensures k <= FirstUser(turns) ==> p == FirstUser(turns)
  {
    if k == 0 then FirstUser(turns)
    else if turns[k - 1].User? then RunEnd(turns, k - 1)
    else Covered(turns, k - 1)
  }

  /** A user turn starts exactly where the runs before it end. */
  lemma {:induction false} UserContinues(turns: seq<Role>, k: nat)
    requires k < |turns| && turns[k].User?
    ensures Covered(turns, k) == k
  {
    CoveredStopsAtUser(turns, k, k);
  }

  lemma {:induction false} CoveredStopsAtUser(turns: seq<Role>, k: nat, u: nat)
    requires k <= u < |turns| && turns[u].User?
    ensures Covered(turns, k) <= u
  {
    if k > 0 { CoveredStopsAtUser(turns, k - 1, u); }
  }

  ghost predicate AliasesMatch(c: Conversation, s: nat)
    requires s < |c.sessions|
  {
    forall t: nat :: t < |c.sessions[s]| && c.sessions[s][t].User? ==> AliasOf(c, s, t).Some?
  }

  /** One turn: a user turn's run goes to its alias, an assistant turn changes nothing. */
  function AfterTurn(c: Conversation, s: nat, groups: seq<Group>, t: nat, alias: Option<Alias>): seq<Group>
    requires s < |c.sessions| && t < |c.sessions[s]|
  {
    if c.sessions[s][t].User? && alias.Some?
    then Extend(groups, alias.value, Records(s, t, RunEnd(c.sessions[s], t))) else groups
  }

  /** The groups after the user turns before `t`, starting from `groups0`. */
  function SessionGroups(c: Conversation, s: nat, groups0: seq<Group>, t: nat): seq<Group>
    requires s < |c.sessions| && t <= |c.sessions[s]|
  {
    if t == 0 then groups0 else AfterTurn(c, s, SessionGroups(c, s, groups0, t - 1), t - 1, AliasOf(c, s, t - 1))
  }

  lemma {:induction false} Regroup(start: seq<Record>, runs: seq<Record>, more: seq<Record>)
    ensures (start + runs) + more == start + (runs + more)
    ensures more == [] ==> (start + runs) + more == start + runs
  {
  }

  lemma {:induction false} LookupStep(before: seq<Group>, start: seq<Record>, runs: seq<Record>, alias: Alias,
                                      run: seq<Record>, a: Alias)
    requires DistinctAliases(before) && Lookup(before, a) == start + runs
    ensures Lookup(Extend(before, alias, run), a) == start + (if a == alias then runs + run else runs)
    ensures DistinctAliases(Extend(before, alias, run))
  {
    ExtendLookup(before, alias, run, a);
    Regroup(start, runs, if a == alias then run else []);
  }

  /** Each alias gains exactly its runs, in order. */
  lemma {:induction false} SessionRuns(c: Conversation, s: nat, groups0: seq<Group>, t: nat, a: Alias)
    requires s < |c.sessions| && t <= |c.sessions[s]| && DistinctAliases(groups0)
    ensures DistinctAliases(SessionGroups(c, s, groups0, t))
    ensures Lookup(SessionGroups(c, s, groups0, t), a) == Lookup(groups0, a) + Runs(c, s, a, t)
  {
    if t == 0 {
      assert Lookup(groups0, a) + [] == Lookup(groups0, a);
    } else {
      var before, turns, alias := SessionGroups(c, s, groups0, t - 1), c.sessions[s], AliasOf(c, s, t - 1);
      SessionRuns(c, s, groups0, t - 1, a);
      if turns[t - 1].User? && alias.Some? {
        var run := Records(s, t - 1, RunEnd(turns, t - 1));
        LookupStep(before, Lookup(groups0, a), Runs(c, s, a, t - 1), alias.value, run, a);
      }
    }
  }

  lemma {:induction false} CoverStep(start: multiset<Record>, before: seq<Group>, alias: Alias, s: nat, lo: nat,
                                     mid: nat, hi: nat)
    requires lo <= mid <= hi && multiset(Flatten(before)) == start + multiset(Records(s, lo, mid))
    ensures multiset(Flatten(Extend(before, alias, Records(s, mid, hi)))) == start + multiset(Records(s, lo, hi))
  {
    ExtendFlatten(before, alias, Records(s, mid, hi));
    RecordsConcat(s, lo, mid, hi);
    assert multiset(Records(s, lo, hi)) == multiset(Records(s, lo, mid)) + multiset(Records(s, mid, hi));
  }

  /** The records of all groups, counted. */
  ghost function Total(groups: seq<Group>): multiset<Record> { multiset(Flatten(groups)) }

  ghost function Gathered(s: nat, turns: seq<Role>, t: nat): multiset<Record>
    requires t <= |turns|
  {
    multiset(Records(s, FirstUser(turns), Covered(turns, t)))
  }

  lemma {:induction false} CoverTurn(c: Conversation, s: nat, start: multiset<Record>, before: seq<Group>, t: nat,
                                     alias: Option<Alias>)
    requires s < |c.sessions| && t < |c.sessions[s]| && (c.sessions[s][t].User? ==> alias.Some?)
    requires Total(before) == start + Gathered(s, c.sessions[s], t)
    ensures Total(AfterTurn(c, s, before, t, alias)) == start + Gathered(s, c.sessions[s], t + 1)
  {
    var turns := c.sessions[s];
    if turns[t].User? {
      UserContinues(turns, t);
      CoverStep(start, before, alias.value, s, FirstUser(turns), t, RunEnd(turns, t));
    }
  }

  /** The records gathered are those from the first user turn on. */
  lemma {:induction false} SessionCovers(c: Conversation, s: nat, groups0: seq<Group>, t: nat)
    requires s < |c.sessions| && t <= |c.sessions[s]| && AliasesMatch(c, s)
    ensures Total(SessionGroups(c, s, groups0, t)) == Total(groups0) + Gathered(s, c.sessions[s], t)
  {
    if t == 0 {
      assert Records(s, FirstUser(c.sessions[s]), FirstUser(c.sessions[s])) == [];
    } else {
      SessionCovers(c, s, groups0, t - 1);
      CoverTurn(c, s, Total(groups0), SessionGroups(c, s, groups0, t - 1), t - 1, AliasOf(c, s, t - 1));
    }
  }

  function IndexRange(lo: nat, hi: nat): (r: set<nat>)
    ensures forall k: nat :: k in r <==> lo <= k < hi
  {
    if hi <= lo then {} else IndexRange(lo, hi - 1) + {hi - 1}
  }

  method FindRunEnd(turns: seq<Role>, t: nat) returns (end: nat)
    requires t < |turns|
    ensures end == RunEnd(turns, t)
  {
    end := t + 1;
    while end < |turns| && turns[end].Assistant?
      invariant t < end <= RunEnd(turns, t)
    {
      end := end + 1;
    }
  }

  /**
   One session: every user turn's maximal run is appended under its alias, and the turns left
   over are exactly those before the first user turn, all of them assistant turns.
   */
  method ScanSession(c: Conversation, s: nat, groups0: seq<Group>) returns (r: Option<(seq<Group>, seq<Record>)>)
    requires s < |c.sessions|
    ensures r.Some? <==> AliasesMatch(c, s)
    ensures r.Some? ==> r.value.0 == SessionGroups(c, s, groups0, |c.sessions[s]|)
    ensures r.Some? ==> r.value.1 == Records(s, 0, FirstUser(c.sessions[s]))
    ensures r.Some? ==> forall k :: 0 <= k < |r.value.1| ==> c.sessions[s][r.value.1[k].turn].Assistant?
  {
    var turns := c.sessions[s];
    ghost var first := FirstUser(turns);
    var groups := groups0;
    var paired: set<nat> := {};
    for t := 0 to |turns|
      invariant groups == SessionGroups(c, s, groups0, t)
      invariant forall k: nat :: k < t && turns[k].User? ==> AliasOf(c, s, k).Some?
      invariant forall k: nat :: k in paired <==> first <= k < Covered(turns, t)
    {
      if !turns[t].User? { continue; }
      var alias := AliasOf(c, s, t);
      if alias.None? { return None; }
      UserContinues(turns, t);
      var end := FindRunEnd(turns, t);
      groups := Extend(groups, alias.value, Records(s, t, end));
      paired := paired + IndexRange(t, end);
    }
    var unpaired := Unpaired(s, |turns|, paired);
    EndIsCovered(turns);
    LeftOver(s, |turns|, paired, first);
    r := Some((groups, unpaired));
  }

  /** `[record for index, record in enumerate(records) if index not in paired]` */
  function Unpaired(s: nat, n: nat, paired: set<nat>): seq<Record> {
    if n == 0 then [] else Unpaired(s, n - 1, paired) + (if n - 1 in paired then [] else [Record(s, n - 1)])
  }

  lemma {:induction false} LeftOver(s: nat, n: nat, paired: set<nat>, first: nat)
    requires first <= n && forall k: nat :: k < n ==> (k in paired <==> first <= k)
    ensures Unpaired(s, n, paired) == Records(s, 0, first)
  {
    if n > 0 {
      if first == n {
        AllUnpaired(s, n, paired);
      } else {
        LeftOver(s, n - 1, paired, first);
      }
    }
  }

  lemma {:induction false} AllUnpaired(s: nat, n: nat, paired: set<nat>)
    requires forall k: nat :: k < n ==> k !in paired
    ensures Unpaired(s, n, paired) == Records(s, 0, n)
  {
    if n > 0 { AllUnpaired(s, n - 1, paired); }
  }

  // ----- the whole conversation --------------------------------------------

  /** Everything said before session `n`, in order. */
  ghost function AllRecords(c: Conversation, n: nat): seq<Record>
    requires n <= |c.sessions|
  {
    if n == 0 then [] else AllRecords(c, n - 1) + Records(n - 1, 0, |c.sessions[n - 1]|)
  }

  /** The runs of one alias over the first `n` sessions, in order. */
  ghost function AliasRuns(c: Conversation, alias: Alias, n: nat): seq<Record>
    requires n <= |c.sessions|
  {
    if n == 0 then [] else AliasRuns(c, alias, n - 1) + Runs(c, n - 1, alias, |c.sessions[n - 1]|)
  }

  /** The opening assistant turns of each session that has some. */
  ghost function Openings(c: Conversation, n: nat): seq<seq<Record>>
    requires n <= |c.sessions|
  {
    if n == 0 then [] else
      var first := FirstUser(c.sessions[n - 1]);
      Openings(c, n - 1) + (if first > 0 then [Records(n - 1, 0, first)] else [])
  }

  function Join(orphans: seq<seq<Record>>): seq<Record> {
    if orphans == [] then [] else Join(orphans[..|orphans| - 1]) + orphans[|orphans| - 1]
  }

  lemma {:induction false} JoinAdds(orphans: seq<seq<Record>>, more: seq<Record>)
    ensures Join(orphans + [more]) == Join(orphans) + more
  {
    assert (orphans + [more])[..|orphans|] == orphans;
  }

  lemma {:induction false} EndIsCovered(turns: seq<Role>)
    ensures Covered(turns, |turns|) == |turns|
  {
  }

  ghost predicate AllMatch(c: Conversation) {
    forall s: nat :: s < |c.sessions| ==> AliasesMatch(c, s)
  }

  /** The aliases under which something was grouped. */
  function AliasSet(groups: seq<Group>): set<Alias> {
    set i | 0 <= i < |groups| :: groups[i].alias
  }

  /** The groups after the first `n` sessions. */
  function AllGroups(c: Conversation, n: nat): seq<Group>
    requires n <= |c.sessions|
  {
    if n == 0 then [] else SessionGroups(c, n - 1, AllGroups(c, n - 1), |c.sessions[n - 1]|)
  }

  /** User turn `t` of session `s` carries this alias. */
  ghost predicate Carries(c: Conversation, s: nat, t: nat, a: Alias) {
    s < |c.sessions| && t < |c.sessions[s]| && c.sessions[s][t].User? && AliasOf(c, s, t) == Some(a)
  }

  ghost predicate Found(c: Conversation, n: nat, a: Alias) {
    exists s: nat, t: nat :: s < n && Carries(c, s, t, a)
  }

  lemma {:induction false} ExtendAliases(groups: seq<Group>, alias: Alias, records: seq<Record>)
    ensures AliasSet(Extend(groups, alias, records)) == AliasSet(groups) + {alias}
  {
    var i, after := Find(groups, alias), Extend(groups, alias, records);
    assert forall j :: 0 <= j < |groups| ==> after[j].alias == groups[j].alias;
    assert i < |after| && after[i].alias == alias;
    forall a | a in AliasSet(groups) ensures a in AliasSet(after) {
      var j :| 0 <= j < |groups| && groups[j].alias == a;
      assert after[j].alias == a;
    }
  }

  lemma {:induction false} SessionAliases(c: Conversation, s: nat, groups0: seq<Group>, t: nat, a: Alias)
    requires s < |c.sessions| && t <= |c.sessions[s]|
    ensures a in AliasSet(SessionGroups(c, s, groups0, t))
            <==> a in AliasSet(groups0) || exists k: nat :: k < t && Carries(c, s, k, a)
  {
    if t > 0 {
      var before, alias := SessionGroups(c, s, groups0, t - 1), AliasOf(c, s, t - 1);
      SessionAliases(c, s, groups0, t - 1, a);
      if c.sessions[s][t - 1].User? && alias.Some? {
        ExtendAliases(before, alias.value, Records(s, t - 1, RunEnd(c.sessions[s], t - 1)));
      }
      assert Carries(c, s, t - 1, a) <==> c.sessions[s][t - 1].User? && alias == Some(a);
    }
  }

  /** An alias that was found is always historical. */
  lemma {:induction false} FoundIsHistorical(c: Conversation, n: nat, a: Alias)
    requires Found(c, n, a)
    ensures a in c.historical
  {
    var s: nat, t: nat :| s < n && Carries(c, s, t, a);
  }

  /** The groups carry exactly the aliases of the user turns. */
  lemma {:induction false} AliasesFound(c: Conversation, n: nat, a: Alias)
    requires n <= |c.sessions|
    ensures a in AliasSet(AllGroups(c, n)) <==> Found(c, n, a)
  {
    if n > 0 {
      var s: nat := n - 1;
      AliasesFound(c, s, a);
      SessionAliases(c, s, AllGroups(c, s), |c.sessions[s]|, a);
      assert Found(c, n, a) <==> Found(c, s, a) || exists t: nat :: Carries(c, s, t, a);
    }
  }

  /** The ids of user turn `t` of session `s` that are historical. */
  ghost function Matches(c: Conversation, s: nat, t: nat): set<Alias> {
    {c.legacy(s, t), c.masked(s, t)} * c.historical
  }

  ghost predicate IsUserTurn(c: Conversation, s: nat, t: nat) {
    s < |c.sessions| && t < |c.sessions[s]| && c.sessions[s][t].User?
  }

  /** Every user turn has exactly one historical id, and every historical id has a user turn. */
  ghost predicate IdsAgree(c: Conversation) {
    && (forall s: nat, t: nat :: IsUserTurn(c, s, t) ==> |Matches(c, s, t)| == 1)
    && (forall a :: a in c.historical ==> exists s: nat, t: nat :: IsUserTurn(c, s, t) && Matches(c, s, t) == {a})
  }

  lemma {:induction false} TurnResolves(c: Conversation, s: nat, t: nat, a: Alias)
    requires IsUserTurn(c, s, t)
    ensures AliasOf(c, s, t).Some? <==> |Matches(c, s, t)| == 1
    ensures Carries(c, s, t, a) <==> Matches(c, s, t) == {a}
  {
    ResolveAliasUnique(c.legacy(s, t), c.masked(s, t), c.historical, a);
  }

  lemma {:induction false} MatchIffUnique(c: Conversation)
    ensures AllMatch(c) <==> forall s: nat, t: nat :: IsUserTurn(c, s, t) ==> |Matches(c, s, t)| == 1
  {
    forall s: nat, t: nat | IsUserTurn(c, s, t) ensures AliasOf(c, s, t).Some? <==> |Matches(c, s, t)| == 1 {
      TurnResolves(c, s, t, 0);
    }
    if AllMatch(c) {
      forall s: nat, t: nat | IsUserTurn(c, s, t) ensures AliasOf(c, s, t).Some? { assert AliasesMatch(c, s); }
    } else {
      var s: nat :| s < |c.sessions| && !AliasesMatch(c, s);
      var t: nat :| t < |c.sessions[s]| && c.sessions[s][t].User? && AliasOf(c, s, t).None?;
      assert IsUserTurn(c, s, t);
    }
  }

  lemma {:induction false} FoundIffMatched(c: Conversation, a: Alias)
    ensures Found(c, |c.sessions|, a) <==> exists s: nat, t: nat :: IsUserTurn(c, s, t) && Matches(c, s, t) == {a}
  {
    forall s: nat, t: nat | IsUserTurn(c, s, t) ensures Carries(c, s, t, a) <==> Matches(c, s, t) == {a} {
      TurnResolves(c, s, t, a);
    }
    if s: nat, t: nat :| s < |c.sessions| && Carries(c, s, t, a) { assert IsUserTurn(c, s, t); }
  }

  lemma {:induction false} AcceptsIffIdsAgree(c: Conversation)
    ensures AllMatch(c) && AliasSet(AllGroups(c, |c.sessions|)) == c.historical <==> IdsAgree(c)
  {
    var found := AliasSet(AllGroups(c, |c.sessions|));
    forall a: Alias
      ensures a in found ==> a in c.historical
      ensures a in found <==> exists s: nat, t: nat :: IsUserTurn(c, s, t) && Matches(c, s, t) == {a}
    {
      AliasesFound(c, |c.sessions|, a);
      FoundIffMatched(c, a);
      if Found(c, |c.sessions|, a) { FoundIsHistorical(c, |c.sessions|, a); }
    }
    MatchIffUnique(c);
  }

  /** All sessions in order: fails exactly when some user turn has no alias. */
  method ScanSessions(c: Conversation) returns (r: Option<(seq<Group>, seq<seq<Record>>)>)
    ensures r.Some? <==> AllMatch(c)
    ensures r.Some? ==> r.value == (AllGroups(c, |c.sessions|), Openings(c, |c.sessions|))
  {
    var groups: seq<Group> := [];
    var orphans: seq<seq<Record>> := [];
    for s := 0 to |c.sessions|
      invariant groups == AllGroups(c, s) && orphans == Openings(c, s)
      invariant forall k: nat :: k < s ==> AliasesMatch(c, k)
    {
      var scanned := ScanSession(c, s, groups);
      if scanned.None? {
        assert !AliasesMatch(c, s);
        return None;
      }
      groups := scanned.value.0;
      if scanned.value.1 != [] { orphans := orphans + [scanned.value.1]; }
    }
    r := Some((groups, orphans));
  }

  /**
   The grouping: fails exactly when the two ids of some user turn do not meet the historical
   ids in one, or some historical id is carried by no user turn. A user turn is never left
   over, so no other failure is possible.
   */
  method OriginalGroups(c: Conversation) returns (r: Option<(seq<Group>, seq<seq<Record>>)>)
    ensures r.Some? <==> IdsAgree(c)
    ensures r.Some? ==> r.value == (AllGroups(c, |c.sessions|), Openings(c, |c.sessions|))
  {
    r := ScanSessions(c);
    if r.Some? && AliasSet(r.value.0) != c.historical { r := None; }
    AcceptsIffIdsAgree(c);
  }

  /** Aliases are distinct, and each holds exactly its runs in conversation order. */
  lemma {:induction false} GroupsAreRuns(c: Conversation, n: nat, a: Alias)
    requires n <= |c.sessions|
    ensures DistinctAliases(AllGroups(c, n)) && Lookup(AllGroups(c, n), a) == AliasRuns(c, a, n)
  {
    if n > 0 {
      GroupsAreRuns(c, n - 1, a);
      SessionRuns(c, n - 1, AllGroups(c, n - 1), |c.sessions[n - 1]|, a);
    }
  }

  lemma {:induction false} OpeningStep(orphans: seq<seq<Record>>, s: nat, first: nat)
    ensures multiset(Join(orphans + (if first > 0 then [Records(s, 0, first)] else [])))
            == multiset(Join(orphans)) + multiset(Records(s, 0, first))
  {
    JoinAdds(orphans, Records(s, 0, first));
    if first == 0 { assert orphans + [] == orphans && Records(s, 0, 0) == []; }
  }

  lemma {:induction false} PartsAddUp(groups: multiset<Record>, orphans: multiset<Record>, all: seq<Record>, s: nat,
                                      first: nat, n: nat)
    requires first <= n && groups + orphans == multiset(all)
    ensures (groups + multiset(Records(s, first, n))) + (orphans + multiset(Records(s, 0, first)))
            == multiset(all + Records(s, 0, n))
  {
    RecordsConcat(s, 0, first, n);
    assert multiset(Records(s, 0, n)) == multiset(Records(s, 0, first)) + multiset(Records(s, first, n));
  }

  /** A whole session adds its turns from the first user turn on. */
  lemma {:induction false} SessionAdds(c: Conversation, s: nat, groups0: seq<Group>)
    requires s < |c.sessions| && AliasesMatch(c, s)
    ensures Total(SessionGroups(c, s, groups0, |c.sessions[s]|))
            == Total(groups0) + multiset(Records(s, FirstUser(c.sessions[s]), |c.sessions[s]|))
  {
    SessionCovers(c, s, groups0, |c.sessions[s]|);
    EndIsCovered(c.sessions[s]);
  }

  /** The records of all opening turns, counted. */
  ghost function TotalOpenings(c: Conversation, n: nat): multiset<Record>
    requires n <= |c.sessions|
  {
    multiset(Join(Openings(c, n)))
  }

  lemma {:induction false} OpeningsAdd(c: Conversation, s: nat)
    requires s < |c.sessions|
    ensures TotalOpenings(c, s + 1) == TotalOpenings(c, s) + multiset(Records(s, 0, FirstUser(c.sessions[s])))
  {
    OpeningStep(Openings(c, s), s, FirstUser(c.sessions[s]));
  }

  /** Every turn of the conversation occurs exactly once, in a group or in an opening. */
  lemma {:induction false} EveryTurnGroupedOnce(c: Conversation, n: nat)
    requires AllMatch(c) && n <= |c.sessions|
    ensures Total(AllGroups(c, n)) + TotalOpenings(c, n) == multiset(AllRecords(c, n))
  {
    if n > 0 {
      var s: nat := n - 1;
      EveryTurnGroupedOnce(c, s);
      assert AliasesMatch(c, s);
      SessionAdds(c, s, AllGroups(c, s));
      OpeningsAdd(c, s);
      PartsAddUp(Total(AllGroups(c, s)), TotalOpenings(c, s), AllRecords(c, s), s,
                 FirstUser(c.sessions[s]), |c.sessions[s]|);
    }
  }

  lemma {:induction false} RecordsDistinct(c: Conversation, n: nat)
    requires n <= |c.sessions|
    ensures forall i, j :: 0 <= i < j < |AllRecords(c, n)| ==> AllRecords(c, n)[i] != AllRecords(c, n)[j]
    ensures forall i :: 0 <= i < |AllRecords(c, n)| ==> AllRecords(c, n)[i].session < n
  {
    if n > 0 { RecordsDistinct(c, n - 1); }
  }

  /** A turn is left over exactly when no user turn comes before it in its session. */
  lemma {:induction false} OpeningsAreBeforeFirstUser(turns: seq<Role>, t: nat)
    requires t < |turns|
    ensures t < FirstUser(turns) <==> forall k :: 0 <= k <= t ==> turns[k].Assistant?
  {
  }
}
