/**
 The schedule and query checks of benchmarks/public/check_compaction_updates.py, built on
 the oracle: what an accepted journal and an accepted query log guarantee.
 */
module CompactionCheck {
  import opened CompactionOracle

  const PAIRS := 16
  const UPDATES := 256
  const OPERATIONS := 320
  const READERS: nat := 4
  const QUERIES: nat := 1024

  datatype Slot = Slot(kind: Kind, pair: nat, revision: nat)

  /** Entry `i` of the journal: each run of five is four replacements and one deletion. */
  function SlotAt(i: nat): Slot {
    var revision := if i % 5 == 4 then 4 * (i / 5) + 4 else 4 * (i / 5) + i % 5 + 1;
    Slot(if i % 5 == 4 then Delete else Replace, (revision - 1) % PAIRS, revision)
  }

  predicate Matches(op: Operation, slot: Slot) {
    op.kind == slot.kind && op.pair == slot.pair && op.revision == slot.revision
  }

  ghost predicate Scheduled(ops: seq<Operation>) {
    && |ops| == OPERATIONS
    && (forall i: nat :: i < |ops| ==> Matches(ops[i], SlotAt(i)))
    && Ordered(ops) && 0 <= ops[0].start
  }

  /** The first entry checked for `revision`. */
  function FirstSlot(revision: nat): nat
    requires revision >= 1
  {
    (revision - 1) + (revision - 1) / 4
  }

  lemma {:induction false} SlotAtParts(q: nat, m: nat)
    requires m < 5
    ensures var revision := if m == 4 then 4 * q + 4 else 4 * q + m + 1;
            SlotAt(5 * q + m) == Slot(if m == 4 then Delete else Replace, (revision - 1) % PAIRS, revision)
  {
    assert (5 * q + m) / 5 == q && (5 * q + m) % 5 == m;
  }

  lemma {:induction false} FirstSlotParts(q: nat, m: nat)
    requires m < 4
    ensures FirstSlot(4 * q + m + 1) == 5 * q + m
    ensures FirstSlot(4 * q + m + 2) == 5 * q + m + (if m == 3 then 2 else 1)
    ensures (4 * q + m + 1) % 4 == 0 <==> m == 3
  {
    assert (4 * q + m) / 4 == q;
    assert (4 * q + m + 1) / 4 == if m == 3 then q + 1 else q;
  }

  lemma {:induction false} SlotOfRevision(revision: nat)
    requires revision >= 1
    ensures SlotAt(FirstSlot(revision)) == Slot(Replace, (revision - 1) % PAIRS, revision)
    ensures revision % 4 == 0 ==> SlotAt(FirstSlot(revision) + 1) == Slot(Delete, (revision - 1) % PAIRS, revision)
    ensures FirstSlot(revision + 1) == FirstSlot(revision) + (if revision % 4 == 0 then 2 else 1)
    ensures revision <= UPDATES ==> FirstSlot(revision + 1) <= OPERATIONS
  {
    var q, m := (revision - 1) / 4, (revision - 1) % 4;
    assert revision == 4 * q + m + 1;
    FirstSlotParts(q, m);
    SlotAtParts(q, m);
    if m == 3 { SlotAtParts(q, 4); }
  }

  /** The first `n` entries have been accepted, the last of them ending at `previousEnd`. */
  ghost predicate Accepted(ops: seq<Operation>, n: nat, previousEnd: int) {
    && n <= |ops| == OPERATIONS
    && (forall i: nat :: i < n ==> Matches(ops[i], SlotAt(i)))
    && Ordered(ops[..n])
    && previousEnd == (if n == 0 then 0 else ops[n - 1].end)
    && (n > 0 ==> 0 <= ops[0].start)
  }

  /** The checks of one entry against its slot and the end of the entry before. */
  predicate Follows(op: Operation, slot: Slot, previousEnd: int) {
    Matches(op, slot) && previousEnd <= op.start < op.end
  }

  lemma {:induction false} AcceptNext(ops: seq<Operation>, n: nat, previousEnd: int)
    requires Accepted(ops, n, previousEnd) && n < OPERATIONS
    ensures Follows(ops[n], SlotAt(n), previousEnd) ==> Accepted(ops, n + 1, ops[n].end)
    ensures Scheduled(ops) ==> Follows(ops[n], SlotAt(n), previousEnd)
  {
    if Matches(ops[n], SlotAt(n)) && previousEnd <= ops[n].start < ops[n].end {
      OrderedExtends(ops, n);
    }
  }

  /** The slots checked for one revision. */
  function SlotsOf(revision: nat): (slots: seq<Slot>)
    requires revision >= 1
    ensures |slots| == if revision % 4 == 0 then 2 else 1
  {
    var pair := (revision - 1) % PAIRS;
    [Slot(Replace, pair, revision)] + if revision % 4 == 0 then [Slot(Delete, pair, revision)] else []
  }

  lemma {:induction false} SlotsInOrder(revision: nat, j: nat)
    requires 1 <= revision <= UPDATES && j < |SlotsOf(revision)|
    ensures FirstSlot(revision) + j < OPERATIONS && SlotsOf(revision)[j] == SlotAt(FirstSlot(revision) + j)
  {
    SlotOfRevision(revision);
  }

  /** The checks of one revision: accept its entries, or find the journal off schedule. */
  method CheckRevision(ops: seq<Operation>, revision: nat, previousEnd0: int) returns (accepted: bool, previousEnd: int)
    requires 1 <= revision <= UPDATES && Accepted(ops, FirstSlot(revision), previousEnd0)
    ensures accepted ==> Accepted(ops, FirstSlot(revision + 1), previousEnd)
    ensures !accepted ==> !Scheduled(ops)
  {
    previousEnd := previousEnd0;
    var slots := SlotsOf(revision);
    var index := FirstSlot(revision);
    for j := 0 to |slots|
      invariant index == FirstSlot(revision) + j && Accepted(ops, index, previousEnd)
    {
      SlotsInOrder(revision, j);
      AcceptNext(ops, index, previousEnd);
      if !Follows(ops[index], slots[j], previousEnd) { return false, previousEnd; }
      previousEnd := ops[index].end;
      index := index + 1;
    }
    SlotOfRevision(revision);
    accepted := true;
  }

  /** Accepts exactly the journals that follow the schedule with ordered, nonempty intervals. */
  method CheckSchedule(ops: seq<Operation>) returns (accepted: bool)
    ensures accepted <==> Scheduled(ops)
  {
    if |ops| != OPERATIONS { return false; }
    var previousEnd := 0;
    for revision := 1 to UPDATES + 1
      invariant Accepted(ops, FirstSlot(revision), previousEnd)
    {
      accepted, previousEnd := CheckRevision(ops, revision, previousEnd);
      if !accepted { return; }
    }
    assert FirstSlot(UPDATES + 1) == OPERATIONS;
    assert ops[..OPERATIONS] == ops;
    accepted := true;
  }

  lemma {:induction false} OrderedExtends(ops: seq<Operation>, n: nat)
    requires n < |ops| && Ordered(ops[..n]) && ops[n].start < ops[n].end
    requires n > 0 ==> ops[n - 1].end <= ops[n].start
    ensures Ordered(ops[..n + 1])
  {
    var longer, shorter := ops[..n + 1], ops[..n];
    assert longer[..n] == shorter;
    forall i, j | 0 <= i < j < |longer| ensures longer[i].end <= longer[j].start {
      if j < n {
        assert shorter[i].end <= shorter[j].start;
      } else if i < n - 1 {
        assert shorter[i].end <= shorter[n - 1].start && shorter[n - 1].start < shorter[n - 1].end;
      }
    }
  }

  lemma {:induction false} DeleteFollowsReplace(ops: seq<Operation>, k: nat)
    requires Scheduled(ops) && k < |ops| && ops[k].kind == Delete
    ensures k > 0 && ops[k - 1].kind == Replace && ops[k - 1].pair == ops[k].pair
  {
    assert Matches(ops[k], SlotAt(k));
    assert k % 5 == 4;
    assert (k - 1) % 5 == 3 && (k - 1) / 5 == k / 5;
    assert Matches(ops[k - 1], SlotAt(k - 1));
  }

  ghost predicate NeverMisses(ops: seq<Operation>) {
    forall pair: nat, end: int :: !PopMisses(ops, pair, end)
  }

  /** In a scheduled journal every deletion follows a replacement of its own pair. */
  lemma {:induction false} ScheduledNeverMisses(ops: seq<Operation>)
    requires Scheduled(ops)
    ensures NeverMisses(ops)
  {
    forall pair: nat, end: int, j: nat, k: nat ensures !DoubleDelete(ops, pair, end, j, k) {
      if k < |ops| && ops[k].kind == Delete { DeleteFollowsReplace(ops, k); }
    }
  }

  /** Index of the last replacement of `pair`, which writes revision `241 + pair`. */
  function LastReplace(pair: nat): (i: nat)
    requires pair < PAIRS
    ensures i < OPERATIONS && SlotAt(i) == Slot(Replace, pair, 241 + pair)
  {
    300 + 5 * (pair / 4) + pair % 4
  }

  ghost function FinalState(pair: nat): PairState {
    if pair >= PAIRS then Initial(pair)
    else if (241 + pair) % 4 == 0 then map[pair * 2 + 1 := 241 + pair]
    else map[pair * 2 := 241 + pair, pair * 2 + 1 := 241 + pair]
  }

  lemma {:induction false} QuietAfterLast(ops: seq<Operation>, pair: nat, i: nat)
    requires Scheduled(ops) && pair < PAIRS && LastReplace(pair) < i < |ops| && ops[i].pair == pair
    ensures i == LastReplace(pair) + 1 && ops[i].kind == Delete && pair % 4 == 3
  {
    var q, m := i / 5, i % 5;
    assert Matches(ops[i], SlotAt(i));
    assert 60 <= q <= 63;
    var revision := if m == 4 then 4 * q + 4 else 4 * q + m + 1;
    assert 241 <= revision <= 256;
    assert (revision - 1) % 16 == revision - 241;
    assert pair / 4 == q - 60;
  }

  lemma {:induction false} StateAfterLastReplace(ops: seq<Operation>, pair: nat)
    requires Scheduled(ops) && pair < PAIRS
    ensures After(ops[..LastReplace(pair) + 1], pair) == map[pair * 2 := 241 + pair, pair * 2 + 1 := 241 + pair]
  {
    var r := LastReplace(pair);
    assert Matches(ops[r], SlotAt(r));
    assert ops[..r + 1][..r] == ops[..r];
  }

  lemma {:induction false} LastDelete(pair: nat)
    requires pair < PAIRS && pair % 4 == 3
    ensures LastReplace(pair) + 1 < OPERATIONS && SlotAt(LastReplace(pair) + 1) == Slot(Delete, pair, 241 + pair)
    ensures (241 + pair) % 4 == 0
  {
    var d := LastReplace(pair) + 1;
    assert d == 300 + 5 * (pair / 4) + 4;
    assert d % 5 == 4 && d / 5 == 60 + pair / 4;
  }

  lemma {:induction false} StateAfterLastDelete(ops: seq<Operation>, pair: nat)
    requires Scheduled(ops) && pair < PAIRS && pair % 4 == 3
    ensures LastReplace(pair) + 2 <= |ops|
    ensures After(ops[..LastReplace(pair) + 2], pair) == FinalState(pair)
  {
    LastDelete(pair);
    var d := LastReplace(pair) + 1;
    assert Matches(ops[d], SlotAt(d));
    assert ops[..d + 1][..d] == ops[..d];
    StateAfterLastReplace(ops, pair);
  }

  /** How many journal entries the last one touching `pair` needs. */
  function LastTouch(pair: nat): (n: nat)
    ensures n <= OPERATIONS
  {
    if pair >= PAIRS then 0 else if pair % 4 == 3 then LastReplace(pair) + 2 else LastReplace(pair) + 1
  }

  lemma {:induction false} QuietAtEnd(ops: seq<Operation>, pair: nat)
    requires Scheduled(ops)
    ensures Quiet(ops, pair, LastTouch(pair), |ops|)
  {
    forall i: nat | LastTouch(pair) <= i < |ops| ensures ops[i].pair != pair {
      if pair >= PAIRS {
        assert Matches(ops[i], SlotAt(i));
      } else if ops[i].pair == pair {
        QuietAfterLast(ops, pair, i);
      }
    }
  }

  lemma {:induction false} StateAfterLastTouch(ops: seq<Operation>, pair: nat)
    requires Scheduled(ops)
    ensures After(ops[..LastTouch(pair)], pair) == FinalState(pair)
  {
    if pair >= PAIRS {
      assert ops[..0] == [];
    } else if pair % 4 == 3 {
      StateAfterLastDelete(ops, pair);
    } else {
      StateAfterLastReplace(ops, pair);
      assert (241 + pair) % 4 != 0;
    }
  }

  /** All acknowledged updates survive: the state of each pair after the whole journal. */
  lemma {:induction false} JournalFinalState(ops: seq<Operation>, pair: nat)
    requires Scheduled(ops)
    ensures After(ops, pair) == FinalState(pair)
  {
    StateAfterLastTouch(ops, pair);
    QuietAtEnd(ops, pair);
    QuietKeepsState(ops, pair, LastTouch(pair), |ops|);
    assert ops[..|ops|] == ops;
  }

  /** The snapshot check: reading after the last acknowledgment shows the final state. */
  method FinalSnapshot(ops: seq<Operation>, number: nat) returns (state: PairState)
    requires Scheduled(ops)
    ensures state == FinalState(number / 2)
    ensures number in state <==> number >= 2 * PAIRS || number % 2 == 1 || (241 + number / 2) % 4 != 0
  {
    var pair := number / 2;
    var previousEnd := ops[|ops| - 1].end;
    ScheduledNeverMisses(ops);
    var r := States(ops, pair, previousEnd + 1, previousEnd + 2);
    state := r.value[|r.value| - 1];
    assert Last(ops, pair, previousEnd + 2, |ops|) by {
      forall j | 0 <= j < |ops| ensures ops[j].start < previousEnd + 2 {
        if j < |ops| - 1 { assert ops[j].end <= ops[|ops| - 1].start; }
      }
    }
    ghost var k: nat :| Last(ops, pair, previousEnd + 2, k) && state == After(ops[..k], pair);
    LastUnique(ops, pair, previousEnd + 2, k, |ops|);
    assert ops[..|ops|] == ops;
    JournalFinalState(ops, pair);
  }

  // ----- queries -----------------------------------------------------------

  /** A logged read; `found` holds the validated (document, revision) results. */
  datatype Query = Query(reader: nat, sequence: nat, pair: nat, start: int, end: int, found: seq<(nat, nat)>)

  function DictOf(found: seq<(nat, nat)>): map<nat, nat> {
    if found == [] then map[] else
      DictOf(found[..|found| - 1])[found[|found| - 1].0 := found[|found| - 1].1]
  }

  /** The pair that a reader's query `i` asks for. */
  function PairOf(reader: nat, i: nat): nat { (reader + i) % PAIRS }

  /** A reader starts at its own pair, moves to the next pair each time, and visits all 16 in any 16 queries. */
  lemma {:induction false} PairsInTurn(reader: nat, i: nat, pair: nat) returns (m: nat)
    requires pair < 16
    ensures PairOf(reader, 0) == reader % 16 && PairOf(reader, i + 1) == (PairOf(reader, i) + 1) % 16
    ensures i <= m < i + 16 && PairOf(reader, m) == pair
    ensures forall k: nat :: i <= k < i + 16 && PairOf(reader, k) == pair ==> k == m
  {
    var q, now := (reader + i) / 16, (reader + i) % 16;
    var j := if now <= pair then pair - now else pair + 16 - now;
    m := i + j;
    assert reader + m == 16 * (if now <= pair then q else q + 1) + pair;
    forall k: nat | i <= k < i + 16 && PairOf(reader, k) == pair ensures k == m { SamePair(reader, k, m); }
  }

  lemma {:induction false} SamePair(reader: nat, k: nat, m: nat)
    requires PairOf(reader, k) == PairOf(reader, m) && k < m + 16 && m < k + 16
    ensures k == m
  {
    var q, r := (reader + k) / 16, (reader + m) / 16;
    assert reader + k - 16 * q == reader + m - 16 * r;
  }

  ghost predicate Explained(ops: seq<Operation>, query: Query) {
    && |DictOf(query.found)| == |query.found|
    && Observable(ops, query.pair, query.start, query.end, DictOf(query.found))
  }

  ghost predicate WellFormed(queries: seq<Query>, reader: nat, i: nat)
    requires i < |queries|
  {
    && queries[i].reader == reader && queries[i].sequence == i && queries[i].pair == PairOf(reader, i)
    && (if i == 0 then 0 else queries[i - 1].end) <= queries[i].start < queries[i].end
  }

  ghost predicate GoodQuery(queries: seq<Query>, ops: seq<Operation>, reader: nat, i: nat)
    requires i < |queries|
  {
    WellFormed(queries, reader, i) && Explained(ops, queries[i])
  }

  ghost predicate AllGood(queries: seq<Query>, ops: seq<Operation>, reader: nat, n: nat)
    requires n <= |queries|
  {
    forall i: nat :: i < n ==> GoodQuery(queries, ops, reader, i)
  }

  lemma {:induction false} AllGoodStep(queries: seq<Query>, ops: seq<Operation>, reader: nat, i: nat)
    requires i < |queries|
    ensures AllGood(queries, ops, reader, i + 1)
            <==> AllGood(queries, ops, reader, i) && GoodQuery(queries, ops, reader, i)
    ensures AllGood(queries, ops, reader, |queries|) ==> GoodQuery(queries, ops, reader, i)
  {
  }

  /** The answer of one query: no duplicate, and one of the states the oracle lists. */
  method CheckFound(ops: seq<Operation>, query: Query) returns (accepted: bool)
    requires Ordered(ops) && NeverMisses(ops) && query.start < query.end
    ensures accepted <==> Explained(ops, query)
  {
    var found := DictOf(query.found);
    if |found| != |query.found| { return false; }
    assert !PopMisses(ops, query.pair, query.end);
    var states := States(ops, query.pair, query.start, query.end);
    accepted := found in states.value;
  }

  /** One iteration of the query loop. */
  method CheckQuery(queries: seq<Query>, ops: seq<Operation>, reader: nat, i: nat, previousEnd: int)
    returns (accepted: bool)
    requires Ordered(ops) && NeverMisses(ops)
    requires i < |queries| && previousEnd == if i == 0 then 0 else queries[i - 1].end
    ensures accepted <==> GoodQuery(queries, ops, reader, i)
  {
    var query := queries[i];
    accepted := query.reader == reader && query.sequence == i && query.pair == PairOf(reader, i)
                && previousEnd <= query.start < query.end;
    assert accepted <==> WellFormed(queries, reader, i);
    if accepted { accepted := CheckFound(ops, query); }
  }

  /**
   Accepts exactly the logs with the right number of labelled, ordered queries, each of whose
   answers some atomic execution of the journal explains.
   */
  method CheckQueries(queries: seq<Query>, ops: seq<Operation>, reader: nat, count: nat) returns (accepted: bool)
    requires Ordered(ops) && NeverMisses(ops)
    ensures accepted <==> |queries| == count && AllGood(queries, ops, reader, |queries|)
  {
    if |queries| != count { return false; }
    var previousEnd := 0;
    for i := 0 to |queries|
      invariant previousEnd == if i == 0 then 0 else queries[i - 1].end
      invariant AllGood(queries, ops, reader, i)
    {
      var good := CheckQuery(queries, ops, reader, i, previousEnd);
      AllGoodStep(queries, ops, reader, i);
      if !good { return false; }
      previousEnd := queries[i].end;
    }
    accepted := true;
  }
}
