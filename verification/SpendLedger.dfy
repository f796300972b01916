/**
 Spend reconciliation (`check_spend`) in
 benchmarks/public/check_longmemeval_complete_history.py, in exact arithmetic. Requests and
 usage records are opaque; the fingerprints are any functions of their texts.
 */
module SpendLedger {
  import opened Wrappers
  import opened FiniteSums
  import opened Ordering

  datatype Stage = ReaderStage | JudgeStage
  datatype Status = Ok | Incomplete | Error | BudgetExhausted
  /** A hexadecimal fingerprint, known by its value, or the empty text. */
  datatype Fingerprint = Empty | Hex(value: nat)
  datatype Category = Total | ReaderJudgeDev | Other(index: nat)

  /** Requests and usage records are known by number. */
  type Request = nat
  type Usage = nat

  datatype Entry = Entry(cacheKey: Fingerprint, category: Category, cost: real, callId: Option<Fingerprint>,
                         status: Status, usage: Usage, reserved: real)
  datatype Call = Call(qid: string, stage: Stage, request: Request, cacheKey: Fingerprint,
                       status: Status, usage: Usage, cost: real)

  /** The ledger's caps by category, in order; `total` is not a category. */
  datatype Ledger = Ledger(categories: seq<Category>, caps: map<Category, real>,
                           entries: seq<Entry>, byCategory: map<Category, real>, total: real)
  datatype Report = Report(qids: seq<string>, globalSpend: real, incrementalSpend: real)

  /**
   The fingerprints of a call's identity (experiment, stage, question) and of a request under
   that identity, and the reservation of a request. Nothing is assumed of the fingerprints.
   */
  datatype Policy = Policy(callId: (Stage, string) -> Fingerprint, keyOf: (Request, Fingerprint) -> Fingerprint,
                           reserve: Request -> real, newSpendCap: real)

  const DEV := ReaderJudgeDev
  const SLACK := 0.000000000001

  function CallId(p: Policy, stage: Stage, qid: string): Fingerprint { p.callId(stage, qid) }

  function KeyOf(p: Policy, c: Call): Fingerprint { p.keyOf(c.request, CallId(p, c.stage, c.qid)) }

  function ExpectedIds(p: Policy, qids: seq<string>): set<Fingerprint> {
    set q, s | q in qids && s in {ReaderStage, JudgeStage} :: CallId(p, s, q)
  }

  /** The ids this experiment may use: one for the reader and one for the judge of each question. */
  lemma {:induction false} ExpectedIdsMeans(p: Policy, qids: seq<string>, id: Fingerprint)
    ensures id in ExpectedIds(p, qids)
            <==> exists q :: q in qids && (id == p.callId(ReaderStage, q) || id == p.callId(JudgeStage, q))
  {
    if id in ExpectedIds(p, qids) {
      var q, s :| q in qids && s in {ReaderStage, JudgeStage} && id == CallId(p, s, q);
      assert id == p.callId(ReaderStage, q) || id == p.callId(JudgeStage, q);
    }
    if q :| q in qids && (id == p.callId(ReaderStage, q) || id == p.callId(JudgeStage, q)) {
      assert id == CallId(p, ReaderStage, q) || id == CallId(p, JudgeStage, q);
    }
  }

  /** An entry of this experiment. */
  predicate IsOwn(ids: set<Fingerprint>, e: Entry) { e.callId.Some? && e.callId.value in ids }

  predicate Issued(c: Call) { c.status != BudgetExhausted }

  // ----- exact sums --------------------------------------------------------

  function CostSum(entries: seq<Entry>): real {
    if entries == [] then 0.0 else CostSum(entries[..|entries| - 1]) + entries[|entries| - 1].cost
  }

  /** Sum of one category. */
  ghost function CategorySum(entries: seq<Entry>, category: Category): real {
    if entries == [] then 0.0 else
      var e := entries[|entries| - 1];
      CategorySum(entries[..|entries| - 1], category) + (if e.category == category then e.cost else 0.0)
  }

  ghost function OwnSum(ids: set<Fingerprint>, entries: seq<Entry>): real {
    if entries == [] then 0.0 else
      var e := entries[|entries| - 1];
      OwnSum(ids, entries[..|entries| - 1]) + (if IsOwn(ids, e) then e.cost else 0.0)
  }

  ghost function CallSum(calls: seq<Call>): real {
    if calls == [] then 0.0 else CallSum(calls[..|calls| - 1]) + calls[|calls| - 1].cost
  }

  function TotalOf(categories: seq<Category>, totals: map<Category, real>): real
    requires forall c :: c in categories ==> c in totals
  {
    if categories == [] then 0.0 else
      assert forall c :: c in categories[..|categories| - 1] ==> c in categories;
      TotalOf(categories[..|categories| - 1], totals) + totals[categories[|categories| - 1]]
  }

  /** Charging one category raises the total by the charge. */
  lemma {:induction false} ChargeRaisesTotal(categories: seq<Category>, totals: map<Category, real>,
                                             category: Category, cost: real)
    requires Distinct(categories) && forall c :: c in categories ==> c in totals
    requires category in totals
    ensures TotalOf(categories, totals[category := totals[category] + cost])
            == TotalOf(categories, totals) + (if category in categories then cost else 0.0)
  {
    if categories != [] {
      var n := |categories| - 1;
      var front := categories[..n];
      assert categories == front + [categories[n]];
      ChargeRaisesTotal(front, totals, category, cost);
      assert categories[n] !in front;
    }
  }

  // ----- what acceptance means ---------------------------------------------

  /** Entry `j` is the charge of call `i`. */
  ghost predicate Charges(p: Policy, calls: seq<Call>, entries: seq<Entry>, i: nat, j: nat)
    requires i < |calls| && j < |entries|
  {
    Issued(calls[i]) && entries[j].cacheKey == KeyOf(p, calls[i])
  }

  ghost predicate ValidEntries(ledger: Ledger) {
    && (forall j :: 0 <= j < |ledger.entries| ==>
          && ledger.entries[j].cacheKey != Empty && ledger.entries[j].category in ledger.categories
          && ledger.entries[j].cost >= 0.0)
    && (forall i, j :: 0 <= i < j < |ledger.entries| ==> ledger.entries[i].cacheKey != ledger.entries[j].cacheKey)
  }

  ghost predicate OwnDistinct(ids: set<Fingerprint>, entries: seq<Entry>) {
    forall i, j :: 0 <= i < j < |entries| && IsOwn(ids, entries[i]) && IsOwn(ids, entries[j]) ==>
      entries[i].callId != entries[j].callId
  }

  /** An unissued call left no charge; an issued one left a charge that agrees with it. */
  ghost predicate CallAgrees(p: Policy, entries: seq<Entry>, c: Call) {
    && c.cacheKey == KeyOf(p, c)
    && (!Issued(c) ==> c.cost == 0.0 && forall j :: 0 <= j < |entries| ==> entries[j].cacheKey != KeyOf(p, c))
    && (Issued(c) ==> exists j :: 0 <= j < |entries| && EntryAgrees(p, entries[j], c))
  }

  /** An entry agrees with a call in every field the check compares. */
  ghost predicate EntryAgrees(p: Policy, e: Entry, c: Call) {
    && e.cacheKey == KeyOf(p, c) && e.callId == Some(CallId(p, c.stage, c.qid)) && e.status == c.status
    && e.category == DEV && e.cost == c.cost && e.usage == c.usage
    && e.reserved == p.reserve(c.request) && c.cost <= p.reserve(c.request) + 0.000000000001
  }

  ghost predicate CallsAgree(p: Policy, entries: seq<Entry>, calls: seq<Call>) {
    && (forall i :: 0 <= i < |calls| ==> CallAgrees(p, entries, calls[i]))
    && (forall i, k :: 0 <= i < k < |calls| ==> calls[i].cacheKey != calls[k].cacheKey)
  }

  /** The call ids of the issued calls. */
  ghost function IssuedIds(p: Policy, calls: seq<Call>): set<Fingerprint> {
    if calls == [] then {} else
      var c := calls[|calls| - 1];
      IssuedIds(p, calls[..|calls| - 1]) + (if Issued(c) then {CallId(p, c.stage, c.qid)} else {})
  }

  /** The call ids of the own entries. */
  ghost function OwnIds(ids: set<Fingerprint>, entries: seq<Entry>): set<Fingerprint> {
    if entries == [] then {} else
      var e := entries[|entries| - 1];
      OwnIds(ids, entries[..|entries| - 1]) + (if IsOwn(ids, e) then {e.callId.value} else {})
  }

  lemma {:induction false} IssuedIdsMeans(p: Policy, calls: seq<Call>, id: Fingerprint)
    ensures id in IssuedIds(p, calls) <==>
            exists i :: 0 <= i < |calls| && Issued(calls[i]) && CallId(p, calls[i].stage, calls[i].qid) == id
  {
    if calls != [] {
      var n := |calls| - 1;
      IssuedIdsMeans(p, calls[..n], id);
      assert forall i :: 0 <= i < n ==> calls[..n][i] == calls[i];
    }
  }

  lemma {:induction false} OwnIdsMeans(ids: set<Fingerprint>, entries: seq<Entry>, id: Fingerprint)
    ensures id in OwnIds(ids, entries) <==>
            exists j :: 0 <= j < |entries| && IsOwn(ids, entries[j]) && entries[j].callId.value == id
  {
    if entries != [] {
      var n := |entries| - 1;
      OwnIdsMeans(ids, entries[..n], id);
      assert forall j :: 0 <= j < n ==> entries[..n][j] == entries[j];
    }
  }

  ghost predicate Reconciled(p: Policy, ids: set<Fingerprint>, entries: seq<Entry>, calls: seq<Call>) {
    && OwnDistinct(ids, entries) && CallsAgree(p, entries, calls)
    && OwnIds(ids, entries) == IssuedIds(p, calls)
  }

  // ----- the bijection -----------------------------------------------------

  /** Every issued call has exactly one charge, and that charge is the experiment's own. */
  lemma {:induction false} CallHasOneCharge(p: Policy, ledger: Ledger, ids: set<Fingerprint>, calls: seq<Call>,
                                            i: nat)
    returns (j: nat)
    requires ValidEntries(ledger) && Reconciled(p, ids, ledger.entries, calls)
    requires i < |calls| && Issued(calls[i])
    ensures j < |ledger.entries| && Charges(p, calls, ledger.entries, i, j)
    ensures IsOwn(ids, ledger.entries[j]) && EntryAgrees(p, ledger.entries[j], calls[i])
    ensures forall k: nat :: k < |ledger.entries| && Charges(p, calls, ledger.entries, i, k) ==> k == j
  {
    assert CallAgrees(p, ledger.entries, calls[i]);
    j :| 0 <= j < |ledger.entries| && EntryAgrees(p, ledger.entries[j], calls[i]);
    var id := CallId(p, calls[i].stage, calls[i].qid);
    IssuedIdsMeans(p, calls, id);
    OwnIdsMeans(ids, ledger.entries, id);
    var k :| 0 <= k < |ledger.entries| && IsOwn(ids, ledger.entries[k]) && ledger.entries[k].callId.value == id;
    assert IsOwn(ids, ledger.entries[j]);
  }

  /** Every own entry is the charge of exactly one issued call. */
  lemma {:induction false} ChargeHasOneCall(p: Policy, ledger: Ledger, ids: set<Fingerprint>, calls: seq<Call>,
                                            j: nat)
    returns (i: nat)
    requires ValidEntries(ledger) && Reconciled(p, ids, ledger.entries, calls)
    requires j < |ledger.entries| && IsOwn(ids, ledger.entries[j])
    ensures i < |calls| && Charges(p, calls, ledger.entries, i, j)
    ensures forall k: nat :: k < |calls| && Charges(p, calls, ledger.entries, k, j) ==> k == i
  {
    var id := ledger.entries[j].callId.value;
    OwnIdsMeans(ids, ledger.entries, id);
    IssuedIdsMeans(p, calls, id);
    i :| 0 <= i < |calls| && Issued(calls[i]) && CallId(p, calls[i].stage, calls[i].qid) == id;
    var j' := CallHasOneCharge(p, ledger, ids, calls, i);
    assert ledger.entries[j'].callId == ledger.entries[j].callId;
    assert j' == j;
    forall k: nat | k < |calls| && Charges(p, calls, ledger.entries, k, j) ensures k == i {
      assert CallAgrees(p, ledger.entries, calls[k]) && CallAgrees(p, ledger.entries, calls[i]);
      assert calls[k].cacheKey == calls[i].cacheKey;
    }
  }

  /** What acceptance says of an issued call, field by field. */
  lemma {:induction false} AcceptedCallFields(p: Policy, ledger: Ledger, ids: set<Fingerprint>, calls: seq<Call>,
                                              i: nat)
    returns (j: nat)
    requires ValidEntries(ledger) && Reconciled(p, ids, ledger.entries, calls) && i < |calls|
    requires calls[i].status != BudgetExhausted
    ensures j < |ledger.entries|
    ensures ledger.entries[j].cacheKey == calls[i].cacheKey
    ensures calls[i].cacheKey == p.keyOf(calls[i].request, p.callId(calls[i].stage, calls[i].qid))
    ensures ledger.entries[j].callId == Some(p.callId(calls[i].stage, calls[i].qid))
    ensures p.callId(calls[i].stage, calls[i].qid) in ids
    ensures ledger.entries[j].status == calls[i].status && ledger.entries[j].usage == calls[i].usage
    ensures ledger.entries[j].category == ReaderJudgeDev && ledger.entries[j].cost == calls[i].cost
    ensures ledger.entries[j].reserved == p.reserve(calls[i].request)
    ensures calls[i].cost <= p.reserve(calls[i].request) + 0.000000000001
  {
    j := CallHasOneCharge(p, ledger, ids, calls, i);
    assert CallAgrees(p, ledger.entries, calls[i]);
  }

  /** Conversely, every ledger entry under one of the experiment's ids charges an issued call of it. */
  lemma {:induction false} EntryOfExperimentIsCall(p: Policy, ledger: Ledger, ids: set<Fingerprint>, calls: seq<Call>,
                                                   j: nat, id: Fingerprint) returns (i: nat)
    requires ValidEntries(ledger) && Reconciled(p, ids, ledger.entries, calls)
    requires j < |ledger.entries| && ledger.entries[j].callId == Some(id) && id in ids
    ensures i < |calls| && calls[i].status != BudgetExhausted && p.callId(calls[i].stage, calls[i].qid) == id
    ensures ledger.entries[j].cacheKey == calls[i].cacheKey && ledger.entries[j].cost == calls[i].cost
  {
    i := ChargeHasOneCall(p, ledger, ids, calls, j);
    var k := CallHasOneCharge(p, ledger, ids, calls, i);
    assert CallAgrees(p, ledger.entries, calls[i]);
  }

  /** What acceptance says of a call that was never issued: no charge under its key, and no cost. */
  lemma {:induction false} UnissuedCallFields(p: Policy, ledger: Ledger, ids: set<Fingerprint>, calls: seq<Call>,
                                              i: nat)
    requires Reconciled(p, ids, ledger.entries, calls) && i < |calls| && calls[i].status == BudgetExhausted
    ensures calls[i].cacheKey == p.keyOf(calls[i].request, p.callId(calls[i].stage, calls[i].qid))
    ensures calls[i].cost == 0.0
    ensures forall j :: 0 <= j < |ledger.entries| ==> ledger.entries[j].cacheKey != calls[i].cacheKey
  {
    assert CallAgrees(p, ledger.entries, calls[i]);
  }

  // ----- conservation ------------------------------------------------------

  ghost function OwnIndices(ids: set<Fingerprint>, entries: seq<Entry>): set<nat> {
    set j: nat | j < |entries| && IsOwn(ids, entries[j])
  }

  ghost function IssuedIndices(calls: seq<Call>): set<nat> {
    set i: nat | i < |calls| && Issued(calls[i])
  }

  ghost function EntryCost(entries: seq<Entry>): nat -> real {
    (j: nat) => if j < |entries| then entries[j].cost else 0.0
  }

  ghost function CallCost(calls: seq<Call>): nat -> real {
    (i: nat) => if i < |calls| then calls[i].cost else 0.0
  }

  lemma {:induction false} OwnSumIsSetSum(ids: set<Fingerprint>, entries: seq<Entry>)
    ensures OwnSum(ids, entries) == Sum(OwnIndices(ids, entries), EntryCost(entries))
  {
    if entries == [] {
      assert OwnIndices(ids, entries) == {};
    } else {
      var n: nat := |entries| - 1;
      var front := entries[..n];
      OwnSumIsSetSum(ids, front);
      SumSame(OwnIndices(ids, front), EntryCost(front), EntryCost(entries));
      if IsOwn(ids, entries[n]) {
        assert OwnIndices(ids, entries) == OwnIndices(ids, front) + {n};
        SumAdd(OwnIndices(ids, front), EntryCost(entries), n);
      } else {
        assert OwnIndices(ids, entries) == OwnIndices(ids, front);
      }
    }
  }

  lemma {:induction false} CallSumIsSetSum(calls: seq<Call>)
    requires forall i :: 0 <= i < |calls| && !Issued(calls[i]) ==> calls[i].cost == 0.0
    ensures CallSum(calls) == Sum(IssuedIndices(calls), CallCost(calls))
  {
    if calls == [] {
      assert IssuedIndices(calls) == {};
    } else {
      var n: nat := |calls| - 1;
      var front := calls[..n];
      CallSumIsSetSum(front);
      SumSame(IssuedIndices(front), CallCost(front), CallCost(calls));
      if Issued(calls[n]) {
        assert IssuedIndices(calls) == IssuedIndices(front) + {n};
        SumAdd(IssuedIndices(front), CallCost(calls), n);
      } else {
        assert IssuedIndices(calls) == IssuedIndices(front);
      }
    }
  }

  /** The charge of an issued call. */
  ghost function ChargeOf(p: Policy, entries: seq<Entry>, c: Call): (j: nat)
    requires Issued(c) && CallAgrees(p, entries, c)
    ensures j < |entries| && EntryAgrees(p, entries[j], c)
  {
    var j :| 0 <= j < |entries| && EntryAgrees(p, entries[j], c);
    j
  }

  ghost function ChargeMap(p: Policy, entries: seq<Entry>, calls: seq<Call>): (m: map<nat, nat>)
    requires CallsAgree(p, entries, calls)
    ensures m.Keys == IssuedIndices(calls)
    ensures forall i :: i in m ==> m[i] < |entries| && EntryAgrees(p, entries[m[i]], calls[i])
  {
    map i | i in IssuedIndices(calls) :: ChargeOf(p, entries, calls[i])
  }

  /** Conservation: what the experiment's own entries charge is what its calls cost. */
  lemma {:induction false} OwnSpendIsCallCost(p: Policy, ledger: Ledger, ids: set<Fingerprint>, calls: seq<Call>)
    requires ValidEntries(ledger) && Reconciled(p, ids, ledger.entries, calls)
    ensures OwnSum(ids, ledger.entries) == CallSum(calls)
  {
    var entries := ledger.entries;
    var m := ChargeMap(p, entries, calls);
    var a, b := IssuedIndices(calls), OwnIndices(ids, entries);
    forall x | x in a ensures m[x] in b && Charges(p, calls, entries, x, m[x]) {
      var j := CallHasOneCharge(p, ledger, ids, calls, x);
    }
    forall x, y | x in a && y in a && m[x] == m[y] ensures x == y {
      var i := ChargeHasOneCall(p, ledger, ids, calls, m[x]);
    }
    forall j | j in b ensures exists i :: i in a && m[i] == j {
      var i := ChargeHasOneCall(p, ledger, ids, calls, j);
      var j' := CallHasOneCharge(p, ledger, ids, calls, i);
      assert i in a && m[i] == j;
    }
    SumBijection(a, b, m, CallCost(calls), EntryCost(entries));
    forall i | 0 <= i < |calls| && !Issued(calls[i]) ensures calls[i].cost == 0.0 {
      assert CallAgrees(p, entries, calls[i]);
    }
    CallSumIsSetSum(calls);
    OwnSumIsSetSum(ids, entries);
  }

  // ----- scanning the ledger -----------------------------------------------

  ghost predicate WellFormed(ledger: Ledger) {
    && Distinct(ledger.categories) && Total !in ledger.categories
    && forall c :: c in ledger.categories ==> c in ledger.caps
  }

  /** `m` finds every one of these entries by its key, and nothing else. */
  ghost predicate Indexes(m: map<Fingerprint, Entry>, entries: seq<Entry>) {
    && (forall j :: 0 <= j < |entries| ==> entries[j].cacheKey in m && m[entries[j].cacheKey] == entries[j])
    && (forall key :: key in m ==> exists j :: 0 <= j < |entries| && entries[j].cacheKey == key)
  }

  ghost predicate TotalsOf(categories: seq<Category>, totals: map<Category, real>, entries: seq<Entry>) {
    && (forall c :: c in totals <==> c in categories)
    && (forall c :: c in categories ==> totals[c] == CategorySum(entries, c))
    && TotalOf(categories, totals) == CostSum(entries)
  }

  ghost predicate GoodEntry(ledger: Ledger, ids: set<Fingerprint>, k: nat)
    requires k < |ledger.entries|
  {
    var e := ledger.entries[k];
    && e.cacheKey != Empty && e.category in ledger.categories && e.cost >= 0.0
    && (forall j :: 0 <= j < k ==> ledger.entries[j].cacheKey != e.cacheKey)
    && (IsOwn(ids, e) ==> e.callId.value !in OwnIds(ids, ledger.entries[..k]))
  }

  lemma {:induction false} GoodEntriesAreValid(ledger: Ledger, ids: set<Fingerprint>)
    ensures Passed(ledger, ids, |ledger.entries|) <==> ValidEntries(ledger) && OwnDistinct(ids, ledger.entries)
  {
    var entries := ledger.entries;
    if forall k: nat :: k < |entries| ==> GoodEntry(ledger, ids, k) {
      forall i, j | 0 <= i < j < |entries| && IsOwn(ids, entries[i]) && IsOwn(ids, entries[j])
        ensures entries[i].callId != entries[j].callId
      {
        assert GoodEntry(ledger, ids, j);
        assert entries[..j][i] == entries[i];
        OwnIdsMeans(ids, entries[..j], entries[i].callId.value);
      }
      forall i, j | 0 <= i < j < |entries| ensures entries[i].cacheKey != entries[j].cacheKey {
        assert GoodEntry(ledger, ids, j);
      }
      forall j | 0 <= j < |entries|
        ensures entries[j].cacheKey != Empty && entries[j].category in ledger.categories && entries[j].cost >= 0.0
      {
        assert GoodEntry(ledger, ids, j);
      }
    }
    if ValidEntries(ledger) && OwnDistinct(ids, entries) {
      forall k: nat | k < |entries| ensures GoodEntry(ledger, ids, k) {
        assert forall j :: 0 <= j < k ==> entries[..k][j] == entries[j];
        if IsOwn(ids, entries[k]) { OwnIdsMeans(ids, entries[..k], entries[k].callId.value); }
      }
    }
  }

  lemma {:induction false} IndexesExtends(m: map<Fingerprint, Entry>, entries: seq<Entry>, e: Entry)
    requires Indexes(m, entries) && forall j :: 0 <= j < |entries| ==> entries[j].cacheKey != e.cacheKey
    ensures Indexes(m[e.cacheKey := e], entries + [e])
  {
    var longer, m' := entries + [e], m[e.cacheKey := e];
    forall key | key in m' ensures exists j :: 0 <= j < |longer| && longer[j].cacheKey == key {
      if key == e.cacheKey {
        assert longer[|entries|] == e;
      } else {
        var j :| 0 <= j < |entries| && entries[j].cacheKey == key;
        assert longer[j] == entries[j];
      }
    }
  }

  lemma {:induction false} TotalsExtend(categories: seq<Category>, totals: map<Category, real>, entries: seq<Entry>,
                                        e: Entry)
    requires Distinct(categories) && TotalsOf(categories, totals, entries) && e.category in categories
    ensures TotalsOf(categories, totals[e.category := totals[e.category] + e.cost], entries + [e])
  {
    assert (entries + [e])[..|entries|] == entries;
    ChargeRaisesTotal(categories, totals, e.category, e.cost);
  }

  lemma {:induction false} OwnExtends(ids: set<Fingerprint>, entries: seq<Entry>, e: Entry)
    ensures OwnIds(ids, entries + [e]) == OwnIds(ids, entries) + (if IsOwn(ids, e) then {e.callId.value} else {})
    ensures OwnSum(ids, entries + [e]) == OwnSum(ids, entries) + (if IsOwn(ids, e) then e.cost else 0.0)
  {
    assert (entries + [e])[..|entries|] == entries;
  }

  lemma {:induction false} EmptyTotals(categories: seq<Category>, totals: map<Category, real>)
    requires (forall c :: c in totals <==> c in categories) && forall c :: c in categories ==> totals[c] == 0.0
    ensures TotalOf(categories, totals) == 0.0
  {
    if categories != [] {
      var front := categories[..|categories| - 1];
      assert categories == front + [categories[|categories| - 1]];
      var less := map c | c in totals && c in front :: totals[c];
      EmptyTotals(front, less);
      SameTotals(front, totals, less);
    }
  }

  lemma {:induction false} SameTotals(categories: seq<Category>, a: map<Category, real>, b: map<Category, real>)
    requires forall c :: c in categories ==> c in a && c in b && a[c] == b[c]
    ensures TotalOf(categories, a) == TotalOf(categories, b)
  {
    if categories != [] {
      assert categories == categories[..|categories| - 1] + [categories[|categories| - 1]];
      SameTotals(categories[..|categories| - 1], a, b);
    }
  }

  /** What the first loop gathers: the key index, category totals, own ids and own spend. */
  datatype Scan = Scan(index: map<Fingerprint, Entry>, totals: map<Category, real>,
                       ownIds: set<Fingerprint>, incremental: real)

  function ScanStart(categories: seq<Category>): Scan {
    Scan(map[], map c | c in categories :: 0.0, {}, 0.0)
  }

  function ScanNext(scan: Scan, ids: set<Fingerprint>, e: Entry): Scan {
    Scan(scan.index[e.cacheKey := e],
         if e.category in scan.totals then scan.totals[e.category := scan.totals[e.category] + e.cost] else scan.totals,
         if IsOwn(ids, e) then scan.ownIds + {e.callId.value} else scan.ownIds,
         if IsOwn(ids, e) then scan.incremental + e.cost else scan.incremental)
  }

  function ScanOf(ledger: Ledger, ids: set<Fingerprint>, n: nat): Scan
    requires n <= |ledger.entries|
  {
    if n == 0 then ScanStart(ledger.categories) else ScanNext(ScanOf(ledger, ids, n - 1), ids, ledger.entries[n - 1])
  }

  ghost predicate Passed(ledger: Ledger, ids: set<Fingerprint>, n: nat)
    requires n <= |ledger.entries|
  {
    forall j: nat :: j < n ==> GoodEntry(ledger, ids, j)
  }

  /** The gathered values are what they should be for these entries. */
  ghost predicate Scanned(categories: seq<Category>, ids: set<Fingerprint>, entries: seq<Entry>, scan: Scan) {
    && Indexes(scan.index, entries) && TotalsOf(categories, scan.totals, entries)
    && scan.ownIds == OwnIds(ids, entries) && scan.incremental == OwnSum(ids, entries)
  }

  lemma {:induction false} ScannedStart(categories: seq<Category>, ids: set<Fingerprint>)
    ensures Scanned(categories, ids, [], ScanStart(categories))
  {
    EmptyTotals(categories, ScanStart(categories).totals);
  }

  lemma {:induction false} NextIndex(ids: set<Fingerprint>, entries: seq<Entry>, scan: Scan, e: Entry)
    requires Indexes(scan.index, entries) && forall j :: 0 <= j < |entries| ==> entries[j].cacheKey != e.cacheKey
    ensures Indexes(ScanNext(scan, ids, e).index, entries + [e])
  {
    IndexesExtends(scan.index, entries, e);
  }

  lemma {:induction false} NextTotals(categories: seq<Category>, ids: set<Fingerprint>, entries: seq<Entry>,
                                      scan: Scan, e: Entry)
    requires Distinct(categories) && TotalsOf(categories, scan.totals, entries) && e.category in categories
    ensures TotalsOf(categories, ScanNext(scan, ids, e).totals, entries + [e])
  {
    TotalsExtend(categories, scan.totals, entries, e);
  }

  lemma {:induction false} NextOwn(ids: set<Fingerprint>, entries: seq<Entry>, scan: Scan, e: Entry)
    requires scan.ownIds == OwnIds(ids, entries) && scan.incremental == OwnSum(ids, entries)
    ensures ScanNext(scan, ids, e).ownIds == OwnIds(ids, entries + [e])
    ensures ScanNext(scan, ids, e).incremental == OwnSum(ids, entries + [e])
  {
    OwnExtends(ids, entries, e);
  }

  lemma {:induction false} ScannedNext(categories: seq<Category>, ids: set<Fingerprint>, entries: seq<Entry>,
                                       scan: Scan, e: Entry)
    requires Distinct(categories) && Scanned(categories, ids, entries, scan)
    requires e.category in categories && forall j :: 0 <= j < |entries| ==> entries[j].cacheKey != e.cacheKey
    ensures Scanned(categories, ids, entries + [e], ScanNext(scan, ids, e))
  {
    NextIndex(ids, entries, scan, e);
    NextTotals(categories, ids, entries, scan, e);
    NextOwn(ids, entries, scan, e);
  }

  /** The entry has a known category and a key not used before. */
  ghost predicate NewEntry(ledger: Ledger, k: nat)
    requires k < |ledger.entries|
  {
    && ledger.entries[k].category in ledger.categories
    && forall j :: 0 <= j < k ==> ledger.entries[j].cacheKey != ledger.entries[k].cacheKey
  }

  lemma {:induction false} ScannedOneMore(ledger: Ledger, ids: set<Fingerprint>, n: nat)
    requires WellFormed(ledger) && 0 < n <= |ledger.entries| && NewEntry(ledger, n - 1)
    requires Scanned(ledger.categories, ids, ledger.entries[..n - 1], ScanOf(ledger, ids, n - 1))
    ensures Scanned(ledger.categories, ids, ledger.entries[..n], ScanOf(ledger, ids, n))
  {
    var entries, e := ledger.entries[..n - 1], ledger.entries[n - 1];
    assert ledger.entries[..n] == entries + [e];
    ScannedNext(ledger.categories, ids, entries, ScanOf(ledger, ids, n - 1), e);
  }

  ghost predicate AllNew(ledger: Ledger, n: nat)
    requires n <= |ledger.entries|
  {
    forall k: nat :: k < n ==> NewEntry(ledger, k)
  }

  lemma {:induction false} ScanFacts(ledger: Ledger, ids: set<Fingerprint>, n: nat)
    requires WellFormed(ledger) && n <= |ledger.entries| && AllNew(ledger, n)
    ensures Scanned(ledger.categories, ids, ledger.entries[..n], ScanOf(ledger, ids, n))
  {
    if n == 0 {
      ScannedStart(ledger.categories, ids);
    } else {
      ScanFacts(ledger, ids, n - 1);
      ScannedOneMore(ledger, ids, n);
    }
  }

  lemma {:induction false} PassedAreNew(ledger: Ledger, ids: set<Fingerprint>, n: nat)
    requires n <= |ledger.entries| && Passed(ledger, ids, n)
    ensures AllNew(ledger, n)
  {
    forall k: nat | k < n ensures NewEntry(ledger, k) { assert GoodEntry(ledger, ids, k); }
  }

  /** The checks of one entry against those before it. */
  method CheckEntry(ledger: Ledger, ids: set<Fingerprint>, k: nat, scan: Scan) returns (accepted: bool)
    requires WellFormed(ledger) && k < |ledger.entries| && Passed(ledger, ids, k) && scan == ScanOf(ledger, ids, k)
    ensures accepted <==> GoodEntry(ledger, ids, k)
  {
    PassedAreNew(ledger, ids, k);
    ScanFacts(ledger, ids, k);
    var e := ledger.entries[k];
    ghost var before := ledger.entries[..k];
    assert forall j :: 0 <= j < k ==> before[j] == ledger.entries[j];
    if e.cacheKey in scan.index {
      ghost var j :| 0 <= j < |before| && before[j].cacheKey == e.cacheKey;
      assert ledger.entries[j].cacheKey == e.cacheKey;
      return false;
    }
    accepted := e.cacheKey != Empty && e.category in scan.totals && e.cost >= 0.0
                && !(IsOwn(ids, e) && e.callId.value in scan.ownIds);
  }

  /** The first loop: accepts exactly the valid entries, and indexes and totals them. */
  method ScanEntries(ledger: Ledger, ids: set<Fingerprint>) returns (accepted: bool, scan: Scan)
    requires WellFormed(ledger)
    ensures accepted <==> ValidEntries(ledger) && OwnDistinct(ids, ledger.entries)
    ensures accepted ==> Scanned(ledger.categories, ids, ledger.entries, scan)
  {
    scan := ScanStart(ledger.categories);
    for k := 0 to |ledger.entries|
      invariant Passed(ledger, ids, k) && scan == ScanOf(ledger, ids, k)
    {
      var good := CheckEntry(ledger, ids, k, scan);
      if !good {
        BadEntryRejects(ledger, ids, k);
        accepted := false;
        return;
      }
      scan := ScanNext(scan, ids, ledger.entries[k]);
    }
    AllPassed(ledger, ids);
    accepted := true;
  }

  lemma {:induction false} AllPassed(ledger: Ledger, ids: set<Fingerprint>)
    requires WellFormed(ledger) && Passed(ledger, ids, |ledger.entries|)
    ensures ValidEntries(ledger) && OwnDistinct(ids, ledger.entries)
    ensures Scanned(ledger.categories, ids, ledger.entries, ScanOf(ledger, ids, |ledger.entries|))
  {
    PassedAreNew(ledger, ids, |ledger.entries|);
    ScanFacts(ledger, ids, |ledger.entries|);
    GoodEntriesAreValid(ledger, ids);
    assert ledger.entries[..|ledger.entries|] == ledger.entries;
  }

  lemma {:induction false} BadEntryRejects(ledger: Ledger, ids: set<Fingerprint>, k: nat)
    requires k < |ledger.entries| && !GoodEntry(ledger, ids, k)
    ensures !(ValidEntries(ledger) && OwnDistinct(ids, ledger.entries))
  {
    GoodEntriesAreValid(ledger, ids);
  }

  // ----- scanning the calls ------------------------------------------------

  ghost predicate GoodCall(p: Policy, entries: seq<Entry>, calls: seq<Call>, k: nat)
    requires k < |calls|
  {
    CallAgrees(p, entries, calls[k]) && forall i :: 0 <= i < k ==> calls[i].cacheKey != calls[k].cacheKey
  }

  lemma {:induction false} IssuedExtends(p: Policy, calls: seq<Call>, k: nat)
    requires k < |calls|
    ensures IssuedIds(p, calls[..k + 1])
            == IssuedIds(p, calls[..k]) + (if Issued(calls[k]) then {CallId(p, calls[k].stage, calls[k].qid)} else {})
  {
    assert calls[..k + 1][..k] == calls[..k];
  }

  ghost function KeySet(calls: seq<Call>): set<Fingerprint> {
    if calls == [] then {} else KeySet(calls[..|calls| - 1]) + {calls[|calls| - 1].cacheKey}
  }

  lemma {:induction false} KeySetMeans(calls: seq<Call>, key: Fingerprint)
    ensures key in KeySet(calls) <==> exists i :: 0 <= i < |calls| && calls[i].cacheKey == key
  {
    if calls != [] {
      var n := |calls| - 1;
      KeySetMeans(calls[..n], key);
      assert forall i :: 0 <= i < n ==> calls[..n][i] == calls[i];
    }
  }

  lemma {:induction false} KeysExtend(calls: seq<Call>, k: nat)
    requires k < |calls|
    ensures KeySet(calls[..k + 1]) == KeySet(calls[..k]) + {calls[k].cacheKey}
    ensures calls[k].cacheKey in KeySet(calls[..k])
            <==> exists i :: 0 <= i < k && calls[i].cacheKey == calls[k].cacheKey
  {
    assert calls[..k + 1][..k] == calls[..k];
    KeySetMeans(calls[..k], calls[k].cacheKey);
    assert forall i :: 0 <= i < k ==> calls[..k][i] == calls[i];
  }

  ghost predicate PassedCalls(p: Policy, entries: seq<Entry>, calls: seq<Call>, n: nat)
    requires n <= |calls|
  {
    forall i: nat :: i < n ==> GoodCall(p, entries, calls, i)
  }

  lemma {:induction false} GoodCallsAgree(p: Policy, entries: seq<Entry>, calls: seq<Call>)
    ensures PassedCalls(p, entries, calls, |calls|) <==> CallsAgree(p, entries, calls)
  {
    if forall k: nat :: k < |calls| ==> GoodCall(p, entries, calls, k) {
      forall i, k | 0 <= i < k < |calls| ensures calls[i].cacheKey != calls[k].cacheKey {
        assert GoodCall(p, entries, calls, k);
      }
      forall i | 0 <= i < |calls| ensures CallAgrees(p, entries, calls[i]) {
        assert GoodCall(p, entries, calls, i);
      }
    }
  }

  /** One call: looked up by its recomputed key. */
  method CheckCall(p: Policy, entries: seq<Entry>, m: map<Fingerprint, Entry>, c: Call) returns (accepted: bool)
    requires Indexes(m, entries) && forall i, j :: 0 <= i < j < |entries| ==> entries[i].cacheKey != entries[j].cacheKey
    ensures accepted <==> CallAgrees(p, entries, c)
  {
    var key := KeyOf(p, c);
    if c.cacheKey != key { return false; }
    if !Issued(c) {
      accepted := key !in m && c.cost == 0.0;
    } else if key !in m {
      accepted := false;
    } else {
      var e := m[key];
      ghost var j :| 0 <= j < |entries| && entries[j].cacheKey == key;
      assert entries[j] == e;
      var reserve := p.reserve(c.request);
      accepted := e.callId == Some(CallId(p, c.stage, c.qid)) && e.status == c.status && e.category == ReaderJudgeDev
                  && e.cost == c.cost && e.usage == c.usage && e.reserved == reserve && c.cost <= reserve + SLACK;
    }
  }

  method CheckCallAt(p: Policy, entries: seq<Entry>, m: map<Fingerprint, Entry>, calls: seq<Call>, k: nat,
                     seen: set<Fingerprint>)
    returns (accepted: bool)
    requires Indexes(m, entries) && forall i, j :: 0 <= i < j < |entries| ==> entries[i].cacheKey != entries[j].cacheKey
    requires k < |calls| && seen == KeySet(calls[..k])
    ensures accepted <==> GoodCall(p, entries, calls, k)
  {
    KeysExtend(calls, k);
    accepted := CheckCall(p, entries, m, calls[k]);
    accepted := accepted && calls[k].cacheKey !in seen;
  }

  /** The second loop: accepts exactly the calls that agree with the ledger under distinct keys. */
  method ScanCalls(p: Policy, entries: seq<Entry>, m: map<Fingerprint, Entry>, calls: seq<Call>)
    returns (accepted: bool, issued: set<Fingerprint>)
    requires Indexes(m, entries) && forall i, j :: 0 <= i < j < |entries| ==> entries[i].cacheKey != entries[j].cacheKey
    ensures accepted <==> CallsAgree(p, entries, calls)
    ensures accepted ==> issued == IssuedIds(p, calls)
  {
    var seen: set<Fingerprint> := {};
    issued := {};
    for k := 0 to |calls|
      invariant PassedCalls(p, entries, calls, k)
      invariant seen == KeySet(calls[..k]) && issued == IssuedIds(p, calls[..k])
    {
      var good := CheckCallAt(p, entries, m, calls, k, seen);
      if !good {
        BadCallRejects(p, entries, calls, k);
        accepted := false;
        return;
      }
      KeysExtend(calls, k);
      IssuedExtends(p, calls, k);
      seen := seen + {calls[k].cacheKey};
      if Issued(calls[k]) {
        issued := issued + {CallId(p, calls[k].stage, calls[k].qid)};
      }
    }
    GoodCallsAgree(p, entries, calls);
    assert calls[..|calls|] == calls;
    accepted := true;
  }

  lemma {:induction false} BadCallRejects(p: Policy, entries: seq<Entry>, calls: seq<Call>, k: nat)
    requires k < |calls| && !GoodCall(p, entries, calls, k)
    ensures !CallsAgree(p, entries, calls)
  {
    GoodCallsAgree(p, entries, calls);
  }

  // ----- the whole check ---------------------------------------------------

  ghost predicate WithinCaps(ledger: Ledger)
    requires WellFormed(ledger)
  {
    && CostSum(ledger.entries) <= 250.0
    && DEV in ledger.categories && CategorySum(ledger.entries, DEV) <= 120.0
    && forall c :: c in ledger.categories ==> CategorySum(ledger.entries, c) <= ledger.caps[c]
  }

  ghost predicate ReportsAgree(p: Policy, ledger: Ledger, report: Report) {
    var ids := ExpectedIds(p, report.qids);
    && (forall c :: c in ledger.byCategory <==> c in ledger.categories)
    && (forall c :: c in ledger.byCategory ==> ledger.byCategory[c] == CategorySum(ledger.entries, c))
    && ledger.total == CostSum(ledger.entries) && report.globalSpend == CostSum(ledger.entries)
    && report.incrementalSpend == OwnSum(ids, ledger.entries)
    && OwnSum(ids, ledger.entries) <= p.newSpendCap == 50.0
  }

  lemma {:induction false} TotalsDetermined(p: Policy, ledger: Ledger, report: Report, totals: map<Category, real>)
    requires TotalsOf(ledger.categories, totals, ledger.entries)
    ensures ReportsAgree(p, ledger, report) ==> ledger.byCategory == totals
  {
  }

  /**
   Accepts exactly when the ledger is valid and within its caps, its totals and the report
   agree with the entries, and issued calls and own entries reconcile; it then returns the
   total of all entries and the total cost of all calls.
   */
  method CheckSpend(p: Policy, ledger: Ledger, report: Report, calls: seq<Call>) returns (r: Option<(real, real)>)
    requires WellFormed(ledger)
    ensures r.Some? <==> (&& ValidEntries(ledger) && WithinCaps(ledger) && ReportsAgree(p, ledger, report)
                          && Reconciled(p, ExpectedIds(p, report.qids), ledger.entries, calls))
    ensures r.Some? ==> r.value == (CostSum(ledger.entries), CallSum(calls))
  {
    var ids := ExpectedIds(p, report.qids);
    var ok, scan := ScanEntries(ledger, ids);
    if !ok { return None; }
    var totals, incremental := scan.totals, scan.incremental;
    var total := TotalOf(ledger.categories, totals);
    if ledger.byCategory != totals {
      TotalsDetermined(p, ledger, report, totals);
      return None;
    }
    if ledger.total != total || report.globalSpend != total { return None; }
    if !(total <= 250.0 && DEV in totals && totals[DEV] <= 120.0
         && forall c | c in ledger.categories :: totals[c] <= ledger.caps[c]) {
      return None;
    }
    if report.incrementalSpend != incremental { return None; }
    if !(incremental <= p.newSpendCap && p.newSpendCap == 50.0) { return None; }
    var agree, issued := ScanCalls(p, ledger.entries, scan.index, calls);
    if !agree || scan.ownIds != issued { return None; }
    OwnSpendIsCallCost(p, ledger, ids, calls);
    r := Some((total, incremental));
  }

  lemma {:induction false} CategorySumMonotone(ids: set<Fingerprint>, entries: seq<Entry>)
    requires forall j :: 0 <= j < |entries| ==>
               entries[j].cost >= 0.0 && (IsOwn(ids, entries[j]) ==> entries[j].category == DEV)
    ensures OwnSum(ids, entries) <= CategorySum(entries, DEV) <= CostSum(entries)
  {
    if entries != [] { CategorySumMonotone(ids, entries[..|entries| - 1]); }
  }

  /** The experiment's spend is part of its category's spend, which is within every cap. */
  lemma {:induction false} AcceptedSpendIsCapped(p: Policy, ledger: Ledger, report: Report, calls: seq<Call>)
    requires WellFormed(ledger) && ValidEntries(ledger) && WithinCaps(ledger)
    requires Reconciled(p, ExpectedIds(p, report.qids), ledger.entries, calls)
    ensures CallSum(calls) <= CategorySum(ledger.entries, DEV) <= CostSum(ledger.entries) <= 250.0
    ensures CallSum(calls) <= 120.0 && CallSum(calls) <= ledger.caps[DEV]
  {
    var ids := ExpectedIds(p, report.qids);
    OwnSpendIsCallCost(p, ledger, ids, calls);
    forall j | 0 <= j < |ledger.entries| && IsOwn(ids, ledger.entries[j]) ensures ledger.entries[j].category == DEV {
      var i := ChargeHasOneCall(p, ledger, ids, calls, j);
      var j' := CallHasOneCharge(p, ledger, ids, calls, i);
    }
    CategorySumMonotone(ids, ledger.entries);
  }
}
