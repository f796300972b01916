/**
 The reader/writer/compactor protocol of examples/compaction_updates.rs as a state machine:
 four readers, one writer and the main thread, a barrier for all six, a second barrier for
 the readers and the main thread, and a channel that carries the first acknowledgment.
 Every store call, file write and standard-output event may fail; store calls return.
 */
module CompactionProtocol {
  import opened Wrappers
  import opened CompactionOracle
  import opened CompactionCheck

  /** The counter of the writer's loop, which starts at 1. */
  type Revision = r: int | 1 <= r witness 1

  datatype ReaderPc =
    | ReaderSpawned
    | ReaderAtBarrier
    | ReaderBetween
    | ReaderAtServing
    | Opening
    | Querying(next: nat)
    | Asking(next: nat, start: nat)
    | Answered(next: nat, start: nat, end: nat)
    | ReaderDone(ok: bool)

  datatype WriterPc =
    | WriterSpawned
    | WriterAtBarrier
    | Creating
    | Ready(revision: Revision, deleting: bool)
    | Calling(revision: Revision, deleting: bool, start: nat)
    | Writing(revision: Revision, deleting: bool, start: nat, end: nat)
    | Sending(revision: Revision)
    | WriterDone(ok: bool)

  datatype MainPc =
    | MainSpawning
    | MainAtBarrier
    | Receiving
    | Recording(acknowledged: bool)
    | Announcing(acknowledged: bool)
    | MainBeforeServing(acknowledged: bool, notified: bool)
    | MainAtServing(acknowledged: bool, notified: bool)
    | Released(acknowledged: bool, notified: bool)
    | Compacting
    | AnnouncingTail(compacted: bool)
    | JoiningWriter(compacted: bool)
    | JoiningReader(compacted: bool, reader: nat)
    | ScopeExit(ok: bool)
    | MainDone(ok: bool)

  /** The events announced on standard output during the concurrent phase. */
  datatype Notice = CompactingNotice | TailNotice

  /**
   `log` is the writer's journal and `logs` the readers' query logs. What the store answers to
   each query is arbitrary: a function of the reader and the number of its query.
   */
  datatype State = State(
    readers: seq<ReaderPc>,
    writer: WriterPc,
    main: MainPc,
    clock: nat,
    log: seq<Operation>,
    sent: bool,
    logs: seq<seq<Query>>,
    compactStart: nat,
    compactEnd: nat,
    notices: seq<Notice>,
    answers: (nat, nat) -> seq<(nat, nat)>)

  /** One step: which thread moves, whether its fallible action succeeds, how far the clock moves. */
  datatype Role = Reader(index: nat) | Writer | Main
  datatype Step = Step(role: Role, ok: bool, tick: nat)

  ghost predicate Init(s: State) {
    && |s.readers| == READERS && (forall r :: 0 <= r < READERS ==> s.readers[r] == ReaderSpawned)
    && s.writer == WriterSpawned && s.main == MainSpawning
    && s.log == [] && !s.sent && s.notices == []
    && |s.logs| == READERS && (forall r :: 0 <= r < READERS ==> s.logs[r] == [])
  }

  // ----- barriers ----------------------------------------------------------

  function ReaderPhase(pc: ReaderPc): nat {
    match pc
    case ReaderSpawned => 0
    case ReaderAtBarrier => 1
    case ReaderBetween => 2
    case ReaderAtServing => 3
    case ReaderDone(_) => 5
    case _ => 4
  }

  function WriterPhase(pc: WriterPc): nat {
    match pc
    case WriterSpawned => 0
    case WriterAtBarrier => 1
    case _ => 2
  }

  function MainPhase(pc: MainPc): nat {
    match pc
    case MainSpawning => 0
    case MainAtBarrier => 1
    case Receiving => 2
    case Recording(_) => 3
    case Announcing(_) => 4
    case MainBeforeServing(_, _) => 5
    case MainAtServing(_, _) => 6
    case Released(_, _) => 7
    case Compacting => 8
    case AnnouncingTail(_) => 9
    case JoiningWriter(_) => 10
    case JoiningReader(_, _) => 11
    case ScopeExit(_) => 12
    case MainDone(_) => 13
  }

  /** All six threads have arrived at the first barrier. */
  predicate BarrierOpen(s: State) {
    && (forall r :: 0 <= r < |s.readers| ==> ReaderPhase(s.readers[r]) >= 1)
    && WriterPhase(s.writer) >= 1 && MainPhase(s.main) >= 1
  }

  /** All readers and the main thread have arrived at the second barrier. */
  predicate ServingOpen(s: State) {
    (forall r :: 0 <= r < |s.readers| ==> ReaderPhase(s.readers[r]) >= 3) && MainPhase(s.main) >= 6
  }

  // ----- transitions -------------------------------------------------------

  /** A reader's own control flow, given the clock and whether the two barriers are open. */
  function ReaderNext(pc: ReaderPc, barrier: bool, serving: bool, clock: nat, ok: bool): Option<ReaderPc> {
    match pc
    case ReaderSpawned => Some(ReaderAtBarrier)
    case ReaderAtBarrier => if barrier then Some(ReaderBetween) else None
    case ReaderBetween => Some(ReaderAtServing)
    case ReaderAtServing => if serving then Some(Opening) else None
    case Opening => Some(if ok then Querying(0) else ReaderDone(false))
    case Querying(next) => Some(if next < QUERIES then Asking(next, clock) else ReaderDone(ok))
    case Asking(next, start) => Some(if ok then Answered(next, start, clock) else ReaderDone(false))
    case Answered(next, _, _) => Some(if ok then Querying(next + 1) else ReaderDone(false))
    case ReaderDone(_) => None
  }

  /** The row of a query: its labels, the pair it asked for, its interval and its answer. */
  function QueryRow(r: nat, pc: ReaderPc, found: seq<(nat, nat)>): Query
    requires pc.Answered?
  {
    Query(r, pc.next, (r + pc.next) % PAIRS, pc.start, pc.end, found)
  }

  /** The query log after a reader's action: one row more if it wrote one. */
  function Logged(log: seq<Query>, r: nat, pc: ReaderPc, ok: bool, answers: (nat, nat) -> seq<(nat, nat)>): seq<Query> {
    if pc.Answered? && ok then log + [QueryRow(r, pc, answers(r, pc.next))] else log
  }

  function ReaderStep(s: State, r: nat, ok: bool): Option<State>
    requires r < |s.readers|
  {
    match ReaderNext(s.readers[r], BarrierOpen(s), ServingOpen(s), s.clock, ok)
    case None => None
    case Some(pc) =>
      var logs := if r < |s.logs| then s.logs[r := Logged(s.logs[r], r, s.readers[r], ok, s.answers)] else s.logs;
      Some(s.(readers := s.readers[r := pc], logs := logs))
  }

  /** After the replacement of a revision divisible by four comes its deletion, else the next revision. */
  function Continue(revision: Revision, deleting: bool): WriterPc {
    if !deleting && revision % 4 == 0 then Ready(revision, true) else Ready(revision + 1, false)
  }

  /** The row of a replacement or deletion: the revision's pair and the recorded interval. */
  function RowOf(revision: Revision, deleting: bool, start: nat, end: nat): Operation {
    Operation(if deleting then Delete else Replace, (revision - 1) % PAIRS, revision, start, end)
  }

  /** The writer's control flow; a failed action ends it and drops the sender. */
  function WriterNext(pc: WriterPc, barrier: bool, clock: nat, ok: bool): Option<WriterPc> {
    match pc
    case WriterSpawned => Some(WriterAtBarrier)
    case WriterAtBarrier => if barrier then Some(Creating) else None
    case Creating => Some(if ok then Ready(1, false) else WriterDone(false))
    case Ready(revision, deleting) =>
      Some(if deleting || revision <= UPDATES then Calling(revision, deleting, clock) else WriterDone(ok))
    case Calling(revision, deleting, start) =>
      Some(if ok then Writing(revision, deleting, start, clock) else WriterDone(false))
    case Writing(revision, deleting, _, _) =>
      Some(if !ok then WriterDone(false)
           else if !deleting && revision == 1 then Sending(revision) else Continue(revision, deleting))
    case Sending(revision) => Some(Continue(revision, false))
    case WriterDone(_) => None
  }

  /** The rows written by a writer at `pc`. */
  function Written(pc: WriterPc, ok: bool): seq<Operation> {
    if pc.Writing? && ok then [RowOf(pc.revision, pc.deleting, pc.start, pc.end)] else []
  }

  function WriterStep(s: State, ok: bool): Option<State> {
    match WriterNext(s.writer, BarrierOpen(s), s.clock, ok)
    case None => None
    case Some(pc) => Some(s.(writer := pc, log := s.log + Written(s.writer, ok), sent := s.sent || s.writer.Sending?))
  }

  predicate AllReadersDone(readers: seq<ReaderPc>) {
    forall r :: 0 <= r < |readers| ==> readers[r].ReaderDone?
  }

  /** The main thread; leaving the scope early by `?` still waits for every spawned thread. */
  function MainNext(pc: MainPc, barrier: bool, serving: bool, sent: bool, writer: WriterPc, readers: seq<ReaderPc>,
                    ok: bool)
    : Option<MainPc>
  {
    match pc
    case MainSpawning => Some(MainAtBarrier)
    case MainAtBarrier => if barrier then Some(Receiving) else None
    case Receiving =>
      if sent then Some(Recording(true)) else if writer.WriterDone? then Some(Recording(false)) else None
    case Recording(a) => Some(Announcing(a))
    case Announcing(a) => Some(MainBeforeServing(a, ok))
    case MainBeforeServing(a, n) => Some(MainAtServing(a, n))
    case MainAtServing(a, n) => if serving then Some(Released(a, n)) else None
    case Released(a, n) => Some(if a && n then Compacting else ScopeExit(false))
    case Compacting => Some(AnnouncingTail(ok))
    case AnnouncingTail(c) => Some(if ok then JoiningWriter(c) else ScopeExit(false))
    case JoiningWriter(c) =>
      if !writer.WriterDone? then None else Some(if writer.ok then JoiningReader(c, 0) else ScopeExit(false))
    case JoiningReader(c, r) =>
      if r >= |readers| then Some(ScopeExit(c))
      else if !readers[r].ReaderDone? then None
      else Some(if readers[r].ok then JoiningReader(c, r + 1) else ScopeExit(false))
    case ScopeExit(result) => if writer.WriterDone? && AllReadersDone(readers) then Some(MainDone(result)) else None
    case MainDone(_) => None
  }

  function Announced(pc: MainPc, ok: bool): seq<Notice> {
    if pc.Announcing? && ok then [CompactingNotice] else if pc.AnnouncingTail? && ok then [TailNotice] else []
  }

  function MainStep(s: State, ok: bool): Option<State> {
    match MainNext(s.main, BarrierOpen(s), ServingOpen(s), s.sent, s.writer, s.readers, ok)
    case None => None
    case Some(pc) =>
      Some(s.(main := pc,
              compactStart := if s.main.Recording? then s.clock else s.compactStart,
              compactEnd := if s.main.Compacting? then s.clock else s.compactEnd,
              notices := s.notices + Announced(s.main, ok)))
  }

  function Act(s: State, role: Role, ok: bool): Option<State> {
    match role
    case Reader(r) => if r < |s.readers| then ReaderStep(s, r, ok) else None
    case Writer => WriterStep(s, ok)
    case Main => MainStep(s, ok)
  }

  function Advance(s: State, tick: nat): State {
    s.(clock := s.clock + tick)
  }

  /** The clock moves first: an action reads the time at which it happens. */
  function Next(s: State, step: Step): Option<State> {
    Act(Advance(s, step.tick), step.role, step.ok)
  }

  ghost predicate IsRun(run: seq<State>, steps: seq<Step>) {
    && |run| == |steps| + 1 && Init(run[0])
    && forall i :: 0 <= i < |steps| ==> Next(run[i], steps[i]) == Some(run[i + 1])
  }

  predicate Finished(s: State) {
    s.main.MainDone? && s.writer.WriterDone? && AllReadersDone(s.readers)
  }

  // ----- the invariant -----------------------------------------------------

  ghost function LogEnd(s: State): int {
    if s.log == [] then 0 else s.log[|s.log| - 1].end
  }

  /** How many rows come before the one for this revision and kind. */
  function Position(revision: Revision, deleting: bool): nat {
    FirstSlot(revision) + if deleting then 1 else 0
  }

  /** Where the writer's loop is, in terms of the rows logged and the acknowledgment sent. */
  ghost predicate AtRevision(s: State, revision: Revision, deleting: bool) {
    && |s.log| == Position(revision, deleting) && (s.sent <==> |s.log| > 0)
    && (deleting ==> revision % 4 == 0 && revision <= UPDATES)
  }

  ghost predicate WriterInv(s: State) {
    match s.writer
    case WriterSpawned => |s.log| == 0 && !s.sent
    case WriterAtBarrier => |s.log| == 0 && !s.sent
    case Creating => |s.log| == 0 && !s.sent
    case Ready(revision, deleting) => AtRevision(s, revision, deleting) && revision <= UPDATES + 1
    case Calling(revision, deleting, start) =>
      AtRevision(s, revision, deleting) && revision <= UPDATES && LogEnd(s) <= start <= s.clock
    case Writing(revision, deleting, start, end) =>
      AtRevision(s, revision, deleting) && revision <= UPDATES && LogEnd(s) <= start <= end <= s.clock
    case Sending(revision) => revision == 1 && |s.log| == 1 && !s.sent
    case WriterDone(ok) => (ok ==> |s.log| == OPERATIONS && s.sent) && (s.sent ==> |s.log| > 0)
  }

  /** The journal follows the schedule and its intervals are in order. */
  ghost predicate LogInv(log: seq<Operation>, clock: nat) {
    && |log| <= OPERATIONS
    && (forall i: nat :: i < |log| ==> Matches(log[i], SlotAt(i)))
    && (forall i :: 0 <= i < |log| ==> 0 <= log[i].start <= log[i].end <= clock)
    && (forall i, j :: 0 <= i < j < |log| ==> log[i].end <= log[j].start)
  }

  /** A thread past a barrier has seen that barrier open. */
  ghost predicate GateInv(s: State) {
    && (forall r :: 0 <= r < |s.readers| && ReaderPhase(s.readers[r]) >= 2 ==> BarrierOpen(s))
    && (WriterPhase(s.writer) >= 2 ==> BarrierOpen(s))
    && (MainPhase(s.main) >= 2 ==> BarrierOpen(s))
    && (forall r :: 0 <= r < |s.readers| && ReaderPhase(s.readers[r]) >= 4 ==> ServingOpen(s))
    && (MainPhase(s.main) >= 7 ==> ServingOpen(s))
  }

  predicate Acknowledged(pc: MainPc) {
    match pc
    case Recording(a) => a
    case Announcing(a) => a
    case MainBeforeServing(a, _) => a
    case MainAtServing(a, _) => a
    case Released(a, _) => a
    case Compacting => true
    case AnnouncingTail(_) => true
    case JoiningWriter(_) => true
    case JoiningReader(_, _) => true
    case ScopeExit(ok) => ok
    case MainDone(ok) => ok
    case _ => false
  }

  /** Compaction is recorded after the first acknowledged, logged replacement. */
  ghost predicate AckInv(s: State) {
    && (Acknowledged(s.main) ==> s.sent)
    && (Acknowledged(s.main) && MainPhase(s.main) >= 4 ==> |s.log| > 0 && s.log[0].end <= s.compactStart)
  }

  /** The recorded times of compaction. */
  ghost predicate TimeInv(s: State) {
    && (MainPhase(s.main) >= 4 ==> s.compactStart <= s.clock)
    && (Acknowledged(s.main) && MainPhase(s.main) >= 9 ==> s.compactStart <= s.compactEnd <= s.clock)
  }

  ghost function LastEnd(log: seq<Query>): int {
    if log == [] then 0 else log[|log| - 1].end
  }

  /** Row `i` of reader `r`: its labels, its pair and its interval. */
  ghost predicate GoodRow(log: seq<Query>, r: nat, i: nat, compactStart: nat, clock: nat)
    requires i < |log|
  {
    && log[i].reader == r && log[i].sequence == i && log[i].pair == (r + i) % 16
    && (if i == 0 then 0 else log[i - 1].end) <= log[i].start <= log[i].end <= clock
    && compactStart <= log[i].start
  }

  /** How far a reader is with its queries. */
  ghost predicate AtQuery(pc: ReaderPc, log: seq<Query>, compactStart: nat, clock: nat) {
    match pc
    case Querying(next) => |log| == next <= QUERIES
    case Asking(next, start) => |log| == next < QUERIES && LastEnd(log) <= start <= clock && compactStart <= start
    case Answered(next, start, end) =>
      |log| == next < QUERIES && LastEnd(log) <= start <= end <= clock && compactStart <= start
    case ReaderDone(ok) => |log| <= QUERIES && (ok ==> |log| == QUERIES)
    case _ => log == []
  }

  ghost predicate ReaderOk(pc: ReaderPc, log: seq<Query>, r: nat, compactStart: nat, clock: nat) {
    && AtQuery(pc, log, compactStart, clock)
    && forall i: nat :: i < |log| ==> GoodRow(log, r, i, compactStart, clock)
  }

  ghost predicate ReadInv(s: State) {
    && |s.logs| == |s.readers|
    && forall r: nat :: r < |s.readers| ==> ReaderOk(s.readers[r], s.logs[r], r, s.compactStart, s.clock)
  }

  /** What has been announced by the time the main thread is at `pc`. */
  ghost predicate NoticeInv(pc: MainPc, notices: seq<Notice>) {
    match pc
    case MainBeforeServing(_, n) => notices == if n then [CompactingNotice] else []
    case MainAtServing(_, n) => notices == if n then [CompactingNotice] else []
    case Released(_, n) => notices == if n then [CompactingNotice] else []
    case Compacting => notices == [CompactingNotice]
    case AnnouncingTail(_) => notices == [CompactingNotice]
    case JoiningWriter(_) => notices == [CompactingNotice, TailNotice]
    case JoiningReader(_, _) => notices == [CompactingNotice, TailNotice]
    case ScopeExit(ok) => ok ==> notices == [CompactingNotice, TailNotice]
    case MainDone(ok) => ok ==> notices == [CompactingNotice, TailNotice]
    case _ => notices == []
  }

  ghost predicate ReadersDone(s: State, n: nat) {
    forall r :: 0 <= r < n && r < |s.readers| ==> s.readers[r] == ReaderDone(true)
  }

  /** What the main thread knows from its joins. */
  ghost predicate JoinInv(s: State) {
    && (s.main.JoiningReader? ==>
          s.writer == WriterDone(true) && s.main.reader <= READERS && ReadersDone(s, s.main.reader))
    && (s.main == ScopeExit(true) || s.main == MainDone(true) ==>
          s.writer == WriterDone(true) && ReadersDone(s, READERS))
    && (s.main.MainDone? ==> Finished(s))
  }

  ghost predicate Inv(s: State) {
    && |s.readers| == READERS
    && WriterInv(s) && LogInv(s.log, s.clock) && GateInv(s) && AckInv(s) && TimeInv(s) && JoinInv(s)
    && ReadInv(s) && NoticeInv(s.main, s.notices)
  }

  lemma {:induction false} InitInv(s: State)
    requires Init(s)
    ensures Inv(s)
  {
  }

  lemma {:induction false} AdvanceInv(s: State, tick: nat)
    requires Inv(s)
    ensures Inv(Advance(s, tick))
  {
    var t := Advance(s, tick);
    assert BarrierOpen(s) == BarrierOpen(t) && ServingOpen(s) == ServingOpen(t);
    forall r: nat | r < |t.readers| ensures ReaderOk(t.readers[r], t.logs[r], r, t.compactStart, t.clock) {
      ClockMoves(s.readers[r], s.logs[r], r, s.compactStart, s.clock, t.clock);
    }
  }

  lemma {:induction false} ClockMoves(pc: ReaderPc, log: seq<Query>, r: nat, compactStart: nat, clock: nat, later: nat)
    requires ReaderOk(pc, log, r, compactStart, clock) && clock <= later
    ensures ReaderOk(pc, log, r, compactStart, later)
  {
    forall i: nat | i < |log| ensures GoodRow(log, r, i, compactStart, later) {
      assert GoodRow(log, r, i, compactStart, clock);
    }
  }

  /** Barriers never close: a step that crosses a gate only when open keeps `GateInv`. */
  lemma {:induction false} GateKept(s: State, t: State)
    requires GateInv(s) && |t.readers| == |s.readers|
    requires forall r :: 0 <= r < |s.readers| ==> ReaderPhase(s.readers[r]) <= ReaderPhase(t.readers[r])
    requires WriterPhase(s.writer) <= WriterPhase(t.writer) && MainPhase(s.main) <= MainPhase(t.main)
    requires forall r :: 0 <= r < |s.readers| && ReaderPhase(t.readers[r]) >= 2 ==>
               ReaderPhase(s.readers[r]) >= 2 || BarrierOpen(s)
    requires forall r :: 0 <= r < |s.readers| && ReaderPhase(t.readers[r]) >= 4 ==>
               ReaderPhase(s.readers[r]) >= 4 || ServingOpen(s)
    requires WriterPhase(t.writer) >= 2 ==> WriterPhase(s.writer) >= 2 || BarrierOpen(s)
    requires MainPhase(t.main) >= 2 ==> MainPhase(s.main) >= 2 || BarrierOpen(s)
    requires MainPhase(t.main) >= 7 ==> MainPhase(s.main) >= 7 || ServingOpen(s)
    ensures GateInv(t)
  {
    assert BarrierOpen(s) ==> BarrierOpen(t);
    assert ServingOpen(s) ==> ServingOpen(t);
  }

  /** A reader only moves forward, and crosses a barrier only when it is open. */
  lemma {:induction false} ReaderForward(pc: ReaderPc, barrier: bool, serving: bool, clock: nat, ok: bool,
                                         next: ReaderPc)
    requires ReaderNext(pc, barrier, serving, clock, ok) == Some(next)
    ensures ReaderPhase(pc) <= ReaderPhase(next) && !pc.ReaderDone?
    ensures ReaderPhase(next) >= 2 ==> ReaderPhase(pc) >= 2 || barrier
    ensures ReaderPhase(next) >= 4 ==> ReaderPhase(pc) >= 4 || serving
  {
  }

  /** A row written by a reader continues its log. */
  lemma {:induction false} RowLogged(pc: ReaderPc, log: seq<Query>, r: nat, compactStart: nat, clock: nat, row: Query)
    requires pc.Answered? && ReaderOk(pc, log, r, compactStart, clock) && row == QueryRow(r, pc, row.found)
    ensures ReaderOk(Querying(pc.next + 1), log + [row], r, compactStart, clock)
  {
    var longer := log + [row];
    forall i: nat | i < |longer| ensures GoodRow(longer, r, i, compactStart, clock) {
      if i < |log| { assert GoodRow(log, r, i, compactStart, clock); }
    }
  }

  lemma {:induction false} ReaderStepLog(pc: ReaderPc, log: seq<Query>, r: nat, compactStart: nat, clock: nat,
                                         barrier: bool, serving: bool, ok: bool, next: ReaderPc, row: Query)
    requires ReaderOk(pc, log, r, compactStart, clock) && ReaderNext(pc, barrier, serving, clock, ok) == Some(next)
    requires ReaderPhase(pc) >= 4 ==> compactStart <= clock
    requires pc.Answered? ==> row == QueryRow(r, pc, row.found)
    ensures ReaderOk(next, if pc.Answered? && ok then log + [row] else log, r, compactStart, clock)
  {
    if pc.Answered? && ok {
      RowLogged(pc, log, r, compactStart, clock, row);
    } else if log != [] {
      assert GoodRow(log, r, |log| - 1, compactStart, clock);
    }
  }

  lemma {:induction false} ReaderStepRead(s: State, r: nat, ok: bool, t: State)
    requires GateInv(s) && TimeInv(s) && ReadInv(s) && r < |s.readers| && ReaderStep(s, r, ok) == Some(t)
    ensures ReadInv(t)
  {
    var pc, log := s.readers[r], s.logs[r];
    var row := if pc.Answered? then QueryRow(r, pc, s.answers(r, pc.next)) else Query(0, 0, 0, 0, 0, []);
    assert ReaderPhase(pc) >= 4 ==> ServingOpen(s);
    ReaderStepLog(pc, log, r, s.compactStart, s.clock, BarrierOpen(s), ServingOpen(s), ok, t.readers[r], row);
    forall q: nat | q < |t.readers| ensures ReaderOk(t.readers[q], t.logs[q], q, t.compactStart, t.clock) {
      if q != r { assert ReaderOk(s.readers[q], s.logs[q], q, s.compactStart, s.clock); }
    }
  }

  lemma {:induction false} ReaderStepJoin(s: State, r: nat, ok: bool, t: State)
    requires |s.readers| == READERS && JoinInv(s) && r < |s.readers| && ReaderStep(s, r, ok) == Some(t)
    ensures JoinInv(t)
  {
    ReaderForward(s.readers[r], BarrierOpen(s), ServingOpen(s), s.clock, ok, t.readers[r]);
    assert s.main.JoiningReader? ==> r >= s.main.reader;
  }

  lemma {:induction false} ReaderStepWriter(s: State, r: nat, ok: bool, t: State)
    requires WriterInv(s) && AckInv(s) && TimeInv(s) && r < |s.readers| && ReaderStep(s, r, ok) == Some(t)
    ensures WriterInv(t) && AckInv(t) && TimeInv(t) && t.log == s.log && t.clock == s.clock
  {
  }

  lemma {:induction false} ReaderStepGate(s: State, r: nat, ok: bool, t: State)
    requires GateInv(s) && r < |s.readers| && ReaderStep(s, r, ok) == Some(t)
    ensures GateInv(t) && |t.readers| == |s.readers|
  {
    ReaderForward(s.readers[r], BarrierOpen(s), ServingOpen(s), s.clock, ok, t.readers[r]);
    GateKept(s, t);
  }

  lemma {:induction false} ReaderStepInv(s: State, r: nat, ok: bool, t: State)
    requires Inv(s) && r < |s.readers| && ReaderStep(s, r, ok) == Some(t)
    ensures Inv(t)
  {
    ReaderStepGate(s, r, ok, t);
    ReaderStepWriter(s, r, ok, t);
    ReaderStepRead(s, r, ok, t);
    ReaderStepJoin(s, r, ok, t);
  }

  lemma {:induction false} WriterForward(pc: WriterPc, barrier: bool, clock: nat, ok: bool, next: WriterPc)
    requires WriterNext(pc, barrier, clock, ok) == Some(next)
    ensures WriterPhase(pc) <= WriterPhase(next) && !pc.WriterDone?
    ensures WriterPhase(next) >= 2 ==> WriterPhase(pc) >= 2 || barrier
  {
  }

  /** The row the loop is at is the next entry of the schedule, and its successor is one further. */
  lemma {:induction false} PositionSlot(revision: Revision, deleting: bool)
    requires revision <= UPDATES && (deleting ==> revision % 4 == 0)
    ensures Position(revision, deleting) < OPERATIONS
    ensures SlotAt(Position(revision, deleting))
            == Slot(if deleting then Delete else Replace, (revision - 1) % PAIRS, revision)
    ensures var next := Continue(revision, deleting);
            Position(next.revision, next.deleting) == Position(revision, deleting) + 1
  {
    SlotOfRevision(revision);
  }

  lemma {:induction false} LogExtends(log: seq<Operation>, clock: nat, row: Operation)
    requires LogInv(log, clock) && |log| < OPERATIONS && Matches(row, SlotAt(|log|))
    requires (log == [] || log[|log| - 1].end <= row.start) && 0 <= row.start <= row.end <= clock
    ensures LogInv(log + [row], clock)
  {
    var longer := log + [row];
    forall i, j | 0 <= i < j < |longer| ensures longer[i].end <= longer[j].start {
      if j < |log| {
        assert log[i].end <= log[j].start;
      } else if i < |log| - 1 {
        assert log[i].end <= log[|log| - 1].start;
      }
    }
  }

  lemma {:induction false} RowIsWritten(s: State, ok: bool, t: State)
    requires s.writer.Writing? && ok && WriterInv(s) && LogInv(s.log, s.clock) && WriterStep(s, ok) == Some(t)
    ensures WriterInv(t) && LogInv(t.log, t.clock)
  {
    var row := RowOf(s.writer.revision, s.writer.deleting, s.writer.start, s.writer.end);
    PositionSlot(s.writer.revision, s.writer.deleting);
    LogExtends(s.log, s.clock, row);
    assert t.log == s.log + [row];
  }

  lemma {:induction false} FirstAndLastPosition()
    ensures Position(1, false) == 0 && Position(UPDATES + 1, false) == OPERATIONS
  {
  }

  lemma {:induction false} NoRowWritten(s: State, ok: bool, t: State)
    requires !s.writer.Sending? && !(s.writer.Writing? && ok)
    requires WriterInv(s) && LogInv(s.log, s.clock) && WriterStep(s, ok) == Some(t)
    ensures WriterInv(t) && LogInv(t.log, t.clock)
  {
    assert t == s.(writer := t.writer);
    FirstAndLastPosition();
    match s.writer
    case Ready(revision, deleting) =>
      assert AtRevision(t, revision, deleting) && LogEnd(t) <= t.clock;
    case Calling(revision, deleting, _) =>
      assert AtRevision(t, revision, deleting);
    case _ =>
  }

  lemma {:induction false} WriterStepLog(s: State, ok: bool, t: State)
    requires WriterInv(s) && LogInv(s.log, s.clock) && WriterStep(s, ok) == Some(t)
    ensures WriterInv(t) && LogInv(t.log, t.clock)
  {
    if s.writer.Writing? && ok {
      RowIsWritten(s, ok, t);
    } else if s.writer.Sending? {
      PositionSlot(s.writer.revision, false);
      assert t.log == s.log;
    } else {
      NoRowWritten(s, ok, t);
    }
  }

  lemma {:induction false} WriterStepAck(s: State, ok: bool, t: State)
    requires AckInv(s) && TimeInv(s) && JoinInv(s) && ReadInv(s) && WriterStep(s, ok) == Some(t)
    ensures AckInv(t) && TimeInv(t) && JoinInv(t) && ReadInv(t)
  {
    assert t.main == s.main && t.readers == s.readers && t.logs == s.logs && !s.writer.WriterDone?;
    assert s.log <= t.log;
  }

  lemma {:induction false} WriterStepGate(s: State, ok: bool, t: State)
    requires GateInv(s) && WriterStep(s, ok) == Some(t)
    ensures GateInv(t) && t.readers == s.readers
  {
    WriterForward(s.writer, BarrierOpen(s), s.clock, ok, t.writer);
    GateKept(s, t);
  }

  lemma {:induction false} WriterStepInv(s: State, ok: bool, t: State)
    requires Inv(s) && WriterStep(s, ok) == Some(t)
    ensures Inv(t)
  {
    WriterStepLog(s, ok, t);
    WriterStepAck(s, ok, t);
    WriterStepGate(s, ok, t);
  }

  lemma {:induction false} MainForward(s: State, ok: bool, next: MainPc)
    requires MainNext(s.main, BarrierOpen(s), ServingOpen(s), s.sent, s.writer, s.readers, ok) == Some(next)
    ensures MainPhase(s.main) <= MainPhase(next) && !s.main.MainDone?
    ensures MainPhase(next) >= 2 ==> MainPhase(s.main) >= 2 || BarrierOpen(s)
    ensures MainPhase(next) >= 7 ==> MainPhase(s.main) >= 7 || ServingOpen(s)
    ensures Acknowledged(next) ==> Acknowledged(s.main) || (s.main.Receiving? && s.sent)
    ensures MainPhase(next) >= 4 ==> MainPhase(s.main) >= 4 || s.main.Recording?
  {
  }

  lemma {:induction false} MainStepAck(s: State, ok: bool, t: State)
    requires WriterInv(s) && LogInv(s.log, s.clock) && AckInv(s) && TimeInv(s) && MainStep(s, ok) == Some(t)
    ensures WriterInv(t) && AckInv(t) && TimeInv(t)
  {
    MainForward(s, ok, t.main);
    if s.main.Recording? && s.main.acknowledged { assert s.sent && |s.log| > 0; }
  }

  lemma {:induction false} MainStepJoin(s: State, ok: bool, t: State)
    requires |s.readers| == READERS && JoinInv(s) && MainStep(s, ok) == Some(t)
    ensures JoinInv(t)
  {
  }

  /** When the start of compaction is recorded no reader has asked anything yet. */
  lemma {:induction false} MainStepRead(s: State, ok: bool, t: State)
    requires GateInv(s) && ReadInv(s) && MainStep(s, ok) == Some(t)
    ensures ReadInv(t)
  {
    forall r: nat | r < |t.readers| ensures ReaderOk(t.readers[r], t.logs[r], r, t.compactStart, t.clock) {
      assert ReaderOk(s.readers[r], s.logs[r], r, s.compactStart, s.clock);
      if s.main.Recording? {
        assert ReaderPhase(s.readers[r]) >= 4 ==> ServingOpen(s);
        assert s.logs[r] == [];
      }
    }
  }

  lemma {:induction false} MainStepNotice(s: State, ok: bool, t: State)
    requires NoticeInv(s.main, s.notices) && MainStep(s, ok) == Some(t)
    ensures NoticeInv(t.main, t.notices)
  {
    assert s.notices + [] == s.notices;
  }

  lemma {:induction false} MainStepInv(s: State, ok: bool, t: State)
    requires Inv(s) && MainStep(s, ok) == Some(t)
    ensures Inv(t)
  {
    MainForward(s, ok, t.main);
    GateKept(s, t);
    MainStepRead(s, ok, t);
    MainStepNotice(s, ok, t);
    MainStepAck(s, ok, t);
    MainStepJoin(s, ok, t);
  }

  lemma {:induction false} ActInv(s: State, role: Role, ok: bool, t: State)
    requires Inv(s) && Act(s, role, ok) == Some(t)
    ensures Inv(t)
  {
    match role
    case Reader(r) => ReaderStepInv(s, r, ok, t);
    case Writer => WriterStepInv(s, ok, t);
    case Main => MainStepInv(s, ok, t);
  }

  lemma {:induction false} NextInv(s: State, step: Step, t: State)
    requires Inv(s) && Next(s, step) == Some(t)
    ensures Inv(t)
  {
    AdvanceInv(s, step.tick);
    ActInv(Advance(s, step.tick), step.role, step.ok, t);
  }

  lemma {:induction false} RunInv(run: seq<State>, steps: seq<Step>, i: nat)
    requires IsRun(run, steps) && i < |run|
    ensures Inv(run[i])
  {
    if i == 0 {
      InitInv(run[0]);
    } else {
      RunInv(run, steps, i - 1);
      assert Next(run[i - 1], steps[i - 1]) == Some(run[i]);
      NextInv(run[i - 1], steps[i - 1], run[i]);
    }
  }

  // ----- single steps --------------------------------------------------------

  /** Time passes as the step says, logs only grow, and a failed action logs and announces nothing. */
  lemma {:induction false} StepEffects(s: State, step: Step, t: State)
    requires Inv(s) && Next(s, step) == Some(t)
    ensures t.clock == s.clock + step.tick && s.log <= t.log && s.notices <= t.notices
    ensures !step.ok ==> t.log == s.log && t.notices == s.notices && t.logs == s.logs
    ensures |t.logs| == |s.logs| && forall r :: 0 <= r < |s.logs| ==> s.logs[r] <= t.logs[r]
  {
    assert s.log + [] == s.log && s.notices + [] == s.notices;
  }

  // ----- what the barriers do --------------------------------------------------

  /** A thread that has not yet reached the first barrier. */
  ghost predicate SomeoneMissing(s: State) {
    || s.writer == WriterSpawned || s.main == MainSpawning
    || exists r :: 0 <= r < |s.readers| && s.readers[r] == ReaderSpawned
  }

  /** While any of the six threads is missing, all are before or at the first barrier. */
  lemma {:induction false} FirstBarrierHolds(run: seq<State>, steps: seq<Step>, i: nat)
    requires IsRun(run, steps) && i < |run| && SomeoneMissing(run[i])
    ensures forall r :: 0 <= r < |run[i].readers| ==>
              run[i].readers[r] == ReaderSpawned || run[i].readers[r] == ReaderAtBarrier
    ensures run[i].writer == WriterSpawned || run[i].writer == WriterAtBarrier
    ensures run[i].main == MainSpawning || run[i].main == MainAtBarrier
  {
    RunInv(run, steps, i);
    assert !BarrierOpen(run[i]);
  }

  /** A reader or the main thread that has not yet reached the second barrier. */
  ghost predicate SomeoneNotServing(s: State) {
    || s.main in {MainSpawning, MainAtBarrier, Receiving} || s.main.Recording? || s.main.Announcing?
    || s.main.MainBeforeServing?
    || exists r :: 0 <= r < |s.readers| && s.readers[r] in {ReaderSpawned, ReaderAtBarrier, ReaderBetween}
  }

  /** While one of them is missing, no reader asks anything and the main thread is not released. */
  lemma {:induction false} SecondBarrierHolds(run: seq<State>, steps: seq<Step>, i: nat)
    requires IsRun(run, steps) && i < |run| && SomeoneNotServing(run[i])
    ensures forall r :: 0 <= r < |run[i].readers| ==>
              run[i].readers[r] in {ReaderSpawned, ReaderAtBarrier, ReaderBetween, ReaderAtServing}
    ensures run[i].main in {MainSpawning, MainAtBarrier, Receiving} || run[i].main.Recording?
            || run[i].main.Announcing? || run[i].main.MainBeforeServing? || run[i].main.MainAtServing?
  {
    RunInv(run, steps, i);
    assert !ServingOpen(run[i]);
  }

  // ----- safety over whole runs --------------------------------------------

  /**
   Whenever compaction is about to run, the first replacement has been acknowledged and
   logged, and it ended no later than the recorded start of compaction.
   */
  lemma {:induction false} CompactionAfterFirstReplacement(run: seq<State>, steps: seq<Step>, i: nat)
    requires IsRun(run, steps) && i < |run| && MainPhase(run[i].main) in {8, 9, 10, 11}
    ensures run[i].sent && |run[i].log| > 0
    ensures Matches(run[i].log[0], Slot(Replace, 0, 1))
    ensures run[i].log[0].end <= run[i].compactStart <= run[i].clock
  {
    RunInv(run, steps, i);
    assert SlotAt(0) == Slot(Replace, 0, 1);
  }

  /** Every query logged in the update phase starts at or after the recorded start of compaction. */
  lemma {:induction false} ReadsAfterCompactionStart(run: seq<State>, steps: seq<Step>, i: nat, r: nat, q: nat)
    requires IsRun(run, steps) && i < |run| && r < |run[i].logs| && q < |run[i].logs[r]|
    ensures MainPhase(run[i].main) >= 6 && run[i].compactStart <= run[i].logs[r][q].start
  {
    RunInv(run, steps, i);
    var s := run[i];
    assert ReaderOk(s.readers[r], s.logs[r], r, s.compactStart, s.clock);
    assert GoodRow(s.logs[r], r, q, s.compactStart, s.clock);
    assert ServingOpen(s);
  }

  /**
   At every point a reader has logged at most 1024 queries, in sequence, in the pair order of
   its number and in order of time, and exactly 1024 when it has ended well.
   */
  lemma {:induction false} QueriesBounded(run: seq<State>, steps: seq<Step>, i: nat, r: nat)
    requires IsRun(run, steps) && i < |run| && r < 4
    ensures |run[i].logs| == |run[i].readers| == 4 && |run[i].logs[r]| <= 1024
    ensures run[i].readers[r] == ReaderDone(true) ==> |run[i].logs[r]| == 1024
    ensures forall q: nat :: q < |run[i].logs[r]| ==>
              GoodRow(run[i].logs[r], r, q, run[i].compactStart, run[i].clock)
  {
    RunInv(run, steps, i);
    var s := run[i];
    assert ReaderOk(s.readers[r], s.logs[r], r, s.compactStart, s.clock);
  }

  /** The report's compaction interval, as line 123 of check_compaction_updates.py accepts it. */
  ghost predicate CompactionAccepted(s: State) {
    s.log != [] && s.log[0].end <= s.compactStart < s.compactEnd
  }

  /** The clock moved during every query of a log. */
  ghost predicate AllTimed(log: seq<Query>) {
    forall i :: 0 <= i < |log| ==> log[i].start < log[i].end
  }

  /** A reader's log has the labels and intervals the query check wants exactly when the clock moved. */
  lemma {:induction false} LogWellFormed(log: seq<Query>, r: nat, compactStart: nat, clock: nat)
    requires forall i: nat :: i < |log| ==> GoodRow(log, r, i, compactStart, clock)
    ensures (forall i: nat :: i < |log| ==> WellFormed(log, r, i)) <==> AllTimed(log)
  {
    forall i: nat | i < |log| ensures WellFormed(log, r, i) <==> log[i].start < log[i].end {
      assert GoodRow(log, r, i, compactStart, clock);
    }
  }

  /**
   A run that ends well leaves a journal that the schedule check accepts exactly when the clock
   advanced during every operation, a compaction that the report check accepts exactly when it
   advanced between the recorded start and end, and four logs of 1024 queries whose labels and
   intervals the query check accepts exactly when it advanced during every query.
   */
  lemma {:induction false} SuccessfulRunIsChecked(run: seq<State>, steps: seq<Step>, i: nat)
    requires IsRun(run, steps) && i < |run| && run[i].main == MainDone(true)
    ensures Finished(run[i]) && |run[i].log| == 320 && run[i].notices == [CompactingNotice, TailNotice]
    ensures Scheduled(run[i].log) <==> forall k :: 0 <= k < 320 ==> run[i].log[k].start < run[i].log[k].end
    ensures CompactionAccepted(run[i]) <==> run[i].compactStart < run[i].compactEnd
    ensures |run[i].logs| == 4 && forall r: nat :: r < 4 ==> |run[i].logs[r]| == 1024
    ensures forall r: nat :: r < 4 ==>
              ((forall q: nat :: q < 1024 ==> WellFormed(run[i].logs[r], r, q)) <==> AllTimed(run[i].logs[r]))
  {
    RunInv(run, steps, i);
    var s := run[i];
    forall r: nat | r < 4
      ensures |s.logs[r]| == 1024
      ensures (forall q: nat :: q < 1024 ==> WellFormed(s.logs[r], r, q)) <==> AllTimed(s.logs[r])
    {
      assert s.readers[r] == ReaderDone(true);
      assert ReaderOk(s.readers[r], s.logs[r], r, s.compactStart, s.clock);
      LogWellFormed(s.logs[r], r, s.compactStart, s.clock);
    }
  }

  // ----- when a run ends well ------------------------------------------------

  /** Creating the log, asking the store, writing a row and flushing can fail. */
  predicate ReaderFallible(pc: ReaderPc) {
    match pc
    case Opening => true
    case Querying(next) => next >= QUERIES
    case Asking(_, _) => true
    case Answered(_, _, _) => true
    case _ => false
  }

  /** The actions that can fail: store calls, file writes and events. */
  predicate Fallible(s: State, role: Role) {
    match role
    case Reader(r) => r < |s.readers| && ReaderFallible(s.readers[r])
    case Writer => (match s.writer
                    case Creating => true
                    case Ready(revision, deleting) => !deleting && revision > UPDATES
                    case Calling(_, _, _) => true
                    case Writing(_, _, _, _) => true
                    case _ => false)
    case Main => s.main.Announcing? || s.main.Compacting? || s.main.AnnouncingTail?
  }

  predicate Failed(s: State, step: Step) {
    !step.ok && Fallible(s, step.role)
  }

  predicate MainSound(pc: MainPc) {
    match pc
    case Recording(a) => a
    case Announcing(a) => a
    case MainBeforeServing(a, n) => a && n
    case MainAtServing(a, n) => a && n
    case Released(a, n) => a && n
    case AnnouncingTail(c) => c
    case JoiningWriter(c) => c
    case JoiningReader(c, _) => c
    case ScopeExit(ok) => ok
    case MainDone(ok) => ok
    case _ => true
  }

  /** No thread has seen a failure. */
  ghost predicate Sound(s: State) {
    && MainSound(s.main) && s.writer != WriterDone(false)
    && forall r :: 0 <= r < |s.readers| ==> s.readers[r] != ReaderDone(false)
  }

  lemma {:induction false} ReaderKeepsSound(s: State, r: nat, ok: bool, t: State)
    requires r < |s.readers| && ReaderStep(s, r, ok) == Some(t)
    ensures Sound(t) <==> Sound(s) && (ok || !ReaderFallible(s.readers[r]))
  {
    assert t.readers == s.readers[r := t.readers[r]] && t.writer == s.writer && t.main == s.main;
    assert s.readers[r] != ReaderDone(false);
    assert t.readers[r] == ReaderDone(false) <==> !ok && ReaderFallible(s.readers[r]);
    forall q | 0 <= q < |s.readers| && q != r ensures t.readers[q] == s.readers[q] {}
    if Sound(t) {
      forall q | 0 <= q < |s.readers| ensures s.readers[q] != ReaderDone(false) {
        assert t.readers[q] != ReaderDone(false);
      }
    }
  }

  lemma {:induction false} WriterKeepsSound(s: State, ok: bool, t: State)
    requires WriterStep(s, ok) == Some(t)
    ensures Sound(t) <==> Sound(s) && (ok || !Fallible(s, Writer))
  {
  }

  lemma {:induction false} MainKeepsSound(s: State, ok: bool, t: State)
    requires Inv(s) && MainStep(s, ok) == Some(t)
    ensures Sound(t) <==> Sound(s) && (ok || !Fallible(s, Main))
  {
  }

  lemma {:induction false} StepKeepsSound(s: State, step: Step, t: State)
    requires Inv(s) && Next(s, step) == Some(t)
    ensures Sound(t) <==> Sound(s) && !Failed(s, step)
  {
    var now := Advance(s, step.tick);
    AdvanceInv(s, step.tick);
    match step.role
    case Reader(r) => ReaderKeepsSound(now, r, step.ok, t);
    case Writer => WriterKeepsSound(now, step.ok, t);
    case Main => MainKeepsSound(now, step.ok, t);
  }

  lemma {:induction false} SoundIffNoFailure(run: seq<State>, steps: seq<Step>, n: nat)
    requires IsRun(run, steps) && n < |run|
    ensures Sound(run[n]) <==> forall i :: 0 <= i < n ==> !Failed(run[i], steps[i])
  {
    if n > 0 {
      SoundIffNoFailure(run, steps, n - 1);
      RunInv(run, steps, n - 1);
      StepKeepsSound(run[n - 1], steps[n - 1], run[n]);
    }
  }

  /** A finished run ends well exactly when no action it took failed. */
  lemma {:induction false} EndsWellIffNoFailure(run: seq<State>, steps: seq<Step>)
    requires IsRun(run, steps) && Finished(run[|steps|])
    ensures run[|steps|].main == MainDone(true) <==> forall i :: 0 <= i < |steps| ==> !Failed(run[i], steps[i])
  {
    RunInv(run, steps, |steps|);
    SoundIffNoFailure(run, steps, |steps|);
  }

  // ----- progress ----------------------------------------------------------

  ghost predicate CanMove(s: State, role: Role) {
    forall ok, tick :: Next(s, Step(role, ok, tick)).Some?
  }

  lemma {:induction false} WriterMoves(s: State)
    requires WriterPhase(s.writer) >= 2 && !s.writer.WriterDone?
    ensures CanMove(s, Writer)
  {
  }

  lemma {:induction false} ReaderMoves(s: State, r: nat)
    requires r < |s.readers| && !s.readers[r].ReaderDone?
    requires s.readers[r].ReaderAtBarrier? ==> BarrierOpen(s)
    requires s.readers[r].ReaderAtServing? ==> ServingOpen(s)
    ensures CanMove(s, Reader(r))
  {
    forall ok, tick: nat ensures Next(s, Step(Reader(r), ok, tick)).Some? {
      var t := Advance(s, tick);
      assert BarrierOpen(t) == BarrierOpen(s) && ServingOpen(t) == ServingOpen(s);
    }
  }

  /** The main thread waits only at the barriers, the channel and the joins. */
  lemma {:induction false} MainCanMove(pc: MainPc, barrier: bool, serving: bool, sent: bool, writer: WriterPc,
                                       readers: seq<ReaderPc>, ok: bool)
    requires !pc.MainDone? && (pc.MainAtBarrier? ==> barrier) && (pc.MainAtServing? ==> serving)
    requires pc.Receiving? ==> sent || writer.WriterDone?
    requires pc.JoiningWriter? || pc.ScopeExit? ==> writer.WriterDone?
    requires pc.JoiningReader? || pc.ScopeExit? ==> AllReadersDone(readers)
    ensures MainNext(pc, barrier, serving, sent, writer, readers, ok).Some?
  {
  }

  lemma {:induction false} MainMoves(s: State)
    requires !s.main.MainDone?
    requires s.main.MainAtBarrier? ==> BarrierOpen(s)
    requires s.main.MainAtServing? ==> ServingOpen(s)
    requires s.main.Receiving? ==> s.sent || s.writer.WriterDone?
    requires s.main.JoiningWriter? || s.main.ScopeExit? ==> s.writer.WriterDone?
    requires s.main.JoiningReader? || s.main.ScopeExit? ==> AllReadersDone(s.readers)
    ensures CanMove(s, Main)
  {
    forall ok, tick: nat ensures Next(s, Step(Main, ok, tick)).Some? {
      var t := Advance(s, tick);
      assert BarrierOpen(t) == BarrierOpen(s) && ServingOpen(t) == ServingOpen(s);
      MainCanMove(s.main, BarrierOpen(t), ServingOpen(t), s.sent, s.writer, s.readers, ok);
    }
  }

  /** Some reader below a phase, or none. */
  lemma {:induction false} FirstBelow(s: State, phase: nat) returns (r: nat)
    ensures r <= |s.readers|
    ensures r < |s.readers| ==> ReaderPhase(s.readers[r]) < phase
    ensures r == |s.readers| ==> forall q :: 0 <= q < |s.readers| ==> ReaderPhase(s.readers[q]) >= phase
  {
    r := 0;
    while r < |s.readers| && ReaderPhase(s.readers[r]) >= phase
      invariant r <= |s.readers|
      invariant forall q :: 0 <= q < r ==> ReaderPhase(s.readers[q]) >= phase
    {
      r := r + 1;
    }
  }

  /** No deadlock: unless every thread has finished, some thread can move. */
  lemma {:induction false} Progress(s: State) returns (role: Role)
    requires Inv(s) && !Finished(s)
    ensures CanMove(s, role)
  {
    var first := FirstBelow(s, 1);
    var third := FirstBelow(s, 3);
    var fifth := FirstBelow(s, 5);
    if first < |s.readers| {
      ReaderMoves(s, first);
      role := Reader(first);
    } else if s.writer.WriterSpawned? {
      role := Writer;
    } else if s.main.MainSpawning? {
      MainMoves(s);
      role := Main;
    } else {
      assert BarrierOpen(s);
      if s.writer.WriterAtBarrier? {
        forall ok, tick: nat ensures Next(s, Step(Writer, ok, tick)).Some? {
          assert BarrierOpen(Advance(s, tick));
        }
        role := Writer;
      } else if !s.writer.WriterDone? {
        WriterMoves(s);
        role := Writer;
      } else if third < |s.readers| {
        ReaderMoves(s, third);
        role := Reader(third);
      } else if MainPhase(s.main) <= 9 {
        MainMoves(s);
        role := Main;
      } else if fifth < |s.readers| {
        ReaderMoves(s, fifth);
        role := Reader(fifth);
      } else {
        MainMoves(s);
        role := Main;
      }
    }
  }

  /** Three steps for each query a reader has not yet logged. */
  ghost function QueriesLeft(next: nat): nat {
    if next <= QUERIES then 3 * (QUERIES - next) else 0
  }

  ghost function ReaderRank(pc: ReaderPc): nat {
    match pc
    case ReaderSpawned => 3 * QUERIES + 6
    case ReaderAtBarrier => 3 * QUERIES + 5
    case ReaderBetween => 3 * QUERIES + 4
    case ReaderAtServing => 3 * QUERIES + 3
    case Opening => 3 * QUERIES + 2
    case Querying(next) => QueriesLeft(next) + 1
    case Asking(next, _) => QueriesLeft(next)
    case Answered(next, _, _) => if QueriesLeft(next) > 0 then QueriesLeft(next) - 1 else 0
    case ReaderDone(_) => 0
  }

  lemma {:induction false} ReaderRankDrops(pc: ReaderPc, log: seq<Query>, compactStart: nat, barrier: bool,
                                           serving: bool, clock: nat, ok: bool, next: ReaderPc)
    requires AtQuery(pc, log, compactStart, clock) && ReaderNext(pc, barrier, serving, clock, ok) == Some(next)
    ensures ReaderRank(next) < ReaderRank(pc)
  {
  }

  /** Four steps for each row the writer has not yet logged. */
  ghost function RowsLeft(revision: Revision, deleting: bool): nat {
    var p := Position(revision, deleting);
    if p <= OPERATIONS then 4 * (OPERATIONS - p) else 0
  }

  ghost function WriterRank(pc: WriterPc): nat {
    match pc
    case WriterSpawned => 4 * OPERATIONS + 4
    case WriterAtBarrier => 4 * OPERATIONS + 3
    case Creating => 4 * OPERATIONS + 2
    case Ready(revision, deleting) => RowsLeft(revision, deleting) + 1
    case Calling(revision, deleting, _) => RowsLeft(revision, deleting)
    case Writing(revision, deleting, _, _) =>
      if RowsLeft(revision, deleting) > 0 then RowsLeft(revision, deleting) - 1 else 0
    case Sending(_) => 4 * OPERATIONS - 2
    case WriterDone(_) => 0
  }

  ghost function MainRank(pc: MainPc): nat {
    match pc
    case JoiningReader(_, r) => if r <= READERS then 2 + READERS - r else 2
    case ScopeExit(_) => 1
    case MainDone(_) => 0
    case _ => READERS + 15 - MainPhase(pc)
  }

  ghost function Remaining(s: State): nat
    requires |s.readers| == READERS
  {
    ReaderRank(s.readers[0]) + ReaderRank(s.readers[1]) + ReaderRank(s.readers[2]) + ReaderRank(s.readers[3])
    + WriterRank(s.writer) + MainRank(s.main)
  }

  /** What the invariant says about the writer's program counter alone. */
  ghost predicate WriterBounds(pc: WriterPc) {
    match pc
    case Ready(revision, deleting) => revision <= UPDATES + 1 && (deleting ==> revision % 4 == 0 && revision <= UPDATES)
    case Calling(revision, deleting, _) => revision <= UPDATES && (deleting ==> revision % 4 == 0)
    case Writing(revision, deleting, _, _) => revision <= UPDATES && (deleting ==> revision % 4 == 0)
    case Sending(revision) => revision == 1
    case _ => true
  }

  lemma {:induction false} RowRankDrops(revision: Revision, deleting: bool)
    requires revision <= UPDATES && (deleting ==> revision % 4 == 0)
    ensures RowsLeft(revision, deleting) >= 4
    ensures WriterRank(Continue(revision, deleting)) == RowsLeft(revision, deleting) - 3
    ensures revision == 1 && !deleting ==> RowsLeft(revision, deleting) == 4 * OPERATIONS
  {
    PositionSlot(revision, deleting);
  }

  lemma {:induction false} WriterRankDrops(pc: WriterPc, barrier: bool, clock: nat, ok: bool, next: WriterPc)
    requires WriterBounds(pc) && WriterNext(pc, barrier, clock, ok) == Some(next)
    ensures WriterRank(next) < WriterRank(pc)
  {
    match pc
    case Creating => assert Position(1, false) == 0;
    case Calling(revision, deleting, _) => RowRankDrops(revision, deleting);
    case Writing(revision, deleting, _, _) => RowRankDrops(revision, deleting);
    case Sending(revision) => RowRankDrops(revision, false);
    case _ =>
  }

  lemma {:induction false} MainRankDrops(s: State, ok: bool, t: State)
    requires |s.readers| == READERS && JoinInv(s) && MainStep(s, ok) == Some(t)
    ensures MainRank(t.main) < MainRank(s.main)
  {
  }

  /** Every step brings the run closer to its end. */
  lemma {:induction false} ActShortensRun(s: State, role: Role, ok: bool, t: State)
    requires Inv(s) && Act(s, role, ok) == Some(t)
    ensures |t.readers| == READERS && Remaining(t) < Remaining(s)
  {
    match role
    case Reader(r) =>
      assert ReaderOk(s.readers[r], s.logs[r], r, s.compactStart, s.clock);
      ReaderRankDrops(s.readers[r], s.logs[r], s.compactStart, BarrierOpen(s), ServingOpen(s), s.clock, ok,
                      t.readers[r]);
    case Writer => WriterRankDrops(s.writer, BarrierOpen(s), s.clock, ok, t.writer);
    case Main => MainRankDrops(s, ok, t);
  }

  lemma {:induction false} RunLength(run: seq<State>, steps: seq<Step>, i: nat)
    requires IsRun(run, steps) && i < |run|
    ensures |run[i].readers| == READERS
    ensures i + Remaining(run[i]) <= 4 * (3 * QUERIES + 6) + 4 * OPERATIONS + 4 + READERS + 15
  {
    if i > 0 {
      RunLength(run, steps, i - 1);
      RunInv(run, steps, i - 1);
      assert Next(run[i - 1], steps[i - 1]) == Some(run[i]);
      AdvanceInv(run[i - 1], steps[i - 1].tick);
      ActShortensRun(Advance(run[i - 1], steps[i - 1].tick), steps[i - 1].role, steps[i - 1].ok, run[i]);
    }
  }

  /**
   No thread waits forever: every run has a bounded number of steps, and a run that no
   thread can continue has finished every thread.
   */
  lemma {:induction false} EveryRunFinishes(run: seq<State>, steps: seq<Step>)
    requires IsRun(run, steps)
    ensures |steps| <= 4 * (3 * QUERIES + 6) + 4 * OPERATIONS + 4 + READERS + 15
    ensures (forall step :: Next(run[|steps|], step).None?) ==> Finished(run[|steps|])
  {
    RunLength(run, steps, |steps|);
    RunInv(run, steps, |steps|);
    var s := run[|steps|];
    if !Finished(s) {
      var role := Progress(s);
      assert Next(s, Step(role, true, 0)).Some?;
    }
  }
}
