# Verified models of the evidence checkers and protocols

A Dafny model of the algorithms around the retrieval engine: the exact checkers of its
published benchmark reports, the concurrent compaction harness, the serial document queue, the
evidence archive tools and the sparse projection experiment. Each operation is modelled with the
branches, error paths and constants of its source file, and proved against a specification that
does not mention how it works.

| modules | subject |
|---|---|
| `EvidenceKnapsack`, `EvidencePacket` | meet-in-the-middle selection and the four byte-budget arms |
| `CompactionOracle`, `CompactionCheck`, `CompactionHistory` | what concurrent atomic reads may see, what the report check accepts, and what acceptance means for the logs of all readers |
| `CompactionProtocol` | readers, writer and compactor with two barriers, a channel and failures |
| `WalshCodebook`, `PhaseKeys`, `PhaseDecoder` | parity codes, key schedule, query sampling, key phases and decoding |
| `EvidenceCoverage` | beam and greedy set selection with its approximation bound |
| `SerialQueue` | bounded promise queue |
| `EvidenceArchive`, `EvidenceDownload` | part splitting, reading back, resumable download |
| `SpendLedger` | reconciliation of calls and charges |
| `ExactNeighbours` | blocked and selected top-k |
| `SparseProjection`, `SparseVarints` | exact normalization, index selection, index encoding |
| `ConversationGroups`, `ReaderCap` | exchange grouping and the token cap |
| `Ordering`, `Arithmetic`, `FiniteSums`, `Wrappers` | sorting, divisibility, exact sums and optional values shared by the others |

Modelling conventions. Scores, costs and phases are exact: reals, integers, or integers modulo
16. Machine integers are unbounded numbers with the source's checked limits written out. Digests,
token counters, group encoders and hash functions are parameters; nothing is assumed of them
beyond being functions, not even injectivity. Clocks, schedulers, servers and failures are
arbitrary inputs of transition functions. Errors raised by the source are `None`, a result
constructor or `false`.

Where a promise is not kept on all inputs, the model keeps the code and states the exact
condition: query logs can pass although no single execution explains them
(`CompactionHistory.AcceptedIsNotJoint`; the condition is `AcceptedLogsMeaning`), the codes are
orthogonal only for power-of-two label counts, which the report check does not demand
(`WalshCodebook.OrthogonalIffPowerOfTwo`; decoding is therefore stated for any label count), a
stale marker is believed without a new digest although the documentation of `download` promises
verification (`EvidenceDownload.StaleMarkerIsBelieved`; the condition is `SuccessIsGenuine`), a
crash between installing a file and writing its marker can mislead a call for another entry
(`EvidenceDownload.CrashMisleads`; the condition is `CrashMisleadsIff`), a zero-byte entry cannot
be fetched (`EvidenceDownload.ZeroSizeIsNeverFetched`), and the two ways of capping groups agree
exactly when ranks increase in list order (`ReaderCap.ReplayAgreesIffRanksIncrease`).

Check everything with `dafny verify dfyconfig.toml`.

## Model

| member | source | states |
|---|---|---|
| `EvidenceKnapsack.Optimize` | benchmarks/public/check_evidence_budget.py:33-56 | For nonnegative costs, any ranks and any limit at least the first cost, the result is feasible and is the best of ALL feasible selections by exact sum of reciprocal ranks, then total cost, then tuple order; half pruning, prefix-best and bisection lose nothing. |
| `EvidenceKnapsack.OptimumUnique` | benchmarks/public/check_evidence_budget.py:55-56 | Two selections each at least as good as the other are equal, so the contract of the selector determines its result. |
| `Ordering.LexMeans` | benchmarks/public/check_evidence_budget.py:48-56 | The order of tuples is decided at the first difference, with a prefix first. |
| `EvidenceKnapsack.ReciprocalValues` | benchmarks/public/check_evidence_budget.py:34-35 | The integer values are one common positive multiple of the exact reciprocal ranks. |
| `EvidenceKnapsack.ScaledOrder` | benchmarks/public/check_evidence_budget.py:34-35 | Comparing integer totals is comparing exact totals of reciprocal ranks, for strict order and for ties. |
| `EvidenceKnapsack.EnumerateHalf` | benchmarks/public/check_evidence_budget.py:38-43 | The list holds exactly the affordable selections of its index range, each with its cost and value. |
| `EvidenceKnapsack.PrefixBest` | benchmarks/public/check_evidence_budget.py:46-50 | Entry j is one of the first j+1 states and preferred to all of them. |
| `EvidenceKnapsack.BisectRight` | benchmarks/public/check_evidence_budget.py:54 | The position splits a nondecreasing list into elements at most x and elements above x. |
| `EvidenceKnapsack.FeasibleIsCombined` | benchmarks/public/check_evidence_budget.py:37-55 | Every feasible selection is the combination of one state of each half that fit together. |
| `EvidenceKnapsack.KeyOrderIsExact` | benchmarks/public/check_evidence_budget.py:48-55 | The order of preference on integer keys implies the exact order on selections. |
| `EvidenceKnapsack.Choices` | benchmarks/public/check_evidence_budget.py:51-55 | Each left state gets a feasible choice preferred to its combination with every affordable right state; the prefix index is never -1. |
| `EvidenceKnapsack.Preferred` | benchmarks/public/check_evidence_budget.py:56 | The minimum: a member preferred to all choices. |
| `EvidencePacket.PacketSize` | benchmarks/public/check_evidence_budget.py:28-30 | A packet has the size of its frame plus the charge of each of its groups. |
| `EvidencePacket.PacketText` | benchmarks/public/check_evidence_budget.py:28-30 | The text of a packet: the fixed frame around its groups in order, separated by commas. |
| `EvidencePacket.CostLimitIsByteBudget` | benchmarks/public/check_evidence_budget.py:135-142 | For every nonempty selection, total cost is within the limit if and only if the packet is within the byte budget; the first-five limit is its own total cost. |
| `EvidencePacket.PacketIffFeasible` | benchmarks/public/check_evidence_budget.py:141-151 | The selections the arms choose from are exactly the packets within the byte budget. |
| `EvidencePacket.DedupPrefix` | benchmarks/public/check_evidence_budget.py:132-138 | Removing repetitions from a prefix gives a prefix of removing them from the whole ranking. |
| `EvidencePacket.RanksIncrease` | benchmarks/public/check_evidence_budget.py:132-136 | Candidate ranks strictly increase in candidate order. |
| `EvidencePacket.CandidatesAreFirstIds` | benchmarks/public/check_evidence_budget.py:132 | The candidates are distinct ids of the ranking, 20 of them or all if there are fewer. |
| `EvidencePacket.RanksAreFirstIndices` | benchmarks/public/check_evidence_budget.py:132-136 | Each rank is the first index of its id, ranks rise, and every other id first occurs after all of them. |
| `EvidencePacket.FirstFive` | benchmarks/public/check_evidence_budget.py:138 | The first-five arm is exactly the initial run of candidate positions, one for each distinct id among the first five. |
| `EvidencePacket.GreedyArm` | benchmarks/public/check_evidence_budget.py:145-150 | For any order of the groups: within the limit, nothing more fits, first among all feasible selections compared group by group in that order, and no dearer group preferred when the order is by cost. |
| `EvidencePacket.FirstInOrderUnique` | benchmarks/public/check_evidence_budget.py:145-150 | Only one feasible selection comes first in an order, so the order determines the greedy arm. |
| `EvidencePacket.ShortestOrder` | benchmarks/public/check_evidence_budget.py:144 | A permutation of all positions, by cost and then position. |
| `EvidencePacket.CheapestFirstKeepsMost` | benchmarks/public/check_evidence_budget.py:144-150 | No selection within the limit holds more groups than the cheapest-first one. |
| `EvidencePacket.GreedyArms` | benchmarks/public/check_evidence_budget.py:144-150 | Both greedy arms are packets within the byte budget and first in their orders; the shortest arm holds as many groups as any packet. |
| `EvidencePacket.BestArm` | benchmarks/public/check_evidence_budget.py:151 | The knapsack arm is the best of all packets within the byte budget. |
| `EvidencePacket.SelectArms` | benchmarks/public/check_evidence_budget.py:131-161 | The candidates are the first 20 distinct ids with their first indices as ranks; all four arms pass the byte check, the budget is the size of the first-five packet, and each arm is the packet its rule promises. |
| `CompactionOracle.States` | benchmarks/public/check_compaction_updates.py:62-77 | For every sequence of disjoint operation intervals and every query interval: the oracle fails exactly when a deletion finds its key deleted, and otherwise lists exactly the states an atomic read strictly inside its interval can see; its last entry is the state where the loop stopped. |
| `CompactionOracle.ObservableIffFits` | benchmarks/public/check_compaction_updates.py:62-77 | A state is visible to some choice of instants exactly when it is the state between two operations where the read fits. |
| `CompactionOracle.ListedIffObservable` | benchmarks/public/check_compaction_updates.py:68-76 | The appended states and the final one are exactly the observable states. |
| `CompactionOracle.MissingMeansDeleted` | benchmarks/public/check_compaction_updates.py:72-75 | The key of a pair is missing exactly when its last operation is a deletion. |
| `CompactionCheck.CheckSchedule` | benchmarks/public/check_compaction_updates.py:112-121 | Accepts exactly the journals that follow the schedule with nonempty, ordered intervals. |
| `CompactionCheck.SlotOfRevision` | benchmarks/public/check_compaction_updates.py:114-118 | Closed form of the journal position of every revision, with its deletion. |
| `CompactionCheck.ScheduledNeverMisses` | benchmarks/public/check_compaction_updates.py:114-118 | In a scheduled journal no deletion ever misses its key, for any pair and query. |
| `CompactionCheck.JournalFinalState` | benchmarks/public/check_compaction_updates.py:138-141 | The state of every pair after a scheduled journal, in closed form. |
| `CompactionCheck.FinalSnapshot` | benchmarks/public/check_compaction_updates.py:138-141 | The state the restart check compares with is that final state, and tells which documents must be present. |
| `CompactionCheck.CheckRevision` | benchmarks/public/check_compaction_updates.py:115-121 | Accepts the entries of one revision, or the journal is off schedule. |
| `CompactionCheck.CheckFound` | benchmarks/public/check_compaction_updates.py:92-94 | Accepts exactly a duplicate-free answer that is observable in the query interval. |
| `CompactionCheck.PairsInTurn` | benchmarks/public/check_compaction_updates.py:85 | A reader starts at the pair of its own number, moves to the next pair each time, and asks for each of the 16 pairs exactly once in any 16 consecutive queries. |
| `CompactionCheck.CheckQuery` | benchmarks/public/check_compaction_updates.py:85-94 | Accepts exactly a labelled, ordered, duplicate-free query whose answer is observable. |
| `CompactionCheck.CheckQueries` | benchmarks/public/check_compaction_updates.py:80-94 | Accepts exactly the logs all of whose queries are good, with the right count. |
| `CompactionHistory.ExplainedIffMonotone` | benchmarks/public/check_compaction_updates.py:84-94 | One atomic execution explains all reads of any number of concurrent readers exactly when the reads can be placed between operations in real-time order. |
| `CompactionHistory.ExplainedIffNoInversion` | benchmarks/public/check_compaction_updates.py:84-94 | With rising revisions, that holds exactly when every read is explained alone and no read goes behind an update of its pair that a read before it, by any reader, has shown. |
| `CompactionHistory.NeverReturns` | benchmarks/public/check_compaction_updates.py:72-75 | With rising revisions the journal never shows a state again once it has left it. |
| `CompactionHistory.ScheduledIsRising` | benchmarks/public/check_compaction_updates.py:114-118 | The checked schedule has rising revisions. |
| `CompactionHistory.AcceptedLogsMeaning` | benchmarks/public/check_compaction_updates.py:80-128 | For a scheduled journal and the accepted logs of all readers: one atomic execution explains every read of every reader if and only if no two of them are inverted. |
| `CompactionHistory.AcceptedIsNotJoint` | benchmarks/public/check_compaction_updates.py:80-128 | A scheduled journal and four logs of 1024 queries, all starting after the first replacement, that pass the schedule and query checks although no single atomic execution explains them. |
| `CompactionHistory.JointImpliesEach` | benchmarks/public/check_compaction_updates.py:94 | A history explained together is explained read by read. |
| `CompactionProtocol.NextInv` | examples/compaction_updates.rs:171-243 | Every step of any thread, failing or not, keeps the invariant of barriers, journal, acknowledgment, times and joins. |
| `CompactionProtocol.RunInv` | examples/compaction_updates.rs:171-243 | The invariant holds at every point of every run. |
| `CompactionProtocol.StepEffects` | examples/compaction_updates.rs:92-243 | A step moves the clock as far as it says, logs and announcements only grow, and a failed action adds to none of them. |
| `CompactionProtocol.FirstBarrierHolds` | examples/compaction_updates.rs:171-227 | While any of the six threads has not arrived, all are before or at the first barrier. |
| `CompactionProtocol.SecondBarrierHolds` | examples/compaction_updates.rs:172-231 | While a reader or the main thread has not arrived at the second barrier, no reader asks anything and the main thread is not released. |
| `CompactionProtocol.CompactionAfterFirstReplacement` | examples/compaction_updates.rs:208-235 | Compaction runs only after the first replacement was acknowledged and logged, and it ended no later than the recorded start. |
| `CompactionProtocol.ReadsAfterCompactionStart` | examples/compaction_updates.rs:181-231 | Every query logged in the update phase starts at or after the recorded compaction start. |
| `CompactionProtocol.QueriesBounded` | examples/compaction_updates.rs:92-110 | At every point a reader has logged at most 1024 queries, labelled in sequence, asking for the pairs in turn from its own number, in order of time; exactly 1024 when it has ended well. |
| `CompactionProtocol.PositionSlot` | examples/compaction_updates.rs:196-223 | The loop over revisions, with a deletion after every fourth replacement, writes exactly the entries of the checked schedule in order. |
| `CompactionProtocol.SuccessfulRunIsChecked` | examples/compaction_updates.rs:92-243 | A run that ends well leaves 320 journal rows that the schedule check accepts exactly when the clock moved during every operation, a compaction interval that the report check accepts exactly when the clock moved between its two records, both announcements in order, and four logs of 1024 queries whose labels and intervals the query check accepts exactly when the clock moved during every query. |
| `CompactionProtocol.EndsWellIffNoFailure` | examples/compaction_updates.rs:171-243 | A finished run ends well if and only if no store call, file write or event it made failed. |
| `CompactionProtocol.Progress` | examples/compaction_updates.rs:171-243 | No deadlock: unless every thread has finished, some thread can move, whatever failed before. |
| `CompactionProtocol.ActShortensRun` | examples/compaction_updates.rs:171-243 | Every step decreases a bound on the rest of the run. |
| `CompactionProtocol.EveryRunFinishes` | examples/compaction_updates.rs:171-243 | Every run has a bounded number of steps, and a run that cannot continue has finished every thread: no one waits forever at a barrier, the channel or a join. |
| `WalshCodebook.PeriodOrthogonal` | benchmarks/public/check_algebraic_codebook_report.py:83-85 | Over one period, two parity codes agree completely or cancel. |
| `WalshCodebook.SignAtZero` | benchmarks/public/check_algebraic_codebook_report.py:83 | Code 0 and position 0 are positive everywhere. |
| `WalshCodebook.SignReadsBit` | benchmarks/public/check_algebraic_codebook_report.py:83 | At a position with a single bit a code has the sign of that bit. |
| `WalshCodebook.WalshOrthogonal` | benchmarks/public/check_algebraic_codebook_report.py:83-85 | For a power-of-two label count and any multiple of it, the inner product is the dimension for equal codes and zero otherwise. |
| `WalshCodebook.OrthogonalIffPowerOfTwo` | benchmarks/public/check_algebraic_codebook_report.py:83-146 | With the dimension a multiple of the label count, as the report check demands, all codes are orthogonal if and only if the label count is a power of two. |
| `WalshCodebook.SomeDifference` | benchmarks/public/check_algebraic_codebook_report.py:83-85 | Two distinct codes differ in sign at a position no larger than the larger of them. |
| `WalshCodebook.RivalOverlapsLess` | benchmarks/public/check_algebraic_codebook_report.py:83-85 | For any label count up to the dimension, a code overlaps every other code by less than itself. |
| `WalshCodebook.Stride` | benchmarks/public/check_algebraic_codebook_report.py:27 | Setting the lowest bit makes every stride odd. |
| `WalshCodebook.KeysCollide` | benchmarks/public/check_algebraic_codebook_report.py:26-30 | Two facts share a key exactly when their positions agree modulo 4096. |
| `WalshCodebook.KeySteps` | benchmarks/public/check_algebraic_codebook_report.py:27-29 | Keys start at the offset and move on by the stride, modulo 4096. |
| `WalshCodebook.KeyScheduleIsPermutation` | benchmarks/public/check_algebraic_codebook_report.py:26-30 | For every hash the keys are pairwise distinct exactly for up to 4096 facts. |
| `WalshCodebook.QueriesDistinct` | benchmarks/public/check_algebraic_codebook_report.py:64-66 | The sampled query positions are pairwise distinct whenever count is at most facts. |
| `WalshCodebook.QueriesSpread` | benchmarks/public/check_algebraic_codebook_report.py:65-66 | Sampling starts at the shift and goes around the facts in steps that differ by at most one. |
| `PhaseKeys.KeyReadsCells` | benchmarks/public/check_algebraic_codebook_report.py:75-78 | Each position of a key reads exactly four cells of the table: the rows its low four bits, two groups of three bits and high two bits select, the middle two one and two columns on. |
| `PhaseKeys.KeyPhasesAdd` | benchmarks/public/check_algebraic_codebook_report.py:75-78 | The phases of a key are additive in the table, modulo 16. |
| `PhaseKeys.KeysToldApart` | benchmarks/public/check_algebraic_codebook_report.py:75-78 | For dimension at least two, any two distinct keys have different phases under some table. |
| `PhaseDecoder.UnbindUndoesBind` | benchmarks/public/check_algebraic_codebook_report.py:86-91 | Removing a key from a bound vector leaves the code, for every key and code. |
| `PhaseDecoder.PowersAreRoots` | benchmarks/public/check_algebraic_codebook_report.py:67-68 | The powers of any point of the unit circle whose eighth power is -1 form a table as the decoder needs it. |
| `PhaseDecoder.WalshPhaseIsSign` | benchmarks/public/check_algebraic_codebook_report.py:83 | The phase of a code is 0 where its parity sign is positive and 8 where it is negative. |
| `PhaseDecoder.ScoreIsSignalPlusNoise` | benchmarks/public/check_algebraic_codebook_report.py:86-93 | Every score is the contribution of the queried fact plus the contributions of all others. |
| `PhaseDecoder.FactContribution` | benchmarks/public/check_algebraic_codebook_report.py:86-93 | What a fact adds to the score of a label under any key is the sum over coordinates of the cosine of stored key plus value minus asked key minus code. |
| `PhaseDecoder.OwnScore` | benchmarks/public/check_algebraic_codebook_report.py:83-93 | What a fact scores for a label under its own key is the inner product of the two codes, for any label count. |
| `PhaseDecoder.OrthogonalScore` | benchmarks/public/check_algebraic_codebook_report.py:83-93 | With a power-of-two label count: the full dimension for its own label and zero for every other. |
| `PhaseDecoder.Predict` | benchmarks/public/check_algebraic_codebook_report.py:94 | The prediction is the first label of highest score. |
| `PhaseDecoder.DecodesIffNoiseTolerable` | benchmarks/public/check_algebraic_codebook_report.py:83-94 | For any label count, a query is answered correctly exactly when interference plus code overlap of every other label does not reach the stored label, with ties going to the smaller label. |
| `PhaseDecoder.OrthogonalTolerance` | benchmarks/public/check_algebraic_codebook_report.py:83-94 | With orthogonal codes the bare interference must stay below one full code length. |
| `PhaseDecoder.OneFactDecodes` | benchmarks/public/check_algebraic_codebook_report.py:83-94 | A field holding one fact is decoded to its label under every key, for any label count up to the dimension. |
| `PhaseDecoder.AnswerQuery` | benchmarks/public/check_algebraic_codebook_report.py:89-94 | One query answers correctly exactly when its interference is tolerable. |
| `PhaseDecoder.CountCorrect` | benchmarks/public/check_algebraic_codebook_report.py:88-96 | The reported number of correct answers is the number of queries with tolerable interference. |
| `EvidenceCoverage.BestIsMaximum` | benchmarks/public/check_evidence_completeness.py:57-58 | The coverage of a facet is the largest agreement of a member of the state. |
| `EvidenceCoverage.CoverMinIsLeast` | benchmarks/public/check_evidence_completeness.py:59 | The minimum family covers exactly as well as its worst facet. |
| `EvidenceCoverage.ValueMeans` | benchmarks/public/check_evidence_completeness.py:55-60 | The value combines the sum of the priors of the members with the mean over all facets, or the minimum, of their best agreement. |
| `EvidenceCoverage.RankMeans` | benchmarks/public/check_evidence_completeness.py:68 | Ranking puts the larger value first and, of equal values, the tuple smaller at the first difference. |
| `EvidenceCoverage.GainNonnegative` | benchmarks/public/check_evidence_completeness.py:55-60 | One more candidate never lowers the mean-family value. |
| `EvidenceCoverage.GainShrinks` | benchmarks/public/check_evidence_completeness.py:55-60 | A candidate gains no more on a larger set. |
| `EvidenceCoverage.MeanValueSubmodular` | benchmarks/public/check_evidence_completeness.py:55-60 | The value of the mean families is monotone and submodular on all sets. |
| `EvidenceCoverage.MinimumIsNotSubmodular` | benchmarks/public/check_evidence_completeness.py:53-60 | For every weight below 1 and all place scores 1 > v > w > 0, the minimum family is not submodular on three candidates ranked 1, 0, 2 and 2, 0, 1, so the bound is stated for the mean families only. |
| `EvidenceCoverage.RoundClosesGap` | benchmarks/public/check_evidence_completeness.py:62-69 | One round closes at least a quarter of the gap to any set of at most five that contains the anchor. |
| `EvidenceCoverage.ClimbBound` | benchmarks/public/check_evidence_completeness.py:62-69 | After all rounds the gain is at least 1-(3/4)^4 of the gain of every such set. |
| `EvidenceCoverage.ExpandState` | benchmarks/public/check_evidence_completeness.py:65-67 | Adds exactly the one-candidate extensions of a state, without repetition. |
| `EvidenceCoverage.Expand` | benchmarks/public/check_evidence_completeness.py:63-67 | Exactly the one-candidate extensions of all states, without repetition. |
| `EvidenceCoverage.Round` | benchmarks/public/check_evidence_completeness.py:63-69 | Keeps exactly the width best expansions by value and tuple order, best first. |
| `EvidenceCoverage.AtMostCount` | benchmarks/public/check_evidence_completeness.py:63-69 | The number of distinct anchored tuples of a size is at most the binomial count. |
| `EvidenceCoverage.RoundStaysComplete` | benchmarks/public/check_evidence_completeness.py:62-69 | With at most seven candidates a beam of 32 drops nothing. |
| `EvidenceCoverage.BeamOfOne` | benchmarks/public/check_evidence_completeness.py:62-69 | Rounds of width one are the chain of best one-candidate extensions. |
| `EvidenceCoverage.Select` | benchmarks/public/check_evidence_completeness.py:61-69 | Chooses min(5, candidates) candidates with the anchor. Both beam families return the head of the last of min(5, candidates) - 1 rounds of width 32, the greedy family the end of the chain of best extensions by value and tuple. Both mean families are within 1-(3/4)^4 of every competitor, and both beams are the exact optimum for up to seven candidates. |
| `SerialQueue.BoundedSerialFifo` | semantic.js:91-97 | At every point of every run, pending counts the accepted operations whose finally has not run and never exceeds the bound, at most one is in flight, operations start in acceptance order, and one runs only after all before it settled and were counted off. |
| `SerialQueue.RefusedIffFull` | semantic.js:92 | A submission is refused, and changes nothing, exactly when the bound of unfinished operations is reached. |
| `SerialQueue.AcceptedAdds` | semantic.js:92-93 | A submission that is not refused adds exactly one operation, the next in number, and counts it. |
| `SerialQueue.AcceptedIsStarted` | semantic.js:91-97 | In every run an accepted operation has been started and settled by the time nothing is left to do. |
| `SerialQueue.FailuresAreIsolated` | semantic.js:91-97 | At every point of every run every tail is fulfilled, every promise returned has the outcome of its own operation, and when nothing is left every accepted operation was started. |
| `SerialQueue.IsolatedIffRejectionHandled` | semantic.js:94-95 | This holds in all runs if and only if the tail handles rejections, as the second handler of line 95 does. |
| `SerialQueue.BareTailSkips` | semantic.js:95 | Without that handler there is a run in which an operation is never started and is rejected with its predecessor. |
| `SerialQueue.OutcomesDoNotInterfere` | semantic.js:94-96 | In every reachable state, replacing all outcomes by success commutes with every step: a rejection changes nothing but its own results. |
| `SerialQueue.NeverStuck` | semantic.js:93-96 | While an operation is unfinished some step is possible, and every such step makes progress. |
| `SerialQueue.QueueDrains` | semantic.js:91-97 | Any schedule without new submissions starts and settles all accepted operations in a known number of steps, whatever their outcomes, and cannot stop earlier. |
| `SerialQueue.DrainedIffZero` | semantic.js:91-97 | The measure of remaining steps is zero exactly when nothing is queued or running, and exactly when every accepted operation was started, settled and counted off. |
| `SerialQueue.NextInv` | semantic.js:91-97 | Every submission, reaction and settlement keeps the invariant. |
| `SerialQueue.RunInv` | semantic.js:91-97 | The invariant of the microtask queue holds at every point of every run. |
| `SerialQueue.Create` | semantic.js:74-88 | Construction succeeds exactly for bounds 1 to 4096, with an empty queue. |
| `SerialQueue.DocumentMemory.constructor` | semantic.js:83-88 | The new object is an empty queue with its bound. |
| `SerialQueue.DocumentMemory.Submit` | semantic.js:91-97 | The whole new state is that of an enqueue step, the reply tells acceptance, and validity is kept. |
| `SerialQueue.DocumentMemory.OnStart` | semantic.js:94 | A fulfilled tail starts the operation; a rejected one skips it and rejects its result. |
| `SerialQueue.DocumentMemory.OnTail` | semantic.js:95 | Both handlers settle the tail as fulfilled and the next operation reacts to it. |
| `SerialQueue.DocumentMemory.OnFinally` | semantic.js:96 | The count drops and the returned promise settles as the result did. |
| `SerialQueue.DocumentMemory.RunOne` | semantic.js:94-96 | The whole new state is that of one promise reaction, and validity is kept. |
| `SerialQueue.DocumentMemory.SettleRunning` | semantic.js:94-96 | The whole new state is that of settling the operation in flight, and validity is kept. |
| `EvidenceArchive.SplitChunk` | scripts/pack_evidence.py:114-127 | One chunk is cut over the open part without losing a byte; closed parts are full and the open one is not. |
| `EvidenceArchive.CloseLast` | scripts/pack_evidence.py:128-131 | Closing keeps all bytes and makes no empty part. |
| `EvidenceArchive.Pack` | scripts/pack_evidence.py:106-131 | For any chunking and part size at least 1: no empty part, all but the last exactly full, and the parts concatenate to the stream. |
| `EvidenceArchive.SplitUnique` | scripts/pack_evidence.py:106-131 | The parts are determined by the bytes alone. |
| `EvidenceArchive.PartStream.constructor` | scripts/fetch_evidence.py:150-152 | All bytes of all parts are unread. |
| `EvidenceArchive.PartStream.ReadHandle` | scripts/fetch_evidence.py:161 | A file read returns the next bytes, as many as asked or left. |
| `EvidenceArchive.PartStream.OpenNext` | scripts/fetch_evidence.py:157-160 | Opening the next path changes nothing unread. |
| `EvidenceArchive.PartStream.NextBlock` | scripts/fetch_evidence.py:161-166 | A block and what is then unread are what was unread; an empty block closes the file. |
| `EvidenceArchive.PartStream.Read` | scripts/fetch_evidence.py:154-167 | Returns exactly the next size bytes, or all for a negative size; short only when everything is exhausted, over any part boundaries. |
| `EvidenceArchive.ReadIsTaken` | scripts/fetch_evidence.py:154-167 | The contract of a read determines both its result and what stays unread. |
| `EvidenceArchive.ReadsAreConsecutive` | scripts/fetch_evidence.py:154-167 | Any series of reads returns consecutive pieces of the concatenation, short only at its end. |
| `EvidenceArchive.PackThenRead` | scripts/fetch_evidence.py:147-167 | Splitting and reading back with any series of reads returns as many bytes from the start of the stream as were asked for, all of them if everything is asked for, and a read is short exactly then or when too much is asked for. |
| `EvidenceDownload.CallKeepsTrust` | scripts/fetch_evidence.py:104-142 | Whatever the server does and however the call ends, a marker that is believed stands beside genuine bytes. |
| `EvidenceDownload.SuccessIsGenuine` | scripts/fetch_evidence.py:104-142 | A successful call leaves bytes of the recorded size and digest if and only if it did not find an untrustworthy marker. |
| `EvidenceDownload.StaleMarkerIsBelieved` | scripts/fetch_evidence.py:111-113 | A marker beside other bytes of the same size is believed: the input on which a success is not genuine. |
| `EvidenceDownload.EverySuccessIsGenuine` | scripts/fetch_evidence.py:104-142 | Over every sequence of calls for one entry that starts without a marker, every success leaves genuine bytes. |
| `EvidenceDownload.CallKeepsMarker` | scripts/fetch_evidence.py:104-142 | A call for any entry keeps the marker naming the digest of the destination. |
| `EvidenceDownload.MixedSuccessIsGenuine` | scripts/fetch_evidence.py:104-142 | Over every sequence of calls for different entries on one destination, every success leaves the bytes of its own entry. |
| `EvidenceDownload.ReplacedIsGenuine` | scripts/fetch_evidence.py:137-141 | The bytes installed before the marker is written are genuine. |
| `EvidenceDownload.CrashesAreHarmless` | scripts/fetch_evidence.py:104-142 | For one entry, calls cut short at any point do no harm: every completed success is genuine. |
| `EvidenceDownload.CrashMisleadsIff` | scripts/fetch_evidence.py:141-142 | With a second entry on the same destination, a crash between the replacement and the marker misleads a later call exactly when the old marker names its digest and the new bytes have its size and another digest. |
| `EvidenceDownload.CrashMisleads` | scripts/fetch_evidence.py:141-142 | Two entries of equal size on which that happens. |
| `EvidenceDownload.AttemptKeepsPrefix` | scripts/fetch_evidence.py:116-132 | If bodies are slices of one content, one attempt keeps the partial file a prefix of it. |
| `EvidenceDownload.AttemptsKeepPrefix` | scripts/fetch_evidence.py:116-134 | So does the whole retry loop. |
| `EvidenceDownload.HonestCall` | scripts/fetch_evidence.py:104-142 | Then a call never reports a wrong digest, leaves a prefix, and installs exactly that content when it verifies. |
| `EvidenceDownload.ResumeGrows` | scripts/fetch_evidence.py:117-128 | An honoured range only appends to the partial file. |
| `EvidenceDownload.CompletionSucceeds` | scripts/fetch_evidence.py:116-134 | Against such a server the retries end with the content as soon as one answer completes it. |
| `EvidenceDownload.FailureKeepsFiles` | scripts/fetch_evidence.py:111-140 | A failed call leaves destination and marker as it found them, and a kept file leaves everything. |
| `EvidenceDownload.OversizedIsDiscarded` | scripts/fetch_evidence.py:117-120 | A partial file that is too long makes no difference to a call. |
| `EvidenceDownload.NoPartialAfterDigest` | scripts/fetch_evidence.py:137-142 | A partial file with the wrong digest is deleted; a verified one becomes the destination, with its marker. |
| `EvidenceDownload.OtherFailuresKeepBytes` | scripts/fetch_evidence.py:129-136 | Every other failure keeps the bytes received. |
| `EvidenceDownload.CompletedCallVerifies` | scripts/fetch_evidence.py:104-142 | A call against an honest server that completes the content installs exactly that content and its marker. |
| `EvidenceDownload.WrongDigestIsRecoverable` | scripts/fetch_evidence.py:104-142 | A call after a wrong digest starts afresh and ends verified once an honest server completes the content. |
| `EvidenceDownload.ZeroSizeIsNeverFetched` | scripts/fetch_evidence.py:117-134 | For a zero-byte entry the call raises before any check unless an empty partial file exists. |
| `EvidenceDownload.Folder.constructor` | scripts/fetch_evidence.py:109-114 | A folder without any of the three files. |
| `EvidenceDownload.Folder.Download` | scripts/fetch_evidence.py:104-142 | The loop over the files ends within its retries, and files and result are those of the specification for the files it found. |
| `SpendLedger.CheckSpend` | benchmarks/public/check_longmemeval_complete_history.py:105-148 | In exact arithmetic, accepts exactly when the ledger is valid and within every cap, totals and report agree with the entries, and issued calls and own entries reconcile; it returns the total of all entries and the total cost of all calls. |
| `SpendLedger.ExpectedIdsMeans` | benchmarks/public/check_longmemeval_complete_history.py:106 | The ids of the experiment are those of the reader and the judge of each question. |
| `SpendLedger.CallHasOneCharge` | benchmarks/public/check_longmemeval_complete_history.py:127-147 | On acceptance every issued call has exactly one ledger entry, its own, which agrees with it. |
| `SpendLedger.ChargeHasOneCall` | benchmarks/public/check_longmemeval_complete_history.py:127-147 | On acceptance every own ledger entry charges exactly one issued call. |
| `SpendLedger.AcceptedCallFields` | benchmarks/public/check_longmemeval_complete_history.py:129-145 | On acceptance an issued call and its entry agree in key, call id, status, usage, category, cost and reservation, and the cost is within the reservation up to 1e-12. |
| `SpendLedger.EntryOfExperimentIsCall` | benchmarks/public/check_longmemeval_complete_history.py:115-147 | On acceptance every ledger entry under an id of the experiment charges an issued call with that id, at its cost. |
| `SpendLedger.UnissuedCallFields` | benchmarks/public/check_longmemeval_complete_history.py:131-135 | On acceptance a call that was never issued cost nothing and left no entry under its key. |
| `SpendLedger.OwnSpendIsCallCost` | benchmarks/public/check_longmemeval_complete_history.py:124-147 | Conservation: what the own entries charge is what all calls cost. |
| `SpendLedger.ChargeRaisesTotal` | benchmarks/public/check_longmemeval_complete_history.py:114-118 | A charge raises the sum of the category totals by exactly its cost. |
| `SpendLedger.CheckEntry` | benchmarks/public/check_longmemeval_complete_history.py:109-117 | Accepts exactly an entry with a new key, known category, nonnegative cost and, if own, a new call id. |
| `SpendLedger.ScanEntries` | benchmarks/public/check_longmemeval_complete_history.py:107-117 | Accepts exactly the valid ledgers, and then indexes every entry by key, sums each category and sums the own entries. |
| `SpendLedger.CheckCall` | benchmarks/public/check_longmemeval_complete_history.py:129-145 | Accepts exactly a call whose recomputed key finds an agreeing entry, or an unissued call that left none. |
| `SpendLedger.CheckCallAt` | benchmarks/public/check_longmemeval_complete_history.py:129-145 | Accepts exactly a call that agrees with the ledger under a key not used by an earlier call. |
| `SpendLedger.ScanCalls` | benchmarks/public/check_longmemeval_complete_history.py:127-146 | Accepts exactly calls with distinct keys that all agree with the ledger. |
| `SpendLedger.AcceptedSpendIsCapped` | benchmarks/public/check_longmemeval_complete_history.py:118-126 | The cost of all calls is within the category total, which is within every cap. |
| `ExactNeighbours.MergeKeepsTop` | benchmarks/public/check_competitive_ann.py:91-96 | Keeping the best k before adding more rows loses nothing. |
| `ExactNeighbours.BlockedTop` | benchmarks/public/check_competitive_ann.py:82-97 | For any block size the merge returns the k rows of highest score, ties to the smaller id, in that order: every later or left-out row has a lower score or the same score and a larger id. |
| `ExactNeighbours.TopIsNearest` | benchmarks/public/check_competitive_ann.py:93-96 | The specification in terms of scores and ids alone. |
| `ExactNeighbours.SeparatedIsTop` | benchmarks/public/check_competitive_ann.py:94-96 | A sorted list with nothing left out before it is the specified answer. |
| `ExactNeighbours.SelectThenSortIsTop` | examples/vector_discovery_diagnosis.rs:250-255 | Selecting at k and sorting the prefix meets the same specification. |
| `Arithmetic.GcdLoop` | examples/sparse_composition.rs:95-100 | The loop returns the greatest common divisor. |
| `Arithmetic.GcdDivides` | examples/sparse_composition.rs:95-100 | The common divisors are exactly the divisors of the gcd. |
| `Arithmetic.LcmIsLeast` | examples/sparse_composition.rs:103-107 | The combined denominator divides every common multiple. |
| `Arithmetic.LcmAllIsLeast` | examples/sparse_composition.rs:103-107 | So does the fold over all levels. |
| `SparseProjection.CheckedDenominator` | examples/sparse_composition.rs:102-108 | Returns the least common multiple of the nonempty levels, or an overflow error exactly when no common multiple fits in 128 bits. |
| `SparseProjection.CheckedAdd` | examples/sparse_composition.rs:149-158 | Fails exactly when the exact new sum or score does not fit its machine type. |
| `SparseProjection.AccumulateLevel` | examples/sparse_composition.rs:144-161 | One level updates every coordinate exactly, or some coordinate overflows. |
| `SparseProjection.Accumulate` | examples/sparse_composition.rs:140-161 | Succeeds exactly when every exact final value fits, and then holds it. |
| `SparseProjection.NormalizedIsExact` | examples/sparse_composition.rs:151-156 | The integer score is the common denominator times the exact rational sum of count over level size. |
| `SparseProjection.NormalizedOrderIsExact` | examples/sparse_composition.rs:151-173 | The integer order is the order of the exact rational sums. |
| `SparseProjection.TopIsSelection` | examples/sparse_composition.rs:110-115 | The first budget coordinates of an order, as a strictly increasing list of the right size. |
| `SparseProjection.PlainArm` | examples/sparse_composition.rs:171-174 | Every coordinate taken ranks before every one left out. |
| `SparseProjection.ReservedArm` | examples/sparse_composition.rs:175-186 | No reserved coordinate is lost, and the others taken rank before those left out by normalized score. |
| `SparseProjection.ProjectArm` | examples/sparse_composition.rs:162-195 | For every arm but N: strictly increasing, inside the support, of size min(|support|, budget), with every reserved coordinate and otherwise the best by score. |
| `SparseProjection.CellCounts` | examples/sparse_composition.rs:148-159 | Accumulated sums and level counts are the exact ones of the nonempty levels. |
| `SparseProjection.MinimumIsLeast` | examples/sparse_composition.rs:151-157 | The integer minimum of a coordinate that occurs is the common denominator times its smallest positive count over level size. |
| `SparseProjection.ArmRanksExactly` | examples/sparse_composition.rs:171-184 | The key order of each arm is its exact order: levels, counts, rational sums or hashes. |
| `SparseProjection.RareRanksExactly` | examples/sparse_composition.rs:176 | The key order of the reserve is the exact order of smallest positive shares, then hash, then coordinate. |
| `SparseProjection.Project` | examples/sparse_composition.rs:132-199 | From level counts to indices: an error exactly on overflow; otherwise a selection of the coordinates that occur, holding the reserve (for R25 and R50 the smallest positive count over level size) and besides it the first by the exact order of the arm, ties to the smaller coordinate. |
| `SparseVarints.LebRoundTrip` | examples/sparse_composition.rs:121-127 | Reading back one number returns it and consumes exactly its bytes, whatever follows. |
| `SparseVarints.LebFitsFive` | examples/sparse_composition.rs:121-127 | A 32-bit number takes at most five bytes. |
| `SparseVarints.EncodeRoundTrip` | examples/sparse_composition.rs:117-130 | Decoding the differences returns the list, so the encoding is uniquely decodable. |
| `SparseVarints.EncodeSize` | examples/sparse_composition.rs:117-130 | At most five bytes per index. |
| `SparseVarints.PushLeb` | examples/sparse_composition.rs:121-127 | The inner loop appends exactly the seven-bit groups of one number. |
| `SparseVarints.PushDifferences` | examples/sparse_composition.rs:117-130 | The outer loop appends the encoded differences of the list. |
| `SparseVarints.Varints` | examples/sparse_composition.rs:117-130 | The byte loop produces bytes that decode to the list, at most five per index. |
| `ConversationGroups.ResolveAliasUnique` | benchmarks/public/check_longmemeval_role_reader.py:53-55 | An alias is found exactly when the legacy id and its masked form meet the historical ids in one, and it is that one. |
| `ConversationGroups.FindRunEnd` | benchmarks/public/check_longmemeval_role_reader.py:56-58 | The end of the maximal assistant run after a user turn. |
| `ConversationGroups.ScanSession` | benchmarks/public/check_longmemeval_role_reader.py:49-64 | Fails exactly on a missing or ambiguous alias; the turns left over are exactly those before the first user turn, all by the assistant, so no user turn is ever unpaired. |
| `ConversationGroups.ScanSessions` | benchmarks/public/check_longmemeval_role_reader.py:41-64 | All sessions in order: fails exactly when some user turn has no alias, and otherwise gives the groups and opening turns. |
| `ConversationGroups.AcceptsIffIdsAgree` | benchmarks/public/check_longmemeval_role_reader.py:53-65 | Every user turn has an alias and the aliases found are the historical ids, if and only if every user turn meets the historical ids in exactly one and every historical id is met by a user turn. |
| `ConversationGroups.OriginalGroups` | benchmarks/public/check_longmemeval_role_reader.py:41-65 | Fails exactly when the two ids of some user turn do not meet the historical ids in one, or some historical id is carried by no user turn; otherwise returns the groups and the opening turns. |
| `ConversationGroups.SessionRuns` | benchmarks/public/check_longmemeval_role_reader.py:50-60 | Each alias gains exactly the runs of its user turns, in order. |
| `ConversationGroups.SessionCovers` | benchmarks/public/check_longmemeval_role_reader.py:50-61 | A session adds exactly its turns from the first user turn on, each once. |
| `ConversationGroups.AliasesFound` | benchmarks/public/check_longmemeval_role_reader.py:59-65 | The groups carry exactly the aliases of the user turns. |
| `ConversationGroups.GroupsAreRuns` | benchmarks/public/check_longmemeval_role_reader.py:41-71 | Aliases are distinct, and each group is exactly the runs of its alias in conversation order. |
| `ConversationGroups.EveryTurnGroupedOnce` | benchmarks/public/check_longmemeval_role_reader.py:75-77 | Every turn of every session occurs exactly once, in a group or in an orphan group. |
| `ConversationGroups.RecordsDistinct` | benchmarks/public/check_longmemeval_role_reader.py:43-48 | All turns of the conversation are distinct records. |
| `ConversationGroups.OpeningsAreBeforeFirstUser` | benchmarks/public/check_longmemeval_role_reader.py:61-64 | A turn is an orphan exactly when no user turn comes at or before it in its session. |
| `ReaderCap.CappedIsLongestFit` | benchmarks/public/check_longmemeval_role_reader.py:110-113 | What is retained is the longest ranked prefix that fits, or the anchor alone. |
| `ReaderCap.DropToCap` | benchmarks/public/check_longmemeval_role_reader.py:110-113 | The pop loop retains the longest fitting prefix and records the dropped ids last first. |
| `ReaderCap.FailsIffNoneFits` | benchmarks/public/check_longmemeval_role_reader.py:114-119 | What is retained is over the cap exactly when every prefix is. |
| `ReaderCap.CapGroups` | benchmarks/public/check_longmemeval_role_reader.py:102-120 | Retains that prefix; retained ids followed by the dropped ids reversed rebuild the selection; failure is reported exactly when no prefix fits. |
| `ReaderCap.HighestRank` | benchmarks/public/check_longmemeval_answers.py:449 | The first position after the anchor with the highest rank. |
| `ReaderCap.Replay` | benchmarks/public/check_longmemeval_answers.py:447-449 | The loop computes the removal by rank, and ends with one group or within the cap. |
| `ReaderCap.ReplayIsCap` | benchmarks/public/check_longmemeval_answers.py:447-449 | When ranks increase in list order, removal by rank retains what the cap retains. |
| `ReaderCap.ReplayDiffers` | benchmarks/public/check_longmemeval_answers.py:447-449 | For any other list of distinct groups some counter and cap tell the two apart. |
| `ReaderCap.ReplayAgreesIffRanksIncrease` | benchmarks/public/check_longmemeval_answers.py:447-449 | For distinct groups the two agree for every counter and cap if and only if ranks increase in list order. |

## Left out

- The storage engine itself; its atomicity is the hypothesis of `CompactionOracle.Observable`, and in the protocol its calls only return or fail.
- Floating-point rounding, and the tolerance with which reports are compared; only the slack of 1e-12 on reservations is kept.
- SHA-256, CRC, compression, tar, JSON, tokenizers and BM25: parameters or absent.
- In the budget check: the oracle ceilings, completeness statistics and confidence intervals, which are plain comparisons of report fields.
- In the compaction check: the fields of one result row, latency quantiles and counts of overlapping queries; a found result is its validated document and revision.
- In the compaction harness: spawn failures, panics, the static phase before and the snapshots after the concurrent phase.
- In the codebook check: the accuracy of the random-phase arm, which has no exact claim, and the memory accounting.
- In the set selection: the candidate pool before it, and the final ranking of ten, which only reorders; the minimum family has no bound beyond seven candidates.
- In the queue: the bodies of the queued operations.
- In the download: path handling; a file replacement is atomic.
- In the spend check: schema and cap-table equality at lines 103-104, and the pricing of one call in `check_stage_call`.
- In the sparse projection: arm N, which ignores the counts, the budget list, and count tables shorter than the level list.
- In the grouping: texts, dates and fingerprints; a record is its session and turn, an alias a number. Group fingerprints are distinct because their turns are, so the coverage and duplicate checks at lines 75-78 can only fail through colliding digests.
- In the role reader: `replay_retrieval`, a sum of two reciprocal ranks and three sorts.
- In the answer check: the framing transitions after the cap replay.
- `choose` and `classify`: a comprehension with a minimum, and a partition of ids by set membership.
- SpendLedger.CheckSpend: costs are compared exactly, because rounding is not modelled.
- CompactionProtocol.SuccessfulRunIsChecked: speaks of the journal and the compaction interval; the answers of the queries depend on the engine.
- EvidenceCoverage.Select: the minimum family is proved optimal for up to seven candidates; its value is not submodular (`MinimumIsNotSubmodular`), so the bound of the mean families does not apply.
- EvidenceDownload.ResumeGrows: only for honoured ranges; an ignored range starts the file again by design.
