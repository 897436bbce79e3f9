# The congestion fabric, modelled and proved

This project models a deterministic congestion-state runtime over a crash-safe
store, at the level of bytes, records and steps, and proves what the runtime is for.

**The durable store.** A journal of CRC-framed records, a snapshot container, and a
commit of three records: intent, payload, commit. After a crash the store resumes
from the last *committed* sequence, so later transactions reuse the sequence and
transaction numbers of unfinished ones. `StoreRuns.dfy` runs the store through any
sequence of opens, commits, checkpoints and crashes at any byte and proves that what
`open` rebuilds is the fold of exactly the committed payloads. `Journal.dfy`,
`Snapshot.dfy`, `Sealed.dfy` and `Crc32c.dfy` are the bytes below it; `Layout.dfy`,
`Codec.dfy` and `StoreCodec.dfy` the payload codecs; `Document.dfy`, `Checkpoint.dfy`
and `Recovery.dfy` the document, its checkpoint and its replay; `Store.dfy` the object
whose methods are the steps of those runs; `Commits.dfy` one commit in full;
`StoreLimits.dfy` two inputs on which the store does not keep its promise.

**Evaluation.** `Contradiction.dfy` decides which reading stands for a metric,
`Evaluator.dfy` says how readings become a gated severity per resource and a proposal
per domain, `Gating.dfy` what such a proposal means, both ways, in terms of the readings
kept, the thresholds and the gates. `Propagation.dfy` has the bounded breadth-first
pressure search and its closed form, `Evaluation.dfy` the loops that refine all of it,
`Hysteresis.dfy` and `HysteresisRuns.dfy` the per-domain machine and its runs,
`Policy.dfy` classification and validation, `Planner.dfy` the intervention planner and
`Planning.dfy` what its plans hold, `Arrival.dfy` what an evaluation does not depend on:
samples of other epochs and the order of arrival.

**Transport, topology, coordinator.** `Frame.dfy` is the fail-stop streaming decoder,
`Evidence.dfy` the metric set and the batch codec, `Topology.dfy` validation and the
adjacency index, `Fabric.dfy` the coordinator's locked state, policy, topology and
evidence window included, as a step system and as an object. `Window.dfy` says what a
batch leaves in the window and what an evaluation takes from it, `Sections.dfy` what every
other step leaves behind; `FabricRestarts.dfy` is the coordinator over its durable document
through restarts and crashes inside an open.

How the model reads the program:

- A file is a sequence of bytes. A crash keeps any prefix of what was being appended;
  replacing the snapshot is atomic. A failed write or flush counts as a crash.
- An object whose methods update its fields is a class with those fields; its methods
  are proved against functions, and the lemmas are about those functions: those named
  `...Exact` and `...Means` state, both ways, what the functions compute from the values
  alone, without naming them.
- Identities are numbers, zero the null one. Ticks are arbitrary inputs.
- Every lemma is proved with automatic induction off; inductions are written out.
- The recovered document is compared without attempts, authority generation and
  mutation count, which the store does not recover, and below the retention bounds,
  which `open` does not apply.
- Where comment and code disagree the model follows the code. The comment at
  include/ncf/eval/hysteresis.hpp:27-28 has downward and upward reversed: a proposal
  never has its downward severity below its upward one (`Evaluator.DownwardNeverBelow`).
- Three promises hold only up to a condition. A tear must not fall inside the first
  journal record: such a tail is reported empty and never cut
  (`StoreLimits.TornFirstRecordBlocks`). A checkpoint must hold no more records than an
  open accepts, which the retention bounds do not ensure
  (`Checkpoint.CheckpointRestores`, `StoreLimits.BoundsDoNotSuffice`). Planning twice is
  planning once exactly when the first plan was repeatable (`Planner.ReplanExact`,
  `Planner.LimitBreaksIdempotence`).

## Model

| member | source | states |
|---|---|---|
| `StoreRuns.RecoveryIsTheFold` | src/durability/store.cpp:281-637 | over every run of opens, commits, checkpoints and crashes at any byte, opening the disk succeeds and rebuilds the fold of exactly the payloads whose commit record is whole on disk, in order, although sequences and transaction numbers are reused after a crash |
| `StoreRuns.LiveIsTheFold` | src/durability/store.cpp:281-340 | what a running store shows is that same fold, so a reader sees what a crash would leave |
| `StoreRuns.AcknowledgedIsRecovered` | src/durability/store.cpp:325-340 | a commit made at any point of a run keeps its place in every later recovery |
| `StoreRuns.CommitsStay` | src/durability/store.cpp:281-340 | the commits of a run's first steps are a prefix of the commits of the whole run |
| `StoreRuns.StepKeeps` | src/durability/store.cpp:281-798 | every step, crashing or not, keeps the invariant tying snapshot, journal and live document to the committed payloads |
| `StoreRuns.JournalStaysWithin` | src/durability/journal.cpp:245-289 | whatever a run does, the journal never outgrows the bound beyond which open would refuse to read it |
| `StoreRuns.OpenRebuilds` | src/durability/store.cpp:438-637 | from a disk holding a list of payloads, open yields their fold, the last committed sequence plus one, and a journal cut back to its whole records |
| `StoreRuns.CutHolds` | src/durability/store.cpp:303-325 | any byte prefix of the three records leaves the disk holding the old payloads, or one more exactly when all three are whole |
| `StoreRuns.ReplacedHolds` | src/durability/store.cpp:755-797 | a replaced snapshot beside a journal that is old, emptied or freshly marked holds the whole fold, with no mutation applied twice |
| `StoreRuns.CommittedHolds` | src/durability/store.cpp:327-340 | applying, stamping and pruning one committed payload is one step of the fold while no retention bound is reached |
| `StoreRuns.PruneKeepsNewest` | src/durability/store.cpp:126-141 | a reached retention bound cuts the oldest rows of its own list and nothing else |
| `Commits.CommitExact` | src/durability/store.cpp:281-340 | a commit is acknowledged exactly when its kind, size, domain bound and body allow it, the journal may be written and its three records fit; they are then on disk and the row is applied under the bounds and the stamp; otherwise document and committed payloads are as before |
| `Commits.CheckExact` | src/durability/store.cpp:281-300 | each refusal before writing is given exactly when its condition is the first to fail |
| `Recovery.DigestChunks` | src/durability/store.cpp:525-593 | replaying any mixture of finished, unfinished and skipped transactions applies exactly the payloads of the finished ones not yet covered, in order |
| `Recovery.CommittedApplies` | src/durability/store.cpp:534-573 | a finished transaction applies its own payload whatever an earlier one with the same number left pending |
| `Recovery.UnfinishedChangesNothing` | src/durability/store.cpp:534-556 | an unfinished transaction changes nothing but the pending map, however much of it is skipped |
| `Recovery.AmbiguousExact` | src/durability/store.cpp:594-613 | every transaction whose payload was seen without a commit is reported once, in order of identity, as an attempt of unknown outcome under its own kind; no other is |
| `Recovery.CommitRecordExact` | src/durability/store.cpp:555-578 | a commit record applies the payload last seen under its transaction, and only one that was seen and means something |
| `Recovery.AbortExact` | src/durability/store.cpp:579-583 | an abort record drops its transaction alone and applies nothing |
| `StoreLimits.TornFirstRecordBlocks` | src/durability/journal.cpp:322-354 | any tear of the first record opens as empty and is not cut; and once a record follows a tear that leaves at most five bytes, or loses at most the last six of a header or the last four of a payload, the journal is refused as corrupt |
| `StoreLimits.AppendedTearsBlock` | src/durability/journal.cpp:97-118 | every header the store appends is one whose last six bytes cannot be lost without that |
| `StoreLimits.ScriptReaches` | src/durability/store.cpp:281-340 | every fold of storable entries within the bounds is the live document of some run of a new store |
| `StoreLimits.BoundsDoNotSuffice` | src/durability/store.cpp:456-459 | a run of sixty acknowledged commits within every retention bound, then a checkpoint and a restart, after which the tolerant open has lost them all: revalidations have no share in the record limit |
| `Store.DurableStore.OpenStore` | src/durability/store.cpp:438-637 | the load, replay, ambiguity and truncation loops compute exactly the open the recovery theorem is about, and change nothing when they refuse |
| `Store.DurableStore.CommitMutation` | src/durability/store.cpp:281-340 | a commit writes all three records and installs the new document, or leaves the records the journal took and the old document, with the error of the first check that fails; sequence numbers wrap at 64 bits |
| `Store.DurableStore.CheckpointNow` | src/durability/store.cpp:639-798 | the snapshot written is the document's, the read-back and scratch comparison never fail, and the journal restarts with a rebase marker; only the size bound and a read-only journal stop it |
| `Store.DurableStore.ReplayRecords` | src/durability/store.cpp:525-593 | the record loop with its pending map is the digest of the records |
| `Store.DurableStore.Put` | src/durability/store.cpp:143-266 | each mutation kind replaces, upserts, appends or skips a duplicate in place exactly as the specification says |
| `Checkpoint.CheckpointRestores` | src/durability/store.cpp:456-500 | a snapshot of any well-formed document opens to that document exactly when its records fit the open's record limit, and to nothing or a refusal otherwise |
| `Checkpoint.LoadRestores` | src/durability/store.cpp:772-795 | re-applying the framed records of a checkpoint restores the document they came from |
| `Document.EntriesRestore` | src/durability/store.cpp:639-737 | applying the entries in checkpoint order to the document the header starts gives the document back, every list, slot and the epoch |
| `Document.ApplyWellFormed` | src/durability/store.cpp:143-266 | every mutation keeps domains strictly sorted, identities unique and rows storable |
| `Document.ApplyExact` | src/durability/store.cpp:143-266 | what a mutation does, kind by kind: it replaces a value, sets the epoch, puts a domain in its place, takes a record once by its identity, or adds one at the end of its own list, and touches nothing else |
| `Document.UpsertReplaces` | src/durability/store_codec.cpp:73-84 | after an upsert the key's row is the new one and every other row is as before |
| `Document.LowerBound` | src/durability/store_codec.cpp:53-84 | the binary search over the sorted domains finds the rank of the key |
| `StoreCodec.BodyRoundTrip` | src/durability/store_codec.cpp:107-762 | for every mutation kind a stored row encodes to bytes that decode to the same row, whatever follows them |
| `StoreCodec.BodyPrefixRefused` | src/durability/store_codec.cpp:107-762 | every strict prefix of an encoded body is refused |
| `StoreCodec.DecodedIsStored` | src/durability/store.cpp:69-122 | whatever bytes a decoder accepts give a row that can be written again in no more bytes and decodes to itself |
| `StoreCodec.PolicyRoundTrip` | src/durability/store_codec.cpp:107-281 | a valid policy comes back field for field with its fingerprint recomputed |
| `StoreCodec.TopologyRoundTrip` | src/durability/store_codec.cpp:342-454 | a valid topology comes back with its nested paths and hops |
| `StoreCodec.DomainRoundTrip` | src/durability/store_codec.cpp:283-340 | a domain state comes back unchanged, or is refused exactly when its identity is null |
| `Layout.RoundTrip` | src/durability/codec.cpp:17-165 | a list of fields, nested tables included, reads back from its bytes and leaves what follows them |
| `Layout.PrefixRefused` | src/durability/codec.cpp:71-165 | no strict prefix of an encoding is read as a value |
| `Layout.DecodeFits` | src/durability/codec.cpp:77-165 | whatever is read fits the layout and the rest is a suffix of the input |
| `Codec.DecodeRow` | src/durability/codec.cpp:71-165 | the byte reader with its sticky status, driven field by field past its first failure, returns exactly what the layout decoder returns, and no value once it failed |
| `Layout.BoundsDecide` | src/durability/codec.cpp:17-165 | what the writer lets through, which checks no table against its bound, reads back whole exactly when every table is within its bound and is otherwise refused as oversized |
| `Codec.WriteAndRead` | src/durability/codec.cpp:11-165 | through both objects a row of the right shape comes back whole, or the writer refused a text beyond its bound, or the reader a table beyond its own |
| `Codec.ByteReader.Number` | src/durability/codec.cpp:97-119 | a cut-short integer still carries the bytes that were there and fails the reader; a failed reader yields zero and does not move |
| `Codec.ByteWriter.PutRow` | src/durability/codec.cpp:11-69 | the writer appends the encoding of the layout without table bounds, and fails exactly when a text does not fit |
| `Journal.ReplayExact` | src/durability/journal.cpp:298-389 | on any bytes valid and dropped bytes add up to the file and the accepted records re-encode to the valid bytes |
| `Journal.ReplayPrefix` | src/durability/journal.cpp:298-389 | on any byte prefix of an appended journal replay returns exactly the whole records, is complete exactly on a non-empty record boundary and never corrupt |
| `Journal.DamageFound` | src/durability/journal.cpp:298-389 | with any one byte of a journal of whole records changed, replay returns exactly the records before the damaged one and calls the journal corrupt |
| `Journal.DecodeSeal` | src/durability/journal.cpp:97-143 | a header is accepted exactly when its four checksum bytes match the header with them zeroed |
| `Journal.Log.ReplayFile` | src/durability/journal.cpp:298-389 | a file beyond the journal bound is not read; otherwise the offset loop reads exactly what the record scan says |
| `Journal.Log.Append` | src/durability/journal.cpp:245-289 | an append adds the framed record and takes the next sequence, or changes nothing |
| `Journal.Log.TruncateTo` | src/durability/journal.cpp:391-425 | the file is cut back to the given size and never grown |
| `Journal.Log.Rebase` | src/durability/journal.cpp:427-443 | the file holds just a rebase marker under the next sequence, or is empty when the marker is refused |
| `Journal.Log.ResumeSequence` | src/durability/journal.cpp:181-185 | sequencing only moves forward |
| `Snapshot.ReadBack` | src/durability/snapshot.cpp:144-287 | a written container reads back to its header and records |
| `Snapshot.PrefixRefused` | src/durability/snapshot.cpp:144-222 | no strict prefix of a container is accepted, even when a payload holds bytes that look like its footer |
| `Snapshot.ByteRefused` | src/durability/snapshot.cpp:61-222 | any one changed byte, wherever it lies, makes a container unreadable |
| `Snapshot.ReadSnapshot` | src/durability/snapshot.cpp:144-222 | the offset loop with its rolling checksum returns exactly what the container reader returns, error for error |
| `Snapshot.WriteSnapshot` | src/durability/snapshot.cpp:224-276 | the container is written exactly when count, record sizes and total size are within bounds |
| `Sealed.SealDetects` | src/durability/snapshot.cpp:61-74 | one changed byte in a header, its seal included, breaks the seal |
| `Crc32c.Table.ContinueWith` | include/ncf/core/crc32c.hpp:42-49 | one table lookup per byte gives the bitwise polynomial checksum |
| `Crc32c.Table.Fill` | include/ncf/core/crc32c.hpp:21-38 | every table entry is the eight bitwise steps of its index |
| `Crc32c.LookupByte` | include/ncf/core/crc32c.hpp:44-47 | feeding a byte bit by bit is one lookup on the low bits and one move down |
| `Crc32c.ContinueConcat` | include/ncf/core/crc32c.hpp:42-57 | checksumming a split message piece by piece gives the checksum of the whole |
| `Crc32c.BurstDetected` | include/ncf/core/crc32c.hpp:42-49 | two messages of any length that differ inside one window of at most 32 bits have different checksums |
| `Crc32c.FourBytesDetected` | include/ncf/core/crc32c.hpp:42-49 | a change inside four consecutive bytes of data of any length changes the checksum |
| `Crc32c.FiveBytesDetected` | include/ncf/core/crc32c.hpp:42-49 | so does a change inside five bytes that spans no more than 32 bits |
| `Crc32c.StepInjective` | include/ncf/core/crc32c.hpp:21-27 | a step of the register loses nothing: different registers stay different |
| `Crc32c.PolyNumber` | include/ncf/core/crc32c.hpp:15-24 | the polynomial's bits are those of 0x82F63B78 |
| `Words.LeDigit` | src/durability/codec.cpp:19-34 | byte `i` of a written integer is its `i`-th digit to the base 256, the least significant first |
| `Hysteresis.DomainState.Advance` | src/eval/hysteresis.cpp:21-196 | the in-place step is the specified step on the machine's fields; which moves that step makes, under which counts, dwell and hold, and with which reason is said without it by `HysteresisRuns.StepMoves`, `StepReasons`, `StepConfirms` and `StepRefuses` |
| `HysteresisRuns.CommitsAreEarned` | src/eval/hysteresis.cpp:141-196 | over every run an authoritative commit is to the state its proposal calls for, after at least the number of consecutive folded-in evaluations, all calling for that state, that the move between the two states needs by the rules (escalation, improvement, clear or de-escalation samples, clamped), and not within dwell or recovery hold |
| `HysteresisRuns.StepMoves` | src/eval/hysteresis.cpp:69-196 | a move a proposal calls for is made exactly when enough evaluations in a row called for it and neither dwell nor hold bars it, with every field of the machine as stated; otherwise the evaluation is counted and nothing else changes; what is called for and how many it takes is read off the proposal, the rules and the two states |
| `HysteresisRuns.StepReasons` | src/eval/hysteresis.cpp:149-196 | the reason given is the one of the first of dwell, hold and count that bars the move, or the one of the kind of move made |
| `HysteresisRuns.StepConfirms` | src/eval/hysteresis.cpp:117-125 | a proposal with a value that calls for no move leaves an authoritative state, between its upward and downward severity, confirmed |
| `HysteresisRuns.StepRefuses` | src/eval/hysteresis.cpp:27-63 | a backdated or contradictory evaluation changes nothing; one without a value moves to the refusal it names, Unknown being Stale once anything was known |
| `HysteresisRuns.EventsDemote` | src/eval/evaluator.cpp:754-778 | outside evaluations a domain gains no authority: a new policy or topology flags it, a new epoch or a restart takes its state away |
| `HysteresisRuns.RecoveryNeedsTwo` | src/eval/hysteresis.cpp:79-119 | Recovering is entered only after two such evaluations unless the policy allows a single one |
| `HysteresisRuns.CongestionNeverClearsDirectly` | src/eval/hysteresis.cpp:73-119 | with recovery enabled Congested or Severe is never followed by Clear as the next authoritative state, even through Stale, Conflict or Unknown |
| `HysteresisRuns.BlackoutIsNotRecovery` | src/eval/hysteresis.cpp:73-93 | leaving a refusal to decide after congestion leads to congestion or recovery |
| `HysteresisRuns.SeverityRemembered` | src/eval/hysteresis.cpp:60-93 | the committed severity is that of the last authoritative state through every event of a run |
| `HysteresisRuns.DwellKept` | src/eval/hysteresis.cpp:149-166 | a commit the dwell governs comes at least the dwell time after the previous change |
| `HysteresisRuns.ChangeMonotone` | src/eval/hysteresis.cpp:29-37 | the tick of the last change never decreases, whatever ticks are presented |
| `HysteresisRuns.FlagClearedByCommit` | src/eval/hysteresis.cpp:173-183 | a flagged domain is unflagged exactly by a committed authoritative transition |
| `HysteresisRuns.EscalationReached` | src/eval/hysteresis.cpp:60-196 | from any state, evaluations at non-decreasing ticks that all press for one level above it commit that level as soon as there are as many as escalation asks for and neither dwell nor the recovery hold applies, and until then every one is counted |
| `HysteresisRuns.ChangeReached` | src/eval/hysteresis.cpp:60-196 | the same for every move, downward and into and out of recovery: evaluations at non-decreasing ticks that all call for one target bring the domain there as soon as there are as many as the move needs and it is not too soon, and until then every one is counted |
| `Propagation.Propagate` | src/eval/propagation.cpp:79-173 | the engine's record holds for every resource the maximum decayed pressure over the sources that reach it, one source kept per resource, and nothing else; edges are capped and bounded |
| `Propagation.InducedIsClosedForm` | src/eval/propagation.cpp:91-173 | a severity is induced exactly when it is the capped severity of the maximum, over sources at their shortest distance, of the floor-decayed pressure |
| `Propagation.SettledIsMaximum` | src/eval/propagation.cpp:91-150 | a resource is recorded exactly when some source offers it pressure, with the largest offer |
| `Propagation.EdgesAreReal` | src/eval/propagation.cpp:119-173 | each edge's hops and predecessor are the last step of a real shortest walk from a source |
| `Propagation.WithinIsWalk` | src/eval/propagation.cpp:41-75 | being within d hops is having a walk of at most d edges along the neighbour relation |
| `Propagation.NeighbourList` | src/eval/propagation.cpp:41-75 | the neighbour list is the sorted duplicate-free union of link successors and next hops on paths |
| `Propagation.InducedBelowSource` | src/eval/propagation.cpp:17-28 | no edge induces more than some source's own severity or the policy's cap |
| `Propagation.OffersExact` | src/eval/propagation.cpp:91-150 | a source offers a resource pressure at a distance exactly when it is above Clear and known, a walk of that many edges within the depth leads there and none of fewer, and the decayed pressure still reaches the policy's minimum and a third |
| `Propagation.AdjacentExact` | src/eval/propagation.cpp:41-75 | one resource is next to another exactly when a link leads there or a path goes on to it after its first occurrence, as the policy follows links and paths |
| `Propagation.ScaleExact` | src/eval/propagation.cpp:17-28 | the pressure scale both ways: a pressure means the highest severity whose own pressure it is not below, and each hop is the floor of the decayed share |
| `Propagation.NextHopExact` | src/eval/propagation.cpp:50-64 | pressure follows a path to what comes after the first occurrence of the node, if anything does |
| `Evaluation.Evaluate` | src/eval/evaluator.cpp:93-738 | the whole evaluation, propagation included, refuses or answers exactly as the propagation-free specification does: the proposal its samples make, never less on the way down than up, and one step of the machine under the policy's own rules; the assessments it reports are those spread over the topology |
| `Evaluator.RaisingChangesNothing` | src/eval/evaluator.cpp:560-661 | raising resources by severities no higher than the worst of the domain changes neither direction of its proposal |
| `Evaluator.DownwardNeverBelow` | src/eval/evaluator.cpp:533-661 | the downward severity of a proposal is never below the upward one |
| `Evaluator.UpNeedsRead` | src/eval/evaluator.cpp:533-557 | at a resource too the downward severity is never below the upward one, and a severity above Clear needs a reading |
| `Arrival.ProposalOrderless` | src/eval/evaluator.cpp:173-392 | a request whose identities name contents, with no key beyond the peer bound and no ties within a publisher, makes the same proposal in any order |
| `Arrival.AnswerOrderless` | src/eval/evaluator.cpp:93-738 | its whole answer, machine and result included, is the same under any permutation of its samples |
| `Evaluator.Corroborated` | src/eval/evaluator.cpp:67-80 | a domain proposal of Congested or Severe comes from one resource with at least the gate's number of distinct metrics, each backed by an admitted, fresh sample whose reading was the one chosen for its key and classifies at that level |
| `Arrival.OtherEpochsIgnored` | src/eval/evaluator.cpp:193-196 | the proposal is the one made by the samples of the context's epoch and the queues they name, alone |
| `Arrival.ValueNeedsSample` | src/eval/evaluator.cpp:602-640 | a proposal with a value rests on an admitted sample |
| `Evaluator.PickedIsDecided` | src/eval/evaluator.cpp:438-462 | the reading that stands for a rule was decided for one of the resource's queues, and no queue's reading classifies above it |
| `Evaluator.AdmittedPasses` | src/eval/evaluator.cpp:173-210 | every admitted sample passes every admission test and no content is admitted twice |
| `Evaluation.ScopeOf` | src/eval/evaluator.cpp:125-160 | the scope is the domain's members, or without a topology the resources the samples name, within the bound and narrowed to the one asked for |
| `Evaluation.QueuesCover` | src/eval/evaluator.cpp:394-400 | every queue a sample names is looked at |
| `Evaluation.AdmitSamples` | src/eval/evaluator.cpp:173-280 | the sample loop fills exactly the buckets of admitted, fresh readings, up to the peer bound |
| `Evaluation.AssessResource` | src/eval/evaluator.cpp:416-558 | the rule loop with its counters yields the specified severities and coverage; at which levels those are, both ways, is said by the gates and the kept readings alone in `Gating.LevelExact` and `Gating.AssessExact` |
| `Gating.ProposalExact` | src/eval/evaluator.cpp:400-661 | the proposal, both ways, from the kept readings, the thresholds and the policy's numbers: it has a value exactly when nothing in scope is contested and something is heard; without one it is Conflict exactly when contested, else Stale or Unknown; its upward severity is at a level exactly when at some resource enough distinct metrics read there for a gate that is set, of that level or a higher one, or the level is Watch and a required rule is unheard at a resource that is heard of; its downward severity exactly when some resource is held there, by as many metrics within the exit margin or, when all must agree, by any one |
| `Gating.LevelExact` | src/eval/evaluator.cpp:416-558 | a resource's upward and downward severity are at a level exactly when it is gated, or held, there by the number of distinct metrics whose standing reading is at or beyond the threshold |
| `Gating.AssessExact` | src/eval/evaluator.cpp:533-557 | a resource is disputed exactly when some rule metric is, has full coverage exactly when some rule and every required rule is heard, and none exactly when it is neither disputed nor heard |
| `Gating.PickExact` | src/eval/evaluator.cpp:438-462 | the reading that stands for a rule, both ways: among the readings that win at the queues looked at, the one of the highest level, then newest, then of the lowest queue; there is one exactly when some queue kept a reading |
| `Gating.DisputeExact` | src/eval/evaluator.cpp:345-385 | a metric is left open at a resource exactly when the mode is to reject and at some queue enough publishers' kept readings clash pairwise; under no other mode and for no other reason |
| `Gating.ReadingsExact` | src/eval/evaluator.cpp:173-280 | the readings under a key of a rule are exactly what the request's samples say there: of a resource in scope and the context's epoch, no heartbeat, within the skew and the rule's own age bound, dated no later than now |
| `Gating.AdmittedExact` | src/eval/evaluator.cpp:173-210 | a sample is admitted exactly when it passes and none of its content passed before it |
| `Gating.ScopeExact` | src/eval/evaluator.cpp:125-160 | an evaluation has a scope exactly when the resources named are some, within the bound and contain the one asked for; it is then all of them, or that one, in order |
| `Evaluation.Aggregate` | src/eval/evaluator.cpp:602-661 | the aggregation loop yields conflict, no evidence, or the worst resource floored at Watch on incomplete required coverage |
| `Evaluation.Spread` | src/eval/evaluator.cpp:560-600 | the assessments after propagation are those before it merged with the edges reported of the record that the domain's own severities settle, and none rises above what the domain already shows |
| `Evaluation.RaisedByPressure` | src/eval/evaluator.cpp:575-592 | a resource with an edge is raised by exactly the capped maximum pressure it receives, one without is left alone, and only truncation leaves out an edge |
| `Contradiction.ExtremesDecide` | src/eval/evaluator.cpp:308-343 | the one test on the extremes holds exactly when some pair of readings is further apart than tolerated at the larger |
| `Contradiction.ConflictIsPairwise` | src/eval/evaluator.cpp:290-345 | a key is in conflict exactly when enough publishers reported and some two of their kept readings disagree pairwise |
| `Contradiction.DecisionOrderless` | src/eval/evaluator.cpp:287-392 | winner and verdict for a key do not depend on the order of its readings, unless one publisher has two that tie in age and generation |
| `Contradiction.WinnerIsBest` | src/eval/evaluator.cpp:50-58 | the winner came in and no reading that came in is better |
| `Contradiction.PpmGrows` | include/ncf/core/checked.hpp:133-137 | a larger reading raises the relative tolerance by no more than it rose itself |
| `Contradiction.Resolve` | src/eval/evaluator.cpp:291-392 | the loops over one key's readings make the specified decision; which decision that is, both ways, is said by `Contradiction.VerdictExact` |
| `Contradiction.VerdictExact` | src/eval/evaluator.cpp:290-392 | the whole verdict from the kept readings: conflict exactly when enough publishers reported and two readings are further apart than both tolerances, resolved exactly when moreover the mode is not to reject, and the winner exactly the reading of the publisher listed first under the priority mode with a clash and a listed publisher, otherwise the newest, of the lowest publisher on a tie |
| `Contradiction.KeptMeans` | src/eval/evaluator.cpp:287-306 | of each publisher that reported exactly one reading is kept, its newest, and of equally new ones one of the highest generation |
| `Policy.ValidatePolicy` | src/model/policy.cpp:171-342 | validation accepts exactly the valid policies, its wrapping age bound included |
| `Policy.MarginNeverLowers` | src/model/policy.cpp:46-87 | the exit classification is never below the entry classification of the same reading |
| `Policy.MarginMonotone` | src/model/policy.cpp:14-44 | a larger margin never lowers the exit classification |
| `Policy.ClassifiesAt` | src/model/policy.cpp:14-87 | an ordered rule puts a value at or above a level exactly when the value is at or beyond that level's threshold, give or take the margin's millionths of it |
| `Policy.MaxAgeMeans` | src/model/policy.cpp:89-96 | a metric's age bound is its rule's own, or the default when the rule sets none |
| `Planner.PlanIsSound` | src/eval/evaluator.cpp:780-961 | every authorized intent matches a rule whose severity, authority, coverage and freshness conditions hold, with its parameter inside the envelope |
| `Planner.ReplanExact` | src/eval/evaluator.cpp:800-934 | planning the same outcome again at the same tick authorizes nothing if and only if the first plan was repeatable: whatever a rule was due, the plan has an intent of its kind at the target, and whatever a standing intent held back, one still does (or no plan may hold anything) |
| `Planner.ReplanAuthorizesNothing` | src/eval/evaluator.cpp:800-934 | a plan that skipped no rule for the limit is repeatable while its unexpired intents stand |
| `Planner.LimitBreaksIdempotence` | src/eval/evaluator.cpp:800-808 | an input that is not repeatable: a plan cut off by its limit goes on where it stopped |
| `Planner.MakePlan` | src/eval/evaluator.cpp:780-961 | the nested loops over rules and targets compute the specified plan; what is in it, both ways, is said by the conditions alone in `Planning.PlanExact` and `Planning.RulingExact` |
| `Planning.RulingExact` | src/eval/evaluator.cpp:849-958 | what a rule does at a target, both ways: it acts exactly when the state, severity, freshness, coverage, capability, expiry, repeat interval and identities all allow it, with exactly the stated intent; it is silent exactly below its severity; and it is refused for a reason exactly when that condition is the first to fail |
| `Planning.PlanExact` | src/eval/evaluator.cpp:800-961 | the plan, both ways: of the first rules of the policy, all of them unless it is full, it holds one intent for every due target and nothing else, and every refusal up to the bound of its list; it is not full before the last rule it took from |
| `Planning.PlanComplete` | src/eval/evaluator.cpp:800-961 | a plan that skipped no rule holds, for every rule of the policy and every target it is meant for at which its own conditions hold, the intent the rule issues there |
| `Frame.FramesComeThrough` | src/transport/frame.cpp:153-274 | any cutting of encodable frames into pushes drained by next yields exactly those frames, normalised and in order, with nothing left buffered, as long as no push overflows; a payload beyond the decoder's own bound fails it there, after the frames before |
| `Frame.ChunkIndependence` | src/transport/frame.cpp:215-274 | on arbitrary bytes the frames emitted and whether the decoder fails do not depend on the cutting |
| `Frame.FedParses` | src/transport/frame.cpp:215-274 | however a stream is cut, even across an overflow, the frames emitted are a prefix of what its bytes say |
| `Frame.FailStop` | src/transport/frame.cpp:215-268 | a failed decoder emits nothing, whatever is pushed |
| `Frame.FrameRoundTrip` | src/transport/frame.cpp:153-213 | decoding an encoded frame gives the frame, normalised |
| `Frame.FrameLengthExact` | src/transport/frame.cpp:180-213 | neither a strict prefix of a frame nor a frame with bytes after it decodes |
| `Frame.FrameByteRefused` | src/transport/frame.cpp:99-213 | one changed byte anywhere in a frame is refused |
| `Frame.DecodeExact` | src/transport/frame.cpp:180-213 | decoding accepts exactly the bytes of frames that are sealed, of a known type, without a reserved flag and with the length and checksum they carry |
| `Frame.PushExact` | src/transport/frame.cpp:215-229 | a push fails exactly a decoder that has failed or would hold more than its bound, consumed bytes counted unless nothing else is left; otherwise the bytes are added to what is pending |
| `Frame.FrameDecoder.Push` | src/transport/frame.cpp:215-229 | a push appends or fails the decoder; the bound counts consumed bytes still buffered |
| `Frame.FrameDecoder.Next` | src/transport/frame.cpp:231-268 | one pull yields a whole frame, nothing, or the error that fails the decoder |
| `Frame.FrameDecoder.Drain` | src/transport/frame.cpp:231-268 | pulling until nothing comes yields exactly the frames the pending bytes say |
| `Evidence.BatchRoundTrip` | src/transport/frame.cpp:380-461 | a valid batch reads back exactly and no strict prefix of it is accepted |
| `Evidence.DecodedValid` | src/transport/frame.cpp:411-461 | whatever bytes arrive, an accepted batch holds only valid samples |
| `Evidence.CollectOrder` | src/model/evidence.cpp:12-28 | the order in which a sample's metrics are written does not matter |
| `Evidence.SetAdds` | src/model/evidence.cpp:12-28 | setting a new metric adds exactly that reading and keeps the set sorted without repeats |
| `Evidence.MetricSet.Put` | src/model/evidence.cpp:12-28 | the binary search insertion stores, or refuses an implausible, excess or repeated metric and changes nothing |
| `Evidence.MetricSet.Get` | src/model/evidence.cpp:34-49 | a metric is found exactly when it is there |
| `Topology.CheckContainment` | src/model/topology.cpp:122-152 | containment is accepted exactly when every parent chain is over known resources, ends, and is at most 64 long |
| `Topology.WalkUp` | src/model/topology.cpp:124-152 | the bounded walk ends on cycles that miss its start and accepts exactly the finite chains |
| `Topology.AncestryAcyclic` | src/model/topology.cpp:122-152 | a chain that ends meets no resource twice |
| `Topology.NotOwnAncestor` | src/model/topology.cpp:124-152 | no resource is among its own ancestors |
| `Topology.Validate` | src/model/topology.cpp:88-206 | validation accepts exactly the valid snapshots |
| `Topology.AcceptedIsValid` | src/model/topology.cpp:88-206 | the computable form of validity is validity |
| `Topology.TopologyIndex.Build` | src/model/topology.cpp:282-355 | building succeeds exactly on valid snapshots and gives an index in agreement with them |
| `Topology.TopologyIndex.Successors` | src/model/topology.cpp:250-256 | the answer lists, sorted and once each, the ends of links leaving the resource |
| `Topology.TopologyIndex.Predecessors` | src/model/topology.cpp:258-264 | the answer lists, sorted and once each, the starts of links reaching the resource |
| `Topology.TopologyIndex.ResourcePaths` | src/model/topology.cpp:274-280 | the answer lists, sorted and once each, the paths through the resource |
| `Topology.TopologyIndex.DomainResources` | src/model/topology.cpp:266-272 | the answer lists, sorted and once each, the domain's resources |
| `Topology.TopologyIndex.DomainsPartition` | src/model/topology.cpp:338-352 | each resource is listed under its own domain and no other |
| `Fabric.RunKeeps` | src/fabric/fabric.cpp:230-1031 | in every reachable state all evidence is of the current epoch and of no fenced incarnation, no registered incarnation is fenced, the window is within its bound, every intent is bound to the live authority, and fences, epoch and generation have only grown |
| `Fabric.StepKeeps` | src/fabric/fabric.cpp:230-1031 | every locked section keeps that invariant and replaces a key's reading only by a strictly newer one |
| `Fabric.IngestKeeps` | src/fabric/fabric.cpp:480-573 | ingest accounts for every sample of a batch exactly once and overwrites only with newer generation or sequence |
| `Fabric.FencedStaysOut` | src/fabric/fabric.cpp:340-513 | once fenced an incarnation never registers again nor has a sample accepted, whatever happens in between |
| `Fabric.AdvanceShutsOut` | src/fabric/fabric.cpp:940-1031 | once the epoch has advanced, no incarnation registered before registers again and neither its samples nor any of an earlier epoch are accepted, whatever happens since |
| `Fabric.PlanTwiceExact` | src/fabric/fabric.cpp:787-851 | planning an outcome twice at one tick adds no intent the second time exactly when the first plan was repeatable over what it left active, trimming included |
| `Fabric.PlanTwiceIsOnce` | src/fabric/fabric.cpp:787-851 | it is when no rule was skipped and no active intent trimmed |
| `Fabric.CollectedIsCurrent` | src/fabric/fabric.cpp:575-598 | every sample an evaluation collects from the window is of the current epoch and of no fenced incarnation |
| `Fabric.RevalidatedByCommit` | src/fabric/fabric.cpp:628-690 | a flagged domain's outcome is authoritative only by a transition committed in that evaluation, and otherwise it stays flagged |
| `Fabric.Coordinator.IngestBatch` | src/fabric/fabric.cpp:480-573 | the sample loop updates evidence and registrations as specified and returns the specified tally; what the window holds afterwards, both ways, is said by `Window.BatchExact` |
| `Window.BatchExact` | src/fabric/fabric.cpp:480-573 | a batch, both ways: every accepted non-heartbeat sample is in the window afterwards under its key, or one that rises above it is; every key holds what it held or an accepted sample of the batch, and none is lost; each registration is the same incarnation at the largest generation and sequence accepted; each count of the tally is the number of samples with that fate; nothing else changes |
| `Window.FateExact` | src/fabric/fabric.cpp:489-560 | a sample is accepted exactly when it names a resource, is of the epoch, comes from the registered and unfenced incarnation, does not regress, and is a heartbeat, outdates what its key holds, or finds room; each cause of rejection exactly when its condition is the first to fail |
| `Window.CollectedExact` | src/fabric/fabric.cpp:575-598 | what an evaluation collects, both ways: the samples the window holds of the domain's resources, in key order, up to the batch bound; one left out comes after all of a full batch |
| `Sections.RegisterExact` | src/fabric/fabric.cpp:330-361 | registration succeeds exactly for a named, unfenced incarnation of an open coordinator with room; it is then registered, and its first sample of the epoch is accepted if the window has room; no other registration changes |
| `Sections.FenceExact` | src/fabric/fabric.cpp:396-445 | a fence takes exactly the incarnation's registration and evidence and adds exactly its own mark |
| `Sections.LeaveExact` | src/fabric/fabric.cpp:363-384 | leaving takes the incarnation's registration and nothing else, and it may come back |
| `Sections.PolicyExact` | src/fabric/fabric.cpp:230-258 | exactly a valid policy no older than the installed one is taken; it is then the one in force, under a new generation, with no intent active, every decided domain flagged and nothing else changed |
| `Sections.TopologyExact` | src/fabric/fabric.cpp:260-284 | a topology likewise |
| `Sections.AdvanceExact` | src/fabric/fabric.cpp:940-1031 | an advance leaves no registration, evidence or intent, exactly the registered incarnations fenced besides those fenced before, and every domain undecided and flagged |
| `Sections.EvaluateExact` | src/fabric/fabric.cpp:628-690 | an evaluation touches its own domain alone: the machine, and the intents exactly when the outcome is not authoritative |
| `Sections.PlannedExact` | src/fabric/fabric.cpp:787-851 | planning leaves the domain those of its intents that are retained and after them all that the plan authorizes, in its order, and nothing else changes |
| `Sections.RetainedExact` | src/fabric/fabric.cpp:804-815 | the intents retained are the unexpired ones in their order, the newest within the bound; one left out has expired or is older than as many as the bound |
| `Sections.MembersExact` | src/fabric/fabric.cpp:787-851 | the members a plan is made over are exactly the domain's resources with their serving classes |
| `Fabric.Coordinator.RegisterPublisher` | src/fabric/fabric.cpp:330-361 | registration succeeds or is refused for identity, closure, fence or bound, in that order |
| `Fabric.Coordinator.FencePublisher` | src/fabric/fabric.cpp:396-445 | a fence removes the registration and all evidence of the incarnation and nothing else |
| `Fabric.Coordinator.UnregisterPublisher` | src/fabric/fabric.cpp:363-384 | without a reason the incarnation just leaves, otherwise it is fenced or refused for a null identity; a coordinator restart is no reason |
| `Fabric.Coordinator.InstallPolicy` | src/fabric/fabric.cpp:230-258 | a valid policy that does not move backwards is installed under a new generation with no active intents and authoritative domains flagged |
| `Fabric.Coordinator.InstallTopology` | src/fabric/fabric.cpp:260-284 | a topology is installed, under a new generation, exactly when an index can be built over it |
| `Fabric.Coordinator.CollectEvidence` | src/fabric/fabric.cpp:575-598 | the loop over the window collects its samples for the domain in key order, up to the batch bound |
| `Fabric.Coordinator.EvaluateDomain` | src/fabric/fabric.cpp:628-690 | evaluating a batch or the window commits the machine the evaluator answers with, and drops the domain's intents when the outcome is not authoritative |
| `Fabric.Coordinator.PlanOutcome` | src/fabric/fabric.cpp:787-851 | unexpired intents within the bound are kept and the newly authorized ones, planned under the installed policy and topology, are added bound to the live authority |
| `Fabric.Coordinator.AdvanceEpochNow` | src/fabric/fabric.cpp:940-1031 | the epoch advance computes the specified new state |
| `FabricRestarts.RestartsAreFenced` | src/fabric/fabric.cpp:36-165 | across restarts, crashes inside an open included, the epochs announced strictly increase and an acknowledged fence refuses its incarnation in every later process |
| `FabricRestarts.OpenDemotesAll` | src/fabric/fabric.cpp:118-160 | whatever document an open finds, every domain it restores is non-authoritative and flagged, under a later epoch and with no evidence or intents |
| `FabricRestarts.FirstAuthorityIsCommitted` | src/fabric/fabric.cpp:628-690 | after a restart from any document, the first authoritative outcome of a restored domain is a committed transition; its proposal is the one made by the samples of the new, later epoch alone, of which there are some, and the window holds no others |
| `FabricRestarts.FlagStays` | src/fabric/fabric.cpp:628-690 | until that outcome the domain stays flagged through whatever else happens |
| `FabricRestarts.DemotionIsRestart` | src/eval/evaluator.cpp:754-778 | the stored demotion of a domain is the restart step of its machine's runs |

## Left out

- StoreRuns.RecoveryIsTheFold: assumes that no tear leaves a first record incomplete, that commits stay below the retention bounds, that checkpoints stay within the record limit and that the 64-bit sequence numbers do not run out.
- StoreLimits.TornFirstRecordBlocks: for the other tears of a first record whether the journal is refused depends on the checksum of a header or payload mixed from two records.
- Store.DurableStore.CheckpointNow: asks for a well-formed document, which every document the store itself wrote is.
- Evidence.BatchRoundTrip: which of several faults of a malformed batch is reported first is not modelled, and receipt ticks, sample provenance and computed identities are not part of a batch.
- FabricRestarts.RestartsAreFenced: fence identities are taken to name one incarnation each, and fewer fences than the retention bound.
- FabricRestarts.OpenDemotesAll: a stored state number beyond the eight known ones is read as Unknown.
- Counters and reports: replay reports, evidence counters, conflict and stale lists, explanation entries and statistics.
- The explanation text, rationale text, enumeration names and wall-clock time.
- The strength of the 64-bit fingerprints; the policy fingerprint is computed as the program does, the others are inputs.
- Named pipes, sockets, child processes, the command line, the benchmark and report files.
- The control payloads other than evidence batches (hello, acknowledgements, notices): further flat layouts of the kind proved in Layout.
- The sequence window of the transport and the nonce.
- Liveness: restored ticks can make evaluations report a tick regression until the clock catches up.
- `plan_last` may plan from an outcome older than an epoch advance; the planning step takes any outcome.
- Content identities of samples and intents, which the program computes by hashing, are inputs of the model.
- Granted capabilities, last-seen ticks and provenance of registrations.
- Failures of the file system to create, open or inspect files, other than those that act as a crash.
- Cancellation of an evaluation, which leaves everything as it was, and capacity snapshots, which are stored and never evaluated.
