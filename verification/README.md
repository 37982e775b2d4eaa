# traust-ledger: a verified model

traust-ledger keeps an append-only, Merkle-stamped and signed log of decisions about
security findings, one *layer* per audit report. This project models the kernel of that
ledger in Dafny and proves what it is trusted for. A layer is its event log, its metadata and
its review queue; every write runs under a lock and commits a whole new layer or changes
nothing.

| file | models |
|---|---|
| `Merkle.dfy`, `Consistency.dfy` | the tree hash, inclusion and consistency proofs of section 2.1 of RFC 9162, and the two loop-based verifiers |
| `Events.dfy`, `Layers.dfy`, `Wrappers.dfy`, `TextOrder.dfy` | events, metadata, queue items, errors, string order |
| `Integrity.dfy`, `IntegrityReports.dfy`, `LayerProofs.dfy` | stamping, signing, finalizing and verifying a layer, finding by finding, and proofs against the roots it carries |
| `Restatements.dfy`, `Gates.dfy`, `Writer.dfy`, `Handlers.dfy` | delta merging and chain replay, the gates, the writer's edits, and every write path as a step on a layer |
| `Requests.dfy`, `Writes.dfy` | every request answered in its own terms: when it is refused and why, and what an accepted one writes |
| `LedgerLayer.dfy` | the same edits as in-place methods on a loaded layer, and the atomic `Mutate` around them |
| `SignatureRuns.dfy`, `LogRuns.dfy`, `ReplayRuns.dfy`, `RestatementRuns.dfy`, `UnwindRuns.dfy`, `TwoPersonRuns.dfy`, `Authority.dfy` | what holds after any sequence of writes |
| `Samples.dfy`, `RestatementWitnesses.dfy`, `AuthorityWitnesses.dfy` | concrete runs that show where a result has to stop |
| `StableSort.dfy`, `Disposition.dfy`, `Verdicts.dfy` | the precedence engine, and its verdicts read off the fields of the events |
| `Findings.dfy`, `FindingReads.dfy` | the read model: which events belong to a finding, and what a reader is told |
| `RowStore.dfy`, `Columns.dfy`, `CatalogAnswers.dfy`, `StoredRuns.dfy` | the database backend as two tables refining a map of documents, which operations it carries out, and the handlers run on it |
| `Pagination.dfy`, `Fingerprint.dfy`, `Identities.dfy` | the cursor listing, the finding fingerprint, and when two fingerprints coincide |

## How to read the results

Hashing is free: a digest is the term that was hashed, so "equal" reads "equal, unless a
SHA-256 collision is exhibited". A signature is a value that covers one payload, and the
signing backend is an arbitrary outcome at each step (no key, failure, success). Schema
validation is an arbitrary verdict at each step. Times are the written text paired with the
instant it denotes. The 12-digit block digest in a restatement's reference is a parameter, so
two restatements may share it.

A run is a sequence of `Handlers.Step`, one per modelled write path: single and batch appends,
countersigns, handler restatements, the writer's own restatement entry point with any
metadata updates, metadata patches of signed fields, aliases and Merkle members, signing, and
closing review items. `Run` applies each one, keeping the layer as it was when the step is
refused. Where a property can be lost, a step-level theorem gives the exact condition on the
request and the stored layer, path by path, and the run theorem says the property holds if
and only if every accepted write meets it. Corollaries state what holds when restatements
enter through the handler alone, or items arrive without a status. Dismissal by one person is
the exception: it goes from the condition on each write to the whole run, one way.

The edits, gates, engine and verifier are functions. Beside each stands a statement in terms
of the request and the stored fields alone, both ways: which request is refused and with which
error, what an accepted one appends field by field (`Requests`, `Writes`, `CatalogAnswers`),
what a finding's events make of it (`Verdicts`, `FindingReads`), what the verifier reports
(`IntegrityReports`), and what a fingerprint stands for (`Identities`).

Some statements one might expect are false of the code. The code is kept as it is, and each
has its exact condition, with a failing input:

- `verify_consistency` never reads the old root when the old size is 0, so any value passes.
  `ConsistencyExact` states acceptance as an if-and-only-if that shows this.
- A restatement whose event id is already taken drops its event but still changes the
  metadata. The claim then changes with nothing in the log (`TakenIdOverwritesSilently`,
  `OverwriteExplainedExact`), the chain may stop replaying (`TakenIdBreaksReplay`,
  `RestateReplayExact`), and with no signer at hand the old signature stays
  (`TakenIdLeavesStaleSignature`, `StepFreshnessExact`).
- Only the handler gates restatements. An append, a batch or the writer's entry point takes a
  restatement event with no effect, no ticket or a retired value (`UngatedRestatementDrifts`,
  `UngatedRestatementRestores`; `StepReplayExact`, `NeverRestoresOverRuns`,
  `StepAuthoredExact`).
- A restatement may overwrite a key its `before` does not name, and the prior value is then
  nowhere in the log (`PartialBeforeLosesPrior`, `UnwindableExact`).
- `require_something_to_restate` means a first value to go by the ordinary write path. It
  holds for every field that is absent, null or an empty text, but a map `before` is checked
  for its own keys only, so an empty map gets its first entry through the handler
  (`FirstClaimIsAccepted`, `FirstValueStep`).
- A fingerprint joins its parts with `|` and `;` unescaped, so a path that contains one can
  collide (`SeparatorCollides`, `FingerprintExact`).
- `patch_metadata` can move a signed digest under an unmoved root
  (`PatchLeavesStaleSignature`), write the signature itself (`PatchPlantsSignature`,
  `StepFreshnessExact`), store a null entry (`PatchStoresNull`), and re-add an entry a
  restatement deleted (`PatchRevivesRetractedClaim`, `PatchReplayExact`).
- One person can dismiss an execution-confirmed finding by re-pointing its evidence, with a
  patch of `finding_aliases`, which no check covers, or with a confirmed alias event
  (`AliasPatchDismisses`, `AliasEventTakesProofAway`, `EvidenceExact`). Without that they
  cannot (`OnePersonCannotDismiss`).
- The two-person gate matches one reference string and guards the countersign path alone
  (`AliasEscapesTwoPerson`, `BatchEscapesTwoPerson`, `StepBoundExact`).
- A batch may queue an item that is already closed (`ClosedItemIsQueued`, `QueueOverRuns`).
- The resolver's documentation offers re-queueing as the way to reopen a closed item; the
  queue drops it because the key is taken (`RequeueIsDropped`). The model follows the code.

## Model

| member | source | states |
|---|---|---|
| Merkle.Split | src/traust_ledger/_internal/integrity/merkle.py:47-48 | the bit-length shift is the split point: k < n <= 2k |
| Merkle.RootInjective | src/traust_ledger/_internal/integrity/merkle.py:51-65 | a root determines the entries, their order and their number |
| Merkle.VerifyInclusion | src/traust_ledger/_internal/integrity/merkle.py:85-119 | the two loops accept exactly the proofs that hash up the turns of the leaf to the root, at every index and size |
| Merkle.InclusionExact | src/traust_ledger/_internal/integrity/merkle.py:68-119 | completeness and position binding: acceptance if and only if the entry is the one at the index and the proof is the generated path |
| Merkle.InclusionProofLength | src/traust_ledger/_internal/integrity/merkle.py:74-82 | a path has at most ceil(log2 n) digests |
| Consistency.BitTestIsPow2 | src/traust_ledger/_internal/integrity/merkle.py:159-160 | `m & (m - 1) == 0` holds exactly for powers of two |
| Consistency.BitWalkFollowsTree | src/traust_ledger/_internal/integrity/merkle.py:164-184 | the walk on the bits of (m-1, n-1), lowest first, spells the path the recursion takes from the top |
| Consistency.RebuildIsFold | src/traust_ledger/_internal/integrity/merkle.py:158-186 | folding a proof from the seed upward equals rebuilding both roots from the top, including which lengths are refused (a tree the old root stands for whole has a power-of-two size) |
| Consistency.VerifyConsistency | src/traust_ledger/_internal/integrity/merkle.py:142-186 | the iterative verifier decides exactly what the recursion on the tree decides, for all sizes and proofs |
| Consistency.ConsistencyExact | src/traust_ledger/_internal/integrity/merkle.py:122-186 | completeness and soundness: against the root of a list only the generated proof is accepted, and then the old root is the root of the old prefix; size 0 leaves the old root unread |
| Consistency.ConsistencyProofLength | src/traust_ledger/_internal/integrity/merkle.py:142-186 | the length of an accepted proof is fixed by the two sizes |
| Restatements.MergeDelta | src/traust_ledger/_internal/restatements.py:47-61 | the item loop computes the per-key merge in which null deletes, whatever the order of items |
| Restatements.TerminalValue | src/traust_ledger/_internal/restatements.py:125-142 | the loop replays the whole chain; "never restated" is told apart from "restated to null" |
| Restatements.RetiredValuesOfKey | src/traust_ledger/_internal/restatements.py:64-82 | the loop collects the entries of every block for a key, in order |
| Restatements.RetiredEntriesExact | src/traust_ledger/_internal/restatements.py:64-82 | a value is retired for a key exactly when some block held it or set it |
| Restatements.RetiredWholeExact | src/traust_ledger/_internal/restatements.py:75-77 | a whole value is retired exactly when some block held it or set it |
| Restatements.ReplayStep | src/traust_ledger/_internal/restatements.py:125-142 | folding deltas from nothing agrees with merging them over stored state, through deletions in first and later blocks and wholesale replacement |
| UnwindRuns.UndoExact | src/traust_ledger/_internal/restatements.py:47-61 | merging `before` back over a fresh delta restores the prior null-free map if and only if the delta changes only what `before` names |
| Integrity.MerkleRootExact | src/traust_ledger/_internal/integrity/merkle.py:195-224 | two format-2 roots are equal if and only if the events are, in number, order and every field but `merkle_*` |
| Integrity.LegacyRootExact | src/traust_ledger/_internal/integrity/merkle.py:195-224 | two format-1 roots are equal if and only if the event ids are, and no format-1 root is a format-2 root of anything but the empty list |
| Integrity.StampThenVerify | src/traust_ledger/_internal/integrity/ledger.py:57-141 | after a stamp the verifier reports only restatement findings, and those are the ones from before |
| Integrity.StampIdempotent | src/traust_ledger/_internal/integrity/ledger.py:110-141 | stamping again changes nothing and drops no signature |
| Integrity.CleanDeterminesEvents | src/traust_ledger/_internal/integrity/ledger.py:313-465 | two event arrays clean under one metadata block are equal in number and in every field but `merkle_*`, and before the epoch in those too |
| Integrity.SignatureBindsLayer | src/traust_ledger/_internal/integrity/ledger.py:481-549 | two clean layers with one payload hold the same events, field by field up to `merkle_*` and before the epoch exactly, and the same bound digests |
| IntegrityReports.ReadableReport | src/traust_ledger/_internal/integrity/ledger.py:382-465 | on a readable tree each finding (legacy format, root, size, three checkpoint findings, drifted field) is reported exactly when the stored field is not what the events say, and no other is |
| IntegrityReports.UnreadableReport | src/traust_ledger/_internal/integrity/ledger.py:313-381 | otherwise the first of five reasons is the whole report |
| IntegrityReports.CleanExact | src/traust_ledger/_internal/integrity/ledger.py:313-465 | a layer is clean if and only if root, size, checkpoint and every restated field are what its events say under the current format |
| IntegrityReports.StampExact | src/traust_ledger/_internal/integrity/ledger.py:57-141 | when a stamp is refused, each field it writes, and that the signature fields go exactly when a recorded root moved |
| IntegrityReports.PayloadInjective | src/traust_ledger/_internal/integrity/ledger.py:481-549 | two payloads are equal if and only if root, format, epoch, size, checkpoint, audit report, claims and artifacts are, empty maps and absence being one |
| IntegrityReports.FinalizeExact | src/traust_ledger/_internal/layer_finalize.py:45-61 | finalizing succeeds if and only if the stamp does and a required signature is made, and then signs the stamped payload under format 4 |
| LayerProofs.InclusionBindsEvent | src/traust_ledger/_internal/integrity/merkle.py:85-119 | against the root a layer carries a proof is accepted for an event if and only if the event at that place equals it in every field but `merkle_*`, and the proof is the generated path |
| LayerProofs.ConsistencyBindsLayers | src/traust_ledger/_internal/integrity/merkle.py:142-186 | against the roots two layers carry a proof is accepted if and only if every event under the old tree stands at its place under the new one, equal in every field but `merkle_*`, and the proof is the generated one |
| LayerProofs.ConsistencyBindsLogs | src/traust_ledger/_internal/integrity/merkle.py:142-186 | between clean layers of one epoch and checkpoint an accepted proof makes every event of the old log stand in the new one, equal in every field but `merkle_*` |
| LayerProofs.RunsAreConsistent | src/traust_ledger/_internal/integrity/merkle.py:132-186 | between two signed points of any run with one epoch the generated consistency proof is accepted |
| Integrity.AppendMovesRoot | src/traust_ledger/_internal/integrity/ledger.py:118-139 | growing the log always moves the root, at every epoch |
| Integrity.FinalizeFreshness | src/traust_ledger/_internal/layer_finalize.py:45-61 | after an edit and finalize the signature is fresh if and only if it was re-signed, absent, the log grew, or no bound digest moved |
| Integrity.FinalizeCarries | src/traust_ledger/_internal/layer_finalize.py:45-61 | finalizing any layer at all: what is then signed was stamped over its events, and the signature is fresh if and only if it was just made or the carried one is dropped or covers |
| SignatureRuns.StepFreshnessExact | src/traust_ledger/_internal/integrity/ledger.py:118-139 | for every accepted write, patches of Merkle members included, a stored signature still covers the layer if and only if the write re-signs it or leaves it covered |
| SignatureRuns.SignatureFreshOverRuns | src/traust_ledger/_internal/integrity/ledger.py:197-204 | from an unsigned or freshly signed layer, over any run of any writes that keep it so, whatever the signer does at each step, a stored signature covers the current payload over a stamp of the current events |
| SignatureRuns.FreshThroughoutExact | src/traust_ledger/_internal/integrity/ledger.py:118-139 | the signature is good all through a run if and only if every accepted write keeps it so: the condition cannot be weakened |
| SignatureRuns.SignedRunsVerify | src/traust_ledger/_internal/integrity/ledger.py:313-465 | a layer left signed by any run of any writes, freshly or not, verifies clean but for restatement findings |
| SignatureRuns.TakenIdLeavesStaleSignature | src/traust_ledger/_internal/writer.py:213-229 | a concrete run in which a restatement with a taken id leaves a signature covering nothing |
| SignatureRuns.PatchLeavesStaleSignature | src/traust_ledger/client.py:310-334 | a concrete run in which a first write by patch does the same |
| SignatureRuns.PatchPlantsSignature | src/traust_ledger/client.py:310-334 | a concrete patch that writes the signature member itself and is accepted |
| Gates.RequireTwoPerson | src/traust_ledger/_internal/gates.py:347-413 | the loop refuses exactly: unparseable history, or execution proof together with an earlier verified refutation by the same person; only for false positives |
| Gates.TwoPersonOnEvents | src/traust_ledger/_internal/gates.py:382-413 | on a parsed layer the rule reads directly off the events |
| Requests.CountersignAnswered | src/traust_ledger/handlers/event_handler.py:175-242 | a countersign is refused exactly for the first of thirteen conditions on the request's strings, the actor and the stored events, each with its error: conflicting, missing and unknown decisions included |
| Requests.CountersignWrites | src/traust_ledger/_internal/events/builders.py:35-64 | accepted under a new id it appends one event with the request's reference, actor, rationale and time, the last fingerprint recorded for the reference, and the validity: false positive exactly when the decision, or the verdict when there is none, is `false_positive` or `override_false_positive`, else confirmed |
| Requests.RestateAnswered | src/traust_ledger/handlers/restatement_handler.py:64-99 | a restatement is refused exactly for the first of ten conditions, each with its error: in particular when a map `before` names a key that is not stored, or any other `before` meets a field that is null, empty text or an empty map |
| Requests.RestateWrites | src/traust_ledger/_internal/events/builders.py:94-132 | accepted it appends one event, field by field, unless its id is taken, changes the target entry by entry and leaves every other part of the layer |
| Requests.StrippedCharacters | src/traust_ledger/_internal/gates.py:123-134 | the blank characters are the 29 that `str.strip` removes |
| Writes.PrepareAnswered | src/traust_ledger/_internal/writer.py:407-461 | an event is refused for the first of three reasons, and is otherwise stored as it came under its canonical id, the fingerprint version filled in when it is missing |
| Writes.CanonicalIdExact | src/traust_ledger/_internal/events/_core.py:24-33 | two canonical ids are equal if and only if source reference, finding, validity and resolution are |
| Writes.EnqueueExact | src/traust_ledger/_internal/writer.py:357-374 | queueing appends exactly the first item of each new four-field key, in order, unchanged but for a missing status |
| Writes.ResolveAnswered | src/traust_ledger/_internal/writer.py:51-100 | closing an item: the refusals, and that nothing changes when no item is open |
| Writes.ResolveWrites | src/traust_ledger/_internal/writer.py:89-117 | the first open item is closed in place with status, note and actor; a confirmation is refused exactly when no event has the suggested reference |
| Writes.PatchAnswered | src/traust_ledger/client.py:310-334 | a patch is refused exactly when it changes a recorded entry of a signed map or a recorded signed value, or else nulls the epoch |
| Writes.PatchWrites | src/traust_ledger/client.py:310-334 | what a patch leaves in every field |
| Writes.DirectAnswered | src/traust_ledger/_internal/writer.py:197-252 | the writer's entry point is refused exactly when the event cannot be prepared or a recorded value is lost that the event does not explain |
| Writes.DirectWrites | src/traust_ledger/_internal/writer.py:197-252 | what it appends and leaves in every field |
| Writes.StepAnswered | src/traust_ledger/_internal/layer_finalize.py:15-61 | which writes insist on a key before they start, which are finalized, and when the schema's verdict decides |
| Writer.AppendManyExtends | src/traust_ledger/_internal/writer.py:378-395 | a batch extends the log by a suffix, and the ids returned are exactly that suffix's |
| Writer.AppendManyExact | src/traust_ledger/_internal/writer.py:378-395 | a batch is accepted if and only if every event in it can be prepared, duplicates too, and then adds the first event of each new id, in order |
| Writer.NovelExact | src/traust_ledger/_internal/writer.py:378-395 | what a batch adds is exactly the first submitted event of each id the log does not hold |
| Writer.AppendManyCovers | src/traust_ledger/_internal/writer.py:386-392 | every submitted id is in the log afterwards, and every new event is a submitted one, prepared |
| Writer.ResubmitAppendsNothing | src/traust_ledger/_internal/writer.py:320-324 | resubmitting an accepted batch appends nothing and returns no ids |
| Writer.EnqueueExtends | src/traust_ledger/_internal/writer.py:357-374 | queueing keeps every item and its place, keeps keys distinct, leaves each submitted key queued, and starts items submitted without a status as pending |
| Writer.FirstPending | src/traust_ledger/_internal/writer.py:89-100 | the first pending item with the key, or none |
| LogRuns.LogOverRuns | src/traust_ledger/_internal/writer.py:120-127 | over any run the log only grows, ids stay distinct, and every event obeys the writer's rules |
| LogRuns.ResolveChangesExactlyOne | src/traust_ledger/_internal/writer.py:51-117 | a successful resolve closes exactly one item, a pending one with the key; otherwise nothing changes |
| LogRuns.QueueOverRuns | src/traust_ledger/_internal/writer.py:65-83 | keys distinct, confirmed items backed by an event, rejected items with a reason: all through a run of any writes if and only if every write adds only such items |
| LogRuns.StatuslessRunIsSound | src/traust_ledger/_internal/writer.py:65-83 | when items are handed in without a status the queue is sound after any run of any writes |
| LogRuns.ClosedItemIsQueued | src/traust_ledger/_internal/writer.py:357-374 | a concrete batch whose item arrives already confirmed, with no event, and is queued as it is |
| LogRuns.QueueFollowsOverRuns | src/traust_ledger/_internal/writer.py:65-83 | over any run of any writes no item is moved or removed, and a closed one never changes again |
| LogRuns.RequeueIsDropped | src/traust_ledger/_internal/writer.py:357-370 | re-queueing a known key, closed or not, changes nothing |
| ReplayRuns.ReplayCleanOverRuns | src/traust_ledger/_internal/integrity/ledger.py:270-310 | over any run of any writes that keep the replay clean, the replay verifier reports nothing |
| ReplayRuns.HoldsExact | src/traust_ledger/_internal/integrity/ledger.py:270-310 | reading a chain backwards, key by key, decides exactly what replaying it forwards decides |
| ReplayRuns.UpholdsExact | src/traust_ledger/_internal/restatements.py:125-142 | any number of blocks appended without their effect keep the replay clean if and only if the field already holds what they say |
| ReplayRuns.UpholdsOne | src/traust_ledger/_internal/restatements.py:125-142 | one block appended without its effect: a replacement must equal the field, and each entry of a delta what is stored, nulls of a later block exempt |
| ReplayRuns.StepReplayExact | src/traust_ledger/_internal/writer.py:197-252 | for every accepted write of every kind, the replay stays clean if and only if: appended blocks say what is stored; a handler restatement has a new id or touches nothing the chain fixes; a patch brings nothing deleted back; a direct restatement as below |
| ReplayRuns.DirectReplayExact | src/traust_ledger/_internal/writer.py:197-252 | the writer's own entry point, field by field: a destructive write by an appended event always replays; any other must say what its block says and revive nothing; with a taken id it may only repeat the chain; another field may only be added to, with nothing deleted |
| RestatementRuns.GatedRunReplays | src/traust_ledger/handlers/restatement_handler.py:80-99 | when restatements enter through the handler alone, each under a new id, the replay verifier reports nothing after any run |
| ReplayRuns.CleanThroughoutExact | src/traust_ledger/_internal/integrity/ledger.py:270-310 | the replay is clean all through a run of any writes if and only if every accepted write keeps it clean |
| ReplayRuns.RestateReplayExact | src/traust_ledger/handlers/restatement_handler.py:80-99 | an accepted restatement keeps the replay clean if and only if its id is new or the chain is silent on every key it touches |
| RestatementWitnesses.TakenIdBreaksReplay | src/traust_ledger/_internal/writer.py:213-229 | a concrete run from a shell: a correction, an ordinary event holding the id of a second correction, and that correction, accepted with the replay broken |
| ReplayRuns.PatchReplayExact | src/traust_ledger/client.py:310-334 | an accepted patch keeps the replay clean if and only if it re-adds nothing a restatement deleted |
| RestatementWitnesses.PatchRevivesRetractedClaim | src/traust_ledger/client.py:310-334 | a concrete run from a shell: a retraction, then a patch that re-adds the claim, is accepted, and breaks the replay |
| RestatementWitnesses.PatchStoresNull | src/traust_ledger/client.py:310-334 | a concrete patch that stores a null entry, which no restatement would leave |
| RestatementWitnesses.UngatedRestatementDrifts | src/traust_ledger/_internal/writer.py:197-252 | a restatement by a machine with no ticket, accepted by append, by batch and by the writer's own entry point, unattributable and out of step with what is stored |
| RestatementRuns.NeverRestoresOverRuns | src/traust_ledger/_internal/gates.py:237-267 | over any run of any writes, no restatement sets a key or a field to anything an earlier one held or set if and only if every block that entered past the handler passes the monotonic gate |
| RestatementRuns.MonotonicGateExact | src/traust_ledger/_internal/gates.py:237-267 | the gate refuses exactly the blocks that restore something |
| RestatementRuns.GatedRunIsMonotonic | src/traust_ledger/handlers/restatement_handler.py:80-99 | when restatements enter through the handler alone, every added block passes the gate |
| RestatementWitnesses.UngatedRestatementRestores | src/traust_ledger/_internal/writer.py:397-405 | a concrete run in which an append past the handler restores a retired value |
| RestatementRuns.RestatementsAreBounded | src/traust_ledger/_internal/restatements.py:64-71 | with values from a finite set, however long a run of writes whose blocks pass the gate, at most that many restatements can touch a key or replace the field |
| RestatementRuns.RestatementsAreAuthored | src/traust_ledger/handlers/restatement_handler.py:64-78 | over any run of any writes, every restatement names a verified human, a ticket, a reason, a real change and what it replaces (entries of a map, or a value that is not empty) and carries no disposition, if and only if every one that entered past the handler does |
| RestatementRuns.StepAuthoredExact | src/traust_ledger/handlers/restatement_handler.py:64-78 | for every write the exact condition on the request: the handlers always attribute; an append or a direct write must be attributable or its id taken; a batch, the first event of each new id |
| RestatementRuns.GatedRunIsAuthored | src/traust_ledger/handlers/restatement_handler.py:64-78 | when restatements enter through the handler alone, every one in the log is attributable |
| RestatementRuns.FirstValueStep | src/traust_ledger/_internal/gates.py:186-208 | a field that holds nothing gets its first value only from a patch or the writer's own entry point, or from a handler restatement of an empty map whose `before` is an empty map |
| RestatementRuns.FirstValueOverRuns | src/traust_ledger/_internal/gates.py:186-208 | over any run of any writes the step that gave an empty field its first value exists and is one of those |
| RestatementWitnesses.FirstClaimIsAccepted | src/traust_ledger/_internal/gates.py:196-206 | a concrete restatement that gives an empty map its first entry through the handler |
| RestatementRuns.NoSilentOverwrite | src/traust_ledger/_internal/writer.py:233-252 | over any run of any writes, a recorded entry keeps its value or the log gained a restatement naming it, all through, if and only if every accepted write that meets it keeps or explains it |
| RestatementRuns.OverwriteExplainedExact | src/traust_ledger/_internal/writer.py:213-252 | for every accepted write, a recorded entry is kept or explained if and only if the write's event is appended or the value it writes still holds the entry |
| RestatementWitnesses.TakenIdOverwritesSilently | src/traust_ledger/_internal/writer.py:397-405 | a concrete run in which a claim changes and the log gains no restatement |
| UnwindRuns.LogUnwindsToPriorMap | src/traust_ledger/_internal/restatements.py:47-61 | over any run of any writes that each record what they change, unwinding the appended blocks gives back the starting map entry for entry |
| UnwindRuns.UndoneExact | src/traust_ledger/_internal/restatements.py:47-61 | any number of blocks added without effect, maps or not, leave the map recoverable if and only if the oldest to name each key records what is stored |
| UnwindRuns.UnwindableExact | src/traust_ledger/_internal/writer.py:197-252 | for every accepted write of every kind the exact condition, read off the request, under which its blocks take the map back to what it was |
| UnwindRuns.RecoverableThroughoutExact | src/traust_ledger/_internal/restatements.py:47-61 | every map a field ever held can be read back from every later one if and only if every accepted write of the run records what it changes |
| UnwindRuns.RestateUnwindsExact | src/traust_ledger/_internal/gates.py:186-234 | a handler restatement of a map can be unwound if and only if it changes only what `before` names, and nothing when its id is taken |
| RestatementWitnesses.PartialBeforeLosesPrior | src/traust_ledger/_internal/gates.py:186-234 | a concrete restatement that passes every gate and overwrites a claim its `before` does not name |
| TwoPersonRuns.CountersignCountExact | src/traust_ledger/handlers/event_handler.py:231-242 | the exact case in which a countersign raises a person's count above max(1, before) |
| TwoPersonRuns.StepBoundExact | src/traust_ledger/_internal/gates.py:347-413 | for every accepted write under execution proof, the exact condition on the request: an aliased second signature for a countersign, a second signature for an append, more than the first for a batch, never otherwise |
| TwoPersonRuns.TwoPersonOverRuns | src/traust_ledger/_internal/gates.py:347-413 | under execution proof and over any run of any writes, a person's count of verified false positives stays within max(1, the count at the start) if and only if every accepted write is within the bound |
| TwoPersonRuns.HumanLaneIsBounded | src/traust_ledger/_internal/gates.py:347-413 | once execution proof exists, no run of human-lane writes that are not aliased raises anyone's count above max(1, the count then) |
| TwoPersonRuns.BatchEscapesTwoPerson | src/traust_ledger/handlers/submit_handler.py:60-94 | a concrete batch that gives one person two signatures against execution proof |
| TwoPersonRuns.AliasEscapesTwoPerson | src/traust_ledger/_internal/gates.py:334-337 | a concrete run from a shell: a batch that shares one fingerprint, then a countersign under an aliased reference that escapes the gate |
| StableSort.FilterOfSort | src/traust_ledger/_internal/disposition.py:113-119 | the sort by instant is stable: it commutes with every selection |
| StableSort.LastOfSorted | src/traust_ledger/_internal/disposition.py:113-138 | the last of a sorted selection is the newest selected event, found without sorting |
| StableSort.LatestIsNewest | src/traust_ledger/_internal/disposition.py:85-96 | that event has the greatest instant and is the last appended among equals |
| DispositionEngine.ValidityRefinesSpec | src/traust_ledger/_internal/disposition.py:103-152 | on every input, ties included, validity equals an order-free specification |
| DispositionEngine.OverrideNeedsTwo | src/traust_ledger/_internal/disposition.py:136-152 | under a decisive confirmation, false positive exactly when two distinct identities hold verified human refutations strictly after it |
| DispositionEngine.FlagsExact | src/traust_ledger/_internal/disposition.py:140-150 | both override flags, both ways |
| DispositionEngine.ResolutionExact | src/traust_ledger/_internal/disposition.py:180-191 | verification report, then Jira, then the rest; newest within the tier; "open" otherwise |
| DispositionEngine.SeverityExact | src/traust_ledger/_internal/disposition.py:193-209 | the severity override is what the newest human severity event says: value, author, time and rationale |
| DispositionEngine.PermutationInvariant | src/traust_ledger/_internal/disposition.py:103-113 | at distinct instants the whole result is independent of append order |
| DispositionEngine.MachineNeverOutranks | src/traust_ledger/_internal/disposition.py:124-152 | a class-3 event inserted anywhere leaves validity and flags alone while a human or decisive event exists |
| DispositionEngine.ExecutionNeverRefutes | src/traust_ledger/_internal/disposition.py:136-140 | a class-1 false positive never changes validity |
| DispositionEngine.EvidenceAccumulates | src/traust_ledger/_internal/disposition.py:165-178 | inserting any event never lowers assurance and never clears the conflict flag |
| Verdicts.NewestOrNobody | src/traust_ledger/_internal/disposition.py:113-138 | for every selection somebody is the newest, by instant and then by position, or nobody qualifies: the next four rows cover every input |
| Verdicts.ProofDecides | src/traust_ledger/_internal/disposition.py:136-152 | by event fields: the newest execution event that is not demoted, not human and not a refutation decides, and a confirmation is overturned exactly by two identities refuting later, each human, ungraded and authenticated |
| Verdicts.HumanDecides | src/traust_ledger/_internal/disposition.py:124-126 | else the newest human word does, whatever machines say |
| Verdicts.MachineDecides | src/traust_ledger/_internal/disposition.py:126-132 | else the newest machine word, a refutation without auto-accept leaving the report's status |
| Verdicts.ReportDecides | src/traust_ledger/_internal/disposition.py:133-134 | else the report's own status stands |
| Verdicts.FlagsDecided | src/traust_ledger/_internal/disposition.py:140-150 | both override flags by event fields, both ways |
| Verdicts.AssuranceExact | src/traust_ledger/_internal/disposition.py:169-176 | assurance by event fields, both ways: execution-proven, else human-reviewed, else machine-verified, else claimed |
| Verdicts.ConflictExact | src/traust_ledger/_internal/disposition.py:165-178 | the conflict flag is raised exactly by a confirmation and a refutation among the events |
| Verdicts.SignoffExact | src/traust_ledger/_internal/disposition.py:154-167 | a sign-off is awaited exactly when a machine refuted without auto-accept, nobody confirmed, no human spoke and it did not take effect |
| Verdicts.ResolutionDecided | src/traust_ledger/_internal/disposition.py:180-191 | resolution by event fields: the newest verification report, else ticket, else other, else "open" |
| Verdicts.SeverityDecided | src/traust_ledger/_internal/disposition.py:193-209 | the newest ungraded human severity stands, with author, time and rationale |
| Verdicts.ListedInOrder | src/traust_ledger/_internal/disposition.py:195-201 | the listed ids are the events' own by instant, ties in append order, and the last update is the last listed event's |
| FindingReads.EventsOfExact | src/traust_ledger/api/findings.py:58-74 | an event counts for a finding exactly when it is not a restatement and the last rebaseline of its reference, else the stored table, maps it there under a confirmed alias, or leaves it there |
| FindingReads.FindingExact | src/traust_ledger/api/findings.py:83-113 | what is told of a finding: its derivation, event count, last fingerprint, and whether the pinned claims leave it out |
| FindingReads.SummaryExact | src/traust_ledger/api/findings.py:97-102 | each counter is the number of findings with that validity or resolution |
| FindingReads.ReportExact | src/traust_ledger/handlers/findings_handler.py:81-97 | a listed report carries the stored root, epoch and findings; an id that is not stored reads as an empty layer |
| Findings.GroupByFinding | src/traust_ledger/api/findings.py:61-74 | the grouping loop gives each resolved reference exactly its evidence, in order |
| Findings.ResolveLayerFindings | src/traust_ledger/api/findings.py:45-103 | group, sort, derive and count: the result is the listing of the layer and its two counters |
| Findings.FindingRefsExact | src/traust_ledger/api/findings.py:67-84 | the listing has one finding for every reference with evidence and no other, in order |
| Findings.FindingsExact | src/traust_ledger/api/findings.py:83-95 | the entry at each place is what the layer says of the finding at that place |
| Findings.CountedExact | src/traust_ledger/api/findings.py:97-102 | a counter holds how often each value occurs and no value that does not |
| Findings.FindingsIgnoreClock | src/traust_ledger/api/findings.py:45-56 | the clock never shows: what a layer says depends on the layer alone |
| Findings.RegroupExact | src/traust_ledger/api/findings.py:58-74 | two alias tables give a finding the same events if and only if every event resolves to it under both or neither |
| Findings.CountsAddUp | src/traust_ledger/api/findings.py:97-102 | the validity counters add up to the number of findings |
| Findings.RestatementsAreInvisible | src/traust_ledger/_internal/restatements.py:145-151 | a restatement anywhere in the log changes nothing any finding says |
| Authority.FalsePositiveNeedsAuthority | src/traust_ledger/_internal/disposition.py:124-152 | a false positive rests on a signed human refutation or an auto-accepted machine one; against proof, on two signed humans |
| Authority.AuthorityOverRuns | src/traust_ledger/_internal/writer.py:407-461 | the same, for every finding of every layer any run produces |
| Authority.EngineProofActivatesGate | src/traust_ledger/_internal/disposition.py:136-140 | when every event matches the reference, a decisive confirmation seen by the engine makes the write-side gate active |
| Authority.OnePersonCannotDismiss | src/traust_ledger/handlers/event_handler.py:175-242 | from a confirmed finding nobody else has refuted since its proof, through any run of one person's writes (countersigns aliased or not, batches, appends, restatements, patches) that re-point none of its evidence, the finding stays confirmed |
| Authority.EvidenceExact | src/traust_ledger/api/findings.py:58-74 | for every accepted write, a finding keeps its evidence and gains only what the write adds if and only if every recorded event resolves to it exactly when it did before |
| AuthorityWitnesses.AliasPatchDismisses | src/traust_ledger/client.py:310-334 | a concrete run in which one person patches the alias table, countersigns another reference, and a confirmed finding reads false positive |
| AuthorityWitnesses.AliasEventTakesProofAway | src/traust_ledger/_internal/events/_core.py:99-127 | a concrete alias event in one person's name that takes the proof away from a confirmed finding |
| LedgerLayers.LedgerLayer.StampMerkleMetadata | src/traust_ledger/_internal/integrity/ledger.py:57-141 | the in-place stamp leaves exactly the specified metadata and reports the dropped signature |
| LedgerLayers.LedgerLayer.SignIfConfigured | src/traust_ledger/_internal/integrity/ledger.py:182-247 | the in-place signing leaves exactly the specified metadata |
| LedgerLayers.LedgerLayer.FinalizeLayer | src/traust_ledger/_internal/layer_finalize.py:45-61 | stamp, then sign, then refuse when a signature is required |
| LedgerLayers.LedgerLayer.AppendOneEvent | src/traust_ledger/_internal/writer.py:397-405 | the idempotent single append |
| LedgerLayers.LedgerLayer.AppendManyEvents | src/traust_ledger/_internal/writer.py:378-395 | the batch loop with its growing id set |
| LedgerLayers.LedgerLayer.AppendNeedsReview | src/traust_ledger/_internal/writer.py:357-374 | the queue loop with its growing key set, and the count added |
| LedgerLayers.LedgerLayer.ResolveReviewItem | src/traust_ledger/_internal/writer.py:51-117 | the search and the in-place close |
| LedgerLayers.LedgerLayer.AppendRestatementEvent | src/traust_ledger/_internal/writer.py:213-252 | append, assign any updates, and refuse a signed change the event does not explain |
| LedgerLayers.LedgerLayer.PatchFields | src/traust_ledger/client.py:310-333 | merge signed fields and the alias table in place, write Merkle members, then refuse an overwrite of a signed value |
| LedgerLayers.LedgerLayer.CountersignFinding | src/traust_ledger/handlers/event_handler.py:181-242 | in place, the edit that `Requests` answers: the gates in order, then the append |
| LedgerLayers.LedgerLayer.RestateField | src/traust_ledger/handlers/restatement_handler.py:64-99 | in place, the edit that `Requests` answers: the gates in order, the delta over stored state, then the covered write |
| LedgerLayers.LayerStore.Mutate | src/traust_ledger/_internal/backends/db.py:143-155 | a write commits the specified layer or, on any error, leaves the stored one as it was |
| RowStore.ReconstructRoundTrip | src/traust_ledger/_internal/backends/records.py:129-246 | splitting a document into rows and reconstructing it is the identity, absent root keys included |
| RowStore.CatalogOverRuns | src/traust_ledger/_internal/backends/db.py:131-208 | over any run no layer disappears, no owner changes, owners stay distinct, and every history is extended only |
| StoredRuns.StepIsApplied | src/traust_ledger/_internal/backends/db.py:143-155 | the backend never refuses a handler's write for its history or its ids |
| StoredRuns.StoreFollowsRun | src/traust_ledger/_internal/backends/db.py:143-155 | over any run of handler steps the stored document is the layer the run computes |
| RowStore.DbBackend.Load | src/traust_ledger/_internal/backends/db.py:243-275 | loading the rows gives exactly the last committed document |
| RowStore.DbBackend.Persist | src/traust_ledger/_internal/backends/db.py:277-302 | history may only be extended; event rows are numbered 0..n-1 with their query columns; a violated constraint writes nothing |
| Columns.EventColumnsExact | src/traust_ledger/_internal/backends/records.py:96-118 | a query for a text in a column finds exactly the events whose field is that text: reference, fingerprint, version, resolution, grade; both times and the tier are the event's |
| Columns.SourceColumnsExact | src/traust_ledger/_internal/backends/records.py:96-118 | the same for source type and reference, actor kind and identity |
| Columns.ValidityColumnExact | src/traust_ledger/_internal/backends/records.py:96-118 | the same for validity, absent exactly when the event has none |
| Columns.LayerColumnsExact | src/traust_ledger/_internal/backends/records.py:169-185 | the layer columns repeat the Merkle and signature metadata |
| CatalogAnswers.InitializeExact | src/traust_ledger/_internal/backends/db.py:193-208 | a layer is created if and only if a registered owner with text and no layer is named, the id is free, and the document passes the schema with distinct ids present |
| CatalogAnswers.ImportExact | src/traust_ledger/_internal/backends/db.py:157-191 | exactly when an import is skipped, reported as insertable, or inserted |
| CatalogAnswers.StoreExact | src/traust_ledger/_internal/backends/db.py:131-141 | a document is replaced if and only if it is stored and the new one is valid and drops or rewrites no event |
| Columns.EscapedInjective | src/traust_ledger/_internal/backends/records.py:48-56 | the projection keeps different texts different |
| Columns.EscapedHoldsNoNul | src/traust_ledger/_internal/backends/records.py:48-56 | the projection leaves no NUL |
| RowStore.ColumnsFollowPayload | src/traust_ledger/_internal/backends/records.py:96-118 | whatever was written, the query columns of every row are those of its payload, so a query for a projected value finds exactly the rows that hold it |
| RowStore.DbBackend.Initialize | src/traust_ledger/_internal/backends/db.py:193-208 | create once, for a registered and free owner; refusals write nothing |
| RowStore.DbBackend.ImportLayer | src/traust_ledger/_internal/backends/db.py:157-191 | insert, skip an exact rerun, or dry-run without writing |
| RowStore.DbBackend.StoreDocument | src/traust_ledger/_internal/backends/db.py:131-141 | replace an initialized document without losing history |
| RowStore.DbBackend.MutateDocument | src/traust_ledger/_internal/backends/db.py:143-155 | edit under one transaction; a raising mutator changes nothing |
| RowStore.DbBackend.RequireUnowned | src/traust_ledger/_internal/backends/db.py:227-235 | true exactly when no stored layer has the owner |
| Pagination.ResolvePage | src/traust_ledger/handlers/findings_handler.py:64-108 | a page reports on the first `limit` qualifying layers after the cursor: id, root, epoch, findings and counters of each, and the number of findings |
| Pagination.QualifyingExact | src/traust_ledger/handlers/findings_handler.py:26-32 | a listed id qualifies exactly when no horizon is given, its recorded epoch reached it, or no epoch is recorded |
| Pagination.CursorResumes | src/traust_ledger/handlers/findings_handler.py:66-71 | the next cursor resumes right after the page, although `has_more` counts unfiltered ids |
| Pagination.Crawl | src/traust_ledger/handlers/findings_handler.py:46-108 | following cursors terminates and yields exactly the reports on the qualifying layers, each once, in order, and the totals add up |
| TextOrder.SortedSetOfSame | src/traust_ledger/_internal/identity.py:210-219 | the sorted path set depends on the set only |
| Fingerprint.LowestIsLeast | src/traust_ledger/_internal/identity.py:167-172 | the lowest entry of a list is the canonical text of one that ranks no higher than any other |
| Identities.PrimaryCweExact | src/traust_ledger/_internal/identity.py:135-172 | the primary CWE is the canonical text of a listed non-blank one, `cwe` standing in for an empty `cwes`, that no other ranks below by number and then text; `CWE-0` exactly for none or an empty text |
| Identities.FingerprintExact | src/traust_ledger/_internal/identity.py:210-233 | when canonical forms contain no separator, two findings share a fingerprint if and only if they share canonical repository, set of anchors, primary CWE and check |
| Identities.SeparatorCollides | src/traust_ledger/_internal/identity.py:229-232 | two concrete findings with different anchors and one fingerprint, because a path contains `;` |
| Identities.StrictExact | src/traust_ledger/_internal/identity.py:220-228 | strict mode refuses exactly the findings that anchor nowhere and moves no other fingerprint |
| Identities.AnchorExact | src/traust_ledger/_internal/identity.py:114-132 | an anchor is the canonical path, or the canonical resource when the path is nothing |
| Identities.FrozenRungExact | src/traust_ledger/_internal/identity.py:256-324 | versions 2 and 1 hash the sorted set of paths alone, version 1 keeping an empty one, with the first CWE listed |
| Identities.AttributionExact | src/traust_ledger/_internal/identity.py:309-353 | a stamp is attributed to the newest version that reproduces it under the first repository spelling for which any does; to none exactly when none does |
| Fingerprint.FingerprintIgnoresOrder | src/traust_ledger/_internal/identity.py:183-233 | permuting or repeating locations or CWEs, or adding an empty location, changes nothing |
| Fingerprint.Attribute | src/traust_ledger/_internal/identity.py:327-353 | skipping candidates already seen never changes the attribution |
| Fingerprint.NewestRungIsLive | src/traust_ledger/_internal/identity.py:262-284 | the newest rung mints exactly the live fingerprint |
| Fingerprint.LiveStampIsNewest | src/traust_ledger/_internal/identity.py:327-353 | a live stamp is attributed to the newest version |

## Left out

- SHA-256, JSON serialisation and JSON-schema validation: library code, modelled as free terms and arbitrary verdicts.
- The cosign and sigstore backends and `verify_merkle_signature`'s dispatch on old formats: a signature covers one payload.
- HTTP, OIDC, credential files, the command line, the file backend's locks and SQL triggers and grants.
- `canon_repo`, `canon_path`, ASCII folding and the CWE number pattern: arbitrary functions, so the fingerprint results hold for any.
- `append_event` and `append_events` without a finalizer: every modelled append is finalized, so the signature results say nothing about a log grown this way.
- The actor and fingerprint stamping of a submitted batch: `SubmitBatch` takes the events as stamped.
- Severity and birth events of `submit_event`: they append through the same writer path as `AppendEvent`.
- Metadata keys outside the model: a patch or a direct restatement may write any other key, which no modelled reader reads; `finding_aliases` is a map or null, as its reader needs.
- `stamp_event_identities`: it rewrites fingerprints of stored events, so the append-only results do not cover it.
- RowStore.DbBackend.Persist: leaves out the `repository` and `created_at` columns, whose metadata keys are not in the model, and a recorded time that does not parse.
- `projection.py`, `query.py`, `reports.py`, `historical_migration.py`, release and CI scripts: easier members beside the above.
