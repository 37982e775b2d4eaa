/** The write paths of the service as steps on one layer.  Every step runs under the layer
    lock and is atomic: it commits a whole new layer or leaves the stored one alone. */
module Handlers {
  import opened Wrappers
  import opened Events
  import opened Merkle
  import opened Layers
  import opened Restatements
  import opened Integrity
  import opened Gates
  import opened Writer

  const LAYER_SCOPE_REF := "__layer__"

  /** A countersign request with the resolved actor.  `rawMachine` and `rawDisposition` are
      what the client's own payload claimed; `now` is the server clock. */
  datatype CountersignRequest = CountersignRequest(
    findingRef: string,
    decision: string,
    verdict: string,
    rationale: string,
    recordedAt: Timestamp,
    actor: Actor,
    rawMachine: bool,
    rawDisposition: Disposition,
    now: int)

  /** `shortDigest` is the 12-hex-digit prefix of the block's digest. */
  datatype RestateRequest = RestateRequest(
    block: Block,
    findingRef: Option<string>,
    rationale: string,
    actor: Actor,
    recordedAt: Timestamp,
    shortDigest: string,
    now: int)

  /** The `merkle_*` members a metadata update writes.  None leaves a member alone and Some(None)
      is a null.  Size, algorithm, leaf format and checkpoint need no place: the stamp that
      follows overwrites them. */
  datatype MerkleUpdates = MerkleUpdates(
    epoch: Option<Option<int>>,
    root: Option<Option<Digest>>,
    signature: Option<Option<Signature>>,
    scheme: Option<Option<string>>,
    format: Option<Option<int>>)

  const NoMerkle := MerkleUpdates(None, None, None, None, None)

  /** Metadata updates as a caller hands them in: signature-bound fields, the alias table, and
      Merkle members.  Any of them may be written. */
  datatype Updates = Updates(
    fields: map<Target, Json>,
    aliases: Option<Option<map<string, Alias>>>,
    merkle: MerkleUpdates)

  /** One write.  `AppendEvent` and `RestateDirectly` are the writer's own entry points;
      the others are the handlers and the client. */
  datatype Step =
    | AppendEvent(event: Event, config: Config)
    | SubmitBatch(events: seq<Event>, items: seq<ReviewItem>, config: Config)
    | Countersign(countersign: CountersignRequest, config: Config)
    | Restate(restate: RestateRequest, config: Config)
    | RestateDirectly(event: Event, updates: Updates, config: Config)
    | PatchMetadata(updates: Updates, now: string, config: Config)
    | SignLayer(config: Config)
    | ResolveItem(key: ReviewKey, status: ReviewStatus, note: Option<string>, config: Config)

  // ---------- countersigning ----------

  function DecisionFromVerdict(verdict: string): string {
    if verdict == "false_positive" then "false_positive"
    else if verdict == "true_positive" then "keep_open"
    else verdict
  }

  function ResolveDecision(decision: string, verdict: string): Result<string, LedgerError> {
    if decision != "" && verdict != "" && decision != DecisionFromVerdict(verdict) then Err(DecisionConflict)
    else if decision == "" && verdict == "" then Err(MissingDecision)
    else
      var d := if decision != "" then decision else DecisionFromVerdict(verdict);
      if d == "keep_open" || d == "false_positive" || d == "override_false_positive" then Ok(d)
          else Err(UnknownDecision)
  }

  function ValidityForDecision(decision: string): Validity {
    if decision == "false_positive" || decision == "override_false_positive" then FalsePositive else Confirmed
  }

  function DatePrefix(t: Timestamp): string {
    if |t.text| > 10 then t.text[..10] else t.text
  }

  function BuildHumanEvent(
    findingRef: string, validity: Validity, rationale: string, actor: Actor, recordedAt: Timestamp): (event: Event)
  {
    var ref := "interactive:" + DatePrefix(recordedAt) + ":" + TextOrEmpty(actor.identity);
    Event(ComputeEventId(ref, findingRef, Some(validity), None), findingRef, None, None, recordedAt, Some(recordedAt),
          Source(Interactive, ref, actor), Disposition(Some(validity), None, None), None, false, rationale,
          None, None, map[])
  }

  /** The fingerprint last recorded for a finding reference, if any. */
  function KnownFingerprint(events: seq<Event>, findingRef: string): Option<string> {
    if events == [] then None
    else
      var last := events[|events| - 1];
      if last.findingRef == findingRef && findingRef != "" && TruthyText(last.fingerprint) then last.fingerprint
      else KnownFingerprint(events[..|events| - 1], findingRef)
  }

  function AttachIdentity(event: Event, events: seq<Event>): Event {
    var known := KnownFingerprint(events, event.findingRef);
    if TruthyText(event.fingerprint) || known.None? then event
    else event.(fingerprint := known, fingerprintAlgo := Some(ALGO_VERSION))
  }

  /** The checks that need only the request. */
  function CountersignPrecheck(req: CountersignRequest): Gate {
    if req.rawMachine && req.rawDisposition != EmptyDisposition then Some(MachineDisposition)
    else if !TruthyText(req.actor.identity) then Some(IdentityRequired)
    else if req.actor.kind == Machine then Some(MachineDisposition)
    else if req.findingRef == "" then Some(MissingFindingRef)
    else if |req.rationale| < RATIONALE_MIN_LENGTH then Some(RationaleTooShort)
    else if req.recordedAt.instant > req.now + TIMESTAMP_FUTURE_LIMIT_SECONDS then Some(TimestampFuture)
    else
      match ResolveDecision(req.decision, req.verdict)
      case Err(e) => Some(e)
      case Ok(decision) => RequireVerifiedForFalsePositive(req.actor, ValidityForDecision(decision))
  }

  function CountersignValidity(req: CountersignRequest): Validity
    requires CountersignPrecheck(req).None?
  {
    ValidityForDecision(ResolveDecision(req.decision, req.verdict).value)
  }

  function CountersignEvent(layer: Layer, req: CountersignRequest): Event
    requires CountersignPrecheck(req).None?
  {
    AttachIdentity(
      BuildHumanEvent(req.findingRef, CountersignValidity(req), req.rationale, req.actor, req.recordedAt),
      layer.events)
  }

  ghost function EditCountersign(layer: Layer, req: CountersignRequest): Result<Layer, LedgerError> {
    if CountersignPrecheck(req).Some? then Err(CountersignPrecheck(req).value)
    else if RequireValidEpoch(layer).Some? then Err(InvalidEpoch)
    else if !TwoPersonAllows(ParseAll(layer.events), req.findingRef, TextOrEmpty(req.actor.identity),
        CountersignValidity(req))
    then Err(TwoPersonViolated)
    else
      match AppendOne(layer.events, CountersignEvent(layer, req))
      case Err(e) => Err(e)
      case Ok((events, _)) => Ok(layer.(events := events))
  }

  // ---------- restating ----------

  function RestatePrecheck(req: RestateRequest): Gate {
    if RequireVerifiedHuman(req.actor).Some? then RequireVerifiedHuman(req.actor)
    else if |req.rationale| < RATIONALE_MIN_LENGTH then Some(RationaleTooShort)
    else if req.recordedAt.instant > req.now + TIMESTAMP_FUTURE_LIMIT_SECONDS then Some(TimestampFuture)
    else RequireAuthority(req.block)
  }

  function BuildRestatementEvent(req: RestateRequest): (event: Event) {
    var who := TextOrEmpty(req.actor.identity);
    var ref := "restatement:" + DatePrefix(req.recordedAt) + ":" + who + ":" + req.shortDigest;
    var findingRef := if TruthyText(req.findingRef) then req.findingRef.value else LAYER_SCOPE_REF;
    Event(ComputeEventId(ref, findingRef, None, None), findingRef, None, None, req.recordedAt, Some(req.recordedAt),
          Source(RestatementSource, ref, req.actor), EmptyDisposition, None, false, req.rationale,
          Some(req.block), None, map[])
  }

  /** The three gates that read the stored state, in the order they run. */
  function RestateGates(layer: Layer, block: Block): Gate {
    var actual := Field(layer.meta, block.target);
    if RequireValidEpoch(layer).Some? then RequireValidEpoch(layer)
    else if RequireSomethingToRestate(block, actual).Some? then RequireSomethingToRestate(block, actual)
    else if RequireFresh(block, actual).Some? then RequireFresh(block, actual)
    else RequireMonotonic(block, Chain(layer.events, block.target))
  }

  function EditRestate(layer: Layer, req: RestateRequest): Result<Layer, LedgerError> {
    if RestatePrecheck(req).Some? then Err(RestatePrecheck(req).value)
    else if RestateGates(layer, req.block).Some? then Err(RestateGates(layer, req.block).value)
    else
      var target := req.block.target;
      AppendRestatement(layer, BuildRestatementEvent(req),
                        map[target := Merge(Field(layer.meta, target), req.block.after)])
  }

  // ---------- patching ----------

  /** `dict.update` for two maps, assignment otherwise. */
  function PatchValue(current: Json, value: Json): Json {
    if value.Obj? && current.Obj? then Obj(current.entries + value.entries) else value
  }

  function PatchField(meta: Metadata, updates: map<Target, Json>, target: Target): Json {
    if target in updates then PatchValue(Field(meta, target), updates[target]) else Field(meta, target)
  }

  function FieldsPatched(meta: Metadata, updates: map<Target, Json>): Metadata {
    meta.(
      claimHashes := PatchField(meta, updates, ClaimHashes),
      auditReport := PatchField(meta, updates, AuditReport),
      artifactDigests := PatchField(meta, updates, ArtifactDigests))
  }

  /** `dict.update` on the table; a null empties it. */
  function PatchAliases(stored: map<string, Alias>, written: Option<Option<map<string, Alias>>>): map<string, Alias> {
    match written
    case None => stored
    case Some(None) => map[]
    case Some(Some(entries)) => stored + entries
  }

  function AssignAliases(stored: map<string, Alias>, written: Option<Option<map<string, Alias>>>): map<string, Alias> {
    match written
    case None => stored
    case Some(None) => map[]
    case Some(Some(entries)) => entries
  }

  function Overlay<T>(written: Option<Option<T>>, stored: Option<T>): Option<T> {
    if written.Some? then written.value else stored
  }

  function MerkleWritten(meta: Metadata, written: MerkleUpdates): Metadata {
    meta.(
      merkleEpoch := Overlay(written.epoch, meta.merkleEpoch),
      merkleRoot := Overlay(written.root, meta.merkleRoot),
      rootSignature := Overlay(written.signature, meta.rootSignature),
      signingMethod := Overlay(written.scheme, meta.signingMethod),
      signatureFormat := Overlay(written.format, meta.signatureFormat))
  }

  function Patched(meta: Metadata, updates: Updates, now: string): Metadata {
    MerkleWritten(FieldsPatched(meta, updates.fields), updates.merkle).(
      findingAliases := PatchAliases(meta.findingAliases, updates.aliases),
      updated := Some(now))
  }

  /** Only an overwrite of a signature-bound field is refused; a null epoch then fails to
      parse when the layer is stamped. */
  function EditPatch(layer: Layer, updates: Updates, now: string): Result<Layer, LedgerError> {
    var meta := Patched(layer.meta, updates, now);
    if exists t: Target :: Destructive(Field(layer.meta, t), Field(meta, t)) then Err(SignedValueOverwritten)
    else if updates.merkle.epoch == Some(None) then Err(EpochUnreadable)
    else Ok(layer.(meta := meta))
  }

  // ---------- the writer's own restatement entry point ----------

  /** Updates are assigned, nulls remove; only signature-bound fields are checked for coverage. */
  function EditDirect(layer: Layer, event: Event, updates: Updates): Result<Layer, LedgerError> {
    match AppendRestatement(layer, event, updates.fields)
    case Err(e) => Err(e)
    case Ok(edited) =>
      Ok(edited.(meta := MerkleWritten(edited.meta, updates.merkle).(
           findingAliases := AssignAliases(edited.meta.findingAliases, updates.aliases))))
  }

  // ---------- one step ----------

  function EditBatch(layer: Layer, events: seq<Event>, items: seq<ReviewItem>): Result<Layer, LedgerError> {
    match AppendMany(layer.events, events)
    case Err(e) => Err(e)
    case Ok((all, _)) => Ok(layer.(events := all, queue := Enqueue(layer.queue, items)))
  }

  /** The gated edit of a step, before finalization. */
  ghost function Edit(layer: Layer, step: Step): Result<Layer, LedgerError> {
    match step
    case AppendEvent(event, _) =>
      (match AppendOne(layer.events, event)
       case Err(e) => Err(e)
       case Ok((events, _)) => Ok(layer.(events := events)))
    case SubmitBatch(events, items, _) => EditBatch(layer, events, items)
    case Countersign(req, _) => EditCountersign(layer, req)
    case Restate(req, _) => EditRestate(layer, req)
    case RestateDirectly(event, updates, _) => EditDirect(layer, event, updates)
    case PatchMetadata(updates, now, _) => EditPatch(layer, updates, now)
    case SignLayer(_) => Ok(layer)
    case ResolveItem(key, status, note, _) =>
      (match Resolve(layer, key, status, note, None)
       case Err(e) => Err(e)
       case Ok((queue, _)) => Ok(layer.(queue := queue)))
  }

  /** The handlers that insist on a provisioned key before they start. */
  predicate ChecksKeyFirst(step: Step) {
    step.SubmitBatch? || step.Countersign? || step.Restate? || step.ResolveItem?
  }

  /** Queue-only writes sit outside the Merkle tree and are not finalized. */
  predicate Finalizes(step: Step) {
    !step.ResolveItem? && !(step.SubmitBatch? && step.events == [])
  }

  ghost function Apply(layer: Layer, step: Step): Result<Layer, LedgerError> {
    if ChecksKeyFirst(step) && step.config.signingRequired && !step.config.keyProvisioned then Err(SigningRequired)
    else
      match Edit(layer, step)
      case Err(e) => Err(e)
      case Ok(edited) =>
        var finished := if Finalizes(step) then Finalize(edited, step.config) else Ok(edited);
        if finished.Ok? && !step.config.schemaAccepts then Err(SchemaViolation) else finished
  }

  /** The stored layer after a step: committed, or left as it was. */
  ghost function Next(layer: Layer, step: Step): Layer {
    match Apply(layer, step)
    case Ok(committed) => committed
    case Err(_) => layer
  }

  ghost function Run(layer: Layer, steps: seq<Step>): Layer {
    if steps == [] then layer else Next(Run(layer, steps[..|steps| - 1]), steps[|steps| - 1])
  }

  /** Finalization touches Merkle and signature fields only. */
  lemma FinalizeKeeps(layer: Layer, config: Config)
    requires Finalize(layer, config).Ok?
    ensures
      var done := Finalize(layer, config).value;
      && done.events == layer.events && done.queue == layer.queue
      && done.meta.findingAliases == layer.meta.findingAliases
      && (forall t: Target :: Field(done.meta, t) == Field(layer.meta, t))
  {
  }

  /** The two writes that take metadata updates from their caller. */
  predicate TakesUpdates(step: Step) {
    step.PatchMetadata? || step.RestateDirectly?
  }

  predicate WritesMerkle(step: Step) {
    TakesUpdates(step) && step.updates.merkle != NoMerkle
  }

  /** Every edit extends the log.  Only the two writes that take updates can touch a Merkle
      member before finalization, or the alias table. */
  lemma EditShape(layer: Layer, step: Step)
    requires Edit(layer, step).Ok?
    ensures
      var edited := Edit(layer, step).value;
      && layer.events <= edited.events
      && (!WritesMerkle(step) ==> SameMerkleFields(layer.meta, edited.meta))
      && (!TakesUpdates(step) ==> edited.meta.findingAliases == layer.meta.findingAliases)
      && (!Finalizes(step) ==> edited.events == layer.events && edited.meta == layer.meta)
  {
    match step {
      case SubmitBatch(events, _, _) => AppendManyExtends(layer.events, events);
      case _ =>
    }
  }

  /** An accepted step is its edit, finalized. */
  lemma ApplyIsEdit(layer: Layer, step: Step)
    requires Apply(layer, step).Ok?
    ensures Edit(layer, step).Ok?
    ensures
      var edited, done := Edit(layer, step).value, Apply(layer, step).value;
      && done.events == edited.events && done.queue == edited.queue
      && layer.events <= done.events
      && done.meta.findingAliases == edited.meta.findingAliases
      && (forall t: Target :: Field(done.meta, t) == Field(edited.meta, t))
  {
    EditShape(layer, step);
    if Finalizes(step) {
      FinalizeKeeps(Edit(layer, step).value, step.config);
    }
  }

  // ---------- what a step appends ----------

  function AddedOne(events: seq<Event>, event: Event): seq<Event> {
    if CanonicalId(event) in IdsOf(events) then [] else [AsStored(event)]
  }

  /** The events a write adds to the log, read off the request. */
  ghost function Added(layer: Layer, step: Step): seq<Event>
    requires Edit(layer, step).Ok?
  {
    match step
    case AppendEvent(event, _) => AddedOne(layer.events, event)
    case SubmitBatch(events, _, _) => Novel(IdsOf(layer.events), events)
    case Countersign(req, _) => AddedOne(layer.events, CountersignEvent(layer, req))
    case Restate(req, _) => AddedOne(layer.events, BuildRestatementEvent(req))
    case RestateDirectly(event, _, _) => AddedOne(layer.events, event)
    case _ => []
  }

  lemma AppendOneAdds(events: seq<Event>, event: Event)
    requires AppendOne(events, event).Ok?
    ensures AppendOne(events, event).value.0 == events + AddedOne(events, event)
  {
  }

  lemma EditAdds(layer: Layer, step: Step)
    requires Edit(layer, step).Ok?
    ensures Edit(layer, step).value.events == layer.events + Added(layer, step)
  {
    match step {
      case AppendEvent(event, _) => AppendOneAdds(layer.events, event);
      case SubmitBatch(events, _, _) => AppendManyExact(layer.events, events);
      case Countersign(req, _) => AppendOneAdds(layer.events, CountersignEvent(layer, req));
      case Restate(req, _) => AppendOneAdds(layer.events, BuildRestatementEvent(req));
      case RestateDirectly(event, _, _) => AppendOneAdds(layer.events, event);
      case _ =>
    }
  }
}
