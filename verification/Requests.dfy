/** The two human-lane requests, answered completely: which request is refused and why, and what an
    accepted one writes.  Everything is said of the request's own strings and the stored fields. */
module Requests {
  import opened Wrappers
  import opened Events
  import opened Layers
  import opened Restatements
  import opened Gates
  import opened Writer
  import opened Handlers
  import opened Samples

  // ---------- what both read ----------

  /** The directory is asked only about an actor no mechanism has ruled on. */
  predicate Trusted(actor: Actor) {
    || actor.identityVerified == Some(true)
    || (actor.identityVerified.None? && actor.employeeStatus == Some("active"))
    || (actor.identityVerified.None? && actor.employeeStatus.None? && actor.ldapVerified == Some(true))
  }

  /** What the writer itself asks of a human false positive: the directory does not count. */
  predicate Authenticated(actor: Actor) {
    actor.identityVerified == Some(true) || (actor.identityVerified.None? && actor.ldapVerified == Some(true))
  }

  predicate EpochReadable(layer: Layer) {
    layer.events == [] || (layer.meta.merkleEpoch.Some? && 0 <= layer.meta.merkleEpoch.value <= |layer.events|)
  }

  function FirstTen(text: string): string {
    if |text| <= 10 then text else text[..10]
  }

  ghost predicate Known(events: seq<Event>, id: EventId) {
    exists i :: 0 <= i < |events| && events[i].eventId == id
  }

  /** The characters Python strips, one by one. */
  lemma StrippedCharacters(c: char)
    ensures IsSpace(c) <==>
      c in {'\U{9}', '\U{A}', '\U{B}', '\U{C}', '\U{D}', '\U{1C}', '\U{1D}', '\U{1E}', '\U{1F}', '\U{20}', '\U{85}',
            '\U{A0}', '\U{1680}', '\U{2000}', '\U{2001}', '\U{2002}', '\U{2003}', '\U{2004}', '\U{2005}', '\U{2006}',
            '\U{2007}', '\U{2008}', '\U{2009}', '\U{200A}', '\U{2028}', '\U{2029}', '\U{202F}', '\U{205F}', '\U{3000}'}
  {
    assert c as int as char == c;
  }

  // ---------- countersigning ----------

  /** What the request decides; a verdict of `true_positive` keeps the finding open. */
  function Decided(req: CountersignRequest): string {
    if req.decision != "" then req.decision
    else if req.verdict == "true_positive" then "keep_open"
    else req.verdict
  }

  predicate Dismisses(req: CountersignRequest) {
    Decided(req) == "false_positive" || Decided(req) == "override_false_positive"
  }

  /** Both were given, and they differ. */
  predicate SelfContradictory(req: CountersignRequest) {
    && req.decision != "" && req.verdict != ""
    && !(req.decision == req.verdict && req.verdict != "true_positive")
    && !(req.decision == "keep_open" && req.verdict == "true_positive")
  }

  /** Events about this finding: by its reference, or by a fingerprint that is the reference. */
  predicate About(e: Event, findingRef: string) {
    e.findingRef == findingRef || (e.fingerprint == Some(findingRef) && findingRef != "")
  }

  /** Execution proved the finding and this person has already called it false. */
  ghost predicate NeedsAnother(layer: Layer, req: CountersignRequest) {
    && (exists e :: e in layer.events && About(e, req.findingRef)
                 && (e.source.kind == ValidationReport || e.source.kind == VerificationReport)
                 && e.disposition.validity == Some(Confirmed))
    && (exists e :: e in layer.events && About(e, req.findingRef)
                 && e.disposition.validity == Some(FalsePositive)
                 && e.source.actor.kind == Human && e.source.actor.identity == req.actor.identity
                 && Authenticated(e.source.actor))
  }

  /** The first reason to refuse, in the order the checks run. */
  ghost function CountersignRefusal(layer: Layer, req: CountersignRequest): Option<LedgerError> {
    if req.rawMachine && req.rawDisposition != Disposition(None, None, None) then Some(MachineDisposition)
    else if req.actor.identity.None? || req.actor.identity == Some("") then Some(IdentityRequired)
    else if req.actor.kind == Machine then Some(MachineDisposition)
    else if req.findingRef == "" then Some(MissingFindingRef)
    else if |req.rationale| < 10 then Some(RationaleTooShort)
    else if req.recordedAt.instant - req.now > 86400 then Some(TimestampFuture)
    else if SelfContradictory(req) then Some(DecisionConflict)
    else if req.decision == "" && req.verdict == "" then Some(MissingDecision)
    else if Decided(req) != "keep_open" && !Dismisses(req) then Some(UnknownDecision)
    else if Dismisses(req) && req.actor.kind == Human && !Trusted(req.actor) then Some(IdentityUnverified)
    else if !EpochReadable(layer) then Some(InvalidEpoch)
    else if Dismisses(req) && NeedsAnother(layer, req) then Some(TwoPersonViolated)
    else if Dismisses(req) && req.actor.kind == Human && !Authenticated(req.actor) then Some(IdentityUnverified)
    else None
  }

  /** The fingerprint the event takes: the one last recorded under its reference. */
  ghost predicate CarriesFingerprint(events: seq<Event>, event: Event) {
    || (&& (forall i :: 0 <= i < |events| && events[i].findingRef == event.findingRef ==>
              events[i].fingerprint.None? || events[i].fingerprint == Some(""))
        && event.fingerprint.None? && event.fingerprintAlgo.None?)
    || exists i :: && 0 <= i < |events| && LastWithFingerprint(events, event.findingRef, i)
                   && event.fingerprint == events[i].fingerprint && event.fingerprintAlgo == Some("v3")
  }

  predicate LastWithFingerprint(events: seq<Event>, findingRef: string, i: nat)
    requires i < |events|
  {
    && events[i].findingRef == findingRef
    && events[i].fingerprint.Some? && events[i].fingerprint != Some("")
    && forall j :: i < j < |events| && events[j].findingRef == findingRef ==>
         events[j].fingerprint.None? || events[j].fingerprint == Some("")
  }

  /** The event a countersign request stands for, field by field. */
  ghost predicate Countersigns(layer: Layer, req: CountersignRequest, event: Event) {
    var ref := "interactive:" + FirstTen(req.recordedAt.text) + ":" + TextOrEmpty(req.actor.identity);
    var says := if Dismisses(req) then "false_positive" else "confirmed";
    && event.eventId == Sha256Hex(ref + "|" + req.findingRef + "|" + says + "|")
    && event.findingRef == req.findingRef
    && CarriesFingerprint(layer.events, event)
    && event.recordedAt == req.recordedAt && event.occurredAt == Some(req.recordedAt)
    && event.source == Source(Interactive, ref, req.actor)
    && event.disposition.validity == Some(if Dismisses(req) then FalsePositive else Confirmed)
    && event.disposition.resolution.None? && event.disposition.severity.None?
    && event.evidenceGrade.None? && !event.autoAcceptTier && event.rationale == req.rationale
    && event.restatement.None? && event.alias.None? && event.merkleFields == map[]
  }

  lemma {:induction false} KnownFingerprintExact(events: seq<Event>, event: Event)
    requires event.findingRef != ""
    requires event.fingerprint == KnownFingerprint(events, event.findingRef)
    requires event.fingerprintAlgo == if event.fingerprint.Some? then Some("v3") else None
    ensures CarriesFingerprint(events, event)
  {
    if events != [] {
      var init, last := events[..|events| - 1], events[|events| - 1];
      var i := |events| - 1;
      if last.findingRef == event.findingRef && TruthyText(last.fingerprint) {
        assert LastWithFingerprint(events, event.findingRef, i);
      } else {
        KnownFingerprintExact(init, event);
        FingerprintKept(init, last, event);
        assert events == init + [last];
      }
    }
  }

  lemma FingerprintKept(init: seq<Event>, last: Event, event: Event)
    requires CarriesFingerprint(init, event)
    requires last.findingRef != event.findingRef || !TruthyText(last.fingerprint)
    ensures CarriesFingerprint(init + [last], event)
  {
    var events := init + [last];
    if i :| && 0 <= i < |init| && LastWithFingerprint(init, event.findingRef, i)
            && event.fingerprint == init[i].fingerprint && event.fingerprintAlgo == Some("v3")
    {
      assert LastWithFingerprint(events, event.findingRef, i);
    }
  }

  /** The prechecks are the first ten reasons. */
  lemma CountersignPrechecked(req: CountersignRequest)
    ensures CountersignPrecheck(req).None? ==>
      CountersignValidity(req) == if Dismisses(req) then FalsePositive else Confirmed
  {
  }

  lemma RuleReadsFields(layer: Layer, req: CountersignRequest)
    requires req.actor.identity.Some? && req.actor.identity != Some("")
    ensures TwoPersonAllows(ParseAll(layer.events), req.findingRef, TextOrEmpty(req.actor.identity), FalsePositive)
       <==> !NeedsAnother(layer, req)
    ensures TwoPersonAllows(ParseAll(layer.events), req.findingRef, TextOrEmpty(req.actor.identity), Confirmed)
  {
    TwoPersonOnEvents(layer.events, req.findingRef, TextOrEmpty(req.actor.identity));
    assert forall e :: MatchesFinding(e, req.findingRef) <==> About(e, req.findingRef);
  }

  lemma CountersignPrepares(layer: Layer, req: CountersignRequest)
    requires CountersignPrecheck(req).None?
    ensures
      var event := CountersignEvent(layer, req);
      Prepare(event) ==
        if Dismisses(req) && req.actor.kind == Human && !Authenticated(req.actor) then Err(IdentityUnverified)
        else Ok(event)
  {
    CountersignPrechecked(req);
  }

  lemma PrecheckIsRefusal(layer: Layer, req: CountersignRequest)
    requires CountersignPrecheck(req).Some?
    ensures CountersignPrecheck(req) == CountersignRefusal(layer, req)
  {
  }

  lemma PrecheckedRefusal(layer: Layer, req: CountersignRequest)
    requires CountersignPrecheck(req).None?
    ensures req.actor.identity.Some? && req.actor.identity != Some("")
    ensures CountersignRefusal(layer, req) ==
      if !EpochReadable(layer) then Some(InvalidEpoch)
      else if Dismisses(req) && NeedsAnother(layer, req) then Some(TwoPersonViolated)
      else if Dismisses(req) && req.actor.kind == Human && !Authenticated(req.actor) then Some(IdentityUnverified)
      else None
  {
  }

  lemma EditPrechecked(layer: Layer, req: CountersignRequest, event: Event)
    requires CountersignPrecheck(req).None? && event == CountersignEvent(layer, req)
    ensures EditCountersign(layer, req) ==
      if !EpochReadable(layer) then Err(InvalidEpoch)
      else if !TwoPersonAllows(ParseAll(layer.events), req.findingRef, TextOrEmpty(req.actor.identity),
          CountersignValidity(req))
      then Err(TwoPersonViolated)
      else if Prepare(event).Err? then Err(Prepare(event).error)
      else Ok(layer.(events := layer.events + AddedOne(layer.events, event)))
  {
    if Prepare(event).Ok? {
      AppendOneAdds(layer.events, event);
    }
  }

  /** A countersign request is refused for exactly one reason, the first that applies. */
  lemma CountersignAnswered(layer: Layer, req: CountersignRequest)
    ensures EditCountersign(layer, req).Ok? <==> CountersignRefusal(layer, req).None?
    ensures EditCountersign(layer, req).Err? ==>
      Some(EditCountersign(layer, req).error) == CountersignRefusal(layer, req)
  {
    if CountersignPrecheck(req).None? {
      CountersignPrechecked(req);
      PrecheckedRefusal(layer, req);
      EditPrechecked(layer, req, CountersignEvent(layer, req));
      RuleReadsFields(layer, req);
      CountersignPrepares(layer, req);
    } else {
      PrecheckIsRefusal(layer, req);
    }
  }

  lemma CountersignEventExact(layer: Layer, req: CountersignRequest)
    requires CountersignPrecheck(req).None?
    ensures Countersigns(layer, req, CountersignEvent(layer, req))
  {
    CountersignPrechecked(req);
    KnownFingerprintExact(layer.events, CountersignEvent(layer, req));
  }

  /** An accepted countersign appends the event the request stands for, unless its id is already
      there; metadata and queue stay. */
  lemma CountersignWrites(layer: Layer, req: CountersignRequest) returns (event: Event)
    requires EditCountersign(layer, req).Ok?
    ensures Countersigns(layer, req, event)
    ensures
      var edited := EditCountersign(layer, req).value;
      && edited.events == (if Known(layer.events, event.eventId) then layer.events else layer.events + [event])
      && edited.meta == layer.meta && edited.queue == layer.queue
  {
    event := CountersignEvent(layer, req);
    CountersignEventExact(layer, req);
    CountersignPrepares(layer, req);
    KnownIds(layer.events, event.eventId);
  }

  lemma KnownIds(events: seq<Event>, id: EventId)
    ensures id in IdsOf(events) <==> Known(events, id)
  {
    if id in IdsOf(events) {
      var e :| e in events && e.eventId == id;
      var i :| 0 <= i < |events| && events[i] == e;
    }
  }

  // ---------- restating ----------

  /** What the stored field must hold before there is anything to restate: every key of a map
      `before`, and for any other `before` a value at all. */
  predicate SomethingRecorded(before: Json, held: Json) {
    if before.Obj? then held.Obj? && forall key :: key in before.entries ==> key in held.entries
    else held != Null && held != Str("") && held != Obj(map[])
  }

  /** `before` is what the field holds: key by key for a map, outright otherwise. */
  predicate StillHeld(before: Json, held: Json) {
    if before.Obj? && held.Obj? then
      forall key :: key in before.entries ==>
        before.entries[key] == if key in held.entries then held.entries[key] else None
    else before == held
  }

  predicate EntryIs(value: Json, key: string, entry: Option<string>) {
    value.Obj? && key in value.entries && value.entries[key] == entry
  }

  ghost predicate Restated(events: seq<Event>, block: Block) {
    exists i :: 0 <= i < |events| && events[i].source.kind == RestatementSource && events[i].restatement == Some(block)
  }

  /** Some recorded restatement of the field already replaced or set what this one would set. */
  ghost predicate Retired(events: seq<Event>, target: Target, after: Json) {
    if after.Obj? then
      exists key, block: Block :: && key in after.entries && block.target == target && Restated(events, block)
                           && (EntryIs(block.before, key, after.entries[key])
                               || EntryIs(block.after, key, after.entries[key]))
    else
      exists block: Block :: && block.target == target && Restated(events, block)
                      && (block.before == after || block.after == after)
  }

  ghost function RestateRefusal(layer: Layer, req: RestateRequest): Option<LedgerError> {
    var block := req.block;
    var held := match block.target
      case ClaimHashes => layer.meta.claimHashes
      case AuditReport => layer.meta.auditReport
      case ArtifactDigests => layer.meta.artifactDigests;
    if req.actor.kind != Human || req.actor.identity.None? || !HasText(req.actor.identity.value)
    then Some(IdentityRequired)
    else if !Trusted(req.actor) then Some(IdentityUnverified)
    else if |req.rationale| < 10 then Some(RationaleTooShort)
    else if req.recordedAt.instant - req.now > 86400 then Some(TimestampFuture)
    else if !HasText(block.ticket) then Some(NoTicket)
    else if block.before == block.after then Some(ChangesNothing)
    else if !EpochReadable(layer) then Some(InvalidEpoch)
    else if !SomethingRecorded(block.before, held) then Some(NothingToRestate)
    else if !StillHeld(block.before, held) then Some(StaleRestatement)
    else if Retired(layer.events, block.target, block.after) then Some(RetiredValueRestated)
    else None
  }

  lemma {:induction false} ChainExact(events: seq<Event>, target: Target, block: Block)
    ensures block in Chain(events, target) <==> block.target == target && Restated(events, block)
  {
    if events != [] {
      var init, last := events[..|events| - 1], events[|events| - 1];
      ChainExact(init, target, block);
      if i :| 0 <= i < |events| && events[i].source.kind == RestatementSource && events[i].restatement == Some(block) {
        if i < |init| {
          assert init[i] == events[i];
        }
      }
      if i :| 0 <= i < |init| && init[i].source.kind == RestatementSource && init[i].restatement == Some(block) {
        assert events[i] == init[i];
      }
    }
  }

  lemma BlockEntriesExact(block: Block, key: string, entry: Option<string>)
    ensures entry in BlockEntries(block, key) <==> EntryIs(block.before, key, entry) || EntryIs(block.after, key, entry)
  {
  }

  lemma RetiredEntryExact(events: seq<Event>, target: Target, key: string, entry: Option<string>)
    ensures entry in RetiredEntries(Chain(events, target), key)
       <==> exists block: Block :: && block.target == target && Restated(events, block)
                            && (EntryIs(block.before, key, entry) || EntryIs(block.after, key, entry))
  {
    var chain := Chain(events, target);
    RetiredEntriesExact(chain, key, entry);
    if i :| 0 <= i < |chain| && entry in BlockEntries(chain[i], key) {
      ChainExact(events, target, chain[i]);
      BlockEntriesExact(chain[i], key, entry);
    }
    if block: Block :| && block.target == target && Restated(events, block)
                       && (EntryIs(block.before, key, entry) || EntryIs(block.after, key, entry))
    {
      ChainExact(events, target, block);
      BlockEntriesExact(block, key, entry);
      var i :| 0 <= i < |chain| && chain[i] == block;
    }
  }

  lemma RetiredValueExact(events: seq<Event>, target: Target, value: Json)
    ensures value in RetiredWhole(Chain(events, target))
       <==> exists block: Block :: && block.target == target && Restated(events, block)
                            && (block.before == value || block.after == value)
  {
    var chain := Chain(events, target);
    RetiredWholeExact(chain, value);
    if i :| 0 <= i < |chain| && (value == chain[i].before || value == chain[i].after) {
      ChainExact(events, target, chain[i]);
    }
    if block: Block :| && block.target == target && Restated(events, block)
                       && (block.before == value || block.after == value)
    {
      ChainExact(events, target, block);
      var i :| 0 <= i < |chain| && chain[i] == block;
    }
  }

  lemma MonotonicExact(events: seq<Event>, block: Block)
    ensures RequireMonotonic(block, Chain(events, block.target)).None? <==> !Retired(events, block.target, block.after)
  {
    var chain, after := Chain(events, block.target), block.after;
    if after.Obj? {
      forall key | key in after.entries
        ensures after.entries[key] in RetiredEntries(chain, key)
           <==> exists b: Block :: && b.target == block.target && Restated(events, b)
                                   && (EntryIs(b.before, key, after.entries[key])
                                       || EntryIs(b.after, key, after.entries[key]))
      {
        RetiredEntryExact(events, block.target, key, after.entries[key]);
      }
    } else {
      RetiredValueExact(events, block.target, after);
    }
  }

  lemma RestatePrecheckExact(layer: Layer, req: RestateRequest)
    ensures RestatePrecheck(req).Some? ==> RestatePrecheck(req) == RestateRefusal(layer, req)
    ensures RestatePrecheck(req).None? ==>
      && req.actor.kind == Human && req.actor.identity.Some? && HasText(req.actor.identity.value) && Trusted(req.actor)
      && |req.rationale| >= 10 && req.recordedAt.instant - req.now <= 86400
      && HasText(req.block.ticket) && req.block.before != req.block.after
  {
    assert Blank(req.block.ticket) <==> !HasText(req.block.ticket);
    if req.actor.identity.Some? {
      assert Blank(req.actor.identity.value) <==> !HasText(req.actor.identity.value);
    }
  }

  /** A restatement is refused for exactly one reason, the first that applies; with none, it is made. */
  lemma RestateAnswered(layer: Layer, req: RestateRequest)
    ensures EditRestate(layer, req).Ok? <==> RestateRefusal(layer, req).None?
    ensures EditRestate(layer, req).Err? ==> Some(EditRestate(layer, req).error) == RestateRefusal(layer, req)
  {
    RestatePrecheckExact(layer, req);
    if RestatePrecheck(req).None? {
      MonotonicExact(layer.events, req.block);
      GatesExact(layer, req);
      if RestateGates(layer, req.block).None? {
        RestateSucceeds(layer, req);
      }
    }
  }

  lemma GatesExact(layer: Layer, req: RestateRequest)
    requires RestatePrecheck(req).None?
    requires RequireMonotonic(req.block, Chain(layer.events, req.block.target)).None?
        <==> !Retired(layer.events, req.block.target, req.block.after)
    ensures RestateGates(layer, req.block) == RestateRefusal(layer, req)
  {
    RestatePrecheckExact(layer, req);
    GateByGate(layer, req.block, Field(layer.meta, req.block.target));
  }

  lemma GateByGate(layer: Layer, block: Block, held: Json)
    ensures RequireValidEpoch(layer) == if EpochReadable(layer) then None else Some(InvalidEpoch)
    ensures RequireSomethingToRestate(block, held)
         == if SomethingRecorded(block.before, held) then None else Some(NothingToRestate)
    ensures RequireFresh(block, held) == if StillHeld(block.before, held) then None else Some(StaleRestatement)
  {
  }

  /** The event a restatement stands for, field by field. */
  ghost predicate Records(req: RestateRequest, event: Event) {
    var ref := "restatement:" + FirstTen(req.recordedAt.text) + ":" + TextOrEmpty(req.actor.identity) + ":"
               + req.shortDigest;
    && event.findingRef == (if req.findingRef.None? || req.findingRef == Some("") then "__layer__"
                            else req.findingRef.value)
    && event.eventId == Sha256Hex(ref + "|" + event.findingRef + "||")
    && event.fingerprint.None? && event.fingerprintAlgo.None?
    && event.recordedAt == req.recordedAt && event.occurredAt == Some(req.recordedAt)
    && event.source == Source(RestatementSource, ref, req.actor)
    && event.disposition == Disposition(None, None, None)
    && event.evidenceGrade.None? && !event.autoAcceptTier && event.rationale == req.rationale
    && event.restatement == Some(req.block) && event.alias.None? && event.merkleFields == map[]
  }

  /** `held` changed by `after`: two maps key by key, where a null deletes, and outright otherwise. */
  ghost predicate Becomes(held: Json, after: Json, now: Json) {
    if held.Obj? && after.Obj? then
      && now.Obj?
      && forall key ::
           (if key in after.entries then after.entries[key]
            else if key in held.entries then held.entries[key] else None)
           == (if key in now.entries then now.entries[key] else None)
    else now == after
  }

  /** An accepted restatement appends the event the request stands for, unless its id is already
      there, moves the one field it targets, and leaves every other part of the layer. */
  lemma RestateWrites(layer: Layer, req: RestateRequest) returns (event: Event)
    requires EditRestate(layer, req).Ok?
    ensures Records(req, event)
    ensures
      var edited, t := EditRestate(layer, req).value, req.block.target;
      && edited.events == (if Known(layer.events, event.eventId) then layer.events else layer.events + [event])
      && edited.queue == layer.queue
      && edited.meta == layer.meta.(
           claimHashes := edited.meta.claimHashes, auditReport := edited.meta.auditReport,
           artifactDigests := edited.meta.artifactDigests)
      && (if t == ClaimHashes then Becomes(layer.meta.claimHashes, req.block.after, edited.meta.claimHashes)
          else edited.meta.claimHashes == layer.meta.claimHashes)
      && (if t == AuditReport then Becomes(layer.meta.auditReport, req.block.after, edited.meta.auditReport)
          else edited.meta.auditReport == layer.meta.auditReport)
      && (if t == ArtifactDigests then Becomes(layer.meta.artifactDigests, req.block.after, edited.meta.artifactDigests)
          else edited.meta.artifactDigests == layer.meta.artifactDigests)
  {
    event := BuildRestatementEvent(req);
    RestateSucceeds(layer, req);
    KnownIds(layer.events, event.eventId);
  }
}
