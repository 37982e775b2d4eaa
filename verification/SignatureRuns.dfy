/** Signatures over whole runs: a stored signature covers the layer as it now is, and the
    exact family of writes after which it would not. */
module SignatureRuns {
  import opened Wrappers
  import opened Events
  import opened Layers
  import opened Restatements
  import opened Integrity
  import opened Writer
  import opened Handlers
  import opened Samples

  /** The write does not move a bound digest without growing the log.  A restatement whose
      id is already taken appends nothing, and a patch never appends. */
  predicate DigestsStand(layer: Layer, step: Step) {
    match step
    case Restate(req, _) =>
      || BuildRestatementEvent(req).eventId !in IdsOf(layer.events)
      || BoundDigests(layer.meta) == BoundDigests(WithField(layer.meta, req.block.target,
           Merge(Field(layer.meta, req.block.target), req.block.after)))
    case RestateDirectly(event, updates, _) =>
      || CanonicalId(event) !in IdsOf(layer.events)
      || BoundDigests(layer.meta) == BoundDigests(ApplyUpdates(layer.meta, updates.fields))
    case PatchMetadata(updates, now, _) =>
      BoundDigests(layer.meta) == BoundDigests(Patched(layer.meta, updates, now))
    case _ => true
  }

  /** The signature the write leaves behind still covers the layer.  For a write that puts
      Merkle members in place itself, this is about the signature it then carries. */
  ghost predicate StaysCovered(layer: Layer, step: Step) {
    if WritesMerkle(step) then
      Edit(layer, step).Ok? && EpochInRange(Edit(layer, step).value) && CarriedCovers(Edit(layer, step).value)
    else layer.meta.rootSignature.None? || DigestsStand(layer, step)
  }

  /** A write that leaves the signature good: it re-signs, or the one in place stays covered. */
  ghost predicate KeepsFresh(layer: Layer, step: Step) {
    (Finalizes(step) && step.config.signer.Signs?) || StaysCovered(layer, step)
  }

  /** For every accepted write on a fresh layer: the signature is still good afterwards if
      and only if the write keeps it fresh. */
  lemma StepFreshnessExact(layer: Layer, step: Step)
    requires SignatureFresh(layer) && SignedOverEvents(layer)
    requires Apply(layer, step).Ok?
    ensures SignatureFresh(Next(layer, step)) <==> KeepsFresh(layer, step)
  {
    EditShape(layer, step);
    var edited := Edit(layer, step).value;
    if WritesMerkle(step) {
      FinalizeCarries(edited, step.config);
    } else if Finalizes(step) {
      var more := edited.events[|layer.events|..];
      assert edited.events == layer.events + more;
      FinalizeFreshness(layer, edited, more, step.config);
      GrowthOrDigests(layer, step);
    }
  }

  /** Whatever any write leaves signed was stamped over the events then stored. */
  lemma StepSignsOverEvents(layer: Layer, step: Step)
    requires SignedOverEvents(layer)
    ensures SignedOverEvents(Next(layer, step))
  {
    if Apply(layer, step).Ok? {
      EditShape(layer, step);
      if Finalizes(step) {
        FinalizeCarries(Edit(layer, step).value, step.config);
      }
    }
  }

  lemma AppendOneGrows(events: seq<Event>, event: Event)
    requires AppendOne(events, event).Ok?
    ensures |AppendOne(events, event).value.0| > |events| <==> CanonicalId(event) !in IdsOf(events)
  {
  }

  /** Whether the log grew, or the digests stood still, read off the step. */
  lemma GrowthOrDigests(layer: Layer, step: Step)
    requires Edit(layer, step).Ok? && Finalizes(step)
    ensures
      var edited := Edit(layer, step).value;
      (|edited.events| > |layer.events| || BoundDigests(layer.meta) == BoundDigests(edited.meta))
      <==> DigestsStand(layer, step)
  {
    match step {
      case Restate(req, _) =>
        var target := req.block.target;
        var merged := Merge(Field(layer.meta, target), req.block.after);
        DirectGrowth(layer, BuildRestatementEvent(req), map[target := merged]);
        UpdateOne(layer.meta, target, merged);
      case RestateDirectly(event, updates, _) => DirectGrowth(layer, event, updates.fields);
      case _ =>
    }
  }

  lemma DirectGrowth(layer: Layer, event: Event, fields: map<Target, Json>)
    requires AppendRestatement(layer, event, fields).Ok?
    ensures
      var edited := AppendRestatement(layer, event, fields).value;
      && (|edited.events| > |layer.events| <==> CanonicalId(event) !in IdsOf(layer.events))
      && edited.meta == ApplyUpdates(layer.meta, fields)
  {
    AppendOneGrows(layer.events, event);
  }

  /** Every accepted write of the run keeps the signature fresh. */
  ghost predicate FreshRun(layer: Layer, steps: seq<Step>) {
    steps == [] ||
    var mid, last := Run(layer, steps[..|steps| - 1]), steps[|steps| - 1];
    FreshRun(layer, steps[..|steps| - 1]) && (Apply(mid, last).Ok? ==> KeepsFresh(mid, last))
  }

  /** The signature is good before, between and after the writes of the run. */
  ghost predicate FreshThroughout(layer: Layer, steps: seq<Step>) {
    SignatureFresh(Run(layer, steps)) && (steps == [] || FreshThroughout(layer, steps[..|steps| - 1]))
  }

  lemma {:induction false} SignedOverEventsOverRuns(layer: Layer, steps: seq<Step>)
    requires SignedOverEvents(layer)
    ensures SignedOverEvents(Run(layer, steps))
    decreases |steps|
  {
    if steps != [] {
      var init := steps[..|steps| - 1];
      SignedOverEventsOverRuns(layer, init);
      StepSignsOverEvents(Run(layer, init), steps[|steps| - 1]);
    }
  }

  /** After any such run, from an unsigned layer in particular, with the signer succeeding,
      failing or missing at every step and any write refused or accepted, a stored signature
      covers the current payload, over a stamp of the current events. */
  lemma {:induction false} SignatureFreshOverRuns(layer: Layer, steps: seq<Step>)
    requires SignatureFresh(layer) && SignedOverEvents(layer)
    requires FreshRun(layer, steps)
    ensures SignatureFresh(Run(layer, steps)) && SignedOverEvents(Run(layer, steps))
  {
    FreshThroughoutExact(layer, steps);
    SignedOverEventsOverRuns(layer, steps);
  }

  lemma StepKeepsFresh(layer: Layer, step: Step)
    requires SignatureFresh(layer) && SignedOverEvents(layer)
    ensures SignatureFresh(Next(layer, step)) <==> (Apply(layer, step).Ok? ==> KeepsFresh(layer, step))
  {
    if Apply(layer, step).Ok? {
      StepFreshnessExact(layer, step);
    }
  }

  /** Nothing weaker would do: the signature is good all through a run if and only if every
      accepted write keeps it so. */
  lemma {:induction false} FreshThroughoutExact(layer: Layer, steps: seq<Step>)
    requires SignatureFresh(layer) && SignedOverEvents(layer)
    ensures FreshThroughout(layer, steps) <==> FreshRun(layer, steps)
    decreases |steps|
  {
    if steps != [] {
      var init := steps[..|steps| - 1];
      FreshThroughoutExact(layer, init);
      SignedOverEventsOverRuns(layer, init);
      if FreshThroughout(layer, init) {
        StepKeepsFresh(Run(layer, init), steps[|steps| - 1]);
      }
    }
  }

  /** A layer any run leaves signed, freshly or not, verifies clean but for restatement findings. */
  lemma SignedRunsVerify(layer: Layer, steps: seq<Step>)
    requires SignedOverEvents(layer)
    ensures Run(layer, steps).meta.rootSignature.Some?
        ==> VerifyMerkleIntegrity(Run(layer, steps)) == RestatementFindings(Run(layer, steps))
  {
    SignedOverEventsOverRuns(layer, steps);
    var end := Run(layer, steps);
    if end.meta.rootSignature.Some? {
      StampThenVerify(end);
      assert end.(meta := Stamp(end).value.0) == end;
    }
  }

  // ---------- the failing families ----------

  /** A taken id: the correction is accepted, its event is dropped as a duplicate, the claim
      changes anyway, and with no key at hand the old signature stays, covering nothing. */
  lemma TakenIdLeavesStaleSignature()
    ensures
      var steps := [AppendEvent(Squatter, Signing), Restate(Correction, NoKey)];
      && Apply(Run(Shell, steps[..1]), steps[1]).Ok?
      && Run(Shell, steps).meta.rootSignature.Some?
      && !SignatureFresh(Run(Shell, steps))
  {
    var a, b := AppendEvent(Squatter, Signing), Restate(Correction, NoKey);
    TwoSteps(Shell, a, b);
    SquatterIsSigned();
    var signed := Next(Shell, a);
    StepFreshnessExact(Shell, a);
    StepSignsOverEvents(Shell, a);
    TakenIdIsAccepted(signed);
    StepFreshnessExact(signed, b);
    assert !SignatureFresh(Next(signed, b));
  }

  lemma SquatterIsSigned()
    ensures Apply(Shell, AppendEvent(Squatter, Signing)).Ok?
    ensures
      var signed := Next(Shell, AppendEvent(Squatter, Signing));
      && signed.meta.rootSignature.Some? && signed.meta.merkleEpoch == Some(0)
      && signed.meta.claimHashes == Shell.meta.claimHashes
      && |signed.events| == 1 && signed.events[0].restatement.None?
      && signed.events[0].eventId == BuildRestatementEvent(Correction).eventId
  {
    var step := AppendEvent(Squatter, Signing);
    var edited := Edit(Shell, step).value;
    AcceptedAtZero(Shell, step, edited);
    assert Field(Next(Shell, step).meta, ClaimHashes) == Field(edited.meta, ClaimHashes);
  }

  lemma TakenIdIsAccepted(signed: Layer)
    requires signed.meta.rootSignature.Some? && signed.meta.merkleEpoch == Some(0)
    requires signed.meta.claimHashes == Shell.meta.claimHashes
    requires |signed.events| == 1 && signed.events[0].restatement.None?
    requires signed.events[0].eventId == BuildRestatementEvent(Correction).eventId
    requires SignedOverEvents(signed)
    ensures Apply(signed, Restate(Correction, NoKey)).Ok?
    ensures !StaysCovered(signed, Restate(Correction, NoKey))
  {
    assert signed.events[..0] == [] && Chain(signed.events, ClaimHashes) == [];
    ChangeIsAccepted(signed, Correction, "old", Some("new"), NoKey);
    TakenIdMovesDigest(signed);
  }

  lemma TakenIdMovesDigest(signed: Layer)
    requires signed.meta.rootSignature.Some? && signed.meta.claimHashes == Shell.meta.claimHashes
    requires |signed.events| == 1 && signed.events[0].eventId == BuildRestatementEvent(Correction).eventId
    ensures !StaysCovered(signed, Restate(Correction, NoKey))
  {
    assert signed.events[0] in signed.events;
    MovedClaim("old", Some("new"));
    assert Correction.block.after.entries["F-1"] == Some("new") && "old"[0] != "new"[0];
    assert signed.meta.claimHashes.entries["F-1"] == Some("old");
  }

  const FirstReport := Updates(map[AuditReport := Str("sha")], None, NoMerkle)

  lemma ShellSigned()
    ensures Apply(Shell, SignLayer(Signing)).Ok?
    ensures
      var signed := Next(Shell, SignLayer(Signing));
      && signed.events == [] && signed.meta.rootSignature.Some? && signed.meta.merkleEpoch == Some(0)
      && (forall t: Target :: Field(signed.meta, t) == Field(Shell.meta, t))
      && SignatureFresh(signed) && SignedOverEvents(signed)
  {
    AcceptedAtZero(Shell, SignLayer(Signing), Shell);
    StepFreshnessExact(Shell, SignLayer(Signing));
    StepSignsOverEvents(Shell, SignLayer(Signing));
  }

  /** A first write by patch moves a bound digest under an unmoved root. */
  lemma PatchLeavesStaleSignature()
    ensures
      var steps := [SignLayer(Signing), PatchMetadata(FirstReport, "now", NoKey)];
      && Apply(Run(Shell, steps[..1]), steps[1]).Ok?
      && Run(Shell, steps).meta.rootSignature.Some?
      && !SignatureFresh(Run(Shell, steps))
  {
    var a, b := SignLayer(Signing), PatchMetadata(FirstReport, "now", NoKey);
    TwoSteps(Shell, a, b);
    ShellSigned();
    var signed := Next(Shell, a);
    PatchEdits(signed, FirstReport, NoKey);
    AcceptedAtZero(signed, b, Edit(signed, b).value);
    StepFreshnessExact(signed, b);
  }

  /** A signature over some other payload. */
  const Planted := Signature(SignaturePayload(Shell.meta, SIGNATURE_FORMAT_CURRENT))
  const Forgery := Updates(map[], None, NoMerkle.(signature := Some(Some(Planted))))

  /** A patch may write the signature itself; nothing checks it against the layer. */
  lemma PatchPlantsSignature()
    ensures
      var step := PatchMetadata(Forgery, "now", NoKey);
      && Apply(Shell, step).Ok?
      && Next(Shell, step).meta.rootSignature == Some(Planted)
      && !SignatureFresh(Next(Shell, step))
  {
    var step := PatchMetadata(Forgery, "now", NoKey);
    PatchEdits(Shell, Forgery, NoKey);
    AcceptedAtZero(Shell, step, Edit(Shell, step).value);
    assert Planted.covers.merkleRoot.None?;
  }
}
