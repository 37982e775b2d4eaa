/** The two-person rule over runs: once execution proof exists, no one person can pile up
    false-positive signatures on a finding through the countersign path. */
module TwoPersonRuns {
  import opened Wrappers
  import opened Events
  import opened Layers
  import opened Gates
  import opened Writer
  import opened Handlers
  import opened Samples

  predicate Counts(event: Event, findingRef: string, identity: string) {
    MatchesFinding(event, findingRef) && VerifiedFalsePositive(event, identity)
  }

  /** How many verified false positives one person holds on a finding. */
  function SignatureCount(events: seq<Event>, findingRef: string, identity: string): nat {
    if events == [] then 0
    else
      SignatureCount(events[..|events| - 1], findingRef, identity) +
      if Counts(events[|events| - 1], findingRef, identity) then 1 else 0
  }

  lemma {:induction false} CountZeroMeansNone(events: seq<Event>, findingRef: string, identity: string)
    ensures SignatureCount(events, findingRef, identity) == 0
       <==> forall e :: e in events ==> !Counts(e, findingRef, identity)
  {
    if events != [] {
      CountZeroMeansNone(events[..|events| - 1], findingRef, identity);
      assert events == events[..|events| - 1] + [events[|events| - 1]];
    }
  }

  lemma {:induction false} CountOfConcat(a: seq<Event>, b: seq<Event>, findingRef: string, identity: string)
    ensures SignatureCount(a + b, findingRef, identity)
         == SignatureCount(a, findingRef, identity) + SignatureCount(b, findingRef, identity)
    decreases |b|
  {
    if b == [] {
      assert a + b == a;
    } else {
      assert (a + b)[..|a + b| - 1] == a + b[..|b| - 1];
      CountOfConcat(a, b[..|b| - 1], findingRef, identity);
    }
  }

  /** The execution proof the gate looks for, on a log whose events all parse. */
  ghost predicate ExecProof(events: seq<Event>, findingRef: string) {
    ExecProofFor(ParseAll(events), findingRef)
  }

  /** The handlers a person can drive: countersigns, restatements, signing, patching, closing. */
  predicate HumanLane(step: Step) {
    step.Countersign? || step.Restate? || step.SignLayer? || step.PatchMetadata? || step.ResolveItem?
  }

  /** A countersign under another reference whose event would still match `findingRef`,
      because the layer ties that other reference to a fingerprint equal to `findingRef`. */
  predicate Aliased(layer: Layer, step: Step, findingRef: string) {
    && step.Countersign? && step.countersign.findingRef != findingRef
    && KnownFingerprint(layer.events, step.countersign.findingRef) == Some(findingRef)
  }

  lemma AppendOneCount(events: seq<Event>, event: Event, findingRef: string, identity: string)
    requires AppendOne(events, event).Ok?
    ensures
      var all := AppendOne(events, event).value.0;
      SignatureCount(all, findingRef, identity)
      == SignatureCount(events, findingRef, identity)
         + (if CanonicalId(event) !in IdsOf(events) && Counts(event, findingRef, identity) then 1 else 0)
  {
    var all := AppendOne(events, event).value.0;
    if CanonicalId(event) !in IdsOf(events) {
      assert all[..|all| - 1] == events;
    }
  }

  /** The request signs a false positive as this named, verified person. */
  predicate SignsFalsePositive(req: CountersignRequest, identity: string)
    requires CountersignPrecheck(req).None?
  {
    && CountersignValidity(req) == FalsePositive
    && req.actor.kind == Human && ActorVerified(req.actor)
    && req.actor.identity == Some(identity) && identity != ""
  }

  /** The exact reach of the gate.  An accepted countersign pushes a person's count above
      max(1, the count before) if and only if it comes in under an aliased reference, from
      someone who already signed, as a new event. */
  lemma CountersignCountExact(layer: Layer, req: CountersignRequest, config: Config, findingRef: string,
      identity: string)
    requires EditCountersign(layer, req).Ok?
    requires ExecProof(layer.events, findingRef)
    ensures
      var before := SignatureCount(layer.events, findingRef, identity);
      var after := SignatureCount(EditCountersign(layer, req).value.events, findingRef, identity);
      after > (if before == 0 then 1 else before) <==>
        && before >= 1
        && Aliased(layer, Countersign(req, config), findingRef)
        && SignsFalsePositive(req, identity)
        && CanonicalId(CountersignEvent(layer, req)) !in IdsOf(layer.events)
  {
    var event := CountersignEvent(layer, req);
    AppendOneCount(layer.events, event, findingRef, identity);
    CountZeroMeansNone(layer.events, findingRef, identity);
    ParsedMembers(layer.events);
    if req.findingRef == findingRef && SignsFalsePositive(req, identity) {
      TwoPersonOnEvents(layer.events, findingRef, identity);
      assert forall e :: e in layer.events && MatchesFinding(e, findingRef) ==> !VerifiedFalsePositive(e, identity);
    }
    if KnownFingerprint(layer.events, req.findingRef) == Some(findingRef) {
      KnownFingerprintIsTruthy(layer.events, req.findingRef);
    }
  }

  lemma {:induction false} KnownFingerprintIsTruthy(events: seq<Event>, findingRef: string)
    requires KnownFingerprint(events, findingRef).Some?
    ensures TruthyText(KnownFingerprint(events, findingRef))
  {
    var last := events[|events| - 1];
    if !(last.findingRef == findingRef && findingRef != "" && TruthyText(last.fingerprint)) {
      KnownFingerprintIsTruthy(events[..|events| - 1], findingRef);
    }
  }

  lemma ExecProofGrows(a: seq<Event>, b: seq<Event>, findingRef: string)
    requires a <= b && ExecProof(a, findingRef)
    ensures ExecProof(b, findingRef)
  {
    ParsedMembers(a);
    ParsedMembers(b);
    var e :| Parsed(e) in ParseAll(a) && MatchesFinding(e, findingRef) && ExecutionConfirmed(e);
    assert e in b;
  }

  function AtLeastOne(count: nat): nat {
    if count == 0 then 1 else count
  }

  /** One appended event stays within the bound: nobody had signed, the id is taken, or it is no
      verified false positive of this person on this finding. */
  predicate EventWithin(events: seq<Event>, event: Event, findingRef: string, identity: string) {
    || SignatureCount(events, findingRef, identity) == 0
    || CanonicalId(event) in IdsOf(events)
    || !Counts(event, findingRef, identity)
  }

  /** The condition, write path by write path, under execution proof.  A countersign escapes the
      gate only as CountersignCountExact says.  No other write asks the gate: an append must not
      add a second signature, a batch at most the first, and the rest never sign. */
  ghost predicate WithinBound(layer: Layer, step: Step, findingRef: string, identity: string)
    requires Edit(layer, step).Ok?
  {
    var before := SignatureCount(layer.events, findingRef, identity);
    match step
    case AppendEvent(event, _) => EventWithin(layer.events, event, findingRef, identity)
    case RestateDirectly(event, _, _) => EventWithin(layer.events, event, findingRef, identity)
    case SubmitBatch(events, _, _) =>
      SignatureCount(Novel(IdsOf(layer.events), events), findingRef, identity) <= if before == 0 then 1 else 0
    case Countersign(req, _) =>
      !(&& before >= 1
        && Aliased(layer, step, findingRef)
        && SignsFalsePositive(req, identity)
        && CanonicalId(CountersignEvent(layer, req)) !in IdsOf(layer.events))
    case _ => true
  }

  lemma StepCounts(layer: Layer, step: Step, findingRef: string, identity: string)
    requires Edit(layer, step).Ok?
    ensures SignatureCount(Edit(layer, step).value.events, findingRef, identity)
         == SignatureCount(layer.events, findingRef, identity)
            + SignatureCount(Added(layer, step), findingRef, identity)
  {
    EditAdds(layer, step);
    CountOfConcat(layer.events, Added(layer, step), findingRef, identity);
  }

  lemma CountOfOne(events: seq<Event>, event: Event, findingRef: string, identity: string)
    ensures SignatureCount(AddedOne(events, event), findingRef, identity)
         == if CanonicalId(event) !in IdsOf(events) && Counts(event, findingRef, identity) then 1 else 0
  {
    assert [AsStored(event)][..0] == [];
  }

  /** For every accepted write of every kind, once an execution source has confirmed the finding:
      nobody's count rises above max(1, the count before) if and only if the write is within. */
  lemma StepBoundExact(layer: Layer, step: Step, findingRef: string, identity: string)
    requires ExecProof(layer.events, findingRef)
    requires Apply(layer, step).Ok?
    ensures Edit(layer, step).Ok?
    ensures SignatureCount(Next(layer, step).events, findingRef, identity)
            <= AtLeastOne(SignatureCount(layer.events, findingRef, identity))
       <==> WithinBound(layer, step, findingRef, identity)
  {
    ApplyIsEdit(layer, step);
    StepCounts(layer, step, findingRef, identity);
    match step {
      case AppendEvent(event, _) => CountOfOne(layer.events, event, findingRef, identity);
      case RestateDirectly(event, _, _) => CountOfOne(layer.events, event, findingRef, identity);
      case Countersign(req, config) => CountersignCountExact(layer, req, config, findingRef, identity);
      case Restate(req, _) => CountOfOne(layer.events, BuildRestatementEvent(req), findingRef, identity);
      case _ =>
    }
  }

  /** Every accepted write of the run is within the bound. */
  ghost predicate BoundedRun(layer: Layer, steps: seq<Step>, findingRef: string, identity: string) {
    steps == [] ||
    var mid, last := Run(layer, steps[..|steps| - 1]), steps[|steps| - 1];
    && BoundedRun(layer, steps[..|steps| - 1], findingRef, identity)
    && (Apply(mid, last).Ok? ==> Edit(mid, last).Ok? && WithinBound(mid, last, findingRef, identity))
  }

  lemma StepKeepsProof(layer: Layer, step: Step, findingRef: string)
    requires ExecProof(layer.events, findingRef)
    ensures ExecProof(Next(layer, step).events, findingRef)
  {
    if Apply(layer, step).Ok? {
      ApplyIsEdit(layer, step);
      ExecProofGrows(layer.events, Next(layer, step).events, findingRef);
    }
  }

  lemma {:induction false} ProofOverRuns(layer: Layer, steps: seq<Step>, findingRef: string)
    requires ExecProof(layer.events, findingRef)
    ensures ExecProof(Run(layer, steps).events, findingRef)
    decreases |steps|
  {
    if steps != [] {
      ProofOverRuns(layer, steps[..|steps| - 1], findingRef);
      StepKeepsProof(Run(layer, steps[..|steps| - 1]), steps[|steps| - 1], findingRef);
    }
  }

  lemma {:induction false} CountsOnlyGrow(layer: Layer, steps: seq<Step>, findingRef: string, identity: string)
    ensures SignatureCount(layer.events, findingRef, identity)
         <= SignatureCount(Run(layer, steps).events, findingRef, identity)
    decreases |steps|
  {
    if steps != [] {
      var init := steps[..|steps| - 1];
      CountsOnlyGrow(layer, init, findingRef, identity);
      StepOnlyGrows(Run(layer, init), steps[|steps| - 1], findingRef, identity);
    }
  }

  lemma StepOnlyGrows(layer: Layer, step: Step, findingRef: string, identity: string)
    ensures SignatureCount(layer.events, findingRef, identity)
         <= SignatureCount(Next(layer, step).events, findingRef, identity)
  {
    if Apply(layer, step).Ok? {
      ApplyIsEdit(layer, step);
      StepCounts(layer, step, findingRef, identity);
    }
  }

  lemma StepWithin(layer: Layer, step: Step, findingRef: string, identity: string)
    requires ExecProof(layer.events, findingRef)
    ensures SignatureCount(Next(layer, step).events, findingRef, identity)
            <= AtLeastOne(SignatureCount(layer.events, findingRef, identity))
       <==> (Apply(layer, step).Ok? ==> Edit(layer, step).Ok? && WithinBound(layer, step, findingRef, identity))
  {
    if Apply(layer, step).Ok? {
      StepBoundExact(layer, step, findingRef, identity);
    }
  }

  /** Over runs of every kind of write, from the moment an execution source has confirmed a
      finding: a person's count of verified false positives on it stays within max(1, the count
      then) if and only if every accepted write is within the bound. */
  lemma {:induction false} TwoPersonOverRuns(layer: Layer, steps: seq<Step>, findingRef: string, identity: string)
    requires ExecProof(layer.events, findingRef)
    ensures SignatureCount(Run(layer, steps).events, findingRef, identity)
            <= AtLeastOne(SignatureCount(layer.events, findingRef, identity))
       <==> BoundedRun(layer, steps, findingRef, identity)
    decreases |steps|
  {
    if steps != [] {
      var init, last := steps[..|steps| - 1], steps[|steps| - 1];
      TwoPersonOverRuns(layer, init, findingRef, identity);
      ProofOverRuns(layer, init, findingRef);
      CountsOnlyGrow(layer, init, findingRef, identity);
      StepOnlyGrows(Run(layer, init), last, findingRef, identity);
      StepWithin(Run(layer, init), last, findingRef, identity);
    }
  }

  /** A run of human-lane writes that are not aliased when they come in. */
  ghost predicate HumanLaneRun(layer: Layer, steps: seq<Step>, findingRef: string) {
    steps == [] ||
    var mid, last := Run(layer, steps[..|steps| - 1]), steps[|steps| - 1];
    && HumanLaneRun(layer, steps[..|steps| - 1], findingRef)
    && HumanLane(last) && !Aliased(mid, last, findingRef)
  }

  lemma {:induction false} HumanLaneIsWithin(layer: Layer, steps: seq<Step>, findingRef: string, identity: string)
    requires HumanLaneRun(layer, steps, findingRef)
    ensures BoundedRun(layer, steps, findingRef, identity)
    decreases |steps|
  {
    if steps != [] {
      var init, last := steps[..|steps| - 1], steps[|steps| - 1];
      HumanLaneIsWithin(layer, init, findingRef, identity);
      if Apply(Run(layer, init), last).Ok? {
        ApplyIsEdit(Run(layer, init), last);
      }
    }
  }

  /** From the moment an execution source has confirmed a finding, no run of human-lane writes
      raises anyone's count of verified false positives on it above max(1, the count then). */
  lemma HumanLaneIsBounded(layer: Layer, steps: seq<Step>, findingRef: string, identity: string)
    requires ExecProof(layer.events, findingRef)
    requires HumanLaneRun(layer, steps, findingRef)
    ensures SignatureCount(Run(layer, steps).events, findingRef, identity)
         <= AtLeastOne(SignatureCount(layer.events, findingRef, identity))
  {
    HumanLaneIsWithin(layer, steps, findingRef, identity);
    TwoPersonOverRuns(layer, steps, findingRef, identity);
  }

  // ---------- the families that escape ----------

  /** One fingerprint "P" seen under three references: proven by execution under "P",
      signed off by alice under "A", and reported under "B". */
  const OnP := Recorded("run", "P", None, VerificationReport, Alice, Some(Confirmed), None)
  const OnA := Recorded("first", "A", Some("P"), Interactive, Alice, Some(FalsePositive), None)
  const OnB := Recorded("scan", "B", Some("P"), Jira, Alice, Some(Confirmed), None)

  const Again := CountersignRequest("B", "false_positive", "", "not exploitable here", Noon, Alice, false,
      EmptyDisposition, 0)

  lemma SharedIsStored()
    ensures AppendMany([], [OnP, OnA, OnB]) == Ok(([OnP, OnA, OnB], [OnP.eventId, OnA.eventId, OnB.eventId]))
  {
    assert OnP.eventId.preimage[0] == 'r' && OnA.eventId.preimage[0] == 'f' && OnB.eventId.preimage[0] == 's';
    var none: seq<Event> := [];
    assert Prepare(OnP) == Ok(OnP) && Prepare(OnA) == Ok(OnA) && Prepare(OnB) == Ok(OnB);
    assert none + [OnP] == [OnP] && [OnP] + [OnA] == [OnP, OnA] && [OnP, OnA] + [OnB] == [OnP, OnA, OnB];
    BatchOfThree(none, OnP, OnA, OnB);
  }

  lemma SharedSignatures()
    ensures ExecProof([OnP, OnA, OnB], "P") && SignatureCount([OnP, OnA, OnB], "P", "alice") == 1
  {
    var shared := [OnP, OnA, OnB];
    ParsedMembers(shared);
    assert OnP in shared && MatchesFinding(OnP, "P") && ExecutionConfirmed(OnP);
    assert !VerifiedFalsePositive(OnP, "alice") && Counts(OnA, "P", "alice") && !VerifiedFalsePositive(OnB, "alice");
    assert shared[..2] == [OnP, OnA] && [OnP, OnA][..1] == [OnP] && [OnP][..0] == [];
    assert SignatureCount([OnP], "P", "alice") == 0;
    assert SignatureCount([OnP, OnA], "P", "alice") == 1;
  }

  lemma SharedUnderB()
    ensures KnownFingerprint([OnP, OnA, OnB], "B") == Some("P")
    ensures forall e :: e in [OnP, OnA, OnB] && MatchesFinding(e, "B") ==> !ExecutionConfirmed(e)
  {
    assert "P"[0] != "B"[0] && "A"[0] != "B"[0];
    assert !MatchesFinding(OnP, "B");
  }

  lemma AgainIsAccepted(layer: Layer)
    requires layer.events == [OnP, OnA, OnB] && layer.meta.merkleEpoch == Some(0)
    ensures EditCountersign(layer, Again).Ok? && AtZero(EditCountersign(layer, Again).value)
    ensures Counts(CountersignEvent(layer, Again), "P", "alice")
    ensures CanonicalId(CountersignEvent(layer, Again)) !in IdsOf(layer.events)
  {
    SharedUnderB();
    TwoPersonOnEvents(layer.events, "B", "alice");
    assert CountersignPrecheck(Again).None? && CountersignValidity(Again) == FalsePositive;
    var event := CountersignEvent(layer, Again);
    assert event.source.ref[0] == 'i';
    assert CanonicalId(event).preimage[0] == 'i';
    assert OnP.eventId.preimage[0] == 'r' && OnA.eventId.preimage[0] == 'f' && OnB.eventId.preimage[0] == 's';
  }

  /** Countersigning "B" gives alice a second signature on the proven finding "P". */
  lemma AliasEscapesTwoPerson()
    ensures
      var steps := [SubmitBatch([OnP, OnA, OnB], [], Signing), Countersign(Again, Signing)];
      var start, end := Run(Shell, steps[..1]), Run(Shell, steps);
      && Apply(start, steps[1]).Ok?
      && ExecProof(start.events, "P") && SignatureCount(start.events, "P", "alice") == 1
      && SignatureCount(end.events, "P", "alice") == 2
  {
    var a, b := SubmitBatch([OnP, OnA, OnB], [], Signing), Countersign(Again, Signing);
    TwoSteps(Shell, a, b);
    SharedStart();
    SharedSignatures();
    AgainSigns(Next(Shell, a));
  }

  lemma SharedStart()
    ensures
      var start := Next(Shell, SubmitBatch([OnP, OnA, OnB], [], Signing));
      start.events == [OnP, OnA, OnB] && start.meta.merkleEpoch == Some(0)
  {
    SharedIsStored();
    var edited := EditBatch(Shell, [OnP, OnA, OnB], []).value;
    AcceptedAtZero(Shell, SubmitBatch([OnP, OnA, OnB], [], Signing), edited);
  }

  lemma AgainSigns(start: Layer)
    requires start.events == [OnP, OnA, OnB] && start.meta.merkleEpoch == Some(0)
    ensures Apply(start, Countersign(Again, Signing)).Ok?
    ensures SignatureCount(Next(start, Countersign(Again, Signing)).events, "P", "alice") == 2
  {
    AgainIsAccepted(start);
    SharedSignatures();
    AppendOneCount(start.events, CountersignEvent(start, Again), "P", "alice");
    AcceptedAtZero(start, Countersign(Again, Signing), EditCountersign(start, Again).value);
  }

  /** Two refutations of "P" in alice's name, as one batch. */
  const First := Recorded("first", "P", None, Interactive, Alice, Some(FalsePositive), None)
  const Second := Recorded("second", "P", None, Interactive, Alice, Some(FalsePositive), None)

  lemma TwoSignatures()
    ensures Prepare(First) == Ok(First) && Prepare(Second) == Ok(Second)
    ensures AppendMany([OnP], [First, Second])
        == Ok(([OnP] + [First] + [Second], [First.eventId, Second.eventId]))
    ensures SignatureCount([OnP], "P", "alice") == 0
    ensures SignatureCount([OnP] + [First] + [Second], "P", "alice") == 2
  {
    assert First.eventId.preimage[0] == 'f' && Second.eventId.preimage[0] == 's' && OnP.eventId.preimage[0] == 'r';
    assert First.eventId !in IdsOf([OnP]) && Second.eventId !in IdsOf([OnP] + [First]);
    BatchOfTwo([OnP], First, Second);
    assert [OnP][..0] == [] && [First][..0] == [] && [Second][..0] == [];
    CountOfConcat([OnP], [First], "P", "alice");
    CountOfConcat([OnP] + [First], [Second], "P", "alice");
  }

  /** A batch is not gated: one submission gives alice two signatures against the proof. */
  lemma BatchEscapesTwoPerson()
    ensures
      var steps := [AppendEvent(OnP, Signing), SubmitBatch([First, Second], [], Signing)];
      && Apply(Run(Shell, steps[..1]), steps[1]).Ok?
      && ExecProof(Run(Shell, steps[..1]).events, "P")
      && SignatureCount(Run(Shell, steps[..1]).events, "P", "alice") == 0
      && SignatureCount(Run(Shell, steps).events, "P", "alice") == 2
  {
    var a, b := AppendEvent(OnP, Signing), SubmitBatch([First, Second], [], Signing);
    TwoSteps(Shell, a, b);
    ProvenStart();
    TwoSignatures();
    var start := Next(Shell, a);
    var edited := EditBatch(start, [First, Second], []).value;
    AcceptedAtZero(start, b, edited);
  }

  lemma ProvenStart()
    ensures
      var start := Next(Shell, AppendEvent(OnP, Signing));
      start.events == [OnP] && start.meta.merkleEpoch == Some(0) && ExecProof(start.events, "P")
  {
    var step := AppendEvent(OnP, Signing);
    assert Prepare(OnP) == Ok(OnP);
    AppendOneAdds([], OnP);
    AcceptedAtZero(Shell, step, Edit(Shell, step).value);
    ParsedMembers([OnP]);
    assert OnP in [OnP] && ExecutionConfirmed(OnP);
  }
}
