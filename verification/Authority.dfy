/** Who can dismiss a finding: the writer's rules joined to the engine's precedence, over
    whole runs. */
module Authority {
  import opened Wrappers
  import opened Events
  import opened Layers
  import opened Gates
  import opened Writer
  import opened Handlers
  import opened LogRuns
  import opened StableSort
  import opened DispositionEngine
  import opened Findings
  import opened TwoPersonRuns

  /** A named, verified human called it a false positive. */
  predicate SignedRefutation(event: Event) {
    && Refutes(event) && event.source.actor.kind == Human
    && TruthyText(event.source.actor.identity) && ActorVerified(event.source.actor)
  }

  /** A machine-class event whose refutation was auto-accepted. */
  predicate AcceptedRefutation(event: Event) {
    MachineEvent(event) && Refutes(event) && event.autoAcceptTier
  }

  /** Two different named, verified humans refuted it after the proof. */
  ghost predicate TwoSignedAfter(events: seq<Event>, proof: Event) {
    exists a, b :: a in events && b in events && SignedRefutation(a) && SignedRefutation(b)
                && At(a) > At(proof) && At(b) > At(proof) && a.source.actor.identity != b.source.actor.identity
  }

  lemma EvidenceIsLogged(layer: Layer, findingRef: string, e: Event)
    requires e in EventsOf(layer, findingRef)
    ensures e in layer.events && IsEvidence(e)
  {
    FilterKeeps(Evidence(layer), Belongs(AliasesOf(layer), findingRef), e);
    FilterKeeps(layer.events, IsEvidence, e);
  }

  lemma LatestIsMember(events: seq<Event>, keep: Event -> bool)
    requires Latest(events, keep).Some?
    ensures Latest(events, keep).value in events && keep(Latest(events, keep).value)
  {
    LatestIsNewest(events, keep);
  }

  /** In a lawful set of events, a false positive rests on a signed human refutation or an
      auto-accepted machine one; against a decisive proof it rests on two signed humans. */
  lemma FalsePositiveNeedsAuthority(events: seq<Event>, now: string)
    requires AllLawful(events)
    requires Derive(NotVerified, events, now).validity == FalsePositive
    ensures exists e :: e in events && (SignedRefutation(e) || AcceptedRefutation(e))
    ensures Latest(events, Decisive).Some? ==> TwoSignedAfter(events, Latest(events, Decisive).value)
  {
    ValidityRefinesSpec(NotVerified, events, now);
    SpecNeedsAuthority(events);
  }

  lemma SpecNeedsAuthority(events: seq<Event>)
    requires AllLawful(events)
    requires ValiditySpec(NotVerified, events) == FalsePositive
    ensures exists e :: e in events && (SignedRefutation(e) || AcceptedRefutation(e))
    ensures Latest(events, Decisive).Some? ==> TwoSignedAfter(events, Latest(events, Decisive).value)
  {
    if Latest(events, Decisive).Some? {
      var proof := Latest(events, Decisive).value;
      LatestIsMember(events, Decisive);
      var a, b :| a in events && b in events && Overrides(a, proof) && Overrides(b, proof)
               && a.source.actor.identity != b.source.actor.identity;
      assert SignedRefutation(a) && SignedRefutation(b);
    } else if Latest(events, HumanEvent).Some? {
      LatestIsMember(events, HumanEvent);
      assert SignedRefutation(Latest(events, HumanEvent).value);
    } else {
      LatestIsMember(events, MachineEvent);
      assert AcceptedRefutation(Latest(events, MachineEvent).value);
    }
  }

  /** Over every run of every kind of write, from any log the writer built (the empty shell
      in particular): a finding reads false_positive only on that authority, and a decisive
      execution confirmation is overridden only by two distinct named, verified humans. */
  lemma AuthorityOverRuns(layer: Layer, steps: seq<Step>, findingRef: string, now: string)
    requires WellKept(layer.events)
    ensures
      var end := Run(layer, steps);
      var events := EventsOf(end, findingRef);
      FindingOf(end, findingRef, now).disposition.validity == FalsePositive ==>
        && (exists e :: e in events && (SignedRefutation(e) || AcceptedRefutation(e)))
        && (Latest(events, Decisive).Some? ==> TwoSignedAfter(events, Latest(events, Decisive).value))
  {
    LogOverRuns(layer, steps);
    var end := Run(layer, steps);
    var events := EventsOf(end, findingRef);
    if FindingOf(end, findingRef, now).disposition.validity == FalsePositive {
      forall e | e in events
        ensures Lawful(e)
      {
        EvidenceIsLogged(end, findingRef, e);
      }
      FalsePositiveNeedsAuthority(events, now);
    }
  }

  /** The two sides agree on what counts as proof: when every event matches the reference
      and the engine sees a decisive confirmation, the write-side gate is active. */
  lemma EngineProofActivatesGate(events: seq<Event>, findingRef: string, proof: Event)
    requires forall e :: e in events ==> MatchesFinding(e, findingRef)
    requires Latest(events, Decisive) == Some(proof) && proof.disposition.validity == Some(Confirmed)
    ensures ExecProof(events, findingRef)
  {
    LatestIsMember(events, Decisive);
    ParsedMembers(events);
    assert Parsed(proof) in ParseAll(events) && ExecutionConfirmed(proof);
  }

  // ---------- what a write does to a finding's evidence ----------

  /** The alias table of the metadata after a write. */
  function TableAfter(layer: Layer, step: Step): map<string, Alias> {
    match step
    case PatchMetadata(updates, _, _) => PatchAliases(layer.meta.findingAliases, updates.aliases)
    case RestateDirectly(_, updates, _) => AssignAliases(layer.meta.findingAliases, updates.aliases)
    case _ => layer.meta.findingAliases
  }

  ghost function NewEvidence(layer: Layer, step: Step): seq<Event>
    requires Edit(layer, step).Ok?
  {
    Filter(Added(layer, step), IsEvidence)
  }

  /** The aliases a write leaves in force: its table, overlaid by alias events old and new. */
  ghost function AliasesAfter(layer: Layer, step: Step): map<string, Alias>
    requires Edit(layer, step).Ok?
  {
    TableAfter(layer, step) + AliasesFromEvents(Evidence(layer) + NewEvidence(layer, step))
  }

  /** Every recorded event resolves to the finding after the write exactly when it did before. */
  ghost predicate KeepsEvidence(layer: Layer, step: Step, findingRef: string)
    requires Edit(layer, step).Ok?
  {
    SameGrouping(Evidence(layer), AliasesOf(layer), AliasesAfter(layer, step), findingRef)
  }

  /** What a write adds to a finding. */
  ghost function Gains(layer: Layer, step: Step, findingRef: string): seq<Event>
    requires Edit(layer, step).Ok?
  {
    Filter(NewEvidence(layer, step), Belongs(AliasesAfter(layer, step), findingRef))
  }

  lemma EditTable(layer: Layer, step: Step)
    requires Edit(layer, step).Ok?
    ensures Edit(layer, step).value.meta.findingAliases == TableAfter(layer, step)
  {
  }

  lemma AliasesMove(layer: Layer, step: Step)
    requires Apply(layer, step).Ok?
    ensures Edit(layer, step).Ok?
    ensures Evidence(Next(layer, step)) == Evidence(layer) + NewEvidence(layer, step)
    ensures AliasesOf(Next(layer, step)) == AliasesAfter(layer, step)
  {
    ApplyIsEdit(layer, step);
    EditTable(layer, step);
    EditAdds(layer, step);
    FilterOfConcat(layer.events, Added(layer, step), IsEvidence);
  }

  /** For every accepted write of every kind: a finding keeps its evidence, and gains only what
      the write adds, if and only if no recorded event is re-pointed to it or away from it. */
  lemma EvidenceExact(layer: Layer, step: Step, findingRef: string)
    requires Apply(layer, step).Ok?
    ensures Edit(layer, step).Ok?
    ensures EventsOf(Next(layer, step), findingRef) == EventsOf(layer, findingRef) + Gains(layer, step, findingRef)
       <==> KeepsEvidence(layer, step, findingRef)
  {
    AliasesMove(layer, step);
    var after := AliasesAfter(layer, step);
    FilterOfConcat(Evidence(layer), NewEvidence(layer, step), Belongs(after, findingRef));
    RegroupExact(Evidence(layer), AliasesOf(layer), after, findingRef);
    SamePrefix(Filter(Evidence(layer), Belongs(after, findingRef)), EventsOf(layer, findingRef),
        Gains(layer, step, findingRef));
  }

  lemma SamePrefix(a: seq<Event>, b: seq<Event>, suffix: seq<Event>)
    ensures a + suffix == b + suffix <==> a == b
  {
    if a + suffix == b + suffix {
      assert |a| == |b|;
      assert a == (a + suffix)[..|a|] && b == (b + suffix)[..|b|];
    }
  }

  /** A write that renames nothing: no update of the table, no alias event. */
  ghost predicate RenamesNothing(layer: Layer, step: Step) {
    && TableAfter(layer, step) == layer.meta.findingAliases
    && Edit(layer, step).Ok? && forall e :: e in Added(layer, step) ==> e.alias.None?
  }

  lemma {:induction false} AliasesUnmoved(evidence: seq<Event>, more: seq<Event>)
    requires forall e :: e in more ==> e.alias.None?
    ensures AliasesFromEvents(evidence + more) == AliasesFromEvents(evidence)
    decreases |more|
  {
    if more == [] {
      assert evidence + more == evidence;
    } else {
      assert more[|more| - 1] in more;
      assert (evidence + more)[..|evidence + more| - 1] == evidence + more[..|more| - 1];
      AliasesUnmoved(evidence, more[..|more| - 1]);
    }
  }

  lemma RenamelessKeepsEvidence(layer: Layer, step: Step, findingRef: string)
    requires RenamesNothing(layer, step)
    ensures KeepsEvidence(layer, step, findingRef)
  {
    forall e | e in NewEvidence(layer, step)
      ensures e.alias.None?
    {
      FilterKeeps(Added(layer, step), IsEvidence, e);
    }
    AliasesUnmoved(Evidence(layer), NewEvidence(layer, step));
  }

  // ---------- one person alone ----------

  /** Stamped with this person's identity, as the handlers stamp their caller's. */
  predicate Stamped(event: Event, identity: string) {
    event.source.actor.kind == Human && event.source.actor.identity == Some(identity)
  }

  /** A write by this one person that re-points no evidence of the finding.  Countersigns,
      handler restatements, signing and closing items cannot; the rest are looked at. */
  ghost predicate ByOnePerson(layer: Layer, step: Step, findingRef: string, identity: string)
    requires Edit(layer, step).Ok?
  {
    match step
    case AppendEvent(event, _) => Stamped(event, identity) && KeepsEvidence(layer, step, findingRef)
    case SubmitBatch(events, _, _) =>
      (forall e :: e in events ==> Stamped(e, identity)) && KeepsEvidence(layer, step, findingRef)
    case Countersign(req, _) => req.actor.identity == Some(identity)
    case RestateDirectly(event, _, _) => Stamped(event, identity) && KeepsEvidence(layer, step, findingRef)
    case PatchMetadata(_, _, _) => KeepsEvidence(layer, step, findingRef)
    case _ => true
  }

  /** The finding stands confirmed by `proof`, and nobody else has signed against it since. */
  predicate StandsAgainst(events: seq<Event>, proof: Event, identity: string) {
    && Latest(events, Decisive) == Some(proof)
    && forall e :: e in events && Overrides(e, proof) ==> e.source.actor.identity == Some(identity)
  }

  lemma StandsMeansConfirmed(events: seq<Event>, proof: Event, identity: string, now: string)
    requires proof.disposition.validity == Some(Confirmed)
    requires StandsAgainst(events, proof, identity)
    ensures Derive(NotVerified, events, now).validity == Confirmed
  {
    ValidityRefinesSpec(NotVerified, events, now);
  }

  /** An event that proves nothing by execution and can only count against the proof under
      this person's name. */
  predicate Harmless(e: Event, proof: Event, identity: string) {
    !Decisive(e) && (Overrides(e, proof) ==> e.source.actor.identity == Some(identity))
  }

  lemma {:induction false} StandsAfterGains(events: seq<Event>, more: seq<Event>, proof: Event, identity: string)
    requires StandsAgainst(events, proof, identity)
    requires forall e :: e in more ==> Harmless(e, proof, identity)
    ensures StandsAgainst(events + more, proof, identity)
    decreases |more|
  {
    if more == [] {
      assert events + more == events;
    } else {
      var init, last := more[..|more| - 1], more[|more| - 1];
      assert last in more;
      StandsAfterGains(events, init, proof, identity);
      StandsAfterOne(events + init, last, proof, identity);
      assert events + more == (events + init) + [last];
    }
  }

  lemma StandsAfterOne(events: seq<Event>, e: Event, proof: Event, identity: string)
    requires StandsAgainst(events, proof, identity) && Harmless(e, proof, identity)
    ensures StandsAgainst(events + [e], proof, identity)
  {
    assert (events + [e])[..|events|] == events;
  }

  lemma StampedIsHarmless(e: Event, proof: Event, identity: string)
    requires Stamped(e, identity)
    ensures Harmless(e, proof, identity)
  {
  }

  lemma CountersignIsHarmless(layer: Layer, req: CountersignRequest, proof: Event, identity: string)
    requires CountersignPrecheck(req).None? && req.actor.identity == Some(identity)
    ensures
      var event := CountersignEvent(layer, req);
      && event.alias.None? && event.restatement.None?
      && (Prepare(event).Ok? ==> Harmless(Prepare(event).value, proof, identity) && Prepare(event).value.alias.None?)
  {
  }

  lemma OneAddedIsHarmless(events: seq<Event>, event: Event, proof: Event, identity: string)
    requires Prepare(event).Ok? && Stamped(event, identity)
    ensures forall e :: e in AddedOne(events, event) ==> Harmless(e, proof, identity)
  {
    StampedIsHarmless(Prepare(event).value, proof, identity);
  }

  lemma CountersignAddsHarmless(layer: Layer, req: CountersignRequest, proof: Event, identity: string)
    requires EditCountersign(layer, req).Ok? && req.actor.identity == Some(identity)
    ensures forall e :: e in AddedOne(layer.events, CountersignEvent(layer, req)) ==> Harmless(e, proof, identity)
  {
    CountersignIsHarmless(layer, req, proof, identity);
  }

  lemma BatchIsHarmless(known: set<EventId>, events: seq<Event>, proof: Event, identity: string)
    requires forall e :: e in events ==> Stamped(e, identity)
    ensures forall e :: e in Novel(known, events) ==> Harmless(e, proof, identity)
  {
    forall e | e in Novel(known, events)
      ensures Harmless(e, proof, identity)
    {
      NovelIsIncoming(known, events, e);
      StampedIsHarmless(e, proof, identity);
    }
  }

  lemma AddsHarmless(layer: Layer, step: Step, findingRef: string, proof: Event, identity: string)
    requires Edit(layer, step).Ok? && ByOnePerson(layer, step, findingRef, identity)
    ensures forall e :: e in Added(layer, step) && IsEvidence(e) ==> Harmless(e, proof, identity)
  {
    match step {
      case AppendEvent(event, _) => OneAddedIsHarmless(layer.events, event, proof, identity);
      case SubmitBatch(events, _, _) => BatchIsHarmless(IdsOf(layer.events), events, proof, identity);
      case Countersign(req, _) => CountersignAddsHarmless(layer, req, proof, identity);
      case RestateDirectly(event, _, _) => OneAddedIsHarmless(layer.events, event, proof, identity);
      case _ =>
    }
  }

  /** Countersigns, handler restatements, signing and closing items rename nothing. */
  lemma QuietStepRenamesNothing(layer: Layer, step: Step)
    requires Edit(layer, step).Ok?
    requires step.Countersign? || step.Restate? || step.SignLayer? || step.ResolveItem?
    ensures RenamesNothing(layer, step)
  {
    match step {
      case Countersign(req, _) => OneRenamesNothing(layer.events, CountersignEvent(layer, req));
      case Restate(req, _) => OneRenamesNothing(layer.events, BuildRestatementEvent(req));
      case _ =>
    }
  }

  lemma OneRenamesNothing(events: seq<Event>, event: Event)
    requires event.alias.None?
    ensures forall e :: e in AddedOne(events, event) ==> e.alias.None?
  {
  }

  lemma OnePersonKeepsEvidence(layer: Layer, step: Step, findingRef: string, identity: string)
    requires Edit(layer, step).Ok? && ByOnePerson(layer, step, findingRef, identity)
    ensures KeepsEvidence(layer, step, findingRef)
  {
    if step.Countersign? || step.Restate? || step.SignLayer? || step.ResolveItem? {
      QuietStepRenamesNothing(layer, step);
      RenamelessKeepsEvidence(layer, step, findingRef);
    }
  }

  lemma StepStands(layer: Layer, step: Step, findingRef: string, proof: Event, identity: string)
    requires Apply(layer, step).Ok? ==> Edit(layer, step).Ok? && ByOnePerson(layer, step, findingRef, identity)
    requires StandsAgainst(EventsOf(layer, findingRef), proof, identity)
    ensures StandsAgainst(EventsOf(Next(layer, step), findingRef), proof, identity)
  {
    if Apply(layer, step).Ok? {
      EvidenceExact(layer, step, findingRef);
      OnePersonKeepsEvidence(layer, step, findingRef, identity);
      AddsHarmless(layer, step, findingRef, proof, identity);
      GainsAreAdded(layer, step, findingRef);
      StandsAfterGains(EventsOf(layer, findingRef), Gains(layer, step, findingRef), proof, identity);
    }
  }

  lemma GainsAreAdded(layer: Layer, step: Step, findingRef: string)
    requires Edit(layer, step).Ok?
    ensures forall e :: e in Gains(layer, step, findingRef) ==> e in Added(layer, step) && IsEvidence(e)
  {
    forall e | e in Gains(layer, step, findingRef)
      ensures e in Added(layer, step) && IsEvidence(e)
    {
      FilterKeeps(NewEvidence(layer, step), Belongs(AliasesAfter(layer, step), findingRef), e);
      FilterKeeps(Added(layer, step), IsEvidence, e);
    }
  }

  ghost predicate OnePersonRun(layer: Layer, steps: seq<Step>, findingRef: string, identity: string) {
    steps == [] ||
    var mid, last := Run(layer, steps[..|steps| - 1]), steps[|steps| - 1];
    && OnePersonRun(layer, steps[..|steps| - 1], findingRef, identity)
    && (Apply(mid, last).Ok? ==> Edit(mid, last).Ok? && ByOnePerson(mid, last, findingRef, identity))
  }

  /** One person alone never dismisses an execution-confirmed finding without re-pointing its
      evidence: through any run of their writes, on any references, at any claimed times, by
      countersign, batch, append, restatement or patch, the finding stays confirmed. */
  lemma {:induction false} OnePersonCannotDismiss(
    layer: Layer, steps: seq<Step>, findingRef: string, proof: Event, identity: string, now: string)
    requires proof.disposition.validity == Some(Confirmed)
    requires StandsAgainst(EventsOf(layer, findingRef), proof, identity)
    requires OnePersonRun(layer, steps, findingRef, identity)
    ensures StandsAgainst(EventsOf(Run(layer, steps), findingRef), proof, identity)
    ensures FindingOf(Run(layer, steps), findingRef, now).disposition.validity == Confirmed
    decreases |steps|
  {
    if steps != [] {
      OnePersonCannotDismiss(layer, steps[..|steps| - 1], findingRef, proof, identity, now);
      StepStands(Run(layer, steps[..|steps| - 1]), steps[|steps| - 1], findingRef, proof, identity);
    }
    StandsMeansConfirmed(EventsOf(Run(layer, steps), findingRef), proof, identity, now);
  }
}
