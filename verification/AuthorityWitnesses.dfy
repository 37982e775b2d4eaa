/** One person dismissing a finding by re-pointing its evidence: through the alias table of the
    metadata, which no signature covers, and through an alias event of their own. */
module AuthorityWitnesses {
  import opened Wrappers
  import opened Events
  import opened Layers
  import opened Gates
  import opened Writer
  import opened Handlers
  import opened Samples
  import opened StableSort
  import opened DispositionEngine
  import opened Findings
  import opened Authority

  const Runner := Actor(Machine, None, None, None, None)

  /** F-1 is confirmed by execution. */
  const Proof := Recorded("run", "F-1", None, VerificationReport, Runner, Some(Confirmed), None)

  /** Point F-1 elsewhere, and another reference at F-1. */
  const Repoint := Updates(
    map[], Some(Some(map["F-1" := Alias("Z", true), "G" := Alias("F-1", true)])), NoMerkle)

  const AboutG := CountersignRequest(
    "G", "false_positive", "", "not exploitable here", Noon, Alice, false, EmptyDisposition, 0)

  lemma ProofIsAccepted()
    ensures Apply(Shell, AppendEvent(Proof, Signing)).Ok?
    ensures
      var next := Next(Shell, AppendEvent(Proof, Signing));
      next.events == [Proof] && next.meta.merkleEpoch == Some(0) && next.meta.findingAliases == map[]
  {
    var step := AppendEvent(Proof, Signing);
    assert Prepare(Proof) == Ok(Proof);
    AppendOneAdds([], Proof);
    AcceptedAtZero(Shell, step, Edit(Shell, step).value);
  }

  lemma RepointIsAccepted(layer: Layer)
    requires layer.meta.merkleEpoch == Some(0) && layer.meta.findingAliases == map[]
    ensures Apply(layer, PatchMetadata(Repoint, "now", Signing)).Ok?
    ensures
      var next := Next(layer, PatchMetadata(Repoint, "now", Signing));
      && next.events == layer.events && next.meta.merkleEpoch == Some(0)
      && next.meta.findingAliases == Repoint.aliases.value.value
  {
    var step := PatchMetadata(Repoint, "now", Signing);
    PatchEdits(layer, Repoint, Signing);
    AcceptedAtZero(layer, step, Edit(layer, step).value);
    assert map[] + Repoint.aliases.value.value == Repoint.aliases.value.value;
  }

  /** The event alice's countersign of G records. */
  const Refutation := BuildHumanEvent("G", FalsePositive, "not exploitable here", Alice, Noon)

  lemma AboutGEvent(layer: Layer)
    requires layer.events == [Proof]
    ensures CountersignPrecheck(AboutG).None? && CountersignValidity(AboutG) == FalsePositive
    ensures CountersignEvent(layer, AboutG) == Refutation && Prepare(Refutation) == Ok(Refutation)
  {
    assert "F-1"[0] != "G"[0];
    assert [Proof][..0] == [];
    assert KnownFingerprint([Proof], "G").None?;
  }

  lemma RefutationIsNew()
    ensures AddedOne([Proof], Refutation) == [Refutation]
  {
    assert Prepare(Refutation) == Ok(Refutation);
    assert CanonicalId(Refutation).preimage[0] == 'i' && Proof.eventId.preimage[0] == 'r';
  }

  lemma GateMissesProof()
    ensures TwoPersonAllows(ParseAll([Proof]), "G", "alice", FalsePositive)
  {
    assert "F-1"[0] != "G"[0];
    TwoPersonOnEvents([Proof], "G", "alice");
  }

  lemma CountersignIsAccepted(layer: Layer)
    requires layer.events == [Proof] && layer.meta.merkleEpoch == Some(0)
    ensures Apply(layer, Countersign(AboutG, Signing)).Ok?
    ensures
      var next := Next(layer, Countersign(AboutG, Signing));
      next.events == [Proof, Refutation] && next.meta.findingAliases == layer.meta.findingAliases
  {
    AboutGEvent(layer);
    GateMissesProof();
    RefutationIsNew();
    AppendOneAdds(layer.events, Refutation);
    var edited := EditCountersign(layer, AboutG).value;
    assert [Proof] + [Refutation] == [Proof, Refutation];
    AcceptedAtZero(layer, Countersign(AboutG, Signing), edited);
  }

  /** Selecting from, and reading aliases off, one event and two. */
  lemma SmallLogs(a: Event, b: Event, keep: Event -> bool)
    ensures Filter([a], keep) == if keep(a) then [a] else []
    ensures Filter([a, b], keep) == (if keep(a) then [a] else []) + (if keep(b) then [b] else [])
  {
    var none: seq<Event> := [];
    assert none + [a] == [a] && [a] + [b] == [a, b];
    assert Filter(none, keep) == [];
    FilterSnoc(none, a, keep);
    FilterSnoc([a], b, keep);
  }

  lemma SmallTables(a: Event, b: Event)
    requires a.alias.None?
    ensures AliasesFromEvents([a]) == map[]
    ensures AliasesFromEvents([a, b])
         == if b.alias.Some? && b.findingRef != "" then map[b.findingRef := b.alias.value] else map[]
  {
    assert [a][..0] == [] && [a, b][..1] == [a];
    assert AliasesFromEvents([a][..0]) == map[];
  }

  lemma ProofStands(layer: Layer, now: string)
    requires layer.events == [Proof] && layer.meta.findingAliases == map[]
    ensures StandsAgainst(EventsOf(layer, "F-1"), Proof, "alice")
    ensures FindingOf(layer, "F-1", now).disposition.validity == Confirmed
  {
    SmallLogs(Proof, Proof, IsEvidence);
    SmallTables(Proof, Proof);
    assert AliasesOf(layer) == map[];
    SmallLogs(Proof, Proof, Belongs(AliasesOf(layer), "F-1"));
    assert EventsOf(layer, "F-1") == [Proof];
    assert [Proof][..0] == [] && Latest([Proof][..0], Decisive).None?;
    assert Latest([Proof], Decisive) == Some(Proof);
    StandsMeansConfirmed([Proof], Proof, "alice", now);
  }

  /** Under the re-pointed table F-1 holds alice's refutation alone. */
  lemma RepointedEvents(layer: Layer)
    requires layer.events == [Proof, Refutation] && layer.meta.findingAliases == Repoint.aliases.value.value
    ensures EventsOf(layer, "F-1") == [Refutation]
  {
    SmallLogs(Proof, Refutation, IsEvidence);
    SmallTables(Proof, Refutation);
    var aliases := AliasesOf(layer);
    assert aliases == Repoint.aliases.value.value;
    assert "Z"[0] != "F-1"[0] && "G"[0] != "F-1"[0];
    assert ResolveRef(aliases, "F-1") == "Z" && ResolveRef(aliases, "G") == "F-1";
    SmallLogs(Proof, Refutation, Belongs(aliases, "F-1"));
  }

  lemma RefutationAloneDismisses(now: string)
    ensures Derive(NotVerified, [Refutation], now).validity == FalsePositive
  {
    ValidityRefinesSpec(NotVerified, [Refutation], now);
    assert [Refutation][..0] == [];
    assert HumanEvent(Refutation) && !Decisive(Refutation);
    assert Latest([Refutation], Decisive).None?;
    assert Latest([Refutation], HumanEvent) == Some(Refutation);
  }

  /** Alice patches the alias table and countersigns another reference.  The gate on that
      reference sees no proof, and an execution-confirmed finding reads false_positive on one
      signature. */
  lemma AliasPatchDismisses(now: string)
    ensures
      var steps := [AppendEvent(Proof, Signing), PatchMetadata(Repoint, "now", Signing), Countersign(AboutG, Signing)];
      var start, end := Run(Shell, steps[..1]), Run(Shell, steps);
      && Apply(start, steps[1]).Ok? && Apply(Run(Shell, steps[..2]), steps[2]).Ok?
      && StandsAgainst(EventsOf(start, "F-1"), Proof, "alice")
      && FindingOf(start, "F-1", now).disposition.validity == Confirmed
      && FindingOf(end, "F-1", now).disposition.validity == FalsePositive
  {
    var a, b, c := AppendEvent(Proof, Signing), PatchMetadata(Repoint, "now", Signing), Countersign(AboutG, Signing);
    ThreeSteps(Shell, a, b, c);
    ProofIsAccepted();
    var start := Next(Shell, a);
    ProofStands(start, now);
    RepointIsAccepted(start);
    var mid := Next(start, b);
    CountersignIsAccepted(mid);
    RepointedEvents(Next(mid, c));
    RefutationAloneDismisses(now);
  }

  /** An alias event that alice may submit under her own name. */
  const Renaming := Recorded("rebase", "F-1", None, Rebaseline, Alice, None, Some(Alias("Z", true)))

  lemma RenamedEvents(layer: Layer)
    requires layer.events == [Proof, Renaming] && layer.meta.findingAliases == map[]
    ensures EventsOf(layer, "F-1") == []
  {
    SmallLogs(Proof, Renaming, IsEvidence);
    SmallTables(Proof, Renaming);
    var aliases := AliasesOf(layer);
    assert aliases == map["F-1" := Alias("Z", true)];
    assert "Z"[0] != "F-1"[0];
    SmallLogs(Proof, Renaming, Belongs(aliases, "F-1"));
  }

  lemma RenamingIsAccepted(layer: Layer)
    requires layer.events == [Proof] && layer.meta.merkleEpoch == Some(0)
    ensures Apply(layer, AppendEvent(Renaming, Signing)).Ok?
    ensures
      var next := Next(layer, AppendEvent(Renaming, Signing));
      next.events == [Proof, Renaming] && next.meta.findingAliases == layer.meta.findingAliases
  {
    var step := AppendEvent(Renaming, Signing);
    assert Prepare(Renaming) == Ok(Renaming);
    assert CanonicalId(Renaming).preimage[1] == 'e' && Proof.eventId.preimage[1] == 'u';
    AppendOneAdds(layer.events, Renaming);
    assert [Proof] + [Renaming] == [Proof, Renaming];
    AcceptedAtZero(layer, step, Edit(layer, step).value);
  }

  /** The same through the log: a confirmed alias event takes the proof away from the finding. */
  lemma AliasEventTakesProofAway(now: string)
    ensures
      var steps := [AppendEvent(Proof, Signing), AppendEvent(Renaming, Signing)];
      var start, end := Run(Shell, steps[..1]), Run(Shell, steps);
      && Apply(start, steps[1]).Ok? && Stamped(Renaming, "alice")
      && FindingOf(start, "F-1", now).disposition.validity == Confirmed
      && EventsOf(end, "F-1") == []
  {
    var a, b := AppendEvent(Proof, Signing), AppendEvent(Renaming, Signing);
    TwoSteps(Shell, a, b);
    ProofIsAccepted();
    var start := Next(Shell, a);
    ProofStands(start, now);
    RenamingIsAccepted(start);
    RenamedEvents(Next(start, b));
  }
}
