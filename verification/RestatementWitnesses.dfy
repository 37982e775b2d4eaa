/** Concrete runs that the restatement results have to exclude: a correction whose event id is
    taken, a restatement that enters past the handler, a patch that brings a deleted entry
    back, and a restatement that does not record what it overwrites. */
module RestatementWitnesses {
  import opened Wrappers
  import opened Events
  import opened Layers
  import opened Restatements
  import opened Gates
  import opened Writer
  import opened Handlers
  import opened Samples
  import opened ReplayRuns
  import opened RestatementRuns
  import opened UnwindRuns
  import opened SignatureRuns

  lemma ShellReplays()
    ensures ReplayClean(Shell) && AtZero(Shell) && forall t: Target :: Chain(Shell.events, t) == []
  {
  }

  /** The only block of a chain, and what it pins. */
  lemma OneBlock(block: Block)
    ensures Replay([block]) == block.after
    ensures forall key :: RetiredEntries([block], key) == BlockEntries(block, key)
  {
    assert [block][..0] == [];
  }

  lemma BuiltIsPrepared(req: RestateRequest)
    ensures Prepare(BuildRestatementEvent(req)) == Ok(BuildRestatementEvent(req))
    ensures AddedOne([], BuildRestatementEvent(req)) == [BuildRestatementEvent(req)]
  {
  }

  /** After a first change of claim F-1: one block in the chain, and it replays. */
  lemma FirstChange(req: RestateRequest, to: Option<string>)
    requires req == Change("old", to, req.shortDigest) && to != Some("old")
    ensures Apply(Shell, Restate(req, Signing)).Ok?
    ensures
      var next := Next(Shell, Restate(req, Signing));
      && next.events == [BuildRestatementEvent(req)] && next.meta.merkleEpoch == Some(0)
      && next.meta.claimHashes == (if to.Some? then Obj(map["F-1" := to]) else Obj(map[]))
      && Chain(next.events, ClaimHashes) == [req.block]
      && ReplayClean(next)
  {
    ShellReplays();
    BuiltIsPrepared(req);
    ChangeIsAccepted(Shell, req, "old", to, Signing);
    assert [] + [BuildRestatementEvent(req)] == [BuildRestatementEvent(req)];
    ChainOfBuilt(req);
    FirstChangeReplays(req);
  }

  lemma ChainOfBuilt(req: RestateRequest)
    ensures Chain([BuildRestatementEvent(req)], req.block.target) == [req.block]
  {
    assert [BuildRestatementEvent(req)][..0] == [];
  }

  lemma FirstChangeReplays(req: RestateRequest)
    requires Apply(Shell, Restate(req, Signing)).Ok?
    ensures ReplayClean(Next(Shell, Restate(req, Signing)))
  {
    ShellReplays();
    RestateReplayExact(Shell, req, Signing);
  }

  // ---------- a taken id ----------

  /** The correction is accepted, the claim changes, and the log names no restatement. */
  lemma TakenIdOverwritesSilently()
    ensures
      var steps := [AppendEvent(Squatter, Signing), Restate(Correction, NoKey)];
      var start, end := Run(Shell, steps[..1]), Run(Shell, steps);
      && Apply(start, steps[1]).Ok?
      && Records(Field(start.meta, ClaimHashes), Some("F-1"), Str("old"))
      && !Records(Field(end.meta, ClaimHashes), Some("F-1"), Str("old"))
      && !ExplainedSince(start.events, end.events, ClaimHashes, Some("F-1"))
  {
    var a, b := AppendEvent(Squatter, Signing), Restate(Correction, NoKey);
    TwoSteps(Shell, a, b);
    SquatterIsSigned();
    var start := Next(Shell, a);
    StepSignsOverEvents(Shell, a);
    TakenIdIsAccepted(start);
    CorrectionDisplaces(start);
    OverwriteExplainedExact(start, b, ClaimHashes, Some("F-1"), Str("old"));
  }

  lemma CorrectionDisplaces(start: Layer)
    requires start.meta.claimHashes == Shell.meta.claimHashes
    requires |start.events| == 1 && start.events[0].eventId == BuildRestatementEvent(Correction).eventId
    ensures Records(Field(start.meta, ClaimHashes), Some("F-1"), Str("old"))
    ensures !KeepsOrExplains(start, Restate(Correction, NoKey), ClaimHashes, Some("F-1"), Str("old"))
  {
    assert "old"[0] != "new"[0];
    assert start.events[0] in start.events;
    MovedClaim("old", Some("new"));
  }

  /** A second correction of the same claim, and an ordinary event holding its id. */
  const SecondCorrection := Change("new", Some("third"), "ba9876543210")
  const SecondSquatter := SquatterOf(SecondCorrection)

  lemma SquatterIsAccepted(layer: Layer)
    requires layer.meta.merkleEpoch == Some(0) && ReplayClean(layer)
    ensures Prepare(SecondSquatter).Ok?
    ensures Apply(layer, AppendEvent(SecondSquatter, Signing)).Ok?
    ensures
      var next := Next(layer, AppendEvent(SecondSquatter, Signing));
      && next.meta.merkleEpoch == Some(0) && next.meta.claimHashes == layer.meta.claimHashes
      && Chain(next.events, ClaimHashes) == Chain(layer.events, ClaimHashes)
      && Dropped(next, SecondCorrection) && ReplayClean(next)
  {
    var step := AppendEvent(SecondSquatter, Signing);
    var edited := Edit(layer, step).value;
    AcceptedAtZero(layer, step, edited);
    assert Field(Next(layer, step).meta, ClaimHashes) == Field(edited.meta, ClaimHashes);
    SquatterTakesId(layer.events);
    forall t: Target
      ensures NewBlocks(layer, step, t) == []
    {
      ChainOfAddedOne(layer.events, SecondSquatter, t);
    }
    EditChain(layer, step, ClaimHashes);
    StepReplayExact(layer, step);
  }

  lemma SquatterTakesId(events: seq<Event>)
    ensures Prepare(SecondSquatter).Ok?
    ensures BuildRestatementEvent(SecondCorrection).eventId in IdsOf(AppendOne(events, SecondSquatter).value.0)
  {
    AppendOneAdds(events, SecondSquatter);
    if CanonicalId(SecondSquatter) !in IdsOf(events) {
      var all := AppendOne(events, SecondSquatter).value.0;
      assert all[|events|] in all;
    } else {
      assert AppendOne(events, SecondSquatter).value.0 == events;
    }
  }

  lemma SecondCorrectionIsAccepted(layer: Layer)
    requires layer.meta.merkleEpoch == Some(0) && layer.meta.claimHashes == Obj(map["F-1" := Some("new")])
    requires layer.events != [] && Chain(layer.events, ClaimHashes) == [Correction.block]
    ensures Apply(layer, Restate(SecondCorrection, Signing)).Ok?
    ensures !ChainSilent(Chain(layer.events, ClaimHashes), SecondCorrection.block.after)
  {
    OneBlock(Correction.block);
    assert "third"[0] != "new"[0] && "third"[0] != "old"[0];
    ChangeIsAccepted(layer, SecondCorrection, "new", Some("third"), Signing);
    assert "F-1" in Replay([Correction.block]).entries && "F-1" in SecondCorrection.block.after.entries;
  }

  /** A taken id breaks the replay: the second correction passes every gate, changes the claim,
      and leaves the chain expecting the first one's value. */
  lemma TakenIdBreaksReplay()
    ensures
      var steps := [Restate(Correction, Signing), AppendEvent(SecondSquatter, Signing),
          Restate(SecondCorrection, Signing)];
      && Apply(Shell, steps[0]).Ok? && Apply(Run(Shell, steps[..1]), steps[1]).Ok?
      && Apply(Run(Shell, steps[..2]), steps[2]).Ok?
      && ReplayClean(Run(Shell, steps[..2])) && !ReplayClean(Run(Shell, steps))
  {
    var a, b, c := Restate(Correction, Signing), AppendEvent(SecondSquatter, Signing),
        Restate(SecondCorrection, Signing);
    ThreeSteps(Shell, a, b, c);
    assert "new"[0] != "old"[0];
    FirstChange(Correction, Some("new"));
    var corrected := Next(Shell, a);
    SquatterIsAccepted(corrected);
    var mid := Next(corrected, b);
    assert mid.events != [] by {
      assert Dropped(mid, SecondCorrection);
    }
    SecondCorrectionIsAccepted(mid);
    RestateReplayExact(mid, SecondCorrection, Signing);
  }

  // ---------- past the handler ----------

  /** A restatement by a machine, with no ticket, as a writer's caller may hand it in. */
  const Smuggled := BuildRestatementEvent(Correction).(
    source := BuildRestatementEvent(Correction).source.(actor := Actor(Machine, None, None, None, None)),
    restatement := Some(Correction.block.(ticket := "")))

  /** The three ways past the handler. */
  predicate SmugglesIn(step: Step) {
    || step == AppendEvent(Smuggled, Signing)
    || step == SubmitBatch([Smuggled], [], Signing)
    || step == RestateDirectly(Smuggled, Updates(map[], None, NoMerkle), Signing)
  }

  lemma SmuggledEdits(step: Step)
    requires SmugglesIn(step)
    ensures Edit(Shell, step) == Ok(Shell.(events := [Smuggled]))
    ensures Added(Shell, step) == [Smuggled]
  {
    SmuggledIsAppended();
    match step {
      case RestateDirectly(_, updates, _) => SmuggledDirectly(updates.fields);
      case SubmitBatch(_, items, _) => assert Enqueue(Shell.queue, items) == Shell.queue;
      case _ =>
    }
    EditAdds(Shell, step);
  }

  lemma SmuggledIsAppended()
    ensures Prepare(Smuggled) == Ok(Smuggled)
    ensures AppendOne([], Smuggled) == Ok(([Smuggled], Smuggled.eventId))
    ensures AppendMany([], [Smuggled]) == Ok(([Smuggled], [Smuggled.eventId]))
  {
    var none: seq<Event> := [];
    assert none + [Smuggled] == [Smuggled];
    BatchOfOne(none, Smuggled);
  }

  lemma SmuggledDirectly(fields: map<Target, Json>)
    requires fields == map[]
    ensures AppendRestatement(Shell, Smuggled, fields) == Ok(Shell.(events := [Smuggled]))
  {
    SmuggledIsAppended();
    assert ApplyUpdates(Shell.meta, fields) == Shell.meta;
    assert Covered(Shell.meta, Shell.meta, Smuggled);
  }

  /** Accepted on every one of them, unattributable, and out of step with what is stored. */
  lemma UngatedRestatementDrifts(step: Step)
    requires SmugglesIn(step)
    ensures Apply(Shell, step).Ok?
    ensures ReplayClean(Shell) && !ReplayClean(Next(Shell, step))
    ensures !AllAuthored(Next(Shell, step).events)
  {
    ShellReplays();
    SmuggledEdits(step);
    var edited := Shell.(events := [Smuggled]);
    AcceptedAtZero(Shell, step, edited);
    assert Smuggled in edited.events && !Authored(Smuggled);
    SmuggledDrifts(Next(Shell, step));
  }

  lemma SmuggledDrifts(next: Layer)
    requires next.events == [Smuggled]
    requires Field(next.meta, ClaimHashes) == Field(Shell.meta, ClaimHashes)
    ensures Drifted(next, ClaimHashes)
  {
    var block := Correction.block.(ticket := "");
    assert [Smuggled][..0] == [];
    assert Chain(next.events, ClaimHashes) == [block];
    OneBlock(block);
    assert "old"[0] != "new"[0];
    assert EntryOf(next.meta.claimHashes.entries, "F-1") != block.after.entries["F-1"];
  }

  /** A reversal handed in as an ordinary append. */
  const Reversal := BuildRestatementEvent(Change("new", Some("old"), "ffffffffffff"))

  /** Past the handler a value may come back: the chain goes from old to new to old. */
  lemma UngatedRestatementRestores()
    ensures
      var steps := [Restate(Correction, Signing), AppendEvent(Reversal, Signing)];
      && Apply(Run(Shell, steps[..1]), steps[1]).Ok?
      && NeverRestores(Chain(Run(Shell, steps[..1]).events, ClaimHashes))
      && !NeverRestores(Chain(Run(Shell, steps).events, ClaimHashes))
  {
    var a, b := Restate(Correction, Signing), AppendEvent(Reversal, Signing);
    TwoSteps(Shell, a, b);
    assert "new"[0] != "old"[0];
    FirstChange(Correction, Some("new"));
    var corrected := Next(Shell, a);
    ReversalIsAccepted(corrected);
    StepNeverRestores(corrected, b, ClaimHashes);
  }

  lemma ReversalIsAccepted(layer: Layer)
    requires layer.meta.merkleEpoch == Some(0) && layer.events == [BuildRestatementEvent(Correction)]
    requires Chain(layer.events, ClaimHashes) == [Correction.block]
    ensures Apply(layer, AppendEvent(Reversal, Signing)).Ok?
    ensures !Monotonic(layer, AppendEvent(Reversal, Signing), ClaimHashes)
  {
    var step := AppendEvent(Reversal, Signing);
    assert Prepare(Reversal).Ok?;
    ReversalIsNew();
    AcceptedAtZero(layer, step, Edit(layer, step).value);
    ChainOfAddedOne(layer.events, Reversal, ClaimHashes);
    ReversalIsRefused(Reversal.restatement.value);
  }

  lemma ReversalIsNew()
    ensures CanonicalId(Reversal) !in IdsOf([BuildRestatementEvent(Correction)])
  {
    assert DatePrefix(Noon) == "2026-09-01";
    assert CanonicalId(Reversal).preimage[29] == 'f';
    assert BuildRestatementEvent(Correction).eventId.preimage[29] == '0';
  }

  lemma ReversalIsRefused(block: Block)
    requires block == Change("new", Some("old"), "ffffffffffff").block
    ensures !PassInTurn([Correction.block], [block])
  {
    OneBlock(Correction.block);
    assert [block][..0] == [] && [Correction.block] + [] == [Correction.block];
    assert Some("old") in BlockEntries(Correction.block, "F-1");
    assert block.after.entries["F-1"] in RetiredEntries([Correction.block], "F-1");
  }

  // ---------- a patch that brings a claim back ----------

  /** A retraction: the claim is restated to nothing. */
  const Retraction := Change("old", None, "0123456789ab")

  const Revival := Updates(map[ClaimHashes := Obj(map["F-1" := Some("new")])], None, NoMerkle)

  /** A patch may re-add a retracted claim: it drops nothing, so it is accepted, and the
      stored value no longer agrees with the chain. */
  lemma PatchRevivesRetractedClaim()
    ensures
      var steps := [Restate(Retraction, Signing), PatchMetadata(Revival, "now", Signing)];
      && Apply(Shell, steps[0]).Ok? && Apply(Run(Shell, steps[..1]), steps[1]).Ok?
      && ReplayClean(Run(Shell, steps[..1])) && !ReplayClean(Run(Shell, steps))
  {
    var a, b := Restate(Retraction, Signing), PatchMetadata(Revival, "now", Signing);
    TwoSteps(Shell, a, b);
    FirstChange(Retraction, None);
    var retracted := Next(Shell, a);
    PatchEdits(retracted, Revival, Signing);
    AcceptedAtZero(retracted, b, Edit(retracted, b).value);
    RevivalRevives();
    PatchReplayExact(retracted, Revival, "now", Signing);
  }

  lemma RevivalRevives()
    ensures !RespectsDeletions([Retraction.block], Revival.fields[ClaimHashes])
  {
    OneBlock(Retraction.block);
    assert Replay([Retraction.block]).entries["F-1"].None?;
    assert "F-1" in Revival.fields[ClaimHashes].entries;
  }

  // ---------- a value nobody recorded ----------

  /** A shell with two claims, and a request that changes both but records only the first. */
  const TwoClaims := Shell.(meta := Shell.meta.(claimHashes := Obj(map["F-1" := Some("old"), "F-2" := Some("kept")])))
  const HalfRecorded := Correction.(
    block := Correction.block.(after := Obj(map["F-1" := Some("new"), "F-2" := Some("lost")])))

  /** The gates pass, the second claim changes, and the log cannot give its prior value back. */
  lemma PartialBeforeLosesPrior()
    ensures
      var step := Restate(HalfRecorded, Signing);
      && Apply(TwoClaims, step).Ok?
      && TwoClaims.meta.claimHashes.Obj? && NoNullEntries(TwoClaims.meta.claimHashes)
      && !UnwindsTo(TwoClaims, Next(TwoClaims, step), ClaimHashes)
  {
    var step := Restate(HalfRecorded, Signing);
    HalfRecordedIsAccepted();
    SecondClaimIsLost();
    StepUnwindsExact(TwoClaims, step, ClaimHashes);
  }

  lemma HalfRecordedIsAccepted()
    ensures Apply(TwoClaims, Restate(HalfRecorded, Signing)).Ok?
  {
    HalfRecordedPasses();
    RestateSucceeds(TwoClaims, HalfRecorded);
    AcceptedAtZero(TwoClaims, Restate(HalfRecorded, Signing), EditRestate(TwoClaims, HalfRecorded).value);
  }

  lemma SecondClaimIsLost()
    ensures TwoClaims.meta.claimHashes.Obj? && NoNullEntries(TwoClaims.meta.claimHashes)
    ensures !KeepsRecoverable(TwoClaims, Restate(HalfRecorded, Signing), ClaimHashes)
  {
    assert "F-1"[2] != "F-2"[2] && "kept"[0] != "lost"[0];
    assert "F-2" in HalfRecorded.block.after.entries && "F-2" !in HalfRecorded.block.before.entries;
    assert !HoldsEntry(TwoClaims.meta.claimHashes, "F-2", HalfRecorded.block.after.entries["F-2"]);
  }

  lemma HalfRecordedPasses()
    ensures RestatePrecheck(HalfRecorded).None? && RestateGates(TwoClaims, HalfRecorded.block).None?
  {
    assert !IsSpace("alice"[0]) && !IsSpace("SEC-1"[0]);
    assert "F-1"[2] != "F-2"[2];
    assert "F-2" in HalfRecorded.block.after.entries && "F-2" !in HalfRecorded.block.before.entries;
  }

  // ---------- a null in storage ----------

  const NullDigest := Updates(map[ArtifactDigests := Obj(map["sbom" := None])], None, NoMerkle)

  /** A patch may store a null entry, which no restatement would leave behind. */
  lemma PatchStoresNull()
    ensures
      var step := PatchMetadata(NullDigest, "now", Signing);
      && Apply(Shell, step).Ok?
      && NoNullEntries(Field(Shell.meta, ArtifactDigests))
      && !NoNullEntries(Field(Next(Shell, step).meta, ArtifactDigests))
  {
    var step := PatchMetadata(NullDigest, "now", Signing);
    PatchEdits(Shell, NullDigest, Signing);
    AcceptedAtZero(Shell, step, Edit(Shell, step).value);
    var stored := Field(Next(Shell, step).meta, ArtifactDigests);
    assert stored == Obj(map["sbom" := None]);
    assert "sbom" in stored.entries && stored.entries["sbom"].None?;
  }

  // ---------- a first value through the handler ----------

  const NoClaims := Shell.(meta := Shell.meta.(claimHashes := Obj(map[])))

  /** A request that replaces nothing and adds a first claim. */
  const FirstClaim := Correction.(block := Block(ClaimHashes, Obj(map[]), Obj(map["F-1" := Some("new")]), "SEC-1"))

  /** The gate looks for the keys of `before` alone, so an empty map gets its first entry through
      the handler. */
  lemma FirstClaimIsAccepted()
    ensures
      var step := Restate(FirstClaim, Signing);
      && Apply(NoClaims, step).Ok?
      && Empty(Field(NoClaims.meta, ClaimHashes))
      && !Empty(Field(Next(NoClaims, step).meta, ClaimHashes))
  {
    var step := Restate(FirstClaim, Signing);
    FirstClaimPasses();
    RestateSucceeds(NoClaims, FirstClaim);
    var edited := EditRestate(NoClaims, FirstClaim).value;
    AcceptedAtZero(NoClaims, step, edited);
    assert Field(Next(NoClaims, step).meta, ClaimHashes) == Field(edited.meta, ClaimHashes);
    assert "F-1" in edited.meta.claimHashes.entries;
  }

  lemma FirstClaimPasses()
    ensures RestatePrecheck(FirstClaim).None? && RestateGates(NoClaims, FirstClaim.block).None?
  {
    assert !IsSpace("alice"[0]) && !IsSpace("SEC-1"[0]);
    assert "F-1" in FirstClaim.block.after.entries;
  }
}
