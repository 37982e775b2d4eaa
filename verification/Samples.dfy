/** Concrete actors, layers and requests shared by the failing inputs, and how a write on a
    layer whose tree starts at event 0 is accepted. */
module Samples {
  import opened Wrappers
  import opened Events
  import opened Layers
  import opened Restatements
  import opened Integrity
  import opened Gates
  import opened Writer
  import opened Handlers

  const Alice := Actor(Human, Some("alice"), Some(true), None, None)
  const Signing := Config(Signs("keypair"), false, true, true)
  const NoKey := Config(Unconfigured, false, true, true)
  const Noon := Timestamp("2026-09-01T12:00:00Z", 0)

  /** A shell that already pins one claim. */
  const Shell := Layer([], Metadata(None, None, None, None, None, None, None, None, None,
                                    Obj(map["F-1" := Some("old")]), Null, Null, map[], None), [])

  /** A request to move claim F-1 from one value to another, or to nothing. */
  function Change(from: string, to: Option<string>, shortDigest: string): RestateRequest {
    RestateRequest(
      Block(ClaimHashes, Obj(map["F-1" := Some(from)]), Obj(map["F-1" := to]), "SEC-1"),
      None, "the baseline claim was wrong", Alice, Noon, shortDigest, 0)
  }

  const Correction := Change("old", Some("new"), "0123456789ab")

  /** An ordinary event that happens to carry the source reference of a request. */
  function SquatterOf(req: RestateRequest): Event {
    var event := BuildRestatementEvent(req);
    event.(restatement := None, source := event.source.(kind := OtherSource("triage")))
  }

  const Squatter := SquatterOf(Correction)

  /** An event as the log would hold it. */
  function Recorded(ref: string, findingRef: string, fingerprint: Option<string>, kind: SourceType, actor: Actor,
      validity: Option<Validity>, alias: Option<Alias>): Event
  {
    Event(ComputeEventId(ref, findingRef, validity, None), findingRef, fingerprint,
          if fingerprint.Some? then Some(ALGO_VERSION) else None, Noon, None, Source(kind, ref, actor),
          Disposition(validity, None, None), None, false, "recorded", None, alias, map[])
  }

  predicate AtZero(layer: Layer) {
    EpochOf(layer.meta) == 0
  }

  /** Finalizing at epoch 0 succeeds and touches nothing but Merkle and signature members. */
  lemma FinalizeAtZero(layer: Layer, config: Config)
    requires AtZero(layer) && !config.signingRequired
    ensures Finalize(layer, config).Ok?
    ensures
      var done := Finalize(layer, config).value;
      && done.events == layer.events && done.meta.merkleEpoch == Some(0)
      && done.meta.findingAliases == layer.meta.findingAliases
      && (config.signer.Signs? ==> done.meta.rootSignature.Some?)
      && (forall t: Target :: Field(done.meta, t) == Field(layer.meta, t))
  {
  }

  lemma ApplyFinalizes(layer: Layer, step: Step, edited: Layer, done: Layer)
    requires Edit(layer, step) == Ok(edited) && Finalizes(step)
    requires !step.config.signingRequired && step.config.schemaAccepts
    requires Finalize(edited, step.config) == Ok(done)
    ensures Apply(layer, step) == Ok(done) && Next(layer, step) == done
  {
  }

  /** A write whose edit goes through is accepted, and stores what it edited. */
  lemma AcceptedAtZero(layer: Layer, step: Step, edited: Layer)
    requires AtZero(edited) && Edit(layer, step) == Ok(edited) && Finalizes(step)
    requires !step.config.signingRequired && step.config.schemaAccepts
    ensures Apply(layer, step).Ok?
    ensures
      var next := Next(layer, step);
      && next.events == edited.events && next.meta.merkleEpoch == Some(0)
      && next.meta.findingAliases == edited.meta.findingAliases
      && (step.config.signer.Signs? ==> next.meta.rootSignature.Some?)
      && (forall t: Target :: Field(next.meta, t) == Field(edited.meta, t))
  {
    FinalizeAtZero(edited, step.config);
    ApplyFinalizes(layer, step, edited, Finalize(edited, step.config).value);
  }

  // ---------- small batches and short runs ----------

  lemma BatchOfOne(events: seq<Event>, event: Event)
    requires Prepare(event) == Ok(event) && event.eventId !in IdsOf(events)
    ensures AppendMany(events, [event]) == Ok((events + [event], [event.eventId]))
  {
    assert [event][1..] == [];
    assert AppendMany(events + [event], [event][1..]) == Ok((events + [event], []));
    assert [event.eventId] + [] == [event.eventId];
  }

  lemma BatchOfTwo(events: seq<Event>, a: Event, b: Event)
    requires Prepare(a) == Ok(a) && a.eventId !in IdsOf(events)
    requires Prepare(b) == Ok(b) && b.eventId !in IdsOf(events + [a])
    ensures AppendMany(events, [a, b]) == Ok((events + [a] + [b], [a.eventId, b.eventId]))
  {
    assert [a, b][1..] == [b];
    BatchOfOne(events + [a], b);
    assert [a.eventId] + [b.eventId] == [a.eventId, b.eventId];
  }

  lemma BatchOfThree(events: seq<Event>, a: Event, b: Event, c: Event)
    requires Prepare(a) == Ok(a) && a.eventId !in IdsOf(events)
    requires Prepare(b) == Ok(b) && b.eventId !in IdsOf(events + [a])
    requires Prepare(c) == Ok(c) && c.eventId !in IdsOf(events + [a] + [b])
    ensures AppendMany(events, [a, b, c]) == Ok((events + [a] + [b] + [c], [a.eventId, b.eventId, c.eventId]))
  {
    assert [a, b, c][1..] == [b, c];
    BatchOfTwo(events + [a], b, c);
    assert [a.eventId] + [b.eventId, c.eventId] == [a.eventId, b.eventId, c.eventId];
  }

  lemma TwoSteps(layer: Layer, a: Step, b: Step)
    ensures Run(layer, [a, b][..1]) == Next(layer, a)
    ensures Run(layer, [a, b]) == Next(Next(layer, a), b)
  {
    assert [a, b][..1] == [a] && [a][..0] == [];
    assert Run(layer, []) == layer;
    assert Run(layer, [a]) == Next(layer, a);
  }

  lemma ThreeSteps(layer: Layer, a: Step, b: Step, c: Step)
    ensures Run(layer, [a, b, c][..1]) == Next(layer, a)
    ensures Run(layer, [a, b, c][..2]) == Next(Next(layer, a), b)
    ensures Run(layer, [a, b, c]) == Next(Next(Next(layer, a), b), c)
  {
    TwoSteps(layer, a, b);
    assert [a, b, c][..2] == [a, b] && [a, b, c][..1] == [a, b][..1];
  }

  // ---------- restating claim F-1 ----------

  lemma ChangePrechecks(req: RestateRequest, from: string, to: Option<string>)
    requires req == Change(from, to, req.shortDigest) && to != Some(from)
    ensures RestatePrecheck(req).None?
  {
    assert !IsSpace("alice"[0]) && !IsSpace("SEC-1"[0]);
    assert req.block.before.entries["F-1"] != req.block.after.entries["F-1"];
  }

  lemma ChangePasses(layer: Layer, block: Block, from: string, to: Option<string>)
    requires block == Change(from, to, "").block
    requires layer.meta.claimHashes == Obj(map["F-1" := Some(from)])
    requires RequireValidEpoch(layer).None?
    requires to !in RetiredEntries(Chain(layer.events, ClaimHashes), "F-1")
    ensures RestateGates(layer, block).None?
  {
    var actual := layer.meta.claimHashes;
    assert RequireSomethingToRestate(block, actual).None? && RequireFresh(block, actual).None?;
    assert RequireMonotonic(block, Chain(layer.events, ClaimHashes)).None?;
  }

  lemma UpdateOne(meta: Metadata, target: Target, value: Json)
    ensures ApplyUpdates(meta, map[target := value]) == WithField(meta, target, value)
  {
  }

  /** Once the gates pass, a restatement goes through: it explains its own change. */
  lemma RestateSucceeds(layer: Layer, req: RestateRequest)
    requires RestatePrecheck(req).None? && RestateGates(layer, req.block).None?
    ensures
      var event, target := BuildRestatementEvent(req), req.block.target;
      && Prepare(event).Ok?
      && EditRestate(layer, req) == Ok(layer.(
           events := layer.events + AddedOne(layer.events, event),
           meta := WithField(layer.meta, target, Merge(Field(layer.meta, target), req.block.after))))
  {
    var event, target := BuildRestatementEvent(req), req.block.target;
    var merged := Merge(Field(layer.meta, target), req.block.after);
    AppendOneAdds(layer.events, event);
    UpdateOne(layer.meta, target, merged);
    assert Covered(layer.meta, WithField(layer.meta, target, merged), event);
  }

  /** The whole write: accepted, with the claim moved. */
  lemma ChangeIsAccepted(layer: Layer, req: RestateRequest, from: string, to: Option<string>, config: Config)
    requires req == Change(from, to, req.shortDigest)
    requires layer.meta.claimHashes == Obj(map["F-1" := Some(from)]) && to != Some(from)
    requires RequireValidEpoch(layer).None? && AtZero(layer)
    requires to !in RetiredEntries(Chain(layer.events, ClaimHashes), "F-1")
    requires !config.signingRequired && config.schemaAccepts
    ensures Prepare(BuildRestatementEvent(req)).Ok?
    ensures EditRestate(layer, req).Ok? && Apply(layer, Restate(req, config)).Ok?
    ensures
      var next := Next(layer, Restate(req, config));
      && next.events == layer.events + AddedOne(layer.events, BuildRestatementEvent(req))
      && next.meta.merkleEpoch == Some(0)
      && next.meta.claimHashes == if to.Some? then Obj(map["F-1" := to]) else Obj(map[])
  {
    ChangePrechecks(req, from, to);
    ChangePasses(layer, req.block, from, to);
    RestateSucceeds(layer, req);
    var edited := EditRestate(layer, req).value;
    AcceptedAtZero(layer, Restate(req, config), edited);
    assert Field(Next(layer, Restate(req, config)).meta, ClaimHashes) == Field(edited.meta, ClaimHashes);
    MovedClaim(from, to);
  }

  lemma MovedClaim(from: string, to: Option<string>)
    ensures Merge(Obj(map["F-1" := Some(from)]), Obj(map["F-1" := to]))
         == if to.Some? then Obj(map["F-1" := to]) else Obj(map[])
  {
  }

  /** A patch of fields that are still empty, of aliases, or of Merkle members edits freely. */
  lemma PatchEdits(layer: Layer, updates: Updates, config: Config)
    requires forall t: Target :: t in updates.fields ==> !Truthy(Field(layer.meta, t))
    requires updates.merkle.epoch != Some(None)
    ensures Edit(layer, PatchMetadata(updates, "now", config))
        == Ok(layer.(meta := Patched(layer.meta, updates, "now")))
  {
    var patched := Patched(layer.meta, updates, "now");
    forall t: Target
      ensures !Destructive(Field(layer.meta, t), Field(patched, t))
    {
      if t !in updates.fields {
        assert Field(patched, t) == Field(layer.meta, t);
      }
    }
  }
}
