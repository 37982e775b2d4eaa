/** The restatement chain against the stored metadata: for every kind of write, exactly when
    the chain still replays to what is stored, and so over whole runs. */
module ReplayRuns {
  import opened Wrappers
  import opened Events
  import opened Layers
  import opened Restatements
  import opened Gates
  import opened Writer
  import opened Handlers

  // ---------- what a step does to a chain and its field ----------

  /** The blocks a write adds to the chain of `target`. */
  ghost function NewBlocks(layer: Layer, step: Step, target: Target): seq<Block>
    requires Edit(layer, step).Ok?
  {
    Chain(Added(layer, step), target)
  }

  lemma EditChain(layer: Layer, step: Step, target: Target)
    requires Edit(layer, step).Ok?
    ensures Chain(Edit(layer, step).value.events, target)
         == Chain(layer.events, target) + NewBlocks(layer, step, target)
  {
    EditAdds(layer, step);
    ChainOfConcat(layer.events, Added(layer, step), target);
  }

  lemma ChainOfAddedOne(events: seq<Event>, event: Event, target: Target)
    ensures Chain(AddedOne(events, event), target)
         == if CanonicalId(event) !in IdsOf(events) && IsRestatement(event) && event.restatement.value.target == target
            then [event.restatement.value] else []
  {
    assert [AsStored(event)][..0] == [];
  }

  /** An accepted restatement whose event is dropped as a duplicate. */
  predicate Dropped(layer: Layer, req: RestateRequest) {
    BuildRestatementEvent(req).eventId in IdsOf(layer.events)
  }

  lemma RestateAdds(layer: Layer, req: RestateRequest, config: Config, target: Target)
    requires EditRestate(layer, req).Ok?
    ensures NewBlocks(layer, Restate(req, config), target)
         == if req.block.target == target && !Dropped(layer, req) then [req.block] else []
  {
    ChainOfAddedOne(layer.events, BuildRestatementEvent(req), target);
  }

  /** A write that never adds a block. */
  predicate AddsNoBlock(step: Step) {
    step.Countersign? || step.PatchMetadata? || step.SignLayer? || step.ResolveItem?
  }

  lemma NothingAdded(layer: Layer, step: Step, target: Target)
    requires Edit(layer, step).Ok? && AddsNoBlock(step)
    ensures NewBlocks(layer, step, target) == []
  {
    if step.Countersign? {
      ChainOfAddedOne(layer.events, CountersignEvent(layer, step.countersign), target);
    }
  }

  /** What a write leaves in a signature-bound field. */
  function Written(layer: Layer, step: Step, target: Target): Json {
    match step
    case Restate(req, _) =>
      if req.block.target == target then Merge(Field(layer.meta, target), req.block.after)
          else Field(layer.meta, target)
    case RestateDirectly(_, updates, _) =>
      if target in updates.fields then updates.fields[target] else Field(layer.meta, target)
    case PatchMetadata(updates, _, _) => PatchField(layer.meta, updates.fields, target)
    case _ => Field(layer.meta, target)
  }

  lemma EditWrites(layer: Layer, step: Step, target: Target)
    requires Edit(layer, step).Ok?
    ensures Field(Edit(layer, step).value.meta, target) == Written(layer, step, target)
  {
  }

  // ---------- what a chain pins ----------

  predicate EndsInMap(chain: seq<Block>) {
    chain != [] && chain[|chain| - 1].after.Obj?
  }

  /** The entry a chain pins a key to, read backwards through its trailing map blocks: the last
      one to name the key decides.  A null counts only in the first block of that stretch; in
      a later one it unpins the key. */
  function Pinned(chain: seq<Block>, key: string): Option<Option<string>> {
    if !EndsInMap(chain) then None
    else
      var init, after := chain[..|chain| - 1], chain[|chain| - 1].after.entries;
      if key !in after then Pinned(init, key)
      else if after[key].Some? || !EndsInMap(init) then Some(after[key])
      else None
  }

  lemma {:induction false} ReplayIsPinned(chain: seq<Block>, key: string)
    requires chain != []
    ensures Replay(chain).Obj? <==> EndsInMap(chain)
    ensures !EndsInMap(chain) ==> Replay(chain) == chain[|chain| - 1].after
    ensures EndsInMap(chain) ==>
      (Pinned(chain, key) == if key in Replay(chain).entries then Some(Replay(chain).entries[key]) else None)
  {
    var init := chain[..|chain| - 1];
    if init != [] {
      ReplayIsPinned(init, key);
    }
  }

  predicate HoldsEntry(value: Json, key: string, entry: Option<string>) {
    value.Obj? && EntryOf(value.entries, key) == entry
  }

  /** The value holds all that the chain pins. */
  ghost predicate Holds(chain: seq<Block>, value: Json) {
    chain == [] ||
    if EndsInMap(chain) then forall key :: Pinned(chain, key).Some? ==> HoldsEntry(value, key, Pinned(chain, key).value)
    else value == chain[|chain| - 1].after
  }

  /** Reading the chain backwards decides exactly what replaying it forwards decides. */
  lemma HoldsExact(chain: seq<Block>, value: Json)
    ensures Holds(chain, value) <==> (chain == [] || Agrees(Replay(chain), value))
  {
    if chain != [] {
      ReplayIsPinned(chain, "");
      if EndsInMap(chain) {
        forall key
          ensures Pinned(chain, key)
               == if key in Replay(chain).entries then Some(Replay(chain).entries[key]) else None
        {
          ReplayIsPinned(chain, key);
        }
        if Holds(chain, value) {
          assert forall key :: key in Replay(chain).entries ==> Pinned(chain, key).Some?;
        }
      }
    }
  }

  lemma DriftedExact(layer: Layer, target: Target)
    ensures Drifted(layer, target) <==> !Holds(Chain(layer.events, target), Field(layer.meta, target))
  {
    HoldsExact(Chain(layer.events, target), Field(layer.meta, target));
  }

  // ---------- appending blocks without writing the field ----------

  ghost predicate NamedBy(blocks: seq<Block>, key: string) {
    exists i :: 0 <= i < |blocks| && blocks[i].after.Obj? && key in blocks[i].after.entries
  }

  /** The value already holds what the appended blocks say: the last replacement, or every
      entry they name as the longer chain pins it. */
  ghost predicate Upholds(chain: seq<Block>, blocks: seq<Block>, value: Json) {
    blocks == [] ||
    if EndsInMap(blocks) then
      forall key :: NamedBy(blocks, key) && Pinned(chain + blocks, key).Some? ==>
        HoldsEntry(value, key, Pinned(chain + blocks, key).value)
    else value == blocks[|blocks| - 1].after
  }

  lemma {:induction false} PinnedUnnamed(chain: seq<Block>, blocks: seq<Block>, key: string)
    requires !NamedBy(blocks, key) && Pinned(chain + blocks, key).Some?
    ensures Pinned(chain, key) == Pinned(chain + blocks, key)
    decreases |blocks|
  {
    if blocks == [] {
      assert chain + blocks == chain;
    } else {
      var init, last := blocks[..|blocks| - 1], blocks[|blocks| - 1];
      assert (chain + blocks)[..|chain + blocks| - 1] == chain + init;
      assert (chain + blocks)[|chain + blocks| - 1] == last;
      assert !NamedBy(init, key) by {
        assert forall i :: 0 <= i < |init| ==> init[i] == blocks[i];
      }
      PinnedUnnamed(chain, init, key);
    }
  }

  /** The exact condition for blocks that arrive without touching the field. */
  lemma UpholdsExact(chain: seq<Block>, blocks: seq<Block>, value: Json)
    requires Holds(chain, value)
    ensures Holds(chain + blocks, value) <==> Upholds(chain, blocks, value)
  {
    if blocks == [] {
      assert chain + blocks == chain;
    } else {
      assert (chain + blocks)[|chain + blocks| - 1] == blocks[|blocks| - 1];
      if EndsInMap(blocks) && Upholds(chain, blocks, value) {
        forall key | Pinned(chain + blocks, key).Some?
          ensures HoldsEntry(value, key, Pinned(chain + blocks, key).value)
        {
          if !NamedBy(blocks, key) {
            PinnedUnnamed(chain, blocks, key);
          }
        }
      }
    }
  }

  /** For one block: a replacement must be the value already there, and each entry of a delta
      must be too, except nulls once the chain ends in a map. */
  lemma UpholdsOne(chain: seq<Block>, block: Block, value: Json)
    ensures Upholds(chain, [block], value) <==>
      if block.after.Obj? then
        forall key :: key in block.after.entries && (block.after.entries[key].Some? || !EndsInMap(chain)) ==>
          HoldsEntry(value, key, block.after.entries[key])
      else value == block.after
  {
    assert (chain + [block])[..|chain|] == chain;
    if block.after.Obj? {
      forall key
        ensures NamedBy([block], key) <==> key in block.after.entries
      {
        if key in block.after.entries {
          assert [block][0] == block;
        }
      }
    }
  }

  // ---------- the replay stays clean ----------

  predicate ReplayClean(layer: Layer) {
    forall t: Target :: !Drifted(layer, t)
  }

  lemma ReplayCleanIsReported(layer: Layer)
    ensures ReplayClean(layer) <==> VerifyRestatedMetadata(layer) == []
  {
    if VerifyRestatedMetadata(layer) == [] {
      forall t: Target
        ensures !Drifted(layer, t)
      {
        match t {
          case ClaimHashes =>
          case AuditReport =>
          case ArtifactDigests =>
        }
      }
    }
  }

  /** The chain of `target` already fixes nothing that `after` would touch. */
  predicate ChainSilent(chain: seq<Block>, after: Json) {
    chain == [] ||
    var expected := Replay(chain);
    expected.Obj? && if after.Obj? then expected.entries.Keys !! after.entries.Keys else expected == Obj(map[])
  }

  /** The patch brings back nothing the chain of `target` deleted. */
  predicate RespectsDeletions(chain: seq<Block>, value: Json) {
    chain == [] ||
    var expected := Replay(chain);
    if !expected.Obj? then Truthy(expected) || value == expected
    else if !value.Obj? then expected == Obj(map[])
    else forall key :: key in value.entries && key in expected.entries && expected.entries[key].None?
           ==> value.entries[key].None?
  }

  /** The delta gives every entry the chain pins the value it is pinned to. */
  predicate Repeats(chain: seq<Block>, after: Json) {
    chain == [] ||
    var expected := Replay(chain);
    if !expected.Obj? then after == expected
    else if !after.Obj? then expected == Obj(map[])
    else forall key :: key in after.entries && key in expected.entries ==> after.entries[key] == expected.entries[key]
  }

  /** Outside the keys named, the value holds nothing the chain deleted. */
  ghost predicate RevivesNothing(chain: seq<Block>, named: set<string>, value: Json) {
    forall key :: key !in named && Pinned(chain, key) == Some(None) ==> HoldsEntry(value, key, None)
  }

  predicate Restates(event: Event, t: Target) {
    IsRestatement(event) && event.restatement.value.target == t
  }

  /** The writer's own entry point, one field at a time.  A destructive write is always the
      event's own delta, or coverage refuses it.  So if the event is appended a destructive
      write replays, and any other must already say what the block says; if the id is taken a
      destructive write may only repeat the chain.  A field the event does not restate can
      only be added to, and what is added must not be something deleted. */
  ghost predicate DirectKeeps(layer: Layer, event: Event, updates: Updates, t: Target) {
    var chain, prior := Chain(layer.events, t), Field(layer.meta, t);
    var written := if t in updates.fields then updates.fields[t] else prior;
    if !Restates(event, t) then RespectsDeletions(chain, written)
    else
      var block := event.restatement.value;
      if CanonicalId(event) in IdsOf(layer.events) then
        if Destructive(prior, written) then Repeats(chain, block.after) else RespectsDeletions(chain, written)
      else
        || Destructive(prior, written)
        || (&& Upholds(chain, [block], written)
            && (block.after.Obj? ==> RevivesNothing(chain, block.after.entries.Keys, written)))
  }

  /** The condition, write path by write path.  Appends, single or batched, carry no effect, so
      their blocks must say what is stored; the handler's restatements are sound unless their
      id is taken; a patch must bring nothing deleted back. */
  ghost predicate KeepsReplay(layer: Layer, step: Step)
    requires Edit(layer, step).Ok?
  {
    match step
    case AppendEvent(_, _) => AppendsUphold(layer, step)
    case SubmitBatch(_, _, _) => AppendsUphold(layer, step)
    case Restate(req, _) => !Dropped(layer, req) || ChainSilent(Chain(layer.events, req.block.target), req.block.after)
    case RestateDirectly(event, updates, _) => forall t: Target :: DirectKeeps(layer, event, updates, t)
    case PatchMetadata(updates, _, _) =>
      forall t: Target :: t in updates.fields ==> RespectsDeletions(Chain(layer.events, t), updates.fields[t])
    case _ => true
  }

  ghost predicate AppendsUphold(layer: Layer, step: Step)
    requires Edit(layer, step).Ok?
  {
    forall t: Target :: Upholds(Chain(layer.events, t), NewBlocks(layer, step, t), Field(layer.meta, t))
  }

  /** What an accepted write does to one field, in terms of the chain and what is written. */
  lemma StepDrifts(layer: Layer, step: Step, t: Target)
    requires Apply(layer, step).Ok?
    ensures Edit(layer, step).Ok?
    ensures Drifted(Next(layer, step), t)
       <==> !Holds(Chain(layer.events, t) + NewBlocks(layer, step, t), Written(layer, step, t))
  {
    ApplyIsEdit(layer, step);
    EditChain(layer, step, t);
    EditWrites(layer, step, t);
    DriftedExact(Next(layer, step), t);
  }

  lemma AppendReplayExact(layer: Layer, step: Step)
    requires ReplayClean(layer) && Apply(layer, step).Ok?
    requires step.AppendEvent? || step.SubmitBatch?
    ensures Edit(layer, step).Ok?
    ensures ReplayClean(Next(layer, step)) <==> AppendsUphold(layer, step)
  {
    forall t: Target
      ensures Edit(layer, step).Ok?
      ensures Drifted(Next(layer, step), t)
         <==> !Upholds(Chain(layer.events, t), NewBlocks(layer, step, t), Field(layer.meta, t))
    {
      StepDrifts(layer, step, t);
      DriftedExact(layer, t);
      UpholdsExact(Chain(layer.events, t), NewBlocks(layer, step, t), Field(layer.meta, t));
    }
  }

  lemma DirectReplayExact(layer: Layer, step: Step)
    requires ReplayClean(layer) && Apply(layer, step).Ok? && step.RestateDirectly?
    ensures Edit(layer, step).Ok?
    ensures ReplayClean(Next(layer, step)) <==> KeepsReplay(layer, step)
  {
    forall t: Target
      ensures Edit(layer, step).Ok?
      ensures Drifted(Next(layer, step), t) <==> !DirectKeeps(layer, step.event, step.updates, t)
    {
      StepDrifts(layer, step, t);
      DriftedExact(layer, t);
      ChainOfAddedOne(layer.events, step.event, t);
      DirectIsExplained(layer, step.event, step.updates, t);
      DirectHolds(layer, step.event, step.updates, t, NewBlocks(layer, step, t), Written(layer, step, t));
    }
  }

  lemma DirectIsExplained(layer: Layer, event: Event, updates: Updates, t: Target)
    requires EditDirect(layer, event, updates).Ok?
    ensures ChangeExplained(Field(layer.meta, t),
                            if t in updates.fields then updates.fields[t] else Field(layer.meta, t), event, t)
  {
    match t {
      case ClaimHashes =>
      case AuditReport =>
      case ArtifactDigests =>
    }
  }

  lemma DirectHolds(layer: Layer, event: Event, updates: Updates, t: Target, blocks: seq<Block>, written: Json)
    requires Holds(Chain(layer.events, t), Field(layer.meta, t))
    requires written == if t in updates.fields then updates.fields[t] else Field(layer.meta, t)
    requires ChangeExplained(Field(layer.meta, t), written, event, t)
    requires blocks == if Restates(event, t) && CanonicalId(event) !in IdsOf(layer.events)
                       then [event.restatement.value] else []
    ensures Holds(Chain(layer.events, t) + blocks, written) <==> DirectKeeps(layer, event, updates, t)
  {
    var chain, prior := Chain(layer.events, t), Field(layer.meta, t);
    HoldsExact(chain, prior);
    if blocks == [] {
      assert chain + blocks == chain;
      HoldsExact(chain, written);
      if Destructive(prior, written) {
        RepeatsExact(chain, prior, event.restatement.value.after);
      } else {
        AddedToExact(chain, prior, written);
      }
    } else if Destructive(prior, written) {
      var block := event.restatement.value;
      ReplayStep(chain, block, prior);
      HoldsExact(chain + [block], written);
    } else {
      UpheldExact(chain, prior, event.restatement.value, written);
    }
  }

  lemma RepeatsExact(chain: seq<Block>, prior: Json, after: Json)
    requires chain == [] || Agrees(Replay(chain), prior)
    ensures (chain == [] || Agrees(Replay(chain), Merge(prior, after))) <==> Repeats(chain, after)
  {
    if chain != [] {
      var expected := Replay(chain);
      if expected.Obj? && !after.Obj? && expected.entries != map[] {
        var key :| key in expected.entries;
      }
    }
  }

  /** A write that overwrites nothing keeps every entry pinned to a value. */
  lemma AddedToExact(chain: seq<Block>, prior: Json, written: Json)
    requires chain == [] || Agrees(Replay(chain), prior)
    requires !Destructive(prior, written)
    ensures (chain == [] || Agrees(Replay(chain), written)) <==> RespectsDeletions(chain, written)
  {
    if chain != [] && Replay(chain).Obj? {
      var expected := Replay(chain);
      if written.Obj? {
        forall key | key in expected.entries && expected.entries[key].Some?
          ensures EntryOf(written.entries, key) == expected.entries[key]
        {
          assert key in prior.entries;
        }
      } else if expected.entries != map[] {
        var key :| key in expected.entries;
      }
    }
  }

  lemma UpheldExact(chain: seq<Block>, prior: Json, block: Block, written: Json)
    requires Holds(chain, prior) && !Destructive(prior, written)
    ensures Holds(chain + [block], written) <==>
      && Upholds(chain, [block], written)
      && (block.after.Obj? ==> RevivesNothing(chain, block.after.entries.Keys, written))
  {
    var longer := chain + [block];
    assert longer[|chain|] == block;
    if block.after.Obj? {
      forall key
        ensures NamedBy([block], key) <==> key in block.after.entries
        ensures key !in block.after.entries ==> Pinned(longer, key) == Pinned(chain, key)
      {
        PinnedByOne(chain, block, key);
      }
      if Upholds(chain, [block], written) && RevivesNothing(chain, block.after.entries.Keys, written) {
        forall key | Pinned(longer, key).Some?
          ensures HoldsEntry(written, key, Pinned(longer, key).value)
        {
          if key !in block.after.entries && Pinned(chain, key) != Some(None) {
            KeptByAddition(chain, prior, written, key);
          }
        }
      }
      if Holds(longer, written) {
        forall key | key !in block.after.entries && Pinned(chain, key) == Some(None)
          ensures HoldsEntry(written, key, None)
        {
          assert Pinned(longer, key) == Some(None);
        }
      }
    }
  }

  lemma PinnedByOne(chain: seq<Block>, block: Block, key: string)
    requires block.after.Obj?
    ensures NamedBy([block], key) <==> key in block.after.entries
    ensures key !in block.after.entries ==> Pinned(chain + [block], key) == Pinned(chain, key)
  {
    assert (chain + [block])[..|chain|] == chain;
    if key in block.after.entries {
      assert [block][0] == block;
    }
  }

  lemma KeptByAddition(chain: seq<Block>, prior: Json, written: Json, key: string)
    requires Holds(chain, prior) && !Destructive(prior, written)
    requires Pinned(chain, key).Some? && Pinned(chain, key).value.Some?
    ensures HoldsEntry(written, key, Pinned(chain, key).value)
  {
    assert HoldsEntry(prior, key, Pinned(chain, key).value);
    assert key in prior.entries;
  }

  lemma QuietStepReplays(layer: Layer, step: Step)
    requires ReplayClean(layer) && Apply(layer, step).Ok?
    requires AddsNoBlock(step) && !step.PatchMetadata?
    ensures ReplayClean(Next(layer, step))
  {
    forall t: Target
      ensures !Drifted(Next(layer, step), t)
    {
      StepDrifts(layer, step, t);
      NothingAdded(layer, step, t);
      DriftedExact(layer, t);
      assert Chain(layer.events, t) + [] == Chain(layer.events, t);
    }
  }

  // ---------- the gated handler ----------

  /** Whatever a chain now expects of a key was given to it by some block. */
  lemma {:induction false} ReplayEntryIsRetired(chain: seq<Block>, key: string)
    requires Replay(chain).Obj? && key in Replay(chain).entries
    ensures Replay(chain).entries[key] in RetiredEntries(chain, key)
  {
    var init, last := chain[..|chain| - 1], chain[|chain| - 1];
    if !(last.after.Obj? && key in last.after.entries) {
      ReplayEntryIsRetired(init, key);
    }
  }

  lemma {:induction false} ReplayWholeIsRetired(chain: seq<Block>)
    requires chain != [] && !Replay(chain).Obj?
    ensures Replay(chain) in RetiredWhole(chain)
  {
  }

  lemma EditedPassesGates(layer: Layer, req: RestateRequest)
    requires EditRestate(layer, req).Ok?
    ensures RequireMonotonic(req.block, Chain(layer.events, req.block.target)).None?
    ensures RequireSomethingToRestate(req.block, Field(layer.meta, req.block.target)).None?
    ensures RequireFresh(req.block, Field(layer.meta, req.block.target)).None?
  {
    assert RestateGates(layer, req.block).None?;
  }

  lemma AppendedReplays(layer: Layer, req: RestateRequest, config: Config, t: Target)
    requires EditRestate(layer, req).Ok? && !Dropped(layer, req) && !Drifted(layer, t)
    ensures Holds(Chain(layer.events, t) + NewBlocks(layer, Restate(req, config), t),
                  Written(layer, Restate(req, config), t))
  {
    var chain, actual := Chain(layer.events, t), Field(layer.meta, t);
    RestateAdds(layer, req, config, t);
    DriftedExact(layer, t);
    if t == req.block.target {
      HoldsExact(chain, actual);
      ReplayStep(chain, req.block, actual);
      HoldsExact(chain + [req.block], Merge(actual, req.block.after));
    } else {
      assert chain + [] == chain;
    }
  }

  lemma DroppedHolds(layer: Layer, block: Block, t: Target, blocks: seq<Block>, written: Json)
    requires RequireSomethingToRestate(block, Field(layer.meta, block.target)).None?
    requires RequireFresh(block, Field(layer.meta, block.target)).None?
    requires RequireMonotonic(block, Chain(layer.events, block.target)).None?
    requires !Drifted(layer, t) && blocks == []
    requires written == if block.target == t then Merge(Field(layer.meta, t), block.after) else Field(layer.meta, t)
    ensures Holds(Chain(layer.events, t) + blocks, written)
       <==> t != block.target || ChainSilent(Chain(layer.events, t), block.after)
  {
    assert Chain(layer.events, t) + blocks == Chain(layer.events, t);
    HoldsExact(Chain(layer.events, t), written);
    if t == block.target {
      DroppedReplay(layer, block);
    }
  }

  lemma DroppedReplay(layer: Layer, block: Block)
    requires RequireSomethingToRestate(block, Field(layer.meta, block.target)).None?
    requires RequireFresh(block, Field(layer.meta, block.target)).None?
    requires RequireMonotonic(block, Chain(layer.events, block.target)).None?
    requires !Drifted(layer, block.target)
    ensures
      var chain := Chain(layer.events, block.target);
      (chain == [] || Agrees(Replay(chain), Merge(Field(layer.meta, block.target), block.after)))
      <==> ChainSilent(chain, block.after)
  {
    var chain, actual := Chain(layer.events, block.target), Field(layer.meta, block.target);
    if chain != [] {
      var expected := Replay(chain);
      assert Agrees(expected, actual);
      if !expected.Obj? {
        ReplayWholeIsRetired(chain);
      } else if block.after.Obj? {
        forall key | key in expected.entries && key in block.after.entries
          ensures expected.entries[key] != block.after.entries[key]
        {
          ReplayEntryIsRetired(chain, key);
        }
      }
    }
  }

  /** The exact condition for restatements.  A fresh id always keeps the replay clean.  A
      taken id keeps it clean if and only if the chain so far is silent on every key the
      restatement touches; otherwise the verifier reports the field from then on. */
  lemma RestateReplayExact(layer: Layer, req: RestateRequest, config: Config)
    requires ReplayClean(layer)
    requires Apply(layer, Restate(req, config)).Ok?
    ensures ReplayClean(Next(layer, Restate(req, config)))
       <==> !Dropped(layer, req) || ChainSilent(Chain(layer.events, req.block.target), req.block.after)
  {
    var step := Restate(req, config);
    forall t: Target
      ensures Drifted(Next(layer, step), t)
         <==> Dropped(layer, req) && t == req.block.target && !ChainSilent(Chain(layer.events, t), req.block.after)
    {
      StepDrifts(layer, step, t);
      assert !Drifted(layer, t);
      if Dropped(layer, req) {
        RestateAdds(layer, req, config, t);
        EditedPassesGates(layer, req);
        DroppedHolds(layer, req.block, t, NewBlocks(layer, step, t), Written(layer, step, t));
      } else {
        AppendedReplays(layer, req, config, t);
      }
    }
  }

  // ---------- patches ----------

  /** The exact condition for patches: an accepted patch keeps the replay clean if and only
      if it re-adds no entry, and no whole value, that a restatement deleted. */
  lemma PatchReplayExact(layer: Layer, updates: Updates, now: string, config: Config)
    requires ReplayClean(layer)
    requires Apply(layer, PatchMetadata(updates, now, config)).Ok?
    ensures ReplayClean(Next(layer, PatchMetadata(updates, now, config)))
       <==> forall t: Target :: t in updates.fields ==> RespectsDeletions(Chain(layer.events, t), updates.fields[t])
  {
    var step := PatchMetadata(updates, now, config);
    forall t: Target
      ensures Drifted(Next(layer, step), t)
         <==> t in updates.fields && !RespectsDeletions(Chain(layer.events, t), updates.fields[t])
    {
      StepDrifts(layer, step, t);
      NothingAdded(layer, step, t);
      assert Chain(layer.events, t) + [] == Chain(layer.events, t);
      assert !Drifted(layer, t);
      PatchedField(layer, updates, now, t);
      PatchedOutcome(Chain(layer.events, t), layer.meta, updates.fields, t);
    }
  }

  lemma PatchedField(layer: Layer, updates: Updates, now: string, t: Target)
    requires EditPatch(layer, updates, now).Ok?
    ensures !Destructive(Field(layer.meta, t), PatchField(layer.meta, updates.fields, t))
  {
    assert Field(Patched(layer.meta, updates, now), t) == PatchField(layer.meta, updates.fields, t);
  }

  lemma PatchedOutcome(chain: seq<Block>, meta: Metadata, updates: map<Target, Json>, t: Target)
    requires chain == [] || Agrees(Replay(chain), Field(meta, t))
    requires !Destructive(Field(meta, t), PatchField(meta, updates, t))
    ensures Holds(chain, PatchField(meta, updates, t)) <==> t !in updates || RespectsDeletions(chain, updates[t])
  {
    HoldsExact(chain, PatchField(meta, updates, t));
    if t in updates && chain != [] {
      PatchedValueAgrees(Replay(chain), Field(meta, t), updates[t]);
    }
  }

  lemma PatchedValueAgrees(expected: Json, actual: Json, value: Json)
    requires Agrees(expected, actual)
    requires !Destructive(actual, PatchValue(actual, value))
    ensures Agrees(expected, PatchValue(actual, value)) <==>
      if !expected.Obj? then Truthy(expected) || value == expected
      else if !value.Obj? then expected == Obj(map[])
      else forall key :: key in value.entries && key in expected.entries && expected.entries[key].None?
             ==> value.entries[key].None?
  {
    if expected.Obj? {
      if value.Obj? && actual.Obj? {
        var both := actual.entries + value.entries;
        forall key | key in expected.entries && expected.entries[key].Some?
          ensures EntryOf(both, key) == expected.entries[key]
        {
          assert key in actual.entries;
        }
        forall key | key in expected.entries && expected.entries[key].None?
          ensures EntryOf(both, key) == expected.entries[key] <==> (key in value.entries ==> value.entries[key].None?)
        {
        }
      } else if expected.entries != map[] {
        var key :| key in expected.entries;
      }
    }
  }

  // ---------- every write, every run ----------

  /** For every accepted write of every kind: the replay stays clean if and only if the write
      keeps it so. */
  lemma StepReplayExact(layer: Layer, step: Step)
    requires ReplayClean(layer) && Apply(layer, step).Ok?
    ensures Edit(layer, step).Ok?
    ensures ReplayClean(Next(layer, step)) <==> KeepsReplay(layer, step)
  {
    ApplyIsEdit(layer, step);
    match step {
      case AppendEvent(_, _) => AppendReplayExact(layer, step);
      case SubmitBatch(_, _, _) => AppendReplayExact(layer, step);
      case Restate(req, config) => RestateReplayExact(layer, req, config);
      case RestateDirectly(_, _, _) => DirectReplayExact(layer, step);
      case PatchMetadata(updates, now, config) => PatchReplayExact(layer, updates, now, config);
      case _ => QuietStepReplays(layer, step);
    }
  }

  /** Every accepted write of the run keeps the replay clean. */
  ghost predicate ReplayRun(layer: Layer, steps: seq<Step>) {
    steps == [] ||
    var mid, last := Run(layer, steps[..|steps| - 1]), steps[|steps| - 1];
    ReplayRun(layer, steps[..|steps| - 1]) && (Apply(mid, last).Ok? ==> Edit(mid, last).Ok? && KeepsReplay(mid, last))
  }

  ghost predicate CleanThroughout(layer: Layer, steps: seq<Step>) {
    ReplayClean(Run(layer, steps)) && (steps == [] || CleanThroughout(layer, steps[..|steps| - 1]))
  }

  lemma StepKeepsReplay(layer: Layer, step: Step)
    requires ReplayClean(layer)
    ensures ReplayClean(Next(layer, step))
       <==> (Apply(layer, step).Ok? ==> Edit(layer, step).Ok? && KeepsReplay(layer, step))
  {
    if Apply(layer, step).Ok? {
      StepReplayExact(layer, step);
    }
  }

  /** Over runs of every kind of write: the verifier has nothing to report at any point if and
      only if every accepted write keeps the replay clean. */
  lemma {:induction false} CleanThroughoutExact(layer: Layer, steps: seq<Step>)
    requires ReplayClean(layer)
    ensures CleanThroughout(layer, steps) <==> ReplayRun(layer, steps)
    decreases |steps|
  {
    if steps != [] {
      var init := steps[..|steps| - 1];
      CleanThroughoutExact(layer, init);
      if CleanThroughout(layer, init) {
        StepKeepsReplay(Run(layer, init), steps[|steps| - 1]);
      }
    }
  }

  /** Any such run keeps the chain and the metadata in step: the replay verifier has nothing to
      report, whatever was restated, deleted or replaced, in any order. */
  lemma ReplayCleanOverRuns(layer: Layer, steps: seq<Step>)
    requires ReplayClean(layer) && ReplayRun(layer, steps)
    ensures ReplayClean(Run(layer, steps))
    ensures VerifyRestatedMetadata(Run(layer, steps)) == []
  {
    CleanThroughoutExact(layer, steps);
    ReplayCleanIsReported(Run(layer, steps));
  }
}
