/** Restatements over whole runs: the handler keeps the replay clean, no value is ever restored,
    every restatement is attributable, and nothing signed is silently overwritten. */
module RestatementRuns {
  import opened Wrappers
  import opened Events
  import opened Layers
  import opened Restatements
  import opened Gates
  import opened Writer
  import opened Handlers
  import opened LogRuns
  import opened ReplayRuns

  /** Restatement events enter only through the gated handler. */
  predicate GatedOnly(step: Step) {
    match step
    case AppendEvent(event, _) => !IsRestatement(event)
    case SubmitBatch(events, _, _) => forall e :: e in events ==> !IsRestatement(e)
    case RestateDirectly(_, _, _) => false
    case _ => true
  }

  lemma {:induction false} ChainOfOrdinary(events: seq<Event>, target: Target)
    requires forall e :: e in events ==> !IsRestatement(e)
    ensures Chain(events, target) == []
  {
    if events != [] {
      assert events[|events| - 1] in events;
      ChainOfOrdinary(events[..|events| - 1], target);
    }
  }

  lemma NovelOfOrdinary(known: set<EventId>, events: seq<Event>, target: Target)
    requires forall e :: e in events ==> !IsRestatement(e)
    ensures Chain(Novel(known, events), target) == []
  {
    forall e | e in Novel(known, events)
      ensures !IsRestatement(e)
    {
      NovelIsIncoming(known, events, e);
    }
    ChainOfOrdinary(Novel(known, events), target);
  }

  // ---------- the handler keeps the replay clean ----------

  /** A gated write whose restatement, if it is one, has a new id; a patch of signed fields must
      bring nothing deleted back. */
  predicate GatedAndNew(layer: Layer, step: Step) {
    && GatedOnly(step)
    && (step.Restate? ==> !Dropped(layer, step.restate))
    && (step.PatchMetadata? ==> forall t: Target :: t in step.updates.fields ==>
          RespectsDeletions(Chain(layer.events, t), step.updates.fields[t]))
  }

  lemma GatedKeepsReplay(layer: Layer, step: Step)
    requires Edit(layer, step).Ok? && GatedAndNew(layer, step)
    ensures KeepsReplay(layer, step)
  {
    if step.AppendEvent? || step.SubmitBatch? {
      forall t: Target
        ensures NewBlocks(layer, step, t) == []
      {
        if step.AppendEvent? {
          ChainOfAddedOne(layer.events, step.event, t);
        } else {
          NovelOfOrdinary(IdsOf(layer.events), step.events, t);
        }
      }
    }
  }

  ghost predicate GatedAndNewRun(layer: Layer, steps: seq<Step>) {
    steps == [] ||
    (&& GatedAndNewRun(layer, steps[..|steps| - 1])
     && GatedAndNew(Run(layer, steps[..|steps| - 1]), steps[|steps| - 1]))
  }

  lemma {:induction false} GatedRunKeepsReplay(layer: Layer, steps: seq<Step>)
    requires GatedAndNewRun(layer, steps)
    ensures ReplayRun(layer, steps)
    decreases |steps|
  {
    if steps != [] {
      var mid, last := Run(layer, steps[..|steps| - 1]), steps[|steps| - 1];
      GatedRunKeepsReplay(layer, steps[..|steps| - 1]);
      if Apply(mid, last).Ok? {
        ApplyIsEdit(mid, last);
        GatedKeepsReplay(mid, last);
      }
    }
  }

  /** When restatements enter through the handler alone, each under a new id, the replay verifier
      has nothing to report, whatever was restated, deleted or replaced, in any order. */
  lemma GatedRunReplays(layer: Layer, steps: seq<Step>)
    requires ReplayClean(layer) && GatedAndNewRun(layer, steps)
    ensures VerifyRestatedMetadata(Run(layer, steps)) == []
  {
    GatedRunKeepsReplay(layer, steps);
    ReplayCleanOverRuns(layer, steps);
  }

  // ---------- no value comes back ----------

  /** No block sets a key, or a whole field, to anything an earlier block held or set. */
  predicate NeverRestores(chain: seq<Block>) {
    forall i, j :: 0 <= i < j < |chain| ==> NotRestored(chain[i], chain[j])
  }

  predicate NotRestored(earlier: Block, later: Block) {
    if later.after.Obj? then
      forall key :: key in later.after.entries ==> later.after.entries[key] !in BlockEntries(earlier, key)
    else later.after != earlier.before && later.after != earlier.after
  }

  /** The gate refuses exactly the blocks that restore something. */
  lemma MonotonicGateExact(block: Block, chain: seq<Block>)
    ensures RequireMonotonic(block, chain).None? <==> forall i :: 0 <= i < |chain| ==> NotRestored(chain[i], block)
  {
    if block.after.Obj? {
      forall key | key in block.after.entries
        ensures block.after.entries[key] in RetiredEntries(chain, key)
           <==> exists i :: 0 <= i < |chain| && block.after.entries[key] in BlockEntries(chain[i], key)
      {
        RetiredEntriesExact(chain, key, block.after.entries[key]);
      }
    } else {
      RetiredWholeExact(chain, block.after);
    }
  }

  lemma NeverRestoresSnoc(chain: seq<Block>, block: Block)
    ensures NeverRestores(chain + [block]) <==> NeverRestores(chain) && RequireMonotonic(block, chain).None?
  {
    var longer := chain + [block];
    MonotonicGateExact(block, chain);
    assert longer[|chain|] == block;
    assert forall i :: 0 <= i < |chain| ==> longer[i] == chain[i];
    if NeverRestores(longer) {
      forall i | 0 <= i < |chain|
        ensures NotRestored(chain[i], block)
      {
        assert NotRestored(longer[i], longer[|chain|]);
      }
      forall i, j | 0 <= i < j < |chain|
        ensures NotRestored(chain[i], chain[j])
      {
        assert NotRestored(longer[i], longer[j]);
      }
    }
  }

  /** Each block in turn passes the gate against everything before it. */
  predicate PassInTurn(chain: seq<Block>, blocks: seq<Block>)
    decreases |blocks|
  {
    blocks == [] ||
    var init := blocks[..|blocks| - 1];
    PassInTurn(chain, init) && RequireMonotonic(blocks[|blocks| - 1], chain + init).None?
  }

  lemma {:induction false} NeverRestoresExact(chain: seq<Block>, blocks: seq<Block>)
    ensures NeverRestores(chain + blocks) <==> NeverRestores(chain) && PassInTurn(chain, blocks)
    decreases |blocks|
  {
    if blocks == [] {
      assert chain + blocks == chain;
    } else {
      var init, last := blocks[..|blocks| - 1], blocks[|blocks| - 1];
      NeverRestoresExact(chain, init);
      NeverRestoresSnoc(chain + init, last);
      assert chain + blocks == (chain + init) + [last];
    }
  }

  /** An appended event restores nothing: its id is taken, it restates another field or none, or
      its block passes the gate. */
  predicate EventPasses(events: seq<Event>, event: Event, target: Target) {
    || CanonicalId(event) in IdsOf(events)
    || !Restates(event, target)
    || RequireMonotonic(event.restatement.value, Chain(events, target)).None?
  }

  /** Path by path: the handler asks the gate itself, so only the three writes past it are looked
      at.  The blocks of a batch must pass in turn. */
  ghost predicate Monotonic(layer: Layer, step: Step, target: Target) {
    match step
    case AppendEvent(event, _) => EventPasses(layer.events, event, target)
    case RestateDirectly(event, _, _) => EventPasses(layer.events, event, target)
    case SubmitBatch(events, _, _) =>
      PassInTurn(Chain(layer.events, target), Chain(Novel(IdsOf(layer.events), events), target))
    case _ => true
  }

  lemma PassOne(chain: seq<Block>, block: Block)
    ensures PassInTurn(chain, [block]) <==> RequireMonotonic(block, chain).None?
  {
    assert [block][..0] == [] && chain + [] == chain;
  }

  lemma EventPassesExact(events: seq<Event>, event: Event, target: Target)
    ensures PassInTurn(Chain(events, target), Chain(AddedOne(events, event), target))
       <==> EventPasses(events, event, target)
  {
    ChainOfAddedOne(events, event, target);
    if Restates(event, target) {
      PassOne(Chain(events, target), event.restatement.value);
    }
  }

  lemma MonotonicExact(layer: Layer, step: Step, target: Target)
    requires Edit(layer, step).Ok?
    ensures PassInTurn(Chain(layer.events, target), NewBlocks(layer, step, target)) <==> Monotonic(layer, step, target)
  {
    match step {
      case AppendEvent(event, _) => EventPassesExact(layer.events, event, target);
      case RestateDirectly(event, _, _) => EventPassesExact(layer.events, event, target);
      case SubmitBatch(_, _, _) =>
      case Restate(req, config) =>
        RestateAdds(layer, req, config, target);
        EditedPassesGates(layer, req);
        PassOne(Chain(layer.events, target), req.block);
      case _ => NothingAdded(layer, step, target);
    }
  }

  ghost predicate MonotonicRun(layer: Layer, steps: seq<Step>, target: Target) {
    steps == [] ||
    var mid, last := Run(layer, steps[..|steps| - 1]), steps[|steps| - 1];
    MonotonicRun(layer, steps[..|steps| - 1], target) && (Apply(mid, last).Ok? ==> Monotonic(mid, last, target))
  }

  lemma StepNeverRestores(layer: Layer, step: Step, target: Target)
    ensures NeverRestores(Chain(Next(layer, step).events, target)) <==>
      NeverRestores(Chain(layer.events, target)) && (Apply(layer, step).Ok? ==> Monotonic(layer, step, target))
  {
    if Apply(layer, step).Ok? {
      ApplyIsEdit(layer, step);
      EditChain(layer, step, target);
      NeverRestoresExact(Chain(layer.events, target), NewBlocks(layer, step, target));
      MonotonicExact(layer, step, target);
    }
  }

  /** Over any run of any writes: no restatement returns a key, or a whole value, to something
      the chain had moved away from, if and only if every block added passes the gate. */
  lemma {:induction false} NeverRestoresOverRuns(layer: Layer, steps: seq<Step>, target: Target)
    requires NeverRestores(Chain(layer.events, target))
    ensures NeverRestores(Chain(Run(layer, steps).events, target)) <==> MonotonicRun(layer, steps, target)
    decreases |steps|
  {
    if steps != [] {
      var init := steps[..|steps| - 1];
      NeverRestoresOverRuns(layer, init, target);
      StepNeverRestores(Run(layer, init), steps[|steps| - 1], target);
    }
  }

  /** In particular when restatements enter through the handler alone. */
  lemma {:induction false} GatedRunIsMonotonic(layer: Layer, steps: seq<Step>, target: Target)
    requires forall step :: step in steps ==> GatedOnly(step)
    ensures MonotonicRun(layer, steps, target)
    decreases |steps|
  {
    if steps != [] {
      var init, last := steps[..|steps| - 1], steps[|steps| - 1];
      GatedRunIsMonotonic(layer, init, target);
      assert last in steps;
      if last.SubmitBatch? {
        NovelOfOrdinary(IdsOf(Run(layer, init).events), last.events, target);
      }
    }
  }

  /** The values successive blocks gave to one key. */
  function Given(chain: seq<Block>, key: string): seq<Option<string>> {
    if chain == [] then []
    else
      var after := chain[|chain| - 1].after;
      Given(chain[..|chain| - 1], key) + if after.Obj? && key in after.entries then [after.entries[key]] else []
  }

  lemma {:induction false} GivenComesFromBlock(chain: seq<Block>, key: string, value: Option<string>)
    requires value in Given(chain, key)
    ensures exists i :: 0 <= i < |chain| && chain[i].after.Obj? && key in chain[i].after.entries
                     && chain[i].after.entries[key] == value
  {
    var init, last := chain[..|chain| - 1], chain[|chain| - 1];
    if last.after.Obj? && key in last.after.entries && last.after.entries[key] == value {
    } else {
      GivenComesFromBlock(init, key, value);
      var i :| 0 <= i < |init| && init[i].after.Obj? && key in init[i].after.entries && init[i].after.entries[key]
          == value;
      assert chain[i] == init[i];
    }
  }

  /** At most |values| restatements can touch one key, so no A-B-A-B loop can grow the log. */
  lemma {:induction false} TouchesAreBounded(chain: seq<Block>, key: string, values: set<Option<string>>)
    requires NeverRestores(chain)
    requires forall v :: v in Given(chain, key) ==> v in values
    ensures |Given(chain, key)| <= |values|
    decreases |chain|
  {
    if chain != [] {
      var init, last := chain[..|chain| - 1], chain[|chain| - 1];
      assert NeverRestores(init) by {
        assert forall i :: 0 <= i < |init| ==> init[i] == chain[i];
      }
      if last.after.Obj? && key in last.after.entries {
        var v := last.after.entries[key];
        if v in Given(init, key) {
          GivenComesFromBlock(init, key, v);
          assert false;
        }
        assert v in Given(chain, key);
        TouchesAreBounded(init, key, values - {v});
      } else {
        TouchesAreBounded(init, key, values);
      }
    }
  }

  /** The whole values successive blocks put in place of a field. */
  function GivenWhole(chain: seq<Block>): seq<Json> {
    if chain == [] then []
    else
      var after := chain[|chain| - 1].after;
      GivenWhole(chain[..|chain| - 1]) + if after.Obj? then [] else [after]
  }

  lemma {:induction false} GivenWholeIsRetired(chain: seq<Block>, value: Json)
    requires value in GivenWhole(chain)
    ensures value in RetiredWhole(chain)
  {
    var last := chain[|chain| - 1];
    if last.after.Obj? || value != last.after {
      GivenWholeIsRetired(chain[..|chain| - 1], value);
    }
  }

  lemma {:induction false} WholesAreBounded(chain: seq<Block>, values: set<Json>)
    requires NeverRestores(chain)
    requires forall v :: v in GivenWhole(chain) ==> v in values
    ensures |GivenWhole(chain)| <= |values|
    decreases |chain|
  {
    if chain != [] {
      var init, last := chain[..|chain| - 1], chain[|chain| - 1];
      assert NeverRestores(init) by {
        assert forall i :: 0 <= i < |init| ==> init[i] == chain[i];
      }
      if last.after.Obj? {
        WholesAreBounded(init, values);
      } else {
        assert last.after !in GivenWhole(init) by {
          if last.after in GivenWhole(init) {
            GivenWholeIsRetired(init, last.after);
            RetiredWholeExact(init, last.after);
          }
        }
        assert last.after in GivenWhole(chain);
        WholesAreBounded(init, values - {last.after});
      }
    }
  }

  /** No restatement loops: however long such a run is, at most |values| restatements can set
      one key to values drawn from `values`, and at most |wholes| can replace the field. */
  lemma RestatementsAreBounded(
    layer: Layer, steps: seq<Step>, target: Target, key: string, values: set<Option<string>>, wholes: set<Json>)
    requires NeverRestores(Chain(layer.events, target))
    requires MonotonicRun(layer, steps, target)
    ensures
      var chain := Chain(Run(layer, steps).events, target);
      && ((forall v :: v in Given(chain, key) ==> v in values) ==> |Given(chain, key)| <= |values|)
      && ((forall v :: v in GivenWhole(chain) ==> v in wholes) ==> |GivenWhole(chain)| <= |wholes|)
  {
    NeverRestoresOverRuns(layer, steps, target);
    var chain := Chain(Run(layer, steps).events, target);
    if forall v :: v in Given(chain, key) ==> v in values {
      TouchesAreBounded(chain, key, values);
    }
    if forall v :: v in GivenWhole(chain) ==> v in wholes {
      WholesAreBounded(chain, wholes);
    }
  }

  // ---------- every restatement is attributable ----------

  /** A restatement names a verified human, a ticket, a reason and a real change, says what it
      replaces (entries of a map, or a value that is not empty), and nothing about any finding. */
  predicate Authored(event: Event) {
    IsRestatement(event) ==>
      var actor, block := event.source.actor, event.restatement.value;
      && actor.kind == Human && !Blank(TextOrEmpty(actor.identity)) && GateVerified(actor)
      && !Blank(block.ticket) && block.before != block.after
      && (block.before.Obj? || (block.before.Str? && block.before.text != ""))
      && |event.rationale| >= RATIONALE_MIN_LENGTH
      && event.disposition == EmptyDisposition
  }

  predicate AllAuthored(events: seq<Event>) {
    forall e :: e in events ==> Authored(e)
  }

  lemma BuiltIsAuthored(layer: Layer, req: RestateRequest)
    requires EditRestate(layer, req).Ok?
    ensures Authored(BuildRestatementEvent(req))
  {
    EditedPassesGates(layer, req);
  }

  /** Path by path: the handler's own checks make its restatements attributable and no other
      handler builds one, so only the three writes past it are looked at. */
  predicate AddsAuthored(layer: Layer, step: Step) {
    match step
    case AppendEvent(event, _) => CanonicalId(event) in IdsOf(layer.events) || Authored(event)
    case RestateDirectly(event, _, _) => CanonicalId(event) in IdsOf(layer.events) || Authored(event)
    case SubmitBatch(events, _, _) =>
      forall i :: 0 <= i < |events| && FirstOfId(IdsOf(layer.events), events, i) ==> Authored(events[i])
    case _ => true
  }

  lemma NovelAuthored(known: set<EventId>, events: seq<Event>)
    ensures AllAuthored(Novel(known, events))
       <==> forall i :: 0 <= i < |events| && FirstOfId(known, events, i) ==> Authored(events[i])
  {
    if AllAuthored(Novel(known, events)) {
      forall i | 0 <= i < |events| && FirstOfId(known, events, i)
        ensures Authored(events[i])
      {
        NovelExact(known, events, AsStored(events[i]));
        assert Authored(AsStored(events[i]));
      }
    } else {
      var e :| e in Novel(known, events) && !Authored(e);
      NovelExact(known, events, e);
      var i :| 0 <= i < |events| && FirstOfId(known, events, i) && AsStored(events[i]) == e;
      assert !Authored(events[i]);
    }
  }

  lemma OneAuthored(events: seq<Event>, event: Event)
    ensures AllAuthored(AddedOne(events, event)) <==> CanonicalId(event) in IdsOf(events) || Authored(event)
  {
    assert AsStored(event) in [AsStored(event)];
  }

  lemma AddsAuthoredExact(layer: Layer, step: Step)
    requires Edit(layer, step).Ok?
    ensures AllAuthored(Added(layer, step)) <==> AddsAuthored(layer, step)
  {
    match step {
      case AppendEvent(event, _) => OneAuthored(layer.events, event);
      case RestateDirectly(event, _, _) => OneAuthored(layer.events, event);
      case SubmitBatch(events, _, _) => NovelAuthored(IdsOf(layer.events), events);
      case Countersign(req, _) => OneAuthored(layer.events, CountersignEvent(layer, req));
      case Restate(req, _) =>
        BuiltIsAuthored(layer, req);
        OneAuthored(layer.events, BuildRestatementEvent(req));
      case _ =>
    }
  }

  ghost predicate AuthoredRun(layer: Layer, steps: seq<Step>) {
    steps == [] ||
    var mid, last := Run(layer, steps[..|steps| - 1]), steps[|steps| - 1];
    AuthoredRun(layer, steps[..|steps| - 1]) && (Apply(mid, last).Ok? ==> AddsAuthored(mid, last))
  }

  /** For every write of every kind, the exact condition read off the request. */
  lemma StepAuthoredExact(layer: Layer, step: Step)
    ensures AllAuthored(Next(layer, step).events)
       <==> AllAuthored(layer.events) && (Apply(layer, step).Ok? ==> AddsAuthored(layer, step))
  {
    if Apply(layer, step).Ok? {
      ApplyIsEdit(layer, step);
      EditAdds(layer, step);
      AddsAuthoredExact(layer, step);
    }
  }

  /** Over any run of any writes: every restatement in the log is attributable if and only if
      every one that entered past the handler is. */
  lemma {:induction false} RestatementsAreAuthored(layer: Layer, steps: seq<Step>)
    requires AllAuthored(layer.events)
    ensures AllAuthored(Run(layer, steps).events) <==> AuthoredRun(layer, steps)
    decreases |steps|
  {
    if steps != [] {
      var init := steps[..|steps| - 1];
      RestatementsAreAuthored(layer, init);
      StepAuthoredExact(Run(layer, init), steps[|steps| - 1]);
    }
  }

  /** In particular when restatements enter through the handler alone. */
  lemma {:induction false} GatedRunIsAuthored(layer: Layer, steps: seq<Step>)
    requires forall step :: step in steps ==> GatedOnly(step)
    requires AllAuthored(layer.events)
    ensures AllAuthored(Run(layer, steps).events)
    decreases |steps|
  {
    if steps != [] {
      var init, last := steps[..|steps| - 1], steps[|steps| - 1];
      GatedRunIsAuthored(layer, init);
      assert last in steps;
      if last.SubmitBatch? {
        assert forall i :: 0 <= i < |last.events| ==> last.events[i] in last.events;
      }
      StepAuthoredExact(Run(layer, init), last);
    }
  }

  // ---------- a first value is not a restatement ----------

  /** Null, the empty text and the empty map record nothing. */
  predicate Empty(value: Json) {
    value == Null || value == Str("") || value == Obj(map[])
  }

  /** A request over a map that holds no entry, and says so. */
  predicate FillsEmptyMap(layer: Layer, step: Step, target: Target) {
    && step.Restate? && step.restate.block.target == target
    && Field(layer.meta, target) == Obj(map[]) && step.restate.block.before == Obj(map[])
  }

  predicate GivesFirstValue(layer: Layer, step: Step, target: Target) {
    step.PatchMetadata? || step.RestateDirectly? || FillsEmptyMap(layer, step, target)
  }

  lemma NothingHeld(block: Block, actual: Json)
    requires Empty(actual) && RequireSomethingToRestate(block, actual).None?
    ensures actual == Obj(map[]) && block.before == Obj(map[])
  {
    if block.before.Obj? {
      assert block.before.entries.Keys == {};
    }
  }

  /** The handler restates only what is recorded: it leaves an absent, null or empty-text field as
      it is, and can fill an empty map only for a request that replaces nothing. */
  lemma FirstValueStep(layer: Layer, step: Step, target: Target)
    requires Empty(Field(layer.meta, target)) && !Empty(Field(Next(layer, step).meta, target))
    ensures Apply(layer, step).Ok? && GivesFirstValue(layer, step, target)
  {
    if Apply(layer, step).Ok? {
      ApplyIsEdit(layer, step);
      EditWrites(layer, step, target);
      if step.Restate? && step.restate.block.target == target {
        EditedPassesGates(layer, step.restate);
        NothingHeld(step.restate.block, Field(layer.meta, target));
      }
    }
  }

  /** Over any run of any writes, a field that starts empty gets its first value from a patch, from
      the writer's own entry point, or as an addition to an empty map. */
  lemma {:induction false} FirstValueOverRuns(layer: Layer, steps: seq<Step>, target: Target) returns (i: nat)
    requires Empty(Field(layer.meta, target)) && !Empty(Field(Run(layer, steps).meta, target))
    ensures i < |steps|
    ensures
      var before, step := Run(layer, steps[..i]), steps[i];
      && Empty(Field(before.meta, target)) && !Empty(Field(Next(before, step).meta, target))
      && Apply(before, step).Ok? && GivesFirstValue(before, step, target)
    decreases |steps|
  {
    var init := steps[..|steps| - 1];
    if Empty(Field(Run(layer, init).meta, target)) {
      i := |steps| - 1;
      FirstValueStep(Run(layer, init), steps[i], target);
    } else {
      i := FirstValueOverRuns(layer, init, target);
      assert steps[..i] == init[..i];
    }
  }

  // ---------- nothing signed is silently overwritten ----------

  /** An entry of a map field, or (with no key) a whole non-empty value, is recorded. */
  predicate Records(value: Json, key: Option<string>, entry: Json) {
    match key
    case None => value == entry && Truthy(value) && !value.Obj?
    case Some(k) => value.Obj? && k in value.entries && value.entries[k].Some? && entry == Str(value.entries[k].value)
  }

  /** A restatement that says it changes this entry: it replaces the field or names the key. */
  predicate Names(event: Event, target: Target, key: Option<string>) {
    && IsRestatement(event) && event.restatement.value.target == target
    && (key.Some? && event.restatement.value.after.Obj? ==> key.value in event.restatement.value.after.entries)
  }

  ghost predicate ExplainedSince(from: seq<Event>, to: seq<Event>, target: Target, key: Option<string>) {
    exists i :: |from| <= i < |to| && Names(to[i], target, key)
  }

  /** A restatement, gated or direct, whose event is appended. */
  predicate AppendsItsEvent(layer: Layer, step: Step) {
    && (step.Restate? ==> !Dropped(layer, step.restate))
    && (step.RestateDirectly? ==> CanonicalId(step.event) !in IdsOf(layer.events))
  }

  lemma CoveredKeepsOrNames(prior: Json, changed: Json, event: Event, target: Target, key: Option<string>, entry: Json)
    requires ChangeExplained(prior, changed, event, target)
    requires Records(prior, key, entry)
    ensures Records(changed, key, entry) || Names(event, target, key)
  {
    if key.Some? {
      assert key.value in prior.entries;
    }
  }

  /** One accepted write keeps a recorded entry or appends a restatement that names it. */
  lemma StepKeepsEntry(layer: Layer, step: Step, target: Target, key: Option<string>, entry: Json)
    requires AppendsItsEvent(layer, step)
    requires Records(Field(layer.meta, target), key, entry)
    ensures
      var next := Next(layer, step);
      || Records(Field(next.meta, target), key, entry)
      || ExplainedSince(layer.events, next.events, target, key)
  {
    if Apply(layer, step).Ok? {
      ApplyIsEdit(layer, step);
      EditKeepsEntry(layer, step, target, key, entry);
    }
  }

  lemma EditKeepsEntry(layer: Layer, step: Step, target: Target, key: Option<string>, entry: Json)
    requires Edit(layer, step).Ok? && AppendsItsEvent(layer, step)
    requires Records(Field(layer.meta, target), key, entry)
    ensures
      var edited := Edit(layer, step).value;
      || Records(Field(edited.meta, target), key, entry)
      || ExplainedSince(layer.events, edited.events, target, key)
  {
    match step {
      case Restate(req, _) =>
        var e := BuildRestatementEvent(req);
        DirectKeepsEntry(layer, e, map[req.block.target := Merge(Field(layer.meta, req.block.target),
            req.block.after)],
                         target, key, entry);
      case RestateDirectly(event, updates, _) => DirectKeepsEntry(layer, event, updates.fields, target, key, entry);
      case PatchMetadata(updates, now, _) => PatchKeepsEntry(layer, updates, now, target, key, entry);
      case _ =>
    }
  }

  lemma DirectKeepsEntry(
    layer: Layer, event: Event, fields: map<Target, Json>, target: Target, key: Option<string>, entry: Json)
    requires AppendRestatement(layer, event, fields).Ok?
    requires CanonicalId(event) !in IdsOf(layer.events)
    requires Records(Field(layer.meta, target), key, entry)
    ensures
      var edited := AppendRestatement(layer, event, fields).value;
      || Records(Field(edited.meta, target), key, entry)
      || ExplainedSince(layer.events, edited.events, target, key)
  {
    var edited := AppendRestatement(layer, event, fields).value;
    CoveredKeepsOrNames(Field(layer.meta, target), Field(edited.meta, target), event, target, key, entry);
    var last := edited.events[|layer.events|];
    assert Names(event, target, key) ==> Names(last, target, key);
  }

  lemma PatchKeepsEntry(
    layer: Layer, updates: Updates, now: string, target: Target, key: Option<string>, entry: Json)
    requires EditPatch(layer, updates, now).Ok?
    requires Records(Field(layer.meta, target), key, entry)
    ensures Records(Field(EditPatch(layer, updates, now).value.meta, target), key, entry)
  {
    var prior, changed := Field(layer.meta, target), Field(Patched(layer.meta, updates, now), target);
    assert !Destructive(prior, changed);
    if key.Some? {
      assert key.value in prior.entries;
    }
  }

  lemma DroppedWrites(layer: Layer, event: Event, fields: map<Target, Json>)
    requires AppendRestatement(layer, event, fields).Ok?
    requires CanonicalId(event) in IdsOf(layer.events)
    ensures AppendRestatement(layer, event, fields).value.events == layer.events
  {
  }

  lemma DroppedExplainsNothing(layer: Layer, step: Step)
    requires Edit(layer, step).Ok? && !AppendsItsEvent(layer, step)
    ensures Edit(layer, step).value.events == layer.events
  {
    match step {
      case Restate(req, _) =>
        var merged := Merge(Field(layer.meta, req.block.target), req.block.after);
        DroppedWrites(layer, BuildRestatementEvent(req), map[req.block.target := merged]);
      case RestateDirectly(event, updates, _) => DroppedWrites(layer, event, updates.fields);
    }
  }

  /** The write's event is appended, or the value it writes still holds the entry. */
  predicate KeepsOrExplains(layer: Layer, step: Step, target: Target, key: Option<string>, entry: Json) {
    AppendsItsEvent(layer, step) || Records(Written(layer, step, target), key, entry)
  }

  /** The exact condition, write by write: a recorded entry is kept or explained if and only
      if the write's event is appended or the value it writes still holds the entry. */
  lemma OverwriteExplainedExact(layer: Layer, step: Step, target: Target, key: Option<string>, entry: Json)
    requires Apply(layer, step).Ok?
    requires Records(Field(layer.meta, target), key, entry)
    ensures
      var next := Next(layer, step);
      || Records(Field(next.meta, target), key, entry)
      || ExplainedSince(layer.events, next.events, target, key)
      <==> KeepsOrExplains(layer, step, target, key, entry)
  {
    if AppendsItsEvent(layer, step) {
      StepKeepsEntry(layer, step, target, key, entry);
    } else {
      ApplyIsEdit(layer, step);
      EditWrites(layer, step, target);
      DroppedExplainsNothing(layer, step);
    }
  }

  lemma ExplainedGrows(a: seq<Event>, b: seq<Event>, c: seq<Event>, target: Target, key: Option<string>)
    requires a <= b <= c
    ensures ExplainedSince(a, c, target, key)
       <==> ExplainedSince(a, b, target, key) || ExplainedSince(b, c, target, key)
  {
    if ExplainedSince(a, b, target, key) {
      var i :| |a| <= i < |b| && Names(b[i], target, key);
      assert c[i] == b[i];
    }
    if ExplainedSince(b, c, target, key) {
      var i :| |b| <= i < |c| && Names(c[i], target, key);
    }
    if ExplainedSince(a, c, target, key) {
      var i :| |a| <= i < |c| && Names(c[i], target, key);
      if i < |b| {
        assert c[i] == b[i];
      }
    }
  }

  /** The entry still holds its value, or the log gained a restatement naming it since `start`. */
  ghost predicate KeptOrExplained(start: Layer, end: Layer, target: Target, key: Option<string>, entry: Json) {
    || Records(Field(end.meta, target), key, entry)
    || ExplainedSince(start.events, end.events, target, key)
  }

  /** Every accepted write that meets the entry, not yet explained, keeps or explains it. */
  ghost predicate ExplainedRun(layer: Layer, steps: seq<Step>, target: Target, key: Option<string>, entry: Json) {
    steps == [] ||
    var mid, last := Run(layer, steps[..|steps| - 1]), steps[|steps| - 1];
    && ExplainedRun(layer, steps[..|steps| - 1], target, key, entry)
    && (Apply(mid, last).Ok? && !ExplainedSince(layer.events, mid.events, target, key) ==>
        KeepsOrExplains(mid, last, target, key, entry))
  }

  ghost predicate ExplainedThroughout(
    layer: Layer, steps: seq<Step>, target: Target, key: Option<string>, entry: Json)
  {
    && KeptOrExplained(layer, Run(layer, steps), target, key, entry)
    && (steps == [] || ExplainedThroughout(layer, steps[..|steps| - 1], target, key, entry))
  }

  lemma StepExplains(start: Layer, layer: Layer, step: Step, target: Target, key: Option<string>, entry: Json)
    requires start.events <= layer.events && KeptOrExplained(start, layer, target, key, entry)
    ensures KeptOrExplained(start, Next(layer, step), target, key, entry) <==>
      (Apply(layer, step).Ok? && !ExplainedSince(start.events, layer.events, target, key) ==>
       KeepsOrExplains(layer, step, target, key, entry))
  {
    if Apply(layer, step).Ok? {
      ApplyIsEdit(layer, step);
      ExplainedGrows(start.events, layer.events, Next(layer, step).events, target, key);
      if !ExplainedSince(start.events, layer.events, target, key) {
        OverwriteExplainedExact(layer, step, target, key, entry);
      }
    }
  }

  /** Over any run of any writes: a recorded entry of a signed field keeps its value, or the log
      gained a restatement naming it, all through, if and only if every accepted write that
      meets the entry keeps or explains it. */
  lemma {:induction false} NoSilentOverwrite(
    layer: Layer, steps: seq<Step>, target: Target, key: Option<string>, entry: Json)
    requires Records(Field(layer.meta, target), key, entry)
    ensures ExplainedThroughout(layer, steps, target, key, entry) <==> ExplainedRun(layer, steps, target, key, entry)
    decreases |steps|
  {
    if steps != [] {
      var init := steps[..|steps| - 1];
      NoSilentOverwrite(layer, init, target, key, entry);
      LogGrowsOverRuns(layer, init);
      if ExplainedThroughout(layer, init, target, key, entry) {
        StepExplains(layer, Run(layer, init), steps[|steps| - 1], target, key, entry);
      }
    }
  }
}
