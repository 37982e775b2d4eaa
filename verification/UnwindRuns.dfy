/** Reading prior maps back from the log: for every kind of write, exactly when its blocks record
    what it changes, and so over whole runs. */
module UnwindRuns {
  import opened Wrappers
  import opened Events
  import opened Layers
  import opened Restatements
  import opened Gates
  import opened Writer
  import opened Handlers
  import opened ReplayRuns

  // ---------- unwinding ----------

  /** Apply the `before` deltas of a chain, newest first. */
  function Unwind(value: Json, chain: seq<Block>): Json
    decreases |chain|
  {
    if chain == [] then value
    else Unwind(Merge(value, chain[|chain| - 1].before), chain[..|chain| - 1])
  }

  lemma {:induction false} UnwindOfConcat(value: Json, older: seq<Block>, newer: seq<Block>)
    ensures Unwind(value, older + newer) == Unwind(Unwind(value, newer), older)
    decreases |newer|
  {
    if newer == [] {
      assert older + newer == older;
    } else {
      assert (older + newer)[..|older + newer| - 1] == older + newer[..|newer| - 1];
      UnwindOfConcat(Merge(value, newer[|newer| - 1].before), older, newer[..|newer| - 1]);
    }
  }

  /** The write leaves a null-free map, and the `before` deltas of the blocks it adds take it
      back to the map it found. */
  ghost predicate Unwindable(layer: Layer, step: Step, target: Target)
    requires Edit(layer, step).Ok?
  {
    var written := Written(layer, step, target);
    && written.Obj? && NoNullEntries(written)
    && Unwind(written, NewBlocks(layer, step, target)) == Field(layer.meta, target)
  }

  // ---------- what a block has to record ----------

  predicate NamedIn(value: Json, key: string) {
    value.Obj? && key in value.entries
  }

  /** The block's `before` holds current entries and names every key at which the value written
      differs from the one stored. */
  ghost predicate RecordsChange(before: Json, actual: Json, written: Json)
    requires actual.Obj?
  {
    && before.Obj? && written.Obj? && NoNullEntries(written)
    && (forall key :: key in before.entries ==> HoldsEntry(actual, key, before.entries[key]))
    && (forall key :: key !in before.entries ==> EntryOf(written.entries, key) == EntryOf(actual.entries, key))
  }

  lemma RecordsChangeExact(before: Json, actual: Json, written: Json)
    requires actual.Obj? && NoNullEntries(actual)
    ensures written.Obj? && NoNullEntries(written) && Merge(written, before) == actual
       <==> RecordsChange(before, actual, written)
  {
    if before.Obj? && written.Obj? && NoNullEntries(written) {
      var back := MergeEntries(written.entries, before.entries);
      if RecordsChange(before, actual, written) {
        forall key
          ensures key in back <==> key in actual.entries
          ensures key in back ==> back[key] == actual.entries[key]
        {
          assert EntryOf(back, key) == EntryOf(actual.entries, key);
        }
        assert back == actual.entries;
      }
      if back == actual.entries {
        forall key | key !in before.entries
          ensures EntryOf(written.entries, key) == EntryOf(actual.entries, key)
        {
          assert EntryOf(back, key) == EntryOf(written.entries, key);
        }
      }
    }
  }

  /** The delta changes nothing but what is named: read off a request before it is sent. */
  ghost predicate ChangesOnly(named: Json, after: Json, actual: Json) {
    && after.Obj?
    && forall key :: key in after.entries && !NamedIn(named, key) ==> HoldsEntry(actual, key, after.entries[key])
  }

  /** Undoing a fresh delta restores the prior map if and only if it changes only what its `before`
      names. */
  lemma UndoExact(before: Json, after: Json, actual: Json)
    requires before.Obj? && actual.Obj? && NoNullEntries(actual)
    requires forall key :: key in before.entries ==> key in actual.entries && actual.entries[key] == before.entries[key]
    ensures
      && Merge(actual, after).Obj? && NoNullEntries(Merge(actual, after))
      && Merge(Merge(actual, after), before) == actual
      <==> ChangesOnly(before, after, actual)
  {
    if after.Obj? {
      var there := MergeEntries(actual.entries, after.entries);
      var back := MergeEntries(there, before.entries);
      if ChangesOnly(before, after, actual) {
        assert back == actual.entries;
      } else {
        var key :| key in after.entries && !NamedIn(before, key) && !HoldsEntry(actual, key, after.entries[key]);
        assert EntryOf(back, key) == after.entries[key];
      }
    }
  }

  /** With nothing recorded, only a delta that changes nothing leaves the map as it was. */
  lemma NoChangeExact(after: Json, actual: Json)
    requires actual.Obj? && NoNullEntries(actual)
    ensures Merge(actual, after) == actual <==> ChangesOnly(Null, after, actual)
  {
    if after.Obj? {
      var there := MergeEntries(actual.entries, after.entries);
      if ChangesOnly(Null, after, actual) {
        assert there == actual.entries;
      } else {
        var key :| key in after.entries && !HoldsEntry(actual, key, after.entries[key]);
        assert EntryOf(there, key) == after.entries[key];
      }
    }
  }

  /** The patch writes nothing new to the map. */
  predicate PatchesNothing(value: Json, actual: Json)
    requires actual.Obj?
  {
    && value.Obj?
    && forall key :: key in value.entries ==> key in actual.entries && actual.entries[key] == value.entries[key]
  }

  lemma PatchesNothingExact(value: Json, actual: Json)
    requires actual.Obj?
    ensures PatchValue(actual, value) == actual <==> PatchesNothing(value, actual)
  {
    if value.Obj? {
      var both := actual.entries + value.entries;
      if PatchesNothing(value, actual) {
        assert both == actual.entries;
      }
      if both == actual.entries {
        forall key | key in value.entries
          ensures key in actual.entries && actual.entries[key] == value.entries[key]
        {
          assert key in both && both[key] == value.entries[key];
        }
      }
    }
  }

  // ---------- many blocks at once ----------

  /** The entry that the oldest block to name a key says it replaced. */
  function FirstNamed(blocks: seq<Block>, key: string): Option<Option<string>> {
    if blocks == [] then None
    else
      var older, before := FirstNamed(blocks[..|blocks| - 1], key), blocks[|blocks| - 1].before;
      if older.Some? then older else if NamedIn(before, key) then Some(before.entries[key]) else None
  }

  /** How many blocks, oldest first, record a map before the first that does not. */
  function Deltas(blocks: seq<Block>): (n: nat)
    ensures n <= |blocks|
    ensures forall i :: 0 <= i < n ==> blocks[i].before.Obj?
    ensures n < |blocks| ==> !blocks[n].before.Obj?
  {
    if blocks == [] then 0
    else
      var init := blocks[..|blocks| - 1];
      var n := Deltas(init);
      if n == |init| && blocks[|blocks| - 1].before.Obj? then |blocks| else n
  }

  /** Unwinding map blocks, key by key: the oldest to name a key decides. */
  lemma {:induction false} UnwindEntry(value: Json, blocks: seq<Block>, key: string)
    requires value.Obj? && forall i :: 0 <= i < |blocks| ==> blocks[i].before.Obj?
    ensures Unwind(value, blocks).Obj?
    ensures
      var entries, first := Unwind(value, blocks).entries, FirstNamed(blocks, key);
      && (key in entries <==> if first.Some? then first.value.Some? else key in value.entries)
      && (key in entries ==> entries[key] == if first.Some? then first.value else value.entries[key])
    decreases |blocks|
  {
    if blocks != [] {
      var init, before := blocks[..|blocks| - 1], blocks[|blocks| - 1].before;
      UnwindEntry(Merge(value, before), init, key);
    }
  }

  /** A block that records no map hides everything newer than itself. */
  lemma UnwindCut(value: Json, blocks: seq<Block>, n: nat)
    requires n < |blocks| && !blocks[n].before.Obj?
    ensures Unwind(value, blocks) == Unwind(blocks[n].before, blocks[..n])
  {
    assert blocks == blocks[..n] + ([blocks[n]] + blocks[n + 1..]);
    UnwindOfConcat(value, blocks[..n], [blocks[n]] + blocks[n + 1..]);
    UnwindOfConcat(value, [blocks[n]], blocks[n + 1..]);
    UnwindOne(Unwind(value, blocks[n + 1..]), blocks[n]);
  }

  /** What map blocks over a value that is no map rebuild at one key.  The newest of them is then
      taken as it stands, so a null it holds stays unless an older block names the key. */
  predicate RebuiltAt(deltas: seq<Block>, actual: Json, key: string)
    requires deltas != [] && actual.Obj?
  {
    match FirstNamed(deltas, key)
    case None => key !in actual.entries
    case Some(Some(text)) => HoldsEntry(actual, key, Some(text))
    case Some(None) => key !in actual.entries && FirstNamed(deltas[..|deltas| - 1], key).Some?
  }

  ghost predicate SayWhatIsHeld(blocks: seq<Block>, actual: Json) {
    forall key :: FirstNamed(blocks, key).Some? ==> HoldsEntry(actual, key, FirstNamed(blocks, key).value)
  }

  /** The blocks say of every key what the map already holds. */
  ghost predicate UndoneBy(blocks: seq<Block>, actual: Json)
    requires actual.Obj?
  {
    var n := Deltas(blocks);
    if n == |blocks| then SayWhatIsHeld(blocks, actual)
    else n > 0 && forall key :: RebuiltAt(blocks[..n], actual, key)
  }

  lemma UndoneExact(blocks: seq<Block>, actual: Json)
    requires actual.Obj? && NoNullEntries(actual)
    ensures Unwind(actual, blocks) == actual <==> UndoneBy(blocks, actual)
  {
    var n := Deltas(blocks);
    if n == |blocks| {
      UndoneByDeltas(blocks, actual);
    } else {
      UnwindCut(actual, blocks, n);
      if n > 0 {
        RebuiltExact(blocks[n].before, blocks[..n], actual);
      } else {
        assert blocks[..0] == [];
      }
    }
  }

  lemma UndoneByDeltas(blocks: seq<Block>, actual: Json)
    requires actual.Obj? && NoNullEntries(actual)
    requires forall i :: 0 <= i < |blocks| ==> blocks[i].before.Obj?
    ensures Unwind(actual, blocks) == actual <==> SayWhatIsHeld(blocks, actual)
  {
    var back := Unwind(actual, blocks);
    UnwindEntry(actual, blocks, "");
    if SayWhatIsHeld(blocks, actual) {
      forall key
        ensures key in back.entries <==> key in actual.entries
        ensures key in back.entries ==> back.entries[key] == actual.entries[key]
      {
        UnwindEntry(actual, blocks, key);
      }
      assert back.entries == actual.entries;
    }
    if back == actual {
      forall key | FirstNamed(blocks, key).Some?
        ensures HoldsEntry(actual, key, FirstNamed(blocks, key).value)
      {
        UnwindEntry(actual, blocks, key);
      }
    }
  }

  lemma RebuiltExact(cut: Json, deltas: seq<Block>, actual: Json)
    requires actual.Obj? && NoNullEntries(actual) && !cut.Obj?
    requires deltas != [] && forall i :: 0 <= i < |deltas| ==> deltas[i].before.Obj?
    ensures Unwind(cut, deltas) == actual <==> forall key :: RebuiltAt(deltas, actual, key)
  {
    var init, base := deltas[..|deltas| - 1], deltas[|deltas| - 1].before;
    var back := Unwind(base, init);
    assert Unwind(cut, deltas) == back;
    UnwindEntry(base, init, "");
    forall key
      ensures RebuiltAt(deltas, actual, key) <==>
        && (key in back.entries <==> key in actual.entries)
        && (key in back.entries ==> back.entries[key] == actual.entries[key])
    {
      UnwindEntry(base, init, key);
    }
    if forall key :: RebuiltAt(deltas, actual, key) {
      assert back.entries == actual.entries;
    }
    if back == actual {
      forall key
        ensures RebuiltAt(deltas, actual, key)
      {
      }
    }
  }

  // ---------- which writes can be unwound ----------

  /** Path by path, for a null-free map.  A handler restatement may change only what its `before`
      names, and nothing if its id is taken; a direct one likewise, whatever it writes; an append
      or a batch writes nothing, so its blocks must record what is stored; a patch may write
      nothing new; the rest never touch the field. */
  ghost predicate KeepsRecoverable(layer: Layer, step: Step, target: Target)
    requires Field(layer.meta, target).Obj?
  {
    var actual, taken := Field(layer.meta, target), IdsOf(layer.events);
    match step
    case Restate(req, _) =>
      req.block.target == target ==>
        ChangesOnly(if Dropped(layer, req) then Null else req.block.before, req.block.after, actual)
    case RestateDirectly(event, updates, _) =>
      var written := if target in updates.fields then updates.fields[target] else actual;
      if Restates(event, target) && CanonicalId(event) !in taken
      then RecordsChange(event.restatement.value.before, actual, written) else written == actual
    case AppendEvent(event, _) =>
      Restates(event, target) && CanonicalId(event) !in taken ==>
        RecordsChange(event.restatement.value.before, actual, actual)
    case SubmitBatch(events, _, _) => UndoneBy(Chain(Novel(taken, events), target), actual)
    case PatchMetadata(updates, _, _) => target in updates.fields ==> PatchesNothing(updates.fields[target], actual)
    case _ => true
  }

  lemma UnwindOne(value: Json, block: Block)
    ensures Unwind(value, [block]) == Merge(value, block.before)
  {
    assert [block][..0] == [];
  }

  /** The handler's restatements, read off the request. */
  lemma RestateUnwindsExact(layer: Layer, req: RestateRequest, config: Config)
    requires EditRestate(layer, req).Ok?
    requires Field(layer.meta, req.block.target).Obj? && NoNullEntries(Field(layer.meta, req.block.target))
    ensures Unwindable(layer, Restate(req, config), req.block.target) <==>
      ChangesOnly(if Dropped(layer, req) then Null else req.block.before, req.block.after,
                  Field(layer.meta, req.block.target))
  {
    var target, block := req.block.target, req.block;
    var actual := Field(layer.meta, target);
    RestateAdds(layer, req, config, target);
    EditedPassesGates(layer, req);
    if Dropped(layer, req) {
      NoChangeExact(block.after, actual);
    } else {
      UnwindOne(Merge(actual, block.after), block);
      FreshNamesCurrent(block, actual);
      UndoExact(block.before, block.after, actual);
    }
  }

  lemma FreshNamesCurrent(block: Block, actual: Json)
    requires actual.Obj? && NoNullEntries(actual)
    requires RequireSomethingToRestate(block, actual).None? && RequireFresh(block, actual).None?
    ensures block.before.Obj?
    ensures forall key :: key in block.before.entries ==>
      key in actual.entries && actual.entries[key] == block.before.entries[key]
  {
  }

  lemma BlocksUnwindExact(events: seq<Event>, event: Event, target: Target, actual: Json, written: Json)
    requires actual.Obj? && NoNullEntries(actual)
    ensures
      && written.Obj? && NoNullEntries(written)
      && Unwind(written, Chain(AddedOne(events, event), target)) == actual
      <==> if Restates(event, target) && CanonicalId(event) !in IdsOf(events)
           then RecordsChange(event.restatement.value.before, actual, written) else written == actual
  {
    ChainOfAddedOne(events, event, target);
    if Restates(event, target) && CanonicalId(event) !in IdsOf(events) {
      UnwindOne(written, event.restatement.value);
      RecordsChangeExact(event.restatement.value.before, actual, written);
    }
  }

  /** For every accepted write of every kind: it can be unwound if and only if it records what it
      changes. */
  lemma UnwindableExact(layer: Layer, step: Step, target: Target)
    requires Edit(layer, step).Ok?
    requires Field(layer.meta, target).Obj? && NoNullEntries(Field(layer.meta, target))
    ensures Unwindable(layer, step, target) <==> KeepsRecoverable(layer, step, target)
  {
    var actual := Field(layer.meta, target);
    match step {
      case Restate(req, config) =>
        if req.block.target == target {
          RestateUnwindsExact(layer, req, config);
        } else {
          RestateAdds(layer, req, config, target);
        }
      case RestateDirectly(event, _, _) =>
        BlocksUnwindExact(layer.events, event, target, actual, Written(layer, step, target));
      case AppendEvent(event, _) => BlocksUnwindExact(layer.events, event, target, actual, actual);
      case SubmitBatch(events, _, _) => UndoneExact(Chain(Novel(IdsOf(layer.events), events), target), actual);
      case PatchMetadata(updates, _, _) =>
        NothingAdded(layer, step, target);
        if target in updates.fields {
          PatchesNothingExact(updates.fields[target], actual);
        }
      case _ => NothingAdded(layer, step, target);
    }
  }

  // ---------- over runs ----------

  /** Unwinding the blocks appended since gives back the map held at `start`. */
  predicate UnwindsTo(start: Layer, end: Layer, target: Target) {
    var before, now := Chain(start.events, target), Chain(end.events, target);
    && Field(end.meta, target).Obj? && NoNullEntries(Field(end.meta, target))
    && before <= now
    && Unwind(Field(end.meta, target), now[|before|..]) == Field(start.meta, target)
  }

  lemma UnwindsToSelf(layer: Layer, target: Target)
    ensures UnwindsTo(layer, layer, target)
       <==> Field(layer.meta, target).Obj? && NoNullEntries(Field(layer.meta, target))
  {
    var now := Chain(layer.events, target);
    assert now[|now|..] == [];
  }

  lemma UnwindsThrough(start: Layer, mid: Layer, end: Layer, target: Target)
    requires UnwindsTo(start, mid, target) && UnwindsTo(mid, end, target)
    ensures UnwindsTo(start, end, target)
  {
    var before, now, later := Chain(start.events, target), Chain(mid.events, target), Chain(end.events, target);
    assert later[|before|..] == now[|before|..] + later[|now|..];
    UnwindOfConcat(Field(end.meta, target), now[|before|..], later[|now|..]);
  }

  /** One write: the map it found can be read back from the one it leaves. */
  lemma StepUnwindsExact(layer: Layer, step: Step, target: Target)
    requires Field(layer.meta, target).Obj? && NoNullEntries(Field(layer.meta, target))
    ensures UnwindsTo(layer, Next(layer, step), target)
       <==> (Apply(layer, step).Ok? ==> KeepsRecoverable(layer, step, target))
  {
    if Apply(layer, step).Ok? {
      ApplyIsEdit(layer, step);
      EditChain(layer, step, target);
      EditWrites(layer, step, target);
      UnwindableExact(layer, step, target);
      var chain, blocks := Chain(layer.events, target), NewBlocks(layer, step, target);
      assert (chain + blocks)[|chain|..] == blocks;
    } else {
      UnwindsToSelf(layer, target);
    }
  }

  /** Every accepted write of the run records what it changes. */
  ghost predicate RecoverableRun(layer: Layer, steps: seq<Step>, target: Target) {
    steps == [] ||
    var mid, last := Run(layer, steps[..|steps| - 1]), steps[|steps| - 1];
    && RecoverableRun(layer, steps[..|steps| - 1], target)
    && Field(mid.meta, target).Obj?
    && (Apply(mid, last).Ok? ==> KeepsRecoverable(mid, last, target))
  }

  /** Every map held along the run can be read back from the one held at `end`. */
  ghost predicate ReachesBack(layer: Layer, steps: seq<Step>, end: Layer, target: Target) {
    && UnwindsTo(Run(layer, steps), end, target)
    && (steps == [] || ReachesBack(layer, steps[..|steps| - 1], end, target))
  }

  /** And so from every point of the run. */
  ghost predicate RecoverableThroughout(layer: Layer, steps: seq<Step>, target: Target) {
    && ReachesBack(layer, steps, Run(layer, steps), target)
    && (steps == [] || RecoverableThroughout(layer, steps[..|steps| - 1], target))
  }

  lemma {:induction false} ReachesBackThrough(layer: Layer, steps: seq<Step>, mid: Layer, end: Layer, target: Target)
    requires ReachesBack(layer, steps, mid, target) && UnwindsTo(mid, end, target)
    ensures ReachesBack(layer, steps, end, target)
    decreases |steps|
  {
    UnwindsThrough(Run(layer, steps), mid, end, target);
    if steps != [] {
      ReachesBackThrough(layer, steps[..|steps| - 1], mid, end, target);
    }
  }

  /** Over any run of any writes from a null-free map: every map it ever held can be read back from
      every later one through the log if and only if every accepted write records what it
      changes. */
  lemma {:induction false} RecoverableThroughoutExact(layer: Layer, steps: seq<Step>, target: Target)
    requires Field(layer.meta, target).Obj? && NoNullEntries(Field(layer.meta, target))
    ensures RecoverableThroughout(layer, steps, target) <==> RecoverableRun(layer, steps, target)
    decreases |steps|
  {
    if steps == [] {
      UnwindsToSelf(layer, target);
    } else {
      var init, last := steps[..|steps| - 1], steps[|steps| - 1];
      var mid := Run(layer, init);
      RecoverableThroughoutExact(layer, init, target);
      if RecoverableThroughout(layer, init, target) {
        UnwindsToSelf(mid, target);
        StepUnwindsExact(mid, last, target);
        ReachesBackStep(layer, steps, target);
      }
    }
  }

  lemma ReachesBackStep(layer: Layer, steps: seq<Step>, target: Target)
    requires steps != []
    requires ReachesBack(layer, steps[..|steps| - 1], Run(layer, steps[..|steps| - 1]), target)
    ensures ReachesBack(layer, steps, Run(layer, steps), target)
       <==> UnwindsTo(Run(layer, steps[..|steps| - 1]), Run(layer, steps), target)
  {
    var init := steps[..|steps| - 1];
    var mid, end := Run(layer, init), Run(layer, steps);
    UnwindsToSelf(end, target);
    if UnwindsTo(mid, end, target) {
      ReachesBackThrough(layer, init, mid, end, target);
    }
  }

  lemma {:induction false} ReachesStart(layer: Layer, steps: seq<Step>, end: Layer, target: Target)
    requires ReachesBack(layer, steps, end, target)
    ensures UnwindsTo(layer, end, target)
    decreases |steps|
  {
    if steps != [] {
      ReachesStart(layer, steps[..|steps| - 1], end, target);
    }
  }

  /** The prior map is recoverable: after any such run, unwinding the blocks appended since
      gives back, entry for entry, the map the run started from. */
  lemma LogUnwindsToPriorMap(layer: Layer, steps: seq<Step>, target: Target)
    requires Field(layer.meta, target).Obj? && NoNullEntries(Field(layer.meta, target))
    requires RecoverableRun(layer, steps, target)
    ensures UnwindsTo(layer, Run(layer, steps), target)
  {
    RecoverableThroughoutExact(layer, steps, target);
    ReachesStart(layer, steps, Run(layer, steps), target);
  }
}
