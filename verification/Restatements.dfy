/** Administrative restatements: delta merging, chain replay, and what counts as a
    destructive change of signature-bound metadata. */
module Restatements {
  import opened Wrappers
  import opened Events
  import opened Layers

  // ---------- merging ----------

  function MergeEntries(current: map<string, Option<string>>, after: map<string, Option<string>>)
    : (merged: map<string, Option<string>>)
  {
    map key | key in current.Keys + after.Keys && !(key in after && after[key].None?)
      :: if key in after then after[key] else current[key]
  }

  /** Maps merge per key and a null deletes; anything else replaces outright. */
  function Merge(current: Json, after: Json): Json {
    if after.Obj? && current.Obj? then Obj(MergeEntries(current.entries, after.entries)) else after
  }

  /** `merge_delta`, with its loop over the delta's items. */
  method MergeDelta(current: Json, after: Json) returns (result: Json)
    ensures result == Merge(current, after)
  {
    if !after.Obj? || !current.Obj? {
      return after;
    }
    var merged := current.entries;
    var todo := after.entries.Keys;
    while todo != {}
      invariant todo <= after.entries.Keys
      invariant merged == MergeEntries(current.entries, after.entries - todo)
      decreases todo
    {
      var key :| key in todo;
      if after.entries[key].None? {
        merged := merged - {key};
      } else {
        merged := merged[key := after.entries[key]];
      }
      todo := todo - {key};
    }
    assert after.entries - {} == after.entries;
    return Obj(merged);
  }

  /** True when `changed` drops or overwrites something `prior` already recorded. */
  predicate Destructive(prior: Json, changed: Json) {
    if !Truthy(prior) then false
    else if prior.Obj? && changed.Obj? then
      exists key :: key in prior.entries && EntryOf(changed.entries, key) != prior.entries[key]
    else changed != prior
  }

  // ---------- the chain ----------

  /** The restatement blocks naming `target`, oldest first. */
  function Chain(events: seq<Event>, target: Target): seq<Block> {
    if events == [] then []
    else
      var last := events[|events| - 1];
      Chain(events[..|events| - 1], target) +
      if IsRestatement(last) && last.restatement.value.target == target then [last.restatement.value] else []
  }

  lemma {:induction false} ChainOfConcat(a: seq<Event>, b: seq<Event>, target: Target)
    ensures Chain(a + b, target) == Chain(a, target) + Chain(b, target)
    decreases |b|
  {
    if b == [] {
      assert a + b == a;
    } else {
      assert (a + b)[..|a + b| - 1] == a + b[..|b| - 1];
      ChainOfConcat(a, b[..|b| - 1], target);
    }
  }

  /** The value a chain leaves behind, replayed from nothing. */
  function Replay(chain: seq<Block>): Json {
    if chain == [] then Null
    else
      var prior := Replay(chain[..|chain| - 1]);
      Merge(if prior.Obj? then prior else Null, chain[|chain| - 1].after)
  }

  /** `terminal_value`: None when the field was never restated. */
  function Terminal(events: seq<Event>, target: Target): Option<Json> {
    var chain := Chain(events, target);
    if chain == [] then None else Some(Replay(chain))
  }

  method TerminalValue(events: seq<Event>, target: Target) returns (restated: bool, expected: Json)
    ensures Terminal(events, target) == if restated then Some(expected) else None
  {
    var chain := Chain(events, target);
    if chain == [] {
      return false, Null;
    }
    expected := Null;
    for i := 0 to |chain|
      invariant expected == Replay(chain[..i])
    {
      assert chain[..i + 1][..i] == chain[..i];
      expected := MergeDelta(if expected.Obj? then expected else Null, chain[i].after);
    }
    assert chain[..|chain|] == chain;
    return true, expected;
  }

  // ---------- retired values ----------

  /** The entries one block gives for a key: what it replaced and what it set. */
  function BlockEntries(block: Block, key: string): seq<Option<string>> {
    (if block.before.Obj? && key in block.before.entries then [block.before.entries[key]] else []) +
    (if block.after.Obj? && key in block.after.entries then [block.after.entries[key]] else [])
  }

  function RetiredEntries(chain: seq<Block>, key: string): seq<Option<string>> {
    if chain == [] then []
    else RetiredEntries(chain[..|chain| - 1], key) + BlockEntries(chain[|chain| - 1], key)
  }

  function RetiredWhole(chain: seq<Block>): seq<Json> {
    if chain == [] then []
    else RetiredWhole(chain[..|chain| - 1]) + [chain[|chain| - 1].before, chain[|chain| - 1].after]
  }

  method RetiredValuesOfKey(events: seq<Event>, target: Target, key: string) returns (out: seq<Option<string>>)
    ensures out == RetiredEntries(Chain(events, target), key)
  {
    var chain := Chain(events, target);
    out := [];
    for i := 0 to |chain|
      invariant out == RetiredEntries(chain[..i], key)
    {
      assert chain[..i + 1][..i] == chain[..i];
      var before, after := chain[i].before, chain[i].after;
      ghost var was := out;
      if before.Obj? && key in before.entries {
        out := out + [before.entries[key]];
      }
      if after.Obj? && key in after.entries {
        out := out + [after.entries[key]];
      }
      assert out == was + BlockEntries(chain[i], key);
    }
    assert chain[..|chain|] == chain;
  }

  /** Every entry a chain ever held or set for a key is retired, and nothing else is. */
  lemma {:induction false} RetiredEntriesExact(chain: seq<Block>, key: string, value: Option<string>)
    ensures value in RetiredEntries(chain, key)
       <==> exists i :: 0 <= i < |chain| && value in BlockEntries(chain[i], key)
  {
    if chain != [] {
      var init, last := chain[..|chain| - 1], chain[|chain| - 1];
      RetiredEntriesExact(init, key, value);
      if value in RetiredEntries(init, key) {
        var i :| 0 <= i < |init| && value in BlockEntries(init[i], key);
        assert chain[i] == init[i];
      }
      if i :| 0 <= i < |chain| && value in BlockEntries(chain[i], key) {
        if i < |init| {
          assert init[i] == chain[i];
        }
      }
    }
  }

  lemma {:induction false} RetiredWholeExact(chain: seq<Block>, value: Json)
    ensures value in RetiredWhole(chain)
       <==> exists i :: 0 <= i < |chain| && (value == chain[i].before || value == chain[i].after)
  {
    if chain != [] {
      var init, last := chain[..|chain| - 1], chain[|chain| - 1];
      RetiredWholeExact(init, value);
      if value in RetiredWhole(init) {
        var i :| 0 <= i < |init| && (value == init[i].before || value == init[i].after);
        assert chain[i] == init[i];
      }
      if i :| 0 <= i < |chain| && (value == chain[i].before || value == chain[i].after) {
        if i < |init| {
          assert init[i] == chain[i];
        }
      }
    }
  }

  // ---------- replay against the stored value ----------

  /** `verify_restated_metadata` for one field: the stored value holds what the chain
      last gave each restated entry. */
  predicate Agrees(expected: Json, actual: Json) {
    if expected.Obj? then
      forall key :: key in expected.entries ==>
        actual.Obj? && EntryOf(actual.entries, key) == expected.entries[key]
    else actual == expected
  }

  predicate Drifted(layer: Layer, target: Target) {
    match Terminal(layer.events, target)
    case None => false
    case Some(expected) => !Agrees(expected, Field(layer.meta, target))
  }

  /** The fields reported, in the order the verifier walks them. */
  function VerifyRestatedMetadata(layer: Layer): seq<Target> {
    (if Drifted(layer, ClaimHashes) then [ClaimHashes] else []) +
    (if Drifted(layer, AuditReport) then [AuditReport] else []) +
    (if Drifted(layer, ArtifactDigests) then [ArtifactDigests] else [])
  }

  /** Replay commutes with the stored merge.  The chain folds deltas from nothing while
      the store merges them over whatever it held; the two stay in agreement through
      additions, deletions (kept as nulls by a first block, dropped by a later one) and
      wholesale replacements, for every kind of value. */
  lemma ReplayStep(chain: seq<Block>, block: Block, actual: Json)
    requires chain != [] ==> Agrees(Replay(chain), actual)
    ensures Agrees(Replay(chain + [block]), Merge(actual, block.after))
  {
    assert (chain + [block])[..|chain|] == chain;
  }

  /** Every entry a map holds is a digest.  Restatements keep a map so; a patch or the writer's own
      entry point may store a null. */
  predicate NoNullEntries(value: Json) {
    value.Obj? ==> forall key :: key in value.entries ==> value.entries[key].Some?
  }
}
