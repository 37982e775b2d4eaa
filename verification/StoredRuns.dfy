/** The handlers run as mutators of the database backend: the stored rows follow the run. */
module StoredRuns {
  import opened Wrappers
  import opened Layers
  import opened Writer
  import opened Handlers
  import opened LogRuns
  import opened RowStore

  /** A document as the mutators read it: an absent member reads as empty. */
  function LayerOf(doc: Document): Layer {
    Layer(
      RowStore.EventsOf(doc),
      if doc.metadata.Some? then doc.metadata.value else EmptyMetadata,
      if doc.needsReview.Some? then doc.needsReview.value else [])
  }

  /** The document after a write: an absent member appears once it holds something. */
  function Rebuilt(doc: Document, layer: Layer): (next: Document)
    ensures LayerOf(next) == layer
  {
    doc.(
      metadata := if doc.metadata.None? && layer.meta == EmptyMetadata then None else Some(layer.meta),
      events := if doc.events.None? && layer.events == [] then None else Some(layer.events),
      needsReview := if doc.needsReview.None? && layer.queue == [] then None else Some(layer.queue))
  }

  /** A handler step as the mutator the backend runs under its lock; a refusal raises. */
  ghost function AsMutator(step: Step): Document -> Option<Document> {
    (doc: Document) =>
      match Apply(LayerOf(doc), step)
      case Ok(next) => Some(Rebuilt(doc, next))
      case Err(_) => None
  }

  ghost function StepOp(id: string, step: Step): Op {
    Op.Mutate(id, AsMutator(step))
  }

  /** The schema verdict a step was given is the validator's on what it would store. */
  ghost predicate VerdictMatches(env: Environment, doc: Document, step: Step) {
    Apply(LayerOf(doc), step).Ok? ==> env.schema(Rebuilt(doc, Next(LayerOf(doc), step)))
  }

  /** A log the writer keeps is one the two tables accept. */
  lemma WellKeptIsRecordable(doc: Document)
    requires WellKept(RowStore.EventsOf(doc))
    ensures Recordable(doc) && UniqueIds(doc)
  {
    var events := RowStore.EventsOf(doc);
    forall i | 0 <= i < |events|
      ensures HasId(events[i])
    {
      assert events[i] in events;
    }
  }

  /** The backend never refuses a handler's write for its history or its ids: it stores the
      document the step computes, or the handler itself refused. */
  lemma StepIsApplied(catalog: Catalog, env: Environment, id: string, step: Step)
    requires id in catalog && WellKept(RowStore.EventsOf(catalog[id].document))
    requires VerdictMatches(env, catalog[id].document, step)
    ensures
      var doc := catalog[id].document;
      ApplyOp(catalog, env, StepOp(id, step)) ==
        match Apply(LayerOf(doc), step)
        case Ok(next) => Ok((catalog[id := catalog[id].(document := Rebuilt(doc, next))], Done))
        case Err(_) => Err(MutatorRaised)
  {
    var doc := catalog[id].document;
    var layer := LayerOf(doc);
    StepKeepsLog(layer, step);
    if Apply(layer, step).Ok? {
      var rebuilt := Rebuilt(doc, Next(layer, step));
      assert AsMutator(step)(doc) == Some(rebuilt);
      assert RowStore.EventsOf(rebuilt) == LayerOf(rebuilt).events;
      ExtendedIsReplaced(catalog, env, id, rebuilt);
    } else {
      assert AsMutator(step)(doc) == None;
    }
  }

  /** So the stored layer takes the step, its owner stays, and no other layer moves. */
  lemma StepIsStored(catalog: Catalog, env: Environment, id: string, step: Step)
    requires id in catalog && WellKept(RowStore.EventsOf(catalog[id].document))
    requires VerdictMatches(env, catalog[id].document, step)
    ensures
      var next := NextCatalog(catalog, env, StepOp(id, step));
      && next.Keys == catalog.Keys && next[id].owner == catalog[id].owner
      && (forall other :: other in catalog && other != id ==> next[other] == catalog[other])
      && LayerOf(next[id].document) == Next(LayerOf(catalog[id].document), step)
  {
    StepIsApplied(catalog, env, id, step);
  }

  lemma ExtendedIsReplaced(catalog: Catalog, env: Environment, id: string, doc: Document)
    requires id in catalog && env.schema(doc)
    requires WellKept(RowStore.EventsOf(doc)) && RowStore.EventsOf(catalog[id].document) <= RowStore.EventsOf(doc)
    ensures Replace(catalog, env, id, doc) == Ok(catalog[id := catalog[id].(document := doc)])
  {
    WellKeptIsRecordable(doc);
  }

  ghost function StepOps(id: string, steps: seq<Step>): seq<Op> {
    seq(|steps|, i requires 0 <= i < |steps| => StepOp(id, steps[i]))
  }

  ghost predicate VerdictsMatch(catalog: Catalog, env: Environment, id: string, steps: seq<Step>) {
    steps == [] ||
    var mid := RunOps(catalog, env, StepOps(id, steps[..|steps| - 1]));
    && VerdictsMatch(catalog, env, id, steps[..|steps| - 1])
    && id in mid && VerdictMatches(env, mid[id].document, steps[|steps| - 1])
  }

  lemma StepOpsSnoc(id: string, steps: seq<Step>)
    requires steps != []
    ensures StepOps(id, steps) == StepOps(id, steps[..|steps| - 1]) + [StepOp(id, steps[|steps| - 1])]
  {
  }

  /** Over any run of handler steps the stored document is the layer the run computes, so
      every result about runs holds of what the tables hold. */
  lemma {:induction false} StoreFollowsRun(catalog: Catalog, env: Environment, id: string, steps: seq<Step>)
    requires id in catalog && WellKept(RowStore.EventsOf(catalog[id].document))
    requires VerdictsMatch(catalog, env, id, steps)
    ensures
      var end := RunOps(catalog, env, StepOps(id, steps));
      id in end && LayerOf(end[id].document) == Run(LayerOf(catalog[id].document), steps)
    decreases |steps|
  {
    if steps != [] {
      var init, last := steps[..|steps| - 1], steps[|steps| - 1];
      StoreFollowsRun(catalog, env, id, init);
      var mid := RunOps(catalog, env, StepOps(id, init));
      var layer := LayerOf(catalog[id].document);
      LogOverRuns(layer, init);
      assert RowStore.EventsOf(mid[id].document) == LayerOf(mid[id].document).events;
      StepIsStored(mid, env, id, last);
      StepOpsSnoc(id, steps);
      var ops := StepOps(id, steps);
      assert ops[..|ops| - 1] == StepOps(id, init) && ops[|ops| - 1] == StepOp(id, last);
    }
  }
}
