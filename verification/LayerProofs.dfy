/** Inclusion and consistency proofs against the roots layers carry, and between two points of a
    run. */
module LayerProofs {
  import opened Wrappers
  import opened Events
  import opened Merkle
  import opened Consistency
  import opened Layers
  import opened Integrity
  import opened Handlers
  import opened SignatureRuns
  import opened LogRuns

  /** The events a layer's tree is built over. */
  function TreeEvents(layer: Layer): seq<Event>
    requires EpochOf(layer.meta) >= 0
  {
    PostEpoch(layer.events, EpochOf(layer.meta))
  }

  function TreeEntries(layer: Layer): (entries: seq<Entry>)
    requires EpochOf(layer.meta) >= 0
    ensures |entries| == |TreeEvents(layer)|
  {
    Entries(TreeEvents(layer), LEAF_FORMAT_CURRENT)
  }

  /** The stored root is the root of the tree events. */
  predicate RootHolds(layer: Layer) {
    && EpochOf(layer.meta) >= 0
    && layer.meta.merkleRoot == Some(Root(TreeEntries(layer)))
  }

  lemma CleanRootHolds(layer: Layer)
    requires Clean(layer)
    ensures RootHolds(layer)
  {
    CleanFacts(layer);
  }

  lemma SignedRootHolds(layer: Layer)
    requires SignedOverEvents(layer) && layer.meta.rootSignature.Some?
    ensures RootHolds(layer)
  {
  }

  // ---------- one event ----------

  /** Against the root a layer carries, an inclusion proof is accepted for an event if and only if
      that event, in every field but its `merkle_*` ones, stands at that place and the proof is
      the one generated for it. */
  lemma InclusionBindsEvent(layer: Layer, event: Event, index: int, proof: seq<Digest>)
    requires RootHolds(layer)
    ensures
      var events := TreeEvents(layer);
      InclusionAccepts(layer.meta.merkleRoot.value, EventBytes(Scrub(event)), index, |events|, proof) <==>
        && 0 <= index < |events| && events[index].(merkleFields := map[]) == event.(merkleFields := map[])
        && InclusionProof(TreeEntries(layer), index) == Ok(proof)
  {
    InclusionExact(TreeEntries(layer), EventBytes(Scrub(event)), index, proof);
  }

  // ---------- two layers ----------

  /** Entries agree as far as the shorter goes exactly when the events do, `merkle_*` fields aside. */
  lemma EntriesPrefix(a: seq<Event>, b: seq<Event>)
    requires |a| <= |b|
    ensures Entries(a, LEAF_FORMAT_CURRENT) == Entries(b, LEAF_FORMAT_CURRENT)[..|a|]
       <==> forall i :: 0 <= i < |a| ==> a[i].(merkleFields := map[]) == b[i].(merkleFields := map[])
  {
    var ea, eb := Entries(a, LEAF_FORMAT_CURRENT), Entries(b, LEAF_FORMAT_CURRENT);
    if ea == eb[..|a|] {
      forall i | 0 <= i < |a|
        ensures a[i].(merkleFields := map[]) == b[i].(merkleFields := map[])
      {
        assert ea[i] == eb[..|a|][i];
      }
    }
  }

  /** An auditor who kept an old root and size learns exactly this from a consistency proof: it is
      accepted if and only if the old tree is a prefix of the new one, event by event in every
      field but the `merkle_*` ones, and the proof is the generated one.  An old size of 0 is the
      exception: nothing is then learnt about the old root. */
  lemma ConsistencyBindsLayers(earlier: Layer, now: Layer, proof: seq<Digest>)
    requires RootHolds(earlier) && RootHolds(now) && TreeEvents(earlier) != []
    ensures
      var a, b := TreeEvents(earlier), TreeEvents(now);
      ConsistencyAccepts(earlier.meta.merkleRoot.value, now.meta.merkleRoot.value, |a|, |b|, proof) <==>
        && |a| <= |b| && (forall i :: 0 <= i < |a| ==> a[i].(merkleFields := map[]) == b[i].(merkleFields := map[]))
        && ConsistencyProof(TreeEntries(now), |a|) == Ok(proof)
  {
    var a, b := TreeEvents(earlier), TreeEvents(now);
    var ea, eb := TreeEntries(earlier), TreeEntries(now);
    ConsistencyExact(eb, Root(ea), |a|, proof);
    if |a| <= |b| {
      EntriesPrefix(a, b);
      if Root(ea) == Root(eb[..|a|]) {
        RootInjective(ea, eb[..|a|]);
      }
    }
  }

  /** With one epoch and one pre-epoch history, the whole old log is a prefix of the new one. */
  lemma ConsistencyBindsLogs(earlier: Layer, now: Layer, proof: seq<Digest>)
    requires Clean(earlier) && Clean(now) && EpochOf(earlier.meta) == EpochOf(now.meta)
    requires earlier.meta.checkpoint == now.meta.checkpoint && TreeEvents(earlier) != []
    requires ConsistencyAccepts(earlier.meta.merkleRoot.value, now.meta.merkleRoot.value,
                                |TreeEvents(earlier)|, |TreeEvents(now)|, proof)
    ensures |earlier.events| <= |now.events|
    ensures forall i :: 0 <= i < |earlier.events| ==>
      earlier.events[i].(merkleFields := map[]) == now.events[i].(merkleFields := map[])
    ensures forall i :: 0 <= i < |earlier.events| && i < EpochOf(earlier.meta) ==> earlier.events[i] == now.events[i]
  {
    CleanRootHolds(earlier);
    CleanRootHolds(now);
    CleanFacts(earlier);
    CleanFacts(now);
    ConsistencyBindsLayers(earlier, now, proof);
    TreePrefixIsLogPrefix(earlier.events, now.events, EpochOf(earlier.meta));
  }

  lemma TreePrefixIsLogPrefix(a: seq<Event>, b: seq<Event>, epoch: nat)
    requires epoch < |a| && (b == [] || epoch < |b|)
    requires epoch > 0 ==> PreEpoch(a, epoch) == PreEpoch(b, epoch)
    requires |PostEpoch(a, epoch)| <= |PostEpoch(b, epoch)|
    requires forall i :: 0 <= i < |PostEpoch(a, epoch)| ==>
      PostEpoch(a, epoch)[i].(merkleFields := map[]) == PostEpoch(b, epoch)[i].(merkleFields := map[])
    ensures |a| <= |b|
    ensures forall i :: 0 <= i < |a| ==> a[i].(merkleFields := map[]) == b[i].(merkleFields := map[])
    ensures forall i :: 0 <= i < epoch ==> a[i] == b[i]
  {
    var pa, pb := PostEpoch(a, epoch), PostEpoch(b, epoch);
    assert epoch > 0 ==> forall i :: 0 <= i < epoch ==> PreEpoch(a, epoch)[i] == a[i] && PreEpoch(b, epoch)[i] == b[i];
    forall i | 0 <= i < |a|
      ensures a[i].(merkleFields := map[]) == b[i].(merkleFields := map[])
    {
      if i >= epoch {
        assert a[i] == pa[i - epoch] && b[i] == pb[i - epoch];
      }
    }
  }

  // ---------- two points of a run ----------

  /** The other way round, and over any run of any writes: between two signed points of a run with
      one epoch, the generated consistency proof is accepted, so an auditor following the roots
      is never turned away. */
  lemma RunsAreConsistent(layer: Layer, steps: seq<Step>)
    requires SignedOverEvents(layer) && layer.meta.rootSignature.Some?
    requires Run(layer, steps).meta.rootSignature.Some?
    requires EpochOf(Run(layer, steps).meta) == EpochOf(layer.meta)
    ensures RootHolds(layer) && RootHolds(Run(layer, steps))
    ensures
      var end := Run(layer, steps);
      var proof := ConsistencyProof(TreeEntries(end), |TreeEvents(layer)|);
      && proof.Ok?
      && ConsistencyAccepts(layer.meta.merkleRoot.value, end.meta.merkleRoot.value,
                            |TreeEvents(layer)|, |TreeEvents(end)|, proof.value)
  {
    var end := Run(layer, steps);
    SignedOverEventsOverRuns(layer, steps);
    SignedRootHolds(layer);
    SignedRootHolds(end);
    LogGrowsOverRuns(layer, steps);
    TreeGrows(layer, end);
    var a, eb := TreeEvents(layer), TreeEntries(end);
    EntriesPrefix(a, TreeEvents(end));
    ConsistencyExact(eb, layer.meta.merkleRoot.value, |a|, ConsistencyProof(eb, |a|).value);
  }

  lemma TreeGrows(layer: Layer, end: Layer)
    requires layer.events <= end.events && EpochInRange(layer) && EpochOf(end.meta) == EpochOf(layer.meta)
    ensures TreeEvents(layer) <= TreeEvents(end)
  {
    var epoch := EpochOf(layer.meta);
    assert end.events[epoch..][..|layer.events| - epoch] == layer.events[epoch..];
  }
}
