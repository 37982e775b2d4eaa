/** What the verifier reports, finding by finding, and what a stamp and a signature write, all in
    terms of the stored fields. */
module IntegrityReports {
  import opened Wrappers
  import opened Events
  import opened Layers
  import opened Restatements
  import opened Integrity

  // ---------- the report ----------

  /** Absent, the epoch reads as 0 and the leaf format as the legacy one. */
  function Epoch(meta: Metadata): int {
    match meta.merkleEpoch
    case Some(epoch) => epoch
    case None => 0
  }

  function Format(meta: Metadata): int {
    match meta.leafFormat
    case Some(format) => format
    case None => 1
  }

  /** The tree can be recomputed: there is a root, an epoch that leaves it something to cover, and a
      leaf format the verifier knows. */
  predicate Readable(layer: Layer) {
    && layer.meta.merkleRoot.Some? && Epoch(layer.meta) >= 0
    && (layer.events == [] || Epoch(layer.meta) < |layer.events|)
    && (Format(layer.meta) == 1 || Format(layer.meta) == 2)
  }

  /** The events under the tree, and those before it. */
  function Covered(layer: Layer): seq<Event>
    requires Readable(layer)
  {
    if layer.events == [] then [] else layer.events[Epoch(layer.meta)..]
  }

  function Sealed(layer: Layer): seq<Event>
    requires Readable(layer)
  {
    if layer.events == [] then [] else layer.events[..Epoch(layer.meta)]
  }

  /** Otherwise the one reason is reported, in this order, and nothing else. */
  lemma UnreadableReport(layer: Layer)
    requires !Readable(layer)
    ensures VerifyMerkleIntegrity(layer) ==
      if layer.meta.merkleRoot.None? then [RootAbsent]
      else if Epoch(layer.meta) < 0 then [EpochNegative]
      else if layer.events != [] && Epoch(layer.meta) > |layer.events| then [EpochExceedsEvents]
      else if layer.events != [] && Epoch(layer.meta) == |layer.events| then [EpochCoversNothing]
      else [UnknownLeafFormat]
  {
  }

  /** The root and size findings, each present exactly when the recorded value is not the events'. */
  ghost predicate TreeSays(layer: Layer, found: seq<IntegrityFinding>)
    requires Readable(layer)
  {
    && (LegacyLeafFormat in found <==> Format(layer.meta) == 1)
    && (RootMismatch in found <==>
          layer.meta.merkleRoot != Some(MerkleRoot(Covered(layer), Format(layer.meta))))
    && (SizeMismatch in found <==>
          layer.meta.merkleSize.Some? && layer.meta.merkleSize.value != |Covered(layer)|)
  }

  ghost predicate CheckpointSays(layer: Layer, found: seq<IntegrityFinding>)
    requires Readable(layer)
  {
    var epoch, checkpoint := Epoch(layer.meta), layer.meta.checkpoint;
    && (CheckpointAbsent in found <==> epoch > 0 && checkpoint.None?)
    && (CheckpointMismatch in found <==>
          epoch > 0 && checkpoint.Some? && checkpoint.value != Checkpoint(Sealed(layer)))
    && (CheckpointAtEpochZero in found <==>
          epoch == 0 && checkpoint.Some? && checkpoint.value != Checkpoint([]))
  }

  ghost predicate DriftSays(layer: Layer, found: seq<IntegrityFinding>) {
    forall t: Target :: RestatedFieldDrifted(t) in found <==> Drifted(layer, t)
  }

  predicate OfTree(f: IntegrityFinding) { f == LegacyLeafFormat || f == RootMismatch || f == SizeMismatch }

  predicate OfCheckpoint(f: IntegrityFinding) {
    f == CheckpointAbsent || f == CheckpointMismatch || f == CheckpointAtEpochZero
  }

  lemma DriftReported(layer: Layer, found: seq<IntegrityFinding>)
    requires found == RestatementFindings(layer)
    ensures DriftSays(layer, found) && forall f :: f in found ==> f.RestatedFieldDrifted?
  {
    var drifted := VerifyRestatedMetadata(layer);
    forall t: Target
      ensures RestatedFieldDrifted(t) in found <==> Drifted(layer, t)
    {
      assert t in drifted <==> Drifted(layer, t);
      if t in drifted {
        var i :| 0 <= i < |drifted| && drifted[i] == t;
        assert found[i] == RestatedFieldDrifted(t);
      }
    }
  }

  lemma TreeReported(layer: Layer, found: seq<IntegrityFinding>)
    requires Readable(layer) && found == TreeFindings(layer, Format(layer.meta))
    ensures TreeSays(layer, found) && forall f :: f in found ==> OfTree(f)
  {
    assert PostEpoch(layer.events, EpochOf(layer.meta)) == Covered(layer);
  }

  lemma CheckpointReported(layer: Layer, found: seq<IntegrityFinding>)
    requires Readable(layer) && found == CheckpointFindings(layer)
    ensures CheckpointSays(layer, found) && forall f :: f in found ==> OfCheckpoint(f)
  {
    assert PreEpoch(layer.events, EpochOf(layer.meta)) == Sealed(layer);
  }

  lemma Combined(layer: Layer, tree: seq<IntegrityFinding>, sealed: seq<IntegrityFinding>,
      restated: seq<IntegrityFinding>, found: seq<IntegrityFinding>)
    requires Readable(layer) && found == tree + sealed + restated
    requires TreeSays(layer, tree) && forall f :: f in tree ==> OfTree(f)
    requires CheckpointSays(layer, sealed) && forall f :: f in sealed ==> OfCheckpoint(f)
    requires DriftSays(layer, restated) && forall f :: f in restated ==> f.RestatedFieldDrifted?
    ensures TreeSays(layer, found) && CheckpointSays(layer, found) && DriftSays(layer, found)
    ensures forall f :: f in found ==> OfTree(f) || OfCheckpoint(f) || f.RestatedFieldDrifted?
  {
    assert forall f :: f in found <==> f in tree || f in sealed || f in restated;
  }

  /** A readable tree is checked in every respect, each finding reported exactly when it holds. */
  lemma ReadableReport(layer: Layer)
    requires Readable(layer)
    ensures
      var found := VerifyMerkleIntegrity(layer);
      && TreeSays(layer, found) && CheckpointSays(layer, found) && DriftSays(layer, found)
      && forall f :: f in found ==> OfTree(f) || OfCheckpoint(f) || f.RestatedFieldDrifted?
  {
    var tree, sealed, restated :=
      TreeFindings(layer, Format(layer.meta)), CheckpointFindings(layer), RestatementFindings(layer);
    TreeReported(layer, tree);
    CheckpointReported(layer, sealed);
    DriftReported(layer, restated);
    Combined(layer, tree, sealed, restated, VerifyMerkleIntegrity(layer));
  }

  /** A layer is clean if and only if its current-format tree, its size when recorded, its checkpoint
      and every restated field are what the events say. */
  lemma CleanExact(layer: Layer)
    ensures Clean(layer) <==>
      && Readable(layer) && layer.meta.leafFormat == Some(2)
      && layer.meta.merkleRoot == Some(MerkleRoot(Covered(layer), 2))
      && (layer.meta.merkleSize.None? || layer.meta.merkleSize.value == |Covered(layer)|)
      && (if Epoch(layer.meta) > 0 then layer.meta.checkpoint == Some(Checkpoint(Sealed(layer)))
          else layer.meta.checkpoint.None? || layer.meta.checkpoint.value == Checkpoint([]))
      && forall t: Target :: !Drifted(layer, t)
  {
    if Readable(layer) {
      ReadableReport(layer);
      assert Clean(layer) || VerifyMerkleIntegrity(layer)[0] in VerifyMerkleIntegrity(layer);
    } else {
      UnreadableReport(layer);
    }
  }

  // ---------- the stamp ----------

  /** A stamp is refused exactly when the epoch leaves the tree nothing to cover.  Otherwise it writes
      the six tree fields, and drops the three signature fields if a recorded root moved. */
  lemma StampExact(layer: Layer)
    ensures
      var epoch := Epoch(layer.meta);
      Stamp(layer).Ok? <==> 0 <= epoch && (if layer.events == [] then epoch == 0 else epoch < |layer.events|)
    ensures Stamp(layer).Err? ==> Stamp(layer).error == EpochOutOfRange
    ensures Stamp(layer).Ok? ==>
      var (meta, dropped) := Stamp(layer).value;
      var epoch, root := Epoch(layer.meta), MerkleRoot(layer.events[Epoch(layer.meta)..], 2);
      && meta.merkleEpoch == Some(epoch) && meta.merkleRoot == Some(root)
      && meta.merkleSize == Some(|layer.events| - epoch)
      && meta.merkleAlgorithm == Some("sha256") && meta.leafFormat == Some(2)
      && meta.checkpoint == (if epoch == 0 then None else Some(Checkpoint(layer.events[..epoch])))
      && (dropped <==> layer.meta.merkleRoot.Some? && layer.meta.merkleRoot.value != root)
      && meta.rootSignature == (if dropped then None else layer.meta.rootSignature)
      && meta.signingMethod == (if dropped then None else layer.meta.signingMethod)
      && meta.signatureFormat == (if dropped then None else layer.meta.signatureFormat)
      && meta.claimHashes == layer.meta.claimHashes && meta.auditReport == layer.meta.auditReport
      && meta.artifactDigests == layer.meta.artifactDigests
      && meta.findingAliases == layer.meta.findingAliases && meta.updated == layer.meta.updated
  {
  }

  // ---------- the signature ----------

  /** Null, the empty text and the empty map are bound as nothing at all. */
  predicate BoundAs(value: Json, digest: Json) {
    digest == if value == Str("") || value == Obj(map[]) then Null else value
  }

  /** What a signature of each format covers: the root with all that is needed to read it, the claims,
      and from formats 3 and 4 on the audit report and the artifacts. */
  lemma PayloadExact(meta: Metadata, format: int)
    ensures
      var payload := SignaturePayload(meta, format);
      && payload.merkleRoot == meta.merkleRoot && payload.leafFormat == Format(meta)
      && payload.merkleEpoch == Epoch(meta) && payload.merkleSize == meta.merkleSize
      && payload.checkpoint == meta.checkpoint
      && BoundAs(meta.claimHashes, payload.claimDigest)
      && payload.auditReport == (if format < 3 then None else Some(meta.auditReport))
      && (if format < 4 then payload.artifactDigest.None?
          else payload.artifactDigest.Some? && BoundAs(meta.artifactDigests, payload.artifactDigest.value))
  {
  }

  /** Two payloads of the current format are equal if and only if everything they bind is. */
  lemma PayloadInjective(a: Metadata, b: Metadata)
    ensures SignaturePayload(a, SIGNATURE_FORMAT_CURRENT) == SignaturePayload(b, SIGNATURE_FORMAT_CURRENT) <==>
      && a.merkleRoot == b.merkleRoot && Format(a) == Format(b) && Epoch(a) == Epoch(b)
      && a.merkleSize == b.merkleSize && a.checkpoint == b.checkpoint && a.auditReport == b.auditReport
      && (a.claimHashes == b.claimHashes || (!Truthy(a.claimHashes) && !Truthy(b.claimHashes)))
      && (a.artifactDigests == b.artifactDigests || (!Truthy(a.artifactDigests) && !Truthy(b.artifactDigests)))
  {
    PayloadExact(a, SIGNATURE_FORMAT_CURRENT);
    PayloadExact(b, SIGNATURE_FORMAT_CURRENT);
  }

  /** Finalizing stamps, then signs what it stamped under format 4 if the signer can; an outcome that
      was not just signed is refused when a signature is required. */
  lemma FinalizeExact(layer: Layer, config: Config)
    ensures Finalize(layer, config).Ok? <==> Stamp(layer).Ok? && (config.signingRequired ==> config.signer.Signs?)
    ensures Finalize(layer, config).Err? ==>
      Finalize(layer, config).error == if Stamp(layer).Err? then EpochOutOfRange else SigningFailed
    ensures Finalize(layer, config).Ok? ==>
      var done, stamped := Finalize(layer, config).value, Stamp(layer).value.0;
      && done.events == layer.events && done.queue == layer.queue
      && match config.signer
         case Signs(scheme) =>
           && done.meta.rootSignature == Some(Signature(SignaturePayload(stamped, 4)))
           && done.meta.signingMethod == Some(scheme) && done.meta.signatureFormat == Some(4)
           && stamped == done.meta.(
                rootSignature := stamped.rootSignature, signingMethod := stamped.signingMethod,
                signatureFormat := stamped.signatureFormat)
         case _ => done.meta == stamped
  {
  }
}
