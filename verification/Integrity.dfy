/** Stamping, signing and verifying the Merkle metadata of a layer. */
module Integrity {
  import opened Wrappers
  import opened Events
  import opened Merkle
  import opened Layers
  import opened Restatements

  const LEAF_FORMAT_CURRENT := 2
  const SIGNATURE_FORMAT_CURRENT := 4

  // ---------- roots ----------

  function Entries(events: seq<Event>, leafFormat: int): seq<Entry> {
    if leafFormat == 1 then
      seq(|events|, i requires 0 <= i < |events| => IdBytes(events[i].eventId))
    else
      seq(|events|, i requires 0 <= i < |events| => EventBytes(Scrub(events[i])))
  }

  function MerkleRoot(events: seq<Event>, leafFormat: int): Digest {
    Root(Entries(events, leafFormat))
  }

  /** Under the current format two roots are equal if and only if the events are, in number, order
      and every field but the `merkle_*` ones: any edit to any other field breaks the root. */
  lemma MerkleRootExact(a: seq<Event>, b: seq<Event>)
    ensures MerkleRoot(a, LEAF_FORMAT_CURRENT) == MerkleRoot(b, LEAF_FORMAT_CURRENT)
       <==> |a| == |b| && forall i :: 0 <= i < |a| ==> a[i].(merkleFields := map[]) == b[i].(merkleFields := map[])
  {
    var ea, eb := Entries(a, LEAF_FORMAT_CURRENT), Entries(b, LEAF_FORMAT_CURRENT);
    if MerkleRoot(a, LEAF_FORMAT_CURRENT) == MerkleRoot(b, LEAF_FORMAT_CURRENT) {
      RootInjective(ea, eb);
      forall i | 0 <= i < |a|
        ensures a[i].(merkleFields := map[]) == b[i].(merkleFields := map[])
      {
        assert ea[i] == eb[i];
      }
    }
    if |a| == |b| && forall i :: 0 <= i < |a| ==> a[i].(merkleFields := map[]) == b[i].(merkleFields := map[]) {
      assert ea == eb;
    }
  }

  /** A legacy root binds the ids and nothing else, and is never the root of the same events under
      the current format. */
  lemma LegacyRootExact(a: seq<Event>, b: seq<Event>)
    ensures MerkleRoot(a, 1) == MerkleRoot(b, 1)
       <==> |a| == |b| && forall i :: 0 <= i < |a| ==> a[i].eventId == b[i].eventId
    ensures MerkleRoot(a, 1) == MerkleRoot(b, LEAF_FORMAT_CURRENT) ==> a == [] && b == []
  {
    var ea, eb, fb := Entries(a, 1), Entries(b, 1), Entries(b, LEAF_FORMAT_CURRENT);
    if MerkleRoot(a, 1) == MerkleRoot(b, 1) {
      RootInjective(ea, eb);
      forall i | 0 <= i < |a|
        ensures a[i].eventId == b[i].eventId
      {
        assert ea[i] == eb[i];
      }
    }
    if |a| == |b| && forall i :: 0 <= i < |a| ==> a[i].eventId == b[i].eventId {
      assert ea == eb;
    }
    assert a != [] && b != [] ==> ea[0].IdBytes? && fb[0].EventBytes?;
    if MerkleRoot(a, 1) == MerkleRoot(b, LEAF_FORMAT_CURRENT) {
      RootInjective(ea, fb);
    }
  }

  /** Python slices clamp: `events[:epoch]` and `events[epoch:]`. */
  function PreEpoch(events: seq<Event>, epoch: nat): seq<Event> {
    if epoch <= |events| then events[..epoch] else events
  }

  function PostEpoch(events: seq<Event>, epoch: nat): seq<Event> {
    if epoch <= |events| then events[epoch..] else []
  }

  // ---------- stamping ----------

  function EpochOf(meta: Metadata): int {
    if meta.merkleEpoch.Some? then meta.merkleEpoch.value else 0
  }

  predicate EpochInRange(layer: Layer) {
    var epoch := EpochOf(layer.meta);
    0 <= epoch && if layer.events == [] then epoch == 0 else epoch < |layer.events|
  }

  /** The Merkle fields as a stamp leaves them; the signature fields are untouched. */
  function StampedMeta(events: seq<Event>, meta: Metadata): Metadata
    requires EpochOf(meta) >= 0
  {
    var epoch := EpochOf(meta);
    meta.(
      merkleEpoch := Some(epoch),
      checkpoint := if epoch > 0 then Some(Checkpoint(PreEpoch(events, epoch))) else None,
      merkleRoot := Some(MerkleRoot(PostEpoch(events, epoch), LEAF_FORMAT_CURRENT)),
      merkleSize := Some(|PostEpoch(events, epoch)|),
      merkleAlgorithm := Some("sha256"),
      leafFormat := Some(LEAF_FORMAT_CURRENT))
  }

  function Unsigned(meta: Metadata): Metadata {
    meta.(rootSignature := None, signingMethod := None, signatureFormat := None)
  }

  /** `stamp_merkle_metadata`: the new metadata, and whether a stale signature was dropped. */
  function Stamp(layer: Layer): Result<(Metadata, bool), LedgerError> {
    if !EpochInRange(layer) then Err(EpochOutOfRange)
    else
      var stamped := StampedMeta(layer.events, layer.meta);
      if layer.meta.merkleRoot.Some? && layer.meta.merkleRoot != stamped.merkleRoot
      then Ok((Unsigned(stamped), true))
      else Ok((stamped, false))
  }

  // ---------- signing ----------

  function DigestOf(value: Json): Json {
    if Truthy(value) then value else Null
  }

  /** `merkle_signature_payload`: the root and everything needed to interpret it. */
  function SignaturePayload(meta: Metadata, fmt: int): Payload {
    Payload(
      meta.merkleRoot,
      if meta.leafFormat.Some? then meta.leafFormat.value else 1,
      EpochOf(meta),
      meta.merkleSize,
      meta.checkpoint,
      DigestOf(meta.claimHashes),
      if fmt >= 3 then Some(meta.auditReport) else None,
      if fmt >= 4 then Some(DigestOf(meta.artifactDigests)) else None)
  }

  datatype SignAttempt = NotConfigured | AttemptFailed | Signed

  function Sign(meta: Metadata, signer: Signer): (Metadata, SignAttempt) {
    match signer
    case Unconfigured => (meta, NotConfigured)
    case Fails => (meta, AttemptFailed)
    case Signs(scheme) =>
      if meta.merkleRoot.None? then (meta, AttemptFailed)
      else
        (meta.(
           rootSignature := Some(Signature(SignaturePayload(meta, SIGNATURE_FORMAT_CURRENT))),
           signingMethod := Some(scheme),
           signatureFormat := Some(SIGNATURE_FORMAT_CURRENT)),
         Signed)
  }

  /** `finalize_layer`: stamp, sign, and refuse an unsigned outcome when one is required. */
  function Finalize(layer: Layer, config: Config): Result<Layer, LedgerError> {
    match Stamp(layer)
    case Err(e) => Err(e)
    case Ok((stamped, dropped)) =>
      var (signed, attempt) := Sign(stamped, config.signer);
      if config.signingRequired && attempt != Signed then Err(SigningFailed)
      else Ok(layer.(meta := signed))
  }

  // ---------- verification ----------

  datatype IntegrityFinding =
    | RootAbsent
    | EpochNegative
    | EpochExceedsEvents
    | EpochCoversNothing
    | UnknownLeafFormat
    | LegacyLeafFormat
    | RootMismatch
    | SizeMismatch
    | CheckpointAbsent
    | CheckpointMismatch
    | CheckpointAtEpochZero
    | RestatedFieldDrifted(target: Target)

  function RestatementFindings(layer: Layer): seq<IntegrityFinding> {
    var drifted := VerifyRestatedMetadata(layer);
    seq(|drifted|, i requires 0 <= i < |drifted| => RestatedFieldDrifted(drifted[i]))
  }

  function CheckpointFindings(layer: Layer): seq<IntegrityFinding>
    requires EpochOf(layer.meta) >= 0
  {
    var epoch, checkpoint := EpochOf(layer.meta), layer.meta.checkpoint;
    if epoch > 0 then
      if checkpoint.None? then [CheckpointAbsent]
      else if checkpoint.value != Checkpoint(PreEpoch(layer.events, epoch)) then [CheckpointMismatch] else []
    else if checkpoint.Some? && checkpoint.value != Checkpoint([]) then [CheckpointAtEpochZero] else []
  }

  function TreeFindings(layer: Layer, leafFormat: int): seq<IntegrityFinding>
    requires EpochOf(layer.meta) >= 0
    requires layer.meta.merkleRoot.Some?
  {
    var post := PostEpoch(layer.events, EpochOf(layer.meta));
    (if leafFormat == 1 then [LegacyLeafFormat] else []) +
    (if layer.meta.merkleRoot.value != MerkleRoot(post, leafFormat) then [RootMismatch] else []) +
    (if layer.meta.merkleSize.Some? && layer.meta.merkleSize.value != |post| then [SizeMismatch] else [])
  }

  /** `verify_merkle_integrity`: findings in report order; none means the layer is clean. */
  function VerifyMerkleIntegrity(layer: Layer): seq<IntegrityFinding> {
    var meta, epoch := layer.meta, EpochOf(layer.meta);
    var leafFormat := if meta.leafFormat.Some? then meta.leafFormat.value else 1;
    if meta.merkleRoot.None? then [RootAbsent]
    else if epoch < 0 then [EpochNegative]
    else if layer.events != [] && epoch > |layer.events| then [EpochExceedsEvents]
    else if layer.events != [] && epoch == |layer.events| then [EpochCoversNothing]
    else if leafFormat != 1 && leafFormat != LEAF_FORMAT_CURRENT then [UnknownLeafFormat]
    else TreeFindings(layer, leafFormat) + CheckpointFindings(layer) + RestatementFindings(layer)
  }

  // ---------- stamp and verify are exact ----------

  lemma StampedTreeIsClean(layer: Layer)
    requires EpochInRange(layer)
    requires layer.meta == StampedMeta(layer.events, layer.meta)
    ensures VerifyMerkleIntegrity(layer) == RestatementFindings(layer)
  {
    assert TreeFindings(layer, LEAF_FORMAT_CURRENT) == [] && CheckpointFindings(layer) == [];
  }

  lemma StampHolds(layer: Layer)
    requires Stamp(layer).Ok?
    ensures
      var stamped := layer.(meta := Stamp(layer).value.0);
      EpochInRange(stamped) && stamped.meta == StampedMeta(stamped.events, stamped.meta)
  {
  }

  /** The restatement findings read the events and the three bound fields, and nothing else. */
  lemma RestatementFindingsFrame(a: Layer, b: Layer)
    requires a.events == b.events
    requires a.meta.claimHashes == b.meta.claimHashes
    requires a.meta.auditReport == b.meta.auditReport && a.meta.artifactDigests == b.meta.artifactDigests
    ensures RestatementFindings(a) == RestatementFindings(b)
  {
    assert VerifyRestatedMetadata(a) == VerifyRestatedMetadata(b);
  }

  /** A stamp leaves nothing for the verifier but restatement findings. */
  lemma StampThenVerify(layer: Layer)
    requires Stamp(layer).Ok?
    ensures
      var stamped := layer.(meta := Stamp(layer).value.0);
      VerifyMerkleIntegrity(stamped) == RestatementFindings(stamped) == RestatementFindings(layer)
  {
    var stamped := layer.(meta := Stamp(layer).value.0);
    StampHolds(layer);
    StampedTreeIsClean(stamped);
    RestatementFindingsFrame(stamped, layer);
  }

  /** Stamping twice changes nothing the second time and drops no signature. */
  lemma StampIdempotent(layer: Layer)
    requires Stamp(layer).Ok?
    ensures
      var stamped := layer.(meta := Stamp(layer).value.0);
      Stamp(stamped) == Ok((stamped.meta, false))
  {
  }

  predicate Clean(layer: Layer) {
    VerifyMerkleIntegrity(layer) == []
  }

  /** One metadata block vouches for one history: two event arrays that both verify clean
      under it are equal, save `merkle_*` fields of post-epoch events. */
  lemma CleanDeterminesEvents(a: Layer, b: Layer)
    requires a.meta == b.meta && Clean(a) && Clean(b)
    ensures |a.events| == |b.events|
    ensures forall i :: 0 <= i < |a.events| ==>
      a.events[i].(merkleFields := map[]) == b.events[i].(merkleFields := map[])
    ensures forall i :: 0 <= i < |a.events| && i < EpochOf(a.meta) ==> a.events[i] == b.events[i]
  {
    CleanFacts(a);
    CleanFacts(b);
    SameTreeSameEvents(a.events, b.events, EpochOf(a.meta));
  }

  /** One signature vouches for one layer: two clean layers whose payloads coincide, and so
      share a valid signature, hold the same history and the same bound digests, however
      their metadata came about. */
  lemma SignatureBindsLayer(a: Layer, b: Layer)
    requires SignaturePayload(a.meta, SIGNATURE_FORMAT_CURRENT) == SignaturePayload(b.meta, SIGNATURE_FORMAT_CURRENT)
    requires Clean(a) && Clean(b)
    ensures |a.events| == |b.events|
    ensures forall i :: 0 <= i < |a.events| ==>
      a.events[i].(merkleFields := map[]) == b.events[i].(merkleFields := map[])
    ensures forall i :: 0 <= i < |a.events| && i < EpochOf(a.meta) ==> a.events[i] == b.events[i]
    ensures BoundDigests(a.meta) == BoundDigests(b.meta)
  {
    CleanFacts(a);
    CleanFacts(b);
    var epoch := EpochOf(a.meta);
    assert EpochOf(b.meta) == epoch && a.meta.merkleRoot == b.meta.merkleRoot && a.meta.checkpoint == b.meta.checkpoint;
    SameTreeSameEvents(a.events, b.events, epoch);
  }

  lemma SameTreeSameEvents(a: seq<Event>, b: seq<Event>, epoch: nat)
    requires a == [] || epoch < |a|
    requires b == [] || epoch < |b|
    requires epoch > 0 ==> PreEpoch(a, epoch) == PreEpoch(b, epoch)
    requires MerkleRoot(PostEpoch(a, epoch), LEAF_FORMAT_CURRENT)
          == MerkleRoot(PostEpoch(b, epoch), LEAF_FORMAT_CURRENT)
    ensures |a| == |b|
    ensures forall i :: 0 <= i < |a| ==> a[i].(merkleFields := map[]) == b[i].(merkleFields := map[])
    ensures forall i :: 0 <= i < |a| && i < epoch ==> a[i] == b[i]
  {
    var pa, pb := PostEpoch(a, epoch), PostEpoch(b, epoch);
    MerkleRootExact(pa, pb);
    if a != [] && b != [] {
      assert epoch > 0 ==>
        forall i :: 0 <= i < epoch ==> PreEpoch(a, epoch)[i] == a[i] && PreEpoch(b, epoch)[i] == b[i];
      forall i | 0 <= i < |a|
        ensures a[i].(merkleFields := map[]) == b[i].(merkleFields := map[])
      {
        if i >= epoch {
          assert a[i] == pa[i - epoch] && b[i] == pb[i - epoch];
        }
      }
    }
  }

  lemma CleanFacts(layer: Layer)
    requires Clean(layer)
    ensures
      var epoch := EpochOf(layer.meta);
      && 0 <= epoch
      && (layer.events != [] ==> epoch < |layer.events|)
      && layer.meta.merkleRoot == Some(MerkleRoot(PostEpoch(layer.events, epoch), LEAF_FORMAT_CURRENT))
      && (epoch > 0 ==> layer.meta.checkpoint == Some(Checkpoint(PreEpoch(layer.events, epoch))))
  {
    var leafFormat := if layer.meta.leafFormat.Some? then layer.meta.leafFormat.value else 1;
    assert layer.meta.merkleRoot.Some? && EpochOf(layer.meta) >= 0;
    assert |TreeFindings(layer, leafFormat)| + |CheckpointFindings(layer)| <= |VerifyMerkleIntegrity(layer)|;
    assert TreeFindings(layer, leafFormat) == [] && CheckpointFindings(layer) == [];
  }

  // ---------- signatures stay fresh ----------

  /** A stored signature covers the payload the metadata now describes, under the
      current format. */
  predicate SignatureFresh(layer: Layer) {
    layer.meta.rootSignature.Some? ==>
      && layer.meta.signatureFormat == Some(SIGNATURE_FORMAT_CURRENT)
      && layer.meta.rootSignature.value.covers == SignaturePayload(layer.meta, SIGNATURE_FORMAT_CURRENT)
  }

  /** Whatever is signed was stamped over exactly these events. */
  predicate SignedOverEvents(layer: Layer) {
    layer.meta.rootSignature.Some? ==>
      EpochInRange(layer) && layer.meta == StampedMeta(layer.events, layer.meta)
  }

  /** Growing the log always moves the root. */
  lemma AppendMovesRoot(events: seq<Event>, more: seq<Event>, epoch: nat)
    requires more != []
    requires epoch <= |events|
    ensures MerkleRoot(PostEpoch(events + more, epoch), LEAF_FORMAT_CURRENT)
         != MerkleRoot(PostEpoch(events, epoch), LEAF_FORMAT_CURRENT)
  {
    if MerkleRoot(PostEpoch(events + more, epoch), LEAF_FORMAT_CURRENT)
       == MerkleRoot(PostEpoch(events, epoch), LEAF_FORMAT_CURRENT)
    {
      MerkleRootExact(PostEpoch(events + more, epoch), PostEpoch(events, epoch));
    }
  }

  /** The part of the payload that restatements and patches can move. */
  function BoundDigests(meta: Metadata): (Json, Json, Json) {
    (DigestOf(meta.claimHashes), meta.auditReport, DigestOf(meta.artifactDigests))
  }

  /** Only the three signature-bound fields (and fields outside the payload) were edited. */
  predicate SameMerkleFields(a: Metadata, b: Metadata) {
    && a.merkleEpoch == b.merkleEpoch && a.merkleRoot == b.merkleRoot && a.merkleSize == b.merkleSize
    && a.merkleAlgorithm == b.merkleAlgorithm && a.leafFormat == b.leafFormat && a.checkpoint == b.checkpoint
    && a.rootSignature == b.rootSignature && a.signingMethod == b.signingMethod
    && a.signatureFormat == b.signatureFormat
  }

  /** Finalizing after an edit, completely characterised.  From a fresh signed state, extend
      the log by `more` and replace bound fields, then finalize.  The outcome is fresh
      precisely when it was re-signed, or was unsigned, or the log really grew, or the
      edit left every bound digest as it was. */
  lemma FinalizeFreshness(before: Layer, edited: Layer, more: seq<Event>, config: Config)
    requires SignatureFresh(before) && SignedOverEvents(before)
    requires edited.events == before.events + more
    requires SameMerkleFields(before.meta, edited.meta)
    requires Finalize(edited, config).Ok?
    ensures
      var after := Finalize(edited, config).value;
      && SignedOverEvents(after)
      && (SignatureFresh(after) <==>
          || config.signer.Signs?
          || before.meta.rootSignature.None?
          || more != []
          || BoundDigests(before.meta) == BoundDigests(edited.meta))
  {
    var after := Finalize(edited, config).value;
    if before.meta.rootSignature.Some? {
      var epoch := EpochOf(before.meta);
      if more != [] {
        AppendMovesRoot(before.events, more, epoch);
      } else {
        assert edited.events == before.events;
      }
    }
  }

  /** The signature a layer carries into finalization, if any, is dropped with a moved root or
      covers the payload that stamping leaves. */
  predicate CarriedCovers(layer: Layer)
    requires EpochInRange(layer)
  {
    var stamped := StampedMeta(layer.events, layer.meta);
    || layer.meta.rootSignature.None?
    || (layer.meta.merkleRoot.Some? && layer.meta.merkleRoot != stamped.merkleRoot)
    || (&& layer.meta.signatureFormat == Some(SIGNATURE_FORMAT_CURRENT)
        && layer.meta.rootSignature.value.covers == SignaturePayload(stamped, SIGNATURE_FORMAT_CURRENT))
  }

  /** Finalizing any layer at all: whatever is then signed was stamped over its events, and the
      signature is fresh exactly when it was just made or the carried one covers. */
  lemma FinalizeCarries(layer: Layer, config: Config)
    requires Finalize(layer, config).Ok?
    ensures EpochInRange(layer)
    ensures
      var after := Finalize(layer, config).value;
      && SignedOverEvents(after)
      && (SignatureFresh(after) <==> config.signer.Signs? || CarriedCovers(layer))
  {
  }
}
