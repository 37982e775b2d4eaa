/** A disposition layer: the event log, its metadata, and the review queue. */
module Layers {
  import opened Wrappers
  import opened Events
  import opened Merkle

  /** Digest over the exact pre-epoch events, `merkle_*` fields included. */
  datatype Checkpoint = Checkpoint(events: seq<Event>)

  /** The document a root signature is made over.  Digests of maps are the maps
      themselves (free hashing); the last two members appear from formats 3 and 4 on. */
  datatype Payload = Payload(
    merkleRoot: Option<Digest>,
    leafFormat: int,
    merkleEpoch: int,
    merkleSize: Option<int>,
    checkpoint: Option<Checkpoint>,
    claimDigest: Json,
    auditReport: Option<Json>,
    artifactDigest: Option<Json>)

  /** A signature is valid for exactly one payload. */
  datatype Signature = Signature(covers: Payload)

  datatype Metadata = Metadata(
    merkleEpoch: Option<int>,
    merkleRoot: Option<Digest>,
    merkleSize: Option<int>,
    merkleAlgorithm: Option<string>,
    leafFormat: Option<int>,
    checkpoint: Option<Checkpoint>,
    rootSignature: Option<Signature>,
    signingMethod: Option<string>,
    signatureFormat: Option<int>,
    claimHashes: Json,
    auditReport: Json,
    artifactDigests: Json,
    findingAliases: map<string, Alias>,
    updated: Option<string>)

  function Field(meta: Metadata, target: Target): Json {
    match target
    case ClaimHashes => meta.claimHashes
    case AuditReport => meta.auditReport
    case ArtifactDigests => meta.artifactDigests
  }

  function WithField(meta: Metadata, target: Target, value: Json): Metadata {
    match target
    case ClaimHashes => meta.(claimHashes := value)
    case AuditReport => meta.(auditReport := value)
    case ArtifactDigests => meta.(artifactDigests := value)
  }

  datatype ReviewStatus = Pending | ConfirmedItem | RejectedItem | OtherStatus(name: string)

  datatype ReviewItem = ReviewItem(
    sourceRef: Option<string>,
    suggestedRef: Option<string>,
    queueReason: Option<string>,
    quote: Option<string>,
    status: Option<ReviewStatus>,
    note: Option<string>,
    resolvedBy: Option<Actor>)

  type ReviewKey = (Option<string>, Option<string>, Option<string>, Option<string>)

  function KeyOf(item: ReviewItem): ReviewKey {
    (item.sourceRef, item.suggestedRef, item.queueReason, item.quote)
  }

  datatype Layer = Layer(events: seq<Event>, meta: Metadata, queue: seq<ReviewItem>)

  datatype LedgerError =
    | EpochOutOfRange
    | EpochUnreadable
    | SigningRequired
    | SigningFailed
    | SchemaViolation
    | EventIdMismatch
    | RestatementCarriesDisposition
    | IdentityRequired
    | IdentityUnverified
    | MachineDisposition
    | MissingFindingRef
    | MissingDecision
    | DecisionConflict
    | UnknownDecision
    | RationaleTooShort
    | TimestampFuture
    | InvalidEpoch
    | TwoPersonViolated
    | NoTicket
    | ChangesNothing
    | NothingToRestate
    | StaleRestatement
    | RetiredValueRestated
    | UnexplainedMetadataChange
    | SignedValueOverwritten
    | InvalidStatus
    | NoteRequired
    | NoSuchEvent

  /** What the signing backend does when asked: no key, a failure, or a signature. */
  datatype Signer = Unconfigured | Fails | Signs(scheme: string)

  /** The environment of one write: the signer's behaviour, whether a signature is
      mandatory and a key provisioned, and the verdict of schema validation. */
  datatype Config = Config(signer: Signer, signingRequired: bool, keyProvisioned: bool, schemaAccepts: bool)
}
