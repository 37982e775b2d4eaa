/** The value types of a disposition layer: events, actors, restatement blocks.
    An event is immutable once appended, so it is a datatype throughout. */
module Events {
  import opened Wrappers

  /** The JSON values a signature-bound metadata field may hold: absent or null,
      one digest, or a flat map whose entries are digests or null. */
  datatype Json = Null | Str(text: string) | Obj(entries: map<string, Option<string>>)

  /** Python truthiness: null, "" and {} are the three empty values. */
  predicate Truthy(value: Json) {
    value != Null && value != Str("") && value != Obj(map[])
  }

  /** `d.get(key)`: a missing key and a null entry read the same. */
  function EntryOf(entries: map<string, Option<string>>, key: string): Option<string> {
    if key in entries then entries[key] else None
  }

  predicate TruthyText(value: Option<string>) {
    value.Some? && value.value != ""
  }

  datatype ActorKind = Human | Machine | OtherKind(name: string)

  datatype Actor = Actor(
    kind: ActorKind,
    identity: Option<string>,
    identityVerified: Option<bool>,
    ldapVerified: Option<bool>,
    employeeStatus: Option<string>)

  /** An authentication mechanism proved the identity; `ldap_verified` is the
      fallback for events that predate `identity_verified`. */
  predicate ActorVerified(actor: Actor) {
    if actor.identityVerified.Some? then actor.identityVerified.value
    else actor.ldapVerified == Some(true)
  }

  datatype SourceType =
    | ValidationReport
    | VerificationReport
    | Jira
    | Interactive
    | Rebaseline
    | RestatementSource
    | OtherSource(name: string)

  datatype Source = Source(kind: SourceType, ref: string, actor: Actor)

  datatype Validity = Confirmed | FalsePositive | Corrected | Hardening | NotVerified

  datatype Disposition = Disposition(
    validity: Option<Validity>,
    resolution: Option<string>,
    severity: Option<string>)

  const EmptyDisposition := Disposition(None, None, None)

  /** A recorded time: the text as written and the instant it denotes.  Two texts
      with different offsets may denote one instant. */
  datatype Timestamp = Timestamp(text: string, instant: int)

  /** The metadata fields bound by the signature; each is a restatement target. */
  datatype Target = ClaimHashes | AuditReport | ArtifactDigests

  /** A restatement block: what the field held, and the value or delta it gets. */
  datatype Block = Block(target: Target, before: Json, after: Json, ticket: string)

  /** A rebaseline mapping from an old finding reference to its successor. */
  datatype Alias = Alias(newRef: string, confirmed: bool)

  /** `Sha256Hex(t)` is the hex digest of text `t`; hashing is free, so a digest is
      identified with its preimage.  `OtherText` is any other supplied string. */
  datatype EventId = Absent | Sha256Hex(preimage: string) | OtherText(text: string)

  datatype Event = Event(
    eventId: EventId,
    findingRef: string,
    fingerprint: Option<string>,
    fingerprintAlgo: Option<string>,
    recordedAt: Timestamp,
    occurredAt: Option<Timestamp>,
    source: Source,
    disposition: Disposition,
    evidenceGrade: Option<string>,
    autoAcceptTier: bool,
    rationale: string,
    restatement: Option<Block>,
    alias: Option<Alias>,
    merkleFields: map<string, string>)

  /** A block on an event that is not restatement-typed grants no authority. */
  predicate IsRestatement(event: Event) {
    event.restatement.Some? && event.source.kind == RestatementSource
  }

  function ValidityText(validity: Option<Validity>): string {
    match validity
    case None => ""
    case Some(Confirmed) => "confirmed"
    case Some(FalsePositive) => "false_positive"
    case Some(Corrected) => "corrected"
    case Some(Hardening) => "hardening"
    case Some(NotVerified) => "not_verified"
  }

  function TextOrEmpty(value: Option<string>): string {
    if value.Some? then value.value else ""
  }

  /** The idempotency key: a digest of four fields joined with '|'. */
  function ComputeEventId(
    sourceRef: string, findingRef: string, validity: Option<Validity>, resolution: Option<string>): EventId
  {
    Sha256Hex(sourceRef + "|" + findingRef + "|" + ValidityText(validity) + "|" + TextOrEmpty(resolution))
  }

  function CanonicalId(event: Event): EventId {
    ComputeEventId(event.source.ref, event.findingRef, event.disposition.validity, event.disposition.resolution)
  }

  /** What one Merkle leaf is computed from.  Format 2 serialises the whole event
      minus its `merkle_*` fields; legacy format 1 serialises the id alone. */
  datatype Entry = EventBytes(scrubbed: Event) | IdBytes(id: EventId)

  function Scrub(event: Event): Event {
    event.(merkleFields := map[])
  }
}
