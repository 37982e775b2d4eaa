/** The query columns of the database rows: text projected so that a database can hold it, which
    loses nothing. */
module Columns {
  import opened Wrappers
  import opened Events
  import opened Merkle
  import opened Layers

  // ---------- projecting text ----------

  const NUL := '\0'
  const BACKSLASH := '\\'

  /** `str.replace` of one character. */
  function Replaced(text: string, c: char, with: string): string {
    if text == "" then "" else (if text[0] == c then with else [text[0]]) + Replaced(text[1..], c, with)
  }

  /** Escape backslashes, then NULs. */
  function Escaped(text: string): string {
    Replaced(Replaced(text, BACKSLASH, "\\\\"), NUL, "\\u0000")
  }

  function EscapedChar(c: char): string {
    if c == BACKSLASH then "\\\\" else if c == NUL then "\\u0000" else [c]
  }

  lemma {:induction false} ReplacedOfConcat(a: string, b: string, c: char, with: string)
    ensures Replaced(a + b, c, with) == Replaced(a, c, with) + Replaced(b, c, with)
  {
    if a == "" {
      assert a + b == b;
    } else {
      assert (a + b)[1..] == a[1..] + b;
      ReplacedOfConcat(a[1..], b, c, with);
    }
  }

  lemma ReplacedShort(a: char, b: char, c: char, with: string)
    ensures Replaced([a], c, with) == if a == c then with else [a]
    ensures a != c && b != c ==> Replaced([a, b], c, with) == [a, b]
  {
    assert [a][1..] == "" && [a, b][1..] == [b] && [b][1..] == "";
  }

  /** The two passes never meet: each character is escaped on its own. */
  lemma EscapedCons(text: string)
    requires text != ""
    ensures Escaped(text) == EscapedChar(text[0]) + Escaped(text[1..])
  {
    var head := if text[0] == BACKSLASH then "\\\\" else [text[0]];
    var tail := Replaced(text[1..], BACKSLASH, "\\\\");
    ReplacedOfConcat(head, tail, NUL, "\\u0000");
    ReplacedShort(text[0], BACKSLASH, NUL, "\\u0000");
    ReplacedShort(BACKSLASH, BACKSLASH, NUL, "\\u0000");
  }

  /** No NUL is left for the database to refuse. */
  lemma {:induction false} EscapedHoldsNoNul(text: string)
    ensures NUL !in Escaped(text)
  {
    if text != "" {
      EscapedCons(text);
      EscapedHoldsNoNul(text[1..]);
    }
  }

  /** Different texts stay different. */
  lemma {:induction false} EscapedInjective(a: string, b: string)
    requires Escaped(a) == Escaped(b)
    ensures a == b
  {
    if a != "" && b != "" {
      EscapedCons(a);
      EscapedCons(b);
      SameHead(a[0], Escaped(a[1..]), b[0], Escaped(b[1..]));
      EscapedInjective(a[1..], b[1..]);
      assert a == [a[0]] + a[1..] && b == [b[0]] + b[1..];
    } else if a != "" {
      EscapedCons(a);
    } else if b != "" {
      EscapedCons(b);
    }
  }

  lemma SameHead(a: char, s: string, b: char, t: string)
    requires EscapedChar(a) + s == EscapedChar(b) + t
    ensures a == b && s == t
  {
    var whole := EscapedChar(a) + s;
    assert whole[0] == EscapedChar(a)[0] == EscapedChar(b)[0];
    if |EscapedChar(a)| > 1 && |EscapedChar(b)| > 1 {
      assert whole[1] == EscapedChar(a)[1] == EscapedChar(b)[1];
    }
    assert s == whole[|EscapedChar(a)|..] && t == whole[|EscapedChar(b)|..];
  }

  function Projected(text: Option<string>): Option<string> {
    if text.Some? then Some(Escaped(text.value)) else None
  }

  lemma ProjectedInjective(a: Option<string>, b: Option<string>)
    ensures Projected(a) == Projected(b) <==> a == b
  {
    if a.Some? && b.Some? && Escaped(a.value) == Escaped(b.value) {
      EscapedInjective(a.value, b.value);
    }
  }

  // ---------- the columns ----------

  function SourceText(kind: SourceType): string {
    match kind
    case ValidationReport => "validation_report"
    case VerificationReport => "verification_report"
    case Jira => "jira"
    case Interactive => "interactive"
    case Rebaseline => "rebaseline"
    case RestatementSource => "restatement"
    case OtherSource(name) => name
  }

  function KindText(kind: ActorKind): string {
    match kind
    case Human => "human"
    case Machine => "machine"
    case OtherKind(name) => name
  }

  datatype EventColumns = EventColumns(
    findingRef: Option<string>,
    fingerprint: Option<string>,
    fingerprintAlgo: Option<string>,
    recordedAt: int,
    occurredAt: Option<int>,
    sourceType: Option<string>,
    sourceRef: Option<string>,
    actorKind: Option<string>,
    actorIdentity: Option<string>,
    validity: Option<string>,
    resolution: Option<string>,
    evidenceGrade: Option<string>,
    autoAcceptTier: bool)

  /** `EventRecord.database_values`, the derived part. */
  function ColumnsOf(event: Event): EventColumns {
    EventColumns(
      Projected(Some(event.findingRef)),
      Projected(event.fingerprint),
      Projected(event.fingerprintAlgo),
      event.recordedAt.instant,
      if event.occurredAt.Some? then Some(event.occurredAt.value.instant) else None,
      Projected(Some(SourceText(event.source.kind))),
      Projected(Some(event.source.ref)),
      Projected(Some(KindText(event.source.actor.kind))),
      Projected(event.source.actor.identity),
      Projected(if event.disposition.validity.Some? then Some(ValidityText(event.disposition.validity)) else None),
      Projected(event.disposition.resolution),
      Projected(event.evidenceGrade),
      event.autoAcceptTier)
  }

  datatype LayerColumns = LayerColumns(
    merkleRoot: Option<Digest>,
    merkleEpoch: Option<int>,
    merkleSize: Option<int>,
    rootSignature: Option<Signature>,
    signingMethod: Option<string>,
    signatureFormat: Option<int>)

  /** `LayerRecord.layer_values`, the derived part. */
  function LayerColumnsOf(meta: Metadata): LayerColumns {
    LayerColumns(meta.merkleRoot, meta.merkleEpoch, meta.merkleSize, meta.rootSignature,
                 Projected(meta.signingMethod), meta.signatureFormat)
  }

  // ---------- a query by column ----------

  /** The name a source is stored under. */
  predicate Named(kind: SourceType, name: string) {
    || (kind == ValidationReport && name == "validation_report")
    || (kind == VerificationReport && name == "verification_report")
    || (kind == Jira && name == "jira")
    || (kind == Interactive && name == "interactive")
    || (kind == Rebaseline && name == "rebaseline")
    || (kind == RestatementSource && name == "restatement")
    || kind == OtherSource(name)
  }

  predicate Says(validity: Option<Validity>, name: string) {
    || (validity == Some(Confirmed) && name == "confirmed")
    || (validity == Some(FalsePositive) && name == "false_positive")
    || (validity == Some(Corrected) && name == "corrected")
    || (validity == Some(Hardening) && name == "hardening")
    || (validity == Some(NotVerified) && name == "not_verified")
  }

  lemma ProjectedIs(field: Option<string>, text: string)
    ensures Projected(field) == Some(Escaped(text)) <==> field == Some(text)
    ensures Projected(field).None? <==> field.None?
  {
    ProjectedInjective(field, Some(text));
  }

  /** A query for one text in a column finds exactly the events whose field is that text; times are
      compared as instants and a missing field is a missing column. */
  lemma EventColumnsExact(event: Event, text: string)
    ensures
      var row, wanted := ColumnsOf(event), Some(Escaped(text));
      && (row.findingRef == wanted <==> event.findingRef == text)
      && (row.fingerprint == wanted <==> event.fingerprint == Some(text))
      && (row.fingerprintAlgo == wanted <==> event.fingerprintAlgo == Some(text))
      && (row.resolution == wanted <==> event.disposition.resolution == Some(text))
      && (row.evidenceGrade == wanted <==> event.evidenceGrade == Some(text))
      && row.recordedAt == event.recordedAt.instant
      && row.autoAcceptTier == event.autoAcceptTier
      && (if event.occurredAt.Some? then row.occurredAt == Some(event.occurredAt.value.instant)
          else row.occurredAt.None?)
  {
    ProjectedIs(Some(event.findingRef), text);
    ProjectedIs(event.fingerprint, text);
    ProjectedIs(event.fingerprintAlgo, text);
    ProjectedIs(event.disposition.resolution, text);
    ProjectedIs(event.evidenceGrade, text);
  }

  lemma SourceColumnsExact(event: Event, text: string)
    ensures
      var row, wanted := ColumnsOf(event), Some(Escaped(text));
      && (row.sourceType == wanted <==> Named(event.source.kind, text))
      && (row.sourceRef == wanted <==> event.source.ref == text)
      && (row.actorKind == wanted <==>
            || (event.source.actor.kind == Human && text == "human")
            || (event.source.actor.kind == Machine && text == "machine")
            || event.source.actor.kind == OtherKind(text))
      && (row.actorIdentity == wanted <==> event.source.actor.identity == Some(text))
  {
    ProjectedIs(Some(SourceText(event.source.kind)), text);
    ProjectedIs(Some(event.source.ref), text);
    ProjectedIs(Some(KindText(event.source.actor.kind)), text);
    ProjectedIs(event.source.actor.identity, text);
  }

  lemma ValidityColumnExact(event: Event, text: string)
    ensures ColumnsOf(event).validity == Some(Escaped(text)) <==> Says(event.disposition.validity, text)
    ensures ColumnsOf(event).validity.None? <==> event.disposition.validity.None?
  {
    if event.disposition.validity.Some? {
      ProjectedIs(Some(ValidityText(event.disposition.validity)), text);
    }
  }

  /** A layer's columns repeat its metadata, the signing method projected. */
  lemma LayerColumnsExact(meta: Metadata, text: string)
    ensures
      var row := LayerColumnsOf(meta);
      && row.merkleRoot == meta.merkleRoot && row.merkleEpoch == meta.merkleEpoch
      && row.merkleSize == meta.merkleSize && row.rootSignature == meta.rootSignature
      && row.signatureFormat == meta.signatureFormat
      && (row.signingMethod == Some(Escaped(text)) <==> meta.signingMethod == Some(text))
  {
    ProjectedIs(meta.signingMethod, text);
  }
}
