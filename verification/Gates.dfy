/** The read-only checks that run before a write.  Each gate is a predicate or a function
    returning the error it raises; `RequireTwoPerson` keeps the loop the source has. */
module Gates {
  import opened Wrappers
  import opened Events
  import opened Layers
  import opened Restatements

  const RATIONALE_MIN_LENGTH := 10
  const TIMESTAMP_FUTURE_LIMIT_SECONDS := 24 * 3600

  type Gate = Option<LedgerError>

  /** `identity_verified` first, then the employee directory, then LDAP. */
  predicate GateVerified(actor: Actor) {
    if actor.identityVerified.Some? then actor.identityVerified.value
    else if actor.employeeStatus.Some? then actor.employeeStatus.value == "active"
    else actor.ldapVerified == Some(true)
  }

  /** The characters `str.strip` removes. */
  predicate IsSpace(c: char) {
    || '\t' <= c <= '\r' || '\U{1C}' <= c <= ' ' || c == '\U{85}' || c == '\U{A0}' || c == '\U{1680}'
    || '\U{2000}' <= c <= '\U{200A}' || c == '\U{2028}' || c == '\U{2029}' || c == '\U{202F}'
    || c == '\U{205F}' || c == '\U{3000}'
  }

  predicate Blank(text: string) {
    forall i :: 0 <= i < |text| ==> IsSpace(text[i])
  }

  /** Something is left after stripping. */
  predicate HasText(text: string) {
    exists i :: 0 <= i < |text| && !IsSpace(text[i])
  }

  function RequireVerifiedHuman(actor: Actor): Gate {
    if actor.kind != Human || Blank(TextOrEmpty(actor.identity)) then Some(IdentityRequired)
    else if !GateVerified(actor) then Some(IdentityUnverified)
    else None
  }

  function RequireVerifiedForFalsePositive(actor: Actor, validity: Validity): Gate {
    if validity != FalsePositive || actor.kind != Human then None
    else if TruthyText(actor.identity) && GateVerified(actor) then None
    else Some(IdentityUnverified)
  }

  function RequireValidEpoch(layer: Layer): Gate {
    if layer.events == [] then None
    else if layer.meta.merkleEpoch.None? then Some(InvalidEpoch)
    else if 0 <= layer.meta.merkleEpoch.value <= |layer.events| then None
    else Some(InvalidEpoch)
  }

  // ---------- restatement gates ----------

  function RequireAuthority(block: Block): Gate {
    if Blank(block.ticket) then Some(NoTicket)
    else if block.before == block.after then Some(ChangesNothing)
    else None
  }

  function RequireSomethingToRestate(block: Block, actual: Json): Gate {
    if block.before.Obj? then
      if actual.Obj? && block.before.entries.Keys <= actual.entries.Keys then None else Some(NothingToRestate)
    else if Truthy(actual) then None else Some(NothingToRestate)
  }

  function RequireFresh(block: Block, actual: Json): Gate {
    if block.before.Obj? && actual.Obj? then
      if forall key :: key in block.before.entries ==> EntryOf(actual.entries, key) == block.before.entries[key]
      then None else Some(StaleRestatement)
    else if block.before == actual then None else Some(StaleRestatement)
  }

  function RequireMonotonic(block: Block, chain: seq<Block>): Gate {
    if block.after.Obj? then
      if forall key :: key in block.after.entries ==> block.after.entries[key] !in RetiredEntries(chain, key)
      then None else Some(RetiredValueRestated)
    else if block.after !in RetiredWhole(chain) then None else Some(RetiredValueRestated)
  }

  // ---------- the two-person rule ----------

  /** `_parse_event`: a typed event, a value that fails validation, or no event at all. */
  datatype ParsedEvent = Parsed(event: Event) | Unparseable | NotAnEvent

  predicate ExecutionSource(event: Event) {
    event.source.kind == ValidationReport || event.source.kind == VerificationReport
  }

  predicate MatchesFinding(event: Event, findingRef: string) {
    event.findingRef == findingRef || (TruthyText(event.fingerprint) && event.fingerprint.value == findingRef)
  }

  /** An execution source confirmed the finding. */
  predicate ExecutionConfirmed(event: Event) {
    ExecutionSource(event) && event.disposition.validity == Some(Confirmed)
  }

  /** A named, verified human already called the finding a false positive. */
  predicate VerifiedFalsePositive(event: Event, identity: string) {
    && event.disposition.validity == Some(FalsePositive)
    && event.source.actor.kind == Human
    && ActorVerified(event.source.actor)
    && event.source.actor.identity == Some(identity)
    && identity != ""
  }

  ghost predicate ExecProofFor(parsed: seq<ParsedEvent>, findingRef: string) {
    exists e :: Parsed(e) in parsed && MatchesFinding(e, findingRef) && ExecutionConfirmed(e)
  }

  ghost predicate AlreadySigned(parsed: seq<ParsedEvent>, findingRef: string, identity: string) {
    exists e :: Parsed(e) in parsed && MatchesFinding(e, findingRef) && VerifiedFalsePositive(e, identity)
  }

  /** The rule itself.  It bears on false positives only.  Unparseable history refuses
      outright; execution proof plus an earlier signature of the same person refuses. */
  ghost predicate TwoPersonAllows(parsed: seq<ParsedEvent>, findingRef: string, identity: string, validity: Validity) {
    validity == FalsePositive ==>
      && Unparseable !in parsed
      && !(ExecProofFor(parsed, findingRef) && AlreadySigned(parsed, findingRef, identity))
  }

  /** `require_two_person`: one pass collects the matching events and the flag. */
  method RequireTwoPerson(parsed: seq<ParsedEvent>, findingRef: string, identity: string, validity: Validity)
    returns (gate: Gate)
    ensures gate == if TwoPersonAllows(parsed, findingRef, identity, validity) then None else Some(TwoPersonViolated)
  {
    if validity != FalsePositive {
      return None;
    }
    var hasUnparseable := false;
    var matching: seq<Event> := [];
    for i := 0 to |parsed|
      invariant hasUnparseable == (Unparseable in parsed[..i])
      invariant forall e :: e in matching <==> Parsed(e) in parsed[..i] && MatchesFinding(e, findingRef)
    {
      assert parsed[..i + 1] == parsed[..i] + [parsed[i]];
      match parsed[i] {
        case NotAnEvent =>
        case Unparseable =>
          hasUnparseable := true;
        case Parsed(e) =>
          if MatchesFinding(e, findingRef) {
            matching := matching + [e];
          }
      }
    }
    assert parsed[..|parsed|] == parsed;
    var hasExecConfirmed := exists e :: e in matching && ExecutionConfirmed(e);
    if !hasExecConfirmed && !hasUnparseable {
      return None;
    }
    if hasUnparseable {
      return Some(TwoPersonViolated);
    }
    var priorHumans := set e | e in matching && TruthyText(e.source.actor.identity)
                            && VerifiedFalsePositive(e, e.source.actor.identity.value)
                          :: e.source.actor.identity.value;
    return if identity in priorHumans then Some(TwoPersonViolated) else None;
  }

  function ParseAll(events: seq<Event>): (parsed: seq<ParsedEvent>)
    ensures |parsed| == |events|
    ensures forall i :: 0 <= i < |events| ==> parsed[i] == Parsed(events[i])
  {
    seq(|events|, i requires 0 <= i < |events| => Parsed(events[i]))
  }

  lemma ParsedMembers(events: seq<Event>)
    ensures forall e :: Parsed(e) in ParseAll(events) <==> e in events
  {
    var parsed := ParseAll(events);
    forall e
      ensures Parsed(e) in parsed <==> e in events
    {
      if e in events {
        var i :| 0 <= i < |events| && events[i] == e;
        assert parsed[i] == Parsed(e);
      }
    }
  }

  /** On a layer whose events all parse, the rule reads directly off the events. */
  lemma TwoPersonOnEvents(events: seq<Event>, findingRef: string, identity: string)
    ensures TwoPersonAllows(ParseAll(events), findingRef, identity, FalsePositive)
       <==> !(&& (exists e :: e in events && MatchesFinding(e, findingRef) && ExecutionConfirmed(e))
              && (exists e :: e in events && MatchesFinding(e, findingRef) && VerifiedFalsePositive(e, identity)))
  {
    ParsedMembers(events);
  }
}
