/** The precedence engine: from a finding's events to its current disposition. */
module DispositionEngine {
  import opened Wrappers
  import opened Events
  import opened StableSort

  // ---------- evidence classes ----------

  /** 1 execution-verified, 2 human, 3 machine; grades E2 and E3 demote to 3. */
  function EventClass(event: Event): int {
    if event.evidenceGrade == Some("E2") || event.evidenceGrade == Some("E3") then 3
    else if event.source.actor.kind == Human then 2
    else if event.source.kind == ValidationReport || event.source.kind == VerificationReport then 1
    else 3
  }

  predicate SpeaksOnValidity(event: Event) { event.disposition.validity.Some? }

  predicate ExecEvent(event: Event) { SpeaksOnValidity(event) && EventClass(event) == 1 }

  predicate HumanEvent(event: Event) { SpeaksOnValidity(event) && EventClass(event) == 2 }

  predicate MachineEvent(event: Event) { SpeaksOnValidity(event) && EventClass(event) == 3 }

  predicate Refutes(event: Event) { event.disposition.validity == Some(FalsePositive) }

  /** Execution can prove a finding; it cannot refute one. */
  predicate Decisive(event: Event) { ExecEvent(event) && !Refutes(event) }

  predicate HumanRefutes(event: Event) { HumanEvent(event) && Refutes(event) }

  /** A verified human refutation recorded strictly after `proof`. */
  predicate Overrides(event: Event, proof: Event) {
    HumanRefutes(event) && ActorVerified(event.source.actor) && At(event) > At(proof)
  }

  // ---------- deriving ----------

  /** Validity with no decisive execution event. */
  function StaticValidity(base: Validity, human: seq<Event>, machine: seq<Event>): Validity {
    if human != [] && SpeaksOnValidity(human[|human| - 1]) then human[|human| - 1].disposition.validity.value
    else if machine != [] && SpeaksOnValidity(machine[|machine| - 1]) then
      var last := machine[|machine| - 1];
      if Refutes(last) && !last.autoAcceptTier then base else last.disposition.validity.value
    else base
  }

  datatype ProofVerdict = ProofVerdict(validity: Validity, fpOverridden: bool, fpReassertionBlocked: bool)

  function After(proof: Event): Event -> bool {
    (e: Event) => At(e) > At(proof)
  }

  /** The identities behind verified refutations recorded after the proof; an absent
      identity is one value of its own. */
  function OverridingIdentities(proof: Event, human: seq<Event>): set<Option<string>> {
    var post := Filter(Filter(human, Refutes), After(proof));
    set e | e in post && ActorVerified(e.source.actor) :: e.source.actor.identity
  }

  /** Validity under a decisive execution event, with the two-person override. */
  function ProvenValidity(proof: Event, human: seq<Event>): ProofVerdict
    requires SpeaksOnValidity(proof)
  {
    if proof.disposition.validity != Some(Confirmed) then
      ProofVerdict(proof.disposition.validity.value, false, false)
    else if |OverridingIdentities(proof, human)| >= 2 then ProofVerdict(FalsePositive, false, false)
    else
      var refuting := Filter(human, Refutes);
      ProofVerdict(Confirmed,
                   exists e :: e in refuting && At(e) <= At(proof),
                   Filter(refuting, After(proof)) != [])
  }

  datatype Assurance = Claimed | MachineVerified | HumanReviewed | ExecutionProven

  function DeriveAssurance(sorted: seq<Event>): Assurance {
    if Filter(sorted, ExecEvent) != [] then ExecutionProven
    else if Filter(sorted, HumanEvent) != [] then HumanReviewed
    else if Filter(sorted, MachineEvent) != [] then MachineVerified
    else Claimed
  }

  function ResolutionTier(event: Event): int {
    match event.source.kind
    case VerificationReport => 0
    case Jira => 1
    case _ => 2
  }

  predicate ResolvesAt(event: Event, tier: int) {
    TruthyText(event.disposition.resolution) && ResolutionTier(event) == tier
  }

  function AtTier(tier: int): Event -> bool {
    (e: Event) => ResolvesAt(e, tier)
  }

  /** The newest resolution in the best populated tier; "open" when there is none. */
  function DeriveResolution(sorted: seq<Event>): string {
    ResolutionFrom(LastOf(Filter(sorted, AtTier(0))), LastOf(Filter(sorted, AtTier(1))),
        LastOf(Filter(sorted, AtTier(2))))
  }

  function ResolutionFrom(best: Option<Event>, next: Option<Event>, rest: Option<Event>): string {
    var chosen := if best.Some? then best else if next.Some? then next else rest;
    if chosen.None? then "open" else TextOrEmpty(chosen.value.disposition.resolution)
  }

  predicate SaysValidity(events: seq<Event>, validity: Validity) {
    exists e :: e in events && e.disposition.validity == Some(validity)
  }

  predicate Conflict(events: seq<Event>) {
    SaysValidity(events, Confirmed) && SaysValidity(events, FalsePositive)
  }

  predicate UnacceptedRefutation(event: Event) {
    Refutes(event) && event.source.actor.kind == Machine && !event.autoAcceptTier
  }

  predicate HasUnaccepted(events: seq<Event>) {
    exists e :: e in events && UnacceptedRefutation(e)
  }

  predicate SetsSeverity(event: Event) {
    TruthyText(event.disposition.severity) && EventClass(event) == 2
  }

  datatype SeverityOverride = SeverityOverride(
    severity: string,
    author: string,
    time: string,
    rationale: Option<string>)

  /** What a severity event says: who, when it happened or else was recorded, and why if said. */
  function OverrideBy(event: Event): SeverityOverride {
    SeverityOverride(
      TextOrEmpty(event.disposition.severity),
      if TruthyText(event.source.actor.identity) then event.source.actor.identity.value else "?",
      if event.occurredAt.Some? && event.occurredAt.value.text != "" then event.occurredAt.value.text
      else event.recordedAt.text,
      if event.rationale == "" then None else Some(event.rationale))
  }

  datatype Derived = Derived(
    validity: Validity,
    resolution: string,
    assurance: Assurance,
    lastUpdated: string,
    events: seq<EventId>,
    severityOverride: Option<SeverityOverride>,
    conflict: bool,
    refutedAwaitingSignoff: bool,
    fpOverridden: bool,
    fpReassertionBlocked: bool)

  function EventIds(events: seq<Event>): (ids: seq<EventId>)
    ensures |ids| == |events|
    ensures forall i :: 0 <= i < |events| ==> ids[i] == events[i].eventId
  {
    if events == [] then [] else EventIds(events[..|events| - 1]) + [events[|events| - 1].eventId]
  }

  /** `derive_disposition`: `base` is the report's own status, `generatedAt` the fallback clock. */
  function Derive(base: Validity, events: seq<Event>, generatedAt: string): Derived {
    DeriveSorted(base, Sort(events), Conflict(events), HasUnaccepted(events), generatedAt)
  }

  function DeriveSorted(base: Validity, sorted: seq<Event>, conflict: bool, unaccepted: bool,
      generatedAt: string): Derived {
    var verdict := DeriveVerdict(base, sorted);
    var severity := LastOf(Filter(sorted, SetsSeverity));
    Derived(
      verdict.validity,
      DeriveResolution(sorted),
      DeriveAssurance(sorted),
      if sorted == [] then generatedAt else sorted[|sorted| - 1].recordedAt.text,
      EventIds(sorted),
      if severity.None? then None else Some(OverrideBy(severity.value)),
      conflict,
      unaccepted && verdict.validity != FalsePositive && Filter(sorted, HumanEvent) == [] && !conflict,
      verdict.fpOverridden,
      verdict.fpReassertionBlocked)
  }

  function DeriveVerdict(base: Validity, sorted: seq<Event>): ProofVerdict {
    VerdictFrom(base, Filter(sorted, Decisive), Filter(sorted, HumanEvent), Filter(sorted, MachineEvent))
  }

  /** The three selections in order of rank; each holds only events that speak on validity. */
  function VerdictFrom(base: Validity, decisive: seq<Event>, human: seq<Event>, machine: seq<Event>): ProofVerdict {
    if decisive != [] && SpeaksOnValidity(decisive[|decisive| - 1]) then ProvenValidity(decisive[|decisive| - 1], human)
    else ProofVerdict(StaticValidity(base, human, machine), false, false)
  }

  // ---------- an order-free reading ----------

  /** Two different identities each hold a verified human refutation after the proof. */
  ghost predicate TwoPeopleOverride(events: seq<Event>, proof: Event) {
    exists a, b :: a in events && b in events && Overrides(a, proof) && Overrides(b, proof)
                && a.source.actor.identity != b.source.actor.identity
  }

  /** Validity stated over the set of events and the newest of each class; nothing is sorted. */
  ghost function ValiditySpec(base: Validity, events: seq<Event>): Validity {
    match Latest(events, Decisive)
    case Some(proof) =>
      if proof.disposition.validity == Some(Confirmed) && TwoPeopleOverride(events, proof) then FalsePositive
      else if SpeaksOnValidity(proof) then proof.disposition.validity.value else base
    case None =>
      match Latest(events, HumanEvent)
      case Some(h) => if SpeaksOnValidity(h) then h.disposition.validity.value else base
      case None =>
        match Latest(events, MachineEvent)
        case Some(m) =>
          if (Refutes(m) && !m.autoAcceptTier) || !SpeaksOnValidity(m) then base else m.disposition.validity.value
        case None => base
  }

  lemma OverridingExact(events: seq<Event>, proof: Event, identity: Option<string>)
    ensures identity in OverridingIdentities(proof, Filter(Sort(events), HumanEvent))
       <==> exists e :: e in events && Overrides(e, proof) && e.source.actor.identity == identity
  {
    var human := Filter(Sort(events), HumanEvent);
    var refuting := Filter(human, Refutes);
    var post := Filter(refuting, After(proof));
    forall e
      ensures e in post <==> e in events && HumanRefutes(e) && At(e) > At(proof)
    {
      SortKeepsMembers(events, e);
      FilterKeeps(Sort(events), HumanEvent, e);
      FilterKeeps(human, Refutes, e);
      FilterKeeps(refuting, After(proof), e);
    }
  }

  lemma OverrideExact(events: seq<Event>, proof: Event)
    ensures |OverridingIdentities(proof, Filter(Sort(events), HumanEvent))| >= 2 <==> TwoPeopleOverride(events, proof)
  {
    var identities := OverridingIdentities(proof, Filter(Sort(events), HumanEvent));
    SetHasTwo(identities);
    if TwoPeopleOverride(events, proof) {
      var a, b :| a in events && b in events && Overrides(a, proof) && Overrides(b, proof)
               && a.source.actor.identity != b.source.actor.identity;
      OverridingExact(events, proof, a.source.actor.identity);
      OverridingExact(events, proof, b.source.actor.identity);
    }
    if x, y :| x in identities && y in identities && x != y {
      OverridingExact(events, proof, x);
      OverridingExact(events, proof, y);
    }
  }

  lemma LatestSelected(events: seq<Event>, keep: Event -> bool)
    ensures LastOf(Filter(Sort(events), keep)) == Latest(events, keep)
    ensures Latest(events, keep).Some? ==> keep(Latest(events, keep).value)
  {
    LastOfSorted(events, keep);
    if Latest(events, keep).Some? {
      FilterKeeps(Sort(events), keep, Latest(events, keep).value);
    }
  }

  lemma StaticRefinesSpec(base: Validity, events: seq<Event>)
    requires Latest(events, Decisive).None?
    ensures StaticValidity(base, Filter(Sort(events), HumanEvent), Filter(Sort(events), MachineEvent))
        == ValiditySpec(base, events)
  {
    LatestSelected(events, HumanEvent);
    LatestSelected(events, MachineEvent);
  }

  lemma VerdictRefinesSpec(base: Validity, events: seq<Event>)
    ensures DeriveVerdict(base, Sort(events)).validity == ValiditySpec(base, events)
  {
    LatestSelected(events, Decisive);
    if Latest(events, Decisive).Some? {
      OverrideExact(events, Latest(events, Decisive).value);
    } else {
      StaticRefinesSpec(base, events);
    }
  }

  /** The engine refines the order-free reading on every input, ties included. */
  lemma ValidityRefinesSpec(base: Validity, events: seq<Event>, generatedAt: string)
    ensures Derive(base, events, generatedAt).validity == ValiditySpec(base, events)
  {
    VerdictRefinesSpec(base, events);
  }

  /** The two-person override, both ways: with the newest decisive execution event a
      confirmation, the finding is a false positive exactly when two distinct identities
      hold verified human refutations strictly after it. */
  lemma OverrideNeedsTwo(base: Validity, events: seq<Event>, generatedAt: string, proof: Event)
    requires Latest(events, Decisive) == Some(proof) && proof.disposition.validity == Some(Confirmed)
    ensures Derive(base, events, generatedAt).validity == FalsePositive <==> TwoPeopleOverride(events, proof)
  {
    ValidityRefinesSpec(base, events, generatedAt);
  }

  /** The two flags, both ways: a confirmation that two people have not overridden marks every
      earlier human refutation as overridden, and every later one as blocked. */
  lemma FlagsExact(base: Validity, events: seq<Event>, generatedAt: string)
    ensures
      var d, latest := Derive(base, events, generatedAt), Latest(events, Decisive);
      var stands := latest.Some? && latest.value.disposition.validity == Some(Confirmed)
          && !TwoPeopleOverride(events, latest.value);
      && (d.fpOverridden <==> stands && exists e :: e in events && HumanRefutes(e) && At(e) <= At(latest.value))
      && (d.fpReassertionBlocked <==> stands && exists e :: e in events && HumanRefutes(e) && At(e) > At(latest.value))
  {
    LatestSelected(events, Decisive);
    if Latest(events, Decisive).Some? {
      var proof := Latest(events, Decisive).value;
      OverrideExact(events, proof);
      RefutationsExact(events, proof);
    }
  }

  lemma RefutationsExact(events: seq<Event>, proof: Event)
    ensures
      var refuting := Filter(Filter(Sort(events), HumanEvent), Refutes);
      && ((exists e :: e in refuting && At(e) <= At(proof))
          <==> exists e :: e in events && HumanRefutes(e) && At(e) <= At(proof))
      && (Filter(refuting, After(proof)) != [] <==> exists e :: e in events && HumanRefutes(e) && At(e) > At(proof))
  {
    var human := Filter(Sort(events), HumanEvent);
    var refuting := Filter(human, Refutes);
    var post := Filter(refuting, After(proof));
    forall e
      ensures e in refuting <==> e in events && HumanRefutes(e)
      ensures e in post <==> e in refuting && At(e) > At(proof)
    {
      SortKeepsMembers(events, e);
      FilterKeeps(Sort(events), HumanEvent, e);
      FilterKeeps(human, Refutes, e);
      FilterKeeps(refuting, After(proof), e);
    }
    assert post != [] ==> post[0] in post;
  }

  /** Resolution, without sorting: the newest one from a verification report, else the
      newest from Jira, else the newest from anywhere else, else "open". */
  lemma ResolutionExact(base: Validity, events: seq<Event>, generatedAt: string)
    ensures Derive(base, events, generatedAt).resolution ==
      match Latest(events, AtTier(0))
      case Some(verified) => TextOrEmpty(verified.disposition.resolution)
      case None =>
        match Latest(events, AtTier(1))
        case Some(ticket) => TextOrEmpty(ticket.disposition.resolution)
        case None =>
          match Latest(events, AtTier(2))
          case Some(other) => TextOrEmpty(other.disposition.resolution)
          case None => "open"
  {
    LastOfSorted(events, AtTier(0));
    LastOfSorted(events, AtTier(1));
    LastOfSorted(events, AtTier(2));
  }

  /** The severity override is what the newest human severity event says, found without sorting. */
  lemma SeverityExact(base: Validity, events: seq<Event>, generatedAt: string)
    ensures Derive(base, events, generatedAt).severityOverride ==
      match Latest(events, SetsSeverity)
      case Some(event) => Some(OverrideBy(event))
      case None => None
  {
    LastOfSorted(events, SetsSeverity);
  }

  /** For events at distinct instants the whole derived disposition, ordered event list
      included, does not depend on the order they were appended in. */
  lemma PermutationInvariant(base: Validity, a: seq<Event>, b: seq<Event>, generatedAt: string)
    requires multiset(a) == multiset(b)
    requires DistinctInstants(a)
    ensures Derive(base, a, generatedAt) == Derive(base, b, generatedAt)
  {
    SortOfPermutation(a, b);
    PermutationKeepsMarks(a, b);
  }

  lemma PermutationKeepsMarks(a: seq<Event>, b: seq<Event>)
    requires multiset(a) == multiset(b)
    ensures Conflict(a) == Conflict(b) && HasUnaccepted(a) == HasUnaccepted(b)
  {
    forall e
      ensures e in a <==> e in b
    {
      assert e in multiset(a) <==> e in multiset(b);
    }
  }

  // ---------- precedence ----------

  lemma SortEmpty(s: seq<Event>)
    ensures Sort(s) == [] <==> s == []
  {
  }

  /** Validity reads the decisive and human selections, and the machine one only if both are empty. */
  lemma VerdictReadsSelections(base: Validity, a: seq<Event>, b: seq<Event>)
    requires Filter(a, Decisive) == Filter(b, Decisive)
    requires Filter(a, HumanEvent) == Filter(b, HumanEvent)
    requires Filter(a, MachineEvent) == Filter(b, MachineEvent) || Filter(a, Decisive) != []
        || Filter(a, HumanEvent) != []
    ensures DeriveVerdict(base, Sort(a)) == DeriveVerdict(base, Sort(b))
  {
    SelectionSame(a, b, Decisive);
    SelectionSame(a, b, HumanEvent);
    if Filter(a, MachineEvent) == Filter(b, MachineEvent) {
      SelectionSame(a, b, MachineEvent);
    }
  }

  /** Equal selections sort to equal selections, and are as empty. */
  lemma SelectionSame(a: seq<Event>, b: seq<Event>, keep: Event -> bool)
    requires Filter(a, keep) == Filter(b, keep)
    ensures Filter(Sort(a), keep) == Filter(Sort(b), keep)
    ensures Filter(Sort(a), keep) == [] <==> Filter(a, keep) == []
    ensures Filter(Sort(a), keep) != [] ==> keep(Filter(Sort(a), keep)[|Filter(Sort(a), keep)| - 1])
  {
    FilterOfSort(a, keep);
    FilterOfSort(b, keep);
    SortEmpty(Filter(a, keep));
    LastIsKept(Sort(a), keep);
  }

  lemma LastIsKept(s: seq<Event>, keep: Event -> bool)
    ensures Filter(s, keep) != [] ==> keep(Filter(s, keep)[|Filter(s, keep)| - 1])
  {
    var kept := Filter(s, keep);
    if kept != [] {
      FilterKeeps(s, keep, kept[|kept| - 1]);
    }
  }

  /** Machine evidence never outranks a human or an execution proof: inserted anywhere, at
      any instant, it leaves validity and both override flags as they were. */
  lemma MachineNeverOutranks(base: Validity, a: seq<Event>, e: Event, b: seq<Event>, generatedAt: string)
    requires EventClass(e) == 3
    requires exists x :: x in a + b && (HumanEvent(x) || Decisive(x))
    ensures
      var extended, plain := Derive(base, a + [e] + b, generatedAt), Derive(base, a + b, generatedAt);
      && extended.validity == plain.validity
      && extended.fpOverridden == plain.fpOverridden
      && extended.fpReassertionBlocked == plain.fpReassertionBlocked
  {
    FilterIgnores(a, e, b, Decisive);
    FilterIgnores(a, e, b, HumanEvent);
    var x :| x in a + b && (HumanEvent(x) || Decisive(x));
    FilterKeeps(a + b, HumanEvent, x);
    FilterKeeps(a + b, Decisive, x);
    VerdictReadsSelections(base, a + b, a + [e] + b);
  }

  /** Execution never refutes: a class-1 false positive leaves validity as it was. */
  lemma ExecutionNeverRefutes(base: Validity, a: seq<Event>, e: Event, b: seq<Event>, generatedAt: string)
    requires ExecEvent(e) && Refutes(e)
    ensures Derive(base, a + [e] + b, generatedAt).validity == Derive(base, a + b, generatedAt).validity
  {
    FilterIgnores(a, e, b, Decisive);
    FilterIgnores(a, e, b, HumanEvent);
    FilterIgnores(a, e, b, MachineEvent);
    VerdictReadsSelections(base, a + b, a + [e] + b);
  }

  /** No weaker: claimed, machine-verified, human-reviewed, execution-proven, in this order. */
  predicate NoWeaker(now: Assurance, before: Assurance) {
    match before
    case Claimed => true
    case MachineVerified => now != Claimed
    case HumanReviewed => now == HumanReviewed || now == ExecutionProven
    case ExecutionProven => now == ExecutionProven
  }

  lemma SelectionGrows(a: seq<Event>, e: Event, b: seq<Event>, keep: Event -> bool)
    ensures Filter(Sort(a + b), keep) != [] ==> Filter(Sort(a + [e] + b), keep) != []
  {
    var kept := Filter(Sort(a + b), keep);
    if kept != [] {
      FilterKeeps(Sort(a + b), keep, kept[0]);
      SortKeepsMembers(a + b, kept[0]);
      SortKeepsMembers(a + [e] + b, kept[0]);
      FilterKeeps(Sort(a + [e] + b), keep, kept[0]);
    }
  }

  lemma AssuranceAccumulates(a: seq<Event>, e: Event, b: seq<Event>)
    ensures NoWeaker(DeriveAssurance(Sort(a + [e] + b)), DeriveAssurance(Sort(a + b)))
  {
    SelectionGrows(a, e, b, ExecEvent);
    SelectionGrows(a, e, b, HumanEvent);
    SelectionGrows(a, e, b, MachineEvent);
  }

  lemma ConflictAccumulates(a: seq<Event>, e: Event, b: seq<Event>)
    requires Conflict(a + b)
    ensures Conflict(a + [e] + b)
  {
    assert forall x :: x in a + b ==> x in a + [e] + b;
  }

  /** Evidence only accumulates: inserting any event anywhere never lowers assurance and
      never clears the conflict flag. */
  lemma EvidenceAccumulates(base: Validity, a: seq<Event>, e: Event, b: seq<Event>, generatedAt: string)
    ensures
      var extended, plain := Derive(base, a + [e] + b, generatedAt), Derive(base, a + b, generatedAt);
      && NoWeaker(extended.assurance, plain.assurance)
      && (plain.conflict ==> extended.conflict)
  {
    AssuranceAccumulates(a, e, b);
    if Conflict(a + b) {
      ConflictAccumulates(a, e, b);
    }
  }
}
