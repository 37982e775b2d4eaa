/** What a finding's disposition is, read directly off the fields of its events: nothing here
    sorts, classifies or selects the way the engine does. */
module Verdicts {
  import opened Wrappers
  import opened Events
  import opened StableSort
  import opened DispositionEngine

  // ---------- who says what ----------

  /** Graded E2 or E3, an event counts as static evidence whoever made it. */
  predicate Demoted(e: Event) {
    e.evidenceGrade == Some("E2") || e.evidenceGrade == Some("E3")
  }

  predicate ByExecution(e: Event) {
    && e.disposition.validity.Some? && !Demoted(e) && e.source.actor.kind != Human
    && (e.source.kind == ValidationReport || e.source.kind == VerificationReport)
  }

  predicate ByHuman(e: Event) {
    e.disposition.validity.Some? && !Demoted(e) && e.source.actor.kind == Human
  }

  predicate ByMachine(e: Event) {
    && e.disposition.validity.Some?
    && (|| Demoted(e)
        || (e.source.actor.kind != Human && e.source.kind != ValidationReport && e.source.kind != VerificationReport))
  }

  predicate Proof(e: Event) {
    ByExecution(e) && e.disposition.validity != Some(FalsePositive)
  }

  predicate Denial(e: Event) {
    ByHuman(e) && e.disposition.validity == Some(FalsePositive)
  }

  /** A denial that counts against a proof: later, and by somebody authenticated. */
  predicate Counts(e: Event, proof: Event) {
    && Denial(e) && e.recordedAt.instant > proof.recordedAt.instant
    && (e.source.actor.identityVerified == Some(true)
        || (e.source.actor.identityVerified.None? && e.source.actor.ldapVerified == Some(true)))
  }

  ghost predicate TwoDeny(events: seq<Event>, proof: Event) {
    exists a, b :: a in events && b in events && Counts(a, proof) && Counts(b, proof)
                && a.source.actor.identity != b.source.actor.identity
  }

  /** The last appended of the latest recorded. */
  ghost predicate Newest(events: seq<Event>, keep: Event -> bool, p: nat) {
    && p < |events| && keep(events[p])
    && forall j :: 0 <= j < |events| && keep(events[j]) ==>
         || events[j].recordedAt.instant < events[p].recordedAt.instant
         || (events[j].recordedAt.instant == events[p].recordedAt.instant && j <= p)
  }

  ghost predicate Nobody(events: seq<Event>, keep: Event -> bool) {
    forall e :: e in events ==> !keep(e)
  }

  /** On every input somebody is the newest, or nobody qualifies: the cases below are all there are. */
  lemma NewestOrNobody(events: seq<Event>, keep: Event -> bool)
    ensures Nobody(events, keep) <==> !exists p :: Newest(events, keep, p)
  {
    LatestIsNewest(events, keep);
    if Latest(events, keep).Some? {
      var i :| NewestAt(events, keep, i) && events[i] == Latest(events, keep).value;
      assert Newest(events, keep, i);
    }
  }

  lemma NewestIsLatest(events: seq<Event>, keep: Event -> bool, chosen: Event -> bool, p: nat)
    requires Newest(events, keep, p)
    requires forall e :: keep(e) <==> chosen(e)
    ensures Latest(events, chosen) == Some(events[p])
  {
    LatestIsNewest(events, chosen);
    assert events[p] in events;
    var i :| NewestAt(events, chosen, i) && events[i] == Latest(events, chosen).value;
    assert keep(events[i]);
  }

  lemma NobodyIsLatest(events: seq<Event>, keep: Event -> bool, chosen: Event -> bool)
    requires Nobody(events, keep)
    requires forall e :: keep(e) <==> chosen(e)
    ensures Latest(events, chosen).None?
  {
    LatestIsNewest(events, chosen);
  }

  // ---------- validity ----------

  lemma OverridesAgree(events: seq<Event>, proof: Event)
    ensures TwoPeopleOverride(events, proof) <==> TwoDeny(events, proof)
  {
    assert forall e :: Overrides(e, proof) <==> Counts(e, proof);
    if TwoPeopleOverride(events, proof) {
      var a, b :| a in events && b in events && Overrides(a, proof) && Overrides(b, proof)
               && a.source.actor.identity != b.source.actor.identity;
      assert Counts(a, proof) && Counts(b, proof);
    }
    if TwoDeny(events, proof) {
      var a, b :| a in events && b in events && Counts(a, proof) && Counts(b, proof)
               && a.source.actor.identity != b.source.actor.identity;
      assert Overrides(a, proof) && Overrides(b, proof);
    }
  }

  /** The newest execution proof decides.  A confirmation falls to two people who each deny it later
      and authenticated, and to nothing else. */
  lemma ProofDecides(base: Validity, events: seq<Event>, generatedAt: string, p: nat)
    requires Newest(events, Proof, p)
    ensures
      var d, proof := Derive(base, events, generatedAt), events[p];
      && (proof.disposition.validity != Some(Confirmed) ==> Some(d.validity) == proof.disposition.validity)
      && (proof.disposition.validity == Some(Confirmed) ==>
            d.validity == if TwoDeny(events, proof) then FalsePositive else Confirmed)
  {
    NewestIsLatest(events, Proof, Decisive, p);
    ValidityRefinesSpec(base, events, generatedAt);
    OverridesAgree(events, events[p]);
  }

  /** While a confirmation stands, earlier denials read as overridden and later ones as blocked;
      otherwise neither flag is raised. */
  lemma FlagsDecided(base: Validity, events: seq<Event>, generatedAt: string, p: nat)
    requires Newest(events, Proof, p)
    ensures
      var d, proof := Derive(base, events, generatedAt), events[p];
      var stands := proof.disposition.validity == Some(Confirmed) && !TwoDeny(events, proof);
      && (d.fpOverridden <==>
            stands && exists e :: e in events && Denial(e) && e.recordedAt.instant <= proof.recordedAt.instant)
      && (d.fpReassertionBlocked <==>
            stands && exists e :: e in events && Denial(e) && e.recordedAt.instant > proof.recordedAt.instant)
  {
    NewestIsLatest(events, Proof, Decisive, p);
    FlagsExact(base, events, generatedAt);
    OverridesAgree(events, events[p]);
    assert forall e :: HumanRefutes(e) <==> Denial(e);
  }

  /** Without a proof the newest human word decides, whatever machines say; no flag is raised. */
  lemma HumanDecides(base: Validity, events: seq<Event>, generatedAt: string, p: nat)
    requires Nobody(events, Proof)
    requires Newest(events, ByHuman, p)
    ensures
      var d := Derive(base, events, generatedAt);
      Some(d.validity) == events[p].disposition.validity && !d.fpOverridden && !d.fpReassertionBlocked
  {
    NobodyIsLatest(events, Proof, Decisive);
    NewestIsLatest(events, ByHuman, HumanEvent, p);
    ValidityRefinesSpec(base, events, generatedAt);
    FlagsExact(base, events, generatedAt);
  }

  /** With neither, the newest machine word decides, except that a refutation without auto-accept
      leaves the report's own status. */
  lemma MachineDecides(base: Validity, events: seq<Event>, generatedAt: string, p: nat)
    requires Nobody(events, Proof) && Nobody(events, ByHuman)
    requires Newest(events, ByMachine, p)
    ensures
      var d, e := Derive(base, events, generatedAt), events[p];
      && Some(d.validity) == (if e.disposition.validity == Some(FalsePositive) && !e.autoAcceptTier then Some(base)
                              else e.disposition.validity)
      && !d.fpOverridden && !d.fpReassertionBlocked
  {
    NobodyIsLatest(events, Proof, Decisive);
    NobodyIsLatest(events, ByHuman, HumanEvent);
    NewestIsLatest(events, ByMachine, MachineEvent, p);
    ValidityRefinesSpec(base, events, generatedAt);
    FlagsExact(base, events, generatedAt);
  }

  /** Execution refutations alone, or nothing at all, leave the report's own status. */
  lemma ReportDecides(base: Validity, events: seq<Event>, generatedAt: string)
    requires Nobody(events, Proof) && Nobody(events, ByHuman) && Nobody(events, ByMachine)
    ensures
      var d := Derive(base, events, generatedAt);
      d.validity == base && !d.fpOverridden && !d.fpReassertionBlocked
  {
    NobodyIsLatest(events, Proof, Decisive);
    NobodyIsLatest(events, ByHuman, HumanEvent);
    NobodyIsLatest(events, ByMachine, MachineEvent);
    ValidityRefinesSpec(base, events, generatedAt);
    FlagsExact(base, events, generatedAt);
  }

  // ---------- assurance and the two warnings ----------

  lemma SelectedExact(events: seq<Event>, chosen: Event -> bool)
    ensures Filter(Sort(events), chosen) != [] <==> exists e :: e in events && chosen(e)
  {
    var kept := Filter(Sort(events), chosen);
    if kept != [] {
      FilterKeeps(Sort(events), chosen, kept[0]);
      SortKeepsMembers(events, kept[0]);
    }
    if e :| e in events && chosen(e) {
      SortKeepsMembers(events, e);
      FilterKeeps(Sort(events), chosen, e);
    }
  }

  /** The best kind of evidence that has spoken on validity, refutations included. */
  ghost predicate Assures(events: seq<Event>, assurance: Assurance) {
    var executed := exists e :: e in events && e.disposition.validity.Some?
                            && e.evidenceGrade != Some("E2") && e.evidenceGrade != Some("E3")
                            && e.source.actor.kind != Human
                            && (e.source.kind == ValidationReport || e.source.kind == VerificationReport);
    var reviewed := exists e :: e in events && e.disposition.validity.Some?
                            && e.evidenceGrade != Some("E2") && e.evidenceGrade != Some("E3")
                            && e.source.actor.kind == Human;
    var spoken := exists e :: e in events && e.disposition.validity.Some?;
    && (assurance == ExecutionProven <==> executed)
    && (assurance == HumanReviewed <==> !executed && reviewed)
    && (assurance == MachineVerified <==> !executed && !reviewed && spoken)
    && (assurance == Claimed <==> !spoken)
  }

  lemma AssuranceSelected(events: seq<Event>, executed: bool, reviewed: bool, assumed: bool, assurance: Assurance)
    requires executed <==> exists e :: e in events && ExecEvent(e)
    requires reviewed <==> exists e :: e in events && HumanEvent(e)
    requires assumed <==> exists e :: e in events && MachineEvent(e)
    requires assurance == if executed then ExecutionProven else if reviewed then HumanReviewed
                          else if assumed then MachineVerified else Claimed
    ensures Assures(events, assurance)
  {
  }

  /** Assurance, both ways: execution-proven if and only if some execution event that is not demoted
      spoke, else human-reviewed if and only if some human did, else machine-verified if and only if
      anybody did, else claimed. */
  lemma AssuranceExact(base: Validity, events: seq<Event>, generatedAt: string)
    ensures Assures(events, Derive(base, events, generatedAt).assurance)
  {
    SelectedExact(events, ExecEvent);
    SelectedExact(events, HumanEvent);
    SelectedExact(events, MachineEvent);
    var sorted := Sort(events);
    AssuranceSelected(events, Filter(sorted, ExecEvent) != [], Filter(sorted, HumanEvent) != [],
                      Filter(sorted, MachineEvent) != [], DeriveAssurance(sorted));
  }

  /** A conflict is a confirmation and a refutation anywhere among the events. */
  lemma ConflictExact(base: Validity, events: seq<Event>, generatedAt: string)
    ensures Derive(base, events, generatedAt).conflict
       <==> exists i, j :: 0 <= i < |events| && 0 <= j < |events|
                        && events[i].disposition.validity == Some(Confirmed)
                        && events[j].disposition.validity == Some(FalsePositive)
  {
    if Conflict(events) {
      var a, b :| a in events && b in events && a.disposition.validity == Some(Confirmed)
               && b.disposition.validity == Some(FalsePositive);
      var i, j :| 0 <= i < |events| && 0 <= j < |events| && events[i] == a && events[j] == b;
    }
  }

  /** A sign-off is awaited when a machine refuted without auto-accept, no confirmation contradicts
      it, no human has spoken, and it has not taken effect anyway. */
  lemma SignoffExact(base: Validity, events: seq<Event>, generatedAt: string)
    ensures
      var d := Derive(base, events, generatedAt);
      d.refutedAwaitingSignoff <==>
        && (exists e :: e in events && e.disposition.validity == Some(FalsePositive)
                     && e.source.actor.kind == Machine && !e.autoAcceptTier)
        && d.validity != FalsePositive
        && Nobody(events, ByHuman)
        && forall e :: e in events ==> e.disposition.validity != Some(Confirmed)
  {
    SelectedExact(events, HumanEvent);
    assert forall e :: ByHuman(e) <==> HumanEvent(e);
  }

  // ---------- resolution, severity, and the list ----------

  predicate Resolves(e: Event) {
    e.disposition.resolution.Some? && e.disposition.resolution != Some("")
  }

  predicate ResolvesByReport(e: Event) { Resolves(e) && e.source.kind == VerificationReport }

  predicate ResolvesByTicket(e: Event) { Resolves(e) && e.source.kind == Jira }

  predicate ResolvesOtherwise(e: Event) {
    Resolves(e) && e.source.kind != VerificationReport && e.source.kind != Jira
  }

  ghost predicate Decides(events: seq<Event>, p: nat, resolution: Option<string>) {
    && (Newest(events, ResolvesByReport, p) ==> resolution == events[p].disposition.resolution)
    && (Nobody(events, ResolvesByReport) && Newest(events, ResolvesByTicket, p) ==>
          resolution == events[p].disposition.resolution)
    && (Nobody(events, ResolvesByReport) && Nobody(events, ResolvesByTicket) && Newest(events, ResolvesOtherwise, p) ==>
          resolution == events[p].disposition.resolution)
    && (Nobody(events, Resolves) ==> resolution == Some("open"))
  }

  lemma TiersDecide(events: seq<Event>, p: nat, resolution: string)
    requires resolution ==
      ResolutionFrom(Latest(events, AtTier(0)), Latest(events, AtTier(1)), Latest(events, AtTier(2)))
    ensures Decides(events, p, Some(resolution))
  {
    TierDecided(events, ResolvesByReport, AtTier(0), p);
    TierDecided(events, ResolvesByTicket, AtTier(1), p);
    TierDecided(events, ResolvesOtherwise, AtTier(2), p);
  }

  /** A verification report outranks a ticket, and a ticket anything else; the newest of the best
      decides, and "open" is what nobody resolved. */
  lemma ResolutionDecided(base: Validity, events: seq<Event>, generatedAt: string, p: nat)
    ensures Decides(events, p, Some(Derive(base, events, generatedAt).resolution))
  {
    LastOfSorted(events, AtTier(0));
    LastOfSorted(events, AtTier(1));
    LastOfSorted(events, AtTier(2));
    TiersDecide(events, p, DeriveResolution(Sort(events)));
  }

  lemma TierDecided(events: seq<Event>, keep: Event -> bool, chosen: Event -> bool, p: nat)
    requires forall e :: keep(e) <==> chosen(e)
    ensures Newest(events, keep, p) ==> Latest(events, chosen) == Some(events[p])
    ensures Nobody(events, keep) ==> Latest(events, chosen).None?
  {
    if Newest(events, keep, p) {
      NewestIsLatest(events, keep, chosen, p);
    }
    if Nobody(events, keep) {
      NobodyIsLatest(events, keep, chosen);
    }
  }

  predicate SetsLevel(e: Event) {
    && e.disposition.severity.Some? && e.disposition.severity != Some("")
    && !Demoted(e) && e.source.actor.kind == Human
  }

  /** What an event says about severity: its author or "?", the time it happened or else was recorded,
      and its rationale if it gave one. */
  predicate SaysLevel(e: Event, said: SeverityOverride) {
    var who := e.source.actor.identity;
    && Some(said.severity) == e.disposition.severity
    && said.author == (if who.None? || who == Some("") then "?" else who.value)
    && said.time ==
         (if e.occurredAt.None? || e.occurredAt.value.text == "" then e.recordedAt.text else e.occurredAt.value.text)
    && said.rationale == if e.rationale == "" then None else Some(e.rationale)
  }

  lemma LevelSaid(e: Event)
    requires SetsLevel(e)
    ensures SaysLevel(e, OverrideBy(e))
  {
  }

  /** The newest human severity stands. */
  lemma SeverityDecided(base: Validity, events: seq<Event>, generatedAt: string, p: nat)
    requires Newest(events, SetsLevel, p)
    ensures
      var d := Derive(base, events, generatedAt);
      d.severityOverride.Some? && SaysLevel(events[p], d.severityOverride.value)
  {
    SeverityExact(base, events, generatedAt);
    NewestIsLatest(events, SetsLevel, SetsSeverity, p);
    LevelSaid(events[p]);
  }

  lemma SeverityUnset(base: Validity, events: seq<Event>, generatedAt: string)
    requires Nobody(events, SetsLevel)
    ensures Derive(base, events, generatedAt).severityOverride.None?
  {
    SeverityExact(base, events, generatedAt);
    NobodyIsLatest(events, SetsLevel, SetsSeverity);
  }

  /** The listed ids are the events' own, by instant and then by position; the last update is the
      newest event's, or the report's when there is none. */
  lemma ListedInOrder(base: Validity, events: seq<Event>, generatedAt: string) returns (listed: seq<Event>)
    ensures multiset(listed) == multiset(events)
    ensures forall i, j :: 0 <= i < j < |listed| ==> listed[i].recordedAt.instant <= listed[j].recordedAt.instant
    ensures forall keep: Event -> bool ::
      (forall a, b :: keep(a) && keep(b) ==> a.recordedAt.instant == b.recordedAt.instant) ==>
      Filter(listed, keep) == Filter(events, keep)
    ensures
      var d := Derive(base, events, generatedAt);
      && |d.events| == |listed|
      && (forall i :: 0 <= i < |listed| ==> d.events[i] == listed[i].eventId)
      && d.lastUpdated == if events == [] then generatedAt else listed[|listed| - 1].recordedAt.text
  {
    listed := Sort(events);
    SortOrders(events);
    SortEmpty(events);
    forall keep: Event -> bool
      | forall a, b :: keep(a) && keep(b) ==> a.recordedAt.instant == b.recordedAt.instant
      ensures Filter(listed, keep) == Filter(events, keep)
    {
      FilterOfSort(events, keep);
      forall e | e in Filter(events, keep)
        ensures keep(e)
      {
        FilterKeeps(events, keep, e);
      }
      TiesStay(Filter(events, keep));
    }
  }

  /** Events of one instant are already sorted. */
  lemma {:induction false} TiesStay(s: seq<Event>)
    requires forall a, b :: a in s && b in s ==> a.recordedAt.instant == b.recordedAt.instant
    ensures Sort(s) == s
  {
    if s != [] {
      TiesStay(s[..|s| - 1]);
    }
  }
}
