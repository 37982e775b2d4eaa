/** Reading a layer: which events belong to which finding, and what each finding now is. */
module Findings {
  import opened Wrappers
  import opened Events
  import opened Layers
  import opened StableSort
  import opened DispositionEngine
  import opened TextOrder

  /** Restatements are not evidence and never reach the precedence engine. */
  predicate IsEvidence(event: Event) {
    !IsRestatement(event)
  }

  function Evidence(layer: Layer): seq<Event> {
    Filter(layer.events, IsEvidence)
  }

  /** Rebaseline mappings; a later event for the same reference supersedes an earlier one. */
  function AliasesFromEvents(events: seq<Event>): map<string, Alias> {
    if events == [] then map[]
    else
      var earlier, last := AliasesFromEvents(events[..|events| - 1]), events[|events| - 1];
      if last.alias.Some? && last.findingRef != "" then earlier[last.findingRef := last.alias.value] else earlier
  }

  function AliasesOf(layer: Layer): map<string, Alias> {
    layer.meta.findingAliases + AliasesFromEvents(Evidence(layer))
  }

  function ResolveRef(aliases: map<string, Alias>, findingRef: string): string {
    if findingRef in aliases && aliases[findingRef].confirmed then aliases[findingRef].newRef else findingRef
  }

  function Belongs(aliases: map<string, Alias>, findingRef: string): Event -> bool {
    (e: Event) => ResolveRef(aliases, e.findingRef) == findingRef
  }

  /** The evidence that belongs to a finding, in append order. */
  function EventsOf(layer: Layer, findingRef: string): seq<Event> {
    Filter(Evidence(layer), Belongs(AliasesOf(layer), findingRef))
  }

  /** Two alias tables give a finding the same events. */
  predicate SameGrouping(evidence: seq<Event>, a: map<string, Alias>, b: map<string, Alias>, findingRef: string) {
    forall e :: e in evidence ==>
      (ResolveRef(a, e.findingRef) == findingRef <==> ResolveRef(b, e.findingRef) == findingRef)
  }

  lemma {:induction false} FilterAgrees(s: seq<Event>, p: Event -> bool, q: Event -> bool)
    requires forall e :: e in s ==> p(e) == q(e)
    ensures Filter(s, p) == Filter(s, q)
  {
    if s != [] {
      assert s[|s| - 1] in s;
      FilterAgrees(s[..|s| - 1], p, q);
    }
  }

  /** The selection changes if and only if some event resolves to the finding under one table
      and not under the other. */
  lemma RegroupExact(evidence: seq<Event>, a: map<string, Alias>, b: map<string, Alias>, findingRef: string)
    ensures Filter(evidence, Belongs(a, findingRef)) == Filter(evidence, Belongs(b, findingRef))
       <==> SameGrouping(evidence, a, b, findingRef)
  {
    if SameGrouping(evidence, a, b, findingRef) {
      FilterAgrees(evidence, Belongs(a, findingRef), Belongs(b, findingRef));
    }
    if Filter(evidence, Belongs(a, findingRef)) == Filter(evidence, Belongs(b, findingRef)) {
      forall e | e in evidence
        ensures ResolveRef(a, e.findingRef) == findingRef <==> ResolveRef(b, e.findingRef) == findingRef
      {
        FilterKeeps(evidence, Belongs(a, findingRef), e);
        FilterKeeps(evidence, Belongs(b, findingRef), e);
      }
    }
  }

  function LatestFingerprint(events: seq<Event>): Option<string> {
    if events == [] then None
    else if TruthyText(events[|events| - 1].fingerprint) then events[|events| - 1].fingerprint
    else LatestFingerprint(events[..|events| - 1])
  }

  datatype FindingDisposition = FindingDisposition(
    disposition: Derived,
    eventCount: nat,
    fingerprint: Option<string>,
    orphan: Option<bool>)

  /** What a layer says of one finding.  Membership in the pinned claims is unknown, not
      false, on a layer that never pinned any. */
  function FindingOf(layer: Layer, findingRef: string, now: string): FindingDisposition {
    var events := EventsOf(layer, findingRef);
    FindingDisposition(
      Derive(NotVerified, events, now),
      |events|,
      LatestFingerprint(events),
      if layer.meta.claimHashes.Obj? then Some(findingRef !in layer.meta.claimHashes.entries) else None)
  }

  // ---------- grouping ----------

  ghost predicate GroupedAt(byFinding: map<string, seq<Event>>, share: seq<Event>, ref: string) {
    && (ref in byFinding <==> ref != "" && share != [])
    && (ref in byFinding ==> byFinding[ref] == share)
  }

  /** The map holds the evidence of every reference that has any, and no other. */
  ghost predicate Groups(byFinding: map<string, seq<Event>>, evidence: seq<Event>, aliases: map<string, Alias>) {
    forall ref :: GroupedAt(byFinding, Filter(evidence, Belongs(aliases, ref)), ref)
  }

  function Grouped(byFinding: map<string, seq<Event>>, ref: string, e: Event): map<string, seq<Event>> {
    if ref == "" then byFinding
    else byFinding[ref := (if ref in byFinding then byFinding[ref] else []) + [e]]
  }

  lemma GroupedSnoc(byFinding: map<string, seq<Event>>, share: seq<Event>, to: string, e: Event, ref: string)
    requires GroupedAt(byFinding, share, ref)
    ensures GroupedAt(Grouped(byFinding, to, e), share + (if to == ref then [e] else []), ref)
  {
  }

  lemma GroupsSnoc(byFinding: map<string, seq<Event>>, evidence: seq<Event>, e: Event, aliases: map<string, Alias>)
    requires Groups(byFinding, evidence, aliases)
    ensures Groups(Grouped(byFinding, ResolveRef(aliases, e.findingRef), e), evidence + [e], aliases)
  {
    var to := ResolveRef(aliases, e.findingRef);
    forall ref
      ensures GroupedAt(Grouped(byFinding, to, e), Filter(evidence + [e], Belongs(aliases, ref)), ref)
    {
      FilterSnoc(evidence, e, Belongs(aliases, ref));
      GroupedSnoc(byFinding, Filter(evidence, Belongs(aliases, ref)), to, e, ref);
    }
  }

  /** `by_finding`: the evidence grouped by resolved reference. */
  method GroupByFinding(evidence: seq<Event>, aliases: map<string, Alias>) returns (byFinding: map<string, seq<Event>>)
    ensures Groups(byFinding, evidence, aliases)
  {
    byFinding := map[];
    for i := 0 to |evidence|
      invariant Groups(byFinding, evidence[..i], aliases)
    {
      assert evidence[..i + 1] == evidence[..i] + [evidence[i]];
      GroupsSnoc(byFinding, evidence[..i], evidence[i], aliases);
      var ref := ResolveRef(aliases, evidence[i].findingRef);
      if ref != "" {
        byFinding := byFinding[ref := (if ref in byFinding then byFinding[ref] else []) + [evidence[i]]];
      }
    }
    assert evidence[..|evidence|] == evidence;
  }

  // ---------- the listing ----------

  datatype FindingEntry = FindingEntry(findingRef: string, finding: FindingDisposition)

  /** The references evidence resolves to; an empty one is no finding. */
  function ResolvedRefs(evidence: seq<Event>, aliases: map<string, Alias>): seq<string> {
    if evidence == [] then []
    else
      var ref := ResolveRef(aliases, evidence[|evidence| - 1].findingRef);
      ResolvedRefs(evidence[..|evidence| - 1], aliases) + if ref == "" then [] else [ref]
  }

  lemma {:induction false} ResolvedRefsExact(evidence: seq<Event>, aliases: map<string, Alias>, ref: string)
    ensures ref in ResolvedRefs(evidence, aliases) <==> ref != "" && Filter(evidence, Belongs(aliases, ref)) != []
  {
    if evidence != [] {
      ResolvedRefsExact(evidence[..|evidence| - 1], aliases, ref);
    }
  }

  /** The findings a layer speaks of, in order. */
  function FindingRefs(layer: Layer): seq<string> {
    SortedSet(ResolvedRefs(Evidence(layer), AliasesOf(layer)))
  }

  function EntryOf(layer: Layer, ref: string, now: string): FindingEntry {
    FindingEntry(ref, FindingOf(layer, ref, now))
  }

  function EntriesFor(layer: Layer, refs: seq<string>, now: string): (entries: seq<FindingEntry>)
    ensures |entries| == |refs|
  {
    seq(|refs|, i requires 0 <= i < |refs| => EntryOf(layer, refs[i], now))
  }

  lemma EntriesSnoc(layer: Layer, refs: seq<string>, ref: string, now: string)
    ensures EntriesFor(layer, refs + [ref], now) == EntriesFor(layer, refs, now) + [EntryOf(layer, ref, now)]
  {
  }

  function FindingsOf(layer: Layer, now: string): seq<FindingEntry> {
    EntriesFor(layer, FindingRefs(layer), now)
  }

  /** One finding for every reference with evidence and no other, in order. */
  lemma FindingRefsExact(layer: Layer)
    ensures Increasing(FindingRefs(layer))
    ensures forall ref :: ref in FindingRefs(layer) <==> ref != "" && EventsOf(layer, ref) != []
  {
    SortedSetExact(ResolvedRefs(Evidence(layer), AliasesOf(layer)));
    forall ref
      ensures ref in FindingRefs(layer) <==> ref != "" && EventsOf(layer, ref) != []
    {
      ResolvedRefsExact(Evidence(layer), AliasesOf(layer), ref);
    }
  }

  /** The entry at each place is what the layer says of the finding at that place. */
  lemma FindingsExact(layer: Layer, now: string, i: nat)
    requires i < |FindingRefs(layer)|
    ensures |FindingsOf(layer, now)| == |FindingRefs(layer)|
    ensures
      var ref := FindingRefs(layer)[i];
      EventsOf(layer, ref) != [] && FindingsOf(layer, now)[i] == EntryOf(layer, ref, now)
  {
    FindingRefsExact(layer);
    assert FindingRefs(layer)[i] in FindingRefs(layer);
  }

  /** The clock is read and never used: what a layer says depends on the layer alone. */
  lemma FindingsIgnoreClock(layer: Layer, a: string, b: string)
    ensures FindingsOf(layer, a) == FindingsOf(layer, b)
  {
    FindingRefsExact(layer);
    EntriesIgnoreClock(layer, FindingRefs(layer), a, b);
  }

  lemma EntriesIgnoreClock(layer: Layer, refs: seq<string>, a: string, b: string)
    requires forall ref :: ref in refs ==> EventsOf(layer, ref) != []
    ensures EntriesFor(layer, refs, a) == EntriesFor(layer, refs, b)
  {
    forall i | 0 <= i < |refs|
      ensures EntryOf(layer, refs[i], a) == EntryOf(layer, refs[i], b)
    {
      assert refs[i] in refs;
      DeriveIgnoresClock(EventsOf(layer, refs[i]), a, b);
    }
  }

  lemma DeriveIgnoresClock(events: seq<Event>, a: string, b: string)
    requires events != []
    ensures Derive(NotVerified, events, a) == Derive(NotVerified, events, b)
  {
    SortEmpty(events);
  }

  // ---------- the counters ----------

  /** Two counters, as `Counter` keeps them: a key that never occurred is absent. */
  datatype Summary = Summary(byValidity: map<Validity, nat>, byResolution: map<string, nat>)

  function Tally<K>(counts: map<K, nat>, key: K): nat {
    if key in counts then counts[key] else 0
  }

  function Bump<K>(counts: map<K, nat>, key: K): map<K, nat> {
    counts[key := Tally(counts, key) + 1]
  }

  function Counted<K>(labels: seq<K>): map<K, nat> {
    if labels == [] then map[] else Bump(Counted(labels[..|labels| - 1]), labels[|labels| - 1])
  }

  lemma BumpTally<K>(counts: map<K, nat>, seen: K, key: K)
    ensures Tally(Bump(counts, seen), key) == Tally(counts, key) + if key == seen then 1 else 0
  {
  }

  /** A counter holds how often each label occurs, and no label that does not. */
  lemma {:induction false} CountedExact<K>(labels: seq<K>, key: K)
    ensures Tally(Counted(labels), key) == multiset(labels)[key]
    ensures key in Counted(labels) <==> key in labels
  {
    if labels != [] {
      var init, last := labels[..|labels| - 1], labels[|labels| - 1];
      assert labels == init + [last];
      CountedExact(init, key);
      assert multiset(labels) == multiset(init) + multiset{last};
      BumpTally(Counted(init), last, key);
    }
  }

  /** Every finding is counted once. */
  lemma {:induction false} CountsAddUp(labels: seq<Validity>)
    ensures
      var counts := Counted(labels);
      Tally(counts, Confirmed) + Tally(counts, FalsePositive) + Tally(counts, Corrected)
      + Tally(counts, Hardening) + Tally(counts, NotVerified) == |labels|
  {
    if labels != [] {
      var init, last := labels[..|labels| - 1], labels[|labels| - 1];
      CountsAddUp(init);
      forall key: Validity
        ensures Tally(Counted(labels), key) == Tally(Counted(init), key) + if key == last then 1 else 0
      {
        BumpTally(Counted(init), last, key);
      }
    }
  }

  function Validities(findings: seq<FindingEntry>): (labels: seq<Validity>)
    ensures |labels| == |findings|
  {
    seq(|findings|, i requires 0 <= i < |findings| => findings[i].finding.disposition.validity)
  }

  function Resolutions(findings: seq<FindingEntry>): (labels: seq<string>)
    ensures |labels| == |findings|
  {
    seq(|findings|, i requires 0 <= i < |findings| => findings[i].finding.disposition.resolution)
  }

  function SummaryOf(findings: seq<FindingEntry>): Summary {
    Summary(Counted(Validities(findings)), Counted(Resolutions(findings)))
  }

  method Summarize(findings: seq<FindingEntry>) returns (summary: Summary)
    ensures summary == SummaryOf(findings)
  {
    var byValidity := CountLabels(Validities(findings));
    var byResolution := CountLabels(Resolutions(findings));
    return Summary(byValidity, byResolution);
  }

  /** `Counter` over an iterable. */
  method CountLabels<K(==)>(labels: seq<K>) returns (counts: map<K, nat>)
    ensures counts == Counted(labels)
  {
    counts := map[];
    for i := 0 to |labels|
      invariant counts == Counted(labels[..i])
    {
      assert labels[..i + 1][..i] == labels[..i];
      counts := Bump(counts, labels[i]);
    }
    assert labels[..|labels|] == labels;
  }

  // ---------- resolving a layer ----------

  /** The keys of the grouping, in order. */
  method SortRefs(refs: set<string>) returns (sorted: seq<string>)
    ensures Increasing(sorted)
    ensures forall ref :: ref in sorted <==> ref in refs
  {
    sorted := [];
    var todo := refs;
    while todo != {}
      invariant todo <= refs
      invariant Increasing(sorted)
      invariant forall ref :: ref in sorted <==> ref in refs - todo
      decreases todo
    {
      var ref :| ref in todo;
      MemberKeeps(sorted, ref);
      sorted := Member(sorted, ref);
      todo := todo - {ref};
    }
  }

  /** `resolve_layer_findings`: group, sort, derive, count. */
  method ResolveLayerFindings(layer: Layer, now: string) returns (findings: seq<FindingEntry>, summary: Summary)
    ensures findings == FindingsOf(layer, now) && summary == SummaryOf(findings)
  {
    var byFinding := GroupByFinding(Evidence(layer), AliasesOf(layer));
    var refs := SortRefs(byFinding.Keys);
    GroupingListsFindings(layer, byFinding, refs);
    findings := ListFindings(layer, refs, byFinding, now);
    summary := Summarize(findings);
  }

  lemma GroupingListsFindings(layer: Layer, byFinding: map<string, seq<Event>>, refs: seq<string>)
    requires Groups(byFinding, Evidence(layer), AliasesOf(layer))
    requires Increasing(refs) && forall ref :: ref in refs <==> ref in byFinding
    ensures refs == FindingRefs(layer)
    ensures forall ref :: ref in refs ==> ref in byFinding && byFinding[ref] == EventsOf(layer, ref)
  {
    FindingRefsExact(layer);
    forall ref
      ensures ref in refs <==> ref in FindingRefs(layer)
      ensures ref in refs ==> byFinding[ref] == EventsOf(layer, ref)
    {
      assert GroupedAt(byFinding, Filter(Evidence(layer), Belongs(AliasesOf(layer), ref)), ref);
    }
    IncreasingUnique(refs, FindingRefs(layer));
  }

  method ListFindings(layer: Layer, refs: seq<string>, byFinding: map<string, seq<Event>>, now: string)
    returns (findings: seq<FindingEntry>)
    requires forall ref :: ref in refs ==> ref in byFinding && byFinding[ref] == EventsOf(layer, ref)
    ensures findings == EntriesFor(layer, refs, now)
  {
    findings := [];
    for i := 0 to |refs|
      invariant findings == EntriesFor(layer, refs[..i], now)
    {
      assert refs[..i + 1] == refs[..i] + [refs[i]] && refs[i] in refs;
      EntriesSnoc(layer, refs[..i], refs[i], now);
      var entry := EntryFor(layer, refs[i], byFinding[refs[i]], now);
      findings := findings + [entry];
    }
    assert refs[..|refs|] == refs;
  }

  method EntryFor(layer: Layer, ref: string, events: seq<Event>, now: string) returns (entry: FindingEntry)
    requires events == EventsOf(layer, ref)
    ensures entry == EntryOf(layer, ref, now)
  {
    var orphan := if layer.meta.claimHashes.Obj? then Some(ref !in layer.meta.claimHashes.entries) else None;
    var finding := FindingDisposition(Derive(NotVerified, events, now), |events|, LatestFingerprint(events), orphan);
    return FindingEntry(ref, finding);
  }

  /** A restatement appended anywhere in the log changes nothing any finding says. */
  lemma RestatementsAreInvisible(meta: Metadata, queue: seq<ReviewItem>, a: seq<Event>, r: Event, b: seq<Event>,
      findingRef: string, now: string)
    requires IsRestatement(r)
    ensures FindingOf(Layer(a + [r] + b, meta, queue), findingRef, now)
        == FindingOf(Layer(a + b, meta, queue), findingRef, now)
  {
    FilterIgnores(a, r, b, IsEvidence);
  }
}
