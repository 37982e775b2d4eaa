/** What a reader is told of one finding, in terms of the stored events and the alias table alone. */
module FindingReads {
  import opened Wrappers
  import opened Events
  import opened Layers
  import opened StableSort
  import opened DispositionEngine
  import opened TextOrder
  import opened Findings
  import opened Pagination

  // ---------- which events belong ----------

  /** A rebaseline of `ref`, recorded by an event that is not a restatement. */
  predicate Rebaselines(e: Event, ref: string) {
    e.findingRef == ref && ref != "" && e.alias.Some? && !(e.restatement.Some? && e.source.kind == RestatementSource)
  }

  predicate LastRebaseline(events: seq<Event>, ref: string, i: nat) {
    && i < |events| && Rebaselines(events[i], ref)
    && forall j :: i < j < |events| ==> !Rebaselines(events[j], ref)
  }

  /** The mapping in force: the last one an event recorded, else the one in the metadata. */
  ghost predicate Maps(layer: Layer, ref: string, alias: Option<Alias>) {
    || (exists i: nat :: LastRebaseline(layer.events, ref, i) && layer.events[i].alias == alias)
    || (&& (forall e :: e in layer.events ==> !Rebaselines(e, ref))
        && alias == if ref in layer.meta.findingAliases then Some(layer.meta.findingAliases[ref]) else None)
  }

  function AliasIn(aliases: map<string, Alias>, ref: string): Option<Alias> {
    if ref in aliases then Some(aliases[ref]) else None
  }

  lemma {:induction false} AliasesExact(events: seq<Event>, stored: map<string, Alias>, queue: seq<ReviewItem>,
      meta: Metadata, ref: string)
    requires stored == meta.findingAliases
    ensures Maps(Layer(events, meta, queue), ref, AliasIn(stored + AliasesFromEvents(Filter(events, IsEvidence)), ref))
  {
    if events != [] {
      var init, last := events[..|events| - 1], events[|events| - 1];
      AliasesExact(init, stored, queue, meta, ref);
      assert events == init + [last];
      FilterSnoc(init, last, IsEvidence);
      AliasSnoc(Filter(init, IsEvidence), last, stored, ref);
      MapsSnoc(init, last, meta, queue, ref, AliasIn(stored + AliasesFromEvents(Filter(init, IsEvidence)), ref));
    }
  }

  lemma AliasSnoc(earlier: seq<Event>, last: Event, stored: map<string, Alias>, ref: string)
    ensures AliasIn(stored + AliasesFromEvents(earlier + if IsEvidence(last) then [last] else []), ref) ==
      if Rebaselines(last, ref) then last.alias else AliasIn(stored + AliasesFromEvents(earlier), ref)
  {
    assert (earlier + [last])[..|earlier|] == earlier && earlier + [] == earlier;
  }

  lemma MapsSnoc(init: seq<Event>, last: Event, meta: Metadata, queue: seq<ReviewItem>, ref: string,
      alias: Option<Alias>)
    requires Maps(Layer(init, meta, queue), ref, alias)
    ensures Maps(Layer(init + [last], meta, queue), ref, if Rebaselines(last, ref) then last.alias else alias)
  {
    var events := init + [last];
    assert forall j :: 0 <= j < |init| ==> events[j] == init[j];
    if Rebaselines(last, ref) {
      assert LastRebaseline(events, ref, |init|);
    } else if i: nat :| LastRebaseline(init, ref, i) && init[i].alias == alias {
      assert LastRebaseline(events, ref, i);
    }
  }

  /** The finding an event speaks of: the successor of its reference under a confirmed mapping, and
      otherwise the reference itself. */
  ghost predicate SpeaksOf(layer: Layer, e: Event, findingRef: string) {
    || (exists alias :: Maps(layer, e.findingRef, Some(alias)) && alias.confirmed && findingRef == alias.newRef)
    || (exists alias :: Maps(layer, e.findingRef, Some(alias)) && !alias.confirmed && findingRef == e.findingRef)
    || (Maps(layer, e.findingRef, None) && findingRef == e.findingRef)
  }

  lemma MapsOnce(layer: Layer, ref: string, a: Option<Alias>, b: Option<Alias>)
    requires Maps(layer, ref, a) && Maps(layer, ref, b)
    ensures a == b
  {
    assert forall i: nat :: LastRebaseline(layer.events, ref, i) ==> layer.events[i] in layer.events;
    assert forall i: nat, j: nat ::
      LastRebaseline(layer.events, ref, i) && LastRebaseline(layer.events, ref, j) ==> i == j;
  }

  lemma ResolveExact(layer: Layer, e: Event, findingRef: string)
    ensures ResolveRef(AliasesOf(layer), e.findingRef) == findingRef <==> SpeaksOf(layer, e, findingRef)
  {
    var found := AliasIn(AliasesOf(layer), e.findingRef);
    AliasesExact(layer.events, layer.meta.findingAliases, layer.queue, layer.meta, e.findingRef);
    assert Layer(layer.events, layer.meta, layer.queue) == layer;
    assert Maps(layer, e.findingRef, found);
    if alias :| Maps(layer, e.findingRef, Some(alias)) {
      MapsOnce(layer, e.findingRef, found, Some(alias));
    }
    if Maps(layer, e.findingRef, None) {
      MapsOnce(layer, e.findingRef, found, None);
    }
  }

  /** The events of a finding are those that speak of it and are not restatements; what one of them
      says about another finding is never counted. */
  lemma EventsOfExact(layer: Layer, findingRef: string, e: Event)
    ensures e in EventsOf(layer, findingRef) <==>
      && e in layer.events && !(e.restatement.Some? && e.source.kind == RestatementSource)
      && SpeaksOf(layer, e, findingRef)
  {
    FilterKeeps(Evidence(layer), Belongs(AliasesOf(layer), findingRef), e);
    FilterKeeps(layer.events, IsEvidence, e);
    ResolveExact(layer, e, findingRef);
  }

  // ---------- what is said ----------

  predicate LastPrint(events: seq<Event>, i: nat) {
    && i < |events| && events[i].fingerprint.Some? && events[i].fingerprint != Some("")
    && forall j :: i < j < |events| ==> events[j].fingerprint.None? || events[j].fingerprint == Some("")
  }

  lemma {:induction false} LatestFingerprintExact(events: seq<Event>)
    ensures LatestFingerprint(events).Some? ==>
      exists i: nat :: LastPrint(events, i) && events[i].fingerprint == LatestFingerprint(events)
    ensures LatestFingerprint(events).None? ==>
      forall e :: e in events ==> e.fingerprint.None? || e.fingerprint == Some("")
  {
    if events != [] {
      var init, last := events[..|events| - 1], events[|events| - 1];
      LatestFingerprintExact(init);
      assert events == init + [last];
      if TruthyText(last.fingerprint) {
        assert LastPrint(events, |init|);
      } else if LatestFingerprint(init).Some? {
        var i: nat :| LastPrint(init, i) && init[i].fingerprint == LatestFingerprint(init);
        assert LastPrint(events, i);
      }
    }
  }

  /** A finding is what its events derive to from an unverified report, how many they are, the last
      fingerprint among them, and whether the pinned claims leave it out, if any are pinned. */
  lemma FindingExact(layer: Layer, findingRef: string, now: string)
    ensures
      var told, events := FindingOf(layer, findingRef, now), EventsOf(layer, findingRef);
      && told.disposition == Derive(NotVerified, events, now) && told.eventCount == |events|
      && (told.fingerprint.Some? ==> exists i: nat :: LastPrint(events, i) && events[i].fingerprint == told.fingerprint)
      && (told.fingerprint.None? ==> forall e :: e in events ==> e.fingerprint.None? || e.fingerprint == Some(""))
      && (told.orphan == Some(true) <==>
            layer.meta.claimHashes.Obj? && findingRef !in layer.meta.claimHashes.entries)
      && (told.orphan == Some(false) <==>
            layer.meta.claimHashes.Obj? && findingRef in layer.meta.claimHashes.entries)
  {
    LatestFingerprintExact(EventsOf(layer, findingRef));
  }

  // ---------- a listed layer ----------

  /** A report on a stored layer carries its root, its epoch, every finding and their counts; an id
      that is not stored reads as an empty layer. */
  lemma ReportExact(listing: Listing, id: string, now: string)
    ensures
      var report := ReportOf(listing, id, now);
      && report.layerId == id
      && (id in listing.layers ==>
            && report.merkleRoot == listing.layers[id].meta.merkleRoot
            && report.merkleEpoch == listing.layers[id].meta.merkleEpoch
            && report.findings == FindingsOf(listing.layers[id], now))
      && (id !in listing.layers ==>
            report.merkleRoot.None? && report.merkleEpoch.None? && report.findings == [])
      && report.summary == SummaryOf(report.findings)
  {
    assert SortedSet([]) == [];
  }

  /** Where a label stands. */
  function Places<K(==)>(labels: seq<K>, key: K): set<int> {
    set i | 0 <= i < |labels| && labels[i] == key
  }

  lemma {:induction false} OccurrencesExact<K>(labels: seq<K>, key: K)
    ensures Tally(Counted(labels), key) == |Places(labels, key)|
  {
    if labels != [] {
      var n := |labels| - 1;
      var init, last := labels[..n], labels[n];
      OccurrencesExact(init, key);
      BumpTally(Counted(init), last, key);
      assert labels == init + [last];
      assert Places(labels, key) == if last == key then Places(init, key) + {n} else Places(init, key);
    }
  }

  function WithValidity(findings: seq<FindingEntry>, validity: Validity): set<int> {
    set i | 0 <= i < |findings| && findings[i].finding.disposition.validity == validity
  }

  function WithResolution(findings: seq<FindingEntry>, resolution: string): set<int> {
    set i | 0 <= i < |findings| && findings[i].finding.disposition.resolution == resolution
  }

  /** Each counter says how many findings have the validity, or the resolution. */
  lemma SummaryExact(findings: seq<FindingEntry>, validity: Validity, resolution: string)
    ensures Tally(SummaryOf(findings).byValidity, validity) == |WithValidity(findings, validity)|
    ensures Tally(SummaryOf(findings).byResolution, resolution) == |WithResolution(findings, resolution)|
  {
    OccurrencesExact(Validities(findings), validity);
    OccurrencesExact(Resolutions(findings), resolution);
    assert Places(Validities(findings), validity) == WithValidity(findings, validity);
    assert Places(Resolutions(findings), resolution) == WithResolution(findings, resolution);
  }
}
