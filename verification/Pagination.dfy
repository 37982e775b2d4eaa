/** Cursor pagination over the layers that qualify for an incremental read. */
module Pagination {
  import opened Wrappers
  import opened Events
  import opened Merkle
  import opened Layers
  import opened Findings

  /** No recorded epoch means the layer may have changed. */
  predicate HasEventsSince(meta: Metadata, sinceEpoch: int) {
    meta.merkleEpoch.None? || meta.merkleEpoch.value >= sinceEpoch
  }

  /** The store at one moment: ids in sorted order, and the layers. */
  datatype Listing = Listing(ids: seq<string>, layers: map<string, Layer>)

  const EmptyLayer := Layer([], Metadata(None, None, None, None, None, None, None, None, None,
                                         Null, Null, Null, map[], None), [])

  /** `load`: an id with no stored layer reads as an empty one. */
  function Loaded(listing: Listing, id: string): Layer {
    if id in listing.layers then listing.layers[id] else EmptyLayer
  }

  /** Ids are listed once and are never empty. */
  predicate ValidListing(listing: Listing) {
    Distinct(listing.ids) && "" !in listing.ids
  }

  predicate Distinct(ids: seq<string>) {
    forall i, j :: 0 <= i < j < |ids| ==> ids[i] != ids[j]
  }

  predicate Qualifies(listing: Listing, sinceEpoch: Option<int>, id: string) {
    sinceEpoch.Some? ==> HasEventsSince(Loaded(listing, id).meta, sinceEpoch.value)
  }

  /** The qualifying ids, in order. */
  function Qualifying(listing: Listing, sinceEpoch: Option<int>, ids: seq<string>): seq<string> {
    if ids == [] then []
    else
      var last := ids[|ids| - 1];
      Qualifying(listing, sinceEpoch, ids[..|ids| - 1]) + if Qualifies(listing, sinceEpoch, last) then [last] else []
  }

  lemma {:induction false} QualifyingOfConcat(listing: Listing, sinceEpoch: Option<int>, a: seq<string>, b: seq<string>)
    ensures Qualifying(listing, sinceEpoch, a + b)
         == Qualifying(listing, sinceEpoch, a) + Qualifying(listing, sinceEpoch, b)
    decreases |b|
  {
    if b == [] {
      assert a + b == a;
    } else {
      assert (a + b)[..|a + b| - 1] == a + b[..|b| - 1];
      QualifyingOfConcat(listing, sinceEpoch, a, b[..|b| - 1]);
    }
  }

  lemma {:induction false} QualifyingIsShort(listing: Listing, sinceEpoch: Option<int>, ids: seq<string>)
    ensures |Qualifying(listing, sinceEpoch, ids)| <= |ids|
    ensures |Qualifying(listing, sinceEpoch, ids)| == |ids| ==> Qualifying(listing, sinceEpoch, ids) == ids
  {
    if ids != [] {
      QualifyingIsShort(listing, sinceEpoch, ids[..|ids| - 1]);
      assert ids == ids[..|ids| - 1] + [ids[|ids| - 1]];
    }
  }

  /** Without a horizon every listed layer qualifies; with one, a layer whose recorded epoch reached
      it, and one that records no epoch or is not stored. */
  lemma {:induction false} QualifyingExact(listing: Listing, sinceEpoch: Option<int>, ids: seq<string>, id: string)
    ensures id in Qualifying(listing, sinceEpoch, ids) <==>
      && id in ids
      && (|| sinceEpoch.None? || id !in listing.layers || listing.layers[id].meta.merkleEpoch.None?
          || listing.layers[id].meta.merkleEpoch.value >= sinceEpoch.value)
  {
    if ids != [] {
      QualifyingExact(listing, sinceEpoch, ids[..|ids| - 1], id);
      assert ids == ids[..|ids| - 1] + [ids[|ids| - 1]];
    }
  }

  /** The first position of `id` from `start` on, or the length. */
  function IndexOf(ids: seq<string>, id: string, start: nat): (i: nat)
    requires start <= |ids|
    ensures start <= i <= |ids| && (i < |ids| ==> ids[i] == id)
    ensures forall j :: start <= j < i ==> ids[j] != id
    decreases |ids| - start
  {
    if start == |ids| || ids[start] == id then start else IndexOf(ids, id, start + 1)
  }

  /** The ids after a cursor; no cursor, an empty one or an unknown one starts over. */
  function After(ids: seq<string>, cursor: Option<string>): seq<string> {
    if cursor.None? || cursor.value == "" then ids
    else
      var i := IndexOf(ids, cursor.value, 0);
      if i == |ids| then ids else ids[i + 1..]
  }

  // ---------- what a page reports ----------

  datatype LayerFindings = LayerFindings(
    layerId: string,
    merkleRoot: Option<Digest>,
    merkleEpoch: Option<int>,
    findings: seq<FindingEntry>,
    summary: Summary)

  function ReportOf(listing: Listing, id: string, now: string): LayerFindings {
    var layer := Loaded(listing, id);
    var findings := FindingsOf(layer, now);
    LayerFindings(id, layer.meta.merkleRoot, layer.meta.merkleEpoch, findings, SummaryOf(findings))
  }

  function ReportsOf(listing: Listing, ids: seq<string>, now: string): (reports: seq<LayerFindings>)
    ensures |reports| == |ids|
  {
    seq(|ids|, i requires 0 <= i < |ids| => ReportOf(listing, ids[i], now))
  }

  lemma ReportsOfConcat(listing: Listing, a: seq<string>, b: seq<string>, now: string)
    ensures ReportsOf(listing, a + b, now) == ReportsOf(listing, a, now) + ReportsOf(listing, b, now)
  {
  }

  function TotalOf(reports: seq<LayerFindings>): nat {
    if reports == [] then 0 else TotalOf(reports[..|reports| - 1]) + |reports[|reports| - 1].findings|
  }

  lemma {:induction false} TotalOfConcat(a: seq<LayerFindings>, b: seq<LayerFindings>)
    ensures TotalOf(a + b) == TotalOf(a) + TotalOf(b)
    decreases |b|
  {
    if b == [] {
      assert a + b == a;
    } else {
      assert (a + b)[..|a + b| - 1] == a + b[..|b| - 1];
      TotalOfConcat(a, b[..|b| - 1]);
    }
  }

  /** Reports on exactly these layers, and the number of findings in them. */
  ghost predicate Fetched(listing: Listing, ids: seq<string>, now: string, layers: seq<LayerFindings>, total: nat) {
    layers == ReportsOf(listing, ids, now) && total == TotalOf(layers)
  }

  lemma FetchedConcat(listing: Listing, now: string, a: seq<string>, reportsA: seq<LayerFindings>, totalA: nat,
      b: seq<string>, reportsB: seq<LayerFindings>, totalB: nat)
    requires Fetched(listing, a, now, reportsA, totalA) && Fetched(listing, b, now, reportsB, totalB)
    ensures Fetched(listing, a + b, now, reportsA + reportsB, totalA + totalB)
  {
    ReportsOfConcat(listing, a, b, now);
    TotalOfConcat(reportsA, reportsB);
  }

  lemma FetchedOne(listing: Listing, id: string, now: string, report: LayerFindings)
    requires report == ReportOf(listing, id, now)
    ensures Fetched(listing, [id], now, [report], |report.findings|)
  {
    assert [report][..0] == [];
  }

  datatype Page = Page(layers: seq<LayerFindings>, totalFindings: nat, nextCursor: Option<string>, hasMore: bool)

  /** The first `limit` of a sequence, none if the limit is not positive. */
  function FirstOf(all: seq<string>, limit: int): seq<string> {
    if limit <= 0 then [] else if |all| <= limit then all else all[..limit]
  }

  /** The ids a page reports on: the first `limit` that qualify after the cursor. */
  function PageIds(listing: Listing, cursor: Option<string>, limit: int, sinceEpoch: Option<int>): seq<string> {
    FirstOf(Qualifying(listing, sinceEpoch, After(listing.ids, cursor)), limit)
  }

  /** A page: a report on each of those layers and the number of findings in them all.  `hasMore`
      compares the count with the unfiltered remainder. */
  ghost predicate IsPage(
    listing: Listing, cursor: Option<string>, limit: int, sinceEpoch: Option<int>, now: string, page: Page)
  {
    var ids, rest := PageIds(listing, cursor, limit, sinceEpoch), After(listing.ids, cursor);
    && Fetched(listing, ids, now, page.layers, page.totalFindings)
    && page.hasMore == (|ids| == limit && |ids| < |rest|)
    && page.nextCursor == if page.hasMore && ids != [] then Some(ids[|ids| - 1]) else None
  }

  /** The scan has read `i` ids and reported on those that qualify. */
  ghost predicate ScannedTo(listing: Listing, rest: seq<string>, sinceEpoch: Option<int>, now: string, i: nat,
      layers: seq<LayerFindings>, total: nat)
    requires i <= |rest|
  {
    Fetched(listing, Qualifying(listing, sinceEpoch, rest[..i]), now, layers, total)
  }

  lemma ScanStarts(listing: Listing, rest: seq<string>, sinceEpoch: Option<int>, now: string)
    ensures ScannedTo(listing, rest, sinceEpoch, now, 0, [], 0)
  {
    assert rest[..0] == [];
  }

  lemma ScanSkips(listing: Listing, rest: seq<string>, sinceEpoch: Option<int>, now: string, i: nat,
      layers: seq<LayerFindings>, total: nat)
    requires i < |rest| && ScannedTo(listing, rest, sinceEpoch, now, i, layers, total)
    requires !Qualifies(listing, sinceEpoch, rest[i])
    ensures ScannedTo(listing, rest, sinceEpoch, now, i + 1, layers, total)
  {
    assert rest[..i + 1][..i] == rest[..i];
  }

  lemma ScanTakes(listing: Listing, rest: seq<string>, sinceEpoch: Option<int>, now: string, i: nat,
      layers: seq<LayerFindings>, total: nat, report: LayerFindings)
    requires i < |rest| && ScannedTo(listing, rest, sinceEpoch, now, i, layers, total)
    requires Qualifies(listing, sinceEpoch, rest[i])
    requires report == ReportOf(listing, rest[i], now)
    ensures ScannedTo(listing, rest, sinceEpoch, now, i + 1, layers + [report], total + |report.findings|)
  {
    assert rest[..i + 1][..i] == rest[..i];
    FetchedOne(listing, rest[i], now, report);
    FetchedConcat(listing, now, Qualifying(listing, sinceEpoch, rest[..i]), layers, total,
                  [rest[i]], [report], |report.findings|);
  }

  /** One turn of the scan: report on the next id if it qualifies. */
  method ScanOne(listing: Listing, rest: seq<string>, sinceEpoch: Option<int>, now: string, i: nat,
      layers: seq<LayerFindings>, total: nat) returns (reported: seq<LayerFindings>, counted: nat)
    requires i < |rest| && ScannedTo(listing, rest, sinceEpoch, now, i, layers, total)
    ensures ScannedTo(listing, rest, sinceEpoch, now, i + 1, reported, counted)
    ensures |reported| <= |layers| + 1
  {
    if Qualifies(listing, sinceEpoch, rest[i]) {
      var report := Report(listing, rest[i], now);
      ScanTakes(listing, rest, sinceEpoch, now, i, layers, total, report);
      return layers + [report], total + |report.findings|;
    }
    ScanSkips(listing, rest, sinceEpoch, now, i, layers, total);
    return layers, total;
  }

  /** The scan: skip what does not qualify, stop once `limit` layers are in. */
  method ScanPage(listing: Listing, rest: seq<string>, limit: int, sinceEpoch: Option<int>, now: string)
    returns (layers: seq<LayerFindings>, total: nat)
    ensures Fetched(listing, FirstOf(Qualifying(listing, sinceEpoch, rest), limit), now, layers, total)
  {
    layers, total := [], 0;
    ScanStarts(listing, rest, sinceEpoch, now);
    var i := 0;
    while i < |rest| && |layers| < limit
      invariant 0 <= i <= |rest|
      invariant ScannedTo(listing, rest, sinceEpoch, now, i, layers, total)
      invariant |layers| <= limit || |layers| == 0
    {
      layers, total := ScanOne(listing, rest, sinceEpoch, now, i, layers, total);
      i := i + 1;
    }
    ScanStops(listing, rest, limit, sinceEpoch, now, i, layers, total);
  }

  lemma ScanStops(listing: Listing, rest: seq<string>, limit: int, sinceEpoch: Option<int>, now: string, i: nat,
      layers: seq<LayerFindings>, total: nat)
    requires i <= |rest| && ScannedTo(listing, rest, sinceEpoch, now, i, layers, total)
    requires (i == |rest| || |layers| >= limit) && (|layers| <= limit || |layers| == 0)
    ensures Fetched(listing, FirstOf(Qualifying(listing, sinceEpoch, rest), limit), now, layers, total)
  {
    assert rest == rest[..i] + rest[i..];
    QualifyingOfConcat(listing, sinceEpoch, rest[..i], rest[i..]);
    assert Qualifying(listing, sinceEpoch, rest[..i]) == FirstOf(Qualifying(listing, sinceEpoch, rest), limit);
  }

  method Report(listing: Listing, id: string, now: string) returns (report: LayerFindings)
    ensures report == ReportOf(listing, id, now)
  {
    var layer := Loaded(listing, id);
    var findings, summary := ResolveLayerFindings(layer, now);
    report := LayerFindings(id, layer.meta.merkleRoot, layer.meta.merkleEpoch, findings, summary);
  }

  /** `resolve_all_findings`, one page. */
  method ResolvePage(listing: Listing, cursor: Option<string>, limit: int, sinceEpoch: Option<int>, now: string)
    returns (page: Page)
    requires ValidListing(listing)
    ensures IsPage(listing, cursor, limit, sinceEpoch, now, page)
  {
    var rest := After(listing.ids, cursor);
    var layers, total := ScanPage(listing, rest, limit, sinceEpoch, now);
    var hasMore := |layers| == limit && |layers| < |rest|;
    var nextCursor := if hasMore && layers != [] then Some(layers[|layers| - 1].layerId) else None;
    page := Page(layers, total, nextCursor, hasMore);
  }

  /** The last of the first `limit` qualifying ids splits the remainder after itself. */
  lemma {:induction false} SplitAtLast(listing: Listing, sinceEpoch: Option<int>, rest: seq<string>, limit: int)
      returns (k: nat)
    requires 1 <= limit <= |Qualifying(listing, sinceEpoch, rest)|
    ensures 1 <= k <= |rest|
    ensures Qualifying(listing, sinceEpoch, rest[..k]) == Qualifying(listing, sinceEpoch, rest)[..limit]
    ensures rest[k - 1] == Qualifying(listing, sinceEpoch, rest)[limit - 1]
    decreases |rest|
  {
    var init, last := rest[..|rest| - 1], rest[|rest| - 1];
    if limit <= |Qualifying(listing, sinceEpoch, init)| {
      k := SplitAtLast(listing, sinceEpoch, init, limit);
      assert init[..k] == rest[..k];
    } else {
      k := |rest|;
      assert rest[..k] == rest;
    }
  }

  /** A cursor inside the remainder leaves what follows it. */
  lemma ResumeAfter(ids: seq<string>, cursor: Option<string>, k: nat)
    requires Distinct(ids) && "" !in ids
    requires 1 <= k <= |After(ids, cursor)|
    ensures After(ids, Some(After(ids, cursor)[k - 1])) == After(ids, cursor)[k..]
  {
    var rest := After(ids, cursor);
    var at := |ids| - |rest| + k - 1;
    assert ids[at] == rest[k - 1] && ids[at] in ids;
    assert IndexOf(ids, ids[at], 0) == at;
  }

  /** The qualifying ids split at the last one of a full page. */
  lemma FullPageSplits(listing: Listing, sinceEpoch: Option<int>, rest: seq<string>, limit: int) returns (k: nat)
    requires 1 <= limit <= |Qualifying(listing, sinceEpoch, rest)|
    ensures 1 <= k <= |rest| && rest[k - 1] == Qualifying(listing, sinceEpoch, rest)[limit - 1]
    ensures Qualifying(listing, sinceEpoch, rest)
         == Qualifying(listing, sinceEpoch, rest)[..limit] + Qualifying(listing, sinceEpoch, rest[k..])
  {
    k := SplitAtLast(listing, sinceEpoch, rest, limit);
    assert rest == rest[..k] + rest[k..];
    QualifyingOfConcat(listing, sinceEpoch, rest[..k], rest[k..]);
  }

  /** Following a cursor resumes right after the page it came from, and loses nothing. */
  lemma CursorResumes(
    listing: Listing, cursor: Option<string>, limit: int, sinceEpoch: Option<int>, now: string, page: Page)
    requires ValidListing(listing) && limit >= 1
    requires IsPage(listing, cursor, limit, sinceEpoch, now, page)
    ensures Resumes(listing, cursor, limit, sinceEpoch, page)
  {
    var rest := After(listing.ids, cursor);
    var all := Qualifying(listing, sinceEpoch, rest);
    QualifyingIsShort(listing, sinceEpoch, rest);
    if page.nextCursor.Some? {
      var k := FullPageSplits(listing, sinceEpoch, rest, limit);
      ResumeAfter(listing.ids, cursor, k);
      assert PageIds(listing, cursor, limit, sinceEpoch) == all[..limit];
    }
  }

  /** What is left after the cursor is this page followed by what is left after the next. */
  predicate Resumes(listing: Listing, cursor: Option<string>, limit: int, sinceEpoch: Option<int>, page: Page) {
    var ids, rest := PageIds(listing, cursor, limit, sinceEpoch), After(listing.ids, cursor);
    if page.nextCursor.None? then ids == Qualifying(listing, sinceEpoch, rest)
    else
      var later := After(listing.ids, page.nextCursor);
      && |later| < |rest|
      && Qualifying(listing, sinceEpoch, rest) == ids + Qualifying(listing, sinceEpoch, later)
  }

  /** What a client still has to fetch. */
  function Remaining(listing: Listing, sinceEpoch: Option<int>, nextCursor: Option<string>): seq<string> {
    if nextCursor.None? then [] else Qualifying(listing, sinceEpoch, After(listing.ids, nextCursor))
  }

  /** A client that follows `nextCursor` from the start of an unchanged store terminates, its
      pages concatenate to exactly the reports on the qualifying layers, each once, in order, and
      their totals add up. */
  method Crawl(listing: Listing, limit: int, sinceEpoch: Option<int>, now: string)
    returns (all: seq<LayerFindings>, total: nat)
    requires ValidListing(listing) && limit >= 1
    ensures Fetched(listing, Qualifying(listing, sinceEpoch, listing.ids), now, all, total)
  {
    var page := FetchPage(listing, None, limit, sinceEpoch, now);
    all, total := page.layers, page.totalFindings;
    ghost var done := PageIds(listing, None, limit, sinceEpoch);
    while page.nextCursor.Some?
      invariant Fetched(listing, done, now, all, total)
      invariant Qualifying(listing, sinceEpoch, listing.ids) == done + Remaining(listing, sinceEpoch, page.nextCursor)
      decreases if page.nextCursor.None? then 0 else 1 + |After(listing.ids, page.nextCursor)|
    {
      var cursor := page.nextCursor;
      page := FetchPage(listing, cursor, limit, sinceEpoch, now);
      ghost var ids := PageIds(listing, cursor, limit, sinceEpoch);
      FetchedConcat(listing, now, done, all, total, ids, page.layers, page.totalFindings);
      Regroup(done, ids, Remaining(listing, sinceEpoch, page.nextCursor));
      all, total := all + page.layers, total + page.totalFindings;
      done := done + ids;
    }
  }

  lemma Regroup(a: seq<string>, b: seq<string>, c: seq<string>)
    ensures a + (b + c) == (a + b) + c
  {
  }

  method FetchPage(listing: Listing, cursor: Option<string>, limit: int, sinceEpoch: Option<int>, now: string)
    returns (page: Page)
    requires ValidListing(listing) && limit >= 1
    ensures Fetched(listing, PageIds(listing, cursor, limit, sinceEpoch), now, page.layers, page.totalFindings)
    ensures Resumes(listing, cursor, limit, sinceEpoch, page)
    ensures Qualifying(listing, sinceEpoch, After(listing.ids, cursor))
         == PageIds(listing, cursor, limit, sinceEpoch) + Remaining(listing, sinceEpoch, page.nextCursor)
  {
    page := ResolvePage(listing, cursor, limit, sinceEpoch, now);
    CursorResumes(listing, cursor, limit, sinceEpoch, now, page);
  }
}
