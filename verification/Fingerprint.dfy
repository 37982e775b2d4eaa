/** The finding fingerprint: what it depends on, and which recipe minted a stamp. */
module Fingerprint {
  import opened Wrappers
  import opened Events
  import opened Gates
  import opened TextOrder

  // ---------- the recipe ----------

  datatype Location = Location(path: Option<string>, resource: Option<string>)

  datatype Finding = Finding(locations: seq<Location>, cwes: seq<string>, cwe: Option<string>, checkId: Option<string>)

  /** The canonical forms the recipe is built from; any functions will do. */
  datatype Canon = Canon(path: string -> string, repo: string -> string, upper: string -> string,
      number: string -> Option<nat>)

  const CWE_NO_NUMBER := 1000000000

  function Anchor(canon: Canon, location: Location): string {
    var path := canon.path(TextOrEmpty(location.path));
    if path != "" then path else canon.path(TextOrEmpty(location.resource))
  }

  function Anchors(canon: Canon, locations: seq<Location>): seq<string> {
    if locations == [] then []
    else
      var anchor := Anchor(canon, locations[0]);
      (if anchor == "" then [] else [anchor]) + Anchors(canon, locations[1..])
  }

  lemma {:induction false} AnchorsExact(canon: Canon, locations: seq<Location>, x: string)
    ensures x in Anchors(canon, locations) <==> x != "" && AnchoredAt(canon, locations, x)
  {
    if locations != [] {
      AnchorsExact(canon, locations[1..], x);
      assert locations == [locations[0]] + locations[1..];
    }
  }

  /** `cwes`, or the single `cwe` when the list is empty; blanks dropped. */
  function CweList(finding: Finding): seq<string> {
    NonBlank(if finding.cwes != [] then finding.cwes
             else if TruthyText(finding.cwe) then [finding.cwe.value] else [])
  }

  function NonBlank(items: seq<string>): seq<string> {
    if items == [] then []
    else (if Blank(items[0]) then [] else [items[0]]) + NonBlank(items[1..])
  }

  lemma {:induction false} NonBlankExact(items: seq<string>, x: string)
    ensures x in NonBlank(items) <==> x in items && !Blank(x)
  {
    if items != [] {
      NonBlankExact(items[1..], x);
      assert items == [items[0]] + items[1..];
    }
  }

  function CweNumber(canon: Canon, text: string): nat {
    match canon.number(text)
    case Some(n) => n
    case None => CWE_NO_NUMBER
  }

  /** Rank by number, then by text. */
  predicate RankLeq(canon: Canon, a: string, b: string) {
    CweNumber(canon, a) < CweNumber(canon, b) || (CweNumber(canon, a) == CweNumber(canon, b) && Leq(a, b))
  }

  /** The canonical text of the lowest-ranked entry; `min` keeps the first of equals. */
  function LowestText(canon: Canon, cwes: seq<string>): string
    requires cwes != []
  {
    var last := canon.upper(cwes[|cwes| - 1]);
    if |cwes| == 1 then last
    else
      var rest := LowestText(canon, cwes[..|cwes| - 1]);
      if RankLeq(canon, rest, last) then rest else last
  }

  lemma {:induction false} LowestIsLeast(canon: Canon, cwes: seq<string>)
    requires cwes != []
    ensures exists c :: c in cwes && canon.upper(c) == LowestText(canon, cwes)
    ensures forall c :: c in cwes ==> RankLeq(canon, LowestText(canon, cwes), canon.upper(c))
  {
    var init, last := cwes[..|cwes| - 1], cwes[|cwes| - 1];
    assert cwes == init + [last];
    RankTotal(canon, canon.upper(last), canon.upper(last));
    if |cwes| == 1 {
      assert last in cwes && canon.upper(last) == LowestText(canon, cwes);
    } else {
      LowestIsLeast(canon, init);
      LowestExtends(canon, init, last, LowestText(canon, init), LowestText(canon, cwes));
    }
  }

  lemma LowestExtends(canon: Canon, init: seq<string>, last: string, rest: string, lowest: string)
    requires exists c :: c in init && canon.upper(c) == rest
    requires forall c :: c in init ==> RankLeq(canon, rest, canon.upper(c))
    requires lowest == if RankLeq(canon, rest, canon.upper(last)) then rest else canon.upper(last)
    ensures exists c :: c in init + [last] && canon.upper(c) == lowest
    ensures forall c :: c in init + [last] ==> RankLeq(canon, lowest, canon.upper(c))
  {
    RankTotal(canon, rest, canon.upper(last));
    RankTotal(canon, canon.upper(last), canon.upper(last));
    if RankLeq(canon, rest, canon.upper(last)) {
      var c :| c in init && canon.upper(c) == rest;
      assert c in init + [last];
    } else {
      assert last in init + [last];
      forall c | c in init
        ensures RankLeq(canon, lowest, canon.upper(c))
      {
        RankTransitive(canon, lowest, rest, canon.upper(c));
      }
    }
  }

  lemma RankTotal(canon: Canon, a: string, b: string)
    ensures RankLeq(canon, a, b) || RankLeq(canon, b, a)
  {
    LeqTotal(a, b);
  }

  lemma RankTransitive(canon: Canon, a: string, b: string, c: string)
    requires RankLeq(canon, a, b) && RankLeq(canon, b, c)
    ensures RankLeq(canon, a, c)
  {
    if Leq(a, b) && Leq(b, c) {
      LeqTransitive(a, b, c);
    }
  }

  function PrimaryCwe(canon: Canon, finding: Finding): string {
    var cwes := CweList(finding);
    if cwes == [] then "CWE-0"
    else
      var text := LowestText(canon, cwes);
      if text == "" then "CWE-0" else text
  }

  /** The lowest CWE depends on which CWEs are listed, not on their order or repetition. */
  lemma LowestOfSame(canon: Canon, a: seq<string>, b: seq<string>)
    requires a != [] && b != []
    requires forall x :: x in a <==> x in b
    ensures LowestText(canon, a) == LowestText(canon, b)
  {
    LowestIsLeast(canon, a);
    LowestIsLeast(canon, b);
    var x :| x in a && canon.upper(x) == LowestText(canon, a);
    var y :| y in b && canon.upper(y) == LowestText(canon, b);
    assert RankLeq(canon, canon.upper(x), canon.upper(y)) && RankLeq(canon, canon.upper(y), canon.upper(x));
    LeqTotal(canon.upper(x), canon.upper(y));
  }

  function PolicyCheck(canon: Canon, finding: Finding): string {
    if finding.checkId.Some? then canon.upper(finding.checkId.value) else ""
  }

  function Join(parts: seq<string>, separator: string): string {
    if parts == [] then ""
    else if |parts| == 1 then parts[0]
    else parts[0] + separator + Join(parts[1..], separator)
  }

  datatype Stamp = Sha256(preimage: string) | OtherStamp(text: string)

  datatype Degenerate = DegenerateIdentity

  /** `fingerprint`: repository, sorted path set, primary CWE, and the check when present. */
  function FingerprintOf(canon: Canon, finding: Finding, repo: Option<string>, strict: bool): Result<Stamp,
      Degenerate> {
    var paths := SortedSet(Anchors(canon, finding.locations));
    var check := PolicyCheck(canon, finding);
    var components := [canon.repo(TextOrEmpty(repo)), Join(paths, ";"), PrimaryCwe(canon, finding)];
    if strict && paths == [] then Err(DegenerateIdentity)
    else Ok(Sha256(Join(if check == "" then components else components + [check], "|")))
  }

  ghost predicate AnchoredAt(canon: Canon, locations: seq<Location>, place: string) {
    exists l :: l in locations && Anchor(canon, l) == place
  }

  /** Both findings anchor at the same non-empty places. */
  ghost predicate SameAnchors(canon: Canon, a: seq<Location>, b: seq<Location>) {
    forall place :: place != "" ==> (AnchoredAt(canon, a, place) <==> AnchoredAt(canon, b, place))
  }

  /** The fingerprint is a function of the set of anchors, the set of CWEs, the repository and
      the check.  Permuting or repeating locations or CWEs, or adding a location that
      canonicalises to nothing, leaves it unchanged, in strict mode or not. */
  lemma FingerprintIgnoresOrder(canon: Canon, a: Finding, b: Finding, repo: Option<string>, strict: bool)
    requires SameAnchors(canon, a.locations, b.locations)
    requires forall c :: c in a.cwes <==> c in b.cwes
    requires a.cwe == b.cwe && a.checkId == b.checkId
    ensures FingerprintOf(canon, a, repo, strict) == FingerprintOf(canon, b, repo, strict)
  {
    forall x
      ensures x in Anchors(canon, a.locations) <==> x in Anchors(canon, b.locations)
    {
      AnchorsExact(canon, a.locations, x);
      AnchorsExact(canon, b.locations, x);
    }
    SortedSetOfSame(Anchors(canon, a.locations), Anchors(canon, b.locations));
    PrimaryCweOfSame(canon, a, b);
  }

  lemma PrimaryCweOfSame(canon: Canon, a: Finding, b: Finding)
    requires forall c :: c in a.cwes <==> c in b.cwes
    requires a.cwe == b.cwe
    ensures PrimaryCwe(canon, a) == PrimaryCwe(canon, b)
  {
    assert a.cwes == [] <==> b.cwes == [] by {
      assert a.cwes != [] ==> a.cwes[0] in b.cwes;
      assert b.cwes != [] ==> b.cwes[0] in a.cwes;
    }
    var la, lb := CweList(a), CweList(b);
    if a.cwes != [] {
      forall x
        ensures x in la <==> x in lb
      {
        NonBlankExact(a.cwes, x);
        NonBlankExact(b.cwes, x);
      }
      assert la != [] ==> la[0] in lb;
      assert lb != [] ==> lb[0] in la;
      if la != [] {
        LowestOfSame(canon, la, lb);
      }
    }
  }

  // ---------- attribution ----------

  datatype Version = V3 | V2 | V1

  /** Frozen rungs read `path` only; version 1 kept paths that canonicalise to nothing. */
  function PathsOnly(canon: Canon, locations: seq<Location>, keepEmpty: bool): seq<string> {
    if locations == [] then []
    else
      var path := canon.path(TextOrEmpty(locations[0].path));
      (if path == "" && !keepEmpty then [] else [path]) + PathsOnly(canon, locations[1..], keepEmpty)
  }

  function FirstNonEmpty(items: seq<string>): Option<string> {
    if items == [] then None else if items[0] != "" then Some(items[0]) else FirstNonEmpty(items[1..])
  }

  function CweFirst(canon: Canon, finding: Finding): string {
    match FirstNonEmpty(finding.cwes)
    case None => "CWE-0"
    case Some(c) => canon.upper(c)
  }

  function CweCurrent(canon: Canon, finding: Finding): string {
    var check := PolicyCheck(canon, finding);
    if check == "" then PrimaryCwe(canon, finding) else PrimaryCwe(canon, finding) + "|" + check
  }

  /** The stamp one rung of the ladder would have minted. */
  function RungStamp(canon: Canon, finding: Finding, repo: Option<string>, version: Version): Stamp {
    var paths := match version
      case V3 => SortedSet(Anchors(canon, finding.locations))
      case V2 => SortedSet(PathsOnly(canon, finding.locations, false))
      case V1 => SortedSet(PathsOnly(canon, finding.locations, true));
    var cwe := if version == V3 then CweCurrent(canon, finding) else CweFirst(canon, finding);
    Sha256(Join([canon.repo(TextOrEmpty(repo)), Join(paths, ";"), cwe], "|"))
  }

  /** The newest version that reproduces the stamp for this repository spelling. */
  function NewestRung(canon: Canon, finding: Finding, stamp: Stamp, repo: Option<string>): Option<Version> {
    if RungStamp(canon, finding, repo, V3) == stamp then Some(V3)
    else if RungStamp(canon, finding, repo, V2) == stamp then Some(V2)
    else if RungStamp(canon, finding, repo, V1) == stamp then Some(V1)
    else None
  }

  /** The first candidate that reproduces the stamp decides. */
  function Attribution(canon: Canon, finding: Finding, stamp: Stamp, candidates: seq<Option<string>>): Option<Version> {
    if candidates == [] then None
    else
      match NewestRung(canon, finding, stamp, candidates[0])
      case Some(version) => Some(version)
      case None => Attribution(canon, finding, stamp, candidates[1..])
  }

  /** `attribute`; skipping candidates already seen never changes the answer. */
  method Attribute(canon: Canon, finding: Finding, stamp: Stamp, candidates: seq<Option<string>>)
      returns (version: Option<Version>)
    ensures version == Attribution(canon, finding, stamp, candidates)
  {
    var seen: seq<Option<string>> := [];
    for i := 0 to |candidates|
      invariant Attribution(canon, finding, stamp, candidates) == Attribution(canon, finding, stamp, candidates[i..])
      invariant forall c :: c in seen ==> NewestRung(canon, finding, stamp, c).None?
    {
      assert candidates[i..][1..] == candidates[i + 1..];
      var candidate := candidates[i];
      if candidate !in seen {
        seen := seen + [candidate];
        var rung := NewestRung(canon, finding, stamp, candidate);
        if rung.Some? {
          return rung;
        }
      }
    }
    return None;
  }

  /** The newest rung tracks the live recipe: it mints exactly the live fingerprint. */
  lemma NewestRungIsLive(canon: Canon, finding: Finding, repo: Option<string>)
    ensures FingerprintOf(canon, finding, repo, false) == Ok(RungStamp(canon, finding, repo, V3))
  {
    var r, p, c := canon.repo(TextOrEmpty(repo)), Join(SortedSet(Anchors(canon, finding.locations)), ";"),
        PrimaryCwe(canon, finding);
    var check := PolicyCheck(canon, finding);
    if check != "" {
      assert [r, p, c] + [check] == [r, p, c, check];
      JoinOfFour(r, p, c, check);
    }
  }

  lemma JoinOfFour(a: string, b: string, c: string, d: string)
    ensures Join([a, b, c, d], "|") == Join([a, b, c + "|" + d], "|")
  {
    assert [a, b, c, d][1..] == [b, c, d] && [b, c, d][1..] == [c, d] && [c, d][1..] == [d];
    assert [a, b, c + "|" + d][1..] == [b, c + "|" + d] && [b, c + "|" + d][1..] == [c + "|" + d];
    assert Join([c, d], "|") == c + "|" + d;
    assert Join([b, c, d], "|") == b + "|" + Join([c, d], "|");
    assert Join([b, c + "|" + d], "|") == b + "|" + (c + "|" + d);
  }

  /** A stamp the live recipe mints is always attributed to the newest version, from any
      candidate list that leads with its repository. */
  lemma LiveStampIsNewest(canon: Canon, finding: Finding, repo: Option<string>, others: seq<Option<string>>)
    ensures Attribution(canon, finding, FingerprintOf(canon, finding, repo, false).value, [repo] + others) == Some(V3)
  {
    NewestRungIsLive(canon, finding, repo);
  }
}
