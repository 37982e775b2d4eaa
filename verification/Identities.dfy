/** What a fingerprint stands for: which CWE is primary, when two fingerprints coincide, and what
    each rung of the version ladder hashes. */
module Identities {
  import opened Wrappers
  import opened Events
  import opened Gates
  import opened TextOrder
  import opened Fingerprint

  // ---------- the primary CWE ----------

  /** A CWE the finding lists, in `cwes` or, when that is empty, in `cwe`; blank ones do not count. */
  predicate Lists(finding: Finding, cwe: string) {
    HasText(cwe) && if finding.cwes == [] then finding.cwe == Some(cwe) else cwe in finding.cwes
  }

  /** By number, a text without one counting as 10^9, and then by code point. */
  predicate NotAbove(canon: Canon, a: string, b: string) {
    var m := match canon.number(a) case Some(n) => n case None => 1000000000;
    var n := match canon.number(b) case Some(n) => n case None => 1000000000;
    m < n || (m == n && Leq(a, b))
  }

  lemma CweListExact(finding: Finding, cwe: string)
    ensures cwe in CweList(finding) <==> Lists(finding, cwe)
  {
    assert Blank(cwe) <==> !HasText(cwe);
    if finding.cwes != [] {
      NonBlankExact(finding.cwes, cwe);
    } else if TruthyText(finding.cwe) {
      NonBlankExact([finding.cwe.value], cwe);
    }
  }

  /** The primary CWE is the canonical text of a listed one that no other ranks below; "CWE-0" stands
      for none, and for a canonical text that is empty. */
  lemma PrimaryCweExact(canon: Canon, finding: Finding)
    ensures (forall cwe :: !Lists(finding, cwe)) ==> PrimaryCwe(canon, finding) == "CWE-0"
    ensures (exists cwe :: Lists(finding, cwe)) ==>
      exists cwe :: && Lists(finding, cwe)
                    && PrimaryCwe(canon, finding) == (if canon.upper(cwe) == "" then "CWE-0" else canon.upper(cwe))
                    && forall other :: Lists(finding, other) ==> NotAbove(canon, canon.upper(cwe), canon.upper(other))
  {
    var cwes := CweList(finding);
    forall cwe
      ensures cwe in cwes <==> Lists(finding, cwe)
    {
      CweListExact(finding, cwe);
    }
    if cwes == [] {
      assert forall cwe :: !Lists(finding, cwe);
    } else {
      assert Lists(finding, cwes[0]);
      LowestIsLeast(canon, cwes);
      var cwe :| cwe in cwes && canon.upper(cwe) == LowestText(canon, cwes);
      forall other | Lists(finding, other)
        ensures NotAbove(canon, canon.upper(cwe), canon.upper(other))
      {
        assert RankLeq(canon, canon.upper(cwe), canon.upper(other));
      }
    }
  }

  // ---------- joined texts ----------

  /** A text before the first separator, and what follows it, are both determined. */
  lemma {:induction false} HeadDetermined(x: string, y: string, u: string, v: string, separator: char)
    requires separator !in x && separator !in y
    requires x + [separator] + u == y + [separator] + v
    ensures x == y && u == v
  {
    var s, t := x + [separator] + u, y + [separator] + v;
    assert s[|x|] == separator && t[|y|] == separator;
    assert forall i :: 0 <= i < |x| ==> s[i] == x[i];
    assert forall i :: 0 <= i < |y| ==> t[i] == y[i];
    assert x == s[..|x|] && y == t[..|y|];
    assert u == s[|x| + 1..] && v == t[|y| + 1..];
  }

  lemma JoinTwo(parts: seq<string>, separator: char)
    requires |parts| >= 2
    ensures Join(parts, [separator]) == parts[0] + [separator] + Join(parts[1..], [separator])
    ensures separator in Join(parts, [separator])
  {
    assert Join(parts, [separator])[|parts[0]|] == separator;
  }

  /** Joining is injective on lists of parts without the separator; the empty list joins as [""] does. */
  lemma {:induction false} JoinInjective(a: seq<string>, b: seq<string>, separator: char)
    requires a != [] && b != []
    requires forall x :: x in a || x in b ==> separator !in x
    requires Join(a, [separator]) == Join(b, [separator])
    ensures a == b
    decreases |a|
  {
    assert a[0] in a && b[0] in b;
    if |a| >= 2 && |b| >= 2 {
      JoinTwo(a, separator);
      JoinTwo(b, separator);
      HeadDetermined(a[0], b[0], Join(a[1..], [separator]), Join(b[1..], [separator]), separator);
      JoinInjective(a[1..], b[1..], separator);
      assert a == [a[0]] + a[1..] && b == [b[0]] + b[1..];
    } else if |a| >= 2 {
      JoinTwo(a, separator);
    } else if |b| >= 2 {
      JoinTwo(b, separator);
    }
  }

  lemma {:induction false} JoinIsFree(parts: seq<string>, separator: char, other: char)
    requires other != separator && forall x :: x in parts ==> other !in x
    ensures other !in Join(parts, [separator])
  {
    if parts != [] {
      assert parts[0] in parts;
      JoinIsFree(parts[1..], separator, other);
    }
  }

  // ---------- equal fingerprints ----------

  /** No canonical form contains a character the recipe joins with. */
  ghost predicate SeparatorFree(canon: Canon, finding: Finding, repo: Option<string>) {
    && '|' !in canon.repo(TextOrEmpty(repo))
    && '|' !in PrimaryCwe(canon, finding)
    && (finding.checkId.Some? ==> '|' !in canon.upper(finding.checkId.value))
    && forall place :: AnchoredAt(canon, finding.locations, place) ==> '|' !in place && ';' !in place
  }

  /** The canonical check, absent and blank being one. */
  function Check(canon: Canon, finding: Finding): string {
    match finding.checkId
    case Some(id) => canon.upper(id)
    case None => ""
  }

  function Paths(canon: Canon, finding: Finding): seq<string> {
    SortedSet(Anchors(canon, finding.locations))
  }

  lemma PathsExact(canon: Canon, finding: Finding, place: string)
    ensures place in Paths(canon, finding) <==> place != "" && AnchoredAt(canon, finding.locations, place)
  {
    SortedSetExact(Anchors(canon, finding.locations));
    AnchorsExact(canon, finding.locations, place);
  }

  lemma PathsAreFree(canon: Canon, finding: Finding, repo: Option<string>)
    requires SeparatorFree(canon, finding, repo)
    ensures forall x :: x in Paths(canon, finding) ==> x != "" && ';' !in x
    ensures '|' !in Join(Paths(canon, finding), ";")
  {
    forall x | x in Paths(canon, finding)
      ensures x != "" && ';' !in x && '|' !in x
    {
      PathsExact(canon, finding, x);
    }
    JoinIsFree(Paths(canon, finding), ';', '|');
  }

  lemma SamePathText(a: seq<string>, b: seq<string>)
    requires forall x :: x in a || x in b ==> x != "" && ';' !in x
    requires Join(a, ";") == Join(b, ";")
    ensures a == b
  {
    assert (a != [] ==> a[0] in a) && (b != [] ==> b[0] in b);
    if a != [] && b != [] {
      JoinInjective(a, b, ';');
    }
  }

  /** The components joined, with the check last when there is one. */
  function Components(canon: Canon, finding: Finding, repo: Option<string>): (parts: seq<string>)
    ensures parts != []
  {
    [canon.repo(TextOrEmpty(repo)), Join(Paths(canon, finding), ";"), PrimaryCwe(canon, finding)] +
    if Check(canon, finding) == "" then [] else [Check(canon, finding)]
  }

  lemma FingerprintJoins(canon: Canon, finding: Finding, repo: Option<string>)
    ensures FingerprintOf(canon, finding, repo, false) == Ok(Sha256(Join(Components(canon, finding, repo), "|")))
  {
    var three := [canon.repo(TextOrEmpty(repo)), Join(Paths(canon, finding), ";"), PrimaryCwe(canon, finding)];
    assert three + [] == three;
  }

  lemma SameComponents(canon: Canon, a: Finding, ra: Option<string>, b: Finding, rb: Option<string>)
    requires Components(canon, a, ra) == Components(canon, b, rb)
    ensures canon.repo(TextOrEmpty(ra)) == canon.repo(TextOrEmpty(rb))
    ensures Join(Paths(canon, a), ";") == Join(Paths(canon, b), ";")
    ensures PrimaryCwe(canon, a) == PrimaryCwe(canon, b) && Check(canon, a) == Check(canon, b)
  {
    var pa, pb := Components(canon, a, ra), Components(canon, b, rb);
    assert pa[0] == pb[0] && pa[1] == pb[1] && pa[2] == pb[2];
    if |pa| == 4 {
      assert pa[3] == pb[3];
    }
  }

  lemma ComponentsAreFree(canon: Canon, finding: Finding, repo: Option<string>)
    requires SeparatorFree(canon, finding, repo)
    ensures forall x :: x in Components(canon, finding, repo) ==> '|' !in x
  {
    PathsAreFree(canon, finding, repo);
  }

  lemma EqualStampsAgree(canon: Canon, a: Finding, ra: Option<string>, b: Finding, rb: Option<string>)
    requires SeparatorFree(canon, a, ra) && SeparatorFree(canon, b, rb)
    requires FingerprintOf(canon, a, ra, false) == FingerprintOf(canon, b, rb, false)
    ensures canon.repo(TextOrEmpty(ra)) == canon.repo(TextOrEmpty(rb))
    ensures Paths(canon, a) == Paths(canon, b)
    ensures PrimaryCwe(canon, a) == PrimaryCwe(canon, b) && Check(canon, a) == Check(canon, b)
  {
    FingerprintJoins(canon, a, ra);
    FingerprintJoins(canon, b, rb);
    ComponentsAreFree(canon, a, ra);
    ComponentsAreFree(canon, b, rb);
    JoinInjective(Components(canon, a, ra), Components(canon, b, rb), '|');
    SameComponents(canon, a, ra, b, rb);
    PathsAreFree(canon, a, ra);
    PathsAreFree(canon, b, rb);
    SamePathText(Paths(canon, a), Paths(canon, b));
  }

  lemma SamePathsExact(canon: Canon, a: Finding, b: Finding)
    ensures Paths(canon, a) == Paths(canon, b) <==> SameAnchors(canon, a.locations, b.locations)
  {
    forall place
      ensures place in Paths(canon, a) <==> place != "" && AnchoredAt(canon, a.locations, place)
      ensures place in Paths(canon, b) <==> place != "" && AnchoredAt(canon, b.locations, place)
    {
      PathsExact(canon, a, place);
      PathsExact(canon, b, place);
    }
    if SameAnchors(canon, a.locations, b.locations) {
      SortedSetExact(Anchors(canon, a.locations));
      SortedSetExact(Anchors(canon, b.locations));
      IncreasingUnique(Paths(canon, a), Paths(canon, b));
    }
  }

  /** Two findings share a fingerprint if and only if they share the canonical repository, the set of
      non-empty anchors, the primary CWE and the canonical check. */
  lemma FingerprintExact(canon: Canon, a: Finding, ra: Option<string>, b: Finding, rb: Option<string>)
    requires SeparatorFree(canon, a, ra) && SeparatorFree(canon, b, rb)
    ensures FingerprintOf(canon, a, ra, false) == FingerprintOf(canon, b, rb, false) <==>
      && canon.repo(TextOrEmpty(ra)) == canon.repo(TextOrEmpty(rb))
      && SameAnchors(canon, a.locations, b.locations)
      && PrimaryCwe(canon, a) == PrimaryCwe(canon, b)
      && Check(canon, a) == Check(canon, b)
  {
    SamePathsExact(canon, a, b);
    FingerprintJoins(canon, a, ra);
    FingerprintJoins(canon, b, rb);
    if FingerprintOf(canon, a, ra, false) == FingerprintOf(canon, b, rb, false) {
      EqualStampsAgree(canon, a, ra, b, rb);
    }
  }

  /** Strict mode refuses exactly the findings that anchor nowhere and moves no other fingerprint. */
  lemma StrictExact(canon: Canon, finding: Finding, repo: Option<string>)
    ensures FingerprintOf(canon, finding, repo, true).Err? <==>
      forall l :: l in finding.locations ==> Anchor(canon, l) == ""
    ensures FingerprintOf(canon, finding, repo, true).Ok? ==>
      FingerprintOf(canon, finding, repo, true) == FingerprintOf(canon, finding, repo, false)
  {
    var paths := Paths(canon, finding);
    if paths != [] {
      PathsExact(canon, finding, paths[0]);
    }
    forall l | l in finding.locations && Anchor(canon, l) != ""
      ensures paths != []
    {
      PathsExact(canon, finding, Anchor(canon, l));
    }
  }

  /** An anchor is the canonical path, or the canonical resource when the path is nothing. */
  lemma AnchorExact(canon: Canon, path: Option<string>, resource: Option<string>)
    requires canon.path("") == ""
    ensures Anchor(canon, Location(path, resource)) ==
      if path.Some? && canon.path(path.value) != "" then canon.path(path.value)
      else if resource.Some? then canon.path(resource.value) else ""
  {
  }

  const Verbatim := Canon((s: string) => s, (s: string) => s, (s: string) => s, (s: string) => None)

  /** The condition is needed: one place named "a;b" reads as two places "a" and "b". */
  lemma SeparatorCollides()
    ensures
      var one := Finding([Location(Some("a;b"), None)], [], None, None);
      var two := Finding([Location(Some("a"), None), Location(Some("b"), None)], [], None, None);
      && FingerprintOf(Verbatim, one, None, false) == FingerprintOf(Verbatim, two, None, false)
      && !SameAnchors(Verbatim, one.locations, two.locations)
  {
    var one := Finding([Location(Some("a;b"), None)], [], None, None);
    var two := Finding([Location(Some("a"), None), Location(Some("b"), None)], [], None, None);
    assert one.locations[1..] == [] && two.locations[1..] == [Location(Some("b"), None)];
    assert two.locations[1..][1..] == [];
    assert Anchors(Verbatim, one.locations) == ["a;b"];
    assert Anchors(Verbatim, two.locations) == ["a", "b"];
    assert SortedSet(["a;b"][1..]) == [] && SortedSet(["a;b"]) == ["a;b"];
    assert ["a", "b"][1..] == ["b"] && ["b"][1..] == [] && SortedSet(["b"]) == ["b"];
    assert SortedSet(["a", "b"]) == ["a", "b"];
    assert Join(["a", "b"], ";") == "a;b";
    assert one.locations[0] in one.locations && AnchoredAt(Verbatim, one.locations, "a;b");
    assert "a;b"[1] == ';' && |"a;b"| != |"a"|;
    assert !AnchoredAt(Verbatim, two.locations, "a;b");
  }

  // ---------- the version ladder ----------

  predicate ListsFirst(cwes: seq<string>, cwe: string, i: nat) {
    i < |cwes| && cwes[i] == cwe && cwe != "" && forall j :: 0 <= j < i ==> cwes[j] == ""
  }

  lemma {:induction false} FirstNonEmptyExact(cwes: seq<string>)
    ensures FirstNonEmpty(cwes).Some? ==> exists i: nat :: ListsFirst(cwes, FirstNonEmpty(cwes).value, i)
    ensures FirstNonEmpty(cwes).None? ==> forall cwe :: cwe in cwes ==> cwe == ""
  {
    if cwes != [] {
      FirstNonEmptyExact(cwes[1..]);
      assert cwes == [cwes[0]] + cwes[1..];
      if cwes[0] != "" {
        assert ListsFirst(cwes, cwes[0], 0);
      } else if FirstNonEmpty(cwes[1..]).Some? {
        var i: nat :| ListsFirst(cwes[1..], FirstNonEmpty(cwes[1..]).value, i);
        assert ListsFirst(cwes, FirstNonEmpty(cwes).value, i + 1);
      }
    }
  }

  lemma {:induction false} PathsOnlyExact(canon: Canon, locations: seq<Location>, keepEmpty: bool, x: string)
    ensures x in PathsOnly(canon, locations, keepEmpty) <==>
      (keepEmpty || x != "") && exists l :: l in locations && canon.path(TextOrEmpty(l.path)) == x
  {
    if locations != [] {
      PathsOnlyExact(canon, locations[1..], keepEmpty, x);
      assert locations == [locations[0]] + locations[1..];
    }
  }

  /** The frozen rungs hash the paths alone, sorted, version 1 keeping an empty one, with the first
      CWE listed. */
  lemma FrozenRungExact(canon: Canon, finding: Finding, repo: Option<string>, version: Version)
      returns (paths: seq<string>, cwe: string)
    requires version == V2 || version == V1
    ensures Increasing(paths)
    ensures forall x :: x in paths <==>
      (version == V1 || x != "") && exists l :: l in finding.locations && canon.path(TextOrEmpty(l.path)) == x
    ensures
      || (cwe == "CWE-0" && forall c :: c in finding.cwes ==> c == "")
      || exists first, i: nat :: ListsFirst(finding.cwes, first, i) && cwe == canon.upper(first)
    ensures RungStamp(canon, finding, repo, version)
         == Sha256(canon.repo(TextOrEmpty(repo)) + "|" + Join(paths, ";") + "|" + cwe)
  {
    paths, cwe := SortedSet(PathsOnly(canon, finding.locations, version == V1)), CweFirst(canon, finding);
    SortedSetExact(PathsOnly(canon, finding.locations, version == V1));
    forall x
      ensures x in paths <==>
        (version == V1 || x != "") && exists l :: l in finding.locations && canon.path(TextOrEmpty(l.path)) == x
    {
      PathsOnlyExact(canon, finding.locations, version == V1, x);
    }
    FirstNonEmptyExact(finding.cwes);
    JoinOfThree(canon.repo(TextOrEmpty(repo)), Join(paths, ";"), cwe);
  }

  lemma JoinOfThree(a: string, b: string, c: string)
    ensures Join([a, b, c], "|") == a + "|" + b + "|" + c
  {
    assert [a, b, c][1..] == [b, c] && [b, c][1..] == [c];
    assert Join([b, c], "|") == b + "|" + c;
    assert Join([a, b, c], "|") == a + "|" + Join([b, c], "|");
  }

  /** Version 3 is newer than 2, and 2 than 1. */
  predicate Newer(a: Version, b: Version) {
    (a == V3 && b != V3) || (a == V2 && b == V1)
  }

  /** Candidate `i` reproduces the stamp under this version and under no newer one. */
  predicate Reproduces(canon: Canon, finding: Finding, stamp: Stamp, repo: Option<string>, version: Version) {
    && RungStamp(canon, finding, repo, version) == stamp
    && forall v: Version :: Newer(v, version) ==> RungStamp(canon, finding, repo, v) != stamp
  }

  ghost predicate Unaccounted(canon: Canon, finding: Finding, stamp: Stamp, repo: Option<string>) {
    forall v: Version :: RungStamp(canon, finding, repo, v) != stamp
  }

  /** The first spelling under which any version reproduces the stamp, and the newest that does. */
  ghost predicate FirstAt(
    canon: Canon, finding: Finding, stamp: Stamp, candidates: seq<Option<string>>, version: Version, i: nat)
  {
    && i < |candidates| && Reproduces(canon, finding, stamp, candidates[i], version)
    && forall j :: 0 <= j < i ==> Unaccounted(canon, finding, stamp, candidates[j])
  }

  lemma RungExact(canon: Canon, finding: Finding, stamp: Stamp, repo: Option<string>, version: Version)
    ensures NewestRung(canon, finding, stamp, repo) == Some(version)
       <==> Reproduces(canon, finding, stamp, repo, version)
    ensures NewestRung(canon, finding, stamp, repo).None? <==> Unaccounted(canon, finding, stamp, repo)
  {
  }

  /** An attribution is the newest version that reproduces the stamp, under the first repository
      spelling for which one does; there is none exactly when no version does for any spelling. */
  lemma {:induction false} AttributionExact(
    canon: Canon, finding: Finding, stamp: Stamp, candidates: seq<Option<string>>, version: Version)
    ensures Attribution(canon, finding, stamp, candidates) == Some(version)
       <==> exists i: nat :: FirstAt(canon, finding, stamp, candidates, version, i)
    ensures Attribution(canon, finding, stamp, candidates).None?
       <==> forall c :: c in candidates ==> Unaccounted(canon, finding, stamp, c)
    decreases |candidates|
  {
    if candidates != [] {
      var first, rest := candidates[0], candidates[1..];
      assert candidates == [first] + rest;
      AttributionExact(canon, finding, stamp, rest, version);
      RungExact(canon, finding, stamp, first, version);
      if i: nat :| FirstAt(canon, finding, stamp, candidates, version, i) {
        if i > 0 {
          FirstInTail(canon, finding, stamp, candidates, version, i - 1);
        }
      }
      if NewestRung(canon, finding, stamp, first) == Some(version) {
        assert FirstAt(canon, finding, stamp, candidates, version, 0);
      }
      if i: nat :| FirstAt(canon, finding, stamp, rest, version, i) {
        FirstInTail(canon, finding, stamp, candidates, version, i);
      }
    }
  }

  lemma FirstInTail(
    canon: Canon, finding: Finding, stamp: Stamp, candidates: seq<Option<string>>, version: Version, i: nat)
    requires candidates != []
    ensures FirstAt(canon, finding, stamp, candidates, version, i + 1) <==>
      Unaccounted(canon, finding, stamp, candidates[0]) && FirstAt(canon, finding, stamp, candidates[1..], version, i)
  {
    var rest := candidates[1..];
    if FirstAt(canon, finding, stamp, candidates, version, i + 1) {
      forall j | 0 <= j < i
        ensures Unaccounted(canon, finding, stamp, rest[j])
      {
        assert rest[j] == candidates[j + 1];
      }
    }
    if Unaccounted(canon, finding, stamp, candidates[0]) && FirstAt(canon, finding, stamp, rest, version, i) {
      forall j | 0 <= j < i + 1
        ensures Unaccounted(canon, finding, stamp, candidates[j])
      {
        if j > 0 {
          assert candidates[j] == rest[j - 1];
        }
      }
    }
  }
}
