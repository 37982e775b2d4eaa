/** Selecting events, and sorting them stably by the instant they were recorded at. */
module StableSort {
  import opened Wrappers
  import opened Events

  function At(event: Event): int {
    event.recordedAt.instant
  }

  function Filter(s: seq<Event>, keep: Event -> bool): (kept: seq<Event>) {
    if s == [] then []
    else Filter(s[..|s| - 1], keep) + if keep(s[|s| - 1]) then [s[|s| - 1]] else []
  }

  lemma FilterSnoc(s: seq<Event>, x: Event, keep: Event -> bool)
    ensures Filter(s + [x], keep) == Filter(s, keep) + if keep(x) then [x] else []
  {
    assert (s + [x])[..|s|] == s;
  }

  lemma {:induction false} FilterOfConcat(a: seq<Event>, b: seq<Event>, keep: Event -> bool)
    ensures Filter(a + b, keep) == Filter(a, keep) + Filter(b, keep)
    decreases |b|
  {
    if b == [] {
      assert a + b == a;
    } else {
      var init, last := b[..|b| - 1], b[|b| - 1];
      assert a + b == (a + init) + [last];
      FilterSnoc(a + init, last, keep);
      FilterOfConcat(a, init, keep);
    }
  }

  lemma {:induction false} FilterKeeps(s: seq<Event>, keep: Event -> bool, x: Event)
    ensures x in Filter(s, keep) <==> x in s && keep(x)
  {
    if s != [] {
      FilterKeeps(s[..|s| - 1], keep, x);
      assert s == s[..|s| - 1] + [s[|s| - 1]];
    }
  }

  /** Inserting an element that is not selected changes nothing. */
  lemma FilterIgnores(a: seq<Event>, x: Event, b: seq<Event>, keep: Event -> bool)
    requires !keep(x)
    ensures Filter(a + [x] + b, keep) == Filter(a + b, keep)
  {
    FilterSnoc(a, x, keep);
    FilterOfConcat(a + [x], b, keep);
    FilterOfConcat(a, b, keep);
  }

  /** Place `x` after everything whose key is no greater. */
  function Insert(sorted: seq<Event>, x: Event): seq<Event> {
    if sorted == [] || At(sorted[|sorted| - 1]) <= At(x) then sorted + [x]
    else Insert(sorted[..|sorted| - 1], x) + [sorted[|sorted| - 1]]
  }

  function Sort(s: seq<Event>): seq<Event> {
    if s == [] then [] else Insert(Sort(s[..|s| - 1]), s[|s| - 1])
  }

  lemma SortSnoc(s: seq<Event>, x: Event)
    ensures Sort(s + [x]) == Insert(Sort(s), x)
  {
    assert (s + [x])[..|s|] == s;
  }

  predicate Ordered(s: seq<Event>) {
    forall i, j :: 0 <= i < j < |s| ==> At(s[i]) <= At(s[j])
  }

  lemma InsertBelow(sorted: seq<Event>, last: Event, x: Event)
    requires At(last) > At(x)
    ensures Insert(sorted + [last], x) == Insert(sorted, x) + [last]
  {
    assert (sorted + [last])[..|sorted|] == sorted;
  }

  lemma {:induction false} InsertMembers(sorted: seq<Event>, x: Event)
    ensures multiset(Insert(sorted, x)) == multiset(sorted) + multiset{x}
    ensures forall e :: e in Insert(sorted, x) <==> e in sorted || e == x
  {
    if sorted != [] && At(sorted[|sorted| - 1]) > At(x) {
      var init, last := sorted[..|sorted| - 1], sorted[|sorted| - 1];
      assert sorted == init + [last];
      InsertMembers(init, x);
    }
  }

  lemma {:induction false} InsertOrders(sorted: seq<Event>, x: Event)
    requires Ordered(sorted)
    ensures Ordered(Insert(sorted, x))
  {
    if sorted != [] && At(sorted[|sorted| - 1]) > At(x) {
      var init := sorted[..|sorted| - 1];
      InsertOrders(init, x);
      InsertMembers(init, x);
      assert forall e :: e in init ==> At(e) <= At(sorted[|sorted| - 1]);
    }
  }

  lemma {:induction false} SortOrders(s: seq<Event>)
    ensures Ordered(Sort(s)) && multiset(Sort(s)) == multiset(s)
  {
    if s != [] {
      SortOrders(s[..|s| - 1]);
      InsertOrders(Sort(s[..|s| - 1]), s[|s| - 1]);
      InsertMembers(Sort(s[..|s| - 1]), s[|s| - 1]);
      assert s == s[..|s| - 1] + [s[|s| - 1]];
    }
  }

  lemma SortKeepsMembers(s: seq<Event>, x: Event)
    ensures x in Sort(s) <==> x in s
  {
    SortOrders(s);
    assert x in Sort(s) <==> x in multiset(Sort(s));
    assert x in s <==> x in multiset(s);
  }

  lemma {:induction false} FilterOfInsert(sorted: seq<Event>, x: Event, keep: Event -> bool)
    requires Ordered(sorted)
    ensures Filter(Insert(sorted, x), keep)
         == if keep(x) then Insert(Filter(sorted, keep), x) else Filter(sorted, keep)
  {
    var kept := Filter(sorted, keep);
    if sorted == [] || At(sorted[|sorted| - 1]) <= At(x) {
      FilterSnoc(sorted, x, keep);
      if kept != [] {
        FilterKeeps(sorted, keep, kept[|kept| - 1]);
      }
    } else {
      var init, last := sorted[..|sorted| - 1], sorted[|sorted| - 1];
      assert Ordered(init);
      FilterOfInsert(init, x, keep);
      FilterSnoc(Insert(init, x), last, keep);
      if keep(last) {
        InsertBelow(Filter(init, keep), last, x);
      } else {
        assert kept == Filter(init, keep);
        assert Filter(Insert(sorted, x), keep) == Filter(Insert(init, x), keep);
      }
    }
  }

  /** The sort is stable: it commutes with every selection. */
  lemma {:induction false} FilterOfSort(s: seq<Event>, keep: Event -> bool)
    ensures Filter(Sort(s), keep) == Sort(Filter(s, keep))
  {
    if s != [] {
      var init, last := s[..|s| - 1], s[|s| - 1];
      FilterOfSort(init, keep);
      SortOrders(init);
      FilterOfInsert(Sort(init), last, keep);
      if keep(last) {
        SortSnoc(Filter(init, keep), last);
      } else {
        assert Filter(s, keep) == Filter(init, keep);
      }
    }
  }

  function LastOf(s: seq<Event>): Option<Event> {
    if s == [] then None else Some(s[|s| - 1])
  }

  /** The greatest key among the selected, and the last of those that tie; found by a scan. */
  function Latest(s: seq<Event>, keep: Event -> bool): Option<Event> {
    if s == [] then None
    else
      var last, earlier := s[|s| - 1], Latest(s[..|s| - 1], keep);
      if !keep(last) then earlier
      else if earlier.Some? && At(earlier.value) > At(last) then earlier
      else Some(last)
  }

  /** The last of the sorted selection is the one the scan finds. */
  lemma {:induction false} LastOfSorted(s: seq<Event>, keep: Event -> bool)
    ensures LastOf(Filter(Sort(s), keep)) == Latest(s, keep)
  {
    if s != [] {
      var init, last := s[..|s| - 1], s[|s| - 1];
      LastOfSorted(init, keep);
      SortOrders(init);
      FilterOfInsert(Sort(init), last, keep);
    }
  }

  /** What the scan picks, by position: selected, and after every other selected element in
      the order by key and then by position. */
  predicate NewestAt(s: seq<Event>, keep: Event -> bool, i: int) {
    && 0 <= i < |s| && keep(s[i])
    && forall j :: 0 <= j < |s| && keep(s[j]) ==> At(s[j]) < At(s[i]) || (At(s[j]) == At(s[i]) && j <= i)
  }

  lemma {:induction false} LatestIsNewest(s: seq<Event>, keep: Event -> bool)
    ensures Latest(s, keep).Some? ==> exists i :: NewestAt(s, keep, i) && s[i] == Latest(s, keep).value
    ensures Latest(s, keep).None? ==> forall x :: x in s ==> !keep(x)
  {
    if s != [] {
      var init, last := s[..|s| - 1], s[|s| - 1];
      LatestIsNewest(init, keep);
      assert s == init + [last];
      var earlier := Latest(init, keep);
      if keep(last) && !(earlier.Some? && At(earlier.value) > At(last)) {
        assert NewestAt(s, keep, |s| - 1) by {
          if earlier.Some? {
            var i :| NewestAt(init, keep, i) && init[i] == earlier.value;
            assert forall j :: 0 <= j < |init| ==> s[j] == init[j];
          }
        }
      } else if earlier.Some? {
        var i :| NewestAt(init, keep, i) && init[i] == earlier.value;
        assert forall j :: 0 <= j < |init| ==> s[j] == init[j];
        assert NewestAt(s, keep, i);
      }
    }
  }

  /** No two events were recorded at the same instant. */
  predicate DistinctInstants(s: seq<Event>) {
    forall i, j :: 0 <= i < j < |s| ==> At(s[i]) != At(s[j])
  }

  lemma OrderedLast(s: seq<Event>, x: Event)
    requires Ordered(s) && x in s
    ensures At(x) <= At(s[|s| - 1])
  {
  }

  predicate NoTies(s: seq<Event>) {
    forall x, y :: x in s && y in s && At(x) == At(y) ==> x == y
  }

  lemma SameLast(a: seq<Event>, b: seq<Event>)
    requires a != [] && b != [] && Ordered(a) && Ordered(b) && multiset(a) == multiset(b) && NoTies(a)
    ensures a[|a| - 1] == b[|b| - 1]
  {
    var al, bl := a[|a| - 1], b[|b| - 1];
    assert al in multiset(b) && bl in multiset(a);
    OrderedLast(a, bl);
    OrderedLast(b, al);
  }

  lemma DropLast(a: seq<Event>) returns (init: seq<Event>)
    requires a != [] && Ordered(a)
    ensures a == init + [a[|a| - 1]]
    ensures Ordered(init)
  {
    init := a[..|a| - 1];
  }

  lemma PeelLast(a: seq<Event>, b: seq<Event>) returns (ai: seq<Event>, bi: seq<Event>, last: Event)
    requires a != [] && Ordered(a) && Ordered(b) && multiset(a) == multiset(b) && NoTies(a)
    ensures a == ai + [last] && b == bi + [last]
    ensures Ordered(ai) && Ordered(bi)
  {
    assert a[0] in multiset(b);
    SameLast(a, b);
    last := a[|a| - 1];
    ai := DropLast(a);
    bi := DropLast(b);
  }

  lemma {:induction false} OrderedUnique(a: seq<Event>, b: seq<Event>)
    requires Ordered(a) && Ordered(b) && multiset(a) == multiset(b) && NoTies(a)
    ensures a == b
    decreases |a|
  {
    if a == [] {
      assert |multiset(b)| == |b|;
    } else {
      var ai, bi, last := PeelLast(a, b);
      assert multiset(ai) == multiset(a) - multiset{last};
      assert multiset(bi) == multiset(b) - multiset{last};
      OrderedUnique(ai, bi);
    }
  }

  /** With distinct keys, the sorted order does not depend on the order given. */
  lemma SortOfPermutation(a: seq<Event>, b: seq<Event>)
    requires multiset(a) == multiset(b) && DistinctInstants(a)
    ensures Sort(a) == Sort(b)
  {
    SortOrders(a);
    SortOrders(b);
    forall x, y | x in Sort(a) && y in Sort(a) && At(x) == At(y)
      ensures x == y
    {
      SortKeepsMembers(a, x);
      SortKeepsMembers(a, y);
      var i, j :| 0 <= i < |a| && 0 <= j < |a| && a[i] == x && a[j] == y;
    }
    OrderedUnique(Sort(a), Sort(b));
  }

  lemma SetHasTwo<T>(s: set<T>)
    ensures |s| >= 2 <==> exists x, y :: x in s && y in s && x != y
  {
    if s != {} {
      var x :| x in s;
      var rest := s - {x};
      assert |s| == |rest| + 1;
      if rest != {} {
        var y :| y in rest;
        assert x != y && y in s;
        assert |rest| > 0;
      } else {
        assert forall y :: y in s ==> y == x;
      }
    }
  }
}
