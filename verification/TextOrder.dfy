/** Strings in code-point order, and sets of strings listed in it. */
module TextOrder {
  // ---------- strings in code-point order ----------

  predicate Leq(a: string, b: string) {
    a == "" || (b != "" && (a[0] < b[0] || (a[0] == b[0] && Leq(a[1..], b[1..]))))
  }

  lemma {:induction false} LeqTotal(a: string, b: string)
    ensures Leq(a, b) || Leq(b, a)
    ensures Leq(a, b) && Leq(b, a) ==> a == b
  {
    if a != "" && b != "" && a[0] == b[0] {
      LeqTotal(a[1..], b[1..]);
      assert a == [a[0]] + a[1..] && b == [b[0]] + b[1..];
    }
  }

  lemma {:induction false} LeqTransitive(a: string, b: string, c: string)
    requires Leq(a, b) && Leq(b, c)
    ensures Leq(a, c)
  {
    if a != "" && a[0] == b[0] && b[0] == c[0] {
      LeqTransitive(a[1..], b[1..], c[1..]);
    }
  }

  predicate Less(a: string, b: string) {
    Leq(a, b) && a != b
  }

  // ---------- sorted sets ----------

  function Member(sorted: seq<string>, s: string): seq<string> {
    if sorted == [] then [s]
    else if sorted[0] == s then sorted
    else if Leq(s, sorted[0]) then [s] + sorted
    else [sorted[0]] + Member(sorted[1..], s)
  }

  /** `sorted(set(items))`. */
  function SortedSet(items: seq<string>): seq<string> {
    if items == [] then [] else Member(SortedSet(items[1..]), items[0])
  }

  predicate Increasing(s: seq<string>) {
    |s| >= 2 ==> Less(s[0], s[1]) && Increasing(s[1..])
  }

  lemma {:induction false} IncreasingHead(s: seq<string>, x: string)
    requires Increasing(s) && s != [] && x in s[1..]
    ensures Less(s[0], x)
  {
    if x != s[1] {
      IncreasingHead(s[1..], x);
      LeqTransitive(s[0], s[1], x);
      LeqTotal(s[0], s[1]);
    }
  }

  lemma {:induction false} MemberKeeps(sorted: seq<string>, s: string)
    requires Increasing(sorted)
    ensures Increasing(Member(sorted, s))
    ensures forall x :: x in Member(sorted, s) <==> x in sorted || x == s
  {
    if sorted != [] && sorted[0] != s {
      LeqTotal(s, sorted[0]);
      if !Leq(s, sorted[0]) {
        MemberKeeps(sorted[1..], s);
        assert sorted == [sorted[0]] + sorted[1..];
        var tail := Member(sorted[1..], s);
        assert tail[0] in tail;
        assert tail[0] == s || tail[0] in sorted[1..];
        if tail[0] != s {
          IncreasingHead(sorted, tail[0]);
        }
        assert ([sorted[0]] + tail)[1..] == tail;
      } else {
        assert ([s] + sorted)[1..] == sorted;
      }
    }
  }

  lemma {:induction false} SortedSetExact(items: seq<string>)
    ensures Increasing(SortedSet(items))
    ensures forall x :: x in SortedSet(items) <==> x in items
  {
    if items != [] {
      SortedSetExact(items[1..]);
      MemberKeeps(SortedSet(items[1..]), items[0]);
      assert items == [items[0]] + items[1..];
    }
  }

  lemma {:induction false} IncreasingUnique(a: seq<string>, b: seq<string>)
    requires Increasing(a) && Increasing(b)
    requires forall x :: x in a <==> x in b
    ensures a == b
    decreases |a|
  {
    assert b == [] || b[0] in b;
    if a != [] {
      assert a[0] in b && b[0] in a;
      SameHead(a, b);
      assert a == [a[0]] + a[1..] && b == [b[0]] + b[1..];
      forall x
        ensures x in a[1..] <==> x in b[1..]
      {
        if x in a[1..] {
          IncreasingHead(a, x);
          assert x in a && x in b;
        }
        if x in b[1..] {
          IncreasingHead(b, x);
          assert x in b && x in a;
        }
      }
      IncreasingUnique(a[1..], b[1..]);
    }
  }

  lemma SameHead(a: seq<string>, b: seq<string>)
    requires Increasing(a) && Increasing(b) && a != [] && b != [] && a[0] in b && b[0] in a
    ensures a[0] == b[0]
  {
    if a[0] != b[0] {
      assert a == [a[0]] + a[1..] && b == [b[0]] + b[1..];
      IncreasingHead(a, b[0]);
      IncreasingHead(b, a[0]);
      LeqTotal(a[0], b[0]);
    }
  }

  /** Sorting a set depends on the set only. */
  lemma SortedSetOfSame(a: seq<string>, b: seq<string>)
    requires forall x :: x in a <==> x in b
    ensures SortedSet(a) == SortedSet(b)
  {
    SortedSetExact(a);
    SortedSetExact(b);
    IncreasingUnique(SortedSet(a), SortedSet(b));
  }
}
