/** `sort_unstable` followed by `dedup` on numbers: the strictly increasing list of the same numbers. */
module SortedLists {
  import opened Lists

  predicate Sorted(s: seq<nat>) {
    forall i, j :: 0 <= i < j < |s| ==> s[i] <= s[j]
  }

  predicate Increasing(s: seq<nat>) {
    forall i, j :: 0 <= i < j < |s| ==> s[i] < s[j]
  }

  predicate Less(a: nat, b: nat) {
    a < b
  }

  /** Drops every element that equals its predecessor. */
  function Dedup(s: seq<nat>): seq<nat> {
    if |s| <= 1 then s
    else if s[0] == s[1] then Dedup(s[1..])
    else [s[0]] + Dedup(s[1..])
  }

  function SortDedup(s: seq<nat>): seq<nat> {
    Dedup(Sort(Less, s))
  }

  lemma SortedCons(x: nat, s: seq<nat>)
    requires Sorted(s) && forall y :: y in s ==> x <= y
    ensures Sorted([x] + s)
  {
    assert forall j :: 0 <= j < |s| ==> s[j] in s;
  }

  lemma {:induction false} InsertSorts(x: nat, s: seq<nat>)
    requires Sorted(s)
    ensures Sorted(Insert(Less, x, s))
  {
    if s == [] {
    } else if x < s[0] {
      assert forall y :: y in s ==> s[0] <= y;
      SortedCons(x, s);
    } else {
      InsertSorts(x, s[1..]);
      InsertMembers(Less, x, s[1..]);
      assert forall y :: y in s[1..] ==> s[0] <= y;
      assert forall y :: y in Insert(Less, x, s[1..]) ==> y in Members(s[1..]) + {x};
      SortedCons(s[0], Insert(Less, x, s[1..]));
    }
  }

  lemma {:induction false} SortSorts(s: seq<nat>)
    ensures Sorted(Sort(Less, s))
  {
    if s != [] {
      SortSorts(s[..|s| - 1]);
      InsertSorts(s[|s| - 1], Sort(Less, s[..|s| - 1]));
    }
  }

  lemma DedupUnfold(s: seq<nat>)
    requires |s| > 1
    ensures Dedup(s) == if s[0] == s[1] then Dedup(s[1..]) else [s[0]] + Dedup(s[1..])
  {
  }

  lemma IncreasingCons(x: nat, s: seq<nat>)
    requires Increasing(s) && forall y :: y in s ==> x < y
    ensures Increasing([x] + s)
  {
    assert forall j :: 0 <= j < |s| ==> s[j] in s;
  }

  lemma {:induction false} DedupIncreases(s: seq<nat>)
    requires Sorted(s)
    ensures Increasing(Dedup(s))
    ensures forall y :: y in Dedup(s) <==> y in s
    ensures |Dedup(s)| <= |s|
  {
    if |s| > 1 {
      var t := s[1..];
      DedupIncreases(t);
      assert s == [s[0]] + t;
      assert s[0] <= t[0] && forall y :: y in t ==> t[0] <= y;
      hide Dedup;
      DedupUnfold(s);
      if s[0] != s[1] {
        IncreasingCons(s[0], Dedup(t));
      }
    }
  }

  /** Sorting and deduplicating gives the strictly increasing list of the same numbers, no longer than the input. */
  lemma SortDedupIsIncreasing(s: seq<nat>)
    ensures Increasing(SortDedup(s)) && Members(SortDedup(s)) == Members(s) && |SortDedup(s)| <= |s|
  {
    SortSorts(s);
    SortMembers(Less, s);
    DedupIncreases(Sort(Less, s));
    assert forall y :: y in Dedup(Sort(Less, s)) <==> y in Members(Sort(Less, s));
  }

  lemma IncreasingHead(s: seq<nat>, x: nat)
    requires s != [] && Increasing(s) && x in s
    ensures s[0] <= x
    ensures x in s[1..] ==> s[0] < x
  {
  }

  lemma MembersEmpty(s: seq<nat>)
    ensures Members(s) == {} <==> s == []
  {
    if s != [] {
      assert s[0] in Members(s);
    }
  }

  /** The numbers fix the list: two strictly increasing lists of the same numbers are equal. */
  lemma {:induction false} IncreasingIsUnique(a: seq<nat>, b: seq<nat>)
    requires Increasing(a) && Increasing(b) && Members(a) == Members(b)
    ensures a == b
    decreases |a|
  {
    if a == [] {
      MembersEmpty(a);
      MembersEmpty(b);
    } else {
      assert a[0] in Members(b) && a[0] in b;
      assert b[0] in Members(a) && b[0] in a;
      IncreasingHead(a, b[0]);
      IncreasingHead(b, a[0]);
      forall x
        ensures x in Members(a[1..]) <==> x in Members(b[1..])
      {
        assert x in Members(a) <==> x in Members(b);
        assert a == [a[0]] + a[1..] && b == [b[0]] + b[1..];
        if x in a { IncreasingHead(a, x); }
        if x in b { IncreasingHead(b, x); }
      }
      assert Members(a[1..]) == Members(b[1..]);
      IncreasingIsUnique(a[1..], b[1..]);
      assert a == [a[0]] + a[1..] && b == [b[0]] + b[1..];
    }
  }

  /** Only the set of numbers matters. */
  lemma SortDedupDependsOnMembers(a: seq<nat>, b: seq<nat>)
    requires Members(a) == Members(b)
    ensures SortDedup(a) == SortDedup(b)
  {
    SortDedupIsIncreasing(a);
    SortDedupIsIncreasing(b);
    IncreasingIsUnique(SortDedup(a), SortDedup(b));
  }
}
