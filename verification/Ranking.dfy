/** Strict orders on finite sets, the sequences they rank, and the order of strings. */
module Ranking {
  import opened Lists

  ghost predicate StrictOn<T(!new)>(less: (T, T) -> bool, s: set<T>) {
    && (forall x :: x in s ==> !less(x, x))
    && (forall x, y :: x in s && y in s && x != y ==> less(x, y) != less(y, x))
    && (forall x, y, z :: x in s && y in s && z in s && less(x, y) && less(y, z) ==> less(x, z))
  }

  ghost predicate SortedBy<T(!new)>(less: (T, T) -> bool, r: seq<T>) {
    forall i, j :: 0 <= i < j < |r| ==> less(r[i], r[j])
  }

  /** `r` lists the members of `s`, best first. */
  ghost predicate IsRanking<T(!new)>(less: (T, T) -> bool, s: set<T>, r: seq<T>) {
    Members(r) == s && SortedBy(less, r)
  }

  /** The members of `s` that come before `x`. */
  ghost function Ahead<T(!new)>(less: (T, T) -> bool, s: set<T>, x: T): set<T> {
    set y | y in s && less(y, x)
  }

  lemma SortedTail<T(!new)>(less: (T, T) -> bool, r: seq<T>)
    requires r != [] && SortedBy(less, r)
    ensures SortedBy(less, r[1..])
    ensures forall y :: y in r[1..] ==> less(r[0], y)
  {
  }

  lemma SortedCons<T(!new)>(less: (T, T) -> bool, x: T, r: seq<T>)
    requires SortedBy(less, r) && forall y :: y in r ==> less(x, y)
    ensures SortedBy(less, [x] + r)
  {
    forall i, j | 0 <= i < j < |r| + 1
      ensures less(([x] + r)[i], ([x] + r)[j])
    {
      assert r[j - 1] in r;
    }
  }

  lemma {:induction false} InsertSorts<T(!new)>(less: (T, T) -> bool, s: set<T>, x: T, r: seq<T>)
    requires StrictOn(less, s) && SortedBy(less, r) && Members(r) <= s && x in s && x !in r
    ensures SortedBy(less, Insert(less, x, r))
  {
    if r != [] {
      var h, t := r[0], r[1..];
      SortedTail(less, r);
      assert h in r && h in Members(r) && h in s;
      assert forall y :: y in t ==> y in r && y in Members(r);
      if !less(x, h) {
        InsertSorts(less, s, x, t);
        InsertMembers(less, x, t);
        forall y | y in Insert(less, x, t)
          ensures less(h, y)
        {
          assert y in Members(Insert(less, x, t));
        }
        SortedCons(less, h, Insert(less, x, t));
      } else {
        SortedCons(less, x, r);
      }
    }
  }

  /** Sorting any listing of a set ranks the set. */
  lemma {:induction false} SortRanks<T(!new)>(less: (T, T) -> bool, all: set<T>, s: seq<T>)
    requires StrictOn(less, all) && Members(s) <= all && NoRepeats(s)
    ensures IsRanking(less, Members(s), Sort(less, s))
  {
    if s != [] {
      var front, x := s[..|s| - 1], s[|s| - 1];
      assert s == front + [x];
      assert Members(s) == Members(front) + {x};
      SortRanks(less, all, front);
      var r := Sort(less, front);
      assert x !in front;
      assert x in r <==> x in Members(r);
      InsertSorts(less, all, x, r);
      InsertMembers(less, x, r);
    }
  }

  lemma RankedNoRepeats<T(!new)>(less: (T, T) -> bool, s: set<T>, r: seq<T>)
    requires StrictOn(less, s) && IsRanking(less, s, r)
    ensures NoRepeats(r) && |r| == |s|
  {
    forall i, j | 0 <= i < j < |r|
      ensures r[i] != r[j]
    {
      assert r[i] in Members(r);
      assert less(r[i], r[j]);
    }
    MembersCount(r);
  }

  lemma SortedAt<T(!new)>(less: (T, T) -> bool, r: seq<T>, i: nat, k: nat)
    requires SortedBy(less, r) && i < |r| && k < |r|
    ensures i < k ==> less(r[i], r[k])
  {
  }

  /** The place of a member in a ranking is the number of members ahead of it. */
  lemma PlaceIsAhead<T(!new)>(less: (T, T) -> bool, s: set<T>, r: seq<T>, i: nat)
    requires StrictOn(less, s) && IsRanking(less, s, r) && i < |r|
    ensures Ahead(less, s, r[i]) == Members(r[..i]) && |Ahead(less, s, r[i])| == i
  {
    forall y
      ensures y in Ahead(less, s, r[i]) <==> y in r[..i]
    {
      assert forall k :: 0 <= k < |r| ==> r[k] in Members(r);
      if y in s && less(y, r[i]) {
        assert y in Members(r);
        var k :| 0 <= k < |r| && r[k] == y;
        SortedAt(less, r, i, k);
        assert r[..i][k] == y;
      }
      if y in r[..i] {
        var k :| 0 <= k < i && r[..i][k] == y;
        assert r[k] == y;
      }
    }
    RankedNoRepeats(less, s, r);
    MembersCount(r[..i]);
  }

  /** A set has only one ranking, so it does not matter in which order its members were met. */
  lemma RankingIsUnique<T(!new)>(less: (T, T) -> bool, s: set<T>, r: seq<T>, q: seq<T>)
    requires StrictOn(less, s) && IsRanking(less, s, r) && IsRanking(less, s, q)
    ensures r == q
  {
    RankedNoRepeats(less, s, r);
    RankedNoRepeats(less, s, q);
    forall i | 0 <= i < |r|
      ensures r[i] == q[i]
    {
      assert r[i] in Members(q);
      var j :| 0 <= j < |q| && q[j] == r[i];
      PlaceIsAhead(less, s, r, i);
      PlaceIsAhead(less, s, q, j);
    }
  }

  lemma {:induction false} RankingExists<T(!new)>(less: (T, T) -> bool, all: set<T>, s: set<T>) returns (r: seq<T>)
    requires StrictOn(less, all) && s <= all
    ensures IsRanking(less, s, r)
    decreases s
  {
    r := [];
    if s != {} {
      var x :| x in s;
      var q := RankingExists(less, all, s - {x});
      assert x in q <==> x in Members(q);
      InsertSorts(less, all, x, q);
      InsertMembers(less, x, q);
      r := Insert(less, x, q);
    }
  }

  // ------------------------------------------------------------ string order

  /** Rust compares strings byte by byte, which on UTF-8 is character by character. */
  predicate StringLess(a: string, b: string) {
    b != [] && (a == [] || a[0] < b[0] || (a[0] == b[0] && StringLess(a[1..], b[1..])))
  }

  /** `a` and `b` agree up to `k`, where `a` ends or has the smaller character. */
  predicate LessAt(a: string, b: string, k: nat) {
    k <= |a| && k < |b| && a[..k] == b[..k] && (k < |a| ==> a[k] < b[k])
  }

  lemma LessAtTail(a: string, b: string, k: nat)
    ensures LessAt(a, b, 0) <==> b != [] && (a == [] || a[0] < b[0])
    ensures LessAt(a, b, k + 1) <==> a != [] && b != [] && a[0] == b[0] && LessAt(a[1..], b[1..], k)
  {
    if k + 1 <= |a| && k + 1 <= |b| {
      assert a[..k + 1] == [a[0]] + a[1..][..k] && b[..k + 1] == [b[0]] + b[1..][..k];
      assert [a[0]] + a[1..][..k] == [b[0]] + b[1..][..k] <==> a[0] == b[0] && a[1..][..k] == b[1..][..k] by {
        assert ([a[0]] + a[1..][..k])[1..] == a[1..][..k] && ([b[0]] + b[1..][..k])[1..] == b[1..][..k];
      }
    }
  }

  /** The order by the first difference, a proper prefix coming first. */
  lemma {:induction false} StringLessIff(a: string, b: string)
    ensures StringLess(a, b) <==> exists k: nat :: LessAt(a, b, k)
  {
    if a != [] && b != [] {
      StringLessIff(a[1..], b[1..]);
    }
    LessAtTail(a, b, 0);
    hide LessAt;
    if StringLess(a, b) && !LessAt(a, b, 0) {
      var k: nat :| LessAt(a[1..], b[1..], k);
      LessAtTail(a, b, k);
      assert LessAt(a, b, k + 1);
    }
    if k: nat :| LessAt(a, b, k) {
      if k > 0 {
        LessAtTail(a, b, k - 1);
        assert LessAt(a[1..], b[1..], k - 1);
      }
    }
  }

  lemma {:induction false} StringLessTotal(a: string, b: string)
    ensures !StringLess(a, a)
    ensures a != b ==> StringLess(a, b) != StringLess(b, a)
  {
    if a != [] {
      StringLessTotal(a[1..], a[1..]);
      if b != [] && a[0] == b[0] {
        StringLessTotal(a[1..], b[1..]);
        assert a == [a[0]] + a[1..] && b == [b[0]] + b[1..];
      }
    }
  }

  lemma {:induction false} StringLessTransitive(a: string, b: string, c: string)
    requires StringLess(a, b) && StringLess(b, c)
    ensures StringLess(a, c)
  {
    if a != [] && a[0] == b[0] == c[0] {
      StringLessTransitive(a[1..], b[1..], c[1..]);
    }
  }
}
