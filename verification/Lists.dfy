/** Lists without repeats, and the sets of their members. */
module Lists {
  ghost function Members<T>(s: seq<T>): set<T> {
    set x | x in s
  }

  ghost predicate NoRepeats<T>(s: seq<T>) {
    forall i, j :: 0 <= i < j < |s| ==> s[i] != s[j]
  }

  /** The members in the order of their first mention. */
  function Distinct<T(==)>(s: seq<T>): seq<T> {
    if s == [] then []
    else
      var front, last := s[..|s| - 1], s[|s| - 1];
      if last in front then Distinct(front) else Distinct(front) + [last]
  }

  lemma MembersSnoc<T>(s: seq<T>, x: T)
    ensures Members(s + [x]) == Members(s) + {x}
  {
  }

  lemma MembersConcat<T>(a: seq<T>, b: seq<T>)
    ensures Members(a + b) == Members(a) + Members(b)
  {
  }

  lemma {:induction false} MembersCount<T>(s: seq<T>)
    requires NoRepeats(s)
    ensures |Members(s)| == |s|
  {
    if s == [] {
      assert Members(s) == {};
    } else {
      var front, x := s[..|s| - 1], s[|s| - 1];
      MembersCount(front);
      assert s == front + [x] && x !in front;
      assert Members(s) == Members(front) + {x};
    }
  }

  lemma PrefixNoRepeats<T>(s: seq<T>, k: nat)
    requires k <= |s| && NoRepeats(s)
    ensures NoRepeats(s[..k])
  {
  }

  /** Every member is mentioned once, and a list without repeats stays as it is. */
  lemma {:induction false} DistinctFacts<T>(s: seq<T>)
    ensures forall x :: x in Distinct(s) <==> x in s
    ensures NoRepeats(Distinct(s)) && |Distinct(s)| <= |s|
    ensures NoRepeats(s) ==> Distinct(s) == s
  {
    if s != [] {
      var front, last := s[..|s| - 1], s[|s| - 1];
      assert s == front + [last];
      DistinctFacts(front);
    }
  }

  // ---------------------------------------------------------------- counting

  lemma SubsetCount<T>(a: set<T>, b: set<T>)
    requires a <= b
    ensures |a| <= |b|
  {
    assert b == a + (b - a);
  }

  lemma EqualCount<T>(a: set<T>, b: set<T>)
    requires a <= b && |a| == |b|
    ensures a == b
  {
    assert b == a + (b - a);
    assert |b - a| == 0;
  }

  lemma {:induction false} TakeSubset<T>(s: set<T>, n: nat) returns (t: set<T>)
    requires n <= |s|
    ensures t <= s && |t| == n
  {
    t := {};
    if n > 0 {
      var x :| x in s;
      var rest := TakeSubset(s - {x}, n - 1);
      t := rest + {x};
    }
  }

  lemma OneValueLess(values: nat, n: nat)
    requires values > 0
    ensures values * n == (values - 1) * n + n
  {
  }

  /** Enough members and few enough values: some value is taken `n` times. */
  lemma {:induction false} Pigeonhole<T>(f: T -> nat, s: set<T>, values: nat, n: nat) returns (t: set<T>)
    requires values > 0 && n > 0 && |s| > values * (n - 1) && forall x :: x in s ==> f(x) < values
    ensures t <= s && |t| == n && forall x, y :: x in t && y in t ==> f(x) == f(y)
    decreases values
  {
    var same := set x | x in s && f(x) == values - 1;
    OneValueLess(values, n - 1);
    if |same| >= n {
      t := TakeSubset(same, n);
    } else {
      assert s == same + (s - same);
      assert values == 1 ==> s == same;
      t := Pigeonhole(f, s - same, values - 1, n);
    }
  }

  // ----------------------------------------------------------------- sorting

  function Insert<T>(less: (T, T) -> bool, x: T, r: seq<T>): seq<T> {
    if r == [] then [x]
    else if less(x, r[0]) then [x] + r
    else [r[0]] + Insert(less, x, r[1..])
  }

  /** A stable sort: each element goes behind the earlier ones that it is not less than. */
  function Sort<T>(less: (T, T) -> bool, s: seq<T>): seq<T> {
    if s == [] then [] else Insert(less, s[|s| - 1], Sort(less, s[..|s| - 1]))
  }

  lemma {:induction false} InsertMembers<T>(less: (T, T) -> bool, x: T, r: seq<T>)
    ensures Members(Insert(less, x, r)) == Members(r) + {x}
    ensures |Insert(less, x, r)| == |r| + 1
  {
    if r != [] && !less(x, r[0]) {
      InsertMembers(less, x, r[1..]);
      assert r == [r[0]] + r[1..];
      assert Members(r) == {r[0]} + Members(r[1..]);
      assert Members(Insert(less, x, r)) == {r[0]} + Members(Insert(less, x, r[1..]));
    } else if r != [] {
      assert Members([x] + r) == {x} + Members(r);
    }
  }

  lemma {:induction false} SortMembers<T>(less: (T, T) -> bool, s: seq<T>)
    ensures Members(Sort(less, s)) == Members(s) && |Sort(less, s)| == |s|
  {
    if s != [] {
      var front, x := s[..|s| - 1], s[|s| - 1];
      SortMembers(less, front);
      InsertMembers(less, x, Sort(less, front));
      assert s == front + [x];
      MembersSnoc(front, x);
    }
  }
}
