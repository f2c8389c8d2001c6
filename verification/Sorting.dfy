/**
  Sorting by a total preorder, as `sorted` and `list.sort` do it: a stable insertion sort
  used as the specification of both.  Counting lemmas connect positions in the sorted
  sequence with the number of elements on either side of a value.
*/
module Sorting {

  ghost predicate TotalPreorder<T(!new)>(leq: (T, T) -> bool) {
    && (forall x, y :: leq(x, y) || leq(y, x))
    && (forall x, y, z :: leq(x, y) && leq(y, z) ==> leq(x, z))
  }

  ghost predicate TotalOrder<T(!new)>(leq: (T, T) -> bool) {
    && TotalPreorder(leq)
    && (forall x, y :: leq(x, y) && leq(y, x) ==> x == y)
  }

  ghost predicate Sorted<T>(leq: (T, T) -> bool, s: seq<T>) {
    forall i, j :: 0 <= i < j < |s| ==> leq(s[i], s[j])
  }

  /** Inserts `x` behind every element that is not above it. */
  function Insert<T>(leq: (T, T) -> bool, x: T, s: seq<T>): (r: seq<T>)
    ensures |r| == |s| + 1
    ensures multiset(r) == multiset(s) + multiset{x}
  {
    if s == [] || !leq(s[0], x) then [x] + s
    else
      assert s == [s[0]] + s[1..];
      [s[0]] + Insert(leq, x, s[1..])
  }

  function Sort<T>(leq: (T, T) -> bool, s: seq<T>): (r: seq<T>)
    ensures |r| == |s|
    ensures multiset(r) == multiset(s)
  {
    if s == [] then []
    else
      assert s == s[..|s| - 1] + [s[|s| - 1]];
      Insert(leq, s[|s| - 1], Sort(leq, s[..|s| - 1]))
  }

  /** The number of elements that satisfy `p`. */
  function Count<T>(p: T -> bool, s: seq<T>): (n: nat)
    ensures n <= |s|
  {
    if s == [] then 0 else (if p(s[0]) then 1 else 0) + Count(p, s[1..])
  }

  lemma {:induction false} InsertSorted<T(!new)>(leq: (T, T) -> bool, x: T, s: seq<T>)
    requires TotalPreorder(leq) && Sorted(leq, s)
    ensures Sorted(leq, Insert(leq, x, s))
  {
    if s != [] && leq(s[0], x) {
      InsertSorted(leq, x, s[1..]);
      var t := Insert(leq, x, s[1..]);
      forall j | 0 <= j < |t| ensures leq(s[0], t[j]) {
        assert t[j] in multiset(t);
        if t[j] != x { assert t[j] in s[1..]; }
      }
    } else if s != [] {
      forall j | 0 <= j < |s| ensures leq(x, s[j]) {
        assert leq(x, s[0]);
      }
    }
  }

  lemma {:induction false} SortSorts<T(!new)>(leq: (T, T) -> bool, s: seq<T>)
    requires TotalPreorder(leq)
    ensures Sorted(leq, Sort(leq, s))
  {
    if s != [] {
      SortSorts(leq, s[..|s| - 1]);
      InsertSorted(leq, s[|s| - 1], Sort(leq, s[..|s| - 1]));
    }
  }

  /** A sorted sequence is determined by its elements, whatever order they came in. */
  lemma {:induction false} SortedUnique<T(!new)>(leq: (T, T) -> bool, s: seq<T>, t: seq<T>)
    requires TotalOrder(leq) && Sorted(leq, s) && Sorted(leq, t)
    requires multiset(s) == multiset(t)
    ensures s == t
  {
    if s == [] {
      assert |multiset(t)| == 0;
    } else {
      assert |multiset(s)| == |s| && |multiset(t)| == |t|;
      assert s[0] in multiset(t) && t[0] in multiset(s);
      assert s[0] == t[0];
      assert s == [s[0]] + s[1..] && t == [t[0]] + t[1..];
      assert multiset(s[1..]) == multiset(s) - multiset{s[0]};
      assert multiset(t[1..]) == multiset(t) - multiset{s[0]};
      SortedUnique(leq, s[1..], t[1..]);
    }
  }

  lemma SortIgnoresOrder<T(!new)>(leq: (T, T) -> bool, s: seq<T>, t: seq<T>)
    requires TotalOrder(leq)
    requires multiset(s) == multiset(t)
    ensures Sort(leq, s) == Sort(leq, t)
  {
    SortSorts(leq, s);
    SortSorts(leq, t);
    SortedUnique(leq, Sort(leq, s), Sort(leq, t));
  }

  lemma {:induction false} CountConcat<T>(p: T -> bool, s: seq<T>, t: seq<T>)
    ensures Count(p, s + t) == Count(p, s) + Count(p, t)
  {
    if s == [] {
      assert s + t == t;
    } else {
      assert (s + t)[1..] == s[1..] + t;
      CountConcat(p, s[1..], t);
    }
  }

  function Without<T>(s: seq<T>, k: nat): (r: seq<T>)
    requires k < |s|
    ensures |r| == |s| - 1
    ensures multiset(r) == multiset(s) - multiset{s[k]}
  {
    assert s == s[..k] + [s[k]] + s[k + 1..];
    s[..k] + s[k + 1..]
  }

  lemma CountWithout<T>(p: T -> bool, s: seq<T>, k: nat)
    requires k < |s|
    ensures Count(p, s) == Count(p, Without(s, k)) + (if p(s[k]) then 1 else 0)
  {
    var tail := s[k..];
    assert tail[1..] == s[k + 1..];
    assert s == s[..k] + tail;
    CountConcat(p, s[..k], tail);
    CountConcat(p, s[..k], s[k + 1..]);
  }

  lemma {:induction false} CountIgnoresOrder<T>(p: T -> bool, s: seq<T>, t: seq<T>)
    requires multiset(s) == multiset(t)
    ensures Count(p, s) == Count(p, t)
  {
    if s == [] {
      assert |multiset(t)| == 0;
    } else {
      assert s[0] in multiset(t);
      var k :| 0 <= k < |t| && t[k] == s[0];
      assert s[1..] == Without(s, 0);
      CountIgnoresOrder(p, s[1..], Without(t, k));
      CountWithout(p, t, k);
    }
  }

  lemma {:induction false} CountNone<T>(p: T -> bool, s: seq<T>)
    requires forall i :: 0 <= i < |s| ==> !p(s[i])
    ensures Count(p, s) == 0
  {
    if s != [] { CountNone(p, s[1..]); }
  }

  lemma {:induction false} CountAll<T>(p: T -> bool, s: seq<T>)
    requires forall i :: 0 <= i < |s| ==> p(s[i])
    ensures Count(p, s) == |s|
  {
    if s != [] { CountAll(p, s[1..]); }
  }

  lemma {:induction false} CountMonotone<T(!new)>(p: T -> bool, q: T -> bool, s: seq<T>)
    requires forall x :: x in s && p(x) ==> q(x)
    ensures Count(p, s) <= Count(q, s)
  {
    if s != [] { CountMonotone(p, q, s[1..]); }
  }

  /** A nonzero count has a witness. */
  lemma {:induction false} CountWitness<T>(p: T -> bool, s: seq<T>) returns (k: nat)
    requires Count(p, s) > 0
    ensures k < |s| && p(s[k])
  {
    if p(s[0]) { k := 0; } else {
      var j := CountWitness(p, s[1..]);
      k := j + 1;
    }
  }

  /** If more than `k` elements satisfy a downward-closed property, the first `k + 1` of the
      sorted sequence do. */
  lemma SortedCountBelow<T(!new)>(leq: (T, T) -> bool, p: T -> bool, s: seq<T>, k: nat)
    requires Sorted(leq, s)
    requires forall x, y :: leq(x, y) && p(y) ==> p(x)
    requires Count(p, s) > k
    ensures k < |s| && forall i :: 0 <= i <= k ==> p(s[i])
  {
    if i :| 0 <= i <= k && !p(s[i]) {
      assert s == s[..i] + s[i..];
      CountConcat(p, s[..i], s[i..]);
      forall j | 0 <= j < |s[i..]| ensures !p(s[i..][j]) {
        assert s[i..][j] == s[i + j];
      }
      CountNone(p, s[i..]);
      assert false;
    }
  }

  /** Conversely, position `k` of the sorted sequence bounds the count from below. */
  lemma SortedPositionCounts<T(!new)>(leq: (T, T) -> bool, p: T -> bool, s: seq<T>, k: nat)
    requires Sorted(leq, s) && k < |s|
    requires forall x, y :: leq(x, y) && p(y) ==> p(x)
    requires p(s[k])
    ensures Count(p, s) > k
  {
    assert s == s[..k + 1] + s[k + 1..];
    CountConcat(p, s[..k + 1], s[k + 1..]);
    CountAll(p, s[..k + 1]);
  }

  // ---- filtering ----

  /** The elements that satisfy `p`, in order. */
  function Filter<T(!new)>(p: T -> bool, s: seq<T>): (r: seq<T>)
    ensures forall x :: x in r <==> x in s && p(x)
  {
    if s == [] then []
    else
      var rest := Filter(p, s[..|s| - 1]);
      assert forall x :: x in s <==> x in s[..|s| - 1] || x == s[|s| - 1];
      if p(s[|s| - 1]) then rest + [s[|s| - 1]] else rest
  }

  lemma FilterSnoc<T(!new)>(p: T -> bool, s: seq<T>, x: T)
    ensures Filter(p, s + [x]) == if p(x) then Filter(p, s) + [x] else Filter(p, s)
  {
    assert (s + [x])[..|s|] == s;
  }

  lemma {:induction false} FilterConcat<T(!new)>(p: T -> bool, s: seq<T>, t: seq<T>)
    ensures Filter(p, s + t) == Filter(p, s) + Filter(p, t)
  {
    if t == [] {
      assert s + t == s;
    } else {
      var n := |t| - 1;
      assert s + t == s + t[..n] + [t[n]];
      FilterSnoc(p, s + t[..n], t[n]);
      FilterConcat(p, s, t[..n]);
    }
  }

  lemma FilterAround<T(!new)>(p: T -> bool, s: seq<T>, k: nat)
    requires k < |s| && p(s[k])
    ensures Filter(p, s) == Filter(p, s[..k]) + [s[k]] + Filter(p, s[k + 1..])
  {
    var head, tail := s[..k], s[k + 1..];
    assert s == head + [s[k]] + tail;
    FilterConcat(p, head + [s[k]], tail);
    FilterSnoc(p, head, s[k]);
  }

  lemma {:induction false} FilterMultiset<T(!new)>(p: T -> bool, s: seq<T>, x: T)
    ensures multiset(Filter(p, s))[x] == if p(x) then multiset(s)[x] else 0
  {
    if s != [] {
      var n := |s| - 1;
      assert s == s[..n] + [s[n]];
      FilterMultiset(p, s[..n], x);
    }
  }

  lemma FilterIgnoresOrder<T(!new)>(p: T -> bool, s: seq<T>, t: seq<T>)
    requires multiset(s) == multiset(t)
    ensures multiset(Filter(p, s)) == multiset(Filter(p, t))
  {
    forall x ensures multiset(Filter(p, s))[x] == multiset(Filter(p, t))[x] {
      FilterMultiset(p, s, x);
      FilterMultiset(p, t, x);
    }
  }

  lemma FilterEmpty<T(!new)>(p: T -> bool, s: seq<T>)
    requires forall x :: x in s ==> !p(x)
    ensures Filter(p, s) == []
  {
    if Filter(p, s) != [] { assert Filter(p, s)[0] in Filter(p, s); }
  }

  lemma FilterSingle<T(!new)>(p: T -> bool, s: seq<T>, i: nat)
    requires i < |s| && p(s[i]) && forall j :: 0 <= j < |s| && j != i ==> !p(s[j])
    ensures Filter(p, s) == [s[i]]
  {
    FilterAround(p, s, i);
    NoneInside(p, s, 0, i);
    NoneInside(p, s, i + 1, |s|);
    FilterEmpty(p, s[..i]);
    FilterEmpty(p, s[i + 1..]);
  }

  lemma NoneInside<T(!new)>(p: T -> bool, s: seq<T>, lo: nat, hi: nat)
    requires lo <= hi <= |s| && forall j :: lo <= j < hi ==> !p(s[j])
    ensures forall x :: x in s[lo..hi] ==> !p(x)
  {
  }

  lemma FilterTwo<T(!new)>(p: T -> bool, s: seq<T>, i: nat, j: nat)
    requires i < j < |s| && p(s[i]) && p(s[j])
    ensures |Filter(p, s)| >= 2
  {
    var a, b := s[..j], s[j..];
    assert s == a + b;
    FilterConcat(p, a, b);
    assert a[i] in a && b[0] in b;
    assert a[i] in Filter(p, a) && b[0] in Filter(p, b);
  }

  lemma SameMembers<T>(s: seq<T>, t: seq<T>)
    requires multiset(s) == multiset(t)
    ensures |s| == |t|
    ensures forall x :: x in s <==> x in t
  {
    assert |s| == |multiset(s)| == |multiset(t)| == |t|;
    forall x ensures x in s <==> x in t {
      assert x in s <==> x in multiset(s);
      assert x in t <==> x in multiset(t);
    }
  }

  // ---- mapping ----

  function Map<T, U>(f: T -> U, s: seq<T>): (r: seq<U>)
    ensures |r| == |s| && forall i :: 0 <= i < |s| ==> r[i] == f(s[i])
  {
    seq(|s|, i requires 0 <= i < |s| => f(s[i]))
  }

  lemma MapWithout<T, U>(f: T -> U, s: seq<T>, k: nat)
    requires k < |s|
    ensures multiset(Map(f, s)) == multiset(Map(f, Without(s, k))) + multiset{f(s[k])}
  {
    assert Map(f, Without(s, k)) == Without(Map(f, s), k);
    assert f(s[k]) == Map(f, s)[k];
    assert Map(f, s)[k] in multiset(Map(f, s));
  }

  lemma {:induction false} MapIgnoresOrder<T, U>(f: T -> U, s: seq<T>, t: seq<T>)
    requires multiset(s) == multiset(t)
    ensures multiset(Map(f, s)) == multiset(Map(f, t))
  {
    if s == [] {
      assert |multiset(t)| == 0;
    } else {
      assert s[0] in multiset(t);
      var k :| 0 <= k < |t| && t[k] == s[0];
      MapIgnoresOrder(f, Without(s, 0), Without(t, k));
      MapWithout(f, s, 0);
      MapWithout(f, t, k);
    }
  }

  // ---- integers in ascending order ----

  predicate Ascending(x: int, y: int) { x <= y }

  function AtMost(bound: int): int -> bool { x => x <= bound }
  function Below(bound: int): int -> bool { x => x < bound }

  /** Position `k` of the sorted samples: more than `k` are at most it, at most `k` below it. */
  lemma SortedRankCounts(values: seq<int>, k: nat)
    requires k < |values|
    ensures Sort(Ascending, values)[k] in values
    ensures Count(AtMost(Sort(Ascending, values)[k]), values) > k
    ensures Count(Below(Sort(Ascending, values)[k]), values) <= k
  {
    var s := Sort(Ascending, values);
    assert s[k] in multiset(s);
    SortSorts(Ascending, values);
    CountIgnoresOrder(AtMost(s[k]), s, values);
    SortedPositionCounts(Ascending, AtMost(s[k]), s, k);
    CountIgnoresOrder(Below(s[k]), s, values);
    if Count(Below(s[k]), s) > k {
      SortedCountBelow(Ascending, Below(s[k]), s, k);
      assert false;
    }
  }
}
