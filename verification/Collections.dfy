/** Sequences without repetition, and the sets of their elements. */
module Collections {

  ghost predicate Distinct<T>(s: seq<T>) {
    forall i, j :: 0 <= i < j < |s| ==> s[i] != s[j]
  }

  function Elements<T(!new)>(s: seq<T>): (r: set<T>)
    ensures forall x :: x in r <==> x in s
  {
    set x | x in s
  }

  lemma ConcatSnoc<T>(a: seq<T>, b: seq<T>, x: T)
    ensures a + b + [x] == a + (b + [x])
  {
  }

  lemma ConcatAssociates<T>(a: seq<T>, b: seq<T>, c: seq<T>)
    ensures a + b + c == a + (b + c)
  {
  }

  lemma ConcatKeepsPrefix<T>(a: seq<T>, b: seq<T>, c: seq<T>)
    requires b <= c
    ensures a <= a + b <= a + c
  {
  }

  lemma Unsnoc<T>(s: seq<T>)
    requires s != []
    ensures s == s[..|s| - 1] + [s[|s| - 1]]
  {
  }

  lemma MemberOfLast<T>(s: seq<T>, x: T)
    requires s != []
    ensures x in s <==> x in s[..|s| - 1] || x == s[|s| - 1]
  {
  }

  lemma DistinctSnoc<T(!new)>(s: seq<T>, i: nat)
    requires i < |s|
    ensures Elements(s[..i + 1]) == Elements(s[..i]) + {s[i]}
    ensures Distinct(s[..i]) && s[i] !in s[..i] ==> Distinct(s[..i + 1])
    ensures s[i] in s[..i] ==> !Distinct(s)
  {
    assert s[..i + 1] == s[..i] + [s[i]];
  }

  lemma {:induction false} DistinctCount<T(!new)>(s: seq<T>)
    requires Distinct(s)
    ensures |Elements(s)| == |s|
  {
    if s != [] {
      var init, last := s[..|s| - 1], s[|s| - 1];
      DistinctCount(init);
      assert last !in init;
      assert Elements(s) == Elements(init) + {last};
    }
  }
}
