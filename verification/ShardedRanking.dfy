/**
  The cross-collection query: every collection answers with its own best `limit` hits, and the
  client concatenates, sorts and cuts the answers.  The result is the best `limit` hits of all
  collections together.
*/
module ShardedRanking {
  import opened Collections
  import opened Sorting

  datatype Hit = Hit(score: real, objectId: int)

  // The sort key (-score, object_id).
  predicate Before(a: Hit, b: Hit) {
    a.score > b.score || (a.score == b.score && a.objectId <= b.objectId)
  }

  function NotAfter(x: Hit): Hit -> bool { y => Before(y, x) }

  function Cut(hits: seq<Hit>, limit: nat): seq<Hit> { if limit <= |hits| then hits[..limit] else hits }

  function Top(hits: seq<Hit>, limit: nat): seq<Hit> { Cut(Sort(Before, hits), limit) }

  function Union(shards: seq<seq<Hit>>): seq<Hit> {
    if shards == [] then [] else Union(shards[..|shards| - 1]) + shards[|shards| - 1]
  }

  // What the collections answer: each its own best `limit` hits.
  ghost predicate Answers(shards: seq<seq<Hit>>, limit: nat, answers: seq<seq<Hit>>) {
    |answers| == |shards| && forall i :: 0 <= i < |shards| ==> answers[i] == Top(shards[i], limit)
  }

  lemma {:induction false} InsertBehind(x: Hit, s: seq<Hit>, k: nat)
    requires k <= |s| && forall i :: 0 <= i < k ==> Before(s[i], x)
    ensures Insert(Before, x, s)[..k] == s[..k]
  {
    if k > 0 {
      InsertBehind(x, s[1..], k - 1);
      assert s[..k] == [s[0]] + s[1..][..k - 1];
      assert Insert(Before, x, s)[..k] == [s[0]] + Insert(Before, x, s[1..])[..k - 1];
    }
  }

  lemma Ranked(hits: seq<Hit>)
    ensures Sorted(Before, Sort(Before, hits))
  {
    SortSorts(Before, hits);
  }

  lemma RankingIgnoresOrder(a: seq<Hit>, b: seq<Hit>)
    requires multiset(a) == multiset(b)
    ensures Sort(Before, a) == Sort(Before, b)
  {
    SortIgnoresOrder(Before, a, b);
  }

  lemma FirstPrecede(hits: seq<Hit>, x: Hit, k: nat)
    requires Count(NotAfter(x), hits) >= k
    ensures k <= |hits| && forall i :: 0 <= i < k ==> Before(Sort(Before, hits)[i], x)
  {
    Ranked(hits);
    CountIgnoresOrder(NotAfter(x), Sort(Before, hits), hits);
    if k > 0 { SortedCountBelow(Before, NotAfter(x), Sort(Before, hits), k - 1); }
  }

  /** A hit that `k` others precede cannot change the first `k`. */
  lemma DropOne(hits: seq<Hit>, x: Hit, k: nat)
    requires Count(NotAfter(x), hits) >= k
    ensures k <= |hits| && Sort(Before, hits + [x])[..k] == Sort(Before, hits)[..k]
  {
    assert (hits + [x])[..|hits|] == hits;
    FirstPrecede(hits, x, k);
    InsertBehind(x, Sort(Before, hits), k);
  }

  lemma {:induction false} DropMany(hits: seq<Hit>, late: seq<Hit>, k: nat)
    requires k <= |hits|
    requires forall i :: 0 <= i < |late| ==> Count(NotAfter(late[i]), hits) >= k
    ensures Sort(Before, hits + late)[..k] == Sort(Before, hits)[..k]
  {
    if late == [] {
      assert hits + late == hits;
    } else {
      var n := |late| - 1;
      DropMany(hits, late[..n], k);
      CountConcat(NotAfter(late[n]), hits, late[..n]);
      DropOne(hits + late[..n], late[n], k);
      Unsnoc(late);
      ConcatSnoc(hits, late[..n], late[n]);
    }
  }

  lemma SortedSplit(sorted: seq<Hit>, k: nat)
    requires Sorted(Before, sorted) && k <= |sorted|
    ensures forall i :: 0 <= i < |sorted| - k ==> Count(NotAfter(sorted[k..][i]), sorted[..k]) == k
  {
    forall i | 0 <= i < |sorted| - k
      ensures Count(NotAfter(sorted[k..][i]), sorted[..k]) == k
    {
      assert sorted[k..][i] == sorted[k + i];
      CountAll(NotAfter(sorted[k + i]), sorted[..k]);
    }
  }

  lemma Rejoin(a: seq<Hit>, s: seq<Hit>, k: nat)
    requires k <= |s|
    ensures a + s[..k] + s[k..] == a + s
  {
  }

  lemma KeepSortedPrefix(a: seq<Hit>, s: seq<Hit>, k: nat)
    requires Sorted(Before, s) && k < |s|
    ensures Sort(Before, a + s[..k])[..k] == Sort(Before, a + s)[..k]
  {
    SortedSplit(s, k);
    var kept, late := a + s[..k], s[k..];
    forall i | 0 <= i < |late| ensures Count(NotAfter(late[i]), kept) >= k {
      CountConcat(NotAfter(late[i]), a, s[..k]);
    }
    DropMany(kept, late, k);
    Rejoin(a, s, k);
  }

  /** Cutting one part to its own top does not change the top of the whole. */
  lemma KeepTop(a: seq<Hit>, b: seq<Hit>, k: nat)
    ensures Top(a + Top(b, k), k) == Top(a + b, k)
  {
    var cut := Top(b, k);
    if k < |b| {
      KeepShorterTop(a, b, k);
      assert cut == Sort(Before, b)[..k];
      assert Top(a + cut, k) == Sort(Before, a + cut)[..k];
      assert Top(a + b, k) == Sort(Before, a + b)[..k];
    } else {
      ReplaceBySorted(a, b);
      assert cut == Sort(Before, b);
    }
  }

  lemma KeepShorterTop(a: seq<Hit>, b: seq<Hit>, k: nat)
    requires k < |b|
    ensures Sort(Before, a + Sort(Before, b)[..k])[..k] == Sort(Before, a + b)[..k]
  {
    Ranked(b);
    KeepSortedPrefix(a, Sort(Before, b), k);
    ReplaceBySorted(a, b);
  }

  lemma ReplaceBySorted(a: seq<Hit>, b: seq<Hit>)
    ensures Sort(Before, a + Sort(Before, b)) == Sort(Before, a + b)
  {
    assert multiset(a + Sort(Before, b)) == multiset(a) + multiset(b) == multiset(a + b);
    RankingIgnoresOrder(a + Sort(Before, b), a + b);
  }

  lemma TopIgnoresOrder(a: seq<Hit>, b: seq<Hit>, k: nat)
    ensures Top(a + b, k) == Top(b + a, k)
  {
    assert multiset(a + b) == multiset(b + a);
    RankingIgnoresOrder(a + b, b + a);
  }

  /** The merged answers are the top of the union, for any number of collections and hits. */
  lemma {:induction false} MergedTopIsGlobalTop(shards: seq<seq<Hit>>, answers: seq<seq<Hit>>, limit: nat)
    requires Answers(shards, limit, answers)
    ensures Top(Union(answers), limit) == Top(Union(shards), limit)
  {
    if shards != [] {
      var n := |shards| - 1;
      var all, got, last := Union(shards[..n]), Union(answers[..n]), shards[n];
      MergedTopIsGlobalTop(shards[..n], answers[..n], limit);
      calc {
        Top(got + Top(last, limit), limit);
        { KeepTop(got, last, limit); TopIgnoresOrder(got, last, limit); }
        Top(last + got, limit);
        { KeepTop(last, got, limit); }
        Top(last + Top(all, limit), limit);
        { KeepTop(last, all, limit); TopIgnoresOrder(last, all, limit); }
        Top(all + last, limit);
      }
    }
  }

  /** What a top means: ranked, drawn from the hits, as long as allowed, and nothing left out
      ranks ahead of anything kept. */
  ghost predicate IsTop(hits: seq<Hit>, limit: nat, top: seq<Hit>, rest: seq<Hit>) {
    && Sorted(Before, top)
    && |top| == (if limit <= |hits| then limit else |hits|)
    && multiset(hits) == multiset(top) + multiset(rest)
    && forall x, y :: x in top && y in rest ==> Before(x, y)
  }

  lemma TopIsTop(hits: seq<Hit>, limit: nat)
    ensures exists rest :: IsTop(hits, limit, Top(hits, limit), rest)
  {
    var s := Sort(Before, hits);
    Ranked(hits);
    var k := |Top(hits, limit)|;
    Rejoin([], s, k);
    assert s == s[..k] + s[k..];
    assert IsTop(hits, limit, s[..k], s[k..]);
    assert Top(hits, limit) == s[..k];
  }

  lemma TopIsUnique(hits: seq<Hit>, limit: nat, top: seq<Hit>, rest: seq<Hit>)
    requires IsTop(hits, limit, top, rest)
    ensures top == Top(hits, limit)
  {
    var tail := Sort(Before, rest);
    SortSorts(Before, rest);
    forall i, j | 0 <= i < |top| && 0 <= j < |tail| ensures Before(top[i], tail[j]) {
      assert tail[j] in multiset(tail);
      assert tail[j] in rest;
    }
    assert Sorted(Before, top + tail);
    SortSorts(Before, hits);
    SortedUnique(Before, top + tail, Sort(Before, hits));
  }

  /** The client's loop over the collections.  `shards` stands for the full hit lists that the
      collections hold and never send. */
  method AllDomainQuery(answers: seq<seq<Hit>>, limit: nat, ghost shards: seq<seq<Hit>>) returns (hits: seq<Hit>)
    requires Answers(shards, limit, answers)
    ensures hits == Top(Union(shards), limit)
    ensures exists rest :: IsTop(Union(shards), limit, hits, rest)
  {
    hits := [];
    for domain := 0 to |answers|
      invariant hits == Union(answers[..domain])
    {
      hits := hits + answers[domain];
      assert answers[..domain + 1][..domain] == answers[..domain];
    }
    assert answers[..|answers|] == answers;
    hits := Sort(Before, hits);
    hits := Cut(hits, limit);
    MergedTopIsGlobalTop(shards, answers, limit);
    TopIsTop(Union(shards), limit);
  }
}
