/**
  Retrieval quality metrics of the lexical evaluation: NDCG, recall, reciprocal rank and
  nearest-rank percentiles.  Floats are reals, and the logarithmic discount is any positive
  nonincreasing sequence.
*/
module RankingMetrics {
  import opened Sorting

  datatype Qrel = Qrel(objectId: int, relevance: int)

  // A judgment dictionary in insertion order: one entry per document.
  ghost predicate Dictionary(rel: seq<Qrel>) {
    forall i, j :: 0 <= i < j < |rel| ==> rel[i].objectId != rel[j].objectId
  }

  // The fixture loader admits only nonnegative relevance.
  ghost predicate Judged(rel: seq<Qrel>) {
    Dictionary(rel) && forall i :: 0 <= i < |rel| ==> rel[i].relevance >= 0
  }

  ghost predicate DuplicateFree(ranking: seq<int>) {
    forall i, j :: 0 <= i < j < |ranking| ==> ranking[i] != ranking[j]
  }

  ghost predicate Discount(d: nat -> real) {
    && (forall i: nat :: d(i) > 0.0)
    && (forall i: nat, j: nat :: i <= j ==> d(i) >= d(j))
  }

  // What 1/log2(i + 2) is: every later position counts strictly less.
  ghost predicate StrictDiscount(d: nat -> real) {
    Discount(d) && forall i: nat, j: nat :: i < j ==> d(i) > d(j)
  }

  function Relevance(rel: seq<Qrel>, document: int): int {
    if rel == [] then 0
    else if rel[0].objectId == document then rel[0].relevance
    else Relevance(rel[1..], document)
  }

  function Values(rel: seq<Qrel>): (v: seq<int>)
    ensures |v| == |rel|
  {
    seq(|rel|, i requires 0 <= i < |rel| => rel[i].relevance)
  }

  function Take<T>(s: seq<T>, k: nat): seq<T> { if k <= |s| then s[..k] else s }

  function Gains(ranking: seq<int>, rel: seq<Qrel>): (g: seq<int>)
    ensures |g| == |ranking|
  {
    seq(|ranking|, i requires 0 <= i < |ranking| => Relevance(rel, ranking[i]))
  }

  function Dcg(d: nat -> real, gains: seq<int>): real {
    if gains == [] then 0.0
    else Dcg(d, gains[..|gains| - 1]) + gains[|gains| - 1] as real * d(|gains| - 1)
  }

  predicate Descending(x: int, y: int) { x >= y }

  function Ideal(rel: seq<Qrel>, k: nat): seq<int> { Take(Sort(Descending, Values(rel)), k) }

  function Ndcg(d: nat -> real, ranking: seq<int>, rel: seq<Qrel>, k: nat): real {
    var dcg := Dcg(d, Gains(Take(ranking, k), rel));
    var idcg := Dcg(d, Ideal(rel, k));
    if idcg > 0.0 then dcg / idcg else 0.0
  }

  // ---- sums of selected values against the sorted prefix ----

  function Sum(s: seq<int>): int {
    if s == [] then 0 else Sum(s[..|s| - 1]) + s[|s| - 1]
  }

  lemma {:induction false} SumConcat(s: seq<int>, t: seq<int>)
    ensures Sum(s + t) == Sum(s) + Sum(t)
  {
    if t == [] {
      assert s + t == s;
    } else {
      assert (s + t)[..|s + t| - 1] == s + t[..|t| - 1];
      SumConcat(s, t[..|t| - 1]);
    }
  }

  lemma SumWithout(s: seq<int>, k: nat)
    requires k < |s|
    ensures Sum(s) == Sum(Without(s, k)) + s[k]
  {
    var head, tail := s[..k + 1], s[k + 1..];
    assert s == head + tail && head[..k] == s[..k] && head[k] == s[k];
    SumConcat(head, tail);
    SumConcat(s[..k], tail);
  }

  lemma {:induction false} SumNonnegative(s: seq<int>)
    requires forall i :: 0 <= i < |s| ==> s[i] >= 0
    ensures Sum(s) >= 0
  {
    if s != [] { SumNonnegative(s[..|s| - 1]); }
  }

  lemma SelectionStep(s: seq<int>, chosen: seq<int>) returns (k: nat)
    requires Sorted(Descending, s) && chosen != []
    requires multiset(chosen) <= multiset(s)
    ensures k < |chosen| && s != [] && s[0] >= chosen[k]
    ensures multiset(Without(chosen, k)) <= multiset(s[1..])
  {
    k := 0;
    assert chosen[0] in multiset(s);
    if s[0] in chosen {
      k :| 0 <= k < |chosen| && chosen[k] == s[0];
    }
    assert chosen[k] in multiset(s);
    FirstOrNot(s, chosen, k);
  }

  lemma FirstOrNot(s: seq<int>, chosen: seq<int>, k: nat)
    requires s != [] && k < |chosen| && multiset(chosen) <= multiset(s)
    requires chosen[k] == s[0] || s[0] !in chosen
    ensures multiset(Without(chosen, k)) <= multiset(s[1..])
  {
    assert s[1..] == Without(s, 0);
    assert s[0] !in chosen ==> multiset(chosen)[s[0]] == 0;
  }

  /** Any selection from a descending sequence sums to at most the prefix of its length. */
  lemma {:induction false} TopPrefixDominates(s: seq<int>, chosen: seq<int>)
    requires Sorted(Descending, s)
    requires multiset(chosen) <= multiset(s)
    ensures |chosen| <= |s| && Sum(chosen) <= Sum(s[..|chosen|])
  {
    if chosen != [] {
      var k := SelectionStep(s, chosen);
      var rest, tail := Without(chosen, k), s[1..];
      TopPrefixDominates(tail, rest);
      SumWithout(chosen, k);
      assert s[..|chosen|] == [s[0]] + tail[..|rest|];
      SumConcat([s[0]], tail[..|rest|]);
    }
  }

  // ---- the gains of a ranking are a selection from the judgments ----

  /** The judged values a ranking meets, in ranking order. */
  function Picked(ranking: seq<int>, rel: seq<Qrel>): (p: seq<int>)
    ensures |p| <= |ranking|
  {
    if ranking == [] then []
    else
      (if exists i :: 0 <= i < |rel| && rel[i].objectId == ranking[0] then [Relevance(rel, ranking[0])] else [])
      + Picked(ranking[1..], rel)
  }

  lemma {:induction false} RelevanceAt(rel: seq<Qrel>, i: nat)
    requires Dictionary(rel) && i < |rel|
    ensures Relevance(rel, rel[i].objectId) == rel[i].relevance
  {
    if i > 0 { RelevanceAt(rel[1..], i - 1); }
  }

  lemma {:induction false} RelevanceAbsent(rel: seq<Qrel>, document: int)
    requires forall i :: 0 <= i < |rel| ==> rel[i].objectId != document
    ensures Relevance(rel, document) == 0
  {
    if rel != [] { RelevanceAbsent(rel[1..], document); }
  }

  lemma RelevanceCases(rel: seq<Qrel>, document: int)
    requires Dictionary(rel)
    ensures forall i :: 0 <= i < |rel| && rel[i].objectId == document ==> Relevance(rel, document) == rel[i].relevance
    ensures (forall i :: 0 <= i < |rel| ==> rel[i].objectId != document) ==> Relevance(rel, document) == 0
  {
    forall i | 0 <= i < |rel| && rel[i].objectId == document
      ensures Relevance(rel, document) == rel[i].relevance
    {
      RelevanceAt(rel, i);
    }
    if forall i :: 0 <= i < |rel| ==> rel[i].objectId != document { RelevanceAbsent(rel, document); }
  }

  /** Removing one document's judgment leaves every other lookup alone. */
  lemma RelevanceWithout(rel: seq<Qrel>, k: nat, document: int)
    requires Dictionary(rel) && k < |rel| && rel[k].objectId != document
    ensures Dictionary(Without(rel, k))
    ensures Relevance(Without(rel, k), document) == Relevance(rel, document)
    ensures (exists i :: 0 <= i < |rel| && rel[i].objectId == document)
            <==> (exists i :: 0 <= i < |rel| - 1 && Without(rel, k)[i].objectId == document)
  {
    var r := Without(rel, k);
    RelevanceCases(rel, document);
    RelevanceCases(r, document);
    if i :| 0 <= i < |rel| && rel[i].objectId == document {
      assert r[if i < k then i else i - 1] == rel[i];
    }
  }

  lemma {:induction false} PickedWithout(ranking: seq<int>, rel: seq<Qrel>, k: nat)
    requires Dictionary(rel) && k < |rel| && rel[k].objectId !in ranking
    ensures Picked(ranking, Without(rel, k)) == Picked(ranking, rel)
  {
    if ranking != [] {
      RelevanceWithout(rel, k, ranking[0]);
      PickedWithout(ranking[1..], rel, k);
    }
  }

  lemma {:induction false} PickedIsSelection(ranking: seq<int>, rel: seq<Qrel>)
    requires Dictionary(rel) && DuplicateFree(ranking)
    ensures multiset(Picked(ranking, rel)) <= multiset(Values(rel))
  {
    if ranking != [] {
      var document, rest := ranking[0], ranking[1..];
      if k :| 0 <= k < |rel| && rel[k].objectId == document {
        RelevanceAt(rel, k);
        PickedWithout(rest, rel, k);
        RelevanceWithoutDictionary(rel, k);
        PickedIsSelection(rest, Without(rel, k));
        assert Values(Without(rel, k)) == Without(Values(rel), k);
        assert multiset(Picked(rest, rel)) <= multiset(Values(rel)) - multiset{rel[k].relevance};
        assert Picked(ranking, rel) == [rel[k].relevance] + Picked(rest, rel);
      } else {
        PickedIsSelection(rest, rel);
        assert Picked(ranking, rel) == Picked(rest, rel);
      }
    }
  }

  lemma RelevanceWithoutDictionary(rel: seq<Qrel>, k: nat)
    requires Dictionary(rel) && k < |rel|
    ensures Dictionary(Without(rel, k))
  {
  }

  lemma {:induction false} PickedSum(ranking: seq<int>, rel: seq<Qrel>)
    ensures Sum(Picked(ranking, rel)) == Sum(Gains(ranking, rel))
  {
    if ranking != [] {
      PickedSum(ranking[1..], rel);
      var gain := Relevance(rel, ranking[0]);
      assert Gains(ranking, rel) == [gain] + Gains(ranking[1..], rel);
      SumConcat([gain], Gains(ranking[1..], rel));
      if exists i :: 0 <= i < |rel| && rel[i].objectId == ranking[0] {
        SumConcat([gain], Picked(ranking[1..], rel));
      } else {
        RelevanceAbsent(rel, ranking[0]);
        assert Picked(ranking, rel) == Picked(ranking[1..], rel);
      }
    }
  }

  lemma SortedValuesNonnegative(rel: seq<Qrel>, s: seq<int>)
    requires Judged(rel) && multiset(s) == multiset(Values(rel))
    ensures forall i :: 0 <= i < |s| ==> s[i] >= 0
  {
    forall i | 0 <= i < |s| ensures s[i] >= 0 {
      assert s[i] in multiset(s);
      assert s[i] in Values(rel);
    }
  }

  lemma SumGrows(s: seq<int>, i: nat, j: nat)
    requires i <= j <= |s|
    requires forall k :: 0 <= k < |s| ==> s[k] >= 0
    ensures Sum(s[..i]) <= Sum(s[..j])
  {
    assert s[..j] == s[..i] + s[i..j];
    SumConcat(s[..i], s[i..j]);
    SumNonnegative(s[i..j]);
  }

  lemma SelectionBelowPrefix(s: seq<int>, chosen: seq<int>, j: nat)
    requires Sorted(Descending, s) && multiset(chosen) <= multiset(s) && |chosen| <= j
    requires forall i :: 0 <= i < |s| ==> s[i] >= 0
    ensures Sum(chosen) <= Sum(Take(s, j))
  {
    TopPrefixDominates(s, chosen);
    assert Take(s, j) == s[..|Take(s, j)|];
    SumGrows(s, |chosen|, |Take(s, j)|);
  }

  /** A duplicate-free ranking gains at most the ideal prefix of its length or longer. */
  lemma GainDominated(top: seq<int>, rel: seq<Qrel>, j: nat)
    requires Judged(rel) && DuplicateFree(top) && |top| <= j
    ensures Sum(Gains(top, rel)) <= Sum(Ideal(rel, j))
  {
    SortSorts(Descending, Values(rel));
    PickedIsSelection(top, rel);
    PickedSum(top, rel);
    var s := Sort(Descending, Values(rel));
    SortedValuesNonnegative(rel, s);
    SelectionBelowPrefix(s, Picked(top, rel), j);
  }

  // ---- summation by parts ----

  function Pad(s: seq<int>, k: nat): (p: seq<int>)
    requires |s| <= k
    ensures |p| == k
  {
    s + seq(k - |s|, _ => 0)
  }

  lemma {:induction false} PadNeutral(d: nat -> real, s: seq<int>, k: nat)
    requires |s| <= k
    ensures Dcg(d, Pad(s, k)) == Dcg(d, s)
    ensures Sum(Pad(s, k)) == Sum(s)
    decreases k
  {
    if k == |s| {
      assert Pad(s, k) == s;
    } else {
      assert Pad(s, k)[..k - 1] == Pad(s, k - 1);
      PadNeutral(d, s, k - 1);
    }
  }

  ghost predicate PrefixDominated(g: seq<int>, h: seq<int>) {
    |g| == |h| && forall j {:trigger Sum(g[..j])} :: 0 <= j <= |g| ==> Sum(g[..j]) <= Sum(h[..j])
  }

  lemma DcgStep(d: nat -> real, g: seq<int>)
    requires g != []
    ensures Dcg(d, g) == Dcg(d, g[..|g| - 1]) + g[|g| - 1] as real * d(|g| - 1)
    ensures Sum(g) == Sum(g[..|g| - 1]) + g[|g| - 1]
  {
  }

  lemma PrefixDominatedInit(g: seq<int>, h: seq<int>)
    requires PrefixDominated(g, h) && g != []
    ensures PrefixDominated(g[..|g| - 1], h[..|g| - 1])
    ensures Sum(g[..|g| - 1]) <= Sum(h[..|g| - 1]) && Sum(g) <= Sum(h)
  {
    var n := |g| - 1;
    forall j | 0 <= j <= n ensures Sum(g[..n][..j]) <= Sum(h[..n][..j]) {
      assert g[..n][..j] == g[..j] && h[..n][..j] == h[..j];
    }
    assert g[..|g|] == g && h[..|g|] == h;
    assert Sum(g[..n]) <= Sum(h[..n]) && Sum(g[..|g|]) <= Sum(h[..|g|]);
  }

  /** The arithmetic of one step: `p`, `q` are the discounted sums before it, `u`, `v` the plain
      sums, `x`, `y` the last gains, and the discount falls from `rate` to `next`. */
  lemma PartsStep(p: real, q: real, u: int, v: int, x: int, y: int, rate: real, next: real)
    requires rate >= next > 0.0 && u <= v && u + x <= v + y
    requires q - p >= (v - u) as real * rate
    ensures (q + y as real * next) - (p + x as real * next) >= ((v + y) - (u + x)) as real * next >= 0.0
    ensures rate > next && q + y as real * next == p + x as real * next ==> u == v && x == y && p >= q
  {
    var before, last := (v - u) as real, (y - x) as real;
    assert last == y as real - x as real;
    assert last * next == y as real * next - x as real * next;
    assert before + last == ((v + y) - (u + x)) as real;
    assert before * (rate - next) >= 0.0 && (before + last) * next >= 0.0;
    assert before * rate + last * next == before * (rate - next) + (before + last) * next;
    if rate > next && q + y as real * next == p + x as real * next {
      assert before * (rate - next) == 0.0 && (before + last) * next == 0.0;
    }
  }

  /** Prefix dominance carries over to discounted sums, with the last discount as the rate. */
  lemma {:induction false} SummationByParts(d: nat -> real, g: seq<int>, h: seq<int>)
    requires Discount(d) && PrefixDominated(g, h)
    ensures g != [] ==> Dcg(d, h) - Dcg(d, g) >= (Sum(h) - Sum(g)) as real * d(|g| - 1)
    ensures Dcg(d, g) <= Dcg(d, h)
  {
    if g != [] {
      var n := |g| - 1;
      PrefixDominatedInit(g, h);
      SummationByParts(d, g[..n], h[..n]);
      DcgStep(d, g);
      DcgStep(d, h);
      var rate := if n > 0 then d(n - 1) else d(n) + 1.0;
      assert n == 0 ==> g[..n] == [] && h[..n] == [];
      PartsStep(Dcg(d, g[..n]), Dcg(d, h[..n]), Sum(g[..n]), Sum(h[..n]), g[n], h[n], rate, d(n));
    }
  }

  /** Under a strict discount only equal gain sequences reach equality. */
  lemma {:induction false} EqualSumsEqualGains(d: nat -> real, g: seq<int>, h: seq<int>)
    requires StrictDiscount(d) && PrefixDominated(g, h) && Dcg(d, g) == Dcg(d, h)
    ensures g == h
  {
    if g != [] {
      var n := |g| - 1;
      PrefixDominatedInit(g, h);
      SummationByParts(d, g[..n], h[..n]);
      DcgStep(d, g);
      DcgStep(d, h);
      var rate := if n > 0 then d(n - 1) else d(n) + 1.0;
      PartsStep(Dcg(d, g[..n]), Dcg(d, h[..n]), Sum(g[..n]), Sum(h[..n]), g[n], h[n], rate, d(n));
      EqualSumsEqualGains(d, g[..n], h[..n]);
      SameWhenParts(g, h, n);
    }
  }

  lemma SameWhenParts(g: seq<int>, h: seq<int>, n: nat)
    requires |g| == |h| == n + 1
    ensures g[..n] == h[..n] && g[n] == h[n] ==> g == h
  {
    assert g == g[..n] + [g[n]] && h == h[..n] + [h[n]];
  }

  lemma PaddedPrefix(d: nat -> real, s: seq<int>, t: seq<int>, k: nat, j: nat)
    requires j <= k && |s| <= k
    requires t == Take(s, j)
    ensures Sum(Pad(s, k)[..j]) == Sum(t)
  {
    assert Pad(s, k)[..j] == Pad(t, j);
    PadNeutral(d, t, j);
  }

  // No relevant document comes twice.
  ghost predicate RepeatFree(top: seq<int>, rel: seq<Qrel>) {
    forall i, j :: 0 <= i < j < |top| && top[i] == top[j] ==> Relevance(rel, top[i]) <= 0
  }

  function Relevant(top: seq<int>, rel: seq<Qrel>): (r: seq<int>)
    ensures |r| <= |top| && forall x :: x in r ==> x in top && Relevance(rel, x) > 0
  {
    if top == [] then []
    else
      var before, last := Relevant(top[..|top| - 1], rel), top[|top| - 1];
      if Relevance(rel, last) > 0 then before + [last] else before
  }

  lemma GainsSnoc(top: seq<int>, x: int, rel: seq<Qrel>)
    ensures Gains(top + [x], rel) == Gains(top, rel) + [Relevance(rel, x)]
    ensures Sum(Gains(top + [x], rel)) == Sum(Gains(top, rel)) + Relevance(rel, x)
  {
    assert Gains(top + [x], rel)[..|top|] == Gains(top, rel);
  }

  lemma {:induction false} RelevantOnce(top: seq<int>, rel: seq<Qrel>)
    requires RepeatFree(top, rel)
    ensures DuplicateFree(Relevant(top, rel))
  {
    if top != [] {
      var init, last := top[..|top| - 1], top[|top| - 1];
      RelevantOnce(init, rel);
      if Relevance(rel, last) > 0 { assert last !in init; }
    }
  }

  // Documents without relevance can be left out of the sum.
  lemma {:induction false} RelevantSum(top: seq<int>, rel: seq<Qrel>)
    requires Judged(rel)
    ensures Sum(Gains(Relevant(top, rel), rel)) == Sum(Gains(top, rel))
  {
    if top != [] {
      var init, last := top[..|top| - 1], top[|top| - 1];
      RelevantSum(init, rel);
      assert top == init + [last];
      GainsSnoc(init, last, rel);
      RelevanceNonnegative(rel, last);
      GainsSnoc(Relevant(init, rel), last, rel);
    }
  }

  lemma RelevantGainDominated(top: seq<int>, rel: seq<Qrel>, j: nat)
    requires Judged(rel) && RepeatFree(top, rel) && |top| <= j
    ensures Sum(Gains(top, rel)) <= Sum(Ideal(rel, j))
  {
    RelevantOnce(top, rel);
    RelevantSum(top, rel);
    GainDominated(Relevant(top, rel), rel, j);
  }

  lemma PrefixOfGains(d: nat -> real, ranking: seq<int>, rel: seq<Qrel>, k: nat, j: nat)
    requires j <= k
    ensures Sum(Pad(Gains(Take(ranking, k), rel), k)[..j]) == Sum(Gains(Take(ranking, j), rel))
  {
    assert Take(Gains(Take(ranking, k), rel), j) == Gains(Take(ranking, j), rel);
    PaddedPrefix(d, Gains(Take(ranking, k), rel), Gains(Take(ranking, j), rel), k, j);
  }

  lemma PrefixOfIdeal(d: nat -> real, rel: seq<Qrel>, k: nat, j: nat)
    requires j <= k
    ensures |Ideal(rel, k)| <= k && Sum(Pad(Ideal(rel, k), k)[..j]) == Sum(Ideal(rel, j))
  {
    assert Take(Ideal(rel, k), j) == Ideal(rel, j);
    PaddedPrefix(d, Ideal(rel, k), Ideal(rel, j), k, j);
  }

  lemma RepeatFreePrefix(ranking: seq<int>, rel: seq<Qrel>, k: nat, j: nat)
    requires j <= k && RepeatFree(Take(ranking, k), rel)
    ensures RepeatFree(Take(ranking, j), rel)
  {
    assert forall i :: 0 <= i < |Take(ranking, j)| ==> Take(ranking, j)[i] == Take(ranking, k)[i];
  }

  lemma RankedGainsDominated(d: nat -> real, ranking: seq<int>, rel: seq<Qrel>, k: nat)
    requires Judged(rel) && RepeatFree(Take(ranking, k), rel)
    ensures |Ideal(rel, k)| <= k
    ensures PrefixDominated(Pad(Gains(Take(ranking, k), rel), k), Pad(Ideal(rel, k), k))
  {
    forall j | 0 <= j <= k ensures Sum(Pad(Gains(Take(ranking, k), rel), k)[..j]) <= Sum(Pad(Ideal(rel, k), k)[..j]) {
      RepeatFreePrefix(ranking, rel, k, j);
      RelevantGainDominated(Take(ranking, j), rel, j);
      PrefixOfGains(d, ranking, rel, k, j);
      PrefixOfIdeal(d, rel, k, j);
    }
  }

  lemma TermSign(x: int, rate: real)
    requires x >= 0 && rate > 0.0
    ensures x as real * rate >= 0.0 && (x as real * rate > 0.0 <==> x > 0)
  {
  }

  ghost predicate SomeGain(g: seq<int>) { exists i :: 0 <= i < |g| && g[i] > 0 }

  lemma SomeGainSnoc(g: seq<int>)
    requires g != []
    ensures SomeGain(g) <==> SomeGain(g[..|g| - 1]) || g[|g| - 1] > 0
  {
    if SomeGain(g[..|g| - 1]) {
      var i :| 0 <= i < |g| - 1 && g[..|g| - 1][i] > 0;
      assert g[i] > 0;
    }
    if SomeGain(g) && g[|g| - 1] <= 0 {
      var i :| 0 <= i < |g| && g[i] > 0;
      assert g[..|g| - 1][i] > 0;
    }
  }

  lemma {:induction false} DcgNonnegative(d: nat -> real, g: seq<int>)
    requires Discount(d) && forall i :: 0 <= i < |g| ==> g[i] >= 0
    ensures Dcg(d, g) >= 0.0 && (Dcg(d, g) > 0.0 <==> SomeGain(g))
  {
    if g != [] {
      var n := |g| - 1;
      DcgNonnegative(d, g[..n]);
      TermSign(g[n], d(n));
      SomeGainSnoc(g);
    }
  }

  lemma RelevanceNonnegative(rel: seq<Qrel>, document: int)
    requires Judged(rel)
    ensures Relevance(rel, document) >= 0
  {
    RelevanceCases(rel, document);
  }

  lemma GainsNonnegative(ranking: seq<int>, rel: seq<Qrel>)
    requires Judged(rel)
    ensures forall i :: 0 <= i < |ranking| ==> Gains(ranking, rel)[i] >= 0
  {
    forall i | 0 <= i < |ranking| ensures Gains(ranking, rel)[i] >= 0 { RelevanceNonnegative(rel, ranking[i]); }
  }

  lemma NdcgOfDominated(d: nat -> real, ranking: seq<int>, rel: seq<Qrel>, k: nat)
    requires Discount(d) && Judged(rel)
    requires PrefixDominated(Pad(Gains(Take(ranking, k), rel), k), Pad(Ideal(rel, k), k))
    ensures Dcg(d, Gains(Take(ranking, k), rel)) <= Dcg(d, Ideal(rel, k))
    ensures 0.0 <= Ndcg(d, ranking, rel, k) <= 1.0
  {
    var g := Gains(Take(ranking, k), rel);
    SummationByParts(d, Pad(g, k), Pad(Ideal(rel, k), k));
    PadNeutral(d, g, k);
    PadNeutral(d, Ideal(rel, k), k);
    GainsNonnegative(Take(ranking, k), rel);
    DcgNonnegative(d, g);
    var idcg := Dcg(d, Ideal(rel, k));
    if idcg > 0.0 { QuotientInUnit(Dcg(d, g), idcg); }
  }

  /** NDCG never leaves [0, 1] when no relevant document comes twice within the cutoff. */
  lemma NdcgBounded(d: nat -> real, ranking: seq<int>, rel: seq<Qrel>, k: nat)
    requires Discount(d) && Judged(rel) && RepeatFree(Take(ranking, k), rel)
    ensures Dcg(d, Gains(Take(ranking, k), rel)) <= Dcg(d, Ideal(rel, k))
    ensures 0.0 <= Ndcg(d, ranking, rel, k) <= 1.0
  {
    RankedGainsDominated(d, ranking, rel, k);
    NdcgOfDominated(d, ranking, rel, k);
  }

  lemma QuotientInUnit(x: real, y: real)
    requires 0.0 <= x <= y && y > 0.0
    ensures 0.0 <= x / y <= 1.0
    ensures x / y == 1.0 <==> x == y
    ensures x / y > 0.0 <==> x > 0.0
  {
    assert x == (x / y) * y;
  }

  /** Under a strict discount NDCG is 1 exactly for rankings whose gains are the ideal ones,
      up to trailing zeros. */
  lemma NdcgOneIffIdeal(d: nat -> real, ranking: seq<int>, rel: seq<Qrel>, k: nat)
    requires StrictDiscount(d) && Judged(rel) && RepeatFree(Take(ranking, k), rel)
    requires Dcg(d, Ideal(rel, k)) > 0.0
    ensures |Ideal(rel, k)| <= k
    ensures Ndcg(d, ranking, rel, k) == 1.0 <==> Pad(Gains(Take(ranking, k), rel), k) == Pad(Ideal(rel, k), k)
  {
    var g := Gains(Take(ranking, k), rel);
    NdcgBounded(d, ranking, rel, k);
    RankedGainsDominated(d, ranking, rel, k);
    PadNeutral(d, g, k);
    PadNeutral(d, Ideal(rel, k), k);
    if Dcg(d, g) == Dcg(d, Ideal(rel, k)) {
      EqualSumsEqualGains(d, Pad(g, k), Pad(Ideal(rel, k), k));
    }
    forall i | 0 <= i < |g| ensures g[i] >= 0 { RelevanceNonnegative(rel, ranking[i]); }
    DcgNonnegative(d, g);
    QuotientInUnit(Dcg(d, g), Dcg(d, Ideal(rel, k)));
  }

  lemma QuotientAboveOne(x: real, y: real)
    requires x > y > 0.0
    ensures x / y > 1.0
  {
    assert (x / y - 1.0) * y == x - y;
  }

  /** A repeated relevant document can break the bound. */
  lemma NdcgExceedsOneWithRepeats(d: nat -> real)
    requires Discount(d)
    ensures Ndcg(d, [7, 7], [Qrel(7, 1)], 2) > 1.0
  {
    var rel := [Qrel(7, 1)];
    assert Values(rel) == [1];
    assert [1][..0] == [] && Sort(Descending, [1][..0]) == [];
    assert Insert(Descending, 1, []) == [1];
    assert Ideal(rel, 2) == [1];
    assert Gains(Take([7, 7], 2), rel) == [1, 1];
    assert Dcg(d, [1]) == d(0) by { assert [1][..0] == []; }
    assert Dcg(d, [1, 1]) == d(0) + d(1) by { assert [1, 1][..1] == [1]; }
    QuotientAboveOne(d(0) + d(1), d(0));
  }

  // ---- exactly when the bound holds ----

  // A discount that counts the first j positions in full and the rest at a small rate.
  function Stepped(j: nat, rate: real): nat -> real { (i: nat) => if i < j then 1.0 else rate }

  lemma SteppedIsDiscount(j: nat, rate: real)
    requires 0.0 < rate <= 1.0
    ensures Discount(Stepped(j, rate))
  {
  }

  lemma {:induction false} SteppedDcg(j: nat, rate: real, g: seq<int>)
    requires j <= |g|
    ensures Dcg(Stepped(j, rate), g) == Sum(g[..j]) as real + rate * Sum(g[j..]) as real
    decreases |g|
  {
    var n := |g| - 1;
    if |g| == j {
      assert g[..j] == g && g[j..] == [];
      if g != [] {
        FullDcg(j, rate, g);
      }
    } else {
      SteppedDcg(j, rate, g[..n]);
      assert g[..n][..j] == g[..j] && g[..n][j..] == g[j..][..n - j] && g[j..][n - j] == g[n];
      Distribute(rate, Sum(g[j..n]), g[n]);
    }
  }

  lemma {:induction false} FullDcg(j: nat, rate: real, g: seq<int>)
    requires |g| <= j
    ensures Dcg(Stepped(j, rate), g) == Sum(g) as real
  {
    if g != [] { FullDcg(j, rate, g[..|g| - 1]); }
  }

  lemma Distribute(rate: real, x: int, y: int)
    ensures rate * (x + y) as real == rate * x as real + y as real * rate
  {
    assert (x + y) as real == x as real + y as real;
  }

  lemma SmallRate(ahead: int, behind: int, gained: int, lost: int, rate: real)
    requires ahead > behind && gained >= 0 && lost >= 0 && rate * (lost + 1) as real == 1.0
    ensures 0.0 < rate <= 1.0 && ahead as real + rate * gained as real > behind as real + rate * lost as real
  {
    assert rate * gained as real >= 0.0;
    Distribute(rate, lost, 1);
  }

  lemma SumTail(s: seq<int>, j: nat)
    requires j <= |s| && forall i :: 0 <= i < |s| ==> s[i] >= 0
    ensures Sum(s[j..]) >= 0
  {
    SumNonnegative(s[j..]);
  }

  // Whoever leads at some position leads overall under a steep enough discount.
  lemma SteepDiscount(g: seq<int>, h: seq<int>, j: nat) returns (d: nat -> real)
    requires j <= |g| == |h| && Sum(g[..j]) > Sum(h[..j])
    requires forall i :: 0 <= i < |g| ==> g[i] >= 0 && h[i] >= 0
    ensures Discount(d) && Dcg(d, g) > Dcg(d, h)
  {
    SumTail(g, j);
    SumTail(h, j);
    var lost := Sum(h[j..]);
    var rate := 1.0 / (lost + 1) as real;
    assert rate * (lost + 1) as real == 1.0;
    SmallRate(Sum(g[..j]), Sum(h[..j]), Sum(g[j..]), lost, rate);
    d := Stepped(j, rate);
    SteppedIsDiscount(j, rate);
    SteppedDcg(j, rate, g);
    SteppedDcg(j, rate, h);
  }

  lemma IdealNonnegative(rel: seq<Qrel>, k: nat)
    requires Judged(rel)
    ensures forall i :: 0 <= i < |Ideal(rel, k)| ==> Ideal(rel, k)[i] >= 0
  {
    SortSorts(Descending, Values(rel));
    SortedValuesNonnegative(rel, Sort(Descending, Values(rel)));
  }

  lemma SomeValuePositive(rel: seq<Qrel>, document: int)
    requires Judged(rel) && Relevance(rel, document) > 0
    ensures SomeGain(Values(rel))
  {
    RelevanceCases(rel, document);
    var i :| 0 <= i < |rel| && rel[i].objectId == document;
    assert Values(rel)[i] > 0;
  }

  lemma TopPositive(values: seq<int>, s: seq<int>)
    requires SomeGain(values) && Sorted(Descending, s) && multiset(s) == multiset(values)
    ensures s != [] && s[0] > 0
  {
    var i :| 0 <= i < |values| && values[i] > 0;
    assert values[i] in multiset(s);
    var m :| 0 <= m < |s| && s[m] == values[i];
    assert Descending(s[0], s[m]);
  }

  // The ideal collects something as soon as any ranked document is relevant.
  lemma PositiveIdeal(d: nat -> real, rel: seq<Qrel>, k: nat, document: int)
    requires Discount(d) && Judged(rel) && k > 0 && Relevance(rel, document) > 0
    ensures Dcg(d, Ideal(rel, k)) > 0.0
  {
    SomeValuePositive(rel, document);
    SortSorts(Descending, Values(rel));
    TopPositive(Values(rel), Sort(Descending, Values(rel)));
    IdealNonnegative(rel, k);
    assert Ideal(rel, k)[0] > 0;
    DcgNonnegative(d, Ideal(rel, k));
  }

  lemma {:induction false} SomePositive(s: seq<int>)
    requires Sum(s) > 0
    ensures exists i :: 0 <= i < |s| && s[i] > 0
  {
    var n := |s| - 1;
    if s[n] <= 0 {
      SomePositive(s[..n]);
      var i :| 0 <= i < |s[..n]| && s[..n][i] > 0;
      assert s[i] > 0;
    }
  }

  lemma PadNonnegative(s: seq<int>, k: nat)
    requires |s| <= k && forall i :: 0 <= i < |s| ==> s[i] >= 0
    ensures forall i :: 0 <= i < k ==> Pad(s, k)[i] >= 0
  {
  }

  // A prefix that gathers more than the ideal one lets some discount exceed the bound.
  lemma LeadBreaksBound(ranking: seq<int>, rel: seq<Qrel>, k: nat, j: nat) returns (d: nat -> real)
    requires Judged(rel) && j <= k
    requires Sum(Pad(Gains(Take(ranking, k), rel), k)[..j]) > Sum(Pad(Ideal(rel, k), k)[..j])
    ensures Discount(d) && Ndcg(d, ranking, rel, k) > 1.0
  {
    var top := Take(ranking, k);
    var gains := Gains(top, rel);
    var g, h := Pad(gains, k), Pad(Ideal(rel, k), k);
    GainsNonnegative(top, rel);
    IdealNonnegative(rel, k);
    PadNonnegative(gains, k);
    PadNonnegative(Ideal(rel, k), k);
    d := SteepDiscount(g, h, j);
    PadNeutral(d, gains, k);
    PadNeutral(d, Ideal(rel, k), k);
    SumNonnegative(h[..j]);
    SomePositive(g[..j]);
    var i :| 0 <= i < j && g[..j][i] > 0;
    assert i < |gains| && gains[i] > 0;
    PositiveIdeal(d, rel, k, top[i]);
    QuotientAboveOne(Dcg(d, gains), Dcg(d, Ideal(rel, k)));
  }

  ghost predicate BoundedByOne(ranking: seq<int>, rel: seq<Qrel>, k: nat) {
    forall d: nat -> real :: Discount(d) ==> Ndcg(d, ranking, rel, k) <= 1.0
  }

  /** For any ranking, with repeats or without: NDCG is at most one under every discount exactly when
      no prefix of the ranking gathers more than the ideal prefix of the same length. */
  lemma NdcgBoundedIff(ranking: seq<int>, rel: seq<Qrel>, k: nat)
    requires Judged(rel)
    ensures |Ideal(rel, k)| <= k
    ensures BoundedByOne(ranking, rel, k) <==> PrefixDominated(Pad(Gains(Take(ranking, k), rel), k), Pad(Ideal(rel, k), k))
  {
    var g, h := Pad(Gains(Take(ranking, k), rel), k), Pad(Ideal(rel, k), k);
    if PrefixDominated(g, h) {
      forall d: nat -> real | Discount(d) ensures Ndcg(d, ranking, rel, k) <= 1.0 {
        NdcgOfDominated(d, ranking, rel, k);
      }
    } else {
      var j :| 0 <= j <= |g| && Sum(g[..j]) > Sum(h[..j]);
      var d := LeadBreaksBound(ranking, rel, k, j);
      assert Discount(d) && Ndcg(d, ranking, rel, k) > 1.0;
    }
  }

  // ---- recall, reciprocal rank and their agreement ----

  function JudgedSet(rel: seq<Qrel>): set<int> {
    set i | 0 <= i < |rel| && rel[i].relevance > 0 :: rel[i].objectId
  }

  function Members(s: seq<int>): set<int> { set x | x in s }

  function Recall(ranking: seq<int>, rel: seq<Qrel>, k: nat): real {
    var judged := JudgedSet(rel);
    if judged == {} then 0.0
    else |judged * Members(Take(ranking, k))| as real / |judged| as real
  }

  ghost predicate HitWithin(ranking: seq<int>, rel: seq<Qrel>, k: nat) {
    exists i :: 0 <= i < |ranking| && i < k && Relevance(rel, ranking[i]) > 0
  }

  // The first relevant position, or the length without one.
  function FirstHit(top: seq<int>, rel: seq<Qrel>): (p: nat)
    ensures p <= |top| && (p < |top| ==> Relevance(rel, top[p]) > 0)
    ensures forall i :: 0 <= i < p ==> Relevance(rel, top[i]) <= 0
  {
    if top == [] || Relevance(rel, top[0]) > 0 then 0
    else FirstHit(top[1..], rel) + 1
  }

  function Reciprocal(ranking: seq<int>, rel: seq<Qrel>, k: nat): real {
    var p := FirstHit(Take(ranking, k), rel);
    if p < |Take(ranking, k)| then 1.0 / (p + 1) as real else 0.0
  }

  /** The reciprocal of the first relevant position within the cutoff, and zero without one. */
  method ReciprocalRank(ranking: seq<int>, rel: seq<Qrel>, k: nat) returns (r: real)
    ensures r == Reciprocal(ranking, rel, k)
    ensures !HitWithin(ranking, rel, k) ==> r == 0.0
    ensures HitWithin(ranking, rel, k) ==>
      exists p :: 0 <= p < |ranking| && p < k && Relevance(rel, ranking[p]) > 0
        && (forall i :: 0 <= i < p ==> Relevance(rel, ranking[i]) <= 0)
        && r == 1.0 / (p + 1) as real
  {
    var top := Take(ranking, k);
    for position := 0 to |top|
      invariant forall i :: 0 <= i < position ==> Relevance(rel, ranking[i]) <= 0
    {
      if Relevance(rel, top[position]) > 0 {
        return 1.0 / (position + 1) as real;
      }
    }
    return 0.0;
  }

  lemma JudgedSetMeaning(rel: seq<Qrel>, document: int)
    requires Dictionary(rel)
    ensures document in JudgedSet(rel) <==> Relevance(rel, document) > 0
  {
    RelevanceCases(rel, document);
  }

  lemma RecallBounded(ranking: seq<int>, rel: seq<Qrel>, j: nat, k: nat)
    requires j <= k
    ensures 0.0 <= Recall(ranking, rel, j) <= Recall(ranking, rel, k) <= 1.0
  {
    var judged := JudgedSet(rel);
    var at, upto := judged * Members(Take(ranking, j)), judged * Members(Take(ranking, k));
    forall x | x in at ensures x in upto {
      var i :| 0 <= i < |Take(ranking, j)| && Take(ranking, j)[i] == x;
      assert Take(ranking, k)[i] == x;
    }
    SubsetSize(at, upto);
    SubsetSize(upto, judged);
    if judged != {} {
      QuotientInUnit(|upto| as real, |judged| as real);
      QuotientInUnit(|at| as real, |judged| as real);
      QuotientMonotone(|at| as real, |upto| as real, |judged| as real);
    }
  }

  // Documents of positive relevance within the cutoff.
  function Found(ranking: seq<int>, rel: seq<Qrel>, k: nat): set<int> { JudgedSet(rel) * Members(Take(ranking, k)) }

  lemma QuotientIsOne(x: nat, y: nat)
    requires 0 < y && x <= y
    ensures x as real / y as real == 1.0 <==> x == y
  {
    var q := x as real / y as real;
    assert q * y as real == x as real;
  }

  /** Recall is one exactly when there are documents of positive relevance and every one of them
      stands within the cutoff. */
  lemma RecallIsOneIff(ranking: seq<int>, rel: seq<Qrel>, k: nat)
    requires Dictionary(rel)
    ensures Recall(ranking, rel, k) == 1.0 <==>
      && (exists document :: Relevance(rel, document) > 0)
      && forall document :: Relevance(rel, document) > 0 ==> document in Take(ranking, k)
  {
    var judged, found := JudgedSet(rel), Found(ranking, rel, k);
    forall document ensures document in judged <==> Relevance(rel, document) > 0 {
      JudgedSetMeaning(rel, document);
    }
    if some :| some in judged {
      assert Relevance(rel, some) > 0;
      SubsetSize(found, judged);
      QuotientIsOne(|found|, |judged|);
      if missed :| missed in judged && missed !in Take(ranking, k) {
        assert Relevance(rel, missed) > 0;
        SubsetSize(found, judged - {missed});
      } else {
        assert found == judged;
        forall document | Relevance(rel, document) > 0 ensures document in Take(ranking, k) {
          assert document in judged;
        }
      }
    } else {
      assert judged == {};
    }
  }

  lemma QuotientOfSum(x: real, y: real, z: real)
    requires z > 0.0
    ensures (x + y) / z == x / z + y / z
  {
    assert (x / z + y / z) * z == x + y;
  }

  lemma FoundGrows(ranking: seq<int>, rel: seq<Qrel>, k: nat)
    requires Dictionary(rel) && k < |ranking|
    ensures Found(ranking, rel, k + 1) == Found(ranking, rel, k) + if Relevance(rel, ranking[k]) > 0 then {ranking[k]} else {}
    ensures ranking[k] in Found(ranking, rel, k) <==> Relevance(rel, ranking[k]) > 0 && ranking[k] in ranking[..k]
  {
    JudgedSetMeaning(rel, ranking[k]);
    assert ranking[..k + 1] == ranking[..k] + [ranking[k]];
  }

  lemma RecallIsShare(ranking: seq<int>, rel: seq<Qrel>, k: nat)
    requires JudgedSet(rel) != {}
    ensures Recall(ranking, rel, k) == |Found(ranking, rel, k)| as real / |JudgedSet(rel)| as real
  {
  }

  /** Recall starts at zero. */
  lemma RecallOfNothing(ranking: seq<int>, rel: seq<Qrel>)
    ensures Recall(ranking, rel, 0) == 0.0
  {
    assert Take(ranking, 0) == [] && Found(ranking, rel, 0) == {};
    if JudgedSet(rel) != {} { assert 0.0 / |JudgedSet(rel)| as real == 0.0; }
  }

  /** Moving the cutoff past one more document raises recall by one over the number of judged
      documents, if that document is relevant and was not seen before, and else leaves it alone. */
  lemma RecallStep(ranking: seq<int>, rel: seq<Qrel>, k: nat)
    requires Dictionary(rel) && JudgedSet(rel) != {} && k < |ranking|
    ensures Recall(ranking, rel, k + 1) == Recall(ranking, rel, k) +
      if Relevance(rel, ranking[k]) > 0 && ranking[k] !in ranking[..k] then 1.0 / |JudgedSet(rel)| as real else 0.0
  {
    FoundGrows(ranking, rel, k);
    RecallIsShare(ranking, rel, k);
    RecallIsShare(ranking, rel, k + 1);
    var counts := Relevance(rel, ranking[k]) > 0 && ranking[k] !in ranking[..k];
    OneMore(Found(ranking, rel, k), Found(ranking, rel, k + 1), JudgedSet(rel), ranking[k], counts);
  }

  lemma OneMore(found: set<int>, more: set<int>, judged: set<int>, document: int, counts: bool)
    requires judged != {} && (if counts then document !in found && more == found + {document} else more == found)
    ensures |more| as real / |judged| as real == |found| as real / |judged| as real + if counts then 1.0 / |judged| as real else 0.0
  {
    if counts { QuotientOfSum(|found| as real, 1.0, |judged| as real); }
  }

  // ---- how NDCG answers to the ranking ----

  /** Two rankings of the same judgments score in proportion to their discounted gains. */
  lemma NdcgInProportion(d: nat -> real, a: seq<int>, b: seq<int>, rel: seq<Qrel>, k: nat)
    ensures Ndcg(d, a, rel, k) * Dcg(d, Gains(Take(b, k), rel)) == Ndcg(d, b, rel, k) * Dcg(d, Gains(Take(a, k), rel))
  {
    var x, y, z := Dcg(d, Gains(Take(a, k), rel)), Dcg(d, Gains(Take(b, k), rel)), Dcg(d, Ideal(rel, k));
    if z > 0.0 { CrossQuotients(x, y, z); }
  }

  lemma CrossQuotients(x: real, y: real, z: real)
    requires z > 0.0
    ensures x / z * y == y / z * x
  {
    assert x / z * y * z == x * y && y / z * x * z == x * y;
  }

  function Exchanged<T>(s: seq<T>, i: nat): (t: seq<T>)
    requires i + 1 < |s|
    ensures |t| == |s|
  {
    s[i := s[i + 1]][i + 1 := s[i]]
  }

  lemma DcgTwo(d: nat -> real, g: seq<int>, n: nat)
    requires n + 2 == |g|
    ensures Dcg(d, g) == Dcg(d, g[..n]) + g[n] as real * d(n) + g[n + 1] as real * d(n + 1)
  {
    assert g[..n + 1][..n] == g[..n];
  }

  lemma ExchangeTerms(x: int, y: int, p: real, q: real)
    ensures y as real * p + x as real * q - (x as real * p + y as real * q) == (y - x) as real * (p - q)
  {
    assert (y - x) as real == y as real - x as real;
  }

  lemma GainsExchange(ranking: seq<int>, rel: seq<Qrel>, k: nat, i: nat)
    requires i + 1 < |ranking| && i + 1 < k
    ensures |Take(ranking, k)| > i + 1
    ensures Gains(Take(Exchanged(ranking, i), k), rel) == Exchanged(Gains(Take(ranking, k), rel), i)
  {
    assert Take(Exchanged(ranking, i), k) == Exchanged(Take(ranking, k), i);
  }

  lemma QuotientOrder(x: real, y: real, z: real)
    requires z > 0.0
    ensures x / z > y / z <==> x > y
  {
    assert x / z * z == x && y / z * z == y;
  }

  lemma DifferenceSign(a: real, b: real, x: int, p: real)
    requires p > 0.0 && a - b == x as real * p
    ensures a > b <==> x > 0
  {
    TermSign(if x >= 0 then x else -x, p);
    if x < 0 { assert x as real * p == -((-x) as real * p); }
  }

  /** Letting a document pass its neighbour within the cutoff raises NDCG exactly when it is the more
      relevant one. */
  lemma NdcgRisesIff(d: nat -> real, ranking: seq<int>, rel: seq<Qrel>, k: nat, i: nat)
    requires StrictDiscount(d) && Judged(rel) && i + 1 < |ranking| && i + 1 < k
    ensures Ndcg(d, Exchanged(ranking, i), rel, k) > Ndcg(d, ranking, rel, k) <==> Relevance(rel, ranking[i + 1]) > Relevance(rel, ranking[i])
  {
    var g, z := Gains(Take(ranking, k), rel), Dcg(d, Ideal(rel, k));
    GainsExchange(ranking, rel, k, i);
    DcgRisesIff(d, g, i);
    RelevanceNonnegative(rel, ranking[i]);
    if Relevance(rel, ranking[i + 1]) > 0 { PositiveIdeal(d, rel, k, ranking[i + 1]); }
    if z > 0.0 { QuotientOrder(Dcg(d, Exchanged(g, i)), Dcg(d, g), z); }
  }

  lemma ExchangeRises(c: real, x: int, y: int, p: real, q: real)
    requires p > q
    ensures c + y as real * p + x as real * q > c + x as real * p + y as real * q <==> y > x
  {
    ExchangeTerms(x, y, p, q);
    DifferenceSign(c + y as real * p + x as real * q, c + x as real * p + y as real * q, y - x, p - q);
  }

  lemma {:induction false} DcgRisesIff(d: nat -> real, g: seq<int>, i: nat)
    requires i + 1 < |g| && d(i) > d(i + 1)
    ensures Dcg(d, Exchanged(g, i)) > Dcg(d, g) <==> g[i + 1] > g[i]
  {
    var n, h := |g| - 1, Exchanged(g, i);
    if i + 1 == n {
      DcgTwo(d, g, i);
      DcgTwo(d, h, i);
      assert h[..i] == g[..i];
      ExchangeRises(Dcg(d, g[..i]), g[i], g[i + 1], d(i), d(i + 1));
    } else {
      assert h[..n] == Exchanged(g[..n], i) && h[n] == g[n];
      DcgRisesIff(d, g[..n], i);
    }
  }

  lemma QuotientMonotone(x: real, y: real, z: real)
    requires x <= y && z > 0.0
    ensures x / z <= y / z
  {
    assert (y / z - x / z) * z == y - x;
  }

  lemma SubsetSize(a: set<int>, b: set<int>)
    requires a <= b
    ensures |a| <= |b|
  {
    assert b == a + (b - a);
  }

  /** NDCG, recall and the reciprocal rank agree on whether anything relevant was found. */
  lemma MetricsAgreeOnHits(d: nat -> real, ranking: seq<int>, rel: seq<Qrel>, k: nat)
    requires Discount(d) && Judged(rel)
    ensures Recall(ranking, rel, k) > 0.0 <==> HitWithin(ranking, rel, k)
    ensures Ndcg(d, ranking, rel, k) > 0.0 <==> HitWithin(ranking, rel, k)
    ensures Reciprocal(ranking, rel, k) > 0.0 <==> HitWithin(ranking, rel, k)
  {
    RecallOnHits(ranking, rel, k);
    NdcgOnHits(d, ranking, rel, k);
    ReciprocalOnHits(ranking, rel, k);
  }

  lemma ReciprocalOnHits(ranking: seq<int>, rel: seq<Qrel>, k: nat)
    ensures Reciprocal(ranking, rel, k) > 0.0 <==> HitWithin(ranking, rel, k)
  {
    assert forall i :: 0 <= i < |Take(ranking, k)| ==> Take(ranking, k)[i] == ranking[i];
  }

  lemma RecallOnHits(ranking: seq<int>, rel: seq<Qrel>, k: nat)
    requires Judged(rel)
    ensures Recall(ranking, rel, k) > 0.0 <==> HitWithin(ranking, rel, k)
  {
    var top, judged := Take(ranking, k), JudgedSet(rel);
    var found := judged * Members(top);
    forall i | 0 <= i < |ranking| ensures ranking[i] in judged <==> Relevance(rel, ranking[i]) > 0 {
      JudgedSetMeaning(rel, ranking[i]);
    }
    if HitWithin(ranking, rel, k) {
      var i :| 0 <= i < |ranking| && i < k && Relevance(rel, ranking[i]) > 0;
      assert top[i] in found;
    } else {
      forall x | x in Members(top) ensures x !in judged {
        var i :| 0 <= i < |top| && top[i] == x;
        assert Relevance(rel, ranking[i]) <= 0;
      }
      assert found == {};
    }
    SubsetSize(found, judged);
    if judged != {} { QuotientInUnit(|found| as real, |judged| as real); }
  }

  lemma NdcgOnHits(d: nat -> real, ranking: seq<int>, rel: seq<Qrel>, k: nat)
    requires Discount(d) && Judged(rel)
    ensures Ndcg(d, ranking, rel, k) > 0.0 <==> HitWithin(ranking, rel, k)
  {
    var g := Gains(Take(ranking, k), rel);
    GainsNonnegative(Take(ranking, k), rel);
    DcgNonnegative(d, g);
    var idcg := Dcg(d, Ideal(rel, k));
    if HitWithin(ranking, rel, k) {
      var i :| 0 <= i < |ranking| && i < k && Relevance(rel, ranking[i]) > 0;
      assert g[i] > 0;
      PositiveIdeal(d, rel, k, ranking[i]);
    }
    if idcg > 0.0 { QuotientSign(Dcg(d, g), idcg); }
  }

  lemma QuotientSign(x: real, y: real)
    requires x >= 0.0 && y > 0.0
    ensures x / y > 0.0 <==> x > 0.0
  {
    assert x == (x / y) * y;
  }

  // ---- nearest-rank percentiles ----

  datatype Percentile = Value(value: int) | InvalidInput

  // math.ceil of a positive real.
  function Ceiling(x: real): (c: int)
    ensures c as real - 1.0 < x <= c as real
  {
    -((-x).Floor)
  }

  // How many of `n` samples a percentile asks for, as a real number.
  function Share(percentile: real, n: nat): real { percentile / 100.0 * n as real }

  function NearestRank(values: seq<int>, percentile: real): Percentile {
    if values == [] || !(0.0 < percentile <= 100.0) then InvalidInput
    else
      var wanted := Ceiling(Share(percentile, |values|));
      var rank := if wanted > 1 then wanted else 1;
      if rank <= |values| then Value(Sort(Ascending, values)[rank - 1]) else InvalidInput
  }

  lemma ValidRankIsLeast(values: seq<int>, percentile: real)
    requires values != [] && 0.0 < percentile <= 100.0
    ensures NearestRank(values, percentile).Value?
    ensures var v := NearestRank(values, percentile).value;
      && v in values
      && Count(AtMost(v), values) as real >= Share(percentile, |values|)
      && Count(Below(v), values) as real < Share(percentile, |values|)
  {
    ShareBounds(percentile, |values|);
    var rank := Ceiling(Share(percentile, |values|));
    assert 1 <= rank <= |values|;
    SortedRankCounts(values, rank - 1);
    assert NearestRank(values, percentile) == Value(Sort(Ascending, values)[rank - 1]);
  }

  /** There is a result exactly for samples and a percentile in range.  It is the least sample with at
      least the wanted share of samples at or below it, so it depends only on the samples and the index
      never runs off the end. */
  lemma NearestRankIsLeast(values: seq<int>, percentile: real)
    ensures NearestRank(values, percentile).Value? <==> values != [] && 0.0 < percentile <= 100.0
    ensures NearestRank(values, percentile).Value? ==>
      var v := NearestRank(values, percentile).value;
      && v in values
      && Count(AtMost(v), values) as real >= Share(percentile, |values|)
      && Count(Below(v), values) as real < Share(percentile, |values|)
  {
    if values != [] && 0.0 < percentile <= 100.0 { ValidRankIsLeast(values, percentile); }
  }

  lemma ShareBounds(percentile: real, n: nat)
    requires 0.0 < percentile <= 100.0 && n > 0
    ensures 0.0 < Share(percentile, n) <= n as real
  {
    var q := percentile / 100.0;
    assert 0.0 < q <= 1.0;
    assert (1.0 - q) * n as real >= 0.0;
    assert q * n as real > 0.0;
  }
}
