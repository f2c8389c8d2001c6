/**
  The bookkeeping around the metrics: results grouped into reporting segments, and fixture
  documents split into ingest requests.
*/
module EvaluationHarness {
  import opened Collections
  import opened Sorting

  // ---- segments ----

  function HasKey<T, K(==)>(selector: T -> K, key: K): T -> bool { x => selector(x) == key }

  /** The elements of `s` in the segment `key`, in order. */
  function Segment<T(!new), K(==)>(selector: T -> K, key: K, s: seq<T>): seq<T> {
    Filter(HasKey(selector, key), s)
  }

  /** One key of the dictionary: present exactly for a nonempty segment, which it holds. */
  ghost predicate GroupedAt<T(!new), K>(selector: T -> K, s: seq<T>, groups: map<K, seq<T>>, key: K) {
    && (key in groups <==> Segment(selector, key, s) != [])
    && (key in groups ==> groups[key] == Segment(selector, key, s))
  }

  function Add<T, K(==)>(groups: map<K, seq<T>>, key: K, x: T): map<K, seq<T>> {
    groups[key := (if key in groups then groups[key] else []) + [x]]
  }

  lemma GroupedStep<T(!new), K(!new)>(selector: T -> K, s: seq<T>, i: nat, groups: map<K, seq<T>>, key: K)
    requires i < |s| && GroupedAt(selector, s[..i], groups, key)
    ensures GroupedAt(selector, s[..i + 1], Add(groups, selector(s[i]), s[i]), key)
  {
    assert s[..i + 1] == s[..i] + [s[i]];
    FilterSnoc(HasKey(selector, key), s[..i], s[i]);
  }

  lemma SegmentNonempty<T(!new), K>(selector: T -> K, s: seq<T>, key: K)
    ensures Segment(selector, key, s) != [] <==> exists i :: 0 <= i < |s| && selector(s[i]) == key
  {
    var segment := Segment(selector, key, s);
    if segment != [] {
      assert segment[0] in segment;
      var i :| 0 <= i < |s| && s[i] == segment[0];
      assert selector(s[i]) == key;
    }
    if i :| 0 <= i < |s| && selector(s[i]) == key {
      assert s[i] in segment;
    }
  }

  method GroupBy<T(!new), K(==, !new)>(selector: T -> K, results: seq<T>) returns (groups: map<K, seq<T>>)
    ensures forall key :: key in groups <==> exists i :: 0 <= i < |results| && selector(results[i]) == key
    ensures forall key :: key in groups ==> groups[key] == Segment(selector, key, results)
  {
    groups := map[];
    for i := 0 to |results|
      invariant forall key :: GroupedAt(selector, results[..i], groups, key)
    {
      var next := Add(groups, selector(results[i]), results[i]);
      ghost var seen := results[..i + 1];
      forall key ensures GroupedAt(selector, seen, next, key) {
        GroupedStep(selector, results, i, groups, key);
      }
      groups := next;
    }
    assert results[..|results|] == results;
    forall key ensures GroupedAt(selector, results, groups, key)
      && (key in groups <==> exists i :: 0 <= i < |results| && selector(results[i]) == key)
    {
      SegmentNonempty(selector, results, key);
    }
  }

  function Total<T>(metric: T -> real, s: seq<T>): real {
    if s == [] then 0.0 else Total(metric, s[..|s| - 1]) + metric(s[|s| - 1])
  }

  // The aggregate of a nonempty segment, before it is rounded for display.
  function Mean<T>(metric: T -> real, s: seq<T>): real
    requires s != []
  {
    Total(metric, s) / |s| as real
  }

  function SegmentTotal<T(!new), K(==)>(selector: T -> K, metric: T -> real, s: seq<T>, keys: seq<K>): real {
    if keys == [] then 0.0
    else Total(metric, Segment(selector, keys[0], s)) + SegmentTotal(selector, metric, s, keys[1..])
  }

  /** The number of results in all segments and the sum of their means weighted by size. */
  function WeightedMeans<T(!new), K(==)>(selector: T -> K, metric: T -> real, s: seq<T>, keys: seq<K>): (nat, real) {
    if keys == [] then (0, 0.0)
    else
      var segment := Segment(selector, keys[0], s);
      var rest := WeightedMeans(selector, metric, s, keys[1..]);
      (|segment| + rest.0, (if segment == [] then 0.0 else |segment| as real * Mean(metric, segment)) + rest.1)
  }

  lemma {:induction false} SegmentTotalEmpty<T(!new), K>(selector: T -> K, metric: T -> real, keys: seq<K>)
    ensures SegmentTotal(selector, metric, [], keys) == 0.0
  {
    if keys != [] { SegmentTotalEmpty(selector, metric, keys[1..]); }
  }

  /** One more result lands in the one segment that bears its key. */
  lemma {:induction false} SegmentTotalStep<T(!new), K>(selector: T -> K, metric: T -> real, s: seq<T>, keys: seq<K>)
    requires s != [] && Distinct(keys)
    ensures SegmentTotal(selector, metric, s, keys)
      == SegmentTotal(selector, metric, s[..|s| - 1], keys)
         + (if selector(s[|s| - 1]) in keys then metric(s[|s| - 1]) else 0.0)
  {
    if keys != [] {
      var n := |s| - 1;
      SegmentTotalStep(selector, metric, s, keys[1..]);
      var segment := Segment(selector, keys[0], s[..n]);
      if selector(s[n]) == keys[0] {
        assert Segment(selector, keys[0], s)[..|segment|] == segment;
        assert selector(s[n]) !in keys[1..];
      }
    }
  }

  lemma {:induction false} SegmentsPartition<T(!new), K>(selector: T -> K, metric: T -> real, s: seq<T>, keys: seq<K>)
    requires Distinct(keys) && forall i :: 0 <= i < |s| ==> selector(s[i]) in keys
    ensures SegmentTotal(selector, metric, s, keys) == Total(metric, s)
  {
    if s == [] {
      SegmentTotalEmpty(selector, metric, keys);
    } else {
      SegmentTotalStep(selector, metric, s, keys);
      SegmentsPartition(selector, metric, s[..|s| - 1], keys);
    }
  }

  lemma {:induction false} TotalOfOnes<T>(s: seq<T>)
    ensures Total((x: T) => 1.0, s) == |s| as real
  {
    if s != [] { TotalOfOnes(s[..|s| - 1]); }
  }

  lemma MeanTimesCount<T>(metric: T -> real, s: seq<T>)
    requires s != []
    ensures |s| as real * Mean(metric, s) == Total(metric, s)
  {
  }

  lemma {:induction false} WeightedMeansAreTotals<T(!new), K>(selector: T -> K, metric: T -> real, s: seq<T>, keys: seq<K>)
    ensures WeightedMeans(selector, metric, s, keys).0 as real == SegmentTotal(selector, (x: T) => 1.0, s, keys)
    ensures WeightedMeans(selector, metric, s, keys).1 == SegmentTotal(selector, metric, s, keys)
  {
    if keys != [] {
      var segment := Segment(selector, keys[0], s);
      WeightedMeansAreTotals(selector, metric, s, keys[1..]);
      TotalOfOnes(segment);
      if segment != [] { MeanTimesCount(metric, segment); }
    }
  }

  /** Segmenting loses and double-counts nothing: segment sizes add up to the number of
      results, and their means, weighted by size, to the overall mean times that number. */
  lemma SegmentsConserve<T(!new), K>(selector: T -> K, metric: T -> real, s: seq<T>, keys: seq<K>)
    requires s != [] && Distinct(keys)
    requires forall i :: 0 <= i < |s| ==> selector(s[i]) in keys
    ensures WeightedMeans(selector, metric, s, keys) == (|s|, |s| as real * Mean(metric, s))
  {
    WeightedMeansAreTotals(selector, metric, s, keys);
    SegmentsPartition(selector, metric, s, keys);
    SegmentsPartition(selector, (x: T) => 1.0, s, keys);
    TotalOfOnes(s);
    MeanTimesCount(metric, s);
  }

  // ---- ingest ----

  datatype Domain = Personal | Work | Journal

  datatype Document = Document(objectId: int, domain: Domain, text: string)

  datatype Request = Request(collection: int, idempotencyId: int, documents: seq<Document>)

  const DOMAINS := [Personal, Work, Journal]
  const BATCH := 256

  function Collection(domain: Domain): int {
    match domain
    case Personal => 21
    case Work => 22
    case Journal => 23
  }

  predicate ByObjectId(a: Document, b: Document) { a.objectId <= b.objectId }

  function DomainOf(document: Document): Domain { document.domain }

  /** The documents of one domain in ascending identity order. */
  function Ordered(documents: seq<Document>, domain: Domain): seq<Document> {
    Segment(DomainOf, domain, Sort(ByObjectId, documents))
  }

  function Batches(collection: int, documents: seq<Document>, offset: nat): seq<Request>
    decreases |documents| - offset
  {
    if offset >= |documents| then []
    else
      var end := if offset + BATCH <= |documents| then offset + BATCH else |documents|;
      [Request(collection, collection * 1000 + offset + 1, documents[offset..end])]
      + Batches(collection, documents, offset + BATCH)
  }

  function Plan(documents: seq<Document>, domains: seq<Domain>): seq<Request> {
    if domains == [] then []
    else
      var domain := domains[|domains| - 1];
      Plan(documents, domains[..|domains| - 1]) + Batches(Collection(domain), Ordered(documents, domain), 0)
  }

  /** What the requests of one collection carry, in order. */
  function Carried(collection: int, requests: seq<Request>): seq<Document> {
    if requests == [] then []
    else
      (if requests[0].collection == collection then requests[0].documents else [])
      + Carried(collection, requests[1..])
  }

  ghost predicate InBatch(collection: int, offset: nat, request: Request) {
    && request.collection == collection
    && 0 < |request.documents| <= BATCH
    && exists m: nat :: request.idempotencyId == collection * 1000 + offset + BATCH * m + 1
  }

  ghost predicate BatchRun(collection: int, offset: nat, requests: seq<Request>) {
    && (forall i :: 0 <= i < |requests| ==> InBatch(collection, offset, requests[i]))
    && (forall i, j :: 0 <= i < j < |requests| ==> requests[i].idempotencyId < requests[j].idempotencyId)
  }

  lemma LaterBatch(collection: int, offset: nat, request: Request)
    requires InBatch(collection, offset + BATCH, request)
    ensures InBatch(collection, offset, request)
    ensures request.idempotencyId > collection * 1000 + offset + 1
  {
    var m: nat :| request.idempotencyId == collection * 1000 + (offset + BATCH) + BATCH * m + 1;
    assert request.idempotencyId == collection * 1000 + offset + BATCH * (m + 1) + 1;
  }

  lemma {:induction false} BatchShape(collection: int, documents: seq<Document>, offset: nat)
    ensures BatchRun(collection, offset, Batches(collection, documents, offset))
    decreases |documents| - offset
  {
    if offset < |documents| {
      var b, rest := Batches(collection, documents, offset), Batches(collection, documents, offset + BATCH);
      BatchShape(collection, documents, offset + BATCH);
      assert b[0].idempotencyId == collection * 1000 + offset + BATCH * 0 + 1;
      forall i | 0 <= i < |rest|
        ensures InBatch(collection, offset, rest[i]) && rest[i].idempotencyId > b[0].idempotencyId
      {
        LaterBatch(collection, offset, rest[i]);
      }
      assert b == [b[0]] + rest;
    }
  }

  lemma {:induction false} BatchesCarryAll(collection: int, documents: seq<Document>, offset: nat)
    requires offset <= |documents|
    ensures Carried(collection, Batches(collection, documents, offset)) == documents[offset..]
    decreases |documents| - offset
  {
    if offset < |documents| {
      var b, rest := Batches(collection, documents, offset), Batches(collection, documents, offset + BATCH);
      assert b[1..] == rest;
      if offset + BATCH <= |documents| {
        BatchesCarryAll(collection, documents, offset + BATCH);
        assert documents[offset..] == documents[offset..offset + BATCH] + documents[offset + BATCH..];
      } else {
        assert documents[offset..|documents|] == documents[offset..];
      }
    }
  }

  lemma {:induction false} CarriedConcat(collection: int, s: seq<Request>, t: seq<Request>)
    ensures Carried(collection, s + t) == Carried(collection, s) + Carried(collection, t)
  {
    if s == [] {
      assert s + t == t;
    } else {
      assert (s + t)[1..] == s[1..] + t;
      CarriedConcat(collection, s[1..], t);
    }
  }

  lemma {:induction false} CarriedNothing(collection: int, s: seq<Request>)
    requires forall i :: 0 <= i < |s| ==> s[i].collection != collection
    ensures Carried(collection, s) == []
  {
    if s != [] { CarriedNothing(collection, s[1..]); }
  }

  lemma BatchesCarry(documents: seq<Document>, last: Domain, domain: Domain)
    ensures Carried(Collection(domain), Batches(Collection(last), Ordered(documents, last), 0))
      == if domain == last then Ordered(documents, domain) else []
  {
    var mine := Ordered(documents, last);
    var batches := Batches(Collection(last), mine, 0);
    if domain == last {
      BatchesCarryAll(Collection(last), mine, 0);
      assert mine[0..] == mine;
    } else {
      BatchShape(Collection(last), mine, 0);
      assert Collection(domain) != Collection(last);
      forall i | 0 <= i < |batches| ensures batches[i].collection != Collection(domain) {
        assert InBatch(Collection(last), 0, batches[i]);
      }
      CarriedNothing(Collection(domain), batches);
    }
  }

  lemma CarriesOneMore(documents: seq<Document>, head: seq<Request>, last: Domain, domain: Domain)
    ensures Carried(Collection(domain), head + Batches(Collection(last), Ordered(documents, last), 0))
      == Carried(Collection(domain), head) + if domain == last then Ordered(documents, last) else []
  {
    CarriedConcat(Collection(domain), head, Batches(Collection(last), Ordered(documents, last), 0));
    BatchesCarry(documents, last, domain);
  }

  lemma {:induction false} PlanCarries(documents: seq<Document>, domains: seq<Domain>, domain: Domain)
    requires Distinct(domains)
    ensures Carried(Collection(domain), Plan(documents, domains))
      == if domain in domains then Ordered(documents, domain) else []
  {
    if domains != [] {
      var n := |domains| - 1;
      CarriesOneMore(documents, Plan(documents, domains[..n]), domains[n], domain);
      PlanCarries(documents, domains[..n], domain);
      MemberOfLast(domains, domain);
    }
  }

  /** Idempotency identities of different collections never meet, although both ranges grow
      past the distance between them: 1000 and 2000 are no multiples of the batch size. */
  lemma IdentitiesApart(c: int, d: int, m: nat, n: nat)
    requires 21 <= c <= 23 && 21 <= d <= 23 && c != d
    ensures c * 1000 + BATCH * m + 1 != d * 1000 + BATCH * n + 1
  {
    assert (1000 * (c - d)) % 256 != 0;
    assert (256 * (n - m)) % 256 == 0;
  }

  // Each request belongs to one of the domains, and no two share an idempotency identity.
  ghost predicate WellFormed(requests: seq<Request>, domains: seq<Domain>) {
    && (forall i :: 0 <= i < |requests| ==>
        exists domain :: domain in domains && InBatch(Collection(domain), 0, requests[i]))
    && (forall i, j :: 0 <= i < j < |requests| ==> requests[i].idempotencyId != requests[j].idempotencyId)
  }

  lemma ApartRequests(a: Request, b: Request, c: Domain, d: Domain)
    requires InBatch(Collection(c), 0, a) && InBatch(Collection(d), 0, b) && c != d
    ensures a.idempotencyId != b.idempotencyId
  {
    var m: nat :| a.idempotencyId == Collection(c) * 1000 + 0 + BATCH * m + 1;
    var n: nat :| b.idempotencyId == Collection(d) * 1000 + 0 + BATCH * n + 1;
    IdentitiesApart(Collection(c), Collection(d), m, n);
  }

  lemma JoinWellFormed(head: seq<Request>, batches: seq<Request>, domains: seq<Domain>, last: Domain)
    requires WellFormed(head, domains) && last !in domains
    requires BatchRun(Collection(last), 0, batches)
    ensures WellFormed(head + batches, domains + [last])
  {
    var p := head + batches;
    forall i | 0 <= i < |p|
      ensures exists d :: d in domains + [last] && InBatch(Collection(d), 0, p[i])
    {
      if i < |head| {
        assert p[i] == head[i];
        var d :| d in domains && InBatch(Collection(d), 0, head[i]);
        assert d in domains + [last];
      } else {
        assert last in domains + [last] && InBatch(Collection(last), 0, batches[i - |head|]);
      }
    }
    forall i, j | 0 <= i < |head| && 0 <= j < |batches|
      ensures head[i].idempotencyId != batches[j].idempotencyId
    {
      var d :| d in domains && InBatch(Collection(d), 0, head[i]);
      assert InBatch(Collection(last), 0, batches[j]);
      ApartRequests(head[i], batches[j], d, last);
    }
  }

  lemma {:induction false} PlanWellFormed(documents: seq<Document>, domains: seq<Domain>)
    requires Distinct(domains)
    ensures WellFormed(Plan(documents, domains), domains)
  {
    if domains != [] {
      var n := |domains| - 1;
      var last := domains[n];
      PlanWellFormed(documents, domains[..n]);
      BatchShape(Collection(last), Ordered(documents, last), 0);
      JoinWellFormed(Plan(documents, domains[..n]), Batches(Collection(last), Ordered(documents, last), 0),
                     domains[..n], last);
      assert domains == domains[..n] + [last];
    }
  }

  lemma NoSegment<T(!new), K>(selector: T -> K, key: K, s: seq<T>)
    ensures (forall i :: 0 <= i < |s| ==> selector(s[i]) != key) ==> Segment(selector, key, s) == []
  {
    var mine := Segment(selector, key, s);
    if mine != [] { assert mine[0] in mine; }
  }

  lemma PlanMeaning(documents: seq<Document>, domains: seq<Domain>)
    requires Distinct(domains) && forall d: Domain :: d in domains
    ensures forall d :: Carried(Collection(d), Plan(documents, domains)) == Ordered(documents, d)
    ensures WellFormed(Plan(documents, domains), domains)
  {
    forall d ensures Carried(Collection(d), Plan(documents, domains)) == Ordered(documents, d) {
      PlanCarries(documents, domains, d);
    }
    PlanWellFormed(documents, domains);
  }

  method IngestDomain(collection: int, documents: seq<Document>) returns (requests: seq<Request>)
    ensures requests == Batches(collection, documents, 0)
  {
    requests := [];
    var offset := 0;
    while offset < |documents|
      invariant offset >= 0
      invariant Batches(collection, documents, 0) == requests + Batches(collection, documents, offset)
      decreases |documents| - offset
    {
      var end := if offset + BATCH <= |documents| then offset + BATCH else |documents|;
      var request := Request(collection, collection * 1000 + offset + 1, documents[offset..end]);
      assert requests + Batches(collection, documents, offset)
          == requests + [request] + Batches(collection, documents, offset + BATCH);
      requests := requests + [request];
      offset := offset + BATCH;
    }
  }

  method IngestDomains(documents: seq<Document>, domains: seq<Domain>) returns (requests: seq<Request>)
    ensures requests == Plan(documents, domains)
  {
    var ordered := Sort(ByObjectId, documents);
    var byDomain := GroupBy(DomainOf, ordered);
    requests := [];
    for k := 0 to |domains|
      invariant requests == Plan(documents, domains[..k])
    {
      var domain := domains[k];
      NoSegment(DomainOf, domain, ordered);
      var batches := IngestDomain(Collection(domain), if domain in byDomain then byDomain[domain] else []);
      requests := requests + batches;
      assert domains[..k + 1][..k] == domains[..k];
    }
    assert domains[..|domains|] == domains;
  }

  /** The ingest loops.  Every domain's documents go to its own collection, complete and in
      identity order, in nonempty batches of at most 256, and no two requests share an
      idempotency identity. */
  method Ingest(documents: seq<Document>) returns (requests: seq<Request>)
    ensures forall domain :: Carried(Collection(domain), requests) == Ordered(documents, domain)
    ensures WellFormed(requests, DOMAINS)
  {
    requests := IngestDomains(documents, DOMAINS);
    forall d: Domain ensures d in DOMAINS {
      match d case Personal => assert DOMAINS[0] == d; case Work => assert DOMAINS[1] == d; case Journal => assert DOMAINS[2] == d;
    }
    PlanMeaning(documents, DOMAINS);
  }
}
