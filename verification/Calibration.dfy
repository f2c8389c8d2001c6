/** Thread-scaling diagnostics: the recomputed robust statistics and the status of one point. */
module Calibration {
  import opened Sorting

  const PPM := 1_000_000
  const PICOSECONDS_PER_SECOND := 1_000_000_000_000

  datatype Statistics = Statistics(
    minimum: int, median: int, maximum: int, mad: int, relativeMadPpm: int, relativeRangePpm: int, bytesPerSecond: int)

  // Samples and sizes are validated as integers of at least one before they are summarised.
  ghost predicate Measured(samples: seq<int>) {
    samples != [] && forall i :: 0 <= i < |samples| ==> samples[i] >= 1
  }

  function Median(values: seq<int>): int
    requires values != []
  {
    Sort(Ascending, values)[|values| / 2]
  }

  function Distance(center: int): int -> int {
    x => if x < center then center - x else x - center
  }

  function Mad(samples: seq<int>): int
    requires samples != []
  {
    Median(Map(Distance(Median(samples)), Sort(Ascending, samples)))
  }

  function Relative(part: int, whole: int): int
    requires whole != 0
  {
    part * PPM / whole
  }

  function Rate(bytesPerOperation: int, median: int): int
    requires median != 0
  {
    var rate := bytesPerOperation * PICOSECONDS_PER_SECOND / median;
    if rate < 1 then 1 else rate
  }

  function Least(samples: seq<int>): int
    requires samples != []
  {
    Sort(Ascending, samples)[0]
  }

  function Most(samples: seq<int>): int
    requires samples != []
  {
    Sort(Ascending, samples)[|samples| - 1]
  }

  function Spread(samples: seq<int>): int
    requires samples != []
  {
    Most(samples) - Least(samples)
  }

  function Recompute(samples: seq<int>, bytesPerOperation: int): Statistics
    requires samples != [] && Median(samples) != 0
  {
    var median, mad := Median(samples), Mad(samples);
    Statistics(
      Least(samples), median, Most(samples), mad,
      Relative(mad, median), Relative(Spread(samples), median), Rate(bytesPerOperation, median))
  }

  lemma AscendingIsTotal()
    ensures TotalOrder(Ascending)
  {
  }

  // ---- order of the samples ----

  /** The statistics are a function of the multiset of samples: chronology cannot matter. */
  lemma StatisticsIgnoreOrder(samples: seq<int>, others: seq<int>, bytesPerOperation: int)
    requires Measured(samples) && multiset(samples) == multiset(others)
    ensures Measured(others)
    ensures Median(samples) > 0 && Median(others) > 0
    ensures Recompute(samples, bytesPerOperation) == Recompute(others, bytesPerOperation)
  {
    AscendingIsTotal();
    SortIgnoresOrder(Ascending, samples, others);
    SameMembers(samples, others);
    forall i | 0 <= i < |others| ensures others[i] >= 1 {
      assert others[i] in samples;
    }
    MedianPositive(samples);
    MedianPositive(others);
  }

  lemma MedianPositive(samples: seq<int>)
    requires Measured(samples)
    ensures Median(samples) >= 1
  {
    SortedRankCounts(samples, |samples| / 2);
  }

  // ---- what the median and the deviation are ----

  function Near(center: int, radius: int): int -> bool {
    x => Distance(center)(x) <= radius
  }

  function Closer(center: int, radius: int): int -> bool {
    x => Distance(center)(x) < radius
  }

  /** The value with a strict majority at or below it and at most half strictly below it. */
  lemma MedianSplits(samples: seq<int>)
    requires samples != []
    ensures Median(samples) in samples
    ensures 2 * Count(AtMost(Median(samples)), samples) > |samples|
    ensures 2 * Count(Below(Median(samples)), samples) <= |samples|
  {
    SortedRankCounts(samples, |samples| / 2);
  }

  lemma {:induction false} CountThroughMap(center: int, radius: int, s: seq<int>)
    ensures Count(AtMost(radius), Map(Distance(center), s)) == Count(Near(center, radius), s)
    ensures Count(Below(radius), Map(Distance(center), s)) == Count(Closer(center, radius), s)
  {
    var d := Map(Distance(center), s);
    if s != [] {
      CountThroughMap(center, radius, s[1..]);
      assert Map(Distance(center), s[1..]) == d[1..];
    }
  }

  lemma DeviationSplits(samples: seq<int>)
    requires samples != []
    ensures 2 * Count(Near(Median(samples), Mad(samples)), samples) > |samples|
    ensures 2 * Count(Closer(Median(samples), Mad(samples)), samples) <= |samples|
  {
    var center, ordered := Median(samples), Sort(Ascending, samples);
    var deviations := Map(Distance(center), ordered);
    MedianSplits(deviations);
    CountThroughMap(center, Mad(samples), ordered);
    CountIgnoresOrder(Near(center, Mad(samples)), ordered, samples);
    CountIgnoresOrder(Closer(center, Mad(samples)), ordered, samples);
  }

  /** The deviation is the least radius around the median that takes in a strict majority. */
  lemma MadIsLeastMajorityRadius(samples: seq<int>, radius: int)
    requires samples != []
    ensures 2 * Count(Near(Median(samples), radius), samples) > |samples| <==> radius >= Mad(samples)
  {
    DeviationSplits(samples);
    var center, mad := Median(samples), Mad(samples);
    if radius >= mad {
      CountMonotone(Near(center, mad), Near(center, radius), samples);
    } else {
      CountMonotone(Near(center, radius), Closer(center, mad), samples);
    }
  }

  // ---- ranges ----

  lemma OrderedEnds(samples: seq<int>)
    requires samples != []
    ensures forall x :: x in samples ==> Least(samples) <= x <= Most(samples)
  {
    AscendingIsTotal();
    var ordered := Sort(Ascending, samples);
    SortSorts(Ascending, samples);
    SameMembers(samples, ordered);
    forall x | x in samples ensures ordered[0] <= x <= ordered[|samples| - 1] {
      var k :| 0 <= k < |ordered| && ordered[k] == x;
      assert k == 0 || Ascending(ordered[0], ordered[k]);
      assert k == |ordered| - 1 || Ascending(ordered[k], ordered[|ordered| - 1]);
    }
  }

  lemma MadWitness(samples: seq<int>) returns (x: int)
    requires samples != []
    ensures x in samples && Mad(samples) == Distance(Median(samples))(x)
  {
    var ordered := Sort(Ascending, samples);
    var deviations := Map(Distance(Median(samples)), ordered);
    MedianSplits(deviations);
    var k :| 0 <= k < |deviations| && deviations[k] == Mad(samples);
    x := ordered[k];
    assert x in multiset(ordered);
  }

  lemma MadWithinRange(samples: seq<int>)
    requires samples != []
    ensures 0 <= Mad(samples) <= Most(samples) - Least(samples)
  {
    var x := MadWitness(samples);
    MedianSplits(samples);
    OrderedEnds(samples);
  }

  lemma RelativeMonotone(a: int, b: int, m: int)
    requires 0 <= a <= b && m > 0
    ensures 0 <= Relative(a, m) <= Relative(b, m)
  {
    QuotientAtMost(a * PPM, b * PPM, m);
  }

  lemma QuotientAtMost(a: int, b: int, m: int)
    requires 0 <= a <= b && m > 0
    ensures 0 <= a / m <= b / m
  {
    if a / m > b / m {
      Scales(m, b / m + 1, a / m);
      assert false;
    }
  }

  lemma Scales(m: int, x: int, y: int)
    requires m > 0 && x <= y
    ensures m * x <= m * y
  {
  }

  /** The relative deviation never exceeds the relative range. */
  lemma RelativeMadBelowRange(samples: seq<int>, bytesPerOperation: int)
    requires Measured(samples)
    ensures Median(samples) > 0
    ensures 0 <= Recompute(samples, bytesPerOperation).relativeMadPpm <= Recompute(samples, bytesPerOperation).relativeRangePpm
  {
    MedianPositive(samples);
    MadWithinRange(samples);
    RelativeMonotone(Mad(samples), Spread(samples), Median(samples));
  }

  // ---- units ----

  function Times(c: int): int -> int {
    x => c * x
  }

  lemma TimesOrder(c: int, x: int, y: int)
    requires c > 0
    ensures c * x <= c * y <==> x <= y
  {
    if x <= y { Scales(c, x, y); }
    if x > y { Scales(c, y + 1, x); }
  }

  lemma SortScales(c: int, s: seq<int>)
    requires c > 0
    ensures Sort(Ascending, Map(Times(c), s)) == Map(Times(c), Sort(Ascending, s))
  {
    AscendingIsTotal();
    var ordered := Sort(Ascending, s);
    SortSorts(Ascending, s);
    SortSorts(Ascending, Map(Times(c), s));
    MapIgnoresOrder(Times(c), ordered, s);
    forall i, j | 0 <= i < j < |s| ensures Ascending(Map(Times(c), ordered)[i], Map(Times(c), ordered)[j]) {
      TimesOrder(c, ordered[i], ordered[j]);
    }
    SortedUnique(Ascending, Sort(Ascending, Map(Times(c), s)), Map(Times(c), ordered));
  }

  lemma DistanceScales(c: int, center: int, x: int)
    requires c > 0
    ensures Distance(c * center)(c * x) == c * Distance(center)(x)
  {
    TimesOrder(c, center, x);
    TimesOrder(c, x, center);
  }

  lemma MadScales(c: int, samples: seq<int>)
    requires c > 0 && samples != []
    ensures Median(Map(Times(c), samples)) == c * Median(samples)
    ensures Mad(Map(Times(c), samples)) == c * Mad(samples)
  {
    var center, ordered := Median(samples), Sort(Ascending, samples);
    SortScales(c, samples);
    var deviations := Map(Distance(center), ordered);
    var scaled := Map(Distance(c * center), Map(Times(c), ordered));
    forall i | 0 <= i < |ordered| ensures scaled[i] == c * deviations[i] {
      DistanceScales(c, center, ordered[i]);
    }
    assert scaled == Map(Times(c), deviations);
    SortScales(c, deviations);
  }

  lemma QuotientScales(c: int, a: int, m: int)
    requires c > 0 && m > 0 && a >= 0
    ensures (c * a) / (c * m) == a / m
  {
    var q, r := a / m, a % m;
    assert a == m * q + r;
    assert c * a == (c * m) * q + c * r by { Regroup(c, m, q, r); }
    assert 0 <= c * r < c * m by { Scales(c, 0, r); Scales(c, r + 1, m); }
    QuotientUnique(c * a, c * m, q, c * r);
  }

  lemma Regroup(c: int, m: int, q: int, r: int)
    ensures c * (m * q + r) == (c * m) * q + c * r
  {
  }

  lemma QuotientUnique(a: int, m: int, q: int, r: int)
    requires m > 0 && a == m * q + r && 0 <= r < m
    ensures a / m == q
  {
    var p := a / m;
    assert a == m * p + a % m;
    if p < q {
      Scales(m, p + 1, q);
      assert false;
    }
    if p > q {
      Scales(m, q + 1, p);
      assert false;
    }
  }

  /** Measuring in a finer unit leaves both relative figures as they were. */
  lemma RelativeFiguresIgnoreUnit(c: int, samples: seq<int>, scaled: seq<int>, bytesPerOperation: int)
    requires c > 0 && Measured(samples) && scaled == Map(Times(c), samples)
    ensures Median(samples) > 0 && Median(scaled) > 0
    ensures Recompute(scaled, bytesPerOperation).relativeMadPpm == Recompute(samples, bytesPerOperation).relativeMadPpm
    ensures Recompute(scaled, bytesPerOperation).relativeRangePpm == Recompute(samples, bytesPerOperation).relativeRangePpm
  {
    MedianPositive(samples);
    RelativeMadScales(c, samples, scaled);
    RelativeRangeScales(c, samples, scaled);
  }

  lemma RelativeMadScales(c: int, samples: seq<int>, scaled: seq<int>)
    requires c > 0 && samples != [] && Median(samples) > 0 && scaled == Map(Times(c), samples)
    ensures Median(scaled) > 0 && Relative(Mad(scaled), Median(scaled)) == Relative(Mad(samples), Median(samples))
  {
    MadScales(c, samples);
    MadWithinRange(samples);
    FiguresScale(c, Median(samples), Median(scaled), Mad(samples), Mad(scaled));
  }

  lemma RelativeRangeScales(c: int, samples: seq<int>, scaled: seq<int>)
    requires c > 0 && samples != [] && Median(samples) > 0 && scaled == Map(Times(c), samples)
    ensures Median(scaled) > 0
    ensures Relative(Spread(scaled), Median(scaled)) == Relative(Spread(samples), Median(samples))
  {
    RangeScales(c, samples);
    MadWithinRange(samples);
    FiguresScale(c, Median(samples), Median(scaled), Spread(samples), Spread(scaled));
  }

  lemma FiguresScale(c: int, m: int, m': int, a: int, a': int)
    requires c > 0 && m > 0 && a >= 0 && m' == c * m && a' == c * a
    ensures m' > 0 && Relative(a', m') == Relative(a, m)
  {
    TimesPositive(c, m);
    RelativeScales(c, a, m);
  }

  lemma EndsScale(c: int, samples: seq<int>)
    requires c > 0 && samples != []
    ensures Median(Map(Times(c), samples)) == c * Median(samples)
    ensures Most(Map(Times(c), samples)) == c * Most(samples) && Least(Map(Times(c), samples)) == c * Least(samples)
  {
    SortScales(c, samples);
  }

  lemma RangeScales(c: int, samples: seq<int>)
    requires c > 0 && samples != []
    ensures Median(Map(Times(c), samples)) == c * Median(samples)
    ensures Spread(Map(Times(c), samples)) == c * Spread(samples)
  {
    EndsScale(c, samples);
    Distributes(c, Most(samples), Least(samples), Most(Map(Times(c), samples)), Least(Map(Times(c), samples)));
  }

  lemma Distributes(c: int, x: int, y: int, x': int, y': int)
    requires x' == c * x && y' == c * y
    ensures x' - y' == c * (x - y)
  {
  }

  lemma TimesPositive(c: int, x: int)
    requires c > 0 && x > 0
    ensures c * x > 0
  {
  }

  lemma RelativeScales(c: int, a: int, m: int)
    requires c > 0 && m > 0 && a >= 0 && c * m > 0
    ensures Relative(c * a, c * m) == Relative(a, m)
  {
    assert (c * a) * PPM == c * (a * PPM);
    QuotientScales(c, a * PPM, m);
  }

  // ---- robustness ----

  function Kept(s: seq<int>, t: seq<int>): (r: seq<int>)
    requires |s| == |t|
    ensures forall x :: x in r ==> x in s && x in t
    ensures |r| <= |s|
  {
    if s == [] then []
    else
      var rest := Kept(s[..|s| - 1], t[..|t| - 1]);
      if s[|s| - 1] == t[|t| - 1] then rest + [s[|s| - 1]] else rest
  }

  lemma {:induction false} KeptCounts(p: int -> bool, s: seq<int>, t: seq<int>)
    requires |s| == |t|
    ensures Count(p, Kept(s, t)) <= Count(p, t) <= Count(p, Kept(s, t)) + |t| - |Kept(s, t)|
  {
    if s != [] {
      var n := |s| - 1;
      KeptCounts(p, s[..n], t[..n]);
      assert t == t[..n] + [t[n]];
      CountConcat(p, t[..n], [t[n]]);
      CountConcat(p, Kept(s[..n], t[..n]), [s[n]]);
      assert Count(p, [t[n]]) == if p(t[n]) then 1 else 0;
    }
  }

  ghost predicate Bracketed(s: seq<int>, m: int) {
    exists low, high :: low in s && high in s && low <= m <= high
  }

  lemma Brackets(s: seq<int>, i: nat, j: nat, m: int)
    requires i < |s| && j < |s| && s[i] <= m <= s[j]
    ensures Bracketed(s, m)
  {
    var low, high := s[i], s[j];
    assert low in s && high in s;
  }

  /** Altering fewer than half of the samples leaves the median between two unaltered ones. */
  lemma MedianResists(s: seq<int>, t: seq<int>)
    requires s != [] && |s| == |t| && 2 * (|s| - |Kept(s, t)|) < |s|
    ensures Bracketed(Kept(s, t), Median(t))
  {
    var kept, m := Kept(s, t), Median(t);
    MedianSplits(t);
    KeptCounts(AtMost(m), s, t);
    var i := CountWitness(AtMost(m), kept);
    KeptCounts(Below(m), s, t);
    var j := NotAllWitness(Below(m), kept);
    Brackets(kept, i, j, m);
  }

  lemma {:induction false} NotAllWitness(p: int -> bool, s: seq<int>) returns (k: nat)
    requires Count(p, s) < |s|
    ensures k < |s| && !p(s[k])
  {
    if forall i :: 0 <= i < |s| ==> p(s[i]) {
      CountAll(p, s);
    }
    k :| k < |s| && !p(s[k]);
  }

  function Repeat(x: int, n: nat): (r: seq<int>)
    ensures |r| == n && forall i :: 0 <= i < n ==> r[i] == x
  {
    seq(n, i => x)
  }

  /** The bound is exact: with half of them altered, the median can go anywhere above. */
  lemma MedianGivesWayAtHalf(n: nat, altered: nat, value: int)
    requires 0 < altered <= n <= 2 * altered && value > 1
    ensures |Kept(Repeat(1, n), Repeat(1, n - altered) + Repeat(value, altered))| == n - altered
    ensures Median(Repeat(1, n - altered) + Repeat(value, altered)) == value
  {
    var t := Repeat(1, n - altered) + Repeat(value, altered);
    KeptPrefix(n, altered, value);
    MedianSplits(t);
    CountConcat(AtMost(1), Repeat(1, n - altered), Repeat(value, altered));
    CountNone(AtMost(1), Repeat(value, altered));
    assert Median(t) != 1;
  }

  lemma {:induction false} KeptPrefix(n: nat, altered: nat, value: int)
    requires altered <= n && value > 1
    ensures |Kept(Repeat(1, n), Repeat(1, n - altered) + Repeat(value, altered))| == n - altered
  {
    if n > 0 {
      var s, t := Repeat(1, n), Repeat(1, n - altered) + Repeat(value, altered);
      assert s[..n - 1] == Repeat(1, n - 1);
      if altered > 0 {
        KeptPrefix(n - 1, altered - 1, value);
        assert t[..n - 1] == Repeat(1, n - altered) + Repeat(value, altered - 1);
      } else {
        KeptPrefix(n - 1, 0, value);
        assert t[..n - 1] == Repeat(1, n - 1) + Repeat(value, 0);
      }
    }
  }

  // ---- the status of one point ----

  datatype Point = Point(
    bytesPerOperation: int, operations: int, operationCap: int, calibration: string, samples: seq<int>,
    statistics: Statistics, correctness: string, resultDigest: string, referenceDigest: string, status: string)

  const SAMPLES := 31
  const OPERATION_CAP := 1_048_576
  const TARGET_BATCH := 225 * 1_000_000_000

  predicate InWindow(median: int, operations: int) {
    && median * operations * PPM >= TARGET_BATCH * 800_000
    && median * operations * PPM <= TARGET_BATCH * 1_250_000
    && operations < OPERATION_CAP
  }

  predicate ValidatePoint(p: Point) {
    && p.bytesPerOperation >= 1 && p.operations >= 1 && p.operationCap == OPERATION_CAP && p.operations <= p.operationCap
    && (p.calibration == "converged" || p.calibration == "not-converged")
    && |p.samples| == SAMPLES && (forall i :: 0 <= i < |p.samples| ==> p.samples[i] >= 1)
    && Median(p.samples) != 0
    && p.statistics == Recompute(p.samples, p.bytesPerOperation)
    && p.correctness == "passed" && p.resultDigest == p.referenceDigest
    && (p.calibration == "converged" ==> InWindow(p.statistics.median, p.operations))
    && p.status == if p.calibration == "converged" && p.statistics.relativeMadPpm <= 40_000 then "stable" else "unstable"
  }

  /** A stable point: 16 or more of its 31 samples lie within 40,001 parts per million of the median,
      and its median batch lasted between 80 and 125 percent of the target. */
  lemma StablePoint(p: Point)
    requires ValidatePoint(p) && p.status == "stable"
    ensures Count(Near(Median(p.samples), Median(p.samples) * 40_001 / PPM), p.samples) >= 16
    ensures InWindow(Median(p.samples), p.operations) && p.resultDigest == p.referenceDigest
  {
    var m, mad := Median(p.samples), Mad(p.samples);
    MedianPositive(p.samples);
    MadWithinRange(p.samples);
    BelowThreshold(mad, m);
    MadIsLeastMajorityRadius(p.samples, m * 40_001 / PPM);
  }

  lemma BelowThreshold(mad: int, m: int)
    requires mad >= 0 && m > 0 && mad * PPM / m <= 40_000
    ensures mad <= m * 40_001 / PPM
  {
    var q := mad * PPM / m;
    assert mad * PPM == m * q + (mad * PPM) % m;
    Scales(m, q, 40_000);
    assert mad * PPM < m * 40_001;
  }

  lemma VerdictCarriesOver(p: Point, others: seq<int>)
    requires multiset(p.samples) == multiset(others) && ValidatePoint(p)
    ensures ValidatePoint(p.(samples := others))
  {
    assert Measured(p.samples);
    StatisticsIgnoreOrder(p.samples, others, p.bytesPerOperation);
    SameMembers(p.samples, others);
  }

  /** Reordering the chronological samples never changes the verdict. */
  lemma VerdictIgnoresOrder(p: Point, others: seq<int>)
    requires multiset(p.samples) == multiset(others)
    ensures ValidatePoint(p) <==> ValidatePoint(p.(samples := others))
  {
    if ValidatePoint(p) {
      VerdictCarriesOver(p, others);
    }
    if ValidatePoint(p.(samples := others)) {
      VerdictCarriesOver(p.(samples := others), p.samples);
      assert p.(samples := others).(samples := p.samples) == p;
    }
  }

  // ---- what an accepted point says ----

  ghost predicate IsFloor(q: int, part: int, whole: int) {
    q * whole <= part < (q + 1) * whole
  }

  ghost predicate Extremes(low: int, high: int, samples: seq<int>) {
    low in samples && high in samples && forall x :: x in samples ==> low <= x <= high
  }

  ghost predicate Middle(m: int, samples: seq<int>) {
    2 * Count(AtMost(m), samples) > |samples| >= 2 * Count(Below(m), samples)
  }

  ghost predicate MajorityRadius(radius: int, center: int, samples: seq<int>) {
    2 * Count(Near(center, radius), samples) > |samples| >= 2 * Count(Closer(center, radius), samples)
  }

  lemma FloorIff(q: int, part: int, whole: int)
    requires whole > 0
    ensures IsFloor(q, part, whole) <==> q == part / whole
  {
    var d := part / whole;
    assert part == d * whole + part % whole;
    assert (d + 1) * whole == d * whole + whole;
    if q < d {
      Scales(whole, q + 1, d);
    } else if q > d {
      Scales(whole, d + 1, q);
    }
  }

  lemma MiddleIff(m: int, samples: seq<int>)
    requires samples != []
    ensures Middle(m, samples) <==> m == Median(samples)
  {
    MedianSplits(samples);
    if m < Median(samples) {
      CountMonotone(AtMost(m), Below(Median(samples)), samples);
    } else if m > Median(samples) {
      CountMonotone(AtMost(Median(samples)), Below(m), samples);
    }
  }

  lemma MajorityRadiusIff(radius: int, samples: seq<int>)
    requires samples != []
    ensures MajorityRadius(radius, Median(samples), samples) <==> radius == Mad(samples)
  {
    DeviationSplits(samples);
    MadIsLeastMajorityRadius(samples, radius);
    var center, mad := Median(samples), Mad(samples);
    if radius > mad {
      CountMonotone(Near(center, mad), Closer(center, radius), samples);
    }
  }

  lemma ExtremesIff(low: int, high: int, samples: seq<int>)
    requires samples != []
    ensures Extremes(low, high, samples) <==> low == Least(samples) && high == Most(samples)
  {
    OrderedEnds(samples);
    SortSorts(Ascending, samples);
    SameMembers(samples, Sort(Ascending, samples));
    assert Least(samples) in samples && Most(samples) in samples;
  }

  lemma RateIff(rate: int, bytesPerOperation: int, median: int)
    requires bytesPerOperation >= 1 && median > 0
    ensures rate == Rate(bytesPerOperation, median) <==>
      && rate >= 1
      && (if bytesPerOperation * 1_000_000_000_000 < median then rate == 1
          else IsFloor(rate, bytesPerOperation * 1_000_000_000_000, median))
  {
    var part := bytesPerOperation * 1_000_000_000_000;
    FloorIff(part / median, part, median);
    FloorIff(rate, part, median);
    if part >= median {
      QuotientAtMost(median, part, median);
    }
  }

  ghost predicate Figures(s: Statistics, bytesPerOperation: int) {
    && IsFloor(s.relativeMadPpm, s.mad * 1_000_000, s.median)
    && IsFloor(s.relativeRangePpm, (s.maximum - s.minimum) * 1_000_000, s.median)
    && s.bytesPerSecond >= 1
    && (if bytesPerOperation * 1_000_000_000_000 < s.median then s.bytesPerSecond == 1
        else IsFloor(s.bytesPerSecond, bytesPerOperation * 1_000_000_000_000, s.median))
  }

  lemma FiguresIff(s: Statistics, bytesPerOperation: int)
    requires bytesPerOperation >= 1 && s.median > 0
    ensures Figures(s, bytesPerOperation) <==>
      && s.relativeMadPpm == Relative(s.mad, s.median)
      && s.relativeRangePpm == Relative(s.maximum - s.minimum, s.median)
      && s.bytesPerSecond == Rate(bytesPerOperation, s.median)
  {
    FloorIff(s.relativeMadPpm, s.mad * 1_000_000, s.median);
    FloorIff(s.relativeRangePpm, (s.maximum - s.minimum) * 1_000_000, s.median);
    RateIff(s.bytesPerSecond, bytesPerOperation, s.median);
  }

  ghost predicate Summarises(s: Statistics, samples: seq<int>, bytesPerOperation: int) {
    && Extremes(s.minimum, s.maximum, samples)
    && Middle(s.median, samples) && MajorityRadius(s.mad, s.median, samples)
    && Figures(s, bytesPerOperation)
  }

  lemma FiguresFollow(s: Statistics, samples: seq<int>, bytesPerOperation: int)
    requires Measured(samples) && bytesPerOperation >= 1 && Median(samples) > 0
    requires s.minimum == Least(samples) && s.maximum == Most(samples)
    requires s.median == Median(samples) && s.mad == Mad(samples)
    ensures s == Recompute(samples, bytesPerOperation) <==> Figures(s, bytesPerOperation)
  {
    FiguresIff(s, bytesPerOperation);
  }

  /** The recomputed statistics are the only ones with these extremes, this middle, this least majority
      radius, and these floors of them. */
  lemma StatisticsIff(s: Statistics, samples: seq<int>, bytesPerOperation: int)
    requires Measured(samples) && bytesPerOperation >= 1
    ensures Median(samples) > 0
    ensures s == Recompute(samples, bytesPerOperation) <==> Summarises(s, samples, bytesPerOperation)
  {
    MedianPositive(samples);
    ExtremesIff(s.minimum, s.maximum, samples);
    MiddleIff(s.median, samples);
    MajorityRadiusIff(s.mad, samples);
    if s.minimum == Least(samples) && s.maximum == Most(samples) && s.median == Median(samples) && s.mad == Mad(samples) {
      FiguresFollow(s, samples, bytesPerOperation);
    } else if s.median != Median(samples) {
      assert !Middle(s.median, samples);
    }
  }

  /** A converged point: below the cap, with a median batch of 180 to 281.25 milliseconds. */
  ghost predicate Converges(p: Point) {
    p.operations < 1_048_576 && 180_000_000_000 <= p.statistics.median * p.operations <= 281_250_000_000
  }

  ghost predicate Sound(p: Point) {
    && p.bytesPerOperation >= 1 && 1 <= p.operations <= 1_048_576 == p.operationCap
    && |p.samples| == 31 && Measured(p.samples)
    && Summarises(p.statistics, p.samples, p.bytesPerOperation)
    && p.correctness == "passed" && p.resultDigest == p.referenceDigest
  }

  lemma WindowIff(p: Point, batch: int)
    requires batch == p.statistics.median * p.operations
    ensures InWindow(p.statistics.median, p.operations) <==> Converges(p)
  {
    assert p.statistics.median * p.operations * PPM == batch * 1_000_000;
  }

  lemma FloorBelow(q: int, part: int, whole: int)
    requires whole > 0 && IsFloor(q, part, whole)
    ensures q <= 40_000 <==> part < 40_001 * whole
  {
    if q <= 40_000 {
      Scales(whole, q + 1, 40_001);
    } else {
      Scales(whole, 40_001, q);
    }
  }

  lemma FiguresDecide(s: Statistics, samples: seq<int>, bytesPerOperation: int)
    requires Measured(samples) && bytesPerOperation >= 1
    ensures Median(samples) > 0
    ensures s == Recompute(samples, bytesPerOperation) <==> Summarises(s, samples, bytesPerOperation)
    ensures Summarises(s, samples, bytesPerOperation) ==> (s.relativeMadPpm <= 40_000 <==> s.mad * 1_000_000 < 40_001 * s.median)
  {
    StatisticsIff(s, samples, bytesPerOperation);
    MiddleIff(s.median, samples);
    if Summarises(s, samples, bytesPerOperation) {
      FloorBelow(s.relativeMadPpm, s.mad * 1_000_000, s.median);
    }
  }

  ghost predicate Called(p: Point) {
    && ((p.calibration == "converged" && Converges(p)) || p.calibration == "not-converged")
    && (p.status == "stable" || p.status == "unstable")
    && (p.status == "stable" <==>
      p.calibration == "converged" && p.statistics.mad * 1_000_000 < 40_001 * p.statistics.median)
  }

  lemma ValidIsSound(p: Point)
    requires ValidatePoint(p)
    ensures Sound(p) && Called(p)
  {
    WindowIff(p, p.statistics.median * p.operations);
    FiguresDecide(p.statistics, p.samples, p.bytesPerOperation);
  }

  lemma SoundIsValid(p: Point)
    requires Sound(p) && Called(p)
    ensures ValidatePoint(p)
  {
    WindowIff(p, p.statistics.median * p.operations);
    FiguresDecide(p.statistics, p.samples, p.bytesPerOperation);
  }

  /** A point is accepted exactly when its figures describe its samples, its result matched, and it is
      converged inside the window and then stable below 40,001 parts per million, or else unstable. */
  lemma PointIff(p: Point)
    ensures ValidatePoint(p) <==> Sound(p) && Called(p)
  {
    if ValidatePoint(p) {
      ValidIsSound(p);
    } else if Sound(p) && Called(p) {
      SoundIsValid(p);
    }
  }
}
