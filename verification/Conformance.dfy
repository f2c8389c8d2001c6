/** Native conformance: the reviewed profile, one receipt per platform, and their aggregate. */
module Conformance {
  import opened Collections
  import opened Results
  import opened Sorting
  import opened Text

  datatype Surface = Surface(id: string, command: string, platforms: seq<string>)

  datatype Audit = Audit(surfaceCount: nat, platformCounts: map<string, nat>, surfaces: seq<Surface>)

  datatype Outcome = Outcome(id: string, command: string, status: string, exitCode: int)

  datatype Receipt = Receipt(schema: string, commit: string, platform: string, status: string, requiredCount: int, passedCount: int, results: seq<Outcome>)

  datatype Aggregate = Aggregate(status: string, commit: string, platformCount: nat, passedPlatforms: nat, passedSurfaces: int)

  datatype GateFailure = GateFailure

  const PLATFORMS: set<string> := {"linux", "macos", "windows"}
  const RECEIPT_SCHEMA := "hyphae-native-conformance-receipt-v1"

  // ---- the profile ----

  predicate StartsWith(s: string, prefix: string) { prefix <= s }

  predicate Contains(s: string, part: string) {
    exists i :: 0 <= i <= |s| && part <= s[i..]
  }

  ghost predicate Around(s: string, before: string, part: string, after: string) {
    s == before + part + after
  }

  lemma ContainsIff(s: string, part: string)
    ensures Contains(s, part) <==> exists before, after :: Around(s, before, part, after)
  {
    if i :| 0 <= i <= |s| && part <= s[i..] {
      assert Around(s, s[..i], part, s[i + |part|..]);
    }
    if before, after :| Around(s, before, part, after) {
      assert part <= s[|before|..];
    }
  }

  ghost predicate SurfaceFits(s: Surface) {
    && s.id != "" && "cargo test " <= s.command && (exists before, after :: Around(s.command, before, " --locked", after))
    && s.platforms != [] && Distinct(s.platforms) && Elements(s.platforms) <= {"linux", "macos", "windows"}
  }

  ghost predicate Reviewed(surfaces: seq<Surface>) {
    && surfaces != [] && (forall i :: 0 <= i < |surfaces| ==> SurfaceFits(surfaces[i]))
    && forall i, j :: 0 <= i < j < |surfaces| ==> surfaces[i].id != surfaces[j].id
  }

  function Requires(platform: string): Surface -> bool { (s: Surface) => platform in s.platforms }

  function CountOf(counts: map<string, nat>, p: string): nat {
    if p in counts then counts[p] else 0
  }

  method CountPlatforms(counts: map<string, nat>, platforms: seq<string>) returns (more: map<string, nat>)
    requires Distinct(platforms)
    ensures forall p :: CountOf(more, p) == CountOf(counts, p) + if p in platforms then 1 else 0
  {
    more := counts;
    for i := 0 to |platforms|
      invariant forall p :: CountOf(more, p) == CountOf(counts, p) + if p in platforms[..i] then 1 else 0
    {
      assert platforms[i] !in platforms[..i];
      more := more[platforms[i] := CountOf(more, platforms[i]) + 1];
      assert platforms[..i + 1] == platforms[..i] + [platforms[i]];
    }
    assert platforms[..|platforms|] == platforms;
  }

  lemma CountSnoc(p: string, surfaces: seq<Surface>, s: Surface)
    ensures Count(Requires(p), surfaces + [s]) == Count(Requires(p), surfaces) + if p in s.platforms then 1 else 0
  {
    CountConcat(Requires(p), surfaces, [s]);
  }

  method HasRepeat(platforms: seq<string>) returns (repeat: bool)
    ensures repeat <==> !Distinct(platforms)
  {
    if |platforms| == |Elements(platforms)| {
      DistinctIffCount(platforms);
      return false;
    }
    if Distinct(platforms) { DistinctCount(platforms); }
    repeat := true;
  }

  lemma {:induction false} DistinctIffCount(s: seq<string>)
    ensures |Elements(s)| <= |s|
    ensures |Elements(s)| == |s| ==> Distinct(s)
  {
    if s != [] {
      var init, last := s[..|s| - 1], s[|s| - 1];
      DistinctIffCount(init);
      assert Elements(s) == Elements(init) + {last};
      if last in init {
        assert Elements(s) == Elements(init);
      }
    }
  }

  /** A profile passes exactly when every surface is reviewed and none repeats; the audit keeps the
      surfaces as they are and counts, per platform, the surfaces that require it. */
  method ValidateProfile(schema: string, surfaces: seq<Surface>) returns (r: Result<Audit, GateFailure>)
    ensures r.Ok? <==> schema == "hyphae-native-conformance-profile-v1" && Reviewed(surfaces)
    ensures r.Ok? ==> r.value.surfaces == surfaces && r.value.surfaceCount == |surfaces|
    ensures r.Ok? ==> forall p :: CountOf(r.value.platformCounts, p) == Count(Requires(p), surfaces)
  {
    if schema != "hyphae-native-conformance-profile-v1" || surfaces == [] {
      return Err(GateFailure);
    }
    var seen: set<string>, counts: map<string, nat>, rows: seq<Surface> := {}, map[], [];
    for i := 0 to |surfaces|
      invariant rows == surfaces[..i]
      invariant seen == set k | 0 <= k < i :: surfaces[k].id
      invariant forall k :: 0 <= k < i ==> SurfaceFits(surfaces[k])
      invariant forall j, k :: 0 <= j < k < i ==> surfaces[j].id != surfaces[k].id
      invariant forall p :: CountOf(counts, p) == Count(Requires(p), rows)
    {
      var s := surfaces[i];
      if s.id == "" {
        assert !SurfaceFits(surfaces[i]);
        return Err(GateFailure);
      }
      if s.id in seen {
        return Err(GateFailure);
      }
      seen := seen + {s.id};
      var repeats := HasRepeat(s.platforms);
      ContainsIff(s.command, " --locked");
      if !StartsWith(s.command, "cargo test ") || !Contains(s.command, " --locked") || s.platforms == [] || repeats ||
         !(Elements(s.platforms) <= PLATFORMS) {
        assert !SurfaceFits(surfaces[i]);
        return Err(GateFailure);
      }
      counts := CountPlatforms(counts, s.platforms);
      forall p ensures CountOf(counts, p) == Count(Requires(p), rows + [s]) {
        CountSnoc(p, rows, s);
      }
      rows := rows + [s];
    }
    r := Ok(Audit(|rows|, counts, rows));
  }

  // ---- one receipt ----

  predicate Passed(o: Outcome) { o.status == "passed" }

  function Ids(results: seq<Outcome>): (r: seq<string>)
    ensures |r| == |results| && forall i :: 0 <= i < |r| ==> r[i] == results[i].id
  {
    seq(|results|, i requires 0 <= i < |results| => results[i].id)
  }

  function RequiredIds(surfaces: seq<Surface>, platform: string): set<string> {
    set i | 0 <= i < |surfaces| && platform in surfaces[i].platforms :: surfaces[i].id
  }

  predicate OutcomeFits(o: Outcome) {
    (o.status == "passed" || o.status == "failed") && (o.status == "passed" <==> o.exitCode == 0)
  }

  /** What a receipt must be: one outcome per required surface, each status agreeing with its exit
      code, and a summary that follows from them. */
  ghost predicate ReceiptFits(surfaces: seq<Surface>, r: Receipt) {
    && r.schema == RECEIPT_SCHEMA && LowerHex(r.commit, 40) && r.platform in PLATFORMS
    && (forall i :: 0 <= i < |r.results| ==> OutcomeFits(r.results[i]))
    && Distinct(Ids(r.results)) && Elements(Ids(r.results)) == RequiredIds(surfaces, r.platform)
    && r.requiredCount == |r.results| && r.passedCount == Count(Passed, r.results)
    && r.status == if ExitsZero(r.results) then "passed" else "failed"
  }

  lemma {:induction false} CountAllIff(results: seq<Outcome>)
    ensures Count(Passed, results) == |results| <==> forall i :: 0 <= i < |results| ==> Passed(results[i])
  {
    if results != [] {
      var rest := results[1..];
      CountAllIff(rest);
      assert forall i :: 0 <= i < |rest| ==> rest[i] == results[i + 1];
      assert Count(Passed, rest) <= |rest|;
      if forall i :: 0 <= i < |rest| ==> Passed(rest[i]) {
        assert forall i :: 1 <= i < |results| ==> results[i] == rest[i - 1];
      }
    }
  }

  method ScanResults(results: seq<Outcome>) returns (ok: bool, seen: set<string>, passed: nat)
    ensures ok <==> Distinct(Ids(results)) && forall i :: 0 <= i < |results| ==> OutcomeFits(results[i])
    ensures ok ==> seen == Elements(Ids(results)) && passed == Count(Passed, results)
  {
    seen, passed := {}, 0;
    for i := 0 to |results|
      invariant forall k :: 0 <= k < i ==> OutcomeFits(results[k])
      invariant seen == set k | 0 <= k < i :: results[k].id
      invariant forall j, k :: 0 <= j < k < i ==> results[j].id != results[k].id
      invariant passed == Count(Passed, results[..i])
    {
      if results[i].id in seen {
        var k :| 0 <= k < i && results[k].id == results[i].id;
        assert Ids(results)[k] == Ids(results)[i];
        return false, {}, 0;
      }
      seen := seen + {results[i].id};
      if (results[i].status != "passed" && results[i].status != "failed") ||
         (results[i].status == "passed") != (results[i].exitCode == 0) {
        return false, {}, 0;
      }
      CountConcat(Passed, results[..i], [results[i]]);
      assert results[..i + 1] == results[..i] + [results[i]];
      passed := passed + if results[i].status == "passed" then 1 else 0;
    }
    assert results[..|results|] == results;
    ok := true;
    forall x ensures x in seen <==> x in Ids(results) {
      if x in seen {
        var k :| 0 <= k < |results| && results[k].id == x;
        assert Ids(results)[k] == x;
      }
    }
  }

  method ValidateReceipt(surfaces: seq<Surface>, r: Receipt) returns (ok: bool)
    ensures ok <==> ReceiptFits(surfaces, r)
  {
    HexIff(r.commit);
    if r.schema != RECEIPT_SCHEMA || |r.commit| != 40 || !IsHex(r.commit) || r.platform !in PLATFORMS {
      return false;
    }
    var expected := RequiredIds(surfaces, r.platform);
    var fits, seen, passed := ScanResults(r.results);
    if !fits || seen != expected {
      return false;
    }
    DistinctCount(Ids(r.results));
    CountAllIff(r.results);
    ok := r.requiredCount == |expected| && r.passedCount == passed
      && r.status == if passed == |expected| then "passed" else "failed";
  }

  // ---- splitting a command ----

  /** Where the splitting of a command into words stands: outside of quotes, inside either kind, or
      right after a backslash. */
  datatype Lexer = Plain | Single | Double | EscapedPlain | EscapedDouble

  function Lex(state: Lexer, c: char): Lexer {
    match state
    case Plain => if c == '\\' then EscapedPlain else if c == '\'' then Single else if c == '"' then Double else Plain
    case Single => if c == '\'' then Plain else Single
    case Double => if c == '"' then Plain else if c == '\\' then EscapedDouble else Double
    case EscapedPlain => Plain
    case EscapedDouble => Double
  }

  function LexAll(state: Lexer, s: string): Lexer
    decreases |s|
  {
    if s == "" then state else LexAll(Lex(state, s[0]), s[1..])
  }

  /** The words of a command can be told apart: no quote is left open and nothing to escape is missing. */
  predicate Splits(command: string) { LexAll(Plain, command) == Plain }

  // Text outside of quotes: plain characters, escaped ones and closed quotes.
  ghost predicate Balanced(s: string)
    decreases |s|
  {
    || s == ""
    || (s[0] !in "\\'\"" && Balanced(s[1..]))
    || (s[0] == '\\' && |s| >= 2 && Balanced(s[2..]))
    || (s[0] == '\'' && SingleCloses(s[1..]))
    || (s[0] == '"' && DoubleCloses(s[1..]))
  }

  // The first single quote closes, and what follows is balanced.
  ghost predicate SingleCloses(s: string)
    decreases |s|
  {
    exists j :: 0 <= j < |s| && s[j] == '\'' && '\'' !in s[..j] && Balanced(s[j + 1..])
  }

  // The first double quote that is not escaped closes.
  ghost predicate DoubleCloses(s: string)
    decreases |s|
  {
    && s != ""
    && (s[0] == '"' ==> Balanced(s[1..]))
    && (s[0] == '\\' ==> |s| >= 2 && DoubleCloses(s[2..]))
    && (s[0] !in "\\\"" ==> DoubleCloses(s[1..]))
  }

  lemma {:induction false} LexConcat(state: Lexer, a: string, b: string)
    ensures LexAll(state, a + b) == LexAll(LexAll(state, a), b)
    decreases |a|
  {
    if a == "" {
      assert a + b == b;
    } else {
      LexConcat(Lex(state, a[0]), a[1..], b);
      assert (a + b)[1..] == a[1..] + b;
    }
  }

  lemma {:induction false} SingleLexes(s: string)
    ensures LexAll(Single, s) == Plain <==> SingleCloses(s)
    decreases |s|, 0
  {
    if '\'' in s {
      var j := FirstQuote(s);
      SingleStays(s[..j]);
      assert s == s[..j] + s[j..];
      LexConcat(Single, s[..j], s[j..]);
      assert s[j..][1..] == s[j + 1..];
      SplitsIff(s[j + 1..]);
      OnlyFirst(s, j);
    } else {
      SingleStays(s);
    }
  }

  lemma {:induction false} FirstQuote(s: string) returns (j: nat)
    requires '\'' in s
    ensures j < |s| && s[j] == '\'' && '\'' !in s[..j]
  {
    if s[0] == '\'' {
      j := 0;
    } else {
      assert '\'' in s[1..];
      j := FirstQuote(s[1..]);
      j := j + 1;
      assert s[..j] == [s[0]] + s[1..][..j - 1];
    }
  }

  // There is one first quote.
  lemma OnlyFirst(s: string, j: nat)
    requires j < |s| && s[j] == '\'' && '\'' !in s[..j]
    ensures SingleCloses(s) <==> Balanced(s[j + 1..])
  {
    forall a, b | 0 <= a < b <= |s| && s[a] == '\'' ensures '\'' in s[..b] {
      assert s[..b][a] == '\'';
    }
  }

  lemma {:induction false} DoubleLexes(s: string)
    ensures LexAll(Double, s) == Plain <==> DoubleCloses(s)
    decreases |s|, 0
  {
    if s != "" {
      if s[0] == '"' {
        SplitsIff(s[1..]);
      } else if s[0] == '\\' {
        if |s| >= 2 {
          assert s[1..][1..] == s[2..];
          DoubleLexes(s[2..]);
        } else {
          assert s[1..] == "";
        }
      } else {
        DoubleLexes(s[1..]);
      }
    }
  }

  /** A command splits exactly when every quote is closed and every backslash outside of single quotes
      has something to escape. */
  lemma {:induction false} SplitsIff(s: string)
    ensures Splits(s) <==> Balanced(s)
    decreases |s|, 1
  {
    if s != "" {
      if s[0] == '\\' {
        if |s| >= 2 {
          assert s[1..][1..] == s[2..] && LexAll(EscapedPlain, s[1..]) == LexAll(Plain, s[2..]);
          SplitsIff(s[2..]);
        } else {
          assert LexAll(EscapedPlain, s[1..]) == EscapedPlain;
        }
      } else if s[0] == '\'' {
        SingleLexes(s[1..]);
      } else if s[0] == '"' {
        DoubleLexes(s[1..]);
      } else {
        SplitsIff(s[1..]);
      }
    }
  }

  predicate Special(c: char) { c == '\\' || c == '\'' || c == '"' }

  /** A command without quotes and backslashes can always be split. */
  lemma {:induction false} PlainTextSplits(s: string)
    requires forall i :: 0 <= i < |s| ==> !Special(s[i])
    ensures Splits(s)
  {
    if s != "" {
      assert !Special(s[0]);
      PlainTextSplits(s[1..]);
    }
  }

  lemma {:induction false} SingleStays(s: string)
    requires '\'' !in s
    ensures LexAll(Single, s) == Single
  {
    if s != "" {
      assert s[0] in s && forall c :: c in s[1..] ==> c in s;
      SingleStays(s[1..]);
    }
  }

  /** A single quote that is opened and not closed never splits. */
  lemma OpenQuoteNeverSplits(before: string, after: string)
    requires (forall i :: 0 <= i < |before| ==> !Special(before[i])) && '\'' !in after
    ensures !Splits(before + "'" + after)
  {
    PlainTextSplits(before);
    LexConcat(Plain, before, "'");
    assert LexAll(Plain, "'") == LexAll(Single, "");
    LexConcat(Plain, before + "'", after);
    SingleStays(after);
  }

  /** Review does not look at quotes: every command of this form passes it and cannot be run. */
  lemma ReviewedYetUnsplit(before: string, after: string, surface: Surface)
    requires StartsWith(before, "cargo test ") && (forall i :: 0 <= i < |before| ==> !Special(before[i]))
    requires StartsWith(after, " --locked") && '\'' !in after
    requires surface == Surface("surface", before + "'" + after, ["linux"])
    ensures Reviewed([surface]) && !Splits(surface.command)
  {
    OpenQuoteNeverSplits(before, after);
    assert Around(surface.command, before + "'", " --locked", after[9..]);
    assert Elements(surface.platforms) == {"linux"};
    assert SurfaceFits(surface);
  }

  // ---- producing a receipt ----

  /** The exit code of each surface's command on one platform. */
  type Execution = Surface -> int

  function Run(s: Surface, execute: Execution): Outcome {
    Outcome(s.id, s.command, if execute(s) == 0 then "passed" else "failed", execute(s))
  }

  function Outcomes(surfaces: seq<Surface>, platform: string, execute: Execution): seq<Outcome> {
    if surfaces == [] then []
    else
      var rest, s := Outcomes(surfaces[..|surfaces| - 1], platform, execute), surfaces[|surfaces| - 1];
      if platform in s.platforms then rest + [Run(s, execute)] else rest
  }

  function Produced(surfaces: seq<Surface>, platform: string, execute: Execution, commit: string): Receipt {
    var results := Outcomes(surfaces, platform, execute);
    Receipt(RECEIPT_SCHEMA, commit, platform, if Count(Passed, results) == |results| then "passed" else "failed",
      |results|, Count(Passed, results), results)
  }

  // Either the gate refuses, or a command cannot be split and the error is not caught.
  datatype RunFailure = Refused | Unsplit

  ghost predicate Splittable(surfaces: seq<Surface>, platform: string) {
    forall i :: 0 <= i < |surfaces| && platform in surfaces[i].platforms ==> Splits(surfaces[i].command)
  }

  /** What running the profile on one platform gives. */
  ghost function RunOf(surfaces: seq<Surface>, platform: string, execute: Execution, commit: string): Result<Receipt, RunFailure> {
    if platform !in PLATFORMS then Err(Refused)
    else if !Splittable(surfaces, platform) then Err(Unsplit)
    else if RequiredIds(surfaces, platform) == {} then Err(Refused)
    else Ok(Produced(surfaces, platform, execute, commit))
  }

  method RunProfile(surfaces: seq<Surface>, platform: string, execute: Execution, commit: string) returns (r: Result<Receipt, RunFailure>)
    ensures r == RunOf(surfaces, platform, execute, commit)
  {
    if platform !in PLATFORMS {
      return Err(Refused);
    }
    var results: seq<Outcome>, passed := [], 0;
    for i := 0 to |surfaces|
      invariant results == Outcomes(surfaces[..i], platform, execute) && passed == Count(Passed, results)
      invariant results == [] <==> forall k :: 0 <= k < i ==> platform !in surfaces[k].platforms
      invariant forall k :: 0 <= k < i && platform in surfaces[k].platforms ==> Splits(surfaces[k].command)
    {
      assert surfaces[..i + 1][..i] == surfaces[..i];
      if platform !in surfaces[i].platforms {
        continue;
      }
      if !Splits(surfaces[i].command) {
        return Err(Unsplit);
      }
      var row := Run(surfaces[i], execute);
      CountConcat(Passed, results, [row]);
      results, passed := results + [row], passed + if Passed(row) then 1 else 0;
    }
    assert surfaces[..|surfaces|] == surfaces;
    if results == [] {
      return Err(Refused);
    }
    var k :| 0 <= k < |surfaces| && platform in surfaces[k].platforms;
    assert surfaces[k].id in RequiredIds(surfaces, platform);
    r := Ok(Receipt(RECEIPT_SCHEMA, commit, platform, if passed == |results| then "passed" else "failed", |results|, passed, results));
  }

  // The surface whose run produced a result.
  ghost predicate From(surfaces: seq<Surface>, platform: string, execute: Execution, o: Outcome) {
    exists i :: 0 <= i < |surfaces| && platform in surfaces[i].platforms && o == Run(surfaces[i], execute)
  }

  lemma {:induction false} ResultsAre(surfaces: seq<Surface>, platform: string, execute: Execution)
    requires forall i, j :: 0 <= i < j < |surfaces| ==> surfaces[i].id != surfaces[j].id
    ensures forall o :: o in Outcomes(surfaces, platform, execute) <==> From(surfaces, platform, execute, o)
    ensures Distinct(Ids(Outcomes(surfaces, platform, execute)))
  {
    if surfaces != [] {
      var init, s, n := surfaces[..|surfaces| - 1], surfaces[|surfaces| - 1], |surfaces| - 1;
      var before := Outcomes(init, platform, execute);
      ResultsAre(init, platform, execute);
      forall o ensures From(surfaces, platform, execute, o) <==>
        From(init, platform, execute, o) || (platform in s.platforms && o == Run(s, execute))
      {
        FromSnoc(surfaces, platform, execute, o);
      }
      forall i | 0 <= i < |before| ensures before[i].id != s.id {
        assert From(init, platform, execute, before[i]);
      }
    }
  }

  lemma FromSnoc(surfaces: seq<Surface>, platform: string, execute: Execution, o: Outcome)
    requires surfaces != []
    ensures From(surfaces, platform, execute, o) <==>
      || From(surfaces[..|surfaces| - 1], platform, execute, o)
      || (platform in surfaces[|surfaces| - 1].platforms && o == Run(surfaces[|surfaces| - 1], execute))
  {
    var init := surfaces[..|surfaces| - 1];
    assert forall i :: 0 <= i < |init| ==> init[i] == surfaces[i];
  }

  lemma ResultIds(surfaces: seq<Surface>, platform: string, execute: Execution)
    requires forall i, j :: 0 <= i < j < |surfaces| ==> surfaces[i].id != surfaces[j].id
    ensures Elements(Ids(Outcomes(surfaces, platform, execute))) == RequiredIds(surfaces, platform)
  {
    ResultsAre(surfaces, platform, execute);
    var results := Outcomes(surfaces, platform, execute);
    forall x ensures x in Ids(results) <==> x in RequiredIds(surfaces, platform) {
      if x in Ids(results) {
        var k :| 0 <= k < |results| && results[k].id == x;
        assert From(surfaces, platform, execute, results[k]);
      }
      if x in RequiredIds(surfaces, platform) {
        var i :| 0 <= i < |surfaces| && platform in surfaces[i].platforms && surfaces[i].id == x;
        var o := Run(surfaces[i], execute);
        assert From(surfaces, platform, execute, o);
        var k :| 0 <= k < |results| && results[k] == o;
        assert Ids(results)[k] == x;
      }
    }
  }

  /** The runner's receipt passes the independent validator, whatever the commands returned, and
      says "passed" exactly when every required command returned zero. */
  lemma ProducedFits(surfaces: seq<Surface>, platform: string, execute: Execution, commit: string)
    requires Reviewed(surfaces) && platform in PLATFORMS && LowerHex(commit, 40)
    ensures ReceiptFits(surfaces, Produced(surfaces, platform, execute, commit))
    ensures Produced(surfaces, platform, execute, commit).status == "passed" <==> AllRunZero(surfaces, platform, execute)
  {
    var results := Outcomes(surfaces, platform, execute);
    ResultsAre(surfaces, platform, execute);
    ResultIds(surfaces, platform, execute);
    CountAllIff(results);
    forall i | 0 <= i < |results| ensures OutcomeFits(results[i]) && (Passed(results[i]) <==> results[i].exitCode == 0) {
      assert From(surfaces, platform, execute, results[i]);
    }
    AllZero(surfaces, platform, execute);
  }

  ghost predicate ExitsZero(results: seq<Outcome>) {
    forall i :: 0 <= i < |results| ==> results[i].exitCode == 0
  }

  ghost predicate AllRunZero(surfaces: seq<Surface>, platform: string, execute: Execution) {
    forall i :: 0 <= i < |surfaces| && platform in surfaces[i].platforms ==> execute(surfaces[i]) == 0
  }

  lemma AllZero(surfaces: seq<Surface>, platform: string, execute: Execution)
    requires Reviewed(surfaces)
    ensures ExitsZero(Outcomes(surfaces, platform, execute)) <==> AllRunZero(surfaces, platform, execute)
  {
    var results := Outcomes(surfaces, platform, execute);
    ResultsAre(surfaces, platform, execute);
    if ExitsZero(results) {
      forall i | 0 <= i < |surfaces| && platform in surfaces[i].platforms ensures execute(surfaces[i]) == 0 {
        var o := Run(surfaces[i], execute);
        assert From(surfaces, platform, execute, o);
        var k :| 0 <= k < |results| && results[k] == o;
      }
    }
    if AllRunZero(surfaces, platform, execute) {
      forall i | 0 <= i < |results| ensures results[i].exitCode == 0 {
        assert From(surfaces, platform, execute, results[i]);
      }
    }
  }

  function WithCommands(results: seq<Outcome>, commands: seq<string>): (r: seq<Outcome>)
    requires |results| == |commands|
    ensures |r| == |results| && forall i :: 0 <= i < |r| ==> r[i] == results[i].(command := commands[i])
  {
    seq(|results|, i requires 0 <= i < |results| => results[i].(command := commands[i]))
  }

  /** The validator never looks at the commands a receipt says were run. */
  lemma CommandsAreNotCompared(surfaces: seq<Surface>, r: Receipt, commands: seq<string>)
    requires |commands| == |r.results|
    ensures ReceiptFits(surfaces, r) <==> ReceiptFits(surfaces, r.(results := WithCommands(r.results, commands)))
  {
    var other := WithCommands(r.results, commands);
    assert Ids(other) == Ids(r.results);
    CountSame(r.results, other);
  }

  lemma {:induction false} CountSame(a: seq<Outcome>, b: seq<Outcome>)
    requires |a| == |b| && forall i :: 0 <= i < |a| ==> a[i].status == b[i].status
    ensures Count(Passed, a) == Count(Passed, b)
  {
    if a != [] {
      CountSame(a[1..], b[1..]);
    }
  }

  // ---- the receipt set ----

  function RequiredPlatforms(surfaces: seq<Surface>): set<string> {
    set i, k | 0 <= i < |surfaces| && 0 <= k < |surfaces[i].platforms| :: surfaces[i].platforms[k]
  }

  function Platforms(receipts: seq<Receipt>): (r: seq<string>)
    ensures |r| == |receipts| && forall i :: 0 <= i < |r| ==> r[i] == receipts[i].platform
  {
    seq(|receipts|, i requires 0 <= i < |receipts| => receipts[i].platform)
  }

  ghost predicate SetFits(surfaces: seq<Surface>, receipts: seq<Receipt>) {
    && receipts != [] && (forall i :: 0 <= i < |receipts| ==> ReceiptFits(surfaces, receipts[i]))
    && Distinct(Platforms(receipts)) && Elements(Platforms(receipts)) == RequiredPlatforms(surfaces)
    && forall i :: 0 <= i < |receipts| ==> receipts[i].commit == receipts[0].commit
  }

  predicate ReceiptPassed(r: Receipt) { r.status == "passed" }

  function PassedTotal(receipts: seq<Receipt>): int {
    if receipts == [] then 0 else PassedTotal(receipts[..|receipts| - 1]) + receipts[|receipts| - 1].passedCount
  }

  /** The aggregate of a receipt set: refused unless there is exactly one fitting receipt for each
      required platform, all for one commit. */
  method ValidateReceiptSet(surfaces: seq<Surface>, receipts: seq<Receipt>) returns (r: Result<Aggregate, GateFailure>)
    ensures r.Ok? <==> SetFits(surfaces, receipts)
    ensures r.Ok? ==> r.value.commit == receipts[0].commit && r.value.platformCount == |receipts|
    ensures r.Ok? ==> r.value.passedPlatforms == Count(ReceiptPassed, receipts) && r.value.passedSurfaces == PassedTotal(receipts)
    ensures r.Ok? ==> r.value.status == if forall i :: 0 <= i < |receipts| ==> ReceiptPassed(receipts[i]) then "passed" else "failed"
  {
    var apart, seen, commits, passedPlatforms, passedSurfaces := ScanReceipts(receipts);
    var fits := ValidateEach(surfaces, receipts);
    if !apart || !fits {
      return Err(GateFailure);
    }
    var required := RequiredPlatforms(surfaces);
    OneCommit(receipts, commits);
    if seen != required || |commits| != 1 {
      return Err(GateFailure);
    }
    DistinctCount(Platforms(receipts));
    CountReceipts(receipts);
    var commit :| commit in commits;
    r := Ok(Aggregate(if passedPlatforms == |required| then "passed" else "failed", commit, |required|, passedPlatforms, passedSurfaces));
  }

  method ValidateEach(surfaces: seq<Surface>, receipts: seq<Receipt>) returns (ok: bool)
    ensures ok <==> forall i :: 0 <= i < |receipts| ==> ReceiptFits(surfaces, receipts[i])
  {
    for i := 0 to |receipts|
      invariant forall k :: 0 <= k < i ==> ReceiptFits(surfaces, receipts[k])
    {
      ok := ValidateReceipt(surfaces, receipts[i]);
      if !ok {
        return;
      }
    }
    ok := true;
  }

  // The running sets and totals.
  method ScanReceipts(receipts: seq<Receipt>)
    returns (ok: bool, seen: set<string>, commits: set<string>, passedPlatforms: nat, passedSurfaces: int)
    ensures ok <==> Distinct(Platforms(receipts))
    ensures ok ==> seen == Elements(Platforms(receipts)) && commits == set k | 0 <= k < |receipts| :: receipts[k].commit
    ensures ok ==> passedPlatforms == Count(ReceiptPassed, receipts) && passedSurfaces == PassedTotal(receipts)
  {
    seen, commits, passedPlatforms, passedSurfaces := {}, {}, 0, 0;
    ghost var names := Platforms(receipts);
    for i := 0 to |receipts|
      invariant seen == Elements(names[..i]) && Distinct(names[..i])
      invariant commits == set k | 0 <= k < i :: receipts[k].commit
      invariant passedPlatforms == Count(ReceiptPassed, receipts[..i])
      invariant passedSurfaces == PassedTotal(receipts[..i])
    {
      DistinctSnoc(names, i);
      if receipts[i].platform in seen {
        return false, {}, {}, 0, 0;
      }
      seen := seen + {receipts[i].platform};
      commits := commits + {receipts[i].commit};
      TotalsGrow(receipts, i);
      passedPlatforms := passedPlatforms + if receipts[i].status == "passed" then 1 else 0;
      passedSurfaces := passedSurfaces + receipts[i].passedCount;
    }
    assert receipts[..|receipts|] == receipts && names[..|names|] == names;
    ok := true;
  }

  lemma TotalsGrow(receipts: seq<Receipt>, i: nat)
    requires i < |receipts|
    ensures Count(ReceiptPassed, receipts[..i + 1]) == Count(ReceiptPassed, receipts[..i]) + if receipts[i].status == "passed" then 1 else 0
    ensures PassedTotal(receipts[..i + 1]) == PassedTotal(receipts[..i]) + receipts[i].passedCount
  {
    assert receipts[..i + 1] == receipts[..i] + [receipts[i]];
    assert receipts[..i + 1][..i] == receipts[..i];
    CountConcat(ReceiptPassed, receipts[..i], [receipts[i]]);
  }

  lemma OneCommit(receipts: seq<Receipt>, commits: set<string>)
    requires commits == set k | 0 <= k < |receipts| :: receipts[k].commit
    ensures |commits| == 1 <==> receipts != [] && forall i :: 0 <= i < |receipts| ==> receipts[i].commit == receipts[0].commit
  {
    if receipts != [] {
      var c := receipts[0].commit;
      assert c in commits;
      if |commits| == 1 {
        assert |commits - {c}| == 0;
        forall i | 0 <= i < |receipts| ensures receipts[i].commit == c {
          assert receipts[i].commit in commits;
          assert receipts[i].commit !in commits - {c};
        }
      }
      if forall i :: 0 <= i < |receipts| ==> receipts[i].commit == c {
        assert commits == {c};
      }
    }
  }

  lemma {:induction false} CountReceipts(receipts: seq<Receipt>)
    ensures Count(ReceiptPassed, receipts) == |receipts| <==> forall i :: 0 <= i < |receipts| ==> ReceiptPassed(receipts[i])
  {
    if receipts != [] {
      var rest := receipts[1..];
      CountReceipts(rest);
      assert forall i :: 0 <= i < |rest| ==> rest[i] == receipts[i + 1];
      if forall i :: 0 <= i < |rest| ==> ReceiptPassed(rest[i]) {
        assert forall i :: 1 <= i < |receipts| ==> receipts[i] == rest[i - 1];
      }
    }
  }

  // Surface s reported exit code zero on platform p.
  ghost predicate ReportedZero(receipts: seq<Receipt>, p: string, id: string) {
    exists i, k :: 0 <= i < |receipts| && 0 <= k < |receipts[i].results| &&
      receipts[i].platform == p && receipts[i].results[k].id == id && receipts[i].results[k].exitCode == 0
  }

  /** Whoever wrote the receipts: an accepted set passes exactly when every surface reported exit
      code zero on every platform that requires it. */
  lemma AggregateMeaning(surfaces: seq<Surface>, receipts: seq<Receipt>)
    requires SetFits(surfaces, receipts)
    ensures (forall i :: 0 <= i < |receipts| ==> ReceiptPassed(receipts[i])) <==>
      forall s, p :: s in surfaces && p in s.platforms ==> ReportedZero(receipts, p, s.id)
  {
    if forall i :: 0 <= i < |receipts| ==> ReceiptPassed(receipts[i]) {
      forall s, p | s in surfaces && p in s.platforms ensures ReportedZero(receipts, p, s.id) {
        var i, k := FindResult(surfaces, receipts, s, p);
        assert ReceiptPassed(receipts[i]);
      }
    }
    if forall s, p :: s in surfaces && p in s.platforms ==> ReportedZero(receipts, p, s.id) {
      forall i | 0 <= i < |receipts| ensures ReceiptPassed(receipts[i]) {
        forall k | 0 <= k < |receipts[i].results| ensures receipts[i].results[k].exitCode == 0 {
          var s := SurfaceOf(surfaces, receipts, i, k);
          var j, l :| 0 <= j < |receipts| && 0 <= l < |receipts[j].results| && receipts[j].platform == receipts[i].platform
            && receipts[j].results[l].id == s.id && receipts[j].results[l].exitCode == 0;
          SameResult(surfaces, receipts, i, k, j, l);
        }
      }
    }
  }

  lemma FindResult(surfaces: seq<Surface>, receipts: seq<Receipt>, s: Surface, p: string) returns (i: nat, k: nat)
    requires SetFits(surfaces, receipts) && s in surfaces && p in s.platforms
    ensures i < |receipts| && k < |receipts[i].results| && receipts[i].platform == p && receipts[i].results[k].id == s.id
  {
    var a :| 0 <= a < |surfaces| && surfaces[a] == s;
    var b :| 0 <= b < |s.platforms| && s.platforms[b] == p;
    assert p in RequiredPlatforms(surfaces);
    i :| i < |receipts| && Platforms(receipts)[i] == p;
    assert ReceiptFits(surfaces, receipts[i]);
    assert s.id in RequiredIds(surfaces, p);
    k :| k < |receipts[i].results| && Ids(receipts[i].results)[k] == s.id;
  }

  lemma SurfaceOf(surfaces: seq<Surface>, receipts: seq<Receipt>, i: nat, k: nat) returns (s: Surface)
    requires SetFits(surfaces, receipts) && i < |receipts| && k < |receipts[i].results|
    ensures s in surfaces && receipts[i].platform in s.platforms && s.id == receipts[i].results[k].id
  {
    assert ReceiptFits(surfaces, receipts[i]);
    assert Ids(receipts[i].results)[k] in RequiredIds(surfaces, receipts[i].platform);
    var a :| 0 <= a < |surfaces| && receipts[i].platform in surfaces[a].platforms && surfaces[a].id == Ids(receipts[i].results)[k];
    s := surfaces[a];
  }

  // One receipt per platform and one result per id: a required pair is reported once.
  lemma SameResult(surfaces: seq<Surface>, receipts: seq<Receipt>, i: nat, k: nat, j: nat, l: nat)
    requires SetFits(surfaces, receipts) && i < |receipts| && j < |receipts|
    requires k < |receipts[i].results| && l < |receipts[j].results|
    requires receipts[i].platform == receipts[j].platform && receipts[i].results[k].id == receipts[j].results[l].id
    ensures i == j && k == l
  {
    assert Platforms(receipts)[i] == Platforms(receipts)[j];
    assert ReceiptFits(surfaces, receipts[i]);
    assert i == j;
    assert Ids(receipts[i].results)[k] == Ids(receipts[i].results)[l];
  }

  // One receipt from each platform.
  ghost predicate Collected(surfaces: seq<Surface>, platforms: seq<string>, execute: string -> Execution, commit: string, receipts: seq<Receipt>) {
    && |receipts| == |platforms|
    && forall i :: 0 <= i < |platforms| ==> RunOf(surfaces, platforms[i], execute(platforms[i]), commit) == Ok(receipts[i])
  }

  lemma CollectedFits(surfaces: seq<Surface>, platform: string, execute: Execution, commit: string, receipt: Receipt)
    requires Reviewed(surfaces) && LowerHex(commit, 40) && platform in RequiredPlatforms(surfaces)
    requires RunOf(surfaces, platform, execute, commit) == Ok(receipt)
    ensures ReceiptFits(surfaces, receipt) && receipt.platform == platform && receipt.commit == commit
    ensures ReceiptPassed(receipt) <==> AllRunZero(surfaces, platform, execute)
  {
    ProducedFits(surfaces, platform, execute, commit);
  }

  lemma CollectedAll(surfaces: seq<Surface>, platforms: seq<string>, execute: string -> Execution, commit: string, receipts: seq<Receipt>)
    requires Reviewed(surfaces) && LowerHex(commit, 40) && Elements(platforms) == RequiredPlatforms(surfaces)
    requires Collected(surfaces, platforms, execute, commit, receipts)
    ensures forall i :: 0 <= i < |receipts| ==> ReceiptFits(surfaces, receipts[i]) && receipts[i].commit == commit
    ensures forall i :: 0 <= i < |receipts| ==> (ReceiptPassed(receipts[i]) <==> AllRunZero(surfaces, platforms[i], execute(platforms[i])))
    ensures Platforms(receipts) == platforms
  {
    forall i | 0 <= i < |platforms|
      ensures ReceiptFits(surfaces, receipts[i]) && receipts[i].platform == platforms[i] && receipts[i].commit == commit
      ensures ReceiptPassed(receipts[i]) <==> AllRunZero(surfaces, platforms[i], execute(platforms[i]))
    {
      CollectedFits(surfaces, platforms[i], execute(platforms[i]), commit, receipts[i]);
    }
  }

  lemma AllZeroEverywhere(surfaces: seq<Surface>, platforms: seq<string>, execute: string -> Execution)
    requires Elements(platforms) == RequiredPlatforms(surfaces)
    ensures (forall i :: 0 <= i < |platforms| ==> AllRunZero(surfaces, platforms[i], execute(platforms[i]))) <==>
      forall s, p :: s in surfaces && p in s.platforms ==> execute(p)(s) == 0
  {
    if forall i :: 0 <= i < |platforms| ==> AllRunZero(surfaces, platforms[i], execute(platforms[i])) {
      forall s, p | s in surfaces && p in s.platforms ensures execute(p)(s) == 0 {
        PlatformListed(surfaces, platforms, s, p);
      }
    }
  }

  /** Running a reviewed profile on every required platform at one commit gives a set the aggregate
      accepts, in any order of the receipts; it passes exactly when every required surface exited
      zero on every platform that requires it. */
  lemma CompleteRunAggregates(surfaces: seq<Surface>, platforms: seq<string>, execute: string -> Execution, commit: string, receipts: seq<Receipt>)
    requires Reviewed(surfaces) && LowerHex(commit, 40)
    requires Distinct(platforms) && Elements(platforms) == RequiredPlatforms(surfaces)
    requires Collected(surfaces, platforms, execute, commit, receipts)
    ensures SetFits(surfaces, receipts)
    ensures (forall i :: 0 <= i < |receipts| ==> ReceiptPassed(receipts[i])) <==>
      forall s, p :: s in surfaces && p in s.platforms ==> execute(p)(s) == 0
  {
    CollectedAll(surfaces, platforms, execute, commit, receipts);
    assert SurfaceFits(surfaces[0]);
    assert surfaces[0].platforms[0] in RequiredPlatforms(surfaces);
    AllZeroEverywhere(surfaces, platforms, execute);
  }

  /** Such a set can be collected exactly when every command of the profile splits. */
  lemma CompleteRunIff(surfaces: seq<Surface>, platforms: seq<string>, execute: string -> Execution, commit: string)
    requires Reviewed(surfaces) && Distinct(platforms) && Elements(platforms) == RequiredPlatforms(surfaces)
    ensures (forall i :: 0 <= i < |platforms| ==> RunOf(surfaces, platforms[i], execute(platforms[i]), commit).Ok?) <==>
      forall i :: 0 <= i < |surfaces| ==> Splits(surfaces[i].command)
  {
    if forall i :: 0 <= i < |platforms| ==> RunOf(surfaces, platforms[i], execute(platforms[i]), commit).Ok? {
      forall i | 0 <= i < |surfaces| ensures Splits(surfaces[i].command) {
        assert SurfaceFits(surfaces[i]);
        var p := surfaces[i].platforms[0];
        PlatformListed(surfaces, platforms, surfaces[i], p);
      }
    }
    if forall i :: 0 <= i < |surfaces| ==> Splits(surfaces[i].command) {
      forall i | 0 <= i < |platforms| ensures RunOf(surfaces, platforms[i], execute(platforms[i]), commit).Ok? {
        RequiredIsKnown(surfaces, platforms[i]);
        var a, b :| 0 <= a < |surfaces| && 0 <= b < |surfaces[a].platforms| && surfaces[a].platforms[b] == platforms[i];
        assert surfaces[a].id in RequiredIds(surfaces, platforms[i]);
      }
    }
  }

  lemma RequiredIsKnown(surfaces: seq<Surface>, p: string)
    requires Reviewed(surfaces) && p in RequiredPlatforms(surfaces)
    ensures p in PLATFORMS
  {
    var i, k :| 0 <= i < |surfaces| && 0 <= k < |surfaces[i].platforms| && surfaces[i].platforms[k] == p;
    assert SurfaceFits(surfaces[i]);
    assert p in Elements(surfaces[i].platforms);
  }

  lemma PlatformListed(surfaces: seq<Surface>, platforms: seq<string>, s: Surface, p: string)
    requires Elements(platforms) == RequiredPlatforms(surfaces) && s in surfaces && p in s.platforms
    ensures p in platforms
  {
    var a :| 0 <= a < |surfaces| && surfaces[a] == s;
    var b :| 0 <= b < |s.platforms| && s.platforms[b] == p;
    assert p in RequiredPlatforms(surfaces);
  }
}
