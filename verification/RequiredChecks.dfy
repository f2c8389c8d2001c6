/**
  Selection of the hosted checks bound to a release commit, the report built from them, and the
  validator that reads a report back.  A GitHub answer is modelled field by field; a JSON value
  of an unexpected type is an explicit constructor, and a raised error is a failed result.
  Timestamps in the canonical UTC format are the instants they denote.
*/
module RequiredChecks {
  import opened Results
  import opened Sorting

  type Checked<+T> = Result<T, Error>

  datatype Error =
    | InvalidInput
    | UntimedRun(name: CheckName)
    | NoPriorRun(name: CheckName)
    | AmbiguousLatest(name: CheckName)
    | InvalidPullRequest
    | UnfitCheck(name: CheckName)
    | RejectedReport

  // ---- the canonical tables ----

  datatype CheckName =
    | AssembleCandidate | ParserFuzzing | DependencyPolicy | KillRestartSoak | FrameworkIntegrations
    | PackageMacArm | PackageMacIntel | PackageWindows | PackageLinux | ClientConformance
    | Quality | ReleaseReadiness | HardKillAggregate | McpRealHosts | ReviewDependencies
    | TestLinuxMsrv | TestLinuxStable | TestWindows | TestMac | G8Receipts
    | OtherName(text: string)

  datatype Path =
    | ReleaseYml | FuzzYml | SecurityYml | StressYml | CiYml | DependencyReviewYml | G8ClosureYml
    | OtherPath(text: string)

  datatype Event = PullRequest | WorkflowDispatch | OtherEvent(text: string)

  const NAMES := [
    AssembleCandidate, ParserFuzzing, DependencyPolicy, KillRestartSoak, FrameworkIntegrations,
    PackageMacArm, PackageMacIntel, PackageWindows, PackageLinux, ClientConformance,
    Quality, ReleaseReadiness, HardKillAggregate, McpRealHosts, ReviewDependencies,
    TestLinuxMsrv, TestLinuxStable, TestWindows, TestMac, G8Receipts]

  function WorkflowOf(name: CheckName): Path {
    match name
    case AssembleCandidate | PackageMacArm | PackageMacIntel | PackageWindows | PackageLinux => ReleaseYml
    case ParserFuzzing => FuzzYml
    case DependencyPolicy => SecurityYml
    case KillRestartSoak => StressYml
    case ReviewDependencies => DependencyReviewYml
    case G8Receipts => G8ClosureYml
    case OtherName(text) => OtherPath(text)
    case _ => CiYml
  }

  function EventOf(name: CheckName): Event {
    if name == G8Receipts then WorkflowDispatch else PullRequest
  }

  predicate Guarded(name: CheckName) {
    name in {AssembleCandidate, ParserFuzzing, DependencyPolicy, KillRestartSoak, Quality, ReviewDependencies}
  }

  // Where a canonical name stands in the table.
  function Position(name: CheckName): nat {
    match name
    case AssembleCandidate => 0
    case ParserFuzzing => 1
    case DependencyPolicy => 2
    case KillRestartSoak => 3
    case FrameworkIntegrations => 4
    case PackageMacArm => 5
    case PackageMacIntel => 6
    case PackageWindows => 7
    case PackageLinux => 8
    case ClientConformance => 9
    case Quality => 10
    case ReleaseReadiness => 11
    case HardKillAggregate => 12
    case McpRealHosts => 13
    case ReviewDependencies => 14
    case TestLinuxMsrv => 15
    case TestLinuxStable => 16
    case TestWindows => 17
    case TestMac => 18
    case G8Receipts => 19
    case OtherName(_) => 20
  }

  lemma TablePositions()
    ensures |NAMES| == 20
    ensures forall i :: 0 <= i < |NAMES| ==> Position(NAMES[i]) == i
    ensures forall i, j :: 0 <= i < j < |NAMES| ==> NAMES[i] != NAMES[j]
  {
    forall i | 0 <= i < |NAMES| ensures Position(NAMES[i]) == i {}
  }

  // ---- JSON shapes ----

  // An integer field: JSON booleans and other values are not integers.
  datatype Id = IntId(n: int) | OtherId

  // A URL field; `rendering` is what str() makes of a value that is not a string.
  datatype Url = Text(text: string) | NotText(rendering: string)

  datatype Stamp = Instant(seconds: int) | NotCanonical

  datatype App = App(id: Id, slug: string) | NotAnApp

  datatype CheckRun = CheckRun(
    name: CheckName, headSha: string, app: App, id: Id, detailsUrl: Url, htmlUrl: Url,
    status: string, conclusion: string, startedAt: Stamp, completedAt: Stamp)

  datatype Entry = Object(run: CheckRun) | NotAnObject

  const REPOSITORY := "Hyphae-Research-Foundation/hyphae"
  const ACTIONS := App(IntId(15368), "github-actions")

  predicate Hex(c: char) { '0' <= c <= '9' || 'a' <= c <= 'f' }
  predicate Digit(c: char) { '0' <= c <= '9' }

  predicate HexCommit(s: string) { |s| == 40 && forall i :: 0 <= i < |s| ==> Hex(s[i]) }

  predicate PositiveDecimal(s: string) {
    s != [] && s[0] != '0' && forall i :: 0 <= i < |s| ==> Digit(s[i])
  }

  predicate HeadRef(s: string) {
    s != [] && forall i :: 0 <= i < |s| ==>
      Digit(s[i]) || 'A' <= s[i] <= 'Z' || 'a' <= s[i] <= 'z' || s[i] in "._/-"
  }

  predicate Contains(text: string, fragment: string) {
    fragment <= text || (text != [] && Contains(text[1..], fragment))
  }

  function Rendering(url: Url): string { if url.Text? then url.text else url.rendering }

  function Decimal(s: string): (n: nat)
    requires forall i :: 0 <= i < |s| ==> Digit(s[i])
    ensures PositiveDecimal(s) ==> n >= 1
  {
    if s == [] then 0
    else
      assert Digit(s[|s| - 1]);
      10 * Decimal(s[..|s| - 1]) + (s[|s| - 1] as int - '0' as int)
  }

  function DigitCount(s: string): (n: nat)
    ensures n <= |s| && forall i :: 0 <= i < n ==> Digit(s[i])
  {
    if s == [] || !Digit(s[0]) then 0 else 1 + DigitCount(s[1..])
  }

  datatype JobUrl = JobUrl(runId: nat, jobId: nat) | NotJobUrl

  function UrlPrefix(repository: string): string { "https://github.com/" + repository + "/actions/runs/" }

  /** Reads https://github.com/REPOSITORY/actions/runs/RUN/job/JOB with positive decimals. */
  function ParseJobUrl(repository: string, text: string): (r: JobUrl)
    ensures r.JobUrl? ==> r.runId >= 1 && r.jobId >= 1
  {
    if !(UrlPrefix(repository) <= text) then NotJobUrl else ParseNumbers(text[|UrlPrefix(repository)|..])
  }

  function ParseNumbers(rest: string): (r: JobUrl)
    ensures r.JobUrl? ==> r.runId >= 1 && r.jobId >= 1
  {
    var run := rest[..DigitCount(rest)];
    var tail := rest[DigitCount(rest)..];
    if !PositiveDecimal(run) || !("/job/" <= tail) || !PositiveDecimal(tail[5..]) then NotJobUrl
    else JobUrl(Decimal(run), Decimal(tail[5..]))
  }

  // ---- canonical URLs ----

  function Numeral(n: nat): (s: string)
    ensures forall i :: 0 <= i < |s| ==> Digit(s[i])
  {
    if n == 0 then "" else Numeral(n / 10) + [(n % 10 + '0' as int) as char]
  }

  lemma {:induction false} NumeralReads(n: nat)
    ensures Decimal(Numeral(n)) == n && (n >= 1 ==> PositiveDecimal(Numeral(n)))
  {
    if n > 0 {
      NumeralReads(n / 10);
      var s := Numeral(n);
      assert s[..|s| - 1] == Numeral(n / 10);
      if n >= 10 { assert s[0] == Numeral(n / 10)[0]; } else { assert Numeral(n / 10) == ""; }
    }
  }

  lemma LastDigit(n: nat, d: nat)
    requires d < 10
    ensures (10 * n + d) / 10 == n && (10 * n + d) % 10 == d
  {
  }

  lemma NumeralSnoc(n: nat, d: nat)
    requires d < 10 && (n > 0 || d > 0)
    ensures Numeral(10 * n + d) == Numeral(n) + [(d + '0' as int) as char]
  {
    LastDigit(n, d);
  }

  lemma {:induction false} NumeralOfDecimal(s: string)
    requires PositiveDecimal(s)
    ensures Numeral(Decimal(s)) == s
  {
    var init, last := s[..|s| - 1], s[|s| - 1];
    assert Digit(last);
    var d := last as int - '0' as int;
    if init != [] {
      assert PositiveDecimal(init);
      NumeralOfDecimal(init);
    } else {
      assert Decimal(init) == 0 && Numeral(0) == init;
      assert d != 0;
    }
    NumeralSnoc(Decimal(init), d);
    assert s == init + [last];
  }

  lemma NumeralOf(s: string, n: nat)
    requires PositiveDecimal(s) && n == Decimal(s)
    ensures Numeral(n) == s
  {
    NumeralOfDecimal(s);
  }

  function UrlNumbers(run: nat, job: nat): string { Numeral(run) + ("/job/" + Numeral(job)) }

  function UrlText(repository: string, run: nat, job: nat): string { UrlPrefix(repository) + UrlNumbers(run, job) }

  lemma {:induction false} DigitsFirst(digits: string, rest: string)
    requires (forall i :: 0 <= i < |digits| ==> Digit(digits[i])) && (rest == "" || !Digit(rest[0]))
    ensures DigitCount(digits + rest) == |digits|
  {
    if digits == "" {
      assert digits + rest == rest;
    } else {
      assert Digit(digits[0]) && (digits + rest)[1..] == digits[1..] + rest;
      DigitsFirst(digits[1..], rest);
    }
  }

  lemma NumbersRead(run: nat, job: nat)
    requires run >= 1 && job >= 1
    ensures ParseNumbers(UrlNumbers(run, job)) == JobUrl(run, job)
  {
    var tail := "/job/" + Numeral(job);
    NumeralReads(run);
    NumeralReads(job);
    DigitsFirst(Numeral(run), tail);
    assert UrlNumbers(run, job)[..|Numeral(run)|] == Numeral(run) && UrlNumbers(run, job)[|Numeral(run)|..] == tail;
    assert tail[5..] == Numeral(job);
  }

  lemma NumbersWritten(rest: string, run: nat, job: nat)
    requires ParseNumbers(rest) == JobUrl(run, job)
    ensures rest == UrlNumbers(run, job)
  {
    var digits, tail := rest[..DigitCount(rest)], rest[DigitCount(rest)..];
    NumeralOf(digits, run);
    NumeralOf(tail[5..], job);
    AfterPrefix("/job/", tail);
    assert rest == digits + tail;
  }

  lemma AfterPrefix(prefix: string, text: string)
    requires prefix <= text
    ensures text == prefix + text[|prefix|..]
  {
  }

  /** A job URL is accepted exactly when it is the canonical text of the two numbers it yields. */
  lemma ParseJobUrlIff(repository: string, text: string, run: nat, job: nat)
    ensures ParseJobUrl(repository, text) == JobUrl(run, job) <==> run >= 1 && job >= 1 && text == UrlText(repository, run, job)
  {
    var prefix := UrlPrefix(repository);
    if prefix <= text {
      var rest := text[|prefix|..];
      assert text == prefix + rest;
      if ParseNumbers(rest) == JobUrl(run, job) { NumbersWritten(rest, run, job); }
      if run >= 1 && job >= 1 && text == UrlText(repository, run, job) {
        assert rest == UrlNumbers(run, job);
        NumbersRead(run, job);
      }
    }
  }

  // The workflow run that a check URL names, or failure for another check's URL.
  function UrlIdentity(repository: string, url: Url, checkRunId: int): Checked<nat> {
    if url.NotText? then Err(InvalidInput)
    else
      var parsed := ParseJobUrl(repository, url.text);
      if parsed.NotJobUrl? || parsed.jobId != checkRunId then Err(InvalidInput) else Ok(parsed.runId)
  }

  // ---- selection ----

  datatype Context = Context(commit: string, headCommit: string, excludedRunId: string)

  predicate ValidContext(c: Context) {
    HexCommit(c.commit) && HexCommit(c.headCommit) && PositiveDecimal(c.excludedRunId)
  }

  function ExpectedCommit(name: CheckName, commit: string, headCommit: string): string {
    if name == G8Receipts then commit else headCommit
  }

  predicate Relevant(c: Context, name: CheckName, entry: Entry) {
    && entry.Object?
    && entry.run.name == name
    && entry.run.headSha == ExpectedCommit(name, c.commit, c.headCommit)
    && entry.run.app == ACTIONS
    && entry.run.id.IntId?
    && !Contains(Rendering(entry.run.detailsUrl), "/actions/runs/" + c.excludedRunId + "/")
  }

  predicate Timed(run: CheckRun) {
    && run.status == "completed"
    && run.startedAt.Instant? && run.completedAt.Instant?
    && run.startedAt.seconds <= run.completedAt.seconds
  }

  function RelevantTo(c: Context, name: CheckName): Entry -> bool { entry => Relevant(c, name, entry) }

  predicate TimedEntry(entry: Entry) { entry.Object? && Timed(entry.run) }

  function Seconds(entry: Entry): int {
    if entry.Object? && entry.run.completedAt.Instant? then entry.run.completedAt.seconds else 0
  }

  function CompletedAt(seconds: int): Entry -> bool { entry => Seconds(entry) == seconds }

  function Latest(entries: seq<Entry>): (t: int)
    requires entries != []
    ensures forall e :: e in entries ==> Seconds(e) <= t
    ensures exists e :: e in entries && Seconds(e) == t
  {
    var last := entries[|entries| - 1];
    assert last in entries;
    if |entries| == 1 then Seconds(last)
    else
      var rest := entries[..|entries| - 1];
      assert forall e :: e in entries <==> e in rest || e == last;
      var t := Latest(rest);
      if Seconds(last) > t then Seconds(last) else t
  }

  // The one latest of the relevant runs.
  function PickLatest(name: CheckName, relevant: seq<Entry>): Checked<CheckRun> {
    if exists e :: e in relevant && !TimedEntry(e) then Err(UntimedRun(name))
    else if relevant == [] then Err(NoPriorRun(name))
    else
      var latest := Filter(CompletedAt(Latest(relevant)), relevant);
      if |latest| != 1 then Err(AmbiguousLatest(name)) else
      assert latest[0] in latest;
      Ok(latest[0].run)
  }

  function SelectOne(c: Context, name: CheckName, entries: seq<Entry>): Checked<CheckRun> {
    PickLatest(name, Filter(RelevantTo(c, name), entries))
  }

  function Selections(c: Context, names: seq<CheckName>, entries: seq<Entry>): (r: seq<Checked<CheckRun>>)
    ensures |r| == |names| && forall i :: 0 <= i < |names| ==> r[i] == SelectOne(c, names[i], entries)
  {
    seq(|names|, i requires 0 <= i < |names| => SelectOne(c, names[i], entries))
  }

  function Select(c: Context, names: seq<CheckName>, entries: seq<Entry>): Checked<seq<CheckRun>> {
    if !ValidContext(c) then Err(InvalidInput) else Collect(Selections(c, names, entries))
  }

  /** One name of the nested selection loops. */
  method SelectName(c: Context, name: CheckName, entries: seq<Entry>) returns (r: Checked<CheckRun>)
    ensures r == SelectOne(c, name, entries)
  {
    var relevant: seq<Entry> := [];
    ghost var all := Filter(RelevantTo(c, name), entries);
    for i := 0 to |entries|
      invariant relevant == Filter(RelevantTo(c, name), entries[..i])
      invariant forall e :: e in relevant ==> TimedEntry(e)
    {
      assert entries[..i + 1] == entries[..i] + [entries[i]];
      FilterSnoc(RelevantTo(c, name), entries[..i], entries[i]);
      if Relevant(c, name, entries[i]) {
        if !Timed(entries[i].run) {
          assert entries[i] in all;
          return Err(UntimedRun(name));
        }
        relevant := relevant + [entries[i]];
      }
    }
    assert entries[..|entries|] == entries;
    if relevant == [] {
      return Err(NoPriorRun(name));
    }
    var latest := Filter(CompletedAt(Latest(relevant)), relevant);
    if |latest| != 1 {
      return Err(AmbiguousLatest(name));
    }
    assert latest[0] in latest;
    return Ok(latest[0].run);
  }

  // The values of the first results.
  ghost predicate Values(results: seq<Checked<CheckRun>>, runs: seq<CheckRun>) {
    |runs| <= |results| && forall i :: 0 <= i < |runs| ==> results[i] == Ok(runs[i])
  }

  lemma ValuesSnoc(results: seq<Checked<CheckRun>>, runs: seq<CheckRun>, run: CheckRun)
    requires Values(results, runs) && |runs| < |results| && results[|runs|] == Ok(run)
    ensures Values(results, runs + [run])
  {
  }

  method SelectCheckRuns(c: Context, names: seq<CheckName>, entries: seq<Entry>) returns (r: Checked<seq<CheckRun>>)
    ensures r == Select(c, names, entries)
  {
    if !ValidContext(c) {
      return Err(InvalidInput);
    }
    ghost var results := Selections(c, names, entries);
    var selected: seq<CheckRun> := [];
    for k := 0 to |names|
      invariant |selected| == k && Values(results, selected)
    {
      var one := SelectName(c, names[k], entries);
      if one.Err? {
        CollectFirstError(results, k);
        return Err(one.error);
      }
      ValuesSnoc(results, selected, one.value);
      selected := selected + [one.value];
    }
    CollectValues(results, selected);
    return Ok(selected);
  }

  // ---- what is selected ----

  /** `run` is the one newest relevant run of its name: it completed strictly after every
      other one. */
  ghost predicate Newest(c: Context, name: CheckName, entries: seq<Entry>, run: CheckRun) {
    Relevant(c, name, Object(run)) && Timed(run) && exists i: nat :: NewestAt(c, name, entries, run, i)
  }

  ghost predicate NewestAt(c: Context, name: CheckName, entries: seq<Entry>, run: CheckRun, i: nat)
    requires run.completedAt.Instant?
  {
    && i < |entries| && entries[i] == Object(run)
    && forall j :: 0 <= j < |entries| && j != i && Relevant(c, name, entries[j]) ==>
         Timed(entries[j].run) && entries[j].run.completedAt.seconds < run.completedAt.seconds
  }

  function RelevantAt(c: Context, name: CheckName, seconds: int): Entry -> bool {
    entry => Relevant(c, name, entry) && Seconds(entry) == seconds
  }

  lemma {:induction false} FilterTwice(c: Context, name: CheckName, seconds: int, s: seq<Entry>)
    ensures Filter(CompletedAt(seconds), Filter(RelevantTo(c, name), s)) == Filter(RelevantAt(c, name, seconds), s)
  {
    if s != [] {
      var n := |s| - 1;
      FilterTwice(c, name, seconds, s[..n]);
      FilterSnoc(CompletedAt(seconds), Filter(RelevantTo(c, name), s[..n]), s[n]);
    }
  }

  lemma PickedFacts(name: CheckName, relevant: seq<Entry>, run: CheckRun)
    requires PickLatest(name, relevant) == Ok(run)
    ensures Object(run) in relevant && Timed(run)
    ensures forall e :: e in relevant ==> TimedEntry(e) && Seconds(e) <= run.completedAt.seconds
    ensures |Filter(CompletedAt(run.completedAt.seconds), relevant)| == 1
  {
    var latest := Filter(CompletedAt(Latest(relevant)), relevant);
    assert latest[0] in latest;
    assert latest[0] in relevant && Seconds(latest[0]) == Latest(relevant);
    assert TimedEntry(latest[0]);
  }

  lemma SelectedIsNewest(c: Context, name: CheckName, entries: seq<Entry>, run: CheckRun)
    requires SelectOne(c, name, entries) == Ok(run)
    ensures Newest(c, name, entries, run)
  {
    var relevant := Filter(RelevantTo(c, name), entries);
    PickedFacts(name, relevant, run);
    var t := run.completedAt.seconds;
    var i :| 0 <= i < |entries| && entries[i] == Object(run);
    FilterTwice(c, name, t, entries);
    forall j | 0 <= j < |entries| && j != i && Relevant(c, name, entries[j])
      ensures Timed(entries[j].run) && entries[j].run.completedAt.seconds < t
    {
      assert entries[j] in relevant;
      if Seconds(entries[j]) == t {
        SameInstant(c, name, t, entries, i, j);
        assert false;
      }
    }
    assert NewestAt(c, name, entries, run, i);
  }

  lemma SameInstant(c: Context, name: CheckName, t: int, entries: seq<Entry>, i: nat, j: nat)
    requires i < |entries| && j < |entries| && i != j
    requires RelevantAt(c, name, t)(entries[i]) && RelevantAt(c, name, t)(entries[j])
    ensures |Filter(RelevantAt(c, name, t), entries)| >= 2
  {
    if i < j { FilterTwo(RelevantAt(c, name, t), entries, i, j); }
    else { FilterTwo(RelevantAt(c, name, t), entries, j, i); }
  }

  /** A successful selection holds, for every required name, its one newest relevant run. */
  lemma SelectionIsNewest(c: Context, names: seq<CheckName>, entries: seq<Entry>)
    requires Select(c, names, entries).Ok?
    ensures |Select(c, names, entries).value| == |names|
    ensures forall i :: 0 <= i < |names| ==> Newest(c, names[i], entries, Select(c, names, entries).value[i])
  {
    var results := Selections(c, names, entries);
    CollectAll(results);
    forall i | 0 <= i < |names| ensures Newest(c, names[i], entries, Select(c, names, entries).value[i]) {
      assert results[i] == Ok(Collect(results).value[i]);
      SelectedIsNewest(c, names[i], entries, Collect(results).value[i]);
    }
  }

  // ---- order of arrival ----

  lemma LatestIgnoresOrder(s: seq<Entry>, t: seq<Entry>)
    requires s != [] && t != [] && multiset(s) == multiset(t)
    ensures Latest(s) == Latest(t)
  {
    SameMembers(s, t);
  }

  lemma SingletonIgnoresOrder(s: seq<Entry>, t: seq<Entry>, p: Entry -> bool)
    requires multiset(s) == multiset(t)
    ensures |Filter(p, s)| == |Filter(p, t)|
    ensures |Filter(p, s)| == 1 ==> Filter(p, s) == Filter(p, t)
  {
    var x, y := Filter(p, s), Filter(p, t);
    FilterIgnoresOrder(p, s, t);
    SameMembers(x, y);
    if |x| == 1 { assert x[0] in x; assert x[0] in y; }
  }

  lemma PickIgnoresOrder(name: CheckName, s: seq<Entry>, t: seq<Entry>)
    requires multiset(s) == multiset(t)
    ensures PickLatest(name, s) == PickLatest(name, t)
  {
    SameMembers(s, t);
    if s != [] {
      LatestIgnoresOrder(s, t);
      SingletonIgnoresOrder(s, t, CompletedAt(Latest(s)));
    }
  }

  lemma SelectOneIgnoresOrder(c: Context, name: CheckName, s: seq<Entry>, t: seq<Entry>)
    requires multiset(s) == multiset(t)
    ensures SelectOne(c, name, s) == SelectOne(c, name, t)
  {
    FilterIgnoresOrder(RelevantTo(c, name), s, t);
    PickIgnoresOrder(name, Filter(RelevantTo(c, name), s), Filter(RelevantTo(c, name), t));
  }

  /** The selection does not depend on the order in which pages of runs arrive. */
  lemma SelectIgnoresOrder(c: Context, names: seq<CheckName>, s: seq<Entry>, t: seq<Entry>)
    requires multiset(s) == multiset(t)
    ensures Select(c, names, s) == Select(c, names, t)
  {
    forall i | 0 <= i < |names| ensures SelectOne(c, names[i], s) == SelectOne(c, names[i], t) {
      SelectOneIgnoresOrder(c, names[i], s, t);
    }
    assert Selections(c, names, s) == Selections(c, names, t);
  }

  // ---- selecting again ----

  function Entries(runs: seq<CheckRun>): (e: seq<Entry>)
    ensures |e| == |runs| && forall i :: 0 <= i < |runs| ==> e[i] == Object(runs[i])
  {
    seq(|runs|, i requires 0 <= i < |runs| => Object(runs[i]))
  }

  lemma ReselectOne(c: Context, names: seq<CheckName>, runs: seq<CheckRun>, k: nat)
    requires |runs| == |names| && k < |names|
    requires forall i, j :: 0 <= i < j < |names| ==> names[i] != names[j]
    requires forall i :: 0 <= i < |names| ==> Relevant(c, names[i], Object(runs[i])) && Timed(runs[i])
    ensures SelectOne(c, names[k], Entries(runs)) == Ok(runs[k])
  {
    var entries := Entries(runs);
    var only := [Object(runs[k])];
    forall j | 0 <= j < |entries| && j != k ensures !RelevantTo(c, names[k])(entries[j]) {
      assert Relevant(c, names[j], Object(runs[j]));
    }
    FilterSingle(RelevantTo(c, names[k]), entries, k);
    assert Filter(RelevantTo(c, names[k]), entries) == only;
    assert Latest(only) == Seconds(only[0]);
    FilterSingle(CompletedAt(Latest(only)), only, 0);
  }

  lemma SelectsItself(c: Context, names: seq<CheckName>, runs: seq<CheckRun>)
    requires ValidContext(c) && |runs| == |names| && forall i, j :: 0 <= i < j < |names| ==> names[i] != names[j]
    requires forall i :: 0 <= i < |names| ==> Relevant(c, names[i], Object(runs[i])) && Timed(runs[i])
    ensures Select(c, names, Entries(runs)) == Ok(runs)
  {
    forall i | 0 <= i < |names| ensures SelectOne(c, names[i], Entries(runs)) == Ok(runs[i]) {
      ReselectOne(c, names, runs, i);
    }
    CollectValues(Selections(c, names, Entries(runs)), runs);
  }

  /** Selecting from a selection changes nothing. */
  lemma SelectIsFixpoint(c: Context, names: seq<CheckName>, entries: seq<Entry>)
    requires forall i, j :: 0 <= i < j < |names| ==> names[i] != names[j]
    requires Select(c, names, entries).Ok?
    ensures Select(c, names, Entries(Select(c, names, entries).value)) == Select(c, names, entries)
  {
    SelectionIsNewest(c, names, entries);
    var runs := Select(c, names, entries).value;
    forall i | 0 <= i < |names| ensures Relevant(c, names[i], Object(runs[i])) && Timed(runs[i]) {
      assert Newest(c, names[i], entries, runs[i]);
    }
    SelectsItself(c, names, runs);
  }
}
