/**
  The release report over the selected checks: how it is drafted from GitHub's answers, and the
  validator, which trusts nothing about the drafting.
*/
module CheckReport {
  import opened RequiredChecks
  import opened Results

  // ---- GitHub's answers ----

  datatype Repo = Repo(fullName: string) | NotARepo

  datatype WorkflowRun =
    | WorkflowRun(id: Id, path: Path, headSha: string, status: string, conclusion: string, event: Event,
                  headBranch: string, repository: Repo, headRepository: Repo, attempt: Id)
    | NotAWorkflow

  datatype Step = Step(name: string, number: Id, status: string, conclusion: string) | NotAStep

  datatype Steps = StepList(items: seq<Step>) | NotAList

  datatype JobRun =
    | JobRun(id: Id, runId: Id, name: CheckName, headSha: string, status: string, conclusion: string,
             attempt: Id, steps: Steps)
    | NotAJob

  // String fields that hold something else are empty here: no check accepts an empty string.
  datatype Pull =
    | Pull(number: Id, state: string, headRepo: Repo, baseRepo: Repo, headRef: string, headSha: string,
           baseRef: string, baseSha: string, mergeCommitSha: string, mergedAt: Stamp)
    | NotAPull

  datatype IssueEvent = IssueEvent(event: string) | NotAnEvent

  datatype Hosted = Hosted(
    workflowRuns: map<int, WorkflowRun>, jobRuns: map<int, JobRun>,
    pulls: seq<Pull>, headPulls: seq<Pull>, events: seq<IssueEvent>)

  // ---- the report ----

  datatype Guard = Guard(name: string, number: Id, status: string, conclusion: string) | NoGuard | NotAGuard

  datatype Record = Record(
    name: CheckName, checkRunId: Id, workflowRunId: Id, workflowPath: Path, workflowEvent: Event,
    attempt: Id, headBranch: string, url: Url, app: App, headSha: string, status: string,
    conclusion: string, startedAt: Stamp, completedAt: Stamp, guard: Guard)

  datatype PullRecord = PullRecord(
    number: Id, headRef: string, headSha: string, baseRef: string, baseSha: string,
    mergeCommitSha: string, mergedAt: Stamp, baseRefHistory: string)

  datatype Report = Report(
    schema: string, schemaVersion: int, repository: string, headSha: string, pullRequest: PullRecord,
    checks: seq<Record>)

  const SCHEMA := "required-checks-report-v1"
  const GUARD_STEP := "Verify the pull-request integration tree"

  predicate PositiveId(id: Id) { id.IntId? && id.n >= 1 }

  function ExpectedBranch(name: CheckName, headRef: string): string {
    if name == G8Receipts then "release/" + headRef + "-merge-evidence" else headRef
  }

  // ---- drafting ----

  predicate FitWorkflow(w: WorkflowRun, runId: int, repository: string, commit: string, branch: string, name: CheckName) {
    && w.WorkflowRun?
    && w.id == IntId(runId)
    && w.path == WorkflowOf(name)
    && w.headSha == commit
    && w.status == "completed" && w.conclusion == "success"
    && w.event == EventOf(name)
    && w.headBranch == branch
    && w.repository == Repo(repository) && w.headRepository == Repo(repository)
    && PositiveId(w.attempt)
  }

  predicate FitJob(j: JobRun, checkRunId: int, runId: int, attempt: Id, name: CheckName, commit: string) {
    && j.JobRun?
    && j.id == IntId(checkRunId)
    && j.runId == IntId(runId)
    && j.name == name
    && j.headSha == commit
    && j.status == "completed" && j.conclusion == "success"
    && PositiveId(j.attempt)
    && j.attempt == attempt
  }

  predicate GuardStep(s: Step) { s.Step? && s.name == GUARD_STEP }

  predicate FitGuard(g: Guard) {
    && g.Guard? && g.name == GUARD_STEP && PositiveId(g.number)
    && g.status == "completed" && g.conclusion == "success"
  }

  function GuardOf(job: JobRun): Checked<Guard>
    requires job.JobRun?
  {
    if job.steps.NotAList? then Err(InvalidInput)
    else
      var guards := GuardSteps(job.steps.items);
      if |guards| != 1 then Err(InvalidInput)
      else
        var g := Guard(guards[0].name, guards[0].number, guards[0].status, guards[0].conclusion);
        if FitGuard(g) then Ok(g) else Err(InvalidInput)
  }

  function GuardSteps(steps: seq<Step>): (g: seq<Step>)
    ensures forall i :: 0 <= i < |g| ==> GuardStep(g[i])
  {
    if steps == [] then []
    else
      var rest := GuardSteps(steps[..|steps| - 1]);
      if GuardStep(steps[|steps| - 1]) then rest + [steps[|steps| - 1]] else rest
  }

  /** One selected run, checked against the workflow run and the job it names. */
  function CanonicalCheck(h: Hosted, repository: string, run: CheckRun, commit: string, branch: string, name: CheckName): Checked<Record> {
    if !PositiveId(run.id) then Err(UnfitCheck(name))
    else if run.name != name || run.headSha != commit || run.status != "completed" || run.conclusion != "success" then Err(UnfitCheck(name))
    else if run.app != ACTIONS then Err(UnfitCheck(name))
    else
      var runId := UrlIdentity(repository, run.htmlUrl, run.id.n);
      if runId.Err? || run.detailsUrl != run.htmlUrl then Err(UnfitCheck(name))
      else if runId.value !in h.workflowRuns then Err(UnfitCheck(name))
      else
        var w := h.workflowRuns[runId.value];
        if !FitWorkflow(w, runId.value, repository, commit, branch, name) then Err(UnfitCheck(name))
        else if run.id.n !in h.jobRuns then Err(UnfitCheck(name))
        else
          var job := h.jobRuns[run.id.n];
          if !FitJob(job, run.id.n, runId.value, w.attempt, name, commit) then Err(UnfitCheck(name))
          else if !Timed(run) then Err(UnfitCheck(name))
          else
            var guard := if Guarded(name) then GuardOf(job) else Ok(NoGuard);
            if guard.Err? then Err(UnfitCheck(name))
            else Ok(Record(name, run.id, IntId(runId.value), w.path, w.event, job.attempt, w.headBranch,
                           run.htmlUrl, ACTIONS, commit, "completed", "success",
                           run.startedAt, run.completedAt, guard.value))
  }

  function CanonicalPull(pulls: seq<Pull>, repository: string, commit: string): Checked<PullRecord> {
    if |pulls| != 1 || pulls[0].NotAPull? then Err(InvalidPullRequest)
    else
      var p := pulls[0];
      if && PositiveId(p.number) && p.state == "closed"
         && p.headRepo == Repo(repository) && p.baseRepo == Repo(repository)
         && HeadRef(p.headRef) && HexCommit(p.headSha)
         && p.baseRef == "main" && HexCommit(p.baseSha)
         && HexCommit(p.mergeCommitSha) && p.mergeCommitSha == commit
         && p.mergedAt.Instant?
      then Ok(PullRecord(p.number, p.headRef, p.headSha, "main", p.baseSha, p.mergeCommitSha, p.mergedAt, "unchanged"))
      else Err(InvalidPullRequest)
  }

  predicate StableBase(events: seq<IssueEvent>) {
    forall i :: 0 <= i < |events| ==>
      events[i].IssueEvent? && events[i].event !in {"automatic_base_change_succeeded", "base_ref_changed"}
  }

  function CanonicalFor(h: Hosted, repository: string, commit: string, pull: PullRecord, name: CheckName, run: CheckRun): Checked<Record> {
    CanonicalCheck(h, repository, run, ExpectedCommit(name, commit, pull.headSha), ExpectedBranch(name, pull.headRef), name)
  }

  function Canonicals(h: Hosted, repository: string, commit: string, pull: PullRecord, names: seq<CheckName>, runs: seq<CheckRun>): (r: seq<Checked<Record>>)
    requires |names| == |runs|
    ensures |r| == |names|
    ensures forall i :: 0 <= i < |r| ==> r[i] == CanonicalFor(h, repository, commit, pull, names[i], runs[i])
  {
    seq(|names|, i requires 0 <= i < |names| => CanonicalFor(h, repository, commit, pull, names[i], runs[i]))
  }

  /** Everything the builder does before it validates its own report. */
  function Draft(h: Hosted, names: seq<CheckName>, entries: seq<Entry>, repository: string, commit: string, excludedRunId: string): Checked<Report> {
    if repository != REPOSITORY || !HexCommit(commit) || !PositiveDecimal(excludedRunId) then Err(InvalidInput)
    else
      var pull := CanonicalPull(h.pulls, repository, commit);
      if pull.Err? then Err(pull.error)
      else if CanonicalPull(h.headPulls, repository, commit) != pull || !StableBase(h.events) then Err(InvalidPullRequest)
      else
        var selected := Select(Context(commit, pull.value.headSha, excludedRunId), names, entries);
        if selected.Err? then Err(selected.error)
        else if |selected.value| != |names| then Err(InvalidInput)
        else
          var checks := Collect(Canonicals(h, repository, commit, pull.value, names, selected.value));
          if checks.Err? then Err(checks.error)
          else Ok(Report(SCHEMA, 1, repository, commit, pull.value, checks.value))
  }

  // ---- validation ----

  predicate FitHeader(r: Report, commit: string) {
    && r.schema == SCHEMA && r.schemaVersion == 1 && r.repository == REPOSITORY
    && HexCommit(commit) && r.headSha == commit
  }

  predicate FitPull(p: PullRecord, commit: string) {
    && PositiveId(p.number) && HeadRef(p.headRef) && HexCommit(p.headSha)
    && p.baseRef == "main" && HexCommit(p.baseSha)
    && HexCommit(p.mergeCommitSha) && p.mergeCommitSha == commit
    && p.mergedAt.Instant? && p.baseRefHistory == "unchanged"
  }

  // The checks on one record that involve no other record.
  predicate FitRecord(r: Record, name: CheckName, p: PullRecord, commit: string) {
    && r.name == name
    && r.headSha == ExpectedCommit(name, commit, p.headSha)
    && r.status == "completed" && r.conclusion == "success"
    && PositiveId(r.checkRunId) && PositiveId(r.workflowRunId) && PositiveId(r.attempt)
    && UrlIdentity(REPOSITORY, r.url, r.checkRunId.n) == Ok(r.workflowRunId.n)
    && r.workflowPath == WorkflowOf(name)
    && r.workflowEvent == EventOf(name)
    && r.headBranch == ExpectedBranch(name, p.headRef)
    && r.app == ACTIONS
    && r.startedAt.Instant? && r.completedAt.Instant? && r.startedAt.seconds <= r.completedAt.seconds
    && (if Guarded(name) then FitGuard(r.guard) else r.guard == NoGuard)
  }

  // Two records agree: different checks, one path and attempt per run, one run per path.
  predicate Compatible(a: Record, b: Record) {
    && a.checkRunId != b.checkRunId
    && (a.workflowRunId == b.workflowRunId ==> a.workflowPath == b.workflowPath && a.attempt == b.attempt)
    && (a.workflowPath == b.workflowPath ==> a.workflowRunId == b.workflowRunId)
  }

  ghost predicate Coherent(checks: seq<Record>) {
    forall i, j :: 0 <= i < j < |checks| ==> Compatible(checks[i], checks[j])
  }

  ghost predicate OneRunPerPath(checks: seq<Record>) {
    forall i, j :: 0 <= i < j < |checks| && checks[i].workflowPath == checks[j].workflowPath ==>
      checks[i].workflowRunId == checks[j].workflowRunId
  }

  ghost predicate FitRecords(r: Report, names: seq<CheckName>, commit: string) {
    && |r.checks| == |names|
    && forall i :: 0 <= i < |names| ==> FitRecord(r.checks[i], names[i], r.pullRequest, commit)
  }

  ghost predicate ValidReport(r: Report, names: seq<CheckName>, commit: string) {
    && FitHeader(r, commit) && FitPull(r.pullRequest, commit)
    && FitRecords(r, names, commit)
    && Coherent(r.checks)
  }

  // The validator's three tables.
  datatype Tables = Tables(ids: set<Id>, runs: map<Id, (Path, Id)>, paths: map<Path, Id>)

  function Enter(t: Tables, r: Record): Tables {
    Tables(t.ids + {r.checkRunId}, t.runs[r.workflowRunId := (r.workflowPath, r.attempt)], t.paths[r.workflowPath := r.workflowRunId])
  }

  // What the validator asks of one more record.
  predicate Agrees(r: Record, t: Tables) {
    && r.checkRunId !in t.ids
    && (r.workflowRunId in t.runs ==> t.runs[r.workflowRunId] == (r.workflowPath, r.attempt))
    && (r.workflowPath in t.paths ==> t.paths[r.workflowPath] == r.workflowRunId)
  }

  /** The tables after reading the records, in order. */
  ghost function Entered(checks: seq<Record>): Tables {
    if checks == [] then Tables({}, map[], map[]) else Enter(Entered(checks[..|checks| - 1]), checks[|checks| - 1])
  }

  /** Over coherent records the tables answer for every one of them. */
  lemma {:induction false} AgreesWithAll(checks: seq<Record>, r: Record)
    requires Coherent(checks)
    ensures Agrees(r, Entered(checks)) <==> forall i :: 0 <= i < |checks| ==> Compatible(checks[i], r)
  {
    if checks != [] {
      var n := |checks| - 1;
      var init, last := checks[..n], checks[n];
      AgreesWithAll(init, r);
      AgreesWithAll(init, last);
      assert forall i :: 0 <= i < n ==> Compatible(init[i], last);
      AgreesAfterEnter(Entered(init), last, r);
      assert (forall i :: 0 <= i < |checks| ==> Compatible(checks[i], r))
        <==> (forall i :: 0 <= i < n ==> Compatible(init[i], r)) && Compatible(last, r);
    }
  }

  lemma AgreesAfterEnter(t: Tables, last: Record, r: Record)
    requires Agrees(last, t)
    ensures Agrees(r, Enter(t, last)) <==> Agrees(r, t) && Compatible(last, r)
  {
  }

  lemma CoherentSnoc(checks: seq<Record>, r: Record)
    requires Coherent(checks)
    ensures Coherent(checks + [r]) <==> Agrees(r, Entered(checks))
  {
    AgreesWithAll(checks, r);
    var all := checks + [r];
    if Coherent(all) {
      forall i | 0 <= i < |checks| ensures Compatible(checks[i], r) {
        assert Compatible(all[i], all[|checks|]);
      }
    }
  }

  lemma CoherentPrefix(checks: seq<Record>, i: nat)
    requires i <= |checks| && Coherent(checks)
    ensures Coherent(checks[..i])
  {
  }

  /** One pass over the records with the three growing tables; `fit` is the check of a record
      by itself. */
  method ValidateRecords(checks: seq<Record>, names: seq<CheckName>, fit: (Record, CheckName) -> bool) returns (ok: bool)
    requires |checks| == |names|
    ensures ok <==> Coherent(checks) && forall i :: 0 <= i < |names| ==> fit(checks[i], names[i])
  {
    var tables := Tables({}, map[], map[]);
    for i := 0 to |names|
      invariant forall k :: 0 <= k < i ==> fit(checks[k], names[k])
      invariant Coherent(checks[..i]) && tables == Entered(checks[..i])
    {
      if !fit(checks[i], names[i]) {
        return false;
      }
      assert checks[..i + 1] == checks[..i] + [checks[i]];
      assert checks[..i + 1][..i] == checks[..i];
      CoherentSnoc(checks[..i], checks[i]);
      if !Agrees(checks[i], tables) {
        if Coherent(checks) { CoherentPrefix(checks, i + 1); }
        return false;
      }
      tables := Enter(tables, checks[i]);
    }
    assert checks[..|names|] == checks;
    return true;
  }

  method ValidateReport(r: Report, names: seq<CheckName>, commit: string) returns (ok: bool)
    ensures ok <==> ValidReport(r, names, commit)
  {
    if !FitHeader(r, commit) || !FitPull(r.pullRequest, commit) || |r.checks| != |names| {
      return false;
    }
    var pull := r.pullRequest;
    ok := ValidateRecords(r.checks, names, (record, name) => FitRecord(record, name, pull, commit));
  }

  // ---- what the builder already guarantees ----

  /** A drafted record passes every check on a single record, and its run and attempt are those
      of GitHub's answers under its own identities. */
  lemma CanonicalFits(h: Hosted, run: CheckRun, name: CheckName, pull: PullRecord, commit: string, r: Record)
    requires CanonicalFor(h, REPOSITORY, commit, pull, name, run) == Ok(r)
    ensures FitRecord(r, name, pull, commit) && GroundedRecord(h, name, r)
    ensures run.conclusion == "success" && run.id == r.checkRunId && run.completedAt == r.completedAt
  {
    UrlRunPositive(REPOSITORY, run.htmlUrl, run.id.n);
  }

  lemma UrlRunPositive(repository: string, url: Url, id: int)
    ensures UrlIdentity(repository, url, id).Ok? ==> UrlIdentity(repository, url, id).value >= 1
  {
  }

  ghost predicate GroundedRecord(h: Hosted, name: CheckName, r: Record) {
    && r.checkRunId.IntId? && r.checkRunId.n in h.jobRuns
    && h.jobRuns[r.checkRunId.n].JobRun? && h.jobRuns[r.checkRunId.n].name == name
    && r.workflowRunId.IntId? && r.workflowRunId.n in h.workflowRuns
    && h.workflowRuns[r.workflowRunId.n].WorkflowRun?
    && h.workflowRuns[r.workflowRunId.n].path == r.workflowPath
    && h.workflowRuns[r.workflowRunId.n].attempt == r.attempt
  }

  ghost predicate Grounded(h: Hosted, names: seq<CheckName>, checks: seq<Record>) {
    |checks| == |names| && forall i :: 0 <= i < |checks| ==> GroundedRecord(h, names[i], checks[i])
  }

  lemma DraftShape(h: Hosted, names: seq<CheckName>, entries: seq<Entry>, repository: string, commit: string, excludedRunId: string, r: Report)
    returns (runs: seq<CheckRun>)
    requires Draft(h, names, entries, repository, commit, excludedRunId) == Ok(r)
    ensures FitHeader(r, commit) && FitPull(r.pullRequest, commit) && |r.checks| == |names|
    ensures Select(Context(commit, r.pullRequest.headSha, excludedRunId), names, entries) == Ok(runs)
    ensures |runs| == |names|
    ensures forall i :: 0 <= i < |names| ==>
      CanonicalFor(h, REPOSITORY, commit, r.pullRequest, names[i], runs[i]) == Ok(r.checks[i])
  {
    runs := Select(Context(commit, r.pullRequest.headSha, excludedRunId), names, entries).value;
    CollectAll(Canonicals(h, repository, commit, r.pullRequest, names, runs));
  }

  lemma DraftFits(h: Hosted, names: seq<CheckName>, entries: seq<Entry>, repository: string, commit: string, excludedRunId: string, r: Report)
    requires Draft(h, names, entries, repository, commit, excludedRunId) == Ok(r)
    ensures FitHeader(r, commit) && FitPull(r.pullRequest, commit)
    ensures FitRecords(r, names, commit) && Grounded(h, names, r.checks)
  {
    var runs := DraftShape(h, names, entries, repository, commit, excludedRunId, r);
    forall i | 0 <= i < |names|
      ensures FitRecord(r.checks[i], names[i], r.pullRequest, commit) && GroundedRecord(h, names[i], r.checks[i])
    {
      CanonicalFits(h, runs[i], names[i], r.pullRequest, commit, r.checks[i]);
    }
  }

  lemma GroundedIsCoherent(h: Hosted, names: seq<CheckName>, checks: seq<Record>)
    requires Grounded(h, names, checks)
    requires forall i, j :: 0 <= i < j < |names| ==> names[i] != names[j]
    ensures Coherent(checks) <==> OneRunPerPath(checks)
  {
    forall i, j | 0 <= i < j < |checks|
      ensures Compatible(checks[i], checks[j]) <==>
        (checks[i].workflowPath == checks[j].workflowPath ==> checks[i].workflowRunId == checks[j].workflowRunId)
    {
      assert GroundedRecord(h, names[i], checks[i]) && GroundedRecord(h, names[j], checks[j]);
    }
  }

  // The workflow run that a selected check belongs to, by its own URL.
  function RunOfCheck(run: CheckRun): Checked<nat> {
    if run.id.IntId? then UrlIdentity(REPOSITORY, run.htmlUrl, run.id.n) else Err(InvalidInput)
  }

  /** Checks of one workflow were selected from one run of it. */
  ghost predicate SharedRuns(names: seq<CheckName>, runs: seq<CheckRun>) {
    |runs| == |names| &&
    forall i, j :: 0 <= i < j < |names| && WorkflowOf(names[i]) == WorkflowOf(names[j]) ==> RunOfCheck(runs[i]) == RunOfCheck(runs[j])
  }

  lemma CanonicalRun(h: Hosted, run: CheckRun, name: CheckName, pull: PullRecord, commit: string, r: Record)
    requires CanonicalFor(h, REPOSITORY, commit, pull, name, run) == Ok(r)
    ensures r.workflowPath == WorkflowOf(name) && r.workflowRunId.IntId? && RunOfCheck(run) == Ok(r.workflowRunId.n)
  {
  }

  lemma SharedIsOnePath(h: Hosted, names: seq<CheckName>, runs: seq<CheckRun>, pull: PullRecord, commit: string, checks: seq<Record>)
    requires |checks| == |names| == |runs|
    requires forall i :: 0 <= i < |names| ==> CanonicalFor(h, REPOSITORY, commit, pull, names[i], runs[i]) == Ok(checks[i])
    ensures OneRunPerPath(checks) <==> SharedRuns(names, runs)
  {
    forall i | 0 <= i < |names|
      ensures checks[i].workflowPath == WorkflowOf(names[i]) && checks[i].workflowRunId.IntId?
      ensures RunOfCheck(runs[i]) == Ok(checks[i].workflowRunId.n)
    {
      CanonicalRun(h, runs[i], names[i], pull, commit, checks[i]);
    }
  }

  /** The closing validation can reject a drafted report for one reason only: the checks of one
      workflow were selected from two of its runs. */
  lemma DraftRejectedOnlyForSplitPath(h: Hosted, names: seq<CheckName>, entries: seq<Entry>, repository: string, commit: string, excludedRunId: string, r: Report)
    returns (runs: seq<CheckRun>)
    requires forall i, j :: 0 <= i < j < |names| ==> names[i] != names[j]
    requires Draft(h, names, entries, repository, commit, excludedRunId) == Ok(r)
    ensures Select(Context(commit, r.pullRequest.headSha, excludedRunId), names, entries) == Ok(runs)
    ensures ValidReport(r, names, commit) <==> SharedRuns(names, runs)
  {
    runs := DraftShape(h, names, entries, repository, commit, excludedRunId, r);
    DraftFits(h, names, entries, repository, commit, excludedRunId, r);
    GroundedIsCoherent(h, names, r.checks);
    SharedIsOnePath(h, names, runs, r.pullRequest, commit, r.checks);
  }

  // What the builder selects, given the pull request.
  function Selected(h: Hosted, names: seq<CheckName>, entries: seq<Entry>, repository: string, commit: string, excludedRunId: string): Checked<seq<CheckRun>> {
    var pull := CanonicalPull(h.pulls, repository, commit);
    if pull.Err? then Err(pull.error) else Select(Context(commit, pull.value.headSha, excludedRunId), names, entries)
  }

  ghost predicate Shared(names: seq<CheckName>, runs: Checked<seq<CheckRun>>) { runs.Ok? && SharedRuns(names, runs.value) }

  lemma DraftPull(h: Hosted, names: seq<CheckName>, entries: seq<Entry>, repository: string, commit: string, excludedRunId: string, r: Report)
    requires Draft(h, names, entries, repository, commit, excludedRunId) == Ok(r)
    ensures CanonicalPull(h.pulls, repository, commit) == Ok(r.pullRequest)
  {
  }

  lemma BuildDecides(h: Hosted, names: seq<CheckName>, entries: seq<Entry>, repository: string, commit: string, excludedRunId: string, r: Report)
    requires forall i, j :: 0 <= i < j < |names| ==> names[i] != names[j]
    requires Draft(h, names, entries, repository, commit, excludedRunId) == Ok(r)
    ensures ValidReport(r, names, commit) <==> Shared(names, Selected(h, names, entries, repository, commit, excludedRunId))
  {
    DraftPull(h, names, entries, repository, commit, excludedRunId, r);
    var runs := DraftRejectedOnlyForSplitPath(h, names, entries, repository, commit, excludedRunId, r);
  }

  /** The builder: draft, then validate. */
  method BuildReport(h: Hosted, entries: seq<Entry>, repository: string, commit: string, excludedRunId: string) returns (r: Checked<Report>)
    ensures r.Ok? <==>
      && Draft(h, NAMES, entries, repository, commit, excludedRunId).Ok?
      && Shared(NAMES, Selected(h, NAMES, entries, repository, commit, excludedRunId))
    ensures r.Ok? ==> r == Draft(h, NAMES, entries, repository, commit, excludedRunId) && ValidReport(r.value, NAMES, commit)
  {
    var draft := Draft(h, NAMES, entries, repository, commit, excludedRunId);
    if draft.Err? {
      return draft;
    }
    TablePositions();
    BuildDecides(h, NAMES, entries, repository, commit, excludedRunId, draft.value);
    var ok := ValidateReport(draft.value, NAMES, commit);
    return if ok then draft else Err(RejectedReport);
  }

  // ---- plain answers: drafts that are accepted and drafts that are not ----

  lemma {:induction false} LongerIsNotContained(text: string, fragment: string)
    requires |fragment| > |text|
    ensures !Contains(text, fragment)
  {
    if text != [] { LongerIsNotContained(text[1..], fragment); }
  }

  // A completed, successful check of its commit, by its own URL.
  function PlainRun(name: CheckName, commit: string, headSha: string, run: nat, job: nat): CheckRun {
    var url := Text(UrlText(REPOSITORY, run, job));
    CheckRun(name, ExpectedCommit(name, commit, headSha), ACTIONS, IntId(job), url, url, "completed", "success", Instant(0), Instant(1))
  }

  function PlainWorkflow(name: CheckName, commit: string, headSha: string, run: nat): WorkflowRun {
    WorkflowRun(IntId(run), WorkflowOf(name), ExpectedCommit(name, commit, headSha), "completed", "success", EventOf(name),
                ExpectedBranch(name, "main"), Repo(REPOSITORY), Repo(REPOSITORY), IntId(1))
  }

  function PlainJob(name: CheckName, commit: string, headSha: string, run: nat, job: nat): JobRun {
    JobRun(IntId(job), IntId(run), name, ExpectedCommit(name, commit, headSha), "completed", "success", IntId(1), StepList([PLAIN_GUARD]))
  }

  const PLAIN_GUARD := Step(GUARD_STEP, IntId(1), "completed", "success")

  lemma PlainGuard(name: CheckName, commit: string, headSha: string, run: nat, job: nat)
    ensures GuardOf(PlainJob(name, commit, headSha, run, job)).Ok?
  {
    var steps := [PLAIN_GUARD];
    assert steps[..0] == [] && GuardStep(steps[0]);
    assert GuardSteps(steps) == [PLAIN_GUARD];
  }

  lemma PlainIsCanonical(h: Hosted, commit: string, pull: PullRecord, name: CheckName, run: nat, job: nat)
    requires run >= 1 && job >= 1 && pull.headRef == "main"
    requires run in h.workflowRuns && h.workflowRuns[run] == PlainWorkflow(name, commit, pull.headSha, run)
    requires job in h.jobRuns && h.jobRuns[job] == PlainJob(name, commit, pull.headSha, run, job)
    ensures CanonicalFor(h, REPOSITORY, commit, pull, name, PlainRun(name, commit, pull.headSha, run, job)).Ok?
  {
    ParseJobUrlIff(REPOSITORY, UrlText(REPOSITORY, run, job), run, job);
    PlainGuard(name, commit, pull.headSha, run, job);
  }

  lemma PlainIsRelevant(c: Context, name: CheckName, run: nat, job: nat)
    requires |c.excludedRunId| > |UrlText(REPOSITORY, run, job)|
    ensures Relevant(c, name, Object(PlainRun(name, c.commit, c.headCommit, run, job))) && Timed(PlainRun(name, c.commit, c.headCommit, run, job))
  {
    LongerIsNotContained(UrlText(REPOSITORY, run, job), "/actions/runs/" + c.excludedRunId + "/");
  }

  ghost predicate InRun(check: CheckRun, run: nat) { RunOfCheck(check) == Ok(run) }

  lemma PlainRunOf(check: CheckRun, name: CheckName, commit: string, headSha: string, run: nat, job: nat)
    requires run >= 1 && job >= 1 && check == PlainRun(name, commit, headSha, run, job)
    ensures InRun(check, run)
  {
    ParseJobUrlIff(REPOSITORY, UrlText(REPOSITORY, run, job), run, job);
  }

  function MergedPull(commit: string, headSha: string): Pull {
    Pull(IntId(1), "closed", Repo(REPOSITORY), Repo(REPOSITORY), "main", headSha, "main", commit, commit, Instant(2))
  }

  function MergedRecord(commit: string, headSha: string): PullRecord {
    PullRecord(IntId(1), "main", headSha, "main", commit, commit, Instant(2), "unchanged")
  }

  lemma MergedIsCanonical(commit: string, headSha: string)
    requires HexCommit(commit) && HexCommit(headSha)
    ensures CanonicalPull([MergedPull(commit, headSha)], REPOSITORY, commit) == Ok(MergedRecord(commit, headSha))
  {
  }

  // Check `i` is job `i + 1` of the workflow run where it is placed.
  ghost predicate PlacedAt(h: Hosted, names: seq<CheckName>, commit: string, headSha: string, placement: seq<nat>, i: nat)
    requires i < |names| == |placement|
  {
    && placement[i] >= 1
    && placement[i] in h.workflowRuns && h.workflowRuns[placement[i]] == PlainWorkflow(names[i], commit, headSha, placement[i])
    && i + 1 in h.jobRuns && h.jobRuns[i + 1] == PlainJob(names[i], commit, headSha, placement[i], i + 1)
  }

  // GitHub answers plainly about one merged pull request and about every check.
  ghost predicate Placed(h: Hosted, names: seq<CheckName>, commit: string, headSha: string, placement: seq<nat>) {
    && h.pulls == h.headPulls == [MergedPull(commit, headSha)] && h.events == []
    && |placement| == |names|
    && forall i :: 0 <= i < |names| ==> PlacedAt(h, names, commit, headSha, placement, i)
  }

  function PlainRuns(names: seq<CheckName>, commit: string, headSha: string, placement: seq<nat>): (runs: seq<CheckRun>)
    requires |placement| == |names|
    ensures |runs| == |names|
    ensures forall i :: 0 <= i < |names| ==> runs[i] == PlainRun(names[i], commit, headSha, placement[i], i + 1)
  {
    seq(|names|, i requires 0 <= i < |names| => PlainRun(names[i], commit, headSha, placement[i], i + 1))
  }

  // The builder's own run is none of those placed: its number is too long.
  ghost predicate Outlasts(excludedRunId: string, placement: seq<nat>) {
    PositiveDecimal(excludedRunId) && forall i :: 0 <= i < |placement| ==> |excludedRunId| > |UrlText(REPOSITORY, placement[i], i + 1)|
  }

  lemma PlacedSelects(c: Context, names: seq<CheckName>, placement: seq<nat>, runs: seq<CheckRun>)
    requires ValidContext(c) && |placement| == |names| && Outlasts(c.excludedRunId, placement)
    requires forall i, j :: 0 <= i < j < |names| ==> names[i] != names[j]
    requires runs == PlainRuns(names, c.commit, c.headCommit, placement)
    ensures Select(c, names, Entries(runs)) == Ok(runs)
  {
    forall i | 0 <= i < |names| ensures Relevant(c, names[i], Object(runs[i])) && Timed(runs[i]) {
      PlainIsRelevant(c, names[i], placement[i], i + 1);
    }
    SelectsItself(c, names, runs);
  }

  lemma CollectsAll(all: seq<Checked<Record>>)
    requires forall i :: 0 <= i < |all| ==> all[i].Ok?
    ensures Collect(all).Ok?
  {
    CollectValues(all, seq(|all|, i requires 0 <= i < |all| => all[i].value));
  }

  lemma PlacedIsCanonical(h: Hosted, names: seq<CheckName>, commit: string, pull: PullRecord, placement: seq<nat>, i: nat)
    requires i < |names| == |placement| && pull.headRef == "main" && PlacedAt(h, names, commit, pull.headSha, placement, i)
    ensures CanonicalFor(h, REPOSITORY, commit, pull, names[i], PlainRun(names[i], commit, pull.headSha, placement[i], i + 1)).Ok?
  {
    PlainIsCanonical(h, commit, pull, names[i], placement[i], i + 1);
  }

  lemma PlacedCollects(h: Hosted, names: seq<CheckName>, commit: string, headSha: string, placement: seq<nat>, runs: seq<CheckRun>, pull: PullRecord)
    requires Placed(h, names, commit, headSha, placement) && runs == PlainRuns(names, commit, headSha, placement)
    requires pull.headRef == "main" && pull.headSha == headSha
    ensures Collect(Canonicals(h, REPOSITORY, commit, pull, names, runs)).Ok?
  {
    var all := Canonicals(h, REPOSITORY, commit, pull, names, runs);
    forall i | 0 <= i < |names| ensures all[i].Ok? {
      PlacedIsCanonical(h, names, commit, pull, placement, i);
    }
    CollectsAll(all);
  }

  // Checks of one workflow are placed in one run of it.
  ghost predicate Together(names: seq<CheckName>, placement: seq<nat>) {
    |placement| == |names| && forall i, j :: 0 <= i < j < |names| && WorkflowOf(names[i]) == WorkflowOf(names[j]) ==> placement[i] == placement[j]
  }

  ghost predicate RunsAre(placement: seq<nat>, runs: seq<CheckRun>) {
    |placement| == |runs| && forall i :: 0 <= i < |runs| ==> InRun(runs[i], placement[i])
  }

  lemma SharesWhere(names: seq<CheckName>, placement: seq<nat>, runs: seq<CheckRun>)
    requires |names| == |runs| && RunsAre(placement, runs)
    ensures SharedRuns(names, runs) <==> Together(names, placement)
  {
  }

  lemma PlacedRuns(names: seq<CheckName>, commit: string, headSha: string, placement: seq<nat>, runs: seq<CheckRun>)
    requires |placement| == |names| && (forall i :: 0 <= i < |names| ==> placement[i] >= 1)
    requires runs == PlainRuns(names, commit, headSha, placement)
    ensures RunsAre(placement, runs)
  {
    forall i | 0 <= i < |runs| ensures InRun(runs[i], placement[i]) {
      PlainRunOf(runs[i], names[i], commit, headSha, placement[i], i + 1);
    }
  }

  /** Plainly answered checks are always drafted, wherever they are placed; the closing validation
      accepts the draft exactly when no workflow is split over two runs. */
  lemma PlacedIsDrafted(h: Hosted, names: seq<CheckName>, commit: string, headSha: string, placement: seq<nat>, excludedRunId: string)
    requires HexCommit(commit) && HexCommit(headSha) && Placed(h, names, commit, headSha, placement) && Outlasts(excludedRunId, placement)
    requires forall i, j :: 0 <= i < j < |names| ==> names[i] != names[j]
    ensures var entries := Entries(PlainRuns(names, commit, headSha, placement));
      && Draft(h, names, entries, REPOSITORY, commit, excludedRunId).Ok?
      && (Shared(names, Selected(h, names, entries, REPOSITORY, commit, excludedRunId)) <==> Together(names, placement))
  {
    var pull, runs := MergedRecord(commit, headSha), PlainRuns(names, commit, headSha, placement);
    MergedIsCanonical(commit, headSha);
    PlacedSelects(Context(commit, headSha, excludedRunId), names, placement, runs);
    PlacedCollects(h, names, commit, headSha, placement, runs, pull);
    forall i | 0 <= i < |names| ensures placement[i] >= 1 {
      assert PlacedAt(h, names, commit, headSha, placement, i);
    }
    PlacedRuns(names, commit, headSha, placement, runs);
    SharesWhere(names, placement, runs);
    Drafts(h, names, runs, Entries(runs), commit, excludedRunId, pull);
  }

  lemma Drafts(h: Hosted, names: seq<CheckName>, runs: seq<CheckRun>, entries: seq<Entry>, commit: string, excludedRunId: string, pull: PullRecord)
    requires |names| == |runs| && HexCommit(commit) && PositiveDecimal(excludedRunId) && CanonicalPull(h.pulls, REPOSITORY, commit) == Ok(pull)
    requires h.headPulls == h.pulls && StableBase(h.events)
    requires Select(Context(commit, pull.headSha, excludedRunId), names, entries) == Ok(runs)
    requires Collect(Canonicals(h, REPOSITORY, commit, pull, names, runs)).Ok?
    ensures Draft(h, names, entries, REPOSITORY, commit, excludedRunId).Ok?
  {
  }

  // ---- the twenty checks of the table ----

  function TableName(n: int): CheckName { if 1 <= n <= |NAMES| then NAMES[n - 1] else OtherName("") }

  function PlainHosted(commit: string, headSha: string, workflowRuns: map<int, WorkflowRun>, placement: seq<nat>): Hosted
    requires |placement| == |NAMES|
  {
    Hosted(workflowRuns, map j | 1 <= j <= |NAMES| :: PlainJob(TableName(j), commit, headSha, placement[j - 1], j),
           [MergedPull(commit, headSha)], [MergedPull(commit, headSha)], [])
  }

  // Every check in a run of its own, so that a workflow with several checks is split.
  function Scattered(): (p: seq<nat>)
    ensures |p| == |NAMES| && forall i :: 0 <= i < |p| ==> p[i] == i + 1
  {
    seq(|NAMES|, i => i + 1)
  }

  function ScatteredHosted(commit: string, headSha: string): Hosted {
    PlainHosted(commit, headSha, map r | 1 <= r <= |NAMES| :: PlainWorkflow(TableName(r), commit, headSha, r), Scattered())
  }

  function PathNumber(path: Path): nat {
    match path
    case ReleaseYml => 1
    case FuzzYml => 2
    case SecurityYml => 3
    case StressYml => 4
    case CiYml => 5
    case DependencyReviewYml => 6
    case G8ClosureYml => 7
    case OtherPath(_) => 8
  }

  // A check of the workflow with a number.
  function NumberedCheck(n: int): CheckName {
    match n
    case 1 => AssembleCandidate
    case 2 => ParserFuzzing
    case 3 => DependencyPolicy
    case 4 => KillRestartSoak
    case 5 => Quality
    case 6 => ReviewDependencies
    case _ => G8Receipts
  }

  // One run for each workflow.
  function ByWorkflow(): (p: seq<nat>)
    ensures |p| == |NAMES| && forall i :: 0 <= i < |p| ==> p[i] == PathNumber(WorkflowOf(NAMES[i]))
  {
    seq(|NAMES|, i requires 0 <= i < |NAMES| => PathNumber(WorkflowOf(NAMES[i])))
  }

  function ByWorkflowHosted(commit: string, headSha: string): Hosted {
    PlainHosted(commit, headSha, map r | 1 <= r <= 7 :: PlainWorkflow(NumberedCheck(r), commit, headSha, r), ByWorkflow())
  }

  lemma NumberedWorkflow(name: CheckName, commit: string, headSha: string, n: nat)
    requires !name.OtherName? && n == PathNumber(WorkflowOf(name))
    ensures 1 <= n <= 7 && PlainWorkflow(NumberedCheck(n), commit, headSha, n) == PlainWorkflow(name, commit, headSha, n)
  {
  }

  lemma TableNames(i: nat)
    requires i < |NAMES|
    ensures !NAMES[i].OtherName?
  {
    TablePositions();
    assert Position(NAMES[i]) == i;
  }

  // A run number longer than any URL about runs and jobs below one hundred.
  function LongNumber(): (s: string)
    ensures |s| == 100 && PositiveDecimal(s)
  {
    seq(100, i => '1')
  }

  lemma ShortNumeral(n: nat)
    requires n < 100
    ensures |Numeral(n)| <= 2
  {
    assert Numeral(n / 10 / 10) == "";
  }

  lemma ShortUrls(placement: seq<nat>)
    requires |placement| <= |NAMES| && forall i :: 0 <= i < |placement| ==> placement[i] < 100
    ensures Outlasts(LongNumber(), placement)
  {
    forall i | 0 <= i < |placement| ensures |UrlText(REPOSITORY, placement[i], i + 1)| < 100 {
      ShortNumeral(placement[i]);
      ShortNumeral(i + 1);
    }
  }

  ghost predicate Drafted(h: Hosted, entries: seq<Entry>, commit: string, excludedRunId: string) {
    Draft(h, NAMES, entries, REPOSITORY, commit, excludedRunId).Ok?
  }

  // With the draft, what the builder accepts.
  ghost predicate SharedSelection(h: Hosted, entries: seq<Entry>, commit: string, excludedRunId: string) {
    Shared(NAMES, Selected(h, NAMES, entries, REPOSITORY, commit, excludedRunId))
  }

  lemma PlacedInTable(h: Hosted, commit: string, headSha: string, placement: seq<nat>, entries: seq<Entry>)
    requires HexCommit(commit) && HexCommit(headSha) && Placed(h, NAMES, commit, headSha, placement)
    requires forall i :: 0 <= i < |placement| ==> placement[i] < 100
    requires entries == Entries(PlainRuns(NAMES, commit, headSha, placement))
    ensures Drafted(h, entries, commit, LongNumber())
    ensures SharedSelection(h, entries, commit, LongNumber()) <==> Together(NAMES, placement)
  {
    TablePositions();
    ShortUrls(placement);
    PlacedIsDrafted(h, NAMES, commit, headSha, placement, LongNumber());
  }

  lemma ScatteredPlaced(h: Hosted, commit: string, headSha: string, placement: seq<nat>)
    requires h == ScatteredHosted(commit, headSha) && placement == Scattered()
    ensures Placed(h, NAMES, commit, headSha, placement)
  {
    forall i | 0 <= i < |NAMES| ensures PlacedAt(h, NAMES, commit, headSha, placement, i) {
      assert TableName(i + 1) == NAMES[i];
    }
  }

  lemma ByWorkflowPlaced(h: Hosted, commit: string, headSha: string, placement: seq<nat>)
    requires h == ByWorkflowHosted(commit, headSha) && placement == ByWorkflow()
    ensures Placed(h, NAMES, commit, headSha, placement) && forall i :: 0 <= i < |placement| ==> placement[i] <= 7
  {
    forall i | 0 <= i < |NAMES| ensures PlacedAt(h, NAMES, commit, headSha, placement, i) && placement[i] <= 7 {
      TableNames(i);
      NumberedWorkflow(NAMES[i], commit, headSha, placement[i]);
      assert TableName(i + 1) == NAMES[i];
    }
  }

  // Both packaging checks for Mac belong to the release workflow.
  lemma ScatteredIsSplit()
    ensures !Together(NAMES, Scattered())
  {
    assert NAMES[5] == PackageMacArm && NAMES[6] == PackageMacIntel;
  }

  /** All twenty checks succeed, each in a run of its own: a report is drafted, and the builder rejects
      it. */
  lemma SplitPathIsDrafted(commit: string, headSha: string, entries: seq<Entry>)
    requires HexCommit(commit) && HexCommit(headSha) && entries == Entries(PlainRuns(NAMES, commit, headSha, Scattered()))
    ensures Drafted(ScatteredHosted(commit, headSha), entries, commit, LongNumber())
    ensures !SharedSelection(ScatteredHosted(commit, headSha), entries, commit, LongNumber())
  {
    var h, placement := ScatteredHosted(commit, headSha), Scattered();
    ScatteredPlaced(h, commit, headSha, placement);
    PlacedInTable(h, commit, headSha, placement, entries);
    ScatteredIsSplit();
  }

  /** All twenty checks succeed in one run of each workflow: a report is drafted, and the builder
      accepts it. */
  lemma WholePathsAreAccepted(commit: string, headSha: string, entries: seq<Entry>)
    requires HexCommit(commit) && HexCommit(headSha) && entries == Entries(PlainRuns(NAMES, commit, headSha, ByWorkflow()))
    ensures Drafted(ByWorkflowHosted(commit, headSha), entries, commit, LongNumber())
    ensures SharedSelection(ByWorkflowHosted(commit, headSha), entries, commit, LongNumber())
  {
    var h, placement := ByWorkflowHosted(commit, headSha), ByWorkflow();
    ByWorkflowPlaced(h, commit, headSha, placement);
    PlacedInTable(h, commit, headSha, placement, entries);
  }

  // The draft depends on the hosted runs through what is selected from them only.
  lemma DraftBySelection(h: Hosted, names: seq<CheckName>, a: seq<Entry>, b: seq<Entry>, repository: string, commit: string, excludedRunId: string)
    requires Selected(h, names, a, repository, commit, excludedRunId) == Selected(h, names, b, repository, commit, excludedRunId)
    ensures Draft(h, names, a, repository, commit, excludedRunId) == Draft(h, names, b, repository, commit, excludedRunId)
  {
  }

  /** The command line selects first and hands the selection to the builder, which selects
      again: the draft is the same. */
  lemma DraftFromSelection(h: Hosted, names: seq<CheckName>, entries: seq<Entry>, repository: string, commit: string, excludedRunId: string)
    requires forall i, j :: 0 <= i < j < |names| ==> names[i] != names[j]
    requires Selected(h, names, entries, repository, commit, excludedRunId).Ok?
    ensures Draft(h, names, Entries(Selected(h, names, entries, repository, commit, excludedRunId).value), repository, commit, excludedRunId)
      == Draft(h, names, entries, repository, commit, excludedRunId)
  {
    var runs := Selected(h, names, entries, repository, commit, excludedRunId).value;
    SelectIsFixpoint(Context(commit, CanonicalPull(h.pulls, repository, commit).value.headSha, excludedRunId), names, entries);
    DraftBySelection(h, names, Entries(runs), entries, repository, commit, excludedRunId);
  }

  // A record shows a newest run that succeeded.
  ghost predicate Shows(c: Context, name: CheckName, entries: seq<Entry>, r: Record, run: CheckRun) {
    && Newest(c, name, entries, run)
    && run.conclusion == "success" && run.id == r.checkRunId && run.completedAt == r.completedAt
  }

  /** No report hides a later run behind an earlier success: each reported check is the newest
      relevant run of its name, and it succeeded. */
  lemma ReportShowsNewestRuns(h: Hosted, names: seq<CheckName>, entries: seq<Entry>, repository: string, commit: string, excludedRunId: string, r: Report)
    returns (runs: seq<CheckRun>)
    requires Draft(h, names, entries, repository, commit, excludedRunId) == Ok(r)
    ensures |r.checks| == |names| == |runs|
    ensures forall i :: 0 <= i < |names| ==>
      Shows(Context(commit, r.pullRequest.headSha, excludedRunId), names[i], entries, r.checks[i], runs[i])
  {
    runs := DraftShape(h, names, entries, repository, commit, excludedRunId, r);
    var c := Context(commit, r.pullRequest.headSha, excludedRunId);
    SelectionIsNewest(c, names, entries);
    ShowsAll(h, c, names, entries, runs, r.pullRequest, commit, r.checks);
  }

  lemma ShowsAll(h: Hosted, c: Context, names: seq<CheckName>, entries: seq<Entry>, runs: seq<CheckRun>, pull: PullRecord, commit: string, checks: seq<Record>)
    requires |runs| == |names| == |checks|
    requires forall i :: 0 <= i < |names| ==> Newest(c, names[i], entries, runs[i])
    requires forall i :: 0 <= i < |names| ==> CanonicalFor(h, REPOSITORY, commit, pull, names[i], runs[i]) == Ok(checks[i])
    ensures forall i :: 0 <= i < |names| ==> Shows(c, names[i], entries, checks[i], runs[i])
  {
    forall i | 0 <= i < |names| ensures Shows(c, names[i], entries, checks[i], runs[i]) {
      CanonicalFits(h, runs[i], names[i], pull, commit, checks[i]);
    }
  }

  // ---- what an accepted report means ----

  // The place of the guarded check of each pull-request workflow.
  function GuardPosition(path: Path): nat {
    match path
    case ReleaseYml => 0
    case FuzzYml => 1
    case SecurityYml => 2
    case StressYml => 3
    case CiYml => 10
    case DependencyReviewYml => 14
    case _ => 20
  }

  lemma GuardTable(i: nat)
    requires i < |NAMES|
    ensures EventOf(NAMES[i]) == PullRequest ==>
      var g := GuardPosition(WorkflowOf(NAMES[i]));
      g < |NAMES| && Guarded(NAMES[g]) && WorkflowOf(NAMES[g]) == WorkflowOf(NAMES[i])
    ensures Guarded(NAMES[i]) ==> GuardPosition(WorkflowOf(NAMES[i])) == i
  {
    TablePositions();
    var name := NAMES[i];
    assert Position(name) == i;
  }

  // Record `k` is the guarded check of the run, and no other record is.
  ghost predicate OnlyGuard(checks: seq<Record>, k: nat, runId: Id) {
    && k < |checks| && checks[k].workflowRunId == runId && checks[k].guard.Guard?
    && forall j :: 0 <= j < |checks| && checks[j].workflowRunId == runId && checks[j].guard.Guard? ==> j == k
  }

  lemma GuardOfRun(r: Report, commit: string, i: nat) returns (g: nat)
    requires ValidReport(r, NAMES, commit) && i < |r.checks| && r.checks[i].workflowEvent == PullRequest
    ensures OnlyGuard(r.checks, g, r.checks[i].workflowRunId)
  {
    GuardTable(i);
    g := GuardPosition(WorkflowOf(NAMES[i]));
    assert FitRecord(r.checks[i], NAMES[i], r.pullRequest, commit) && FitRecord(r.checks[g], NAMES[g], r.pullRequest, commit);
    var runId := r.checks[i].workflowRunId;
    forall k | 0 <= k < |r.checks| && r.checks[k].workflowRunId == runId && r.checks[k].guard.Guard? ensures k == g {
      assert FitRecord(r.checks[k], NAMES[k], r.pullRequest, commit);
      GuardTable(k);
    }
  }

  lemma CoherentPair(checks: seq<Record>, i: nat, j: nat)
    requires Coherent(checks) && i < |checks| && j < |checks|
    ensures checks[i].workflowPath == checks[j].workflowPath <==> checks[i].workflowRunId == checks[j].workflowRunId
    ensures checks[i].workflowRunId == checks[j].workflowRunId ==> checks[i].attempt == checks[j].attempt
    ensures i < j ==> checks[i].checkRunId != checks[j].checkRunId
  {
    if i < j { assert Compatible(checks[i], checks[j]); }
    if j < i { assert Compatible(checks[j], checks[i]); }
  }

  /** An accepted report pairs workflow paths with run identities one to one, gives one attempt
      per run, repeats no check, and gives every pull-request run exactly one guarded check. */
  lemma AcceptedReport(r: Report, commit: string)
    requires ValidReport(r, NAMES, commit)
    ensures forall i, j :: 0 <= i < |r.checks| && 0 <= j < |r.checks| ==>
      (r.checks[i].workflowPath == r.checks[j].workflowPath <==> r.checks[i].workflowRunId == r.checks[j].workflowRunId)
    ensures forall i, j :: 0 <= i < |r.checks| && 0 <= j < |r.checks| && r.checks[i].workflowRunId == r.checks[j].workflowRunId ==>
      r.checks[i].attempt == r.checks[j].attempt
    ensures forall i, j :: 0 <= i < j < |r.checks| ==> r.checks[i].checkRunId != r.checks[j].checkRunId
    ensures forall i :: 0 <= i < |r.checks| && r.checks[i].workflowEvent == PullRequest ==>
      exists g :: OnlyGuard(r.checks, g, r.checks[i].workflowRunId)
  {
    forall i | 0 <= i < |r.checks| && r.checks[i].workflowEvent == PullRequest
      ensures exists g :: OnlyGuard(r.checks, g, r.checks[i].workflowRunId)
    {
      var g := GuardOfRun(r, commit, i);
    }
    forall i, j | 0 <= i < |r.checks| && 0 <= j < |r.checks|
      ensures r.checks[i].workflowPath == r.checks[j].workflowPath <==> r.checks[i].workflowRunId == r.checks[j].workflowRunId
      ensures r.checks[i].workflowRunId == r.checks[j].workflowRunId ==> r.checks[i].attempt == r.checks[j].attempt
      ensures i < j ==> r.checks[i].checkRunId != r.checks[j].checkRunId
    {
      CoherentPair(r.checks, i, j);
    }
  }
}
