/**
  What a drafted report means, said of GitHub's answers only: which run is selected, what stands behind
  every record, and when a report is drafted at all.
*/
module ReportMeaning {
  import opened CheckReport
  import opened RequiredChecks
  import opened Results
  import opened Sorting

  // ---- the table ----

  const PATHS := [
    ReleaseYml, FuzzYml, SecurityYml, StressYml, CiYml, ReleaseYml, ReleaseYml, ReleaseYml, ReleaseYml, CiYml,
    CiYml, CiYml, CiYml, CiYml, DependencyReviewYml, CiYml, CiYml, CiYml, CiYml, G8ClosureYml]

  /** The table's workflows and guarded checks, row by row. */
  lemma TableRows(i: nat)
    requires i < |NAMES|
    ensures WorkflowOf(NAMES[i]) == PATHS[i] && (Guarded(NAMES[i]) <==> i in {0, 1, 2, 3, 10, 14})
  {
    TablePositions();
    assert Position(NAMES[i]) == i;
  }

  /** Only the last check is dispatched and bound to the merge commit; the others run on the head of
      the pull request. */
  lemma TableBindings(name: CheckName, commit: string, headSha: string, headRef: string)
    ensures name != G8Receipts ==>
      EventOf(name) == PullRequest && ExpectedCommit(name, commit, headSha) == headSha && ExpectedBranch(name, headRef) == headRef
    ensures name == G8Receipts ==>
      && EventOf(name) == WorkflowDispatch && ExpectedCommit(name, commit, headSha) == commit
      && ExpectedBranch(name, headRef) == "release/" + headRef + "-merge-evidence"
  {
  }

  // ---- selection, both ways ----

  ghost predicate Occurs(text: string, fragment: string, i: nat) { i + |fragment| <= |text| && text[i..i + |fragment|] == fragment }

  lemma {:induction false} ContainsIff(text: string, fragment: string)
    ensures Contains(text, fragment) <==> exists i: nat :: Occurs(text, fragment, i)
  {
    if fragment <= text {
      assert Occurs(text, fragment, 0);
    } else if text != [] {
      ContainsIff(text[1..], fragment);
      if i: nat :| Occurs(text[1..], fragment, i) { assert text[1..][i..i + |fragment|] == text[i + 1..i + 1 + |fragment|] && Occurs(text, fragment, i + 1); }
      if i: nat :| Occurs(text, fragment, i) {
        assert i > 0 && text[1..][i - 1..i - 1 + |fragment|] == text[i..i + |fragment|];
        assert Occurs(text[1..], fragment, i - 1);
      }
    }
  }

  /** A check run by GitHub Actions of that name, on the commit the name is bound to, that does not
      belong to the workflow run that drafts the report. */
  ghost predicate Candidate(c: Context, name: CheckName, e: Entry) {
    && e.Object? && e.run.name == name && e.run.headSha == (if name == G8Receipts then c.commit else c.headCommit)
    && e.run.app == App(IntId(15368), "github-actions") && e.run.id.IntId?
    && !exists i: nat :: Occurs(Rendering(e.run.detailsUrl), "/actions/runs/" + c.excludedRunId + "/", i)
  }

  ghost predicate Finished(run: CheckRun) {
    run.status == "completed" && run.startedAt.Instant? && run.completedAt.Instant? && run.startedAt.seconds <= run.completedAt.seconds
  }

  // Every other candidate finished, and earlier.
  ghost predicate Outruns(c: Context, name: CheckName, entries: seq<Entry>, run: CheckRun, i: nat) {
    && i < |entries| && entries[i] == Object(run) && Candidate(c, name, entries[i]) && Finished(run)
    && forall j :: 0 <= j < |entries| && j != i && Candidate(c, name, entries[j]) ==>
         Finished(entries[j].run) && entries[j].run.completedAt.seconds < run.completedAt.seconds
  }

  lemma CandidateIff(c: Context, name: CheckName, e: Entry)
    ensures Relevant(c, name, e) <==> Candidate(c, name, e)
  {
    if e.Object? { ContainsIff(Rendering(e.run.detailsUrl), "/actions/runs/" + c.excludedRunId + "/"); }
  }

  lemma OutrunsIff(c: Context, name: CheckName, entries: seq<Entry>, run: CheckRun, i: nat)
    requires run.completedAt.Instant?
    ensures Relevant(c, name, Object(run)) && Timed(run) && NewestAt(c, name, entries, run, i) <==> Outruns(c, name, entries, run, i)
  {
    CandidateIff(c, name, Object(run));
    forall j | 0 <= j < |entries| ensures Relevant(c, name, entries[j]) <==> Candidate(c, name, entries[j]) {
      CandidateIff(c, name, entries[j]);
    }
  }

  lemma NewestIff(c: Context, name: CheckName, entries: seq<Entry>, run: CheckRun)
    ensures Newest(c, name, entries, run) <==> IsNewest(c, name, entries, run)
  {
    if Newest(c, name, entries, run) {
      var i: nat :| NewestAt(c, name, entries, run, i);
      OutrunsIff(c, name, entries, run, i);
    }
    if i: nat :| Outruns(c, name, entries, run, i) {
      OutrunsIff(c, name, entries, run, i);
    }
  }

  ghost predicate IsNewest(c: Context, name: CheckName, entries: seq<Entry>, run: CheckRun) { exists i: nat :: Outruns(c, name, entries, run, i) }

  lemma LatestIs(entries: seq<Entry>, t: int)
    requires entries != [] && (forall e :: e in entries ==> Seconds(e) <= t) && exists e :: e in entries && Seconds(e) == t
    ensures Latest(entries) == t
  {
  }

  lemma NewestBoundsAll(c: Context, name: CheckName, entries: seq<Entry>, run: CheckRun, i: nat, e: Entry)
    requires Timed(run) && NewestAt(c, name, entries, run, i) && e in Filter(RelevantTo(c, name), entries)
    ensures TimedEntry(e) && Seconds(e) <= run.completedAt.seconds
  {
    var j :| 0 <= j < |entries| && entries[j] == e;
  }

  lemma NewestIsSelected(c: Context, name: CheckName, entries: seq<Entry>, run: CheckRun)
    requires Newest(c, name, entries, run)
    ensures SelectOne(c, name, entries) == Ok(run)
  {
    var i: nat :| NewestAt(c, name, entries, run, i);
    var relevant, t := Filter(RelevantTo(c, name), entries), run.completedAt.seconds;
    assert Object(run) in relevant && Seconds(Object(run)) == t;
    forall e | e in relevant ensures TimedEntry(e) && Seconds(e) <= t {
      NewestBoundsAll(c, name, entries, run, i, e);
    }
    LatestIs(relevant, t);
    FilterTwice(c, name, t, entries);
    FilterSingle(RelevantAt(c, name, t), entries, i);
  }

  /** Exactly the one newest candidate of every name is selected. */
  lemma SelectIff(c: Context, names: seq<CheckName>, entries: seq<Entry>, runs: seq<CheckRun>)
    ensures Select(c, names, entries) == Ok(runs) <==>
      ValidContext(c) && |runs| == |names| && forall i :: 0 <= i < |names| ==> IsNewest(c, names[i], entries, runs[i])
  {
    if Select(c, names, entries) == Ok(runs) {
      SelectionIsNewest(c, names, entries);
      forall i | 0 <= i < |names| ensures IsNewest(c, names[i], entries, runs[i]) {
        NewestIff(c, names[i], entries, runs[i]);
      }
    }
    if ValidContext(c) && |runs| == |names| && forall i :: 0 <= i < |names| ==> IsNewest(c, names[i], entries, runs[i]) {
      var results := Selections(c, names, entries);
      forall i | 0 <= i < |names| ensures results[i] == Ok(runs[i]) {
        assert IsNewest(c, names[i], entries, runs[i]);
        NewestIff(c, names[i], entries, runs[i]);
        NewestIsSelected(c, names[i], entries, runs[i]);
      }
      CollectValues(results, runs);
    }
  }

  // ---- the pull request ----

  // One merged pull request of this repository into main, with this merge commit.
  ghost predicate Merged(pulls: seq<Pull>, commit: string, p: PullRecord) {
    && |pulls| == 1 && pulls[0].Pull?
    && pulls[0] == Pull(p.number, "closed", Repo(REPOSITORY), Repo(REPOSITORY), p.headRef, p.headSha, "main", p.baseSha, commit, p.mergedAt)
    && p.number.IntId? && p.number.n >= 1 && HeadRef(p.headRef) && HexCommit(p.headSha) && HexCommit(p.baseSha) && HexCommit(commit)
    && p.mergedAt.Instant? && p.baseRef == "main" && p.mergeCommitSha == commit && p.baseRefHistory == "unchanged"
  }

  lemma PullIff(pulls: seq<Pull>, commit: string, p: PullRecord)
    ensures CanonicalPull(pulls, REPOSITORY, commit) == Ok(p) <==> Merged(pulls, commit, p)
  {
  }

  // ---- what stands behind a record ----

  ghost predicate Positive(id: Id) { id.IntId? && id.n >= 1 }

  /** GitHub's workflow run: finished and successful, of the check's workflow, event, commit and branch,
      in this repository. */
  ghost predicate RunSucceeded(w: WorkflowRun, runId: nat, name: CheckName, commit: string, branch: string) {
    w.WorkflowRun? && Positive(w.attempt) && w == WorkflowRun(
      IntId(runId), WorkflowOf(name), commit, "completed", "success", EventOf(name), branch, Repo(REPOSITORY), Repo(REPOSITORY), w.attempt)
  }

  /** Its job: finished and successful in that run and attempt. */
  ghost predicate JobSucceeded(j: JobRun, jobId: nat, runId: nat, name: CheckName, commit: string, attempt: Id) {
    j.JobRun? && j == JobRun(IntId(jobId), IntId(runId), name, commit, "completed", "success", attempt, j.steps)
  }

  ghost predicate IsGuardStep(s: Step) { s.Step? && s.name == "Verify the pull-request integration tree" }

  // Exactly one step is the integration guard, and it succeeded.
  ghost predicate GuardSucceeded(steps: Steps, k: nat) {
    && steps.StepList? && k < |steps.items| && IsGuardStep(steps.items[k])
    && Positive(steps.items[k].number) && steps.items[k].status == "completed" && steps.items[k].conclusion == "success"
    && forall i :: 0 <= i < |steps.items| && i != k ==> !IsGuardStep(steps.items[i])
  }

  ghost predicate GuardShown(guard: Guard, steps: Steps, guarded: bool) {
    if guarded then
      exists k: nat :: GuardSucceeded(steps, k) && guard == Guard("Verify the pull-request integration tree", steps.items[k].number, "completed", "success")
    else guard == NoGuard
  }

  /** The selected run is a successful check of the commit by GitHub Actions, under its own job URL. */
  ghost predicate CheckSucceeded(run: CheckRun, runId: nat, jobId: nat, name: CheckName, commit: string) {
    && runId >= 1 && jobId >= 1 && run.htmlUrl == Text(UrlText(REPOSITORY, runId, jobId))
    && run == CheckRun(name, commit, App(IntId(15368), "github-actions"), IntId(jobId), run.htmlUrl, run.htmlUrl, "completed", "success",
                       run.startedAt, run.completedAt)
    && run.startedAt.Instant? && run.completedAt.Instant? && run.startedAt.seconds <= run.completedAt.seconds
  }

  ghost predicate Backed(h: Hosted, name: CheckName, run: CheckRun, commit: string, branch: string, r: Record, runId: nat, jobId: nat) {
    && CheckSucceeded(run, runId, jobId, name, commit)
    && runId in h.workflowRuns && RunSucceeded(h.workflowRuns[runId], runId, name, commit, branch)
    && jobId in h.jobRuns && JobSucceeded(h.jobRuns[jobId], jobId, runId, name, commit, h.workflowRuns[runId].attempt)
    && GuardShown(r.guard, h.jobRuns[jobId].steps, Guarded(name))
    && r == Record(name, IntId(jobId), IntId(runId), WorkflowOf(name), EventOf(name), h.workflowRuns[runId].attempt, branch,
                   run.htmlUrl, App(IntId(15368), "github-actions"), commit, "completed", "success", run.startedAt, run.completedAt, r.guard)
  }

  lemma {:induction false} NoGuardSteps(steps: seq<Step>)
    requires forall i :: 0 <= i < |steps| ==> !IsGuardStep(steps[i])
    ensures GuardSteps(steps) == []
  {
    if steps != [] { NoGuardSteps(steps[..|steps| - 1]); }
  }

  lemma {:induction false} OneGuardStep(steps: seq<Step>, k: nat)
    requires k < |steps| && IsGuardStep(steps[k]) && forall i :: 0 <= i < |steps| && i != k ==> !IsGuardStep(steps[i])
    ensures GuardSteps(steps) == [steps[k]]
  {
    var n := |steps| - 1;
    if k < n { OneGuardStep(steps[..n], k); } else { NoGuardSteps(steps[..n]); }
  }

  lemma {:induction false} GuardStepAt(steps: seq<Step>) returns (k: nat)
    requires |GuardSteps(steps)| == 1
    ensures k < |steps| && IsGuardStep(steps[k]) && GuardSteps(steps) == [steps[k]]
    ensures forall i :: 0 <= i < |steps| && i != k ==> !IsGuardStep(steps[i])
  {
    var n := |steps| - 1;
    if GuardStep(steps[n]) {
      k := n;
      NoneBefore(steps[..n]);
    } else {
      k := GuardStepAt(steps[..n]);
    }
  }

  lemma {:induction false} NoneBefore(steps: seq<Step>)
    requires GuardSteps(steps) == []
    ensures forall i :: 0 <= i < |steps| ==> !IsGuardStep(steps[i])
  {
    if steps != [] { NoneBefore(steps[..|steps| - 1]); }
  }

  lemma GuardIff(job: JobRun, guard: Guard)
    requires job.JobRun?
    ensures GuardOf(job) == Ok(guard) <==> GuardShown(guard, job.steps, true)
  {
    if GuardOf(job) == Ok(guard) {
      var k := GuardStepAt(job.steps.items);
      assert GuardSucceeded(job.steps, k);
    }
    if GuardShown(guard, job.steps, true) {
      var k: nat :| GuardSucceeded(job.steps, k) && guard == Guard("Verify the pull-request integration tree", job.steps.items[k].number, "completed", "success");
      OneGuardStep(job.steps.items, k);
    }
  }

  lemma WorkflowIff(w: WorkflowRun, runId: nat, name: CheckName, commit: string, branch: string)
    ensures FitWorkflow(w, runId, REPOSITORY, commit, branch, name) <==> RunSucceeded(w, runId, name, commit, branch)
  {
  }

  lemma JobIff(j: JobRun, jobId: nat, runId: nat, name: CheckName, commit: string, attempt: Id)
    requires Positive(attempt)
    ensures FitJob(j, jobId, runId, attempt, name, commit) <==> JobSucceeded(j, jobId, runId, name, commit, attempt)
  {
  }

  lemma IdentityIff(url: Url, jobId: nat, runId: nat)
    requires jobId >= 1
    ensures UrlIdentity(REPOSITORY, url, jobId) == Ok(runId) <==> runId >= 1 && url == Text(UrlText(REPOSITORY, runId, jobId))
  {
    if url.Text? {
      ParseJobUrlIff(REPOSITORY, url.text, runId, jobId);
    }
  }

  /** A record is drafted exactly when successful answers stand behind every field of it. */
  lemma CanonicalIff(h: Hosted, name: CheckName, run: CheckRun, commit: string, branch: string, r: Record)
    ensures CanonicalCheck(h, REPOSITORY, run, commit, branch, name) == Ok(r) <==>
      exists runId: nat, jobId: nat :: Backed(h, name, run, commit, branch, r, runId, jobId)
  {
    if CanonicalCheck(h, REPOSITORY, run, commit, branch, name) == Ok(r) {
      CanonicalIsBacked(h, name, run, commit, branch, r);
    }
    if runId: nat, jobId: nat :| Backed(h, name, run, commit, branch, r, runId, jobId) {
      BackedIsCanonical(h, name, run, commit, branch, r, runId, jobId);
    }
  }

  lemma CanonicalIsBacked(h: Hosted, name: CheckName, run: CheckRun, commit: string, branch: string, r: Record)
    requires CanonicalCheck(h, REPOSITORY, run, commit, branch, name) == Ok(r)
    ensures exists runId: nat, jobId: nat :: Backed(h, name, run, commit, branch, r, runId, jobId)
  {
    var jobId := run.id.n;
    var runId := UrlIdentity(REPOSITORY, run.htmlUrl, jobId).value;
    IdentityIff(run.htmlUrl, jobId, runId);
    var w, job := h.workflowRuns[runId], h.jobRuns[jobId];
    WorkflowIff(w, runId, name, commit, branch);
    JobIff(job, jobId, runId, name, commit, w.attempt);
    GuardIff(job, r.guard);
    assert Backed(h, name, run, commit, branch, r, runId, jobId);
  }

  lemma BackedIsCanonical(h: Hosted, name: CheckName, run: CheckRun, commit: string, branch: string, r: Record, runId: nat, jobId: nat)
    requires Backed(h, name, run, commit, branch, r, runId, jobId)
    ensures CanonicalCheck(h, REPOSITORY, run, commit, branch, name) == Ok(r)
  {
    IdentityIff(run.htmlUrl, jobId, runId);
    var w, job := h.workflowRuns[runId], h.jobRuns[jobId];
    WorkflowIff(w, runId, name, commit, branch);
    JobIff(job, jobId, runId, name, commit, w.attempt);
    GuardIff(job, r.guard);
  }

  // ---- the draft ----

  ghost predicate BackedFor(h: Hosted, name: CheckName, run: CheckRun, commit: string, p: PullRecord, r: Record) {
    exists runId: nat, jobId: nat :: Backed(h, name, run, ExpectedCommit(name, commit, p.headSha), ExpectedBranch(name, p.headRef), r, runId, jobId)
  }

  ghost predicate BaseUnmoved(events: seq<IssueEvent>) {
    forall i :: 0 <= i < |events| ==>
      events[i].IssueEvent? && events[i].event != "automatic_base_change_succeeded" && events[i].event != "base_ref_changed"
  }

  /** The report's header, its pull request, and for every name its newest run with what stands behind
      it. */
  ghost predicate Drafts(h: Hosted, names: seq<CheckName>, entries: seq<Entry>, commit: string, excludedRunId: string, report: Report, runs: seq<CheckRun>) {
    var p := report.pullRequest;
    && report.schema == "required-checks-report-v1" && report.schemaVersion == 1 && report.repository == REPOSITORY && report.headSha == commit
    && Merged(h.pulls, commit, p) && Merged(h.headPulls, commit, p) && BaseUnmoved(h.events) && PositiveDecimal(excludedRunId)
    && |report.checks| == |runs| == |names|
    && (forall i :: 0 <= i < |names| ==> IsNewest(Context(commit, p.headSha, excludedRunId), names[i], entries, runs[i]))
    && (forall i :: 0 <= i < |names| ==> BackedFor(h, names[i], runs[i], commit, p, report.checks[i]))
  }

  lemma CollectedIff(h: Hosted, names: seq<CheckName>, runs: seq<CheckRun>, commit: string, p: PullRecord, checks: seq<Record>)
    requires |runs| == |names|
    ensures Collect(Canonicals(h, REPOSITORY, commit, p, names, runs)) == Ok(checks) <==>
      |checks| == |names| && forall i :: 0 <= i < |names| ==> BackedFor(h, names[i], runs[i], commit, p, checks[i])
  {
    var results := Canonicals(h, REPOSITORY, commit, p, names, runs);
    if Collect(results) == Ok(checks) {
      CollectAll(results);
      forall i | 0 <= i < |names| ensures BackedFor(h, names[i], runs[i], commit, p, checks[i]) {
        CanonicalIff(h, names[i], runs[i], ExpectedCommit(names[i], commit, p.headSha), ExpectedBranch(names[i], p.headRef), checks[i]);
      }
    }
    if |checks| == |names| && forall i :: 0 <= i < |names| ==> BackedFor(h, names[i], runs[i], commit, p, checks[i]) {
      forall i | 0 <= i < |names| ensures results[i] == Ok(checks[i]) {
        CanonicalIff(h, names[i], runs[i], ExpectedCommit(names[i], commit, p.headSha), ExpectedBranch(names[i], p.headRef), checks[i]);
      }
      CollectValues(results, checks);
    }
  }

  lemma BaseIff(events: seq<IssueEvent>)
    ensures StableBase(events) <==> BaseUnmoved(events)
  {
  }

  /** When a report is drafted, and which: over GitHub's answers alone. */
  lemma DraftIff(h: Hosted, names: seq<CheckName>, entries: seq<Entry>, repository: string, commit: string, excludedRunId: string, report: Report)
    ensures Draft(h, names, entries, repository, commit, excludedRunId) == Ok(report) <==>
      repository == REPOSITORY && exists runs :: Drafts(h, names, entries, commit, excludedRunId, report, runs)
  {
    if Draft(h, names, entries, repository, commit, excludedRunId) == Ok(report) {
      DraftedMeans(h, names, entries, commit, excludedRunId, report);
    }
    if runs :| repository == REPOSITORY && Drafts(h, names, entries, commit, excludedRunId, report, runs) {
      MeaningIsDrafted(h, names, entries, commit, excludedRunId, report, runs);
    }
  }

  lemma DraftedMeans(h: Hosted, names: seq<CheckName>, entries: seq<Entry>, commit: string, excludedRunId: string, report: Report)
    requires Draft(h, names, entries, REPOSITORY, commit, excludedRunId) == Ok(report)
    ensures exists runs :: Drafts(h, names, entries, commit, excludedRunId, report, runs)
  {
    var p := report.pullRequest;
    PullIff(h.pulls, commit, p);
    PullIff(h.headPulls, commit, p);
    BaseIff(h.events);
    var runs := Select(Context(commit, p.headSha, excludedRunId), names, entries).value;
    SelectIff(Context(commit, p.headSha, excludedRunId), names, entries, runs);
    CollectedIff(h, names, runs, commit, p, report.checks);
    assert Drafts(h, names, entries, commit, excludedRunId, report, runs);
  }

  lemma MeaningIsDrafted(h: Hosted, names: seq<CheckName>, entries: seq<Entry>, commit: string, excludedRunId: string, report: Report, runs: seq<CheckRun>)
    requires Drafts(h, names, entries, commit, excludedRunId, report, runs)
    ensures Draft(h, names, entries, REPOSITORY, commit, excludedRunId) == Ok(report)
  {
    var p := report.pullRequest;
    PullIff(h.pulls, commit, p);
    PullIff(h.headPulls, commit, p);
    BaseIff(h.events);
    SelectIff(Context(commit, p.headSha, excludedRunId), names, entries, runs);
    CollectedIff(h, names, runs, commit, p, report.checks);
  }
}
