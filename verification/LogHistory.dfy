/**
  Any number of lives of the log: transactions, checkpoints and outcomes are logged, and every so
  often the engine stops with only the first records kept, recovers them, and closes the transaction
  that was cut.
*/
module LogHistory {
  import opened Results
  import opened WalBlock
  import opened WalRecovery
  import opened WalTransaction

  /** A transaction with the places its records got; a maintenance record; or a stop that keeps the
      first records and a start that writes the closing record if one is needed. */
  datatype Event = Logged(plan: Plan, placed: seq<Record>) | Maintained(record: Record) | Restarted(kept: nat, closing: Record)

  /** The log, the transactions that count as committed, and where in the log each of them ends. */
  datatype Store = Store(log: seq<Record>, committed: seq<Plan>, ends: seq<nat>)

  const NEW := Store([], [], [])

  ghost predicate AllBefore(plans: seq<Plan>, csn: nat) { forall i :: 0 <= i < |plans| ==> plans[i].csn < csn }

  ghost predicate Transactional(k: Kind) { k == Kind.Begin || k == Kind.Mutation || k == Kind.Commit || k == Kind.Abort }

  ghost function Recovered(x: Bodies, log: seq<Record>): Option<State> { RunFrom(StepperOf(x), EMPTY, log) }

  ghost predicate Maintains(x: Bodies, s: State, r: Record) {
    !Transactional(r.kind) && r.engine == Kernel && r.flags == 0 && x.maintains(s.commits, s.maintenance, r)
  }

  ghost predicate Allowed(x: Bodies, a: Store, event: Event) {
    match event
    case Logged(p, placed) => Sound(x, p) && AllBefore(a.committed, p.csn) && Unplaced(placed) == Written(x, p)
    case Maintained(r) => Recovered(x, a.log).Some? ==> Maintains(x, Recovered(x, a.log).value, r)
    case Restarted(n, c) =>
      n <= |a.log| &&
      (Recovered(x, a.log[..n]).Some? && Recovered(x, a.log[..n]).value.active.Some? ==>
        PendingOf(c) == AbortRecord(Recovered(x, a.log[..n]).value.active.value.id))
  }

  /** No value is a log that recovery refused, or from which it made up transactions. */
  ghost function After(x: Bodies, a: Store, event: Event): Option<Store>
    requires Allowed(x, a, event)
  {
    match event
    case Logged(p, placed) => Some(Store(a.log + placed, a.committed + [p], a.ends + [|a.log + placed|]))
    case Maintained(r) => Some(a.(log := a.log + [r]))
    case Restarted(n, c) =>
      var r := Recovered(x, a.log[..n]);
      if r.None? || |r.value.commits| > |a.committed| || |r.value.commits| > |a.ends| then None
      else
        var k := |r.value.commits|;
        Some(Store(a.log[..n] + (if r.value.active.Some? then [c] else []), a.committed[..k], a.ends[..k]))
  }

  ghost predicate AllowedAll(x: Bodies, events: seq<Event>)
    decreases |events|, 0
  {
    events == [] ||
    (var init := events[..|events| - 1];
     AllowedAll(x, init) && (Run(x, init).Some? ==> Allowed(x, Run(x, init).value, events[|events| - 1])))
  }

  ghost function Run(x: Bodies, events: seq<Event>): Option<Store>
    requires AllowedAll(x, events)
    decreases |events|, 1
  {
    if events == [] then Some(NEW)
    else
      var before := Run(x, events[..|events| - 1]);
      if before.None? then None else After(x, before.value, events[|events| - 1])
  }

  // ---- what every store satisfies ----

  ghost predicate ShowsAll(x: Bodies, plans: seq<Plan>, commits: seq<Committed>) {
    |commits| == |plans| && forall i :: 0 <= i < |plans| ==> Shows(x, plans[i], commits[i])
  }

  // The log up to the place holds the first i + 1 commit records, and one record less only i of them.
  ghost predicate EndsAt(log: seq<Record>, i: nat, end: nat) {
    0 < end <= |log| && |CommitRecords(log[..end])| == i + 1 && |CommitRecords(log[..end - 1])| == i
  }

  ghost predicate Ended(log: seq<Record>, ends: seq<nat>) { forall i :: 0 <= i < |ends| ==> EndsAt(log, i, ends[i]) }

  ghost predicate Holds(x: Bodies, a: Store) {
    && Recovered(x, a.log).Some? && Recovered(x, a.log).value.active.None? && ShowsAll(x, a.committed, Recovered(x, a.log).value.commits)
    && |a.ends| == |a.committed| && Ended(a.log, a.ends)
  }

  lemma {:induction false} EndedStays(log: seq<Record>, more: seq<Record>, ends: seq<nat>)
    requires Ended(log, ends)
    ensures Ended(log + more, ends)
  {
    forall i | 0 <= i < |ends| ensures EndsAt(log + more, i, ends[i]) {
      assert EndsAt(log, i, ends[i]);
      assert (log + more)[..ends[i]] == log[..ends[i]] && (log + more)[..ends[i] - 1] == log[..ends[i] - 1];
    }
  }

  lemma CountedCommits(x: Bodies, log: seq<Record>)
    requires Recovered(x, log).Some?
    ensures |CommitRecords(log)| == |Recovered(x, log).value.commits|
  {
    CommitsAreNamed(x, log);
  }

  lemma ShowsGrown(x: Bodies, plans: seq<Plan>, commits: seq<Committed>, p: Plan, c: Committed)
    requires ShowsAll(x, plans, commits) && Shows(x, p, c)
    ensures ShowsAll(x, plans + [p], commits + [c])
  {
  }

  lemma LaterThanAll(x: Bodies, plans: seq<Plan>, commits: seq<Committed>, csn: nat)
    requires ShowsAll(x, plans, commits) && AllBefore(plans, csn)
    ensures Later(commits, csn)
  {
    if commits != [] { assert Shows(x, plans[|plans| - 1], commits[|plans| - 1]); }
  }

  // ---- one event ----

  lemma LoggedEnds(x: Bodies, log: seq<Record>, placed: seq<Record>, p: Plan)
    requires Sound(x, p) && Unplaced(placed) == Written(x, p) && Recovered(x, log).Some? && Recovered(x, log).value.active.None?
    requires Later(Recovered(x, log).value.commits, p.csn)
    ensures EndsAt(log + placed, |Recovered(x, log).value.commits|, |log + placed|)
  {
    var s, all, n := Recovered(x, log).value, log + placed, |p.mutations| + 1;
    RunConcat(StepperOf(x), EMPTY, log, placed);
    ReadWhole(x, p, s, placed);
    CountedCommits(x, all);
    assert Unplaced(placed[..n]) == Written(x, p)[..n];
    RunConcat(StepperOf(x), EMPTY, log, placed[..n]);
    ReadPart(x, p, s, placed[..n], n);
    assert all[..|all| - 1] == log + placed[..n] && all[..|all|] == all;
    CountedCommits(x, log + placed[..n]);
  }

  lemma LoggedRecovers(x: Bodies, log: seq<Record>, placed: seq<Record>, plans: seq<Plan>, p: Plan)
    requires Sound(x, p) && Unplaced(placed) == Written(x, p) && Recovered(x, log).Some? && Recovered(x, log).value.active.None?
    requires Later(Recovered(x, log).value.commits, p.csn) && ShowsAll(x, plans, Recovered(x, log).value.commits)
    ensures Recovered(x, log + placed).Some? && Recovered(x, log + placed).value.active.None?
    ensures ShowsAll(x, plans + [p], Recovered(x, log + placed).value.commits)
  {
    var s := Recovered(x, log).value;
    RunConcat(StepperOf(x), EMPTY, log, placed);
    ReadWhole(x, p, s, placed);
    var c := Committed(p.id, placed[|placed| - 1].lsn, p.durability, ManifestOf(x, p), p.mutations);
    ShowsGrown(x, plans, s.commits, p, c);
  }

  lemma EndedSnoc(log: seq<Record>, ends: seq<nat>, end: nat)
    requires Ended(log, ends) && EndsAt(log, |ends|, end)
    ensures Ended(log, ends + [end])
  {
  }

  lemma LoggedHolds(x: Bodies, a: Store, p: Plan, placed: seq<Record>)
    requires Holds(x, a) && Allowed(x, a, Logged(p, placed))
    ensures Holds(x, After(x, a, Logged(p, placed)).value)
  {
    LaterThanAll(x, a.committed, Recovered(x, a.log).value.commits, p.csn);
    LoggedRecovers(x, a.log, placed, a.committed, p);
    LoggedEnds(x, a.log, placed, p);
    EndedStays(a.log, placed, a.ends);
    EndedSnoc(a.log + placed, a.ends, |a.log + placed|);
  }

  lemma MaintainedHolds(x: Bodies, a: Store, r: Record)
    requires Holds(x, a) && Allowed(x, a, Maintained(r))
    ensures Holds(x, a.(log := a.log + [r]))
  {
    var all := a.log + [r];
    assert all[..|all| - 1] == a.log;
    EndedStays(a.log, [r], a.ends);
  }

  // A commit record lies in the first n records exactly when its place does.
  lemma KeptIff(log: seq<Record>, i: nat, end: nat, n: nat)
    requires EndsAt(log, i, end) && n <= |log|
    ensures i < |CommitRecords(log[..n])| <==> end <= n
  {
    if end <= n {
      CommitRecordsPrefix(log[..n], end);
      assert log[..n][..end] == log[..end];
    } else {
      CommitRecordsPrefix(log[..end - 1], n);
      assert log[..end - 1][..n] == log[..n];
    }
  }

  lemma {:induction false} CutEnds(log: seq<Record>, ends: seq<nat>, n: nat, k: nat)
    requires Ended(log, ends) && n <= |log| && k == |CommitRecords(log[..n])| <= |ends|
    ensures Ended(log[..n], ends[..k])
  {
    forall i | 0 <= i < k ensures EndsAt(log[..n], i, ends[..k][i]) {
      assert EndsAt(log, i, ends[i]);
      KeptIff(log, i, ends[i], n);
      assert log[..n][..ends[i]] == log[..ends[i]] && log[..n][..ends[i] - 1] == log[..ends[i] - 1];
    }
  }

  lemma RestartedHolds(x: Bodies, a: Store, n: nat, c: Record)
    requires Holds(x, a) && Allowed(x, a, Restarted(n, c))
    ensures After(x, a, Restarted(n, c)).Some? && Holds(x, After(x, a, Restarted(n, c)).value)
  {
    PrefixRecovers(x, a.log, n);
    var kept, r := a.log[..n], Recovered(x, a.log[..n]).value;
    var k := |r.commits|;
    CountedCommits(x, kept);
    CutEnds(a.log, a.ends, n, k);
    assert ShowsAll(x, a.committed[..k], r.commits);
    if r.active.Some? {
      assert (kept + [c])[..|kept|] == kept;
      AbortCloses(x, r, c);
      EndedStays(kept, [c], a.ends[..k]);
    } else {
      assert kept + [] == kept;
    }
  }

  // ---- every history ----

  lemma EventHolds(x: Bodies, a: Store, event: Event)
    requires Holds(x, a) && Allowed(x, a, event)
    ensures After(x, a, event).Some? && Holds(x, After(x, a, event).value)
  {
    match event
    case Logged(p, placed) => LoggedHolds(x, a, p, placed);
    case Maintained(r) => MaintainedHolds(x, a, r);
    case Restarted(n, c) => RestartedHolds(x, a, n, c);
  }

  /** After any history recovery has never refused the log. */
  lemma {:induction false} HistoryHolds(x: Bodies, events: seq<Event>)
    requires AllowedAll(x, events)
    ensures Run(x, events).Some? && Holds(x, Run(x, events).value)
  {
    if events != [] {
      var init := events[..|events| - 1];
      HistoryHolds(x, init);
      EventHolds(x, Run(x, init).value, events[|events| - 1]);
    }
  }

  /** After any history of transactions, checkpoints, outcomes, crashes and starts, reading the whole
      log gives exactly the committed transactions, none under way. */
  lemma EveryHistoryRecovers(x: Bodies, events: seq<Event>)
    requires AllowedAll(x, events)
    ensures Run(x, events).Some? && Recovered(x, Run(x, events).value.log).Some?
    ensures Recovered(x, Run(x, events).value.log).value.active.None?
    ensures ShowsAll(x, Run(x, events).value.committed, Recovered(x, Run(x, events).value.log).value.commits)
  {
    HistoryHolds(x, events);
  }

  /** In any history a start keeps a committed transaction exactly when the kept records reach its
      end, and keeps no other: durable ones are never lost and none is invented or reordered. */
  lemma SurvivesExactly(x: Bodies, events: seq<Event>, n: nat, c: Record, i: nat)
    requires AllowedAll(x, events) && Run(x, events).Some? && Allowed(x, Run(x, events).value, Restarted(n, c))
    requires i < |Run(x, events).value.committed|
    ensures |Run(x, events).value.ends| == |Run(x, events).value.committed|
    ensures After(x, Run(x, events).value, Restarted(n, c)).Some?
    ensures var after := After(x, Run(x, events).value, Restarted(n, c)).value;
      after.committed <= Run(x, events).value.committed && (i < |after.committed| <==> Run(x, events).value.ends[i] <= n)
  {
    var a := Run(x, events).value;
    HistoryHolds(x, events);
    RestartedHolds(x, a, n, c);
    CountedCommits(x, a.log[..n]);
    assert EndsAt(a.log, i, a.ends[i]);
    KeptIff(a.log, i, a.ends[i], n);
  }
}
