/** From the transactions that recovery returns to an engine that admits and numbers as before. */
module Restart {
  import opened Results
  import opened ConflictKeys
  import opened ConflictTable
  import C = CommitCoordinator
  import L = LogHistory
  import R = WalRecovery
  import T = WalTransaction

  // A batch that was admitted as the transaction and logged under the plan.
  ghost predicate RecordedAs(t: Transaction, b: WriteBatch, p: T.Plan) {
    && AdmittedAs(t, b) && p.csn == t.csn && p.read == t.read
    && exists stored, markers :: Logs(b, stored, markers) && p.mutations == stored + markers
  }

  ghost predicate Recorded(history: seq<Transaction>, batches: seq<WriteBatch>, plans: seq<T.Plan>) {
    |plans| == |history| == |batches| && forall i :: 0 <= i < |plans| ==> RecordedAs(history[i], batches[i], plans[i])
  }

  function ReplayedOne(c: T.Committed): Transaction { Replayed(c.manifest.read, c.manifest.csn, c.mutations) }

  /** The transactions that a start replays into the conflict table. */
  function ReplayedAll(commits: seq<T.Committed>): (r: seq<Transaction>)
    ensures |r| == |commits| && forall i :: 0 <= i < |r| ==> r[i] == ReplayedOne(commits[i])
  {
    seq(|commits|, i requires 0 <= i < |commits| => ReplayedOne(commits[i]))
  }

  lemma OneIsCovered(bodies: T.Bodies, t: Transaction, b: WriteBatch, p: T.Plan, c: T.Committed)
    requires RecordedAs(t, b, p) && R.Shows(bodies, p, c)
    ensures Covers(t, ReplayedOne(c))
    ensures forall k :: k in t.writes && !Forgotten(b, k) ==> k in ReplayedOne(c).writes
  {
    var stored, markers :| Logs(b, stored, markers) && p.mutations == stored + markers;
    ReplayIsCovered(t, b, stored, markers);
    forall k | k in t.writes && !Forgotten(b, k) ensures k in ReplayedOne(c).writes {
      WritesDiffer(b, stored, markers, k);
    }
  }

  lemma {:induction false} RecoveredIsCovered(bodies: T.Bodies, history: seq<Transaction>, batches: seq<WriteBatch>, plans: seq<T.Plan>, commits: seq<T.Committed>)
    requires Recorded(history, batches, plans) && L.ShowsAll(bodies, plans, commits)
    ensures CoversAll(history, ReplayedAll(commits))
  {
    forall i | 0 <= i < |history| ensures Covers(history[i], ReplayedAll(commits)[i]) {
      assert RecordedAs(history[i], batches[i], plans[i]) && R.Shows(bodies, plans[i], commits[i]);
      OneIsCovered(bodies, history[i], batches[i], plans[i], commits[i]);
    }
  }

  /** Replay of what recovery returned never finds a conflict, and the replayed table never runs ahead
      of the one that was lost. */
  lemma ReplaySucceeds(bodies: T.Bodies, history: seq<Transaction>, batches: seq<WriteBatch>, plans: seq<T.Plan>, commits: seq<T.Committed>, key: WriteKey)
    requires Admitted(history) && Recorded(history, batches, plans) && L.ShowsAll(bodies, plans, commits)
    ensures Admitted(ReplayedAll(commits))
    ensures key in TableOf(ReplayedAll(commits)) ==> key in TableOf(history) && TableOf(ReplayedAll(commits))[key] <= TableOf(history)[key]
  {
    RecoveredIsCovered(bodies, history, batches, plans, commits);
    LoggedIsAdmitted(history, ReplayedAll(commits));
    if key in TableOf(ReplayedAll(commits)) { ReplayedIsBelow(history, ReplayedAll(commits), key); }
  }

  /** The tables agree on every key that its last writer did not forget: all keys other than looked-up
      unique keys and claims on mistaken indexes. */
  lemma ReplayAgrees(bodies: T.Bodies, history: seq<Transaction>, batches: seq<WriteBatch>, plans: seq<T.Plan>, commits: seq<T.Committed>, key: WriteKey)
    requires Admitted(history) && Recorded(history, batches, plans) && L.ShowsAll(bodies, plans, commits)
    requires forall i: nat :: LastAt(history, key, i) ==> !Forgotten(batches[i], key)
    ensures AgreeOn(TableOf(history), TableOf(ReplayedAll(commits)), key)
  {
    var logged := ReplayedAll(commits);
    RecoveredIsCovered(bodies, history, batches, plans, commits);
    forall i: nat | LastAt(history, key, i) ensures key in logged[i].writes {
      assert RecordedAs(history[i], batches[i], plans[i]) && R.Shows(bodies, plans[i], commits[i]);
      OneIsCovered(bodies, history[i], batches[i], plans[i], commits[i]);
    }
    TablesAgreeIff(history, logged, key);
  }

  /** What is forgotten cannot matter: every snapshot taken after the start sees the recovered
      transactions, and over such snapshots both tables decide by what committed since.  Of the logged
      history this uses its commit numbers only: a start that forgot every key would do. */
  lemma ForgottenNeverMatters(history: seq<Transaction>, logged: seq<Transaction>, since: seq<Transaction>, read: Option<nat>, key: WriteKey)
    requires CoversAll(history, logged) && Sequenced(history + since)
    requires read.Some? && forall i :: 0 <= i < |history| ==> history[i].csn <= read.value
    ensures Newer(TableOf(history + since), read, key) <==> WrittenSince(since, read, key)
    ensures Newer(TableOf(logged + since), read, key) <==> WrittenSince(since, read, key)
  {
    LaterSnapshotsIgnore(history, since, read, key);
    SequencedToo(history, logged, since);
    assert forall i :: 0 <= i < |logged| ==> Covers(history[i], logged[i]);
    LaterSnapshotsIgnore(logged, since, read, key);
  }

  lemma {:induction false} SequencedToo(live: seq<Transaction>, logged: seq<Transaction>, since: seq<Transaction>)
    requires CoversAll(live, logged) && Sequenced(live + since)
    ensures Sequenced(logged + since)
  {
    var a, b := live + since, logged + since;
    forall i | 0 <= i < |b| ensures b[i].csn == a[i].csn {
      if i < |live| { assert Covers(live[i], logged[i]); }
    }
  }

  /** Every root the coordinator commits satisfies the storage rule of the log, so writing its commit
      record is never refused for it. */
  lemma CommittedRootsAreLoggable(catalog: nat, steps: seq<C.Step>, i: nat)
    requires i < |C.Committed(C.New(catalog), steps)|
    ensures var r := C.Committed(C.New(catalog), steps)[i];
      r.visible.Some? && r.floor.Some? && T.StorageFits(r.generation, r.floor.value, r.visible.value)
  {
    C.RunIsGapless(catalog, steps);
  }

  /** Restoring the root of the last recovered commit resumes the numbering right after it: whatever
      runs next, its commits are numbered k + 1, k + 2 and so on. */
  lemma RestartResumesNumbering(catalog: nat, before: seq<C.Step>, k: nat, after: seq<C.Step>)
    requires 0 < k <= |C.Committed(C.New(catalog), before)|
    ensures C.Restore(C.Committed(C.New(catalog), before)[k - 1]).Some?
    ensures var commits := C.Committed(C.Restore(C.Committed(C.New(catalog), before)[k - 1]).value, after);
      forall i :: 0 <= i < |commits| ==> commits[i].visible == Some(k + 1 + i)
  {
    C.RunIsGapless(catalog, before);
    C.RestoreResumes(C.Committed(C.New(catalog), before)[k - 1], after);
  }
}
