/**
  The log with all its rules: shapes of mutations, markers, checkpoints and outcomes.  Only the digest
  and the size of a mutation in memory stay open.
*/
module NativeLog {
  import opened Bytes
  import opened Results
  import opened WalBlock
  import opened WalMutation
  import opened WalRecovery
  import opened WalTransaction
  import F = MutationForms
  import H = LogHistory
  import K = MarkerRules
  import M = Maintenance
  import S = MutationShape

  /** Bodies that are laid out as the engine lays them out and follow all its rules. */
  ghost predicate IsNative(x: Bodies, base: Option<M.Base>) {
    && LaidOut(x) && M.Maintains(x, base)
    && (forall m :: x.shape(m) <==> S.Fits(m))
    && forall mutations :: x.markersFit(mutations) <==> K.MarkersFit(mutations)
  }

  ghost function Native(digest: ByteString -> ByteString, slot: nat, base: Option<M.Base>): Bodies {
    Bodies(
      (b: BeginBody) => EncodeBegin(b),
      (body: ByteString) => DecodeBegin(slot, body),
      (c: Manifest) => if |c.roots| == 4 then EncodeCommit(c) else [],
      (body: ByteString) => DecodeCommit(body),
      (m: Mutation) => EncodeMutation(m),
      (engine: Engine, body: ByteString) => DecodeMutation(m => S.Fits(m), engine, body),
      m => S.Fits(m),
      (mutations: seq<Mutation>) => K.MarkersFit(mutations),
      (commits: seq<Committed>, before: seq<Record>, r: Record) => M.Accepts(base, commits, before, r),
      digest,
      slot)
  }

  /** There are such bodies, for every digest of 32 bytes. */
  lemma NativeIsNative(digest: ByteString -> ByteString, slot: nat, base: Option<M.Base>)
    requires forall b :: |digest(b)| == 32
    ensures IsNative(Native(digest, slot, base), base)
  {
  }

  // The engine, form and value that the opcode table gives.
  ghost predicate Fitting(m: Mutation) { m.engine == EngineOfOpcode(m.opcode) && F.HasForm(m, F.FormOf(m.opcode)) && F.SaysEnough(m) }

  /** A mutation is read back exactly when it has the engine, form and value of its opcode in the table;
      otherwise its record is refused. */
  lemma NativeReadsBackIff(x: Bodies, base: Option<M.Base>, m: Mutation)
    requires IsNative(x, base) && MutationFits(m)
    ensures x.decode(m.engine, x.encode(m)) == if Fitting(m) then Some(m) else None
  {
    MutationReadsBackIff(x.shape, m);
    F.FitsIff(m);
  }

  lemma FittingIsWellFormed(x: Bodies, base: Option<M.Base>, mutations: seq<Mutation>)
    requires IsNative(x, base)
    ensures AllWellFormed(x, mutations) <==> forall i :: 0 <= i < |mutations| ==> Fitting(mutations[i])
  {
    forall m ensures WellFormed(x.shape, m) <==> Fitting(m) { F.FitsIff(m); }
  }

  /** An accepted plan is recovered exactly when each mutation has the engine, form and value of its
      opcode in the table. */
  lemma NativeRecoveredIff(x: Bodies, base: Option<M.Base>, p: Plan, s: State, records: seq<Record>)
    requires IsNative(x, base) && PlanFits(p) && Accepted(x, p) && s.active.None? && Later(s.commits, p.csn)
    requires Unplaced(records) == Written(x, p)
    ensures RunFrom(StepperOf(x), s, records).Some? <==> forall i :: 0 <= i < |p.mutations| ==> Fitting(p.mutations[i])
  {
    RecoveredIff(x, p, s, records);
    FittingIsWellFormed(x, base, p.mutations);
  }

  // Without markers, fences and vectors a single mutation breaks no marker rule.
  lemma PlainFitsMarkers(m: Mutation)
    requires !K.OnIndex(m.opcode)
    ensures K.MarkersFit([m])
  {
    var all := [m];
    assert [] + [m] == all;
    forall role: K.Role ensures K.Indexes(all, role) == {} {
      K.IndexesSnoc([], m, role);
      assert K.Indexes([], role) == {};
    }
    forall index ensures K.VectorCount(all, index) == 0 {
      K.CountSnoc([], m, index);
    }
    K.CountSnoc([], m, 0);
  }

  lemma StrayFitsMarkers()
    ensures K.MarkersFit([STRAY])
  {
    PlainFitsMarkers(STRAY);
  }

  /** The writer takes a value set under the kernel's name, and no start reads the log again. */
  lemma NativeAcceptedYetRefused(x: Bodies, base: Option<M.Base>, p: Plan, records: seq<Record>)
    requires IsNative(x, base) && x.slot <= MAX_BYTES - MUTATION_HEADER
    requires p == STRAY_PLAN && Unplaced(records) == Written(x, p)
    ensures PlanFits(p) && Accepted(x, p) && RunFrom(StepperOf(x), EMPTY, records).None?
  {
    StrayFitsMarkers();
    AcceptedYetRefused(x, p, records);
  }

  // ---- histories ----

  /** After any history of transactions, checkpoints, outcomes, crashes and starts: reading the log
      gives exactly the committed transactions, its checkpoints form one chain over them, every
      request was decided at most once, and every outcome that says committed names one of them. */
  lemma NativeHistory(x: Bodies, base: Option<M.Base>, events: seq<H.Event>)
    requires IsNative(x, base) && H.AllowedAll(x, events)
    ensures H.Run(x, events).Some?
    ensures var a := H.Run(x, events).value;
      && H.Recovered(x, a.log).Some? && H.Recovered(x, a.log).value.active.None?
      && H.ShowsAll(x, a.committed, H.Recovered(x, a.log).value.commits)
      && M.Maintained(base, H.Recovered(x, a.log).value)
  {
    H.EveryHistoryRecovers(x, events);
    M.AcceptedIsMaintained(x, base, H.Run(x, events).value.log);
  }

  // ---- the next checkpoint ----

  lemma LastIsHighest(commits: seq<Committed>, csn: nat)
    requires Increasing(commits) && commits != [] && M.HasCsn(commits, csn)
    ensures csn <= commits[|commits| - 1].manifest.csn
  {
    var i :| 0 <= i < |commits| && commits[i].manifest.csn == csn;
    if i < |commits| - 1 { assert commits[i].manifest.csn < commits[|commits| - 1].manifest.csn; }
  }

  // What the next checkpoint must name and exceed.
  ghost predicate Successor(base: Option<M.Base>, before: seq<M.CheckpointBody>, c: M.CheckpointBody) {
    if before != [] then c.previous == Some(before[|before| - 1].lsn) && c.generation > before[|before| - 1].generation
    else if base.Some? then c.previous == Some(base.value.lsn) && c.generation > base.value.generation
    else c.previous.None?
  }

  /** Over any accepted log, a checkpoint of the last commit that names the checkpoint before it and
      has a higher generation is always accepted. */
  lemma NextCheckpointAccepted(x: Bodies, base: Option<M.Base>, records: seq<Record>, c: M.CheckpointBody)
    requires M.Maintains(x, base) && RunFrom(StepperOf(x), EMPTY, records).Some?
    requires var s := RunFrom(StepperOf(x), EMPTY, records).value;
      && s.commits != [] && c.visible == s.commits[|s.commits| - 1].manifest.csn
      && (base.Some? ==> base.value.visible <= c.visible) && Successor(base, M.Checkpoints(s.maintenance), c)
    ensures var s := RunFrom(StepperOf(x), EMPTY, records).value; M.AcceptsCheckpoint(base, s.commits, M.Checkpoints(s.maintenance), c)
  {
    var s := RunFrom(StepperOf(x), EMPTY, records).value;
    AcceptedIsOrderly(x, records);
    M.AcceptedIsMaintained(x, base, records);
    var before := M.Checkpoints(s.maintenance);
    assert M.HasCsn(s.commits, c.visible);
    if before != [] {
      var p := before[|before| - 1];
      assert M.Visible(base, s.commits, p.visible);
      if M.HasCsn(s.commits, p.visible) { LastIsHighest(s.commits, p.visible); }
    }
  }
}
