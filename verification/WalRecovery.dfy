/**
  Recovery: the state machine that reads log records, what it makes of any prefix of a log of
  transactions, and what any accepted log must look like.
*/
module WalRecovery {
  import opened Bytes
  import opened Collections
  import opened Results
  import opened WalBlock
  import opened WalMutation
  import opened WalTransaction

  // The eight bytes HYABT001.
  const ABORT_MAGIC: ByteString := [72, 89, 65, 66, 84, 48, 48, 49]

  datatype Active = Active(id: nat, begin: BeginBody, mutations: seq<Mutation>, bytes: nat, hashed: ByteString)

  datatype State = State(commits: seq<Committed>, maintenance: seq<Record>, active: Option<Active>)

  const EMPTY := State([], [], None)

  function Admit(x: Bodies, a: Active, r: Record): Option<Active> {
    if |a.mutations| + 1 > a.begin.count || a.bytes + |r.body| > a.begin.bytes then None
    else if |a.mutations| + 1 > MAX_BYTES / MUTATION_HEADER || a.bytes + |r.body| > MAX_BYTES then None
    else
      var m := x.decode(r.engine, r.body);
      if m.None? then None
      else Some(Active(a.id, a.begin, a.mutations + [m.value], a.bytes + |r.body|, a.hashed + HashedOne(r.engine, r.body)))
  }

  // The commit record agrees with what was begun and with what came since.
  predicate Closes(x: Bodies, a: Active, c: Manifest) {
    && a.mutations != [] && x.markersFit(a.mutations)
    && a.begin.read == c.read && a.begin.catalog == c.catalog && a.begin.time == c.time
    && a.begin.count == |a.mutations| == c.count && a.begin.bytes == a.bytes == c.bytes && c.digest == x.digest(a.hashed)
  }

  predicate Later(commits: seq<Committed>, csn: nat) {
    commits == [] || commits[|commits| - 1].manifest.csn < csn
  }

  /** One record; no value is a log that recovery refuses. */
  function Step(x: Bodies, s: State, r: Record): Option<State> {
    match r.kind
    case Begin =>
      var begin := x.decodeBegin(r.body);
      if s.active.Some? || r.engine != Kernel || begin.None? then None
      else Some(s.(active := Some(Active(r.transaction, begin.value, [], 0, []))))
    case Mutation =>
      if s.active.None? || s.active.value.id != r.transaction then None
      else
        var admitted := Admit(x, s.active.value, r);
        if admitted.None? then None else Some(s.(active := admitted))
    case Commit =>
      var manifest := x.decodeCommit(r.body);
      if s.active.None? || s.active.value.id != r.transaction || r.engine != Kernel || manifest.None? then None
      else if !Closes(x, s.active.value, manifest.value) || !Later(s.commits, manifest.value.csn) then None
      else Some(State(s.commits + [Committed(r.transaction, r.lsn, s.active.value.begin.durability, manifest.value, s.active.value.mutations)],
                      s.maintenance, None))
    case Abort =>
      if s.active.None? || s.active.value.id != r.transaction || r.engine != Kernel || r.body != ABORT_MAGIC then None
      else Some(s.(active := None))
    case _ =>
      if s.active.Some? || r.engine != Kernel || r.flags != 0 || !x.maintains(s.commits, s.maintenance, r) then None
      else Some(s.(maintenance := s.maintenance + [r]))
  }

  type Stepper = (State, Record) -> Option<State>

  function StepperOf(x: Bodies): Stepper { (s, r) => Step(x, s, r) }

  function RunFrom(step: Stepper, s: State, records: seq<Record>): Option<State> {
    if records == [] then Some(s)
    else
      var before := RunFrom(step, s, records[..|records| - 1]);
      if before.None? then None else step(before.value, records[|records| - 1])
  }

  method Recover(x: Bodies, records: seq<Record>) returns (r: Option<State>)
    ensures r == RunFrom(StepperOf(x), EMPTY, records)
    ensures forall s :: r == Some(s) <==> ReadsAs(x, records, s)
  {
    forall s ensures RunFrom(StepperOf(x), EMPTY, records) == Some(s) <==> ReadsAs(x, records, s) {
      AcceptedIff(x, records, s);
    }
    var s := EMPTY;
    for i := 0 to |records|
      invariant RunFrom(StepperOf(x), EMPTY, records[..i]) == Some(s)
    {
      var next := Step(x, s, records[i]);
      assert records[..i + 1][..i] == records[..i];
      if next.None? {
        RunFails(StepperOf(x), EMPTY, records, i + 1);
        return None;
      }
      s := next.value;
    }
    assert records[..|records|] == records;
    return Some(s);
  }

  lemma {:induction false} RunFails(step: Stepper, s: State, records: seq<Record>, n: nat)
    requires n <= |records| && RunFrom(step, s, records[..n]).None?
    ensures RunFrom(step, s, records).None?
  {
    if n < |records| {
      assert records[..|records| - 1][..n] == records[..n];
      RunFails(step, s, records[..|records| - 1], n);
    } else {
      assert records[..n] == records;
    }
  }

  lemma {:induction false} RunConcat(step: Stepper, s: State, a: seq<Record>, b: seq<Record>)
    requires RunFrom(step, s, a).Some?
    ensures RunFrom(step, s, a + b) == RunFrom(step, RunFrom(step, s, a).value, b)
  {
    if b == [] {
      assert a + b == a;
    } else {
      var n := |b| - 1;
      assert (a + b)[..|a| + n] == a + b[..n];
      RunConcat(step, s, a, b[..n]);
    }
  }

  // ---- one transaction, cut anywhere ----

  ghost predicate Shows(x: Bodies, p: Plan, c: Committed) {
    c.id == p.id && c.durability == p.durability && c.manifest == ManifestOf(x, p) && c.mutations == p.mutations
  }

  // A transaction of which the begin record and the first j mutations were read.
  ghost function Under(x: Bodies, p: Plan, j: nat): Active
    requires j <= |p.mutations|
  {
    Active(p.id, BeginOf(x, p), p.mutations[..j], MutationBytes(x, p.mutations[..j]), Hashed(x, p.mutations[..j]))
  }

  lemma BeginStep(x: Bodies, p: Plan, s: State, r: Record)
    requires Sound(x, p) && s.active.None? && PendingOf(r) == Written(x, p)[0]
    ensures Step(x, s, r) == Some(s.(active := Some(Under(x, p, 0))))
  {
    assert p.mutations[..0] == [];
  }

  lemma {:induction false} BytesGrow(x: Bodies, mutations: seq<Mutation>, j: nat)
    requires j <= |mutations|
    ensures MutationBytes(x, mutations[..j]) <= MutationBytes(x, mutations)
  {
    if j < |mutations| {
      assert mutations[..|mutations| - 1][..j] == mutations[..j];
      BytesGrow(x, mutations[..|mutations| - 1], j);
    } else {
      assert mutations[..j] == mutations;
    }
  }

  lemma UnderGrows(x: Bodies, p: Plan, j: nat)
    requires j < |p.mutations|
    ensures Under(x, p, j + 1).mutations == Under(x, p, j).mutations + [p.mutations[j]]
    ensures Under(x, p, j + 1).bytes == Under(x, p, j).bytes + |x.encode(p.mutations[j])|
    ensures Under(x, p, j + 1).hashed == Under(x, p, j).hashed + HashedOne(p.mutations[j].engine, x.encode(p.mutations[j]))
  {
    var more := p.mutations[..j + 1];
    assert more[..j] == p.mutations[..j] && more == p.mutations[..j] + [p.mutations[j]];
  }

  lemma AdmitsMutation(x: Bodies, p: Plan, r: Record, j: nat)
    requires j < |p.mutations| && InBounds(x.slot, |p.mutations|, MutationBytes(x, p.mutations))
    requires x.decode(p.mutations[j].engine, x.encode(p.mutations[j])) == Some(p.mutations[j])
    requires r.engine == p.mutations[j].engine && r.body == x.encode(p.mutations[j])
    ensures Admit(x, Under(x, p, j), r) == Some(Under(x, p, j + 1))
  {
    UnderGrows(x, p, j);
    BytesGrow(x, p.mutations, j + 1);
  }

  lemma MutationStep(x: Bodies, p: Plan, s: State, r: Record, j: nat)
    requires Sound(x, p) && j < |p.mutations| && s.active == Some(Under(x, p, j)) && PendingOf(r) == Written(x, p)[j + 1]
    ensures Step(x, s, r) == Some(s.(active := Some(Under(x, p, j + 1))))
  {
    AdmitsMutation(x, p, r, j);
  }

  lemma ClosesWritten(x: Bodies, p: Plan)
    requires Sound(x, p)
    ensures Closes(x, Under(x, p, |p.mutations|), ManifestOf(x, p))
  {
    assert p.mutations[..|p.mutations|] == p.mutations;
  }

  lemma CommitStep(x: Bodies, p: Plan, s: State, r: Record)
    requires Sound(x, p) && s.active == Some(Under(x, p, |p.mutations|)) && Later(s.commits, p.csn)
    requires PendingOf(r) == Written(x, p)[|p.mutations| + 1]
    ensures Step(x, s, r) == Some(State(s.commits + [Committed(p.id, r.lsn, p.durability, ManifestOf(x, p), p.mutations)], s.maintenance, None))
  {
    ClosesWritten(x, p);
    assert p.mutations[..|p.mutations|] == p.mutations;
  }

  // What recovery holds after the first j records of a transaction.
  ghost predicate Partway(x: Bodies, p: Plan, s: State, j: nat, t: State)
    requires j <= |p.mutations| + 1
  {
    t == if j == 0 then s else s.(active := Some(Under(x, p, j - 1)))
  }

  // Every record of the list takes the machine one place further.
  ghost predicate Advances(step: Stepper, way: (nat, State) -> bool, written: seq<Pending>) {
    forall n: nat, t, r :: n < |written| && way(n, t) && PendingOf(r) == written[n] ==> Advanced(step, way, n, t, r)
  }

  ghost predicate Advanced(step: Stepper, way: (nat, State) -> bool, n: nat, t: State, r: Record) {
    step(t, r).Some? && way(n + 1, step(t, r).value)
  }

  lemma {:induction false} RunAdvances(step: Stepper, way: (nat, State) -> bool, written: seq<Pending>, s: State, records: seq<Record>)
    requires Advances(step, way, written) && way(0, s) && Unplaced(records) <= written
    ensures RunFrom(step, s, records).Some? && way(|records|, RunFrom(step, s, records).value)
  {
    if records != [] {
      var n := |records| - 1;
      assert Unplaced(records[..n]) == Unplaced(records)[..n];
      RunAdvances(step, way, written, s, records[..n]);
      assert PendingOf(records[n]) == Unplaced(records)[n] == written[n];
      assert Advanced(step, way, n, RunFrom(step, s, records[..n]).value, records[n]);
    }
  }

  ghost function WayOf(x: Bodies, p: Plan, s: State): (nat, State) -> bool {
    (n: nat, t) => n <= |p.mutations| + 1 && Partway(x, p, s, n, t)
  }

  lemma ReadPart(x: Bodies, p: Plan, s: State, records: seq<Record>, j: nat)
    requires Sound(x, p) && s.active.None?
    requires j <= |p.mutations| + 1 && Unplaced(records) == Written(x, p)[..j]
    ensures RunFrom(StepperOf(x), s, records).Some? && Partway(x, p, s, j, RunFrom(StepperOf(x), s, records).value)
  {
    var step, way, written := StepperOf(x), WayOf(x, p, s), Written(x, p)[..|p.mutations| + 1];
    forall n: nat, t, r | n < |written| && way(n, t) && PendingOf(r) == written[n] ensures Advanced(step, way, n, t, r) {
      PartStep(x, p, s, t, r, n);
    }
    assert Unplaced(records) == written[..j];
    RunAdvances(step, way, written, s, records);
  }

  lemma PartStep(x: Bodies, p: Plan, s: State, t: State, r: Record, n: nat)
    requires Sound(x, p) && s.active.None? && n <= |p.mutations| && Partway(x, p, s, n, t) && PendingOf(r) == Written(x, p)[n]
    ensures StepperOf(x)(t, r).Some? && Partway(x, p, s, n + 1, StepperOf(x)(t, r).value)
  {
    if n == 0 {
      BeginStep(x, p, t, r);
    } else {
      MutationStep(x, p, t, r, n - 1);
    }
  }

  lemma ReadWhole(x: Bodies, p: Plan, s: State, records: seq<Record>)
    requires Sound(x, p) && s.active.None? && Later(s.commits, p.csn) && Unplaced(records) == Written(x, p)
    ensures RunFrom(StepperOf(x), s, records) ==
      Some(State(s.commits + [Committed(p.id, records[|records| - 1].lsn, p.durability, ManifestOf(x, p), p.mutations)], s.maintenance, None))
  {
    var n := |p.mutations| + 1;
    assert Unplaced(records[..n]) == Written(x, p)[..n];
    ReadPart(x, p, s, records[..n], n);
    var t, r := RunFrom(StepperOf(x), s, records[..n]).value, records[n];
    assert PendingOf(r) == Unplaced(records)[n] == Written(x, p)[n];
    CommitStep(x, p, t, r);
  }

  function AbortRecord(id: nat): Pending { Pending(Kind.Abort, Kernel, 0, id, ABORT_MAGIC) }

  /** A transaction that a crash cut off is closed by an abort record and leaves nothing behind. */
  lemma AbortCloses(x: Bodies, s: State, r: Record)
    requires s.active.Some? && PendingOf(r) == AbortRecord(s.active.value.id)
    ensures Step(x, s, r) == Some(s.(active := None))
  {
  }

  // ---- which plans can be recovered ----

  lemma {:induction false} RunReaches(step: Stepper, s: State, records: seq<Record>, n: nat)
    requires n < |records| && RunFrom(step, s, records).Some?
    ensures RunFrom(step, s, records[..n]).Some? && step(RunFrom(step, s, records[..n]).value, records[n]).Some?
  {
    if n < |records| - 1 {
      RunReaches(step, s, records[..|records| - 1], n);
      assert records[..|records| - 1][..n] == records[..n];
    }
  }

  lemma StepDecodes(x: Bodies, s: State, r: Record)
    requires r.kind == Kind.Mutation && Step(x, s, r).Some?
    ensures x.decode(r.engine, r.body).Some?
  {
  }

  lemma WrittenMutation(x: Bodies, p: Plan, i: nat)
    requires i < |p.mutations|
    ensures Written(x, p)[i + 1] == Pending(Kind.Mutation, p.mutations[i].engine, 0, p.id, x.encode(p.mutations[i]))
  {
  }

  lemma DecodedIsWellFormed(x: Bodies, p: Plan, i: nat)
    requires LaidOut(x) && PlanFits(p) && Accepted(x, p) && i < |p.mutations|
    requires x.decode(p.mutations[i].engine, x.encode(p.mutations[i])).Some?
    ensures WellFormed(x.shape, p.mutations[i])
  {
    AcceptedMutationFits(x, p, i);
    MutationReadsBackIff(x.shape, p.mutations[i]);
  }

  lemma RecoveredDecodes(x: Bodies, p: Plan, s: State, records: seq<Record>, i: nat)
    requires i < |p.mutations| && Unplaced(records) == Written(x, p) && RunFrom(StepperOf(x), s, records).Some?
    ensures x.decode(p.mutations[i].engine, x.encode(p.mutations[i])).Some?
  {
    RunReaches(StepperOf(x), s, records, i + 1);
    WrittenMutation(x, p, i);
    assert PendingOf(records[i + 1]) == Unplaced(records)[i + 1];
    StepDecodes(x, RunFrom(StepperOf(x), s, records[..i + 1]).value, records[i + 1]);
  }

  /** The writer accepts plans that recovery refuses.  An accepted plan is recovered exactly when all
      its mutations go to the engine of their opcode and have its shape. */
  lemma RecoveredIff(x: Bodies, p: Plan, s: State, records: seq<Record>)
    requires LaidOut(x) && PlanFits(p) && Accepted(x, p) && s.active.None? && Later(s.commits, p.csn)
    requires Unplaced(records) == Written(x, p)
    ensures RunFrom(StepperOf(x), s, records).Some? <==> AllWellFormed(x, p.mutations)
  {
    AcceptedIsSound(x, p);
    if AllWellFormed(x, p.mutations) {
      ReadWhole(x, p, s, records);
    } else {
      var i :| 0 <= i < |p.mutations| && !WellFormed(x.shape, p.mutations[i]);
      if RunFrom(StepperOf(x), s, records).Some? {
        RecoveredDecodes(x, p, s, records, i);
        DecodedIsWellFormed(x, p, i);
      }
    }
  }

  lemma IllFormedRefused(x: Bodies, p: Plan, records: seq<Record>)
    requires LaidOut(x) && PlanFits(p) && Accepted(x, p) && Unplaced(records) == Written(x, p)
    requires p.mutations != [] && !WellFormed(x.shape, p.mutations[0])
    ensures RunFrom(StepperOf(x), EMPTY, records).None?
  {
    RecoveredIff(x, p, EMPTY, records);
  }

  // A value set under the kernel's name.
  const STRAY := Change(Kernel, 3, None, [], [], None)
  const STRAY_PLAN := Plan(1, None, 1, 0, Strict, 1, 0, [1, 1, 1, 1], 1, 1, [STRAY])

  lemma StrayBytes(x: Bodies)
    requires LaidOut(x)
    ensures MutationBytes(x, [STRAY]) == MUTATION_HEADER && |x.encode(STRAY)| == MUTATION_HEADER
  {
    EncodedLength(STRAY);
    assert [STRAY][..0] == [];
  }

  lemma StrayFits(x: Bodies)
    ensures PlanFits(STRAY_PLAN) && STRAY_PLAN.mutations == [STRAY] && !WellFormed(x.shape, STRAY)
  {
  }

  lemma StrayAccepted(x: Bodies)
    requires LaidOut(x) && x.markersFit([STRAY]) && x.slot <= MAX_BYTES - MUTATION_HEADER
    ensures Accepted(x, STRAY_PLAN)
  {
    StrayBytes(x);
  }

  /** Such plans exist: the log takes this one, and no start reads it again. */
  lemma AcceptedYetRefused(x: Bodies, p: Plan, records: seq<Record>)
    requires LaidOut(x) && x.markersFit([STRAY]) && x.slot <= MAX_BYTES - MUTATION_HEADER
    requires p == STRAY_PLAN && Unplaced(records) == Written(x, p)
    ensures PlanFits(p) && Accepted(x, p) && RunFrom(StepperOf(x), EMPTY, records).None?
  {
    StrayFits(x);
    StrayAccepted(x);
    IllFormedRefused(x, p, records);
  }

  // ---- prefixes of any accepted log ----

  // The commit records of a log.
  ghost function CommitRecords(records: seq<Record>): seq<Record> {
    if records == [] then []
    else
      var before, r := CommitRecords(records[..|records| - 1]), records[|records| - 1];
      if r.kind == Kind.Commit then before + [r] else before
  }

  // Each recovered transaction stands for a commit record.
  ghost predicate Named(commits: seq<Committed>, records: seq<Record>) {
    |commits| == |records| && forall i :: 0 <= i < |commits| ==> commits[i].lsn == records[i].lsn && commits[i].id == records[i].transaction
  }

  lemma StepNames(x: Bodies, s: State, r: Record)
    requires Step(x, s, r).Some?
    ensures s.commits <= Step(x, s, r).value.commits
    ensures r.kind != Kind.Commit ==> Step(x, s, r).value.commits == s.commits
    ensures r.kind == Kind.Commit ==>
      |Step(x, s, r).value.commits| == |s.commits| + 1 && Step(x, s, r).value.commits[|s.commits|].lsn == r.lsn
      && Step(x, s, r).value.commits[|s.commits|].id == r.transaction
  {
  }

  /** The transactions recovered from an accepted log are those of its commit records, in order. */
  lemma {:induction false} CommitsAreNamed(x: Bodies, records: seq<Record>)
    requires RunFrom(StepperOf(x), EMPTY, records).Some?
    ensures Named(RunFrom(StepperOf(x), EMPTY, records).value.commits, CommitRecords(records))
  {
    if records != [] {
      var n := |records| - 1;
      CommitsAreNamed(x, records[..n]);
      StepNames(x, RunFrom(StepperOf(x), EMPTY, records[..n]).value, records[n]);
    }
  }

  lemma {:induction false} PrefixCommits(x: Bodies, s: State, records: seq<Record>, n: nat)
    requires n <= |records| && RunFrom(StepperOf(x), s, records).Some?
    ensures RunFrom(StepperOf(x), s, records[..n]).Some?
    ensures RunFrom(StepperOf(x), s, records[..n]).value.commits <= RunFrom(StepperOf(x), s, records).value.commits
  {
    if n < |records| {
      var init := records[..|records| - 1];
      PrefixCommits(x, s, init, n);
      assert init[..n] == records[..n];
      StepNames(x, RunFrom(StepperOf(x), s, init).value, records[|records| - 1]);
    } else {
      assert records[..n] == records;
    }
  }

  lemma {:induction false} CommitRecordsPrefix(records: seq<Record>, n: nat)
    requires n <= |records|
    ensures CommitRecords(records[..n]) <= CommitRecords(records)
  {
    if n < |records| {
      CommitRecordsPrefix(records[..|records| - 1], n);
      assert records[..|records| - 1][..n] == records[..n];
    } else {
      assert records[..n] == records;
    }
  }

  /** Whatever part of an accepted log is kept, with checkpoints and outcomes among its records:
      recovery accepts it and returns those transactions whose commit record was kept, unchanged and
      in order. */
  lemma {:induction false} PrefixRecovers(x: Bodies, records: seq<Record>, n: nat)
    requires n <= |records| && RunFrom(StepperOf(x), EMPTY, records).Some?
    ensures RunFrom(StepperOf(x), EMPTY, records[..n]).Some?
    ensures var kept := |CommitRecords(records[..n])|;
      kept <= |RunFrom(StepperOf(x), EMPTY, records).value.commits|
      && RunFrom(StepperOf(x), EMPTY, records[..n]).value.commits == RunFrom(StepperOf(x), EMPTY, records).value.commits[..kept]
  {
    PrefixCommits(x, EMPTY, records, n);
    CommitsAreNamed(x, records[..n]);
  }

  // ---- any accepted log ----

  // The mutation records of one transaction and what they say.
  ghost predicate IsBody(x: Bodies, run: seq<Record>, id: nat, mutations: seq<Mutation>) {
    && |run| == |mutations|
    && forall i :: 0 <= i < |run| ==> run[i].kind == Kind.Mutation && run[i].transaction == id && x.decode(run[i].engine, run[i].body) == Some(mutations[i])
  }

  ghost function BodyBytes(run: seq<Record>): nat {
    if run == [] then 0 else BodyBytes(run[..|run| - 1]) + |run[|run| - 1].body|
  }

  // What the digest covers: of every record the engine, the length and the body, in order.
  ghost function Digested(run: seq<Record>): ByteString {
    if run == [] then []
    else
      var r := run[|run| - 1];
      Digested(run[..|run| - 1]) + [EngineCode(r.engine)] + Le(4, |r.body|) + r.body
  }

  ghost predicate Opens(x: Bodies, r: Record, id: nat) {
    r.kind == Kind.Begin && r.engine == Kernel && r.transaction == id && x.decodeBegin(r.body).Some?
  }

  // No more than was announced, and no more than any transaction may have.
  ghost predicate Within(count: nat, bytes: nat, begin: BeginBody) {
    count <= begin.count && bytes <= begin.bytes && count <= MAX_BYTES / MUTATION_HEADER && bytes <= MAX_BYTES
  }

  // A begin record and the mutation records since.
  ghost predicate IsOpen(x: Bodies, run: seq<Record>, a: Active) {
    && |run| >= 1 && Opens(x, run[0], a.id) && x.decodeBegin(run[0].body).value == a.begin
    && IsBody(x, run[1..], a.id, a.mutations) && a.bytes == BodyBytes(run[1..]) && a.hashed == Digested(run[1..])
    && (a.mutations != [] ==> Within(|a.mutations|, a.bytes, a.begin))
  }

  // The commit record of a transaction speaks of exactly these records.
  ghost predicate Accounts(x: Bodies, begin: BeginBody, body: seq<Record>, c: Committed) {
    && c.manifest.count == |c.mutations| == begin.count
    && c.manifest.bytes == BodyBytes(body) == begin.bytes
    && c.manifest.digest == x.digest(Digested(body))
    && c.manifest.read == begin.read && c.manifest.catalog == begin.catalog && c.manifest.time == begin.time
    && c.durability == begin.durability
  }

  /** One unbroken run of a transaction's own records, from begin to commit: number, bytes and digest
      in the manifest are those of the mutation records between, and the begin record announced the
      same. */
  ghost predicate IsFrame(x: Bodies, run: seq<Record>, c: Committed) {
    && |run| >= 2 && c.mutations != [] && x.markersFit(c.mutations)
    && Opens(x, run[0], c.id) && IsBody(x, run[1..|run| - 1], c.id, c.mutations)
    && Accounts(x, x.decodeBegin(run[0].body).value, run[1..|run| - 1], c)
    && Within(|c.mutations|, BodyBytes(run[1..|run| - 1]), x.decodeBegin(run[0].body).value)
    && var last := run[|run| - 1];
      && last.kind == Kind.Commit && last.engine == Kernel && last.transaction == c.id && last.lsn == c.lsn
      && x.decodeCommit(last.body) == Some(c.manifest)
  }

  // A transaction that was begun and given up.
  ghost predicate IsAbandoned(x: Bodies, run: seq<Record>, a: Active) {
    && |run| >= 2 && IsOpen(x, run[..|run| - 1], a)
    && var last := run[|run| - 1];
      last.kind == Kind.Abort && last.engine == Kernel && last.transaction == a.id && last.body == ABORT_MAGIC
  }

  ghost predicate IsUpkeep(x: Bodies, commits: seq<Committed>, maintenance: seq<Record>, r: Record) {
    (r.kind == Kind.Checkpoint || r.kind == Kind.Catalog) && r.engine == Kernel && r.flags == 0 && x.maintains(commits, maintenance, r)
  }

  /** A log between transactions: it is made up of whole transactions with rising commit numbers,
      abandoned ones and maintenance records. */
  ghost predicate Settled(x: Bodies, records: seq<Record>, commits: seq<Committed>, maintenance: seq<Record>)
    decreases |records|
  {
    if records == [] then commits == [] && maintenance == []
    else
      var n := |records| - 1;
      match records[n].kind
      case Commit =>
        commits != [] &&
        exists b: nat :: b < n && EndsInFrame(x, records, commits, b) && Settled(x, records[..b], commits[..|commits| - 1], maintenance)
      case Abort =>
        exists b: nat, a :: b < n && IsAbandoned(x, records[b..], a) && Settled(x, records[..b], commits, maintenance)
      case _ =>
        && maintenance != [] && maintenance[|maintenance| - 1] == records[n]
        && IsUpkeep(x, commits, maintenance[..|maintenance| - 1], records[n])
        && Settled(x, records[..n], commits, maintenance[..|maintenance| - 1])
  }

  ghost predicate EndsInFrame(x: Bodies, records: seq<Record>, commits: seq<Committed>, b: nat)
    requires b < |records| && commits != []
  {
    var c := commits[|commits| - 1];
    IsFrame(x, records[b..], c) && Later(commits[..|commits| - 1], c.manifest.csn)
  }

  /** What a log says: the settled part, and after it the transaction under way, if any. */
  ghost predicate ReadsAs(x: Bodies, records: seq<Record>, s: State) {
    if s.active.None? then Settled(x, records, s.commits, s.maintenance)
    else exists b: nat :: OpenAt(x, records, s.commits, s.maintenance, s.active.value, b)
  }

  ghost predicate OpenAt(x: Bodies, records: seq<Record>, commits: seq<Committed>, maintenance: seq<Record>, a: Active, b: nat) {
    b <= |records| && Settled(x, records[..b], commits, maintenance) && IsOpen(x, records[b..], a)
  }

  // ---- what is accepted says so ----

  lemma OpensAlone(x: Bodies, r: Record, a: Active)
    requires Opens(x, r, a.id) && a == Active(a.id, x.decodeBegin(r.body).value, [], 0, [])
    ensures IsOpen(x, [r], a)
  {
    assert [r][1..] == [];
  }

  lemma OpenSnoc(x: Bodies, run: seq<Record>, r: Record, a: Active, next: Active)
    requires IsOpen(x, run, a) && r.kind == Kind.Mutation && r.transaction == a.id && Admit(x, a, r) == Some(next)
    ensures IsOpen(x, run + [r], next)
  {
    assert (run + [r])[1..] == run[1..] + [r];
    BodySnoc(run[1..], r);
  }

  lemma BodySnoc(run: seq<Record>, r: Record)
    ensures BodyBytes(run + [r]) == BodyBytes(run) + |r.body| && Digested(run + [r]) == Digested(run) + HashedOne(r.engine, r.body)
  {
    assert (run + [r])[..|run|] == run;
    assert Digested(run) + [EngineCode(r.engine)] + Le(4, |r.body|) + r.body == Digested(run) + ([EngineCode(r.engine)] + Le(4, |r.body|) + r.body);
  }

  lemma FrameSnoc(x: Bodies, run: seq<Record>, r: Record, a: Active, c: Committed)
    requires IsOpen(x, run, a) && r.kind == Kind.Commit && r.engine == Kernel && r.transaction == a.id
    requires x.decodeCommit(r.body) == Some(c.manifest) && Closes(x, a, c.manifest)
    requires c == Committed(a.id, r.lsn, a.begin.durability, c.manifest, a.mutations)
    ensures IsFrame(x, run + [r], c)
  {
    var all := run + [r];
    assert all[1..|all| - 1] == run[1..];
  }

  lemma BeginReads(x: Bodies, records: seq<Record>, s: State, r: Record, t: State)
    requires ReadsAs(x, records, s) && Step(x, s, r) == Some(t) && r.kind == Kind.Begin
    ensures ReadsAs(x, records + [r], t)
  {
    OpensAlone(x, r, t.active.value);
    AppendedTo(records, r, |records|);
    assert records[..|records|] == records && records[|records|..] + [r] == [r];
    assert OpenAt(x, records + [r], t.commits, t.maintenance, t.active.value, |records|);
  }

  lemma AppendedTo(records: seq<Record>, r: Record, b: nat)
    requires b <= |records|
    ensures (records + [r])[..b] == records[..b] && (records + [r])[b..] == records[b..] + [r]
  {
  }

  lemma MutationReads(x: Bodies, records: seq<Record>, b: nat, commits: seq<Committed>, maintenance: seq<Record>, r: Record, a: Active, next: Active)
    requires OpenAt(x, records, commits, maintenance, a, b)
    requires r.kind == Kind.Mutation && r.transaction == a.id && Admit(x, a, r) == Some(next)
    ensures OpenAt(x, records + [r], commits, maintenance, next, b)
  {
    OpenSnoc(x, records[b..], r, a, next);
    AppendedTo(records, r, b);
  }

  lemma CommitReads(x: Bodies, records: seq<Record>, b: nat, commits: seq<Committed>, maintenance: seq<Record>, r: Record, a: Active, c: Committed)
    requires OpenAt(x, records, commits, maintenance, a, b)
    requires r.kind == Kind.Commit && r.engine == Kernel && r.transaction == a.id && x.decodeCommit(r.body) == Some(c.manifest)
    requires Closes(x, a, c.manifest) && Later(commits, c.manifest.csn)
    requires c == Committed(a.id, r.lsn, a.begin.durability, c.manifest, a.mutations)
    ensures Settled(x, records + [r], commits + [c], maintenance)
  {
    FrameSnoc(x, records[b..], r, a, c);
    AppendedTo(records, r, b);
    SettlesByFrame(x, records + [r], b, commits, maintenance, c);
  }

  lemma SettlesByFrame(x: Bodies, records: seq<Record>, b: nat, commits: seq<Committed>, maintenance: seq<Record>, c: Committed)
    requires b < |records| && IsFrame(x, records[b..], c) && Later(commits, c.manifest.csn) && Settled(x, records[..b], commits, maintenance)
    ensures Settled(x, records, commits + [c], maintenance)
  {
    var run, more := records[b..], commits + [c];
    assert run[|run| - 1] == records[|records| - 1] && more[..|more| - 1] == commits;
    assert EndsInFrame(x, records, more, b);
  }

  lemma AbortReads(x: Bodies, records: seq<Record>, b: nat, commits: seq<Committed>, maintenance: seq<Record>, r: Record, a: Active)
    requires OpenAt(x, records, commits, maintenance, a, b)
    requires r.kind == Kind.Abort && r.engine == Kernel && r.transaction == a.id && r.body == ABORT_MAGIC
    ensures Settled(x, records + [r], commits, maintenance)
  {
    AppendedTo(records, r, b);
    var run := records[b..] + [r];
    assert run[..|run| - 1] == records[b..];
    assert IsAbandoned(x, (records + [r])[b..], a);
  }

  lemma MutationGoesOn(x: Bodies, records: seq<Record>, s: State, r: Record, t: State)
    requires ReadsAs(x, records, s) && Step(x, s, r) == Some(t) && r.kind == Kind.Mutation
    ensures ReadsAs(x, records + [r], t)
  {
    var b: nat :| OpenAt(x, records, s.commits, s.maintenance, s.active.value, b);
    MutationReads(x, records, b, s.commits, s.maintenance, r, s.active.value, t.active.value);
  }

  lemma CommitSteps(x: Bodies, s: State, r: Record, t: State, a: Active, c: Committed)
    requires Step(x, s, r) == Some(t) && r.kind == Kind.Commit && s.active == Some(a) && t.commits[|s.commits|..] == [c]
    ensures r.engine == Kernel && r.transaction == a.id && x.decodeCommit(r.body) == Some(c.manifest)
    ensures Closes(x, a, c.manifest) && Later(s.commits, c.manifest.csn)
    ensures c == Committed(a.id, r.lsn, a.begin.durability, c.manifest, a.mutations)
    ensures t == State(s.commits + [c], s.maintenance, None)
  {
    assert t.commits[|s.commits|] == c;
  }

  lemma CommitGoesOn(x: Bodies, records: seq<Record>, s: State, r: Record, t: State)
    requires ReadsAs(x, records, s) && Step(x, s, r) == Some(t) && r.kind == Kind.Commit
    ensures ReadsAs(x, records + [r], t)
  {
    var a, c := s.active.value, t.commits[|s.commits|];
    CommitSteps(x, s, r, t, a, c);
    var b: nat :| OpenAt(x, records, s.commits, s.maintenance, a, b);
    CommitReads(x, records, b, s.commits, s.maintenance, r, a, c);
  }

  lemma AbortGoesOn(x: Bodies, records: seq<Record>, s: State, r: Record, t: State)
    requires ReadsAs(x, records, s) && Step(x, s, r) == Some(t) && r.kind == Kind.Abort
    ensures ReadsAs(x, records + [r], t)
  {
    var b: nat :| OpenAt(x, records, s.commits, s.maintenance, s.active.value, b);
    AbortReads(x, records, b, s.commits, s.maintenance, r, s.active.value);
  }

  lemma UpkeepReads(x: Bodies, records: seq<Record>, s: State, r: Record, t: State)
    requires ReadsAs(x, records, s) && Step(x, s, r) == Some(t) && (r.kind == Kind.Checkpoint || r.kind == Kind.Catalog)
    ensures ReadsAs(x, records + [r], t)
  {
    var all := records + [r];
    assert all[..|records|] == records && t.maintenance[..|t.maintenance| - 1] == s.maintenance;
  }

  lemma {:induction false} AcceptedReads(x: Bodies, records: seq<Record>)
    requires RunFrom(StepperOf(x), EMPTY, records).Some?
    ensures ReadsAs(x, records, RunFrom(StepperOf(x), EMPTY, records).value)
  {
    if records != [] {
      var init, r := records[..|records| - 1], records[|records| - 1];
      var s, t := RunFrom(StepperOf(x), EMPTY, init).value, RunFrom(StepperOf(x), EMPTY, records).value;
      AcceptedReads(x, init);
      Unsnoc(records);
      match r.kind
      case Begin => BeginReads(x, init, s, r, t);
      case Mutation => MutationGoesOn(x, init, s, r, t);
      case Commit => CommitGoesOn(x, init, s, r, t);
      case Abort => AbortGoesOn(x, init, s, r, t);
      case _ => UpkeepReads(x, init, s, r, t);
    }
  }

  // ---- what says so is accepted ----

  // The open transaction one mutation earlier.
  ghost function Before(a: Active, run: seq<Record>): Active
    requires a.mutations != [] && |run| >= 1
  {
    Active(a.id, a.begin, a.mutations[..|a.mutations| - 1], BodyBytes(run[1..]), Digested(run[1..]))
  }

  lemma OpenBefore(x: Bodies, run: seq<Record>, a: Active)
    requires IsOpen(x, run, a) && |run| > 1
    ensures a.mutations != [] && IsOpen(x, run[..|run| - 1], Before(a, run[..|run| - 1]))
    ensures Admit(x, Before(a, run[..|run| - 1]), run[|run| - 1]) == Some(a)
  {
    var init, r := run[..|run| - 1], run[|run| - 1];
    assert run[1..] == init[1..] + [r];
    BodySnoc(init[1..], r);
    assert a.mutations == a.mutations[..|a.mutations| - 1] + [a.mutations[|a.mutations| - 1]];
  }

  lemma {:induction false} OpenIsRead(x: Bodies, s: State, run: seq<Record>, a: Active)
    requires s.active.None? && IsOpen(x, run, a)
    ensures RunFrom(StepperOf(x), s, run) == Some(s.(active := Some(a)))
  {
    if |run| == 1 {
      assert run[..0] == [] && run[1..] == [];
      assert RunFrom(StepperOf(x), s, run[..0]) == Some(s);
    } else {
      var init := run[..|run| - 1];
      OpenBefore(x, run, a);
      OpenIsRead(x, s, init, Before(a, init));
    }
  }

  // The transaction as it stood before its last record.
  ghost function Opened(x: Bodies, run: seq<Record>, c: Committed): Active
    requires |run| >= 2 && Opens(x, run[0], c.id)
  {
    Active(c.id, x.decodeBegin(run[0].body).value, c.mutations, BodyBytes(run[1..|run| - 1]), Digested(run[1..|run| - 1]))
  }

  lemma FrameIsRead(x: Bodies, s: State, run: seq<Record>, c: Committed)
    requires s.active.None? && IsFrame(x, run, c) && Later(s.commits, c.manifest.csn)
    ensures RunFrom(StepperOf(x), s, run) == Some(State(s.commits + [c], s.maintenance, None))
  {
    var init := run[..|run| - 1];
    assert init[1..] == run[1..|run| - 1];
    OpenIsRead(x, s, init, Opened(x, run, c));
  }

  lemma AbandonedIsRead(x: Bodies, s: State, run: seq<Record>, a: Active)
    requires s.active.None? && IsAbandoned(x, run, a)
    ensures RunFrom(StepperOf(x), s, run) == Some(s)
  {
    OpenIsRead(x, s, run[..|run| - 1], a);
  }

  lemma RunOnward(x: Bodies, records: seq<Record>, b: nat, s: State)
    requires b <= |records| && RunFrom(StepperOf(x), EMPTY, records[..b]) == Some(s)
    ensures RunFrom(StepperOf(x), EMPTY, records) == RunFrom(StepperOf(x), s, records[b..])
  {
    RunConcat(StepperOf(x), EMPTY, records[..b], records[b..]);
    assert records[..b] + records[b..] == records;
  }

  lemma FrameEnds(x: Bodies, records: seq<Record>, b: nat, commits: seq<Committed>, maintenance: seq<Record>)
    requires b < |records| && commits != [] && EndsInFrame(x, records, commits, b)
    requires RunFrom(StepperOf(x), EMPTY, records[..b]) == Some(State(commits[..|commits| - 1], maintenance, None))
    ensures RunFrom(StepperOf(x), EMPTY, records) == Some(State(commits, maintenance, None))
  {
    var s, c := State(commits[..|commits| - 1], maintenance, None), commits[|commits| - 1];
    RunOnward(x, records, b, s);
    FrameIsRead(x, s, records[b..], c);
    Unsnoc(commits);
  }

  lemma AbandonedEnds(x: Bodies, records: seq<Record>, b: nat, s: State, a: Active)
    requires b < |records| && s.active.None? && IsAbandoned(x, records[b..], a) && RunFrom(StepperOf(x), EMPTY, records[..b]) == Some(s)
    ensures RunFrom(StepperOf(x), EMPTY, records) == Some(s)
  {
    RunOnward(x, records, b, s);
    AbandonedIsRead(x, s, records[b..], a);
  }

  lemma UpkeepEnds(x: Bodies, init: seq<Record>, r: Record, s: State)
    requires s.active.None? && IsUpkeep(x, s.commits, s.maintenance, r) && RunFrom(StepperOf(x), EMPTY, init) == Some(s)
    ensures RunFrom(StepperOf(x), EMPTY, init + [r]) == Some(s.(maintenance := s.maintenance + [r]))
  {
    assert (init + [r])[..|init|] == init;
  }

  lemma {:induction false} SettledIsRead(x: Bodies, records: seq<Record>, commits: seq<Committed>, maintenance: seq<Record>)
    requires Settled(x, records, commits, maintenance)
    ensures RunFrom(StepperOf(x), EMPTY, records) == Some(State(commits, maintenance, None))
    decreases |records|
  {
    if records != [] {
      var n := |records| - 1;
      match records[n].kind
      case Commit =>
        var init := commits[..|commits| - 1];
        var b: nat :| b < n && EndsInFrame(x, records, commits, b) && Settled(x, records[..b], init, maintenance);
        SettledIsRead(x, records[..b], init, maintenance);
        FrameEnds(x, records, b, commits, maintenance);
      case Abort =>
        var b: nat, a :| b < n && IsAbandoned(x, records[b..], a) && Settled(x, records[..b], commits, maintenance);
        SettledIsRead(x, records[..b], commits, maintenance);
        AbandonedEnds(x, records, b, State(commits, maintenance, None), a);
      case _ =>
        var init := maintenance[..|maintenance| - 1];
        SettledIsRead(x, records[..n], commits, init);
        UpkeepEnds(x, records[..n], records[n], State(commits, init, None));
        Unsnoc(records);
        Unsnoc(maintenance);
    }
  }

  /** The language of the log.  Recovery accepts a log, and reads this from it, exactly when the log is
      made up of whole transactions whose commit records account for the records between, of
      abandoned ones and of maintenance records, with at most one transaction open at the end. */
  lemma AcceptedIff(x: Bodies, records: seq<Record>, s: State)
    ensures RunFrom(StepperOf(x), EMPTY, records) == Some(s) <==> ReadsAs(x, records, s)
  {
    if RunFrom(StepperOf(x), EMPTY, records) == Some(s) { AcceptedReads(x, records); }
    if ReadsAs(x, records, s) {
      if s.active.None? {
        SettledIsRead(x, records, s.commits, s.maintenance);
      } else {
        var b: nat :| OpenAt(x, records, s.commits, s.maintenance, s.active.value, b);
        SettledIsRead(x, records[..b], s.commits, s.maintenance);
        RunOnward(x, records, b, s.(active := None));
        OpenIsRead(x, s.(active := None), records[b..], s.active.value);
      }
    }
  }

  // ---- what a digest covers ----

  ghost predicate SameContents(a: seq<Record>, b: seq<Record>) {
    |a| == |b| && forall i :: 0 <= i < |a| ==> a[i].engine == b[i].engine && a[i].body == b[i].body
  }

  ghost predicate Bounded(run: seq<Record>) { forall i :: 0 <= i < |run| ==> |run[i].body| < U32 }

  // From the front: one record's bytes, and those of the rest.
  lemma {:induction false} DigestedFront(run: seq<Record>)
    requires run != []
    ensures Digested(run) == HashedOne(run[0].engine, run[0].body) + Digested(run[1..])
  {
    var n := |run| - 1;
    Unsnoc(run);
    BodySnoc(run[..n], run[n]);
    if n == 0 {
      assert run[..0] == [] && run[1..] == [];
    } else {
      DigestedFront(run[..n]);
      assert run[..n][1..] == run[1..n] && run[1..] == run[1..n] + [run[n]];
      BodySnoc(run[1..n], run[n]);
      ConcatAssociates(HashedOne(run[0].engine, run[0].body), Digested(run[1..n]), HashedOne(run[n].engine, run[n].body));
    }
  }

  lemma HashedTells(e: Engine, body: ByteString, rest: ByteString, f: Engine, other: ByteString, more: ByteString)
    requires |body| < U32 && |other| < U32 && HashedOne(e, body) + rest == HashedOne(f, other) + more
    ensures e == f && body == other && rest == more
  {
    var all := HashedOne(e, body) + rest;
    assert all[0] == EngineCode(e) == EngineCode(f);
    assert all[1..5] == Le(4, |body|) == Le(4, |other|);
    Widths();
    ReadOfLe(4, |body|);
    ReadOfLe(4, |other|);
    assert all[5..5 + |body|] == body == other;
    assert all[5 + |body|..] == rest == more;
  }

  /** Engines, lengths and bodies can be told from what is digested: different mutation records of two
      transactions never give the digest the same input. */
  lemma {:induction false} DigestedTells(a: seq<Record>, b: seq<Record>)
    requires Bounded(a) && Bounded(b) && Digested(a) == Digested(b)
    ensures SameContents(a, b)
  {
    if a != [] && b != [] {
      DigestedFront(a);
      DigestedFront(b);
      HashedTells(a[0].engine, a[0].body, Digested(a[1..]), b[0].engine, b[0].body, Digested(b[1..]));
      DigestedTells(a[1..], b[1..]);
      forall i | 0 <= i < |a| ensures a[i].engine == b[i].engine && a[i].body == b[i].body {
        if i > 0 { assert a[i] == a[1..][i - 1] && b[i] == b[1..][i - 1]; }
      }
    } else if a != [] {
      DigestedFront(a);
    } else if b != [] {
      DigestedFront(b);
    }
  }

  // ---- every recovered transaction ----

  ghost predicate FramedIn(x: Bodies, records: seq<Record>, c: Committed) {
    exists b: nat, e: nat :: b <= e <= |records| && IsFrame(x, records[b..e], c)
  }

  ghost predicate Increasing(commits: seq<Committed>) {
    forall i, j :: 0 <= i < j < |commits| ==> commits[i].manifest.csn < commits[j].manifest.csn
  }

  ghost predicate Orderly(x: Bodies, records: seq<Record>, commits: seq<Committed>) {
    Increasing(commits) && forall i :: 0 <= i < |commits| ==> FramedIn(x, records, commits[i])
  }

  lemma OrderlyStays(x: Bodies, records: seq<Record>, b: nat, commits: seq<Committed>)
    requires b <= |records| && Orderly(x, records[..b], commits)
    ensures Orderly(x, records, commits)
  {
    forall i | 0 <= i < |commits| ensures FramedIn(x, records, commits[i]) {
      var f: nat, e: nat :| f <= e <= b && IsFrame(x, records[..b][f..e], commits[i]);
      assert records[..b][f..e] == records[f..e];
    }
  }

  lemma IncreasingSnoc(commits: seq<Committed>, c: Committed)
    requires Increasing(commits) && Later(commits, c.manifest.csn)
    ensures Increasing(commits + [c])
  {
  }

  lemma OrderlySnoc(x: Bodies, records: seq<Record>, b: nat, init: seq<Committed>, c: Committed)
    requires b < |records| && IsFrame(x, records[b..], c) && Later(init, c.manifest.csn) && Orderly(x, records, init)
    ensures Orderly(x, records, init + [c])
  {
    IncreasingSnoc(init, c);
    assert records[b..] == records[b..|records|];
    assert FramedIn(x, records, c);
  }

  lemma {:induction false} SettledIsOrderly(x: Bodies, records: seq<Record>, commits: seq<Committed>, maintenance: seq<Record>)
    requires Settled(x, records, commits, maintenance)
    ensures Orderly(x, records, commits)
    decreases |records|
  {
    if records != [] {
      var n := |records| - 1;
      match records[n].kind
      case Commit =>
        var b: nat :| b < n && EndsInFrame(x, records, commits, b) && Settled(x, records[..b], commits[..|commits| - 1], maintenance);
        SettledIsOrderly(x, records[..b], commits[..|commits| - 1], maintenance);
        OrderlyStays(x, records, b, commits[..|commits| - 1]);
        OrderlySnoc(x, records, b, commits[..|commits| - 1], commits[|commits| - 1]);
        Unsnoc(commits);
      case Abort =>
        var b: nat, a :| b < n && IsAbandoned(x, records[b..], a) && Settled(x, records[..b], commits, maintenance);
        SettledIsOrderly(x, records[..b], commits, maintenance);
        OrderlyStays(x, records, b, commits);
      case _ =>
        SettledIsOrderly(x, records[..n], commits, maintenance[..|maintenance| - 1]);
        OrderlyStays(x, records, n, commits);
    }
  }

  /** Whatever recovery accepts: commit numbers increase strictly, and every recovered transaction
      stands in the log whole and in one piece, with exactly the mutations recovered, and its begin
      and commit records both account for number, bytes and digest of those. */
  lemma AcceptedIsOrderly(x: Bodies, records: seq<Record>)
    requires RunFrom(StepperOf(x), EMPTY, records).Some?
    ensures Orderly(x, records, RunFrom(StepperOf(x), EMPTY, records).value.commits)
  {
    var s := RunFrom(StepperOf(x), EMPTY, records).value;
    AcceptedReads(x, records);
    if s.active.None? {
      SettledIsOrderly(x, records, s.commits, s.maintenance);
    } else {
      var b: nat :| OpenAt(x, records, s.commits, s.maintenance, s.active.value, b);
      SettledIsOrderly(x, records[..b], s.commits, s.maintenance);
      OrderlyStays(x, records, b, s.commits);
    }
  }
}
