/**
  Checkpoint and outcome records: how they are laid out, when recovery accepts one over what it read
  before, and what that keeps true of every accepted log.
*/
module Maintenance {
  import opened Bytes
  import opened Results
  import opened Sorting
  import opened WalBlock
  import opened WalRecovery
  import opened WalTransaction

  // ---- checkpoint bodies ----

  datatype CheckpointBody = CheckpointBody(lsn: nat, visible: nat, generation: nat, digest: ByteString, previous: Option<nat>)

  // HYCHK001
  const CHECKPOINT_MAGIC: ByteString := [72, 89, 67, 72, 75, 48, 48, 49]

  function CheckpointWidths(): (w: seq<nat>)
    ensures w == [8, 8, 8, 32] && Total(w) == 56
  {
    var w := [8, 8, 8, 32];
    assert Total(w[3..]) == 32 && Total(w[2..]) == 40 && Total(w[1..]) == 48;
    w
  }

  function CheckpointFields(c: CheckpointBody): (f: seq<ByteString>)
    ensures |f| == 5
  {
    [CHECKPOINT_MAGIC, Le(8, c.visible), Le(8, c.generation), c.digest, Le(8, OrZero(c.previous))]
  }

  function EncodeCheckpoint(c: CheckpointBody): ByteString { Join(CheckpointFields(c)) }

  function FinishCheckpoint(lsn: nat, f: seq<ByteString>): Option<CheckpointBody>
    requires |f| == 5
  {
    if f[0] != CHECKPOINT_MAGIC || ReadLe(f[1]) == 0 || ReadLe(f[2]) == 0 || AllZero(f[3]) then None
    else Some(CheckpointBody(lsn, ReadLe(f[1]), ReadLe(f[2]), f[3], Optional(ReadLe(f[4]))))
  }

  function DecodeCheckpoint(lsn: nat, body: ByteString): Option<CheckpointBody> {
    if |body| != 64 then None else FinishCheckpoint(lsn, Split(CheckpointWidths(), body))
  }

  // The types bound these fields in the source.
  predicate CheckpointFits(c: CheckpointBody) {
    0 < c.visible < U64 && 0 < c.generation < U64 && |c.digest| == 32 && ReadFits(c.previous)
  }

  lemma CheckpointJoin(f: seq<ByteString>)
    requires |f| == 5 && |f[0]| == 8 && |f[1]| == 8 && |f[2]| == 8 && |f[3]| == 32
    ensures |Join(f)| == 56 + |f[4]| && Split(CheckpointWidths(), Join(f)) == f
  {
    var w := CheckpointWidths();
    JoinLength(w, f);
    SplitOfJoin(w, f);
  }

  lemma CheckpointNumbers(c: CheckpointBody)
    requires CheckpointFits(c)
    ensures ReadLe(Le(8, c.visible)) == c.visible && ReadLe(Le(8, c.generation)) == c.generation
    ensures ReadLe(Le(8, OrZero(c.previous))) == OrZero(c.previous)
  {
    Widths();
    ReadOfLe(8, c.visible);
    ReadOfLe(8, c.generation);
    ReadOfLe(8, OrZero(c.previous));
  }

  lemma CheckpointFinishes(c: CheckpointBody, f: seq<ByteString>)
    requires CheckpointFits(c) && f == CheckpointFields(c)
    ensures FinishCheckpoint(c.lsn, f) == if AllZero(c.digest) then None else Some(c)
  {
    CheckpointNumbers(c);
  }

  /** A checkpoint is read back exactly when its manifest digest is not all zero, which the writer
      does not check. */
  lemma CheckpointReadsBackIff(c: CheckpointBody)
    requires CheckpointFits(c)
    ensures DecodeCheckpoint(c.lsn, EncodeCheckpoint(c)) == if AllZero(c.digest) then None else Some(c)
  {
    var f := CheckpointFields(c);
    CheckpointJoin(f);
    CheckpointFinishes(c, f);
  }

  // ---- outcome bodies ----

  /** What became of a request: committed, rejected or unknown.  A request is named by its resolution
      and by its principal's token. */
  datatype Outcome = Outcome(resolution: nat, runtime: nat, principal: ByteString, token: ByteString, state: nat, csn: Option<nat>)

  const COMMITTED := 1
  const UNKNOWN := 3

  // HYOUT001
  const OUTCOME_MAGIC: ByteString := [72, 89, 79, 85, 84, 48, 48, 49]

  function OutcomeWidths(): (w: seq<nat>)
    ensures w == [8, 1, 7, 16, 16, 32, 32] && Total(w) == 112
  {
    var w := [8, 1, 7, 16, 16, 32, 32];
    assert Total(w[6..]) == 32 && Total(w[5..]) == 64 && Total(w[4..]) == 80 && Total(w[3..]) == 96 && Total(w[2..]) == 103 && Total(w[1..]) == 104;
    w
  }

  predicate StateFits(o: Outcome) { COMMITTED <= o.state <= UNKNOWN && (o.state == COMMITTED <==> o.csn.Some?) }

  function OutcomeFields(o: Outcome): (f: seq<ByteString>)
    requires StateFits(o)
    ensures |f| == 8
  {
    [OUTCOME_MAGIC, [o.state], Zeros(7), Le(16, o.resolution), Le(16, o.runtime), o.principal, o.token, Le(8, OrZero(o.csn))]
  }

  /** The writer refuses a state that does not fit its commit number. */
  function EncodeOutcome(o: Outcome): Option<ByteString> { if StateFits(o) then Some(Join(OutcomeFields(o))) else None }

  function FinishOutcome(f: seq<ByteString>): Option<Outcome>
    requires |f| == 8 && |f[1]| == 1
  {
    if f[0] != OUTCOME_MAGIC || !AllZero(f[2]) || ReadLe(f[3]) == 0 || ReadLe(f[4]) == 0 || AllZero(f[5]) || AllZero(f[6]) then None
    else
      var o := Outcome(ReadLe(f[3]), ReadLe(f[4]), f[5], f[6], f[1][0], Optional(ReadLe(f[7])));
      if StateFits(o) then Some(o) else None
  }

  function DecodeOutcome(body: ByteString): Option<Outcome> {
    if |body| != 120 then None
    else
      JoinOfSplit(OutcomeWidths(), body);
      FinishOutcome(Split(OutcomeWidths(), body))
  }

  // The types bound these fields in the source.
  predicate OutcomeFits(o: Outcome) {
    0 < o.resolution < U128 && 0 < o.runtime < U128 && |o.principal| == 32 && |o.token| == 32 && ReadFits(o.csn)
  }

  lemma OutcomeJoin(f: seq<ByteString>)
    requires |f| == 8 && |f[0]| == 8 && |f[1]| == 1 && |f[2]| == 7 && |f[3]| == 16 && |f[4]| == 16 && |f[5]| == 32 && |f[6]| == 32
    ensures |Join(f)| == 112 + |f[7]| && Split(OutcomeWidths(), Join(f)) == f
  {
    var w := OutcomeWidths();
    JoinLength(w, f);
    SplitOfJoin(w, f);
  }

  lemma OutcomeNumbers(o: Outcome)
    requires OutcomeFits(o)
    ensures ReadLe(Le(16, o.resolution)) == o.resolution && ReadLe(Le(16, o.runtime)) == o.runtime
    ensures ReadLe(Le(8, OrZero(o.csn))) == OrZero(o.csn)
  {
    Widths();
    ReadOfLe(16, o.resolution);
    ReadOfLe(16, o.runtime);
    ReadOfLe(8, OrZero(o.csn));
  }

  lemma OutcomeFinishes(o: Outcome, f: seq<ByteString>)
    requires OutcomeFits(o) && StateFits(o) && f == OutcomeFields(o)
    ensures FinishOutcome(f) == if AllZero(o.principal) || AllZero(o.token) then None else Some(o)
  {
    OutcomeNumbers(o);
  }

  /** The writer takes an outcome in one of three states, with a commit number exactly in the first; it
      is read back exactly when neither principal nor token is all zero, which the writer does not
      check. */
  lemma OutcomeReadsBackIff(o: Outcome)
    requires OutcomeFits(o)
    ensures EncodeOutcome(o).Some? <==> (o.state == 1 && o.csn.Some?) || ((o.state == 2 || o.state == 3) && o.csn.None?)
    ensures EncodeOutcome(o).Some? ==>
      DecodeOutcome(EncodeOutcome(o).value) == if AllZero(o.principal) || AllZero(o.token) then None else Some(o)
  {
    if StateFits(o) {
      var f := OutcomeFields(o);
      OutcomeJoin(f);
      OutcomeFinishes(o, f);
    }
  }

  // ---- accepting a checkpoint ----

  /** Where a log starts that was cut at a checkpoint. */
  datatype Base = Base(visible: nat, lsn: nat, generation: nat)

  predicate HasCsn(commits: seq<Committed>, csn: nat) {
    exists i :: 0 <= i < |commits| && commits[i].manifest.csn == csn
  }

  // The checkpoint follows one at a place, of a generation, that made commits up to a number visible.
  predicate Follows(c: CheckpointBody, lsn: nat, generation: nat, visible: nat) {
    c.previous == Some(lsn) && c.generation > generation && c.visible >= visible
  }

  predicate Visible(base: Option<Base>, commits: seq<Committed>, csn: nat) {
    HasCsn(commits, csn) || (base.Some? && base.value.visible == csn)
  }

  predicate AcceptsCheckpoint(base: Option<Base>, commits: seq<Committed>, before: seq<CheckpointBody>, c: CheckpointBody) {
    && Visible(base, commits, c.visible)
    && if before != [] then
         var p := before[|before| - 1];
         Follows(c, p.lsn, p.generation, p.visible)
       else if base.Some? then Follows(c, base.value.lsn, base.value.generation, base.value.visible)
       else c.previous.None?
  }

  // ---- accepting an outcome ----

  predicate SameToken(a: Outcome, b: Outcome) { a.principal == b.principal && a.token == b.token }

  predicate Concerns(a: Outcome, b: Outcome) { a.resolution == b.resolution || SameToken(a, b) }

  predicate SameRequest(a: Outcome, b: Outcome) { a.resolution == b.resolution && a.runtime == b.runtime && SameToken(a, b) }

  predicate HasCommit(commits: seq<Committed>, id: nat, csn: Option<nat>) {
    exists i :: 0 <= i < |commits| && commits[i].id == id && Some(commits[i].manifest.csn) == csn
  }

  // The last entry that concerns the outcome, if any, is the same request, still unknown.
  predicate PriorAllows(table: seq<Outcome>, o: Outcome) {
    if table == [] then true
    else
      var last := table[|table| - 1];
      if Concerns(last, o) then SameRequest(last, o) && last.state == UNKNOWN else PriorAllows(table[..|table| - 1], o)
  }

  predicate AcceptsOutcome(commits: seq<Committed>, table: seq<Outcome>, o: Outcome, transaction: nat) {
    PriorAllows(table, o) && o.runtime == transaction && (o.state == COMMITTED ==> HasCommit(commits, o.runtime, o.csn))
  }

  /** The entry of the same resolution is replaced in place; a new resolution comes last. */
  function Settle(table: seq<Outcome>, o: Outcome): seq<Outcome> {
    if table == [] then [o]
    else if table[0].resolution == o.resolution then [o] + table[1..]
    else [table[0]] + Settle(table[1..], o)
  }

  /** The search for a prior entry, from the end. */
  method PriorAgrees(table: seq<Outcome>, o: Outcome) returns (ok: bool)
    ensures ok <==> PriorAllows(table, o)
  {
    var i := |table|;
    assert table[..i] == table;
    while i > 0 && !Concerns(table[i - 1], o)
      invariant 0 <= i <= |table| && (PriorAllows(table, o) <==> PriorAllows(table[..i], o))
    {
      assert table[..i][..i - 1] == table[..i - 1];
      i := i - 1;
    }
    ok := i == 0 || (SameRequest(table[i - 1], o) && table[i - 1].state == UNKNOWN);
  }

  /** The update in place, or at the end. */
  method SettleInPlace(table: seq<Outcome>, o: Outcome) returns (settled: seq<Outcome>)
    ensures settled == Settle(table, o)
  {
    var k := 0;
    while k < |table| && table[k].resolution != o.resolution
      invariant 0 <= k <= |table| && Settle(table, o) == table[..k] + Settle(table[k..], o)
    {
      assert table[k..][1..] == table[k + 1..] && table[..k + 1] == table[..k] + [table[k]];
      k := k + 1;
    }
    if k < |table| {
      assert table[k..][1..] == table[k + 1..] && table[k := o] == table[..k] + ([o] + table[k + 1..]);
      settled := table[k := o];
    } else {
      assert table[..k] == table && table[k..] == [];
      settled := table + [o];
    }
  }

  method RecoverOutcome(commits: seq<Committed>, table: seq<Outcome>, o: Outcome, transaction: nat) returns (r: Option<seq<Outcome>>)
    ensures r == if AcceptsOutcome(commits, table, o, transaction) then Some(Settle(table, o)) else None
  {
    var agrees := PriorAgrees(table, o);
    if !agrees || o.runtime != transaction || (o.state == COMMITTED && !HasCommit(commits, o.runtime, o.csn)) {
      return None;
    }
    var settled := SettleInPlace(table, o);
    return Some(settled);
  }

  // ---- what was read before ----

  function Checkpoints(records: seq<Record>): seq<CheckpointBody> {
    if records == [] then []
    else
      var before, r := Checkpoints(records[..|records| - 1]), records[|records| - 1];
      var c := DecodeCheckpoint(r.lsn, r.body);
      if r.kind == Kind.Checkpoint && c.Some? then before + [c.value] else before
  }

  predicate IsCheckpoint(r: Record) { r.kind == Kind.Checkpoint }

  predicate IsOutcome(r: Record) { r.kind == Kind.Catalog }

  // Every checkpoint and every outcome record can be read.
  ghost predicate Readable(records: seq<Record>) {
    forall i :: 0 <= i < |records| ==>
      && (IsCheckpoint(records[i]) ==> DecodeCheckpoint(records[i].lsn, records[i].body).Some?)
      && (IsOutcome(records[i]) ==> DecodeOutcome(records[i].body).Some?)
  }

  /** Of readable records all checkpoints and all outcomes are there, in order. */
  lemma {:induction false} AllAreThere(records: seq<Record>)
    requires Readable(records)
    ensures var cs := Filter(IsCheckpoint, records);
      |Checkpoints(records)| == |cs| && forall i :: 0 <= i < |cs| ==> DecodeCheckpoint(cs[i].lsn, cs[i].body) == Some(Checkpoints(records)[i])
    ensures var os := Filter(IsOutcome, records);
      |Outcomes(records)| == |os| && forall i :: 0 <= i < |os| ==> DecodeOutcome(os[i].body) == Some(Outcomes(records)[i])
  {
    if records != [] {
      AllAreThere(records[..|records| - 1]);
    }
  }

  // The outcomes of all records, in order.
  function Outcomes(records: seq<Record>): seq<Outcome> {
    if records == [] then []
    else
      var before, r := Outcomes(records[..|records| - 1]), records[|records| - 1];
      var o := DecodeOutcome(r.body);
      if r.kind == Kind.Catalog && o.Some? then before + [o.value] else before
  }

  // The table that recovery keeps of them.
  function Table(outcomes: seq<Outcome>): seq<Outcome> {
    if outcomes == [] then [] else Settle(Table(outcomes[..|outcomes| - 1]), outcomes[|outcomes| - 1])
  }

  /** Recovery's decision on a checkpoint or outcome record. */
  predicate Accepts(base: Option<Base>, commits: seq<Committed>, before: seq<Record>, r: Record) {
    match r.kind
    case Checkpoint =>
      var c := DecodeCheckpoint(r.lsn, r.body);
      c.Some? && AcceptsCheckpoint(base, commits, Checkpoints(before), c.value)
    case Catalog =>
      var o := DecodeOutcome(r.body);
      o.Some? && AcceptsOutcome(commits, Table(Outcomes(before)), o.value, r.transaction)
    case _ => false
  }

  // ---- chains of checkpoints ----

  /** Each checkpoint names the one before it, generations grow, visibility never shrinks, and what is
      visible was committed. */
  ghost predicate Chained(base: Option<Base>, commits: seq<Committed>, cs: seq<CheckpointBody>) {
    && (forall i :: 0 <= i < |cs| ==> Visible(base, commits, cs[i].visible))
    && (cs != [] ==>
         if base.Some? then Follows(cs[0], base.value.lsn, base.value.generation, base.value.visible) else cs[0].previous.None?)
    && forall i :: 0 < i < |cs| ==> Follows(cs[i], cs[i - 1].lsn, cs[i - 1].generation, cs[i - 1].visible)
  }

  lemma VisibleStays(base: Option<Base>, commits: seq<Committed>, more: seq<Committed>, csn: nat)
    requires commits <= more && Visible(base, commits, csn)
    ensures Visible(base, more, csn)
  {
    if HasCsn(commits, csn) {
      var i :| 0 <= i < |commits| && commits[i].manifest.csn == csn;
      assert more[i].manifest.csn == csn;
    }
  }

  lemma ChainedStays(base: Option<Base>, commits: seq<Committed>, more: seq<Committed>, cs: seq<CheckpointBody>)
    requires commits <= more && Chained(base, commits, cs)
    ensures Chained(base, more, cs)
  {
    forall i | 0 <= i < |cs| ensures Visible(base, more, cs[i].visible) {
      VisibleStays(base, commits, more, cs[i].visible);
    }
  }

  lemma ChainedSnoc(base: Option<Base>, commits: seq<Committed>, cs: seq<CheckpointBody>, c: CheckpointBody)
    requires Chained(base, commits, cs) && AcceptsCheckpoint(base, commits, cs, c)
    ensures Chained(base, commits, cs + [c])
  {
  }

  /** In a chain, any later checkpoint has a higher generation and sees at least as much. */
  lemma {:induction false} ChainedGrows(base: Option<Base>, commits: seq<Committed>, cs: seq<CheckpointBody>, i: nat, j: nat)
    requires Chained(base, commits, cs) && i < j < |cs|
    ensures cs[i].generation < cs[j].generation && cs[i].visible <= cs[j].visible
  {
    if i < j - 1 { ChainedGrows(base, commits, cs, i, j - 1); }
    assert Follows(cs[j], cs[j - 1].lsn, cs[j - 1].generation, cs[j - 1].visible);
  }

  // ---- requests decided once ----

  ghost predicate Unique(table: seq<Outcome>) {
    forall i, j :: 0 <= i < j < |table| ==> !Concerns(table[i], table[j])
  }

  // Whatever concerns the outcome is the same request, still unknown.
  ghost predicate AllAllow(table: seq<Outcome>, o: Outcome) {
    forall i :: 0 <= i < |table| && Concerns(table[i], o) ==> SameRequest(table[i], o) && table[i].state == UNKNOWN
  }

  /** Over a table without double entries, looking at the last prior entry is enough. */
  lemma {:induction false} PriorDecides(table: seq<Outcome>, o: Outcome)
    requires Unique(table)
    ensures PriorAllows(table, o) <==> AllAllow(table, o)
  {
    if table != [] {
      var n := |table| - 1;
      var last, init := table[n], table[..n];
      if Concerns(last, o) && SameRequest(last, o) {
        forall i | 0 <= i < n ensures !Concerns(table[i], o) {
          assert !Concerns(table[i], table[n]);
        }
      } else if !Concerns(last, o) {
        PriorDecides(init, o);
        assert forall i :: 0 <= i < n ==> init[i] == table[i];
      } else {
        assert Concerns(table[n], o);
      }
    }
  }

  // Every entry is the old one, except the one entry for the outcome.
  ghost predicate SettledAt(table: seq<Outcome>, o: Outcome, settled: seq<Outcome>, k: nat) {
    || (k < |table| && table[k].resolution == o.resolution && settled == table[k := o])
    || (k == |table| && (forall i :: 0 <= i < |table| ==> table[i].resolution != o.resolution) && settled == table + [o])
  }

  lemma {:induction false} SettlesAt(table: seq<Outcome>, o: Outcome) returns (k: nat)
    ensures SettledAt(table, o, Settle(table, o), k)
  {
    if table == [] {
      k := 0;
    } else if table[0].resolution == o.resolution {
      k := 0;
      assert table[0 := o] == [o] + table[1..];
    } else {
      var j := SettlesAt(table[1..], o);
      k := j + 1;
      SettledShift(table, o, j);
    }
  }

  lemma SettledShift(table: seq<Outcome>, o: Outcome, j: nat)
    requires table != [] && table[0].resolution != o.resolution && SettledAt(table[1..], o, Settle(table[1..], o), j)
    ensures SettledAt(table, o, Settle(table, o), j + 1)
  {
    var rest := table[1..];
    if j < |rest| {
      assert [table[0]] + rest[j := o] == table[j + 1 := o];
    } else {
      assert [table[0]] + (rest + [o]) == table + [o];
      forall i | 0 <= i < |table| ensures table[i].resolution != o.resolution {
        if i > 0 { assert table[i] == rest[i - 1]; }
      }
    }
  }

  lemma UniqueSettles(table: seq<Outcome>, o: Outcome)
    requires Unique(table) && AllAllow(table, o)
    ensures Unique(Settle(table, o))
  {
    var k := SettlesAt(table, o);
    var settled := Settle(table, o);
    forall i, j | 0 <= i < j < |settled| ensures !Concerns(settled[i], settled[j]) {
      if i != k && j != k {
        assert !Concerns(table[i], table[j]);
      } else {
        OneEntry(table, o, k, if i == k then j else i);
      }
    }
  }

  // No entry but its own concerns the outcome.
  lemma OneEntry(table: seq<Outcome>, o: Outcome, k: nat, i: nat)
    requires Unique(table) && AllAllow(table, o) && i < |table| && i != k
    requires k < |table| ==> table[k].resolution == o.resolution
    requires k >= |table| ==> forall j :: 0 <= j < |table| ==> table[j].resolution != o.resolution
    ensures !Concerns(table[i], o)
  {
    if k < |table| {
      assert SameRequest(table[k], o);
      if i < k { assert !Concerns(table[i], table[k]); } else { assert !Concerns(table[k], table[i]); }
    }
  }

  // The table shows a request that was told of, and shows its decision once there is one.
  ghost predicate Shown(table: seq<Outcome>, o: Outcome) { exists i :: 0 <= i < |table| && Shows(table[i], o) }

  ghost predicate Shows(entry: Outcome, o: Outcome) { SameRequest(entry, o) && (o.state != UNKNOWN ==> entry == o) }

  ghost predicate Told(outcomes: seq<Outcome>, table: seq<Outcome>) {
    Unique(table) && forall k :: 0 <= k < |outcomes| ==> Shown(table, outcomes[k])
  }

  lemma ShownStays(table: seq<Outcome>, o: Outcome, p: Outcome)
    requires Unique(table) && AllAllow(table, o) && Shown(table, p)
    ensures Shown(Settle(table, o), p)
  {
    var i :| 0 <= i < |table| && Shows(table[i], p);
    var k := SettlesAt(table, o);
    if i == k {
      assert SameRequest(table[k], o) && table[k].state == UNKNOWN;
      assert Shows(Settle(table, o)[k], p);
    } else {
      assert Settle(table, o)[i] == table[i];
    }
  }

  lemma ShownNow(table: seq<Outcome>, o: Outcome)
    ensures Shown(Settle(table, o), o)
  {
    var k := SettlesAt(table, o);
    assert Shows(Settle(table, o)[k], o);
  }

  lemma ToldSnoc(outcomes: seq<Outcome>, table: seq<Outcome>, o: Outcome)
    requires Told(outcomes, table) && AllAllow(table, o)
    ensures Told(outcomes + [o], Settle(table, o))
  {
    UniqueSettles(table, o);
    forall k | 0 <= k < |outcomes + [o]| ensures Shown(Settle(table, o), (outcomes + [o])[k]) {
      if k < |outcomes| { ShownStays(table, o, outcomes[k]); } else { ShownNow(table, o); }
    }
  }

  /** An earlier outcome that concerns a later one tells of the same request, and did not decide it. */
  ghost predicate DecidedOnce(outcomes: seq<Outcome>) {
    forall i, j :: 0 <= i < j < |outcomes| && Concerns(outcomes[i], outcomes[j]) ==>
      SameRequest(outcomes[i], outcomes[j]) && outcomes[i].state == UNKNOWN
  }

  lemma DecidedSnoc(outcomes: seq<Outcome>, table: seq<Outcome>, o: Outcome)
    requires DecidedOnce(outcomes) && Told(outcomes, table) && AllAllow(table, o)
    ensures DecidedOnce(outcomes + [o])
  {
    forall k | 0 <= k < |outcomes| && Concerns(outcomes[k], o) ensures SameRequest(outcomes[k], o) && outcomes[k].state == UNKNOWN {
      assert Shown(table, outcomes[k]);
      var i :| 0 <= i < |table| && Shows(table[i], outcomes[k]);
      assert Concerns(table[i], o);
    }
  }

  // Every committed outcome names a commit.
  ghost predicate Truthful(commits: seq<Committed>, outcomes: seq<Outcome>) {
    forall i :: 0 <= i < |outcomes| && outcomes[i].state == COMMITTED ==> HasCommit(commits, outcomes[i].runtime, outcomes[i].csn)
  }

  lemma TruthfulStays(commits: seq<Committed>, more: seq<Committed>, outcomes: seq<Outcome>)
    requires commits <= more && Truthful(commits, outcomes)
    ensures Truthful(more, outcomes)
  {
    forall i | 0 <= i < |outcomes| && outcomes[i].state == COMMITTED ensures HasCommit(more, outcomes[i].runtime, outcomes[i].csn) {
      var k :| 0 <= k < |commits| && commits[k].id == outcomes[i].runtime && Some(commits[k].manifest.csn) == outcomes[i].csn;
      assert more[k] == commits[k];
    }
  }

  // ---- every accepted log ----

  ghost predicate Maintains(x: Bodies, base: Option<Base>) {
    forall commits, before, r :: x.maintains(commits, before, r) <==> Accepts(base, commits, before, r)
  }

  ghost predicate Resolved(commits: seq<Committed>, outcomes: seq<Outcome>) {
    Told(outcomes, Table(outcomes)) && DecidedOnce(outcomes) && Truthful(commits, outcomes)
  }

  ghost predicate Maintained(base: Option<Base>, s: State) {
    && Readable(s.maintenance)
    && Chained(base, s.commits, Checkpoints(s.maintenance)) && Resolved(s.commits, Outcomes(s.maintenance))
  }

  lemma RecordsSnoc(before: seq<Record>, r: Record)
    ensures (before + [r])[..|before|] == before && (before + [r])[|before|] == r
  {
  }

  lemma ReadableSnoc(before: seq<Record>, r: Record)
    requires Readable(before)
    requires IsCheckpoint(r) ==> DecodeCheckpoint(r.lsn, r.body).Some?
    requires IsOutcome(r) ==> DecodeOutcome(r.body).Some?
    ensures Readable(before + [r])
  {
  }

  lemma CheckpointRead(before: seq<Record>, r: Record, c: CheckpointBody)
    requires IsCheckpoint(r) && DecodeCheckpoint(r.lsn, r.body) == Some(c)
    ensures Checkpoints(before + [r]) == Checkpoints(before) + [c] && Outcomes(before + [r]) == Outcomes(before)
  {
    RecordsSnoc(before, r);
  }

  lemma OutcomeRead(before: seq<Record>, r: Record, o: Outcome)
    requires IsOutcome(r) && DecodeOutcome(r.body) == Some(o)
    ensures Checkpoints(before + [r]) == Checkpoints(before) && Outcomes(before + [r]) == Outcomes(before) + [o]
  {
    RecordsSnoc(before, r);
  }

  lemma CheckpointMaintains(base: Option<Base>, s: State, r: Record)
    requires Maintained(base, s) && r.kind == Kind.Checkpoint && Accepts(base, s.commits, s.maintenance, r)
    ensures Maintained(base, s.(maintenance := s.maintenance + [r]))
  {
    var c := DecodeCheckpoint(r.lsn, r.body).value;
    ReadableSnoc(s.maintenance, r);
    CheckpointRead(s.maintenance, r, c);
    ChainedSnoc(base, s.commits, Checkpoints(s.maintenance), c);
  }

  lemma OutcomesSnoc(outcomes: seq<Outcome>, o: Outcome)
    ensures Table(outcomes + [o]) == Settle(Table(outcomes), o)
  {
    assert (outcomes + [o])[..|outcomes|] == outcomes;
  }

  lemma ResolvedSnoc(commits: seq<Committed>, outcomes: seq<Outcome>, o: Outcome, transaction: nat)
    requires Resolved(commits, outcomes) && AcceptsOutcome(commits, Table(outcomes), o, transaction)
    ensures Resolved(commits, outcomes + [o])
  {
    PriorDecides(Table(outcomes), o);
    OutcomesSnoc(outcomes, o);
    ToldSnoc(outcomes, Table(outcomes), o);
    DecidedSnoc(outcomes, Table(outcomes), o);
  }

  lemma OutcomeMaintains(base: Option<Base>, s: State, r: Record)
    requires Maintained(base, s) && r.kind == Kind.Catalog && Accepts(base, s.commits, s.maintenance, r)
    ensures Maintained(base, s.(maintenance := s.maintenance + [r]))
  {
    var o := DecodeOutcome(r.body).value;
    ReadableSnoc(s.maintenance, r);
    OutcomeRead(s.maintenance, r, o);
    ResolvedSnoc(s.commits, Outcomes(s.maintenance), o, r.transaction);
  }

  // A record adds to the commits, or to the maintenance, or to neither.
  lemma StepMaintenance(x: Bodies, s: State, r: Record, t: State)
    requires Step(x, s, r) == Some(t)
    ensures s.commits <= t.commits
    ensures
      || t.maintenance == s.maintenance
      || (t.commits == s.commits && t.maintenance == s.maintenance + [r] && x.maintains(s.commits, s.maintenance, r))
  {
  }

  lemma StepMaintains(x: Bodies, base: Option<Base>, s: State, r: Record, t: State)
    requires Maintains(x, base) && Maintained(base, s) && Step(x, s, r) == Some(t)
    ensures Maintained(base, t)
  {
    StepMaintenance(x, s, r, t);
    if t.maintenance == s.maintenance {
      ChainedStays(base, s.commits, t.commits, Checkpoints(s.maintenance));
      TruthfulStays(s.commits, t.commits, Outcomes(s.maintenance));
    } else if r.kind == Kind.Checkpoint {
      CheckpointMaintains(base, s, r);
    } else {
      OutcomeMaintains(base, s, r);
    }
  }

  /** In every log that recovery accepts, the checkpoints form one chain over commits of the log, every
      request is decided at most once and under one name, and no outcome claims a commit that is not
      there. */
  lemma {:induction false} AcceptedIsMaintained(x: Bodies, base: Option<Base>, records: seq<Record>)
    requires Maintains(x, base) && RunFrom(StepperOf(x), EMPTY, records).Some?
    ensures Maintained(base, RunFrom(StepperOf(x), EMPTY, records).value)
  {
    if records != [] {
      var n := |records| - 1;
      AcceptedIsMaintained(x, base, records[..n]);
      StepMaintains(x, base, RunFrom(StepperOf(x), EMPTY, records[..n]).value, records[n], RunFrom(StepperOf(x), EMPTY, records).value);
    }
  }
}
