/**
  Admitting commits one at a time and in groups.  Refusals may depend on the state that the commits
  before left behind; reading pages, formats and memory budgets is a parameter.
*/
module GroupAdmission {
  import opened Bytes
  import opened Collections
  import opened ConflictTable
  import opened MutationShape
  import opened Results
  import opened WalBlock
  import opened WalMutation
  import opened WalTransaction

  /** One request.  It is materialized, or it carries only its changes; it is owned if it was begun on
      this database and its governor. */
  datatype Batch = Batch(
    read: Option<nat>, checks: seq<WriteKey>, writes: seq<WriteKey>, values: map<WriteKey, int>,
    mutations: seq<Mutation>, materialized: bool, durability: Durability, owned: bool)

  /** What the engine asks of a batch besides owner, mutations, floor and conflicts: checks on the
      batch alone; checks against the roots it would be applied to; whether its mutations can be
      replayed on the materialized state of these roots; whether its pages and log records can be
      staged over them; and the roots after it. */
  datatype Rules<!S> = Rules(
    preflight: Batch -> bool, fits: (S, Batch) -> bool, replays: (S, Batch) -> bool, stages: (S, Batch) -> bool, effect: (S, Batch) -> S)

  predicate BelowFloor(read: Option<nat>, floor: Option<nat>) {
    read.Some? && floor.Some? && read.value < floor.value
  }

  /** A request is committed alone, or in a group that holds a materialized request or none. */
  datatype Mode = Alone | Grouped(mixed: bool)

  // What is asked of a request in either mode.
  ghost predicate Sound<S>(x: Rules<S>, history: seq<Transaction>, floor: Option<nat>, roots: S, b: Batch) {
    && b.owned && b.mutations != [] && x.preflight(b) && !BelowFloor(b.read, floor) && Disjoint(history, b.read, b.checks)
    && x.fits(roots, b)
  }

  // What else is asked: a single commit of any durability replays a materialized request and stages
  // its pages; a group admits only its own durability, and replays every request if it is mixed.
  predicate Meets<S>(x: Rules<S>, roots: S, b: Batch, mode: Mode) {
    match mode
    case Alone => (b.materialized ==> x.replays(roots, b)) && x.stages(roots, b)
    case Grouped(mixed) => b.durability == Group && (mixed ==> x.replays(roots, b))
  }

  /** A batch may commit over a history and its roots. */
  ghost predicate Admissible<S>(x: Rules<S>, history: seq<Transaction>, floor: Option<nat>, roots: S, b: Batch, mode: Mode) {
    Sound(x, history, floor, roots, b) && Meets(x, roots, b, mode)
  }

  function Numbered(b: Batch, csn: nat): Transaction { Transaction(b.read, b.checks, b.writes, csn, b.values) }

  datatype Progress<S> = Progress(accepted: seq<Transaction>, roots: S, verdicts: seq<bool>, staged: bool)

  /** Deciding requests one after the other, each over all that was accepted before it. */
  ghost function Decide<S>(x: Rules<S>, history: seq<Transaction>, floor: Option<nat>, next: nat, roots: S, batches: seq<Batch>, mode: Mode): (p: Progress<S>)
    ensures |p.verdicts| == |batches|
  {
    if batches == [] then Progress([], roots, [], true)
    else
      var p, b := Decide(x, history, floor, next, roots, batches[..|batches| - 1], mode), batches[|batches| - 1];
      Advance(x, p, b, next, Admissible(x, history + p.accepted, floor, p.roots, b, mode))
  }

  function Advance<S>(x: Rules<S>, p: Progress<S>, b: Batch, next: nat, ok: bool): Progress<S> {
    if ok then
      Progress(p.accepted + [Numbered(b, next + |p.accepted|)], x.effect(p.roots, b), p.verdicts + [true], p.staged && x.stages(p.roots, b))
    else p.(verdicts := p.verdicts + [false])
  }

  ghost function OneByOne<S>(x: Rules<S>, history: seq<Transaction>, floor: Option<nat>, next: nat, roots: S, batches: seq<Batch>): Progress<S> {
    Decide(x, history, floor, next, roots, batches, Alone)
  }

  predicate Mixed(batches: seq<Batch>) { exists i :: 0 <= i < |batches| && batches[i].materialized }

  const MAX_GROUP := 256

  predicate AllOwned(batches: seq<Batch>) { forall i :: 0 <= i < |batches| ==> batches[i].owned }

  predicate Groupable(batches: seq<Batch>) { 1 <= |batches| <= MAX_GROUP && AllOwned(batches) }

  /** A group fails as a whole for its size, for one request of another owner, or if an admitted
      request cannot be staged. */
  ghost function AsGroup<S>(x: Rules<S>, history: seq<Transaction>, floor: Option<nat>, next: nat, roots: S, batches: seq<Batch>): Option<Progress<S>> {
    var p := Decide(x, history, floor, next, roots, batches, Grouped(Mixed(batches)));
    if Groupable(batches) && p.staged then Some(p) else None
  }

  // ---- when a group decides as single commits would ----

  // At its turn the request commits alone, but has another durability or cannot be replayed.
  ghost predicate Stranded<S>(x: Rules<S>, history: seq<Transaction>, floor: Option<nat>, next: nat, roots: S, batches: seq<Batch>, i: nat)
    requires i < |batches|
  {
    var p := OneByOne(x, history, floor, next, roots, batches[..i]);
    && Admissible(x, history + p.accepted, floor, p.roots, batches[i], Alone)
    && (batches[i].durability != Group || (Mixed(batches) && !x.replays(p.roots, batches[i])))
  }

  // At its turn a group admits the request, but cannot stage it.
  ghost predicate Breaks<S>(x: Rules<S>, history: seq<Transaction>, floor: Option<nat>, next: nat, roots: S, batches: seq<Batch>, i: nat)
    requires i < |batches|
  {
    var p := OneByOne(x, history, floor, next, roots, batches[..i]);
    Admissible(x, history + p.accepted, floor, p.roots, batches[i], Grouped(Mixed(batches))) && !x.stages(p.roots, batches[i])
  }

  ghost predicate Parts<S>(x: Rules<S>, history: seq<Transaction>, floor: Option<nat>, next: nat, roots: S, batches: seq<Batch>, i: nat)
    requires i < |batches|
  {
    Stranded(x, history, floor, next, roots, batches, i) || Breaks(x, history, floor, next, roots, batches, i)
  }

  // Request `i` is not decided otherwise.
  lemma {:induction false} SameVerdict<S>(x: Rules<S>, history: seq<Transaction>, floor: Option<nat>, next: nat, roots: S, batches: seq<Batch>, i: nat)
    requires i < |batches| && !Parts(x, history, floor, next, roots, batches, i)
    ensures var p := OneByOne(x, history, floor, next, roots, batches[..i]);
      Admissible(x, history + p.accepted, floor, p.roots, batches[i], Grouped(Mixed(batches))) <==> Admissible(x, history + p.accepted, floor, p.roots, batches[i], Alone)
  {
    assert batches[i].materialized ==> Mixed(batches);
  }

  // Up to the first request that parts them, both run alike.
  lemma {:induction false} SameDecisions<S>(x: Rules<S>, history: seq<Transaction>, floor: Option<nat>, next: nat, roots: S, batches: seq<Batch>, n: nat)
    requires n <= |batches| && forall i :: 0 <= i < n ==> !Parts(x, history, floor, next, roots, batches, i)
    ensures Decide(x, history, floor, next, roots, batches[..n], Grouped(Mixed(batches))) == OneByOne(x, history, floor, next, roots, batches[..n])
    ensures OneByOne(x, history, floor, next, roots, batches[..n]).staged
  {
    if n > 0 {
      SameDecisions(x, history, floor, next, roots, batches, n - 1);
      assert batches[..n][..n - 1] == batches[..n - 1];
      SameVerdict(x, history, floor, next, roots, batches, n - 1);
    }
  }

  lemma {:induction false} DecidePrefix<S>(x: Rules<S>, history: seq<Transaction>, floor: Option<nat>, next: nat, roots: S, batches: seq<Batch>, n: nat, mode: Mode)
    requires n <= |batches|
    ensures Decide(x, history, floor, next, roots, batches[..n], mode).verdicts <= Decide(x, history, floor, next, roots, batches, mode).verdicts
    ensures Decide(x, history, floor, next, roots, batches, mode).staged ==> Decide(x, history, floor, next, roots, batches[..n], mode).staged
  {
    if n < |batches| {
      DecidePrefix(x, history, floor, next, roots, batches[..|batches| - 1], n, mode);
      assert batches[..|batches| - 1][..n] == batches[..n];
    } else {
      assert batches[..n] == batches;
    }
  }

  lemma {:induction false} VerdictAt<S>(x: Rules<S>, history: seq<Transaction>, floor: Option<nat>, next: nat, roots: S, batches: seq<Batch>, i: nat, mode: Mode)
    requires i < |batches|
    ensures var p := Decide(x, history, floor, next, roots, batches[..i], mode);
      && (Decide(x, history, floor, next, roots, batches, mode).verdicts[i] <==> Admissible(x, history + p.accepted, floor, p.roots, batches[i], mode))
      && (Decide(x, history, floor, next, roots, batches, mode).verdicts[i] && !x.stages(p.roots, batches[i]) ==>
           !Decide(x, history, floor, next, roots, batches, mode).staged)
  {
    DecidePrefix(x, history, floor, next, roots, batches, i + 1, mode);
    assert batches[..i + 1][..i] == batches[..i];
  }

  // The first request that parts them gets another verdict, or fails the group.
  lemma {:induction false} FirstDiffers<S>(x: Rules<S>, history: seq<Transaction>, floor: Option<nat>, next: nat, roots: S, batches: seq<Batch>, i: nat)
    requires i < |batches| && Parts(x, history, floor, next, roots, batches, i)
    requires forall j :: 0 <= j < i ==> !Parts(x, history, floor, next, roots, batches, j)
    ensures AsGroup(x, history, floor, next, roots, batches) != Some(OneByOne(x, history, floor, next, roots, batches))
  {
    SameDecisions(x, history, floor, next, roots, batches, i);
    VerdictAt(x, history, floor, next, roots, batches, i, Grouped(Mixed(batches)));
    VerdictAt(x, history, floor, next, roots, batches, i, Alone);
  }

  lemma {:induction false} FirstParts<S>(x: Rules<S>, history: seq<Transaction>, floor: Option<nat>, next: nat, roots: S, batches: seq<Batch>, n: nat)
    returns (i: nat)
    requires n < |batches| && Parts(x, history, floor, next, roots, batches, n)
    ensures i < |batches| && Parts(x, history, floor, next, roots, batches, i)
    ensures forall j :: 0 <= j < i ==> !Parts(x, history, floor, next, roots, batches, j)
  {
    if j: nat :| j < n && Parts(x, history, floor, next, roots, batches, j) {
      i := FirstParts(x, history, floor, next, roots, batches, j);
    } else {
      i := n;
    }
  }

  /** A group decides every request as committing them one by one would, exactly when its size is
      allowed, it owns every request, every request that commits alone at its turn has group
      durability and replays if the group is mixed, and every admitted one can be staged. */
  lemma GroupEqualsOneByOneIff<S>(x: Rules<S>, history: seq<Transaction>, floor: Option<nat>, next: nat, roots: S, batches: seq<Batch>)
    ensures AsGroup(x, history, floor, next, roots, batches) == Some(OneByOne(x, history, floor, next, roots, batches)) <==>
      && 1 <= |batches| <= 256
      && (forall i :: 0 <= i < |batches| ==> batches[i].owned)
      && (forall i :: 0 <= i < |batches| ==> !Stranded(x, history, floor, next, roots, batches, i))
      && (forall i :: 0 <= i < |batches| ==> !Breaks(x, history, floor, next, roots, batches, i))
  {
    if n :| 0 <= n < |batches| && Parts(x, history, floor, next, roots, batches, n) {
      var i := FirstParts(x, history, floor, next, roots, batches, n);
      FirstDiffers(x, history, floor, next, roots, batches, i);
    } else {
      forall i | 0 <= i < |batches|
        ensures !Stranded(x, history, floor, next, roots, batches, i) && !Breaks(x, history, floor, next, roots, batches, i)
      {
        assert !Parts(x, history, floor, next, roots, batches, i);
      }
      SameDecisions(x, history, floor, next, roots, batches, |batches|);
      assert batches[..|batches|] == batches;
    }
  }

  // ---- conditions that do not look at the run ----

  // Over any roots, what fits can be staged.
  ghost predicate Stageable<S(!new)>(x: Rules<S>, batches: seq<Batch>) {
    forall s: S, i :: 0 <= i < |batches| && x.fits(s, batches[i]) ==> x.stages(s, batches[i])
  }

  predicate OneKind(batches: seq<Batch>) { Mixed(batches) ==> forall i :: 0 <= i < |batches| ==> batches[i].materialized }

  predicate AllGroup(batches: seq<Batch>) { forall i :: 0 <= i < |batches| ==> batches[i].durability == Group }

  /** Requests of one kind, all of group durability, are decided as single commits are, over any
      history and any roots. */
  lemma OneKindSuffices<S(!new)>(x: Rules<S>, history: seq<Transaction>, floor: Option<nat>, next: nat, roots: S, batches: seq<Batch>)
    requires Groupable(batches) && AllGroup(batches) && OneKind(batches) && Stageable(x, batches)
    ensures AsGroup(x, history, floor, next, roots, batches) == Some(OneByOne(x, history, floor, next, roots, batches))
  {
    GroupEqualsOneByOneIff(x, history, floor, next, roots, batches);
  }

  // Over any roots, what fits can be replayed.
  ghost predicate Replayable<S(!new)>(x: Rules<S>, batches: seq<Batch>) {
    forall s: S, i :: 0 <= i < |batches| && x.fits(s, batches[i]) ==> x.replays(s, batches[i])
  }

  /** If what fits can also be replayed and staged, only size, owners and durability count. */
  lemma DurabilityDecides<S(!new)>(x: Rules<S>, history: seq<Transaction>, floor: Option<nat>, next: nat, roots: S, batches: seq<Batch>)
    requires Replayable(x, batches) && Stageable(x, batches)
    ensures AsGroup(x, history, floor, next, roots, batches) == Some(OneByOne(x, history, floor, next, roots, batches)) <==>
      && Groupable(batches)
      && forall i :: 0 <= i < |batches| && OneByOne(x, history, floor, next, roots, batches).verdicts[i] ==> batches[i].durability == Group
  {
    GroupEqualsOneByOneIff(x, history, floor, next, roots, batches);
    forall i | 0 <= i < |batches|
      ensures Stranded(x, history, floor, next, roots, batches, i) <==>
        OneByOne(x, history, floor, next, roots, batches).verdicts[i] && batches[i].durability != Group
    {
      VerdictAt(x, history, floor, next, roots, batches, i, Alone);
    }
  }

  // ---- a store of plain values ----

  type Store = map<ByteString, ByteString>

  predicate SetsValue(m: Mutation) { m.engine == Structure && m.opcode == SET_VALUE && Fits(m) }

  function Stored(s: Store, mutations: seq<Mutation>): Store {
    if mutations == [] then s
    else
      var m := mutations[|mutations| - 1];
      Stored(s, mutations[..|mutations| - 1])[m.key := m.value]
  }

  // Setting values can always be replayed and staged.
  function StoreRules(): Rules<Store> {
    Rules((b: Batch) => forall i :: 0 <= i < |b.mutations| ==> SetsValue(b.mutations[i]), (s, b) => true, (s, b) => true, (s, b) => true,
      (s: Store, b: Batch) => Stored(s, b.mutations))
  }

  function SetOne(durability: Durability, owned: bool): Batch {
    var key := WriteKey(Structure, None, [0, 65]);
    Batch(None, [key], [key], map[key := 1], [Change(Structure, SET_VALUE, None, [65], [1], None)], false, durability, owned)
  }

  lemma StoresOne(b: Batch)
    requires b == SetOne(b.durability, b.owned)
    ensures Stored(map[], b.mutations) == map[[65] := [1]]
  {
    assert b.mutations[..0] == [];
  }

  /** A strict request to set one value commits alone and is refused in a group. */
  lemma StrictDiffers()
    ensures OneByOne(StoreRules(), [], None, 1, map[], [SetOne(Strict, true)]).verdicts == [true]
    ensures OneByOne(StoreRules(), [], None, 1, map[], [SetOne(Strict, true)]).roots == map[[65] := [1]]
    ensures var r := AsGroup(StoreRules(), [], None, 1, map[], [SetOne(Strict, true)]); r.Some? && r.value.verdicts == [false]
  {
    var x, empty: Store := StoreRules(), map[];
    var one := [SetOne(Strict, true)];
    assert one[..0] == [];
    VerdictAt(x, [], None, 1, empty, one, 0, Alone);
    VerdictAt(x, [], None, 1, empty, one, 0, Grouped(Mixed(one)));
    StoresOne(one[0]);
  }

  /** A request of another owner, refused alone, takes the request before it down in a group. */
  lemma ForeignDiffers()
    ensures var both := [SetOne(Group, true), SetOne(Group, false)];
      && OneByOne(StoreRules(), [], None, 1, map[], both).verdicts == [true, false]
      && AsGroup(StoreRules(), [], None, 1, map[], both).None?
  {
    var x, empty: Store := StoreRules(), map[];
    var both := [SetOne(Group, true), SetOne(Group, false)];
    assert both[..0] == [] && !both[1].owned;
    VerdictAt(x, [], None, 1, empty, both, 0, Alone);
    VerdictAt(x, [], None, 1, empty, both, 1, Alone);
  }

  // ---- the loops ----

  ghost predicate Tabled(history: seq<Transaction>, latest: Latest) { Admitted(history) && latest == TableOf(history) }

  /** One request: accepted exactly when it is admissible; the table then is that of the longer
      history. */
  method AdmitOne<S>(x: Rules<S>, table: ConflictTable, floor: Option<nat>, csn: nat, roots: S, b: Batch, mode: Mode, ghost history: seq<Transaction>)
    returns (ok: bool)
    requires Tabled(history, table.latest) && forall i :: 0 <= i < |history| ==> history[i].csn < csn
    modifies table
    ensures ok <==> Admissible(x, history, floor, roots, b, mode)
    ensures ok ==> Tabled(history + [Numbered(b, csn)], table.latest)
    ensures !ok ==> table.latest == old(table.latest)
  {
    if !b.owned || b.mutations == [] || !x.preflight(b) || BelowFloor(b.read, floor) {
      return false;
    }
    AdmittedIff(history, b.read, b.checks);
    var conflict := table.Validate(b.read, b.checks);
    if conflict.Some? || !x.fits(roots, b) {
      return false;
    }
    if mode.Grouped? && (b.durability != Group || (mode.mixed && !x.replays(roots, b))) {
      return false;
    }
    if mode.Alone? && ((b.materialized && !x.replays(roots, b)) || !x.stages(roots, b)) {
      return false;
    }
    AdmittedSnoc(history, Numbered(b, csn));
    TableSnoc(history, Numbered(b, csn));
    table.PublishCommitted(csn, b.writes);
    ok := true;
  }

  // The history grown by the accepted requests, with its table.
  ghost predicate Grown(history: seq<Transaction>, next: nat, accepted: seq<Transaction>, latest: Latest) {
    && Tabled(history + accepted, latest)
    && forall k :: 0 <= k < |accepted| ==> accepted[k].csn == next + k
  }

  lemma GrownBelow(history: seq<Transaction>, next: nat, accepted: seq<Transaction>)
    requires (forall i :: 0 <= i < |history| ==> history[i].csn < next) && forall k :: 0 <= k < |accepted| ==> accepted[k].csn == next + k
    ensures forall i :: 0 <= i < |history + accepted| ==> (history + accepted)[i].csn < next + |accepted|
  {
  }

  lemma GrownSnoc(history: seq<Transaction>, next: nat, accepted: seq<Transaction>, t: Transaction, latest: Latest)
    requires (forall k :: 0 <= k < |accepted| ==> accepted[k].csn == next + k) && t.csn == next + |accepted|
    requires Tabled(history + accepted + [t], latest)
    ensures Grown(history, next, accepted + [t], latest)
  {
    ConcatSnoc(history, accepted, t);
  }

  method AdmitNext<S>(x: Rules<S>, table: ConflictTable, floor: Option<nat>, next: nat, accepted: seq<Transaction>, roots: S, b: Batch, mode: Mode,
      ghost history: seq<Transaction>) returns (ok: bool)
    requires Grown(history, next, accepted, table.latest) && forall i :: 0 <= i < |history| ==> history[i].csn < next
    modifies table
    ensures ok <==> Admissible(x, history + accepted, floor, roots, b, mode)
    ensures Grown(history, next, if ok then accepted + [Numbered(b, next + |accepted|)] else accepted, table.latest)
  {
    ghost var known := history + accepted;
    GrownBelow(history, next, accepted);
    ok := AdmitOne(x, table, floor, next + |accepted|, roots, b, mode, known);
    if ok {
      GrownSnoc(history, next, accepted, Numbered(b, next + |accepted|), table.latest);
    }
  }

  lemma DecideNext<S>(x: Rules<S>, history: seq<Transaction>, floor: Option<nat>, next: nat, roots: S, batches: seq<Batch>, i: nat, mode: Mode,
      p: Progress<S>, ok: bool)
    requires i < |batches| && p == Decide(x, history, floor, next, roots, batches[..i], mode)
    requires ok <==> Admissible(x, history + p.accepted, floor, p.roots, batches[i], mode)
    ensures Decide(x, history, floor, next, roots, batches[..i + 1], mode) == Advance(x, p, batches[i], next, ok)
    ensures Advance(x, p, batches[i], next, ok).accepted == if ok then p.accepted + [Numbered(batches[i], next + |p.accepted|)] else p.accepted
  {
    assert batches[..i + 1][..i] == batches[..i];
  }

  method DecideOne<S>(x: Rules<S>, table: ConflictTable, floor: Option<nat>, next: nat, batches: seq<Batch>, i: nat, p: Progress<S>, mode: Mode,
      ghost roots: S, ghost history: seq<Transaction>) returns (q: Progress<S>)
    requires i < |batches| && p == Decide(x, history, floor, next, roots, batches[..i], mode)
    requires Grown(history, next, p.accepted, table.latest) && forall i :: 0 <= i < |history| ==> history[i].csn < next
    modifies table
    ensures q == Decide(x, history, floor, next, roots, batches[..i + 1], mode) && Grown(history, next, q.accepted, table.latest)
  {
    var ok := AdmitNext(x, table, floor, next, p.accepted, p.roots, batches[i], mode, history);
    DecideNext(x, history, floor, next, roots, batches, i, mode, p, ok);
    q := Advance(x, p, batches[i], next, ok);
  }

  // The loop over the requests of a group.
  method DecideAll<S>(x: Rules<S>, table: ConflictTable, floor: Option<nat>, next: nat, roots: S, batches: seq<Batch>, mode: Mode,
      ghost history: seq<Transaction>) returns (p: Progress<S>)
    requires Grown(history, next, [], table.latest) && forall i :: 0 <= i < |history| ==> history[i].csn < next
    modifies table
    ensures p == Decide(x, history, floor, next, roots, batches, mode) && Grown(history, next, p.accepted, table.latest)
  {
    p := Progress([], roots, [], true);
    for i := 0 to |batches|
      invariant p == Decide(x, history, floor, next, roots, batches[..i], mode) && Grown(history, next, p.accepted, table.latest)
    {
      p := DecideOne(x, table, floor, next, batches, i, p, mode, roots, history);
    }
    assert batches[..|batches|] == batches;
  }

  /** Group admission works on a copy of the table.  Its outcome, with verdicts, numbers and roots, is
      that of the group; the table follows the accepted requests, or stays as it was if the group
      fails. */
  method AdmitGroup<S>(x: Rules<S>, table: ConflictTable, floor: Option<nat>, next: nat, roots: S, batches: seq<Batch>, ghost history: seq<Transaction>)
    returns (r: Option<Progress<S>>)
    requires Tabled(history, table.latest) && forall i :: 0 <= i < |history| ==> history[i].csn < next
    modifies table
    ensures r == AsGroup(x, history, floor, next, roots, batches)
    ensures r.Some? ==> Grown(history, next, r.value.accepted, table.latest)
    ensures r.None? ==> table.latest == old(table.latest)
  {
    if |batches| == 0 || |batches| > MAX_GROUP || !AllOwned(batches) {
      return None;
    }
    assert history + [] == history;
    var after := new ConflictTable();
    after.latest := table.latest;
    var p := DecideAll(x, after, floor, next, roots, batches, Grouped(Mixed(batches)), history);
    if !p.staged {
      return None;
    }
    table.latest := after.latest;
    r := Some(p);
  }
}
