/**
  Publication of root sets: readers take snapshots while one writer at a time stages a single root
  or a group of roots.  The writer lock is part of the state, and every call is one step.
*/
module CommitCoordinator {
  import opened Bytes
  import opened Results

  datatype Slot = Slot(engine: nat, partition: nat)

  datatype Anchor = Anchor(lsn: nat, zeroDigest: bool)

  datatype RootSet = RootSet(
    visible: Option<nat>, catalog: nat, anchor: Option<Anchor>, roots: map<Slot, nat>, blob: nat, generation: nat, floor: Option<nat>)

  /** Who holds the writer lock, and what is staged under it. */
  datatype Writer =
    | Free
    | Single(base: RootSet, roots: map<Slot, nat>, blob: Option<nat>, generation: Option<nat>, floor: Option<nat>)
    | Grouped(initial: RootSet, staged: seq<RootSet>)

  // A next number of zero stands for an exhausted sequence.
  datatype Coordinator = Coordinator(current: RootSet, next: nat, writer: Writer)

  datatype Step =
    | BeginWrite
    | SetRoot(slot: Slot, page: nat)
    | SetBlob(blob: nat)
    | SetGeneration(generation: nat)
    | SetFloor(floor: nat)
    | Commit(catalog: nat, anchor: Anchor)
    | BeginGroup
    | Stage(catalog: nat, anchor: Anchor, roots: map<Slot, nat>, blob: nat)
    | PublishGroup
    | Drop

  function Genesis(catalog: nat): RootSet { RootSet(None, catalog, None, map[], 0, 1, None) }

  function New(catalog: nat): Coordinator { Coordinator(Genesis(catalog), 1, Free) }

  function Restore(root: RootSet): Option<Coordinator> {
    if root.visible.None? || root.anchor.None? then None
    else Some(Coordinator(root, if root.visible.value + 1 < U64 then root.visible.value + 1 else 0, Free))
  }

  // A committed root set needs an anchor with a digest and a floor that is not in its future.
  function CommittedRoot(csn: nat, catalog: nat, anchor: Anchor, roots: map<Slot, nat>, blob: nat, generation: nat, floor: nat): Option<RootSet> {
    if anchor.zeroDigest || floor > csn then None
    else Some(RootSet(Some(csn), catalog, Some(anchor), roots, blob, generation, Some(floor)))
  }

  predicate ValidTransition(base: RootSet, csn: nat, generation: nat, floor: nat) {
    if base.visible.None? then generation == 1 && floor == csn
    else if generation != base.generation then generation == base.generation + 1 && generation < U64 && floor == csn
    else base.floor == Some(floor)
  }

  function Or<T>(a: Option<T>, b: T): T { if a.Some? then a.value else b }

  /** The root that a single transaction publishes, or nothing when it fails. */
  function SingleRoot(c: Coordinator, catalog: nat, anchor: Anchor): Option<RootSet>
    requires c.writer.Single?
  {
    var w := c.writer;
    if anchor.zeroDigest || c.next == 0 || c.next + 1 >= U64 then None
    else
      var generation := Or(w.generation, w.base.generation);
      var floor := if w.floor.Some? then w.floor.value else Or(w.base.floor, c.next);
      if !ValidTransition(w.base, c.next, generation, floor) then None
      else CommittedRoot(c.next, catalog, anchor, w.roots, Or(w.blob, w.base.blob), generation, floor)
  }

  function Base(w: Writer): RootSet
    requires w.Grouped?
  {
    if w.staged == [] then w.initial else w.staged[|w.staged| - 1]
  }

  function StagedRoot(c: Coordinator, catalog: nat, anchor: Anchor, roots: map<Slot, nat>, blob: nat): Option<RootSet>
    requires c.writer.Grouped?
  {
    var csn := c.next + |c.writer.staged|;
    if csn >= U64 || csn == 0 then None
    else CommittedRoot(csn, catalog, anchor, roots, blob, Base(c.writer).generation, Or(Base(c.writer).floor, csn))
  }

  /** One step.  A step that the lock or an error rules out leaves the published state alone; a failed
      commit or publication gives the transaction up. */
  function Next(c: Coordinator, s: Step): Coordinator {
    match s
    case BeginWrite =>
      if !c.writer.Free? || c.next == 0 then c else c.(writer := Single(c.current, c.current.roots, None, None, None))
    case SetRoot(slot, page) => if c.writer.Single? then c.(writer := c.writer.(roots := c.writer.roots[slot := page])) else c
    case SetBlob(blob) => if c.writer.Single? then c.(writer := c.writer.(blob := Some(blob))) else c
    case SetGeneration(generation) => if c.writer.Single? then c.(writer := c.writer.(generation := Some(generation))) else c
    case SetFloor(floor) => if c.writer.Single? then c.(writer := c.writer.(floor := Some(floor))) else c
    case Commit(catalog, anchor) =>
      if !c.writer.Single? then c
      else
        var root := SingleRoot(c, catalog, anchor);
        if root.None? then c.(writer := Free) else Coordinator(root.value, c.next + 1, Free)
    case BeginGroup => if !c.writer.Free? || c.next == 0 then c else c.(writer := Grouped(c.current, []))
    case Stage(catalog, anchor, roots, blob) =>
      if !c.writer.Grouped? then c
      else
        var root := StagedRoot(c, catalog, anchor, roots, blob);
        if root.None? then c else c.(writer := Grouped(c.writer.initial, c.writer.staged + [root.value]))
    case PublishGroup =>
      if !c.writer.Grouped? then c
      else if c.writer.staged == [] || c.next + |c.writer.staged| >= U64 then c.(writer := Free)
      else Coordinator(c.writer.staged[|c.writer.staged| - 1], c.next + |c.writer.staged|, Free)
    case Drop => c.(writer := Free)
  }

  // The roots that a step commits: one, a whole group, or none.
  function Commits(c: Coordinator, s: Step): seq<RootSet> {
    if s.Commit? && c.writer.Single? && SingleRoot(c, s.catalog, s.anchor).Some? then [SingleRoot(c, s.catalog, s.anchor).value]
    else if s.PublishGroup? && c.writer.Grouped? && c.next + |c.writer.staged| < U64 then c.writer.staged
    else []
  }

  // ---- invariants ----

  /** A published root: committed roots are anchored, keep their floor between the first commit and
      themselves, and have the first page generation exactly while the floor is the first commit. */
  ghost predicate ValidRoot(r: RootSet) {
    if r.visible.None? then r.anchor.None? && r.floor.None? && r.generation == 1
    else
      && 0 < r.visible.value < U64 && r.anchor.Some? && r.floor.Some? && 1 <= r.floor.value <= r.visible.value
      && 1 <= r.generation < U64 && (r.generation == 1 <==> r.floor.value == 1)
  }

  ghost predicate NextAfter(r: RootSet, next: nat) {
    if r.visible.None? then next == 1 else next == if r.visible.value + 1 < U64 then r.visible.value + 1 else 0
  }

  // One root directly follows another.
  ghost predicate Follows(a: RootSet, b: RootSet) {
    && ValidRoot(b) && b.visible.Some? && b.visible.value == (if a.visible.None? then 1 else a.visible.value + 1)
    && (a.floor.Some? ==> a.floor.value <= b.floor.value) && a.generation <= b.generation
    && (b.generation != a.generation ==> b.generation == a.generation + 1 && b.floor == b.visible)
  }

  function Prior(first: RootSet, rest: seq<RootSet>, i: nat): RootSet
    requires i <= |rest|
  {
    if i == 0 then first else rest[i - 1]
  }

  ghost predicate Linked(first: RootSet, rest: seq<RootSet>, i: nat)
    requires i < |rest|
  {
    Follows(Prior(first, rest, i), rest[i])
  }

  ghost predicate Chain(first: RootSet, rest: seq<RootSet>) {
    forall i :: 0 <= i < |rest| ==> Linked(first, rest, i)
  }

  ghost predicate Valid(c: Coordinator) {
    && ValidRoot(c.current) && NextAfter(c.current, c.next)
    && (c.writer.Single? ==> c.next != 0 && c.writer.base == c.current)
    && (c.writer.Grouped? ==> c.next != 0 && c.writer.initial == c.current && Chain(c.current, c.writer.staged))
  }

  lemma SingleFollows(c: Coordinator, catalog: nat, anchor: Anchor, r: RootSet)
    requires Valid(c) && c.writer.Single? && SingleRoot(c, catalog, anchor) == Some(r)
    ensures Follows(c.current, r) && NextAfter(r, c.next + 1)
  {
  }

  lemma {:induction false} ChainNumbers(first: RootSet, rest: seq<RootSet>, next: nat)
    requires Chain(first, rest) && NextAfter(first, next) && next != 0
    ensures forall i :: 0 <= i < |rest| ==> rest[i].visible == Some(next + i) && ValidRoot(rest[i])
  {
    if rest != [] {
      var n := |rest| - 1;
      var init := rest[..n];
      forall i | 0 <= i < |init| ensures Linked(first, init, i) {
        assert Linked(first, rest, i);
      }
      ChainNumbers(first, init, next);
      assert Linked(first, rest, n);
      assert forall i :: 0 <= i < n ==> rest[i] == init[i];
    }
  }

  lemma StagedFollows(c: Coordinator, catalog: nat, anchor: Anchor, roots: map<Slot, nat>, blob: nat, r: RootSet)
    requires Valid(c) && c.writer.Grouped? && StagedRoot(c, catalog, anchor, roots, blob) == Some(r)
    ensures Chain(c.current, c.writer.staged + [r])
  {
    var staged := c.writer.staged;
    ChainNumbers(c.current, staged, c.next);
    var all := staged + [r];
    forall i | 0 <= i < |all| ensures Linked(c.current, all, i) {
      if i < |staged| {
        assert Linked(c.current, staged, i);
      } else {
        assert Follows(Base(c.writer), r);
      }
    }
  }

  /** Every step keeps the invariant, and what it commits follows the current root one by one. */
  lemma StepKeeps(c: Coordinator, s: Step)
    requires Valid(c)
    ensures Valid(Next(c, s)) && Chain(c.current, Commits(c, s))
    ensures Next(c, s).current == Prior(c.current, Commits(c, s), |Commits(c, s)|)
  {
    match s
    case Commit(catalog, anchor) =>
      if c.writer.Single? && SingleRoot(c, catalog, anchor).Some? { SingleFollows(c, catalog, anchor, SingleRoot(c, catalog, anchor).value); }
    case Stage(catalog, anchor, roots, blob) =>
      if c.writer.Grouped? && StagedRoot(c, catalog, anchor, roots, blob).Some? {
        StagedFollows(c, catalog, anchor, roots, blob, StagedRoot(c, catalog, anchor, roots, blob).value);
      }
    case PublishGroup =>
      if c.writer.Grouped? { ChainNumbers(c.current, c.writer.staged, c.next); }
    case _ =>
  }

  // ---- runs ----

  function Run(c: Coordinator, steps: seq<Step>): Coordinator {
    if steps == [] then c else Next(Run(c, steps[..|steps| - 1]), steps[|steps| - 1])
  }

  function Committed(c: Coordinator, steps: seq<Step>): seq<RootSet> {
    if steps == [] then []
    else Committed(c, steps[..|steps| - 1]) + Commits(Run(c, steps[..|steps| - 1]), steps[|steps| - 1])
  }

  lemma {:induction false} ChainJoins(first: RootSet, a: seq<RootSet>, b: seq<RootSet>)
    requires Chain(first, a) && Chain(Prior(first, a, |a|), b)
    ensures Chain(first, a + b)
  {
    var all := a + b;
    forall i | 0 <= i < |all| ensures Linked(first, all, i) {
      if i < |a| {
        assert Linked(first, a, i);
      } else {
        assert Linked(Prior(first, a, |a|), b, i - |a|);
      }
    }
  }

  /** Over every run: the invariant holds, the commits form one chain from the starting root, and the
      visible root is the last of them. */
  lemma {:induction false} RunKeeps(c: Coordinator, steps: seq<Step>)
    requires Valid(c)
    ensures Valid(Run(c, steps)) && Chain(c.current, Committed(c, steps))
    ensures Run(c, steps).current == Prior(c.current, Committed(c, steps), |Committed(c, steps)|)
  {
    if steps != [] {
      var init, s := steps[..|steps| - 1], steps[|steps| - 1];
      RunKeeps(c, init);
      StepKeeps(Run(c, init), s);
      ChainJoins(c.current, Committed(c, init), Commits(Run(c, init), s));
    }
  }

  /** Commit numbers of a run from the beginning are 1, 2, 3, ... without gaps; the retention floor
      never falls, page generations rise one at a time and only with the floor; and every committed
      root satisfies the storage rule that the log checks. */
  lemma RunIsGapless(catalog: nat, steps: seq<Step>)
    ensures forall i :: 0 <= i < |Committed(New(catalog), steps)| ==>
      Committed(New(catalog), steps)[i].visible == Some(i + 1) && ValidRoot(Committed(New(catalog), steps)[i])
    ensures Chain(Genesis(catalog), Committed(New(catalog), steps))
  {
    RunKeeps(New(catalog), steps);
    ChainNumbers(Genesis(catalog), Committed(New(catalog), steps), 1);
  }

  // ---- transactions that are given up ----

  // Steps that only change what is staged.
  predicate Staging(s: Step) {
    s.SetRoot? || s.SetBlob? || s.SetGeneration? || s.SetFloor? || s.Stage?
  }

  lemma {:induction false} StagingKeeps(c: Coordinator, steps: seq<Step>)
    requires !c.writer.Free? && forall i :: 0 <= i < |steps| ==> Staging(steps[i])
    ensures Run(c, steps).current == c.current && Run(c, steps).next == c.next && !Run(c, steps).writer.Free?
  {
    if steps != [] { StagingKeeps(c, steps[..|steps| - 1]); }
  }

  lemma {:induction false} RunConcat(c: Coordinator, a: seq<Step>, b: seq<Step>)
    ensures Run(c, a + b) == Run(Run(c, a), b)
  {
    if b == [] {
      assert a + b == a;
    } else {
      assert (a + b)[..|a + b| - 1] == a + b[..|b| - 1];
      RunConcat(c, a, b[..|b| - 1]);
    }
  }

  /** A transaction or group that is dropped leaves no trace, whatever was staged in it. */
  lemma DroppedLeavesNoTrace(c: Coordinator, begin: Step, staging: seq<Step>)
    requires c.writer.Free? && (begin.BeginWrite? || begin.BeginGroup?) && c.next != 0
    requires forall i :: 0 <= i < |staging| ==> Staging(staging[i])
    ensures Run(c, [begin] + staging + [Drop]) == c
  {
    var started := Next(c, begin);
    assert [begin][..0] == [] && Run(c, []) == c;
    assert Run(c, [begin]) == started;
    RunConcat(c, [begin], staging);
    StagingKeeps(started, staging);
    var steps := [begin] + staging + [Drop];
    assert steps[..|steps| - 1] == [begin] + staging;
  }

  // ---- what is published ----

  /** The last step of a kind. */
  function LastOf(steps: seq<Step>, kind: Step -> bool): (r: Option<Step>)
    ensures r.Some? ==> kind(r.value) && exists i :: 0 <= i < |steps| && steps[i] == r.value && forall j :: i < j < |steps| ==> !kind(steps[j])
    ensures r.None? ==> forall i :: 0 <= i < |steps| ==> !kind(steps[i])
  {
    if steps == [] then None
    else if kind(steps[|steps| - 1]) then Some(steps[|steps| - 1])
    else LastOf(steps[..|steps| - 1], kind)
  }

  function SetsRoot(slot: Slot): Step -> bool { (s: Step) => s.SetRoot? && s.slot == slot }

  predicate SetsBlob(s: Step) { s.SetBlob? }

  predicate SetsGeneration(s: Step) { s.SetGeneration? }

  predicate SetsFloor(s: Step) { s.SetFloor? }

  function PageAt(roots: map<Slot, nat>, slot: Slot): Option<nat> { if slot in roots then Some(roots[slot]) else None }

  // Every slot holds the page it was last set to, or else the page it held before.
  ghost predicate PagesAre(roots: map<Slot, nat>, before: map<Slot, nat>, steps: seq<Step>) {
    forall slot :: PageAt(roots, slot) == var s := LastOf(steps, SetsRoot(slot)); if s.Some? then Some(s.value.page) else PageAt(before, slot)
  }

  function LastBlob(steps: seq<Step>): Option<nat> {
    var s := LastOf(steps, SetsBlob);
    if s.Some? then Some(s.value.blob) else None
  }

  function LastGeneration(steps: seq<Step>): Option<nat> {
    var s := LastOf(steps, SetsGeneration);
    if s.Some? then Some(s.value.generation) else None
  }

  function LastFloor(steps: seq<Step>): Option<nat> {
    var s := LastOf(steps, SetsFloor);
    if s.Some? then Some(s.value.floor) else None
  }

  // What a transaction begun over `base` has staged.
  ghost predicate Staged(w: Writer, base: RootSet, steps: seq<Step>) {
    && w.Single? && w.base == base && PagesAre(w.roots, base.roots, steps)
    && w.blob == LastBlob(steps) && w.generation == LastGeneration(steps) && w.floor == LastFloor(steps)
  }

  lemma LastSnoc(steps: seq<Step>, s: Step, kind: Step -> bool)
    ensures LastOf(steps + [s], kind) == if kind(s) then Some(s) else LastOf(steps, kind)
  {
    assert (steps + [s])[..|steps|] == steps;
  }

  lemma PagesSnoc(roots: map<Slot, nat>, before: map<Slot, nat>, steps: seq<Step>, s: Step)
    requires PagesAre(roots, before, steps)
    ensures PagesAre(if s.SetRoot? then roots[s.slot := s.page] else roots, before, steps + [s])
  {
    forall slot ensures LastOf(steps + [s], SetsRoot(slot)) == if SetsRoot(slot)(s) then Some(s) else LastOf(steps, SetsRoot(slot)) {
      LastSnoc(steps, s, SetsRoot(slot));
    }
  }

  lemma StagedSnoc(c: Coordinator, base: RootSet, steps: seq<Step>, s: Step)
    requires Staged(c.writer, base, steps) && !s.Commit? && !s.Drop?
    ensures Staged(Next(c, s).writer, base, steps + [s]) && Next(c, s).current == c.current && Next(c, s).next == c.next
  {
    PagesSnoc(c.writer.roots, base.roots, steps, s);
    LastSnoc(steps, s, SetsBlob);
    LastSnoc(steps, s, SetsGeneration);
    LastSnoc(steps, s, SetsFloor);
  }

  lemma {:induction false} StagedByRun(c: Coordinator, steps: seq<Step>)
    requires c.writer == Single(c.current, c.current.roots, None, None, None)
    requires forall i :: 0 <= i < |steps| ==> !steps[i].Commit? && !steps[i].Drop?
    ensures Staged(Run(c, steps).writer, c.current, steps) && Run(c, steps).current == c.current && Run(c, steps).next == c.next
  {
    if steps != [] {
      var init, s := steps[..|steps| - 1], steps[|steps| - 1];
      StagedByRun(c, init);
      StagedSnoc(Run(c, init), c.current, init, s);
      assert init + [s] == steps;
    }
  }

  // A first commit has the first page generation and is its own floor; a later one keeps both, or
  // moves to the next generation and becomes the floor.
  ghost predicate StorageMoves(base: RootSet, csn: nat, generation: nat, floor: nat) {
    || (base.visible.None? && generation == 1 && floor == csn)
    || (base.visible.Some? && generation == base.generation && Some(floor) == base.floor)
    || (base.visible.Some? && generation == base.generation + 1 < U64 && floor == csn)
  }

  function Between(begin: Step, steps: seq<Step>, end: Step): seq<Step> { [begin] + steps + [end] }

  lemma RunBetween(c: Coordinator, begin: Step, steps: seq<Step>, end: Step)
    ensures Run(c, Between(begin, steps, end)) == Next(Run(Next(c, begin), steps), end)
    ensures Run(c, [begin] + steps) == Run(Next(c, begin), steps)
  {
    assert [begin][..0] == [] && Run(c, []) == c && Run(c, [begin]) == Next(c, begin);
    RunConcat(c, [begin], steps);
    var all := Between(begin, steps, end);
    assert all[..|all| - 1] == [begin] + steps;
  }

  /** A transaction, whatever it stages and whatever others try meanwhile.  Its commit succeeds exactly
      with an anchor, a number to spare and a proper move of generation and floor; then it publishes
      every slot at its last page or the base's, the last blob or the base's, and the given catalog
      version and anchor.  A failed commit leaves no trace. */
  lemma CommitPublishes(c: Coordinator, steps: seq<Step>, catalog: nat, anchor: Anchor)
    requires Valid(c) && c.writer.Free? && c.next != 0
    requires forall i :: 0 <= i < |steps| ==> !steps[i].Commit? && !steps[i].Drop?
    ensures var after := Run(c, Between(BeginWrite, steps, Commit(catalog, anchor)));
      var generation := Or(LastGeneration(steps), c.current.generation);
      var floor := Or(LastFloor(steps), Or(c.current.floor, c.next));
      if !anchor.zeroDigest && c.next + 1 < U64 && StorageMoves(c.current, c.next, generation, floor) then
        && PagesAre(after.current.roots, c.current.roots, steps)
        && after.current == RootSet(Some(c.next), catalog, Some(anchor), after.current.roots, Or(LastBlob(steps), c.current.blob), generation, Some(floor))
        && after.next == c.next + 1 && after.writer.Free?
      else after == c
  {
    RunBetween(c, BeginWrite, steps, Commit(catalog, anchor));
    StagedByRun(Next(c, BeginWrite), steps);
  }

  // ---- what a group publishes ----

  /** The stages that succeed: those with an anchor, while numbers last. */
  function Taken(next: nat, steps: seq<Step>): (taken: seq<Step>)
    ensures forall k :: 0 <= k < |taken| ==> taken[k].Stage?
  {
    if steps == [] then []
    else
      var before, s := Taken(next, steps[..|steps| - 1]), steps[|steps| - 1];
      if s.Stage? && !s.anchor.zeroDigest && next + |before| < U64 then before + [s] else before
  }

  // Root `k` of a group carries what stage `k` gave, over the storage that the group began with.
  ghost predicate CarriesStage(base: RootSet, next: nat, r: RootSet, k: nat, s: Step) {
    && s.Stage?
    && r == RootSet(Some(next + k), s.catalog, Some(s.anchor), s.roots, s.blob, base.generation, Some(Or(base.floor, next)))
  }

  ghost predicate CarriesAll(base: RootSet, next: nat, roots: seq<RootSet>, taken: seq<Step>) {
    |roots| == |taken| && forall k :: 0 <= k < |taken| ==> CarriesStage(base, next, roots[k], k, taken[k])
  }

  lemma CarriesSnoc(base: RootSet, next: nat, roots: seq<RootSet>, taken: seq<Step>, r: RootSet, s: Step)
    requires CarriesAll(base, next, roots, taken) && CarriesStage(base, next, r, |taken|, s)
    ensures CarriesAll(base, next, roots + [r], taken + [s])
  {
  }

  // The group is under way over a root, with these stages taken.
  ghost predicate GroupOver(c: Coordinator, base: RootSet, next: nat, taken: seq<Step>) {
    c.current == base && c.next == next && c.writer.Grouped? && c.writer.initial == base && CarriesAll(base, next, c.writer.staged, taken)
  }

  lemma GroupBase(c: Coordinator, base: RootSet, next: nat, taken: seq<Step>)
    requires GroupOver(c, base, next, taken) && ValidRoot(base) && NextAfter(base, next) && next != 0
    ensures Base(c.writer).generation == base.generation && Or(Base(c.writer).floor, next + |taken|) == Or(base.floor, next) <= next + |taken|
  {
    if taken != [] { assert CarriesStage(base, next, c.writer.staged[|taken| - 1], |taken| - 1, taken[|taken| - 1]); }
  }

  lemma StageCarries(c: Coordinator, base: RootSet, next: nat, taken: seq<Step>, s: Step)
    requires GroupOver(c, base, next, taken) && ValidRoot(base) && NextAfter(base, next) && next != 0 && s.Stage?
    ensures GroupOver(Next(c, s), base, next, if !s.anchor.zeroDigest && next + |taken| < U64 then taken + [s] else taken)
  {
    GroupBase(c, base, next, taken);
    var root := StagedRoot(c, s.catalog, s.anchor, s.roots, s.blob);
    if root.Some? { CarriesSnoc(base, next, c.writer.staged, taken, root.value, s); }
  }

  lemma {:induction false} GroupCarries(c: Coordinator, steps: seq<Step>)
    requires Valid(c) && c.next != 0 && c.writer == Grouped(c.current, [])
    requires forall i :: 0 <= i < |steps| ==> !steps[i].PublishGroup? && !steps[i].Drop?
    ensures GroupOver(Run(c, steps), c.current, c.next, Taken(c.next, steps))
  {
    if steps != [] {
      var init, s := steps[..|steps| - 1], steps[|steps| - 1];
      GroupCarries(c, init);
      if s.Stage? { StageCarries(Run(c, init), c.current, c.next, Taken(c.next, init), s); }
    }
  }

  lemma GroupIsQuiet(c: Coordinator, s: Step)
    requires c.writer.Grouped? && !s.PublishGroup? && !s.Drop?
    ensures Commits(c, s) == [] && Next(c, s).writer.Grouped?
  {
  }

  lemma {:induction false} NoCommitsBefore(c: Coordinator, steps: seq<Step>, all: seq<Step>)
    requires c.writer.Free? && c.next != 0 && forall i :: 0 <= i < |steps| ==> !steps[i].PublishGroup? && !steps[i].Drop?
    requires all == [BeginGroup] + steps
    ensures Committed(c, all) == [] && Run(c, all).writer.Grouped?
  {
    var init, last := all[..|all| - 1], all[|all| - 1];
    if steps == [] {
      assert init == [];
    } else {
      assert init == [BeginGroup] + steps[..|steps| - 1];
      NoCommitsBefore(c, steps[..|steps| - 1], init);
      GroupIsQuiet(Run(c, init), last);
    }
  }

  lemma CommittedBetween(c: Coordinator, steps: seq<Step>)
    requires c.writer.Free? && c.next != 0 && forall i :: 0 <= i < |steps| ==> !steps[i].PublishGroup? && !steps[i].Drop?
    ensures Committed(c, Between(BeginGroup, steps, PublishGroup)) == Commits(Run(Next(c, BeginGroup), steps), PublishGroup)
  {
    var all := Between(BeginGroup, steps, PublishGroup);
    assert all[..|all| - 1] == [BeginGroup] + steps;
    RunBetween(c, BeginGroup, steps, PublishGroup);
    NoCommitsBefore(c, steps, [BeginGroup] + steps);
  }

  lemma PublishCarries(c: Coordinator, base: RootSet, next: nat, taken: seq<Step>)
    requires GroupOver(c, base, next, taken)
    ensures if taken != [] && next + |taken| < U64 then
        && CarriesAll(base, next, Commits(c, PublishGroup), taken)
        && Next(c, PublishGroup) == Coordinator(Commits(c, PublishGroup)[|taken| - 1], next + |taken|, Free)
      else Commits(c, PublishGroup) == [] && Next(c, PublishGroup) == Coordinator(base, next, Free)
  {
  }

  /** A group, whatever others try meanwhile: the k-th root it commits carries catalog version, anchor,
      roots and blob of the k-th stage that succeeded, under the k-th number from the next.  The last
      one becomes visible; a group without a stage or without a number to spare leaves no trace. */
  lemma GroupPublishes(c: Coordinator, steps: seq<Step>, all: seq<Step>, taken: seq<Step>)
    requires Valid(c) && c.writer.Free? && c.next != 0
    requires forall i :: 0 <= i < |steps| ==> !steps[i].PublishGroup? && !steps[i].Drop?
    requires all == Between(BeginGroup, steps, PublishGroup) && taken == Taken(c.next, steps)
    ensures if taken != [] && c.next + |taken| < U64 then
        && CarriesAll(c.current, c.next, Committed(c, all), taken)
        && Run(c, all) == Coordinator(Committed(c, all)[|taken| - 1], c.next + |taken|, Free)
      else Committed(c, all) == [] && Run(c, all) == c
  {
    var begun := Next(c, BeginGroup);
    RunBetween(c, BeginGroup, steps, PublishGroup);
    GroupCarries(begun, steps);
    CommittedBetween(c, steps);
    PublishCarries(Run(begun, steps), c.current, c.next, taken);
  }

  // The root's own number is its place among the commits.
  ghost predicate InChain(all: seq<RootSet>, r: RootSet) {
    r.visible.None? || (1 <= r.visible.value <= |all| && all[r.visible.value - 1] == r)
  }

  lemma PriorInChain(first: RootSet, all: seq<RootSet>)
    requires first.visible.None? && forall i :: 0 <= i < |all| ==> all[i].visible == Some(i + 1)
    ensures InChain(all, Prior(first, all, |all|))
  {
  }

  lemma PrefixInChain(some: seq<RootSet>, all: seq<RootSet>, r: RootSet)
    requires some <= all && InChain(some, r)
    ensures InChain(all, r)
  {
  }

  /** A snapshot names a root of the run's own chain, and no later step changes what it names. */
  lemma SnapshotIsCommitted(catalog: nat, before: seq<Step>, after: seq<Step>)
    ensures InChain(Committed(New(catalog), before + after), Run(New(catalog), before).current)
  {
    var c := New(catalog);
    CommittedConcat(c, before, after);
    RunIsGapless(catalog, before);
    RunKeeps(c, before);
    PriorInChain(Genesis(catalog), Committed(c, before));
    PrefixInChain(Committed(c, before), Committed(c, before + after), Run(c, before).current);
  }

  lemma {:induction false} CommittedConcat(c: Coordinator, a: seq<Step>, b: seq<Step>)
    ensures Committed(c, a) <= Committed(c, a + b)
  {
    if b == [] {
      assert a + b == a;
    } else {
      assert (a + b)[..|a + b| - 1] == a + b[..|b| - 1];
      CommittedConcat(c, a, b[..|b| - 1]);
    }
  }

  /** A restored coordinator is valid, and every run of it numbers its commits on from the restored
      root without a gap, until the numbers are exhausted. */
  lemma RestoreResumes(r: RootSet, steps: seq<Step>)
    requires ValidRoot(r) && r.visible.Some?
    ensures Restore(r).Some? && Valid(Restore(r).value) && Restore(r).value.current == r
    ensures Chain(r, Committed(Restore(r).value, steps))
    ensures forall i :: 0 <= i < |Committed(Restore(r).value, steps)| ==> Committed(Restore(r).value, steps)[i].visible == Some(r.visible.value + 1 + i)
  {
    var c := Restore(r).value;
    RunKeeps(c, steps);
    if c.next != 0 {
      ChainNumbers(r, Committed(c, steps), c.next);
    } else {
      assert Committed(c, steps) != [] ==> Linked(r, Committed(c, steps), 0);
    }
  }
}
