/**
  The keys that a commit checks and publishes, the keys that a start derives again from the logged
  mutations, and exactly where the two differ.
*/
module ConflictKeys {
  import opened Bytes
  import opened ConflictTable
  import opened Results
  import opened WalBlock
  import opened WalMutation

  // ---- keys ----

  function AnnKey(index: nat): WriteKey { WriteKey(Search, Some(index), [12]) }

  function LifecycleKey(index: nat): WriteKey { WriteKey(Search, Some(index), [13]) }

  function ObjectKey(id: nat): WriteKey { WriteKey(Kernel, None, [1] + BigEndian(16, id)) }

  function NameKey(m: Mutation): WriteKey {
    WriteKey(Kernel, None, [2, EngineCode(m.engine)] + if m.key == [] then m.value else m.key)
  }

  const VACUUM_KEY := WriteKey(Kernel, None, [255])

  datatype Probe = Probe(index: nat, key: ByteString)

  function UniqueKey(p: Probe): WriteKey { WriteKey(Relational, Some(p.index), [6] + p.key) }

  // Values and whole collections: what sets, deletes or expires one, and every list and stream step.
  predicate WholeValue(o: Opcode) {
    o == 3 || 8 <= o <= 10 || o == 14 || 20 <= o <= 25 || o == 30 || o == 31 || 33 <= o <= 36 || 44 <= o <= 49
  }

  predicate HashField(o: Opcode) { o == SET_HASH_FIELD || o == DELETE_HASH_FIELD || o == EXPIRE_HASH_FIELD }

  predicate SetMember(o: Opcode) { o == ADD_SET_MEMBER || o == DELETE_SET_MEMBER }

  predicate Vector(o: Opcode) { o == UPSERT_VECTOR || o == DELETE_VECTOR }

  predicate Point(o: Opcode) { Vector(o) || o == FENCE_VECTOR_ABSENCE }

  predicate Rebuild(o: Opcode) { o == CONSOLIDATE_ANN || o == PUBLISH_ANN_BULK }

  predicate Creates(o: Opcode) {
    o == CREATE_TABLE || o == CREATE_SECONDARY_INDEX || o == CREATE_INDEX || o == CREATE_ANN_INDEX || o == CREATE_CATALOG_OBJECT
  }

  function Identity(m: Mutation): ByteString {
    if WholeValue(m.opcode) then [0] + m.key
    else if HashField(m.opcode) then [1] + m.key
    else if SetMember(m.opcode) then [2] + m.key
    else if m.opcode == UPSERT_SORTED_SET_MEMBER || m.opcode == DELETE_SORTED_SET_MEMBER then [4] + m.key
    else if Point(m.opcode) then [3] + m.key
    else if m.opcode == COMPACT_STRUCTURE then [5]
    else if m.opcode == MIGRATE_STRUCTURE then [8]
    else if m.opcode == MIGRATE_CATALOG then [11]
    else if m.opcode == CLEANUP_STRUCTURE then [9] + m.key
    else if m.opcode == COMPACT_SEARCH then [6]
    else if m.opcode == CONSOLIDATE_ANN then [7]
    else if m.opcode == PUBLISH_ANN_BULK then [10]
    else if m.opcode == ANN_AUTHORITY_V1 then [12]
    else m.key
  }

  // The keys of one mutation that do not depend on the point indexes.
  function PlainKeys(m: Mutation, publish: bool): seq<WriteKey> {
    if m.opcode == ANN_AUTHORITY_V2 then []
    else if m.opcode == VACUUM_PAGE_GENERATION then [VACUUM_KEY]
    else
      [WriteKey(m.engine, m.target, Identity(m))]
      + (if publish && (m.opcode == FENCE_VECTOR_ABSENCE || Rebuild(m.opcode)) && m.target.Some? then [LifecycleKey(m.target.value)] else [])
      + (if publish && (m.opcode == CREATE_ANN_INDEX || Rebuild(m.opcode)) && m.target.Some? then [AnnKey(m.target.value)] else [])
      + (if Creates(m.opcode) then (if m.target.Some? then [ObjectKey(m.target.value)] else []) + [NameKey(m)] else [])
  }

  // A vector written outside the point path claims its whole index.
  function IndexKeys(m: Mutation, publish: bool, points: set<nat>): seq<WriteKey> {
    if publish && Vector(m.opcode) && m.target.Some? && m.target.value !in points then [AnnKey(m.target.value)] else []
  }

  function KeysOf(mutations: seq<Mutation>, publish: bool, points: set<nat>): seq<WriteKey> {
    if mutations == [] then []
    else
      var m := mutations[|mutations| - 1];
      KeysOf(mutations[..|mutations| - 1], publish, points) + PlainKeys(m, publish) + IndexKeys(m, publish, points)
  }

  ghost predicate Gives(m: Mutation, publish: bool, points: set<nat>, k: WriteKey) {
    k in PlainKeys(m, publish) || k in IndexKeys(m, publish, points)
  }

  ghost predicate SomeGives(mutations: seq<Mutation>, publish: bool, points: set<nat>, k: WriteKey) {
    exists m :: m in mutations && Gives(m, publish, points, k)
  }

  lemma SomeGivesSnoc(mutations: seq<Mutation>, publish: bool, points: set<nat>, k: WriteKey)
    requires mutations != []
    ensures SomeGives(mutations, publish, points, k) <==>
      SomeGives(mutations[..|mutations| - 1], publish, points, k) || Gives(mutations[|mutations| - 1], publish, points, k)
  {
    var init, last := mutations[..|mutations| - 1], mutations[|mutations| - 1];
    assert forall m :: m in mutations <==> m in init || m == last;
  }

  lemma {:induction false} KeysMean(mutations: seq<Mutation>, publish: bool, points: set<nat>, k: WriteKey)
    ensures k in KeysOf(mutations, publish, points) <==> SomeGives(mutations, publish, points, k)
  {
    if mutations != [] {
      KeysMean(mutations[..|mutations| - 1], publish, points, k);
      SomeGivesSnoc(mutations, publish, points, k);
    }
  }

  // ---- targets ----

  ghost predicate Targeted(mutations: seq<Mutation>, kinds: set<Opcode>, i: nat) {
    exists m :: m in mutations && m.opcode in kinds && m.target == Some(i)
  }

  function Targets(mutations: seq<Mutation>, kinds: set<Opcode>): (r: set<nat>)
    ensures forall i: nat :: i in r <==> Targeted(mutations, kinds, i)
  {
    set m | m in mutations && m.opcode in kinds && m.target.Some? :: m.target.value
  }

  const VECTORS: set<Opcode> := {UPSERT_VECTOR, DELETE_VECTOR}
  const POINTS: set<Opcode> := {UPSERT_VECTOR, DELETE_VECTOR, FENCE_VECTOR_ABSENCE}
  const CREATIONS: set<Opcode> := {CREATE_ANN_INDEX}
  const SIGNS: set<Opcode> := {ANN_AUTHORITY_V2, FENCE_VECTOR_ABSENCE}

  /** A batch as it is committed: the indexes it treats in the old way, and the unique keys that it
      looked up while it was built. */
  datatype WriteBatch = WriteBatch(mutations: seq<Mutation>, legacy: set<nat>, probes: seq<Probe>)

  /** The indexes on which the batch works point by point. */
  function Points(b: WriteBatch): set<nat> {
    set i | i in Targets(b.mutations, POINTS) && i !in Targets(b.mutations, CREATIONS) && i !in b.legacy
  }

  function UniqueKeys(probes: seq<Probe>): (r: seq<WriteKey>)
    ensures |r| == |probes| && forall i :: 0 <= i < |r| ==> r[i] == UniqueKey(probes[i])
  {
    seq(|probes|, i requires 0 <= i < |probes| => UniqueKey(probes[i]))
  }

  // ---- published keys ----

  function BatchWrites(b: WriteBatch): seq<WriteKey> { KeysOf(b.mutations, true, Points(b)) + UniqueKeys(b.probes) }

  /** The indexes that the log itself shows to be worked on point by point. */
  function LoggedPoints(logged: seq<Mutation>): set<nat> {
    Targets(logged, SIGNS)
  }

  function LoggedWrites(logged: seq<Mutation>): seq<WriteKey> { KeysOf(logged, true, LoggedPoints(logged)) }

  method MutationWriteKeys(logged: seq<Mutation>) returns (keys: seq<WriteKey>)
    ensures keys == LoggedWrites(logged)
  {
    var points := LoggedPoints(logged);
    keys := [];
    for i := 0 to |logged|
      invariant keys == KeysOf(logged[..i], true, points)
    {
      assert logged[..i + 1][..i] == logged[..i];
      keys := keys + PlainKeys(logged[i], true) + IndexKeys(logged[i], true, points);
    }
    assert logged[..|logged|] == logged;
  }

  // ---- checked keys ----

  // The collection that a field or member key belongs to.
  function CollectionOf(key: ByteString): Option<ByteString> {
    if |key| < 4 then None
    else
      var n := ReadLe([key[3], key[2], key[1], key[0]]);
      if 4 + n <= |key| then Some(key[4..4 + n]) else None
  }

  // What one mutation adds to the checks beyond its own keys.
  function ExtraChecks(m: Mutation): seq<WriteKey> {
    (if (m.opcode == ANN_AUTHORITY_V2 || m.opcode == DELETE_VECTOR) && m.target.Some? then [AnnKey(m.target.value)] else [])
    + (if (m.opcode == FENCE_VECTOR_ABSENCE || Rebuild(m.opcode)) && m.target.Some? then [LifecycleKey(m.target.value)] else [])
    + (if m.engine == Relational && (m.opcode == INSERT_ROW || m.opcode == UPDATE_ROW || m.opcode == DELETE_ROW) && m.target.Some?
       then [ObjectKey(m.target.value)] else [])
    + (if (HashField(m.opcode) || SetMember(m.opcode)) && CollectionOf(m.key).Some?
       then [WriteKey(Structure, m.target, [0] + CollectionOf(m.key).value)] else [])
  }

  function ChecksOf(mutations: seq<Mutation>): seq<WriteKey> {
    if mutations == [] then []
    else
      var m := mutations[|mutations| - 1];
      ChecksOf(mutations[..|mutations| - 1]) + PlainKeys(m, false) + ExtraChecks(m)
  }

  ghost predicate InChecks(b: WriteBatch, k: WriteKey) {
    k in ChecksOf(b.mutations) || (exists i: nat :: i in Points(b) && k == AnnKey(i)) || k in UniqueKeys(b.probes)
  }

  ghost predicate Raises(m: Mutation, k: WriteKey) { k in PlainKeys(m, false) || k in ExtraChecks(m) }

  ghost predicate SomeRaises(mutations: seq<Mutation>, k: WriteKey) { exists m :: m in mutations && Raises(m, k) }

  lemma SomeRaisesSnoc(mutations: seq<Mutation>, k: WriteKey)
    requires mutations != []
    ensures SomeRaises(mutations, k) <==> SomeRaises(mutations[..|mutations| - 1], k) || Raises(mutations[|mutations| - 1], k)
  {
    var init, last := mutations[..|mutations| - 1], mutations[|mutations| - 1];
    assert forall m :: m in mutations <==> m in init || m == last;
  }

  lemma {:induction false} ChecksMean(mutations: seq<Mutation>, k: WriteKey)
    ensures k in ChecksOf(mutations) <==> SomeRaises(mutations, k)
  {
    if mutations != [] {
      ChecksMean(mutations[..|mutations| - 1], k);
      SomeRaisesSnoc(mutations, k);
    }
  }

  // ---- what is logged ----

  // Large row, structure and document values are replaced by what is stored for them.
  predicate StoresValue(o: Opcode) {
    o == 2 || o == 3 || o == 5 || o == 6 || o == 9 || o == SET_HASH_FIELD || 21 <= o <= 24 || o == 37
  }

  ghost predicate StoredAs(m: Mutation, w: Mutation) {
    w == m.(value := w.value) && (!StoresValue(m.opcode) ==> w.value == m.value)
  }

  // The indexes for which a point publication changes something.
  ghost predicate Published(b: WriteBatch, i: nat) { i in Points(b) && i in Targets(b.mutations, VECTORS) }

  /** The logged mutations: those of the batch as stored, then one authority marker for each index
      that a point publication changes. */
  ghost predicate Logs(b: WriteBatch, stored: seq<Mutation>, markers: seq<Mutation>) {
    && AllStored(b.mutations, stored)
    && (forall m :: m in markers ==> m.opcode == ANN_AUTHORITY_V2 && m.target.Some? && Published(b, m.target.value))
    && forall i: nat :: Published(b, i) ==> exists m :: m in markers && m.target == Some(i)
  }

  lemma StoredKeys(m: Mutation, w: Mutation, publish: bool, points: set<nat>)
    requires StoredAs(m, w)
    ensures PlainKeys(w, publish) == PlainKeys(m, publish) && IndexKeys(w, publish, points) == IndexKeys(m, publish, points)
    ensures ExtraChecks(w) == ExtraChecks(m)
  {
  }

  ghost predicate AllStored(ms: seq<Mutation>, stored: seq<Mutation>) {
    |stored| == |ms| && forall i :: 0 <= i < |stored| ==> StoredAs(ms[i], stored[i])
  }

  lemma {:induction false} StoredAllKeys(ms: seq<Mutation>, stored: seq<Mutation>, publish: bool, points: set<nat>)
    requires AllStored(ms, stored)
    ensures KeysOf(stored, publish, points) == KeysOf(ms, publish, points)
  {
    if ms != [] {
      var n := |ms| - 1;
      assert AllStored(ms[..n], stored[..n]);
      StoredAllKeys(ms[..n], stored[..n], publish, points);
      StoredKeys(ms[n], stored[n], publish, points);
    }
  }

  lemma {:induction false} StoredAllChecks(ms: seq<Mutation>, stored: seq<Mutation>)
    requires AllStored(ms, stored)
    ensures ChecksOf(stored) == ChecksOf(ms)
  {
    if ms != [] {
      var n := |ms| - 1;
      assert AllStored(ms[..n], stored[..n]);
      StoredAllChecks(ms[..n], stored[..n]);
      StoredKeys(ms[n], stored[n], false, {});
    }
  }

  lemma {:induction false} StoredTargets(ms: seq<Mutation>, stored: seq<Mutation>, kinds: set<Opcode>, i: nat)
    requires AllStored(ms, stored)
    ensures Targeted(stored, kinds, i) <==> Targeted(ms, kinds, i)
  {
    if Targeted(stored, kinds, i) {
      var j :| 0 <= j < |stored| && stored[j].opcode in kinds && stored[j].target == Some(i);
      assert StoredAs(ms[j], stored[j]) && ms[j] in ms;
    }
    if Targeted(ms, kinds, i) {
      var j :| 0 <= j < |ms| && ms[j].opcode in kinds && ms[j].target == Some(i);
      assert StoredAs(ms[j], stored[j]) && stored[j] in stored;
    }
  }

  lemma NoMarkerKeys(m: Mutation, publish: bool, points: set<nat>, k: WriteKey)
    requires m.opcode == ANN_AUTHORITY_V2
    ensures !Gives(m, publish, points, k)
  {
  }

  lemma MarkerKeys(stored: seq<Mutation>, markers: seq<Mutation>, publish: bool, points: set<nat>, k: WriteKey)
    requires forall m :: m in markers ==> m.opcode == ANN_AUTHORITY_V2
    ensures k in KeysOf(stored + markers, publish, points) <==> k in KeysOf(stored, publish, points)
  {
    KeysMean(stored, publish, points, k);
    KeysMean(stored + markers, publish, points, k);
    forall m | m in markers ensures !Gives(m, publish, points, k) { NoMarkerKeys(m, publish, points, k); }
    assert forall m :: m in stored + markers <==> m in stored || m in markers;
  }

  // ---- the difference in what is published ----

  /** Indexes worked on in the old way that also carry an absence fence: the log takes them for
      point indexes. */
  ghost predicate Mistaken(b: WriteBatch, i: nat) {
    i in Targets(b.mutations, VECTORS) && i !in Points(b) && i in LoggedPoints(b.mutations)
  }

  lemma LoggedPointsAre(b: WriteBatch, stored: seq<Mutation>, markers: seq<Mutation>, i: nat)
    requires Logs(b, stored, markers)
    ensures i in LoggedPoints(stored + markers) <==> i in LoggedPoints(b.mutations) || Published(b, i)
  {
    StoredTargets(b.mutations, stored, SIGNS, i);
    var all := stored + markers;
    assert forall m :: m in all <==> m in stored || m in markers;
    if Published(b, i) {
      var m :| m in markers && m.target == Some(i);
      assert m in all && m.opcode in SIGNS;
    }
  }

  lemma IndexKeyIs(m: Mutation, points: set<nat>, k: WriteKey)
    ensures k in IndexKeys(m, true, points) <==> Vector(m.opcode) && m.target.Some? && m.target.value !in points && k == AnnKey(m.target.value)
  {
  }

  ghost predicate ClaimsIndex(ms: seq<Mutation>, points: set<nat>, k: WriteKey) {
    exists i: nat :: i in Targets(ms, VECTORS) && i !in points && k == AnnKey(i)
  }

  lemma KeysSplit(ms: seq<Mutation>, points: set<nat>, k: WriteKey)
    ensures k in KeysOf(ms, true, points) <==> (exists m :: m in ms && k in PlainKeys(m, true)) || ClaimsIndex(ms, points, k)
  {
    KeysMean(ms, true, points, k);
    assert SomeGives(ms, true, points, k) <==>
      (exists m :: m in ms && k in PlainKeys(m, true)) || exists m :: m in ms && k in IndexKeys(m, true, points) by {
      if m :| m in ms && k in PlainKeys(m, true) { assert Gives(m, true, points, k); }
      if m :| m in ms && k in IndexKeys(m, true, points) { assert Gives(m, true, points, k); }
    }
    forall m | m in ms ensures k in IndexKeys(m, true, points) ==> ClaimsIndex(ms, points, k) {
      IndexKeyIs(m, points, k);
      if k in IndexKeys(m, true, points) { assert m.target.value in Targets(ms, VECTORS); }
    }
    if ClaimsIndex(ms, points, k) {
      var i: nat :| i in Targets(ms, VECTORS) && i !in points && k == AnnKey(i);
      assert Targeted(ms, VECTORS, i);
      var m :| m in ms && m.opcode in VECTORS && m.target == Some(i);
      IndexKeyIs(m, points, k);
    }
  }

  /** The published keys are those that a start derives again from the log, the unique keys that were
      looked up, and the claims on mistaken indexes. */
  lemma WritesDiffer(b: WriteBatch, stored: seq<Mutation>, markers: seq<Mutation>, k: WriteKey)
    requires Logs(b, stored, markers)
    ensures k in BatchWrites(b) <==>
      k in LoggedWrites(stored + markers) || k in UniqueKeys(b.probes) || exists i: nat :: Mistaken(b, i) && k == AnnKey(i)
  {
    var again := LoggedPoints(stored + markers);
    MarkerKeys(stored, markers, true, again, k);
    StoredAllKeys(b.mutations, stored, true, again);
    KeysSplit(b.mutations, again, k);
    KeysSplit(b.mutations, Points(b), k);
    forall i: nat ensures i in again <==> i in LoggedPoints(b.mutations) || Published(b, i) {
      LoggedPointsAre(b, stored, markers, i);
    }
    if ClaimsIndex(b.mutations, Points(b), k) {
      var i: nat :| i in Targets(b.mutations, VECTORS) && i !in Points(b) && k == AnnKey(i);
      assert i !in again || Mistaken(b, i);
    }
    if ClaimsIndex(b.mutations, again, k) {
      var i: nat :| i in Targets(b.mutations, VECTORS) && i !in again && k == AnnKey(i);
      assert i !in Points(b);
    }
  }

  // ---- the difference in what is checked ----

  lemma MarkerRaises(m: Mutation, k: WriteKey)
    requires m.opcode == ANN_AUTHORITY_V2 && m.target.Some?
    ensures Raises(m, k) <==> k == AnnKey(m.target.value)
  {
    assert PlainKeys(m, false) == [] && ExtraChecks(m) == [AnnKey(m.target.value)];
  }

  lemma SomeRaisesConcat(a: seq<Mutation>, b: seq<Mutation>, k: WriteKey)
    ensures SomeRaises(a + b, k) <==> SomeRaises(a, k) || SomeRaises(b, k)
  {
    assert forall m :: m in a + b <==> m in a || m in b;
  }

  lemma {:induction false} MarkerChecks(stored: seq<Mutation>, markers: seq<Mutation>, k: WriteKey)
    requires forall m :: m in markers ==> m.opcode == ANN_AUTHORITY_V2 && m.target.Some?
    ensures k in ChecksOf(stored + markers) <==> k in ChecksOf(stored) || exists m :: m in markers && k == AnnKey(m.target.value)
  {
    ChecksMean(stored, k);
    ChecksMean(stored + markers, k);
    SomeRaisesConcat(stored, markers, k);
    forall m | m in markers ensures Raises(m, k) <==> k == AnnKey(m.target.value) { MarkerRaises(m, k); }
  }

  /** The checked keys are those that a start checks again, the unique keys, and the indexes on which
      the batch only fenced absences. */
  lemma ChecksDiffer(b: WriteBatch, stored: seq<Mutation>, markers: seq<Mutation>, k: WriteKey)
    requires Logs(b, stored, markers)
    ensures InChecks(b, k) <==>
      k in ChecksOf(stored + markers) || k in UniqueKeys(b.probes) || exists i: nat :: i in Points(b) && !Published(b, i) && k == AnnKey(i)
  {
    StoredAllChecks(b.mutations, stored);
    MarkerChecks(stored, markers, k);
    if exists i: nat :: i in Points(b) && k == AnnKey(i) {
      var i: nat :| i in Points(b) && k == AnnKey(i);
      if Published(b, i) {
        var m :| m in markers && m.target == Some(i);
      }
    }
  }

  // ---- what a start makes of a commit ----

  // A transaction as it was admitted for a batch.
  ghost predicate AdmittedAs(t: Transaction, b: WriteBatch) {
    (forall k :: k in t.checks <==> InChecks(b, k)) && forall k :: k in t.writes <==> k in BatchWrites(b)
  }

  function Replayed(read: Option<nat>, csn: nat, logged: seq<Mutation>): Transaction {
    Transaction(read, ChecksOf(logged), LoggedWrites(logged), csn, map[])
  }

  /** The log never claims or checks a key that the commit did not. */
  lemma ReplayIsCovered(t: Transaction, b: WriteBatch, stored: seq<Mutation>, markers: seq<Mutation>)
    requires AdmittedAs(t, b) && Logs(b, stored, markers)
    ensures Covers(t, Replayed(t.read, t.csn, stored + markers))
  {
    forall k | k in LoggedWrites(stored + markers) ensures k in t.writes { WritesDiffer(b, stored, markers, k); }
    forall k | k in ChecksOf(stored + markers) ensures k in t.checks { ChecksDiffer(b, stored, markers, k); }
  }

  // Keys that a start does not find again.
  ghost predicate Forgotten(b: WriteBatch, k: WriteKey) {
    k in UniqueKeys(b.probes) || exists i: nat :: Mistaken(b, i) && k == AnnKey(i)
  }

  /** The forgotten keys are real: a row inserted into one object after looking up a unique key of
      another. */
  lemma RowForgets(b: WriteBatch, m: Mutation, p: Probe)
    requires m.opcode == INSERT_ROW && m.target != Some(p.index) && b == WriteBatch([m], {}, [p])
    ensures Logs(b, b.mutations, []) && UniqueKey(p) in BatchWrites(b) && UniqueKey(p) !in LoggedWrites(b.mutations)
  {
    assert UniqueKeys(b.probes)[0] == UniqueKey(p);
    assert forall i: nat :: !Targeted(b.mutations, VECTORS, i);
    KeysMean(b.mutations, true, LoggedPoints(b.mutations), UniqueKey(p));
    assert forall n :: n in b.mutations ==> n == m;
    assert PlainKeys(m, true) == [WriteKey(m.engine, m.target, Identity(m))];
  }

  lemma PointsKeepOffIndex(m: Mutation, i: nat)
    requires Point(m.opcode)
    ensures AnnKey(i) !in PlainKeys(m, true)
  {
    assert Identity(m)[0] == 3 && AnnKey(i).key[0] == 12 && LifecycleKey(i).key[0] == 13;
  }

  lemma BothTargets(up: Mutation, fence: Mutation, i: nat)
    requires up.opcode == UPSERT_VECTOR && fence.opcode == FENCE_VECTOR_ABSENCE && up.target == fence.target == Some(i)
    ensures Targeted([up, fence], VECTORS, i) && Targeted([up, fence], SIGNS, i)
    ensures forall j: nat :: Targeted([up, fence], VECTORS, j) ==> j == i
  {
    assert up in [up, fence] && fence in [up, fence];
  }

  lemma LogsAsIs(b: WriteBatch)
    requires forall i: nat :: !Published(b, i)
    ensures Logs(b, b.mutations, [])
  {
  }

  lemma ClaimLost(ms: seq<Mutation>, points: set<nat>, again: set<nat>, i: nat)
    requires Targeted(ms, VECTORS, i) && i !in points && i in again && forall m :: m in ms ==> Point(m.opcode)
    ensures AnnKey(i) in KeysOf(ms, true, points) && AnnKey(i) !in KeysOf(ms, true, again)
  {
    KeysSplit(ms, points, AnnKey(i));
    assert ClaimsIndex(ms, points, AnnKey(i));
    KeysSplit(ms, again, AnnKey(i));
    forall m | m in ms ensures AnnKey(i) !in PlainKeys(m, true) { PointsKeepOffIndex(m, i); }
  }

  /** And a vector written in the old way next to an absence fence on the same index. */
  lemma VectorForgets(b: WriteBatch, up: Mutation, fence: Mutation, i: nat)
    requires up.opcode == UPSERT_VECTOR && fence.opcode == FENCE_VECTOR_ABSENCE && up.target == fence.target == Some(i)
    requires b == WriteBatch([up, fence], {i}, [])
    ensures Logs(b, b.mutations, []) && AnnKey(i) in BatchWrites(b) && AnnKey(i) !in LoggedWrites(b.mutations)
  {
    BothTargets(up, fence, i);
    LogsAsIs(b);
    ClaimLost(b.mutations, Points(b), LoggedPoints(b.mutations), i);
  }
}
