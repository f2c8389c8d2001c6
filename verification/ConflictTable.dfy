/**
  First-committer-wins admission: the latest-writer table, histories of committed transactions, and
  what admission guarantees to every one of them.
*/
module ConflictTable {
  import opened Bytes
  import opened Collections
  import opened Results
  import opened WalBlock

  datatype WriteKey = WriteKey(engine: Engine, target: Option<nat>, key: ByteString)

  type Latest = map<WriteKey, nat>

  datatype WriteConflict = WriteConflict(key: WriteKey, latest: nat, read: Option<nat>)

  // The key was last committed after the snapshot was taken.
  predicate Newer(latest: Latest, read: Option<nat>, key: WriteKey) {
    key in latest && (read.None? || latest[key] > read.value)
  }

  ghost predicate FirstNewer(latest: Latest, read: Option<nat>, keys: seq<WriteKey>, i: int) {
    0 <= i < |keys| && Newer(latest, read, keys[i]) && forall j :: 0 <= j < i ==> !Newer(latest, read, keys[j])
  }

  function Publish(latest: Latest, csn: nat, keys: seq<WriteKey>): Latest {
    if keys == [] then latest
    else
      var before, key := Publish(latest, csn, keys[..|keys| - 1]), keys[|keys| - 1];
      before[key := if key in before && before[key] > csn then before[key] else csn]
  }

  lemma {:induction false} PublishMeans(latest: Latest, csn: nat, keys: seq<WriteKey>, k: WriteKey)
    ensures k in Publish(latest, csn, keys) <==> k in latest || k in keys
    ensures k in keys ==> Publish(latest, csn, keys)[k] == if k in latest && latest[k] > csn then latest[k] else csn
    ensures k in latest && k !in keys ==> Publish(latest, csn, keys)[k] == latest[k]
  {
    if keys != [] {
      var init := keys[..|keys| - 1];
      PublishMeans(latest, csn, init, k);
      assert k in keys <==> k in init || k == keys[|keys| - 1];
    }
  }

  class ConflictTable {
    var latest: Latest

    constructor ()
      ensures latest == map[]
    {
      latest := map[];
    }

    /** Accepts a write set exactly when no key is newer than the snapshot; otherwise names the first
        key that is. */
    method Validate(read: Option<nat>, keys: seq<WriteKey>) returns (r: Option<WriteConflict>)
      ensures r.None? <==> forall i :: 0 <= i < |keys| ==> !Newer(latest, read, keys[i])
      ensures r.Some? ==> exists i :: FirstNewer(latest, read, keys, i) && r.value == WriteConflict(keys[i], latest[keys[i]], read)
    {
      for i := 0 to |keys|
        invariant forall j :: 0 <= j < i ==> !Newer(latest, read, keys[j])
      {
        if keys[i] !in latest {
          continue;
        }
        if read.None? || latest[keys[i]] > read.value {
          assert FirstNewer(latest, read, keys, i);
          return Some(WriteConflict(keys[i], latest[keys[i]], read));
        }
      }
      return None;
    }

    method PublishCommitted(csn: nat, keys: seq<WriteKey>)
      modifies this
      ensures latest == Publish(old(latest), csn, keys)
    {
      for i := 0 to |keys|
        invariant latest == Publish(old(latest), csn, keys[..i])
      {
        assert keys[..i + 1][..i] == keys[..i];
        if keys[i] in latest {
          latest := latest[keys[i] := if latest[keys[i]] > csn then latest[keys[i]] else csn];
        } else {
          latest := latest[keys[i] := csn];
        }
      }
      assert keys[..|keys|] == keys;
    }
  }

  // ---- histories ----

  /** A committed transaction: its snapshot, the keys it was validated on, the keys it published and
      what it wrote. */
  datatype Transaction = Transaction(read: Option<nat>, checks: seq<WriteKey>, writes: seq<WriteKey>, csn: nat, values: map<WriteKey, int>)

  function TableOf(history: seq<Transaction>): Latest {
    if history == [] then map[]
    else
      var t := history[|history| - 1];
      Publish(TableOf(history[..|history| - 1]), t.csn, t.writes)
  }

  ghost predicate Sequenced(history: seq<Transaction>) {
    forall i, j :: 0 <= i < j < |history| ==> history[i].csn < history[j].csn
  }

  // Someone in the history wrote the key after the snapshot.
  ghost predicate WrittenSince(history: seq<Transaction>, read: Option<nat>, key: WriteKey) {
    exists i :: 0 <= i < |history| && key in history[i].writes && (read.None? || history[i].csn > read.value)
  }

  ghost predicate LastWriter(history: seq<Transaction>, key: WriteKey, csn: nat) {
    exists i :: 0 <= i < |history| && key in history[i].writes && history[i].csn == csn
      && forall j :: i < j < |history| ==> key !in history[j].writes
  }

  ghost predicate Written(history: seq<Transaction>, key: WriteKey) {
    exists i :: 0 <= i < |history| && key in history[i].writes
  }

  lemma {:induction false} LastWriterStays(history: seq<Transaction>, t: Transaction, key: WriteKey, csn: nat)
    requires LastWriter(history, key, csn) && key !in t.writes
    ensures LastWriter(history + [t], key, csn)
  {
    var i :| 0 <= i < |history| && key in history[i].writes && history[i].csn == csn && forall j :: i < j < |history| ==> key !in history[j].writes;
    var all := history + [t];
    assert all[i] == history[i] && forall j :: i < j < |all| ==> key !in all[j].writes;
  }

  lemma {:induction false} LastWriterIs(history: seq<Transaction>, t: Transaction, key: WriteKey)
    requires key in t.writes
    ensures LastWriter(history + [t], key, t.csn)
  {
    var all := history + [t];
    assert all[|history|] == t;
  }

  lemma {:induction false} WrittenSnoc(history: seq<Transaction>, t: Transaction, key: WriteKey)
    ensures Written(history + [t], key) <==> Written(history, key) || key in t.writes
  {
    var all := history + [t];
    assert all[|history|] == t && forall i :: 0 <= i < |history| ==> all[i] == history[i];
  }

  lemma {:induction false} LastWriterBelow(history: seq<Transaction>, key: WriteKey, csn: nat, bound: nat)
    requires LastWriter(history, key, csn) && forall i :: 0 <= i < |history| ==> history[i].csn < bound
    ensures csn < bound
  {
  }

  /** The table holds, for every key ever written, the number of its last writer. */
  lemma {:induction false} TableIsLastWriter(history: seq<Transaction>, key: WriteKey)
    requires Sequenced(history)
    ensures key in TableOf(history) <==> Written(history, key)
    ensures key in TableOf(history) ==> LastWriter(history, key, TableOf(history)[key])
  {
    if history != [] {
      var n := |history| - 1;
      var init, t := history[..n], history[n];
      Unsnoc(history);
      TableIsLastWriter(init, key);
      PublishMeans(TableOf(init), t.csn, t.writes, key);
      WrittenSnoc(init, t, key);
      if key in t.writes {
        if key in TableOf(init) { LastWriterBelow(init, key, TableOf(init)[key], t.csn); }
        LastWriterIs(init, t, key);
      } else if key in TableOf(init) {
        LastWriterStays(init, t, key, TableOf(init)[key]);
      }
    }
  }

  lemma LastWriterDecides(history: seq<Transaction>, read: Option<nat>, key: WriteKey)
    requires Sequenced(history)
    ensures Newer(TableOf(history), read, key) <==> WrittenSince(history, read, key)
  {
    TableIsLastWriter(history, key);
    var table := TableOf(history);
    if key in table {
      var i :| 0 <= i < |history| && key in history[i].writes && history[i].csn == table[key] && forall j :: i < j < |history| ==> key !in history[j].writes;
      if WrittenSince(history, read, key) && read.Some? {
        var k :| 0 <= k < |history| && key in history[k].writes && history[k].csn > read.value;
        assert k <= i;
      }
    }
  }

  ghost predicate Disjoint(history: seq<Transaction>, read: Option<nat>, checks: seq<WriteKey>) {
    forall k :: k in checks ==> !WrittenSince(history, read, k)
  }

  /** Admission over a history: a transaction is accepted exactly when no key it checks was written
      by a transaction that committed after its snapshot. */
  lemma AdmittedIff(history: seq<Transaction>, read: Option<nat>, checks: seq<WriteKey>)
    requires Sequenced(history)
    ensures (forall i :: 0 <= i < |checks| ==> !Newer(TableOf(history), read, checks[i])) <==> Disjoint(history, read, checks)
  {
    forall k ensures Newer(TableOf(history), read, k) <==> WrittenSince(history, read, k) {
      LastWriterDecides(history, read, k);
    }
  }

  // Every transaction was admitted over the ones before it.
  ghost predicate Admitted(history: seq<Transaction>) {
    Sequenced(history) && forall j :: 0 <= j < |history| ==> Disjoint(history[..j], history[j].read, history[j].checks)
  }

  // ---- what admission buys ----

  // A snapshot sees the transactions numbered up to it.
  predicate Sees(read: Option<nat>, csn: nat) { read.Some? && csn <= read.value }

  /** The value of a key after the transactions that a snapshot sees. */
  ghost function ValueAt(history: seq<Transaction>, read: Option<nat>, key: WriteKey): Option<int> {
    if history == [] then None
    else
      var t := history[|history| - 1];
      if Sees(read, t.csn) && key in t.values then Some(t.values[key]) else ValueAt(history[..|history| - 1], read, key)
  }

  ghost function ValueAfter(history: seq<Transaction>, key: WriteKey): Option<int> {
    if history == [] then None
    else
      var t := history[|history| - 1];
      if key in t.values then Some(t.values[key]) else ValueAfter(history[..|history| - 1], key)
  }

  // Only published keys carry values.
  ghost predicate Declared(history: seq<Transaction>) {
    forall i, k :: 0 <= i < |history| && k in history[i].values ==> k in history[i].writes
  }

  lemma {:induction false} UnwrittenSince(history: seq<Transaction>, read: Option<nat>, key: WriteKey)
    requires Declared(history) && !WrittenSince(history, read, key)
    ensures ValueAt(history, read, key) == ValueAfter(history, key)
  {
    if history != [] {
      var n := |history| - 1;
      var init, t := history[..n], history[n];
      UnwrittenSince(init, read, key);
      if key in t.values {
        assert key in history[n].writes;
      }
    }
  }

  /** No lost updates: what a committed transaction read from its snapshot, on any key it checked, is
      what the key held immediately before it committed. */
  lemma NoLostUpdate(history: seq<Transaction>, j: nat, key: WriteKey)
    requires Admitted(history) && Declared(history) && j < |history| && key in history[j].checks
    ensures ValueAt(history[..j], history[j].read, key) == ValueAfter(history[..j], key)
  {
    assert Disjoint(history[..j], history[j].read, history[j].checks);
    UnwrittenSince(history[..j], history[j].read, key);
  }

  lemma CheckersSeeWriters(history: seq<Transaction>, i: nat, j: nat, key: WriteKey)
    requires Admitted(history) && i < j < |history| && key in history[i].writes && key in history[j].checks
    ensures Sees(history[j].read, history[i].csn)
  {
    assert Disjoint(history[..j], history[j].read, history[j].checks);
    assert history[..j][i] == history[i];
  }

  /** First committer wins: two transactions that each check a key the other writes never both commit
      without one having seen the other. */
  lemma FirstCommitterWins(history: seq<Transaction>, i: nat, j: nat, mine: WriteKey, yours: WriteKey)
    requires Admitted(history) && i < |history| && j < |history| && i != j
    requires mine in history[i].writes && mine in history[j].checks && yours in history[j].writes && yours in history[i].checks
    ensures Sees(history[j].read, history[i].csn) || Sees(history[i].read, history[j].csn)
  {
    if i < j { CheckersSeeWriters(history, i, j, mine); } else { CheckersSeeWriters(history, j, i, yours); }
  }

  // ---- longer histories ----

  lemma AdmittedSnoc(history: seq<Transaction>, t: Transaction)
    requires Admitted(history) && (forall i :: 0 <= i < |history| ==> history[i].csn < t.csn) && Disjoint(history, t.read, t.checks)
    ensures Admitted(history + [t])
  {
    var all := history + [t];
    assert all[..|history|] == history;
    forall j | 0 <= j < |all| ensures Disjoint(all[..j], all[j].read, all[j].checks) {
      if j < |history| { assert all[..j] == history[..j]; }
    }
  }

  lemma TableSnoc(history: seq<Transaction>, t: Transaction)
    ensures TableOf(history + [t]) == Publish(TableOf(history), t.csn, t.writes)
  {
    assert (history + [t])[..|history|] == history;
  }

  // ---- replay after a restart ----

  // What the log keeps of a transaction: the same snapshot and number, perhaps fewer keys.
  ghost predicate Covers(live: Transaction, logged: Transaction) {
    && logged.read == live.read && logged.csn == live.csn
    && (forall k :: k in logged.checks ==> k in live.checks) && (forall k :: k in logged.writes ==> k in live.writes)
  }

  ghost predicate CoversAll(live: seq<Transaction>, logged: seq<Transaction>) {
    |logged| == |live| && forall i :: 0 <= i < |live| ==> Covers(live[i], logged[i])
  }

  lemma FewerKeysFewerConflicts(live: seq<Transaction>, logged: seq<Transaction>, read: Option<nat>, key: WriteKey)
    requires CoversAll(live, logged) && WrittenSince(logged, read, key)
    ensures WrittenSince(live, read, key)
  {
    var i :| 0 <= i < |logged| && key in logged[i].writes && (read.None? || logged[i].csn > read.value);
    assert Covers(live[i], logged[i]);
    assert key in live[i].writes;
  }

  /** What the log keeps of an admitted history is itself admitted: replay never finds a conflict. */
  lemma LoggedIsAdmitted(live: seq<Transaction>, logged: seq<Transaction>)
    requires Admitted(live) && CoversAll(live, logged)
    ensures Admitted(logged)
  {
    forall i, j | 0 <= i < j < |logged| ensures logged[i].csn < logged[j].csn {
      assert Covers(live[i], logged[i]) && Covers(live[j], logged[j]);
    }
    forall j | 0 <= j < |logged| ensures Disjoint(logged[..j], logged[j].read, logged[j].checks) {
      assert Covers(live[j], logged[j]) && Disjoint(live[..j], live[j].read, live[j].checks);
      assert CoversAll(live[..j], logged[..j]);
      forall k | k in logged[j].checks ensures !WrittenSince(logged[..j], logged[j].read, k) {
        if WrittenSince(logged[..j], logged[j].read, k) {
          FewerKeysFewerConflicts(live[..j], logged[..j], live[j].read, k);
        }
      }
    }
  }

  method ReplayConflicts(logged: seq<Transaction>) returns (table: ConflictTable, ok: bool)
    requires Sequenced(logged)
    ensures fresh(table) && (ok <==> Admitted(logged))
    ensures ok ==> table.latest == TableOf(logged)
  {
    table := new ConflictTable();
    for i := 0 to |logged|
      invariant fresh(table) && table.latest == TableOf(logged[..i]) && Admitted(logged[..i])
    {
      AdmittedIff(logged[..i], logged[i].read, logged[i].checks);
      var conflict := table.Validate(logged[i].read, logged[i].checks);
      if conflict.Some? {
        return table, false;
      }
      assert logged[..i + 1] == logged[..i] + [logged[i]];
      AdmittedSnoc(logged[..i], logged[i]);
      TableSnoc(logged[..i], logged[i]);
      table.PublishCommitted(logged[i].csn, logged[i].writes);
    }
    assert logged[..|logged|] == logged;
    ok := true;
  }

  // ---- the replayed table ----

  // Transaction i is the last one that wrote the key.
  ghost predicate LastAt(history: seq<Transaction>, key: WriteKey, i: nat) {
    i < |history| && key in history[i].writes && forall j :: i < j < |history| ==> key !in history[j].writes
  }

  lemma TableAt(history: seq<Transaction>, key: WriteKey) returns (i: nat)
    requires Sequenced(history) && key in TableOf(history)
    ensures LastAt(history, key, i) && TableOf(history)[key] == history[i].csn
  {
    TableIsLastWriter(history, key);
    var k :| 0 <= k < |history| && key in history[k].writes && history[k].csn == TableOf(history)[key]
      && forall j :: k < j < |history| ==> key !in history[j].writes;
    i := k;
  }

  lemma LastDecides(history: seq<Transaction>, key: WriteKey, i: nat)
    requires Sequenced(history) && LastAt(history, key, i)
    ensures key in TableOf(history) && TableOf(history)[key] == history[i].csn
  {
    TableIsLastWriter(history, key);
    assert Written(history, key);
    var k := TableAt(history, key);
  }

  lemma LoggedIsSequenced(live: seq<Transaction>, logged: seq<Transaction>)
    requires CoversAll(live, logged) && Sequenced(live)
    ensures Sequenced(logged)
  {
    forall i, j | 0 <= i < j < |logged| ensures logged[i].csn < logged[j].csn {
      assert Covers(live[i], logged[i]) && Covers(live[j], logged[j]);
    }
  }

  /** The replayed table never runs ahead of the lost one, on any key: for every snapshot, old ones
      included, it refuses only what the lost one would have refused. */
  lemma ReplayedIsBelow(live: seq<Transaction>, logged: seq<Transaction>, key: WriteKey)
    requires CoversAll(live, logged) && Sequenced(live) && key in TableOf(logged)
    ensures key in TableOf(live) && TableOf(logged)[key] <= TableOf(live)[key]
  {
    LoggedIsSequenced(live, logged);
    var i := TableAt(logged, key);
    assert Covers(live[i], logged[i]);
    TableIsLastWriter(live, key);
    assert Written(live, key);
    var j := TableAt(live, key);
    assert i <= j;
  }

  ghost predicate AgreeOn(a: Latest, b: Latest, key: WriteKey) {
    (key in a <==> key in b) && (key in a ==> a[key] == b[key])
  }

  // The log kept the key for the last transaction that wrote it.
  ghost predicate KeepsLastWrite(live: seq<Transaction>, logged: seq<Transaction>, key: WriteKey)
    requires |logged| == |live|
  {
    forall i: nat :: LastAt(live, key, i) ==> key in logged[i].writes
  }

  /** The two tables agree on a key exactly when the log kept it for its last writer. */
  lemma TablesAgreeIff(live: seq<Transaction>, logged: seq<Transaction>, key: WriteKey)
    requires CoversAll(live, logged) && Sequenced(live)
    ensures AgreeOn(TableOf(live), TableOf(logged), key) <==> KeepsLastWrite(live, logged, key)
  {
    LoggedIsSequenced(live, logged);
    if key in TableOf(live) {
      var i := TableAt(live, key);
      if key in logged[i].writes { StillLast(live, logged, key, i); }
      if AgreeOn(TableOf(live), TableOf(logged), key) {
        var j := TableAt(logged, key);
        assert Covers(live[i], logged[i]) && Covers(live[j], logged[j]);
        assert i == j;
      }
      assert forall k: nat :: LastAt(live, key, k) ==> k == i;
    } else {
      TableIsLastWriter(live, key);
      if key in TableOf(logged) { ReplayedIsBelow(live, logged, key); }
      assert forall i: nat :: !LastAt(live, key, i);
    }
  }

  lemma StillLast(live: seq<Transaction>, logged: seq<Transaction>, key: WriteKey, i: nat)
    requires CoversAll(live, logged) && Sequenced(live) && Sequenced(logged) && LastAt(live, key, i) && key in logged[i].writes
    ensures AgreeOn(TableOf(live), TableOf(logged), key)
  {
    forall j | i < j < |logged| ensures key !in logged[j].writes { assert Covers(live[j], logged[j]); }
    assert Covers(live[i], logged[i]) && LastAt(logged, key, i);
    LastDecides(live, key, i);
    LastDecides(logged, key, i);
  }

  lemma AgreeEverywhere(a: Latest, b: Latest)
    requires forall k :: AgreeOn(a, b, k)
    ensures a == b
  {
    assert forall k :: k in a ==> AgreeOn(a, b, k);
    assert forall k :: k in b ==> AgreeOn(a, b, k);
  }

  /** If the log keeps all keys, replay gives the same table. */
  lemma SameTable(live: seq<Transaction>, logged: seq<Transaction>)
    requires CoversAll(live, logged) && Sequenced(live)
    requires forall i, k :: 0 <= i < |live| && k in live[i].writes ==> k in logged[i].writes
    ensures TableOf(live) == TableOf(logged)
  {
    forall k ensures AgreeOn(TableOf(live), TableOf(logged), k) { TablesAgreeIff(live, logged, k); }
    AgreeEverywhere(TableOf(live), TableOf(logged));
  }

  /** Decisions for a snapshot taken after a number of transactions do not depend on what the table
      holds for them. */
  lemma LaterSnapshotsIgnore(before: seq<Transaction>, since: seq<Transaction>, read: Option<nat>, key: WriteKey)
    requires Sequenced(before + since) && read.Some? && forall i :: 0 <= i < |before| ==> before[i].csn <= read.value
    ensures Newer(TableOf(before + since), read, key) <==> WrittenSince(since, read, key)
  {
    LastWriterDecides(before + since, read, key);
    OnlySinceMatters(before, since, read, key);
  }

  lemma OnlySinceMatters(before: seq<Transaction>, since: seq<Transaction>, read: Option<nat>, key: WriteKey)
    requires read.Some? && forall i :: 0 <= i < |before| ==> before[i].csn <= read.value
    ensures WrittenSince(before + since, read, key) <==> WrittenSince(since, read, key)
  {
    var all := before + since;
    if WrittenSince(since, read, key) {
      var i :| 0 <= i < |since| && key in since[i].writes && since[i].csn > read.value;
      assert all[|before| + i] == since[i];
    }
    if WrittenSince(all, read, key) {
      var i :| 0 <= i < |all| && key in all[i].writes && all[i].csn > read.value;
      assert i >= |before| && since[i - |before|] == all[i];
    }
  }
}
