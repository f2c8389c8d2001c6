/** From a crash in the middle of the log file to the transactions that come back. */
module CrashRecovery {
  import opened Bytes
  import opened Results
  import opened WalBlock
  import opened WalFile
  import opened WalRecovery
  import opened WalTransaction

  lemma {:induction false} RecordsPrefix(blocks: seq<Block>, n: nat)
    requires n <= |blocks|
    ensures RecordsIn(blocks[..n]) <= RecordsIn(blocks)
  {
    if n < |blocks| {
      var init := blocks[..|blocks| - 1];
      RecordsPrefix(init, n);
      assert init[..n] == blocks[..n];
    } else {
      assert blocks[..n] == blocks;
    }
  }

  /** A log file that carries an accepted log, perhaps ending inside a transaction, perhaps with a
      torn block at its end, is cut anywhere by a crash.  Reading it again and recovering succeeds
      and gives exactly the transactions whose commit record is in a complete block. */
  lemma CrashRecoversPrefix(x: BlockFormat, base: nat, baseDigest: ByteString, blocks: seq<Block>, tail: ByteString, kept: nat, bodies: Bodies)
    returns (read: seq<Block>, r: State)
    requires Chained(x, base, baseDigest, blocks) && |tail| < BLOCK_SIZE && kept <= |Image(x, blocks)| + |tail|
    requires RunFrom(StepperOf(bodies), EMPTY, RecordsIn(blocks)).Some?
    ensures kept / BLOCK_SIZE <= |blocks| && kept / BLOCK_SIZE * BLOCK_SIZE <= kept && read == blocks[..kept / BLOCK_SIZE]
    ensures Scan(x, base, baseDigest, (Image(x, blocks) + tail)[..kept], kept / BLOCK_SIZE) == Ok(read)
    ensures RunFrom(StepperOf(bodies), EMPTY, RecordsIn(read)) == Some(r)
    ensures var n := |CommitRecords(RecordsIn(read))|;
      n <= |RunFrom(StepperOf(bodies), EMPTY, RecordsIn(blocks)).value.commits|
      && r.commits == RunFrom(StepperOf(bodies), EMPTY, RecordsIn(blocks)).value.commits[..n]
  {
    TornTail(x, base, baseDigest, blocks, tail, kept);
    read := blocks[..kept / BLOCK_SIZE];
    RecordsPrefix(blocks, kept / BLOCK_SIZE);
    var records := RecordsIn(read);
    assert records == RecordsIn(blocks)[..|records|];
    PrefixRecovers(bodies, RecordsIn(blocks), |records|);
    r := RunFrom(StepperOf(bodies), EMPTY, records).value;
  }

  /** Nothing durable is lost: of an accepted log, every transaction whose commit record lies in the
      blocks known to be durable is among those recovered after a crash that kept these blocks. */
  lemma DurableSurvives(bodies: Bodies, blocks: seq<Block>, durable: nat, complete: nat, i: nat)
    requires durable <= complete <= |blocks| && RunFrom(StepperOf(bodies), EMPTY, RecordsIn(blocks)).Some?
    requires i < |CommitRecords(RecordsIn(blocks[..durable]))|
    ensures RunFrom(StepperOf(bodies), EMPTY, RecordsIn(blocks[..complete])).Some?
    ensures var all, kept := RunFrom(StepperOf(bodies), EMPTY, RecordsIn(blocks)).value.commits,
                             RunFrom(StepperOf(bodies), EMPTY, RecordsIn(blocks[..complete])).value.commits;
      i < |kept| <= |all| && kept[i] == all[i]
  {
    var records := RecordsIn(blocks[..complete]);
    RecordsPrefix(blocks, complete);
    assert records == RecordsIn(blocks)[..|records|];
    PrefixRecovers(bodies, RecordsIn(blocks), |records|);
    RecordsPrefix(blocks[..complete], durable);
    assert blocks[..complete][..durable] == blocks[..durable];
    var safe := RecordsIn(blocks[..durable]);
    assert safe == records[..|safe|];
    CommitRecordsPrefix(records, |safe|);
  }

  // ---- opening the log ----

  lemma {:induction false} ActiveIsLogged(x: Bodies, records: seq<Record>)
    requires (forall i :: 0 <= i < |records| ==> ValidPending(PendingOf(records[i]))) && RunFrom(StepperOf(x), EMPTY, records).Some?
    ensures RunFrom(StepperOf(x), EMPTY, records).value.active.Some? ==> 0 < RunFrom(StepperOf(x), EMPTY, records).value.active.value.id < U128
  {
    if records != [] {
      ActiveIsLogged(x, records[..|records| - 1]);
      assert ValidPending(PendingOf(records[|records| - 1]));
    }
  }

  lemma ClosedLog(x: Bodies, before: seq<Record>, after: seq<Record>, s: State)
    requires RunFrom(StepperOf(x), EMPTY, before) == Some(s) && s.active.Some?
    requires before <= after && Unplaced(after) == Unplaced(before) + [AbortRecord(s.active.value.id)]
    ensures RunFrom(StepperOf(x), EMPTY, after) == Some(s.(active := None))
  {
    var n := |before|;
    assert after[..|after| - 1] == before;
    assert PendingOf(after[n]) == Unplaced(after)[n] == AbortRecord(s.active.value.id);
    AbortCloses(x, s, after[n]);
  }

  /** Opening a log: recover its records and close the transaction that a crash cut off.  If the log
      is recovered and the device takes the abort record, the file then carries an accepted log with
      the same transactions and none under way. */
  method RecoverAndClose(x: Bodies, wal: WalFile, records: seq<Record>, room: nat, syncs: bool)
    returns (r: Option<State>, failed: bool)
    requires wal.Valid() && !wal.poisoned && records == RecordsIn(wal.blocks)
    requires forall i :: 0 <= i < |records| ==> ValidPending(PendingOf(records[i]))
    modifies wal
    ensures wal.Valid() && r == RunFrom(StepperOf(x), EMPTY, records) && old(wal.blocks) <= wal.blocks && old(wal.data) <= wal.data
    ensures r.None? || r.value.active.None? ==> !failed && wal.blocks == old(wal.blocks) && wal.data == old(wal.data)
    ensures r.Some? && !failed ==> RunFrom(StepperOf(x), EMPTY, RecordsIn(wal.blocks)) == Some(r.value.(active := None))
    ensures r.Some? && r.value.active.Some? && !failed ==> wal.synced == |wal.data|
    ensures failed ==> wal.poisoned && Unplaced(records) <= wal.Carried()
  {
    failed := false;
    r := Recover(x, records);
    if r.Some? && r.value.active.Some? {
      ActiveIsLogged(x, records);
      var appended := wal.AppendRecords([AbortRecord(r.value.active.value.id)], true, room, syncs);
      failed := appended.Err?;
      if !failed {
        var n := |old(wal.blocks)|;
        RecordsPrefix(wal.blocks, n);
        assert wal.blocks[..n] == old(wal.blocks);
        ClosedLog(x, records, RecordsIn(wal.blocks), r.value);
      }
    }
  }
}
