/**
  Any number of lives of the log file: blocks are appended, the file is cut anywhere by a crash, the
  next start reads the complete blocks, recovers their records and closes what was cut.
*/
module FileHistory {
  import opened Bytes
  import opened CrashRecovery
  import opened LogHistory
  import opened Results
  import opened WalBlock
  import opened WalFile
  import opened WalRecovery
  import opened WalTransaction

  datatype FileEvent =
    | Appended(event: Event, blocks: seq<Block>)
    | Crashed(kept: nat, tail: ByteString, closing: Record, blocks: seq<Block>)

  datatype File = File(blocks: seq<Block>, store: Store)

  const NEW_FILE := File([], NEW)

  // The file that a crash leaves, read again.
  ghost function ReadAgain(blocks: seq<Block>, kept: nat): seq<Block> {
    if kept / BLOCK_SIZE <= |blocks| then blocks[..kept / BLOCK_SIZE] else blocks
  }

  ghost function Restart(a: File, kept: nat, closing: Record): Event {
    Restarted(|RecordsIn(ReadAgain(a.blocks, kept))|, closing)
  }

  ghost function EventOf(a: File, event: FileEvent): Event {
    match event
    case Appended(e, _) => e
    case Crashed(kept, _, closing, _) => Restart(a, kept, closing)
  }

  // Where the new blocks go.
  ghost function Before(a: File, event: FileEvent): seq<Block> {
    match event
    case Appended(_, _) => a.blocks
    case Crashed(kept, _, _, _) => ReadAgain(a.blocks, kept)
  }

  ghost predicate CutsFile(f: BlockFormat, a: File, event: FileEvent) {
    match event
    case Appended(e, _) => !e.Restarted?
    case Crashed(kept, tail, _, _) => |tail| < BLOCK_SIZE && kept <= |Image(f, a.blocks)| + |tail|
  }

  /** The event is possible for the log, and the blocks it appends continue the chain and carry just
      the records it adds. */
  ghost predicate Possible(x: Bodies, f: BlockFormat, base: nat, digest: ByteString, a: File, event: FileEvent) {
    && CutsFile(f, a, event) && Allowed(x, a.store, EventOf(a, event))
    && Chained(f, base, digest, Before(a, event) + event.blocks)
    && (After(x, a.store, EventOf(a, event)).Some? ==>
        RecordsIn(Before(a, event) + event.blocks) == After(x, a.store, EventOf(a, event)).value.log)
  }

  ghost function Next(x: Bodies, a: File, event: FileEvent): Option<File>
    requires Allowed(x, a.store, EventOf(a, event))
  {
    var store := After(x, a.store, EventOf(a, event));
    if store.None? then None else Some(File(Before(a, event) + event.blocks, store.value))
  }

  ghost predicate PossibleAll(x: Bodies, f: BlockFormat, base: nat, digest: ByteString, events: seq<FileEvent>)
    decreases |events|, 0
  {
    events == [] ||
    (var init := events[..|events| - 1];
     PossibleAll(x, f, base, digest, init)
     && (Lives(x, f, base, digest, init).Some? ==> Possible(x, f, base, digest, Lives(x, f, base, digest, init).value, events[|events| - 1])))
  }

  ghost function Lives(x: Bodies, f: BlockFormat, base: nat, digest: ByteString, events: seq<FileEvent>): Option<File>
    requires PossibleAll(x, f, base, digest, events)
    decreases |events|, 1
  {
    if events == [] then Some(NEW_FILE)
    else
      var before := Lives(x, f, base, digest, events[..|events| - 1]);
      if before.None? then None else Next(x, before.value, events[|events| - 1])
  }

  ghost predicate Carries(x: Bodies, f: BlockFormat, base: nat, digest: ByteString, a: File) {
    Chained(f, base, digest, a.blocks) && RecordsIn(a.blocks) == a.store.log && Holds(x, a.store)
  }

  lemma NextCarries(x: Bodies, f: BlockFormat, base: nat, digest: ByteString, a: File, event: FileEvent)
    requires Carries(x, f, base, digest, a) && Possible(x, f, base, digest, a, event)
    ensures Next(x, a, event).Some? && Carries(x, f, base, digest, Next(x, a, event).value)
  {
    EventHolds(x, a.store, EventOf(a, event));
  }

  /** Through any number of lives the file is a chain of blocks that carries a log with exactly the
      committed transactions, and no start is refused. */
  lemma {:induction false} EveryLifeCarries(x: Bodies, f: BlockFormat, base: nat, digest: ByteString, events: seq<FileEvent>)
    requires PossibleAll(x, f, base, digest, events)
    ensures Lives(x, f, base, digest, events).Some? && Carries(x, f, base, digest, Lives(x, f, base, digest, events).value)
  {
    if events != [] {
      var init := events[..|events| - 1];
      EveryLifeCarries(x, f, base, digest, init);
      NextCarries(x, f, base, digest, Lives(x, f, base, digest, init).value, events[|events| - 1]);
    }
  }

  /** After any number of lives, cut the file at any byte: the complete blocks are read, recovery
      succeeds, and a committed transaction comes back exactly when its last record lies in them. */
  lemma EveryCutRecovers(x: Bodies, f: BlockFormat, base: nat, digest: ByteString, events: seq<FileEvent>, tail: ByteString, kept: nat)
    returns (a: File, read: seq<Block>, r: State)
    requires PossibleAll(x, f, base, digest, events)
    requires |tail| < BLOCK_SIZE && (Lives(x, f, base, digest, events).Some? ==> kept <= |Image(f, Lives(x, f, base, digest, events).value.blocks)| + |tail|)
    ensures Lives(x, f, base, digest, events) == Some(a) && kept / BLOCK_SIZE <= |a.blocks| && kept / BLOCK_SIZE * BLOCK_SIZE <= kept
    ensures kept <= |Image(f, a.blocks) + tail| && Scan(f, base, digest, (Image(f, a.blocks) + tail)[..kept], kept / BLOCK_SIZE) == Ok(read)
    ensures Recovered(x, RecordsIn(read)) == Some(r) && |r.commits| <= |a.store.committed| == |a.store.ends|
    ensures ShowsAll(x, a.store.committed[..|r.commits|], r.commits)
    ensures forall i :: 0 <= i < |a.store.ends| ==> (i < |r.commits| <==> a.store.ends[i] <= |RecordsIn(read)|)
  {
    EveryLifeCarries(x, f, base, digest, events);
    a := Lives(x, f, base, digest, events).value;
    read, r := CrashRecoversPrefix(f, base, digest, a.blocks, tail, kept, x);
    RecordsPrefix(a.blocks, kept / BLOCK_SIZE);
    var n := |RecordsIn(read)|;
    assert RecordsIn(read) == a.store.log[..n];
    forall i | 0 <= i < |a.store.ends| ensures i < |r.commits| <==> a.store.ends[i] <= n {
      assert EndsAt(a.store.log, i, a.store.ends[i]);
      KeptIff(a.store.log, i, a.store.ends[i], n);
    }
  }
}
