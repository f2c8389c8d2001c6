/**
  The append-only log file: records packed into blocks, blocks chained by digest, and the repair of
  a torn tail when the file is opened again.
*/
module WalFile {
  import opened Bytes
  import opened Collections
  import opened Results
  import opened WalBlock

  /** Building, writing and reading one block, apart from its layout. */
  datatype BlockFormat = BlockFormat(
    build: (nat, ByteString, seq<Pending>) -> Checked<Block>,
    encode: Block -> ByteString,
    decode: (nat, ByteString, ByteString) -> Checked<Block>)

  function BlockFormatOf(m: Format): BlockFormat {
    BlockFormat(
      (sequence: nat, previous, pending) => BuildBlock(m, sequence, previous, pending),
      (b: Block) => if Full(m.codec, b.records) then EncodeBlock(m, b) else [],
      (sequence: nat, previous, encoded) => DecodeBlock(m, sequence, previous, encoded))
  }

  ghost predicate Good(x: BlockFormat, b: Block) {
    |x.encode(b)| == BLOCK_SIZE && x.decode(b.sequence, b.previous, x.encode(b)) == Ok(b) && |b.digest| == 32
  }

  ghost predicate Reads(x: BlockFormat, sequence: nat, previous: ByteString, encoded: ByteString, b: Block) {
    Good(x, b) && b.sequence == sequence && b.previous == previous && x.encode(b) == encoded
  }

  ghost predicate Builds(x: BlockFormat, sequence: nat, previous: ByteString, pending: seq<Pending>, b: Block) {
    Good(x, b) && b.sequence == sequence && b.previous == previous && Unplaced(b.records) == pending
  }

  ghost predicate Writable(sequence: nat, previous: ByteString, pending: seq<Pending>) {
    |previous| == 32 && sequence < U64 && forall i :: 0 <= i < |pending| ==> ValidPending(pending[i])
  }

  ghost predicate Sound(x: BlockFormat) {
    && (forall sequence, previous, encoded :: x.decode(sequence, previous, encoded).Ok? ==>
      Reads(x, sequence, previous, encoded, x.decode(sequence, previous, encoded).value))
    && (forall sequence, previous, pending :: Writable(sequence, previous, pending) && x.build(sequence, previous, pending).Ok? ==>
      Builds(x, sequence, previous, pending, x.build(sequence, previous, pending).value))
  }

  lemma FormatIsSound(m: Format)
    requires ValidFormat(m)
    ensures Sound(BlockFormatOf(m))
  {
    var x := BlockFormatOf(m);
    forall sequence, previous, encoded | x.decode(sequence, previous, encoded).Ok?
      ensures Reads(x, sequence, previous, encoded, x.decode(sequence, previous, encoded).value)
    {
      var b := DecodeBlock(m, sequence, previous, encoded).value;
      EncodeOfDecodeBlock(m, sequence, previous, encoded, b);
      DecodeOfEncodeBlock(m, b);
    }
    forall sequence, previous, pending | Writable(sequence, previous, pending) && x.build(sequence, previous, pending).Ok?
      ensures Builds(x, sequence, previous, pending, x.build(sequence, previous, pending).value)
    {
      var b := BuildBlock(m, sequence, previous, pending).value;
      BuildSeals(m, sequence, previous, pending, b);
      DecodeOfEncodeBlock(m, b);
    }
  }

  /** The log's own format is sound for any pair of hash functions of the right lengths. */
  lemma LogFormatIsSound(h: Hashes)
    requires ValidHashes(h)
    ensures Sound(BlockFormatOf(FormatOf(h)))
  {
    CodecIsFaithful(h);
    FormatIsSound(FormatOf(h));
  }

  // ---- chains of blocks ----

  function PreviousOf(base: ByteString, blocks: seq<Block>): ByteString {
    if blocks == [] then base else blocks[|blocks| - 1].digest
  }

  /** Blocks numbered from the base on, each naming the digest of the one before it. */
  ghost predicate Chained(x: BlockFormat, base: nat, baseDigest: ByteString, blocks: seq<Block>) {
    forall i :: 0 <= i < |blocks| ==> Linked(x, base, baseDigest, blocks, i)
  }

  ghost predicate Linked(x: BlockFormat, base: nat, baseDigest: ByteString, blocks: seq<Block>, i: nat)
    requires i < |blocks|
  {
    Good(x, blocks[i]) && blocks[i].sequence == base + i + 1 && blocks[i].previous == PreviousOf(baseDigest, blocks[..i])
  }

  // What the file holds for these blocks.
  ghost function Image(x: BlockFormat, blocks: seq<Block>): ByteString {
    if blocks == [] then [] else Image(x, blocks[..|blocks| - 1]) + x.encode(blocks[|blocks| - 1])
  }

  lemma ChainedPrefix(x: BlockFormat, base: nat, baseDigest: ByteString, blocks: seq<Block>, n: nat)
    requires Chained(x, base, baseDigest, blocks) && n <= |blocks|
    ensures Chained(x, base, baseDigest, blocks[..n])
  {
    forall i | 0 <= i < n ensures Linked(x, base, baseDigest, blocks[..n], i) {
      assert Linked(x, base, baseDigest, blocks, i);
      assert blocks[..n][..i] == blocks[..i];
    }
  }

  lemma ChainedSnoc(x: BlockFormat, base: nat, baseDigest: ByteString, blocks: seq<Block>, b: Block)
    requires Chained(x, base, baseDigest, blocks) && Good(x, b)
    requires b.sequence == base + |blocks| + 1 && b.previous == PreviousOf(baseDigest, blocks)
    ensures Chained(x, base, baseDigest, blocks + [b])
    ensures Image(x, blocks + [b]) == Image(x, blocks) + x.encode(b)
  {
    var all := blocks + [b];
    assert all[..|blocks|] == blocks;
    forall i | 0 <= i < |all| ensures Linked(x, base, baseDigest, all, i) {
      if i < |blocks| {
        assert Linked(x, base, baseDigest, blocks, i);
        assert all[..i] == blocks[..i];
      }
    }
  }

  lemma {:induction false} ImageLength(x: BlockFormat, base: nat, baseDigest: ByteString, blocks: seq<Block>)
    requires Chained(x, base, baseDigest, blocks)
    ensures |Image(x, blocks)| == |blocks| * BLOCK_SIZE
  {
    if blocks != [] {
      var n := |blocks| - 1;
      ChainedPrefix(x, base, baseDigest, blocks, n);
      ImageLength(x, base, baseDigest, blocks[..n]);
      assert Linked(x, base, baseDigest, blocks, n);
    }
  }

  lemma {:induction false} ImagePrefix(x: BlockFormat, base: nat, baseDigest: ByteString, blocks: seq<Block>, n: nat)
    requires Chained(x, base, baseDigest, blocks) && n <= |blocks|
    ensures |Image(x, blocks)| == |blocks| * BLOCK_SIZE && Image(x, blocks[..n]) == Image(x, blocks)[..n * BLOCK_SIZE]
  {
    ImageLength(x, base, baseDigest, blocks);
    if n < |blocks| {
      var init := blocks[..|blocks| - 1];
      ChainedPrefix(x, base, baseDigest, blocks, |blocks| - 1);
      ImagePrefix(x, base, baseDigest, init, n);
      assert init[..n] == blocks[..n];
    } else {
      assert blocks[..n] == blocks;
      assert Image(x, blocks)[..n * BLOCK_SIZE] == Image(x, blocks);
    }
  }

  // ---- reading a file ----

  /** The first n blocks of the file, read in order. */
  ghost function Scan(x: BlockFormat, base: nat, baseDigest: ByteString, data: ByteString, n: nat): Checked<seq<Block>>
    requires n * BLOCK_SIZE <= |data|
  {
    if n == 0 then Ok([])
    else
      var before := Scan(x, base, baseDigest, data, n - 1);
      if before.Err? then before
      else
        var b := x.decode(base + n, PreviousOf(baseDigest, before.value), data[(n - 1) * BLOCK_SIZE..n * BLOCK_SIZE]);
        if b.Err? then Err(b.error) else Ok(before.value + [b.value])
  }

  /** Whatever is read is a chain, and the file holds exactly its encoding. */
  lemma {:induction false} ScanSound(x: BlockFormat, base: nat, baseDigest: ByteString, data: ByteString, n: nat)
    requires Sound(x) && n * BLOCK_SIZE <= |data| && Scan(x, base, baseDigest, data, n).Ok?
    ensures |Scan(x, base, baseDigest, data, n).value| == n
    ensures Chained(x, base, baseDigest, Scan(x, base, baseDigest, data, n).value)
    ensures Image(x, Scan(x, base, baseDigest, data, n).value) == data[..n * BLOCK_SIZE]
  {
    if n > 0 {
      var before := Scan(x, base, baseDigest, data, n - 1).value;
      ScanSound(x, base, baseDigest, data, n - 1);
      var cut := data[(n - 1) * BLOCK_SIZE..n * BLOCK_SIZE];
      var b := x.decode(base + n, PreviousOf(baseDigest, before), cut).value;
      assert Reads(x, base + n, PreviousOf(baseDigest, before), cut, b);
      ChainedSnoc(x, base, baseDigest, before, b);
      assert data[..(n - 1) * BLOCK_SIZE] + cut == data[..n * BLOCK_SIZE];
    }
  }

  /** A file that begins with the encoding of a chain is read as that chain. */
  lemma {:induction false} ScanComplete(x: BlockFormat, base: nat, baseDigest: ByteString, data: ByteString, blocks: seq<Block>, n: nat)
    requires Chained(x, base, baseDigest, blocks) && n <= |blocks| && n * BLOCK_SIZE <= |data|
    requires |Image(x, blocks)| == |blocks| * BLOCK_SIZE && Image(x, blocks)[..n * BLOCK_SIZE] == data[..n * BLOCK_SIZE]
    ensures Scan(x, base, baseDigest, data, n) == Ok(blocks[..n])
  {
    if n > 0 {
      var k := n - 1;
      var image := Image(x, blocks);
      assert image[..k * BLOCK_SIZE] == image[..n * BLOCK_SIZE][..k * BLOCK_SIZE];
      assert data[..k * BLOCK_SIZE] == data[..n * BLOCK_SIZE][..k * BLOCK_SIZE];
      ScanComplete(x, base, baseDigest, data, blocks, k);
      BlockAt(x, base, baseDigest, blocks, k);
      assert data[k * BLOCK_SIZE..n * BLOCK_SIZE] == data[..n * BLOCK_SIZE][k * BLOCK_SIZE..];
      assert image[k * BLOCK_SIZE..n * BLOCK_SIZE] == image[..n * BLOCK_SIZE][k * BLOCK_SIZE..];
      assert Linked(x, base, baseDigest, blocks, k);
      assert blocks[..n] == blocks[..k] + [blocks[k]];
    }
  }

  lemma BlockAt(x: BlockFormat, base: nat, baseDigest: ByteString, blocks: seq<Block>, k: nat)
    requires Chained(x, base, baseDigest, blocks) && k < |blocks|
    ensures |Image(x, blocks)| == |blocks| * BLOCK_SIZE
    ensures Image(x, blocks)[k * BLOCK_SIZE..(k + 1) * BLOCK_SIZE] == x.encode(blocks[k])
  {
    ImagePrefix(x, base, baseDigest, blocks, k);
    ImagePrefix(x, base, baseDigest, blocks, k + 1);
    var image, first := Image(x, blocks), blocks[..k + 1];
    assert first[..k] == blocks[..k];
    assert Image(x, first) == Image(x, blocks[..k]) + x.encode(blocks[k]);
    assert image[k * BLOCK_SIZE..(k + 1) * BLOCK_SIZE] == image[..(k + 1) * BLOCK_SIZE][k * BLOCK_SIZE..];
  }

  /** A crash that keeps any prefix of a file that ends in a torn block: exactly the complete blocks
      of the prefix are read, and they are a prefix of the blocks written. */
  lemma TornTail(x: BlockFormat, base: nat, baseDigest: ByteString, blocks: seq<Block>, tail: ByteString, k: nat)
    requires Chained(x, base, baseDigest, blocks) && |tail| < BLOCK_SIZE && k <= |Image(x, blocks)| + |tail|
    ensures k / BLOCK_SIZE <= |blocks| && k / BLOCK_SIZE * BLOCK_SIZE <= k
    ensures Scan(x, base, baseDigest, (Image(x, blocks) + tail)[..k], k / BLOCK_SIZE) == Ok(blocks[..k / BLOCK_SIZE])
  {
    var n, image := k / BLOCK_SIZE, Image(x, blocks);
    ImageLength(x, base, baseDigest, blocks);
    assert (image + tail)[..k][..n * BLOCK_SIZE] == image[..n * BLOCK_SIZE];
    ScanComplete(x, base, baseDigest, (image + tail)[..k], blocks, n);
  }

  method ReadBlocks(x: BlockFormat, base: nat, baseDigest: ByteString, data: ByteString) returns (r: Checked<seq<Block>>)
    ensures |data| / BLOCK_SIZE * BLOCK_SIZE <= |data|
    ensures r.Ok? <==>
      && (base == 0 <==> baseDigest == Zeros(32)) && base + |data| / BLOCK_SIZE + 1 < U64
      && Scan(x, base, baseDigest, data, |data| / BLOCK_SIZE).Ok?
    ensures r.Ok? ==> r == Scan(x, base, baseDigest, data, |data| / BLOCK_SIZE)
  {
    var complete := |data| / BLOCK_SIZE;
    if (base == 0) != (baseDigest == Zeros(32)) {
      return Err(InvalidPhysicalBase);
    }
    var blocks: seq<Block>, previous := [], baseDigest;
    for index := 0 to complete
      invariant index * BLOCK_SIZE <= |data|
      invariant Scan(x, base, baseDigest, data, index) == Ok(blocks) && previous == PreviousOf(baseDigest, blocks)
      invariant index > 0 ==> base + index < U64
    {
      if base + index + 1 >= U64 {
        return Err(AddressExhausted);
      }
      var block := x.decode(base + index + 1, previous, data[index * BLOCK_SIZE..(index + 1) * BLOCK_SIZE]);
      if block.Err? {
        ScanFails(x, base, baseDigest, data, index + 1, complete);
        return Err(block.error);
      }
      blocks, previous := blocks + [block.value], block.value.digest;
    }
    if base + complete + 1 >= U64 {
      return Err(AddressExhausted);
    }
    return Ok(blocks);
  }

  lemma {:induction false} ScanFails(x: BlockFormat, base: nat, baseDigest: ByteString, data: ByteString, k: nat, n: nat)
    requires k <= n && n * BLOCK_SIZE <= |data| && Scan(x, base, baseDigest, data, k).Err?
    ensures Scan(x, base, baseDigest, data, n).Err?
  {
    if k < n { ScanFails(x, base, baseDigest, data, k, n - 1); }
  }

  // ---- packing records into blocks ----

  function Concat(groups: seq<seq<Pending>>): seq<Pending> {
    if groups == [] then [] else Concat(groups[..|groups| - 1]) + groups[|groups| - 1]
  }

  lemma {:induction false} SizeSnoc(s: seq<Pending>, p: Pending)
    ensures Size(s + [p]) == Size(s) + Length(p)
  {
    if s == [] {
      assert s + [p] == [p];
    } else {
      assert (s + [p])[1..] == s[1..] + [p];
      SizeSnoc(s[1..], p);
    }
  }

  ghost predicate Fits(group: seq<Pending>) { group != [] && Size(group) <= PAYLOAD_SIZE }

  // A new block is started only for a record that the block before it cannot take.
  ghost predicate Greedy(groups: seq<seq<Pending>>) {
    && (forall i :: 0 <= i < |groups| ==> Fits(groups[i]))
    && forall i :: 0 <= i < |groups| - 1 ==> Size(groups[i]) + Length(groups[i + 1][0]) > PAYLOAD_SIZE
  }

  // The packing under way: closed groups and the one being filled.
  ghost predicate Packing(groups: seq<seq<Pending>>, current: seq<Pending>, records: seq<Pending>) {
    && Concat(groups) + current == records && Greedy(groups)
    && (current == [] ==> groups == []) && Size(current) <= PAYLOAD_SIZE
    && (groups != [] && current != [] ==> Size(groups[|groups| - 1]) + Length(current[0]) > PAYLOAD_SIZE)
  }

  lemma CloseGroup(groups: seq<seq<Pending>>, current: seq<Pending>, records: seq<Pending>)
    requires Packing(groups, current, records) && current != []
    ensures Concat(groups + [current]) == records && Greedy(groups + [current])
  {
    assert (groups + [current])[..|groups|] == groups;
  }

  lemma StartGroup(groups: seq<seq<Pending>>, current: seq<Pending>, records: seq<Pending>, p: Pending)
    requires Packing(groups, current, records) && current != [] && ValidPending(p) && Size(current) + Length(p) > PAYLOAD_SIZE
    ensures Packing(groups + [current], [p], records + [p])
  {
    CloseGroup(groups, current, records);
    assert Size([p]) == Length(p) + Size([]);
  }

  lemma ExtendGroup(groups: seq<seq<Pending>>, current: seq<Pending>, records: seq<Pending>, p: Pending)
    requires Packing(groups, current, records) && Size(current) + Length(p) <= PAYLOAD_SIZE
    ensures Packing(groups, current + [p], records + [p])
  {
    SizeSnoc(current, p);
    ConcatSnoc(Concat(groups), current, p);
  }

  // One more record: into the open group, or into a new one.
  method PackNext(groups: seq<seq<Pending>>, current: seq<Pending>, bytes: nat, record: Pending, ghost done: seq<Pending>)
    returns (closed: seq<seq<Pending>>, open: seq<Pending>, size: nat)
    requires Packing(groups, current, done) && bytes == Size(current) && ValidPending(record)
    ensures Packing(closed, open, done + [record]) && size == Size(open) && open != []
  {
    if bytes + Length(record) > PAYLOAD_SIZE {
      StartGroup(groups, current, done, record);
      assert Size([record]) == Length(record) + Size([]);
      return groups + [current], [record], Length(record);
    }
    SizeSnoc(current, record);
    ExtendGroup(groups, current, done, record);
    return groups, current + [record], bytes + Length(record);
  }

  method Pack(records: seq<Pending>) returns (groups: seq<seq<Pending>>)
    requires forall i :: 0 <= i < |records| ==> ValidPending(records[i])
    ensures Concat(groups) == records && Greedy(groups)
  {
    groups := [];
    var current: seq<Pending>, bytes := [], 0;
    ghost var done: seq<Pending> := [];
    for i := 0 to |records|
      invariant done == records[..i] && Packing(groups, current, done) && bytes == Size(current) && (current == [] ==> i == 0)
    {
      groups, current, bytes := PackNext(groups, current, bytes, records[i], done);
      done := done + [records[i]];
    }
    assert done == records;
    if current != [] {
      CloseGroup(groups, current, records);
      groups := groups + [current];
    }
  }

  // ---- the file ----

  ghost function RecordsIn(blocks: seq<Block>): seq<Record> {
    if blocks == [] then [] else RecordsIn(blocks[..|blocks| - 1]) + blocks[|blocks| - 1].records
  }

  lemma RecordsSnoc(blocks: seq<Block>, b: Block)
    ensures RecordsIn(blocks + [b]) == RecordsIn(blocks) + b.records
  {
    assert (blocks + [b])[..|blocks|] == blocks;
  }

  class WalFile {
    const format: BlockFormat
    // The contents of the file, and how much of it is known to survive a crash.
    var data: ByteString
    var synced: nat
    var nextSequence: nat
    var previousDigest: ByteString
    var poisoned: bool
    // The chain that the contents encode.
    ghost var base: nat
    ghost var baseDigest: ByteString
    ghost var blocks: seq<Block>

    /** The contents are a chain of blocks, followed by a torn block at most; without a torn block
        the next one can be written. */
    ghost predicate Valid()
      reads this
    {
      && Sound(format) && Chained(format, base, baseDigest, blocks) && |baseDigest| == 32
      && Image(format, blocks) <= data && |data| < |Image(format, blocks)| + BLOCK_SIZE && synced <= |data|
      && (!poisoned ==> Ready())
    }

    // The records of the chain, apart from where they were placed.
    ghost function Carried(): seq<Pending>
      reads this
    {
      Unplaced(RecordsIn(blocks))
    }

    ghost predicate Ready()
      reads this
    {
      && data == Image(format, blocks) && nextSequence == base + |blocks| + 1 && nextSequence < U64
      && previousDigest == PreviousOf(baseDigest, blocks)
    }

    constructor Create(format: BlockFormat)
      requires Sound(format)
      ensures Valid() && !poisoned && blocks == [] && base == 0 && this.format == format && data == []
    {
      this.format := format;
      data, synced, nextSequence, previousDigest, poisoned := [], 0, 1, Zeros(32), false;
      base, baseDigest, blocks := 0, Zeros(32), [];
    }

    /** Resumes after the complete blocks of a file; a torn tail is cut off. */
    constructor Resume(format: BlockFormat, contents: ByteString, base: nat, baseDigest: ByteString, read: seq<Block>)
      requires Sound(format) && |baseDigest| == 32 && base + |read| + 1 < U64 && |contents| / BLOCK_SIZE == |read|
      requires |read| * BLOCK_SIZE <= |contents| && Scan(format, base, baseDigest, contents, |read|) == Ok(read)
      ensures Valid() && !poisoned && blocks == read && this.base == base && this.baseDigest == baseDigest && this.format == format
      ensures data == contents[..|read| * BLOCK_SIZE] && synced == |data|
    {
      this.format := format;
      data, synced := contents[..|read| * BLOCK_SIZE], |read| * BLOCK_SIZE;
      nextSequence, previousDigest, poisoned := base + |read| + 1, PreviousOf(baseDigest, read), false;
      this.base, this.baseDigest, blocks := base, baseDigest, read;
      new;
      ScanSound(format, base, baseDigest, contents, |read|);
    }

    lemma LastDigest()
      requires Valid() && Ready()
      ensures |previousDigest| == 32
    {
      if blocks != [] { assert Linked(format, base, baseDigest, blocks, |blocks| - 1); }
    }

    /** Writes one packed block; the device takes `room` bytes before it fails.  The writer is
        poisoned for the time of the write. */
    method WriteBlock(group: seq<Pending>, room: nat) returns (r: Checked<Block>)
      requires Valid() && Ready() && poisoned && forall i :: 0 <= i < |group| ==> ValidPending(group[i])
      modifies `data, `nextSequence, `previousDigest, `blocks
      ensures Valid() && old(data) <= data && old(blocks) <= blocks
      ensures r.Ok? ==> Ready() && blocks == old(blocks) + [r.value] && Carried() == old(Carried()) + group
      ensures r.Err? ==> Carried() == old(Carried()) || Carried() == old(Carried()) + group
    {
      LastDigest();
      var built := format.build(nextSequence, previousDigest, group);
      if built.Err? {
        return Err(built.error);
      }
      var block := built.value;
      assert Writable(nextSequence, previousDigest, group);
      assert Builds(format, nextSequence, previousDigest, group, block);
      var encoded := format.encode(block);
      if room < |encoded| {
        data := data + encoded[..room];
        return Err(Io);
      }
      ChainedSnoc(format, base, baseDigest, blocks, block);
      UnplacedSnoc(blocks, block);
      data := data + encoded;
      blocks := blocks + [block];
      previousDigest := block.digest;
      if nextSequence + 1 >= U64 {
        return Err(AddressExhausted);
      }
      nextSequence := nextSequence + 1;
      return Ok(block);
    }

    // Writes one block after the other until the device fails.
    method WriteGroups(groups: seq<seq<Pending>>, room: nat) returns (r: Checked<seq<Block>>)
      requires Valid() && Ready() && poisoned && forall i :: 0 <= i < |Concat(groups)| ==> ValidPending(Concat(groups)[i])
      modifies `data, `nextSequence, `previousDigest, `blocks
      ensures Valid() && old(data) <= data && old(blocks) <= blocks
      ensures r.Ok? ==> Ready() && blocks == old(blocks) + r.value
      ensures r.Ok? ==> Carried() == old(Carried()) + Concat(groups)
      ensures old(Carried()) <= Carried() <= old(Carried()) + Concat(groups)
    {
      var left: nat, written: seq<Block> := room, [];
      ghost var start := Carried();
      for i := 0 to |groups|
        invariant Valid() && Ready() && old(data) <= data && blocks == old(blocks) + written
        invariant Carried() == start + Concat(groups[..i])
      {
        GroupsValid(groups, Concat(groups), i);
        GroupWritten(groups, i, start);
        var block := WriteBlock(groups[i], left);
        if block.Err? {
          return Err(block.error);
        }
        left := if left < BLOCK_SIZE then 0 else left - BLOCK_SIZE;
        written := written + [block.value];
      }
      assert groups[..|groups|] == groups;
      return Ok(written);
    }

    /** Appends records in packed blocks; `syncs` says whether a synchronization succeeds.  On success
        the new blocks carry exactly these records in order; on failure the writer is poisoned and
        the blocks written carry a prefix of them. */
    method AppendRecords(records: seq<Pending>, synchronize: bool, room: nat, syncs: bool) returns (r: Checked<seq<Block>>)
      requires Valid() && forall i :: 0 <= i < |records| ==> ValidPending(records[i])
      modifies `data, `nextSequence, `previousDigest, `blocks, `poisoned, `synced
      ensures Valid() && old(data) <= data && old(blocks) <= blocks
      ensures old(poisoned) || records == [] ==> r.Err? && data == old(data) && blocks == old(blocks) && poisoned == old(poisoned)
      ensures !old(poisoned) && records != [] ==> poisoned == r.Err?
      ensures r.Ok? ==> blocks == old(blocks) + r.value && Carried() == old(Carried()) + records
      ensures old(Carried()) <= Carried() <= old(Carried()) + records
      ensures synced == if r.Ok? && synchronize then |data| else old(synced)
    {
      if poisoned {
        return Err(Poisoned);
      }
      if records == [] {
        return Err(EmptyBlock);
      }
      var groups := Pack(records);
      poisoned := true;
      r := WriteGroups(groups, room);
      if r.Ok? {
        if synchronize {
          if !syncs {
            return Err(Io);
          }
          synced := |data|;
        }
        poisoned := false;
      }
    }

    /** Synchronizes what was written; a failure poisons the writer. */
    method SyncData(syncs: bool) returns (r: Checked<()>)
      requires Valid()
      modifies `poisoned, `synced
      ensures Valid() && (r.Ok? <==> !old(poisoned) && syncs)
      ensures synced == (if r.Ok? then |data| else old(synced)) && poisoned == r.Err?
    {
      if poisoned {
        return Err(Poisoned);
      }
      if !syncs {
        poisoned := true;
        return Err(Io);
      }
      synced := |data|;
      return Ok(());
    }

    /** Whatever prefix of the contents a crash keeps, as long as it keeps what was synchronized:
        reading it again gives a prefix of the blocks, and every block synchronized is in it. */
    lemma CrashKeepsPrefix(kept: nat)
      requires Valid() && synced <= kept <= |data|
      ensures synced / BLOCK_SIZE <= kept / BLOCK_SIZE <= |blocks| && kept / BLOCK_SIZE * BLOCK_SIZE <= kept
      ensures Scan(format, base, baseDigest, data[..kept], kept / BLOCK_SIZE) == Ok(blocks[..kept / BLOCK_SIZE])
    {
      var image := Image(format, blocks);
      var tail := data[|image|..];
      assert data == image + tail;
      TornTail(format, base, baseDigest, blocks, tail, kept);
    }
  }

  lemma {:induction false} ConcatPrefix(groups: seq<seq<Pending>>, n: nat)
    requires n <= |groups|
    ensures Concat(groups[..n]) <= Concat(groups)
  {
    if n < |groups| {
      var init := groups[..|groups| - 1];
      ConcatPrefix(init, n);
      assert init[..n] == groups[..n];
    } else {
      assert groups[..n] == groups;
    }
  }

  lemma GroupsValid(groups: seq<seq<Pending>>, records: seq<Pending>, i: nat)
    requires Concat(groups) == records && i < |groups| && forall k :: 0 <= k < |records| ==> ValidPending(records[k])
    ensures forall k :: 0 <= k < |groups[i]| ==> ValidPending(groups[i][k])
  {
    ConcatPrefix(groups, i + 1);
    var first := groups[..i + 1];
    assert first[..i] == groups[..i] && first[i] == groups[i];
    forall k | 0 <= k < |groups[i]| ensures ValidPending(groups[i][k]) {
      assert groups[i][k] == Concat(first)[|Concat(groups[..i])| + k] == records[|Concat(groups[..i])| + k];
    }
  }

  lemma GroupWritten(groups: seq<seq<Pending>>, i: nat, start: seq<Pending>)
    requires i < |groups|
    ensures start + Concat(groups[..i]) + groups[i] == start + Concat(groups[..i + 1])
    ensures start <= start + Concat(groups[..i]) <= start + Concat(groups) && start + Concat(groups[..i + 1]) <= start + Concat(groups)
  {
    assert groups[..i + 1][..i] == groups[..i];
    ConcatAssociates(start, Concat(groups[..i]), groups[i]);
    ConcatPrefix(groups, i);
    ConcatKeepsPrefix(start, Concat(groups[..i]), Concat(groups));
    ConcatPrefix(groups, i + 1);
    ConcatKeepsPrefix(start, Concat(groups[..i + 1]), Concat(groups));
  }

  lemma UnplacedSnoc(blocks: seq<Block>, b: Block)
    ensures Unplaced(RecordsIn(blocks + [b])) == Unplaced(RecordsIn(blocks)) + Unplaced(b.records)
  {
    RecordsSnoc(blocks, b);
  }
}
