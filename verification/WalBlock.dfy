/**
  The write-ahead log's wire format: records packed into fixed-size, digest-chained blocks.  The
  checksum and the digest are arbitrary functions of the right width.
*/
module WalBlock {
  import opened Bytes
  import opened Results

  const BLOCK_SIZE := 65536
  const HEADER_SIZE := 112
  const PAYLOAD_SIZE := BLOCK_SIZE - HEADER_SIZE
  const RECORD_HEADER := 44
  const BODY_SIZE := PAYLOAD_SIZE - RECORD_HEADER

  datatype Kind = Begin | Mutation | Commit | Abort | Checkpoint | Catalog

  datatype Engine = Kernel | Relational | Structure | Search

  datatype WalError =
    | InvalidBlockLength | InvalidMagic | UnsupportedFormat | ReservedNonzero | BlockSequenceMismatch
    | PreviousDigestMismatch | BlockPayloadTooLarge | NonzeroPadding | BlockChecksumMismatch | BlockDigestMismatch
    | EmptyBlock | InvalidRecordLength | UnknownRecordKind | UnknownEngineKind | RecordReservedNonzero
    | RecordLsnMismatch | RecordChecksumMismatch | AddressExhausted | InvalidPhysicalBase | Poisoned | Io

  type Checked<+T> = Result<T, WalError>

  datatype Hashes = Hashes(crc: ByteString -> nat, digest: ByteString -> ByteString)

  ghost predicate ValidHashes(h: Hashes) {
    forall b :: h.crc(b) < U32 && |h.digest(b)| == 32
  }

  // ---- records ----

  datatype Pending = Pending(kind: Kind, engine: Engine, flags: nat, transaction: nat, body: ByteString)

  datatype Record = Record(lsn: nat, kind: Kind, engine: Engine, flags: nat, transaction: nat, body: ByteString)

  function KindCode(k: Kind): Byte {
    match k case Begin => 1 case Mutation => 2 case Commit => 3 case Abort => 4 case Checkpoint => 5 case Catalog => 6
  }

  function KindOf(b: Byte): Option<Kind> {
    match b case 1 => Some(Begin) case 2 => Some(Mutation) case 3 => Some(Commit) case 4 => Some(Abort)
            case 5 => Some(Checkpoint) case 6 => Some(Catalog) case _ => None
  }

  function EngineCode(e: Engine): Byte {
    match e case Kernel => 0 case Relational => 1 case Structure => 2 case Search => 3
  }

  function EngineOf(b: Byte): Option<Engine> {
    match b case 0 => Some(Kernel) case 1 => Some(Relational) case 2 => Some(Structure) case 3 => Some(Search) case _ => None
  }

  // The types bound these fields in the source; a body is bounded when it is constructed.
  predicate ValidPending(p: Pending) {
    p.flags < U16 && 0 < p.transaction < U128 && |p.body| <= BODY_SIZE
  }

  function PendingOf(r: Record): Pending { Pending(r.kind, r.engine, r.flags, r.transaction, r.body) }

  predicate ValidRecord(r: Record) { 0 < r.lsn < U64 && ValidPending(PendingOf(r)) }

  function Length(p: Pending): nat { RECORD_HEADER + |p.body| }

  function RecordWidths(): (w: seq<nat>)
    ensures |w| == 9 && Total(w) == RECORD_HEADER
  {
    var w := [4, 4, 1, 1, 2, 8, 16, 4, 4];
    assert Total(w[8..]) == 4 && Total(w[7..]) == 8 && Total(w[6..]) == 24 && Total(w[5..]) == 32 && Total(w[4..]) == 34;
    assert Total(w[3..]) == 35 && Total(w[2..]) == 36 && Total(w[1..]) == 40;
    w
  }

  function RecordFields(r: Record, checksum: ByteString): (f: seq<ByteString>)
    ensures |f| == 10
  {
    [Le(4, RECORD_HEADER + |r.body|), Le(4, |r.body|), [KindCode(r.kind)], [EngineCode(r.engine)], Le(2, r.flags),
     Le(8, r.lsn), Le(16, r.transaction), checksum, Zeros(4), r.body]
  }

  function EncodeRecord(h: Hashes, r: Record): ByteString {
    Join(RecordFields(r, Le(4, h.crc(Join(RecordFields(r, Zeros(4)))))))
  }

  function DecodeRecord(h: Hashes, encoded: ByteString, lsn: nat): Checked<Record> {
    if |encoded| < RECORD_HEADER then Err(InvalidRecordLength)
    else
      CheckRecord(h, Split(RecordWidths(), encoded), |encoded|, lsn)
  }

  function CheckRecord(h: Hashes, f: seq<ByteString>, length: nat, lsn: nat): Checked<Record>
    requires |f| == 10 && length >= RECORD_HEADER
  {
    if ReadLe(f[0]) != length || ReadLe(f[1]) != length - RECORD_HEADER then Err(InvalidRecordLength)
    else if !AllZero(f[8]) then Err(RecordReservedNonzero)
    else if ReadLe(f[5]) != lsn then Err(RecordLsnMismatch)
    else if h.crc(Join(f[7 := Zeros(4)])) != ReadLe(f[7]) then Err(RecordChecksumMismatch)
    else if ReadLe(f[6]) == 0 then Err(RecordReservedNonzero)
    else FinishRecord(f, lsn)
  }

  function FinishRecord(f: seq<ByteString>, lsn: nat): Checked<Record>
    requires |f| == 10
  {
    if |f[2]| != 1 || KindOf(f[2][0]).None? then Err(UnknownRecordKind)
    else if |f[3]| != 1 || EngineOf(f[3][0]).None? then Err(UnknownEngineKind)
    else Ok(Record(lsn, KindOf(f[2][0]).value, EngineOf(f[3][0]).value, ReadLe(f[4]), ReadLe(f[6]), f[9]))
  }

  lemma RecordShaped(r: Record, checksum: ByteString)
    requires |checksum| == 4
    ensures Shaped(RecordWidths(), RecordFields(r, checksum))
    ensures |Join(RecordFields(r, checksum))| == RECORD_HEADER + |r.body|
    ensures Split(RecordWidths(), Join(RecordFields(r, checksum))) == RecordFields(r, checksum)
  {
    var w, f := RecordWidths(), RecordFields(r, checksum);
    assert w == [4, 4, 1, 1, 2, 8, 16, 4, 4];
    JoinLength(w, f);
    SplitOfJoin(w, f);
  }

  /** Every record is read back as it was written. */
  lemma DecodeOfEncode(h: Hashes, r: Record)
    requires ValidHashes(h) && ValidRecord(r)
    ensures |EncodeRecord(h, r)| == RECORD_HEADER + |r.body|
    ensures DecodeRecord(h, EncodeRecord(h, r), r.lsn) == Ok(r)
    ensures ReadLe(Split(RecordWidths(), EncodeRecord(h, r))[0]) == |EncodeRecord(h, r)|
  {
    var crc := h.crc(Join(RecordFields(r, Zeros(4))));
    RecordShaped(r, Le(4, crc));
    FieldsChecked(h, r, crc, RecordFields(r, Le(4, crc)));
  }

  lemma FieldsChecked(h: Hashes, r: Record, crc: nat, f: seq<ByteString>)
    requires ValidHashes(h) && ValidRecord(r) && crc == h.crc(Join(RecordFields(r, Zeros(4)))) && f == RecordFields(r, Le(4, crc))
    ensures CheckRecord(h, f, RECORD_HEADER + |r.body|, r.lsn) == Ok(r) && ReadLe(f[0]) == RECORD_HEADER + |r.body|
  {
    assert f[7 := Zeros(4)] == RecordFields(r, Zeros(4));
    ReadFields(r, crc);
  }

  lemma ReadFields(r: Record, crc: nat)
    requires ValidRecord(r) && crc < U32
    ensures ReadLe(Le(4, RECORD_HEADER + |r.body|)) == RECORD_HEADER + |r.body| && ReadLe(Le(4, |r.body|)) == |r.body|
    ensures ReadLe(Le(2, r.flags)) == r.flags && ReadLe(Le(8, r.lsn)) == r.lsn && ReadLe(Le(16, r.transaction)) == r.transaction
    ensures ReadLe(Le(4, crc)) == crc
  {
    Widths();
    ReadOfLe(4, RECORD_HEADER + |r.body|);
    ReadOfLe(4, |r.body|);
    ReadOfLe(2, r.flags);
    ReadOfLe(8, r.lsn);
    ReadOfLe(16, r.transaction);
    ReadOfLe(4, crc);
  }

  /** Every accepted encoding is the one encoding of the record it gives. */
  lemma EncodeOfDecode(h: Hashes, encoded: ByteString, lsn: nat)
    requires ValidHashes(h) && DecodeRecord(h, encoded, lsn).Ok? && |encoded| <= PAYLOAD_SIZE && lsn > 0
    ensures EncodeRecord(h, DecodeRecord(h, encoded, lsn).value) == encoded
    ensures ValidRecord(DecodeRecord(h, encoded, lsn).value) && DecodeRecord(h, encoded, lsn).value.lsn == lsn
    ensures |encoded| == RECORD_HEADER + |DecodeRecord(h, encoded, lsn).value.body|
  {
    var w, r := RecordWidths(), DecodeRecord(h, encoded, lsn).value;
    var f := Split(w, encoded);
    JoinOfSplit(w, encoded);
    assert w == [4, 4, 1, 1, 2, 8, 16, 4, 4];
    assert |f[0]| == 4 && |f[1]| == 4 && |f[2]| == 1 && |f[3]| == 1 && |f[4]| == 2;
    assert |f[5]| == 8 && |f[6]| == 16 && |f[7]| == 4 && |f[8]| == 4;
    FieldsAgain(f, r);
    assert f[7 := Zeros(4)] == RecordFields(r, Zeros(4));
    LeOfRead(f[7]);
    assert RecordFields(r, f[7]) == f;
  }

  lemma FieldsAgain(f: seq<ByteString>, r: Record)
    requires |f| == 10 && |f[0]| == 4 && |f[1]| == 4 && |f[4]| == 2 && |f[5]| == 8 && |f[6]| == 16 && |f[8]| == 4
    requires FinishRecord(f, r.lsn) == Ok(r) && AllZero(f[8]) && |f[2]| == 1 && |f[3]| == 1
    requires ReadLe(f[0]) == RECORD_HEADER + |f[9]| && ReadLe(f[1]) == |f[9]| && ReadLe(f[5]) == r.lsn
    ensures f == RecordFields(r, f[7])
    ensures r.flags < U16 && r.lsn < U64 && r.transaction < U128
  {
    Widths();
    LeOfRead(f[0]);
    LeOfRead(f[1]);
    LeOfRead(f[4]);
    LeOfRead(f[5]);
    LeOfRead(f[6]);
    assert f[8] == Zeros(4);
    assert f[2] == [f[2][0]] && f[3] == [f[3][0]];
  }

  // ---- the records of one block ----

  /** A record codec, apart from how it checks and lays out a record. */
  datatype Codec = Codec(encode: Record -> ByteString, decode: (ByteString, nat) -> Checked<Record>)

  function CodecOf(h: Hashes): Codec {
    Codec(r => EncodeRecord(h, r), (encoded, lsn: nat) => DecodeRecord(h, encoded, lsn))
  }

  ghost predicate ReadsBack(c: Codec, r: Record) {
    && |c.encode(r)| == Length(PendingOf(r)) && ReadLe(c.encode(r)[..4]) == |c.encode(r)|
    && c.decode(c.encode(r), r.lsn) == Ok(r)
  }

  ghost predicate Canonical(c: Codec, encoded: ByteString, lsn: nat, r: Record) {
    c.encode(r) == encoded && ValidRecord(r) && r.lsn == lsn && |encoded| == Length(PendingOf(r))
  }

  ghost predicate Faithful(c: Codec) {
    && (forall r :: ValidRecord(r) ==> ReadsBack(c, r))
    && (forall encoded, lsn :: 0 < lsn && |encoded| <= PAYLOAD_SIZE && c.decode(encoded, lsn).Ok? ==>
      Canonical(c, encoded, lsn, c.decode(encoded, lsn).value))
  }

  lemma FirstField(encoded: ByteString)
    requires |encoded| >= RECORD_HEADER
    ensures Split(RecordWidths(), encoded)[0] == encoded[..4]
  {
    assert RecordWidths()[0] == 4;
  }

  lemma CodecIsFaithful(h: Hashes)
    requires ValidHashes(h)
    ensures Faithful(CodecOf(h))
  {
    var c := CodecOf(h);
    forall r | ValidRecord(r) ensures ReadsBack(c, r) {
      DecodeOfEncode(h, r);
      FirstField(EncodeRecord(h, r));
    }
    forall encoded, lsn | 0 < lsn && |encoded| <= PAYLOAD_SIZE && c.decode(encoded, lsn).Ok?
      ensures Canonical(c, encoded, lsn, c.decode(encoded, lsn).value)
    {
      EncodeOfDecode(h, encoded, lsn);
    }
  }

  function Payload(c: Codec, records: seq<Record>): ByteString {
    if records == [] then [] else c.encode(records[0]) + Payload(c, records[1..])
  }

  // Each record starts where the one before it ends.
  ghost predicate Addressed(base: nat, records: seq<Record>)
    decreases |records|
  {
    records == [] || (records[0].lsn == base && Addressed(base + Length(PendingOf(records[0])), records[1..]))
  }

  ghost predicate AllValid(records: seq<Record>) {
    forall i :: 0 <= i < |records| ==> ValidRecord(records[i])
  }

  function RecordsOf(c: Codec, base: nat, payload: ByteString): Checked<seq<Record>>
    decreases |payload|
  {
    if payload == [] then Ok([])
    else if |payload| < RECORD_HEADER then Err(InvalidRecordLength)
    else
      var total := ReadLe(payload[..4]);
      if total < RECORD_HEADER || total > |payload| then Err(InvalidRecordLength)
      else if base >= U64 then Err(AddressExhausted)
      else
        var record := c.decode(payload[..total], base);
        if record.Err? then Err(record.error)
        else
          var rest := RecordsOf(c, base + total, payload[total..]);
          if rest.Err? then rest else Ok([record.value] + rest.value)
  }

  lemma {:induction false} RecordsOfPayload(c: Codec, base: nat, records: seq<Record>)
    requires Faithful(c) && AllValid(records) && Addressed(base, records)
    ensures RecordsOf(c, base, Payload(c, records)) == Ok(records)
    decreases |records|
  {
    if records != [] {
      var r, rest := records[0], records[1..];
      assert ReadsBack(c, r);
      var e, more := c.encode(r), Payload(c, rest);
      var payload := e + more;
      assert payload[..4] == e[..4] && payload[..|e|] == e && payload[|e|..] == more;
      RecordsOfPayload(c, base + |e|, rest);
      assert records == [r] + rest;
    }
  }

  // The records are valid, lie one after the other, and are all there is in the payload.
  ghost predicate Carries(c: Codec, base: nat, payload: ByteString, records: seq<Record>) {
    Payload(c, records) == payload && AllValid(records) && Addressed(base, records)
  }

  lemma {:induction false} PayloadOfRecords(c: Codec, base: nat, payload: ByteString)
    requires Faithful(c) && base > 0 && |payload| <= PAYLOAD_SIZE && RecordsOf(c, base, payload).Ok?
    ensures Carries(c, base, payload, RecordsOf(c, base, payload).value)
    decreases |payload|
  {
    if payload != [] {
      var total := ReadLe(payload[..4]);
      var r := c.decode(payload[..total], base).value;
      assert Canonical(c, payload[..total], base, r);
      PayloadOfRecords(c, base + total, payload[total..]);
      CarriesOneMore(c, base, payload, total, r, RecordsOf(c, base + total, payload[total..]).value);
    }
  }

  lemma CarriesOneMore(c: Codec, base: nat, payload: ByteString, total: nat, r: Record, rest: seq<Record>)
    requires total <= |payload| && Canonical(c, payload[..total], base, r) && Carries(c, base + total, payload[total..], rest)
    ensures Carries(c, base, payload, [r] + rest)
  {
    RecordsCons(c, base, r, rest);
    assert payload == payload[..total] + payload[total..];
  }

  lemma RecordsCons(c: Codec, base: nat, r: Record, rest: seq<Record>)
    requires ValidRecord(r) && r.lsn == base && AllValid(rest) && Addressed(base + Length(PendingOf(r)), rest)
    ensures Payload(c, [r] + rest) == c.encode(r) + Payload(c, rest)
    ensures AllValid([r] + rest) && Addressed(base, [r] + rest)
  {
    assert ([r] + rest)[1..] == rest;
  }

  lemma Slices(payload: ByteString, offset: nat, total: nat)
    requires 4 <= total && offset + total <= |payload|
    ensures payload[offset..][..4] == payload[offset..offset + 4]
    ensures payload[offset..][..total] == payload[offset..offset + total]
    ensures payload[offset..][total..] == payload[offset + total..]
  {
  }

  method DecodeRecords(c: Codec, base: nat, payload: ByteString) returns (r: Checked<seq<Record>>)
    ensures r == RecordsOf(c, base, payload)
  {
    var records: seq<Record>, offset := [], 0;
    assert payload[0..] == payload;
    NothingYet(RecordsOf(c, base, payload));
    while offset < |payload|
      invariant offset <= |payload|
      invariant RecordsOf(c, base, payload) == Continued(records, RecordsOf(c, base + offset, payload[offset..]))
      decreases |payload| - offset
    {
      var remaining := |payload| - offset;
      if remaining < RECORD_HEADER {
        return Err(InvalidRecordLength);
      }
      var total := ReadLe(payload[offset..offset + 4]);
      Slices(payload, offset, 4);
      if total < RECORD_HEADER || total > remaining {
        return Err(InvalidRecordLength);
      }
      if base + offset >= U64 {
        return Err(AddressExhausted);
      }
      Slices(payload, offset, total);
      var record := c.decode(payload[offset..offset + total], base + offset);
      if record.Err? {
        return Err(record.error);
      }
      ContinuedStep(records, record.value, RecordsOf(c, base + offset + total, payload[offset + total..]));
      records := records + [record.value];
      offset := offset + total;
    }
    assert payload[offset..] == [];
    assert records + [] == records;
    return Ok(records);
  }

  ghost function Continued(records: seq<Record>, rest: Checked<seq<Record>>): Checked<seq<Record>> {
    if rest.Err? then rest else Ok(records + rest.value)
  }

  lemma NothingYet(rest: Checked<seq<Record>>)
    ensures Continued([], rest) == rest
  {
    if rest.Ok? { assert [] + rest.value == rest.value; }
  }

  lemma ContinuedStep(records: seq<Record>, r: Record, rest: Checked<seq<Record>>)
    ensures Continued(records, if rest.Err? then rest else Ok([r] + rest.value)) == Continued(records + [r], rest)
  {
    if rest.Ok? { assert records + ([r] + rest.value) == records + [r] + rest.value; }
  }

  // ---- blocks ----

  /** What blocks are built with: the two hashes and a record codec. */
  datatype Format = Format(hashes: Hashes, codec: Codec)

  ghost predicate ValidFormat(m: Format) { ValidHashes(m.hashes) && Faithful(m.codec) }

  function FormatOf(h: Hashes): Format { Format(h, CodecOf(h)) }

  datatype Block = Block(sequence: nat, previous: ByteString, digest: ByteString, records: seq<Record>)

  const MAGIC: ByteString := [72, 89, 87, 65, 76, 48, 48, 49]

  function BlockWidths(): (w: seq<nat>)
    ensures |w| == 11 && Total(w) == HEADER_SIZE
  {
    var w := [8, 2, 2, 4, 8, 8, 8, 4, 4, 32, 32];
    assert Total(w[10..]) == 32 && Total(w[9..]) == 64 && Total(w[8..]) == 68 && Total(w[7..]) == 72 && Total(w[6..]) == 80;
    assert Total(w[5..]) == 88 && Total(w[4..]) == 96 && Total(w[3..]) == 100 && Total(w[2..]) == 102 && Total(w[1..]) == 104;
    w
  }

  function BlockOffset(sequence: nat): nat
    requires sequence > 0
  {
    (sequence - 1) * BLOCK_SIZE
  }

  // The fields of a block: first and last are the addresses of its first and last record.
  function BlockFields(sequence: nat, first: nat, last: nat, previous: ByteString, payload: ByteString,
      checksum: ByteString, digest: ByteString): (f: seq<ByteString>)
    requires |payload| <= PAYLOAD_SIZE
    ensures |f| == 12
  {
    [MAGIC, Le(2, 1), Le(2, HEADER_SIZE), Zeros(4), Le(8, sequence), Le(8, first), Le(8, last), Le(4, |payload|),
     checksum, previous, digest, payload + Zeros(PAYLOAD_SIZE - |payload|)]
  }

  // The checksum covers everything but itself and the digest; the digest covers the checksum too.
  function ChecksumOf(h: Hashes, f: seq<ByteString>): nat
    requires |f| == 12
  {
    h.crc(Join(f[8 := Zeros(4)][10 := Zeros(32)]))
  }

  function DigestOf(h: Hashes, f: seq<ByteString>): ByteString
    requires |f| == 12
  {
    h.digest(Join(f[10 := Zeros(32)]))
  }

  predicate Full(c: Codec, records: seq<Record>) { records != [] && |Payload(c, records)| <= PAYLOAD_SIZE }

  function Unsealed(c: Codec, sequence: nat, previous: ByteString, records: seq<Record>): (f: seq<ByteString>)
    requires Full(c, records)
    ensures |f| == 12
  {
    Plain(sequence, records[0].lsn, records[|records| - 1].lsn, previous, Payload(c, records))
  }

  function Checksummed(h: Hashes, f: seq<ByteString>): (g: seq<ByteString>)
    requires |f| == 12
    ensures |g| == 12
  {
    f[8 := Le(4, ChecksumOf(h, f))]
  }

  function Seal(m: Format, sequence: nat, previous: ByteString, records: seq<Record>): Block
    requires Full(m.codec, records)
  {
    Block(sequence, previous, DigestOf(m.hashes, Checksummed(m.hashes, Unsealed(m.codec, sequence, previous, records))), records)
  }

  function FieldsOf(m: Format, b: Block): seq<ByteString>
    requires Full(m.codec, b.records)
  {
    Checksummed(m.hashes, Unsealed(m.codec, b.sequence, b.previous, b.records))[10 := b.digest]
  }

  function EncodeBlock(m: Format, b: Block): ByteString
    requires Full(m.codec, b.records)
  {
    Join(FieldsOf(m, b))
  }

  function CheckHeader(h: Hashes, sequence: nat, previous: ByteString, f: seq<ByteString>): Checked<nat>
    requires |f| == 12 && |f[11]| == PAYLOAD_SIZE
  {
    if f[0] != MAGIC then Err(InvalidMagic)
    else if ReadLe(f[1]) != 1 || ReadLe(f[2]) != HEADER_SIZE then Err(UnsupportedFormat)
    else if !AllZero(f[3]) then Err(ReservedNonzero)
    else if ReadLe(f[4]) != sequence then Err(BlockSequenceMismatch)
    else if f[9] != previous then Err(PreviousDigestMismatch)
    else if ReadLe(f[7]) == 0 then Err(EmptyBlock)
    else if ReadLe(f[7]) > PAYLOAD_SIZE then Err(BlockPayloadTooLarge)
    else if !AllZero(f[11][ReadLe(f[7])..]) then Err(NonzeroPadding)
    else if ChecksumOf(h, f) != ReadLe(f[8]) then Err(BlockChecksumMismatch)
    else if DigestOf(h, f) != f[10] then Err(BlockDigestMismatch)
    else Ok(ReadLe(f[7]))
  }

  function FinishBlock(c: Codec, sequence: nat, previous: ByteString, f: seq<ByteString>, length: nat): Checked<Block>
    requires |f| == 12 && length <= |f[11]|
  {
    if sequence == 0 || BlockOffset(sequence) >= U64 then Err(AddressExhausted)
    else
      var records := RecordsOf(c, BlockOffset(sequence) + HEADER_SIZE, f[11][..length]);
      if records.Err? then Err(records.error)
      else if records.value == [] then Err(EmptyBlock)
      else if ReadLe(f[5]) != records.value[0].lsn || ReadLe(f[6]) != records.value[|records.value| - 1].lsn then Err(RecordLsnMismatch)
      else Ok(Block(sequence, previous, f[10], records.value))
  }

  lemma BlockSplit(encoded: ByteString)
    requires |encoded| == BLOCK_SIZE
    ensures BlockShaped(Split(BlockWidths(), encoded)) && Join(Split(BlockWidths(), encoded)) == encoded
  {
    var w := BlockWidths();
    assert w == [8, 2, 2, 4, 8, 8, 8, 4, 4, 32, 32];
    JoinOfSplit(w, encoded);
  }

  ghost predicate BlockShaped(f: seq<ByteString>) {
    && |f| == 12 && |f[0]| == 8 && |f[1]| == 2 && |f[2]| == 2 && |f[3]| == 4 && |f[4]| == 8 && |f[5]| == 8 && |f[6]| == 8
    && |f[7]| == 4 && |f[8]| == 4 && |f[9]| == 32 && |f[10]| == 32 && |f[11]| == PAYLOAD_SIZE
  }

  lemma BlockJoin(f: seq<ByteString>)
    requires BlockShaped(f)
    ensures |Join(f)| == BLOCK_SIZE && Split(BlockWidths(), Join(f)) == f
  {
    var w := BlockWidths();
    assert w == [8, 2, 2, 4, 8, 8, 8, 4, 4, 32, 32];
    JoinLength(w, f);
    SplitOfJoin(w, f);
  }

  function DecodeBlock(m: Format, sequence: nat, previous: ByteString, encoded: ByteString): Checked<Block> {
    if |encoded| != BLOCK_SIZE then Err(InvalidBlockLength)
    else
      var f := Split(BlockWidths(), encoded);
      BlockSplit(encoded);
      var length := CheckHeader(m.hashes, sequence, previous, f);
      if length.Err? then Err(length.error) else FinishBlock(m.codec, sequence, previous, f, length.value)
  }

  /** A block as the writer leaves it: numbered, chained, addressed and sealed by its own digest. */
  ghost predicate Sealed(m: Format, b: Block) {
    && 0 < b.sequence < U64 && BlockOffset(b.sequence) < U64 && |b.previous| == 32
    && Full(m.codec, b.records) && AllValid(b.records) && Addressed(BlockOffset(b.sequence) + HEADER_SIZE, b.records)
    && b == Seal(m, b.sequence, b.previous, b.records)
  }

  // ---- both directions ----

  lemma FieldsRead(sequence: nat, first: nat, last: nat, previous: ByteString, payload: ByteString,
      crc: nat, digest: ByteString, f: seq<ByteString>)
    requires sequence < U64 && first < U64 && last < U64 && 0 < |payload| <= PAYLOAD_SIZE && crc < U32
    requires |previous| == 32 && |digest| == 32
    requires f == BlockFields(sequence, first, last, previous, payload, Le(4, crc), digest)
    ensures BlockShaped(f) && f[0] == MAGIC && ReadLe(f[1]) == 1 && ReadLe(f[2]) == HEADER_SIZE && AllZero(f[3])
    ensures ReadLe(f[4]) == sequence && ReadLe(f[5]) == first && ReadLe(f[6]) == last && ReadLe(f[7]) == |payload|
    ensures ReadLe(f[8]) == crc && f[9] == previous && f[10] == digest
    ensures f[11][..|payload|] == payload && AllZero(f[11][|payload|..])
  {
    FieldsPlain(sequence, first, last, previous, payload, Le(4, crc), digest, f);
    FieldsNumbers(sequence, first, last, previous, payload, crc, digest, f);
  }

  lemma FieldsPlain(sequence: nat, first: nat, last: nat, previous: ByteString, payload: ByteString,
      checksum: ByteString, digest: ByteString, f: seq<ByteString>)
    requires |payload| <= PAYLOAD_SIZE && |previous| == 32 && |digest| == 32 && |checksum| == 4
    requires f == BlockFields(sequence, first, last, previous, payload, checksum, digest)
    ensures BlockShaped(f) && f[0] == MAGIC && AllZero(f[3]) && f[9] == previous && f[10] == digest
    ensures f[11][..|payload|] == payload && AllZero(f[11][|payload|..])
  {
    PaddedPayload(payload);
  }

  lemma FieldsNumbers(sequence: nat, first: nat, last: nat, previous: ByteString, payload: ByteString,
      crc: nat, digest: ByteString, f: seq<ByteString>)
    requires sequence < U64 && first < U64 && last < U64 && |payload| <= PAYLOAD_SIZE && crc < U32
    requires f == BlockFields(sequence, first, last, previous, payload, Le(4, crc), digest)
    ensures ReadLe(f[1]) == 1 && ReadLe(f[2]) == HEADER_SIZE && ReadLe(f[4]) == sequence && ReadLe(f[5]) == first
    ensures ReadLe(f[6]) == last && ReadLe(f[7]) == |payload| && ReadLe(f[8]) == crc
  {
    NumbersRead(sequence, first, last, |payload|, crc);
  }

  lemma NumbersRead(sequence: nat, first: nat, last: nat, length: nat, crc: nat)
    requires sequence < U64 && first < U64 && last < U64 && length <= PAYLOAD_SIZE && crc < U32
    ensures ReadLe(Le(2, 1)) == 1 && ReadLe(Le(2, HEADER_SIZE)) == HEADER_SIZE && ReadLe(Le(8, sequence)) == sequence
    ensures ReadLe(Le(8, first)) == first && ReadLe(Le(8, last)) == last
    ensures ReadLe(Le(4, length)) == length && ReadLe(Le(4, crc)) == crc
  {
    Widths();
    ReadOfLe(2, 1);
    ReadOfLe(2, HEADER_SIZE);
    ReadOfLe(8, sequence);
    ReadOfLe(8, first);
    ReadOfLe(8, last);
    ReadOfLe(4, length);
    ReadOfLe(4, crc);
  }

  lemma PaddedPayload(payload: ByteString)
    requires |payload| <= PAYLOAD_SIZE
    ensures |payload + Zeros(PAYLOAD_SIZE - |payload|)| == PAYLOAD_SIZE
    ensures (payload + Zeros(PAYLOAD_SIZE - |payload|))[..|payload|] == payload
    ensures AllZero((payload + Zeros(PAYLOAD_SIZE - |payload|))[|payload|..])
  {
    var padded := payload + Zeros(PAYLOAD_SIZE - |payload|);
    assert padded[|payload|..] == Zeros(PAYLOAD_SIZE - |payload|);
  }

  lemma FieldsWritten(sequence: nat, first: nat, last: nat, previous: ByteString, payload: ByteString, f: seq<ByteString>)
    requires BlockShaped(f) && |payload| <= PAYLOAD_SIZE
    requires f[0] == MAGIC && ReadLe(f[1]) == 1 && ReadLe(f[2]) == HEADER_SIZE && AllZero(f[3])
    requires ReadLe(f[4]) == sequence && ReadLe(f[5]) == first && ReadLe(f[6]) == last && ReadLe(f[7]) == |payload|
    requires f[9] == previous && f[11][..|payload|] == payload && AllZero(f[11][|payload|..])
    ensures f == BlockFields(sequence, first, last, previous, payload, f[8], f[10]) && sequence < U64
  {
    Widths();
    LeOfRead(f[1]);
    LeOfRead(f[2]);
    LeOfRead(f[4]);
    LeOfRead(f[5]);
    LeOfRead(f[6]);
    LeOfRead(f[7]);
    assert f[3] == Zeros(4);
    assert f[11] == f[11][..|payload|] + f[11][|payload|..];
    assert f[11][|payload|..] == Zeros(PAYLOAD_SIZE - |payload|);
  }

  lemma PayloadNonempty(c: Codec, records: seq<Record>)
    requires Faithful(c) && records != [] && AllValid(records)
    ensures |Payload(c, records)| >= RECORD_HEADER
  {
    assert ReadsBack(c, records[0]);
  }

  // Zeroing and filling the checksum and digest fields.
  lemma SealFields(plain: seq<ByteString>, checksum: ByteString, digest: ByteString)
    requires |plain| == 12 && plain[8] == Zeros(4) && plain[10] == Zeros(32)
    ensures plain[8 := checksum][10 := digest][8 := Zeros(4)][10 := Zeros(32)] == plain
    ensures plain[8 := checksum][10 := digest][10 := Zeros(32)] == plain[8 := checksum][10 := Zeros(32)] == plain[8 := checksum]
    ensures plain[8 := Zeros(4)][10 := Zeros(32)] == plain
  {
  }

  function Plain(sequence: nat, first: nat, last: nat, previous: ByteString, payload: ByteString): (f: seq<ByteString>)
    requires |payload| <= PAYLOAD_SIZE
    ensures |f| == 12
  {
    BlockFields(sequence, first, last, previous, payload, Zeros(4), Zeros(32))
  }

  function SealedFields(h: Hashes, plain: seq<ByteString>): (f: seq<ByteString>)
    requires |plain| == 12
    ensures |f| == 12
  {
    Checksummed(h, plain)[10 := DigestOf(h, Checksummed(h, plain))]
  }

  lemma FillFields(sequence: nat, first: nat, last: nat, previous: ByteString, payload: ByteString, checksum: ByteString, digest: ByteString)
    requires |payload| <= PAYLOAD_SIZE
    ensures Plain(sequence, first, last, previous, payload)[8 := checksum][10 := digest]
      == BlockFields(sequence, first, last, previous, payload, checksum, digest)
  {
  }

  lemma SealedHashes(h: Hashes, plain: seq<ByteString>, f: seq<ByteString>)
    requires |plain| == 12 && plain[8] == Zeros(4) && plain[10] == Zeros(32) && f == SealedFields(h, plain)
    ensures f == plain[8 := Le(4, ChecksumOf(h, plain))][10 := f[10]]
    ensures ChecksumOf(h, f) == ChecksumOf(h, plain) && DigestOf(h, f) == f[10]
  {
    SealFields(plain, Le(4, ChecksumOf(h, plain)), f[10]);
  }

  lemma HeaderAccepted(h: Hashes, sequence: nat, first: nat, last: nat, previous: ByteString, payload: ByteString, f: seq<ByteString>)
    requires ValidHashes(h) && sequence < U64 && first < U64 && last < U64 && |previous| == 32 && 0 < |payload| <= PAYLOAD_SIZE
    requires f == SealedFields(h, Plain(sequence, first, last, previous, payload))
    ensures BlockShaped(f) && CheckHeader(h, sequence, previous, f) == Ok(|payload|)
    ensures ReadLe(f[5]) == first && ReadLe(f[6]) == last && f[11][..|payload|] == payload
  {
    var plain := Plain(sequence, first, last, previous, payload);
    var crc := ChecksumOf(h, plain);
    SealedHashes(h, plain, f);
    FillFields(sequence, first, last, previous, payload, Le(4, crc), f[10]);
    FieldsRead(sequence, first, last, previous, payload, crc, f[10], f);
  }

  lemma FinishAccepted(c: Codec, sequence: nat, previous: ByteString, f: seq<ByteString>, records: seq<Record>)
    requires |f| == 12 && |Payload(c, records)| <= |f[11]| && f[11][..|Payload(c, records)|] == Payload(c, records)
    requires 0 < sequence && BlockOffset(sequence) < U64 && Faithful(c) && records != []
    requires AllValid(records) && Addressed(BlockOffset(sequence) + HEADER_SIZE, records)
    requires ReadLe(f[5]) == records[0].lsn && ReadLe(f[6]) == records[|records| - 1].lsn
    ensures FinishBlock(c, sequence, previous, f, |Payload(c, records)|) == Ok(Block(sequence, previous, f[10], records))
  {
    RecordsOfPayload(c, BlockOffset(sequence) + HEADER_SIZE, records);
  }

  lemma FieldsAccepted(m: Format, b: Block, f: seq<ByteString>, n: nat)
    requires ValidFormat(m) && Sealed(m, b) && f == FieldsOf(m, b) && n == |Payload(m.codec, b.records)|
    ensures BlockShaped(f) && CheckHeader(m.hashes, b.sequence, b.previous, f) == Ok(n) && f[10] == b.digest
    ensures FinishBlock(m.codec, b.sequence, b.previous, f, n) == Ok(b)
  {
    var records := b.records;
    PayloadNonempty(m.codec, records);
    assert ValidRecord(records[0]) && ValidRecord(records[|records| - 1]);
    HeaderAccepted(m.hashes, b.sequence, records[0].lsn, records[|records| - 1].lsn, b.previous, Payload(m.codec, records), f);
    FinishAccepted(m.codec, b.sequence, b.previous, f, records);
  }

  /** Every sealed block is read back as it was written. */
  lemma DecodeOfEncodeBlock(m: Format, b: Block)
    requires ValidFormat(m) && Sealed(m, b)
    ensures |EncodeBlock(m, b)| == BLOCK_SIZE
    ensures DecodeBlock(m, b.sequence, b.previous, EncodeBlock(m, b)) == Ok(b)
  {
    var f := FieldsOf(m, b);
    FieldsAccepted(m, b, f, |Payload(m.codec, b.records)|);
    BlockJoin(f);
  }

  lemma HeaderMeans(h: Hashes, sequence: nat, first: nat, last: nat, previous: ByteString, payload: ByteString, f: seq<ByteString>)
    requires BlockShaped(f) && CheckHeader(h, sequence, previous, f) == Ok(|payload|)
    requires |payload| <= PAYLOAD_SIZE && f[11][..|payload|] == payload && ReadLe(f[5]) == first && ReadLe(f[6]) == last
    ensures f == SealedFields(h, Plain(sequence, first, last, previous, payload)) && sequence < U64 && |previous| == 32
  {
    var plain := Plain(sequence, first, last, previous, payload);
    FieldsWritten(sequence, first, last, previous, payload, f);
    FillFields(sequence, first, last, previous, payload, f[8], f[10]);
    SealFields(plain, f[8], f[10]);
    LeOfRead(f[8]);
  }

  lemma FinishMeans(c: Codec, sequence: nat, previous: ByteString, f: seq<ByteString>, n: nat, b: Block)
    requires Faithful(c) && |f| == 12 && n <= |f[11]| && n <= PAYLOAD_SIZE && FinishBlock(c, sequence, previous, f, n) == Ok(b)
    ensures b.sequence == sequence > 0 && BlockOffset(sequence) < U64 && b.previous == previous && b.digest == f[10]
    ensures b.records != [] && AllValid(b.records) && Addressed(BlockOffset(sequence) + HEADER_SIZE, b.records)
    ensures Payload(c, b.records) == f[11][..n] && ReadLe(f[5]) == b.records[0].lsn && ReadLe(f[6]) == b.records[|b.records| - 1].lsn
  {
    PayloadOfRecords(c, BlockOffset(sequence) + HEADER_SIZE, f[11][..n]);
  }

  lemma BlockOfFields(m: Format, sequence: nat, previous: ByteString, f: seq<ByteString>, b: Block, n: nat)
    requires ValidFormat(m) && BlockShaped(f) && CheckHeader(m.hashes, sequence, previous, f) == Ok(n) && n <= PAYLOAD_SIZE
    requires FinishBlock(m.codec, sequence, previous, f, n) == Ok(b)
    ensures Sealed(m, b) && b.sequence == sequence && b.previous == previous && FieldsOf(m, b) == f
  {
    FinishMeans(m.codec, sequence, previous, f, n, b);
    HeaderMeans(m.hashes, sequence, b.records[0].lsn, b.records[|b.records| - 1].lsn, previous, f[11][..n], f);
    SealOfFields(m, b, f);
  }

  lemma SealOfFields(m: Format, b: Block, f: seq<ByteString>)
    requires Full(m.codec, b.records) && f == SealedFields(m.hashes, Unsealed(m.codec, b.sequence, b.previous, b.records))
    requires b.digest == f[10]
    ensures b == Seal(m, b.sequence, b.previous, b.records) && FieldsOf(m, b) == f
  {
  }

  /** Every accepted block is sealed, and its bytes are the one encoding of it. */
  lemma EncodeOfDecodeBlock(m: Format, sequence: nat, previous: ByteString, encoded: ByteString, b: Block)
    requires ValidFormat(m) && DecodeBlock(m, sequence, previous, encoded) == Ok(b)
    ensures Sealed(m, b) && b.sequence == sequence && b.previous == previous
    ensures EncodeBlock(m, b) == encoded
  {
    var f, n := DecodeParts(m, sequence, previous, encoded, b);
    BlockOfFields(m, sequence, previous, f, b, n);
  }

  lemma DecodeParts(m: Format, sequence: nat, previous: ByteString, encoded: ByteString, b: Block) returns (f: seq<ByteString>, n: nat)
    requires DecodeBlock(m, sequence, previous, encoded) == Ok(b)
    ensures BlockShaped(f) && Join(f) == encoded && CheckHeader(m.hashes, sequence, previous, f) == Ok(n) && n <= PAYLOAD_SIZE
    ensures FinishBlock(m.codec, sequence, previous, f, n) == Ok(b)
  {
    BlockSplit(encoded);
    f := Split(BlockWidths(), encoded);
    n := CheckHeader(m.hashes, sequence, previous, f).value;
  }

  // ---- building a block ----

  function Size(pending: seq<Pending>): nat {
    if pending == [] then 0 else Length(pending[0]) + Size(pending[1..])
  }

  function Unplaced(records: seq<Record>): (r: seq<Pending>)
    ensures |r| == |records| && forall i :: 0 <= i < |r| ==> r[i] == PendingOf(records[i])
  {
    seq(|records|, i requires 0 <= i < |records| => PendingOf(records[i]))
  }

  // Records placed one after the other from the given payload offset of a block.
  function Place(blockOffset: nat, offset: nat, pending: seq<Pending>): Checked<seq<Record>>
    decreases |pending|
  {
    if pending == [] then Ok([])
    else
      var p, next := pending[0], offset + Length(pending[0]);
      if next > PAYLOAD_SIZE then Err(BlockPayloadTooLarge)
      else if blockOffset + HEADER_SIZE + offset >= U64 then Err(AddressExhausted)
      else
        var rest := Place(blockOffset, next, pending[1..]);
        if rest.Err? then rest
        else Ok([Record(blockOffset + HEADER_SIZE + offset, p.kind, p.engine, p.flags, p.transaction, p.body)] + rest.value)
  }

  function BuildBlock(m: Format, sequence: nat, previous: ByteString, pending: seq<Pending>): Checked<Block> {
    if sequence == 0 then Err(AddressExhausted)
    else if pending == [] then Err(EmptyBlock)
    else if BlockOffset(sequence) >= U64 then Err(AddressExhausted)
    else
      var records := Place(BlockOffset(sequence), 0, pending);
      if records.Err? then Err(records.error)
      else if !Full(m.codec, records.value) then Err(BlockPayloadTooLarge)
      else Ok(Seal(m, sequence, previous, records.value))
  }

  method PlaceRecords(blockOffset: nat, pending: seq<Pending>) returns (r: Checked<seq<Record>>)
    ensures r == Place(blockOffset, 0, pending)
  {
    var records: seq<Record>, offset: nat := [], 0;
    assert pending[0..] == pending;
    NothingYet(Place(blockOffset, 0, pending));
    for i := 0 to |pending|
      invariant Place(blockOffset, 0, pending) == Continued(records, Place(blockOffset, offset, pending[i..]))
    {
      var p := pending[i];
      assert pending[i..][1..] == pending[i + 1..];
      var next := offset + Length(p);
      if next > PAYLOAD_SIZE {
        return Err(BlockPayloadTooLarge);
      }
      if blockOffset + HEADER_SIZE + offset >= U64 {
        return Err(AddressExhausted);
      }
      var record := Record(blockOffset + HEADER_SIZE + offset, p.kind, p.engine, p.flags, p.transaction, p.body);
      ContinuedStep(records, record, Place(blockOffset, next, pending[i + 1..]));
      records, offset := records + [record], next;
    }
    assert records + [] == records;
    return Ok(records);
  }

  lemma {:induction false} PlaceMeans(c: Codec, blockOffset: nat, offset: nat, pending: seq<Pending>)
    requires Faithful(c) && Place(blockOffset, offset, pending).Ok? && forall i :: 0 <= i < |pending| ==> ValidPending(pending[i])
    ensures Unplaced(Place(blockOffset, offset, pending).value) == pending
    ensures AllValid(Place(blockOffset, offset, pending).value)
    ensures Addressed(blockOffset + HEADER_SIZE + offset, Place(blockOffset, offset, pending).value)
    ensures |Payload(c, Place(blockOffset, offset, pending).value)| == Size(pending)
    ensures pending != [] ==> offset + Size(pending) <= PAYLOAD_SIZE
    decreases |pending|
  {
    if pending != [] {
      var p, next := pending[0], offset + Length(pending[0]);
      PlaceMeans(c, blockOffset, next, pending[1..]);
      var rest := Place(blockOffset, next, pending[1..]).value;
      var record := Record(blockOffset + HEADER_SIZE + offset, p.kind, p.engine, p.flags, p.transaction, p.body);
      assert PendingOf(record) == p && ReadsBack(c, record);
      RecordsCons(c, blockOffset + HEADER_SIZE + offset, record, rest);
      UnplacedCons(record, rest, pending);
    }
  }

  lemma UnplacedCons(r: Record, rest: seq<Record>, pending: seq<Pending>)
    requires pending != [] && PendingOf(r) == pending[0] && Unplaced(rest) == pending[1..]
    ensures Unplaced([r] + rest) == pending
  {
    assert pending == [pending[0]] + pending[1..];
  }

  lemma {:induction false} PlaceSucceeds(blockOffset: nat, offset: nat, pending: seq<Pending>)
    requires offset + Size(pending) <= PAYLOAD_SIZE && blockOffset + BLOCK_SIZE <= U64
    ensures Place(blockOffset, offset, pending).Ok?
    decreases |pending|
  {
    if pending != [] {
      PlaceSucceeds(blockOffset, offset + Length(pending[0]), pending[1..]);
    }
  }

  /** A built block is sealed and carries the records it was given. */
  lemma {:induction false} BuildSeals(m: Format, sequence: nat, previous: ByteString, pending: seq<Pending>, b: Block)
    requires ValidFormat(m) && |previous| == 32 && sequence < U64 && forall i :: 0 <= i < |pending| ==> ValidPending(pending[i])
    requires BuildBlock(m, sequence, previous, pending) == Ok(b)
    ensures Sealed(m, b) && b.sequence == sequence && b.previous == previous && Unplaced(b.records) == pending && |b.digest| == 32
  {
    PlaceMeans(m.codec, BlockOffset(sequence), 0, pending);
  }

  /** A group that fits, at a sequence number whose block is addressable, always builds. */
  lemma {:induction false} BuildSucceeds(m: Format, sequence: nat, previous: ByteString, pending: seq<Pending>)
    requires ValidFormat(m) && forall i :: 0 <= i < |pending| ==> ValidPending(pending[i])
    requires 0 < sequence && BlockOffset(sequence) + BLOCK_SIZE <= U64 && pending != [] && Size(pending) <= PAYLOAD_SIZE
    ensures BuildBlock(m, sequence, previous, pending).Ok?
  {
    PlaceSucceeds(BlockOffset(sequence), 0, pending);
    PlaceMeans(m.codec, BlockOffset(sequence), 0, pending);
  }
}
