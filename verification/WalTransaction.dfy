/**
  Transactions in the log: how a commit is written as records, and how recovery reads any sequence
  of records back.  The shape rules of mutations, the marker rules over a mutation list, and the
  acceptance of checkpoint and outcome records are parameters here; NativeLog puts in the engine's.
*/
module WalTransaction {
  import opened Bytes
  import opened Results
  import opened WalBlock
  import opened WalMutation

  datatype Durability = Strict | Group | Memory

  // Signed times are taken as their 64-bit patterns; an absent sequence number is written as zero.
  datatype BeginBody = BeginBody(read: Option<nat>, catalog: nat, time: nat, durability: Durability, count: nat, bytes: nat)

  datatype Manifest = Manifest(
    read: Option<nat>, csn: nat, catalog: nat, blob: nat, count: nat, bytes: nat, time: nat, digest: ByteString,
    roots: seq<nat>, generation: nat, floor: nat)

  datatype Committed = Committed(id: nat, lsn: nat, durability: Durability, manifest: Manifest, mutations: seq<Mutation>)

  /** The body codecs, the marker rules, the acceptance of checkpoint and outcome records, the
      mutation digest and the memory that one decoded mutation takes. */
  datatype Bodies = Bodies(
    encodeBegin: BeginBody -> ByteString,
    decodeBegin: ByteString -> Option<BeginBody>,
    encodeCommit: Manifest -> ByteString,
    decodeCommit: ByteString -> Option<Manifest>,
    encode: Mutation -> ByteString,
    decode: (Engine, ByteString) -> Option<Mutation>,
    shape: Mutation -> bool,
    markersFit: seq<Mutation> -> bool,
    maintains: (seq<Committed>, seq<Record>, Record) -> bool,
    digest: ByteString -> ByteString,
    slot: nat)

  // The bodies as they are laid out; shapes, markers and maintenance stay parameters.
  ghost predicate LaidOut(x: Bodies) {
    && (forall b :: x.encodeBegin(b) == EncodeBegin(b)) && (forall body :: x.decodeBegin(body) == DecodeBegin(x.slot, body))
    && (forall c: Manifest :: |c.roots| == 4 ==> x.encodeCommit(c) == EncodeCommit(c)) && (forall body :: x.decodeCommit(body) == DecodeCommit(body))
    && (forall m :: x.encode(m) == EncodeMutation(m)) && (forall e, body :: x.decode(e, body) == DecodeMutation(x.shape, e, body))
    && forall b :: |x.digest(b)| == 32
  }

  const MUTATION_HEADER := HEADER
  const MAX_BYTES := 64 * 1024 * 1024

  predicate ReadFits(read: Option<nat>) { read.Some? ==> 0 < read.value < U64 }

  function OrZero(read: Option<nat>): nat { if read.Some? then read.value else 0 }

  function Optional(n: nat): Option<nat> { if n == 0 then None else Some(n) }

  // ---- the begin record ----

  // HYBGN001
  const BEGIN_MAGIC: ByteString := [72, 89, 66, 71, 78, 48, 48, 49]

  function DurabilityCode(d: Durability): Byte { match d case Strict => 1 case Group => 2 case Memory => 3 }

  function DurabilityOf(b: Byte): Option<Durability> {
    match b case 1 => Some(Strict) case 2 => Some(Group) case 3 => Some(Memory) case _ => None
  }

  predicate InBounds(slot: nat, count: nat, bytes: nat) {
    && 0 < count <= MAX_BYTES / MUTATION_HEADER && count * MUTATION_HEADER <= bytes <= count * BODY_SIZE
    && bytes <= MAX_BYTES && bytes + count * slot <= MAX_BYTES
  }

  function BeginWidths(): (w: seq<nat>)
    ensures w == [8, 8, 8, 8, 1, 7, 4] && Total(w) == 44
  {
    var w := [8, 8, 8, 8, 1, 7, 4];
    assert Total(w[6..]) == 4 && Total(w[5..]) == 11 && Total(w[4..]) == 12 && Total(w[3..]) == 20 && Total(w[2..]) == 28 && Total(w[1..]) == 36;
    w
  }

  function BeginFields(b: BeginBody): (f: seq<ByteString>)
    ensures |f| == 8
  {
    [BEGIN_MAGIC, Le(8, OrZero(b.read)), Le(8, b.catalog), Le(8, b.time), [DurabilityCode(b.durability)], Zeros(7), Le(4, b.count), Le(8, b.bytes)]
  }

  function EncodeBegin(b: BeginBody): ByteString { Join(BeginFields(b)) }

  function DecodeBegin(slot: nat, body: ByteString): Option<BeginBody> {
    if |body| != 52 then None
    else
      FinishBegin(slot, Split(BeginWidths(), body))
  }

  function FinishBegin(slot: nat, f: seq<ByteString>): Option<BeginBody>
    requires |f| == 8
  {
    if f[0] != BEGIN_MAGIC || !AllZero(f[5]) || |f[4]| != 1 || DurabilityOf(f[4][0]).None? || ReadLe(f[2]) == 0 then None
    else if !InBounds(slot, ReadLe(f[6]), ReadLe(f[7])) then None
    else Some(BeginBody(Optional(ReadLe(f[1])), ReadLe(f[2]), ReadLe(f[3]), DurabilityOf(f[4][0]).value, ReadLe(f[6]), ReadLe(f[7])))
  }

  predicate BeginFits(slot: nat, b: BeginBody) {
    ReadFits(b.read) && 0 < b.catalog < U64 && b.time < U64 && InBounds(slot, b.count, b.bytes)
  }

  /** Every begin record is read back as it was written. */
  lemma BeginReadsBack(slot: nat, b: BeginBody)
    requires BeginFits(slot, b)
    ensures |EncodeBegin(b)| == 52 && DecodeBegin(slot, EncodeBegin(b)) == Some(b)
  {
    var f := BeginFields(b);
    BeginJoin(f);
    BeginFinishes(slot, b, f);
  }

  lemma BeginJoin(f: seq<ByteString>)
    requires |f| == 8 && |f[0]| == 8 && |f[1]| == 8 && |f[2]| == 8 && |f[3]| == 8 && |f[4]| == 1 && |f[5]| == 7 && |f[6]| == 4
    ensures |Join(f)| == 44 + |f[7]| && Split(BeginWidths(), Join(f)) == f
  {
    var w := BeginWidths();
    JoinLength(w, f);
    SplitOfJoin(w, f);
  }

  lemma BeginFinishes(slot: nat, b: BeginBody, f: seq<ByteString>)
    requires BeginFits(slot, b) && f == BeginFields(b)
    ensures FinishBegin(slot, f) == Some(b)
  {
    BeginNumbers(slot, b);
  }

  lemma BeginNumbers(slot: nat, b: BeginBody)
    requires BeginFits(slot, b)
    ensures ReadLe(Le(8, OrZero(b.read))) == OrZero(b.read) && ReadLe(Le(8, b.catalog)) == b.catalog && ReadLe(Le(8, b.time)) == b.time
    ensures ReadLe(Le(4, b.count)) == b.count && ReadLe(Le(8, b.bytes)) == b.bytes
  {
    Widths();
    ReadOfLe(8, OrZero(b.read));
    ReadOfLe(8, b.catalog);
    ReadOfLe(8, b.time);
    ReadOfLe(4, b.count);
    ReadOfLe(8, b.bytes);
  }

  // ---- the commit record ----

  // HYCMT001 and HYCMT002
  const COMMIT_MAGIC_V1: ByteString := [72, 89, 67, 77, 84, 48, 48, 49]
  const COMMIT_MAGIC_V2: ByteString := [72, 89, 67, 77, 84, 48, 48, 50]

  predicate StorageFits(generation: nat, floor: nat, csn: nat) {
    floor <= csn && (generation == 1 <==> floor == 1)
  }

  predicate FirstStorage(c: Manifest) { c.generation == 1 && c.floor == 1 }

  function CommitWidths(): (w: seq<nat>)
    ensures w == [8, 8, 8, 8, 8, 4, 8, 8, 32, 32] && Total(w) == 124
  {
    var w := [8, 8, 8, 8, 8, 4, 8, 8, 32, 32];
    assert Total(w[9..]) == 32 && Total(w[8..]) == 64;
    assert Total(w[7..]) == 72 && Total(w[6..]) == 80 && Total(w[5..]) == 84 && Total(w[4..]) == 92 && Total(w[3..]) == 100;
    assert Total(w[2..]) == 108 && Total(w[1..]) == 116;
    w
  }

  // The four page roots, one after the other.
  function RootBytes(roots: seq<nat>): (b: ByteString)
    requires |roots| == 4
    ensures |b| == 32
  {
    Le(8, roots[0]) + Le(8, roots[1]) + Le(8, roots[2]) + Le(8, roots[3])
  }

  function RootsOf(b: ByteString): (roots: seq<nat>)
    requires |b| == 32
    ensures |roots| == 4
  {
    [ReadLe(b[..8]), ReadLe(b[8..16]), ReadLe(b[16..24]), ReadLe(b[24..])]
  }

  function CommitFields(c: Manifest): (f: seq<ByteString>)
    requires |c.roots| == 4
    ensures |f| == 11
  {
    [if FirstStorage(c) then COMMIT_MAGIC_V1 else COMMIT_MAGIC_V2, Le(8, OrZero(c.read)), Le(8, c.csn), Le(8, c.catalog),
     Le(8, c.blob), Le(4, c.count), Le(8, c.bytes), Le(8, c.time), c.digest, RootBytes(c.roots),
     if FirstStorage(c) then [] else Le(8, c.generation) + Le(8, c.floor)]
  }

  function EncodeCommit(c: Manifest): ByteString
    requires |c.roots| == 4
  {
    Join(CommitFields(c))
  }

  function StorageOf(rest: ByteString): (nat, nat) {
    if |rest| == 16 then (ReadLe(rest[..8]), ReadLe(rest[8..])) else (1, 1)
  }

  function FinishCommit(f: seq<ByteString>): Option<Manifest>
    requires |f| == 11 && |f[9]| == 32
  {
    var (generation, floor) := StorageOf(f[10]);
    var roots := RootsOf(f[9]);
    if ReadLe(f[2]) == 0 || ReadLe(f[3]) == 0 || 0 in roots then None
    else if generation == 0 || floor == 0 || !StorageFits(generation, floor, ReadLe(f[2])) then None
    else Some(Manifest(Optional(ReadLe(f[1])), ReadLe(f[2]), ReadLe(f[3]), ReadLe(f[4]), ReadLe(f[5]), ReadLe(f[6]), ReadLe(f[7]), f[8],
                       roots, generation, floor))
  }

  function DecodeCommit(body: ByteString): Option<Manifest> {
    if |body| != 124 && |body| != 140 then None
    else
      var f := Split(CommitWidths(), body);
      CommitSplit(body);
      if f[0] != (if |body| == 124 then COMMIT_MAGIC_V1 else COMMIT_MAGIC_V2) then None else FinishCommit(f)
  }

  predicate ManifestFits(c: Manifest) {
    && ReadFits(c.read) && 0 < c.csn < U64 && 0 < c.catalog < U64 && c.blob < U64 && c.count < U32 && c.bytes < U64 && c.time < U64
    && |c.digest| == 32 && |c.roots| == 4 && (forall i :: 0 <= i < 4 ==> 0 < c.roots[i] < U64)
    && 0 < c.generation < U64 && 0 < c.floor && StorageFits(c.generation, c.floor, c.csn)
  }

  lemma StorageReadsBack(generation: nat, floor: nat)
    requires generation < U64 && floor < U64
    ensures StorageOf(Le(8, generation) + Le(8, floor)) == (generation, floor)
  {
    var rest := Le(8, generation) + Le(8, floor);
    assert rest[..8] == Le(8, generation) && rest[8..] == Le(8, floor);
    Widths();
    ReadOfLe(8, generation);
    ReadOfLe(8, floor);
  }

  lemma RootsReadBack(roots: seq<nat>)
    requires |roots| == 4 && forall i :: 0 <= i < 4 ==> roots[i] < U64
    ensures RootsOf(RootBytes(roots)) == roots
  {
    var b := RootBytes(roots);
    assert b[..8] == Le(8, roots[0]) && b[8..16] == Le(8, roots[1]) && b[16..24] == Le(8, roots[2]) && b[24..] == Le(8, roots[3]);
    Widths();
    ReadOfLe(8, roots[0]);
    ReadOfLe(8, roots[1]);
    ReadOfLe(8, roots[2]);
    ReadOfLe(8, roots[3]);
  }

  lemma NumbersReadBack(c: Manifest)
    requires ManifestFits(c)
    ensures ReadLe(Le(8, OrZero(c.read))) == OrZero(c.read) && ReadLe(Le(8, c.csn)) == c.csn && ReadLe(Le(8, c.catalog)) == c.catalog
    ensures ReadLe(Le(8, c.blob)) == c.blob && ReadLe(Le(4, c.count)) == c.count && ReadLe(Le(8, c.bytes)) == c.bytes && ReadLe(Le(8, c.time)) == c.time
  {
    Widths();
    ReadOfLe(8, OrZero(c.read));
    ReadOfLe(8, c.csn);
    ReadOfLe(8, c.catalog);
    ReadOfLe(8, c.blob);
    ReadOfLe(4, c.count);
    ReadOfLe(8, c.bytes);
    ReadOfLe(8, c.time);
  }

  lemma FinishReadsBack(c: Manifest, f: seq<ByteString>)
    requires ManifestFits(c) && f == CommitFields(c)
    ensures FinishCommit(f) == Some(c)
  {
    if !FirstStorage(c) { StorageReadsBack(c.generation, c.floor); }
    RootsReadBack(c.roots);
    NumbersReadBack(c);
  }

  ghost predicate CommitFieldWidths(f: seq<ByteString>) {
    && |f| == 11 && |f[0]| == 8 && |f[1]| == 8 && |f[2]| == 8 && |f[3]| == 8 && |f[4]| == 8 && |f[5]| == 4 && |f[6]| == 8
    && |f[7]| == 8 && |f[8]| == 32 && |f[9]| == 32
  }

  lemma CommitJoin(f: seq<ByteString>)
    requires CommitFieldWidths(f)
    ensures |Join(f)| == 124 + |f[10]| && Split(CommitWidths(), Join(f)) == f
  {
    var w := CommitWidths();
    JoinLength(w, f);
    SplitOfJoin(w, f);
  }

  /** Every commit manifest is read back as it was written. */
  lemma CommitReadsBack(c: Manifest)
    requires ManifestFits(c)
    ensures |EncodeCommit(c)| == (if FirstStorage(c) then 124 else 140) && DecodeCommit(EncodeCommit(c)) == Some(c)
  {
    var f := CommitFields(c);
    CommitJoin(f);
    FinishReadsBack(c, f);
  }

  lemma CommitSplit(body: ByteString)
    requires |body| == 124 || |body| == 140
    ensures CommitFieldWidths(Split(CommitWidths(), body)) && Join(Split(CommitWidths(), body)) == body
    ensures |Split(CommitWidths(), body)[10]| == |body| - 124
  {
    var w := CommitWidths();
    JoinOfSplit(w, body);
  }

  lemma NumbersWritten(f: seq<ByteString>)
    requires CommitFieldWidths(f)
    ensures Le(8, ReadLe(f[1])) == f[1] && Le(8, ReadLe(f[2])) == f[2] && Le(8, ReadLe(f[3])) == f[3] && Le(8, ReadLe(f[4])) == f[4]
    ensures Le(4, ReadLe(f[5])) == f[5] && Le(8, ReadLe(f[6])) == f[6] && Le(8, ReadLe(f[7])) == f[7]
  {
    LeOfRead(f[1]);
    LeOfRead(f[2]);
    LeOfRead(f[3]);
    LeOfRead(f[4]);
    LeOfRead(f[5]);
    LeOfRead(f[6]);
    LeOfRead(f[7]);
  }

  lemma RootsWritten(b: ByteString)
    requires |b| == 32
    ensures RootBytes(RootsOf(b)) == b
  {
    LeOfRead(b[..8]);
    LeOfRead(b[8..16]);
    LeOfRead(b[16..24]);
    LeOfRead(b[24..]);
    assert b == b[..8] + b[8..16] + b[16..24] + b[24..];
  }

  lemma StorageWritten(rest: ByteString)
    requires |rest| == 16
    ensures Le(8, ReadLe(rest[..8])) + Le(8, ReadLe(rest[8..])) == rest
  {
    LeOfRead(rest[..8]);
    LeOfRead(rest[8..]);
    assert rest == rest[..8] + rest[8..];
  }

  lemma CommitFieldsAgain(f: seq<ByteString>, c: Manifest)
    requires CommitFieldWidths(f) && FinishCommit(f) == Some(c) && (|f[10]| == 0 || |f[10]| == 16)
    requires f[0] == (if |f[10]| == 0 then COMMIT_MAGIC_V1 else COMMIT_MAGIC_V2)
    requires |f[10]| == 16 ==> !FirstStorage(c)
    ensures |c.roots| == 4 && CommitFields(c) == f
  {
    NumbersWritten(f);
    RootsWritten(f[9]);
    if |f[10]| == 16 {
      StorageWritten(f[10]);
    } else {
      assert f[10] == [];
    }
  }

  lemma SecondMagic()
    ensures COMMIT_MAGIC_V1 != COMMIT_MAGIC_V2
  {
    assert COMMIT_MAGIC_V1[7] != COMMIT_MAGIC_V2[7];
  }

  /** An accepted commit body is the encoding of what it says, except the second version of the
      format carrying first storage, which the writer would have written in the first version. */
  lemma CommitCanonicalIff(body: ByteString, c: Manifest)
    requires DecodeCommit(body) == Some(c)
    ensures |c.roots| == 4
    ensures EncodeCommit(c) == body <==> !(|body| == 140 && FirstStorage(c))
  {
    var f := Split(CommitWidths(), body);
    CommitSplit(body);
    if |body| == 140 && FirstStorage(c) {
      var g := CommitFields(c);
      SecondMagic();
      assert EncodeCommit(c)[..8] == g[0] && body[..8] == f[0] by {
        assert Join(g) == g[0] + Join(g[1..]) && Join(f) == f[0] + Join(f[1..]);
      }
    } else {
      CommitFieldsAgain(f, c);
    }
  }

  // The same manifest in the second version of the format.
  function SecondFields(c: Manifest): (f: seq<ByteString>)
    requires |c.roots| == 4
    ensures |f| == 11
  {
    CommitFields(c)[0 := COMMIT_MAGIC_V2][10 := Le(8, 1) + Le(8, 1)]
  }

  lemma SecondFieldsDiffer(c: Manifest, f: seq<ByteString>)
    requires ManifestFits(c) && f == SecondFields(c)
    ensures CommitFieldWidths(f) && f[0] == COMMIT_MAGIC_V2 && f[10] == Le(8, 1) + Le(8, 1)
    ensures forall i :: 1 <= i < 10 ==> f[i] == CommitFields(c)[i]
  {
  }

  lemma FinishSecondVersion(c: Manifest, f: seq<ByteString>)
    requires ManifestFits(c) && FirstStorage(c) && CommitFieldWidths(f) && f[10] == Le(8, 1) + Le(8, 1)
    requires forall i :: 1 <= i < 10 ==> f[i] == CommitFields(c)[i]
    ensures FinishCommit(f) == Some(c)
  {
    StorageReadsBack(1, 1);
    RootsReadBack(c.roots);
    NumbersReadBack(c);
  }

  lemma DecodeSecondVersion(f: seq<ByteString>)
    requires CommitFieldWidths(f) && f[0] == COMMIT_MAGIC_V2 && |f[10]| == 16
    ensures |Join(f)| == 140 && DecodeCommit(Join(f)) == FinishCommit(f)
  {
    CommitJoin(f);
  }

  /** The exception is real: every manifest of first storage is also accepted in the second version. */
  lemma SecondVersionAccepted(c: Manifest, body: ByteString)
    requires ManifestFits(c) && FirstStorage(c) && body == Join(SecondFields(c))
    ensures |body| == 140 && DecodeCommit(body) == Some(c) && EncodeCommit(c) != body
  {
    SecondFieldsDiffer(c, SecondFields(c));
    FinishSecondVersion(c, SecondFields(c));
    DecodeSecondVersion(SecondFields(c));
    CommitCanonicalIff(body, c);
  }

  // ---- writing a transaction ----

  datatype Plan = Plan(
    id: nat, read: Option<nat>, catalog: nat, time: nat, durability: Durability, csn: nat, blob: nat,
    roots: seq<nat>, generation: nat, floor: nat, mutations: seq<Mutation>)

  function MutationBytes(x: Bodies, mutations: seq<Mutation>): nat {
    if mutations == [] then 0 else MutationBytes(x, mutations[..|mutations| - 1]) + |x.encode(mutations[|mutations| - 1])|
  }

  // What the mutation digest is taken over, after its domain prefix.
  function Hashed(x: Bodies, mutations: seq<Mutation>): ByteString {
    if mutations == [] then []
    else Hashed(x, mutations[..|mutations| - 1]) + HashedOne(mutations[|mutations| - 1].engine, x.encode(mutations[|mutations| - 1]))
  }

  function HashedOne(engine: Engine, body: ByteString): ByteString { [EngineCode(engine)] + Le(4, |body|) + body }

  function BeginOf(x: Bodies, p: Plan): BeginBody {
    BeginBody(p.read, p.catalog, p.time, p.durability, |p.mutations|, MutationBytes(x, p.mutations))
  }

  function ManifestOf(x: Bodies, p: Plan): Manifest {
    Manifest(p.read, p.csn, p.catalog, p.blob, |p.mutations|, MutationBytes(x, p.mutations), p.time,
      x.digest(Hashed(x, p.mutations)), p.roots, p.generation, p.floor)
  }

  predicate Accepted(x: Bodies, p: Plan) {
    && StorageFits(p.generation, p.floor, p.csn) && |p.mutations| < U32
    && (forall i :: 0 <= i < |p.mutations| ==> |x.encode(p.mutations[i])| <= BODY_SIZE)
    && InBounds(x.slot, |p.mutations|, MutationBytes(x, p.mutations)) && x.markersFit(p.mutations)
  }

  function MutationRecords(x: Bodies, id: nat, mutations: seq<Mutation>): (r: seq<Pending>)
    ensures |r| == |mutations|
    ensures forall i :: 0 <= i < |r| ==> r[i] == Pending(Kind.Mutation, mutations[i].engine, 0, id, x.encode(mutations[i]))
  {
    seq(|mutations|, i requires 0 <= i < |mutations| => Pending(Kind.Mutation, mutations[i].engine, 0, id, x.encode(mutations[i])))
  }

  function Written(x: Bodies, p: Plan): (r: seq<Pending>)
    ensures |r| == |p.mutations| + 2
  {
    [Pending(Kind.Begin, Kernel, 0, p.id, x.encodeBegin(BeginOf(x, p)))] + MutationRecords(x, p.id, p.mutations)
      + [Pending(Kind.Commit, Kernel, 0, p.id, x.encodeCommit(ManifestOf(x, p)))]
  }

  // The types bound these fields in the source.
  predicate PlanFits(p: Plan) {
    && ReadFits(p.read) && 0 < p.csn < U64 && 0 < p.catalog < U64 && p.blob < U64 && p.time < U64 && 0 < p.id < U128
    && |p.roots| == 4 && (forall i :: 0 <= i < 4 ==> 0 < p.roots[i] < U64) && 0 < p.generation < U64 && 0 < p.floor
    && forall i :: 0 <= i < |p.mutations| ==> TypesFit(p.mutations[i])
  }

  ghost predicate AllWellFormed(x: Bodies, mutations: seq<Mutation>) {
    forall i :: 0 <= i < |mutations| ==> WellFormed(x.shape, mutations[i])
  }

  ghost predicate MutationsReadBack(x: Bodies, mutations: seq<Mutation>) {
    forall i :: 0 <= i < |mutations| ==> x.decode(mutations[i].engine, x.encode(mutations[i])) == Some(mutations[i])
  }

  /** A plan that reads back: what recovery needs of it. */
  ghost predicate Sound(x: Bodies, p: Plan) {
    && Accepted(x, p) && MutationsReadBack(x, p.mutations)
    && x.decodeBegin(x.encodeBegin(BeginOf(x, p))) == Some(BeginOf(x, p))
    && x.decodeCommit(x.encodeCommit(ManifestOf(x, p))) == Some(ManifestOf(x, p))
  }

  lemma AcceptedMutationFits(x: Bodies, p: Plan, i: nat)
    requires LaidOut(x) && PlanFits(p) && Accepted(x, p) && i < |p.mutations|
    ensures MutationFits(p.mutations[i])
  {
    EncodedLength(p.mutations[i]);
    assert |x.encode(p.mutations[i])| <= BODY_SIZE;
  }

  lemma ReadBackIff(x: Bodies, p: Plan)
    requires LaidOut(x) && PlanFits(p) && Accepted(x, p)
    ensures MutationsReadBack(x, p.mutations) <==> AllWellFormed(x, p.mutations)
  {
    forall i | 0 <= i < |p.mutations|
      ensures x.decode(p.mutations[i].engine, x.encode(p.mutations[i])) == Some(p.mutations[i]) <==> WellFormed(x.shape, p.mutations[i])
    {
      AcceptedMutationFits(x, p, i);
      MutationReadsBackIff(x.shape, p.mutations[i]);
    }
  }

  /** The records of an accepted plan are valid log records.  They read back exactly when every
      mutation goes to the engine of its opcode and has the shape of it, which the writer leaves to
      its callers. */
  lemma AcceptedIsSound(x: Bodies, p: Plan)
    requires LaidOut(x) && PlanFits(p) && Accepted(x, p)
    ensures Sound(x, p) <==> AllWellFormed(x, p.mutations)
    ensures forall i :: 0 <= i < |Written(x, p)| ==> ValidPending(Written(x, p)[i])
  {
    BeginReadsBack(x.slot, BeginOf(x, p));
    CommitReadsBack(ManifestOf(x, p));
    ReadBackIff(x, p);
    WrittenIsValid(x, p);
  }

  lemma WrittenIsValid(x: Bodies, p: Plan)
    requires LaidOut(x) && PlanFits(p) && Accepted(x, p)
    requires |EncodeBegin(BeginOf(x, p))| == 52 && |EncodeCommit(ManifestOf(x, p))| <= 140
    ensures forall i :: 0 <= i < |Written(x, p)| ==> ValidPending(Written(x, p)[i])
  {
  }
}
