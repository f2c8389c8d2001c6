/**
  Mutations in the log: the opcode table, the 44-byte header in front of key and value, and exactly
  which mutations are read back and which accepted bodies are canonical.  The rules on a mutation's
  shape and value are a parameter here; MutationShape has the engine's.
*/
module WalMutation {
  import opened Bytes
  import opened Results
  import opened WalBlock

  /** Opcodes are their codes; those that a rule of the model names have constants. */
  type Opcode = n: Byte | 1 <= n <= 57 witness 1

  const CREATE_TABLE: Opcode := 1
  const INSERT_ROW: Opcode := 2
  const CREATE_INDEX: Opcode := 4
  const UPDATE_ROW: Opcode := 6
  const DELETE_ROW: Opcode := 7
  const SET_HASH_FIELD: Opcode := 11
  const DELETE_HASH_FIELD: Opcode := 12
  const CREATE_SECONDARY_INDEX: Opcode := 13
  const ADD_SET_MEMBER: Opcode := 15
  const DELETE_SET_MEMBER: Opcode := 16
  const CREATE_ANN_INDEX: Opcode := 17
  const UPSERT_VECTOR: Opcode := 18
  const DELETE_VECTOR: Opcode := 19
  const UPSERT_SORTED_SET_MEMBER: Opcode := 26
  const DELETE_SORTED_SET_MEMBER: Opcode := 27
  const COMPACT_STRUCTURE: Opcode := 28
  const VACUUM_PAGE_GENERATION: Opcode := 29
  const EXPIRE_HASH_FIELD: Opcode := 32
  const COMPACT_SEARCH: Opcode := 39
  const MIGRATE_STRUCTURE: Opcode := 42
  const CONSOLIDATE_ANN: Opcode := 50
  const CREATE_CATALOG_OBJECT: Opcode := 51
  const CLEANUP_STRUCTURE: Opcode := 52
  const PUBLISH_ANN_BULK: Opcode := 53
  const MIGRATE_CATALOG: Opcode := 54
  const ANN_AUTHORITY_V1: Opcode := 55
  const ANN_AUTHORITY_V2: Opcode := 56
  const FENCE_VECTOR_ABSENCE: Opcode := 57

  // Signed times are taken as their 64-bit patterns.
  datatype Mutation = Change(engine: Engine, opcode: Opcode, target: Option<nat>, key: ByteString, value: ByteString, expires: Option<nat>)

  /** The engine that an opcode belongs to. */
  function EngineOfOpcode(o: Opcode): Engine {
    if o == 29 || o == 51 || o == 54 then Kernel
    else if o <= 2 || o == 6 || o == 7 || o == 13 || o == 40 || o == 41 || o == 43 then Relational
    else if o == 4 || o == 5 || 17 <= o <= 19 || 37 <= o <= 39 || o == 50 || o == 53 || o >= 55 then Search
    else Structure
  }

  const HEADER := 44
  // HYMUT001
  const MUTATION_MAGIC: ByteString := [72, 89, 77, 85, 84, 48, 48, 49]
  const NEVER := 0x7FFF_FFFF_FFFF_FFFF

  // The types bound these fields in the source.
  predicate TypesFit(m: Mutation) {
    (m.target.Some? ==> 0 < m.target.value < U128) && (m.expires.Some? ==> m.expires.value < U64)
  }

  predicate MutationFits(m: Mutation) { TypesFit(m) && |m.key| < U32 && |m.value| < U32 }

  function MutationWidths(): (w: seq<nat>)
    ensures w == [8, 4, 16, 8, 4, 4] && Total(w) == HEADER
  {
    var w := [8, 4, 16, 8, 4, 4];
    assert w[4..][1..] == w[5..] && w[3..][1..] == w[4..] && w[2..][1..] == w[3..] && w[1..][1..] == w[2..];
    assert Total(w[5..]) == 4 && Total(w[4..]) == 8 && Total(w[3..]) == 16 && Total(w[2..]) == 32 && Total(w[1..]) == 36;
    w
  }

  function TargetNumber(m: Mutation): nat { if m.target.Some? then m.target.value else 0 }

  function ExpiryNumber(m: Mutation): nat { if m.expires.Some? then m.expires.value else NEVER }

  // Opcode, engine, expiry flag and a reserved byte.
  function Codes(m: Mutation): (b: ByteString)
    ensures |b| == 4 && b[0] == m.opcode && b[1] == EngineCode(m.engine) && b[2] == (if m.expires.Some? then 1 else 0) && b[3] == 0
  {
    [m.opcode, EngineCode(m.engine), if m.expires.Some? then 1 else 0, 0]
  }

  function Seven(a: ByteString, b: ByteString, c: ByteString, d: ByteString, e: ByteString, f: ByteString, g: ByteString): (s: seq<ByteString>)
    ensures |s| == 7 && s[0] == a && s[1] == b && s[2] == c && s[3] == d && s[4] == e && s[5] == f && s[6] == g
  {
    [a, b, c, d, e, f, g]
  }

  function MutationFields(m: Mutation): (f: seq<ByteString>)
    ensures |f| == 7
  {
    Seven(MUTATION_MAGIC, Codes(m), Le(16, TargetNumber(m)), Le(8, ExpiryNumber(m)), Le(4, |m.key|), Le(4, |m.value|), m.key + m.value)
  }

  function EncodeMutation(m: Mutation): ByteString { Join(MutationFields(m)) }

  predicate MutationFieldWidths(f: seq<ByteString>) {
    |f| == 7 && |f[0]| == 8 && |f[1]| == 4 && |f[2]| == 16 && |f[3]| == 8 && |f[4]| == 4 && |f[5]| == 4
  }

  /** Without the flag an expiry other than the largest time is still taken as one. */
  function ExpiryOf(flag: Byte, raw: nat): Option<nat> {
    if flag == 1 || raw != NEVER then Some(raw) else None
  }

  predicate CodesFit(engine: Engine, codes: ByteString)
    requires |codes| == 4
  {
    codes[1] == EngineCode(engine) && codes[2] <= 1 && codes[3] == 0 && 1 <= codes[0] <= 57 && EngineOfOpcode(codes[0]) == engine
  }

  predicate HeaderFits(engine: Engine, f: seq<ByteString>)
    requires MutationFieldWidths(f)
  {
    f[0] == MUTATION_MAGIC && CodesFit(engine, f[1]) && ReadLe(f[4]) + ReadLe(f[5]) == |f[6]|
  }

  function MutationOf(engine: Engine, f: seq<ByteString>): Mutation
    requires MutationFieldWidths(f) && HeaderFits(engine, f)
  {
    var target := ReadLe(f[2]);
    Change(engine, f[1][0], if target == 0 then None else Some(target), f[6][..ReadLe(f[4])], f[6][ReadLe(f[4])..],
           ExpiryOf(f[1][2], ReadLe(f[3])))
  }

  function FinishMutation(shape: Mutation -> bool, engine: Engine, f: seq<ByteString>): Option<Mutation>
    requires MutationFieldWidths(f)
  {
    if HeaderFits(engine, f) && shape(MutationOf(engine, f)) then Some(MutationOf(engine, f)) else None
  }

  function DecodeMutation(shape: Mutation -> bool, engine: Engine, body: ByteString): Option<Mutation> {
    if |body| < HEADER then None
    else
      MutationSplit(body);
      FinishMutation(shape, engine, Split(MutationWidths(), body))
  }

  lemma MutationSplit(body: ByteString)
    requires |body| >= HEADER
    ensures MutationFieldWidths(Split(MutationWidths(), body)) && Join(Split(MutationWidths(), body)) == body
  {
    JoinOfSplit(MutationWidths(), body);
  }

  lemma MutationJoin(f: seq<ByteString>)
    requires MutationFieldWidths(f)
    ensures |Join(f)| == HEADER + |f[6]| && Split(MutationWidths(), Join(f)) == f
  {
    var w := MutationWidths();
    JoinLength(w, f);
    SplitOfJoin(w, f);
  }

  lemma EncodedLength(m: Mutation)
    ensures |EncodeMutation(m)| == HEADER + |m.key| + |m.value|
  {
    MutationJoin(MutationFields(m));
  }

  lemma MutationNumbers(m: Mutation)
    requires MutationFits(m)
    ensures ReadLe(Le(16, TargetNumber(m))) == TargetNumber(m) && ReadLe(Le(8, ExpiryNumber(m))) == ExpiryNumber(m)
    ensures ReadLe(Le(4, |m.key|)) == |m.key| && ReadLe(Le(4, |m.value|)) == |m.value|
  {
    Widths();
    ReadOfLe(16, TargetNumber(m));
    ReadOfLe(8, ExpiryNumber(m));
    ReadOfLe(4, |m.key|);
    ReadOfLe(4, |m.value|);
  }

  // What recovery asks of a mutation and the writer does not.
  ghost predicate WellFormed(shape: Mutation -> bool, m: Mutation) { m.engine == EngineOfOpcode(m.opcode) && shape(m) }

  // A mutation and fields that say the same, flag aside.
  ghost predicate Agrees(m: Mutation, f: seq<ByteString>) {
    RestAgrees(m, f) && f[1][0] == m.opcode && f[1][1] == EngineCode(m.engine) && f[1][3] == 0
  }

  ghost predicate RestAgrees(m: Mutation, f: seq<ByteString>) {
    && MutationFieldWidths(f) && f[0] == MUTATION_MAGIC && ReadLe(f[2]) == TargetNumber(m) && ReadLe(f[3]) == ExpiryNumber(m)
    && ReadLe(f[4]) == |m.key| && ReadLe(f[5]) == |m.value| && f[6] == m.key + m.value
  }

  lemma FieldsAgree(m: Mutation, f: seq<ByteString>)
    requires MutationFits(m) && f == MutationFields(m)
    ensures Agrees(m, f)
  {
    MutationNumbers(m);
    assert f[1] == Codes(m);
  }

  lemma HeaderFitsIff(m: Mutation, f: seq<ByteString>)
    requires Agrees(m, f) && f[1][2] <= 1
    ensures HeaderFits(m.engine, f) <==> m.engine == EngineOfOpcode(m.opcode)
  {
  }

  lemma MutationOfFields(m: Mutation, f: seq<ByteString>)
    requires MutationFits(m) && Agrees(m, f) && HeaderFits(m.engine, f) && ExpiryOf(f[1][2], ReadLe(f[3])) == m.expires
    ensures MutationOf(m.engine, f) == m
  {
    assert f[6][..|m.key|] == m.key && f[6][|m.key|..] == m.value;
  }

  /** A mutation is read back exactly when its engine is the one of its opcode and its shape fits;
      otherwise the record that was written is refused. */
  lemma MutationReadsBackIff(shape: Mutation -> bool, m: Mutation)
    requires MutationFits(m)
    ensures DecodeMutation(shape, m.engine, EncodeMutation(m)) == if WellFormed(shape, m) then Some(m) else None
  {
    var f := MutationFields(m);
    FieldsAgree(m, f);
    HeaderFitsIff(m, f);
    MutationJoin(f);
    if HeaderFits(m.engine, f) { MutationOfFields(m, f); }
  }

  // ---- the other direction ----

  lemma MutationNumbersWritten(f: seq<ByteString>)
    requires MutationFieldWidths(f)
    ensures Le(16, ReadLe(f[2])) == f[2] && Le(8, ReadLe(f[3])) == f[3] && Le(4, ReadLe(f[4])) == f[4] && Le(4, ReadLe(f[5])) == f[5]
  {
    LeOfRead(f[2]);
    LeOfRead(f[3]);
    LeOfRead(f[4]);
    LeOfRead(f[5]);
  }

  // The body names an expiry without the flag for it.
  ghost predicate Unflagged(f: seq<ByteString>)
    requires MutationFieldWidths(f)
  {
    f[1][2] == 0 && ReadLe(f[3]) != NEVER
  }

  lemma ReadAgrees(engine: Engine, f: seq<ByteString>)
    requires MutationFieldWidths(f) && HeaderFits(engine, f)
    ensures Agrees(MutationOf(engine, f), f) && (MutationOf(engine, f).expires.Some? <==> f[1][2] == 1 || Unflagged(f))
  {
    assert f[6] == f[6][..ReadLe(f[4])] + f[6][ReadLe(f[4])..];
  }

  lemma AgreeingNumbers(m: Mutation, f: seq<ByteString>)
    requires RestAgrees(m, f)
    ensures Le(16, TargetNumber(m)) == f[2] && Le(8, ExpiryNumber(m)) == f[3] && Le(4, |m.key|) == f[4] && Le(4, |m.value|) == f[5]
  {
    MutationNumbersWritten(f);
  }

  lemma SameButCodes(f: seq<ByteString>, g: seq<ByteString>)
    requires |f| == |g| == 7 && g[0] == f[0] && g[2] == f[2] && g[3] == f[3] && g[4] == f[4] && g[5] == f[5] && g[6] == f[6]
    ensures g == f[1 := g[1]]
  {
  }

  lemma AgreeingFields(m: Mutation, f: seq<ByteString>, g: seq<ByteString>)
    requires RestAgrees(m, f) && g == MutationFields(m)
    ensures g == f[1 := Codes(m)]
  {
    AgreeingNumbers(m, f);
    SameButCodes(f, g);
  }

  lemma MutationFieldsAgain(engine: Engine, f: seq<ByteString>)
    requires MutationFieldWidths(f) && HeaderFits(engine, f)
    ensures MutationFields(MutationOf(engine, f)) == f[1 := Codes(MutationOf(engine, f))]
    ensures Codes(MutationOf(engine, f)) == f[1] <==> !Unflagged(f)
  {
    ReadAgrees(engine, f);
    AgreeingFields(MutationOf(engine, f), f, MutationFields(MutationOf(engine, f)));
  }

  lemma JoinTells(f: seq<ByteString>, g: seq<ByteString>)
    requires MutationFieldWidths(f) && MutationFieldWidths(g) && f[1] != g[1]
    ensures Join(f) != Join(g)
  {
    MutationJoin(f);
    MutationJoin(g);
  }

  /** An accepted mutation body is the encoding of what it says, except when it names an expiry
      without setting the flag, which the writer never does. */
  lemma MutationCanonicalIff(shape: Mutation -> bool, engine: Engine, body: ByteString, m: Mutation)
    requires DecodeMutation(shape, engine, body) == Some(m)
    ensures |body| >= HEADER && MutationFieldWidths(Split(MutationWidths(), body))
    ensures EncodeMutation(m) == body <==> !Unflagged(Split(MutationWidths(), body))
  {
    MutationSplit(body);
    var f := Split(MutationWidths(), body);
    MutationFieldsAgain(engine, f);
    CanonicalFields(f, MutationFields(m), Codes(m));
  }

  lemma CanonicalFields(f: seq<ByteString>, g: seq<ByteString>, codes: ByteString)
    requires MutationFieldWidths(f) && g == f[1 := codes] && |codes| == 4
    ensures Join(g) == Join(f) <==> codes == f[1]
  {
    if codes != f[1] { JoinTells(f, g); } else { assert g == f; }
  }

  const PLAIN := Change(Structure, 3, None, [], [], Some(0))

  lemma PlainReads(f: seq<ByteString>)
    requires Agrees(PLAIN, f) && f[1][2] == 0
    ensures HeaderFits(Structure, f) && MutationOf(Structure, f) == PLAIN
  {
    HeaderFitsIff(PLAIN, f);
    MutationOfFields(PLAIN, f);
  }

  /** The exception is real: setting a value with an expiry but no flag is accepted. */
  lemma UnflaggedIsAccepted(shape: Mutation -> bool, body: ByteString)
    requires shape(PLAIN) && body == Join(MutationFields(PLAIN)[1 := [3, EngineCode(Structure), 0, 0]])
    ensures DecodeMutation(shape, Structure, body) == Some(PLAIN) && EncodeMutation(PLAIN) != body
  {
    var g := MutationFields(PLAIN);
    var f := g[1 := [3, EngineCode(Structure), 0, 0]];
    FieldsAgree(PLAIN, g);
    assert f[1][2] == 0 && g[1][2] == 1;
    PlainReads(f);
    MutationJoin(f);
    JoinTells(f, g);
  }
}
