/**
  The rules on one logged mutation: which fields each opcode takes, and what the values of the
  maintenance opcodes must hold.
*/
module MutationShape {
  import opened Bytes
  import opened Results
  import opened WalBlock
  import opened WalMutation

  const SET_VALUE: Opcode := 3
  const INDEX_DOCUMENT: Opcode := 5
  const DELETE_VALUE: Opcode := 8
  const EXPIRE_VALUE: Opcode := 9
  const CREATE_HASH: Opcode := 10
  const CREATE_SET: Opcode := 14
  const CREATE_LIST: Opcode := 20
  const PUSH_LIST_HEAD: Opcode := 21
  const POP_LIST_TAIL: Opcode := 24
  const CREATE_SORTED_SET: Opcode := 25
  const DELETE_HASH: Opcode := 30
  const EXPIRE_HASH: Opcode := 31
  const EXPIRE_SET: Opcode := 33
  const DELETE_SET: Opcode := 34
  const DELETE_LIST: Opcode := 35
  const EXPIRE_LIST: Opcode := 36
  const REPLACE_DOCUMENT: Opcode := 37
  const DELETE_DOCUMENT: Opcode := 38
  const DROP_SECONDARY_INDEX: Opcode := 40
  const RENAME_TABLE: Opcode := 41
  const DROP_TABLE: Opcode := 43
  const CREATE_STREAM: Opcode := 44
  const APPEND_STREAM_ENTRY: Opcode := 45
  const DELETE_STREAM: Opcode := 46
  const EXPIRE_STREAM: Opcode := 47
  const DELETE_SORTED_SET: Opcode := 48
  const EXPIRE_SORTED_SET: Opcode := 49

  // ---- which fields an opcode takes ----

  // Values and collections have no target: 3, 8 to 12, 14 to 16, 20 to 27, 30 to 36 and 44 to 49.
  predicate ForbidsTarget(o: Opcode) {
    || o == SET_VALUE || DELETE_VALUE <= o <= DELETE_HASH_FIELD || CREATE_SET <= o <= DELETE_SET_MEMBER
    || CREATE_LIST <= o <= DELETE_SORTED_SET_MEMBER || DELETE_HASH <= o <= EXPIRE_LIST || CREATE_STREAM <= o <= EXPIRE_SORTED_SET
  }

  // Tables, indexes and catalog objects are targets.
  predicate RequiresTarget(o: Opcode) {
    || o in {CREATE_TABLE, INSERT_ROW, UPDATE_ROW, DELETE_ROW, CREATE_SECONDARY_INDEX, DROP_SECONDARY_INDEX, RENAME_TABLE, DROP_TABLE}
    || o in {CREATE_INDEX, INDEX_DOCUMENT, REPLACE_DOCUMENT, DELETE_DOCUMENT, CREATE_ANN_INDEX, UPSERT_VECTOR, DELETE_VECTOR, FENCE_VECTOR_ABSENCE}
    || o in {CONSOLIDATE_ANN, PUBLISH_ANN_BULK, ANN_AUTHORITY_V1, ANN_AUTHORITY_V2, CREATE_CATALOG_OBJECT}
  }

  predicate TargetFits(m: Mutation) {
    (ForbidsTarget(m.opcode) ==> m.target.None?) && (RequiresTarget(m.opcode) ==> m.target.Some?)
  }

  predicate KeyAndValue(o: Opcode) { o == RENAME_TABLE || o == APPEND_STREAM_ENTRY }

  predicate OnlyTarget(o: Opcode) { o == DROP_SECONDARY_INDEX || o == DROP_TABLE }

  // Deletions and creations carry no value.
  predicate NoValue(o: Opcode) {
    || o in {DELETE_ROW, DELETE_VECTOR, FENCE_VECTOR_ABSENCE, DELETE_DOCUMENT, DELETE_VALUE, CREATE_STREAM, DELETE_STREAM}
    || o in {CREATE_HASH, DELETE_HASH, DELETE_HASH_FIELD, CREATE_SET, ADD_SET_MEMBER, DELETE_SET_MEMBER, DELETE_SET}
    || o in {CREATE_LIST, DELETE_LIST, CREATE_SORTED_SET, DELETE_SORTED_SET, DELETE_SORTED_SET_MEMBER}
    || (Expires(o) && o != EXPIRE_VALUE)
  }

  predicate Expires(o: Opcode) {
    o in {EXPIRE_VALUE, EXPIRE_HASH, EXPIRE_HASH_FIELD, EXPIRE_SET, EXPIRE_LIST, EXPIRE_STREAM, EXPIRE_SORTED_SET}
  }

  // What is left out: setting a value and creating a lexical index may name an expiry.
  predicate NoExpiry(o: Opcode) {
    || o in {DELETE_VALUE, CREATE_STREAM, DELETE_STREAM, CREATE_HASH, DELETE_HASH, DELETE_HASH_FIELD, CREATE_SET, ADD_SET_MEMBER}
    || o in {DELETE_SET_MEMBER, DELETE_SET, CREATE_LIST, DELETE_LIST, CREATE_SORTED_SET, DELETE_SORTED_SET, DELETE_SORTED_SET_MEMBER}
    || o == APPEND_STREAM_ENTRY || PUSH_LIST_HEAD <= o <= POP_LIST_TAIL || o == SET_HASH_FIELD || o == UPSERT_SORTED_SET_MEMBER
    || o in {CREATE_TABLE, INSERT_ROW, UPDATE_ROW, DELETE_ROW, CREATE_SECONDARY_INDEX, DROP_SECONDARY_INDEX, RENAME_TABLE, DROP_TABLE}
    || o in {INDEX_DOCUMENT, REPLACE_DOCUMENT, DELETE_DOCUMENT, CREATE_ANN_INDEX, UPSERT_VECTOR, DELETE_VECTOR, FENCE_VECTOR_ABSENCE}
  }

  predicate FieldsFit(m: Mutation) {
    && (KeyAndValue(m.opcode) ==> m.key != [] && m.value != [])
    && (OnlyTarget(m.opcode) ==> m.key == [] && m.value == [])
    && (NoValue(m.opcode) ==> m.value == [])
    && (Expires(m.opcode) ==> m.expires.Some?)
    && (NoExpiry(m.opcode) ==> m.expires.None?)
  }

  // A member of a collection is named by the length of the collection's key, that key and the member.
  predicate MemberIdentity(key: ByteString) { |key| >= 4 && 4 + ReadBig(key[..4]) <= |key| }

  predicate NamesMember(o: Opcode) {
    o in {SET_HASH_FIELD, DELETE_HASH_FIELD, EXPIRE_HASH_FIELD, ADD_SET_MEMBER, DELETE_SET_MEMBER, UPSERT_SORTED_SET_MEMBER, DELETE_SORTED_SET_MEMBER}
  }

  predicate IdentityFits(m: Mutation) {
    && (NamesMember(m.opcode) ==> MemberIdentity(m.key))
    && (m.opcode in {UPSERT_VECTOR, DELETE_VECTOR, FENCE_VECTOR_ABSENCE} ==> |m.key| == 16)
    && (m.opcode == UPSERT_VECTOR ==> m.value != [] && |m.value| % 4 == 0)
    && (m.opcode == UPSERT_SORTED_SET_MEMBER ==> |m.value| == 8)
    && (m.opcode == CREATE_ANN_INDEX ==> |m.value| >= 20)
  }

  predicate FixedValue(m: Mutation, size: nat) { m.target.Some? && m.key == [] && |m.value| == size && m.expires.None? }

  predicate ShapeFits(m: Mutation) {
    if m.opcode == ANN_AUTHORITY_V1 then FixedValue(m, 16)
    else if m.opcode == ANN_AUTHORITY_V2 then FixedValue(m, 184)
    else if m.opcode == CONSOLIDATE_ANN then FixedValue(m, 112) || FixedValue(m, 384)
    else if m.opcode == PUBLISH_ANN_BULK then FixedValue(m, 160)
    else if m.opcode == CREATE_CATALOG_OBJECT then m.target.Some? && m.key != [] && m.value != [] && m.expires.None?
    else if m.opcode == CLEANUP_STRUCTURE then m.target.None? && m.key != [] && |m.value| == 4 && m.expires.None?
    else if m.opcode in {COMPACT_STRUCTURE, MIGRATE_STRUCTURE, VACUUM_PAGE_GENERATION, COMPACT_SEARCH, MIGRATE_CATALOG} then
      m.target.None? && m.key == [] && m.value == [] && m.expires.None?
    else TargetFits(m) && FieldsFit(m) && IdentityFits(m)
  }

  // ---- values of maintenance opcodes ----

  // HYANNC01, HYANNC02, HYANNP01, HYANNA01 and HYANNA02
  const CONSOLIDATION_V1: ByteString := [72, 89, 65, 78, 78, 67, 48, 49]
  const CONSOLIDATION_V2: ByteString := [72, 89, 65, 78, 78, 67, 48, 50]
  const BULK_V1: ByteString := [72, 89, 65, 78, 78, 80, 48, 49]
  const AUTHORITY_V1: ByteString := [72, 89, 65, 78, 78, 65, 48, 49]
  const AUTHORITY_V2: ByteString := [72, 89, 65, 78, 78, 65, 48, 50]

  const MAX_OPERATIONS := 4096

  // No 32-byte identity among these is all zero.
  predicate Identities(b: ByteString) {
    |b| % 32 == 0 && forall i :: 0 <= i < |b| / 32 ==> NonzeroAt(b, i)
  }

  predicate NonzeroAt(b: ByteString, i: nat) { 32 * i + 32 <= |b| && !AllZero(b[32 * i..32 * i + 32]) }

  predicate ConsolidationV1(v: ByteString)
    requires |v| == 112
  {
    v[..8] == CONSOLIDATION_V1 && Identities(v[8..104]) && 1 <= ReadLe(v[104..]) <= 4096
  }

  predicate ConsolidationV2(v: ByteString, target: Option<nat>)
    requires |v| == 384
  {
    && v[..8] == CONSOLIDATION_V2 && AllZero(v[26..32]) && AllZero(v[376..]) && (v[24] == 4 || v[24] == 5) && v[25] == 5
    && Identities(v[32..320]) && ReadBig(v[8..24]) != 0 && target == Some(ReadBig(v[8..24]))
    && 1 <= ReadLe(v[328..336]) <= 4096 && ReadLe(v[352..360]) <= ReadLe(v[328..336]) && ReadLe(v[360..368]) <= 4096
    && ReadLe(v[368..376]) <= 1000000 && ReadLe(v[320..328]) != 0
    && ReadLe(v[336..344]) >= ReadLe(v[320..328]) && ReadLe(v[344..352]) == ReadLe(v[336..344])
  }

  predicate BulkPublication(v: ByteString)
    requires |v| == 160
  {
    && v[..8] == BULK_V1 && Identities(v[8..136])
    && 0 < ReadLe(v[136..144]) <= ReadLe(v[144..152]) && ReadLe(v[152..]) != 0
  }

  predicate PlainAuthority(v: ByteString) { |v| == 16 && v[..8] == AUTHORITY_V1 && AllZero(v[8..]) }

  predicate ValueFits(m: Mutation)
    requires ShapeFits(m)
  {
    if m.opcode == CLEANUP_STRUCTURE then 2 <= ReadLe(m.value) <= 1024
    else if m.opcode == CONSOLIDATE_ANN then (if |m.value| == 112 then ConsolidationV1(m.value) else ConsolidationV2(m.value, m.target))
    else if m.opcode == PUBLISH_ANN_BULK then BulkPublication(m.value)
    else if m.opcode == ANN_AUTHORITY_V1 then PlainAuthority(m.value)
    else if m.opcode == ANN_AUTHORITY_V2 then DecodeAuthority(m.value, m.target).Some?
    else true
  }

  /** Everything that recovery asks of a mutation beyond its header. */
  predicate Fits(m: Mutation) { ShapeFits(m) && ValueFits(m) }

  // ---- authority markers ----

  /** What a marker says of the vector writes to one index: how many there are, and the view, the
      overlay and the sequence before and after them. */
  datatype Authority = Authority(
    index: nat, count: nat, priorView: ByteString, view: ByteString, priorRoot: ByteString, root: ByteString,
    priorNext: nat, next: nat, upgrade: bool)

  // The types bound these fields in the source.
  predicate AuthorityFits(a: Authority) {
    && 0 < a.index < U128 && a.count < U32 && a.priorNext < U64 && a.next < U64
    && |a.priorView| == 32 && |a.view| == 32 && |a.priorRoot| == 32 && |a.root| == 32
  }

  predicate AuthoritySound(a: Authority) {
    && 1 <= a.count <= MAX_OPERATIONS && a.priorNext != 0 && a.priorNext + a.count == a.next
    && !AllZero(a.priorView) && !AllZero(a.view) && !AllZero(a.priorRoot) && !AllZero(a.root)
    && a.priorView != a.view && a.priorRoot != a.root
  }

  function AuthorityWidths(): (w: seq<nat>)
    ensures w == [8, 1, 7, 16, 4, 4, 32, 32, 32, 32, 8] && Total(w) == 176
  {
    var w := [8, 1, 7, 16, 4, 4, 32, 32, 32, 32, 8];
    assert Total(w[10..]) == 8 && Total(w[9..]) == 40 && Total(w[8..]) == 72 && Total(w[7..]) == 104 && Total(w[6..]) == 136;
    assert Total(w[5..]) == 140 && Total(w[4..]) == 144 && Total(w[3..]) == 160 && Total(w[2..]) == 167 && Total(w[1..]) == 168;
    w
  }

  function AuthorityFields(a: Authority): (f: seq<ByteString>)
    ensures |f| == 12
  {
    [AUTHORITY_V2, [if a.upgrade then 1 else 0], Zeros(7), BigEndian(16, a.index), Le(4, a.count), Zeros(4),
     a.priorView, a.view, a.priorRoot, a.root, Le(8, a.priorNext), Le(8, a.next)]
  }

  function EncodeAuthority(a: Authority): ByteString { Join(AuthorityFields(a)) }

  function FinishAuthority(f: seq<ByteString>, target: Option<nat>): Option<Authority>
    requires |f| == 12 && |f[1]| == 1
  {
    if f[0] != AUTHORITY_V2 || f[1][0] > 1 || !AllZero(f[2]) || !AllZero(f[5]) || ReadBig(f[3]) == 0 then None
    else
      var a := Authority(ReadBig(f[3]), ReadLe(f[4]), f[6], f[7], f[8], f[9], ReadLe(f[10]), ReadLe(f[11]), f[1][0] == 1);
      if target == Some(a.index) && AuthoritySound(a) then Some(a) else None
  }

  function DecodeAuthority(v: ByteString, target: Option<nat>): Option<Authority> {
    if |v| != 184 then None
    else
      JoinOfSplit(AuthorityWidths(), v);
      FinishAuthority(Split(AuthorityWidths(), v), target)
  }

  ghost predicate AuthorityFieldWidths(f: seq<ByteString>) {
    && |f| == 12 && |f[0]| == 8 && |f[1]| == 1 && |f[2]| == 7 && |f[3]| == 16 && |f[4]| == 4 && |f[5]| == 4
    && |f[6]| == 32 && |f[7]| == 32 && |f[8]| == 32 && |f[9]| == 32 && |f[10]| == 8
  }

  lemma AuthorityJoin(f: seq<ByteString>)
    requires AuthorityFieldWidths(f)
    ensures |Join(f)| == 176 + |f[11]| && Split(AuthorityWidths(), Join(f)) == f
  {
    var w := AuthorityWidths();
    JoinLength(w, f);
    SplitOfJoin(w, f);
  }

  lemma AuthorityNumbers(a: Authority)
    requires AuthorityFits(a)
    ensures ReadBig(BigEndian(16, a.index)) == a.index && ReadLe(Le(4, a.count)) == a.count
    ensures ReadLe(Le(8, a.priorNext)) == a.priorNext && ReadLe(Le(8, a.next)) == a.next
  {
    Widths();
    ReadOfBig(16, a.index);
    ReadOfLe(4, a.count);
    ReadOfLe(8, a.priorNext);
    ReadOfLe(8, a.next);
  }

  lemma AuthorityFinishes(a: Authority, f: seq<ByteString>)
    requires AuthorityFits(a) && f == AuthorityFields(a)
    ensures FinishAuthority(f, Some(a.index)) == if AuthoritySound(a) then Some(a) else None
  {
    AuthorityNumbers(a);
  }

  /** An authority is read back from its own index's marker exactly when it is sound: the sequence
      moves by the number of operations, and both view and overlay change. */
  lemma AuthorityReadsBackIff(a: Authority)
    requires AuthorityFits(a)
    ensures |EncodeAuthority(a)| == 184
    ensures DecodeAuthority(EncodeAuthority(a), Some(a.index)) == if AuthoritySound(a) then Some(a) else None
  {
    var f := AuthorityFields(a);
    AuthorityJoin(f);
    AuthorityFinishes(a, f);
  }

  // ---- what the rules amount to ----

  /** A mutation that fits has a target exactly when its opcode belongs to a table or an index, other
      than compacting the search tree, or creates a catalog object. */
  lemma TargetIff(m: Mutation)
    requires Fits(m)
    ensures m.target.Some? <==>
      (EngineOfOpcode(m.opcode) in {Relational, Search} && m.opcode != COMPACT_SEARCH) || m.opcode == CREATE_CATALOG_OBJECT
  {
  }

  /** It must name an expiry exactly if it expires something, and may only if it also sets a value or
      creates a lexical index. */
  lemma ExpiryOnlyIf(m: Mutation)
    requires Fits(m)
    ensures Expires(m.opcode) ==> m.expires.Some?
    ensures m.expires.Some? ==> Expires(m.opcode) || m.opcode == SET_VALUE || m.opcode == CREATE_INDEX
  {
  }

  /** A collection member's name is the length of the collection's key, that key, and the member. */
  lemma MemberIdentityIff(key: ByteString)
    ensures MemberIdentity(key) <==> exists collection: ByteString, member: ByteString :: |collection| < U32 && key == BigEndian(4, |collection|) + collection + member
  {
    if MemberIdentity(key) {
      var n := ReadBig(key[..4]);
      Widths();
      BigOfRead(key[..4]);
      assert key == BigEndian(4, |key[4..4 + n]|) + key[4..4 + n] + key[4 + n..];
    }
    if collection: ByteString, member: ByteString :| |collection| < U32 && key == BigEndian(4, |collection|) + collection + member {
      Widths();
      ReadOfBig(4, |collection|);
      assert key[..4] == BigEndian(4, |collection|);
    }
  }
}
