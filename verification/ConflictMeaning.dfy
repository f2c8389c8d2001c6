/**
  What conflict keys stand for.  Every mutation claims and relies on resources; the keys of a batch are
  exactly the keys of these, and different resources have different keys, with exceptions that are
  stated.
*/
module ConflictMeaning {
  import opened Bytes
  import opened ConflictKeys
  import opened ConflictTable
  import opened MutationShape
  import opened Results
  import opened WalBlock
  import opened WalMutation

  const PUSH_LIST_TAIL: Opcode := 22
  const POP_LIST_HEAD: Opcode := 23

  // ---- resources ----

  /** What a mutation works on.  An entry is a row, a document or a catalog change, under its bare key. */
  datatype Sort =
    | Whole | Field | Member | Score | Embedding | Entry
    | StructureCompaction | SearchCompaction | Consolidation | StructureMigration | Retirement | BulkPublication | CatalogMigration | OldMarker

  datatype Resource =
    | Thing(sort: Sort, engine: Engine, target: Option<nat>, key: ByteString)
    | AnnIndex(index: nat)
    | AnnLifecycle(index: nat)
    | CatalogObject(id: nat)
    | CatalogName(engine: Engine, name: ByteString)
    | UniqueEntry(index: nat, key: ByteString)
    | AllPages

  const WHOLES: set<Opcode> := {
    SET_VALUE, DELETE_VALUE, EXPIRE_VALUE, CREATE_HASH, DELETE_HASH, EXPIRE_HASH, CREATE_SET, EXPIRE_SET, DELETE_SET, CREATE_LIST, DELETE_LIST,
    EXPIRE_LIST, CREATE_SORTED_SET, DELETE_SORTED_SET, EXPIRE_SORTED_SET, CREATE_STREAM, APPEND_STREAM_ENTRY, DELETE_STREAM, EXPIRE_STREAM,
    PUSH_LIST_HEAD, PUSH_LIST_TAIL, POP_LIST_HEAD, POP_LIST_TAIL}

  ghost function SortOf(o: Opcode): Sort {
    if o in WHOLES then Whole
    else if o in {SET_HASH_FIELD, DELETE_HASH_FIELD, EXPIRE_HASH_FIELD} then Field
    else if o in {ADD_SET_MEMBER, DELETE_SET_MEMBER} then Member
    else if o in {UPSERT_SORTED_SET_MEMBER, DELETE_SORTED_SET_MEMBER} then Score
    else if o in {UPSERT_VECTOR, DELETE_VECTOR, FENCE_VECTOR_ABSENCE} then Embedding
    else if o == COMPACT_STRUCTURE then StructureCompaction
    else if o == COMPACT_SEARCH then SearchCompaction
    else if o == CONSOLIDATE_ANN then Consolidation
    else if o == MIGRATE_STRUCTURE then StructureMigration
    else if o == CLEANUP_STRUCTURE then Retirement
    else if o == PUBLISH_ANN_BULK then BulkPublication
    else if o == MIGRATE_CATALOG then CatalogMigration
    else if o == ANN_AUTHORITY_V1 then OldMarker
    else Entry
  }

  // There is one such task for an engine or an index, whatever the key.
  predicate Single(s: Sort) {
    s.StructureCompaction? || s.SearchCompaction? || s.Consolidation? || s.StructureMigration? || s.BulkPublication? || s.CatalogMigration? || s.OldMarker?
  }

  ghost function Own(m: Mutation): Resource {
    Thing(SortOf(m.opcode), m.engine, m.target, if Single(SortOf(m.opcode)) then [] else m.key)
  }

  // ---- keys ----

  // The byte in front of the key; entries have none.
  function Tag(s: Sort): Byte {
    match s
    case Whole => 0
    case Field => 1
    case Member => 2
    case Embedding => 3
    case Score => 4
    case StructureCompaction => 5
    case SearchCompaction => 6
    case Consolidation => 7
    case StructureMigration => 8
    case Retirement => 9
    case BulkPublication => 10
    case CatalogMigration => 11
    case OldMarker => 12
    case Entry => 255
  }

  ghost function KeyFor(r: Resource): WriteKey {
    match r
    case Thing(s, e, t, k) => WriteKey(e, t, if s.Entry? then k else [Tag(s)] + k)
    case AnnIndex(i) => WriteKey(Search, Some(i), [12])
    case AnnLifecycle(i) => WriteKey(Search, Some(i), [13])
    case CatalogObject(id) => WriteKey(Kernel, None, [1] + BigEndian(16, id))
    case CatalogName(e, name) => WriteKey(Kernel, None, [2, EngineCode(e)] + name)
    case UniqueEntry(i, k) => WriteKey(Relational, Some(i), [6] + k)
    case AllPages => WriteKey(Kernel, None, [255])
  }

  lemma OwnKey(m: Mutation)
    ensures KeyFor(Own(m)) == WriteKey(m.engine, m.target, Identity(m))
  {
    assert [Tag(SortOf(m.opcode))] + [] == [Tag(SortOf(m.opcode))];
  }

  // ---- claims ----

  ghost predicate CreatesObject(o: Opcode) {
    o in {CREATE_TABLE, CREATE_SECONDARY_INDEX, CREATE_INDEX, CREATE_ANN_INDEX, CREATE_CATALOG_OBJECT}
  }

  ghost function ObjectNames(m: Mutation): set<Resource> {
    if !CreatesObject(m.opcode) then {}
    else (if m.target.Some? then {CatalogObject(m.target.value)} else {}) + {CatalogName(m.engine, if m.key == [] then m.value else m.key)}
  }

  ghost function OnTarget(m: Mutation, opcodes: set<Opcode>, r: nat -> Resource): set<Resource> {
    if m.opcode in opcodes && m.target.Some? then {r(m.target.value)} else {}
  }

  ghost function Index(i: nat): Resource { AnnIndex(i) }
  ghost function Lifecycle(i: nat): Resource { AnnLifecycle(i) }
  ghost function Object(i: nat): Resource { CatalogObject(i) }

  /** What a mutation claims when it commits: its own resource; the objects and names it creates; an ANN
      index that it creates, rebuilds or writes outside the point path; and the life of an index that
      it rebuilds or fences. */
  ghost function Claims(m: Mutation, points: set<nat>): set<Resource> {
    if m.opcode == ANN_AUTHORITY_V2 then {}
    else if m.opcode == VACUUM_PAGE_GENERATION then {AllPages}
    else
      {Own(m)} + ObjectNames(m)
      + OnTarget(m, {CREATE_ANN_INDEX, CONSOLIDATE_ANN, PUBLISH_ANN_BULK}, Index)
      + (if m.target.Some? && m.target.value !in points then OnTarget(m, {UPSERT_VECTOR, DELETE_VECTOR}, Index) else {})
      + OnTarget(m, {FENCE_VECTOR_ABSENCE, CONSOLIDATE_ANN, PUBLISH_ANN_BULK}, Lifecycle)
  }

  // The collection that a hash field or set member belongs to.
  ghost predicate PartOf(key: ByteString, collection: ByteString) {
    |collection| < U32 && exists member: ByteString :: key == BigEndian(4, |collection|) + collection + member
  }

  ghost predicate ReliesOnWhole(m: Mutation, r: Resource) {
    && (SortOf(m.opcode) == Field || SortOf(m.opcode) == Member)
    && r.Thing? && r.sort == Whole && r.engine == Structure && r.target == m.target && PartOf(m.key, r.key)
  }

  /** What a mutation is checked for: what it works on; the ANN index that its marker names or that it
      deletes from; the life of an index that it rebuilds or fences; the table of a row; and the whole
      collection of a hash field or set member. */
  ghost predicate Relies(m: Mutation, r: Resource) {
    if m.opcode == ANN_AUTHORITY_V2 then r in OnTarget(m, {ANN_AUTHORITY_V2}, Index)
    else if m.opcode == VACUUM_PAGE_GENERATION then r == AllPages
    else
      || r == Own(m) || r in ObjectNames(m)
      || r in OnTarget(m, {DELETE_VECTOR}, Index)
      || r in OnTarget(m, {FENCE_VECTOR_ABSENCE, CONSOLIDATE_ANN, PUBLISH_ANN_BULK}, Lifecycle)
      || (m.engine == Relational && r in OnTarget(m, {INSERT_ROW, UPDATE_ROW, DELETE_ROW}, Object))
      || ReliesOnWhole(m, r)
  }

  ghost predicate HasKey(rs: set<Resource>, k: WriteKey) { exists r :: r in rs && KeyFor(r) == k }

  lemma HasKeyUnion(a: set<Resource>, b: set<Resource>, k: WriteKey)
    ensures HasKey(a + b, k) <==> HasKey(a, k) || HasKey(b, k)
  {
  }

  lemma HasKeyOne(r: Resource, k: WriteKey)
    ensures HasKey({r}, k) <==> KeyFor(r) == k
  {
  }

  lemma NamesKeys(m: Mutation, k: WriteKey)
    requires m.opcode != ANN_AUTHORITY_V2 && m.opcode != VACUUM_PAGE_GENERATION
    ensures k in PlainKeys(m, false) <==> k == KeyFor(Own(m)) || HasKey(ObjectNames(m), k)
  {
    OwnKey(m);
    if CreatesObject(m.opcode) {
      var name := CatalogName(m.engine, if m.key == [] then m.value else m.key);
      assert KeyFor(name) == NameKey(m);
      HasKeyOne(name, k);
      if m.target.Some? {
        HasKeyOne(CatalogObject(m.target.value), k);
        HasKeyUnion({CatalogObject(m.target.value)}, {name}, k);
      } else {
        HasKeyUnion({}, {name}, k);
      }
    }
  }

  lemma TargetKeys(m: Mutation, opcodes: set<Opcode>, r: nat -> Resource, k: WriteKey)
    ensures HasKey(OnTarget(m, opcodes, r), k) <==> m.opcode in opcodes && m.target.Some? && k == KeyFor(r(m.target.value))
  {
    if m.opcode in opcodes && m.target.Some? { HasKeyOne(r(m.target.value), k); }
  }

  lemma AuthorityKeys(m: Mutation, k: WriteKey)
    requires m.opcode != ANN_AUTHORITY_V2 && m.opcode != VACUUM_PAGE_GENERATION
    ensures k in PlainKeys(m, true) <==>
      || k in PlainKeys(m, false)
      || (m.opcode in {FENCE_VECTOR_ABSENCE, CONSOLIDATE_ANN, PUBLISH_ANN_BULK} && m.target.Some? && k == LifecycleKey(m.target.value))
      || (m.opcode in {CREATE_ANN_INDEX, CONSOLIDATE_ANN, PUBLISH_ANN_BULK} && m.target.Some? && k == AnnKey(m.target.value))
  {
  }

  lemma ClaimKeys(m: Mutation, points: set<nat>, k: WriteKey)
    requires m.opcode != ANN_AUTHORITY_V2 && m.opcode != VACUUM_PAGE_GENERATION
    ensures HasKey(Claims(m, points), k) <==>
      || k == KeyFor(Own(m)) || HasKey(ObjectNames(m), k)
      || (m.opcode in {CREATE_ANN_INDEX, CONSOLIDATE_ANN, PUBLISH_ANN_BULK} && m.target.Some? && k == AnnKey(m.target.value))
      || (m.opcode in {UPSERT_VECTOR, DELETE_VECTOR} && m.target.Some? && m.target.value !in points && k == AnnKey(m.target.value))
      || (m.opcode in {FENCE_VECTOR_ABSENCE, CONSOLIDATE_ANN, PUBLISH_ANN_BULK} && m.target.Some? && k == LifecycleKey(m.target.value))
  {
    var a := OnTarget(m, {CREATE_ANN_INDEX, CONSOLIDATE_ANN, PUBLISH_ANN_BULK}, Index);
    var b := if m.target.Some? && m.target.value !in points then OnTarget(m, {UPSERT_VECTOR, DELETE_VECTOR}, Index) else {};
    var c := OnTarget(m, {FENCE_VECTOR_ABSENCE, CONSOLIDATE_ANN, PUBLISH_ANN_BULK}, Lifecycle);
    HasKeyOne(Own(m), k);
    HasKeyUnion({Own(m)}, ObjectNames(m), k);
    HasKeyUnion({Own(m)} + ObjectNames(m), a, k);
    HasKeyUnion({Own(m)} + ObjectNames(m) + a, b, k);
    HasKeyUnion({Own(m)} + ObjectNames(m) + a + b, c, k);
    TargetKeys(m, {CREATE_ANN_INDEX, CONSOLIDATE_ANN, PUBLISH_ANN_BULK}, Index, k);
    TargetKeys(m, {UPSERT_VECTOR, DELETE_VECTOR}, Index, k);
    TargetKeys(m, {FENCE_VECTOR_ABSENCE, CONSOLIDATE_ANN, PUBLISH_ANN_BULK}, Lifecycle, k);
  }

  /** A mutation publishes exactly the keys of what it claims. */
  lemma PublishesIff(m: Mutation, points: set<nat>, k: WriteKey)
    ensures Gives(m, true, points, k) <==> HasKey(Claims(m, points), k)
  {
    if m.opcode == ANN_AUTHORITY_V2 {
    } else if m.opcode == VACUUM_PAGE_GENERATION {
      HasKeyOne(AllPages, k);
    } else {
      AuthorityKeys(m, k);
      NamesKeys(m, k);
      ClaimKeys(m, points, k);
      IndexKeyIs(m, points, k);
    }
  }

  // ---- checks ----

  lemma CollectionIff(key: ByteString, collection: ByteString)
    ensures CollectionOf(key) == Some(collection) <==> PartOf(key, collection)
  {
    Widths();
    if |key| >= 4 {
      assert [key[3], key[2], key[1], key[0]] == Reversed(key[..4]);
      BigOfRead(key[..4]);
    }
    if CollectionOf(key) == Some(collection) {
      var n := ReadBig(key[..4]);
      assert key == BigEndian(4, n) + collection + key[4 + n..];
    }
    if PartOf(key, collection) {
      var member: ByteString :| key == BigEndian(4, |collection|) + collection + member;
      assert key[..4] == BigEndian(4, |collection|);
      ReadOfBig(4, |collection|);
    }
  }

  lemma WholeKeys(m: Mutation, k: WriteKey)
    ensures (exists r :: ReliesOnWhole(m, r) && KeyFor(r) == k) <==>
      (HashField(m.opcode) || SetMember(m.opcode)) && CollectionOf(m.key).Some? && k == WriteKey(Structure, m.target, [0] + CollectionOf(m.key).value)
  {
    if r :| ReliesOnWhole(m, r) && KeyFor(r) == k { CollectionIff(m.key, r.key); }
    if (HashField(m.opcode) || SetMember(m.opcode)) && CollectionOf(m.key).Some? {
      var c := CollectionOf(m.key).value;
      CollectionIff(m.key, c);
      assert ReliesOnWhole(m, Thing(Whole, Structure, m.target, c));
    }
  }

  ghost predicate CheckedFor(m: Mutation, k: WriteKey) { exists r :: Relies(m, r) && KeyFor(r) == k }

  lemma CheckKeys(m: Mutation, k: WriteKey)
    requires m.opcode != ANN_AUTHORITY_V2 && m.opcode != VACUUM_PAGE_GENERATION
    ensures CheckedFor(m, k) <==>
      || k == KeyFor(Own(m)) || HasKey(ObjectNames(m), k)
      || HasKey(OnTarget(m, {DELETE_VECTOR}, Index), k)
      || HasKey(OnTarget(m, {FENCE_VECTOR_ABSENCE, CONSOLIDATE_ANN, PUBLISH_ANN_BULK}, Lifecycle), k)
      || (m.engine == Relational && HasKey(OnTarget(m, {INSERT_ROW, UPDATE_ROW, DELETE_ROW}, Object), k))
      || exists r :: ReliesOnWhole(m, r) && KeyFor(r) == k
  {
    if HasKey(ObjectNames(m), k) { var r :| r in ObjectNames(m) && KeyFor(r) == k; assert Relies(m, r); }
    if k == KeyFor(Own(m)) { assert Relies(m, Own(m)); }
  }

  lemma ExtraKeys(m: Mutation, k: WriteKey)
    requires m.opcode != ANN_AUTHORITY_V2 && m.opcode != VACUUM_PAGE_GENERATION
    ensures k in ExtraChecks(m) <==>
      || (m.opcode == DELETE_VECTOR && m.target.Some? && k == AnnKey(m.target.value))
      || (m.opcode in {FENCE_VECTOR_ABSENCE, CONSOLIDATE_ANN, PUBLISH_ANN_BULK} && m.target.Some? && k == LifecycleKey(m.target.value))
      || (m.engine == Relational && m.opcode in {INSERT_ROW, UPDATE_ROW, DELETE_ROW} && m.target.Some? && k == ObjectKey(m.target.value))
      || ((HashField(m.opcode) || SetMember(m.opcode)) && CollectionOf(m.key).Some? && k == WriteKey(Structure, m.target, [0] + CollectionOf(m.key).value))
  {
  }

  /** A mutation is checked for exactly the keys of what it relies on. */
  lemma ChecksIff(m: Mutation, k: WriteKey)
    ensures Raises(m, k) <==> CheckedFor(m, k)
  {
    if m.opcode == ANN_AUTHORITY_V2 {
      TargetKeys(m, {ANN_AUTHORITY_V2}, Index, k);
    } else if m.opcode == VACUUM_PAGE_GENERATION {
      assert PlainKeys(m, false) == [VACUUM_KEY] && ExtraChecks(m) == [];
      assert Relies(m, AllPages);
    } else {
      CheckKeys(m, k);
      ExtraKeys(m, k);
      NamesKeys(m, k);
      WholeKeys(m, k);
      TargetKeys(m, {DELETE_VECTOR}, Index, k);
      TargetKeys(m, {FENCE_VECTOR_ABSENCE, CONSOLIDATE_ANN, PUBLISH_ANN_BULK}, Lifecycle, k);
      TargetKeys(m, {INSERT_ROW, UPDATE_ROW, DELETE_ROW}, Object, k);
    }
  }

  // ---- batches ----

  // The batch writes vectors of an index one by one: it did not create it and does not treat it in the
  // old way.
  ghost predicate ByPoints(b: WriteBatch, i: nat) {
    && (exists m :: m in b.mutations && m.opcode in {UPSERT_VECTOR, DELETE_VECTOR, FENCE_VECTOR_ABSENCE} && m.target == Some(i))
    && !(exists m :: m in b.mutations && m.opcode == CREATE_ANN_INDEX && m.target == Some(i)) && i !in b.legacy
  }

  lemma PointsIff(b: WriteBatch, i: nat)
    ensures i in Points(b) <==> ByPoints(b, i)
  {
  }

  ghost predicate Probed(b: WriteBatch, k: WriteKey) { exists p :: p in b.probes && k == KeyFor(UniqueEntry(p.index, p.key)) }

  lemma ProbedIff(b: WriteBatch, k: WriteKey)
    ensures k in UniqueKeys(b.probes) <==> Probed(b, k)
  {
    if Probed(b, k) {
      var p :| p in b.probes && k == KeyFor(UniqueEntry(p.index, p.key));
      var i :| 0 <= i < |b.probes| && b.probes[i] == p;
      assert UniqueKeys(b.probes)[i] == k;
    }
  }

  /** A batch publishes exactly the keys of what its mutations claim and of the unique entries it looked
      up. */
  lemma BatchPublishesIff(b: WriteBatch, k: WriteKey)
    ensures k in BatchWrites(b) <==> (exists m :: m in b.mutations && HasKey(Claims(m, Points(b)), k)) || Probed(b, k)
  {
    KeysMean(b.mutations, true, Points(b), k);
    ProbedIff(b, k);
    forall m | m in b.mutations ensures Gives(m, true, Points(b), k) <==> HasKey(Claims(m, Points(b)), k) {
      PublishesIff(m, Points(b), k);
    }
  }

  /** A batch is checked for exactly the keys of what its mutations rely on, of the indexes it works on by
      points, and of the unique entries it looked up. */
  lemma BatchChecksIff(b: WriteBatch, k: WriteKey)
    ensures InChecks(b, k) <==>
      (exists m :: m in b.mutations && CheckedFor(m, k)) || (exists i: nat :: ByPoints(b, i) && k == KeyFor(AnnIndex(i))) || Probed(b, k)
  {
    ChecksMean(b.mutations, k);
    ProbedIff(b, k);
    forall m | m in b.mutations ensures Raises(m, k) <==> CheckedFor(m, k) {
      ChecksIff(m, k);
    }
    forall i: nat ensures i in Points(b) <==> ByPoints(b, i) { PointsIff(b, i); }
  }

  // ---- keys apart ----

  // The bytes in front of the key that an entry lacks.
  lemma TagsApart(s: Sort, t: Sort)
    requires !s.Entry? && !t.Entry? && Tag(s) == Tag(t)
    ensures s == t
  {
  }

  /** Two resources of one engine and target share a key only if they are the same, or one of them is an
      entry whose bare key looks like the other's. */
  lemma ThingsApart(a: Resource, b: Resource)
    requires a.Thing? && b.Thing?
    ensures KeyFor(a) == KeyFor(b) <==>
      && a.engine == b.engine && a.target == b.target
      && if a.sort.Entry? == b.sort.Entry? then a.sort == b.sort && a.key == b.key
         else if a.sort.Entry? then a.key == [Tag(b.sort)] + b.key else b.key == [Tag(a.sort)] + a.key
  {
    if !a.sort.Entry? && !b.sort.Entry? {
      var x, y := [Tag(a.sort)] + a.key, [Tag(b.sort)] + b.key;
      if x == y {
        assert x[0] == y[0] && x[1..] == a.key && y[1..] == b.key;
        TagsApart(a.sort, b.sort);
      }
    }
  }

  // ---- who conflicts ----

  // Committed first, the first batch makes the second fail if it has not seen it.
  ghost predicate Excludes(first: WriteBatch, second: WriteBatch) {
    exists k :: k in BatchWrites(first) && InChecks(second, k)
  }

  lemma SharedExcludes(first: WriteBatch, second: WriteBatch, m: Mutation, n: Mutation, r: Resource)
    requires m in first.mutations && n in second.mutations && r in Claims(m, Points(first)) && Relies(n, r)
    ensures Excludes(first, second)
  {
    BatchPublishesIff(first, KeyFor(r));
    BatchChecksIff(second, KeyFor(r));
    assert HasKey(Claims(m, Points(first)), KeyFor(r)) && CheckedFor(n, KeyFor(r));
  }

  ghost predicate Works(m: Mutation) { m.opcode != ANN_AUTHORITY_V2 && m.opcode != VACUUM_PAGE_GENERATION }

  /** Two batches that work on the same thing exclude each other, whichever comes first. */
  lemma SameThingExcludes(first: WriteBatch, second: WriteBatch, m: Mutation, n: Mutation)
    requires m in first.mutations && n in second.mutations && Works(m) && Works(n) && Own(m) == Own(n)
    ensures Excludes(first, second) && Excludes(second, first)
  {
    SharedExcludes(first, second, m, n, Own(m));
    SharedExcludes(second, first, n, m, Own(m));
  }

  /** What changes a whole collection excludes later work on a hash field or set member of it. */
  lemma WholeExcludesPart(first: WriteBatch, second: WriteBatch, m: Mutation, n: Mutation)
    requires m in first.mutations && n in second.mutations && SortOf(m.opcode) == Whole && m.engine == Structure && m.target == n.target
    requires (SortOf(n.opcode) == Field || SortOf(n.opcode) == Member) && PartOf(n.key, m.key)
    ensures Excludes(first, second)
  {
    assert ReliesOnWhole(n, Own(m));
    SharedExcludes(first, second, m, n, Own(m));
  }

  // A batch of one mutation of a value or collection.
  ghost predicate Alone(b: WriteBatch, m: Mutation) {
    b == WriteBatch([m], {}, []) && m.engine == Structure && m.target.None? && SortOf(m.opcode) in {Whole, Field, Member, Score}
  }

  // What claims or relies on more than its own resource, collections aside.
  ghost predicate Special(o: Opcode) {
    || o == ANN_AUTHORITY_V2 || o == VACUUM_PAGE_GENERATION || CreatesObject(o)
    || o in {UPSERT_VECTOR, DELETE_VECTOR, FENCE_VECTOR_ABSENCE, CONSOLIDATE_ANN, PUBLISH_ANN_BULK} || o in {INSERT_ROW, UPDATE_ROW, DELETE_ROW}
  }

  lemma OrdinaryIsNotSpecial(o: Opcode)
    requires SortOf(o) in {Whole, Field, Member, Score}
    ensures !Special(o)
  {
  }

  lemma PlainClaims(m: Mutation, points: set<nat>)
    requires !Special(m.opcode)
    ensures Claims(m, points) == {Own(m)}
  {
    assert ObjectNames(m) == {} && OnTarget(m, {CREATE_ANN_INDEX, CONSOLIDATE_ANN, PUBLISH_ANN_BULK}, Index) == {};
    assert OnTarget(m, {UPSERT_VECTOR, DELETE_VECTOR}, Index) == {};
    assert OnTarget(m, {FENCE_VECTOR_ABSENCE, CONSOLIDATE_ANN, PUBLISH_ANN_BULK}, Lifecycle) == {};
  }

  lemma OrdinaryClaims(m: Mutation, points: set<nat>)
    requires SortOf(m.opcode) in {Whole, Field, Member, Score}
    ensures Works(m) && Claims(m, points) == {Own(m)}
  {
    OrdinaryIsNotSpecial(m.opcode);
    PlainClaims(m, points);
  }

  lemma PlainRelies(m: Mutation, r: Resource)
    requires !Special(m.opcode)
    ensures Relies(m, r) <==> r == Own(m) || ReliesOnWhole(m, r)
  {
    assert ObjectNames(m) == {} && OnTarget(m, {DELETE_VECTOR}, Index) == {} && OnTarget(m, {INSERT_ROW, UPDATE_ROW, DELETE_ROW}, Object) == {};
    assert OnTarget(m, {FENCE_VECTOR_ABSENCE, CONSOLIDATE_ANN, PUBLISH_ANN_BULK}, Lifecycle) == {};
  }

  lemma OrdinaryRelies(m: Mutation, r: Resource)
    requires SortOf(m.opcode) in {Whole, Field, Member, Score}
    ensures Relies(m, r) <==> r == Own(m) || ReliesOnWhole(m, r)
  {
    OrdinaryIsNotSpecial(m.opcode);
    PlainRelies(m, r);
  }

  lemma OrdinaryChecks(m: Mutation, k: WriteKey)
    requires SortOf(m.opcode) in {Whole, Field, Member, Score}
    ensures CheckedFor(m, k) <==> k == KeyFor(Own(m)) || exists r :: ReliesOnWhole(m, r) && KeyFor(r) == k
  {
    forall r ensures Relies(m, r) <==> r == Own(m) || ReliesOnWhole(m, r) { OrdinaryRelies(m, r); }
  }

  lemma OneMutation(b: WriteBatch, m: Mutation)
    requires b == WriteBatch([m], {}, [])
    ensures forall n :: n in b.mutations <==> n == m
  {
  }

  lemma NoPoints(b: WriteBatch, m: Mutation, i: nat)
    requires Alone(b, m)
    ensures !ByPoints(b, i)
  {
    OneMutation(b, m);
  }

  lemma AlonePublishes(b: WriteBatch, m: Mutation, k: WriteKey)
    requires Alone(b, m)
    ensures k in BatchWrites(b) <==> k == KeyFor(Own(m))
  {
    BatchPublishesIff(b, k);
    OneMutation(b, m);
    OrdinaryClaims(m, Points(b));
    HasKeyOne(Own(m), k);
  }

  lemma AloneChecks(b: WriteBatch, m: Mutation, k: WriteKey)
    requires Alone(b, m)
    ensures InChecks(b, k) <==> CheckedFor(m, k)
  {
    BatchChecksIff(b, k);
    OneMutation(b, m);
    forall i: nat ensures !ByPoints(b, i) { NoPoints(b, m, i); }
  }

  lemma AloneKeys(m: Mutation, n: Mutation)
    requires SortOf(m.opcode) in {Whole, Field, Member, Score} && SortOf(n.opcode) in {Whole, Field, Member, Score}
    requires m.engine == n.engine == Structure && m.target.None? && n.target.None? && CheckedFor(n, KeyFor(Own(m)))
    ensures Own(m) == Own(n) || (SortOf(m.opcode) == Whole && SortOf(n.opcode) in {Field, Member} && PartOf(n.key, m.key))
  {
    OrdinaryChecks(n, KeyFor(Own(m)));
    if KeyFor(Own(m)) == KeyFor(Own(n)) {
      ThingsApart(Own(m), Own(n));
    } else {
      var r :| ReliesOnWhole(n, r) && KeyFor(r) == KeyFor(Own(m));
      ThingsApart(Own(m), r);
    }
  }

  /** Between single changes to values and collections nothing else excludes: the first excludes the
      second exactly when both work on the same thing, or the first changes the whole of a collection
      of which the second changes a hash field or a set member.  So a change to a field does not exclude
      a later change to its whole collection, and members of sorted sets and their collection do not
      exclude each other at all. */
  lemma AloneExcludesIff(first: WriteBatch, second: WriteBatch, m: Mutation, n: Mutation)
    requires Alone(first, m) && Alone(second, n)
    ensures Excludes(first, second) <==>
      || Own(m) == Own(n)
      || (SortOf(m.opcode) == Whole && SortOf(n.opcode) in {Field, Member} && PartOf(n.key, m.key))
  {
    if Excludes(first, second) {
      var k :| k in BatchWrites(first) && InChecks(second, k);
      AlonePublishes(first, m, k);
      AloneChecks(second, n, k);
      AloneKeys(m, n);
    }
    OrdinaryClaims(m, Points(first));
    OrdinaryClaims(n, Points(second));
    if Own(m) == Own(n) {
      SameThingExcludes(first, second, m, n);
    } else if SortOf(m.opcode) == Whole && SortOf(n.opcode) in {Field, Member} && PartOf(n.key, m.key) {
      WholeExcludesPart(first, second, m, n);
    }
  }
}
