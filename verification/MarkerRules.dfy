/**
  The rules on the authority markers of one transaction: markers close the list of mutations and say
  of every vector index, once, what was written to it.
*/
module MarkerRules {
  import opened Bytes
  import opened Results
  import opened WalBlock
  import opened WalMutation
  import C = ConflictKeys
  import F = MutationForms
  import S = MutationShape

  predicate Marker(o: Opcode) { o == ANN_AUTHORITY_V1 || o == ANN_AUTHORITY_V2 }

  // Opcodes that a list of mutations is counted by.
  datatype Role = Upserts | Vectors | Fences | CreatesIndex | Rebuilds | MarksV1 | MarksV2

  predicate Plays(o: Opcode, role: Role) {
    match role
    case Upserts => o == UPSERT_VECTOR
    case Vectors => C.Vector(o)
    case Fences => o == FENCE_VECTOR_ABSENCE
    case CreatesIndex => o == CREATE_ANN_INDEX
    case Rebuilds => C.Rebuild(o)
    case MarksV1 => o == ANN_AUTHORITY_V1
    case MarksV2 => o == ANN_AUTHORITY_V2
  }

  // These opcodes need a target.
  predicate OnIndex(o: Opcode) { C.Point(o) || o == CREATE_ANN_INDEX || C.Rebuild(o) || Marker(o) }

  ghost predicate Touches(m: Mutation, role: Role, index: nat) { Plays(m.opcode, role) && m.target == Some(index) }

  // The indexes that a list touches in a role.
  ghost function Indexes(mutations: seq<Mutation>, role: Role): set<nat> {
    set i | 0 <= i < |mutations| && Plays(mutations[i].opcode, role) && mutations[i].target.Some? :: mutations[i].target.value
  }

  ghost function VectorCount(mutations: seq<Mutation>, index: nat): nat {
    if mutations == [] then 0
    else VectorCount(mutations[..|mutations| - 1], index) + if Touches(mutations[|mutations| - 1], Vectors, index) then 1 else 0
  }

  ghost function FenceCount(mutations: seq<Mutation>): nat {
    if mutations == [] then 0
    else FenceCount(mutations[..|mutations| - 1]) + if Plays(mutations[|mutations| - 1].opcode, Fences) then 1 else 0
  }

  // A marker on its own.
  predicate MarkerFits(m: Mutation) {
    && m.engine == Search && m.key == [] && m.expires.None? && m.target.Some?
    && if m.opcode == ANN_AUTHORITY_V1 then S.PlainAuthority(m.value) else S.DecodeAuthority(m.value, m.target).Some?
  }

  function OperationCount(m: Mutation): nat {
    var a := S.DecodeAuthority(m.value, m.target);
    if a.Some? then a.value.count else 0
  }

  // ---- the rules, over the whole list ----

  ghost predicate Trailing(mutations: seq<Mutation>) {
    forall i, j :: 0 <= i < j < |mutations| && Marker(mutations[i].opcode) ==> Marker(mutations[j].opcode)
  }

  ghost predicate InOrder(a: Mutation, b: Mutation) {
    a.opcode == b.opcode && a.target.Some? && b.target.Some? && a.target.value < b.target.value
  }

  // One version, one marker an index, by increasing index.
  ghost predicate Sorted(mutations: seq<Mutation>) {
    forall i, j :: 0 <= i < j < |mutations| && Marker(mutations[i].opcode) && Marker(mutations[j].opcode) ==> InOrder(mutations[i], mutations[j])
  }

  ghost predicate Typed(m: Mutation) { (OnIndex(m.opcode) ==> m.target.Some?) && (Marker(m.opcode) ==> MarkerFits(m)) }

  ghost predicate Countable(mutations: seq<Mutation>) { forall index :: VectorCount(mutations, index) < U32 }

  ghost predicate Bounded(mutations: seq<Mutation>) { FenceCount(mutations) <= S.MAX_OPERATIONS && Countable(mutations) }

  // What a second-version marker says of its index.
  ghost predicate Exact(mutations: seq<Mutation>, m: Mutation) {
    m.target.Some? && OperationCount(m) == VectorCount(mutations, m.target.value)
    && m.target.value !in Indexes(mutations, CreatesIndex) && m.target.value !in Indexes(mutations, Rebuilds)
  }

  ghost predicate AllExact(mutations: seq<Mutation>) {
    forall i :: 0 <= i < |mutations| && mutations[i].opcode == ANN_AUTHORITY_V2 ==> Exact(mutations, mutations[i])
  }

  // Every index that needs a marker has one.
  ghost predicate Complete(mutations: seq<Mutation>) {
    && (Indexes(mutations, MarksV1) != {} ==>
         Indexes(mutations, MarksV1) == Indexes(mutations, Upserts) && Indexes(mutations, Fences) == {})
    && (Indexes(mutations, MarksV2) != {} ==>
         Indexes(mutations, MarksV2) == Indexes(mutations, Vectors) - Indexes(mutations, CreatesIndex) - Indexes(mutations, Rebuilds))
  }

  /** The rules: markers trail, are sorted, unique and of one version, and say exactly what was
      written; without markers anything goes. */
  ghost predicate MarkersFit(mutations: seq<Mutation>) {
    && (forall i :: 0 <= i < |mutations| ==> Typed(mutations[i]))
    && Trailing(mutations) && Sorted(mutations) && Bounded(mutations) && AllExact(mutations) && Complete(mutations)
  }

  // ---- one more mutation ----

  lemma IndexesSnoc(before: seq<Mutation>, m: Mutation, role: Role)
    ensures Indexes(before + [m], role) ==
      Indexes(before, role) + if Plays(m.opcode, role) && m.target.Some? then {m.target.value} else {}
  {
    var all := before + [m];
    forall t | t in Indexes(before, role) ensures t in Indexes(all, role) {
      var i :| 0 <= i < |before| && Plays(before[i].opcode, role) && before[i].target == Some(t);
      assert all[i] == before[i];
    }
    assert all[|before|] == m;
  }

  lemma CountSnoc(before: seq<Mutation>, m: Mutation, index: nat)
    ensures VectorCount(before + [m], index) == VectorCount(before, index) + if Touches(m, Vectors, index) then 1 else 0
    ensures FenceCount(before + [m]) == FenceCount(before) + if Plays(m.opcode, Fences) then 1 else 0
  {
    assert (before + [m])[..|before|] == before;
  }

  // Whether the mutation keeps the rules that hold so far.
  ghost predicate Keeps(before: seq<Mutation>, m: Mutation) {
    && Typed(m)
    && (forall i :: 0 <= i < |before| && Marker(before[i].opcode) ==> Marker(m.opcode) && InOrder(before[i], m))
    && (Plays(m.opcode, Fences) ==> FenceCount(before) < S.MAX_OPERATIONS)
    && (Plays(m.opcode, Vectors) && m.target.Some? ==> VectorCount(before, m.target.value) + 1 < U32)
    && (m.opcode == ANN_AUTHORITY_V2 ==> Exact(before, m))
  }

  // All rules but completeness.
  ghost predicate Kept(mutations: seq<Mutation>) {
    && (forall i :: 0 <= i < |mutations| ==> Typed(mutations[i]))
    && Trailing(mutations) && Sorted(mutations) && Bounded(mutations) && AllExact(mutations)
  }

  lemma ExactStays(before: seq<Mutation>, m: Mutation, marker: Mutation)
    requires Marker(m.opcode)
    ensures Exact(before + [m], marker) <==> Exact(before, marker)
  {
    IndexesSnoc(before, m, CreatesIndex);
    IndexesSnoc(before, m, Rebuilds);
    if marker.target.Some? { CountSnoc(before, m, marker.target.value); }
  }

  lemma CountableSnoc(before: seq<Mutation>, m: Mutation)
    ensures Countable(before + [m]) <==>
      Countable(before) && (Plays(m.opcode, Vectors) && m.target.Some? ==> VectorCount(before, m.target.value) + 1 < U32)
  {
    if Countable(before + [m]) {
      forall index ensures VectorCount(before, index) < U32 { CountSnoc(before, m, index); }
      if Plays(m.opcode, Vectors) && m.target.Some? { CountSnoc(before, m, m.target.value); }
    } else {
      var index :| VectorCount(before + [m], index) >= U32;
      CountSnoc(before, m, index);
    }
  }

  lemma BoundedSnoc(before: seq<Mutation>, m: Mutation)
    ensures Bounded(before + [m]) <==>
      && Bounded(before) && (Plays(m.opcode, Fences) ==> FenceCount(before) < S.MAX_OPERATIONS)
      && (Plays(m.opcode, Vectors) && m.target.Some? ==> VectorCount(before, m.target.value) + 1 < U32)
  {
    CountSnoc(before, m, 0);
    CountableSnoc(before, m);
  }

  lemma AllExactSnoc(before: seq<Mutation>, m: Mutation)
    requires Trailing(before + [m])
    ensures AllExact(before + [m]) <==> AllExact(before) && (m.opcode == ANN_AUTHORITY_V2 ==> Exact(before, m))
  {
    var all := before + [m];
    assert forall i :: 0 <= i < |before| ==> all[i] == before[i];
    assert all[|before|] == m;
    forall i | 0 <= i < |all| && all[i].opcode == ANN_AUTHORITY_V2 ensures Exact(all, all[i]) <==> Exact(before, all[i]) {
      ExactStays(before, m, all[i]);
    }
  }

  lemma OrderSnoc(before: seq<Mutation>, m: Mutation)
    ensures Trailing(before + [m]) && Sorted(before + [m]) <==>
      && Trailing(before) && Sorted(before)
      && forall i :: 0 <= i < |before| && Marker(before[i].opcode) ==> Marker(m.opcode) && InOrder(before[i], m)
  {
    var all := before + [m];
    assert forall i :: 0 <= i < |before| ==> all[i] == before[i];
    assert all[|before|] == m;
  }

  lemma KeptSnoc(before: seq<Mutation>, m: Mutation)
    ensures Kept(before + [m]) <==> Kept(before) && Keeps(before, m)
  {
    var all := before + [m];
    assert forall i :: 0 <= i < |before| ==> all[i] == before[i];
    assert all[|before|] == m;
    OrderSnoc(before, m);
    BoundedSnoc(before, m);
    if Trailing(all) { AllExactSnoc(before, m); }
  }

  lemma {:induction false} KeptPrefix(mutations: seq<Mutation>, n: nat)
    requires n <= |mutations| && Kept(mutations)
    ensures Kept(mutations[..n])
  {
    if n < |mutations| {
      var k := |mutations| - 1;
      assert mutations == mutations[..k] + [mutations[k]];
      KeptSnoc(mutations[..k], mutations[k]);
      KeptPrefix(mutations[..k], n);
      assert mutations[..k][..n] == mutations[..n];
    } else {
      assert mutations[..n] == mutations;
    }
  }

  // ---- the loop ----

  /** What the validator knows of the mutations before: the indexes in every role, how often vectors
      were written to each, the number of fences, and the last marker. */
  datatype Scan = Scan(touched: map<Role, set<nat>>, vectors: map<nat, nat>, fences: nat, last: Option<Mutation>)

  const ROLES := {Upserts, Vectors, Fences, CreatesIndex, Rebuilds, MarksV1, MarksV2}

  const EMPTY_SCAN := Scan(map r | r in ROLES :: {}, map[], 0, None)

  lemma AllRoles(r: Role)
    ensures r in ROLES
  {
  }

  function Written(vectors: map<nat, nat>, index: nat): nat { if index in vectors then vectors[index] else 0 }

  ghost predicate Known(touched: map<Role, set<nat>>) { forall r: Role :: r in touched }

  // The last marker so far.
  ghost predicate LastMarker(mutations: seq<Mutation>, last: Option<Mutation>) {
    match last
    case None => forall i :: 0 <= i < |mutations| ==> !Marker(mutations[i].opcode)
    case Some(m) => mutations != [] && mutations[|mutations| - 1] == m && Marker(m.opcode)
  }

  ghost predicate TouchedAre(mutations: seq<Mutation>, touched: map<Role, set<nat>>) {
    Known(touched) && forall r: Role :: touched[r] == Indexes(mutations, r)
  }

  ghost predicate CountsAre(mutations: seq<Mutation>, vectors: map<nat, nat>) {
    forall index :: Written(vectors, index) == VectorCount(mutations, index)
  }

  ghost predicate Scanned(mutations: seq<Mutation>, s: Scan) {
    && TouchedAre(mutations, s.touched) && CountsAre(mutations, s.vectors)
    && s.fences == FenceCount(mutations) && LastMarker(mutations, s.last)
  }

  function Touch(touched: map<Role, set<nat>>, m: Mutation): map<Role, set<nat>>
    requires Known(touched)
  {
    map r | r in ROLES :: if Plays(m.opcode, r) && m.target.Some? then touched[r] + {m.target.value} else touched[r]
  }

  function Count(vectors: map<nat, nat>, m: Mutation): map<nat, nat> {
    if C.Vector(m.opcode) && m.target.Some? then vectors[m.target.value := Written(vectors, m.target.value) + 1] else vectors
  }

  predicate MarkerNext(s: Scan, m: Mutation)
    requires Known(s.touched)
  {
    && MarkerFits(m)
    && (s.last.Some? ==> s.last.value.opcode == m.opcode && s.last.value.target.Some? && s.last.value.target.value < m.target.value)
    && (m.opcode == ANN_AUTHORITY_V2 ==>
         && OperationCount(m) == Written(s.vectors, m.target.value)
         && m.target.value !in s.touched[CreatesIndex] && m.target.value !in s.touched[Rebuilds])
  }

  predicate PlainNext(s: Scan, m: Mutation) {
    && s.last.None? && (OnIndex(m.opcode) ==> m.target.Some?)
    && (m.opcode == FENCE_VECTOR_ABSENCE ==> s.fences < S.MAX_OPERATIONS)
    && (C.Vector(m.opcode) && m.target.Some? ==> Written(s.vectors, m.target.value) + 1 < U32)
  }

  /** One mutation: none if a rule is broken. */
  function ScanOne(s: Scan, m: Mutation): Option<Scan>
    requires Known(s.touched)
  {
    if Marker(m.opcode) then
      if MarkerNext(s, m) then Some(s.(touched := Touch(s.touched, m), last := Some(m))) else None
    else if PlainNext(s, m) then
      Some(Scan(Touch(s.touched, m), Count(s.vectors, m), s.fences + (if m.opcode == FENCE_VECTOR_ABSENCE then 1 else 0), None))
    else None
  }

  predicate Closes(s: Scan)
    requires Known(s.touched)
  {
    && (s.last.Some? && s.last.value.opcode == ANN_AUTHORITY_V1 ==>
         s.touched[Upserts] == s.touched[MarksV1] && s.touched[Fences] == {})
    && (s.last.Some? && s.last.value.opcode == ANN_AUTHORITY_V2 ==>
         s.touched[Vectors] - s.touched[CreatesIndex] - s.touched[Rebuilds] == s.touched[MarksV2])
  }

  lemma NothingScanned()
    ensures Kept([]) && Scanned([], EMPTY_SCAN)
  {
    forall r: Role ensures r in EMPTY_SCAN.touched && EMPTY_SCAN.touched[r] == Indexes([], r) {
      AllRoles(r);
    }
  }

  // Earlier markers are in order with the next one exactly when the last of them is.
  lemma LastDecides(before: seq<Mutation>, last: Option<Mutation>, m: Mutation)
    requires Sorted(before) && LastMarker(before, last)
    ensures (forall i :: 0 <= i < |before| && Marker(before[i].opcode) ==> InOrder(before[i], m)) <==> last.None? || InOrder(last.value, m)
  {
    if last.Some? && InOrder(last.value, m) {
      var n := |before| - 1;
      forall i | 0 <= i < |before| && Marker(before[i].opcode) ensures InOrder(before[i], m) {
        if i < n { assert InOrder(before[i], before[n]); }
      }
    }
  }

  lemma MarkerKeepsIff(before: seq<Mutation>, s: Scan, m: Mutation)
    requires Kept(before) && Scanned(before, s) && Marker(m.opcode)
    ensures MarkerNext(s, m) <==> Keeps(before, m)
  {
    LastDecides(before, s.last, m);
  }

  lemma PlainKeepsIff(before: seq<Mutation>, s: Scan, m: Mutation)
    requires Kept(before) && Scanned(before, s) && !Marker(m.opcode)
    ensures PlainNext(s, m) <==> Keeps(before, m)
  {
    if s.last.Some? {
      var n := |before| - 1;
      assert Marker(before[n].opcode);
    }
  }

  lemma TouchSnoc(before: seq<Mutation>, touched: map<Role, set<nat>>, m: Mutation)
    requires TouchedAre(before, touched)
    ensures TouchedAre(before + [m], Touch(touched, m))
  {
    forall r: Role ensures r in Touch(touched, m) && Touch(touched, m)[r] == Indexes(before + [m], r) {
      AllRoles(r);
      IndexesSnoc(before, m, r);
    }
  }

  lemma CountsSnoc(before: seq<Mutation>, vectors: map<nat, nat>, m: Mutation)
    requires CountsAre(before, vectors)
    ensures CountsAre(before + [m], Count(vectors, m))
  {
    forall index ensures Written(Count(vectors, m), index) == VectorCount(before + [m], index) {
      CountSnoc(before, m, index);
    }
  }

  lemma MarkerKeepsCounts(before: seq<Mutation>, vectors: map<nat, nat>, m: Mutation)
    requires CountsAre(before, vectors) && Marker(m.opcode)
    ensures CountsAre(before + [m], vectors)
  {
    CountsSnoc(before, vectors, m);
  }

  lemma ScannedSnoc(before: seq<Mutation>, s: Scan, m: Mutation)
    requires Scanned(before, s) && ScanOne(s, m).Some?
    ensures Scanned(before + [m], ScanOne(s, m).value)
  {
    TouchSnoc(before, s.touched, m);
    CountsSnoc(before, s.vectors, m);
    if Marker(m.opcode) { MarkerKeepsCounts(before, s.vectors, m); }
    CountSnoc(before, m, 0);
    assert (before + [m])[|before|] == m;
  }

  lemma ScanKeeps(before: seq<Mutation>, s: Scan, m: Mutation)
    requires Kept(before) && Scanned(before, s)
    ensures ScanOne(s, m).Some? <==> Keeps(before, m)
    ensures ScanOne(s, m).Some? ==> Scanned(before + [m], ScanOne(s, m).value)
  {
    if Marker(m.opcode) { MarkerKeepsIff(before, s, m); } else { PlainKeepsIff(before, s, m); }
    if ScanOne(s, m).Some? { ScannedSnoc(before, s, m); }
  }

  predicate Marks(role: Role, o: Opcode) { (role == MarksV1 && o == ANN_AUTHORITY_V1) || (role == MarksV2 && o == ANN_AUTHORITY_V2) }

  // All markers have the version of the last one.
  lemma VersionOfLast(mutations: seq<Mutation>, last: Option<Mutation>, role: Role, o: Opcode)
    requires Sorted(mutations) && LastMarker(mutations, last) && Marks(role, o) && Indexes(mutations, role) != {}
    ensures last.Some? && last.value.opcode == o
  {
    var t :| t in Indexes(mutations, role);
    var i :| 0 <= i < |mutations| && Plays(mutations[i].opcode, role) && mutations[i].target == Some(t);
    if i < |mutations| - 1 { assert last.Some? ==> InOrder(mutations[i], mutations[|mutations| - 1]); }
  }

  lemma LastIsIndexed(mutations: seq<Mutation>, last: Option<Mutation>, role: Role, o: Opcode)
    requires LastMarker(mutations, last) && Marks(role, o) && last.Some? && last.value.opcode == o && Typed(last.value)
    ensures Indexes(mutations, role) != {}
  {
    assert mutations[|mutations| - 1].target.value in Indexes(mutations, role);
  }

  lemma MarkedAs(mutations: seq<Mutation>, last: Option<Mutation>, role: Role, o: Opcode)
    requires Kept(mutations) && LastMarker(mutations, last) && Marks(role, o)
    ensures Indexes(mutations, role) != {} <==> last.Some? && last.value.opcode == o
  {
    if Indexes(mutations, role) != {} { VersionOfLast(mutations, last, role, o); }
    if last.Some? && last.value.opcode == o {
      assert Typed(mutations[|mutations| - 1]);
      LastIsIndexed(mutations, last, role, o);
    }
  }

  lemma ClosesIff(mutations: seq<Mutation>, s: Scan)
    requires Kept(mutations) && Scanned(mutations, s)
    ensures Closes(s) <==> Complete(mutations)
  {
    MarkedAs(mutations, s.last, MarksV1, ANN_AUTHORITY_V1);
    MarkedAs(mutations, s.last, MarksV2, ANN_AUTHORITY_V2);
  }

  /** The validator's loop accepts a list exactly when the rules hold. */
  method ValidateMarkers(mutations: seq<Mutation>) returns (ok: bool)
    ensures ok <==> MarkersFit(mutations)
  {
    var s := EMPTY_SCAN;
    NothingScanned();
    for i := 0 to |mutations|
      invariant Kept(mutations[..i]) && Scanned(mutations[..i], s)
    {
      var next := ScanOne(s, mutations[i]);
      assert mutations[..i + 1] == mutations[..i] + [mutations[i]];
      ScanKeeps(mutations[..i], s, mutations[i]);
      KeptSnoc(mutations[..i], mutations[i]);
      if next.None? {
        if Kept(mutations) { KeptPrefix(mutations, i + 1); }
        return false;
      }
      s := next.value;
    }
    assert mutations[..|mutations|] == mutations;
    ClosesIff(mutations, s);
    ok := Closes(s);
  }

  // ---- what the rules speak of ----

  /** The opcodes of every role, row by row. */
  lemma RoleRows(o: Opcode)
    ensures Plays(o, Upserts) <==> o == 18
    ensures Plays(o, Vectors) <==> o == 18 || o == 19
    ensures Plays(o, Fences) <==> o == 57
    ensures Plays(o, CreatesIndex) <==> o == 17
    ensures Plays(o, Rebuilds) <==> o == 50 || o == 53
    ensures (Plays(o, MarksV1) <==> o == 55) && (Plays(o, MarksV2) <==> o == 56)
    ensures Marker(o) <==> o == 55 || o == 56
    ensures OnIndex(o) <==> o in {17, 18, 19, 50, 53, 55, 56, 57}
  {
  }

  ghost predicate Says(m: Mutation, a: S.Authority) {
    S.AuthorityFits(a) && S.AuthoritySound(a) && m.target == Some(a.index) && m.value == S.EncodeAuthority(a)
  }

  /** A marker on its own fits exactly when it is a bare search mutation of an index whose value is the
      first version's fixed text or the encoding of a sound authority for that index; that authority's
      number of operations is the one counted. */
  lemma MarkerFitsIff(m: Mutation)
    requires Marker(m.opcode)
    ensures MarkerFits(m) <==>
      && m.engine == Search && m.key == [] && m.expires.None? && m.target.Some?
      && if m.opcode == 55 then m.value == [72, 89, 65, 78, 78, 65, 48, 49, 0, 0, 0, 0, 0, 0, 0, 0] else exists a :: Says(m, a)
    ensures forall a :: Says(m, a) ==> OperationCount(m) == a.count
  {
    forall a | Says(m, a) ensures S.DecodeAuthority(m.value, m.target) == Some(a) {
      S.AuthorityReadsBackIff(a);
    }
    if m.opcode == ANN_AUTHORITY_V1 {
      if |m.value| == 16 {
        F.PlainAuthorityIff(m.value);
        assert Zeros(8) == [0, 0, 0, 0, 0, 0, 0, 0];
      }
    } else if S.DecodeAuthority(m.value, m.target).Some? {
      F.AuthorityWritten(m.value, m.target);
      assert Says(m, S.DecodeAuthority(m.value, m.target).value);
    }
  }
}
