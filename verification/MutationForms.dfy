/**
  The opcode table: for every opcode what its mutations look like, and the records that the values of
  maintenance opcodes encode.  The rules that recovery applies amount to exactly this.
*/
module MutationForms {
  import opened Bytes
  import opened MutationShape
  import opened Results
  import opened WalBlock
  import opened WalMutation

  datatype Need = Must | MustNot | May

  datatype KeyForm = AnyKey | NoKey | SomeKey | MemberKey | VectorKey

  datatype ValueForm = AnyValue | Empty | SomeValue | Floats | Long(least: nat) | Exactly(size: nat) | Either(small: nat, large: nat)

  datatype Form = Form(target: Need, key: KeyForm, value: ValueForm, expiry: Need)

  /** The table, by opcode. */
  ghost function FormOf(o: Opcode): Form {
    match o
    case 1 | 2 | 5 | 6 | 13 | 37 => Form(Must, AnyKey, AnyValue, MustNot)       // tables, rows, documents
    case 4 => Form(Must, AnyKey, AnyValue, May)                                 // a lexical index
    case 7 | 38 => Form(Must, AnyKey, Empty, MustNot)                           // deleted rows and documents
    case 40 | 43 => Form(Must, NoKey, Empty, MustNot)                           // dropped tables and indexes
    case 41 => Form(Must, SomeKey, SomeValue, MustNot)                          // a renamed table
    case 17 => Form(Must, AnyKey, Long(20), MustNot)                            // an ANN index
    case 18 => Form(Must, VectorKey, Floats, MustNot)
    case 19 | 57 => Form(Must, VectorKey, Empty, MustNot)
    case 3 => Form(MustNot, AnyKey, AnyValue, May)                              // a value
    case 9 => Form(MustNot, AnyKey, AnyValue, Must)
    case 8 | 10 | 14 | 20 | 25 | 30 | 34 | 35 | 44 | 46 | 48 => Form(MustNot, AnyKey, Empty, MustNot)
    case 31 | 33 | 36 | 47 | 49 => Form(MustNot, AnyKey, Empty, Must)
    case 21 | 22 | 23 | 24 => Form(MustNot, AnyKey, AnyValue, MustNot)          // list ends
    case 45 => Form(MustNot, SomeKey, SomeValue, MustNot)                       // a stream entry
    case 11 => Form(MustNot, MemberKey, AnyValue, MustNot)
    case 12 | 15 | 16 | 27 => Form(MustNot, MemberKey, Empty, MustNot)
    case 26 => Form(MustNot, MemberKey, Exactly(8), MustNot)                    // a score
    case 32 => Form(MustNot, MemberKey, Empty, Must)
    case 28 | 29 | 39 | 42 | 54 => Form(MustNot, NoKey, Empty, MustNot)         // compactions, migrations, vacuum
    case 52 => Form(MustNot, SomeKey, Exactly(4), MustNot)
    case 51 => Form(Must, SomeKey, SomeValue, MustNot)
    case 50 => Form(Must, NoKey, Either(112, 384), MustNot)
    case 53 => Form(Must, NoKey, Exactly(160), MustNot)
    case 55 => Form(Must, NoKey, Exactly(16), MustNot)
    case 56 => Form(Must, NoKey, Exactly(184), MustNot)
  }

  ghost predicate Meets<T>(need: Need, x: Option<T>) { (need.Must? ==> x.Some?) && (need.MustNot? ==> x.None?) }

  ghost predicate KeyMeets(form: KeyForm, key: ByteString) {
    match form
    case AnyKey => true
    case NoKey => key == []
    case SomeKey => key != []
    case MemberKey => exists collection: ByteString, member: ByteString :: |collection| < U32 && key == BigEndian(4, |collection|) + collection + member
    case VectorKey => |key| == 16
  }

  ghost predicate ValueMeets(form: ValueForm, value: ByteString) {
    match form
    case AnyValue => true
    case Empty => value == []
    case SomeValue => value != []
    case Floats => value != [] && |value| % 4 == 0
    case Long(least) => |value| >= least
    case Exactly(size) => |value| == size
    case Either(small, large) => |value| == small || |value| == large
  }

  ghost predicate HasForm(m: Mutation, f: Form) {
    Meets(f.target, m.target) && KeyMeets(f.key, m.key) && ValueMeets(f.value, m.value) && Meets(f.expiry, m.expires)
  }

  // ---- values ----

  // None of the 32-byte identities is all zero.
  ghost predicate AllNonzero(identities: ByteString, count: nat) {
    |identities| == 32 * count && forall i :: 0 <= i < count ==> SomeNonzero(identities, i)
  }

  ghost predicate SomeNonzero(b: ByteString, i: nat) { exists j :: 32 * i <= j < 32 * i + 32 && j < |b| && b[j] != 0 }

  lemma ChunkIff(b: ByteString, i: nat)
    requires 32 * i + 32 <= |b|
    ensures NonzeroAt(b, i) <==> SomeNonzero(b, i)
  {
    var chunk := b[32 * i..32 * i + 32];
    if j :| 32 * i <= j < 32 * i + 32 && j < |b| && b[j] != 0 { assert chunk[j - 32 * i] == b[j]; }
    if !AllZero(chunk) {
      var k :| 0 <= k < |chunk| && chunk[k] != 0;
      assert b[32 * i + k] != 0;
    }
  }

  lemma IdentitiesIff(b: ByteString, count: nat)
    requires |b| == 32 * count
    ensures Identities(b) <==> AllNonzero(b, count)
  {
    assert |b| / 32 == count && |b| % 32 == 0;
    forall i | 0 <= i < count ensures NonzeroAt(b, i) <==> SomeNonzero(b, i) {
      ChunkIff(b, i);
    }
  }

  /** A consolidation of an ANN index in the old form: identities of base, overlay and result, and how
      many entries it took. */
  datatype OldConsolidation = OldConsolidation(identities: ByteString, count: nat)

  ghost function OldConsolidationBytes(c: OldConsolidation): ByteString { CONSOLIDATION_V1 + c.identities + Le(8, c.count) }

  ghost predicate OldConsolidationSound(c: OldConsolidation) { AllNonzero(c.identities, 3) && 1 <= c.count <= 4096 }

  lemma OldConsolidationIff(v: ByteString)
    requires |v| == 112
    ensures ConsolidationV1(v) <==> exists c :: OldConsolidationSound(c) && v == OldConsolidationBytes(c)
  {
    Widths();
    IdentitiesIff(v[8..104], 3);
    if ConsolidationV1(v) {
      var c := OldConsolidation(v[8..104], ReadLe(v[104..]));
      LeOfRead(v[104..]);
      assert v == v[..8] + v[8..104] + v[104..];
      assert OldConsolidationSound(c) && v == OldConsolidationBytes(c);
    }
    if c :| OldConsolidationSound(c) && v == OldConsolidationBytes(c) {
      assert v[..8] == CONSOLIDATION_V1 && v[8..104] == c.identities && v[104..] == Le(8, c.count);
      ReadOfLe(8, c.count);
    }
  }

  /** The first bulk publication of an index: four identities, partitions, vectors and the commit. */
  datatype Bulk = Bulk(identities: ByteString, partitions: nat, vectors: nat, csn: nat)

  ghost function BulkBytes(b: Bulk): ByteString { BULK_V1 + b.identities + Le(8, b.partitions) + Le(8, b.vectors) + Le(8, b.csn) }

  ghost predicate BulkSound(b: Bulk) { AllNonzero(b.identities, 4) && 1 <= b.partitions <= b.vectors < U64 && 1 <= b.csn < U64 }

  lemma BulkIff(v: ByteString)
    requires |v| == 160
    ensures BulkPublication(v) <==> exists b :: BulkSound(b) && v == BulkBytes(b)
  {
    Widths();
    IdentitiesIff(v[8..136], 4);
    LeOfRead(v[136..144]);
    LeOfRead(v[144..152]);
    LeOfRead(v[152..]);
    if BulkPublication(v) {
      var b := Bulk(v[8..136], ReadLe(v[136..144]), ReadLe(v[144..152]), ReadLe(v[152..]));
      assert v == v[..8] + v[8..136] + v[136..144] + v[144..152] + v[152..];
      assert BulkSound(b) && v == BulkBytes(b);
    }
    if b :| BulkSound(b) && v == BulkBytes(b) {
      assert v[..8] == BULK_V1 && v[8..136] == b.identities;
      assert v[136..144] == Le(8, b.partitions) && v[144..152] == Le(8, b.vectors) && v[152..] == Le(8, b.csn);
      ReadOfLe(8, b.partitions);
      ReadOfLe(8, b.vectors);
      ReadOfLe(8, b.csn);
    }
  }

  /** A consolidation in the present form: the index, its layouts before and after, nine identities, and
      what was captured, consumed, preserved and is in effect. */
  datatype Consolidation = Consolidation(
    index: nat, prior: Byte, identities: ByteString, capturedNext: nat, captured: nat, priorNext: nat, consumed: nat, preserved: nat, effective: nat)

  ghost function ConsolidationHead(c: Consolidation): ByteString { CONSOLIDATION_V2 + BigEndian(16, c.index) + [c.prior, 5] + Zeros(6) }

  ghost function ConsolidationTail(c: Consolidation): ByteString {
    Le(8, c.capturedNext) + Le(8, c.captured) + Le(8, c.priorNext) + Le(8, c.priorNext) + Le(8, c.consumed) + Le(8, c.preserved) + Le(8, c.effective) + Zeros(8)
  }

  ghost predicate ConsolidationSound(c: Consolidation) {
    && 0 < c.index < U128 && (c.prior == 4 || c.prior == 5) && AllNonzero(c.identities, 9)
    && 1 <= c.captured <= 4096 && c.consumed <= c.captured && c.preserved <= 4096 && c.effective <= 1000000
    && 1 <= c.capturedNext <= c.priorNext < U64
  }

  ghost predicate Says(v: ByteString, c: Consolidation) { v == ConsolidationHead(c) + c.identities + ConsolidationTail(c) }

  lemma ZerosIff(b: ByteString)
    ensures AllZero(b) <==> b == Zeros(|b|)
  {
  }

  lemma HeadIff(h: ByteString, c: Consolidation)
    requires |h| == 32 && c.index < U128
    ensures h == ConsolidationHead(c) <==>
      h[..8] == CONSOLIDATION_V2 && ReadBig(h[8..24]) == c.index && h[24] == c.prior && h[25] == 5 && AllZero(h[26..32])
  {
    Widths();
    ZerosIff(h[26..32]);
    BigOfRead(h[8..24]);
    ReadOfBig(16, c.index);
    var made := ConsolidationHead(c);
    assert made[..8] == CONSOLIDATION_V2 && made[8..24] == BigEndian(16, c.index) && made[24] == c.prior && made[25] == 5 && made[26..32] == Zeros(6);
    assert h == h[..8] + h[8..24] + [h[24], h[25]] + h[26..32];
    assert made == made[..8] + made[8..24] + [made[24], made[25]] + made[26..32];
  }

  lemma NumberIff(b: ByteString, n: nat)
    requires |b| == 8 && n < U64
    ensures b == Le(8, n) <==> ReadLe(b) == n
  {
    Widths();
    LeOfRead(b);
    ReadOfLe(8, n);
  }

  lemma TailParts(t: ByteString)
    requires |t| == 64
    ensures t == t[..8] + t[8..16] + t[16..24] + t[24..32] + t[32..40] + t[40..48] + t[48..56] + t[56..]
  {
  }

  lemma TailIff(t: ByteString, c: Consolidation)
    requires |t| == 64 && c.capturedNext < U64 && c.captured < U64 && c.priorNext < U64 && c.consumed < U64 && c.preserved < U64 && c.effective < U64
    ensures t == ConsolidationTail(c) <==>
      && ReadLe(t[..8]) == c.capturedNext && ReadLe(t[8..16]) == c.captured && ReadLe(t[16..24]) == c.priorNext && ReadLe(t[24..32]) == c.priorNext
      && ReadLe(t[32..40]) == c.consumed && ReadLe(t[40..48]) == c.preserved && ReadLe(t[48..56]) == c.effective && AllZero(t[56..])
  {
    NumberIff(t[..8], c.capturedNext);
    NumberIff(t[8..16], c.captured);
    NumberIff(t[16..24], c.priorNext);
    NumberIff(t[24..32], c.priorNext);
    NumberIff(t[32..40], c.consumed);
    NumberIff(t[40..48], c.preserved);
    NumberIff(t[48..56], c.effective);
    ZerosIff(t[56..]);
    TailParts(t);
    TailFields(c);
  }

  lemma TailFields(c: Consolidation)
    ensures var t := ConsolidationTail(c);
      && |t| == 64 && t[..8] == Le(8, c.capturedNext) && t[8..16] == Le(8, c.captured) && t[16..24] == Le(8, c.priorNext)
      && t[24..32] == Le(8, c.priorNext) && t[32..40] == Le(8, c.consumed) && t[40..48] == Le(8, c.preserved)
      && t[48..56] == Le(8, c.effective) && t[56..] == Zeros(8)
  {
  }

  // The record that a value of that length can stand for.
  ghost function ReadConsolidation(v: ByteString): Consolidation
    requires |v| == 384
  {
    Consolidation(ReadBig(v[8..24]), v[24], v[32..320], ReadLe(v[320..328]), ReadLe(v[328..336]), ReadLe(v[336..344]), ReadLe(v[352..360]),
                  ReadLe(v[360..368]), ReadLe(v[368..376]))
  }

  lemma SaysParts(v: ByteString, c: Consolidation)
    requires |v| == 384 && |c.identities| == 288
    ensures Says(v, c) <==> v[..32] == ConsolidationHead(c) && v[32..320] == c.identities && v[320..] == ConsolidationTail(c)
  {
    assert v == v[..32] + v[32..320] + v[320..];
    var made := ConsolidationHead(c) + c.identities + ConsolidationTail(c);
    TailFields(c);
    assert made[..32] == ConsolidationHead(c) && made[32..320] == c.identities && made[320..] == ConsolidationTail(c);
  }

  lemma Slices(v: ByteString)
    requires |v| == 384
    ensures v[..32][..8] == v[..8] && v[..32][8..24] == v[8..24] && v[..32][26..32] == v[26..32]
    ensures var t := v[320..];
      && t[..8] == v[320..328] && t[8..16] == v[328..336] && t[16..24] == v[336..344] && t[24..32] == v[344..352] && t[32..40] == v[352..360]
      && t[40..48] == v[360..368] && t[48..56] == v[368..376] && t[56..] == v[376..]
  {
  }

  lemma SaysIff(v: ByteString, c: Consolidation)
    requires |v| == 384 && ConsolidationSound(c)
    ensures Says(v, c) <==>
      && v[..8] == CONSOLIDATION_V2 && v[25] == 5 && AllZero(v[26..32]) && AllZero(v[376..])
      && c == ReadConsolidation(v) && ReadLe(v[344..352]) == ReadLe(v[336..344])
  {
    Slices(v);
    SaysParts(v, c);
    HeadIff(v[..32], c);
    TailIff(v[320..], c);
  }

  lemma ReadFits(v: ByteString)
    requires |v| == 384
    ensures ReadBig(v[8..24]) < U128 && ReadLe(v[336..344]) < U64
  {
    Widths();
    BigOfRead(v[8..24]);
    LeOfRead(v[336..344]);
  }

  lemma ConsolidationIff(v: ByteString, target: Option<nat>)
    requires |v| == 384
    ensures ConsolidationV2(v, target) <==> exists c :: ConsolidationSound(c) && target == Some(c.index) && Says(v, c)
  {
    IdentitiesIff(v[32..320], 9);
    ReadFits(v);
    if ConsolidationV2(v, target) {
      var c := ReadConsolidation(v);
      assert ConsolidationSound(c);
      SaysIff(v, c);
    }
    if c :| ConsolidationSound(c) && target == Some(c.index) && Says(v, c) {
      SaysIff(v, c);
    }
  }

  // ---- the table is what recovery asks ----

  /** The engine of every opcode. */
  lemma EngineRows(o: Opcode)
    ensures EngineOfOpcode(o) == Kernel <==> o in {29, 51, 54}
    ensures EngineOfOpcode(o) == Relational <==> o in {1, 2, 6, 7, 13, 40, 41, 43}
    ensures EngineOfOpcode(o) == Search <==> o in {4, 5, 17, 18, 19, 37, 38, 39, 50, 53, 55, 56, 57}
  {
  }

  lemma RowsAndIndexes(m: Mutation)
    requires m.opcode in {1, 2, 4, 5, 6, 7, 13, 17, 18, 19, 37, 38, 40, 41, 43, 57}
    ensures ShapeFits(m) <==> HasForm(m, FormOf(m.opcode))
  {
  }

  lemma Values(m: Mutation)
    requires m.opcode in {3, 8, 9, 10, 14, 20, 21, 22, 23, 24, 25, 30, 31, 33, 34, 35, 36, 44, 45, 46, 47, 48, 49}
    ensures ShapeFits(m) <==> HasForm(m, FormOf(m.opcode))
  {
  }

  lemma Members(m: Mutation)
    requires m.opcode in {11, 12, 15, 16, 26, 27, 32}
    ensures ShapeFits(m) <==> HasForm(m, FormOf(m.opcode))
  {
    MemberIdentityIff(m.key);
  }

  lemma Upkeep(m: Mutation)
    requires m.opcode in {28, 29, 39, 42, 50, 51, 52, 53, 54, 55, 56}
    ensures ShapeFits(m) <==> HasForm(m, FormOf(m.opcode))
  {
  }

  /** A mutation has the shape of its opcode exactly when the table says so. */
  lemma ShapeIff(m: Mutation)
    ensures ShapeFits(m) <==> HasForm(m, FormOf(m.opcode))
  {
    if m.opcode in {11, 12, 15, 16, 26, 27, 32} {
      Members(m);
    } else if m.opcode in {28, 29, 39, 42, 50, 51, 52, 53, 54, 55, 56} {
      Upkeep(m);
    } else if m.opcode in {1, 2, 4, 5, 6, 7, 13, 17, 18, 19, 37, 38, 40, 41, 43, 57} {
      RowsAndIndexes(m);
    } else {
      Values(m);
    }
  }

  /** What the value of a maintenance mutation must say. */
  ghost predicate SaysEnough(m: Mutation) {
    match m.opcode
    case 52 => exists budget: nat :: 2 <= budget <= 1024 && m.value == Le(4, budget)
    case 50 =>
      || (exists c :: OldConsolidationSound(c) && m.value == OldConsolidationBytes(c))
      || exists c :: ConsolidationSound(c) && m.target == Some(c.index) && Says(m.value, c)
    case 53 => exists b :: BulkSound(b) && m.value == BulkBytes(b)
    case 55 => m.value == AUTHORITY_V1 + Zeros(8)
    case 56 => exists a :: AuthorityFits(a) && AuthoritySound(a) && m.target == Some(a.index) && m.value == EncodeAuthority(a)
    case _ => true
  }

  lemma BudgetIff(v: ByteString)
    requires |v| == 4
    ensures 2 <= ReadLe(v) <= 1024 <==> exists budget: nat :: 2 <= budget <= 1024 && v == Le(4, budget)
  {
    Widths();
    LeOfRead(v);
    if budget: nat :| 2 <= budget <= 1024 && v == Le(4, budget) { ReadOfLe(4, budget); }
  }

  lemma PlainAuthorityIff(v: ByteString)
    requires |v| == 16
    ensures PlainAuthority(v) <==> v == AUTHORITY_V1 + Zeros(8)
  {
    ZerosIff(v[8..]);
    assert v == v[..8] + v[8..];
  }

  /** An accepted marker is the one encoding of a sound authority for its own index. */
  lemma AuthorityIff(v: ByteString, target: Option<nat>)
    requires |v| == 184
    ensures DecodeAuthority(v, target).Some? <==>
      exists a :: AuthorityFits(a) && AuthoritySound(a) && target == Some(a.index) && v == EncodeAuthority(a)
  {
    if DecodeAuthority(v, target).Some? {
      AuthorityWritten(v, target);
    }
    if a :| AuthorityFits(a) && AuthoritySound(a) && target == Some(a.index) && v == EncodeAuthority(a) {
      AuthorityReadsBackIff(a);
    }
  }

  lemma AuthorityWritten(v: ByteString, target: Option<nat>)
    requires DecodeAuthority(v, target).Some?
    ensures var a := DecodeAuthority(v, target).value; AuthorityFits(a) && AuthoritySound(a) && target == Some(a.index) && v == EncodeAuthority(a)
  {
    var w := AuthorityWidths();
    JoinOfSplit(w, v);
    FieldsAgain(Split(w, v), target);
  }

  lemma NumbersAgain(f: seq<ByteString>)
    requires AuthorityFieldWidths(f) && |f[11]| == 8
    ensures BigEndian(16, ReadBig(f[3])) == f[3] && Le(4, ReadLe(f[4])) == f[4] && Le(8, ReadLe(f[10])) == f[10] && Le(8, ReadLe(f[11])) == f[11]
    ensures ReadBig(f[3]) < U128 && ReadLe(f[4]) < U32 && ReadLe(f[10]) < U64 && ReadLe(f[11]) < U64
  {
    Widths();
    BigOfRead(f[3]);
    LeOfRead(f[4]);
    LeOfRead(f[10]);
    LeOfRead(f[11]);
  }

  lemma FieldsAgain(f: seq<ByteString>, target: Option<nat>)
    requires AuthorityFieldWidths(f) && |f[11]| == 8 && FinishAuthority(f, target).Some?
    ensures var a := FinishAuthority(f, target).value;
      AuthorityFits(a) && AuthoritySound(a) && target == Some(a.index) && AuthorityFields(a) == f
  {
    NumbersAgain(f);
    ZerosIff(f[2]);
    ZerosIff(f[5]);
    assert f[1] == [f[1][0]];
    assert AuthorityFields(FinishAuthority(f, target).value) == f;
  }

  /** Recovery's rules on a mutation are the table and the value rules, exactly. */
  lemma FitsIff(m: Mutation)
    ensures Fits(m) <==> HasForm(m, FormOf(m.opcode)) && SaysEnough(m)
  {
    ShapeIff(m);
    if HasForm(m, FormOf(m.opcode)) {
      match m.opcode
      case 52 => BudgetIff(m.value);
      case 50 =>
        if |m.value| == 112 {
          OldConsolidationIff(m.value);
          NoConsolidation(m.value);
        } else {
          ConsolidationIff(m.value, m.target);
          NoOldConsolidation(m.value);
        }
      case 53 => BulkIff(m.value);
      case 55 => PlainAuthorityIff(m.value);
      case 56 => AuthorityIff(m.value, m.target);
      case _ =>
    }
  }

  lemma NoConsolidation(v: ByteString)
    requires |v| == 112
    ensures !exists c :: ConsolidationSound(c) && Says(v, c)
  {
    forall c | ConsolidationSound(c) ensures !Says(v, c) {
      TailFields(c);
    }
  }

  lemma NoOldConsolidation(v: ByteString)
    requires |v| == 384
    ensures !exists c :: OldConsolidationSound(c) && v == OldConsolidationBytes(c)
  {
  }
}
