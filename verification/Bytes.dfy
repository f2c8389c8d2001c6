/** Little-endian integers and fixed-width field layouts over byte strings. */
module Bytes {

  type Byte = n: int | 0 <= n < 256

  type ByteString = seq<Byte>

  const U16 := 0x1_0000
  const U32 := 0x1_0000_0000
  const U64 := 0x1_0000_0000_0000_0000
  const U128 := 0x1_0000_0000_0000_0000_0000_0000_0000_0000

  function Pow256(k: nat): (p: int)
    ensures p >= 1
  {
    if k == 0 then 1 else 256 * Pow256(k - 1)
  }

  lemma Widths()
    ensures Pow256(1) == 256 && Pow256(2) == U16 && Pow256(4) == U32 && Pow256(8) == U64 && Pow256(16) == U128
  {
    assert Pow256(3) == 0x100_0000;
    assert Pow256(6) == 0x1_0000_0000_0000;
    assert Pow256(10) == 0x1_0000_0000_0000_0000_0000;
    assert Pow256(12) == 0x1_0000_0000_0000_0000_0000_0000;
    assert Pow256(14) == 0x1_0000_0000_0000_0000_0000_0000_0000;
  }

  function Zeros(n: nat): (z: ByteString)
    ensures |z| == n && forall i :: 0 <= i < n ==> z[i] == 0
  {
    seq(n, i => 0)
  }

  predicate AllZero(b: ByteString) {
    forall i :: 0 <= i < |b| ==> b[i] == 0
  }

  // As many low bytes of v as there are places, least significant first.
  function Digits(places: ByteString, v: nat): (b: ByteString)
    ensures |b| == |places|
  {
    if places == [] then [] else [v % 256] + Digits(places[1..], v / 256)
  }

  function Le(k: nat, v: nat): (b: ByteString)
    ensures |b| == k
  {
    Digits(Zeros(k), v)
  }

  function ReadLe(b: ByteString): nat {
    if b == [] then 0 else b[0] + 256 * ReadLe(b[1..])
  }

  lemma {:induction false} ReadOfDigits(places: ByteString, v: nat)
    requires v < Pow256(|places|)
    ensures ReadLe(Digits(places, v)) == v
  {
    if places != [] {
      assert v / 256 < Pow256(|places| - 1);
      ReadOfDigits(places[1..], v / 256);
      assert Digits(places, v)[1..] == Digits(places[1..], v / 256);
    }
  }

  lemma ReadOfLe(k: nat, v: nat)
    requires v < Pow256(k)
    ensures ReadLe(Le(k, v)) == v
  {
    ReadOfDigits(Zeros(k), v);
  }

  lemma LowByte(x: Byte, v: nat)
    ensures (x + 256 * v) % 256 == x && (x + 256 * v) / 256 == v
  {
  }

  lemma {:induction false} DigitsOfRead(places: ByteString, b: ByteString)
    requires |places| == |b|
    ensures ReadLe(b) < Pow256(|b|)
    ensures Digits(places, ReadLe(b)) == b
  {
    if b != [] {
      DigitsOfRead(places[1..], b[1..]);
      LowByte(b[0], ReadLe(b[1..]));
      assert b == [b[0]] + b[1..];
    }
  }

  lemma LeOfRead(b: ByteString)
    ensures ReadLe(b) < Pow256(|b|)
    ensures Le(|b|, ReadLe(b)) == b
  {
    DigitsOfRead(Zeros(|b|), b);
  }

  function Reversed(b: ByteString): (r: ByteString)
    ensures |r| == |b| && forall i :: 0 <= i < |b| ==> r[i] == b[|b| - 1 - i]
  {
    seq(|b|, i requires 0 <= i < |b| => b[|b| - 1 - i])
  }

  function BigEndian(k: nat, v: nat): (b: ByteString)
    ensures |b| == k
  {
    Reversed(Le(k, v))
  }

  function ReadBig(b: ByteString): nat { ReadLe(Reversed(b)) }

  lemma ReadOfBig(k: nat, v: nat)
    requires v < Pow256(k)
    ensures ReadBig(BigEndian(k, v)) == v
  {
    assert Reversed(Reversed(Le(k, v))) == Le(k, v);
    ReadOfLe(k, v);
  }

  lemma BigOfRead(b: ByteString)
    ensures ReadBig(b) < Pow256(|b|)
    ensures BigEndian(|b|, ReadBig(b)) == b
  {
    LeOfRead(Reversed(b));
    assert Reversed(Reversed(b)) == b;
  }

  // ---- layouts ----

  function Total(widths: seq<nat>): nat {
    if widths == [] then 0 else widths[0] + Total(widths[1..])
  }

  /** The fields of the given widths, and what follows them as the last field. */
  function Split(widths: seq<nat>, s: ByteString): (fields: seq<ByteString>)
    requires Total(widths) <= |s|
    ensures |fields| == |widths| + 1
  {
    if widths == [] then [s] else [s[..widths[0]]] + Split(widths[1..], s[widths[0]..])
  }

  function Join(fields: seq<ByteString>): ByteString {
    if fields == [] then [] else fields[0] + Join(fields[1..])
  }

  ghost predicate Shaped(widths: seq<nat>, fields: seq<ByteString>) {
    |fields| == |widths| + 1 && forall i :: 0 <= i < |widths| ==> |fields[i]| == widths[i]
  }

  lemma {:induction false} JoinLength(widths: seq<nat>, fields: seq<ByteString>)
    requires Shaped(widths, fields)
    ensures |Join(fields)| == Total(widths) + |fields[|widths|]|
  {
    if widths != [] {
      JoinLength(widths[1..], fields[1..]);
    } else {
      assert fields == [fields[0]];
    }
  }

  lemma {:induction false} SplitOfJoin(widths: seq<nat>, fields: seq<ByteString>)
    requires Shaped(widths, fields)
    ensures Total(widths) <= |Join(fields)|
    ensures Split(widths, Join(fields)) == fields
  {
    JoinLength(widths, fields);
    if widths != [] {
      var rest := Join(fields[1..]);
      SplitOfJoin(widths[1..], fields[1..]);
      assert Join(fields)[..widths[0]] == fields[0] && Join(fields)[widths[0]..] == rest;
    } else {
      assert fields == [fields[0]];
      assert fields[0] + [] == fields[0];
    }
  }

  lemma {:induction false} JoinOfSplit(widths: seq<nat>, s: ByteString)
    requires Total(widths) <= |s|
    ensures Shaped(widths, Split(widths, s))
    ensures Join(Split(widths, s)) == s
    ensures |Split(widths, s)[|widths|]| == |s| - Total(widths)
  {
    if widths != [] {
      JoinOfSplit(widths[1..], s[widths[0]..]);
      assert Split(widths, s)[1..] == Split(widths[1..], s[widths[0]..]);
      assert s == s[..widths[0]] + s[widths[0]..];
    } else {
      assert Join([s]) == s + [];
    }
  }
}
