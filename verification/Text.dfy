/** Splitting text at a separator and joining it again; lower-case hexadecimal. */
module Text {
  import opened Sorting

  predicate IsHex(s: string) {
    forall i :: 0 <= i < |s| ==> '0' <= s[i] <= '9' || 'a' <= s[i] <= 'f'
  }

  ghost predicate LowerHex(s: string, n: nat) {
    |s| == n && forall i :: 0 <= i < n ==> s[i] in "0123456789abcdef"
  }

  lemma HexDigitIff(c: char)
    ensures c in "0123456789abcdef" <==> '0' <= c <= '9' || 'a' <= c <= 'f'
  {
    var hex := "0123456789abcdef";
    assert '0' <= c <= '9' ==> hex[c as int - '0' as int] == c;
    assert 'a' <= c <= 'f' ==> hex[c as int - 'a' as int + 10] == c;
  }

  lemma HexIff(s: string)
    ensures LowerHex(s, |s|) <==> IsHex(s)
  {
    forall i | 0 <= i < |s| ensures s[i] in "0123456789abcdef" <==> '0' <= s[i] <= '9' || 'a' <= s[i] <= 'f' {
      HexDigitIff(s[i]);
    }
  }

  function Split(s: string, separator: char): (fields: seq<string>)
    ensures fields != []
  {
    if s == [] then [""]
    else
      var rest := Split(s[1..], separator);
      if s[0] == separator then [""] + rest else [[s[0]] + rest[0]] + rest[1..]
  }

  function Join(fields: seq<string>, separator: char): string
    requires fields != []
  {
    if |fields| == 1 then fields[0] else fields[0] + [separator] + Join(fields[1..], separator)
  }

  function Is(separator: char): char -> bool { c => c == separator }

  lemma {:induction false} SplitFields(s: string, separator: char)
    ensures forall i :: 0 <= i < |Split(s, separator)| ==> separator !in Split(s, separator)[i]
    ensures |Split(s, separator)| == 1 + Count(Is(separator), s)
  {
    if s != [] {
      SplitFields(s[1..], separator);
      var rest := Split(s[1..], separator);
      assert separator !in rest[0];
    }
  }

  lemma {:induction false} SplitFirst(field: string, rest: string, separator: char)
    requires separator !in field
    ensures Split(field + [separator] + rest, separator) == [field] + Split(rest, separator)
  {
    var s := field + [separator] + rest;
    if field == [] {
      assert s[1..] == rest;
    } else {
      assert s[1..] == field[1..] + [separator] + rest;
      SplitFirst(field[1..], rest, separator);
      assert [field[0]] + field[1..] == field;
    }
  }

  lemma {:induction false} SplitWhole(field: string, separator: char)
    requires separator !in field
    ensures Split(field, separator) == [field]
  {
    if field != [] {
      SplitWhole(field[1..], separator);
      assert [field[0]] + field[1..] == field;
    }
  }

  /** Splitting undoes joining when no field holds the separator. */
  lemma {:induction false} SplitOfJoin(fields: seq<string>, separator: char)
    requires fields != [] && forall i :: 0 <= i < |fields| ==> separator !in fields[i]
    ensures Split(Join(fields, separator), separator) == fields
  {
    if |fields| == 1 {
      SplitWhole(fields[0], separator);
    } else {
      SplitFirst(fields[0], Join(fields[1..], separator), separator);
      SplitOfJoin(fields[1..], separator);
      assert [fields[0]] + fields[1..] == fields;
    }
  }

  lemma {:induction false} JoinOfSplit(s: string, separator: char)
    ensures Join(Split(s, separator), separator) == s
  {
    if s != [] {
      var rest := Split(s[1..], separator);
      JoinOfSplit(s[1..], separator);
      if s[0] == separator {
        assert ([""] + rest)[1..] == rest;
      } else {
        var first := [[s[0]] + rest[0]] + rest[1..];
        assert first[1..] == rest[1..];
      }
      assert s == [s[0]] + s[1..];
    }
  }

  lemma {:induction false} CountMember(s: string, c: char)
    ensures c in s <==> Count(Is(c), s) > 0
  {
    if s != [] { CountMember(s[1..], c); }
  }

  lemma {:induction false} JoinSeparators(fields: seq<string>, separator: char)
    requires fields != []
    ensures Count(Is(separator), Join(fields, separator)) >= |fields| - 1
    ensures (exists i :: 0 <= i < |fields| && separator in fields[i]) ==>
      Count(Is(separator), Join(fields, separator)) > |fields| - 1
  {
    CountMember(fields[0], separator);
    if |fields| > 1 {
      JoinSeparators(fields[1..], separator);
      var rest := Join(fields[1..], separator);
      CountConcat(Is(separator), fields[0] + [separator], rest);
      CountConcat(Is(separator), fields[0], [separator]);
      if i :| 1 <= i < |fields| && separator in fields[i] { assert fields[1..][i - 1] == fields[i]; }
    }
  }

  /** A separator inside a field shows up as an extra field. */
  lemma JoinedFieldGrows(fields: seq<string>, separator: char, i: nat)
    requires i < |fields| && separator in fields[i]
    ensures |Split(Join(fields, separator), separator)| > |fields|
  {
    JoinSeparators(fields, separator);
    SplitFields(Join(fields, separator), separator);
  }
}
