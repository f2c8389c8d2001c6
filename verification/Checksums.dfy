/** SHA256SUMS: writing the checksum file of a release directory, and verifying it. */
module Checksums {
  import opened Collections
  import opened Results
  import opened Text

  type Bytes = seq<bv8>

  /** The regular files of the release directory, by name. */
  type Directory = map<string, Bytes>

  type Hash = Bytes -> string

  datatype Failure = Failure

  const SUFFIXES: seq<string> :=
    [".tar.gz", ".zip", ".spdx.json", ".cdx.json", ".provenance.json", ".required-checks.json", ".release-evidence.json"]

  predicate EndsWith(s: string, suffix: string) {
    |suffix| <= |s| && s[|s| - |suffix|..] == suffix
  }

  predicate IsAsset(name: string) {
    exists i :: 0 <= i < |SUFFIXES| && EndsWith(name, SUFFIXES[i])
  }

  ghost predicate IsHash(hash: Hash) {
    forall b :: |hash(b)| == 64 && IsHex(hash(b))
  }

  // A name without a directory part.
  predicate IsPlain(name: string) {
    name != "" && name != "." && '/' !in name
  }

  ghost predicate IsDirectory(dir: Directory) {
    forall n :: n in dir ==> IsPlain(n)
  }

  // The asset names of the directory, each once.
  ghost predicate Lists(dir: Directory, assets: seq<string>) {
    Distinct(assets) && forall n :: n in assets <==> n in dir && IsAsset(n)
  }

  predicate IsAscii(s: string) {
    forall i :: 0 <= i < |s| ==> s[i] as int < 128
  }

  // ---- lines of text ----

  // The ASCII characters that end a line: line feed, carriage return, vertical tab, form feed and
  // the three information separators.
  predicate IsBreak(c: char) {
    10 <= c as int <= 13 || 28 <= c as int <= 30
  }

  predicate IsUnbroken(s: string) {
    forall i :: 0 <= i < |s| ==> !IsBreak(s[i])
  }

  // Reading in text mode turns a carriage return, alone or before a line feed, into a line feed.
  function ReadText(s: string): string {
    if s == [] then []
    else if s[0] == '\r' then ['\n'] + ReadText(if |s| > 1 && s[1] == '\n' then s[2..] else s[1..])
    else [s[0]] + ReadText(s[1..])
  }

  function FirstBreak(s: string): (n: nat)
    ensures n <= |s| && IsUnbroken(s[..n])
    ensures n < |s| ==> IsBreak(s[n])
  {
    if s == [] || IsBreak(s[0]) then 0 else 1 + FirstBreak(s[1..])
  }

  function Lines(s: string): (lines: seq<string>)
    ensures forall i :: 0 <= i < |lines| ==> IsUnbroken(lines[i])
    decreases |s|
  {
    if s == [] then []
    else
      var n := FirstBreak(s);
      if n == |s| then [s[..n]] else [s[..n]] + Lines(s[n + 1..])
  }

  function WriteLines(lines: seq<string>): string {
    if lines == [] then [] else lines[0] + "\n" + WriteLines(lines[1..])
  }

  lemma {:induction false} FirstBreakAt(line: string, rest: string)
    requires IsUnbroken(line)
    ensures FirstBreak(line + ['\n'] + rest) == |line|
  {
    var s := line + ['\n'] + rest;
    if line != [] {
      assert s[1..] == line[1..] + ['\n'] + rest;
      FirstBreakAt(line[1..], rest);
    }
  }

  lemma {:induction false} ReadUnbroken(line: string, rest: string)
    requires IsUnbroken(line)
    ensures ReadText(line + rest) == line + ReadText(rest)
  {
    var s := line + rest;
    if line == [] {
      assert s == rest;
    } else {
      assert s[1..] == line[1..] + rest;
      ReadUnbroken(line[1..], rest);
    }
  }

  lemma {:induction false} ReadWritten(lines: seq<string>)
    requires forall i :: 0 <= i < |lines| ==> IsUnbroken(lines[i])
    ensures ReadText(WriteLines(lines)) == WriteLines(lines)
  {
    if lines != [] {
      var rest := WriteLines(lines[1..]);
      ReadWritten(lines[1..]);
      ReadUnbroken(lines[0], "\n" + rest);
      assert lines[0] + "\n" + rest == lines[0] + ("\n" + rest);
      assert ("\n" + rest)[1..] == rest;
    }
  }

  /** Reading back lines that hold no line break gives the same lines. */
  lemma {:induction false} LinesOfWritten(lines: seq<string>)
    requires forall i :: 0 <= i < |lines| ==> IsUnbroken(lines[i])
    ensures Lines(WriteLines(lines)) == lines
  {
    if lines != [] {
      var rest := WriteLines(lines[1..]);
      var s := lines[0] + ['\n'] + rest;
      assert WriteLines(lines) == s;
      FirstBreakAt(lines[0], rest);
      assert s[..|lines[0]|] == lines[0] && s[|lines[0]| + 1..] == rest;
      LinesOfWritten(lines[1..]);
    }
  }

  // ---- one line ----

  function Entry(name: string, digest: string): string { digest + "  " + name }

  /** Sixty-four hexadecimal digits, two spaces, and a plain name. */
  ghost predicate LineFits(line: string) {
    |line| > 66 && LowerHex(line[..64], 64) && line[64..66] == "  " && line[66..] != "." && '/' !in line[66..]
  }

  function NameOf(line: string): string {
    if |line| >= 66 then line[66..] else ""
  }

  function DigestOf(line: string): string {
    if |line| >= 64 then line[..64] else ""
  }

  predicate DoubleSpace(line: string, at: nat) {
    at + 2 <= |line| && line[at] == ' ' && line[at + 1] == ' '
  }

  // The first double space, as partition finds it; the length when there is none.
  function Partition(line: string, from: nat): (at: nat)
    requires from <= |line|
    ensures from <= at <= |line| && (at < |line| ==> DoubleSpace(line, at))
    ensures forall i :: from <= i < at ==> !DoubleSpace(line, i)
    decreases |line| - from
  {
    if from == |line| || DoubleSpace(line, from) then from else Partition(line, from + 1)
  }

  function Parse(line: string): Option<(string, string)> {
    var at := Partition(line, 0);
    if at == |line| || at != 64 || !IsHex(line[..at]) || !IsPlain(line[at + 2..]) then None
    else Some((line[..at], line[at + 2..]))
  }

  lemma ParseMeaning(line: string)
    ensures Parse(line) == if LineFits(line) then Some((DigestOf(line), NameOf(line))) else None
  {
    var at := Partition(line, 0);
    if LineFits(line) {
      assert line[64] == line[64..66][0] && line[65] == line[64..66][1];
      assert DoubleSpace(line, 64);
      assert forall i :: 0 <= i < 64 ==> line[i] == line[..64][i];
    } else if at == 64 && at < |line| {
      assert line[64..66] == "  ";
    }
  }

  function Names(lines: seq<string>): (r: seq<string>)
    ensures |r| == |lines| && forall i :: 0 <= i < |r| ==> r[i] == NameOf(lines[i])
  {
    seq(|lines|, i requires 0 <= i < |lines| => NameOf(lines[i]))
  }

  // ---- verification ----

  /** What the file must say: every line fits, every asset is named on exactly one line, nothing
      else is named, and each digest is that of the file as it is now. */
  ghost predicate Accepts(dir: Directory, assets: seq<string>, text: string, hash: Hash) {
    var lines := Lines(ReadText(text));
    && assets != [] && IsAscii(text) && LinesAccepted(dir, assets, lines, hash)
  }

  ghost predicate LinesAccepted(dir: Directory, assets: seq<string>, lines: seq<string>, hash: Hash) {
    && (forall i :: 0 <= i < |lines| ==> LineFits(lines[i]))
    && Distinct(Names(lines)) && Elements(Names(lines)) == Elements(assets)
    && forall i :: 0 <= i < |lines| ==> Current(dir, hash, NameOf(lines[i]), DigestOf(lines[i]))
  }

  predicate Current(dir: Directory, hash: Hash, name: string, digest: string) {
    name in dir && hash(dir[name]) == digest
  }

  type Parser = string -> Option<(string, string)>

  // The names and digests that a parser reads.
  ghost predicate Reads(parse: Parser, lines: seq<string>, names: seq<string>, digests: seq<string>) {
    && |names| == |lines| == |digests|
    && forall i :: 0 <= i < |lines| && parse(lines[i]).Some? ==> parse(lines[i]).value == (digests[i], names[i])
  }

  method ReadEntries(lines: seq<string>, parse: Parser, ghost names: seq<string>, ghost digests: seq<string>)
    returns (ok: bool, entries: map<string, string>)
    requires Reads(parse, lines, names, digests)
    ensures ok <==> (forall i :: 0 <= i < |lines| ==> parse(lines[i]).Some?) && Distinct(names)
    ensures ok ==> entries.Keys == Elements(names) && forall i :: 0 <= i < |lines| ==> entries[names[i]] == digests[i]
  {
    entries := map[];
    for n := 0 to |lines|
      invariant forall i :: 0 <= i < n ==> parse(lines[i]).Some?
      invariant entries.Keys == Elements(names[..n]) && Distinct(names[..n])
      invariant forall i :: 0 <= i < n ==> names[i] in entries && entries[names[i]] == digests[i]
    {
      DistinctSnoc(names, n);
      if parse(lines[n]).None? {
        return false, map[];
      }
      var (digest, name) := parse(lines[n]).value;
      if name in entries {
        return false, map[];
      }
      assert forall i :: 0 <= i < n ==> names[i] in names[..n];
      entries := entries[name := digest];
    }
    assert names[..|names|] == names;
    ok := true;
  }

  method CheckDigests(dir: Directory, entries: map<string, string>, hash: Hash) returns (ok: bool)
    requires entries.Keys <= dir.Keys
    ensures ok <==> forall x :: x in entries ==> Current(dir, hash, x, entries[x])
  {
    var rest := entries.Keys;
    while rest != {}
      invariant rest <= entries.Keys
      invariant forall x :: x in entries && x !in rest ==> Current(dir, hash, x, entries[x])
      decreases rest
    {
      var name :| name in rest;
      if hash(dir[name]) != entries[name] {
        assert !Current(dir, hash, name, entries[name]);
        return false;
      }
      rest := rest - {name};
    }
    ok := true;
  }

  method VerifyChecksums(dir: Directory, assets: seq<string>, text: string, hash: Hash) returns (ok: bool)
    requires Lists(dir, assets)
    ensures ok <==> Accepts(dir, assets, text, hash)
  {
    if !IsAscii(text) {
      return false;
    }
    var lines := Lines(ReadText(text));
    ParseLines(lines);
    var fits, entries := ReadEntries(lines, Parse, Names(lines), Digests(lines));
    if !fits || assets == [] {
      return false;
    }
    if entries.Keys != Elements(assets) {
      return false;
    }
    ok := CheckDigests(dir, entries, hash);
    SameVerdict(dir, lines, entries, hash);
  }

  ghost function Digests(lines: seq<string>): (r: seq<string>)
    ensures |r| == |lines| && forall i :: 0 <= i < |r| ==> r[i] == DigestOf(lines[i])
  {
    seq(|lines|, i requires 0 <= i < |lines| => DigestOf(lines[i]))
  }

  lemma ParseLines(lines: seq<string>)
    ensures Reads(Parse, lines, Names(lines), Digests(lines))
    ensures forall i :: 0 <= i < |lines| ==> (Parse(lines[i]).Some? <==> LineFits(lines[i]))
  {
    forall i | 0 <= i < |lines|
      ensures Parse(lines[i]).Some? <==> LineFits(lines[i])
      ensures Parse(lines[i]).Some? ==> Parse(lines[i]).value == (Digests(lines)[i], Names(lines)[i])
    {
      ParseMeaning(lines[i]);
    }
  }

  lemma SameVerdict(dir: Directory, lines: seq<string>, entries: map<string, string>, hash: Hash)
    requires entries.Keys == Elements(Names(lines))
    requires forall i :: 0 <= i < |lines| ==> entries[Names(lines)[i]] == Digests(lines)[i]
    ensures (forall x :: x in entries ==> Current(dir, hash, x, entries[x])) <==>
      forall i :: 0 <= i < |lines| ==> Current(dir, hash, NameOf(lines[i]), DigestOf(lines[i]))
  {
    var names := Names(lines);
    forall i | 0 <= i < |lines|
      ensures names[i] in entries && Current(dir, hash, names[i], entries[names[i]]) == Current(dir, hash, NameOf(lines[i]), DigestOf(lines[i]))
    {
      assert names[i] in Elements(names);
    }
    forall x | x in entries ensures exists i :: 0 <= i < |lines| && names[i] == x {
      assert x in Elements(names);
    }
  }

  // ---- creation ----

  function Entries(dir: Directory, assets: seq<string>, hash: Hash): (r: seq<string>)
    requires forall i :: 0 <= i < |assets| ==> assets[i] in dir
    ensures |r| == |assets| && forall i :: 0 <= i < |r| ==> r[i] == Entry(assets[i], hash(dir[assets[i]]))
  {
    seq(|assets|, i requires 0 <= i < |assets| => Entry(assets[i], hash(dir[assets[i]])))
  }

  /** Creation fails when the file is there already, when nothing is to be listed, and when a name
      is outside ASCII. */
  function CreateChecksums(dir: Directory, assets: seq<string>, hash: Hash): Result<string, Failure>
    requires forall i :: 0 <= i < |assets| ==> assets[i] in dir
  {
    if "SHA256SUMS" in dir || assets == [] then Err(Failure)
    else
      var text := WriteLines(Entries(dir, assets, hash));
      if IsAscii(text) then Ok(text) else Err(Failure)
  }

  lemma {:induction false} WrittenAscii(lines: seq<string>)
    ensures IsAscii(WriteLines(lines)) <==> forall i :: 0 <= i < |lines| ==> IsAscii(lines[i])
  {
    if lines != [] {
      var rest := WriteLines(lines[1..]);
      WrittenAscii(lines[1..]);
      var s := lines[0] + "\n" + rest;
      assert forall i :: 0 <= i < |lines[0]| ==> s[i] == lines[0][i];
      assert forall i :: 0 <= i < |rest| ==> s[|lines[0]| + 1 + i] == rest[i];
    }
  }

  lemma EntryFits(name: string, digest: string)
    requires |digest| == 64 && IsHex(digest) && IsPlain(name)
    ensures LineFits(Entry(name, digest)) && NameOf(Entry(name, digest)) == name && DigestOf(Entry(name, digest)) == digest
    ensures IsUnbroken(Entry(name, digest)) <==> IsUnbroken(name)
    ensures IsAscii(Entry(name, digest)) <==> IsAscii(name)
  {
    var e := Entry(name, digest);
    assert e[..64] == digest && e[64..66] == "  " && e[66..] == name;
    assert forall i :: 0 <= i < 64 ==> e[i] == digest[i];
    assert forall i :: 66 <= i < |e| ==> e[i] == name[i - 66];
    assert forall i :: 0 <= i < |name| ==> name[i] == e[i + 66];
  }

  /** Creation succeeds exactly for a nonempty asset set with ASCII names. */
  lemma CreateSucceeds(dir: Directory, assets: seq<string>, hash: Hash)
    requires IsDirectory(dir) && Lists(dir, assets) && IsHash(hash) && "SHA256SUMS" !in dir
    ensures CreateChecksums(dir, assets, hash).Ok? <==> assets != [] && forall i :: 0 <= i < |assets| ==> IsAscii(assets[i])
  {
    var lines := Entries(dir, assets, hash);
    WrittenAscii(lines);
    forall i | 0 <= i < |assets| ensures IsAscii(lines[i]) <==> IsAscii(assets[i]) {
      EntryFits(assets[i], hash(dir[assets[i]]));
    }
  }

  /** Verifying what was just written succeeds exactly when no name holds a line break. */
  lemma RoundTrip(dir: Directory, assets: seq<string>, hash: Hash)
    requires IsDirectory(dir) && Lists(dir, assets) && IsHash(hash)
    requires CreateChecksums(dir, assets, hash).Ok?
    ensures Accepts(dir, assets, CreateChecksums(dir, assets, hash).value, hash) <==>
      forall i :: 0 <= i < |assets| ==> IsUnbroken(assets[i])
  {
    var lines := Entries(dir, assets, hash);
    forall i | 0 <= i < |assets|
      ensures LineFits(lines[i]) && NameOf(lines[i]) == assets[i] && DigestOf(lines[i]) == hash(dir[assets[i]])
      ensures IsUnbroken(lines[i]) <==> IsUnbroken(assets[i])
    {
      EntryFits(assets[i], hash(dir[assets[i]]));
    }
    if forall i :: 0 <= i < |assets| ==> IsUnbroken(assets[i]) {
      ReadWritten(lines);
      LinesOfWritten(lines);
      assert Names(lines) == assets;
    }
    if Accepts(dir, assets, WriteLines(lines), hash) {
      AcceptedNamesUnbroken(dir, assets, WriteLines(lines), hash);
    }
  }

  // ---- what a verified file guarantees ----

  lemma UnbrokenTail(line: string)
    requires IsUnbroken(line) && |line| > 66
    ensures IsUnbroken(NameOf(line))
  {
    var name := NameOf(line);
    forall i | 0 <= i < |name| ensures !IsBreak(name[i]) {
      assert name[i] == line[i + 66];
    }
  }

  lemma AcceptedNamesUnbroken(dir: Directory, assets: seq<string>, text: string, hash: Hash)
    requires Accepts(dir, assets, text, hash)
    ensures forall i :: 0 <= i < |assets| ==> IsUnbroken(assets[i])
  {
    var lines := Lines(ReadText(text));
    forall i | 0 <= i < |assets| ensures IsUnbroken(assets[i]) {
      var k := LineOf(dir, assets, lines, hash, assets[i]);
      UnbrokenTail(lines[k]);
    }
  }

  lemma LineOf(dir: Directory, assets: seq<string>, lines: seq<string>, hash: Hash, name: string) returns (k: nat)
    requires LinesAccepted(dir, assets, lines, hash) && name in assets
    ensures k < |lines| && NameOf(lines[k]) == name && Current(dir, hash, name, DigestOf(lines[k]))
    ensures forall j :: 0 <= j < |lines| && NameOf(lines[j]) == name ==> j == k
  {
    assert name in Elements(Names(lines));
    k :| k < |lines| && Names(lines)[k] == name;
    forall j | 0 <= j < |lines| && NameOf(lines[j]) == name ensures j == k {
      assert Names(lines)[j] == Names(lines)[k];
    }
  }

  /** A verified file has one line per asset, so their numbers agree, and pins every digest. */
  lemma VerifiedListsEachOnce(dir: Directory, assets: seq<string>, text: string, hash: Hash)
    requires Lists(dir, assets) && Accepts(dir, assets, text, hash)
    ensures |Lines(ReadText(text))| == |assets|
    ensures forall n :: n in assets ==> Entry(n, hash(dir[n])) in Lines(ReadText(text))
    ensures forall line :: line in Lines(ReadText(text)) ==> |line| > 66 && NameOf(line) in assets && line == Entry(NameOf(line), hash(dir[NameOf(line)]))
  {
    var lines := Lines(ReadText(text));
    DistinctCount(assets);
    DistinctCount(Names(lines));
    forall i | 0 <= i < |lines| ensures NameOf(lines[i]) in assets && lines[i] == Entry(NameOf(lines[i]), hash(dir[NameOf(lines[i])])) {
      assert Names(lines)[i] in Elements(assets);
      Rejoin(lines[i]);
    }
    forall n | n in assets ensures Entry(n, hash(dir[n])) in lines {
      var k := LineOf(dir, assets, lines, hash, n);
      assert lines[k] in lines;
    }
  }

  lemma Rejoin(line: string)
    requires LineFits(line)
    ensures line == Entry(NameOf(line), DigestOf(line))
  {
    assert line == line[..64] + line[64..66] + line[66..];
  }

  /** One checksum file verifies two directories only when they hold the same assets, hash for hash. */
  lemma VerifiedPinsContent(dir: Directory, assets: seq<string>, dir': Directory, assets': seq<string>, text: string, hash: Hash)
    requires Accepts(dir, assets, text, hash) && Accepts(dir', assets', text, hash)
    ensures Elements(assets) == Elements(assets')
    ensures forall n :: n in assets ==> n in dir && n in dir' && hash(dir[n]) == hash(dir'[n])
  {
    var lines := Lines(ReadText(text));
    forall n | n in assets ensures n in dir && n in dir' && hash(dir[n]) == hash(dir'[n]) {
      var k := LineOf(dir, assets, lines, hash, n);
      assert Current(dir', hash, NameOf(lines[k]), DigestOf(lines[k]));
    }
  }
}
