/**
  What the license conclusion means, said of documents and checkouts only: who is judged how, what a
  kept artifact then says, and when a document is concluded.
*/
module ConclusionMeaning {
  import opened Results
  import opened SbomConclusion
  import opened Sorting
  import opened Text

  // ---- authorities ----

  ghost predicate Named(authority: Authority, packageType: string, name: string, version: string) {
    authority.packageType == packageType && authority.name == name && authority.version == version
  }

  // The checkout's first authority of that type, name and version.
  ghost predicate Registered(root: Root, authority: Authority, packageType: string, name: string, version: string) {
    exists i :: 0 <= i < |root.authorities| && FirstNamed(root.authorities, i, packageType, name, version) && root.authorities[i] == authority
  }

  ghost predicate FirstNamed(authorities: seq<Authority>, i: nat, packageType: string, name: string, version: string) {
    && i < |authorities| && Named(authorities[i], packageType, name, version)
    && forall j :: 0 <= j < i ==> !Named(authorities[j], packageType, name, version)
  }

  lemma {:induction false} FindFirst(authorities: seq<Authority>, i: nat, packageType: string, name: string, version: string)
    requires FirstNamed(authorities, i, packageType, name, version)
    ensures Find(authorities, packageType, name, version) == Some(authorities[i])
  {
    if i > 0 {
      assert !Named(authorities[0], packageType, name, version);
      assert authorities[1..][i - 1] == authorities[i];
      forall j | 0 <= j < i - 1 ensures !Named(authorities[1..][j], packageType, name, version) {
        assert authorities[1..][j] == authorities[j + 1];
      }
      FindFirst(authorities[1..], i - 1, packageType, name, version);
    }
  }

  lemma {:induction false} FoundIsFirst(authorities: seq<Authority>, packageType: string, name: string, version: string) returns (i: nat)
    requires Find(authorities, packageType, name, version).Some?
    ensures FirstNamed(authorities, i, packageType, name, version)
  {
    if Named(authorities[0], packageType, name, version) {
      i := 0;
    } else {
      i := FoundIsFirst(authorities[1..], packageType, name, version);
      i := i + 1;
      assert authorities[1..][i - 1] == authorities[i];
      forall j | 0 <= j < i ensures !Named(authorities[j], packageType, name, version) {
        if j > 0 { assert authorities[1..][j - 1] == authorities[j]; }
      }
    }
  }

  lemma FindIff(root: Root, authority: Authority, packageType: string, name: string, version: string)
    ensures Find(root.authorities, packageType, name, version) == Some(authority) <==> Registered(root, authority, packageType, name, version)
  {
    if Find(root.authorities, packageType, name, version).Some? {
      var i := FoundIsFirst(root.authorities, packageType, name, version);
      FindFirst(root.authorities, i, packageType, name, version);
    }
    if Registered(root, authority, packageType, name, version) {
      var i :| 0 <= i < |root.authorities| && FirstNamed(root.authorities, i, packageType, name, version) && root.authorities[i] == authority;
      FindFirst(root.authorities, i, packageType, name, version);
    }
  }

  // ---- package URLs ----

  /** In a package URL every at sign of the name is escaped and nothing else is. */
  lemma {:induction false} EncodesAt(a: string, b: string)
    ensures EncodeName(a + "@" + b) == EncodeName(a) + "%40" + EncodeName(b)
  {
    var all := a + "@" + b;
    if a == "" {
      assert all[1..] == b;
    } else {
      assert all[1..] == a[1..] + "@" + b;
      EncodesAt(a[1..], b);
    }
  }

  lemma {:induction false} EncodesPlain(name: string)
    requires '@' !in name
    ensures EncodeName(name) == name
  {
    if name != "" {
      assert name[0] in name && '@' !in name[1..];
      EncodesPlain(name[1..]);
      assert name == [name[0]] + name[1..];
    }
  }

  // ---- CPEs ----

  ghost predicate CpeFields(fields: seq<string>) {
    && |fields| == 13 && fields[0] == "cpe" && fields[1] == "2.3" && fields[2] == "a"
    && forall i :: 0 <= i < |fields| ==> ':' !in fields[i]
  }

  // All fields stay, but the sixth, which becomes the version.
  ghost predicate SixthReplaced(before: string, after: string, version: string, fields: seq<string>) {
    CpeFields(fields) && before == Join(fields, ':') && after == Join(fields[5 := version], ':')
  }

  ghost predicate Rewritten(before: Cpe, after: Cpe, version: string) {
    && before.Cpe? && before.source == "syft-generated" && after.Cpe? && after.source == before.source && after.extra == before.extra
    && exists fields :: SixthReplaced(before.text, after.text, version, fields)
  }

  lemma CpeIff(before: Cpe, after: Cpe, version: string)
    ensures CanonicalCpe(before, version) == Ok(after) <==> Rewritten(before, after, version)
  {
    if CanonicalCpe(before, version) == Ok(after) {
      var fields := Split(before.text, ':');
      SplitFields(before.text, ':');
      JoinOfSplit(before.text, ':');
      assert fields[0] == fields[..3][0] && fields[1] == fields[..3][1] && fields[2] == fields[..3][2];
      assert SixthReplaced(before.text, after.text, version, fields);
    }
    if Rewritten(before, after, version) {
      var fields :| SixthReplaced(before.text, after.text, version, fields);
      SplitOfJoin(fields, ':');
      assert fields[..3] == ["cpe", "2.3", "a"];
    }
  }

  ghost predicate AllRewritten(before: seq<Cpe>, after: seq<Cpe>, version: string) {
    |after| == |before| && forall i :: 0 <= i < |before| ==> Rewritten(before[i], after[i], version)
  }

  lemma CpesIff(before: seq<Cpe>, after: seq<Cpe>, version: string)
    ensures Collect(CanonicalCpes(before, version)) == Ok(after) <==> AllRewritten(before, after, version)
  {
    var results := CanonicalCpes(before, version);
    if Collect(results) == Ok(after) {
      CollectAll(results);
      forall i | 0 <= i < |before| ensures Rewritten(before[i], after[i], version) {
        CpeIff(before[i], after[i], version);
      }
    }
    if AllRewritten(before, after, version) {
      forall i | 0 <= i < |before| ensures results[i] == Ok(after[i]) {
        CpeIff(before[i], after[i], version);
      }
      CollectValues(results, after);
    }
  }

  // ---- licenses ----

  // A declared and a concluded license, both with the manifest as evidence.
  ghost predicate TwoLicenses(licenses: Option<seq<License>>, manifest: Location) {
    var evidence := [manifest.directory + "/" + manifest.file];
    licenses == Some([License("Apache-2.0", "Apache-2.0", "declared", [], evidence), License("Apache-2.0", "Apache-2.0", "concluded", [], evidence)])
  }

  // Nothing observed contradicts the conclusion.
  ghost predicate Uncontested(licenses: Option<seq<License>>) {
    licenses.Some? && forall i :: 0 <= i < |licenses.value| ==>
      var l := licenses.value[i];
      l.License? && l.value == "Apache-2.0" && l.expression == "Apache-2.0" && (l.kind == "declared" || l.kind == "concluded")
  }

  // ---- evidence ----

  // A package that a lock links to a directory of the checkout.
  ghost predicate IsLink(a: Artifact) { a.packageType == Some("npm") && a.resolved.Some? }

  ghost predicate LinkEvidence(root: Root, a: Artifact, location: Location, authority: Authority) {
    && a.foundBy == Some("javascript-lock-cataloger") && location.file == "package-lock.json"
    && a.name.Some? && a.resolved.Some? && root.linkTarget(location, a.name.value, a.resolved.value) == Some(authority.version)
    && Registered(root, authority, "npm", a.name.value, authority.version)
    && ((a.version == Some("UNKNOWN") && a.purl == Some("pkg:npm/" + EncodeName(a.name.value)))
        || (a.version == Some(authority.version) && a.purl == Some(authority.purl)))
  }

  // A package found under its own type, name, version and package URL.
  ghost predicate DirectEvidence(root: Root, a: Artifact, location: Location, authority: Authority) {
    && a.packageType.Some? && a.name.Some? && a.version.Some? && a.purl == Some(authority.purl)
    && Registered(root, authority, a.packageType.value, a.name.value, a.version.value)
    && match a.packageType.value
       case "rust-crate" =>
         && location.file == "Cargo.lock" && a.foundBy == Some("rust-cargo-lock-cataloger") && a.localPath
         && root.cargoLockHas(location, a.name.value, a.version.value)
       case "npm" =>
         && location == Location(authority.manifest.directory, "package-lock.json") && a.foundBy == Some("javascript-lock-cataloger")
         && root.npmRootIs(location, a.name.value, a.version.value)
       case "python" =>
         location == authority.manifest && (a.foundBy == Some("python-package-cataloger") || a.foundBy == Some("hyphae-manifest-cataloger"))
       case _ => false
  }

  // ---- judgements ----

  // What a kept first-party artifact says of its authority.
  ghost predicate Speaks(a: Artifact, kept: Artifact, authority: Authority) {
    && kept == a.(version := kept.version, purl := kept.purl, cpes := kept.cpes, licenses := kept.licenses)
    && kept.version == Some(authority.version) && kept.purl == Some(authority.purl) && TwoLicenses(kept.licenses, authority.manifest)
    && if IsLink(a) then a.cpes.Some? && kept.cpes.Some? && AllRewritten(a.cpes.value, kept.cpes.value, authority.version) else kept.cpes == a.cpes
  }

  ghost predicate Concludes(root: Root, a: Artifact, v: Verdict, location: Location, authority: Authority) {
    && v.FirstParty? && a.location.Some? && root.resolve(a.location.value) == Some(location) && Uncontested(a.licenses)
    && (if IsLink(a) then LinkEvidence(root, a, location, authority) else DirectEvidence(root, a, location, authority))
    && Speaks(a, v.kept, authority)
    && v.identity == Identity(authority.packageType, authority.name, authority.version, authority.purl, a.location.value)
  }

  ghost function ToolLock(name: string): Option<Location> {
    match name
    case "hyphae-mcp-conformance-hosts" => Some(Location("/conformance/mcp/hosts", "package-lock.json"))
    case "framework-host-smoke" => Some(Location("/integrations/host-smoke", "package-lock.json"))
    case "hyphae-premium-site" => Some(Location("/website", "package-lock.json"))
    case _ => None
  }

  ghost predicate IsTool(name: Option<string>) { name.Some? && ToolLock(name.value).Some? }

  ghost predicate Excludes(root: Root, a: Artifact, v: Verdict, version: string)
    requires IsTool(a.name)
  {
    && a.id.Some? && a.id.value != "" && v == Excluded(a.id.value)
    && a.packageType == Some("npm") && a.foundBy == Some("javascript-lock-cataloger")
    && a.location.Some? && root.resolve(a.location.value) == ToolLock(a.name.value)
    && root.privateVersion(a.name.value) == Some(version) && a.version == Some(version)
    && a.purl == Some("pkg:npm/" + EncodeName(a.name.value) + "@" + version)
  }

  ghost predicate IsOurs(name: Option<string>) {
    && name.Some?
    && (name.value == "hyphae" || name.value == "@hyphae_/hyphae"
        || (|name.value| >= 7 && name.value[..7] == "hyphae-") || (|name.value| >= 16 && name.value[..16] == "@hyphae_/hyphae-"))
  }

  /** How an artifact is judged: private tools are excluded on full evidence, other projects' artifacts
      pass, and the project's own need an authority with evidence for it. */
  ghost predicate Judges(root: Root, a: Artifact, v: Verdict) {
    if IsTool(a.name) then exists version :: Excludes(root, a, v, version)
    else if !IsOurs(a.name) then v == ThirdParty(a)
    else exists location, authority :: Concludes(root, a, v, location, authority)
  }

  lemma ToolsIff(name: Option<string>)
    ensures IsTool(name) <==> PrivateName(name)
    ensures IsTool(name) ==> ToolLock(name.value) == Some(PRIVATE_TOOLS[name.value])
  {
  }

  lemma OursIff(name: Option<string>)
    ensures IsOurs(name) <==> FirstPartyName(name)
  {
  }

  lemma LicensesIff(a: Artifact, authority: Authority, b: Artifact)
    ensures ConcludeLicense(a, authority) == Ok(b) <==> Uncontested(a.licenses) && TwoLicenses(b.licenses, authority.manifest) && b == a.(licenses := b.licenses)
  {
  }

  lemma LinkIff(root: Root, a: Artifact, location: Location, authority: Authority)
    requires a.name.Some? && Linked(a)
    ensures LinkedAuthority(root, a, location) == Some(authority) <==> LinkEvidence(root, a, location, authority)
  {
    FindIff(root, authority, "npm", a.name.value, authority.version);
  }

  lemma DirectIff(root: Root, a: Artifact, location: Location, authority: Authority)
    requires a.name.Some?
    ensures ExactAuthority(root, a, location) == Some(authority) <==> DirectEvidence(root, a, location, authority)
  {
    if a.packageType.Some? && a.version.Some? { FindIff(root, authority, a.packageType.value, a.name.value, a.version.value); }
  }

  // The artifact that a link becomes before its licenses are concluded.
  lemma CanonicalIff(a: Artifact, authority: Authority, b: Artifact)
    ensures CanonicalizeLinked(a, authority) == Ok(b) <==>
      && a.cpes.Some? && b.cpes.Some? && AllRewritten(a.cpes.value, b.cpes.value, authority.version)
      && b == a.(version := Some(authority.version), purl := Some(authority.purl), cpes := b.cpes)
  {
    if a.cpes.Some? && b.cpes.Some? { CpesIff(a.cpes.value, b.cpes.value, authority.version); }
  }

  lemma AttributeIff(root: Root, a: Artifact, location: Location, b: Artifact, authority: Authority)
    requires a.name.Some?
    ensures Attribute(root, a, location) == Ok((b, authority)) <==>
      if IsLink(a) then LinkEvidence(root, a, location, authority) && CanonicalizeLinked(a, authority) == Ok(b)
      else DirectEvidence(root, a, location, authority) && b == a
  {
    if IsLink(a) { LinkIff(root, a, location, authority); } else { DirectIff(root, a, location, authority); }
  }

  // The artifact between attribution and conclusion.
  ghost function Attributed(a: Artifact, kept: Artifact): Artifact { kept.(licenses := a.licenses) }

  lemma ConcludesIff(root: Root, a: Artifact, kept: Artifact, location: Location, authority: Authority)
    requires a.name.Some?
    ensures (exists b :: Attribute(root, a, location) == Ok((b, authority)) && ConcludeLicense(b, authority) == Ok(kept)) <==>
      && Uncontested(a.licenses) && Speaks(a, kept, authority)
      && (if IsLink(a) then LinkEvidence(root, a, location, authority) else DirectEvidence(root, a, location, authority))
  {
    if b :| Attribute(root, a, location) == Ok((b, authority)) && ConcludeLicense(b, authority) == Ok(kept) {
      AttributeIff(root, a, location, b, authority);
      CanonicalIff(a, authority, b);
      LicensesIff(b, authority, kept);
    }
    if Uncontested(a.licenses) && Speaks(a, kept, authority)
       && (if IsLink(a) then LinkEvidence(root, a, location, authority) else DirectEvidence(root, a, location, authority)) {
      var b := Attributed(a, kept);
      CanonicalIff(a, authority, b);
      AttributeIff(root, a, location, b, authority);
      LicensesIff(b, authority, kept);
    }
  }

  lemma FirstPartyIff(root: Root, a: Artifact, v: Verdict)
    requires a.name.Some?
    ensures JudgeFirstParty(root, a) == Ok(v) <==> exists location, authority :: Concludes(root, a, v, location, authority)
  {
    if JudgeFirstParty(root, a) == Ok(v) {
      var location := root.resolve(a.location.value).value;
      var b, authority := Attribute(root, a, location).value.0, Attribute(root, a, location).value.1;
      ConcludesIff(root, a, v.kept, location, authority);
      assert Concludes(root, a, v, location, authority);
    }
    if location, authority :| Concludes(root, a, v, location, authority) {
      ConcludesIff(root, a, v.kept, location, authority);
    }
  }

  lemma ToolIff(root: Root, a: Artifact, v: Verdict)
    requires IsTool(a.name) && PrivateName(a.name)
    ensures JudgePrivate(root, a) == Ok(v) <==> exists version :: Excludes(root, a, v, version)
  {
    ToolsIff(a.name);
    if JudgePrivate(root, a) == Ok(v) {
      assert Excludes(root, a, v, root.privateVersion(a.name.value).value);
    }
  }

  /** The verdict on any entry, exactly. */
  lemma JudgeIff(root: Root, e: Entry, v: Verdict)
    ensures Judge(root, e) == Ok(v) <==> e.Object? && Judges(root, e.artifact, v)
  {
    if e.Object? {
      var a := e.artifact;
      ToolsIff(a.name);
      OursIff(a.name);
      if IsTool(a.name) {
        ToolIff(root, a, v);
      } else if IsOurs(a.name) {
        FirstPartyIff(root, a, v);
      }
    }
  }

  // ---- supplements ----

  ghost predicate Lists(e: Entry, authority: Authority) {
    e.Object? && e.artifact.packageType == Some("python") && e.artifact.name == Some(authority.name) && e.artifact.version == Some(authority.version)
  }

  ghost predicate Unlisted(entries: seq<Entry>, authority: Authority) {
    authority.packageType == "python" && forall i :: 0 <= i < |entries| ==> !Lists(entries[i], authority)
  }

  // The artifact that stands for a manifest: no dependencies, no licenses yet, found by this tool.
  ghost predicate StandsFor(root: Root, authority: Authority, e: Entry) {
    var path := authority.manifest.directory + "/" + authority.manifest.file;
    && root.dependencyFree(authority.manifest) && e.Object?
    && e.artifact.id == Some(root.digest("hyphae-manifest:python:" + authority.name + "@" + authority.version + ":" + path))
    && e.artifact.name == Some(authority.name) && e.artifact.version == Some(authority.version) && e.artifact.packageType == Some("python")
    && e.artifact.purl == Some(authority.purl) && e.artifact.foundBy == Some("hyphae-manifest-cataloger") && e.artifact.location == Some(path)
    && e.artifact.resolved.None? && !e.artifact.localPath && e.artifact.cpes == Some([]) && e.artifact.licenses == Some([]) && e.artifact.extra == ""
  }

  // One artifact for every unlisted Python authority, by package URL.
  ghost predicate Supplies(root: Root, entries: seq<Entry>, missing: seq<Authority>, extra: seq<Entry>) {
    && (forall a :: a in missing <==> a in root.authorities && Unlisted(entries, a))
    && (forall i, j :: 0 <= i < j < |missing| ==> ByPurl(missing[i], missing[j]))
    && |extra| == |missing| && forall i :: 0 <= i < |missing| ==> StandsFor(root, missing[i], extra[i])
  }

  lemma MissingIff(entries: seq<Entry>, authority: Authority)
    ensures Missing(entries)(authority) <==> Unlisted(entries, authority)
  {
    if Unlisted(entries, authority) {
      forall i | 0 <= i < |entries| ensures !CarriesAt(entries[i], "python", authority.name, authority.version) {
        assert !Lists(entries[i], authority);
      }
    }
    if Missing(entries)(authority) {
      forall i | 0 <= i < |entries| ensures !Lists(entries[i], authority) {
        assert !CarriesAt(entries[i], "python", authority.name, authority.version);
      }
    }
  }

  lemma {:induction false} LexicographicTotal(s: string, t: string)
    ensures Lexicographic(s, t) || Lexicographic(t, s)
  {
    if s != [] && t != [] && s[0] == t[0] { LexicographicTotal(s[1..], t[1..]); }
  }

  lemma {:induction false} LexicographicTransitive(s: string, t: string, u: string)
    requires Lexicographic(s, t) && Lexicographic(t, u)
    ensures Lexicographic(s, u)
  {
    if s != [] && s[0] == t[0] == u[0] { LexicographicTransitive(s[1..], t[1..], u[1..]); }
  }

  lemma ByPurlOrders()
    ensures TotalPreorder(ByPurl)
  {
    forall a, b ensures ByPurl(a, b) || ByPurl(b, a) { LexicographicTotal(a.purl, b.purl); }
    forall a, b, c | ByPurl(a, b) && ByPurl(b, c) ensures ByPurl(a, c) { LexicographicTransitive(a.purl, b.purl, c.purl); }
  }

  lemma {:induction false} FilterSorted(p: Authority -> bool, s: seq<Authority>)
    requires Sorted(ByPurl, s)
    ensures Sorted(ByPurl, Filter(p, s))
  {
    if s != [] {
      var n := |s| - 1;
      FilterSorted(p, s[..n]);
      forall a | a in Filter(p, s[..n]) ensures ByPurl(a, s[n]) {
        var i :| 0 <= i < n && s[..n][i] == a;
      }
    }
  }

  lemma StandIff(root: Root, authority: Authority, e: Entry)
    ensures ManifestArtifact(root, authority) == Ok(e) <==> StandsFor(root, authority, e)
  {
  }

  lemma MissingAreSupplied(root: Root, entries: seq<Entry>, missing: seq<Authority>)
    requires missing == Filter(Missing(entries), Sort(ByPurl, root.authorities))
    ensures forall a :: a in missing <==> a in root.authorities && Unlisted(entries, a)
    ensures Sorted(ByPurl, missing)
  {
    var sorted := Sort(ByPurl, root.authorities);
    ByPurlOrders();
    SortSorts(ByPurl, root.authorities);
    FilterSorted(Missing(entries), sorted);
    forall a ensures a in missing <==> a in root.authorities && Unlisted(entries, a) {
      MissingIff(entries, a);
      assert a in sorted <==> a in multiset(sorted);
      assert a in root.authorities <==> a in multiset(root.authorities);
    }
  }

  /** Every Python authority that the document does not list gets its artifact, by package URL; this
      fails exactly when one of them has dependencies. */
  lemma SupplementsMean(root: Root, entries: seq<Entry>)
    ensures Supplements(root, entries).Err? <==> exists a :: a in root.authorities && Unlisted(entries, a) && !root.dependencyFree(a.manifest)
    ensures Supplements(root, entries).Ok? ==> exists missing :: Supplies(root, entries, missing, Supplements(root, entries).value)
  {
    var missing := Filter(Missing(entries), Sort(ByPurl, root.authorities));
    var results := ManifestArtifacts(root, missing);
    MissingAreSupplied(root, entries, missing);
    if Collect(results).Ok? {
      CollectAll(results);
      forall i | 0 <= i < |missing| ensures StandsFor(root, missing[i], Collect(results).value[i]) {
        StandIff(root, missing[i], Collect(results).value[i]);
      }
      assert Supplies(root, entries, missing, Collect(results).value);
      forall a | a in root.authorities && Unlisted(entries, a) ensures root.dependencyFree(a.manifest) {
        var i :| 0 <= i < |missing| && missing[i] == a;
        assert results[i].Ok?;
      }
    } else {
      var i := CollectFailsAt(results);
      assert missing[i] in missing && !root.dependencyFree(missing[i].manifest);
    }
  }

  lemma {:induction false} CollectFailsAt<T, E>(results: seq<Result<T, E>>) returns (i: nat)
    requires Collect(results).Err?
    ensures i < |results| && results[i].Err?
  {
    if results[0].Err? {
      i := 0;
    } else {
      i := CollectFailsAt(results[1..]);
      i := i + 1;
    }
  }

  // ---- the concluded document ----

  // The artifact speaks for an authority of the checkout, and was made from an entry for it.
  ghost predicate SpeaksFor(root: Root, all: seq<Entry>, kept: Artifact, i: nat, authority: Authority) {
    && i < |all| && all[i].Object? && Speaks(all[i].artifact, kept, authority) && authority in root.authorities
    && kept.packageType == Some(authority.packageType) && kept.name == Some(authority.name)
  }

  lemma ConcludesSpeaks(root: Root, all: seq<Entry>, i: nat, v: Verdict, location: Location, authority: Authority)
    requires i < |all| && all[i].Object? && Concludes(root, all[i].artifact, v, location, authority)
    ensures SpeaksFor(root, all, v.kept, i, authority)
  {
    var a := all[i].artifact;
    if IsLink(a) {
      assert Registered(root, authority, "npm", a.name.value, authority.version);
    } else {
      assert Registered(root, authority, a.packageType.value, a.name.value, a.version.value);
    }
  }

  ghost predicate IsLicensed(root: Root, a: Artifact) {
    exists authority ::
      && authority in root.authorities && a.packageType == Some(authority.packageType) && a.name == Some(authority.name)
      && a.version == Some(authority.version) && a.purl == Some(authority.purl) && TwoLicenses(a.licenses, authority.manifest)
  }

  // Every artifact of the project is licensed by its manifest.
  ghost predicate AllLicensed(root: Root, entries: seq<Entry>) {
    forall k :: 0 <= k < |entries| && entries[k].Object? && IsOurs(entries[k].artifact.name) ==> IsLicensed(root, entries[k].artifact)
  }

  lemma ConcludedIsLicensed(root: Root, d: Document, out: Document, count: nat)
    requires Conclude(root, d) == Ok((out, count))
    ensures out.artifacts.Some? && AllLicensed(root, out.artifacts.value)
  {
    ConcludedSpeaks(root, d, out, count);
    var all := d.artifacts.value + Supplements(root, d.artifacts.value).value;
    var entries := out.artifacts.value;
    forall k | 0 <= k < |entries| && entries[k].Object? && IsOurs(entries[k].artifact.name) ensures IsLicensed(root, entries[k].artifact) {
      var i, authority :| SpeaksFor(root, all, entries[k].artifact, i, authority);
    }
  }

  /** In a concluded document every artifact of the project has exactly two licenses, declared and
      concluded, both Apache-2.0 without URLs and with the manifest of its own authority as evidence;
      version and package URL are that authority's; and the CPEs of a link keep all fields but the
      sixth, which is that version. */
  lemma ConcludedSpeaks(root: Root, d: Document, out: Document, count: nat)
    requires Conclude(root, d) == Ok((out, count))
    ensures d.artifacts.Some? && Supplements(root, d.artifacts.value).Ok? && out.artifacts.Some?
    ensures var all := d.artifacts.value + Supplements(root, d.artifacts.value).value;
      forall k :: 0 <= k < |out.artifacts.value| ==>
        var e := out.artifacts.value[k];
        e.Object? && (IsOurs(e.artifact.name) ==> exists i, authority :: SpeaksFor(root, all, e.artifact, i, authority))
  {
    var extra, verdicts := ConcludedShape(root, d, out, count);
    SettledShape(root, d, out, verdicts, count);
    var all := d.artifacts.value + extra;
    forall k | 0 <= k < |out.artifacts.value|
      ensures var e := out.artifacts.value[k];
        e.Object? && (IsOurs(e.artifact.name) ==> exists i, authority :: SpeaksFor(root, all, e.artifact, i, authority))
    {
      var i := KeptOrigin(root, all, verdicts, k);
      KeptSpeaks(root, all, i, verdicts[i]);
    }
  }

  lemma KeptSpeaks(root: Root, all: seq<Entry>, i: nat, v: Verdict)
    requires i < |all| && Judge(root, all[i]) == Ok(v) && Kept(v)
    ensures IsOurs(v.kept.name) ==> exists i, authority :: SpeaksFor(root, all, v.kept, i, authority)
  {
    JudgeIff(root, all[i], v);
    if IsOurs(v.kept.name) {
      var location, authority :| Concludes(root, all[i].artifact, v, location, authority);
      ConcludesSpeaks(root, all, i, v, location, authority);
    }
  }
}
