/**
  Conclusion of the first-party licenses in a Syft document.  The repository checkout is a fixed
  snapshot: its package authorities, lock files and path resolution are pure functions.  Every
  raised error is the one failure.
*/
module SbomConclusion {
  import opened Results
  import opened Sorting
  import opened Text

  datatype Failure = Failed

  type Done<+T> = Result<T, Failure>

  // ---- the checkout ----

  datatype Location = Location(directory: string, file: string)

  function Render(l: Location): string { l.directory + "/" + l.file }

  datatype Authority = Authority(packageType: string, name: string, version: string, purl: string, manifest: Location)

  datatype Identity = Identity(packageType: string, name: string, version: string, purl: string, location: string)

  datatype Root = Root(
    authorities: seq<Authority>,
    resolve: string -> Option<Location>,                    // a canonical path to an existing file
    lockIdentities: Option<seq<Identity>>,                  // what the Cargo and npm locks name
    cargoLockHas: (Location, string, string) -> bool,       // a local package of that name and version
    npmRootIs: (Location, string, string) -> bool,          // the lock's own package, with the license
    linkTarget: (Location, string, string) -> Option<string>, // version a linked package resolves to
    privateVersion: string -> Option<string>,               // version of a private tool, lock agreeing
    dependencyFree: Location -> bool,
    digest: string -> string)

  const LICENSE := "Apache-2.0"
  const LOCK_CATALOGER := "javascript-lock-cataloger"

  // The private tools and their lock files.
  const PRIVATE_TOOLS: map<string, Location> := map[
    "hyphae-mcp-conformance-hosts" := Location("/conformance/mcp/hosts", "package-lock.json"),
    "framework-host-smoke" := Location("/integrations/host-smoke", "package-lock.json"),
    "hyphae-premium-site" := Location("/website", "package-lock.json")]

  predicate FirstPartyName(name: Option<string>) {
    && name.Some?
    && (name.value == "hyphae" || "hyphae-" <= name.value
        || name.value == "@hyphae_/hyphae" || "@hyphae_/hyphae-" <= name.value)
  }

  function EncodeName(name: string): string {
    if name == [] then [] else (if name[0] == '@' then "%40" else [name[0]]) + EncodeName(name[1..])
  }

  function NpmPurl(name: string): string { "pkg:npm/" + EncodeName(name) }

  function Find(authorities: seq<Authority>, packageType: string, name: string, version: string): (r: Option<Authority>)
    ensures r.Some? ==> r.value.packageType == packageType && r.value.name == name && r.value.version == version
  {
    if authorities == [] then None
    else if authorities[0].packageType == packageType && authorities[0].name == name && authorities[0].version == version
    then Some(authorities[0])
    else Find(authorities[1..], packageType, name, version)
  }

  // ---- the document ----

  datatype Cpe = Cpe(source: string, text: string, extra: string) | NotACpe

  datatype License =
    | License(value: string, expression: string, kind: string, urls: seq<string>, evidence: seq<string>)
    | NotALicense

  // `location` is the path of the one location, `resolved` a nonempty link target in the metadata,
  // and `localPath` says that the metadata names neither a source nor a checksum.
  datatype Artifact = Artifact(
    id: Option<string>, name: Option<string>, version: Option<string>, packageType: Option<string>,
    purl: Option<string>, foundBy: Option<string>, location: Option<string>, resolved: Option<string>,
    localPath: bool, cpes: Option<seq<Cpe>>, licenses: Option<seq<License>>, extra: string)

  datatype Entry = Object(artifact: Artifact) | NotAnObject

  datatype Relationship = Relationship(parent: Option<string>, child: Option<string>, extra: string) | NotARelationship

  datatype Document = Document(
    descriptor: Option<(string, string)>, artifacts: Option<seq<Entry>>,
    relationships: Option<seq<Relationship>>, extra: string)

  // ---- one artifact ----

  function CanonicalCpe(cpe: Cpe, version: string): Done<Cpe> {
    if cpe.NotACpe? || cpe.source != "syft-generated" then Err(Failed)
    else
      var fields := Split(cpe.text, ':');
      if |fields| != 13 || fields[..3] != ["cpe", "2.3", "a"] then Err(Failed)
      else Ok(cpe.(text := Join(fields[5 := version], ':')))
  }

  function CanonicalCpes(cpes: seq<Cpe>, version: string): (r: seq<Done<Cpe>>)
    ensures |r| == |cpes| && forall i :: 0 <= i < |cpes| ==> r[i] == CanonicalCpe(cpes[i], version)
  {
    seq(|cpes|, i requires 0 <= i < |cpes| => CanonicalCpe(cpes[i], version))
  }

  function CanonicalizeLinked(a: Artifact, authority: Authority): Done<Artifact> {
    if a.cpes.None? then Err(Failed)
    else
      var cpes := Collect(CanonicalCpes(a.cpes.value, authority.version));
      if cpes.Err? then Err(Failed)
      else Ok(a.(version := Some(authority.version), purl := Some(authority.purl), cpes := Some(cpes.value)))
  }

  predicate Linked(a: Artifact) { a.packageType == Some("npm") && a.resolved.Some? }

  function LinkedAuthority(root: Root, a: Artifact, location: Location): Option<Authority>
    requires a.name.Some? && Linked(a)
  {
    if a.foundBy != Some(LOCK_CATALOGER) || location.file != "package-lock.json" then None
    else
      var version := root.linkTarget(location, a.name.value, a.resolved.value);
      if version.None? then None
      else
        var authority := Find(root.authorities, "npm", a.name.value, version.value);
        if authority.None? then None
        else if || (a.version == Some("UNKNOWN") && a.purl == Some(NpmPurl(a.name.value)))
                || (a.version == Some(authority.value.version) && a.purl == Some(authority.value.purl))
        then authority
        else None
  }

  function ExactAuthority(root: Root, a: Artifact, location: Location): Option<Authority>
    requires a.name.Some?
  {
    if a.packageType.None? || a.version.None? then None
    else
      var found := Find(root.authorities, a.packageType.value, a.name.value, a.version.value);
      if found.None? || a.purl != Some(found.value.purl) then None
      else
        var authority := found.value;
        var evident :=
          if authority.packageType == "rust-crate" then
            && location.file == "Cargo.lock" && a.foundBy == Some("rust-cargo-lock-cataloger") && a.localPath
            && root.cargoLockHas(location, authority.name, authority.version)
          else if authority.packageType == "npm" then
            && location.file == "package-lock.json" && a.foundBy == Some(LOCK_CATALOGER)
            && location.directory == authority.manifest.directory
            && root.npmRootIs(location, authority.name, authority.version)
          else if authority.packageType == "python" then
            && location == authority.manifest
            && a.foundBy in {Some("python-package-cataloger"), Some("hyphae-manifest-cataloger")}
          else false;
        if evident then found else None
  }

  predicate Observed(l: License) {
    l.License? && l.value == LICENSE && l.expression == LICENSE && l.kind in {"declared", "concluded"}
  }

  function Concluded(authority: Authority): seq<License> {
    [License(LICENSE, LICENSE, "declared", [], [Render(authority.manifest)]),
     License(LICENSE, LICENSE, "concluded", [], [Render(authority.manifest)])]
  }

  function ConcludeLicense(a: Artifact, authority: Authority): Done<Artifact> {
    if a.licenses.None? || exists i :: 0 <= i < |a.licenses.value| && !Observed(a.licenses.value[i]) then Err(Failed)
    else Ok(a.(licenses := Some(Concluded(authority))))
  }

  datatype Verdict =
    | Excluded(id: string)
    | ThirdParty(kept: Artifact)
    | FirstParty(kept: Artifact, identity: Identity)

  predicate Kept(v: Verdict) { !v.Excluded? }

  predicate PrivateName(name: Option<string>) { name.Some? && name.value in PRIVATE_TOOLS }

  function JudgePrivate(root: Root, a: Artifact): Done<Verdict>
    requires PrivateName(a.name)
  {
    var version := root.privateVersion(a.name.value);
    if a.location.None? || root.resolve(a.location.value) != Some(PRIVATE_TOOLS[a.name.value]) then Err(Failed)
    else if a.packageType != Some("npm") || a.foundBy != Some(LOCK_CATALOGER) || version.None? then Err(Failed)
    else if a.version != version || a.purl != Some(NpmPurl(a.name.value) + "@" + version.value) then Err(Failed)
    else if a.id.None? || a.id.value == "" then Err(Failed)
    else Ok(Excluded(a.id.value))
  }

  // The artifact after linked packages took the version of their target, and its authority.
  function Attribute(root: Root, a: Artifact, location: Location): Done<(Artifact, Authority)>
    requires a.name.Some?
  {
    if Linked(a) then
      var authority := LinkedAuthority(root, a, location);
      if authority.None? then Err(Failed)
      else
        var canonical := CanonicalizeLinked(a, authority.value);
        if canonical.Err? then Err(Failed) else Ok((canonical.value, authority.value))
    else
      var authority := ExactAuthority(root, a, location);
      if authority.None? then Err(Failed) else Ok((a, authority.value))
  }

  function JudgeFirstParty(root: Root, a: Artifact): Done<Verdict>
    requires a.name.Some?
  {
    if a.location.None? then Err(Failed)
    else
      var location := root.resolve(a.location.value);
      if location.None? then Err(Failed)
      else
        var attributed := Attribute(root, a, location.value);
        if attributed.Err? then Err(Failed)
        else
          var authority := attributed.value.1;
          var concluded := ConcludeLicense(attributed.value.0, authority);
          if concluded.Err? then Err(Failed)
          else Ok(FirstParty(concluded.value,
                  Identity(authority.packageType, authority.name, authority.version, authority.purl, a.location.value)))
  }

  function Judge(root: Root, e: Entry): Done<Verdict> {
    if e.NotAnObject? then Err(Failed)
    else if PrivateName(e.artifact.name) then JudgePrivate(root, e.artifact)
    else if !FirstPartyName(e.artifact.name) then Ok(ThirdParty(e.artifact))
    else JudgeFirstParty(root, e.artifact)
  }

  // ---- the whole document ----

  predicate ByPurl(a: Authority, b: Authority) { Lexicographic(a.purl, b.purl) }

  predicate Lexicographic(s: string, t: string) {
    s == [] || (t != [] && (s[0] < t[0] || (s[0] == t[0] && Lexicographic(s[1..], t[1..]))))
  }

  predicate Carries(entries: seq<Entry>, packageType: string, name: string, version: string) {
    exists i :: 0 <= i < |entries| && CarriesAt(entries[i], packageType, name, version)
  }

  predicate CarriesAt(e: Entry, packageType: string, name: string, version: string) {
    e.Object? && e.artifact.packageType == Some(packageType)
    && e.artifact.name == Some(name) && e.artifact.version == Some(version)
  }

  function Missing(entries: seq<Entry>): Authority -> bool {
    (authority: Authority) => authority.packageType == "python" && !Carries(entries, "python", authority.name, authority.version)
  }

  function ManifestArtifact(root: Root, authority: Authority): Done<Entry> {
    if !root.dependencyFree(authority.manifest) then Err(Failed)
    else
      var location := Render(authority.manifest);
      Ok(Object(Artifact(
        Some(root.digest("hyphae-manifest:python:" + authority.name + "@" + authority.version + ":" + location)),
        Some(authority.name), Some(authority.version), Some("python"), Some(authority.purl),
        Some("hyphae-manifest-cataloger"), Some(location), None, false, Some([]), Some([]), "")))
  }

  function ManifestArtifacts(root: Root, authorities: seq<Authority>): (r: seq<Done<Entry>>)
    ensures |r| == |authorities| && forall i :: 0 <= i < |r| ==> r[i] == ManifestArtifact(root, authorities[i])
  {
    seq(|authorities|, i requires 0 <= i < |authorities| => ManifestArtifact(root, authorities[i]))
  }

  function Supplements(root: Root, entries: seq<Entry>): Done<seq<Entry>> {
    Collect(ManifestArtifacts(root, Filter(Missing(entries), Sort(ByPurl, root.authorities))))
  }

  function Judgements(root: Root, entries: seq<Entry>): (r: seq<Done<Verdict>>)
    ensures |r| == |entries| && forall i :: 0 <= i < |r| ==> r[i] == Judge(root, entries[i])
  {
    seq(|entries|, i requires 0 <= i < |entries| => Judge(root, entries[i]))
  }

  function Retained(verdicts: seq<Verdict>): seq<Entry> {
    if verdicts == [] then []
    else
      var rest, last := Retained(verdicts[..|verdicts| - 1]), verdicts[|verdicts| - 1];
      if last.Excluded? then rest else rest + [Object(last.kept)]
  }

  function ExcludedIds(verdicts: seq<Verdict>): seq<string> {
    if verdicts == [] then []
    else
      var rest, last := ExcludedIds(verdicts[..|verdicts| - 1]), verdicts[|verdicts| - 1];
      if last.Excluded? then rest + [last.id] else rest
  }

  function Identities(verdicts: seq<Verdict>): seq<Identity> {
    if verdicts == [] then []
    else
      var rest, last := Identities(verdicts[..|verdicts| - 1]), verdicts[|verdicts| - 1];
      if last.FirstParty? then rest + [last.identity] else rest
  }

  predicate Python(authority: Authority) { authority.packageType == "python" }

  function ManifestIdentity(authority: Authority): Identity {
    Identity(authority.packageType, authority.name, authority.version, authority.purl, Render(authority.manifest))
  }

  function ManifestIdentities(authorities: seq<Authority>): seq<Identity> {
    seq(|authorities|, i requires 0 <= i < |authorities| => ManifestIdentity(authorities[i]))
  }

  /** What the locks and Python manifests say the document must list, with multiplicity. */
  function Expected(root: Root): multiset<Identity>
    requires root.lockIdentities.Some?
  {
    multiset(root.lockIdentities.value + ManifestIdentities(Filter(Python, root.authorities)))
  }

  predicate Repeats(ids: seq<string>) { exists i, j :: 0 <= i < j < |ids| && ids[i] == ids[j] }

  predicate Names(e: Entry, ids: seq<string>) { e.Object? && e.artifact.id.Some? && e.artifact.id.value in ids }

  predicate Touches(r: Relationship, ids: seq<string>) {
    r.Relationship? && ((r.parent.Some? && r.parent.value in ids) || (r.child.Some? && r.child.value in ids))
  }

  function Untouched(ids: seq<string>): Relationship -> bool { r => !Touches(r, ids) }

  // Removing the private tools and every relationship that touches one.
  function Prune(d: Document, verdicts: seq<Verdict>): Done<Document> {
    var kept, ids := Retained(verdicts), ExcludedIds(verdicts);
    if ids == [] then Ok(d.(artifacts := Some(kept)))
    else if exists i :: 0 <= i < |kept| && Names(kept[i], ids) then Err(Failed)
    else if d.relationships.None? || exists i :: 0 <= i < |d.relationships.value| && d.relationships.value[i].NotARelationship? then Err(Failed)
    else Ok(d.(artifacts := Some(kept), relationships := Some(Filter(Untouched(ids), d.relationships.value))))
  }

  function Settle(root: Root, d: Document, verdicts: seq<Verdict>): Done<(Document, nat)> {
    if root.lockIdentities.None? || Repeats(ExcludedIds(verdicts)) then Err(Failed)
    else if multiset(Identities(verdicts)) != Expected(root) then Err(Failed)
    else
      var pruned := Prune(d, verdicts);
      if pruned.Err? then Err(Failed) else Ok((pruned.value, |Identities(verdicts)|))
  }

  /** The concluded document and the number of concluded artifacts. */
  function Conclude(root: Root, d: Document): Done<(Document, nat)> {
    if d.descriptor != Some(("syft", "1.46.0")) || d.artifacts.None? then Err(Failed)
    else
      var extra := Supplements(root, d.artifacts.value);
      if extra.Err? then Err(Failed)
      else
        var verdicts := Collect(Judgements(root, d.artifacts.value + extra.value));
        if verdicts.Err? then Err(Failed) else Settle(root, d, verdicts.value)
  }

  // ---- judging a judged artifact again ----

  lemma CpeAgain(cpe: Cpe, version: string, again: Cpe)
    requires CanonicalCpe(cpe, version) == Ok(again)
    ensures ':' !in version ==> CanonicalCpe(again, version) == Ok(again)
    ensures ':' in version ==> CanonicalCpe(again, version).Err?
  {
    var fields := Split(cpe.text, ':');
    var replaced := fields[5 := version];
    SplitFields(cpe.text, ':');
    if ':' in version {
      JoinedFieldGrows(replaced, ':', 5);
    } else {
      SplitOfJoin(replaced, ':');
      assert replaced[..3] == fields[..3];
      assert replaced[5 := version] == replaced;
    }
  }

  lemma CpesAgain(cpes: seq<Cpe>, version: string, again: seq<Cpe>)
    requires Collect(CanonicalCpes(cpes, version)) == Ok(again)
    ensures |again| == |cpes|
    ensures cpes == [] || ':' !in version ==> Collect(CanonicalCpes(again, version)) == Ok(again)
    ensures cpes != [] && ':' in version ==> Collect(CanonicalCpes(again, version)).Err?
  {
    CollectAll(CanonicalCpes(cpes, version));
    forall i | 0 <= i < |cpes|
      ensures ':' !in version ==> CanonicalCpe(again[i], version) == Ok(again[i])
      ensures ':' in version ==> CanonicalCpe(again[i], version).Err?
    {
      CpeAgain(cpes[i], version, again[i]);
    }
    if cpes == [] || ':' !in version {
      CollectValues(CanonicalCpes(again, version), again);
    } else {
      CollectFirstError(CanonicalCpes(again, version), 0);
    }
  }

  // A linked artifact whose rewritten CPE texts will not parse again.
  predicate Unstable(a: Artifact) {
    Linked(a) && a.version.Some? && ':' in a.version.value && a.cpes.Some? && a.cpes.value != []
  }

  lemma AttributeAgain(root: Root, a: Artifact, location: Location, b: Artifact, authority: Authority)
    requires a.name.Some? && Attribute(root, a, location) == Ok((b, authority))
    ensures b == a.(version := b.version, purl := b.purl, cpes := b.cpes)
    ensures b.packageType == Some(authority.packageType) && b.version == Some(authority.version) && b.purl == Some(authority.purl)
    ensures !Unstable(b) ==> Attribute(root, b, location) == Ok((b, authority))
    ensures Unstable(b) ==> Attribute(root, b, location).Err?
  {
    if Linked(a) {
      CpesAgain(a.cpes.value, authority.version, b.cpes.value);
    }
  }

  lemma ConcludeLicenseAgain(a: Artifact, authority: Authority, b: Artifact)
    requires ConcludeLicense(a, authority) == Ok(b)
    ensures b == a.(licenses := b.licenses)
    ensures ConcludeLicense(b, authority) == Ok(b)
  {
    var licenses := Concluded(authority);
    assert Observed(licenses[0]) && Observed(licenses[1]);
  }

  lemma AttributeIgnoresLicenses(root: Root, a: Artifact, location: Location, licenses: Option<seq<License>>)
    requires a.name.Some?
    ensures Attribute(root, a.(licenses := licenses), location) ==
      var r := Attribute(root, a, location); if r.Err? then r else Ok((r.value.0.(licenses := licenses), r.value.1))
  {
    var b := a.(licenses := licenses);
    if Linked(a) {
      assert LinkedAuthority(root, b, location) == LinkedAuthority(root, a, location);
    } else {
      assert ExactAuthority(root, b, location) == ExactAuthority(root, a, location);
    }
  }

  /** A first-party artifact keeps everything but version, package URL, CPEs and licenses; judged
      again it stays as it is, unless its CPE texts no longer parse. */
  lemma JudgeFirstPartyAgain(root: Root, a: Artifact, b: Artifact, identity: Identity)
    requires a.name.Some? && JudgeFirstParty(root, a) == Ok(FirstParty(b, identity))
    ensures b == a.(version := b.version, purl := b.purl, cpes := b.cpes, licenses := b.licenses)
    ensures b.packageType == Some(identity.packageType) && b.name == Some(identity.name) && b.version == Some(identity.version)
    ensures b.purl == Some(identity.purl) && b.location == Some(identity.location)
    ensures !Unstable(b) ==> JudgeFirstParty(root, b) == Ok(FirstParty(b, identity))
    ensures Unstable(b) ==> JudgeFirstParty(root, b).Err?
    ensures !Linked(a) ==> b.version == a.version
  {
    var location := root.resolve(a.location.value).value;
    var middle, authority := Attribute(root, a, location).value.0, Attribute(root, a, location).value.1;
    AttributeAgain(root, a, location, middle, authority);
    ConcludeLicenseAgain(middle, authority, b);
    AttributeIgnoresLicenses(root, middle, location, b.licenses);
    assert b == middle.(licenses := b.licenses);
    AttributeName(root, a, location);
  }

  lemma AttributeName(root: Root, a: Artifact, location: Location)
    requires a.name.Some?
    ensures Attribute(root, a, location).Ok? ==> Attribute(root, a, location).value.1.name == a.name.value
  {
  }

  lemma JudgeAgain(root: Root, e: Entry, v: Verdict)
    requires Judge(root, e) == Ok(v) && Kept(v)
    ensures !Unstable(v.kept) || v.ThirdParty? ==> Judge(root, Object(v.kept)) == Ok(v)
    ensures Unstable(v.kept) && v.FirstParty? ==> Judge(root, Object(v.kept)).Err?
  {
    if v.FirstParty? { JudgeFirstPartyAgain(root, e.artifact, v.kept, v.identity); }
  }

  lemma JudgeKeepsPython(root: Root, e: Entry, v: Verdict, name: string, version: string)
    requires Judge(root, e) == Ok(v) && CarriesAt(e, "python", name, version)
    ensures Kept(v) && CarriesAt(Object(v.kept), "python", name, version)
  {
    if v.FirstParty? { JudgeFirstPartyAgain(root, e.artifact, v.kept, v.identity); }
  }

  // ---- judging a judged document again ----

  ghost predicate Judged(root: Root, entries: seq<Entry>, verdicts: seq<Verdict>) {
    |verdicts| == |entries| && forall i :: 0 <= i < |entries| ==> Judge(root, entries[i]) == Ok(verdicts[i])
  }

  lemma {:induction false} RetainedShape(verdicts: seq<Verdict>)
    ensures |Retained(verdicts)| == |Filter(Kept, verdicts)|
    ensures forall i :: 0 <= i < |Filter(Kept, verdicts)| ==> Kept(Filter(Kept, verdicts)[i])
    ensures forall i :: 0 <= i < |Retained(verdicts)| ==> Retained(verdicts)[i] == Object(Filter(Kept, verdicts)[i].kept)
  {
    if verdicts != [] { RetainedShape(verdicts[..|verdicts| - 1]); }
  }

  lemma {:induction false} KeptAlone(verdicts: seq<Verdict>)
    requires forall i :: 0 <= i < |verdicts| ==> Kept(verdicts[i])
    ensures ExcludedIds(verdicts) == []
  {
    if verdicts != [] { KeptAlone(verdicts[..|verdicts| - 1]); }
  }

  lemma {:induction false} KeptSame(verdicts: seq<Verdict>)
    ensures Retained(Filter(Kept, verdicts)) == Retained(verdicts)
    ensures Identities(Filter(Kept, verdicts)) == Identities(verdicts)
  {
    if verdicts != [] {
      var n := |verdicts| - 1;
      KeptSame(verdicts[..n]);
      var kept := Filter(Kept, verdicts[..n]);
      if Kept(verdicts[n]) { assert (kept + [verdicts[n]])[..|kept|] == kept; }
    }
  }

  lemma {:induction false} RetainedMember(verdicts: seq<Verdict>, i: nat)
    requires i < |verdicts| && Kept(verdicts[i])
    ensures Object(verdicts[i].kept) in Retained(verdicts)
  {
    if i < |verdicts| - 1 { RetainedMember(verdicts[..|verdicts| - 1], i); }
  }

  ghost predicate Stable(entries: seq<Entry>) {
    forall i :: 0 <= i < |entries| && entries[i].Object? && FirstPartyName(entries[i].artifact.name) ==> !Unstable(entries[i].artifact)
  }

  lemma KeptOrigin(root: Root, entries: seq<Entry>, verdicts: seq<Verdict>, k: nat) returns (i: nat)
    requires Judged(root, entries, verdicts) && k < |Retained(verdicts)|
    ensures |Retained(verdicts)| == |Filter(Kept, verdicts)|
    ensures i < |entries| && verdicts[i] == Filter(Kept, verdicts)[k] && Kept(verdicts[i])
    ensures Retained(verdicts)[k] == Object(verdicts[i].kept)
  {
    RetainedShape(verdicts);
    var v := Filter(Kept, verdicts)[k];
    assert v in Filter(Kept, verdicts);
    i :| 0 <= i < |verdicts| && verdicts[i] == v;
  }

  lemma JudgedNames(root: Root, e: Entry, v: Verdict)
    requires Judge(root, e) == Ok(v) && Kept(v)
    ensures e.Object? && v.kept.name == e.artifact.name
    ensures v.FirstParty? <==> FirstPartyName(v.kept.name)
    ensures v.ThirdParty? ==> v.kept == e.artifact
  {
    if v.FirstParty? { JudgeFirstPartyAgain(root, e.artifact, v.kept, v.identity); }
  }

  lemma RetainedAgain(root: Root, entries: seq<Entry>, verdicts: seq<Verdict>)
    requires Judged(root, entries, verdicts)
    ensures Stable(Retained(verdicts)) ==> Collect(Judgements(root, Retained(verdicts))) == Ok(Filter(Kept, verdicts))
    ensures !Stable(Retained(verdicts)) ==> Collect(Judgements(root, Retained(verdicts))).Err?
  {
    var out, kept := Retained(verdicts), Filter(Kept, verdicts);
    RetainedShape(verdicts);
    forall k | 0 <= k < |out|
      ensures FirstPartyName(out[k].artifact.name) && Unstable(out[k].artifact) ==> Judge(root, out[k]).Err?
      ensures !FirstPartyName(out[k].artifact.name) || !Unstable(out[k].artifact) ==> Judge(root, out[k]) == Ok(kept[k])
    {
      var i := KeptOrigin(root, entries, verdicts, k);
      JudgeAgain(root, entries[i], verdicts[i]);
      JudgedNames(root, entries[i], verdicts[i]);
    }
    if Stable(out) {
      CollectValues(Judgements(root, out), kept);
    } else if Collect(Judgements(root, out)).Ok? {
      CollectAll(Judgements(root, out));
      assert false;
    }
  }

  lemma SupplementsCarry(root: Root, entries: seq<Entry>, extra: seq<Entry>, authority: Authority)
    requires Supplements(root, entries) == Ok(extra) && authority in root.authorities && Python(authority)
    ensures Carries(entries + extra, "python", authority.name, authority.version)
  {
    var missing := Filter(Missing(entries), Sort(ByPurl, root.authorities));
    CollectAll(ManifestArtifacts(root, missing));
    var all := entries + extra;
    if Missing(entries)(authority) {
      assert authority in multiset(root.authorities);
      assert authority in Sort(ByPurl, root.authorities);
      assert authority in missing;
      var i :| 0 <= i < |missing| && missing[i] == authority;
      assert ManifestArtifact(root, missing[i]) == Ok(extra[i]);
      assert CarriesAt(all[|entries| + i], "python", authority.name, authority.version);
    } else {
      var i :| 0 <= i < |entries| && CarriesAt(entries[i], "python", authority.name, authority.version);
      assert all[i] == entries[i];
    }
  }

  lemma RetainedCarries(root: Root, entries: seq<Entry>, verdicts: seq<Verdict>, name: string, version: string)
    requires Judged(root, entries, verdicts) && Carries(entries, "python", name, version)
    ensures Carries(Retained(verdicts), "python", name, version)
  {
    var i :| 0 <= i < |entries| && CarriesAt(entries[i], "python", name, version);
    JudgeKeepsPython(root, entries[i], verdicts[i], name, version);
    RetainedMember(verdicts, i);
    var k :| 0 <= k < |Retained(verdicts)| && Retained(verdicts)[k] == Object(verdicts[i].kept);
    assert CarriesAt(Retained(verdicts)[k], "python", name, version);
  }

  lemma NothingMissing(root: Root, entries: seq<Entry>, extra: seq<Entry>, verdicts: seq<Verdict>)
    requires Supplements(root, entries) == Ok(extra) && Judged(root, entries + extra, verdicts)
    ensures Supplements(root, Retained(verdicts)) == Ok([])
  {
    var out := Retained(verdicts);
    var missing := Filter(Missing(out), Sort(ByPurl, root.authorities));
    if missing != [] {
      var authority := missing[0];
      assert authority in missing;
      assert authority in multiset(Sort(ByPurl, root.authorities));
      assert authority in root.authorities && Python(authority);
      SupplementsCarry(root, entries, extra, authority);
      RetainedCarries(root, entries + extra, verdicts, authority.name, authority.version);
      assert false;
    }
    assert ManifestArtifacts(root, missing) == [];
  }

  lemma ConcludedShape(root: Root, d: Document, out: Document, count: nat)
    returns (extra: seq<Entry>, verdicts: seq<Verdict>)
    requires Conclude(root, d) == Ok((out, count))
    ensures d.artifacts.Some? && Supplements(root, d.artifacts.value) == Ok(extra)
    ensures Judged(root, d.artifacts.value + extra, verdicts)
    ensures Settle(root, d, verdicts) == Ok((out, count))
  {
    extra := Supplements(root, d.artifacts.value).value;
    verdicts := Collect(Judgements(root, d.artifacts.value + extra)).value;
    CollectAll(Judgements(root, d.artifacts.value + extra));
  }

  lemma SettledShape(root: Root, d: Document, out: Document, verdicts: seq<Verdict>, count: nat)
    requires d.artifacts.Some? && Settle(root, d, verdicts) == Ok((out, count))
    ensures out.artifacts == Some(Retained(verdicts)) && out.descriptor == d.descriptor
  {
  }

  // What was kept settles as it is.
  lemma SettledAgain(root: Root, d: Document, out: Document, verdicts: seq<Verdict>, count: nat)
    requires d.artifacts.Some? && Settle(root, d, verdicts) == Ok((out, count))
    ensures Settle(root, out, Filter(Kept, verdicts)) == Ok((out, count))
  {
    RetainedShape(verdicts);
    KeptAlone(Filter(Kept, verdicts));
    KeptSame(verdicts);
  }

  /** Concluding a concluded document succeeds exactly when no linked package with CPEs took a
      version that holds a colon, and then changes nothing and counts the same. */
  lemma ConcludeIdempotent(root: Root, d: Document, out: Document, count: nat)
    requires Conclude(root, d) == Ok((out, count))
    ensures out.artifacts.Some?
    ensures Conclude(root, out).Ok? <==> Stable(out.artifacts.value)
    ensures Stable(out.artifacts.value) ==> Conclude(root, out) == Ok((out, count))
  {
    var extra, verdicts := ConcludedShape(root, d, out, count);
    NothingMissing(root, d.artifacts.value, extra, verdicts);
    RetainedAgain(root, d.artifacts.value + extra, verdicts);
    SettledShape(root, d, out, verdicts, count);
    var entries := out.artifacts.value;
    assert entries + [] == entries;
    if Stable(entries) {
      SettledAgain(root, d, out, verdicts, count);
    }
  }

  function SampleCpe(): (fields: seq<string>)
    ensures |fields| == 13 && fields[..3] == ["cpe", "2.3", "a"]
    ensures forall i :: 0 <= i < |fields| ==> ':' !in fields[i]
  {
    ["cpe", "2.3", "a"] + ["v", "p", "UNKNOWN", "*", "*", "*", "*", "*", "*", "*"]
  }

  /** The exception is real: a version with a colon turns a valid CPE into one that is rejected. */
  lemma ColonBreaksCpe(cpe: Cpe)
    requires cpe == Cpe("syft-generated", Join(SampleCpe(), ':'), "")
    ensures CanonicalCpe(cpe, "1:2").Ok?
    ensures CanonicalCpe(CanonicalCpe(cpe, "1:2").value, "1:2").Err?
  {
    var again := SampleIsRewritten(cpe);
    assert "1:2"[1] == ':';
    CpeAgain(cpe, "1:2", again);
  }

  lemma SampleIsRewritten(cpe: Cpe) returns (again: Cpe)
    requires cpe == Cpe("syft-generated", Join(SampleCpe(), ':'), "")
    ensures CanonicalCpe(cpe, "1:2") == Ok(again)
  {
    SplitOfJoin(SampleCpe(), ':');
    again := CanonicalCpe(cpe, "1:2").value;
  }

  // ---- a document that cannot be concluded twice ----

  const LOCK := Location("/sdk", "package-lock.json")
  const SAMPLE_AUTHORITY := Authority("npm", "hyphae-sdk", "1:2", "pkg:npm/hyphae-sdk@1:2", Location("/sdk", "package.json"))

  // One npm package that the lock links to version 1:2.
  function SampleRoot(): Root {
    Root([SAMPLE_AUTHORITY], path => Some(LOCK), Some([SampleIdentity()]), (l, name, version) => false, (l, name, version) => false,
         (l, name, target) => Some("1:2"), name => None, manifest => true, text => text)
  }

  function SampleIdentity(): Identity { Identity("npm", "hyphae-sdk", "1:2", "pkg:npm/hyphae-sdk@1:2", "/sdk/package-lock.json") }

  function SampleArtifact(cpe: Cpe): Artifact {
    Artifact(Some("1"), Some("hyphae-sdk"), Some("UNKNOWN"), Some("npm"), Some(NpmPurl("hyphae-sdk")), Some(LOCK_CATALOGER),
             Some("/sdk/package-lock.json"), Some("sdk"), true, Some([cpe]), Some([]), "")
  }

  function SampleDocument(cpe: Cpe): Document {
    Document(Some(("syft", "1.46.0")), Some([Object(SampleArtifact(cpe))]), Some([]), "")
  }

  lemma SampleNames()
    ensures FirstPartyName(Some("hyphae-sdk")) && !PrivateName(Some("hyphae-sdk"))
  {
    assert "hyphae-sdk"[..7] == "hyphae-";
  }

  lemma CollectOne<T, E>(r: Result<T, E>)
    requires r.Ok?
    ensures Collect([r]) == Ok([r.value])
  {
    CollectValues([r], [r.value]);
  }

  lemma AttributesOne(root: Root, a: Artifact, location: Location, authority: Authority, cpe: Cpe, again: Cpe)
    requires a.name.Some? && Linked(a) && LinkedAuthority(root, a, location) == Some(authority)
    requires a.cpes == Some([cpe]) && CanonicalCpe(cpe, authority.version) == Ok(again)
    ensures Attribute(root, a, location)
      == Ok((a.(version := Some(authority.version), purl := Some(authority.purl), cpes := Some([again])), authority))
  {
    CollectOne(CanonicalCpe(cpe, authority.version));
    assert CanonicalCpes([cpe], authority.version) == [CanonicalCpe(cpe, authority.version)];
  }

  lemma SampleLinks(cpe: Cpe)
    ensures LinkedAuthority(SampleRoot(), SampleArtifact(cpe), LOCK) == Some(SAMPLE_AUTHORITY)
  {
  }

  function SampleKept(again: Cpe): Artifact {
    SampleArtifact(again).(version := Some("1:2"), purl := Some(SAMPLE_AUTHORITY.purl), licenses := Some(Concluded(SAMPLE_AUTHORITY)))
  }

  lemma JudgesOne(root: Root, a: Artifact, location: Location, authority: Authority, b: Artifact)
    requires FirstPartyName(a.name) && !PrivateName(a.name) && a.location.Some? && root.resolve(a.location.value) == Some(location)
    requires Attribute(root, a, location) == Ok((b, authority)) && b.licenses == Some([])
    ensures Judge(root, Object(a)) == Ok(FirstParty(b.(licenses := Some(Concluded(authority))),
      Identity(authority.packageType, authority.name, authority.version, authority.purl, a.location.value)))
  {
  }

  lemma SampleJudged(cpe: Cpe, again: Cpe)
    requires CanonicalCpe(cpe, "1:2") == Ok(again)
    ensures Judge(SampleRoot(), Object(SampleArtifact(cpe))) == Ok(FirstParty(SampleKept(again), SampleIdentity()))
  {
    SampleNames();
    SampleLinks(cpe);
    var a := SampleArtifact(cpe);
    AttributesOne(SampleRoot(), a, LOCK, SAMPLE_AUTHORITY, cpe, again);
    JudgesOne(SampleRoot(), a, LOCK, SAMPLE_AUTHORITY, a.(version := Some("1:2"), purl := Some(SAMPLE_AUTHORITY.purl), cpes := Some([again])));
  }

  lemma NoSupplements(root: Root, entries: seq<Entry>)
    requires forall i :: 0 <= i < |root.authorities| ==> !Python(root.authorities[i])
    ensures Supplements(root, entries) == Ok([])
  {
    var sorted := Sort(ByPurl, root.authorities);
    forall a | a in sorted ensures !Missing(entries)(a) {
      assert a in multiset(sorted);
      assert a in root.authorities;
    }
    FilterEmpty(Missing(entries), sorted);
    assert ManifestArtifacts(root, []) == [];
  }

  lemma SampleSettles(d: Document, v: Verdict)
    requires v.FirstParty? && v.identity == SampleIdentity()
    ensures Settle(SampleRoot(), d, [v]) == Ok((d.(artifacts := Some([Object(v.kept)])), 1))
  {
    assert [v][..0] == [];
    assert Identities([v]) == [SampleIdentity()] && Retained([v]) == [Object(v.kept)] && ExcludedIds([v]) == [];
    assert [SAMPLE_AUTHORITY][..0] == [];
    assert Filter(Python, SampleRoot().authorities) == [];
    assert [SampleIdentity()] + ManifestIdentities([]) == [SampleIdentity()];
  }

  lemma ConcludesOne(root: Root, d: Document, e: Entry, v: Verdict, out: Document)
    requires d.descriptor == Some(("syft", "1.46.0")) && d.artifacts == Some([e]) && Supplements(root, [e]) == Ok([])
    requires Judge(root, e) == Ok(v) && Settle(root, d, [v]) == Ok((out, 1))
    ensures Conclude(root, d) == Ok((out, 1))
  {
    assert [e] + [] == [e];
    CollectOne(Judge(root, e));
    assert Judgements(root, [e]) == [Judge(root, e)];
  }

  lemma SampleConcludes(d: Document, cpe: Cpe, again: Cpe, v: Verdict)
    requires d == SampleDocument(cpe) && CanonicalCpe(cpe, "1:2") == Ok(again) && v == FirstParty(SampleKept(again), SampleIdentity())
    ensures Conclude(SampleRoot(), d) == Ok((d.(artifacts := Some([Object(v.kept)])), 1))
  {
    NoSupplements(SampleRoot(), [Object(SampleArtifact(cpe))]);
    SampleJudged(cpe, again);
    SampleSettles(d, v);
    ConcludesOne(SampleRoot(), d, Object(SampleArtifact(cpe)), v, d.(artifacts := Some([Object(v.kept)])));
  }

  lemma NotStable(entries: seq<Entry>, a: Artifact)
    requires entries == [Object(a)] && FirstPartyName(a.name) && Unstable(a)
    ensures !Stable(entries)
  {
    assert entries[0] == Object(a);
  }

  /** The exception is real for a whole document: this one is concluded, and its conclusion cannot be
      concluded again. */
  lemma ColonBreaksDocument(cpe: Cpe) returns (out: Document)
    requires cpe == Cpe("syft-generated", Join(SampleCpe(), ':'), "")
    ensures Conclude(SampleRoot(), SampleDocument(cpe)) == Ok((out, 1)) && Conclude(SampleRoot(), out).Err?
  {
    var again := SampleIsRewritten(cpe);
    out := ColonBreaks(SampleRoot(), SampleDocument(cpe), cpe, again);
  }

  lemma ColonBreaks(root: Root, d: Document, cpe: Cpe, again: Cpe) returns (out: Document)
    requires root == SampleRoot() && d == SampleDocument(cpe) && CanonicalCpe(cpe, "1:2") == Ok(again)
    ensures Conclude(root, d) == Ok((out, 1)) && Conclude(root, out).Err?
  {
    var kept := SampleKept(again);
    SampleConcludes(d, cpe, again, FirstParty(kept, SampleIdentity()));
    out := d.(artifacts := Some([Object(kept)]));
    ConcludeIdempotent(root, d, out, 1);
    assert "1:2"[1] == ':';
    SampleNames();
    NotStable(out.artifacts.value, kept);
  }

  // ---- conservation ----

  predicate ThirdPartyEntry(e: Entry) {
    e.Object? && !PrivateName(e.artifact.name) && !FirstPartyName(e.artifact.name)
  }

  predicate Public(e: Entry) { e.Object? && !PrivateName(e.artifact.name) }

  function Or(field: Option<string>): string { if field.Some? then field.value else "" }

  function OwnIdentity(a: Artifact): Identity {
    Identity(Or(a.packageType), Or(a.name), Or(a.version), Or(a.purl), Or(a.location))
  }

  /** The identities that the first-party artifacts themselves carry. */
  function OwnIdentities(entries: seq<Entry>): seq<Identity> {
    if entries == [] then []
    else
      var rest, last := OwnIdentities(entries[..|entries| - 1]), entries[|entries| - 1];
      if last.Object? && FirstPartyName(last.artifact.name) then rest + [OwnIdentity(last.artifact)] else rest
  }

  // What a kept artifact may differ in from what it was.
  predicate OnlyConcluded(e: Entry, out: Entry) {
    && e.Object? && out.Object?
    && (if FirstPartyName(e.artifact.name) then
          out.artifact == e.artifact.(version := out.artifact.version, purl := out.artifact.purl,
                                      cpes := out.artifact.cpes, licenses := out.artifact.licenses)
        else out == e)
  }

  // A verdict and the entry it was passed on.
  ghost predicate Conserves(e: Entry, v: Verdict) {
    && (Kept(v) <==> Public(e))
    && (Kept(v) ==> OnlyConcluded(e, Object(v.kept)))
    && (v.Excluded? ==> e.Object? && PrivateName(e.artifact.name) && e.artifact.id == Some(v.id))
    && (v.FirstParty? ==> OwnIdentity(v.kept) == v.identity)
    && (v.FirstParty? <==> Kept(v) && FirstPartyName(v.kept.name))
  }

  ghost predicate AllConserve(entries: seq<Entry>, verdicts: seq<Verdict>) {
    |verdicts| == |entries| && forall i :: 0 <= i < |entries| ==> Conserves(entries[i], verdicts[i])
  }

  lemma JudgeConserves(root: Root, e: Entry, v: Verdict)
    requires Judge(root, e) == Ok(v)
    ensures Conserves(e, v)
  {
    if v.FirstParty? { JudgeFirstPartyAgain(root, e.artifact, v.kept, v.identity); }
  }

  lemma JudgedConserves(root: Root, entries: seq<Entry>, verdicts: seq<Verdict>)
    requires Judged(root, entries, verdicts)
    ensures AllConserve(entries, verdicts)
  {
    forall i | 0 <= i < |entries| ensures Conserves(entries[i], verdicts[i]) {
      JudgeConserves(root, entries[i], verdicts[i]);
    }
  }

  lemma {:induction false} RetainedConserves(entries: seq<Entry>, verdicts: seq<Verdict>)
    requires AllConserve(entries, verdicts)
    ensures EachOnlyConcluded(Filter(Public, entries), Retained(verdicts))
  {
    if entries != [] {
      var n := |entries| - 1;
      RetainedConserves(entries[..n], verdicts[..n]);
      assert Conserves(entries[n], verdicts[n]);
      if Kept(verdicts[n]) {
        OneMoreConcluded(Filter(Public, entries[..n]), Retained(verdicts[..n]), entries[n], Object(verdicts[n].kept));
      }
    }
  }

  ghost predicate EachOnlyConcluded(before: seq<Entry>, after: seq<Entry>) {
    |after| == |before| && forall i :: 0 <= i < |after| ==> OnlyConcluded(before[i], after[i])
  }

  lemma OneMoreConcluded(before: seq<Entry>, after: seq<Entry>, e: Entry, out: Entry)
    requires EachOnlyConcluded(before, after) && OnlyConcluded(e, out)
    ensures EachOnlyConcluded(before + [e], after + [out])
  {
  }

  lemma {:induction false} RetainedThirdParty(entries: seq<Entry>, verdicts: seq<Verdict>)
    requires AllConserve(entries, verdicts)
    ensures Filter(ThirdPartyEntry, Retained(verdicts)) == Filter(ThirdPartyEntry, entries)
  {
    if entries != [] {
      var n := |entries| - 1;
      RetainedThirdParty(entries[..n], verdicts[..n]);
      assert Conserves(entries[n], verdicts[n]);
      if Kept(verdicts[n]) { FilterSnoc(ThirdPartyEntry, Retained(verdicts[..n]), Object(verdicts[n].kept)); }
    }
  }

  lemma {:induction false} RetainedIdentities(entries: seq<Entry>, verdicts: seq<Verdict>)
    requires AllConserve(entries, verdicts)
    ensures OwnIdentities(Retained(verdicts)) == Identities(verdicts)
  {
    if entries != [] {
      var n := |entries| - 1;
      RetainedIdentities(entries[..n], verdicts[..n]);
      assert Conserves(entries[n], verdicts[n]);
      var rest := Retained(verdicts[..n]);
      if Kept(verdicts[n]) { assert (rest + [Object(verdicts[n].kept)])[..|rest|] == rest; }
    }
  }

  // Identities of private artifacts, in order.
  function PrivateIds(entries: seq<Entry>): seq<string> {
    if entries == [] then []
    else
      var rest, last := PrivateIds(entries[..|entries| - 1]), entries[|entries| - 1];
      if last.Object? && PrivateName(last.artifact.name) && last.artifact.id.Some? then rest + [last.artifact.id.value] else rest
  }

  lemma {:induction false} ExcludedArePrivate(entries: seq<Entry>, verdicts: seq<Verdict>)
    requires AllConserve(entries, verdicts)
    ensures ExcludedIds(verdicts) == PrivateIds(entries)
  {
    if entries != [] {
      var n := |entries| - 1;
      ExcludedArePrivate(entries[..n], verdicts[..n]);
      assert Conserves(entries[n], verdicts[n]);
    }
  }

  // Discovery registers first-party names only.
  ghost predicate FirstPartyAuthorities(root: Root) {
    forall a :: a in root.authorities ==> FirstPartyName(Some(a.name))
  }

  lemma SupplementsAreFirstParty(root: Root, entries: seq<Entry>, extra: seq<Entry>)
    requires Supplements(root, entries) == Ok(extra) && FirstPartyAuthorities(root)
    ensures Filter(ThirdPartyEntry, extra) == []
  {
    var missing := Filter(Missing(entries), Sort(ByPurl, root.authorities));
    CollectAll(ManifestArtifacts(root, missing));
    forall e | e in extra ensures !ThirdPartyEntry(e) {
      var i :| 0 <= i < |extra| && extra[i] == e;
      assert missing[i] in missing;
      assert missing[i] in multiset(Sort(ByPurl, root.authorities));
      assert ManifestArtifact(root, missing[i]) == Ok(extra[i]);
    }
    FilterEmpty(ThirdPartyEntry, extra);
  }

  /** What a successful conclusion conserves: third-party artifacts unchanged and in order; of the
      others only version, package URL, CPEs and licenses touched; only private tools gone; only
      the relationships that touch them dropped; and first-party identities equal, with
      multiplicity, to what locks and manifests name. */
  lemma ConcludeConserves(root: Root, d: Document, out: Document, count: nat)
    requires Conclude(root, d) == Ok((out, count)) && FirstPartyAuthorities(root)
    ensures d.artifacts.Some? && out.artifacts.Some? && Supplements(root, d.artifacts.value).Ok? && root.lockIdentities.Some?
    ensures Filter(ThirdPartyEntry, out.artifacts.value) == Filter(ThirdPartyEntry, d.artifacts.value)
    ensures
      var all := d.artifacts.value + Supplements(root, d.artifacts.value).value;
      && |out.artifacts.value| == |Filter(Public, all)|
      && (forall i :: 0 <= i < |out.artifacts.value| ==> OnlyConcluded(Filter(Public, all)[i], out.artifacts.value[i]))
      && (if PrivateIds(all) == [] then out.relationships == d.relationships
          else d.relationships.Some? && out.relationships == Some(Filter(Untouched(PrivateIds(all)), d.relationships.value)))
    ensures multiset(OwnIdentities(out.artifacts.value)) == Expected(root)
    ensures count == |OwnIdentities(out.artifacts.value)|
    ensures out == d.(artifacts := out.artifacts, relationships := out.relationships)
  {
    var extra, verdicts := ConcludedShape(root, d, out, count);
    var all := d.artifacts.value + extra;
    JudgedConserves(root, all, verdicts);
    RetainedThirdParty(all, verdicts);
    FilterConcat(ThirdPartyEntry, d.artifacts.value, extra);
    SupplementsAreFirstParty(root, d.artifacts.value, extra);
    RetainedConserves(all, verdicts);
    RetainedIdentities(all, verdicts);
    ExcludedArePrivate(all, verdicts);
  }
}
