/** The layered crates.io release graph: the gate's verdict and what publication may rely on. */
module ReleaseGraph {
  import opened Results

  datatype Dependency = Dependency(name: string, kind: string, req: string, path: Option<string>)

  datatype Package = Package(version: string, dependencies: seq<Dependency>)

  datatype Count = Undeclared | Declared(n: int) | NotAnInteger

  datatype Baseline = NotAList | Names(names: seq<string>)

  datatype Release = Release(version: string, layers: seq<seq<string>>, count: Count, baseline: Baseline)

  datatype Fault =
    | WrongCount
    | BaselineNotAList
    | BaselineRepeats
    | BaselineOutside
    | RepeatedCrate
    | OtherPublishableSet
    | NoMetadata(crate: string)
    | WrongVersion(crate: string)
    | InexactRequirement(crate: string, dependency: string)
    | LateLayer(crate: string, dependency: string)

  function Flatten(layers: seq<seq<string>>): seq<string> {
    if layers == [] then [] else Flatten(layers[..|layers| - 1]) + layers[|layers| - 1]
  }

  function Members(crates: seq<string>): set<string> {
    set c | c in crates
  }

  predicate Repeats(names: seq<string>) {
    exists i, j :: 0 <= i < j < |names| && names[i] == names[j]
  }

  // The last layer that names the crate.
  function Layer(layers: seq<seq<string>>, crate: string): nat
    requires crate in Flatten(layers)
  {
    if crate in layers[|layers| - 1] then |layers| - 1 else Layer(layers[..|layers| - 1], crate)
  }

  // Path-only development dependencies do not reach the published manifest.
  predicate Retained(d: Dependency) {
    !(d.kind == "dev" && d.req == "*" && d.path.Some?)
  }

  predicate Needs(p: Package, k: nat, name: string) {
    k < |p.dependencies| && p.dependencies[k].name == name && Retained(p.dependencies[k])
  }

  /** What each fault means, apart from how the gate looks for it. */
  ghost predicate Holds(r: Release, packages: map<string, Package>, publishable: seq<string>, f: Fault) {
    var crates := Flatten(r.layers);
    match f
    case WrongCount => r.count.NotAnInteger? || (r.count.Declared? && r.count.n != |crates|)
    case BaselineNotAList => r.baseline.NotAList?
    case BaselineRepeats => r.baseline.Names? && Repeats(r.baseline.names)
    case BaselineOutside => r.baseline.Names? && !Repeats(r.baseline.names) && !(Members(r.baseline.names) <= Members(crates))
    case RepeatedCrate => Repeats(crates)
    case OtherPublishableSet => Members(publishable) != Members(crates)
    case NoMetadata(c) => c in crates && c !in packages
    case WrongVersion(c) => c in crates && c in packages && packages[c].version != r.version
    case InexactRequirement(c, d) =>
      && c in crates && d in crates && c in packages
      && exists k: nat :: Needs(packages[c], k, d) && packages[c].dependencies[k].req != "=" + r.version
    case LateLayer(c, d) =>
      && c in crates && d in crates && c in packages && Layer(r.layers, d) >= Layer(r.layers, c)
      && exists k: nat :: Needs(packages[c], k, d)
  }

  ghost predicate Accepts(r: Release, packages: map<string, Package>, publishable: seq<string>) {
    forall f :: !Holds(r, packages, publishable, f)
  }

  // ---- the gate ----

  method LayerTable(layers: seq<seq<string>>) returns (crates: seq<string>, table: map<string, nat>)
    ensures crates == Flatten(layers) && table.Keys == Members(crates)
    ensures forall c :: c in crates ==> table[c] == Layer(layers, c)
  {
    crates, table := [], map[];
    for i := 0 to |layers|
      invariant crates == Flatten(layers[..i]) && table.Keys == Members(crates)
      invariant forall c :: c in crates ==> table[c] == Layer(layers[..i], c)
    {
      ghost var before, was := crates, table;
      for j := 0 to |layers[i]|
        invariant crates == before + layers[i][..j] && table.Keys == Members(crates)
        invariant forall c :: c in crates ==> table[c] == if c in layers[i][..j] then i else was[c]
      {
        assert before + layers[i][..j + 1] == before + layers[i][..j] + [layers[i][j]];
        crates := crates + [layers[i][j]];
        table := table[layers[i][j] := i];
      }
      assert layers[i][..|layers[i]|] == layers[i];
      assert layers[..i + 1][..i] == layers[..i];
    }
    assert layers[..|layers|] == layers;
  }

  // The faults of one crate's dependencies, looking at the first n of them.
  ghost predicate CrateFault(r: Release, packages: map<string, Package>, c: string, n: nat, f: Fault)
    requires c in Flatten(r.layers)
  {
    match f
    case NoMetadata(x) => x == c && c !in packages
    case WrongVersion(x) => x == c && c in packages && packages[c].version != r.version
    case InexactRequirement(x, d) =>
      && x == c && c in packages && d in Flatten(r.layers)
      && exists k: nat :: k < n && Needs(packages[c], k, d) && packages[c].dependencies[k].req != "=" + r.version
    case LateLayer(x, d) =>
      && x == c && c in packages && d in Flatten(r.layers) && Layer(r.layers, d) >= Layer(r.layers, c)
      && exists k: nat :: k < n && Needs(packages[c], k, d)
    case _ => false
  }

  method CheckCrate(r: Release, packages: map<string, Package>, table: map<string, nat>, c: string) returns (failures: seq<Fault>)
    requires c in Flatten(r.layers) && table.Keys == Members(Flatten(r.layers))
    requires forall x :: x in Flatten(r.layers) ==> table[x] == Layer(r.layers, x)
    ensures forall f :: f in failures <==> CrateFault(r, packages, c, if c in packages then |packages[c].dependencies| else 0, f)
  {
    if c !in packages {
      return [NoMetadata(c)];
    }
    failures := [];
    if packages[c].version != r.version {
      failures := [WrongVersion(c)];
    }
    var dependencies := packages[c].dependencies;
    for k := 0 to |dependencies|
      invariant forall f :: f in failures <==> CrateFault(r, packages, c, k, f)
    {
      var d := dependencies[k];
      if d.name !in table {
        continue;
      }
      if d.kind == "dev" && d.req == "*" && d.path.Some? {
        continue;
      }
      assert Needs(packages[c], k, d.name);
      if d.req != "=" + r.version {
        failures := failures + [InexactRequirement(c, d.name)];
      }
      if table[d.name] >= table[c] {
        failures := failures + [LateLayer(c, d.name)];
      }
    }
  }

  method CheckConfiguration(r: Release, crates: seq<string>, publishable: seq<string>) returns (failures: seq<Fault>)
    requires crates == Flatten(r.layers)
    ensures forall f :: f in failures <==>
      && Holds(r, map[], publishable, f) && !f.NoMetadata?
  {
    failures := [];
    if r.count.NotAnInteger? || (r.count.Declared? && r.count.n != |crates|) {
      failures := failures + [WrongCount];
    }
    if r.baseline.NotAList? {
      failures := failures + [BaselineNotAList];
    } else if Repeats(r.baseline.names) {
      failures := failures + [BaselineRepeats];
    } else if !(Members(r.baseline.names) <= Members(crates)) {
      failures := failures + [BaselineOutside];
    }
    if Repeats(crates) {
      failures := failures + [RepeatedCrate];
    }
    if Members(publishable) != Members(crates) {
      failures := failures + [OtherPublishableSet];
    }
  }

  /** The gate reports exactly the faults that hold. */
  method ValidateReleaseGraph(r: Release, packages: map<string, Package>, publishable: seq<string>)
    returns (crates: seq<string>, failures: seq<Fault>)
    ensures crates == Flatten(r.layers)
    ensures forall f :: f in failures <==> Holds(r, packages, publishable, f)
    ensures failures == [] <==> Accepts(r, packages, publishable)
  {
    var table;
    crates, table := LayerTable(r.layers);
    failures := CheckConfiguration(r, crates, publishable);
    ghost var configuration := failures;
    for i := 0 to |crates|
      invariant forall f :: f in failures <==> f in configuration || FoundBefore(r, packages, crates, i, f)
    {
      var more := CheckCrate(r, packages, table, crates[i]);
      failures := failures + more;
    }
    assert failures != [] ==> failures[0] in failures;
  }

  ghost predicate FoundBefore(r: Release, packages: map<string, Package>, crates: seq<string>, n: nat, f: Fault)
    requires crates == Flatten(r.layers) && n <= |crates|
  {
    exists i :: 0 <= i < n &&
      CrateFault(r, packages, crates[i], if crates[i] in packages then |packages[crates[i]].dependencies| else 0, f)
  }

  // ---- publication ----

  /** The registry holds every internal dependency the manifest retains, at the version it demands. */
  ghost predicate Ready(p: Package, internal: set<string>, registry: map<string, string>) {
    forall k: nat, d :: d in internal && Needs(p, k, d) ==>
      d in registry && p.dependencies[k].req == "=" + registry[d]
  }

  /** Publish one crate after the other; the registry refuses a crate that is not ready. */
  ghost function Publish(order: seq<string>, packages: map<string, Package>, internal: set<string>): Option<map<string, string>> {
    if order == [] then Some(map[])
    else
      var c := order[|order| - 1];
      match Publish(order[..|order| - 1], packages, internal)
      case None => None
      case Some(registry) =>
        if c in packages && Ready(packages[c], internal, registry) then Some(registry[c := packages[c].version]) else None
  }

  // Any order that finishes each layer before it starts the next.
  ghost predicate LayerOrder(layers: seq<seq<string>>, order: seq<string>) {
    && multiset(order) == multiset(Flatten(layers))
    && (forall c :: c in order <==> c in Flatten(layers))
    && forall i, j :: 0 <= i <= j < |order| ==> Layer(layers, order[i]) <= Layer(layers, order[j])
  }

  // Everything but the two faults about dependencies.
  ghost predicate Prepared(r: Release, packages: map<string, Package>) {
    && !Repeats(Flatten(r.layers))
    && forall c :: c in Flatten(r.layers) ==> c in packages && packages[c].version == r.version
  }

  ghost predicate DependenciesOrdered(r: Release, packages: map<string, Package>) {
    forall c, d, k: nat :: c in Flatten(r.layers) && d in Flatten(r.layers) && c in packages && Needs(packages[c], k, d) ==>
      packages[c].dependencies[k].req == "=" + r.version && Layer(r.layers, d) < Layer(r.layers, c)
  }

  lemma AcceptsMeaning(r: Release, packages: map<string, Package>, publishable: seq<string>)
    requires Accepts(r, packages, publishable)
    ensures Prepared(r, packages) && DependenciesOrdered(r, packages)
    ensures Members(publishable) == Members(Flatten(r.layers))
  {
    var crates := Flatten(r.layers);
    assert !Holds(r, packages, publishable, RepeatedCrate) && !Holds(r, packages, publishable, OtherPublishableSet);
    forall c | c in crates ensures c in packages && packages[c].version == r.version {
      assert !Holds(r, packages, publishable, NoMetadata(c)) && !Holds(r, packages, publishable, WrongVersion(c));
    }
    forall c, d, k: nat | c in crates && d in crates && c in packages && Needs(packages[c], k, d)
      ensures packages[c].dependencies[k].req == "=" + r.version && Layer(r.layers, d) < Layer(r.layers, c)
    {
      assert !Holds(r, packages, publishable, InexactRequirement(c, d)) && !Holds(r, packages, publishable, LateLayer(c, d));
    }
  }

  // A crate of an earlier layer comes earlier in the order.
  lemma EarlierLayerEarlier(layers: seq<seq<string>>, order: seq<string>, d: string, n: nat)
    requires LayerOrder(layers, order) && n < |order| && d in Flatten(layers)
    requires Layer(layers, d) < Layer(layers, order[n])
    ensures d in order[..n]
  {
    var i :| 0 <= i < |order| && order[i] == d;
    assert i < n;
    assert order[..n][i] == d;
  }

  function AtVersion(crates: set<string>, version: string): (m: map<string, string>)
    ensures m.Keys == crates && forall c :: c in crates ==> m[c] == version
  {
    map c | c in crates :: version
  }

  lemma ReadyAfterPrefix(r: Release, packages: map<string, Package>, order: seq<string>, n: nat)
    requires Prepared(r, packages) && DependenciesOrdered(r, packages) && LayerOrder(r.layers, order) && n < |order|
    ensures order[n] in packages && packages[order[n]].version == r.version
    ensures Ready(packages[order[n]], Members(Flatten(r.layers)), AtVersion(Members(order[..n]), r.version))
  {
    var p, internal, published := packages[order[n]], Members(Flatten(r.layers)), Members(order[..n]);
    forall k: nat, d | d in internal && Needs(p, k, d)
      ensures d in published && p.dependencies[k].req == "=" + r.version
    {
      EarlierLayerEarlier(r.layers, order, d, n);
    }
  }

  lemma PublishOneMore(packages: map<string, Package>, internal: set<string>, before: seq<string>, c: string, registry: map<string, string>)
    requires Publish(before, packages, internal) == Some(registry)
    requires c in packages && Ready(packages[c], internal, registry)
    ensures Publish(before + [c], packages, internal) == Some(registry[c := packages[c].version])
  {
    assert (before + [c])[..|before + [c]| - 1] == before;
  }

  lemma AtVersionGrows(before: seq<string>, c: string, version: string)
    ensures AtVersion(Members(before), version)[c := version] == AtVersion(Members(before + [c]), version)
  {
  }

  /** After n crates the registry holds exactly those n, all at the release version. */
  lemma {:induction false} PublishPrefix(r: Release, packages: map<string, Package>, order: seq<string>, n: nat)
    requires Prepared(r, packages) && DependenciesOrdered(r, packages) && LayerOrder(r.layers, order) && n <= |order|
    ensures Publish(order[..n], packages, Members(Flatten(r.layers))) == Some(AtVersion(Members(order[..n]), r.version))
  {
    if n > 0 {
      var c, before := order[n - 1], order[..n - 1];
      PublishPrefix(r, packages, order, n - 1);
      ReadyAfterPrefix(r, packages, order, n - 1);
      PublishOneMore(packages, Members(Flatten(r.layers)), before, c, AtVersion(Members(before), r.version));
      assert order[..n] == before + [c];
      AtVersionGrows(before, c, r.version);
    }
  }

  // Every retained internal dependency of a published crate is published.
  ghost predicate Closed(packages: map<string, Package>, internal: set<string>, registry: map<string, string>) {
    forall c :: c in registry ==> c in packages && packages[c].version == registry[c] && Ready(packages[c], internal, registry)
  }

  lemma {:induction false} PublishedIsClosed(packages: map<string, Package>, internal: set<string>, order: seq<string>)
    requires !Repeats(order)
    ensures Publish(order, packages, internal).Some? ==>
      && Closed(packages, internal, Publish(order, packages, internal).value)
      && Publish(order, packages, internal).value.Keys == Members(order)
  {
    if order != [] {
      var before, c := order[..|order| - 1], order[|order| - 1];
      PublishedIsClosed(packages, internal, before);
      assert c !in before;
      assert Members(order) == Members(before) + {c};
    }
  }

  /** No faults: any layer order, with the crates of one layer in any order, publishes crate by
      crate without a refusal; every prefix is closed under retained dependencies; the registry
      ends with the publishable set, all at the release version. */
  lemma AcceptedPublishes(r: Release, packages: map<string, Package>, publishable: seq<string>, order: seq<string>, n: nat)
    requires Accepts(r, packages, publishable) && LayerOrder(r.layers, order) && n <= |order|
    ensures Publish(order[..n], packages, Members(publishable)) == Some(AtVersion(Members(order[..n]), r.version))
    ensures Closed(packages, Members(publishable), AtVersion(Members(order[..n]), r.version))
    ensures Publish(order, packages, Members(publishable)) == Some(AtVersion(Members(publishable), r.version))
  {
    AcceptsMeaning(r, packages, publishable);
    PublishPrefix(r, packages, order, n);
    PublishPrefix(r, packages, order, |order|);
    assert order[..|order|] == order;
    assert Members(order) == Members(publishable);
    OrderHasNoRepeats(r.layers, order);
    PublishedIsClosed(packages, Members(publishable), order[..n]);
  }

  lemma RepeatIsDouble(s: seq<string>, i: nat, j: nat)
    requires i < j < |s| && s[i] == s[j]
    ensures multiset(s)[s[i]] >= 2
  {
    assert s == s[..j] + s[j..];
    assert s[..j][i] == s[i] && s[j..][0] == s[i];
    assert s[i] in s[..j] && s[i] in s[j..];
    assert multiset(s) == multiset(s[..j]) + multiset(s[j..]);
  }

  lemma {:induction false} DoubleIsRepeat(s: seq<string>, c: string)
    requires multiset(s)[c] >= 2
    ensures Repeats(s)
  {
    var before := s[..|s| - 1];
    assert s == before + [s[|s| - 1]];
    if s[|s| - 1] == c {
      assert c in multiset(before);
      var i :| 0 <= i < |before| && before[i] == c;
      assert s[i] == s[|s| - 1];
    } else {
      DoubleIsRepeat(before, c);
      var i, j :| 0 <= i < j < |before| && before[i] == before[j];
      assert s[i] == s[j];
    }
  }

  lemma OrderHasNoRepeats(layers: seq<seq<string>>, order: seq<string>)
    requires multiset(order) == multiset(Flatten(layers)) && !Repeats(Flatten(layers))
    ensures !Repeats(order)
  {
    if Repeats(order) {
      var i, j :| 0 <= i < j < |order| && order[i] == order[j];
      RepeatIsDouble(order, i, j);
      DoubleIsRepeat(Flatten(layers), order[i]);
    }
  }

  // ---- the order the layers are written in, and exactness ----

  lemma NoRepeatsApart(a: seq<string>, b: seq<string>)
    requires !Repeats(a + b)
    ensures !Repeats(a) && forall i :: 0 <= i < |a| ==> a[i] !in b
  {
    var s := a + b;
    forall i, j | 0 <= i < j < |a| ensures a[i] != a[j] {
      assert s[i] == a[i] && s[j] == a[j];
    }
    forall i, j | 0 <= i < |a| && 0 <= j < |b| ensures a[i] != b[j] {
      assert s[i] == a[i] && s[|a| + j] == b[j];
    }
  }

  lemma {:induction false} FlattenIsLayerOrder(layers: seq<seq<string>>)
    requires !Repeats(Flatten(layers))
    ensures LayerOrder(layers, Flatten(layers))
  {
    if layers != [] {
      var before, last := layers[..|layers| - 1], layers[|layers| - 1];
      var crates := Flatten(layers);
      var n := |Flatten(before)|;
      NoRepeatsApart(Flatten(before), last);
      FlattenIsLayerOrder(before);
      forall i | 0 <= i < |crates|
        ensures i < n ==> crates[i] == Flatten(before)[i] && Layer(layers, crates[i]) == Layer(before, crates[i]) < |before|
        ensures i >= n ==> Layer(layers, crates[i]) == |before|
      {
        if i < n {
          LayerBelow(before, crates[i]);
        } else {
          assert crates[i] == last[i - n];
        }
      }
    }
  }

  lemma {:induction false} LayerBelow(layers: seq<seq<string>>, c: string)
    requires c in Flatten(layers)
    ensures Layer(layers, c) < |layers|
  {
    if c !in layers[|layers| - 1] {
      LayerBelow(layers[..|layers| - 1], c);
    }
  }

  // What a refused crate would have needed.
  lemma PublishedNeeds(r: Release, packages: map<string, Package>, internal: set<string>, order: seq<string>, n: nat, k: nat, d: string)
    requires n < |order| && Publish(order, packages, internal).Some? && !Repeats(order)
    requires order[n] in packages && d in internal && Needs(packages[order[n]], k, d)
    ensures d in order[..n] && d in packages
    ensures packages[order[n]].dependencies[k].req == "=" + packages[d].version
  {
    PublishCut(packages, internal, order, n + 1);
    assert order[..n + 1][..n] == order[..n];
    PublishedIsClosed(packages, internal, order[..n]);
  }

  lemma {:induction false} PublishCut(packages: map<string, Package>, internal: set<string>, order: seq<string>, n: nat)
    requires n <= |order| && Publish(order, packages, internal).Some?
    ensures Publish(order[..n], packages, internal).Some?
  {
    if n < |order| {
      PublishCut(packages, internal, order[..|order| - 1], n);
      assert order[..|order| - 1][..n] == order[..n];
    } else {
      assert order[..n] == order;
    }
  }

  function Swap(s: seq<string>, i: nat, j: nat): seq<string>
    requires i < |s| && j < |s|
  {
    s[i := s[j]][j := s[i]]
  }

  lemma SwapKeepsCrates(order: seq<string>, i: nat, j: nat)
    requires i < |order| && j < |order|
    ensures multiset(Swap(order, i, j)) == multiset(order)
    ensures forall c :: c in Swap(order, i, j) <==> c in order
  {
    var s := Swap(order, i, j);
    assert multiset(s) == multiset(order);
    forall c ensures c in s <==> c in order {
      assert c in s <==> c in multiset(s);
      assert c in order <==> c in multiset(order);
    }
  }

  // Two crates of one layer may change places.
  lemma SwapWithinLayer(layers: seq<seq<string>>, order: seq<string>, i: nat, j: nat)
    requires LayerOrder(layers, order) && i < |order| && j < |order|
    requires Layer(layers, order[i]) == Layer(layers, order[j])
    ensures LayerOrder(layers, Swap(order, i, j))
  {
    var s := Swap(order, i, j);
    SwapKeepsCrates(order, i, j);
    assert forall k :: 0 <= k < |s| ==> Layer(layers, s[k]) == Layer(layers, order[k]);
  }

  /** The dependency rules are exactly what is needed for every layer order to publish. */
  lemma OrderedIffEveryLayerOrderPublishes(r: Release, packages: map<string, Package>)
    requires Prepared(r, packages)
    ensures DependenciesOrdered(r, packages) <==>
      forall order :: LayerOrder(r.layers, order) ==> Publish(order, packages, Members(Flatten(r.layers))).Some?
  {
    var internal := Members(Flatten(r.layers));
    if DependenciesOrdered(r, packages) {
      forall order | LayerOrder(r.layers, order) ensures Publish(order, packages, internal).Some? {
        PublishPrefix(r, packages, order, |order|);
        assert order[..|order|] == order;
      }
    }
    if forall order :: LayerOrder(r.layers, order) ==> Publish(order, packages, internal).Some? {
      forall c, d, k: nat | c in internal && d in internal && c in packages && Needs(packages[c], k, d)
        ensures packages[c].dependencies[k].req == "=" + r.version && Layer(r.layers, d) < Layer(r.layers, c)
      {
        PublishingOrders(r, packages, c, d, k);
      }
    }
  }

  lemma PublishingOrders(r: Release, packages: map<string, Package>, c: string, d: string, k: nat)
    requires Prepared(r, packages) && c in Flatten(r.layers) && d in Flatten(r.layers) && Needs(packages[c], k, d)
    requires forall order :: LayerOrder(r.layers, order) ==> Publish(order, packages, Members(Flatten(r.layers))).Some?
    ensures packages[c].dependencies[k].req == "=" + r.version && Layer(r.layers, d) < Layer(r.layers, c)
  {
    var internal, order := Members(Flatten(r.layers)), Flatten(r.layers);
    FlattenIsLayerOrder(r.layers);
    var n :| 0 <= n < |order| && order[n] == c;
    PublishedNeeds(r, packages, internal, order, n, k, d);
    var m :| 0 <= m < n && order[..n][m] == d;
    assert order[m] == d;
    if Layer(r.layers, d) == Layer(r.layers, c) {
      SwapWithinLayer(r.layers, order, m, n);
      var other := Swap(order, m, n);
      OrderHasNoRepeats(r.layers, other);
      PublishedNeeds(r, packages, internal, other, m, k, d);
      assert false;
    }
  }

  // ---- cycles ----

  ghost predicate NeedsEdge(packages: map<string, Package>, internal: set<string>, c: string, d: string) {
    c in internal && d in internal && c in packages && exists k: nat :: Needs(packages[c], k, d)
  }

  ghost predicate Chain(packages: map<string, Package>, internal: set<string>, path: seq<string>) {
    forall i :: 0 <= i < |path| - 1 ==> NeedsEdge(packages, internal, path[i], path[i + 1])
  }

  lemma {:induction false} ChainDescends(r: Release, packages: map<string, Package>, path: seq<string>)
    requires DependenciesOrdered(r, packages) && |path| >= 2 && Chain(packages, Members(Flatten(r.layers)), path)
    ensures path[0] in Flatten(r.layers) && path[|path| - 1] in Flatten(r.layers)
    ensures Layer(r.layers, path[|path| - 1]) < Layer(r.layers, path[0])
  {
    var internal, n := Members(Flatten(r.layers)), |path| - 1;
    assert NeedsEdge(packages, internal, path[n - 1], path[n - 1 + 1]);
    assert NeedsEdge(packages, internal, path[0], path[0 + 1]);
    if n > 1 {
      ChainDescends(r, packages, path[..n]);
    }
  }

  /** No faults: no chain of retained internal dependencies comes back to where it started. */
  lemma AcceptedHasNoCycle(r: Release, packages: map<string, Package>, publishable: seq<string>, path: seq<string>)
    requires Accepts(r, packages, publishable) && |path| >= 2 && Chain(packages, Members(publishable), path)
    ensures path[0] != path[|path| - 1]
  {
    AcceptsMeaning(r, packages, publishable);
    ChainDescends(r, packages, path);
  }
}
