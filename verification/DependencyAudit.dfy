/**
  The dependency audit of the native product: the breadth-first closure of the resolve graph over
  dependencies that are not only for development, and its comparison with the reviewed policy.
*/
module DependencyAudit {
  import opened Collections
  import opened Results

  datatype GateFailure = GateFailure

  // ---- the resolve graph ----

  datatype KindItem = KindItem(kind: Option<string>) | NotAKind

  // `kinds` is absent when the field is missing or no list.
  datatype Dependency = Dependency(pkg: string, kinds: Option<seq<KindItem>>) | NotADependency

  datatype Node = Node(deps: seq<Dependency>) | NotANode

  datatype Package = Package(id: string, name: string, version: string, source: Option<string>, license: Option<string>)

  datatype Graph = Graph(packages: map<string, Package>, nodes: map<string, Node>)

  function KindNames(items: seq<KindItem>): set<string> {
    if items == [] then {}
    else
      var rest, last := KindNames(items[..|items| - 1]), items[|items| - 1];
      if last.NotAKind? || last.kind == Some("dev") then rest
      else rest + {if last.kind.None? then "normal" else last.kind.value}
  }

  ghost predicate WellTyped(items: seq<KindItem>) {
    forall i :: 0 <= i < |items| ==> items[i].KindItem?
  }

  // The kinds of a dependency apart from development; empty means it is only for development.
  function Kinds(d: Dependency): set<string> {
    if d.NotADependency? then {}
    else if d.kinds.None? || d.kinds.value == [] then {"normal"}
    else KindNames(d.kinds.value)
  }

  ghost predicate FitDependency(g: Graph, d: Dependency) {
    && d.Dependency?
    && (d.kinds.Some? ==> WellTyped(d.kinds.value))
    && (Kinds(d) != {} ==> d.pkg in g.packages)
  }

  ghost predicate FitNode(g: Graph, id: string) {
    id in g.nodes && g.nodes[id].Node? && forall i :: 0 <= i < |g.nodes[id].deps| ==> FitDependency(g, g.nodes[id].deps[i])
  }

  // A dependency from `a` to `b` of kind `kind`.
  ghost predicate Marks(deps: seq<Dependency>, b: string, kind: string) {
    exists i :: 0 <= i < |deps| && deps[i].Dependency? && deps[i].pkg == b && kind in Kinds(deps[i])
  }

  ghost predicate Target(deps: seq<Dependency>, b: string) { exists kind :: Marks(deps, b, kind) }

  ghost predicate Edge(g: Graph, a: string, b: string) {
    a in g.nodes && g.nodes[a].Node? && Target(g.nodes[a].deps, b)
  }

  ghost predicate Path(g: Graph, p: seq<string>) {
    p != [] && forall i :: 0 <= i < |p| - 1 ==> Edge(g, p[i], p[i + 1])
  }

  ghost predicate Reaches(g: Graph, root: string, x: string) {
    exists p :: Path(g, p) && p[0] == root && p[|p| - 1] == x
  }

  lemma ReachesRoot(g: Graph, root: string)
    ensures Reaches(g, root, root)
  {
    assert Path(g, [root]) && [root][0] == root && [root][|[root]| - 1] == root;
  }

  lemma ReachesStep(g: Graph, root: string, a: string, b: string)
    requires Reaches(g, root, a) && Edge(g, a, b)
    ensures Reaches(g, root, b)
  {
    var p :| Path(g, p) && p[0] == root && p[|p| - 1] == a;
    var q := p + [b];
    forall i | 0 <= i < |q| - 1 ensures Edge(g, q[i], q[i + 1]) {
      if i < |p| - 1 { assert Edge(g, p[i], p[i + 1]); }
    }
    assert Path(g, q) && q[0] == root && q[|q| - 1] == b;
  }

  ghost predicate Closed(g: Graph, s: set<string>) {
    forall a, b :: a in s && Edge(g, a, b) ==> b in s
  }

  lemma {:induction false} PathStays(g: Graph, s: set<string>, p: seq<string>)
    requires Closed(g, s) && Path(g, p) && p[0] in s
    ensures p[|p| - 1] in s
  {
    if |p| > 1 {
      var q := p[..|p| - 1];
      forall i | 0 <= i < |q| - 1 ensures Edge(g, q[i], q[i + 1]) { assert Edge(g, p[i], p[i + 1]); }
      PathStays(g, s, q);
      assert Edge(g, p[|p| - 2], p[|p| - 2 + 1]);
    }
  }

  /** A closed set around the root, itself reachable, is what the root reaches. */
  lemma ClosedIsReachable(g: Graph, root: string, s: set<string>)
    requires Closed(g, s) && root in s && forall x :: x in s ==> Reaches(g, root, x)
    ensures forall x :: x in s <==> Reaches(g, root, x)
  {
    forall x | Reaches(g, root, x) ensures x in s {
      var p :| Path(g, p) && p[0] == root && p[|p| - 1] == x;
      PathStays(g, s, p);
    }
  }

  // ---- the queue loop ----

  method DependencyKinds(d: Dependency) returns (r: Result<set<string>, GateFailure>)
    requires d.Dependency?
    ensures r.Ok? <==> (d.kinds.Some? ==> WellTyped(d.kinds.value))
    ensures r.Ok? ==> r.value == Kinds(d)
  {
    if d.kinds.None? || d.kinds.value == [] {
      return Ok({"normal"});
    }
    var items := d.kinds.value;
    var kinds := {};
    for i := 0 to |items|
      invariant WellTyped(items[..i]) && kinds == KindNames(items[..i])
    {
      assert items[..i + 1][..i] == items[..i] && items[..i + 1][i] == items[i];
      if items[i].NotAKind? {
        return Err(GateFailure);
      }
      if items[i].kind != Some("dev") {
        kinds := kinds + {if items[i].kind.None? then "normal" else items[i].kind.value};
      }
    }
    assert items[..|items|] == items;
    return Ok(kinds);
  }

  // `kinds` holds `kind` under `x`.
  ghost predicate Holds(kinds: map<string, set<string>>, x: string, kind: string) {
    x in kinds && kind in kinds[x]
  }

  /** One node's dependencies: kinds accumulate under their targets, and targets are queued. */
  method ScanDependencies(g: Graph, deps: seq<Dependency>, kindsById: map<string, set<string>>, queue: seq<string>)
    returns (ok: bool, kinds: map<string, set<string>>, pending: seq<string>)
    ensures ok <==> forall i :: 0 <= i < |deps| ==> FitDependency(g, deps[i])
    ensures ok ==> forall x, kind :: Holds(kinds, x, kind) <==> Holds(kindsById, x, kind) || Marks(deps, x, kind)
    ensures ok ==> forall x :: x in pending <==> x in queue || Target(deps, x)
    ensures ok ==> forall x :: x in pending ==> x in queue || x in g.packages
  {
    kinds, pending := kindsById, queue;
    for i := 0 to |deps|
      invariant forall k :: 0 <= k < i ==> FitDependency(g, deps[k])
      invariant forall x, kind :: Holds(kinds, x, kind) <==> Holds(kindsById, x, kind) || Marks(deps[..i], x, kind)
      invariant forall x :: x in pending <==> x in queue || Target(deps[..i], x)
      invariant forall x :: x in pending ==> x in queue || x in g.packages
    {
      var d := deps[i];
      if d.NotADependency? {
        return false, map[], [];
      }
      var found := DependencyKinds(d);
      if found.Err? {
        return false, map[], [];
      }
      forall x, kind ensures Marks(deps[..i + 1], x, kind) <==> Marks(deps[..i], x, kind) || (x == d.pkg && kind in found.value) {
        MarksSnoc(deps, i, x, kind);
      }
      forall x ensures Target(deps[..i + 1], x) <==> Target(deps[..i], x) || (x == d.pkg && found.value != {}) {
        TargetSnoc(deps, i, x);
      }
      if found.value != {} {
        if d.pkg !in g.packages {
          return false, map[], [];
        }
        kinds := kinds[d.pkg := (if d.pkg in kinds then kinds[d.pkg] else {}) + found.value];
        pending := pending + [d.pkg];
      }
    }
    assert deps[..|deps|] == deps;
    ok := true;
  }

  lemma MarksSnoc(deps: seq<Dependency>, i: nat, x: string, kind: string)
    requires i < |deps| && deps[i].Dependency?
    ensures Marks(deps[..i + 1], x, kind) <==> Marks(deps[..i], x, kind) || (x == deps[i].pkg && kind in Kinds(deps[i]))
  {
    var all, before := deps[..i + 1], deps[..i];
    assert all[i] == deps[i] && forall k :: 0 <= k < i ==> all[k] == before[k];
    if Marks(all, x, kind) {
      var k :| 0 <= k <= i && all[k].Dependency? && all[k].pkg == x && kind in Kinds(all[k]);
      if k < i {
        assert before[k] == all[k];
      }
    }
  }

  lemma TargetSnoc(deps: seq<Dependency>, i: nat, x: string)
    requires i < |deps| && deps[i].Dependency?
    ensures Target(deps[..i + 1], x) <==> Target(deps[..i], x) || (x == deps[i].pkg && Kinds(deps[i]) != {})
  {
    if Target(deps[..i + 1], x) {
      var kind :| Marks(deps[..i + 1], x, kind);
      MarksSnoc(deps, i, x, kind);
    }
    if Target(deps[..i], x) {
      var kind :| Marks(deps[..i], x, kind);
      MarksSnoc(deps, i, x, kind);
    }
    if x == deps[i].pkg && Kinds(deps[i]) != {} {
      var kind :| kind in Kinds(deps[i]);
      MarksSnoc(deps, i, x, kind);
    }
  }

  // The kinds that edges out of `s` give to `x`, and the mark of the root.
  ghost predicate Marked(g: Graph, root: string, s: set<string>, x: string, kind: string) {
    (x == root && kind == "root")
    || exists a :: a in s && a in g.nodes && g.nodes[a].Node? && Marks(g.nodes[a].deps, x, kind)
  }

  ghost predicate Sound(g: Graph, root: string, seen: set<string>, queue: seq<string>) {
    && (forall x :: x in seen || x in queue ==> Reaches(g, root, x) && x in g.packages)
    && (forall x :: x in seen ==> FitNode(g, x))
  }

  ghost predicate Complete(g: Graph, root: string, seen: set<string>, queue: seq<string>) {
    && (root in seen || root in queue)
    && (forall a, b :: a in seen && Edge(g, a, b) ==> b in seen || b in queue)
  }

  ghost predicate KindsKnown(g: Graph, root: string, seen: set<string>, kinds: map<string, set<string>>) {
    forall x, kind :: Holds(kinds, x, kind) <==> Marked(g, root, seen, x, kind)
  }

  lemma KindsGrow(g: Graph, root: string, seen: set<string>, id: string, kinds: map<string, set<string>>, next: map<string, set<string>>)
    requires id in g.nodes && g.nodes[id].Node? && KindsKnown(g, root, seen, kinds)
    requires forall x, kind :: Holds(next, x, kind) <==> Holds(kinds, x, kind) || Marks(g.nodes[id].deps, x, kind)
    ensures KindsKnown(g, root, seen + {id}, next)
  {
    forall x, kind ensures Holds(next, x, kind) <==> Marked(g, root, seen + {id}, x, kind) {
      assert Holds(kinds, x, kind) <==> Marked(g, root, seen, x, kind);
      if Marks(g.nodes[id].deps, x, kind) { assert id in seen + {id}; }
    }
  }

  lemma CompleteGrows(g: Graph, root: string, seen: set<string>, queue: seq<string>, pending: seq<string>)
    requires queue != [] && Complete(g, root, seen, queue) && queue[0] in g.nodes && g.nodes[queue[0]].Node?
    requires forall x :: x in pending <==> x in queue[1..] || Target(g.nodes[queue[0]].deps, x)
    ensures Complete(g, root, seen + {queue[0]}, pending)
  {
    var next := seen + {queue[0]};
    forall x | x in queue ensures x in next || x in pending {
      if x != queue[0] { assert x in queue[1..]; }
    }
  }

  lemma SoundGrows(g: Graph, root: string, seen: set<string>, queue: seq<string>, pending: seq<string>)
    requires queue != [] && Sound(g, root, seen, queue) && FitNode(g, queue[0])
    requires forall x :: x in pending <==> x in queue[1..] || Target(g.nodes[queue[0]].deps, x)
    requires forall x :: x in pending ==> x in queue[1..] || x in g.packages
    ensures Sound(g, root, seen + {queue[0]}, pending)
  {
    var id := queue[0];
    assert id in queue;
    forall x | x in pending ensures Reaches(g, root, x) && x in g.packages {
      if x in queue[1..] {
        assert x in queue;
      } else {
        assert Edge(g, id, x);
        ReachesStep(g, root, id, x);
      }
    }
  }

  lemma Shrinks(packages: map<string, Package>, seen: set<string>, id: string)
    requires id in packages && id !in seen
    ensures |packages.Keys - (seen + {id})| < |packages.Keys - seen|
  {
    assert packages.Keys - seen == (packages.Keys - (seen + {id})) + {id};
  }

  /** The queue loop: it ends on any graph, cyclic or not, fails exactly when something the root
      reaches is malformed or has no metadata, and otherwise returns what the root reaches, with
      every kind of every edge between reachable packages. */
  method Closure(g: Graph, root: string) returns (r: Result<(set<string>, map<string, set<string>>), GateFailure>)
    requires root in g.packages
    ensures r.Ok? <==> forall x :: Reaches(g, root, x) ==> FitNode(g, x)
    ensures r.Ok? ==> forall x :: x in r.value.0 <==> Reaches(g, root, x)
    ensures r.Ok? ==> forall x, kind :: Holds(r.value.1, x, kind) <==> Marked(g, root, r.value.0, x, kind)
    ensures r.Ok? ==> r.value.0 <= g.packages.Keys
  {
    ReachesRoot(g, root);
    var queue, seen := [root], {};
    var kindsById: map<string, set<string>> := map[root := {"root"}];
    while queue != []
      invariant Sound(g, root, seen, queue) && Complete(g, root, seen, queue)
      invariant KindsKnown(g, root, seen, kindsById)
      decreases |g.packages.Keys - seen|, |queue|
    {
      var id := queue[0];
      assert id in queue;
      if id in seen {
        SkipSeen(g, root, seen, queue);
        queue := queue[1..];
        continue;
      }
      if id !in g.nodes || g.nodes[id].NotANode? {
        assert !FitNode(g, id);
        return Err(GateFailure);
      }
      var ok, kinds, pending := ScanDependencies(g, g.nodes[id].deps, kindsById, queue[1..]);
      if !ok {
        assert !FitNode(g, id);
        return Err(GateFailure);
      }
      Shrinks(g.packages, seen, id);
      KindsGrow(g, root, seen, id, kindsById, kinds);
      CompleteGrows(g, root, seen, queue, pending);
      SoundGrows(g, root, seen, queue, pending);
      seen, kindsById, queue := seen + {id}, kinds, pending;
    }
    assert Closed(g, seen);
    ClosedIsReachable(g, root, seen);
    return Ok((seen, kindsById));
  }

  lemma SkipSeen(g: Graph, root: string, seen: set<string>, queue: seq<string>)
    requires queue != [] && queue[0] in seen
    requires Sound(g, root, seen, queue) && Complete(g, root, seen, queue)
    ensures Sound(g, root, seen, queue[1..]) && Complete(g, root, seen, queue[1..])
  {
    forall x | x in queue ensures x in seen || x in queue[1..] {}
    forall x | x in queue[1..] ensures x in queue {}
  }

  // ---- the reviewed policy ----

  datatype ExternalId = ExternalId(name: string, version: string, source: string)

  datatype Reviewed = Reviewed(id: ExternalId, license: string)

  datatype Policy = Policy(schema: string, rootPackage: string, forbidden: set<string>, workspace: set<string>, external: seq<Reviewed>)

  datatype Metadata = Metadata(packages: seq<Package>, nodes: seq<(string, Node)>)

  function ById(packages: seq<Package>): (m: map<string, Package>)
    ensures forall i :: 0 <= i < |packages| ==> packages[i].id in m
  {
    if packages == [] then map[]
    else ById(packages[..|packages| - 1])[packages[|packages| - 1].id := packages[|packages| - 1]]
  }

  function NodeById(nodes: seq<(string, Node)>): map<string, Node> {
    if nodes == [] then map[]
    else NodeById(nodes[..|nodes| - 1])[nodes[|nodes| - 1].0 := nodes[|nodes| - 1].1]
  }

  function GraphOf(m: Metadata): Graph { Graph(ById(m.packages), NodeById(m.nodes)) }

  ghost predicate LastOf<T>(items: seq<T>, idOf: T -> string, x: string, i: nat) {
    i < |items| && idOf(items[i]) == x && forall j :: i < j < |items| ==> idOf(items[j]) != x
  }

  function PackageId(p: Package): string { p.id }

  function NodeId(n: (string, Node)): string { n.0 }

  lemma {:induction false} ByIdMeans(packages: seq<Package>, x: string)
    ensures x in ById(packages) <==> exists i: nat :: LastOf(packages, PackageId, x, i)
    ensures forall i: nat :: LastOf(packages, PackageId, x, i) ==> x in ById(packages) && ById(packages)[x] == packages[i]
  {
    if packages != [] {
      var n := |packages| - 1;
      var init := packages[..n];
      ByIdMeans(init, x);
      if packages[n].id == x {
        assert LastOf(packages, PackageId, x, n);
      } else {
        forall i: nat ensures LastOf(packages, PackageId, x, i) <==> LastOf(init, PackageId, x, i) {}
      }
    }
  }

  lemma {:induction false} NodeByIdMeans(nodes: seq<(string, Node)>, x: string)
    ensures x in NodeById(nodes) <==> exists i: nat :: LastOf(nodes, NodeId, x, i)
    ensures forall i: nat :: LastOf(nodes, NodeId, x, i) ==> x in NodeById(nodes) && NodeById(nodes)[x] == nodes[i].1
  {
    if nodes != [] {
      var n := |nodes| - 1;
      var init := nodes[..n];
      NodeByIdMeans(init, x);
      if nodes[n].0 == x {
        assert LastOf(nodes, NodeId, x, n);
      } else {
        forall i: nat ensures LastOf(nodes, NodeId, x, i) <==> LastOf(init, NodeId, x, i) {}
      }
    }
  }

  /** The graph of the metadata: under every identity the last package and the last node that bear it. */
  lemma GraphMeans(m: Metadata, x: string)
    ensures x in GraphOf(m).packages <==> exists i: nat :: LastOf(m.packages, PackageId, x, i)
    ensures forall i: nat :: LastOf(m.packages, PackageId, x, i) ==> x in GraphOf(m).packages && GraphOf(m).packages[x] == m.packages[i]
    ensures x in GraphOf(m).nodes <==> exists i: nat :: LastOf(m.nodes, NodeId, x, i)
    ensures forall i: nat :: LastOf(m.nodes, NodeId, x, i) ==> x in GraphOf(m).nodes && GraphOf(m).nodes[x] == m.nodes[i].1
  {
    ByIdMeans(m.packages, x);
    NodeByIdMeans(m.nodes, x);
  }

  // The only package of that name.
  ghost predicate UniqueRoot(m: Metadata, name: string, i: nat) {
    && i < |m.packages| && m.packages[i].name == name
    && forall j :: 0 <= j < |m.packages| && m.packages[j].name == name ==> j == i
  }

  ghost predicate IsClosure(g: Graph, root: string, ids: set<string>) {
    forall x :: x in ids <==> Reaches(g, root, x)
  }

  function ExternalIdOf(p: Package): ExternalId
    requires p.source.Some?
  {
    ExternalId(p.name, p.version, p.source.value)
  }

  function WorkspaceNames(g: Graph, ids: set<string>): set<string> {
    set x | x in ids && x in g.packages && g.packages[x].source.None? :: g.packages[x].name
  }

  function ExternalIds(g: Graph, ids: set<string>): set<ExternalId> {
    set x | x in ids && x in g.packages && g.packages[x].source.Some? :: ExternalIdOf(g.packages[x])
  }

  ghost predicate NoDuplicates(external: seq<Reviewed>) {
    forall i, j :: 0 <= i < j < |external| ==> external[i].id != external[j].id
  }

  // A package of that name, version and source.
  ghost predicate Bears(g: Graph, x: string, e: ExternalId) {
    x in g.packages && g.packages[x].source == Some(e.source) && g.packages[x].name == e.name && g.packages[x].version == e.version
  }

  ghost predicate InWorkspace(g: Graph, x: string, name: string) {
    x in g.packages && g.packages[x].source.None? && g.packages[x].name == name
  }

  ghost predicate IsReviewed(external: seq<Reviewed>, e: ExternalId) { exists i :: 0 <= i < |external| && external[i].id == e }

  /** The closure is exactly what was reviewed, and holds nothing forbidden. */
  ghost predicate MatchesPolicy(g: Graph, ids: set<string>, policy: Policy) {
    && (forall x :: x in ids && x in g.packages ==> g.packages[x].name !in policy.forbidden)
    && (forall name :: name in policy.workspace <==> exists x :: x in ids && InWorkspace(g, x, name))
    && (forall e :: IsReviewed(policy.external, e) <==> exists x :: x in ids && Bears(g, x, e))
  }

  lemma WorkspaceIff(g: Graph, ids: set<string>, name: string)
    ensures name in WorkspaceNames(g, ids) <==> exists x :: x in ids && InWorkspace(g, x, name)
  {
    if x :| x in ids && InWorkspace(g, x, name) { assert g.packages[x].name == name; }
  }

  lemma ExternalIff(g: Graph, ids: set<string>, e: ExternalId)
    ensures e in ExternalIds(g, ids) <==> exists x :: x in ids && Bears(g, x, e)
  {
    if x :| x in ids && Bears(g, x, e) { assert ExternalIdOf(g.packages[x]) == e; }
    if e in ExternalIds(g, ids) {
      var x :| x in ids && x in g.packages && g.packages[x].source.Some? && ExternalIdOf(g.packages[x]) == e;
      assert Bears(g, x, e);
    }
  }

  lemma MatchesIff(g: Graph, ids: set<string>, policy: Policy, reviewed: set<ExternalId>)
    requires ids <= g.packages.Keys && forall e :: e in reviewed <==> IsReviewed(policy.external, e)
    ensures MatchesPolicy(g, ids, policy) <==>
      && !(exists x :: x in ids && g.packages[x].name in policy.forbidden)
      && WorkspaceNames(g, ids) == policy.workspace && ExternalIds(g, ids) == reviewed
  {
    forall name ensures name in WorkspaceNames(g, ids) <==> exists x :: x in ids && InWorkspace(g, x, name) { WorkspaceIff(g, ids, name); }
    forall e ensures e in ExternalIds(g, ids) <==> exists x :: x in ids && Bears(g, x, e) { ExternalIff(g, ids, e); }
  }

  // Every reachable package with a reviewed identity bears the reviewed license.
  ghost predicate AllLicensed(g: Graph, ids: set<string>, external: seq<Reviewed>) {
    forall x, i :: x in ids && 0 <= i < |external| && Bears(g, x, external[i].id) ==> g.packages[x].license == Some(external[i].license)
  }

  ghost predicate Licensed(g: Graph, ids: set<string>, entry: Reviewed, x: string) {
    x in ids && Bears(g, x, entry.id) && g.packages[x].license == Some(entry.license)
  }

  ghost predicate SomeLicensed(g: Graph, ids: set<string>, entry: Reviewed) { exists x :: Licensed(g, ids, entry, x) }

  // For every reviewed entry some reachable package bears its license.
  ghost predicate EachLicensed(g: Graph, ids: set<string>, external: seq<Reviewed>) {
    forall i :: 0 <= i < |external| ==> SomeLicensed(g, ids, external[i])
  }

  // ---- the order in which a set is read ----

  ghost predicate Lists(order: seq<string>, ids: set<string>) {
    Distinct(order) && forall x :: x in order <==> x in ids
  }

  /** The packages under their external identities: of several packages with one identity, the last
      in the order stays. */
  function Chosen(g: Graph, order: seq<string>): (found: map<ExternalId, string>)
    ensures forall e :: e in found ==> found[e] in order && Bears(g, found[e], e)
  {
    if order == [] then map[]
    else
      var found, x := Chosen(g, order[..|order| - 1]), order[|order| - 1];
      if x in g.packages && g.packages[x].source.Some? then found[ExternalIdOf(g.packages[x]) := x] else found
  }

  ghost predicate LastBearer(g: Graph, order: seq<string>, e: ExternalId, k: nat) {
    k < |order| && Bears(g, order[k], e) && forall j :: k < j < |order| ==> !Bears(g, order[j], e)
  }

  lemma {:induction false} ChosenIsLast(g: Graph, order: seq<string>, e: ExternalId, k: nat)
    requires LastBearer(g, order, e, k)
    ensures e in Chosen(g, order) && Chosen(g, order)[e] == order[k]
  {
    if k < |order| - 1 {
      assert !Bears(g, order[|order| - 1], e);
      ChosenIsLast(g, order[..|order| - 1], e, k);
    }
  }

  lemma {:induction false} BearersAreChosen(g: Graph, order: seq<string>, x: string, e: ExternalId)
    requires x in order && Bears(g, x, e)
    ensures e in Chosen(g, order)
  {
    if x != order[|order| - 1] { BearersAreChosen(g, order[..|order| - 1], x, e); }
  }

  lemma ChosenKeys(g: Graph, ids: set<string>, order: seq<string>)
    requires Lists(order, ids)
    ensures Chosen(g, order).Keys == ExternalIds(g, ids)
  {
    forall x | x in ids && x in g.packages && g.packages[x].source.Some? ensures ExternalIdOf(g.packages[x]) in Chosen(g, order) {
      BearersAreChosen(g, order, x, ExternalIdOf(g.packages[x]));
    }
  }

  ghost predicate ChosenLicensed(g: Graph, order: seq<string>, external: seq<Reviewed>) {
    forall i :: 0 <= i < |external| ==>
      external[i].id in Chosen(g, order) && g.packages[Chosen(g, order)[external[i].id]].license == Some(external[i].license)
  }

  lemma {:induction false} SomeListing(ids: set<string>) returns (order: seq<string>)
    ensures Lists(order, ids)
  {
    if ids == {} {
      order := [];
    } else {
      var x :| x in ids;
      order := SomeListing(ids - {x});
      order := order + [x];
    }
  }

  // Any distinct packages can come last.
  lemma ListingWithEnd(ids: set<string>, end: seq<string>) returns (before: seq<string>)
    requires Distinct(end) && forall x :: x in end ==> x in ids
    ensures Lists(before + end, ids)
  {
    before := SomeListing(ids - Elements(end));
    forall i, j | 0 <= i < |before| && 0 <= j < |end| ensures before[i] != end[j] {
      assert before[i] in before && end[j] in end;
    }
  }

  // A licensed package for every entry.
  lemma {:induction false} Licensees(g: Graph, ids: set<string>, external: seq<Reviewed>) returns (xs: seq<string>)
    requires EachLicensed(g, ids, external)
    ensures |xs| == |external| && forall i :: 0 <= i < |xs| ==> Licensed(g, ids, external[i], xs[i])
  {
    if external == [] {
      xs := [];
    } else {
      var n := |external| - 1;
      xs := Licensees(g, ids, external[..n]);
      assert SomeLicensed(g, ids, external[n]);
      var x :| Licensed(g, ids, external[n], x);
      xs := xs + [x];
    }
  }

  lemma LicensedAtEnd(g: Graph, ids: set<string>, external: seq<Reviewed>, before: seq<string>, xs: seq<string>)
    requires NoDuplicates(external) && |xs| == |external| && forall i :: 0 <= i < |xs| ==> Licensed(g, ids, external[i], xs[i])
    ensures ChosenLicensed(g, before + xs, external)
  {
    var order := before + xs;
    forall i | 0 <= i < |external|
      ensures external[i].id in Chosen(g, order) && g.packages[Chosen(g, order)[external[i].id]].license == Some(external[i].license)
    {
      var k := |before| + i;
      forall j | k < j < |order| ensures !Bears(g, order[j], external[i].id) {
        assert Licensed(g, ids, external[j - |before|], xs[j - |before|]);
      }
      assert Licensed(g, ids, external[i], xs[i]) && order[k] == xs[i];
      ChosenIsLast(g, order, external[i].id, k);
    }
  }

  /** The license check can pass, for some order of the closure, exactly when every entry has a
      package that bears its license. */
  lemma PassesForSomeOrderIff(g: Graph, ids: set<string>, external: seq<Reviewed>)
    requires NoDuplicates(external)
    ensures (exists order :: Lists(order, ids) && ChosenLicensed(g, order, external)) <==> EachLicensed(g, ids, external)
  {
    if order :| Lists(order, ids) && ChosenLicensed(g, order, external) {
      forall i | 0 <= i < |external| ensures SomeLicensed(g, ids, external[i]) {
        assert Licensed(g, ids, external[i], Chosen(g, order)[external[i].id]);
      }
    }
    if EachLicensed(g, ids, external) {
      var xs := Licensees(g, ids, external);
      var before := ListingWithEnd(ids, xs);
      assert Lists(before + xs, ids);
      LicensedAtEnd(g, ids, external, before, xs);
    }
  }

  /** It passes for every order exactly when every package with a reviewed identity bears the reviewed
      license, provided each entry is reachable at all. */
  lemma PassesForEveryOrderIff(g: Graph, ids: set<string>, external: seq<Reviewed>)
    requires forall i :: 0 <= i < |external| ==> external[i].id in ExternalIds(g, ids)
    ensures (forall order :: Lists(order, ids) ==> ChosenLicensed(g, order, external)) <==> AllLicensed(g, ids, external)
  {
    if forall order :: Lists(order, ids) ==> ChosenLicensed(g, order, external) {
      forall x, i | x in ids && 0 <= i < |external| && Bears(g, x, external[i].id)
        ensures g.packages[x].license == Some(external[i].license)
      {
        var before := ListingWithEnd(ids, [x]);
        ChosenIsLast(g, before + [x], external[i].id, |before|);
        assert ChosenLicensed(g, before + [x], external);
      }
    }
    if AllLicensed(g, ids, external) {
      forall order | Lists(order, ids) ensures ChosenLicensed(g, order, external) {
        ChosenKeys(g, ids, order);
      }
    }
  }

  method ReviewedExternal(external: seq<Reviewed>) returns (ok: bool, reviewed: map<ExternalId, string>)
    ensures ok <==> NoDuplicates(external)
    ensures ok ==> reviewed.Keys == (set i | 0 <= i < |external| :: external[i].id)
    ensures ok ==> forall i :: 0 <= i < |external| ==> external[i].id in reviewed && reviewed[external[i].id] == external[i].license
  {
    reviewed := map[];
    for k := 0 to |external|
      invariant NoDuplicates(external[..k])
      invariant reviewed.Keys == (set i | 0 <= i < k :: external[i].id)
      invariant forall i :: 0 <= i < k ==> external[i].id in reviewed && reviewed[external[i].id] == external[i].license
    {
      if external[k].id in reviewed {
        return false, map[];
      }
      reviewed := reviewed[external[k].id := external[k].license];
    }
    assert external[..|external|] == external;
    ok := true;
  }

  method ByIdentity(g: Graph, ids: set<string>, order: seq<string>) returns (found: map<ExternalId, string>)
    requires Lists(order, ids)
    ensures found == Chosen(g, order)
    ensures found.Keys == ExternalIds(g, ids)
  {
    found := map[];
    for i := 0 to |order|
      invariant found == Chosen(g, order[..i])
    {
      assert order[..i + 1][..i] == order[..i];
      if order[i] in g.packages && g.packages[order[i]].source.Some? {
        found := found[ExternalIdOf(g.packages[order[i]]) := order[i]];
      }
    }
    assert order[..|order|] == order;
    ChosenKeys(g, ids, order);
  }

  // What the audit accepts of the packages that a root reaches.
  ghost predicate Clean(g: Graph, root: string, policy: Policy, listing: set<string> -> seq<string>, ids: set<string>) {
    && root in g.nodes && IsClosure(g, root, ids) && (forall x :: x in ids ==> FitNode(g, x))
    && NoDuplicates(policy.external) && MatchesPolicy(g, ids, policy) && ChosenLicensed(g, listing(ids), policy.external)
  }

  method AuditFrom(g: Graph, root: string, policy: Policy, listing: set<string> -> seq<string>)
    returns (r: Result<(set<string>, map<string, set<string>>), GateFailure>)
    requires root in g.packages && forall ids :: Lists(listing(ids), ids)
    ensures r.Err? ==> forall ids :: !Clean(g, root, policy, listing, ids)
    ensures r.Ok? ==> Clean(g, root, policy, listing, r.value.0)
    ensures r.Ok? ==> forall x, kind :: Holds(r.value.1, x, kind) <==> Marked(g, root, r.value.0, x, kind)
  {
    if root !in g.nodes {
      return Err(GateFailure);
    }
    r := Closure(g, root);
    if r.Ok? {
      assert IsClosure(g, root, r.value.0);
      var ok := CheckInventory(g, r.value.0, listing(r.value.0), policy);
      if !ok {
        forall ids | IsClosure(g, root, ids) ensures ids == r.value.0 {
          SameClosure(g, root, ids, r.value.0);
        }
        r := Err(GateFailure);
      }
    }
  }

  /** The audit, under any order of reading sets: it succeeds exactly when the policy is supported,
      there is one root, everything the root reaches is well formed, and that closure is the
      reviewed inventory, holds nothing forbidden and shows the reviewed licenses.  The result is
      that closure with the kinds of its edges. */
  method Audit(m: Metadata, policy: Policy, listing: set<string> -> seq<string>)
    returns (r: Result<(set<string>, map<string, set<string>>), GateFailure>)
    requires forall ids :: Lists(listing(ids), ids)
    ensures r.Ok? <==>
      && policy.schema == "hyphae-native-dependency-policy-v1" && policy.rootPackage != ""
      && exists root: nat, ids :: UniqueRoot(m, policy.rootPackage, root) && Clean(GraphOf(m), m.packages[root].id, policy, listing, ids)
    ensures r.Ok? ==> exists root: nat ::
      && UniqueRoot(m, policy.rootPackage, root) && Clean(GraphOf(m), m.packages[root].id, policy, listing, r.value.0)
      && forall x, kind :: Holds(r.value.1, x, kind) <==> Marked(GraphOf(m), m.packages[root].id, r.value.0, x, kind)
  {
    if policy.schema != "hyphae-native-dependency-policy-v1" || policy.rootPackage == "" {
      return Err(GateFailure);
    }
    var found, root := FindRoot(m, policy.rootPackage);
    if !found {
      return Err(GateFailure);
    }
    r := AuditFrom(GraphOf(m), m.packages[root].id, policy, listing);
  }

  lemma SameClosure(g: Graph, root: string, a: set<string>, b: set<string>)
    requires IsClosure(g, root, a) && IsClosure(g, root, b)
    ensures a == b
  {
    assert forall x :: x in a <==> x in b;
  }

  method FindRoot(m: Metadata, name: string) returns (found: bool, root: nat)
    ensures found ==> UniqueRoot(m, name, root)
    ensures !found ==> forall i :: !UniqueRoot(m, name, i)
  {
    var count := 0;
    root := 0;
    for i := 0 to |m.packages|
      invariant count == 0 ==> forall j :: 0 <= j < i ==> m.packages[j].name != name
      invariant count == 1 ==> root < i && m.packages[root].name == name && forall j :: 0 <= j < i && m.packages[j].name == name ==> j == root
      invariant count >= 2 ==> forall k :: !UniqueRoot(m, name, k)
      invariant count >= 0
    {
      if m.packages[i].name == name {
        if count == 0 { root := i; }
        count := count + 1;
      }
    }
    found := count == 1;
  }

  /** The inventory checks: no forbidden name, the reviewed workspace and external sets, and under
      every reviewed identity the reviewed license at the package that is kept. */
  method CheckInventory(g: Graph, ids: set<string>, order: seq<string>, policy: Policy) returns (ok: bool)
    requires ids <= g.packages.Keys && Lists(order, ids)
    ensures ok <==> NoDuplicates(policy.external) && MatchesPolicy(g, ids, policy) && ChosenLicensed(g, order, policy.external)
  {
    ghost var wanted := set i | 0 <= i < |policy.external| :: policy.external[i].id;
    MatchesIff(g, ids, policy, wanted);
    if exists x :: x in ids && g.packages[x].name in policy.forbidden {
      return false;
    }
    if WorkspaceNames(g, ids) != policy.workspace {
      return false;
    }
    var unique, reviewed := ReviewedExternal(policy.external);
    if !unique || ExternalIds(g, ids) != reviewed.Keys {
      return false;
    }
    var found := ByIdentity(g, ids, order);
    ok := LicensesAgree(g, order, found, policy.external);
  }

  method LicensesAgree(g: Graph, order: seq<string>, found: map<ExternalId, string>, external: seq<Reviewed>) returns (ok: bool)
    requires found == Chosen(g, order) && forall i :: 0 <= i < |external| ==> external[i].id in found
    ensures ok <==> ChosenLicensed(g, order, external)
  {
    for i := 0 to |external|
      invariant ChosenLicensed(g, order, external[..i])
    {
      if g.packages[found[external[i].id]].license != Some(external[i].license) {
        return false;
      }
    }
    assert external[..|external|] == external;
    return true;
  }
}
