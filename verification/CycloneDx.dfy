/** The worklist that flattens nested CycloneDX components, and the identities read from it. */
module CycloneDx {
  import opened Results
  import opened SbomConclusion
  import opened Sorting

  // `nested` says that the components field is a list; a missing field is an empty one.
  datatype Node =
    | Component(name: Option<string>, version: Option<string>, purl: Option<string>, nested: bool, children: seq<Node>)
    | NotAComponent

  datatype Metadata = NoMetadata | Metadata(component: Option<Node>) | NotMetadata

  datatype Bom = Bom(components: Option<seq<Node>>, metadata: Metadata)

  function Roots(bom: Bom): Done<seq<Node>> {
    if bom.components.None? || bom.metadata.NotMetadata? then Err(Failed)
    else if bom.metadata.Metadata? && bom.metadata.component.Some?
    then Ok([bom.metadata.component.value] + bom.components.value)
    else Ok(bom.components.value)
  }

  predicate WellFormed(forest: seq<Node>) {
    forest == []
    || (var last := forest[|forest| - 1];
        && last.Component? && last.nested
        && WellFormed(last.children) && WellFormed(forest[..|forest| - 1]))
  }

  /** The nodes in the order of the worklist: last root first, then its own children. */
  function Visit(forest: seq<Node>): seq<Node>
    requires WellFormed(forest)
  {
    if forest == [] then []
    else
      var last := forest[|forest| - 1];
      [last] + Visit(last.children) + Visit(forest[..|forest| - 1])
  }

  /** The nodes in document order: every component, then the components inside it. */
  function Preorder(forest: seq<Node>): seq<Node>
    requires WellFormed(forest)
  {
    if forest == [] then []
    else
      var last := forest[|forest| - 1];
      Preorder(forest[..|forest| - 1]) + [last] + Preorder(last.children)
  }

  function Size(forest: seq<Node>): nat {
    if forest == [] then 0
    else
      var last := forest[|forest| - 1];
      1 + (if last.Component? && last.nested then Size(last.children) else 0) + Size(forest[..|forest| - 1])
  }

  lemma {:induction false} SizeConcat(a: seq<Node>, b: seq<Node>)
    ensures Size(a + b) == Size(a) + Size(b)
  {
    if b == [] {
      assert a + b == a;
    } else {
      assert (a + b)[..|a + b| - 1] == a + b[..|b| - 1];
      SizeConcat(a, b[..|b| - 1]);
    }
  }

  lemma {:induction false} WellFormedConcat(a: seq<Node>, b: seq<Node>)
    ensures WellFormed(a + b) <==> WellFormed(a) && WellFormed(b)
  {
    if b == [] {
      assert a + b == a;
    } else {
      assert (a + b)[..|a + b| - 1] == a + b[..|b| - 1];
      WellFormedConcat(a, b[..|b| - 1]);
    }
  }

  lemma {:induction false} VisitConcat(a: seq<Node>, b: seq<Node>)
    requires WellFormed(a) && WellFormed(b)
    ensures WellFormed(a + b) && Visit(a + b) == Visit(b) + Visit(a)
  {
    WellFormedConcat(a, b);
    if b == [] {
      assert a + b == a;
    } else {
      assert (a + b)[..|a + b| - 1] == a + b[..|b| - 1];
      VisitConcat(a, b[..|b| - 1]);
    }
  }

  /** The worklist order holds every node exactly as often as the document does. */
  lemma {:induction false} VisitIsPreorder(forest: seq<Node>)
    requires WellFormed(forest)
    ensures multiset(Visit(forest)) == multiset(Preorder(forest))
  {
    if forest != [] {
      VisitIsPreorder(forest[|forest| - 1].children);
      VisitIsPreorder(forest[..|forest| - 1]);
    }
  }

  lemma {:induction false} VisitLength(forest: seq<Node>)
    requires WellFormed(forest)
    ensures |Visit(forest)| == Size(forest)
  {
    if forest != [] {
      VisitLength(forest[|forest| - 1].children);
      VisitLength(forest[..|forest| - 1]);
    }
  }

  // What is flattened, then what the pending forest will yield, is what the roots yield.
  ghost predicate Progress(roots: seq<Node>, flattened: seq<Node>, pending: seq<Node>) {
    && (WellFormed(roots) <==> WellFormed(pending))
    && (WellFormed(roots) && WellFormed(pending) ==> Visit(roots) == flattened + Visit(pending))
  }

  lemma ProgressStep(roots: seq<Node>, flattened: seq<Node>, rest: seq<Node>, component: Node)
    requires component.Component? && component.nested
    requires Progress(roots, flattened, rest + [component])
    ensures Progress(roots, flattened + [component], rest + component.children)
    ensures Size(rest + component.children) < Size(rest + [component])
  {
    var pending := rest + [component];
    assert pending[..|pending| - 1] == rest;
    SizeConcat(rest, component.children);
    WellFormedConcat(rest, component.children);
    if WellFormed(pending) {
      VisitConcat(rest, component.children);
      assert flattened + ([component] + Visit(component.children) + Visit(rest))
          == flattened + [component] + (Visit(component.children) + Visit(rest));
    }
  }

  /** The worklist loop ends; it fails exactly on a malformed component somewhere in the tree. */
  method Flatten(roots: seq<Node>) returns (r: Done<seq<Node>>)
    ensures r.Ok? <==> WellFormed(roots)
    ensures r.Ok? ==> r.value == Visit(roots)
  {
    var pending, flattened := roots, [];
    while pending != []
      invariant Progress(roots, flattened, pending)
      decreases Size(pending)
    {
      var component, rest := pending[|pending| - 1], pending[..|pending| - 1];
      if component.NotAComponent? || !component.nested {
        return Err(Failed);
      }
      assert pending == rest + [component];
      ProgressStep(roots, flattened, rest, component);
      pending := rest + component.children;
      flattened := flattened + [component];
    }
    assert flattened + [] == flattened;
    return Ok(flattened);
  }

  /** Every component of the metadata and the root forest, each exactly as often as it occurs. */
  method Components(bom: Bom) returns (r: Done<seq<Node>>)
    ensures r.Ok? <==> Roots(bom).Ok? && WellFormed(Roots(bom).value)
    ensures r.Ok? ==> multiset(r.value) == multiset(Preorder(Roots(bom).value))
  {
    var roots := Roots(bom);
    if roots.Err? {
      return Err(Failed);
    }
    r := Flatten(roots.value);
    if r.Ok? { VisitIsPreorder(roots.value); }
  }

  // ---- identities ----

  datatype ComponentIdentity = ComponentIdentity(name: string, version: string, purl: string)

  predicate FirstPartyNode(n: Node) { n.Component? && FirstPartyName(n.name) }

  predicate Complete(n: Node) { n.Component? && n.version.Some? && n.purl.Some? }

  function IdentityOf(n: Node): ComponentIdentity {
    if n.Component? then ComponentIdentity(Or(n.name), Or(n.version), Or(n.purl)) else ComponentIdentity("", "", "")
  }

  function ComponentIdentities(nodes: seq<Node>): seq<ComponentIdentity> { Map(IdentityOf, Filter(FirstPartyNode, nodes)) }

  ghost predicate Identifiable(nodes: seq<Node>) {
    forall n :: n in nodes && FirstPartyNode(n) ==> n.version.Some? && n.purl.Some?
  }

  method ReadIdentities(nodes: seq<Node>) returns (r: Done<seq<ComponentIdentity>>)
    ensures r.Ok? <==> Identifiable(nodes)
    ensures r.Ok? ==> r.value == ComponentIdentities(nodes)
  {
    var identities: seq<ComponentIdentity> := [];
    for i := 0 to |nodes|
      invariant identities == ComponentIdentities(nodes[..i])
      invariant Identifiable(nodes[..i])
    {
      assert nodes[..i + 1] == nodes[..i] + [nodes[i]];
      FilterSnoc(FirstPartyNode, nodes[..i], nodes[i]);
      if FirstPartyNode(nodes[i]) {
        if !Complete(nodes[i]) {
          assert nodes[i] in nodes;
          return Err(Failed);
        }
        identities := identities + [IdentityOf(nodes[i])];
      }
    }
    assert nodes[..|nodes|] == nodes;
    return Ok(identities);
  }

  lemma IdentitiesIgnoreOrder(s: seq<Node>, t: seq<Node>)
    requires multiset(s) == multiset(t)
    ensures Identifiable(s) <==> Identifiable(t)
    ensures multiset(ComponentIdentities(s)) == multiset(ComponentIdentities(t))
  {
    SameMembers(s, t);
    FilterIgnoresOrder(FirstPartyNode, s, t);
    MapIgnoresOrder(IdentityOf, Filter(FirstPartyNode, s), Filter(FirstPartyNode, t));
  }

  /** The identities of the first-party components, read from the flattened list, are those of the
      nested document, each as often as it occurs there. */
  method FirstPartyIdentities(bom: Bom) returns (r: Done<seq<ComponentIdentity>>)
    ensures r.Ok? <==> Roots(bom).Ok? && WellFormed(Roots(bom).value) && Identifiable(Preorder(Roots(bom).value))
    ensures r.Ok? ==> multiset(r.value) == multiset(ComponentIdentities(Preorder(Roots(bom).value)))
  {
    var components := Components(bom);
    if components.Err? {
      return Err(Failed);
    }
    r := ReadIdentities(components.value);
    IdentitiesIgnoreOrder(components.value, Preorder(Roots(bom).value));
  }
}
