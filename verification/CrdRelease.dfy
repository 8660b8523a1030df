// Whole releases: collecting every served CRD version, and compatibility soundness.

module CrdRelease {
  import opened Options
  import opened JsonValues
  import opened CelRules
  import opened CrdSchema
  import opened CrdSnapshot
  import opened CrdPaths
  import opened CrdCompare
  import opened CrdSoundness
  import Strings

  /** A CRD version; `root` is its openAPIV3Schema. */
  datatype Version = Version(name: string, served: bool, root: Option<Schema>)

  datatype Crd = Crd(name: string, kind: string, versions: seq<Version>)

  const ROOTS: seq<string> := ["spec", "status"]

  function MetaOf(crd: Crd, v: Version): Meta { Meta(crd.name, crd.kind, v.name) }

  ghost function CollectRoot(meta: Meta, root: Schema, name: string): seq<Node>
  {
    if name in root.properties then Flatten(meta, name, root.properties[name], name in root.required) else []
  }

  ghost function CollectVersion(crd: Crd, v: Version): seq<Node>
  {
    if v.served && v.root.Some? then
      CollectRoot(MetaOf(crd, v), v.root.value, "spec") + CollectRoot(MetaOf(crd, v), v.root.value, "status")
    else []
  }

  ghost function CollectVersions(crd: Crd, versions: seq<Version>): seq<Node>
  {
    if versions == [] then [] else CollectVersion(crd, versions[0]) + CollectVersions(crd, versions[1..])
  }

  /** loadSchemaNodes: unnamed CRDs and repeats of an earlier name are skipped. */
  ghost function CollectRelease(crds: seq<Crd>, seen: set<string>): seq<Node>
  {
    if crds == [] then []
    else if Skipped(crds[0], seen) then CollectRelease(crds[1..], seen)
    else CollectVersions(crds[0], crds[0].versions) + CollectRelease(crds[1..], seen + {crds[0].name})
  }

  method LoadRoot(list: NodeList, meta: Meta, root: Schema, name: string)
    modifies list
    ensures list.nodes == old(list.nodes) + CollectRoot(meta, root, name)
  {
    if name in root.properties {
      list.CollectNode(meta, name, root.properties[name], name in root.required);
    }
  }

  method LoadVersion(list: NodeList, crd: Crd, v: Version)
    modifies list
    ensures list.nodes == old(list.nodes) + CollectVersion(crd, v)
  {
    if v.served && v.root.Some? {
      LoadRoot(list, MetaOf(crd, v), v.root.value, "spec");
      LoadRoot(list, MetaOf(crd, v), v.root.value, "status");
    }
  }

  method LoadVersions(list: NodeList, crd: Crd, versions: seq<Version>)
    modifies list
    ensures list.nodes == old(list.nodes) + CollectVersions(crd, versions)
  {
    ghost var all := old(list.nodes) + CollectVersions(crd, versions);
    assert versions[0..] == versions;
    var i := 0;
    while i < |versions|
      invariant 0 <= i <= |versions|
      invariant list.nodes + CollectVersions(crd, versions[i..]) == all
    {
      VersionsStep(list.nodes, crd, versions, i);
      LoadVersion(list, crd, versions[i]);
      i := i + 1;
    }
    assert CollectVersions(crd, versions[i..]) == [];
  }

  lemma VersionsStep(before: seq<Node>, crd: Crd, versions: seq<Version>, i: nat)
    requires i < |versions|
    ensures before + CollectVersions(crd, versions[i..])
         == (before + CollectVersion(crd, versions[i])) + CollectVersions(crd, versions[i + 1..])
  {
    var rest := versions[i..];
    assert rest[0] == versions[i] && rest[1..] == versions[i + 1..];
    var x, y := CollectVersion(crd, versions[i]), CollectVersions(crd, versions[i + 1..]);
    assert before + (x + y) == (before + x) + y;
  }

  /** collectCRDNodes: a fresh list per CRD. */
  method CollectCrdNodes(crd: Crd) returns (nodes: seq<Node>)
    ensures nodes == CollectVersions(crd, crd.versions)
  {
    var list := new NodeList();
    LoadVersions(list, crd, crd.versions);
    nodes := list.nodes;
  }

  predicate Skipped(crd: Crd, seen: set<string>)
  {
    crd.name == "" || crd.name in seen
  }

  lemma ReleaseStep(crds: seq<Crd>, i: nat, seen: set<string>)
    requires i < |crds|
    ensures CollectRelease(crds[i..], seen)
         == if Skipped(crds[i], seen) then CollectRelease(crds[i + 1..], seen)
            else CollectVersions(crds[i], crds[i].versions) + CollectRelease(crds[i + 1..], seen + {crds[i].name})
  {
    assert crds[i..][0] == crds[i] && crds[i..][1..] == crds[i + 1..];
  }

  /** What loading a release may return: its nodes, in any order. */
  ghost predicate Loads(nodes: seq<Node>, crds: seq<Crd>)
  {
    multiset(nodes) == multiset(CollectRelease(crds, {}))
  }

  /** loadSchemaNodes: a release without any node is an error. */
  method LoadSchemaNodes(crds: seq<Crd>) returns (loaded: Option<seq<Node>>)
    ensures loaded.None? <==> CollectRelease(crds, {}) == []
    ensures loaded.Some? ==> Loads(loaded.value, crds) && InOrder(loaded.value)
  {
    var nodes: seq<Node> := [];
    var seen: set<string> := {};
    var i := 0;
    while i < |crds|
      invariant 0 <= i <= |crds|
      invariant nodes + CollectRelease(crds[i..], seen) == CollectRelease(crds, {})
    {
      ReleaseStep(crds, i, seen);
      if !Skipped(crds[i], seen) {
        var found := CollectCrdNodes(crds[i]);
        seen := seen + {crds[i].name};
        ghost var rest := CollectRelease(crds[i + 1..], seen);
        assert nodes + (found + rest) == (nodes + found) + rest;
        nodes := nodes + found;
      }
      i := i + 1;
    }
    if nodes == [] {
      return None;
    }
    var ordered := SortNodes(nodes);
    return Some(ordered);
  }

  // ----- sortNodes

  /** The comparison of sortNodes: by CRD, then version, then path. */
  predicate NotAfter(a: Node, b: Node)
  {
    if a.meta.crd != b.meta.crd then Strings.AtMost(a.meta.crd, b.meta.crd)
    else if a.meta.version != b.meta.version then Strings.AtMost(a.meta.version, b.meta.version)
    else Strings.AtMost(a.path, b.path)
  }

  ghost predicate InOrder(nodes: seq<Node>)
  {
    forall i, j :: 0 <= i < j < |nodes| ==> NotAfter(nodes[i], nodes[j])
  }

  lemma NotAfterTotal(a: Node, b: Node)
    ensures NotAfter(a, b) || NotAfter(b, a)
  {
    Strings.AtMostTotal(a.meta.crd, b.meta.crd);
    Strings.AtMostTotal(a.meta.version, b.meta.version);
    Strings.AtMostTotal(a.path, b.path);
  }

  lemma NotAfterTransitive(a: Node, b: Node, c: Node)
    requires NotAfter(a, b) && NotAfter(b, c)
    ensures NotAfter(a, c)
  {
    TextTransitive(a.meta.crd, b.meta.crd, c.meta.crd);
    TextTransitive(a.meta.version, b.meta.version, c.meta.version);
    TextTransitive(a.path, b.path, c.path);
  }

  lemma TextTransitive(a: string, b: string, c: string)
    ensures Strings.AtMost(a, b) && Strings.AtMost(b, c) ==> Strings.AtMost(a, c) && (a == c ==> a == b)
  {
    if Strings.AtMost(a, b) && Strings.AtMost(b, c) {
      Strings.AtMostTransitive(a, b, c);
      if a == c {
        Strings.AtMostAntisymmetric(a, b);
      }
    }
  }

  method SortNodes(nodes: seq<Node>) returns (ordered: seq<Node>)
    ensures multiset(ordered) == multiset(nodes) && InOrder(ordered)
  {
    ordered := [];
    for i := 0 to |nodes|
      invariant multiset(ordered) == multiset(nodes[..i]) && InOrder(ordered)
    {
      assert nodes[..i + 1] == nodes[..i] + [nodes[i]];
      ordered := InsertNode(ordered, nodes[i]);
    }
    assert nodes[..|nodes|] == nodes;
  }

  method InsertNode(ordered: seq<Node>, node: Node) returns (r: seq<Node>)
    requires InOrder(ordered)
    ensures multiset(r) == multiset(ordered) + multiset{node} && InOrder(r)
  {
    var k := |ordered|;
    while k > 0 && !NotAfter(ordered[k - 1], node)
      invariant 0 <= k <= |ordered|
      invariant forall i :: k <= i < |ordered| ==> NotAfter(node, ordered[i])
    {
      NotAfterTotal(ordered[k - 1], node);
      k := k - 1;
    }
    r := ordered[..k] + [node] + ordered[k..];
    InsertMultiset(ordered, node, k);
    InsertInOrder(ordered, node, k);
  }

  lemma InsertMultiset(ordered: seq<Node>, node: Node, k: nat)
    requires k <= |ordered|
    ensures multiset(ordered[..k] + [node] + ordered[k..]) == multiset(ordered) + multiset{node}
  {
    assert ordered == ordered[..k] + ordered[k..];
  }

  lemma InsertInOrder(ordered: seq<Node>, node: Node, k: nat)
    requires InOrder(ordered) && k <= |ordered| && (k > 0 ==> NotAfter(ordered[k - 1], node))
    requires forall i :: k <= i < |ordered| ==> NotAfter(node, ordered[i])
    ensures InOrder(ordered[..k] + [node] + ordered[k..])
  {
    forall i | 0 <= i < k ensures NotAfter(ordered[i], node) {
      if i < k - 1 {
        NotAfterTransitive(ordered[i], ordered[k - 1], node);
      }
    }
  }

  /** `crd` is the first of its name, and serves `v`. */
  ghost predicate Serves(crds: seq<Crd>, seen: set<string>, crd: Crd, v: Version)
  {
    crds != [] &&
    if Skipped(crds[0], seen) then Serves(crds[1..], seen, crd, v)
    else
      || (crd == crds[0] && v in crd.versions && v.served && v.root.Some?)
      || Serves(crds[1..], seen + {crds[0].name}, crd, v)
  }

  /** The versions the theorem speaks about: only this version's own trees matter. */
  ghost predicate PlainVersion(crd: Crd, v: Version)
  {
    && (forall i, j :: 0 <= i < j < |crd.versions| ==> crd.versions[i].name != crd.versions[j].name)
    && (v.root.Some? ==> forall name :: name in ROOTS ==> PlainRoot(v.root.value, name))
  }

  ghost predicate PlainRoot(root: Schema, name: string)
  {
    if name in root.properties then Plain(root.properties[name]) else name !in root.required
  }

  // ----- lookups in the node map

  lemma {:induction false} NodeMapElim(nodes: seq<Node>, k: NodeKey)
    requires k in NodeMap(nodes)
    ensures NodeMap(nodes)[k] in nodes && k == Key(NodeMap(nodes)[k].meta, NodeMap(nodes)[k].path)
    decreases |nodes|
  {
    var last := nodes[|nodes| - 1];
    if k != Key(last.meta, last.path) {
      NodeMapElim(nodes[..|nodes| - 1], k);
    }
  }

  lemma {:induction false} NodeMapIntro(nodes: seq<Node>, node: Node)
    requires node in nodes
    ensures Key(node.meta, node.path) in NodeMap(nodes)
    decreases |nodes|
  {
    var last := nodes[|nodes| - 1];
    if node != last {
      assert nodes == nodes[..|nodes| - 1] + [last];
      NodeMapIntro(nodes[..|nodes| - 1], node);
    }
  }

  lemma {:induction false} VersionsElim(crd: Crd, versions: seq<Version>, node: Node) returns (v: Version)
    requires node in CollectVersions(crd, versions)
    ensures v in versions && node in CollectVersion(crd, v)
    decreases |versions|
  {
    if node in CollectVersion(crd, versions[0]) {
      v := versions[0];
    } else {
      v := VersionsElim(crd, versions[1..], node);
    }
  }

  lemma {:induction false} VersionsIntro(crd: Crd, versions: seq<Version>, v: Version, node: Node)
    requires v in versions && node in CollectVersion(crd, v)
    ensures node in CollectVersions(crd, versions)
    decreases |versions|
  {
    if v != versions[0] {
      VersionsIntro(crd, versions[1..], v, node);
    }
  }

  lemma {:induction false} FlattenMeta(meta: Meta, path: string, s: Schema, required: bool, node: Node)
    requires node in Flatten(meta, path, s, required)
    ensures node.meta == meta
    decreases s
  {
    if node != NodeOf(meta, path, s, required) {
      var kid := FlattenAllElim(meta, s, Children(path, s), node);
      FlattenMeta(meta, kid.path, kid.schema, kid.required, node);
    }
  }

  lemma CollectedMeta(crd: Crd, v: Version, node: Node)
    requires node in CollectVersion(crd, v)
    ensures node.meta == MetaOf(crd, v)
  {
    var meta, root := MetaOf(crd, v), v.root.value;
    var name := if node in CollectRoot(meta, root, "spec") then "spec" else "status";
    FlattenMeta(meta, name, root.properties[name], name in root.required, node);
  }

  lemma {:induction false} ReleaseElim(crds: seq<Crd>, seen: set<string>, node: Node) returns (crd: Crd, v: Version)
    requires node in CollectRelease(crds, seen)
    ensures crd in crds && crd.name !in seen && Serves(crds, seen, crd, v) && node in CollectVersion(crd, v)
    decreases |crds|
  {
    if Skipped(crds[0], seen) {
      crd, v := ReleaseElim(crds[1..], seen, node);
    } else if node in CollectVersions(crds[0], crds[0].versions) {
      crd := crds[0];
      v := VersionsElim(crd, crd.versions, node);
    } else {
      crd, v := ReleaseElim(crds[1..], seen + {crds[0].name}, node);
    }
  }

  lemma {:induction false} ReleaseIntro(crds: seq<Crd>, seen: set<string>, crd: Crd, v: Version, node: Node)
    requires Serves(crds, seen, crd, v) && node in CollectVersion(crd, v)
    ensures node in CollectRelease(crds, seen)
    decreases |crds|
  {
    if Skipped(crds[0], seen) {
      ReleaseIntro(crds[1..], seen, crd, v, node);
    } else if crd == crds[0] && v in crd.versions {
      VersionsIntro(crd, crd.versions, v, node);
    } else {
      ReleaseIntro(crds[1..], seen + {crds[0].name}, crd, v, node);
    }
  }

  lemma {:induction false} ServesMember(crds: seq<Crd>, seen: set<string>, crd: Crd, v: Version)
    requires Serves(crds, seen, crd, v)
    ensures crd in crds && crd.name !in seen && v in crd.versions && v.served && v.root.Some?
    decreases |crds|
  {
    if Skipped(crds[0], seen) {
      ServesMember(crds[1..], seen, crd, v);
    } else if !(crd == crds[0] && v in crd.versions && v.served && v.root.Some?) {
      ServesMember(crds[1..], seen + {crds[0].name}, crd, v);
    }
  }

  lemma {:induction false} ServesUnique(crds: seq<Crd>, seen: set<string>, c1: Crd, v1: Version, c2: Crd, v2: Version)
    requires Serves(crds, seen, c1, v1) && Serves(crds, seen, c2, v2) && c1.name == c2.name
    ensures c1 == c2
    decreases |crds|
  {
    if Skipped(crds[0], seen) {
      ServesUnique(crds[1..], seen, c1, v1, c2, v2);
    } else {
      var rest, more := crds[1..], seen + {crds[0].name};
      if Serves(rest, more, c1, v1) {
        ServesMember(rest, more, c1, v1);
      }
      if Serves(rest, more, c2, v2) {
        ServesMember(rest, more, c2, v2);
      }
      if Serves(rest, more, c1, v1) && Serves(rest, more, c2, v2) {
        ServesUnique(rest, more, c1, v1, c2, v2);
      }
    }
  }

  lemma SameVersion(crds: seq<Crd>, c1: Crd, v1: Version, c2: Crd, v2: Version)
    requires PlainVersion(c1, v1)
    requires Serves(crds, {}, c1, v1) && Serves(crds, {}, c2, v2)
    requires c1.name == c2.name && v1.name == v2.name
    ensures c1 == c2 && v1 == v2
  {
    ServesUnique(crds, {}, c1, v1, c2, v2);
    ServesMember(crds, {}, c1, v1);
    ServesMember(crds, {}, c2, v2);
    var i :| 0 <= i < |c1.versions| && c1.versions[i] == v1;
    var j :| 0 <= j < |c1.versions| && c1.versions[j] == v2;
  }

  // ----- the node map of a release mirrors its trees

  ghost predicate Holds(nodes: map<NodeKey, Node>, meta: Meta, path: string, at: Placed)
  {
    Key(meta, path) in nodes && nodes[Key(meta, path)] == NodeAt(meta, path, at)
  }

  /** What a node map says about one place of a tree. */
  ghost predicate MirrorsAt(nodes: map<NodeKey, Node>, meta: Meta, root: string, at: Placed, steps: seq<Step>)
  {
    && (Walk(at, steps).Some? ==> Holds(nodes, meta, Render(root, steps), Walk(at, steps).value))
    && (CleanSteps(steps) && Key(meta, Render(root, steps)) in nodes ==> Walk(at, steps).Some?)
  }

  /** The nodes below `root` are exactly the places of the tree at `at`. */
  ghost predicate Mirrors(nodes: map<NodeKey, Node>, meta: Meta, root: string, at: Placed)
  {
    forall steps :: MirrorsAt(nodes, meta, root, at, steps)
  }

  lemma LoadedMember(nodes: seq<Node>, crds: seq<Crd>, node: Node)
    requires Loads(nodes, crds)
    ensures node in nodes <==> node in CollectRelease(crds, {})
  {
    assert node in nodes <==> node in multiset(nodes);
    assert node in CollectRelease(crds, {}) <==> node in multiset(CollectRelease(crds, {}));
  }

  /** A node under a key of this version was collected from this version. */
  lemma CollectedHere(crds: seq<Crd>, crd: Crd, v: Version, node: Node)
    requires PlainVersion(crd, v) && Serves(crds, {}, crd, v) && node in CollectRelease(crds, {})
    requires node.meta.crd == crd.name && node.meta.version == v.name
    ensures node in CollectVersion(crd, v) && node.meta == MetaOf(crd, v)
  {
    var c1, v1 := ReleaseElim(crds, {}, node);
    CollectedMeta(c1, v1, node);
    SameVersion(crds, crd, v, c1, v1);
  }

  lemma CollectedRoot(crd: Crd, v: Version, node: Node) returns (name: string)
    requires v.root.Some? && node in CollectVersion(crd, v)
    ensures name in ROOTS && name in v.root.value.properties
    ensures node in CollectRoot(MetaOf(crd, v), v.root.value, name)
  {
    name := if node in CollectRoot(MetaOf(crd, v), v.root.value, "spec") then "spec" else "status";
    assert ROOTS[0] == "spec" && ROOTS[1] == "status";
  }

  /** A path names one root and one way down from it. */
  lemma SamePlace(name: string, found: seq<Step>, root: string, steps: seq<Step>)
    requires name in ROOTS && root in ROOTS && CleanSteps(found) && CleanSteps(steps)
    requires Render(name, found) == Render(root, steps)
    ensures name == root && found == steps
  {
    RootsAreRoots();
    RenderInjective(name, found, root, steps);
  }

  /** The place of a node in its tree is the one that its path names. */
  lemma PlaceOf(meta: Meta, name: string, at: Placed, node: Node, root: string, steps: seq<Step>)
    requires name in ROOTS && root in ROOTS && Plain(at.schema) && CleanSteps(steps)
    requires node in Flatten(meta, name, at.schema, at.required) && node.path == Render(root, steps)
    ensures name == root && Walk(at, steps).Some? && node == NodeAt(meta, Render(root, steps), Walk(at, steps).value)
  {
    var found := NodeToSteps(meta, name, at, node);
    WalkPlainNode(at, found);
    SamePlace(name, found, root, steps);
  }

  /** Where a node of a release came from. */
  lemma Provenance(crds: seq<Crd>, crd: Crd, v: Version, root: string, steps: seq<Step>, node: Node)
    returns (at: Placed)
    requires PlainVersion(crd, v) && Serves(crds, {}, crd, v) && v.root.Some?
    requires root in ROOTS && CleanSteps(steps)
    requires node in CollectRelease(crds, {})
    requires Key(node.meta, node.path) == Key(MetaOf(crd, v), Render(root, steps))
    ensures root in v.root.value.properties
    ensures at == Placed(v.root.value.properties[root], root in v.root.value.required)
    ensures Walk(at, steps).Some?
    ensures node == NodeAt(MetaOf(crd, v), Render(root, steps), Walk(at, steps).value)
  {
    CollectedHere(crds, crd, v, node);
    var name := CollectedRoot(crd, v, node);
    assert PlainRoot(v.root.value, name);
    at := Placed(v.root.value.properties[name], name in v.root.value.required);
    PlaceOf(MetaOf(crd, v), name, at, node, root, steps);
  }

  lemma ReleaseMirrors(nodes: seq<Node>, crds: seq<Crd>, crd: Crd, v: Version, root: string)
    requires Loads(nodes, crds) && PlainVersion(crd, v) && Serves(crds, {}, crd, v) && v.root.Some?
    requires root in ROOTS && root in v.root.value.properties
    ensures Plain(v.root.value.properties[root])
    ensures Mirrors(NodeMap(nodes), MetaOf(crd, v), root,
                    Placed(v.root.value.properties[root], root in v.root.value.required))
  {
    var meta := MetaOf(crd, v);
    var at := Placed(v.root.value.properties[root], root in v.root.value.required);
    assert PlainRoot(v.root.value, root);
    forall steps ensures MirrorsAt(NodeMap(nodes), meta, root, at, steps) {
      if Walk(at, steps).Some? {
        PlaceIsLoaded(nodes, crds, crd, v, root, steps);
      }
      var k := Key(meta, Render(root, steps));
      if CleanSteps(steps) && k in NodeMap(nodes) {
        NodeMapElim(nodes, k);
        LoadedMember(nodes, crds, NodeMap(nodes)[k]);
        var _ := Provenance(crds, crd, v, root, steps, NodeMap(nodes)[k]);
      }
    }
  }

  lemma PlaceIsLoaded(nodes: seq<Node>, crds: seq<Crd>, crd: Crd, v: Version, root: string, steps: seq<Step>)
    requires Loads(nodes, crds) && PlainVersion(crd, v) && Serves(crds, {}, crd, v) && v.root.Some?
    requires root in ROOTS && root in v.root.value.properties
    requires Walk(RootPlace(v.root.value, root), steps).Some?
    ensures Key(MetaOf(crd, v), Render(root, steps)) in NodeMap(nodes) && CleanSteps(steps)
  {
    var at, meta := RootPlace(v.root.value, root), MetaOf(crd, v);
    var node := NodeAt(meta, Render(root, steps), Walk(at, steps).value);
    StepsToNode(meta, root, at, steps);
    ServesMember(crds, {}, crd, v);
    assert node in CollectVersion(crd, v);
    ReleaseIntro(crds, {}, crd, v, node);
    LoadedMember(nodes, crds, node);
    NodeMapIntro(nodes, node);
    assert PlainRoot(v.root.value, root);
    WalkPlain(at, steps);
  }

  ghost function RootPlace(root: Schema, name: string): Placed
    requires name in root.properties
  {
    Placed(root.properties[name], name in root.required)
  }

  // ----- what the comparison cannot see

  /**
   * Nothing became stricter that the comparison does not look at: no allOf branch or first
   * anyOf branch was added, oneOf and not stayed, names required without being declared
   * stayed, an object that keeps unknown fields declares no new one, an array without an
   * item schema got none, and no integer limit moved within one float64.
   */
  predicate NothingHidden(o: Schema, n: Schema)
  {
    && |n.allOf| <= |o.allOf| && (o.anyOf == [] ==> n.anyOf == []) && n.oneOf == o.oneOf && n.negated == o.negated
    && (forall r :: r in n.required && r !in n.properties ==> r in o.required)
    && (o.limits.preserveUnknownFields ==> n.properties.Keys <= o.properties.Keys)
    && (o.items.None? ==> n.items.None?)
    && LimitsToldApart(o.limits, n.limits)
  }

  ghost predicate ComparableAt(o: Placed, n: Placed, steps: seq<Step>)
  {
    Walk(o, steps).Some? && Walk(n, steps).Some? ==>
      NothingHidden(Walk(o, steps).value.schema, Walk(n, steps).value.schema)
  }

  ghost predicate Comparable(o: Placed, n: Placed)
  {
    forall steps :: ComparableAt(o, n, steps)
  }

  // ----- validity carries over, place by place

  /** Two trees with the same root path, and an unblocked comparison of their releases. */
  ghost predicate Paired(olds: map<NodeKey, Node>, news: map<NodeKey, Node>, mo: Meta, mn: Meta,
                         root: string, o: Placed, n: Placed)
  {
    && Unblocked(olds, news)
    && mo.crd == mn.crd && mo.version == mn.version && root in ROOTS
    && Mirrors(olds, mo, root, o) && Mirrors(news, mn, root, n)
    && Plain(o.schema) && Plain(n.schema) && Comparable(o, n)
    && ((mn, root) == RESTORE_SPEC ==> FreshRulesGuarded(o.schema, n.schema))
  }

  /** A place that exists in the old tree exists in the new one, and its node was relaxed. */
  lemma PlaceKept(olds: map<NodeKey, Node>, news: map<NodeKey, Node>, mo: Meta, mn: Meta,
                  root: string, o: Placed, n: Placed, steps: seq<Step>)
    requires Paired(olds, news, mo, mn, root, o, n) && Walk(o, steps).Some?
    ensures Walk(n, steps).Some?
    ensures var path := Render(root, steps);
            var a, b := NodeAt(mo, path, Walk(o, steps).value), NodeAt(mn, path, Walk(n, steps).value);
            forall c :: NodeChange(c, a, b) ==> c.impact == Compatible
  {
    var path := Render(root, steps);
    var k := Key(mo, path);
    WalkPlainNode(o, steps);
    assert MirrorsAt(olds, mo, root, o, steps) && MirrorsAt(news, mn, root, n, steps);
    assert Holds(olds, mo, path, Walk(o, steps).value);
    if k !in news {
      assert ChangeAt(k, NewChange(Breaking, FieldRemoved, olds[k]), olds, news);
    }
    assert k == Key(mn, path);
    assert Holds(news, mn, path, Walk(n, steps).value);
    forall c | NodeChange(c, NodeAt(mo, path, Walk(o, steps).value), NodeAt(mn, path, Walk(n, steps).value))
      ensures c.impact == Compatible
    {
      assert ChangeAt(k, c, olds, news);
    }
  }

  /** A required field under an old parent is not new: it has no optional ancestor that is new too. */
  lemma RequiredIsOld(olds: map<NodeKey, Node>, news: map<NodeKey, Node>, k: NodeKey)
    requires Unblocked(olds, news) && k in news && news[k].required && Key(news[k].meta, news[k].path) == k
    requires Key(news[k].meta, ParentPath(news[k].path)) in olds
    ensures k in olds
  {
    if k !in olds {
      assert !UnderOptionalAncestor(news[k].meta, ParentPath(news[k].path), olds, news);
      assert ChangeAt(k, NewChange(Breaking, FieldAddedRequired, news[k]), olds, news);
    }
  }

  /** The old node at a place, under the key of the new tree. */
  lemma HeldAt(olds: map<NodeKey, Node>, news: map<NodeKey, Node>, mo: Meta, mn: Meta,
               root: string, o: Placed, n: Placed, steps: seq<Step>)
    requires Paired(olds, news, mo, mn, root, o, n)
    ensures Walk(o, steps).Some? ==> Key(mn, Render(root, steps)) in olds
    ensures Walk(n, steps).Some? ==> Holds(news, mn, Render(root, steps), Walk(n, steps).value)
    ensures CleanSteps(steps) && Key(mn, Render(root, steps)) in olds ==> Walk(o, steps).Some?
  {
    assert MirrorsAt(olds, mo, root, o, steps) && MirrorsAt(news, mn, root, n, steps);
    assert Key(mo, Render(root, steps)) == Key(mn, Render(root, steps));
  }

  /** A field the new tree requires below an old place exists there. */
  lemma RequiredExists(olds: map<NodeKey, Node>, news: map<NodeKey, Node>, mo: Meta, mn: Meta,
                       root: string, o: Placed, n: Placed, steps: seq<Step>, name: string)
    requires Paired(olds, news, mo, mn, root, o, n) && Walk(o, steps).Some?
    requires Walk(n, steps + [Property(name)]).Some? && Walk(n, steps + [Property(name)]).value.required
    ensures Walk(o, steps + [Property(name)]).Some?
  {
    var child := steps + [Property(name)];
    var path := Render(root, child);
    WalkPlainNode(n, child);
    assert child[|steps|] == Property(name);
    HeldAt(olds, news, mo, mn, root, o, n, steps);
    HeldAt(olds, news, mo, mn, root, o, n, child);
    RenderSnoc(root, steps, Property(name));
    ChildPath(Render(root, steps), Property(name));
    RequiredIsOld(olds, news, Key(mn, path));
  }

  /** What is required at a place was required there before. */
  lemma RequirednessKept(olds: map<NodeKey, Node>, news: map<NodeKey, Node>, mo: Meta, mn: Meta,
                         root: string, o: Placed, n: Placed, steps: seq<Step>)
    requires Paired(olds, news, mo, mn, root, o, n) && Walk(o, steps).Some?
    ensures Walk(n, steps).Some? && (Walk(n, steps).value.required ==> Walk(o, steps).value.required)
  {
    PlaceKept(olds, news, mo, mn, root, o, n, steps);
    var path := Render(root, steps);
    RelaxedHeader(NodeAt(mo, path, Walk(o, steps).value), NodeAt(mn, path, Walk(n, steps).value));
  }

  /** A field the new tree requires below an old place was required there before. */
  lemma RequiredKept(olds: map<NodeKey, Node>, news: map<NodeKey, Node>, mo: Meta, mn: Meta,
                     root: string, o: Placed, n: Placed, steps: seq<Step>, name: string)
    requires Paired(olds, news, mo, mn, root, o, n)
    requires Walk(o, steps).Some? && Walk(n, steps).Some?
    requires name in Walk(n, steps).value.schema.required
    ensures name in Walk(o, steps).value.schema.required
  {
    if name in Walk(n, steps).value.schema.properties {
      WalkSnoc(n, steps, Property(name));
      WalkSnoc(o, steps, Property(name));
      RequiredExists(olds, news, mo, mn, root, o, n, steps, name);
      RequirednessKept(olds, news, mo, mn, root, o, n, steps + [Property(name)]);
    } else {
      assert ComparableAt(o, n, steps);
    }
  }

  // ----- composition branches

  /** A branch looks at the value itself and at which fields it has. */
  ghost predicate BranchOk(m: Semantics, b: Schema, v: Json)
  {
    ShallowOk(m, b, v) && (v.Obj? ==> forall r :: r in b.required ==> r in v.fields)
  }

  lemma LeafValid(m: Semantics, b: Schema, v: Json)
    requires IsLeaf(b)
    ensures Valid(m, b, v, false) <==> BranchOk(m, b, v)
  {}

  lemma BranchPlace(at: Placed, steps: seq<Step>, c: Composition, i: nat)
    requires Walk(at, steps).Some?
    ensures var s, below := Walk(at, steps).value.schema, Walk(at, steps + [Branch(c, i)]);
      && (below.Some? <==> i < |Branches(s, c)|)
      && (below.Some? ==> below.value.schema == Branches(s, c)[i])
  {
    WalkSnoc(at, steps, Branch(c, i));
  }

  /** What one node decides about a value, apart from its children and branches. */
  lemma NodeTransfers(m: Semantics, olds: map<NodeKey, Node>, news: map<NodeKey, Node>, mo: Meta, mn: Meta,
                      root: string, o: Placed, n: Placed, steps: seq<Step>, v: Json)
    requires Paired(olds, news, mo, mn, root, o, n) && Walk(o, steps).Some? && steps != []
    requires ShallowOk(m, Walk(o, steps).value.schema, v)
    ensures Walk(n, steps).Some? && ShallowOk(m, Walk(n, steps).value.schema, v)
  {
    PlaceKept(olds, news, mo, mn, root, o, n, steps);
    assert ComparableAt(o, n, steps);
    WalkPlainNode(o, steps);
    SpecPath(root, steps);
    RelaxedNode(m, mo, mn, Render(root, steps), Walk(o, steps).value, Walk(n, steps).value, v);
  }

  /** A branch of the old tree that still exists accepts what it accepted. */
  lemma BranchTransfers(m: Semantics, olds: map<NodeKey, Node>, news: map<NodeKey, Node>, mo: Meta, mn: Meta,
                        root: string, o: Placed, n: Placed, steps: seq<Step>, c: Composition, i: nat, v: Json)
    requires Paired(olds, news, mo, mn, root, o, n) && Walk(o, steps).Some? && Walk(n, steps).Some?
    requires i < |Branches(Walk(o, steps).value.schema, c)|
    requires BranchOk(m, Branches(Walk(o, steps).value.schema, c)[i], v)
    ensures i < |Branches(Walk(n, steps).value.schema, c)|
    ensures BranchOk(m, Branches(Walk(n, steps).value.schema, c)[i], v)
  {
    var below := steps + [Branch(c, i)];
    BranchPlace(o, steps, c, i);
    BranchPlace(n, steps, c, i);
    NodeTransfers(m, olds, news, mo, mn, root, o, n, below, v);
    forall r | v.Obj? && r in Walk(n, below).value.schema.required ensures r in v.fields {
      RequiredKept(olds, news, mo, mn, root, o, n, below, r);
    }
  }

  ghost predicate AllOfOk(m: Semantics, s: Schema, v: Json)
  {
    forall i :: 0 <= i < |s.allOf| ==> BranchOk(m, s.allOf[i], v)
  }

  ghost predicate AnyOfOk(m: Semantics, s: Schema, v: Json)
  {
    s.anyOf != [] ==> exists i :: 0 <= i < |s.anyOf| && BranchOk(m, s.anyOf[i], v)
  }

  /** The keywords that have to stay as they are. */
  ghost predicate ChoiceOk(m: Semantics, oneOf: seq<Schema>, negated: Option<Schema>, v: Json)
  {
    && (oneOf != [] ==>
          exists i :: 0 <= i < |oneOf| && Valid(m, oneOf[i], v, false)
            && forall j :: 0 <= j < |oneOf| && j != i ==> !Valid(m, oneOf[j], v, false))
    && (negated.Some? ==> !Valid(m, negated.value, v, false))
  }

  ghost predicate ComposedOk(m: Semantics, s: Schema, v: Json)
  {
    AllOfOk(m, s, v) && AnyOfOk(m, s, v) && ChoiceOk(m, s.oneOf, s.negated, v)
  }

  lemma AllOfTransfers(m: Semantics, olds: map<NodeKey, Node>, news: map<NodeKey, Node>, mo: Meta, mn: Meta,
                       root: string, o: Placed, n: Placed, steps: seq<Step>, v: Json)
    requires Paired(olds, news, mo, mn, root, o, n) && Walk(o, steps).Some? && Walk(n, steps).Some?
    requires AllOfOk(m, Walk(o, steps).value.schema, v)
    ensures AllOfOk(m, Walk(n, steps).value.schema, v)
  {
    var b := Walk(n, steps).value.schema;
    assert ComparableAt(o, n, steps);
    forall i | 0 <= i < |b.allOf| ensures BranchOk(m, b.allOf[i], v) {
      BranchTransfers(m, olds, news, mo, mn, root, o, n, steps, AllOf, i, v);
    }
  }

  lemma AnyOfTransfers(m: Semantics, olds: map<NodeKey, Node>, news: map<NodeKey, Node>, mo: Meta, mn: Meta,
                       root: string, o: Placed, n: Placed, steps: seq<Step>, v: Json)
    requires Paired(olds, news, mo, mn, root, o, n) && Walk(o, steps).Some? && Walk(n, steps).Some?
    requires AnyOfOk(m, Walk(o, steps).value.schema, v)
    ensures AnyOfOk(m, Walk(n, steps).value.schema, v)
  {
    var a, b := Walk(o, steps).value.schema, Walk(n, steps).value.schema;
    assert ComparableAt(o, n, steps);
    if b.anyOf != [] {
      var i :| 0 <= i < |a.anyOf| && BranchOk(m, a.anyOf[i], v);
      BranchTransfers(m, olds, news, mo, mn, root, o, n, steps, AnyOf, i, v);
    }
  }

  lemma ComposedTransfers(m: Semantics, olds: map<NodeKey, Node>, news: map<NodeKey, Node>, mo: Meta, mn: Meta,
                          root: string, o: Placed, n: Placed, steps: seq<Step>, v: Json)
    requires Paired(olds, news, mo, mn, root, o, n) && Walk(o, steps).Some? && Walk(n, steps).Some?
    requires ComposedOk(m, Walk(o, steps).value.schema, v)
    ensures ComposedOk(m, Walk(n, steps).value.schema, v)
  {
    AllOfTransfers(m, olds, news, mo, mn, root, o, n, steps, v);
    AnyOfTransfers(m, olds, news, mo, mn, root, o, n, steps, v);
    assert ComparableAt(o, n, steps);
  }

  // ----- values

  /** How a closed plain schema treats one field of an object. */
  ghost predicate FieldOk(m: Semantics, s: Schema, k: string, v: Json)
  {
    if k in s.properties then Valid(m, s.properties[k], v, true)
    else if s.additional.Some? then s.additional.value.schema.Some? && Valid(m, s.additional.value.schema.value, v, true)
    else s.limits.preserveUnknownFields
  }

  ghost predicate ObjectOk(m: Semantics, s: Schema, v: Json)
  {
    v.Obj? ==>
      && (forall r :: r in s.required ==> r in v.fields)
      && (forall k :: k in v.fields ==> FieldOk(m, s, k, v.fields[k]))
  }

  ghost predicate ArrayOk(m: Semantics, s: Schema, v: Json)
  {
    v.Arr? && s.items.Some? ==> forall i :: 0 <= i < |v.elems| ==> Valid(m, s.items.value, v.elems[i], true)
  }

  ghost predicate PlainValid(m: Semantics, s: Schema, v: Json)
  {
    ShallowOk(m, s, v) && ObjectOk(m, s, v) && ArrayOk(m, s, v) && ComposedOk(m, s, v)
  }

  lemma BranchesValid(m: Semantics, branches: seq<Schema>, v: Json)
    requires forall b :: b in branches ==> IsLeaf(b)
    ensures forall i :: 0 <= i < |branches| ==> (Valid(m, branches[i], v, false) <==> BranchOk(m, branches[i], v))
  {
    forall i | 0 <= i < |branches| ensures Valid(m, branches[i], v, false) <==> BranchOk(m, branches[i], v) {
      assert branches[i] in branches;
      LeafValid(m, branches[i], v);
    }
  }

  /** The composition keywords, as validity states them. */
  ghost predicate BranchesOk(m: Semantics, s: Schema, v: Json)
  {
    && (forall i :: 0 <= i < |s.allOf| ==> Valid(m, s.allOf[i], v, false))
    && (s.anyOf != [] ==> exists i :: 0 <= i < |s.anyOf| && Valid(m, s.anyOf[i], v, false))
    && ChoiceOk(m, s.oneOf, s.negated, v)
  }

  lemma BranchesPlain(m: Semantics, s: Schema, v: Json)
    requires PlainNode(s)
    ensures BranchesOk(m, s, v) <==> ComposedOk(m, s, v)
  {
    BranchesValid(m, s.allOf, v);
    BranchesValid(m, s.anyOf, v);
  }

  lemma ValidIsPlain(m: Semantics, s: Schema, v: Json)
    requires PlainNode(s) && Valid(m, s, v, true)
    ensures PlainValid(m, s, v)
  {
    assert ObjectOk(m, s, v) && ArrayOk(m, s, v);
    assert BranchesOk(m, s, v);
    BranchesPlain(m, s, v);
  }

  lemma PlainIsValid(m: Semantics, s: Schema, v: Json)
    requires PlainNode(s) && PlainValid(m, s, v)
    ensures Valid(m, s, v, true)
  {
    BranchesPlain(m, s, v);
    FieldsValid(m, s, v);
  }

  lemma FieldsValid(m: Semantics, s: Schema, v: Json)
    requires ShallowOk(m, s, v) && ObjectOk(m, s, v) && ArrayOk(m, s, v) && BranchesOk(m, s, v)
    ensures Valid(m, s, v, true)
  {}

  /** Validity at one place implies validity at the same place of the new tree. */
  lemma {:induction false} Transfers(m: Semantics, olds: map<NodeKey, Node>, news: map<NodeKey, Node>, mo: Meta, mn: Meta,
                                     root: string, o: Placed, n: Placed, steps: seq<Step>, v: Json)
    requires Paired(olds, news, mo, mn, root, o, n)
    requires Walk(o, steps).Some? && Valid(m, Walk(o, steps).value.schema, v, true)
    ensures Walk(n, steps).Some? && Valid(m, Walk(n, steps).value.schema, v, true)
    decreases v, 2
  {
    PlaceKept(olds, news, mo, mn, root, o, n, steps);
    var a, b := Walk(o, steps).value.schema, Walk(n, steps).value.schema;
    WalkPlainNode(o, steps);
    WalkPlainNode(n, steps);
    ValidIsPlain(m, a, v);
    ShallowTransfers(m, olds, news, mo, mn, root, o, n, steps, v);
    ComposedTransfers(m, olds, news, mo, mn, root, o, n, steps, v);
    if v.Obj? {
      ObjectTransfers(m, olds, news, mo, mn, root, o, n, steps, v);
    }
    if v.Arr? {
      ArrayTransfers(m, olds, news, mo, mn, root, o, n, steps, v);
    }
    PlainIsValid(m, b, v);
  }

  lemma ShallowTransfers(m: Semantics, olds: map<NodeKey, Node>, news: map<NodeKey, Node>, mo: Meta, mn: Meta,
                         root: string, o: Placed, n: Placed, steps: seq<Step>, v: Json)
    requires Paired(olds, news, mo, mn, root, o, n) && Walk(n, steps).Some?
    requires Walk(o, steps).Some? && Valid(m, Walk(o, steps).value.schema, v, true)
    ensures ShallowOk(m, Walk(n, steps).value.schema, v)
  {
    PlaceKept(olds, news, mo, mn, root, o, n, steps);
    var a, b, path := Walk(o, steps).value, Walk(n, steps).value, Render(root, steps);
    WalkPlainNode(o, steps);
    SpecPath(root, steps);
    assert ComparableAt(o, n, steps);
    if (mn, path) == RESTORE_SPEC {
      assert steps == [];
      forall id | FreshlyAdded(id, a.schema, b.schema) ensures Passes(id, v) {
        GuardedRulePasses(m, a.schema, b.schema, id, v);
      }
    }
    RelaxedNode(m, mo, mn, path, a, b, v);
  }

  lemma {:induction false} ObjectTransfers(m: Semantics, olds: map<NodeKey, Node>, news: map<NodeKey, Node>, mo: Meta, mn: Meta,
                                           root: string, o: Placed, n: Placed, steps: seq<Step>, v: Json)
    requires Paired(olds, news, mo, mn, root, o, n) && Walk(o, steps).Some? && Walk(n, steps).Some?
    requires v.Obj? && ObjectOk(m, Walk(o, steps).value.schema, v)
    ensures ObjectOk(m, Walk(n, steps).value.schema, v)
    decreases v, 1
  {
    var b := Walk(n, steps).value.schema;
    forall r | r in b.required ensures r in v.fields {
      RequiredKept(olds, news, mo, mn, root, o, n, steps, r);
    }
    forall k | k in v.fields ensures FieldOk(m, b, k, v.fields[k]) {
      FieldTransfers(m, olds, news, mo, mn, root, o, n, steps, v, k);
    }
  }

  /** Where the new tree has an item schema, so had the old one. */
  lemma ItemPlace(o: Placed, n: Placed, steps: seq<Step>, v: Json)
    requires Comparable(o, n) && Plain(o.schema) && Walk(o, steps).Some? && Walk(n, steps).Some?
    requires v.Arr? && TypeOk(Walk(o, steps).value.schema, v) && Walk(n, steps).value.schema.items.Some?
    ensures Walk(o, steps).value.schema.items.Some?
    ensures Walk(o, steps + [Item]) == Some(Placed(Walk(o, steps).value.schema.items.value, false))
    ensures Walk(n, steps + [Item]).Some? ==>
      Walk(n, steps + [Item]).value.schema == Walk(n, steps).value.schema.items.value
  {
    assert ComparableAt(o, n, steps);
    WalkPlainNode(o, steps);
    WalkSnoc(o, steps, Item);
    WalkSnoc(n, steps, Item);
  }

  lemma {:induction false} ArrayTransfers(m: Semantics, olds: map<NodeKey, Node>, news: map<NodeKey, Node>, mo: Meta, mn: Meta,
                                          root: string, o: Placed, n: Placed, steps: seq<Step>, v: Json)
    requires Paired(olds, news, mo, mn, root, o, n) && Walk(o, steps).Some? && Walk(n, steps).Some?
    requires v.Arr? && TypeOk(Walk(o, steps).value.schema, v) && ArrayOk(m, Walk(o, steps).value.schema, v)
    ensures ArrayOk(m, Walk(n, steps).value.schema, v)
    decreases v, 1
  {
    var b := Walk(n, steps).value.schema;
    if b.items.Some? {
      ItemPlace(o, n, steps, v);
      forall i | 0 <= i < |v.elems| ensures Valid(m, b.items.value, v.elems[i], true) {
        Transfers(m, olds, news, mo, mn, root, o, n, steps + [Item], v.elems[i]);
      }
    }
  }

  /** Only the root itself has the path "spec". */
  lemma SpecPath(root: string, steps: seq<Step>)
    requires root in ROOTS && CleanSteps(steps)
    ensures Render(root, steps) == "spec" ==> root == "spec" && steps == []
  {
    if Render(root, steps) == "spec" {
      RootIsRoot(root);
      RootsAreRoots();
      RenderInjective(root, steps, "spec", []);
    }
  }

  /** A place below an object where a field is validated. */
  function FieldStep(s: Schema, k: string): Step
  {
    if k in s.properties then Property(k) else Star
  }

  lemma FieldPlace(m: Semantics, at: Placed, steps: seq<Step>, k: string, v: Json)
    requires Walk(at, steps).Some? && PlainNode(Walk(at, steps).value.schema)
    requires k in Walk(at, steps).value.schema.properties || Walk(at, steps).value.schema.additional.Some?
    ensures var s, below := Walk(at, steps).value.schema, Walk(at, steps + [FieldStep(Walk(at, steps).value.schema, k)]);
      below.Some? && (FieldOk(m, s, k, v) <==> Valid(m, below.value.schema, v, true))
  {
    WalkSnoc(at, steps, FieldStep(Walk(at, steps).value.schema, k));
  }

  /** A field that the old object declares has the same place in the new one. */
  lemma SameFieldPlace(o: Placed, n: Placed, steps: seq<Step>, k: string)
    requires Walk(o, steps).Some? && Walk(n, steps).Some? && PlainNode(Walk(n, steps).value.schema)
    requires Walk(n, steps + [FieldStep(Walk(o, steps).value.schema, k)]).Some?
    ensures var a, b := Walk(o, steps).value.schema, Walk(n, steps).value.schema;
      FieldStep(a, k) == FieldStep(b, k) && (k in b.properties || b.additional.Some?)
  {
    WalkSnoc(n, steps, FieldStep(Walk(o, steps).value.schema, k));
  }

  lemma UndeclaredTransfers(m: Semantics, olds: map<NodeKey, Node>, news: map<NodeKey, Node>, mo: Meta, mn: Meta,
                            root: string, o: Placed, n: Placed, steps: seq<Step>, v: Json, k: string)
    requires Paired(olds, news, mo, mn, root, o, n) && Walk(o, steps).Some? && Walk(n, steps).Some?
    requires var a := Walk(o, steps).value.schema; k !in a.properties && a.additional.None? && FieldOk(m, a, k, v)
    ensures FieldOk(m, Walk(n, steps).value.schema, k, v)
  {
    PlaceKept(olds, news, mo, mn, root, o, n, steps);
    assert ComparableAt(o, n, steps);
    var path := Render(root, steps);
    RelaxedShape(NodeAt(mo, path, Walk(o, steps).value), NodeAt(mn, path, Walk(n, steps).value),
                 Walk(o, steps).value, Walk(n, steps).value);
  }

  lemma {:induction false} FieldTransfers(m: Semantics, olds: map<NodeKey, Node>, news: map<NodeKey, Node>, mo: Meta, mn: Meta,
                                          root: string, o: Placed, n: Placed, steps: seq<Step>, v: Json, k: string)
    requires Paired(olds, news, mo, mn, root, o, n)
    requires Walk(o, steps).Some? && Walk(n, steps).Some?
    requires v.Obj? && k in v.fields && FieldOk(m, Walk(o, steps).value.schema, k, v.fields[k])
    ensures FieldOk(m, Walk(n, steps).value.schema, k, v.fields[k])
    decreases v, 0
  {
    var a := Walk(o, steps).value.schema;
    if k in a.properties || a.additional.Some? {
      WalkPlainNode(o, steps);
      WalkPlainNode(n, steps);
      FieldPlace(m, o, steps, k, v.fields[k]);
      Transfers(m, olds, news, mo, mn, root, o, n, steps + [FieldStep(a, k)], v.fields[k]);
      SameFieldPlace(o, n, steps, k);
      FieldPlace(m, n, steps, k, v.fields[k]);
    } else {
      UndeclaredTransfers(m, olds, news, mo, mn, root, o, n, steps, v.fields[k], k);
    }
  }

  // ----- resources

  /** The part of a resource that the checker covers: its spec and its status. */
  ghost predicate AcceptsRoot(m: Semantics, root: Schema, name: string, fields: map<string, Json>)
  {
    && (name in fields ==> name in root.properties && Valid(m, root.properties[name], fields[name], true))
    && (name in root.required ==> name in fields)
  }

  ghost predicate Accepts(m: Semantics, root: Schema, resource: map<string, Json>)
  {
    forall name :: name in ROOTS ==> AcceptsRoot(m, root, name, resource)
  }

  /** What has to be known about the two schemas of a version beyond the comparison. */
  ghost predicate InScope(co: Crd, vo: Version, cn: Crd, vn: Version)
  {
    && PlainVersion(co, vo) && PlainVersion(cn, vn)
    && (vo.root.Some? && vn.root.Some? ==>
          forall name :: name in ROOTS && name in vo.root.value.properties && name in vn.root.value.properties ==>
            && Comparable(RootPlace(vo.root.value, name), RootPlace(vn.root.value, name))
            && ((MetaOf(cn, vn), name) == RESTORE_SPEC ==>
                  FreshRulesGuarded(vo.root.value.properties[name], vn.root.value.properties[name])))
  }

  /** Both releases serve the version, under the same name. */
  ghost predicate Counterparts(olds: seq<Crd>, news: seq<Crd>, co: Crd, vo: Version, cn: Crd, vn: Version)
  {
    && Serves(olds, {}, co, vo) && vo.root.Some? && Serves(news, {}, cn, vn) && vn.root.Some?
    && co.name == cn.name && vo.name == vn.name
  }

  /** The loaded nodes of two releases, with nothing in their comparison that blocks. */
  ghost predicate Passed(oldNodes: seq<Node>, olds: seq<Crd>, newNodes: seq<Node>, news: seq<Crd>)
  {
    Loads(oldNodes, olds) && Loads(newNodes, news) && Unblocked(NodeMap(oldNodes), NodeMap(newNodes))
  }

  lemma RootTransfers(m: Semantics, oldNodes: seq<Node>, olds: seq<Crd>, newNodes: seq<Node>, news: seq<Crd>,
                      co: Crd, vo: Version, cn: Crd, vn: Version, name: string, resource: map<string, Json>)
    requires Passed(oldNodes, olds, newNodes, news)
    requires Counterparts(olds, news, co, vo, cn, vn) && InScope(co, vo, cn, vn) && name in ROOTS
    requires AcceptsRoot(m, vo.root.value, name, resource)
    ensures AcceptsRoot(m, vn.root.value, name, resource)
  {
    var om, nm := NodeMap(oldNodes), NodeMap(newNodes);
    var mo, mn := MetaOf(co, vo), MetaOf(cn, vn);
    var ro, rn := vo.root.value, vn.root.value;
    if name in ro.properties {
      RootPaired(oldNodes, olds, newNodes, news, co, vo, cn, vn, name);
      var o, n := RootPlace(ro, name), RootPlace(rn, name);
      PlaceKept(om, nm, mo, mn, name, o, n, []);
      RelaxedHeader(NodeAt(mo, name, o), NodeAt(mn, name, n));
      if name in resource {
        Transfers(m, om, nm, mo, mn, name, o, n, [], resource[name]);
      }
    } else {
      RootAdded(oldNodes, olds, newNodes, news, co, vo, cn, vn, name);
    }
  }

  lemma RootPaired(oldNodes: seq<Node>, olds: seq<Crd>, newNodes: seq<Node>, news: seq<Crd>,
                   co: Crd, vo: Version, cn: Crd, vn: Version, name: string)
    requires Passed(oldNodes, olds, newNodes, news)
    requires Counterparts(olds, news, co, vo, cn, vn) && InScope(co, vo, cn, vn)
    requires name in ROOTS && name in vo.root.value.properties
    ensures name in vn.root.value.properties
    ensures Paired(NodeMap(oldNodes), NodeMap(newNodes), MetaOf(co, vo), MetaOf(cn, vn),
                   name, RootPlace(vo.root.value, name), RootPlace(vn.root.value, name))
  {
    RootHeld(oldNodes, olds, co, vo, name);
    RootKept(oldNodes, olds, newNodes, news, co, vo, cn, vn, name);
    ReleaseMirrors(oldNodes, olds, co, vo, name);
    ReleaseMirrors(newNodes, news, cn, vn, name);
  }

  lemma RootHeld(nodes: seq<Node>, crds: seq<Crd>, crd: Crd, v: Version, name: string)
    requires Loads(nodes, crds) && PlainVersion(crd, v) && Serves(crds, {}, crd, v) && v.root.Some?
    requires name in ROOTS && name in v.root.value.properties
    ensures Holds(NodeMap(nodes), MetaOf(crd, v), name, RootPlace(v.root.value, name))
  {
    ReleaseMirrors(nodes, crds, crd, v, name);
    var at := RootPlace(v.root.value, name);
    assert MirrorsAt(NodeMap(nodes), MetaOf(crd, v), name, at, []);
    assert Walk(at, []) == Some(at) && Render(name, []) == name;
  }

  /** A root of the old version is still a root of the new one. */
  lemma RootKept(oldNodes: seq<Node>, olds: seq<Crd>, newNodes: seq<Node>, news: seq<Crd>,
                 co: Crd, vo: Version, cn: Crd, vn: Version, name: string)
    requires Passed(oldNodes, olds, newNodes, news)
    requires Counterparts(olds, news, co, vo, cn, vn) && PlainVersion(cn, vn) && name in ROOTS
    requires Key(MetaOf(co, vo), name) in NodeMap(oldNodes)
    ensures name in vn.root.value.properties
  {
    var om, nm := NodeMap(oldNodes), NodeMap(newNodes);
    var k := Key(MetaOf(co, vo), name);
    if k !in nm {
      assert ChangeAt(k, NewChange(Breaking, FieldRemoved, om[k]), om, nm);
    }
    NodeMapElim(newNodes, k);
    LoadedMember(newNodes, news, nm[k]);
    assert Render(name, []) == name;
    var _ := Provenance(news, cn, vn, name, [], nm[k]);
  }

  lemma RootIsRoot(name: string)
    requires name in ROOTS
    ensures IsRoot(name)
  {
    RootsAreRoots();
  }

  lemma RootAbsent(nodes: seq<Node>, crds: seq<Crd>, crd: Crd, v: Version, name: string)
    requires Loads(nodes, crds) && PlainVersion(crd, v) && Serves(crds, {}, crd, v) && v.root.Some?
    requires name in ROOTS && name !in v.root.value.properties
    ensures Key(MetaOf(crd, v), name) !in NodeMap(nodes)
  {
    var k := Key(MetaOf(crd, v), name);
    if k in NodeMap(nodes) {
      NodeMapElim(nodes, k);
      LoadedMember(nodes, crds, NodeMap(nodes)[k]);
      assert Render(name, []) == name;
      var _ := Provenance(crds, crd, v, name, [], NodeMap(nodes)[k]);
    }
  }

  lemma RequiredRootBlocks(olds: map<NodeKey, Node>, news: map<NodeKey, Node>, k: NodeKey)
    requires k in news && k !in olds && IsRoot(news[k].path) && news[k].required
    ensures !Unblocked(olds, news)
  {
    assert ParentPath(news[k].path) == "";
    assert ChangeAt(k, NewChange(Breaking, FieldAddedRequired, news[k]), olds, news);
  }

  /** A root that is new cannot be required. */
  lemma RootAdded(oldNodes: seq<Node>, olds: seq<Crd>, newNodes: seq<Node>, news: seq<Crd>,
                  co: Crd, vo: Version, cn: Crd, vn: Version, name: string)
    requires Passed(oldNodes, olds, newNodes, news)
    requires Counterparts(olds, news, co, vo, cn, vn) && PlainVersion(co, vo) && PlainVersion(cn, vn)
    requires name in ROOTS && name !in vo.root.value.properties
    ensures name !in vn.root.value.required
  {
    assert PlainRoot(vn.root.value, name);
    if name in vn.root.value.required {
      RootHeld(newNodes, news, cn, vn, name);
      RootAbsent(oldNodes, olds, co, vo, name);
      RootIsRoot(name);
      RequiredRootBlocks(NodeMap(oldNodes), NodeMap(newNodes), Key(MetaOf(cn, vn), name));
    }
  }

  /** A served version with a spec or a status is still served. */
  lemma StillServed(oldNodes: seq<Node>, olds: seq<Crd>, newNodes: seq<Node>, news: seq<Crd>, co: Crd, vo: Version)
    returns (cn: Crd, vn: Version)
    requires Passed(oldNodes, olds, newNodes, news)
    requires Serves(olds, {}, co, vo) && vo.root.Some? && PlainVersion(co, vo)
    requires "spec" in vo.root.value.properties || "status" in vo.root.value.properties
    ensures Counterparts(olds, news, co, vo, cn, vn)
  {
    var om, nm := NodeMap(oldNodes), NodeMap(newNodes);
    var name := if "spec" in vo.root.value.properties then "spec" else "status";
    assert name in ROOTS by { assert ROOTS[0] == "spec" && ROOTS[1] == "status"; }
    RootHeld(oldNodes, olds, co, vo, name);
    var k := Key(MetaOf(co, vo), name);
    if k !in nm {
      assert ChangeAt(k, NewChange(Breaking, FieldRemoved, om[k]), om, nm);
    }
    NodeMapElim(newNodes, k);
    LoadedMember(newNodes, news, nm[k]);
    cn, vn := ReleaseElim(news, {}, nm[k]);
    CollectedMeta(cn, vn, nm[k]);
    ServesMember(news, {}, cn, vn);
  }

  /**
   * Compatibility soundness.  When nothing in the comparison of two releases blocks, every
   * served version with a spec or a status is still served, and every resource it accepted is
   * accepted by the new schema, unless something became stricter that the comparison does not
   * look at.
   */
  lemma CompatibilitySoundness(m: Semantics, oldNodes: seq<Node>, olds: seq<Crd>, newNodes: seq<Node>, news: seq<Crd>,
                               co: Crd, vo: Version, resource: map<string, Json>)
    returns (cn: Crd, vn: Version)
    requires Passed(oldNodes, olds, newNodes, news)
    requires Serves(olds, {}, co, vo) && vo.root.Some? && PlainVersion(co, vo)
    requires "spec" in vo.root.value.properties || "status" in vo.root.value.properties
    requires Accepts(m, vo.root.value, resource)
    ensures Counterparts(olds, news, co, vo, cn, vn)
    ensures InScope(co, vo, cn, vn) ==> Accepts(m, vn.root.value, resource)
  {
    cn, vn := StillServed(oldNodes, olds, newNodes, news, co, vo);
    PassedCarries(m, oldNodes, olds, newNodes, news, co, vo, cn, vn, resource);
  }

  /** A resource that the old version accepts is accepted by its counterpart. */
  ghost predicate Carried(m: Semantics, olds: seq<Crd>, news: seq<Crd>, co: Crd, vo: Version, cn: Crd, vn: Version,
                          resource: map<string, Json>)
  {
    Counterparts(olds, news, co, vo, cn, vn) && InScope(co, vo, cn, vn) && Accepts(m, vo.root.value, resource) ==>
      Accepts(m, vn.root.value, resource)
  }

  lemma PassedCarries(m: Semantics, oldNodes: seq<Node>, olds: seq<Crd>, newNodes: seq<Node>, news: seq<Crd>,
                      co: Crd, vo: Version, cn: Crd, vn: Version, resource: map<string, Json>)
    requires Passed(oldNodes, olds, newNodes, news)
    ensures Carried(m, olds, news, co, vo, cn, vn, resource)
  {
    if Counterparts(olds, news, co, vo, cn, vn) && InScope(co, vo, cn, vn) && Accepts(m, vo.root.value, resource) {
      forall root | root in ROOTS ensures AcceptsRoot(m, vn.root.value, root, resource) {
        RootTransfers(m, oldNodes, olds, newNodes, news, co, vo, cn, vn, root, resource);
      }
    }
  }

  /** The tool in enforce mode: what it accepts carries every resource over. */
  method CheckReleases(olds: seq<Crd>, news: seq<Crd>) returns (accepted: bool)
    ensures accepted ==> forall m, co, vo, cn, vn, resource :: Carried(m, olds, news, co, vo, cn, vn, resource)
  {
    var oldNodes := LoadSchemaNodes(olds);
    var newNodes := LoadSchemaNodes(news);
    if oldNodes.None? || newNodes.None? {
      return false;
    }
    accepted := Enforce(oldNodes.value, newNodes.value);
    if accepted {
      forall m, co, vo, cn, vn, resource ensures Carried(m, olds, news, co, vo, cn, vn, resource) {
        PassedCarries(m, oldNodes.value, olds, newNodes.value, news, co, vo, cn, vn, resource);
      }
    }
  }
}
