// Deleting orphans: no choice and no order of deletions can strand a kept image.

module OciCollection {
  import opened Options
  import opened Strings
  import opened OciGraph
  import opened OciTermination
  import opened OciRun
  import opened OciSearch
  import opened OciResolve

  datatype Disposition = NotManaged | Reachable | Grace | Candidate

  /** graphCandidate */
  function DispositionOf(v: Version, reachable: set<string>, orphanTtlDays: int): Disposition
  {
    if IsRoot(v) then NotManaged
    else if v.name in reachable then Reachable
    else if v.ageDays < orphanTtlDays then Grace
    else Candidate
  }

  /** Every version with one of these IDs is a candidate. */
  ghost predicate Deletable(versions: seq<Version>, reachable: set<string>, ttl: int, ids: set<int>)
  {
    forall v :: v in versions && v.id in ids ==> DispositionOf(v, reachable, ttl) == Candidate
  }

  function Remaining(versions: seq<Version>, ids: set<int>): seq<Version>
  {
    if versions == [] then [] else
      var last := versions[|versions| - 1];
      Remaining(versions[..|versions| - 1], ids) + (if last.id in ids then [] else [last])
  }

  lemma {:induction false} RemainingMembers(versions: seq<Version>, ids: set<int>)
    ensures forall v :: v in Remaining(versions, ids) <==> v in versions && v.id !in ids
    decreases |versions|
  {
    if versions != [] {
      RemainingMembers(versions[..|versions| - 1], ids);
      assert versions == versions[..|versions| - 1] + [versions[|versions| - 1]];
    }
  }

  lemma RemainingSnoc(versions: seq<Version>, v: Version, ids: set<int>)
    ensures Remaining(versions + [v], ids)
         == if v.id in ids then Remaining(versions, ids) else Remaining(versions, ids) + [v]
  {
    assert (versions + [v])[..|versions|] == versions;
  }

  lemma RootsSnoc(versions: seq<Version>, v: Version)
    ensures RootsOf(versions + [v]) == if IsRoot(v) then RootsOf(versions) + [v] else RootsOf(versions)
  {
    IndexSnoc(versions, v);
  }

  lemma {:induction false} SameRoots(versions: seq<Version>, ids: set<int>)
    requires forall v :: v in versions && v.id in ids ==> !IsRoot(v)
    ensures RootsOf(Remaining(versions, ids)) == RootsOf(versions)
    decreases |versions|
  {
    if versions != [] {
      var init, last := versions[..|versions| - 1], versions[|versions| - 1];
      assert versions == init + [last] && last in versions;
      SameRoots(init, ids);
      RemainingSnoc(init, last, ids);
      RootsSnoc(init, last);
      if last.id !in ids {
        RootsSnoc(Remaining(init, ids), last);
      }
    }
  }

  lemma ReferrerSnoc(versions: seq<Version>, v: Version, s: string)
    ensures s in Referrers(versions + [v]) <==> s in Referrers(versions) || s in Subjects(v.tags)
    ensures s in Subjects(v.tags) ==> Referrers(versions + [v])[s] == v
    ensures s !in Subjects(v.tags) && s in Referrers(versions) ==>
      Referrers(versions + [v])[s] == Referrers(versions)[s]
  {
    IndexSnoc(versions, v);
  }

  /** A subject none of whose referrers is deleted keeps its referrer. */
  lemma {:induction false} SameReferrer(versions: seq<Version>, ids: set<int>, s: string)
    requires forall v :: v in versions && s in Subjects(v.tags) ==> v.id !in ids
    ensures s in Referrers(Remaining(versions, ids)) <==> s in Referrers(versions)
    ensures s in Referrers(versions) ==> Referrers(Remaining(versions, ids))[s] == Referrers(versions)[s]
    decreases |versions|
  {
    if versions != [] {
      var init, last := versions[..|versions| - 1], versions[|versions| - 1];
      assert versions == init + [last] && last in versions;
      SameReferrer(init, ids, s);
      RemainingSnoc(init, last, ids);
      ReferrerSnoc(init, last, s);
      if last.id !in ids {
        ReferrerSnoc(Remaining(init, ids), last, s);
      }
    }
  }

  /**
   * A candidate is told by the name as it is, but trimmed names are kept: with surrounding
   * white space, the referrer of a kept subject would not be recognised.
   */
  ghost predicate NamedAsKept(referrers: map<string, Version>, kept: set<string>)
  {
    forall s :: s in referrers && s in kept ==> Trim(referrers[s].name) in {"", referrers[s].name}
  }

  /** The referrer of a kept subject is a candidate exactly when its name is not trimmed. */
  lemma ReferrerIsCandidateIff(versions: seq<Version>, reachable: set<string>, ttl: int, s: string)
    requires AllTrimmed(reachable) && KeepsReferrers(Referrers(versions), reachable)
    requires s in Referrers(versions) && s in reachable && Trim(Referrers(versions)[s].name) != ""
    ensures var v := Referrers(versions)[s];
      DispositionOf(v, reachable, ttl) == Candidate <==> !IsRoot(v) && v.ageDays >= ttl && Trim(v.name) != v.name
  {}

  /** Deleting candidates leaves the referrer of every kept subject in place. */
  lemma KeptReferrer(versions: seq<Version>, reachable: set<string>, ttl: int, ids: set<int>, s: string)
    requires !Conflicting(versions) && KeepsReferrers(Referrers(versions), reachable)
    requires NamedAsKept(Referrers(versions), reachable)
    requires Deletable(versions, reachable, ttl, ids) && s in reachable && s in Referrers(versions)
    requires Trim(Referrers(versions)[s].name) != "" || s in Referrers(Remaining(versions, ids))
    ensures s in Referrers(Remaining(versions, ids))
    ensures Referrers(Remaining(versions, ids))[s] == Referrers(versions)[s]
  {
    ReferrerMembers(versions);
    var v := Referrers(versions)[s];
    if s in Referrers(Remaining(versions, ids)) {
      LeftReferrer(versions, ids, s);
    } else {
      assert v.id !in ids;
      SoleReferrer(versions, ids, s);
    }
  }

  /** All versions that claim a subject go or stay together. */
  lemma SoleReferrer(versions: seq<Version>, ids: set<int>, s: string)
    requires !Conflicting(versions) && s in Referrers(versions) && Referrers(versions)[s].id !in ids
    ensures s in Referrers(Remaining(versions, ids))
    ensures Referrers(Remaining(versions, ids))[s] == Referrers(versions)[s]
  {
    forall w | w in versions && s in Subjects(w.tags) ensures w.id !in ids {
      RecordedHasId(versions, w, s);
    }
    SameReferrer(versions, ids, s);
  }

  /** A referrer that is left is the one that was there before. */
  lemma LeftReferrer(versions: seq<Version>, ids: set<int>, s: string)
    requires !Conflicting(versions) && s in Referrers(Remaining(versions, ids))
    ensures s in Referrers(versions) && Referrers(Remaining(versions, ids))[s] == Referrers(versions)[s]
  {
    RemainingMembers(versions, ids);
    ReferrerMembers(Remaining(versions, ids));
    RecordedHasId(versions, Referrers(Remaining(versions, ids))[s], s);
    SoleReferrer(versions, ids, s);
  }

  lemma {:induction false} FewerChains(a: map<string, Version>, b: map<string, Version>, digest: string, k: nat)
    requires forall s :: s in b ==> s in a && a[s] == b[s]
    requires UntrimmedChain(b, digest, k)
    ensures UntrimmedChain(a, digest, k)
    decreases k
  {
    if k > 0 {
      FewerChains(a, b, Trim(b[digest].name), k - 1);
    }
  }

  /** Deleting versions does not make the marking run forever. */
  lemma StillResolvable(versions: seq<Version>, ids: set<int>)
    requires !Conflicting(versions) && ChainsEnd(Referrers(versions))
    ensures ChainsEnd(Referrers(Remaining(versions, ids)))
  {
    var a, b := Referrers(versions), Referrers(Remaining(versions, ids));
    forall s | s in b ensures s in a && a[s] == b[s] {
      LeftReferrer(versions, ids, s);
    }
    forall digest ensures ChainEnds(b, digest) {
      assert ChainEnds(a, digest);
      var k :| !UntrimmedChain(a, digest, k);
      if UntrimmedChain(b, digest, k) {
        FewerChains(a, b, digest, k);
      }
    }
  }

  lemma StillUnambiguous(versions: seq<Version>, ids: set<int>)
    requires !Conflicting(versions)
    ensures !Conflicting(Remaining(versions, ids))
  {
    RemainingMembers(versions, ids);
  }

  lemma StillClosed(versions: seq<Version>, before: Registry, after: Registry, reachable: set<string>, ttl: int, ids: set<int>)
    requires !Conflicting(versions) && Closed(Graph(versions, before), reachable)
    requires Deletable(versions, reachable, ttl, ids) && SameManifests(before, after, reachable)
    ensures Closed(Graph(Remaining(versions, ids), after), reachable)
  {
    RemainingMembers(versions, ids);
    var left := Referrers(Remaining(versions, ids));
    forall s | s in left && s in reachable && Trim(left[s].name) != "" ensures Trim(left[s].name) in reachable {
      LeftReferrer(versions, ids, s);
    }
    forall d | d in reachable ensures KeepsChildrenOf(after, d, reachable) {
      assert KeepsChildrenOf(before, d, reachable);
    }
  }

  lemma ClosedBefore(versions: seq<Version>, before: Registry, after: Registry, reachable: set<string>, ttl: int,
                     ids: set<int>, other: set<string>)
    requires !Conflicting(versions) && Closed(Graph(versions, before), reachable)
    requires NamedAsKept(Referrers(versions), reachable)
    requires Deletable(versions, reachable, ttl, ids) && SameManifests(before, after, reachable)
    requires Closed(Graph(Remaining(versions, ids), after), other)
    ensures Closed(Graph(versions, before), other * reachable)
  {
    RemainingMembers(versions, ids);
    var refs, both := Referrers(versions), other * reachable;
    forall v | v in versions && IsRoot(v) && Trim(v.name) != "" ensures Trim(v.name) in both {
      assert v in Remaining(versions, ids);
    }
    forall s | s in refs && s in both && Trim(refs[s].name) != "" ensures Trim(refs[s].name) in both {
      KeptReferrer(versions, reachable, ttl, ids, s);
    }
    forall d | d in both ensures KeepsChildrenOf(before, d, both) {
      assert KeepsChildrenOf(before, d, reachable) && KeepsChildrenOf(after, d, other);
    }
  }

  /**
   * Collection is safe: after deleting any subset of the candidates, the roots are the same
   * versions and the least closed set, hence what resolution keeps, is the same set.
   */
  lemma CollectionIsSafe(versions: seq<Version>, before: Registry, after: Registry, reachable: set<string>, ttl: int, ids: set<int>)
    requires !Conflicting(versions) && IsLeastClosed(Graph(versions, before), reachable)
    requires NamedAsKept(Referrers(versions), reachable)
    requires Deletable(versions, reachable, ttl, ids) && SameManifests(before, after, reachable)
    ensures RootsOf(Remaining(versions, ids)) == RootsOf(versions)
    ensures !Conflicting(Remaining(versions, ids))
    ensures IsLeastClosed(Graph(Remaining(versions, ids), after), reachable)
  {
    SameRoots(versions, ids);
    StillUnambiguous(versions, ids);
    StillClosed(versions, before, after, reachable, ttl, ids);
    forall other | Closed(Graph(Remaining(versions, ids), after), other) ensures reachable <= other {
      ClosedBefore(versions, before, after, reachable, ttl, ids, other);
      assert reachable <= other * reachable;
    }
  }

  /** A kept subject has the same referrer before and after. */
  lemma RefNameKept(versions: seq<Version>, reachable: set<string>, ttl: int, ids: set<int>, s: string)
    requires !Conflicting(versions) && KeepsReferrers(Referrers(versions), reachable)
    requires NamedAsKept(Referrers(versions), reachable)
    requires Deletable(versions, reachable, ttl, ids) && s in reachable
    ensures RefName(Referrers(Remaining(versions, ids)), s) == RefName(Referrers(versions), s)
  {
    if s in Referrers(Remaining(versions, ids)) {
      LeftReferrer(versions, ids, s);
    } else if s in Referrers(versions) && Trim(Referrers(versions)[s].name) != "" {
      KeptReferrer(versions, reachable, ttl, ids, s);
    }
  }

  /** Versions with these IDs may be deleted, and the registry still serves every kept manifest. */
  ghost predicate MayDelete(versions: seq<Version>, before: Registry, after: Registry, kept: set<string>, ttl: int, ids: set<int>)
  {
    && NamedAsKept(Referrers(versions), kept)
    && Deletable(versions, kept, ttl, ids) && SameManifests(before, after, kept)
  }

  /**
   * Resolving again after deleting any subset of the candidates is the same search: it succeeds,
   * with the same roots and the same reachable set, whatever the media types.
   */
  lemma RerunIsSame(versions: seq<Version>, before: Registry, after: Registry, ttl: int, ids: set<int>)
    requires Resolvable(versions) && ResolutionOf(versions, before).Ok?
    requires MayDelete(versions, before, after, ResolutionOf(versions, before).reachable, ttl, ids)
    ensures Resolvable(Remaining(versions, ids))
    ensures ResolutionOf(Remaining(versions, ids), after) == ResolutionOf(versions, before)
  {
    var kept := ResolutionOf(versions, before).reachable;
    ResolutionIsSound(versions, before);
    SameRoots(versions, ids);
    StillUnambiguous(versions, ids);
    StillResolvable(versions, ids);
    forall s | s in kept ensures RefName(Referrers(Remaining(versions, ids)), s) == RefName(Referrers(versions), s) {
      RefNameKept(versions, kept, ttl, ids, s);
    }
    SearchedLocal(RootsOf(versions), Referrers(versions), Referrers(Remaining(versions, ids)), before, after);
  }

  /** Resolve, delete some candidates, resolve again. */
  method ResolveTwice(versions: seq<Version>, before: Registry, after: Registry, ttl: int, ids: set<int>)
    returns (first: Outcome, second: Outcome)
    requires Resolvable(versions) && Resolvable(Remaining(versions, ids))
    ensures first.Ok? && MayDelete(versions, before, after, first.reachable, ttl, ids) ==> second == first
  {
    var calls;
    first, calls := ResolveOciGraph(versions, before);
    second, calls := ResolveOciGraph(Remaining(versions, ids), after);
    if first.Ok? && MayDelete(versions, before, after, first.reachable, ttl, ids) {
      RerunIsSame(versions, before, after, ttl, ids);
    }
  }

  /**
   * Deleting step by step is no different: what was deletable at the start is still deletable
   * by the resolution that follows any earlier deletions.
   */
  lemma DeletableLater(versions: seq<Version>, reachable: set<string>, ttl: int, first: set<int>, second: set<int>)
    requires Deletable(versions, reachable, ttl, first + second)
    ensures Deletable(Remaining(versions, first), reachable, ttl, second)
    ensures forall v :: v in Remaining(Remaining(versions, first), second) <==> v in Remaining(versions, first + second)
  {
    RemainingMembers(versions, first);
    RemainingMembers(Remaining(versions, first), second);
    RemainingMembers(versions, first + second);
  }

  // ----- what an untrimmed name costs

  /** The digest `a` of a tagged version, and the version `b` that carries its referrer tag. */
  function Attached(tag: string, other: string, name: string, age: nat): seq<Version>
    requires IsReferrerTag(tag)
  {
    [Version(1, SubjectOf(tag), 0, [other]), Version(2, name, age, [tag])]
  }

  lemma {:induction false} AttachedIndex(tag: string, other: string, name: string, age: nat)
    requires IsReferrerTag(tag) && !IsReferrerTag(other)
    ensures var versions := Attached(tag, other, name, age);
      && Referrers(versions) == map[SubjectOf(tag) := versions[1]] && Referrers(versions[..1]) == map[]
      && !Conflicting(versions) && !Conflicting(versions[..1])
      && IsRoot(versions[0]) && !IsRoot(versions[1]) && Remaining(versions, {2}) == versions[..1]
  {
    var versions := Attached(tag, other, name, age);
    var v, w := versions[0], versions[1];
    assert !IsReferrerTag(v.tags[0]) && IsReferrerTag(w.tags[0]);
    assert Subjects(v.tags) == {} && Subjects(w.tags) == {SubjectOf(tag)};
    assert [] + [v] == [v] == versions[..1] && [v] + [w] == versions;
    IndexSnoc([], v);
    IndexSnoc([v], w);
    RemainingSnoc([], v, {2});
    RemainingSnoc([v], w, {2});
  }

  /** Where everything that has to be fetched is there, resolution succeeds, with no more than it needs. */
  lemma ResolvesWithin(versions: seq<Version>, registry: Registry, kept: set<string>)
    requires Resolvable(versions) && !Conflicting(versions)
    requires ClosedFetching(Graph(versions, registry), kept, kept) && kept <= registry.Keys
    ensures ResolutionOf(versions, registry).Ok? && Resolves(Graph(versions, registry), ResolutionOf(versions, registry).reachable)
    ensures ResolutionOf(versions, registry).reachable <= kept
  {
    ResolutionIsSound(versions, registry);
  }

  /** Both digests are kept, and the name with a leading space is not among them. */
  lemma AttachedKept(tag: string, other: string, b: string, ttl: nat, registry: Registry)
    requires IsReferrerTag(tag) && !IsReferrerTag(other) && Trim(" " + b) == b != "" && b != SubjectOf(tag)
    requires registry == map[SubjectOf(tag) := [], b := []]
    ensures var versions := Attached(tag, other, " " + b, ttl);
      && Resolvable(versions) && ResolutionOf(versions, registry).Ok?
      && SubjectOf(tag) in ResolutionOf(versions, registry).reachable && b in ResolutionOf(versions, registry).reachable
      && AllTrimmed(ResolutionOf(versions, registry).reachable)
  {
    var a, versions := SubjectOf(tag), Attached(tag, other, " " + b, ttl);
    AttachedIndex(tag, other, " " + b, ttl);
    SubjectIsTrimmed(tag);
    AttachedEnds(tag, b, versions[1]);
    assert ClosedFetching(Graph(versions, registry), {a, b}, {a, b});
    ResolvesWithin(versions, registry, {a, b});
    assert Trim(versions[0].name) == a && versions[0] in versions;
  }

  lemma AloneIsClosed(v: Version, a: string, registry: Registry)
    requires IsRoot(v) && Trim(v.name) == a && Referrers([v]) == map[] && a in registry && registry[a] == []
    ensures ClosedFetching(Graph([v], registry), {a}, {a})
  {
    forall d | d in {a} ensures KeepsChildrenOf(registry, d, {a}) && FetchesIndexesOf(registry, d, {a}) {}
  }

  /** Without its referrer the subject is kept alone. */
  lemma DetachedKept(tag: string, other: string, b: string, ttl: nat, registry: Registry)
    requires IsReferrerTag(tag) && !IsReferrerTag(other) && b != SubjectOf(tag)
    requires registry == map[SubjectOf(tag) := [], b := []]
    ensures var left := Remaining(Attached(tag, other, " " + b, ttl), {2});
      Resolvable(left) && ResolutionOf(left, registry).Ok? && b !in ResolutionOf(left, registry).reachable
  {
    var a, left := SubjectOf(tag), Attached(tag, other, " " + b, ttl)[..1];
    AttachedIndex(tag, other, " " + b, ttl);
    SubjectIsTrimmed(tag);
    TrimmedNamesEnd(map[]);
    assert left == [Attached(tag, other, " " + b, ttl)[0]];
    AloneIsClosed(left[0], a, registry);
    ResolvesWithin(left, registry, {a});
  }

  /**
   * The referrer of a kept subject is lost when its name has a leading space: it is kept, it is a
   * candidate, and once it is deleted the next resolution does not keep it.
   */
  lemma UntrimmedReferrerIsLost(tag: string, other: string, b: string, ttl: nat)
    requires IsReferrerTag(tag) && !IsReferrerTag(other) && Trim(" " + b) == b != "" && b != SubjectOf(tag)
    ensures var versions := Attached(tag, other, " " + b, ttl);
      var registry: Registry := map[SubjectOf(tag) := [], b := []];
      && Resolvable(versions) && ResolutionOf(versions, registry).Ok? && b in ResolutionOf(versions, registry).reachable
      && Deletable(versions, ResolutionOf(versions, registry).reachable, ttl, {2})
      && Resolvable(Remaining(versions, {2})) && ResolutionOf(Remaining(versions, {2}), registry).Ok?
      && b !in ResolutionOf(Remaining(versions, {2}), registry).reachable
  {
    var registry: Registry := map[SubjectOf(tag) := [], b := []];
    AttachedIndex(tag, other, " " + b, ttl);
    AttachedKept(tag, other, b, ttl, registry);
    DetachedKept(tag, other, b, ttl, registry);
  }

  lemma AttachedEnds(tag: string, b: string, w: Version)
    requires IsReferrerTag(tag) && b != SubjectOf(tag) && Trim(w.name) == b
    ensures ChainsEnd(map[SubjectOf(tag) := w])
  {
    forall digest ensures ChainEnds(map[SubjectOf(tag) := w], digest) {
      assert !UntrimmedChain(map[SubjectOf(tag) := w], b, 1);
      assert !UntrimmedChain(map[SubjectOf(tag) := w], digest, 2);
    }
  }

  // ----- what a dishonest media type costs

  /** A tagged index `a`, whose child index `b` holds `c`, announced with media type `m`. */
  function Nested(tag: string, a: string, b: string, c: string, m: string): Graph
  {
    Graph([Version(1, a, 0, [tag])], map[a := [Reference(b, m)], b := [Reference(c, m)]])
  }

  lemma {:induction false} OneRoot(tag: string, a: string)
    requires !IsReferrerTag(tag)
    ensures var versions := [Version(1, a, 0, [tag])];
      Referrers(versions) == map[] && RootsOf(versions) == versions && !Conflicting(versions)
  {
    var v := Version(1, a, 0, [tag]);
    assert !IsReferrerTag(v.tags[0]);
    assert Subjects(v.tags) == {};
    IndexSnoc([], v);
    assert [] + [v] == [v];
  }

  /** Without referrers, a list of one call marks its digest. */
  lemma {:induction false} OneCall(m: Marks, c: Call)
    requires ChainsEnd(map[]) && c.digest != ""
    ensures MarkedAll(map[], m, [c]) == Entered(m, c.digest, c.fetch)
  {
    assert [c][..0] == [];
    assert MarkedAll(map[], m, []) == m;
    assert RefName(map[], c.digest) == "" && Trim("") == "";
    assert Onward(map[], m.reachable, c.digest) == "";
  }

  /** The search of the nested index stops at `b`. */
  lemma {:induction false} NestedSearch(tag: string, a: string, b: string, c: string, m: string)
    requires ChainsEnd(map[]) && m != "" && !IsIndexType(m)
    requires a != b && a != "" && b != "" && Trim(a) == a && Trim(b) == b
    ensures var g := Nested(tag, a, b, c, m);
      Searched(g.versions, map[], g.registry) == Some(Search(Marks({a, b}, [], {a}), {a}))
  {
    var g := Nested(tag, a, b, c, m);
    var start := Search(Marks({a}, [a], {a}), {});
    OneCall(NO_MARKS, Call(a, true));
    assert RootCalls(g.versions) == [Call(a, true)];
    assert MarkedAll(map[], NO_MARKS, RootCalls(g.versions)) == start.marks;
    var rest := start.marks.(queue := []);
    assert ReferenceCalls(g.registry[a]) == [Call(b, false)];
    OneCall(rest, Call(b, false));
    assert start.marks.queue[1..] == [];
    assert {a} + {b} == {a, b};
    var end := Search(Marks({a, b}, [], {a}), {a});
    assert Fetched(map[], g.registry, start) == Some(end);
    assert Drained(map[], g.registry, start) == Drained(map[], g.registry, end) == Some(end);
  }

  /**
   * When an index is announced as anything but an index, every closed set keeps its child,
   * but the resolution succeeds without it: the assumption is needed.
   */
  lemma DishonestMediaTypeLosesChild(tag: string, a: string, b: string, c: string, m: string)
    requires !IsReferrerTag(tag) && m != "" && !IsIndexType(m)
    requires a != b && b != c && a != c && a != "" && b != "" && c != ""
    requires Trim(a) == a && Trim(b) == b && Trim(c) == c
    ensures var g := Nested(tag, a, b, c, m);
      && Resolvable(g.versions) && ResolutionOf(g.versions, g.registry) == Ok({a, b}, 1)
      && (forall kept :: Closed(g, kept) ==> c in kept)
  {
    var g := Nested(tag, a, b, c, m);
    OneRoot(tag, a);
    TrimmedNamesEnd(map[]);
    NestedSearch(tag, a, b, c, m);
    forall kept | Closed(g, kept) ensures c in kept {
      NestedClosed(tag, a, b, c, m, kept);
    }
  }

  lemma NestedClosed(tag: string, a: string, b: string, c: string, m: string, kept: set<string>)
    requires !IsReferrerTag(tag) && a != b && a != "" && b != "" && c != ""
    requires Trim(a) == a && Trim(b) == b && Trim(c) == c && Closed(Nested(tag, a, b, c, m), kept)
    ensures c in kept
  {
    var g := Nested(tag, a, b, c, m);
    var v := g.versions[0];
    assert v in g.versions && !IsReferrerTag(v.tags[0]);
    assert KeepsChildrenOf(g.registry, a, kept) && Trim(g.registry[a][0].digest) == b;
    assert KeepsChildrenOf(g.registry, b, kept) && Trim(g.registry[b][0].digest) == c;
  }
}
