// The whole resolution and what it computes.

module OciResolve {
  import opened OciGraph
  import opened OciTermination
  import opened OciRun
  import opened OciSearch
  import opened OciResolver

  function RootsOf(versions: seq<Version>): seq<Version>
  {
    if versions == [] then [] else
      var last := versions[|versions| - 1];
      RootsOf(versions[..|versions| - 1]) + (if IsRoot(last) then [last] else [])
  }

  lemma {:induction false} RootMembers(versions: seq<Version>)
    ensures forall v :: v in RootsOf(versions) <==> v in versions && IsRoot(v)
    decreases |versions|
  {
    if versions != [] {
      RootMembers(versions[..|versions| - 1]);
      assert versions == versions[..|versions| - 1] + [versions[|versions| - 1]];
    }
  }

  function Recorded(referrers: map<string, Version>, v: Version, subjects: set<string>): map<string, Version>
  {
    referrers + (map s | s in subjects :: v)
  }

  /** Every subject that is taken is taken by this version. */
  predicate AgreesOn(referrers: map<string, Version>, v: Version, subjects: set<string>)
  {
    forall s :: s in subjects && s in referrers ==> referrers[s].id == v.id
  }

  /** One more subject. */
  lemma RecordedNext(referrers: map<string, Version>, v: Version, done: set<string>, subject: string)
    ensures Recorded(referrers, v, done)[subject := v] == Recorded(referrers, v, done + {subject})
    ensures AgreesOn(referrers, v, done + {subject}) <==>
      AgreesOn(referrers, v, done) && AgreesOn(referrers, v, {subject})
    ensures var more := Recorded(referrers, v, done);
      AgreesOn(referrers, v, done) ==> (AgreesOn(more, v, {subject}) <==> AgreesOn(referrers, v, {subject}))
  {}

  /** Records one version under each of its subjects, unless another version is there. */
  method AddReferrer(referrers: map<string, Version>, v: Version, subjects: seq<string>, ghost all: set<string>)
    returns (ok: bool, more: map<string, Version>)
    requires forall s :: s in subjects <==> s in all
    ensures ok <==> AgreesOn(referrers, v, all)
    ensures ok ==> more == Recorded(referrers, v, all)
  {
    more := referrers;
    ghost var done: set<string> := {};
    for i := 0 to |subjects|
      invariant done <= all && forall j :: 0 <= j < i ==> subjects[j] in done
      invariant AgreesOn(referrers, v, done) && more == Recorded(referrers, v, done)
    {
      var subject := subjects[i];
      RecordedNext(referrers, v, done, subject);
      if subject in more && more[subject].id != v.id {
        assert !AgreesOn(more, v, {subject});
        return false, more;
      }
      assert AgreesOn(more, v, {subject});
      more := more[subject := v];
      done := done + {subject};
    }
    assert done == all;
    ok := true;
  }

  lemma DisagreementConflicts(versions: seq<Version>, v: Version, s: string)
    requires s in Subjects(v.tags) && s in Referrers(versions) && Referrers(versions)[s].id != v.id
    ensures Conflicting(versions + [v])
  {
    ReferrerMembers(versions);
    var w, all := Referrers(versions)[s], versions + [v];
    assert w in all && v in all;
  }

  /** Without a conflict, the recorded referrer of a subject has the ID of every version that claims it. */
  lemma RecordedHasId(versions: seq<Version>, w: Version, s: string)
    requires !Conflicting(versions) && w in versions && s in Subjects(w.tags)
    ensures s in Referrers(versions) && Referrers(versions)[s].id == w.id
  {
    ReferrerMembers(versions);
    var r := Referrers(versions)[s];
    assert r in versions && s in Subjects(r.tags);
  }

  lemma ConflictSnoc(versions: seq<Version>, v: Version)
    requires !Conflicting(versions)
    ensures Conflicting(versions + [v]) <==> !AgreesOn(Referrers(versions), v, Subjects(v.tags))
  {
    var all := versions + [v];
    if !AgreesOn(Referrers(versions), v, Subjects(v.tags)) {
      var s :| s in Subjects(v.tags) && s in Referrers(versions) && Referrers(versions)[s].id != v.id;
      DisagreementConflicts(versions, v, s);
    }
    if Conflicting(all) {
      var x, y, s :| x in all && y in all && s in Subjects(x.tags) && s in Subjects(y.tags) && x.id != y.id;
      if x in versions {
        RecordedHasId(versions, x, s);
      }
      if y in versions {
        RecordedHasId(versions, y, s);
      }
    }
  }

  lemma ConflictPrefix(versions: seq<Version>, k: nat)
    requires k <= |versions| && Conflicting(versions[..k])
    ensures Conflicting(versions)
  {
    var x, y, s :| x in versions[..k] && y in versions[..k]
      && s in Subjects(x.tags) && s in Subjects(y.tags) && x.id != y.id;
    assert x in versions && y in versions;
  }

  lemma IndexSnoc(versions: seq<Version>, v: Version)
    ensures Referrers(versions + [v]) == Recorded(Referrers(versions), v, Subjects(v.tags))
    ensures RootsOf(versions + [v]) == RootsOf(versions) + (if IsRoot(v) then [v] else [])
  {
    assert (versions + [v])[..|versions|] == versions;
  }

  /** One pass of the first loop of resolveOCIGraph. */
  method IndexVersion(v: Version, roots: seq<Version>, referrers: map<string, Version>)
    returns (ok: bool, moreRoots: seq<Version>, moreReferrers: map<string, Version>)
    ensures ok <==> AgreesOn(referrers, v, Subjects(v.tags))
    ensures moreRoots == roots + (if IsRoot(v) then [v] else [])
    ensures ok ==> moreReferrers == Recorded(referrers, v, Subjects(v.tags))
  {
    var normalTags, subjects := SplitGraphTags(v.tags);
    moreRoots := if normalTags != [] then roots + [v] else roots;
    ok, moreReferrers := AddReferrer(referrers, v, subjects, Subjects(v.tags));
  }

  /** The first loop of resolveOCIGraph. */
  method IndexVersions(versions: seq<Version>) returns (ok: bool, roots: seq<Version>, referrers: map<string, Version>)
    ensures ok <==> !Conflicting(versions)
    ensures ok ==> roots == RootsOf(versions) && referrers == Referrers(versions)
  {
    roots, referrers := [], map[];
    for k := 0 to |versions|
      invariant !Conflicting(versions[..k])
      invariant roots == RootsOf(versions[..k]) && referrers == Referrers(versions[..k])
    {
      ConflictSnoc(versions[..k], versions[k]);
      IndexSnoc(versions[..k], versions[k]);
      assert versions[..k + 1] == versions[..k] + [versions[k]];
      ok, roots, referrers := IndexVersion(versions[k], roots, referrers);
      if !ok {
        ConflictPrefix(versions, k + 1);
        return;
      }
    }
    assert versions[..|versions|] == versions;
    ok := true;
  }

  /** The recursion of markReachable ends, or is never reached. */
  ghost predicate Resolvable(versions: seq<Version>)
  {
    Conflicting(versions) || ChainsEnd(Referrers(versions))
  }

  /** The outcome as a function of what the registry holds. */
  ghost function ResolutionOf(versions: seq<Version>, registry: Registry): Outcome
    requires Resolvable(versions)
  {
    if Conflicting(versions) then Err
    else
      var s := Searched(RootsOf(versions), Referrers(versions), registry);
      if s.Some? then Ok(s.value.marks.reachable, |RootsOf(versions)|) else Err
  }

  /**
   * Nothing is kept without a reason, and where kept manifests have honest media types the
   * result is the least closed set.
   */
  lemma ResolutionIsSound(versions: seq<Version>, registry: Registry)
    requires Resolvable(versions)
    ensures var g, outcome := Graph(versions, registry), ResolutionOf(versions, registry);
      && (outcome.Ok? ==> !Conflicting(versions) && Resolves(g, outcome.reachable))
      && (outcome.Err? && !Conflicting(versions) ==> exists d :: d !in registry && MustFetch(g, d))
  {
    if !Conflicting(versions) {
      RootMembers(versions);
      SearchIsSound(Graph(versions, registry), RootsOf(versions));
    }
  }

  /** resolveOCIGraph; no manifest is fetched twice. */
  method ResolveOciGraph(versions: seq<Version>, registry: Registry) returns (outcome: Outcome, calls: seq<string>)
    requires Resolvable(versions)
    ensures var g := Graph(versions, registry);
      && (outcome.Ok? ==> outcome.roots == |RootsOf(versions)| && !Conflicting(versions) && Resolves(g, outcome.reachable))
      && (outcome.Err? ==> Conflicting(versions) || exists d :: d !in registry && MustFetch(g, d))
    ensures forall i, j :: 0 <= i < j < |calls| ==> calls[i] != calls[j]
    ensures outcome == ResolutionOf(versions, registry)
  {
    calls := [];
    var ok, roots, referrers := IndexVersions(versions);
    if !ok {
      return Err, calls;
    }
    ResolutionIsSound(versions, registry);
    var reachable;
    ok, reachable, calls := RunSearch(roots, referrers, registry);
    outcome := if ok then Ok(reachable, |roots|) else Err;
  }

  /** The rest of resolveOCIGraph, after the versions are indexed. */
  method RunSearch(roots: seq<Version>, referrers: map<string, Version>, registry: Registry)
    returns (ok: bool, reachable: set<string>, calls: seq<string>)
    requires ChainsEnd(referrers)
    ensures forall i, j :: 0 <= i < j < |calls| ==> calls[i] != calls[j]
    ensures var s := Searched(roots, referrers, registry); s.Some? == ok && (ok ==> s.value.marks.reachable == reachable)
  {
    var resolver := new Resolver(referrers, registry);
    resolver.MarkRoots(roots);
    ok := resolver.Drain();
    reachable, calls := resolver.reachable, resolver.calls;
  }
}
