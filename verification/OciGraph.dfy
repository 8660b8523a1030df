// Reachability of container image versions: which ones a registry must keep.
//
// Two kinds of edge lead from a kept manifest: the children of an image index, and the
// referrer index of a subject, found through the "Referrers Tag Schema" of the OCI
// Distribution Specification v1.1.

module OciGraph {
  import opened Strings

  datatype Version = Version(id: int, name: string, ageDays: nat, tags: seq<string>)

  datatype Reference = Reference(digest: string, mediaType: string)

  /** Manifest lookups; an absent digest is a failed fetch. */
  type Registry = map<string, seq<Reference>>

  datatype Outcome = Ok(reachable: set<string>, roots: nat) | Err

  // ----- tags

  predicate IsHex(c: char) { '0' <= c <= '9' || 'a' <= c <= 'f' }

  /** ^sha256-([0-9a-f]{64})$ */
  predicate IsReferrerTag(tag: string)
  {
    |tag| == 71 && tag[..7] == "sha256-" && forall i :: 7 <= i < 71 ==> IsHex(tag[i])
  }

  function SubjectOf(tag: string): string
    requires IsReferrerTag(tag)
  {
    "sha256:" + tag[7..]
  }

  predicate IsRoot(v: Version)
  {
    exists i :: 0 <= i < |v.tags| && !IsReferrerTag(v.tags[i])
  }

  function Subjects(tags: seq<string>): (r: set<string>)
    ensures forall i :: 0 <= i < |tags| && IsReferrerTag(tags[i]) ==> SubjectOf(tags[i]) in r
    ensures forall s :: s in r ==> exists i :: 0 <= i < |tags| && IsReferrerTag(tags[i]) && s == SubjectOf(tags[i])
  {
    set i | 0 <= i < |tags| && IsReferrerTag(tags[i]) :: SubjectOf(tags[i])
  }

  /** The tags that are not referrer tags, in order. */
  function NormalTags(tags: seq<string>): seq<string>
  {
    if tags == [] then []
    else
      var before, last := NormalTags(tags[..|tags| - 1]), tags[|tags| - 1];
      if IsReferrerTag(last) then before else before + [last]
  }

  /** The subjects of the referrer tags, in order. */
  function SubjectList(tags: seq<string>): seq<string>
  {
    if tags == [] then []
    else
      var before, last := SubjectList(tags[..|tags| - 1]), tags[|tags| - 1];
      if IsReferrerTag(last) then before + [SubjectOf(last)] else before
  }

  method SplitGraphTags(tags: seq<string>) returns (normalTags: seq<string>, subjects: seq<string>)
    ensures normalTags == NormalTags(tags) && subjects == SubjectList(tags)
    ensures normalTags == [] <==> forall i :: 0 <= i < |tags| ==> IsReferrerTag(tags[i])
    ensures forall s :: s in subjects <==> s in Subjects(tags)
    ensures |normalTags| + |subjects| == |tags|
  {
    normalTags, subjects := [], [];
    for k := 0 to |tags|
      invariant normalTags == NormalTags(tags[..k]) && subjects == SubjectList(tags[..k])
    {
      assert tags[..k + 1][..k] == tags[..k];
      if IsReferrerTag(tags[k]) {
        subjects := subjects + [SubjectOf(tags[k])];
      } else {
        normalTags := normalTags + [tags[k]];
      }
    }
    assert tags[..|tags|] == tags;
    SplitMembers(tags);
  }

  lemma {:induction false} SplitMembers(tags: seq<string>)
    ensures NormalTags(tags) == [] <==> forall i :: 0 <= i < |tags| ==> IsReferrerTag(tags[i])
    ensures forall s :: s in SubjectList(tags) <==> s in Subjects(tags)
    ensures |NormalTags(tags)| + |SubjectList(tags)| == |tags|
    decreases |tags|
  {
    if tags != [] {
      var init, last := tags[..|tags| - 1], tags[|tags| - 1];
      assert tags == init + [last];
      SplitMembers(init);
      SubjectsSnoc(init, last);
    }
  }

  lemma SubjectsSnoc(tags: seq<string>, tag: string)
    ensures Subjects(tags + [tag]) == Subjects(tags) + (if IsReferrerTag(tag) then {SubjectOf(tag)} else {})
  {
    var all := tags + [tag];
    forall s | s in Subjects(tags) ensures s in Subjects(all) {
      var i :| 0 <= i < |tags| && IsReferrerTag(tags[i]) && s == SubjectOf(tags[i]);
      assert all[i] == tags[i];
    }
    assert all[|tags|] == tag;
  }

  // ----- the graph

  /** referrerBySubject: the last version that carries a subject's referrer tag. */
  function Referrers(versions: seq<Version>): map<string, Version>
  {
    if versions == [] then map[] else
      var last := versions[|versions| - 1];
      Referrers(versions[..|versions| - 1]) + (map s | s in Subjects(last.tags) :: last)
  }

  lemma {:induction false} ReferrerMembers(versions: seq<Version>)
    ensures forall s :: s in Referrers(versions) ==>
      Referrers(versions)[s] in versions && s in Subjects(Referrers(versions)[s].tags)
    ensures forall v, s :: v in versions && s in Subjects(v.tags) ==> s in Referrers(versions)
    decreases |versions|
  {
    if versions != [] {
      ReferrerMembers(versions[..|versions| - 1]);
      assert versions == versions[..|versions| - 1] + [versions[|versions| - 1]];
    }
  }

  /** Two different versions claim to be the referrer index of one subject. */
  ghost predicate Conflicting(versions: seq<Version>)
  {
    exists v, w, s :: v in versions && w in versions && s in Subjects(v.tags) && s in Subjects(w.tags) && v.id != w.id
  }

  datatype Graph = Graph(versions: seq<Version>, registry: Registry)

  ghost predicate KeepsRoots(g: Graph, kept: set<string>)
  {
    forall v :: v in g.versions && IsRoot(v) && Trim(v.name) != "" ==> Trim(v.name) in kept
  }

  /** The referrer index of every subject in `kept` is in `indexes`. */
  ghost predicate HasReferrers(referrers: map<string, Version>, kept: set<string>, indexes: set<string>)
  {
    forall s :: s in referrers && s in kept && Trim(referrers[s].name) != "" ==> Trim(referrers[s].name) in indexes
  }

  /** The referrer index of a kept subject is kept. */
  ghost predicate KeepsReferrers(referrers: map<string, Version>, kept: set<string>)
  {
    HasReferrers(referrers, kept, kept)
  }

  ghost predicate KeepsChildrenOf(registry: Registry, d: string, kept: set<string>)
  {
    d in registry ==>
      forall i :: 0 <= i < |registry[d]| && Trim(registry[d][i].digest) != "" ==> Trim(registry[d][i].digest) in kept
  }

  ghost predicate KeepsChildren(registry: Registry, from: set<string>, kept: set<string>)
  {
    forall d :: d in from ==> KeepsChildrenOf(registry, d, kept)
  }

  /** Closed under both kinds of edge, and holding every normally tagged version. */
  ghost predicate Closed(g: Graph, kept: set<string>)
  {
    KeepsRoots(g, kept) && KeepsReferrers(Referrers(g.versions), kept) && KeepsChildren(g.registry, kept, kept)
  }

  ghost predicate IsLeastClosed(g: Graph, kept: set<string>)
  {
    Closed(g, kept) && forall other :: Closed(g, other) ==> kept <= other
  }

  predicate IsIndexType(mediaType: string)
  {
    mediaType in {"application/vnd.oci.image.index.v1+json",
                  "application/vnd.docker.distribution.manifest.list.v2+json"}
  }

  predicate ShouldFetch(r: Reference)
  {
    r.mediaType == "" || IsIndexType(r.mediaType)
  }

  /**
   * Closed for a reader that only fetches `fetched`: references of another media type than
   * an index are kept but not followed.
   */
  ghost predicate ClosedFetching(g: Graph, kept: set<string>, fetched: set<string>)
  {
    && KeepsRoots(g, kept) && KeepsRoots(g, fetched)
    && KeepsReferrers(Referrers(g.versions), kept) && HasReferrers(Referrers(g.versions), kept, fetched)
    && KeepsChildren(g.registry, fetched, kept) && FetchesIndexes(g.registry, fetched, fetched)
  }

  ghost predicate FetchesIndexesOf(registry: Registry, d: string, fetched: set<string>)
  {
    d in registry ==>
      forall i :: 0 <= i < |registry[d]| && Trim(registry[d][i].digest) != "" && ShouldFetch(registry[d][i]) ==>
        Trim(registry[d][i].digest) in fetched
  }

  ghost predicate FetchesIndexes(registry: Registry, from: set<string>, fetched: set<string>)
  {
    forall d :: d in from ==> FetchesIndexesOf(registry, d, fetched)
  }

  /** Whoever follows index references from the roots has to fetch `d`. */
  ghost predicate MustFetch(g: Graph, d: string)
  {
    forall kept, fetched :: ClosedFetching(g, kept, fetched) ==> d in fetched
  }

  predicate IsLeaf(registry: Registry, d: string)
  {
    d in registry ==> forall i :: 0 <= i < |registry[d]| ==> Trim(registry[d][i].digest) == ""
  }

  /** Some manifest in `from` refers to `d` as something else than an index. */
  ghost predicate Announced(registry: Registry, from: set<string>, d: string)
  {
    exists e, i :: e in from && e in registry && 0 <= i < |registry[e]|
      && !ShouldFetch(registry[e][i]) && Trim(registry[e][i].digest) == d
  }

  /** What a kept manifest refers to as something else than an index has no children. */
  ghost predicate HonestMediaTypes(registry: Registry, kept: set<string>)
  {
    forall d :: Announced(registry, kept, d) ==> IsLeaf(registry, d)
  }
}
