// What the search of resolveOCIGraph keeps: nothing without a reason, and with honest media
// types the least closed set.

module OciSearch {
  import opened Strings
  import opened OciGraph
  import opened OciTermination
  import opened OciRun

  // ----- marks that every reader needs

  /** No reader could do with fewer marks. */
  ghost predicate Needed(g: Graph, m: Marks)
  {
    forall kept, seen :: ClosedFetching(g, kept, seen) ==> m.reachable <= kept && m.queued <= seen
  }

  /** What is marked but not queued was announced as something else than an index. */
  ghost predicate LooseEnds(g: Graph, m: Marks)
  {
    m.queued <= m.reachable && forall d :: d in m.reachable ==> d in m.queued || Announced(g.registry, m.queued, d)
  }

  ghost predicate MarkInv(g: Graph, m: Marks)
  {
    && AllTrimmed(m.reachable) && KeepsReferrers(Referrers(g.versions), m.reachable)
    && Needed(g, m) && LooseEnds(g, m)
  }

  predicate JustifiedBy(c: Call, kept: set<string>, seen: set<string>)
  {
    c.digest in kept && (c.fetch ==> c.digest in seen)
  }

  /** A mark is justified when no reader could do without it. */
  ghost predicate Justified(g: Graph, queued: set<string>, c: Call)
  {
    && Trim(c.digest) == c.digest
    && (c.digest != "" ==>
          && (forall kept, seen :: ClosedFetching(g, kept, seen) ==> JustifiedBy(c, kept, seen))
          && (c.fetch || Announced(g.registry, queued, c.digest)))
  }

  lemma JustMarkNeeded(g: Graph, m: Marks, c: Call)
    requires ChainsEnd(Referrers(g.versions)) && Needed(g, m) && Justified(g, m.queued, c)
    ensures Needed(g, MarkedBy(Referrers(g.versions), m, c.digest, c.fetch))
  {
    var referrers := Referrers(g.versions);
    var t := MarkedBy(referrers, m, c.digest, c.fetch);
    MarkedByMarks(referrers, m, c.digest, c.fetch);
    forall kept, seen | ClosedFetching(g, kept, seen) ensures t.reachable <= kept && t.queued <= seen {
      assert c.digest != "" ==> JustifiedBy(c, kept, seen);
      VisitingStaysWithin(referrers, m.reachable, c.digest, kept, seen);
      forall d | d in t.queued ensures d in seen {
        MarkedByQueues(referrers, m, c.digest, c.fetch, d);
      }
    }
  }

  lemma JustMarkEnds(g: Graph, m: Marks, c: Call)
    requires ChainsEnd(Referrers(g.versions)) && LooseEnds(g, m) && Justified(g, m.queued, c)
    ensures LooseEnds(g, MarkedBy(Referrers(g.versions), m, c.digest, c.fetch))
  {
    var referrers := Referrers(g.versions);
    var t := MarkedBy(referrers, m, c.digest, c.fetch);
    MarkedByMarks(referrers, m, c.digest, c.fetch);
    MarkedByGrows(referrers, m, c.digest, c.fetch);
    if c.digest != "" {
      VisitedStep(referrers, m.reachable, c.digest);
    }
    forall d ensures (d in t.queued ==> d in t.reachable)
                  && (d in t.reachable ==> d in t.queued || Announced(g.registry, t.queued, d)) {
      MarkedByQueues(referrers, m, c.digest, c.fetch, d);
      if d in m.reachable && d !in t.queued {
        AnnouncedGrows(g.registry, m.queued, t.queued, d);
      } else if d == c.digest && c.digest != "" && !c.fetch {
        AnnouncedGrows(g.registry, m.queued, t.queued, d);
      }
    }
  }

  lemma AnnouncedGrows(registry: Registry, from: set<string>, more: set<string>, d: string)
    requires Announced(registry, from, d) && from <= more
    ensures Announced(registry, more, d)
  {
    var e, i :| e in from && e in registry && 0 <= i < |registry[e]|
      && !ShouldFetch(registry[e][i]) && Trim(registry[e][i].digest) == d;
    assert e in more;
  }

  /** A justified call of markReachable keeps the marks minimal, closed and accounted for. */
  lemma JustMark(g: Graph, m: Marks, c: Call)
    requires ChainsEnd(Referrers(g.versions)) && MarkInv(g, m) && Justified(g, m.queued, c)
    ensures MarkInv(g, MarkedBy(Referrers(g.versions), m, c.digest, c.fetch))
  {
    var referrers := Referrers(g.versions);
    assert KeepsReferrersBut(referrers, m.reachable, c.digest);
    VisitingCloses(referrers, m.reachable, c.digest);
    MarkedByMarks(referrers, m, c.digest, c.fetch);
    JustMarkNeeded(g, m, c);
    JustMarkEnds(g, m, c);
  }

  ghost predicate AllJustified(g: Graph, queued: set<string>, calls: seq<Call>)
  {
    forall i :: 0 <= i < |calls| ==> Justified(g, queued, calls[i])
  }

  lemma JustifiedLater(g: Graph, queued: set<string>, more: set<string>, c: Call)
    requires Justified(g, queued, c) && queued <= more
    ensures Justified(g, more, c)
  {
    if Announced(g.registry, queued, c.digest) {
      AnnouncedGrows(g.registry, queued, more, c.digest);
    }
  }

  lemma {:induction false} JustMarkAll(g: Graph, m: Marks, calls: seq<Call>)
    requires ChainsEnd(Referrers(g.versions)) && MarkInv(g, m) && AllJustified(g, m.queued, calls)
    ensures MarkInv(g, MarkedAll(Referrers(g.versions), m, calls))
    decreases |calls|
  {
    if calls != [] {
      var init, last := calls[..|calls| - 1], calls[|calls| - 1];
      var before := MarkedAll(Referrers(g.versions), m, init);
      JustMarkAll(g, m, init);
      MarkedAllGrows(Referrers(g.versions), m, init);
      JustifiedLater(g, m.queued, before.queued, last);
      JustMark(g, before, last);
    }
  }

  // ----- the roots, and the references of a fetched manifest

  ghost predicate AreRoots(g: Graph, roots: seq<Version>)
  {
    forall v :: v in roots <==> v in g.versions && IsRoot(v)
  }

  lemma RootsJustified(g: Graph, roots: seq<Version>)
    requires AreRoots(g, roots)
    ensures AllJustified(g, {}, RootCalls(roots))
  {
    forall i | 0 <= i < |roots| ensures Justified(g, {}, RootCalls(roots)[i]) {
      TrimTwice(roots[i].name);
      assert roots[i] in roots;
    }
  }

  lemma NothingMarked(g: Graph)
    ensures MarkInv(g, NO_MARKS)
  {}

  lemma RootsMarked(g: Graph, roots: seq<Version>)
    requires ChainsEnd(Referrers(g.versions)) && AreRoots(g, roots)
    ensures KeepsRoots(g, MarkedAll(Referrers(g.versions), NO_MARKS, RootCalls(roots)).reachable)
  {
    forall v | v in g.versions && IsRoot(v) && Trim(v.name) != ""
      ensures Trim(v.name) in MarkedAll(Referrers(g.versions), NO_MARKS, RootCalls(roots)).reachable
    {
      assert v in roots;
      var i :| 0 <= i < |roots| && roots[i] == v;
      MarkedAllHas(Referrers(g.versions), NO_MARKS, RootCalls(roots), i);
    }
  }

  lemma ReferencesJustified(g: Graph, m: Marks, digest: string)
    requires Needed(g, m) && digest in m.queued && digest in g.registry
    ensures AllJustified(g, m.queued, ReferenceCalls(g.registry[digest]))
  {
    var references := g.registry[digest];
    forall i | 0 <= i < |references| ensures Justified(g, m.queued, ReferenceCalls(references)[i]) {
      ReferenceJustified(g, m, digest, i);
    }
  }

  lemma ReferenceJustified(g: Graph, m: Marks, digest: string, i: nat)
    requires Needed(g, m) && digest in m.queued && digest in g.registry && i < |g.registry[digest]|
    ensures Justified(g, m.queued, ReferenceCalls(g.registry[digest])[i])
  {
    var r := g.registry[digest][i];
    var c := ReferenceCalls(g.registry[digest])[i];
    TrimTwice(r.digest);
    if c.digest != "" {
      forall kept, seen | ClosedFetching(g, kept, seen) ensures JustifiedBy(c, kept, seen) {
        assert digest in seen;
        assert KeepsChildrenOf(g.registry, digest, kept) && FetchesIndexesOf(g.registry, digest, seen);
      }
      assert c.fetch || Announced(g.registry, m.queued, c.digest);
    }
  }

  lemma ReferencesMarked(referrers: map<string, Version>, registry: Registry, m: Marks, digest: string)
    requires ChainsEnd(referrers) && digest in registry
    ensures KeepsChildrenOf(registry, digest, MarkedAll(referrers, m, ReferenceCalls(registry[digest])).reachable)
  {
    var calls := ReferenceCalls(registry[digest]);
    forall i | 0 <= i < |registry[digest]| && Trim(registry[digest][i].digest) != ""
      ensures Trim(registry[digest][i].digest) in MarkedAll(referrers, m, calls).reachable
    {
      MarkedAllHas(referrers, m, calls, i);
    }
  }

  // ----- the queue loop

  ghost predicate SearchInv(g: Graph, s: Search)
  {
    && MarkInv(g, s.marks) && Waiting(s.marks, s.fetched) && KeepsRoots(g, s.marks.reachable)
    && KeepsChildren(g.registry, s.fetched, s.marks.reachable)
  }

  lemma {:induction false} MarkedAllWaiting(referrers: map<string, Version>, m: Marks, calls: seq<Call>, fetched: set<string>)
    requires ChainsEnd(referrers) && Waiting(m, fetched)
    ensures Waiting(MarkedAll(referrers, m, calls), fetched)
    decreases |calls|
  {
    if calls != [] {
      var init, last := calls[..|calls| - 1], calls[|calls| - 1];
      MarkedAllWaiting(referrers, m, init, fetched);
      MarkedByWaiting(referrers, MarkedAll(referrers, m, init), last.digest, last.fetch, fetched);
    }
  }

  lemma KeptByMore(g: Graph, fetched: set<string>, kept: set<string>, more: set<string>)
    requires kept <= more
    ensures KeepsRoots(g, kept) ==> KeepsRoots(g, more)
    ensures KeepsChildren(g.registry, fetched, kept) ==> KeepsChildren(g.registry, fetched, more)
  {
    if KeepsChildren(g.registry, fetched, kept) {
      forall d | d in fetched ensures KeepsChildrenOf(g.registry, d, more) {
        assert KeepsChildrenOf(g.registry, d, kept);
      }
    }
  }

  /** Taking a digest off the queue to fetch it, or because it was fetched before. */
  lemma Dequeued(m: Marks, fetched: set<string>)
    requires Waiting(m, fetched) && m.queue != []
    ensures Waiting(m.(queue := m.queue[1..]), fetched + {m.queue[0]}) && m.queue[0] in m.queued
  {
    assert m.queue == [m.queue[0]] + m.queue[1..];
  }

  lemma JustFetched(g: Graph, s: Search)
    requires ChainsEnd(Referrers(g.versions)) && SearchInv(g, s) && s.marks.queue != []
    ensures var t := Fetched(Referrers(g.versions), g.registry, s);
      if t.Some? then SearchInv(g, t.value) else s.marks.queue[0] !in g.registry && MustFetch(g, s.marks.queue[0])
  {
    var referrers, digest, marks := Referrers(g.versions), s.marks.queue[0], s.marks.(queue := s.marks.queue[1..]);
    Dequeued(s.marks, s.fetched);
    if digest in s.fetched {
      assert s.fetched + {digest} == s.fetched;
    } else if digest in g.registry {
      JustReferences(g, marks, s.fetched, digest);
    }
  }

  lemma JustReferences(g: Graph, m: Marks, fetched: set<string>, digest: string)
    requires ChainsEnd(Referrers(g.versions)) && MarkInv(g, m) && KeepsRoots(g, m.reachable)
    requires Waiting(m, fetched + {digest}) && KeepsChildren(g.registry, fetched, m.reachable)
    requires digest in m.queued && digest in g.registry
    ensures SearchInv(g, Search(MarkedAll(Referrers(g.versions), m, ReferenceCalls(g.registry[digest])), fetched + {digest}))
  {
    var referrers, calls := Referrers(g.versions), ReferenceCalls(g.registry[digest]);
    var t := MarkedAll(referrers, m, calls);
    ReferencesJustified(g, m, digest);
    JustMarkAll(g, m, calls);
    MarkedAllWaiting(referrers, m, calls, fetched + {digest});
    MarkedAllGrows(referrers, m, calls);
    KeptByMore(g, fetched, m.reachable, t.reachable);
    ReferencesMarked(referrers, g.registry, m, digest);
  }

  lemma {:induction false} JustDrained(g: Graph, s: Search)
    requires ChainsEnd(Referrers(g.versions)) && SearchInv(g, s)
    ensures var t := Drained(Referrers(g.versions), g.registry, s);
      if t.Some? then SearchInv(g, t.value) && t.value.marks.queue == []
      else exists d :: d !in g.registry && MustFetch(g, d)
    decreases g.registry.Keys - s.fetched, |s.marks.queue|
  {
    if s.marks.queue != [] {
      JustFetched(g, s);
      var next := Fetched(Referrers(g.versions), g.registry, s);
      if next.Some? {
        FetchedShrinks(Referrers(g.versions), g.registry, s);
        JustDrained(g, next.value);
      }
    }
  }

  // ----- the whole search

  /** A closed set is closed for a reader that fetches all of it. */
  lemma ClosedIsClosedFetching(g: Graph, kept: set<string>)
    requires Closed(g, kept)
    ensures ClosedFetching(g, kept, kept)
  {
    forall d | d in kept ensures FetchesIndexesOf(g.registry, d, kept) {
      assert KeepsChildrenOf(g.registry, d, kept);
    }
  }

  /** Where kept manifests have honest media types, a finished search has kept a closed set. */
  lemma HonestIsClosed(g: Graph, s: Search)
    requires SearchInv(g, s) && s.marks.queue == [] && HonestMediaTypes(g.registry, s.marks.reachable)
    ensures Closed(g, s.marks.reachable)
  {
    forall d | d in s.marks.reachable ensures KeepsChildrenOf(g.registry, d, s.marks.reachable) {
      if d !in s.marks.queued {
        AnnouncedGrows(g.registry, s.marks.queued, s.marks.reachable, d);
        assert IsLeaf(g.registry, d);
      }
    }
  }

  /** What a successful search guarantees of the digests it keeps. */
  ghost predicate Resolves(g: Graph, reachable: set<string>)
  {
    && AllTrimmed(reachable) && KeepsRoots(g, reachable) && KeepsReferrers(Referrers(g.versions), reachable)
    && (forall kept, seen :: ClosedFetching(g, kept, seen) ==> reachable <= kept)
    && (HonestMediaTypes(g.registry, reachable) ==> IsLeastClosed(g, reachable))
  }

  lemma FinishedResolves(g: Graph, s: Search)
    requires SearchInv(g, s) && s.marks.queue == []
    ensures Resolves(g, s.marks.reachable)
  {
    if HonestMediaTypes(g.registry, s.marks.reachable) {
      HonestIsClosed(g, s);
      forall other | Closed(g, other) ensures s.marks.reachable <= other {
        ClosedIsClosedFetching(g, other);
      }
    }
  }

  /** The search keeps what it should, and fails only for want of a manifest that any reader has to fetch. */
  lemma SearchIsSound(g: Graph, roots: seq<Version>)
    requires ChainsEnd(Referrers(g.versions)) && AreRoots(g, roots)
    ensures var s := Searched(roots, Referrers(g.versions), g.registry);
      if s.Some? then Resolves(g, s.value.marks.reachable) else exists d :: d !in g.registry && MustFetch(g, d)
  {
    var referrers, calls := Referrers(g.versions), RootCalls(roots);
    var start := Search(MarkedAll(referrers, NO_MARKS, calls), {});
    NothingMarked(g);
    RootsJustified(g, roots);
    JustMarkAll(g, NO_MARKS, calls);
    MarkedAllWaiting(referrers, NO_MARKS, calls, {});
    RootsMarked(g, roots);
    JustDrained(g, start);
    var end := Drained(referrers, g.registry, start);
    if end.Some? {
      FinishedResolves(g, end.value);
    }
  }
}
