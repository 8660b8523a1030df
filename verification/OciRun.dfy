// The search of resolveOCIGraph as a function: what it marks, queues and fetches, in order.

module OciRun {
  import opened Options
  import opened Strings
  import opened OciGraph
  import opened OciTermination

  /** The name of the referrer of a subject; nothing hangs on a referrer without a name. */
  function RefName(referrers: map<string, Version>, digest: string): string
  {
    if digest in referrers && Trim(referrers[digest].name) != "" then referrers[digest].name else ""
  }

  /** The digest that markReachable goes on to, or "". */
  function Onward(referrers: map<string, Version>, reachable: set<string>, digest: string): string
  {
    var name := RefName(referrers, digest);
    if name in reachable + {digest} then "" else Trim(name)
  }

  lemma OnwardIsNextCall(referrers: map<string, Version>, reachable: set<string>, digest: string)
    requires digest != ""
    ensures var next := NextCall(referrers, reachable, digest);
      Onward(referrers, reachable, digest) == if next.Some? then next.value else ""
  {}

  lemma OnwardShrinks(referrers: map<string, Version>, reachable: set<string>, digest: string)
    requires ChainsEnd(referrers) && digest != "" && Onward(referrers, reachable, digest) != ""
    ensures var next := Onward(referrers, reachable, digest);
      || Left(referrers, reachable + {digest}, next) < Left(referrers, reachable, digest)
      || (Left(referrers, reachable + {digest}, next) == Left(referrers, reachable, digest)
          && ChainLength(referrers, next) < ChainLength(referrers, digest))
  {
    OnwardIsNextCall(referrers, reachable, digest);
    CallShrinks(referrers, reachable, digest);
  }

  // ----- one call of markReachable

  /** The digests that a call visits: its own, and the chain of referrers it goes on to. */
  ghost function Visited(referrers: map<string, Version>, reachable: set<string>, digest: string): set<string>
    requires ChainsEnd(referrers)
    decreases Left(referrers, reachable, digest), ChainLength(referrers, digest)
  {
    if digest == "" then {}
    else
      var next := Onward(referrers, reachable, digest);
      if next == "" then {digest}
      else
        OnwardShrinks(referrers, reachable, digest);
        {digest} + Visited(referrers, reachable + {digest}, next)
  }

  /** The referrers among them. */
  ghost function Followed(referrers: map<string, Version>, reachable: set<string>, digest: string): set<string>
    requires ChainsEnd(referrers)
  {
    if digest == "" then {}
    else Visited(referrers, reachable + {digest}, Onward(referrers, reachable, digest))
  }

  lemma VisitedStep(referrers: map<string, Version>, reachable: set<string>, digest: string)
    requires ChainsEnd(referrers) && digest != ""
    ensures Visited(referrers, reachable, digest) == {digest} + Followed(referrers, reachable, digest)
  {}

  /** Referrers of reachable subjects are reachable, except that `pending` is still to come. */
  ghost predicate KeepsReferrersBut(referrers: map<string, Version>, reachable: set<string>, pending: string)
  {
    HasReferrers(referrers, reachable, reachable + {pending})
  }

  /** After one step only the next digest is pending. */
  lemma PendingMoves(referrers: map<string, Version>, reachable: set<string>, digest: string)
    requires AllTrimmed(reachable) && Trim(digest) == digest && KeepsReferrersBut(referrers, reachable, digest)
    ensures KeepsReferrersBut(referrers, reachable + {digest}, Onward(referrers, reachable, digest))
    ensures AllTrimmed(reachable + {digest})
    ensures Trim(Onward(referrers, reachable, digest)) == Onward(referrers, reachable, digest)
  {
    TrimTwice(RefName(referrers, digest));
  }

  lemma SplitUnion(a: set<string>, d: string, b: set<string>)
    ensures a + ({d} + b) == a + {d} + b
  {}

  /** Marking restores closure under referrers. */
  lemma {:induction false} VisitingCloses(referrers: map<string, Version>, reachable: set<string>, digest: string)
    requires ChainsEnd(referrers) && AllTrimmed(reachable) && Trim(digest) == digest
    requires KeepsReferrersBut(referrers, reachable, digest)
    ensures KeepsReferrers(referrers, reachable + Visited(referrers, reachable, digest))
    ensures AllTrimmed(reachable + Visited(referrers, reachable, digest))
    decreases Left(referrers, reachable, digest), ChainLength(referrers, digest)
  {
    if digest == "" {
      assert reachable + {} == reachable;
    } else {
      var next := Onward(referrers, reachable, digest);
      PendingMoves(referrers, reachable, digest);
      if next != "" {
        OnwardShrinks(referrers, reachable, digest);
        VisitingCloses(referrers, reachable + {digest}, next);
        SplitUnion(reachable, digest, Visited(referrers, reachable + {digest}, next));
      }
    }
  }

  lemma OnwardWithin(referrers: map<string, Version>, reachable: set<string>, digest: string, kept: set<string>,
                     fetched: set<string>)
    requires HasReferrers(referrers, kept, fetched) && digest in kept
    ensures Onward(referrers, reachable, digest) != "" ==> Onward(referrers, reachable, digest) in fetched
  {}

  /** Marking stays inside every set that is closed under referrers, and follows no more than its referrers. */
  lemma {:induction false} VisitingStaysWithin(referrers: map<string, Version>, reachable: set<string>, digest: string,
                                               kept: set<string>, fetched: set<string>)
    requires ChainsEnd(referrers) && KeepsReferrers(referrers, kept) && HasReferrers(referrers, kept, fetched)
    requires digest != "" ==> digest in kept
    ensures Visited(referrers, reachable, digest) <= kept && Followed(referrers, reachable, digest) <= fetched
    decreases Left(referrers, reachable, digest), ChainLength(referrers, digest)
  {
    if digest != "" {
      var next := Onward(referrers, reachable, digest);
      OnwardWithin(referrers, reachable, digest, kept, kept);
      OnwardWithin(referrers, reachable, digest, kept, fetched);
      if next != "" {
        OnwardShrinks(referrers, reachable, digest);
        VisitingStaysWithin(referrers, reachable + {digest}, next, kept, fetched);
        VisitedStep(referrers, reachable + {digest}, next);
      }
    }
  }

  /** With trimmed names, exactly the newly marked referrers are followed. */
  lemma {:induction false} TrimmedVisitsAreNew(referrers: map<string, Version>, reachable: set<string>, digest: string)
    requires ChainsEnd(referrers) && forall s :: s in referrers ==> Trim(referrers[s].name) == referrers[s].name
    ensures Followed(referrers, reachable, digest) !! reachable + {digest}
    decreases Left(referrers, reachable, digest), ChainLength(referrers, digest)
  {
    if digest != "" {
      var next := Onward(referrers, reachable, digest);
      if next != "" {
        OnwardShrinks(referrers, reachable, digest);
        TrimmedVisitsAreNew(referrers, reachable + {digest}, next);
        VisitedStep(referrers, reachable + {digest}, next);
      }
    }
  }

  datatype Marks = Marks(reachable: set<string>, queue: seq<string>, queued: set<string>)

  function Entered(m: Marks, digest: string, fetch: bool): Marks
  {
    if fetch && digest !in m.queued then Marks(m.reachable + {digest}, m.queue + [digest], m.queued + {digest})
    else m.(reachable := m.reachable + {digest})
  }

  /** markReachable on a trimmed digest. */
  ghost function MarkedBy(referrers: map<string, Version>, m: Marks, digest: string, fetch: bool): Marks
    requires ChainsEnd(referrers)
    decreases Left(referrers, m.reachable, digest), ChainLength(referrers, digest)
  {
    if digest == "" then m
    else
      var e, next := Entered(m, digest, fetch), Onward(referrers, m.reachable, digest);
      if next == "" then e
      else
        OnwardShrinks(referrers, m.reachable, digest);
        MarkedBy(referrers, e, next, true)
  }

  lemma MarkedByStep(referrers: map<string, Version>, m: Marks, digest: string, fetch: bool)
    requires ChainsEnd(referrers) && digest != ""
    ensures MarkedBy(referrers, m, digest, fetch)
         == MarkedBy(referrers, Entered(m, digest, fetch), Onward(referrers, m.reachable, digest), true)
  {}

  /** A call marks what it visits. */
  lemma {:induction false} MarkedByMarks(referrers: map<string, Version>, m: Marks, digest: string, fetch: bool)
    requires ChainsEnd(referrers)
    ensures MarkedBy(referrers, m, digest, fetch).reachable == m.reachable + Visited(referrers, m.reachable, digest)
    decreases Left(referrers, m.reachable, digest), ChainLength(referrers, digest)
  {
    if digest != "" {
      var e, next := Entered(m, digest, fetch), Onward(referrers, m.reachable, digest);
      if next != "" {
        OnwardShrinks(referrers, m.reachable, digest);
        MarkedByMarks(referrers, e, next, true);
        SplitUnion(m.reachable, digest, Visited(referrers, e.reachable, next));
      }
    }
  }

  /** It queues the referrers it follows and, if asked to, the digest itself. */
  lemma {:induction false} MarkedByQueues(referrers: map<string, Version>, m: Marks, digest: string, fetch: bool, d: string)
    requires ChainsEnd(referrers)
    ensures d in MarkedBy(referrers, m, digest, fetch).queued <==>
      d in m.queued || d in Followed(referrers, m.reachable, digest) || (fetch && d == digest && digest != "")
    decreases Left(referrers, m.reachable, digest), ChainLength(referrers, digest)
  {
    if digest != "" {
      var e, next := Entered(m, digest, fetch), Onward(referrers, m.reachable, digest);
      if next != "" {
        OnwardShrinks(referrers, m.reachable, digest);
        MarkedByStep(referrers, m, digest, fetch);
        MarkedByQueues(referrers, e, next, true, d);
        VisitedStep(referrers, e.reachable, next);
      }
    }
  }

  /** With trimmed names: besides the digest itself, exactly the newly marked referrers are queued. */
  lemma TrimmedByQueued(referrers: map<string, Version>, m: Marks, digest: string, fetch: bool, d: string)
    requires ChainsEnd(referrers) && forall s :: s in referrers ==> Trim(referrers[s].name) == referrers[s].name
    ensures var t := MarkedBy(referrers, m, digest, fetch);
      d in t.queued <==>
        || d in m.queued || (d in t.reachable && d !in m.reachable && d != digest)
        || (fetch && d == digest && digest != "")
  {
    MarkedByMarks(referrers, m, digest, fetch);
    MarkedByQueues(referrers, m, digest, fetch, d);
    TrimmedVisitsAreNew(referrers, m.reachable, digest);
    if digest != "" {
      VisitedStep(referrers, m.reachable, digest);
    }
  }

  /** Everything queued is still waiting or was fetched. */
  ghost predicate Waiting(m: Marks, fetched: set<string>)
  {
    forall d :: d in m.queued <==> d in m.queue || d in fetched
  }

  lemma {:induction false} MarkedByWaiting(referrers: map<string, Version>, m: Marks, digest: string, fetch: bool,
                                           fetched: set<string>)
    requires ChainsEnd(referrers) && Waiting(m, fetched)
    ensures Waiting(MarkedBy(referrers, m, digest, fetch), fetched)
    decreases Left(referrers, m.reachable, digest), ChainLength(referrers, digest)
  {
    if digest != "" {
      var e, next := Entered(m, digest, fetch), Onward(referrers, m.reachable, digest);
      if next != "" {
        OnwardShrinks(referrers, m.reachable, digest);
        MarkedByWaiting(referrers, e, next, true, fetched);
      }
    }
  }

  // ----- a list of calls

  /** One call of markReachable: the digest and whether to fetch it. */
  datatype Call = Call(digest: string, fetch: bool)

  ghost function MarkedAll(referrers: map<string, Version>, m: Marks, calls: seq<Call>): Marks
    requires ChainsEnd(referrers)
  {
    if calls == [] then m
    else
      var last := calls[|calls| - 1];
      MarkedBy(referrers, MarkedAll(referrers, m, calls[..|calls| - 1]), last.digest, last.fetch)
  }

  lemma MarkedAllNext(referrers: map<string, Version>, m: Marks, calls: seq<Call>, i: nat)
    requires ChainsEnd(referrers) && i < |calls|
    ensures MarkedAll(referrers, m, calls[..i + 1])
         == MarkedBy(referrers, MarkedAll(referrers, m, calls[..i]), calls[i].digest, calls[i].fetch)
  {
    assert calls[..i + 1][..i] == calls[..i];
  }

  function RootCalls(roots: seq<Version>): (r: seq<Call>)
    ensures |r| == |roots| && forall i :: 0 <= i < |r| ==> r[i] == Call(Trim(roots[i].name), true)
  {
    seq(|roots|, i requires 0 <= i < |roots| => Call(Trim(roots[i].name), true))
  }

  function ReferenceCalls(references: seq<Reference>): (r: seq<Call>)
    ensures |r| == |references|
    ensures forall i :: 0 <= i < |r| ==> r[i] == Call(Trim(references[i].digest), ShouldFetch(references[i]))
  {
    seq(|references|, i requires 0 <= i < |references| => Call(Trim(references[i].digest), ShouldFetch(references[i])))
  }

  lemma MarkedByGrows(referrers: map<string, Version>, m: Marks, digest: string, fetch: bool)
    requires ChainsEnd(referrers)
    ensures var t := MarkedBy(referrers, m, digest, fetch);
      && m.reachable <= t.reachable && m.queued <= t.queued
      && (digest != "" ==> digest in t.reachable && (fetch ==> digest in t.queued))
  {
    MarkedByMarks(referrers, m, digest, fetch);
    forall d | d in m.queued || (fetch && d == digest && digest != "")
      ensures d in MarkedBy(referrers, m, digest, fetch).queued
    {
      MarkedByQueues(referrers, m, digest, fetch, d);
    }
  }

  lemma {:induction false} MarkedAllGrows(referrers: map<string, Version>, m: Marks, calls: seq<Call>)
    requires ChainsEnd(referrers)
    ensures m.reachable <= MarkedAll(referrers, m, calls).reachable && m.queued <= MarkedAll(referrers, m, calls).queued
    decreases |calls|
  {
    if calls != [] {
      var init, last := calls[..|calls| - 1], calls[|calls| - 1];
      MarkedAllGrows(referrers, m, init);
      MarkedByGrows(referrers, MarkedAll(referrers, m, init), last.digest, last.fetch);
    }
  }

  /** Every call marks its digest, and queues it if asked to. */
  lemma {:induction false} MarkedAllHas(referrers: map<string, Version>, m: Marks, calls: seq<Call>, i: nat)
    requires ChainsEnd(referrers) && i < |calls| && calls[i].digest != ""
    ensures var t := MarkedAll(referrers, m, calls);
      calls[i].digest in t.reachable && (calls[i].fetch ==> calls[i].digest in t.queued)
    decreases |calls|
  {
    var init, last := calls[..|calls| - 1], calls[|calls| - 1];
    MarkedByGrows(referrers, MarkedAll(referrers, m, init), last.digest, last.fetch);
    if i < |init| {
      MarkedAllHas(referrers, m, init, i);
    }
  }

  // ----- the queue loop

  datatype Search = Search(marks: Marks, fetched: set<string>)

  /** One pass of the queue loop; None is a failed fetch. */
  ghost function Fetched(referrers: map<string, Version>, registry: Registry, s: Search): Option<Search>
    requires ChainsEnd(referrers) && s.marks.queue != []
  {
    var digest, marks := s.marks.queue[0], s.marks.(queue := s.marks.queue[1..]);
    if digest in s.fetched then Some(Search(marks, s.fetched))
    else if digest !in registry then None
    else Some(Search(MarkedAll(referrers, marks, ReferenceCalls(registry[digest])), s.fetched + {digest}))
  }

  /** A pass fetches a new manifest or shortens the queue. */
  lemma FetchedShrinks(referrers: map<string, Version>, registry: Registry, s: Search)
    requires ChainsEnd(referrers) && s.marks.queue != [] && Fetched(referrers, registry, s).Some?
    ensures var t := Fetched(referrers, registry, s).value;
      || registry.Keys - t.fetched < registry.Keys - s.fetched
      || (t.fetched == s.fetched && |t.marks.queue| < |s.marks.queue|)
  {
    var digest, t := s.marks.queue[0], Fetched(referrers, registry, s).value;
    if digest !in s.fetched {
      assert digest in registry.Keys - s.fetched && digest !in registry.Keys - t.fetched;
    }
  }

  /** The queue loop. */
  ghost function Drained(referrers: map<string, Version>, registry: Registry, s: Search): Option<Search>
    requires ChainsEnd(referrers)
    decreases registry.Keys - s.fetched, |s.marks.queue|
  {
    if s.marks.queue == [] then Some(s)
    else
      var next := Fetched(referrers, registry, s);
      if next.None? then None
      else
        FetchedShrinks(referrers, registry, s);
        Drained(referrers, registry, next.value)
  }

  const NO_MARKS := Marks({}, [], {})

  /** The whole search. */
  ghost function Searched(roots: seq<Version>, referrers: map<string, Version>, registry: Registry): Option<Search>
    requires ChainsEnd(referrers)
  {
    Drained(referrers, registry, Search(MarkedAll(referrers, NO_MARKS, RootCalls(roots)), {}))
  }

  // ----- the search only looks at what it keeps

  ghost predicate SameReferrers(a: map<string, Version>, b: map<string, Version>, kept: set<string>)
  {
    forall d :: d in kept ==> RefName(a, d) == RefName(b, d)
  }

  ghost predicate SameManifests(a: Registry, b: Registry, kept: set<string>)
  {
    forall d :: d in kept ==> (d in a <==> d in b) && (d in a ==> a[d] == b[d])
  }

  lemma {:induction false} MarkedByLocal(a: map<string, Version>, b: map<string, Version>, m: Marks, digest: string,
                                         fetch: bool, kept: set<string>)
    requires ChainsEnd(a) && ChainsEnd(b)
    requires MarkedBy(a, m, digest, fetch).reachable <= kept && SameReferrers(a, b, kept)
    ensures MarkedBy(b, m, digest, fetch) == MarkedBy(a, m, digest, fetch)
    decreases Left(a, m.reachable, digest), ChainLength(a, digest)
  {
    if digest != "" {
      MarkedByGrows(a, m, digest, fetch);
      var e, next := Entered(m, digest, fetch), Onward(a, m.reachable, digest);
      assert Onward(b, m.reachable, digest) == next;
      if next != "" {
        OnwardShrinks(a, m.reachable, digest);
        MarkedByStep(a, m, digest, fetch);
        MarkedByStep(b, m, digest, fetch);
        MarkedByLocal(a, b, e, next, true, kept);
      }
    }
  }

  lemma {:induction false} MarkedAllLocal(a: map<string, Version>, b: map<string, Version>, m: Marks, calls: seq<Call>,
                                          kept: set<string>)
    requires ChainsEnd(a) && ChainsEnd(b)
    requires MarkedAll(a, m, calls).reachable <= kept && SameReferrers(a, b, kept)
    ensures MarkedAll(b, m, calls) == MarkedAll(a, m, calls)
    decreases |calls|
  {
    if calls != [] {
      var init, last := calls[..|calls| - 1], calls[|calls| - 1];
      var before := MarkedAll(a, m, init);
      MarkedByGrows(a, before, last.digest, last.fetch);
      MarkedAllLocal(a, b, m, init, kept);
      MarkedByLocal(a, b, before, last.digest, last.fetch, kept);
    }
  }

  ghost predicate QueueReachable(m: Marks)
  {
    forall d :: d in m.queue ==> d in m.reachable
  }

  lemma {:induction false} MarkedByQueue(referrers: map<string, Version>, m: Marks, digest: string, fetch: bool)
    requires ChainsEnd(referrers) && QueueReachable(m)
    ensures QueueReachable(MarkedBy(referrers, m, digest, fetch))
    decreases Left(referrers, m.reachable, digest), ChainLength(referrers, digest)
  {
    if digest != "" {
      var e, next := Entered(m, digest, fetch), Onward(referrers, m.reachable, digest);
      if next != "" {
        OnwardShrinks(referrers, m.reachable, digest);
        MarkedByQueue(referrers, e, next, true);
      }
    }
  }

  lemma {:induction false} MarkedAllQueue(referrers: map<string, Version>, m: Marks, calls: seq<Call>)
    requires ChainsEnd(referrers) && QueueReachable(m)
    ensures QueueReachable(MarkedAll(referrers, m, calls))
    decreases |calls|
  {
    if calls != [] {
      var init, last := calls[..|calls| - 1], calls[|calls| - 1];
      MarkedAllQueue(referrers, m, init);
      MarkedByQueue(referrers, MarkedAll(referrers, m, init), last.digest, last.fetch);
    }
  }

  lemma FetchedGrows(referrers: map<string, Version>, registry: Registry, s: Search)
    requires ChainsEnd(referrers) && s.marks.queue != [] && QueueReachable(s.marks)
    requires Fetched(referrers, registry, s).Some?
    ensures var t := Fetched(referrers, registry, s).value;
      s.marks.reachable <= t.marks.reachable && QueueReachable(t.marks)
  {
    var digest, marks := s.marks.queue[0], s.marks.(queue := s.marks.queue[1..]);
    assert QueueReachable(marks);
    if digest !in s.fetched {
      MarkedAllGrows(referrers, marks, ReferenceCalls(registry[digest]));
      MarkedAllQueue(referrers, marks, ReferenceCalls(registry[digest]));
    }
  }

  lemma {:induction false} DrainedGrows(referrers: map<string, Version>, registry: Registry, s: Search)
    requires ChainsEnd(referrers) && QueueReachable(s.marks) && Drained(referrers, registry, s).Some?
    ensures s.marks.reachable <= Drained(referrers, registry, s).value.marks.reachable
    decreases registry.Keys - s.fetched, |s.marks.queue|
  {
    if s.marks.queue != [] {
      FetchedGrows(referrers, registry, s);
      FetchedShrinks(referrers, registry, s);
      DrainedGrows(referrers, registry, Fetched(referrers, registry, s).value);
    }
  }

  lemma FetchedLocal(a: map<string, Version>, b: map<string, Version>, before: Registry, after: Registry, s: Search,
                     kept: set<string>)
    requires ChainsEnd(a) && ChainsEnd(b)
    requires s.marks.queue != [] && QueueReachable(s.marks) && Fetched(a, before, s).Some?
    requires Fetched(a, before, s).value.marks.reachable <= kept
    requires SameReferrers(a, b, kept) && SameManifests(before, after, kept)
    ensures Fetched(b, after, s) == Fetched(a, before, s)
  {
    FetchedGrows(a, before, s);
    var digest, marks := s.marks.queue[0], s.marks.(queue := s.marks.queue[1..]);
    assert digest in kept;
    if digest !in s.fetched {
      MarkedAllLocal(a, b, marks, ReferenceCalls(before[digest]), kept);
    }
  }

  lemma {:induction false} DrainedLocal(a: map<string, Version>, b: map<string, Version>, before: Registry, after: Registry,
                                        s: Search, kept: set<string>)
    requires ChainsEnd(a) && ChainsEnd(b)
    requires QueueReachable(s.marks) && Drained(a, before, s).Some?
    requires Drained(a, before, s).value.marks.reachable <= kept
    requires SameReferrers(a, b, kept) && SameManifests(before, after, kept)
    ensures Drained(b, after, s) == Drained(a, before, s)
    decreases before.Keys - s.fetched, |s.marks.queue|
  {
    if s.marks.queue != [] {
      var next := Fetched(a, before, s).value;
      FetchedGrows(a, before, s);
      assert Drained(a, before, s) == Drained(a, before, next);
      DrainedGrows(a, before, next);
      FetchedLocal(a, b, before, after, s, kept);
      FetchedShrinks(a, before, s);
      DrainedLocal(a, b, before, after, next, kept);
    }
  }

  /** A search that agrees on everything it keeps runs the same way and keeps the same. */
  lemma SearchedLocal(roots: seq<Version>, a: map<string, Version>, b: map<string, Version>, before: Registry,
                      after: Registry)
    requires ChainsEnd(a) && ChainsEnd(b) && Searched(roots, a, before).Some?
    requires var kept := Searched(roots, a, before).value.marks.reachable;
      SameReferrers(a, b, kept) && SameManifests(before, after, kept)
    ensures Searched(roots, b, after) == Searched(roots, a, before)
  {
    var kept, calls := Searched(roots, a, before).value.marks.reachable, RootCalls(roots);
    var s := Search(MarkedAll(a, NO_MARKS, calls), {});
    MarkedAllQueue(a, NO_MARKS, calls);
    DrainedGrows(a, before, s);
    MarkedAllLocal(a, b, NO_MARKS, calls, kept);
    DrainedLocal(a, b, before, after, s, kept);
  }
}
