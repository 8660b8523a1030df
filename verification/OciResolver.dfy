// resolveOCIGraph: a worklist search whose marking step is itself recursive.

module OciResolver {
  import opened Options
  import opened Strings
  import opened OciGraph
  import opened OciTermination
  import opened OciRun

  class Resolver {
    const referrers: map<string, Version>
    const registry: Registry

    var reachable: set<string>
    var queue: seq<string>
    var queued: set<string>
    var fetched: set<string>
    var calls: seq<string>   // manifest requests made so far

    constructor (referrers: map<string, Version>, registry: Registry)
      ensures this.referrers == referrers && this.registry == registry
      ensures Progress() == Search(NO_MARKS, {}) && calls == []
    {
      this.referrers := referrers;
      this.registry := registry;
      reachable, queue, queued, fetched, calls := {}, [], {}, {}, [];
    }

    /** The fields as one value, to compare with the search as a function. */
    ghost function Now(): Marks
      reads this
    {
      Marks(reachable, queue, queued)
    }

    ghost function Progress(): Search
      reads this
    {
      Search(Now(), fetched)
    }

    /**
     * markReachable.  Each inner call marks a referrer name that was not reachable before,
     * or is one step along a chain of untrimmed names.
     */
    method MarkReachable(name: string, fetch: bool)
      requires ChainsEnd(referrers)
      modifies this`reachable, this`queue, this`queued
      ensures Now() == MarkedBy(referrers, old(Now()), Trim(name), fetch)
      decreases Left(referrers, reachable, Trim(name)), ChainLength(referrers, Trim(name))
    {
      var digest := Trim(name);
      if digest == "" {
        return;
      }
      Enter(digest, fetch);
      MarkedByStep(referrers, old(Now()), digest, fetch);
      OnwardIsNextCall(referrers, old(reachable), digest);
      if digest in referrers && referrers[digest].name !in reachable {
        CallShrinks(referrers, old(reachable), digest);
        MarkReachable(referrers[digest].name, true);
      }
    }

    /** Records one digest, and queues it once if it is to be fetched. */
    method Enter(digest: string, fetch: bool)
      modifies this`reachable, this`queue, this`queued
      ensures Now() == Entered(old(Now()), digest, fetch)
    {
      reachable := reachable + {digest};
      if fetch && digest !in queued {
        queued := queued + {digest};
        queue := queue + [digest];
      }
    }

    // ----- the search

    method MarkRoots(roots: seq<Version>)
      requires ChainsEnd(referrers)
      modifies this`reachable, this`queue, this`queued
      ensures Now() == MarkedAll(referrers, old(Now()), RootCalls(roots))
    {
      ghost var calls := RootCalls(roots);
      for i := 0 to |roots|
        invariant Now() == MarkedAll(referrers, old(Now()), calls[..i])
      {
        MarkedAllNext(referrers, old(Now()), calls, i);
        MarkReachable(roots[i].name, true);
      }
      assert calls[..|roots|] == calls;
    }

    /** Marks the references of a manifest that was just fetched. */
    method MarkReferences(references: seq<Reference>)
      requires ChainsEnd(referrers)
      modifies this`reachable, this`queue, this`queued
      ensures Now() == MarkedAll(referrers, old(Now()), ReferenceCalls(references))
    {
      ghost var calls := ReferenceCalls(references);
      for i := 0 to |references|
        invariant Now() == MarkedAll(referrers, old(Now()), calls[..i])
      {
        MarkedAllNext(referrers, old(Now()), calls, i);
        MarkReachable(references[i].digest, ShouldFetch(references[i]));
      }
      assert calls[..|references|] == calls;
    }

    /** Exactly the fetched manifests were requested, each once. */
    ghost predicate CallsOk()
      reads this
    {
      && (forall d :: d in calls <==> d in fetched)
      && (forall i, j :: 0 <= i < j < |calls| ==> calls[i] != calls[j])
    }

    method Request(digest: string)
      requires CallsOk() && digest !in fetched
      modifies this`calls, this`fetched
      ensures CallsOk() && fetched == old(fetched) + {digest}
    {
      assert digest !in calls;
      fetched := fetched + {digest};
      calls := calls + [digest];
    }

    /** One pass of the queue loop. */
    method FetchNext() returns (ok: bool)
      requires ChainsEnd(referrers) && CallsOk() && queue != []
      modifies this
      ensures CallsOk()
      ensures Fetched(referrers, registry, old(Progress())) == if ok then Some(Progress()) else None
    {
      var digest := queue[0];
      queue := queue[1..];
      if digest in fetched {
        return true;
      }
      Request(digest);
      if digest !in registry {
        return false;
      }
      MarkReferences(registry[digest]);
      return true;
    }

    /** The queue loop; it ends because every pass fetches a new manifest or shortens the queue. */
    method Drain() returns (ok: bool)
      requires ChainsEnd(referrers) && CallsOk()
      modifies this
      ensures CallsOk() && (ok ==> queue == [])
      ensures Drained(referrers, registry, old(Progress())) == if ok then Some(Progress()) else None
    {
      while queue != []
        invariant CallsOk()
        invariant Drained(referrers, registry, Progress()) == Drained(referrers, registry, old(Progress()))
        decreases registry.Keys - fetched, |queue|
      {
        ghost var before := Progress();
        ok := FetchNext();
        if !ok {
          return;
        }
        FetchedShrinks(referrers, registry, before);
      }
      ok := true;
    }
  }
}
