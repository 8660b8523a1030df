// When the recursion of markReachable ends, for version names that need not be trimmed.
//
// The recursive call trims the referrer's name before it marks it, but the test that should
// stop the recursion looks the name up as it is.

module OciTermination {
  import opened Options
  import opened Strings
  import opened OciGraph

  /** The recursive call that marking a trimmed digest makes. */
  function NextCall(referrers: map<string, Version>, reachable: set<string>, digest: string): Option<string>
  {
    if digest != "" && digest in referrers && referrers[digest].name !in reachable + {digest}
    then Some(Trim(referrers[digest].name)) else None
  }

  /** The recursion is still going after `k` calls. */
  predicate Running(referrers: map<string, Version>, reachable: set<string>, digest: string, k: nat)
    decreases k
  {
    k == 0 ||
    var next := NextCall(referrers, reachable, digest);
    next.Some? && Running(referrers, reachable + {digest}, next.value, k - 1)
  }

  ghost predicate Ends(referrers: map<string, Version>, reachable: set<string>, digest: string)
  {
    exists k :: !Running(referrers, reachable, digest, k)
  }

  /** `k` referrers in a row whose names are not trimmed. */
  predicate UntrimmedChain(referrers: map<string, Version>, digest: string, k: nat)
    decreases k
  {
    k == 0 ||
    (digest != "" && digest in referrers && Trim(referrers[digest].name) != referrers[digest].name &&
     UntrimmedChain(referrers, Trim(referrers[digest].name), k - 1))
  }

  ghost predicate AllTrimmed(s: set<string>)
  {
    forall d :: d in s ==> Trim(d) == d
  }

  /** Along untrimmed names the test never stops the recursion. */
  lemma {:induction false} ChainRuns(referrers: map<string, Version>, reachable: set<string>, digest: string, k: nat)
    requires UntrimmedChain(referrers, digest, k) && AllTrimmed(reachable) && Trim(digest) == digest
    ensures Running(referrers, reachable, digest, k)
    decreases k
  {
    if k > 0 {
      TrimTwice(referrers[digest].name);
      ChainRuns(referrers, reachable + {digest}, Trim(referrers[digest].name), k - 1);
    }
  }

  /** There is no endless chain of referrers with untrimmed names. */
  ghost predicate ChainsEnd(referrers: map<string, Version>)
  {
    forall digest :: ChainEnds(referrers, digest)
  }

  ghost predicate ChainEnds(referrers: map<string, Version>, digest: string)
  {
    exists k :: !UntrimmedChain(referrers, digest, k)
  }

  ghost function FirstBreak(referrers: map<string, Version>, digest: string, from: nat, bound: nat): (k: nat)
    requires from <= bound && !UntrimmedChain(referrers, digest, bound)
    ensures !UntrimmedChain(referrers, digest, k)
    ensures forall j :: from <= j && !UntrimmedChain(referrers, digest, j) ==> k <= j
    decreases bound - from
  {
    if !UntrimmedChain(referrers, digest, from) then from else FirstBreak(referrers, digest, from + 1, bound)
  }

  /** After how many calls a chain of untrimmed names is over. */
  ghost function ChainLength(referrers: map<string, Version>, digest: string): (k: nat)
    requires ChainsEnd(referrers)
    ensures !UntrimmedChain(referrers, digest, k)
    ensures forall j: nat :: !UntrimmedChain(referrers, digest, j) ==> k <= j
  {
    assert ChainEnds(referrers, digest);
    var bound :| !UntrimmedChain(referrers, digest, bound);
    FirstBreak(referrers, digest, 0, bound)
  }

  lemma ChainShrinks(referrers: map<string, Version>, digest: string)
    requires ChainsEnd(referrers) && digest != "" && digest in referrers
    requires Trim(referrers[digest].name) != referrers[digest].name
    ensures ChainLength(referrers, Trim(referrers[digest].name)) < ChainLength(referrers, digest)
  {
    var k, next := ChainLength(referrers, digest), Trim(referrers[digest].name);
    assert !UntrimmedChain(referrers, next, k - 1);
  }

  function Names(referrers: map<string, Version>): set<string>
  {
    set s | s in referrers :: referrers[s].name
  }

  lemma {:induction false} SubsetNotLarger(a: set<string>, b: set<string>)
    requires a <= b
    ensures |a| <= |b| && (a != b ==> |a| < |b|)
  {
    var rest := b - a;
    assert b == a + rest && |b| == |a| + |rest|;
    if a != b {
      assert rest != {};
    }
  }

  /** How many referrer names are still unmarked once `digest` is marked. */
  ghost function Left(referrers: map<string, Version>, reachable: set<string>, digest: string): nat
  {
    |Names(referrers) - reachable - {digest}|
  }

  /** A trimmed name is marked when it is visited; untrimmed ones come in chains that end. */
  lemma CallShrinks(referrers: map<string, Version>, reachable: set<string>, digest: string)
    requires ChainsEnd(referrers) && NextCall(referrers, reachable, digest).Some?
    ensures var next := NextCall(referrers, reachable, digest).value;
      || Left(referrers, reachable + {digest}, next) < Left(referrers, reachable, digest)
      || (Left(referrers, reachable + {digest}, next) == Left(referrers, reachable, digest)
          && ChainLength(referrers, next) < ChainLength(referrers, digest))
  {
    var next := NextCall(referrers, reachable, digest).value;
    var left, now := Names(referrers) - (reachable + {digest}) - {next}, Names(referrers) - reachable - {digest};
    SubsetNotLarger(left, now);
    if next == referrers[digest].name {
      assert next in now && next !in left;
    } else {
      ChainShrinks(referrers, digest);
    }
  }

  lemma {:induction false} RecursionEnds(referrers: map<string, Version>, reachable: set<string>, digest: string)
    returns (k: nat)
    requires ChainsEnd(referrers)
    ensures !Running(referrers, reachable, digest, k)
    decreases Left(referrers, reachable, digest), ChainLength(referrers, digest)
  {
    var next := NextCall(referrers, reachable, digest);
    if next.None? {
      k := 1;
    } else {
      CallShrinks(referrers, reachable, digest);
      var rest := RecursionEnds(referrers, reachable + {digest}, next.value);
      k := rest + 1;
    }
  }

  /** An endless chain is also one that starts at a trimmed digest. */
  lemma EndlessFromTrimmed(referrers: map<string, Version>) returns (digest: string)
    requires !ChainsEnd(referrers)
    ensures Trim(digest) == digest && !ChainEnds(referrers, digest)
  {
    var start :| !ChainEnds(referrers, start);
    assert UntrimmedChain(referrers, start, 1);
    digest := Trim(referrers[start].name);
    TrimTwice(referrers[start].name);
    forall k: nat ensures UntrimmedChain(referrers, digest, k) {
      assert UntrimmedChain(referrers, start, k + 1);
    }
  }

  /**
   * markReachable ends on every digest, whatever was marked before, exactly when there is no
   * endless chain of referrers with untrimmed names.
   */
  lemma MarkingEndsIff(referrers: map<string, Version>)
    ensures ChainsEnd(referrers) <==>
      forall reachable, digest :: AllTrimmed(reachable) && Trim(digest) == digest ==> Ends(referrers, reachable, digest)
  {
    if ChainsEnd(referrers) {
      forall reachable, digest ensures Ends(referrers, reachable, digest) {
        var k := RecursionEnds(referrers, reachable, digest);
      }
    } else {
      var digest := EndlessFromTrimmed(referrers);
      forall k: nat ensures Running(referrers, {}, digest, k) {
        ChainRuns(referrers, {}, digest, k);
      }
      assert !Ends(referrers, {}, digest);
    }
  }

  /** With trimmed names it always ends. */
  lemma TrimmedNamesEnd(referrers: map<string, Version>)
    requires forall s :: s in referrers ==> Trim(referrers[s].name) == referrers[s].name
    ensures ChainsEnd(referrers)
  {
    forall digest ensures ChainEnds(referrers, digest) {
      assert !UntrimmedChain(referrers, digest, 1);
    }
  }

  // ----- a version that is its own referrer

  lemma {:induction false} OnlyReferrer(v: Version, tag: string, other: string)
    requires v.tags == [tag, other] && IsReferrerTag(tag) && !IsReferrerTag(other)
    ensures Referrers([v]) == map[SubjectOf(tag) := v] && IsRoot(v)
  {
    assert !IsReferrerTag(v.tags[1]);
    assert IsReferrerTag(v.tags[0]) && SubjectOf(v.tags[0]) in Subjects(v.tags);
    assert [v][..0] == [];
    assert Referrers([v]) == Referrers([]) + (map s | s in Subjects(v.tags) :: v);
  }

  lemma {:induction false} SubjectIsTrimmed(tag: string)
    requires IsReferrerTag(tag)
    ensures Trim(SubjectOf(tag)) == SubjectOf(tag) && Trim(" " + SubjectOf(tag)) == SubjectOf(tag)
  {
    var d := SubjectOf(tag);
    assert d[|d| - 1] == tag[70];
    assert (" " + d)[1..] == d;
  }

  lemma {:induction false} SelfChain(digest: string, v: Version, k: nat)
    requires digest != "" && Trim(v.name) == digest && v.name != digest
    ensures UntrimmedChain(map[digest := v], digest, k)
    decreases k
  {
    if k > 0 {
      SelfChain(digest, v, k - 1);
    }
  }

  /**
   * The condition is needed: a tagged version whose name has a leading space, and which also
   * carries the referrer tag of its own digest, marks itself forever.
   */
  lemma SelfReferrerRuns(v: Version, tag: string, other: string)
    requires v.tags == [tag, other] && IsReferrerTag(tag) && !IsReferrerTag(other)
    requires v.name == " " + SubjectOf(tag)
    ensures IsRoot(v) && !Conflicting([v]) && !Ends(Referrers([v]), {}, Trim(v.name))
  {
    OnlyReferrer(v, tag, other);
    SubjectIsTrimmed(tag);
    forall k: nat ensures Running(Referrers([v]), {}, Trim(v.name), k) {
      SelfChain(SubjectOf(tag), v, k);
      ChainRuns(Referrers([v]), {}, Trim(v.name), k);
    }
  }
}
