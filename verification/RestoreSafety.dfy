// What holds in every run of the submission protocol.

module RestoreSafety {
  import opened Options
  import opened RestoreRequest
  import opened RestoreProtocol

  /** A run: `trace[i]` becomes `trace[i + 1]` by `actions[i]`. */
  ghost predicate IsRun(h: Digest, trace: seq<State>, actions: seq<Action>)
  {
    && |trace| == |actions| + 1 && Init(trace[0])
    && forall i {:trigger actions[i]} :: 0 <= i < |actions| ==> Next(h, trace[i], actions[i], trace[i + 1])
  }

  lemma {:induction false} RunInv(h: Digest, trace: seq<State>, actions: seq<Action>, n: nat)
    requires IsRun(h, trace, actions) && n < |trace|
    ensures Inv(h, trace[n])
    decreases n
  {
    if n > 0 {
      RunInv(h, trace, actions, n - 1);
      NextKeeps(h, trace[n - 1], actions[n - 1], trace[n]);
    }
  }

  /** At most one snapshot is ever submitted for a restore request. */
  lemma AtMostOneSubmission(h: Digest, trace: seq<State>, actions: seq<Action>, n: nat, i: nat, j: nat)
    requires IsRun(h, trace, actions) && n < |trace| && i < j < |trace[n].posts|
    ensures trace[n].posts[i].requestUID != trace[n].posts[j].requestUID
  {
    RunInv(h, trace, actions, n);
    var s := trace[n];
    var p, q := s.posts[i], s.posts[j];
    assert PostOk(s, p) && PostOk(s, q) && p.pid != q.pid;
    assert !SameClaim(s.executors[p.pid], s.executors[q.pid]);
  }

  // ----- every submission was claimed

  /** The claim of `e` is stored in the request that it is for. */
  ghost predicate ClaimStored(h: Digest, s: State, e: Executor)
  {
    s.slot.Some? && s.slot.value.uid == e.requestUID && s.slot.value.claim == Some(ClaimOf(h, e))
  }

  /** A process that holds a claim held it before, or stored it in this very step. */
  ghost predicate HolderEvolves(h: Digest, s: State, s': State, pid: Pid)
    requires pid in s'.executors
  {
    var e := s'.executors[pid];
    || (pid in s.executors && HasClaimed(s.executors[pid]) && s.executors[pid] == e.(at := s.executors[pid].at))
    || (e.at == Acknowledged && ClaimStored(h, s', e))
  }

  lemma ProcessHolder(h: Digest, s: State, p: Pid, s': State, pid: Pid)
    requires ProcessChange(h, s, p, s') && pid in s'.executors && HasClaimed(s'.executors[pid])
    ensures HolderEvolves(h, s, s', pid)
  {}

  lemma HolderStep(h: Digest, s: State, a: Action, s': State, pid: Pid)
    requires Inv(h, s) && Next(h, s, a, s') && pid in s'.executors && HasClaimed(s'.executors[pid])
    ensures HolderEvolves(h, s, s', pid)
  {
    match a
    case Outside(event) => OutsideChanges(s, event, s');
    case Process(p, step) =>
      ProcessChanges(h, s, p, step, s');
      ProcessHolder(h, s, p, s', pid);
  }

  /** The state of the run in which the claim was stored. */
  lemma {:induction false} ClaimWasStored(h: Digest, trace: seq<State>, actions: seq<Action>, n: nat, pid: Pid)
    returns (m: nat)
    requires IsRun(h, trace, actions) && n < |trace|
    requires pid in trace[n].executors && HasClaimed(trace[n].executors[pid])
    ensures m <= n && pid in trace[m].executors && trace[m].executors[pid].at == Acknowledged
    ensures trace[n].executors[pid] == trace[m].executors[pid].(at := trace[n].executors[pid].at)
    ensures ClaimStored(h, trace[m], trace[m].executors[pid])
    decreases n
  {
    assert Init(trace[0]);
    RunInv(h, trace, actions, n - 1);
    assert Next(h, trace[n - 1], actions[n - 1], trace[n]);
    HolderStep(h, trace[n - 1], actions[n - 1], trace[n], pid);
    if trace[n].executors[pid].at == Acknowledged && ClaimStored(h, trace[n], trace[n].executors[pid]) {
      m := n;
    } else {
      m := ClaimWasStored(h, trace, actions, n - 1, pid);
    }
  }

  /** What the request said when this submission was claimed. */
  predicate Claims(h: Digest, r: Request, post: Post)
  {
    r.uid == post.requestUID && r.claim == Some(Claim(post.podUID, post.target, h(post.bytes), |post.bytes|))
  }

  /**
   * Every submission, also one made after its request is gone: some earlier state of the run
   * held the request with a claim by the submitting Pod, for the process it submitted to and
   * for bytes of the submitted digest and size.  While the request exists its claim is that
   * one.  The Job of the submission owns the Pod.
   */
  lemma SubmissionMatchesClaim(h: Digest, trace: seq<State>, actions: seq<Action>, n: nat, post: Post) returns (m: nat)
    requires IsRun(h, trace, actions) && n < |trace| && post in trace[n].posts
    ensures m <= n && trace[m].slot.Some? && Claims(h, trace[m].slot.value, post)
    ensures trace[n].slot.Some? && trace[n].slot.value.uid == post.requestUID ==> Claims(h, trace[n].slot.value, post)
    ensures post.podUID in trace[n].owners && trace[n].owners[post.podUID] == post.job
  {
    RunInv(h, trace, actions, n);
    PostIsSubmitted(trace[n], post);
    m := ClaimWasStored(h, trace, actions, n, post.pid);
  }

  lemma PostIsSubmitted(s: State, post: Post)
    requires PostsOk(s) && post in s.posts
    ensures Is(s, post.pid, Submitted)
    ensures var e := s.executors[post.pid];
      post == Post(post.pid, e.requestUID, e.podUID, e.job, e.target, e.bytes)
  {
    var i :| 0 <= i < |s.posts| && s.posts[i] == post;
    assert PostOk(s, post);
  }

  // ----- a claim without a live holder

  /** The request is claimed or gone, and no process holds an acknowledged, unused claim on it. */
  ghost predicate Orphaned(s: State, u: UID)
  {
    && u in s.uids
    && (s.slot.Some? && s.slot.value.uid == u ==> s.slot.value.claim.Some?)
    && (forall p :: p in s.executors && s.executors[p].at == Acknowledged ==> s.executors[p].requestUID != u)
  }

  function PostsFor(posts: seq<Post>, u: UID): seq<Post>
  {
    if posts == [] then []
    else PostsFor(posts[..|posts| - 1], u) + (if posts[|posts| - 1].requestUID == u then [posts[|posts| - 1]] else [])
  }

  /** What one step can do to the stored request. */
  ghost predicate SlotEvolves(s: State, s': State)
  {
    && s.uids <= s'.uids
    && (s'.slot.Some? ==>
          || (s.slot.Some? && Admitted(s.slot.value, s'.slot.value))
          || s'.slot.value.uid !in s.uids)
  }

  /** A process gains an acknowledged claim only on a request that had none. */
  ghost predicate ClaimsEvolve(s: State, s': State)
  {
    forall p :: p in s'.executors && s'.executors[p].at == Acknowledged ==>
      || (p in s.executors && s.executors[p] == s'.executors[p])
      || (s.slot.Some? && s.slot.value.uid == s'.executors[p].requestUID && s.slot.value.claim.None?)
  }

  ghost predicate PostsEvolve(s: State, s': State)
  {
    || s'.posts == s.posts
    || (&& |s'.posts| == |s.posts| + 1 && s'.posts[..|s.posts|] == s.posts
        && exists p :: Is(s, p, Acknowledged) && s'.posts[|s.posts|].requestUID == s.executors[p].requestUID)
  }

  lemma SlotStep(h: Digest, s: State, a: Action, s': State)
    requires Inv(h, s) && Next(h, s, a, s')
    ensures SlotEvolves(s, s')
  {
    match a
    case Outside(event) => OutsideChanges(s, event, s');
    case Process(pid, step) => ProcessChanges(h, s, pid, step, s');
  }

  lemma ProcessClaims(h: Digest, s: State, pid: Pid, s': State)
    requires ProcessChange(h, s, pid, s')
    ensures ClaimsEvolve(s, s')
  {}

  lemma ClaimStep(h: Digest, s: State, a: Action, s': State)
    requires Inv(h, s) && Next(h, s, a, s')
    ensures ClaimsEvolve(s, s')
  {
    match a
    case Outside(event) => OutsideChanges(s, event, s');
    case Process(pid, step) =>
      ProcessChanges(h, s, pid, step, s');
      ProcessClaims(h, s, pid, s');
  }

  lemma PostStep(h: Digest, s: State, a: Action, s': State)
    requires Next(h, s, a, s')
    ensures PostsEvolve(s, s')
  {
    if a.Process? && a.step == Submit {
      assert Is(s, a.pid, Acknowledged);
      assert s'.posts[..|s.posts|] == s.posts;
    }
  }

  lemma OrphanKept(s: State, s': State, u: UID)
    requires Orphaned(s, u) && SlotEvolves(s, s') && ClaimsEvolve(s, s') && PostsEvolve(s, s')
    ensures Orphaned(s', u) && PostsFor(s'.posts, u) == PostsFor(s.posts, u)
  {
  }

  /** One step of a run, summarised. */
  lemma RunStep(h: Digest, trace: seq<State>, actions: seq<Action>, n: nat)
    requires IsRun(h, trace, actions) && n + 1 < |trace|
    ensures SlotEvolves(trace[n], trace[n + 1])
    ensures ClaimsEvolve(trace[n], trace[n + 1])
    ensures PostsEvolve(trace[n], trace[n + 1])
  {
    RunInv(h, trace, actions, n);
    SlotStep(h, trace[n], actions[n], trace[n + 1]);
    ClaimStep(h, trace[n], actions[n], trace[n + 1]);
    PostStep(h, trace[n], actions[n], trace[n + 1]);
  }

  /** Once a claim is stored and its holder is gone, nothing is ever submitted again. */
  lemma {:induction false} OrphanNeverSubmits(h: Digest, trace: seq<State>, actions: seq<Action>, n: nat, m: nat, u: UID)
    requires IsRun(h, trace, actions) && n <= m < |trace| && Orphaned(trace[n], u)
    ensures Orphaned(trace[m], u) && PostsFor(trace[m].posts, u) == PostsFor(trace[n].posts, u)
    decreases m - n
  {
    if n < m {
      OrphanNeverSubmits(h, trace, actions, n, m - 1, u);
      RunStep(h, trace, actions, m - 1);
      OrphanKept(trace[m - 1], trace[m], u);
    }
  }

  /** A process that stops after its claim was stored leaves an orphaned claim behind. */
  lemma CrashAfterClaimOrphans(h: Digest, trace: seq<State>, actions: seq<Action>, n: nat, pid: Pid)
    requires IsRun(h, trace, actions) && n + 1 < |trace|
    requires actions[n] == Process(pid, Stop) && Is(trace[n], pid, Acknowledged)
    ensures Orphaned(trace[n + 1], trace[n].executors[pid].requestUID)
  {
    RunInv(h, trace, actions, n);
    var s, s' := trace[n], trace[n + 1];
    assert Next(h, s, actions[n], s');
    forall p | p in s'.executors && s'.executors[p].at == Acknowledged
      ensures s'.executors[p].requestUID != s.executors[pid].requestUID
    {
      assert p != pid && !SameClaim(s.executors[p], s.executors[pid]);
    }
  }

  /** So does a claim whose acknowledgement is lost. */
  lemma LostAcknowledgementOrphans(h: Digest, trace: seq<State>, actions: seq<Action>, n: nat, pid: Pid)
    requires IsRun(h, trace, actions) && n + 1 < |trace|
    requires actions[n] == Process(pid, WriteClaim(false)) && trace[n + 1].version != trace[n].version
    ensures Orphaned(trace[n + 1], trace[n].executors[pid].requestUID)
  {
    RunInv(h, trace, actions, n);
    RunInv(h, trace, actions, n + 1);
    var s, s' := trace[n], trace[n + 1];
    assert Next(h, s, actions[n], s');
    assert CopyOk(s, s.executors[pid].copy.value);
    assert s.slot.value.claim.None?;
  }

  /** A stored claim never changes while its request exists. */
  lemma {:induction false} ClaimIsPermanent(h: Digest, trace: seq<State>, actions: seq<Action>, n: nat, m: nat, u: UID, c: Claim)
    requires IsRun(h, trace, actions) && n <= m < |trace|
    requires trace[n].slot.Some? && trace[n].slot.value.uid == u && trace[n].slot.value.claim == Some(c)
    ensures trace[m].slot.Some? && trace[m].slot.value.uid == u ==> trace[m].slot.value.claim == Some(c)
    decreases m - n
  {
    UidIsKnown(h, trace, actions, n, m, u);
    if n < m {
      ClaimIsPermanent(h, trace, actions, n, m - 1, u, c);
      UidIsKnown(h, trace, actions, n, m - 1, u);
      RunStep(h, trace, actions, m - 1);
    }
  }

  lemma {:induction false} UidIsKnown(h: Digest, trace: seq<State>, actions: seq<Action>, n: nat, m: nat, u: UID)
    requires IsRun(h, trace, actions) && n <= m < |trace|
    requires trace[n].slot.Some? && trace[n].slot.value.uid == u
    ensures u in trace[m].uids
    decreases m - n
  {
    if n == m {
      RunInv(h, trace, actions, n);
    } else {
      UidIsKnown(h, trace, actions, n, m - 1, u);
      RunStep(h, trace, actions, m - 1);
    }
  }
}
