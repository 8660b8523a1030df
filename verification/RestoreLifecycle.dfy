// Runs in which only the controller and the executors write the request: the recorded
// Job, the expected snapshot, and the promise behind "no snapshot was submitted".

module RestoreLifecycle {
  import opened RestoreRequest
  import opened RestoreProtocol
  import opened RestoreSafety

  ghost predicate IsControlledRun(h: Digest, trace: seq<State>, actions: seq<Action>)
  {
    IsRun(h, trace, actions)
    && forall i {:trigger actions[i]} :: 0 <= i < |actions| ==> !(actions[i].Outside? && actions[i].event.ForeignWrite?)
  }

  predicate MatchesExpectation(r: Request, c: Claim)
  {
    (r.expectedDigest != "" ==> r.expectedDigest == c.digest) && (r.expectedSize != 0 ==> r.expectedSize == c.size)
  }

  predicate Sound(r: Request)
  {
    WellFormed(r) && (r.claim.Some? ==> MatchesExpectation(r, r.claim.value))
  }

  /** How a stored request may evolve while it exists. */
  ghost predicate Kept(r: Request, r': Request)
  {
    && r'.uid == r.uid && Sound(r')
    && KeepsJob(r, r')
  }

  ghost predicate SlotKept(s: State, s': State)
  {
    && s.uids <= s'.uids
    && (s'.slot.Some? ==>
          || (s.slot.Some? && Kept(s.slot.value, s'.slot.value))
          || (s'.slot.value.uid !in s.uids && Sound(s'.slot.value)))
  }

  lemma ControlledSlotStep(h: Digest, s: State, a: Action, s': State)
    requires Inv(h, s) && Next(h, s, a, s') && !(a.Outside? && a.event.ForeignWrite?)
    requires s.slot.Some? ==> Sound(s.slot.value)
    ensures SlotKept(s, s')
  {
    match a
    case Outside(event) => ControlledOutsideSlot(s, event, s');
    case Process(pid, step) =>
      ProcessChanges(h, s, pid, step, s');
      ProcessSlot(h, s, pid, s');
  }

  lemma ControlledOutsideSlot(s: State, event: Event, s': State)
    requires ReadsOk(s) && OutsideStep(s, event, s') && !event.ForeignWrite?
    requires s.slot.Some? ==> Sound(s.slot.value)
    ensures SlotKept(s, s')
  {
    if event.ControllerWrite? {
      assert CopyOk(s, event.copy);
      if s.slot.Some? && event.copy.version == s.version {
        WriteKeepsSound(event.copy.request, event.facts, event.write);
      }
    }
  }

  lemma ProcessSlot(h: Digest, s: State, pid: Pid, s': State)
    requires ProcessChange(h, s, pid, s') && (s.slot.Some? ==> Sound(s.slot.value))
    ensures SlotKept(s, s')
  {}

  lemma WriteKeepsSound(r: Request, f: Facts, w: Write)
    requires Sound(r) && Allowed(r, f, w)
    ensures Kept(r, Stored(r, f, w))
  {
    WriteKeeps(r, f, w);
    assert Stored(r, f, w).expectedDigest == r.expectedDigest && Stored(r, f, w).expectedSize == r.expectedSize;
  }

  // ----- the recorded Job

  predicate IsBound(e: Executor)
  {
    e.at in {Bound, Verified, Reading, Acknowledged, Submitted}
  }

  ghost predicate JobRecorded(s: State, e: Executor)
  {
    && e.requestUID in s.uids && e.job != ""
    && (s.slot.Some? && s.slot.value.uid == e.requestUID ==>
          s.slot.value.execution.Some? && s.slot.value.execution.value.jobUID == e.job)
  }

  ghost predicate ControlledInv(s: State)
  {
    && (s.slot.Some? ==> Sound(s.slot.value))
    && forall p :: p in s.executors && IsBound(s.executors[p]) ==> JobRecorded(s, s.executors[p])
  }

  /** A process becomes bound only by reading its own Job UID from the request. */
  ghost predicate BindingEvolves(s: State, s': State)
  {
    forall p :: p in s'.executors && IsBound(s'.executors[p]) ==>
      var e := s'.executors[p];
      || (p in s.executors && IsBound(s.executors[p])
          && s.executors[p].requestUID == e.requestUID && s.executors[p].job == e.job)
      || (s.slot.Some? && s.slot == s'.slot && JobMatches(s.slot.value, e))
  }

  /** What a process that moves is bound to stays, or is read from a request that stays. */
  ghost predicate BindingMove(s: State, pid: Pid, e: Executor, slotStays: bool)
  {
    IsBound(e) ==>
      || (pid in s.executors && IsBound(s.executors[pid])
          && s.executors[pid].requestUID == e.requestUID && s.executors[pid].job == e.job)
      || (slotStays && s.slot.Some? && JobMatches(s.slot.value, e))
  }

  lemma ProcessMoves(h: Digest, s: State, pid: Pid, step: Step, s': State)
    requires ExecutorStep(h, s, pid, step, s')
    ensures pid in s'.executors && s'.executors == s.executors[pid := s'.executors[pid]]
    ensures BindingMove(s, pid, s'.executors[pid], s'.slot == s.slot)
  {}

  lemma BindingMoves(s: State, pid: Pid, s': State)
    requires pid in s'.executors && s'.executors == s.executors[pid := s'.executors[pid]]
    requires BindingMove(s, pid, s'.executors[pid], s'.slot == s.slot)
    ensures BindingEvolves(s, s')
  {}

  lemma OutsideMovesNobody(s: State, event: Event, s': State)
    requires OutsideStep(s, event, s')
    ensures s'.executors == s.executors
  {}

  lemma ProcessBinding(h: Digest, s: State, pid: Pid, step: Step, s': State)
    requires ExecutorStep(h, s, pid, step, s')
    ensures BindingEvolves(s, s')
  {
    ProcessMoves(h, s, pid, step, s');
    BindingMoves(s, pid, s');
  }

  lemma BindingStep(h: Digest, s: State, a: Action, s': State)
    requires Next(h, s, a, s')
    ensures BindingEvolves(s, s')
  {
    match a
    case Outside(event) => OutsideMovesNobody(s, event, s');
    case Process(pid, step) => ProcessBinding(h, s, pid, step, s');
  }

  lemma ControlledKept(s: State, s': State)
    requires ControlledInv(s) && SlotKept(s, s') && BindingEvolves(s, s')
    requires s.slot.Some? ==> s.slot.value.uid in s.uids
    ensures ControlledInv(s')
  {}

  lemma ControlledRunStep(h: Digest, trace: seq<State>, actions: seq<Action>, n: nat)
    requires IsControlledRun(h, trace, actions) && n + 1 < |trace| && ControlledInv(trace[n])
    ensures SlotKept(trace[n], trace[n + 1]) && ControlledInv(trace[n + 1])
  {
    RunInv(h, trace, actions, n);
    assert Next(h, trace[n], actions[n], trace[n + 1]);
    ControlledStep(h, trace[n], actions[n], trace[n + 1]);
  }

  lemma ControlledStep(h: Digest, s: State, a: Action, s': State)
    requires Inv(h, s) && Next(h, s, a, s') && !(a.Outside? && a.event.ForeignWrite?) && ControlledInv(s)
    ensures SlotKept(s, s') && ControlledInv(s')
  {
    ControlledSlotStep(h, s, a, s');
    BindingStep(h, s, a, s');
    ControlledKept(s, s');
  }

  lemma {:induction false} ControlledRunInv(h: Digest, trace: seq<State>, actions: seq<Action>, n: nat)
    requires IsControlledRun(h, trace, actions) && n < |trace|
    ensures ControlledInv(trace[n])
    decreases n
  {
    if n == 0 {
      assert trace[0].slot.None?;
    } else {
      ControlledRunInv(h, trace, actions, n - 1);
      ControlledRunStep(h, trace, actions, n - 1);
    }
  }

  /** The request records the Job of the submission and expects no other snapshot. */
  predicate Expects(h: Digest, r: Request, post: Post)
  {
    && r.execution.Some? && r.execution.value.jobUID == post.job
    && r.expectedDigest in {"", h(post.bytes)} && r.expectedSize in {0, |post.bytes|}
  }

  lemma ClaimedIsExpected(h: Digest, s: State, e: Executor, post: Post)
    requires ControlledInv(s) && JobRecorded(s, e) && e.job == post.job && e.requestUID == post.requestUID
    requires s.slot.Some? && Claims(h, s.slot.value, post)
    ensures Expects(h, s.slot.value, post)
  {}

  /**
   * Every submission, also one made after its request is gone: when it was claimed, the request
   * recorded the Job of the submission as its Job and expected those bytes; and it still does
   * while it exists.
   */
  lemma SubmissionByRecordedJob(h: Digest, trace: seq<State>, actions: seq<Action>, n: nat, post: Post) returns (m: nat)
    requires IsControlledRun(h, trace, actions) && n < |trace| && post in trace[n].posts
    ensures m <= n && trace[m].slot.Some? && Claims(h, trace[m].slot.value, post)
    ensures Expects(h, trace[m].slot.value, post)
    ensures trace[n].slot.Some? && trace[n].slot.value.uid == post.requestUID ==> Expects(h, trace[n].slot.value, post)
  {
    RunInv(h, trace, actions, n);
    PostIsSubmitted(trace[n], post);
    ControlledRunInv(h, trace, actions, n);
    var _ := SubmissionMatchesClaim(h, trace, actions, n, post);
    m := ClaimWasStored(h, trace, actions, n, post.pid);
    ControlledRunInv(h, trace, actions, m);
    ClaimedIsExpected(h, trace[m], trace[m].executors[post.pid], post);
    if trace[n].slot.Some? && trace[n].slot.value.uid == post.requestUID {
      ClaimedIsExpected(h, trace[n], trace[n].executors[post.pid], post);
    }
  }

  /** A recorded Job UID is never replaced. */
  lemma {:induction false} JobUidIsWriteOnce(h: Digest, trace: seq<State>, actions: seq<Action>, n: nat, m: nat, u: UID, job: UID)
    requires IsControlledRun(h, trace, actions) && n <= m < |trace| && job != ""
    requires trace[n].slot.Some? && trace[n].slot.value.uid == u
    requires trace[n].slot.value.execution.Some? && trace[n].slot.value.execution.value.jobUID == job
    ensures trace[m].slot.Some? && trace[m].slot.value.uid == u ==>
      trace[m].slot.value.execution.Some? && trace[m].slot.value.execution.value.jobUID == job
    decreases m - n
  {
    if n < m {
      JobUidIsWriteOnce(h, trace, actions, n, m - 1, u, job);
      UidIsKnown(h, trace, actions, n, m - 1, u);
      ControlledRunInv(h, trace, actions, m - 1);
      ControlledRunStep(h, trace, actions, m - 1);
    }
  }

  // ----- excluded submissions

  /** The request can no longer be claimed, or is gone unclaimed. */
  ghost predicate Closed(s: State, u: UID)
  {
    && u in s.uids
    && (s.slot.Some? && s.slot.value.uid == u ==> ClosedToClaims(s.slot.value))
    && (forall p :: p in s.executors && HasClaimed(s.executors[p]) ==> s.executors[p].requestUID != u)
  }

  /** A claim is only ever gained on a request that is open to claims. */
  ghost predicate ClaimedOpenly(s: State, s': State)
  {
    forall p :: p in s'.executors && HasClaimed(s'.executors[p]) ==>
      var e := s'.executors[p];
      || (p in s.executors && HasClaimed(s.executors[p]) && s.executors[p].requestUID == e.requestUID)
      || (s.slot.Some? && s.slot.value.uid == e.requestUID && !ClosedToClaims(s.slot.value))
  }

  lemma AcceptedIsOpen(r: Request, requestUID: UID, c: Claim)
    requires ClaimAccepted(r, requestUID, c)
    ensures r.uid == requestUID && !ClosedToClaims(r)
  {}

  lemma ProcessClaimsOpenly(h: Digest, s: State, pid: Pid, s': State)
    requires ProcessChange(h, s, pid, s')
    ensures ClaimedOpenly(s, s')
  {
    if ClaimLands(h, s, pid, true, s') {
      AcceptedIsOpen(s.slot.value, s.executors[pid].requestUID, ClaimOf(h, s.executors[pid]));
    }
  }

  lemma ClaimedOpenlyStep(h: Digest, s: State, a: Action, s': State)
    requires Inv(h, s) && Next(h, s, a, s')
    ensures ClaimedOpenly(s, s')
  {
    match a
    case Outside(event) => OutsideChanges(s, event, s');
    case Process(pid, step) =>
      ProcessChanges(h, s, pid, step, s');
      ProcessClaimsOpenly(h, s, pid, s');
  }

  /** A write by somebody else that opens a closed request to claims again. */
  predicate Reopens(s: State, a: Action)
  {
    && a.Outside? && a.event.ForeignWrite? && s.slot.Some?
    && ClosedToClaims(s.slot.value) && !ClosedToClaims(a.event.request)
  }

  /** Whoever else writes the request with this UID leaves it closed once it is. */
  ghost predicate NeverReopened(trace: seq<State>, actions: seq<Action>, u: UID)
    requires |trace| == |actions| + 1
  {
    forall i {:trigger actions[i]} :: 0 <= i < |actions| && trace[i].slot.Some? && trace[i].slot.value.uid == u ==>
      !Reopens(trace[i], actions[i])
  }

  lemma ClosedOutside(s: State, event: Event, s': State)
    requires ReadsOk(s) && OutsideStep(s, event, s') && !Reopens(s, Outside(event))
    requires s.slot.Some? && ClosedToClaims(s.slot.value)
    ensures s'.slot.Some? ==> s'.slot.value.uid == s.slot.value.uid && ClosedToClaims(s'.slot.value)
  {
    if event.ControllerWrite? {
      assert CopyOk(s, event.copy);
      if event.copy.version == s.version {
        ClosedStaysClosed(event.copy.request, event.facts, event.write);
      }
    }
  }

  lemma ClosedProcess(h: Digest, s: State, pid: Pid, s': State)
    requires ProcessChange(h, s, pid, s') && s.slot.Some? && ClosedToClaims(s.slot.value)
    ensures s'.slot == s.slot
  {
    assert forall e, c :: !ClaimAccepted(s.slot.value, e, c);
  }

  lemma ClosedSlotStep(h: Digest, s: State, a: Action, s': State)
    requires Inv(h, s) && Next(h, s, a, s') && !Reopens(s, a)
    requires s.slot.Some? && ClosedToClaims(s.slot.value)
    ensures s'.slot.Some? ==> s'.slot.value.uid == s.slot.value.uid && ClosedToClaims(s'.slot.value)
  {
    match a
    case Outside(event) => ClosedOutside(s, event, s');
    case Process(pid, step) =>
      ProcessChanges(h, s, pid, step, s');
      ClosedProcess(h, s, pid, s');
  }

  lemma ClosedStep(h: Digest, s: State, a: Action, s': State, u: UID)
    requires Inv(h, s) && Next(h, s, a, s') && Closed(s, u)
    requires s.slot.Some? && s.slot.value.uid == u ==> !Reopens(s, a)
    ensures Closed(s', u)
  {
    ClaimedOpenlyStep(h, s, a, s');
    SlotStep(h, s, a, s');
    if s.slot.Some? && s.slot.value.uid == u {
      ClosedSlotStep(h, s, a, s');
    }
  }

  lemma {:induction false} ClosedStays(h: Digest, trace: seq<State>, actions: seq<Action>, n: nat, m: nat, u: UID)
    requires IsRun(h, trace, actions) && NeverReopened(trace, actions, u)
    requires n <= m < |trace| && Closed(trace[n], u)
    ensures Closed(trace[m], u)
    decreases m - n
  {
    if n < m {
      ClosedStays(h, trace, actions, n, m - 1, u);
      RunInv(h, trace, actions, m - 1);
      assert Next(h, trace[m - 1], actions[m - 1], trace[m]);
      ClosedStep(h, trace[m - 1], actions[m - 1], trace[m], u);
    }
  }

  lemma ClosedHasNoPosts(h: Digest, trace: seq<State>, actions: seq<Action>, n: nat, u: UID)
    requires IsRun(h, trace, actions) && n < |trace| && Closed(trace[n], u)
    ensures forall post :: post in trace[n].posts ==> post.requestUID != u
  {
    RunInv(h, trace, actions, n);
    var s := trace[n];
    forall post | post in s.posts ensures post.requestUID != u {
      var i :| 0 <= i < |s.posts| && s.posts[i] == post;
      assert PostOk(s, post);
    }
  }

  lemma {:induction false} PostsOnlyGrow(h: Digest, trace: seq<State>, actions: seq<Action>, n: nat, m: nat, post: Post)
    requires IsRun(h, trace, actions) && n <= m < |trace| && post in trace[n].posts
    ensures post in trace[m].posts
    decreases m - n
  {
    if n < m {
      PostsOnlyGrow(h, trace, actions, n, m - 1, post);
      RunStep(h, trace, actions, m - 1);
    }
  }

  /**
   * A request without a claim that is being deleted or has left the Running phase, and that
   * nobody else puts back: no snapshot was submitted before and none ever will be.
   * restoreSubmissionExcluded on a failed or deleting request is a special case, and what lets
   * the controller release the target.
   */
  lemma ExcludedNeverSubmits(h: Digest, trace: seq<State>, actions: seq<Action>, n: nat, m: nat, post: Post)
    requires IsRun(h, trace, actions) && n < |trace| && m < |trace|
    requires trace[n].slot.Some? && ClosedToClaims(trace[n].slot.value)
    requires NeverReopened(trace, actions, trace[n].slot.value.uid)
    requires post in trace[m].posts
    ensures post.requestUID != trace[n].slot.value.uid
  {
    var u := trace[n].slot.value.uid;
    RunInv(h, trace, actions, n);
    assert Closed(trace[n], u);
    if n <= m {
      ClosedStays(h, trace, actions, n, m, u);
      ClosedHasNoPosts(h, trace, actions, m, u);
    } else {
      ClosedHasNoPosts(h, trace, actions, n, u);
      PostsOnlyGrow(h, trace, actions, m, n, post);
    }
  }

  /** Whatever made the request Failed: without a claim, nothing was or will be submitted. */
  lemma FailedUnclaimedNeverSubmits(h: Digest, trace: seq<State>, actions: seq<Action>, n: nat, m: nat, post: Post)
    requires IsRun(h, trace, actions) && n < |trace| && m < |trace| && post in trace[m].posts
    requires trace[n].slot.Some? && trace[n].slot.value.phase == Failed && trace[n].slot.value.claim.None?
    requires NeverReopened(trace, actions, trace[n].slot.value.uid)
    ensures post.requestUID != trace[n].slot.value.uid
  {
    ExcludedNeverSubmits(h, trace, actions, n, m, post);
  }

  /** Failing a restore outside target cleanup is the truth: nothing was or will be submitted. */
  lemma FailedNeverSubmits(h: Digest, trace: seq<State>, actions: seq<Action>, n: nat, copy: Copy, facts: Facts, m: nat, post: Post)
    requires IsControlledRun(h, trace, actions) && n + 1 < |trace| && m < |trace|
    requires actions[n] == Outside(ControllerWrite(copy, facts, Fail)) && trace[n + 1].version != trace[n].version
    requires post in trace[m].posts
    ensures post.requestUID != copy.request.uid
  {
    RunInv(h, trace, actions, n);
    assert Next(h, trace[n], actions[n], trace[n + 1]);
    ControlledRunInv(h, trace, actions, n);
    assert CopyOk(trace[n], copy);
    FailCloses(copy.request, facts);
    ExcludedNeverSubmits(h, trace, actions, n + 1, m, post);
  }
}
