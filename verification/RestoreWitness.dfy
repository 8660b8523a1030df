// Runs of the protocol that end in a POST: the promises are neither empty nor stronger than stated.

module RestoreWitness {
  import opened Options
  import opened RestoreRequest
  import opened RestoreProtocol
  import opened RestoreSafety
  import opened RestoreLifecycle

  datatype Run = Run(trace: seq<State>, actions: seq<Action>)

  ghost predicate Controlled(h: Digest, run: Run)
  {
    IsControlledRun(h, run.trace, run.actions)
  }

  function Last(run: Run): State
    requires run.trace != []
  {
    run.trace[|run.trace| - 1]
  }

  /** `longer` goes on where `run` ends, and is controlled if `run` is. */
  ghost predicate Continues(h: Digest, run: Run, longer: Run)
  {
    && IsRun(h, longer.trace, longer.actions) && run.trace <= longer.trace
    && (Controlled(h, run) ==> Controlled(h, longer))
  }

  lemma LongerRun(h: Digest, run: Run, a: Action, s: State) returns (longer: Run)
    requires IsRun(h, run.trace, run.actions) && Next(h, Last(run), a, s)
    ensures longer == Run(run.trace + [s], run.actions + [a]) && IsRun(h, longer.trace, longer.actions)
  {
    longer := Run(run.trace + [s], run.actions + [a]);
    forall i {:trigger longer.actions[i]} | 0 <= i < |longer.actions|
      ensures Next(h, longer.trace[i], longer.actions[i], longer.trace[i + 1])
    {
      if i < |run.actions| {
        assert longer.actions[i] == run.actions[i];
        assert longer.trace[i] == run.trace[i] && longer.trace[i + 1] == run.trace[i + 1];
      }
    }
  }

  lemma Extend(h: Digest, run: Run, a: Action, s: State) returns (longer: Run)
    requires IsRun(h, run.trace, run.actions) && Next(h, Last(run), a, s) && !(a.Outside? && a.event.ForeignWrite?)
    ensures Continues(h, run, longer) && Last(longer) == s
  {
    longer := LongerRun(h, run, a, s);
    if Controlled(h, run) {
      forall i {:trigger longer.actions[i]} | 0 <= i < |longer.actions|
        ensures !(longer.actions[i].Outside? && longer.actions[i].event.ForeignWrite?)
      {
        if i < |run.actions| {
          assert longer.actions[i] == run.actions[i];
        }
      }
    }
  }

  /** A process takes one step that changes nothing but the process. */
  lemma Advance(h: Digest, run: Run, pid: Pid, step: Step, e: Executor) returns (longer: Run)
    requires IsRun(h, run.trace, run.actions) && ExecutorStep(h, Last(run), pid, step, Move(Last(run), pid, e))
    ensures Continues(h, run, longer) && Last(longer) == Move(Last(run), pid, e)
  {
    longer := Extend(h, run, Process(pid, step), Move(Last(run), pid, e));
  }

  /** The controller reads the request and writes it back. */
  lemma Reconcile(h: Digest, run: Run, facts: Facts, write: Write, r: Request) returns (longer: Run)
    requires Controlled(h, run) && Last(run).slot.Some? && Allowed(Last(run).slot.value, facts, write)
    requires Stored(Last(run).slot.value, facts, write) == r
    ensures Controlled(h, longer) && Last(longer).slot == Some(r)
    ensures Last(longer) == Last(run).(slot := Some(r), version := Last(longer).version, copies := Last(longer).copies)
  {
    var s := Last(run);
    var copy := Copy(s.slot.value, s.version);
    var read := s.(copies := s.copies + {copy});
    var reading := Extend(h, run, Outside(ControllerRead), read);
    longer := Extend(h, reading, Outside(ControllerWrite(copy, facts, write)), Put(read, r));
  }

  ghost predicate Untouched(s: State)
  {
    s.executors == map[] && s.posts == [] && s.owners == map[]
  }

  function NewRequest(uid: UID, disposable: bool): Request
  {
    Request(uid, false, Pending, None, None, "", 0, disposable, false, "")
  }

  lemma RequestCreated(h: Digest, uid: UID, disposable: bool) returns (run: Run)
    requires uid != ""
    ensures Controlled(h, run) && Untouched(Last(run)) && Last(run).slot == Some(NewRequest(uid, disposable))
  {
    var s := State(0, None, {}, map[], map[], {}, []);
    var r := NewRequest(uid, disposable);
    run := Extend(h, Run([s], []), Outside(CreateRequest(r)), Put(s, r).(uids := {uid}));
  }

  function AtStage(r: Request, stage: Stage, job: UID): Request
  {
    r.(phase := Running, execution := Some(Execution(r.uid, stage, job, "t", NoResult)), targetRecorded := r.disposable)
  }

  function Claimable(uid: UID, job: UID, disposable: bool): Request
  {
    AtStage(NewRequest(uid, disposable), Created, job)
  }

  /** The controller validates a new request, and reserves a fresh target if it is to be disposed of. */
  lemma RequestPrepared(h: Digest, uid: UID, facts: Facts, disposable: bool) returns (run: Run)
    requires uid != ""
    ensures Controlled(h, run) && Untouched(Last(run))
    ensures Last(run).slot == Some(AtStage(NewRequest(uid, disposable), Prepared, ""))
  {
    run := RequestCreated(h, uid, disposable);
    var r := NewRequest(uid, disposable).(phase := Validating);
    run := Reconcile(h, run, facts, StartValidation, r);
    if disposable {
      run := Reconcile(h, run, facts, ReserveTarget, r.(targetRecorded := true));
    }
    run := Reconcile(h, run, facts, Prepare("t"), AtStage(r, Prepared, ""));
  }

  /** What the controller sees while the Job runs lets it commit, and then record the Job. */
  lemma JobWrites(r: Request, job: UID, facts: Facts)
    requires job != "" && facts == Facts(Original, true, Job(job, true, JobRunning), false)
    requires !r.deleting && r.claim.None?
    ensures Allowed(AtStage(r, Prepared, ""), facts, Commit) && Allowed(AtStage(r, Committed, ""), facts, RecordJob)
  {}

  /** The controller takes a new request to a created Job. */
  lemma JobCreated(h: Digest, uid: UID, job: UID, disposable: bool) returns (run: Run)
    requires uid != "" && job != ""
    ensures Controlled(h, run) && Untouched(Last(run))
    ensures Last(run).slot == Some(Claimable(uid, job, disposable))
  {
    var facts := Facts(Original, true, Job(job, true, JobRunning), false);
    var r := NewRequest(uid, disposable);
    JobWrites(r, job, facts);
    run := RequestPrepared(h, uid, facts, disposable);
    run := Reconcile(h, run, facts, Commit, AtStage(r, Committed, ""));
    run := Reconcile(h, run, facts, RecordJob, AtStage(r, Created, job));
  }

  /** A new executor stages and connects. */
  lemma ExecutorConnected(h: Digest, run: Run, uid: UID, pod: UID, job: UID, bytes: Bytes, m: Member) returns (longer: Run)
    requires IsRun(h, run.trace, run.actions) && Untouched(Last(run)) && pod != "" && bytes != []
    ensures Continues(h, run, longer) && Last(longer).slot == Last(run).slot && Last(longer).posts == []
    ensures Last(longer).executors == map[0 := Executor(uid, pod, Connected, bytes, m, "", None)]
    ensures Last(longer).owners == map[pod := job]
  {
    var s := Last(run).(owners := map[pod := job]);
    longer := Extend(h, run, Outside(CreatePod(pod, job)), s);
    var e := Executor(uid, pod, Starting, [], Member("", "", "", ""), "", None);
    longer := Advance(h, longer, 0, Start(uid, pod), e);
    e := e.(at := Staged, bytes := bytes);
    longer := Advance(h, longer, 0, Stage(bytes), e);
    e := e.(at := Connected, target := m);
    longer := Advance(h, longer, 0, Connect(m), e);
  }

  /** It recognises its own Job. */
  lemma ExecutorReady(h: Digest, run: Run, uid: UID, pod: UID, job: UID, bytes: Bytes, m: Member) returns (longer: Run)
    requires IsRun(h, run.trace, run.actions) && Untouched(Last(run)) && pod != "" && bytes != []
    requires Last(run).slot.Some? && JobMatches(Last(run).slot.value, Executor(uid, pod, Owned, bytes, m, job, None))
    ensures Continues(h, run, longer) && Last(longer).slot == Last(run).slot && Last(longer).posts == []
    ensures Last(longer).executors == map[0 := Executor(uid, pod, Verified, bytes, m, job, None)]
  {
    longer := ExecutorConnected(h, run, uid, pod, job, bytes, m);
    var e := Executor(uid, pod, Owned, bytes, m, job, None);
    longer := Advance(h, longer, 0, ReadPod, e);
    longer := Advance(h, longer, 0, MatchJob, e.(at := Bound));
    longer := Advance(h, longer, 0, Recheck(m), e.(at := Verified));
  }

  /** It claims the request. */
  lemma ExecutorClaims(h: Digest, run: Run, uid: UID, pod: UID, job: UID, bytes: Bytes, m: Member, r: Request)
    returns (longer: Run)
    requires IsRun(h, run.trace, run.actions) && Last(run).posts == [] && Last(run).slot == Some(r)
    requires Last(run).executors == map[0 := Executor(uid, pod, Verified, bytes, m, job, None)]
    requires ClaimAccepted(r, uid, Claim(pod, m, h(bytes), |bytes|))
    ensures Continues(h, run, longer) && Last(longer).posts == []
    ensures Last(longer).slot == Some(r.(claim := Some(Claim(pod, m, h(bytes), |bytes|))))
    ensures Is(Last(longer), 0, Acknowledged)
    ensures var e := Last(longer).executors[0];
      e.requestUID == uid && e.podUID == pod && e.job == job && e.target == m && e.bytes == bytes
  {
    var e := Last(run).executors[0].(at := Reading, copy := Some(Copy(r, Last(run).version)));
    longer := Advance(h, run, 0, ReadRequest, e);
    var claimed := Put(Last(longer), r.(claim := Some(ClaimOf(h, e))));
    longer := Extend(h, longer, Process(0, WriteClaim(true)), Move(claimed, 0, e.(at := Acknowledged)));
  }

  /** It claims the request and submits. */
  lemma ExecutorSubmits(h: Digest, run: Run, uid: UID, pod: UID, job: UID, bytes: Bytes, m: Member, disposable: bool)
    returns (longer: Run)
    requires IsRun(h, run.trace, run.actions) && Untouched(Last(run))
    requires uid != "" && pod != "" && job != "" && bytes != [] && Last(run).slot == Some(Claimable(uid, job, disposable))
    ensures Continues(h, run, longer) && Last(longer).posts == [Post(0, uid, pod, job, m, bytes)]
    ensures Last(longer).slot == Some(Claimable(uid, job, disposable).(claim := Some(Claim(pod, m, h(bytes), |bytes|))))
  {
    longer := ExecutorReady(h, run, uid, pod, job, bytes, m);
    longer := ExecutorClaims(h, longer, uid, pod, job, bytes, m, Claimable(uid, job, disposable));
    var s := Last(longer);
    longer := Extend(h, longer, Process(0, Submit),
      Move(s, 0, s.executors[0].(at := Submitted)).(posts := [Post(0, uid, pod, job, m, bytes)]));
  }

  /** Every non-empty snapshot can be submitted for a request that expects none in particular. */
  lemma SomeRunSubmits(h: Digest, uid: UID, pod: UID, job: UID, bytes: Bytes, m: Member, disposable: bool)
    returns (run: Run)
    requires uid != "" && pod != "" && job != "" && bytes != []
    ensures Controlled(h, run) && Last(run).posts == [Post(0, uid, pod, job, m, bytes)]
    ensures Last(run).slot == Some(Claimable(uid, job, disposable).(claim := Some(Claim(pod, m, h(bytes), |bytes|))))
  {
    run := JobCreated(h, uid, job, disposable);
    run := ExecutorSubmits(h, run, uid, pod, job, bytes, m, disposable);
  }

  /**
   * A Failed request is no promise by itself: target cleanup ends a disposable restore as
   * Failed although its snapshot was submitted.  Only the claim tells.
   */
  lemma CleanupCanFailAfterSubmission(h: Digest, uid: UID, pod: UID, job: UID, bytes: Bytes, m: Member)
    returns (run: Run)
    requires uid != "" && pod != "" && job != "" && bytes != []
    ensures Controlled(h, run) && Last(run).posts == [Post(0, uid, pod, job, m, bytes)]
    ensures Last(run).slot.Some? && Last(run).slot.value.uid == uid
    ensures Last(run).slot.value.phase == Failed && Last(run).slot.value.claim.Some?
  {
    run := SomeRunSubmits(h, uid, pod, job, bytes, m, true);
    var s := Last(run);
    run := Extend(h, run, Outside(BeginDeletion), Put(s, s.slot.value.(deleting := true)));
    var r := Last(run).slot.value;
    run := Reconcile(h, run, Facts(Original, true, NoJob, false), FinishCleanup(false), r.(phase := Failed));
  }

  /**
   * Nor is a Failed request without a claim, once somebody else may write it: put back into
   * Running, it is submitted after all.
   */
  lemma ReopenedCanSubmit(h: Digest, uid: UID, pod: UID, job: UID, bytes: Bytes, m: Member) returns (run: Run, n: nat)
    requires uid != "" && pod != "" && job != "" && bytes != []
    ensures IsRun(h, run.trace, run.actions) && Last(run).posts == [Post(0, uid, pod, job, m, bytes)]
    ensures n < |run.trace| && run.trace[n].slot == Some(Claimable(uid, job, false).(phase := Failed))
    ensures ClosedToClaims(run.trace[n].slot.value)
  {
    var r := Claimable(uid, job, false);
    run := JobCreated(h, uid, job, false);
    run := LongerRun(h, run, Outside(ForeignWrite(r.(phase := Failed))), Put(Last(run), r.(phase := Failed)));
    n := |run.trace| - 1;
    run := LongerRun(h, run, Outside(ForeignWrite(r)), Put(Last(run), r));
    run := ExecutorSubmits(h, run, uid, pod, job, bytes, m, false);
  }
}
