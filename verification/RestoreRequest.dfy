// The OpenBaoRestore request as the API server stores it, and every status write the
// restore controller can make to it.

module RestoreRequest {
  import opened Options

  datatype Phase = Pending | Validating | Running | Completed | Failed | UnknownPhase

  datatype Stage = Prepared | Committed | Created | TerminalObserved | FollowThroughComplete | UnknownStage

  datatype Result = NoResult | Succeeded | Unsuccessful

  /** An empty UID is an unset UID. */
  type UID = string

  datatype Execution = Execution(operationID: UID, stage: Stage, jobUID: UID, targetUID: UID, result: Result)

  /** The OpenBao process a submission is addressed to. */
  datatype Member = Member(podName: string, podUID: UID, podIP: string, containerID: string)

  datatype Claim = Claim(podUID: UID, target: Member, digest: string, size: nat)

  datatype Request = Request(
    uid: UID, deleting: bool, phase: Phase,
    execution: Option<Execution>, claim: Option<Claim>,
    expectedDigest: string, expectedSize: nat,
    disposable: bool, targetRecorded: bool, disposition: string)

  predicate IsCommitted(r: Request)
  {
    r.execution.Some? && r.execution.value.stage != Prepared
  }

  /** restoreSubmissionExcluded: the controller's reason to release the target. */
  predicate SubmissionExcluded(r: Request)
  {
    r.claim.None? &&
    (!IsCommitted(r) ||
     (r.phase == Failed && r.execution.value.stage == TerminalObserved && r.execution.value.result == Unsuccessful))
  }

  // ----- observation and decision

  datatype Cluster = Missing | Replaced | Original

  datatype JobState = JobRunning | JobSucceeded | JobFailed

  datatype Job = NoJob | Job(uid: UID, nameAndOperationOk: bool, state: JobState)

  /** What the controller can learn from the cluster while it reconciles. */
  datatype Facts = Facts(cluster: Cluster, jobNameOk: bool, job: Job, claimIssue: bool)

  /** restoreState: `unknown` and `failure` stand for a non-empty message. */
  datatype Observation = Observation(
    stage: Option<Stage>, result: Result, legacy: bool, state: JobState, unknown: bool, failure: bool)

  const NOTHING := Observation(None, NoResult, false, JobRunning, false, false)

  function ObserveJob(r: Request, f: Facts): Observation
    requires r.execution.Some?
  {
    var e := r.execution.value;
    var o := NOTHING.(stage := Some(e.stage), result := e.result);
    match f.job
    case NoJob => o.(unknown := true)
    case Job(uid, ok, state) =>
      if !ok || (e.jobUID != "" && uid != e.jobUID) then o.(unknown := true)
      else if r.claim.Some? && (e.jobUID == "" || f.claimIssue) then o.(unknown := true)
      else o.(state := state)
  }

  /** observeRestore */
  function Observe(r: Request, f: Facts): Observation
  {
    if f.cluster == Missing then
      if r.execution.Some? && !IsCommitted(r) then NOTHING.(failure := true) else NOTHING.(unknown := true)
    else if r.execution.Some? && r.execution.value.targetUID != "" && f.cluster == Replaced then
      if !IsCommitted(r) then NOTHING.(failure := true) else NOTHING.(unknown := true)
    else if r.execution.None? then
      if f.job.NoJob? || !f.job.nameAndOperationOk then NOTHING.(unknown := true) else NOTHING.(legacy := true)
    else
      var e := r.execution.value;
      if e.operationID != r.uid || !f.jobNameOk then NOTHING.(unknown := true)
      else if e.stage == Committed || e.stage == Created then ObserveJob(r, f)
      else NOTHING.(stage := Some(e.stage), result := e.result)
  }

  datatype Decision =
    | Idle | MarkUnknown | CreateJob | AdoptLegacyJob | RecordCreatedReceipt
    | RecordSucceededJob | RecordFailedJob | PollJob | ContinueRecovery
    | FailRestore(explained: bool) | CompleteRestore

  /** decideRestore */
  function Decide(o: Observation): Decision
  {
    if o.failure then FailRestore(true)
    else if o.unknown then MarkUnknown
    else if o.legacy then AdoptLegacyJob
    else match o.stage
      case None => MarkUnknown
      case Some(Prepared) => CreateJob
      case Some(Committed) => RecordCreatedReceipt
      case Some(Created) =>
        (match o.state
         case JobSucceeded => RecordSucceededJob
         case JobFailed => RecordFailedJob
         case JobRunning => PollJob)
      case Some(TerminalObserved) =>
        (match o.result
         case Succeeded => ContinueRecovery
         case Unsuccessful => FailRestore(false)
         case NoResult => MarkUnknown)
      case Some(FollowThroughComplete) => CompleteRestore
      case Some(UnknownStage) => Idle
  }

  // ----- status writes

  datatype Write =
    | StartValidation
    | ReserveTarget                   // before a fresh target is created
    | Prepare(targetUID: UID)
    | Commit
    | RecordJob                       // the Created receipt, and adoption of a legacy Job
    | RecordTerminal
    | Unknown
    | Fail                            // failRestore outside target cleanup
    | FinishCleanup(applied: bool)    // after a disposable target is gone
    | Complete
    | Acknowledge(action: string, cleanupFailed: bool)
    | Touch                           // message, conditions, restart records, details of the target

  function NewExecution(r: Request): Execution { Execution(r.uid, Prepared, "", "", NoResult) }

  function OrNewExecution(r: Request): Execution
  {
    if r.execution.Some? then r.execution.value else NewExecution(r)
  }

  /** What a write stores when the controller's copy is `r`. */
  function Stored(r: Request, f: Facts, w: Write): Request
  {
    match w
    case StartValidation => r.(phase := Validating)
    case ReserveTarget => r.(targetRecorded := true)
    case Prepare(t) => r.(phase := Running, execution := Some(NewExecution(r).(targetUID := t)))
    case Commit => r.(execution := Some(OrNewExecution(r).(stage := Committed)))
    case RecordJob =>
      r.(execution := Some(OrNewExecution(r).(stage := Created, jobUID := if f.job.Job? then f.job.uid else "")))
    case RecordTerminal =>
      r.(execution := Some(OrNewExecution(r).(stage := TerminalObserved,
           result := if f.job.Job? && f.job.state == JobSucceeded then Succeeded else Unsuccessful)))
    case Unknown => r.(phase := UnknownPhase, execution := Some(OrNewExecution(r).(stage := UnknownStage)))
    case Fail => r.(phase := Failed)
    case FinishCleanup(applied) => r.(phase := if applied then Completed else Failed)
    case Complete => r.(phase := Completed)
    case Acknowledge(action, cleanupFailed) => r.(disposition := action, phase := if cleanupFailed then Failed else r.phase)
    case Touch => r
  }

  /** No write changes the identity of the request, its deletion or its claim. */
  lemma StoredKeepsIdentity(r: Request, f: Facts, w: Write)
    ensures Stored(r, f, w).uid == r.uid && Stored(r, f, w).deleting == r.deleting && Stored(r, f, w).claim == r.claim
  {}

  /** finishFailedExecution and the tail of RecordFailedJob: only an empty claim permits release. */
  predicate FailedBeforeSubmission(r: Request)
  {
    r.claim.None? && r.execution.Some? && r.execution.value.targetUID != ""
  }

  /** The writes of one pass over a Running request. */
  predicate RunningWrite(r: Request, f: Facts, w: Write)
  {
    match Decide(Observe(r, f))
    case Idle => false
    case MarkUnknown => w == Unknown
    case CreateJob => w == Commit || w == Fail || w == Touch
    case AdoptLegacyJob => w == RecordJob && f.job.uid != ""
    case RecordCreatedReceipt => w == RecordJob && f.job.uid != ""
    case RecordSucceededJob => w == RecordTerminal
    case RecordFailedJob => w == RecordTerminal || w == Touch
    case PollJob => w == Touch
    case ContinueRecovery => w == Unknown
    case FailRestore(explained) =>
      if explained || FailedBeforeSubmission(r) then w == Fail else w == Unknown
    case CompleteRestore => w == Complete
  }

  /** handleDeletion, short of removing the finalizer. */
  predicate DeletionWrite(r: Request, w: Write)
  {
    if r.disposable && r.targetRecorded then
      || w == Touch
      || (w.Acknowledge? && w.cleanupFailed)
      || (w.FinishCleanup? && r.phase != Failed && r.phase != Completed)
    else if !SubmissionExcluded(r) && r.disposition == "" && r.phase != Completed then
      if r.phase != UnknownPhase then w == Unknown else w == Touch || w.Acknowledge? || w == Complete
    else false
  }

  /** Every status write Reconcile can attempt on its copy of the request. */
  predicate Allowed(r: Request, f: Facts, w: Write)
  {
    if r.deleting then DeletionWrite(r, w)
    else match r.phase
      case Pending => w == StartValidation
      case Validating => w.Prepare? || w == Fail || w == Touch || (w == ReserveTarget && !r.targetRecorded)
      case Running => RunningWrite(r, f, w)
      case Completed => w == Touch || (w.Acknowledge? && w.cleanupFailed && r.targetRecorded)
      case Failed => w == Touch || (w.Acknowledge? && w.cleanupFailed && r.targetRecorded)
      case UnknownPhase => w == Touch || w.Acknowledge? || w == Complete || (w.FinishCleanup? && r.targetRecorded)
  }

  /** What every request the controller has ever written satisfies. */
  predicate WellFormed(r: Request)
  {
    && (r.phase == Pending || r.phase == Validating ==> r.execution.None? && r.claim.None?)
    && (r.execution.Some? && r.execution.value.stage in {Prepared, Committed} ==>
          r.claim.None? && r.execution.value.jobUID == "")
    && (r.claim.Some? ==> r.execution.Some?)
  }

  /** A recorded Job UID stays. */
  predicate KeepsJob(r: Request, r': Request)
  {
    r.execution.Some? && r.execution.value.jobUID != "" ==>
      r'.execution.Some? && r'.execution.value.jobUID == r.execution.value.jobUID
  }

  lemma RunningWriteKeeps(r: Request, f: Facts, w: Write)
    requires WellFormed(r) && r.phase == Running && RunningWrite(r, f, w)
    ensures WellFormed(Stored(r, f, w)) && KeepsJob(r, Stored(r, f, w))
  {}

  lemma OtherWriteKeeps(r: Request, f: Facts, w: Write)
    requires WellFormed(r) && Allowed(r, f, w) && (r.deleting || r.phase != Running)
    ensures WellFormed(Stored(r, f, w)) && KeepsJob(r, Stored(r, f, w))
  {}

  /** Controller writes keep the request well formed and never touch what is already bound. */
  lemma WriteKeeps(r: Request, f: Facts, w: Write)
    requires WellFormed(r) && Allowed(r, f, w)
    ensures WellFormed(Stored(r, f, w))
    ensures Stored(r, f, w).uid == r.uid && Stored(r, f, w).deleting == r.deleting
    ensures Stored(r, f, w).claim == r.claim
    ensures KeepsJob(r, Stored(r, f, w))
  {
    StoredKeepsIdentity(r, f, w);
    if r.phase == Running && !r.deleting {
      RunningWriteKeeps(r, f, w);
    } else {
      OtherWriteKeeps(r, f, w);
    }
  }

  /** No executor can ever claim such a request again. */
  predicate ClosedToClaims(r: Request)
  {
    r.claim.None? && (r.deleting || r.phase in {Failed, Completed, UnknownPhase})
  }

  /** Where the controller releases the target, no executor can claim any more. */
  lemma ExcludedIsClosed(r: Request)
    requires SubmissionExcluded(r) && (r.phase == Failed || r.deleting)
    ensures ClosedToClaims(r)
  {}

  lemma ClosedStaysClosed(r: Request, f: Facts, w: Write)
    requires Allowed(r, f, w) && ClosedToClaims(r)
    ensures ClosedToClaims(Stored(r, f, w))
  {}

  /** failRestore is only reached where submission is excluded for good. */
  lemma FailCloses(r: Request, f: Facts)
    requires WellFormed(r) && Allowed(r, f, Fail)
    ensures ClosedToClaims(Stored(r, f, Fail))
  {}
}
