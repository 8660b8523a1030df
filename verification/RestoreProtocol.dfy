// Submitting a restore: executors, controller, kubelet and API server as one state machine.
//
// Any number of executor processes run at once: a container restart or a replacement Pod
// is simply another process.  Every write to the request is conditional on the version
// that its writer read, so reads may be arbitrarily stale and answers may be lost.

module RestoreProtocol {
  import opened Options
  import opened RestoreRequest

  type Bytes = seq<int>
  type Pid = nat

  /** SHA-256 of the staged bytes, left uninterpreted. */
  type Digest = Bytes -> string

  /** How far an executor process has come. */
  datatype At =
    | Starting
    | Staged        // snapshot downloaded, sized and hashed
    | Connected     // restoreConnection.connect
    | Owned         // read its own Pod and the Job that owns it
    | Bound         // the recorded Job UID is its Job
    | Verified      // leader, and still the member it connected to
    | Reading       // ClaimRestore has read the request
    | Acknowledged  // the claim write was acknowledged
    | Submitted
    | Stopped

  datatype Copy = Copy(request: Request, version: nat)

  datatype Executor = Executor(
    requestUID: UID, podUID: UID, at: At,
    bytes: Bytes, target: Member, job: UID, copy: Option<Copy>)

  /** One POST of a snapshot to the destructive endpoint. */
  datatype Post = Post(pid: Pid, requestUID: UID, podUID: UID, job: UID, target: Member, bytes: Bytes)

  datatype State = State(
    version: nat,                  // of the last write to the request's key
    slot: Option<Request>,         // the request stored under that key
    uids: set<UID>,                // request UIDs ever assigned
    owners: map<UID, UID>,         // executor Pod UID to the UID of its owning Job
    executors: map<Pid, Executor>,
    copies: set<Copy>,             // what the controller has read
    posts: seq<Post>)

  /** A step of one executor process. */
  datatype Step =
    | Start(requestUID: UID, podUID: UID)
    | Stage(bytes: Bytes)
    | Connect(target: Member)
    | ReadPod
    | MatchJob
    | Recheck(current: Member)
    | ReadRequest
    | WriteClaim(acknowledged: bool)
    | Submit
    | Stop

  /** A step of anything else: users, kubelet, API server, controller. */
  datatype Event =
    | CreateRequest(request: Request)
    | BeginDeletion
    | RemoveRequest
    | ForeignWrite(request: Request)
    | CreatePod(podUID: UID, job: UID)
    | ControllerRead
    | ControllerWrite(copy: Copy, facts: Facts, write: Write)

  datatype Action = Process(pid: Pid, step: Step) | Outside(event: Event)

  function ClaimOf(h: Digest, e: Executor): Claim
  {
    Claim(e.podUID, e.target, h(e.bytes), |e.bytes|)
  }

  /** The checks of ClaimRestore; an expired preparation window is a Stop. */
  predicate ClaimAccepted(r: Request, requestUID: UID, c: Claim)
  {
    && r.uid == requestUID && !r.deleting && r.phase == Running
    && r.execution.Some? && r.execution.value.operationID == requestUID && r.execution.value.stage == Created
    && r.claim.None? && c.podUID != "" && c.size > 0
    && (r.expectedDigest != "" ==> r.expectedDigest == c.digest)
    && (r.expectedSize != 0 ==> r.expectedSize == c.size)
  }

  /** The admission policy: a stored claim cannot be changed or removed, nor can the UID. */
  predicate Admitted(r: Request, r': Request)
  {
    r'.uid == r.uid && (r.claim.Some? ==> r'.claim == r.claim)
  }

  predicate Is(s: State, pid: Pid, at: At)
  {
    pid in s.executors && s.executors[pid].at == at
  }

  function Move(s: State, pid: Pid, e: Executor): State
  {
    s.(executors := s.executors[pid := e])
  }

  function Put(s: State, r: Request): State
  {
    s.(slot := Some(r), version := s.version + 1)
  }

  /** restoreConnection.claim's read of the request, once the Job UID is recorded. */
  predicate JobMatches(r: Request, e: Executor)
  {
    && r.uid == e.requestUID && !r.deleting && r.phase == Running && r.execution.Some?
    && r.execution.value.jobUID != "" && r.execution.value.jobUID == e.job
  }

  ghost predicate Init(s: State)
  {
    s.slot.None? && s.uids == {} && s.executors == map[] && s.copies == {} && s.posts == []
  }

  ghost predicate ExecutorStep(h: Digest, s: State, pid: Pid, step: Step, s': State)
  {
    match step
    case Start(requestUID, podUID) =>
      pid !in s.executors && podUID != "" && podUID in s.owners
      && s' == Move(s, pid, Executor(requestUID, podUID, Starting, [], Member("", "", "", ""), "", None))
    case Stage(bytes) =>
      Is(s, pid, Starting) && |bytes| > 0
      && s' == Move(s, pid, s.executors[pid].(at := Staged, bytes := bytes))
    case Connect(target) =>
      Is(s, pid, Staged) && s' == Move(s, pid, s.executors[pid].(at := Connected, target := target))
    case ReadPod =>
      Is(s, pid, Connected) && s.executors[pid].podUID in s.owners
      && s' == Move(s, pid, s.executors[pid].(at := Owned, job := s.owners[s.executors[pid].podUID]))
    case MatchJob =>
      Is(s, pid, Owned) && s.slot.Some? && JobMatches(s.slot.value, s.executors[pid])
      && s' == Move(s, pid, s.executors[pid].(at := Bound))
    case Recheck(current) =>
      Is(s, pid, Bound) && current == s.executors[pid].target
      && s' == Move(s, pid, s.executors[pid].(at := Verified))
    case ReadRequest =>
      Is(s, pid, Verified) && s.slot.Some?
      && s' == Move(s, pid, s.executors[pid].(at := Reading, copy := Some(Copy(s.slot.value, s.version))))
    case WriteClaim(acknowledged) =>
      Is(s, pid, Reading) && s.executors[pid].copy.Some? &&
      var e := s.executors[pid];
      var copy := e.copy.value;
      ClaimAccepted(copy.request, e.requestUID, ClaimOf(h, e)) &&
      if s.slot.Some? && copy.version == s.version then
        s' == Move(Put(s, copy.request.(claim := Some(ClaimOf(h, e)))), pid,
                   e.(at := if acknowledged then Acknowledged else Stopped))
      else
        s' == Move(s, pid, e.(at := Stopped))
    case Submit =>
      Is(s, pid, Acknowledged) &&
      var e := s.executors[pid];
      s' == Move(s, pid, e.(at := Submitted))
              .(posts := s.posts + [Post(pid, e.requestUID, e.podUID, e.job, e.target, e.bytes)])
    case Stop =>
      pid in s.executors && s.executors[pid].at != Submitted
      && s' == Move(s, pid, s.executors[pid].(at := Stopped))
  }

  ghost predicate OutsideStep(s: State, event: Event, s': State)
  {
    match event
    case CreateRequest(r) =>
      s.slot.None? && r.uid != "" && r.uid !in s.uids && !r.deleting
      && r.phase == Pending && r.execution.None? && r.claim.None?
      && s' == Put(s, r).(uids := s.uids + {r.uid})
    case BeginDeletion =>
      s.slot.Some? && s' == Put(s, s.slot.value.(deleting := true))
    case RemoveRequest =>
      s.slot.Some? && s' == s.(slot := None, version := s.version + 1)
    case ForeignWrite(r) =>
      s.slot.Some? && Admitted(s.slot.value, r) && s' == Put(s, r)
    case CreatePod(podUID, job) =>
      podUID !in s.owners && s' == s.(owners := s.owners[podUID := job])
    case ControllerRead =>
      s.slot.Some? && s' == s.(copies := s.copies + {Copy(s.slot.value, s.version)})
    case ControllerWrite(copy, facts, write) =>
      copy in s.copies && Allowed(copy.request, facts, write) &&
      if s.slot.Some? && copy.version == s.version then
        s' == Put(s, Stored(copy.request, facts, write))
      else
        s' == s
  }

  ghost predicate Next(h: Digest, s: State, a: Action, s': State)
  {
    match a
    case Process(pid, step) => ExecutorStep(h, s, pid, step, s')
    case Outside(event) => OutsideStep(s, event, s')
  }

  // ----- safety against any interleaving

  predicate HasClaimed(e: Executor) { e.at == Acknowledged || e.at == Submitted }

  predicate SameClaim(d: Executor, e: Executor)
  {
    HasClaimed(d) && HasClaimed(e) && d.requestUID == e.requestUID
  }

  ghost predicate CopyOk(s: State, c: Copy)
  {
    c.version <= s.version && (c.version == s.version && s.slot.Some? ==> s.slot.value == c.request)
  }

  /** Reads are never newer than the store, and an up-to-date read is the store. */
  ghost predicate ReadsOk(s: State)
  {
    && (s.slot.Some? ==> s.slot.value.uid in s.uids)
    && (forall c :: c in s.copies ==> CopyOk(s, c))
    && (forall p :: p in s.executors && s.executors[p].copy.Some? ==> CopyOk(s, s.executors[p].copy.value))
  }

  /** Whoever holds an acknowledged claim is the one the request names, while it exists. */
  ghost predicate ClaimsOk(h: Digest, s: State)
  {
    && (forall p :: p in s.executors && HasClaimed(s.executors[p]) ==>
          && s.executors[p].requestUID in s.uids
          && (s.slot.Some? && s.slot.value.uid == s.executors[p].requestUID ==>
                s.slot.value.claim == Some(ClaimOf(h, s.executors[p]))))
    && (forall p, q :: p in s.executors && q in s.executors && p != q ==>
          !SameClaim(s.executors[p], s.executors[q]))
  }

  predicate KnowsJob(e: Executor)
  {
    e.at !in {Starting, Staged, Connected, Stopped}
  }

  /** An executor's Job is the owner of its Pod. */
  ghost predicate OwnersOk(s: State)
  {
    forall p :: p in s.executors && KnowsJob(s.executors[p]) ==>
      s.executors[p].podUID in s.owners && s.owners[s.executors[p].podUID] == s.executors[p].job
  }

  ghost predicate PostOk(s: State, post: Post)
  {
    && Is(s, post.pid, Submitted)
    && var e := s.executors[post.pid];
       post == Post(post.pid, e.requestUID, e.podUID, e.job, e.target, e.bytes)
  }

  ghost predicate PostsOk(s: State)
  {
    && (forall i :: 0 <= i < |s.posts| ==> PostOk(s, s.posts[i]))
    && (forall i, j :: 0 <= i < j < |s.posts| ==> s.posts[i].pid != s.posts[j].pid)
  }

  ghost predicate Inv(h: Digest, s: State)
  {
    ReadsOk(s) && ClaimsOk(h, s) && OwnersOk(s) && PostsOk(s)
  }

  // ----- the kinds of change that a step can be

  /** Only Pods and the controller's reads are added. */
  ghost predicate Quiet(s: State, s': State)
  {
    && s' == s.(owners := s'.owners, copies := s'.copies)
    && (forall pod :: pod in s.owners ==> pod in s'.owners && s'.owners[pod] == s.owners[pod])
    && (forall c :: c in s'.copies ==> c in s.copies || CopyOk(s, c))
  }

  /** A process moves without gaining a claim. */
  ghost predicate LocalMove(s: State, pid: Pid, e: Executor, s': State)
  {
    && s' == Move(s, pid, e) && !HasClaimed(e)
    && (pid in s.executors ==> s.executors[pid].at != Submitted)
    && (e.copy.Some? ==> CopyOk(s, e.copy.value))
    && (KnowsJob(e) ==> e.podUID in s.owners && s.owners[e.podUID] == e.job)
  }

  /** The stored request is created, replaced under admission, or removed. */
  ghost predicate StoreWrite(s: State, s': State)
  {
    && s' == s.(slot := s'.slot, version := s.version + 1, uids := s'.uids) && s.uids <= s'.uids
    && (s'.slot.Some? ==> s'.slot.value.uid in s'.uids)
    && (s.slot.Some? && s'.slot.Some? ==> Admitted(s.slot.value, s'.slot.value))
    && (s.slot.None? && s'.slot.Some? ==> s'.slot.value.uid !in s.uids)
  }

  /** The conditional write of a claim lands: its process read the request as it is. */
  ghost predicate ClaimLands(h: Digest, s: State, pid: Pid, acknowledged: bool, s': State)
  {
    && Is(s, pid, Reading) && s.slot.Some?
    && var e := s.executors[pid];
       && ClaimAccepted(s.slot.value, e.requestUID, ClaimOf(h, e))
       && s' == Move(Put(s, s.slot.value.(claim := Some(ClaimOf(h, e)))), pid,
                     e.(at := if acknowledged then Acknowledged else Stopped))
  }

  ghost predicate Submits(s: State, pid: Pid, s': State)
  {
    && Is(s, pid, Acknowledged)
    && var e := s.executors[pid];
       s' == Move(s, pid, e.(at := Submitted))
               .(posts := s.posts + [Post(pid, e.requestUID, e.podUID, e.job, e.target, e.bytes)])
  }

  ghost predicate ProcessChange(h: Digest, s: State, pid: Pid, s': State)
  {
    || (pid in s'.executors && LocalMove(s, pid, s'.executors[pid], s'))
    || ClaimLands(h, s, pid, true, s') || ClaimLands(h, s, pid, false, s')
    || Submits(s, pid, s')
  }

  /** ClaimRestore's conditional write: it lands only on the request that was read, without a claim. */
  lemma WriteClaimChanges(h: Digest, s: State, pid: Pid, acknowledged: bool, s': State)
    requires ReadsOk(s) && ExecutorStep(h, s, pid, WriteClaim(acknowledged), s')
    ensures if s.slot.Some? && s.executors[pid].copy.value.version == s.version
            then ClaimLands(h, s, pid, acknowledged, s')
            else LocalMove(s, pid, s'.executors[pid], s')
  {
    assert CopyOk(s, s.executors[pid].copy.value);
  }

  lemma PreparationIsLocal(h: Digest, s: State, pid: Pid, step: Step, s': State)
    requires step.Start? || step.Stage? || step.Connect? || step.ReadPod?
    requires ReadsOk(s) && ExecutorStep(h, s, pid, step, s')
    ensures pid in s'.executors && LocalMove(s, pid, s'.executors[pid], s')
  {}

  lemma BindingIsLocal(h: Digest, s: State, pid: Pid, step: Step, s': State)
    requires step.MatchJob? || step.Recheck? || step.ReadRequest? || step.Stop?
    requires ReadsOk(s) && OwnersOk(s) && ExecutorStep(h, s, pid, step, s')
    ensures pid in s'.executors && LocalMove(s, pid, s'.executors[pid], s')
  {}

  lemma ProcessChanges(h: Digest, s: State, pid: Pid, step: Step, s': State)
    requires ReadsOk(s) && OwnersOk(s) && ExecutorStep(h, s, pid, step, s')
    ensures ProcessChange(h, s, pid, s')
  {
    if step.WriteClaim? {
      WriteClaimChanges(h, s, pid, step.acknowledged, s');
    } else if step.Start? || step.Stage? || step.Connect? || step.ReadPod? {
      PreparationIsLocal(h, s, pid, step, s');
    } else if !step.Submit? {
      BindingIsLocal(h, s, pid, step, s');
    }
  }

  lemma ControllerWriteChanges(s: State, copy: Copy, facts: Facts, write: Write, s': State)
    requires ReadsOk(s) && OutsideStep(s, ControllerWrite(copy, facts, write), s')
    ensures if s.slot.Some? && copy.version == s.version then StoreWrite(s, s') else s' == s
  {
    assert CopyOk(s, copy);
    StoredKeepsIdentity(copy.request, facts, write);
  }

  lemma UserChanges(s: State, event: Event, s': State)
    requires event.CreateRequest? || event.BeginDeletion? || event.RemoveRequest? || event.ForeignWrite?
    requires ReadsOk(s) && OutsideStep(s, event, s')
    ensures StoreWrite(s, s')
  {}

  lemma OutsideChanges(s: State, event: Event, s': State)
    requires ReadsOk(s) && OutsideStep(s, event, s')
    ensures Quiet(s, s') || StoreWrite(s, s')
  {
    if event.ControllerWrite? {
      ControllerWriteChanges(s, event.copy, event.facts, event.write, s');
    } else if event.CreateRequest? || event.BeginDeletion? || event.RemoveRequest? || event.ForeignWrite? {
      UserChanges(s, event, s');
    }
  }

  // ----- every kind of change keeps the invariant

  lemma QuietKeeps(h: Digest, s: State, s': State)
    requires Inv(h, s) && Quiet(s, s')
    ensures Inv(h, s')
  {
    forall i | 0 <= i < |s'.posts| ensures PostOk(s', s'.posts[i]) {
      assert PostOk(s, s.posts[i]);
    }
  }

  /** Claims stay exclusive when the process that moves gains none. */
  lemma MoveKeepsClaims(h: Digest, s: State, pid: Pid, e: Executor)
    requires ClaimsOk(h, s)
    requires HasClaimed(e) ==> pid in s.executors && HasClaimed(s.executors[pid]) && e == s.executors[pid].(at := e.at)
    ensures ClaimsOk(h, Move(s, pid, e))
  {
    var t := Move(s, pid, e);
    forall p, q | p in t.executors && q in t.executors && p != q
      ensures !SameClaim(t.executors[p], t.executors[q])
    {
      assert p in s.executors && q in s.executors ==> !SameClaim(s.executors[p], s.executors[q]);
    }
  }

  lemma MoveKeepsPosts(s: State, pid: Pid, e: Executor)
    requires PostsOk(s) && (pid in s.executors ==> s.executors[pid].at != Submitted)
    ensures PostsOk(Move(s, pid, e))
  {
    forall i | 0 <= i < |s.posts| ensures PostOk(Move(s, pid, e), s.posts[i]) {
      assert PostOk(s, s.posts[i]);
    }
  }

  lemma LocalMoveKeeps(h: Digest, s: State, pid: Pid, e: Executor, s': State)
    requires Inv(h, s) && LocalMove(s, pid, e, s')
    ensures Inv(h, s')
  {
    MoveKeepsClaims(h, s, pid, e);
    MoveKeepsPosts(s, pid, e);
  }

  lemma StoreWriteKeeps(h: Digest, s: State, s': State)
    requires Inv(h, s) && StoreWrite(s, s')
    ensures Inv(h, s')
  {
    forall i | 0 <= i < |s'.posts| ensures PostOk(s', s'.posts[i]) {
      assert PostOk(s, s.posts[i]);
    }
  }

  /** The process whose claim is stored learns that it was stored. */
  ghost predicate Grant(h: Digest, s: State, pid: Pid, s': State)
  {
    && Is(s, pid, Reading) && s' == Move(s, pid, s.executors[pid].(at := Acknowledged))
    && s.slot.Some? && s.slot.value.uid == s.executors[pid].requestUID && s.slot.value.uid in s.uids
    && s.slot.value.claim == Some(ClaimOf(h, s.executors[pid]))
    && forall p :: p in s.executors && HasClaimed(s.executors[p]) ==>
         s.executors[p].requestUID != s.executors[pid].requestUID
  }

  lemma GrantKeepsClaims(h: Digest, s: State, pid: Pid, s': State)
    requires ClaimsOk(h, s) && Grant(h, s, pid, s')
    ensures ClaimsOk(h, s')
  {
    assert ClaimOf(h, s.executors[pid]) == ClaimOf(h, s'.executors[pid]);
    forall p, q | p in s'.executors && q in s'.executors && p != q
      ensures !SameClaim(s'.executors[p], s'.executors[q])
    {
      assert p != pid && q != pid ==> !SameClaim(s.executors[p], s.executors[q]);
    }
  }

  lemma GrantKeeps(h: Digest, s: State, pid: Pid, s': State)
    requires Inv(h, s) && Grant(h, s, pid, s')
    ensures Inv(h, s')
  {
    GrantKeepsClaims(h, s, pid, s');
    MoveKeepsPosts(s, pid, s'.executors[pid]);
  }

  lemma ClaimLandsKeeps(h: Digest, s: State, pid: Pid, acknowledged: bool, s': State)
    requires Inv(h, s) && ClaimLands(h, s, pid, acknowledged, s')
    ensures Inv(h, s')
  {
    var e := s.executors[pid];
    var t := Put(s, s.slot.value.(claim := Some(ClaimOf(h, e))));
    StoreWriteKeeps(h, s, t);
    if acknowledged {
      GrantKeeps(h, t, pid, s');
    } else {
      LocalMoveKeeps(h, t, pid, e.(at := Stopped), s');
    }
  }

  lemma SubmitKeepsPosts(s: State, pid: Pid, s': State)
    requires PostsOk(s) && Submits(s, pid, s')
    ensures PostsOk(s')
  {
    forall i | 0 <= i < |s.posts| ensures s.posts[i].pid != pid && PostOk(s', s.posts[i]) {
      assert PostOk(s, s.posts[i]);
    }
  }

  lemma SubmitKeeps(h: Digest, s: State, pid: Pid, s': State)
    requires Inv(h, s) && Submits(s, pid, s')
    ensures Inv(h, s')
  {
    MoveKeepsClaims(h, s, pid, s'.executors[pid]);
    SubmitKeepsPosts(s, pid, s');
  }

  lemma ProcessKeeps(h: Digest, s: State, pid: Pid, s': State)
    requires Inv(h, s) && ProcessChange(h, s, pid, s')
    ensures Inv(h, s')
  {
    if Submits(s, pid, s') {
      SubmitKeeps(h, s, pid, s');
    } else if ClaimLands(h, s, pid, true, s') {
      ClaimLandsKeeps(h, s, pid, true, s');
    } else if ClaimLands(h, s, pid, false, s') {
      ClaimLandsKeeps(h, s, pid, false, s');
    } else {
      LocalMoveKeeps(h, s, pid, s'.executors[pid], s');
    }
  }

  /** Every step keeps reads, claims, owners and submissions consistent. */
  lemma NextKeeps(h: Digest, s: State, a: Action, s': State)
    requires Inv(h, s) && Next(h, s, a, s')
    ensures Inv(h, s')
  {
    match a
    case Outside(event) =>
      OutsideChanges(s, event, s');
      if Quiet(s, s') {
        QuietKeeps(h, s, s');
      } else {
        StoreWriteKeeps(h, s, s');
      }
    case Process(pid, step) =>
      ProcessChanges(h, s, pid, step, s');
      ProcessKeeps(h, s, pid, s');
  }
}
