// Streaming a backup: the Snapshot goroutine and the uploader over a synchronous pipe.
//
// The steps of the two sides interleave in any way.  Neither side is trusted: Snapshot may
// fail at any point, and the storage client may stop reading at any point, with or without
// an error.

module BackupPipe {
  import opened Options

  type Bytes = seq<int>

  /** Abort is the error that reports a failed upload back to the producer. */
  datatype Error = Plain(code: int) | ClosedPipe | Wrap(inner: Error) | Abort(cause: Error)

  /** errors.Is */
  predicate Is(e: Error, target: Error)
  {
    || e == target
    || match e
       case Wrap(inner) => Is(inner, target)
       case Abort(cause) => Is(cause, target)
       case _ => false
  }

  datatype Blame = Snapshot | Storage

  datatype Result = Uploaded(n: nat) | Failed(blame: Blame)

  datatype State = State(
    wrote: Bytes,                     // every byte Snapshot has passed to Write
    offered: Option<Bytes>,           // what is left of the Write in progress
    writeError: Option<Error>,        // what a Write returned, if one failed
    snapshot: Option<Option<Error>>,  // what Snapshot returned
    writerClosed: bool,
    counted: nat,                     // countingReader
    hashed: Bytes,                    // TeeReader
    read: Bytes,                      // what the storage client received
    upload: Option<Option<Error>>,    // what Upload returned
    readerClosed: bool,
    result: Option<Result>)

  datatype Action =
    | BeginWrite(bytes: Bytes)
    | FailWrite
    | SnapshotReturns(error: Option<Error>)
    | CloseWriter
    | Read(want: nat)
    | ReadEnd
    | UploadReturns(error: Option<Error>)
    | CloseReader
    | Decide

  function Rest(offered: Option<Bytes>): Bytes
  {
    if offered.Some? then offered.value else []
  }

  function Min(a: nat, b: nat): nat { if a <= b then a else b }

  /** What a Write returns once the read end is closed. */
  function CloseCause(upload: Option<Error>): Error
  {
    if upload.Some? then Abort(upload.value) else ClosedPipe
  }

  /**
   * Snapshot copies a response body into the pipe: a failed Write makes it fail with an
   * error that wraps the Write's.  Otherwise it never saw the abort error of this run.
   */
  ghost predicate Propagates(writeError: Option<Error>, error: Option<Error>)
  {
    if writeError.Some? then error.Some? && Is(error.value, writeError.value)
    else error.Some? ==> forall cause :: !Is(error.value, Abort(cause))
  }

  /** The end of uploadBackupSnapshot; closing the write end never fails. */
  function Verdict(upload: Option<Error>, snapshot: Option<Error>, counted: nat): Result
  {
    if snapshot.Some? && (upload.None? || !Is(snapshot.value, Abort(upload.value))) then Failed(Snapshot)
    else if upload.Some? then Failed(Storage)
    else Uploaded(counted)
  }

  ghost predicate Init(s: State)
  {
    s == State([], None, None, None, false, 0, [], [], None, false, None)
  }

  ghost predicate Next(s: State, a: Action, s': State)
  {
    match a
    case BeginWrite(bytes) =>
      s.snapshot.None? && s.offered.None?
      && s' == s.(wrote := s.wrote + bytes, offered := Some(bytes))
    case FailWrite =>
      s.offered.Some? && s.readerClosed && s.upload.Some?
      && s' == s.(offered := None, writeError := Some(CloseCause(s.upload.value)))
    case SnapshotReturns(error) =>
      s.snapshot.None? && s.offered.None? && Propagates(s.writeError, error)
      && s' == s.(snapshot := Some(error))
    case CloseWriter =>
      s.snapshot.Some? && s' == s.(writerClosed := true)
    case Read(want) =>
      s.upload.None? && s.offered.Some? &&
      var n := Min(want, |s.offered.value|);
      var chunk, rest := s.offered.value[..n], s.offered.value[n..];
      s' == s.(offered := if rest == [] then None else Some(rest), counted := s.counted + n,
               hashed := s.hashed + chunk, read := s.read + chunk)
    case ReadEnd =>
      s.upload.None? && s.writerClosed && s' == s
    case UploadReturns(error) =>
      s.upload.None? && s' == s.(upload := Some(error))
    case CloseReader =>
      s.upload.Some? && s' == s.(readerClosed := true)
    case Decide =>
      s.readerClosed && s.writerClosed && s.upload.Some? && s.snapshot.Some? && s.result.None?
      && s' == s.(result := Some(Verdict(s.upload.value, s.snapshot.value, s.counted)))
  }

  // ----- what every step keeps

  ghost predicate StreamOk(s: State)
  {
    && s.counted == |s.read| && s.hashed == s.read
    && (s.writeError.None? ==> s.wrote == s.read + Rest(s.offered))
    && s.read <= s.wrote
  }

  ghost predicate EndsOk(s: State)
  {
    && (s.snapshot.Some? ==> s.offered.None? && Propagates(s.writeError, s.snapshot.value))
    && (s.readerClosed ==> s.upload.Some?)
    && (s.writeError.Some? ==> s.readerClosed && s.upload.Some? && s.writeError.value == CloseCause(s.upload.value))
    && (s.writerClosed ==> s.snapshot.Some?)
    && (s.result.Some? ==>
          && s.upload.Some? && s.snapshot.Some?
          && s.result.value == Verdict(s.upload.value, s.snapshot.value, s.counted))
  }

  ghost predicate Inv(s: State) { StreamOk(s) && EndsOk(s) }

  lemma NextKeeps(s: State, a: Action, s': State)
    requires Inv(s) && Next(s, a, s')
    ensures Inv(s')
  {
    if a.Read? {
      var n := Min(a.want, |s.offered.value|);
      var chunk, rest := s.offered.value[..n], s.offered.value[n..];
      assert s.offered.value == chunk + rest;
      assert s.read + (chunk + rest) == (s.read + chunk) + rest;
    }
  }

  ghost predicate IsRun(states: seq<State>, actions: seq<Action>)
  {
    && |states| == |actions| + 1 && Init(states[0])
    && forall i {:trigger actions[i]} :: 0 <= i < |actions| ==> Next(states[i], actions[i], states[i + 1])
  }

  lemma {:induction false} RunInv(states: seq<State>, actions: seq<Action>, i: nat)
    requires IsRun(states, actions) && i < |states|
    ensures Inv(states[i])
    decreases i
  {
    if i > 0 {
      RunInv(states, actions, i - 1);
      NextKeeps(states[i - 1], actions[i - 1], states[i]);
    }
  }

  // ----- what a finished upload means

  /**
   * Conservation: when the upload is reported as done, Snapshot ended without error and
   * every byte it wrote, in order, was received, hashed and counted.
   */
  lemma UploadedConserves(states: seq<State>, actions: seq<Action>, i: nat)
    requires IsRun(states, actions) && i < |states| && states[i].result.Some? && states[i].result.value.Uploaded?
    ensures var s := states[i];
      && s.snapshot == Some(None) && s.upload == Some(None) && s.writeError.None?
      && s.wrote == s.read == s.hashed && s.result == Some(Uploaded(|s.wrote|))
  {
    RunInv(states, actions, i);
  }

  /** A storage client that stops early is always found out, even when it reports no error. */
  lemma EarlyStopFails(states: seq<State>, actions: seq<Action>, i: nat)
    requires IsRun(states, actions) && i < |states| && states[i].result.Some? && states[i].read != states[i].wrote
    ensures states[i].result.value.Failed?
    ensures states[i].upload == Some(None) ==> states[i].result.value == Failed(Snapshot)
  {
    RunInv(states, actions, i);
  }

  /** The storage side is blamed exactly when it failed and Snapshot did not fail by itself. */
  lemma BlameIsExact(states: seq<State>, actions: seq<Action>, i: nat)
    requires IsRun(states, actions) && i < |states| && states[i].result.Some?
    ensures states[i].upload.Some? && states[i].snapshot.Some?
    ensures var s := states[i];
      && (s.result.value == Failed(Storage) <==>
            s.upload.value.Some? && (s.snapshot.value.None? || s.writeError.Some?))
      && (s.result.value == Failed(Snapshot) <==>
            s.snapshot.value.Some? && (s.writeError.None? || s.upload.value.None?))
  {
    RunInv(states, actions, i);
  }

  /** Once Upload has returned nothing is left that can block: a stuck Write can be failed. */
  lemma NeverStuck(states: seq<State>, actions: seq<Action>, i: nat)
    requires IsRun(states, actions) && i < |states|
    requires states[i].upload.Some? && states[i].result.None?
    ensures exists a, s' :: Next(states[i], a, s') && s' != states[i] && !a.BeginWrite?
  {
    RunInv(states, actions, i);
    var s := states[i];
    if !s.readerClosed {
      assert Next(s, CloseReader, s.(readerClosed := true));
    } else if s.offered.Some? {
      assert Next(s, FailWrite, s.(offered := None, writeError := Some(CloseCause(s.upload.value))));
    } else if s.snapshot.None? {
      assert s.writeError.Some? ==> Propagates(s.writeError, s.writeError);
      assert Next(s, SnapshotReturns(s.writeError), s.(snapshot := Some(s.writeError)));
    } else if !s.writerClosed {
      assert Next(s, CloseWriter, s.(writerClosed := true));
    } else {
      assert Next(s, Decide, s.(result := Some(Verdict(s.upload.value, s.snapshot.value, s.counted))));
    }
  }

  // ----- publishing

  datatype Head = HeadFailed | Missing | Info(size: int)

  predicate Verified(upload: Result, head: Head)
  {
    upload.Uploaded? && upload.n > 0 && head == Info(upload.n)
  }

  /** publishBackupSnapshot with verifyBackupUpload and cleanupFailedBackup. */
  method PublishBackupSnapshot(upload: Result, head: Head, deleteFails: bool)
    returns (published: Option<nat>, deletes: nat, leftBehind: bool)
    ensures published.Some? <==> Verified(upload, head)
    ensures published.Some? ==> head == Info(published.value)
    ensures deletes == if published.Some? then 0 else 1
    ensures leftBehind <==> published.None? && deleteFails
  {
    if upload.Failed? {
      return None, 1, deleteFails;
    }
    match head {
      case HeadFailed => return None, 1, deleteFails;
      case Missing => return None, 1, deleteFails;
      case Info(size) =>
        if size == 0 || size != upload.n {
          return None, 1, deleteFails;
        }
        return Some(size), 0, false;
    }
  }

  /**
   * End to end: a published backup is a non-empty object of exactly the bytes Snapshot wrote,
   * as long as the store keeps some leading part of what it received and reports its size.
   */
  lemma PublishedIsTheSnapshot(states: seq<State>, actions: seq<Action>, i: nat, stored: Bytes)
    requires IsRun(states, actions) && i < |states| && states[i].result.Some?
    requires Verified(states[i].result.value, Info(|stored|)) && stored <= states[i].read
    ensures states[i].snapshot == Some(None) && stored == states[i].wrote == states[i].hashed != []
  {
    UploadedConserves(states, actions, i);
  }

  /** A run in which nothing fails: the states up to the end of the snapshot, ... */
  function StreamedState(content: Bytes, i: nat): State
  {
    var s := State([], None, None, None, false, 0, [], [], None, false, None);
    if i == 0 then s
    else if i == 1 then s.(wrote := content, offered := Some(content))
    else s.(wrote := content, counted := |content|, hashed := content, read := content)
  }

  /** ... and from there to the decision. */
  function FinishingState(content: Bytes, i: nat): State
  {
    var s := StreamedState(content, 2).(snapshot := Some(None));
    if i == 3 then s
    else if i == 4 then s.(writerClosed := true)
    else if i == 5 then s.(writerClosed := true, upload := Some(None))
    else if i == 6 then s.(writerClosed := true, upload := Some(None), readerClosed := true)
    else s.(writerClosed := true, upload := Some(None), readerClosed := true, result := Some(Uploaded(|content|)))
  }

  lemma Streams(content: Bytes)
    requires content != []
    ensures Next(StreamedState(content, 0), BeginWrite(content), StreamedState(content, 1))
    ensures Next(StreamedState(content, 1), Read(|content|), StreamedState(content, 2))
    ensures Next(StreamedState(content, 2), SnapshotReturns(None), FinishingState(content, 3))
  {
    assert content[..|content|] == content;
  }

  lemma Finishes(content: Bytes)
    requires content != []
    ensures Next(FinishingState(content, 3), CloseWriter, FinishingState(content, 4))
    ensures Next(FinishingState(content, 4), UploadReturns(None), FinishingState(content, 5))
    ensures Next(FinishingState(content, 5), CloseReader, FinishingState(content, 6))
    ensures Next(FinishingState(content, 6), Decide, FinishingState(content, 7))
  {}

  /** Every non-empty snapshot can be published this way. */
  lemma EverySnapshotCanBePublished(content: Bytes) returns (states: seq<State>, actions: seq<Action>)
    requires content != []
    ensures IsRun(states, actions)
    ensures var s := states[|actions|]; s.wrote == content && s.result == Some(Uploaded(|content|))
  {
    states := seq(8, (i: nat) => if i < 3 then StreamedState(content, i) else FinishingState(content, i));
    actions := [BeginWrite(content), Read(|content|), SnapshotReturns(None), CloseWriter, UploadReturns(None),
                CloseReader, Decide];
    Streams(content);
    Finishes(content);
  }
}
