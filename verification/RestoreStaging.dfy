// Staging a restore: download into a scratch file, hash, probe, claim, POST, clean up.
//
// Every I/O operation may fail.  What the outside world answers is a parameter, so each
// contract covers every chunking of the download and every combination of failures.

module RestoreStaging {
  import opened Options
  import RestoreProtocol

  type Bytes = RestoreProtocol.Bytes
  type Digest = RestoreProtocol.Digest

  /** Err of one Read: nil, io.EOF, or anything else (a cancelled context included). */
  datatype Outcome = More | Eof | Failed

  datatype Answer = Answer(bytes: Bytes, outcome: Outcome)

  /** What Read returns for a buffer of `want` bytes, and what is left to be read. */
  function NextRead(script: seq<Answer>, want: nat): (r: (Bytes, Outcome, seq<Answer>))
    ensures |r.0| <= want
    ensures script == [] ==> r.1 == Eof
    ensures want > 0 && script != [] ==> Weight(r.2) < Weight(script)
  {
    if script == [] then ([], Eof, [])
    else
      var a := script[0];
      if |a.bytes| <= want then (a.bytes, a.outcome, script[1..])
      else (a.bytes[..want], More, [a.(bytes := a.bytes[want..])] + script[1..])
  }

  function Weight(script: seq<Answer>): nat
  {
    if script == [] then 0 else |script[0].bytes| + 1 + Weight(script[1..])
  }

  /** The script delivers exactly `content`, in some chunking, and then end of file. */
  ghost predicate Delivers(script: seq<Answer>, content: Bytes)
  {
    if script == [] then content == []
    else
      match script[0].outcome
      case More => script[0].bytes <= content && Delivers(script[1..], content[|script[0].bytes|..])
      case Eof => script[0].bytes == content && script[1..] == []
      case Failed => false
  }

  lemma DeliversNext(script: seq<Answer>, content: Bytes, want: nat)
    requires Delivers(script, content)
    ensures var (chunk, outcome, rest) := NextRead(script, want);
      && outcome != Failed && chunk <= content && Delivers(rest, content[|chunk|..])
      && (outcome == Eof ==> chunk == content)
  {
    if script != [] && |script[0].bytes| > want {
      DeliversPart(script, content, want);
    }
  }

  /** An answer that is longer than asked for is given in two parts. */
  lemma DeliversPart(script: seq<Answer>, content: Bytes, want: nat)
    requires Delivers(script, content) && script != [] && |script[0].bytes| > want
    ensures script[0].bytes[..want] <= content
    ensures Delivers([script[0].(bytes := script[0].bytes[want..])] + script[1..], content[want..])
  {
    var a := script[0];
    var rest := [a.(bytes := a.bytes[want..])] + script[1..];
    assert rest[1..] == script[1..];
    assert a.bytes <= content;
    assert content[want..][|a.bytes| - want..] == content[|a.bytes|..];
  }

  /** `done` has been read of `content`, and the rest is still to come. */
  ghost predicate OnTrack(script: seq<Answer>, done: Bytes, content: Bytes)
  {
    done <= content && Delivers(script, content[|done|..])
  }

  lemma StaysOnTrack(script: seq<Answer>, done: Bytes, content: Bytes, want: nat)
    requires OnTrack(script, done, content)
    ensures var (chunk, outcome, rest) := NextRead(script, want);
      outcome != Failed && OnTrack(rest, done + chunk, content) && (outcome == Eof ==> done + chunk == content)
  {
    var rest := content[|done|..];
    DeliversNext(script, rest, want);
    AfterBoth(done, NextRead(script, want).0, content);
  }

  /** What is left after two consecutive parts. */
  lemma AfterBoth(done: Bytes, chunk: Bytes, content: Bytes)
    requires done <= content && chunk <= content[|done|..]
    ensures done + chunk <= content && content[|done|..][|chunk|..] == content[|done + chunk|..]
    ensures chunk == content[|done|..] ==> done + chunk == content
  {
    assert content == done + content[|done|..];
  }

  class Source {
    var script: seq<Answer>
    ghost var delivered: Bytes

    constructor (script: seq<Answer>)
      ensures this.script == script && delivered == []
    {
      this.script := script;
      delivered := [];
    }

    method Read(want: nat) returns (chunk: Bytes, outcome: Outcome)
      modifies this
      ensures (chunk, outcome, script) == NextRead(old(script), want)
      ensures delivered == old(delivered) + chunk
    {
      var r := NextRead(script, want);
      chunk, outcome, script := r.0, r.1, r.2;
      delivered := delivered + chunk;
    }
  }

  /** The scratch file: its bytes, its offset, and how much the disk can still take. */
  class ScratchFile {
    var contents: Bytes
    var offset: nat
    var room: nat
    var isOpen: bool
    var present: bool

    constructor (room: nat)
      ensures contents == [] && offset == 0 && this.room == room && isOpen && present
    {
      contents, offset, this.room, isOpen, present := [], 0, room, true, true;
    }

    method Append(chunk: Bytes) returns (written: nat)
      modifies `contents, `room, `offset
      ensures written == Min(|chunk|, old(room)) && room == old(room) - written
      ensures contents == old(contents) + chunk[..written] && offset == |contents|
    {
      written := Min(|chunk|, room);
      contents, room := contents + chunk[..written], room - written;
      offset := |contents|;
    }

    /** stagedRestoreSnapshot.Close: both are attempted, and the file stays if removing it fails. */
    method CloseAndRemove(removeFails: bool)
      modifies `isOpen, `present
      ensures !isOpen && present == removeFails
    {
      isOpen, present := false, removeFails;
    }
  }

  function Min(a: nat, b: nat): nat { if a <= b then a else b }

  /**
   * io.Copy from a LimitReader of `size` bytes into the file and the hash, `buffer` bytes at
   * a time.  `content` is only there to say what happens when the stream delivers it.
   */
  method CopyLimited(file: ScratchFile, source: Source, size: nat, buffer: nat, ghost content: Bytes)
    returns (n: nat, hashed: Bytes, failed: bool)
    requires buffer > 0 && file.contents == [] && source.delivered == []
    modifies source, file`contents, file`room, file`offset
    ensures |file.contents| <= size && file.contents <= source.delivered
    ensures !failed ==> n == |hashed| && file.contents == hashed == source.delivered
    ensures Delivers(old(source.script), content) ==>
      var k := Min(|content|, size);
      && (failed <==> old(file.room) < k)
      && (!failed ==> hashed == content[..k] && Delivers(source.script, content[k..]))
  {
    n, hashed, failed := 0, [], false;
    ghost var faithful := Delivers(source.script, content);
    assert content[0..] == content;
    var outcome := More;
    while n < size && outcome == More
      invariant n == |hashed| <= size && file.contents == hashed == source.delivered
      invariant file.room == old(file.room) - n
      invariant faithful ==> outcome != Failed && OnTrack(source.script, hashed, content)
      invariant faithful && outcome == Eof ==> hashed == content
      decreases Weight(source.script), outcome == More
    {
      if faithful {
        StaysOnTrack(source.script, hashed, content, Min(buffer, size - n));
      }
      var chunk;
      chunk, outcome := source.Read(Min(buffer, size - n));
      var written := file.Append(chunk);
      if written < |chunk| {
        return n + written, hashed, true;
      }
      assert chunk[..written] == chunk;
      n, hashed := n + written, hashed + chunk;
    }
    failed := outcome == Failed;
  }

  /** io.ReadFull of one byte. */
  method Probe(source: Source, ghost content: Bytes) returns (next: nat, outcome: Outcome)
    modifies source
    ensures next == |source.delivered| - |old(source.delivered)| <= 1
    ensures next == 0 ==> outcome != More && source.delivered == old(source.delivered)
    ensures Delivers(old(source.script), content) ==>
      (next == 0 <==> content == []) && (next == 0 ==> outcome == Eof)
  {
    next, outcome := 0, More;
    ghost var faithful := Delivers(source.script, content);
    while next == 0 && outcome == More
      invariant next == |source.delivered| - |old(source.delivered)| <= 1
      invariant next == 0 ==> source.delivered == old(source.delivered)
      invariant faithful && next == 0 ==> Delivers(source.script, content) && outcome != Failed
      invariant faithful && outcome == Eof && next == 0 ==> content == []
      invariant faithful && next != 0 ==> content != []
      decreases Weight(source.script), outcome == More
    {
      if faithful {
        DeliversNext(source.script, content, 1);
        assert content[0..] == content;
      }
      var chunk;
      chunk, outcome := source.Read(1);
      next := |chunk|;
    }
  }

  /** The failures around the copy itself. */
  datatype Faults = Faults(
    expiredAtStart: bool, downloadFails: bool, expiredAtStage: bool, createFails: bool,
    room: nat, syncFails: bool, seekFails: bool, expiredAtEnd: bool, closeFails: bool,
    scratchCloseFails: bool, removeFails: bool)

  ghost predicate Clean(f: Faults, size: nat)
  {
    && !f.expiredAtStart && !f.downloadFails && !f.expiredAtStage && !f.createFails && size <= f.room
    && !f.syncFails && !f.seekFails && !f.expiredAtEnd && !f.closeFails
  }

  /** writeRestoreSnapshot */
  method WriteRestoreSnapshot(h: Digest, file: ScratchFile, source: Source, size: nat, buffer: nat, f: Faults,
                              ghost content: Bytes)
    returns (digest: Option<string>)
    requires buffer > 0 && file.contents == [] && source.delivered == []
    modifies source, file`contents, file`room, file`offset
    ensures |file.contents| <= size
    ensures digest.Some? ==>
      && |file.contents| == size && file.offset == 0
      && digest.value == h(file.contents) && source.delivered == file.contents
    ensures Delivers(old(source.script), content) ==>
      && (digest.Some? <==> |content| == size <= old(file.room) && !f.syncFails && !f.seekFails && !f.expiredAtEnd)
      && (digest.Some? ==> file.contents == content)
  {
    var n, hashed, failed := CopyLimited(file, source, size, buffer, content);
    if failed || n != size {
      return None;
    }
    assert Delivers(old(source.script), content) ==>
        |content| >= size && Delivers(source.script, content[size..]) && hashed == content[..size];
    var next, outcome := Probe(source, if |content| >= size then content[size..] else []);
    if next != 0 || outcome != Eof {
      return None;
    }
    if f.syncFails || f.seekFails {
      return None;
    }
    file.offset := 0;
    if f.expiredAtEnd {
      return None;
    }
    return Some(h(hashed));
  }

  /** What HEAD answers. */
  datatype Head = HeadFailed | NoInfo | Info(size: int)

  /** The declared size passes the size check. */
  predicate Acceptable(head: Head, maxBytes: int)
  {
    head.Info? && 0 < head.size <= maxBytes
  }

  datatype Staged = Staged(file: ScratchFile, digest: string, size: nat)

  /**
   * Whatever scratch file was made is within the limit.  It is open only when it is handed out,
   * and otherwise gone, unless removing it failed.
   */
  ghost predicate Tidy(made: Option<ScratchFile>, kept: bool, f: Faults, maxBytes: int)
    reads if made.Some? then {made.value} else {}
  {
    made.Some? ==>
      && |made.value.contents| <= maxBytes && made.value.isOpen == kept
      && (made.value.present <==> kept || f.removeFails)
  }

  /** The staged file is the one made, and holds what its digest and size say. */
  ghost predicate Faithful(h: Digest, staged: Staged, made: Option<ScratchFile>, head: Head, maxBytes: int)
    reads staged.file
  {
    && made == Some(staged.file) && Acceptable(head, maxBytes) && staged.size == head.size == |staged.file.contents|
    && staged.file.offset == 0 && staged.digest == h(staged.file.contents)
  }

  /** stageRestoreSnapshot */
  method StageRestoreSnapshot(h: Digest, source: Source, size: nat, buffer: nat, f: Faults, ghost content: Bytes)
    returns (staged: Option<Staged>, made: Option<ScratchFile>)
    requires buffer > 0 && source.delivered == []
    modifies source
    ensures made.Some? ==> fresh(made.value)
    ensures Tidy(made, staged.Some?, f, size)
    ensures staged.Some? && size > 0 ==> Faithful(h, staged.value, made, Info(size), size)
    ensures staged.Some? ==> made == Some(staged.value.file) && source.delivered == staged.value.file.contents
    ensures Delivers(old(source.script), content) ==>
      && (staged.Some? <==> |content| == size <= f.room && !f.expiredAtStage && !f.createFails
                            && !f.syncFails && !f.seekFails && !f.expiredAtEnd)
      && (staged.Some? ==> staged.value.file.contents == content)
  {
    if f.expiredAtStage || f.createFails {
      return None, None;
    }
    var file := new ScratchFile(f.room);
    var digest := WriteRestoreSnapshot(h, file, source, size, buffer, f, content);
    if digest.None? {
      file.CloseAndRemove(f.removeFails);
      return None, Some(file);
    }
    return Some(Staged(file, digest.value, size)), Some(file);
  }

  /** downloadRestoreSnapshot */
  method DownloadRestoreSnapshot(h: Digest, head: Head, script: seq<Answer>, maxBytes: int, buffer: nat, f: Faults,
                                 ghost content: Bytes)
    returns (staged: Option<Staged>, made: Option<ScratchFile>)
    requires buffer > 0
    ensures made.Some? ==> fresh(made.value)
    ensures Tidy(made, staged.Some?, f, maxBytes)
    ensures staged.Some? ==> Faithful(h, staged.value, made, head, maxBytes)
    ensures Delivers(script, content) ==>
      && (staged.Some? <==> Acceptable(head, maxBytes) && head.size == |content| && Clean(f, |content|))
      && (staged.Some? ==> staged.value.file.contents == content)
  {
    if f.expiredAtStart || !Acceptable(head, maxBytes) || f.downloadFails {
      return None, None;
    }
    var source := new Source(script);
    staged, made := StageRestoreSnapshot(h, source, head.size, buffer, f, content);
    if f.closeFails {
      if staged.Some? {
        staged.value.file.CloseAndRemove(f.removeFails);
        staged := None;
      }
    }
  }

  // ----- from the staged file to the POST

  /** What happens between staging and the POST. */
  datatype Gate = Gate(connects: bool, expiredBeforeClaim: bool, claims: bool, expiredAfterClaim: bool, accepted: bool)

  /** The digest and size sent to ClaimRestore. */
  datatype Bound = Bound(digest: string, size: nat)

  /**
   * executeRestore.  At most one POST, of exactly the bytes whose digest and size were
   * claimed just before it; no claim without a staged file; no scratch file is left
   * behind unless removing it fails, which is reported even after the POST.
   */
  method ExecuteRestore(h: Digest, head: Head, script: seq<Answer>, maxBytes: int, buffer: nat, f: Faults, gate: Gate,
                        ghost content: Bytes)
    returns (ok: bool, claimed: seq<Bound>, posted: seq<Bytes>, made: Option<ScratchFile>)
    requires buffer > 0
    ensures made.Some? ==> fresh(made.value)
    ensures Tidy(made, false, f, maxBytes)
    ensures |posted| <= |claimed| <= 1
    ensures posted != [] ==>
      && claimed == [Bound(h(posted[0]), |posted[0]|)]
      && head == Info(|posted[0]|) && 0 < |posted[0]| <= maxBytes
      && gate == Gate(true, false, true, false, gate.accepted)
    ensures claimed != [] ==> Acceptable(head, maxBytes) && claimed[0].size == head.size
    ensures ok <==> posted != [] && gate.accepted && !f.scratchCloseFails && !f.removeFails
    ensures Delivers(script, content) ==>
      && (claimed != [] <==> Acceptable(head, maxBytes) && head.size == |content| && Clean(f, |content|)
                             && gate.connects && !gate.expiredBeforeClaim)
      && (claimed != [] ==> claimed[0] == Bound(h(content), |content|))
      && (posted != [] <==> claimed != [] && gate.claims && !gate.expiredAfterClaim)
      && (posted != [] ==> posted == [content])
  {
    ok, claimed, posted := false, [], [];
    var staged;
    staged, made := DownloadRestoreSnapshot(h, head, script, maxBytes, buffer, f, content);
    if staged.None? {
      return;
    }
    if gate.connects && !gate.expiredBeforeClaim {
      claimed := [Bound(staged.value.digest, staged.value.size)];
      if gate.claims && !gate.expiredAfterClaim {
        var file := staged.value.file;
        posted := [file.contents[file.offset..]];
        assert posted[0] == file.contents;
        ok := gate.accepted && !f.scratchCloseFails && !f.removeFails;
      }
    }
    staged.value.file.CloseAndRemove(f.removeFails);
  }
}
