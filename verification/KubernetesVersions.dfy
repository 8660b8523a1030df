// Kubernetes version references of the end-to-end plan, and the rotation over them.

module KubernetesVersions {
  import opened Options
  import opened Strings

  /** kubernetesVersionPolicy */
  datatype Versions = Versions(primary: string, compatibility: seq<string>, releaseGate: seq<string>)

  function Normalized(versions: seq<string>): (r: seq<string>)
    ensures "" !in r
  {
    if versions == [] then []
    else
      var init, last := Normalized(versions[..|versions| - 1]), Trim(versions[|versions| - 1]);
      if last != "" then init + [last] else init
  }

  /** kubernetesVersionsForRef, for a trimmed reference. */
  function ForRef(k: Versions, ref: string): Option<seq<string>>
  {
    if ref == "@primary" then Some([Trim(k.primary)])
    else if ref == "@compatibility" then Some(Normalized(k.compatibility))
    else if ref == "@releaseGate" then Some(Normalized(k.releaseGate))
    else if "@" <= ref then None
    else Some([ref])
  }

  predicate Known(k: Versions, refs: seq<string>)
  {
    forall ref :: ref in refs ==> ForRef(k, Trim(ref)).Some?
  }

  /** Some reference of the list stands for this version. */
  predicate Denotes(k: Versions, refs: seq<string>, version: string)
  {
    version != "" && exists ref :: ref in refs && ForRef(k, Trim(ref)).Some? && version in ForRef(k, Trim(ref)).value
  }

  ghost predicate Distinct(s: seq<string>)
  {
    forall i, j :: 0 <= i < j < |s| ==> s[i] != s[j]
  }

  /** `versions` after `found`, without blanks and repeats: first occurrences in order. */
  function Added(found: seq<string>, versions: seq<string>): seq<string>
  {
    if versions == [] then found
    else
      var before, last := Added(found, versions[..|versions| - 1]), versions[|versions| - 1];
      if last != "" && last !in before then before + [last] else before
  }

  /** The versions of the references, each at its first occurrence. */
  function InOrder(k: Versions, refs: seq<string>): seq<string>
  {
    if refs == [] then []
    else
      var versions := ForRef(k, Trim(refs[|refs| - 1]));
      Added(InOrder(k, refs[..|refs| - 1]), if versions.Some? then versions.value else [])
  }

  /** resolveKubernetesRefs: every version referred to, once; an error if unknown or nothing. */
  method ResolveKubernetesRefs(k: Versions, refs: seq<string>) returns (resolved: Option<seq<string>>)
    ensures resolved.Some? <==> Known(k, refs) && exists version :: Denotes(k, refs, version)
    ensures resolved.Some? ==>
      && resolved.value == InOrder(k, refs) && Distinct(resolved.value)
      && forall version :: version in resolved.value <==> Denotes(k, refs, version)
  {
    var found: seq<string> := [];
    for i := 0 to |refs|
      invariant Known(k, refs[..i]) && Distinct(found) && found == InOrder(k, refs[..i])
      invariant forall version :: version in found <==> Denotes(k, refs[..i], version)
    {
      assert refs[i] in refs && refs[..i + 1] == refs[..i] + [refs[i]] && refs[..i + 1][..i] == refs[..i];
      var versions := ForRef(k, Trim(refs[i]));
      if versions.None? {
        return None;
      }
      found := AddNew(found, versions.value);
    }
    assert refs[..|refs|] == refs;
    if found == [] {
      return None;
    }
    assert found[0] in found;
    return Some(found);
  }

  method AddNew(found: seq<string>, versions: seq<string>) returns (r: seq<string>)
    requires Distinct(found)
    ensures Distinct(r) && forall v :: v in r <==> v in found || (v != "" && v in versions)
    ensures r == Added(found, versions)
  {
    r := found;
    for i := 0 to |versions|
      invariant r == Added(found, versions[..i])
      invariant Distinct(r) && forall v :: v in r <==> v in found || (v != "" && v in versions[..i])
    {
      assert versions[..i + 1] == versions[..i] + [versions[i]] && versions[..i + 1][..i] == versions[..i];
      if versions[i] != "" && versions[i] !in r {
        r := r + [versions[i]];
      }
    }
    assert versions[..|versions|] == versions;
  }

  // ----- rotation

  /** The compatibility version whose turn it is. */
  function Selected(k: Versions, index: nat): (r: string)
    requires Normalized(k.compatibility) != []
    ensures r in Normalized(k.compatibility)
  {
    var c := Normalized(k.compatibility);
    c[index % |c|]
  }

  predicate CanRotate(k: Versions, versions: seq<string>, index: nat)
  {
    Normalized(k.compatibility) != [] && Selected(k, index) in versions
  }

  /** A version takes part in a run: always, unless it is a compatibility version out of turn. */
  predicate TakesPart(k: Versions, index: nat, version: string)
  {
    version !in Normalized(k.compatibility) || version == Selected(k, index)
  }

  /** The versions that take part, in order. */
  function Participants(k: Versions, index: nat, versions: seq<string>): seq<string>
  {
    if versions == [] then []
    else
      var before, last := Participants(k, index, versions[..|versions| - 1]), versions[|versions| - 1];
      if TakesPart(k, index, last) then before + [last] else before
  }

  lemma {:induction false} ParticipantsMembers(k: Versions, index: nat, versions: seq<string>)
    ensures forall v :: v in Participants(k, index, versions) <==> v in versions && TakesPart(k, index, v)
    ensures Distinct(versions) ==> Distinct(Participants(k, index, versions))
    decreases |versions|
  {
    if versions != [] {
      ParticipantsMembers(k, index, versions[..|versions| - 1]);
      assert versions == versions[..|versions| - 1] + [versions[|versions| - 1]];
      assert Distinct(versions) ==> versions[|versions| - 1] !in versions[..|versions| - 1];
    }
  }

  /** rotateCompatibilityVersions: exactly one compatibility version is left, and all others. */
  method RotateCompatibilityVersions(k: Versions, versions: seq<string>, index: nat)
    returns (rotated: Option<seq<string>>)
    ensures rotated.Some? <==> CanRotate(k, versions, index)
    ensures rotated.Some? ==>
      && rotated.value == Participants(k, index, versions) && (Distinct(versions) ==> Distinct(rotated.value))
      && (forall v :: v in rotated.value <==> v in versions && TakesPart(k, index, v))
      && (set v | v in rotated.value && v in Normalized(k.compatibility)) == {Selected(k, index)}
  {
    var compatibility := Normalized(k.compatibility);
    if compatibility == [] {
      return None;
    }
    var selected := compatibility[index % |compatibility|];
    var found := false;
    var kept: seq<string> := [];
    for i := 0 to |versions|
      invariant kept == Participants(k, index, versions[..i])
      invariant found <==> selected in versions[..i]
    {
      assert versions[..i + 1] == versions[..i] + [versions[i]] && versions[..i + 1][..i] == versions[..i];
      if versions[i] !in compatibility || versions[i] == selected {
        kept := kept + [versions[i]];
      }
      if versions[i] == selected {
        found := true;
      }
    }
    assert versions[..|versions|] == versions;
    if !found {
      return None;
    }
    ParticipantsMembers(k, index, versions);
    return Some(kept);
  }

  /** Any window as long as the compatibility list has a turn for every position. */
  lemma TurnInWindow(n: nat, start: nat, j: nat) returns (index: nat)
    requires j < n
    ensures start <= index < start + n && index % n == j
  {
    var d := (j + n - start % n) % n;
    index := start + d;
    ModShift(start, d, j, n);
  }

  lemma ModShift(start: nat, d: nat, j: nat, n: nat)
    requires j < n && d == (j + n - start % n) % n
    ensures (start + d) % n == j
  {
    var r, q := start % n, start / n;
    assert start == q * n + r;
    if j >= r {
      Quotient(1, j - r, n);
      assert d == j - r;
      Quotient(q, j, n);
      assert start + d == q * n + j;
    } else {
      Quotient(0, j + n - r, n);
      assert d == j + n - r;
      Quotient(q + 1, j, n);
      assert (q + 1) * n == q * n + n;
      assert start + d == (q + 1) * n + j;
    }
  }

  lemma SmallMultiple(k: int, n: int)
    requires -n < k * n < n
    ensures k == 0
  {}

  lemma Quotient(q: nat, r: nat, n: nat)
    requires r < n
    ensures (q * n + r) % n == r
  {
    var x := q * n + r;
    var q', r' := x / n, x % n;
    assert x == q' * n + r';
    assert (q - q') * n == q * n - q' * n;
    SmallMultiple(q - q', n);
  }

  /** Some night can have this version: it is one in turn, or some turn falls into the lane set. */
  ghost predicate HasTurn(k: Versions, versions: seq<string>, v: string)
  {
    v in Normalized(k.compatibility) || exists c :: c in Normalized(k.compatibility) && c in versions
  }

  /**
   * Fairness: over any window of as many consecutive indices as there are compatibility
   * versions, rotation succeeds at some index and the version takes part.
   */
  lemma RotationIsFair(k: Versions, versions: seq<string>, start: nat, v: string) returns (index: nat)
    requires v in versions && HasTurn(k, versions, v)
    ensures start <= index < start + |Normalized(k.compatibility)|
    ensures CanRotate(k, versions, index) && TakesPart(k, index, v)
  {
    var c := Normalized(k.compatibility);
    var turn := v;
    if v !in c {
      turn :| turn in c && turn in versions;
    }
    var j :| 0 <= j < |c| && c[j] == turn;
    index := TurnInWindow(|c|, start, j);
  }

  /** A version of a lane set ever takes part in a successful rotation exactly when it has a turn. */
  lemma EverTakesPartIff(k: Versions, versions: seq<string>, v: string)
    requires v in versions
    ensures (exists index: nat :: CanRotate(k, versions, index) && TakesPart(k, index, v)) <==> HasTurn(k, versions, v)
  {
    if HasTurn(k, versions, v) {
      var index := RotationIsFair(k, versions, 0, v);
    }
    if index: nat :| CanRotate(k, versions, index) && TakesPart(k, index, v) {
      assert Selected(k, index) in versions;
    }
  }

  /** Rotation works at every index exactly when the lane set has every compatibility version. */
  lemma RotatesAlwaysIff(k: Versions, versions: seq<string>)
    ensures (forall index: nat :: CanRotate(k, versions, index))
      <==> Normalized(k.compatibility) != [] && forall v :: v in Normalized(k.compatibility) ==> v in versions
  {
    var c := Normalized(k.compatibility);
    if forall index: nat :: CanRotate(k, versions, index) {
      assert CanRotate(k, versions, 0);
      forall v | v in c ensures v in versions {
        var j :| 0 <= j < |c| && c[j] == v;
        var index := TurnInWindow(|c|, 0, j);
        assert CanRotate(k, versions, index);
      }
    }
  }
}
