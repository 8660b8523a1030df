// What the manifest validator guarantees the nightly planner, and what it does not.

module NightlyProgress {
  import opened Options
  import opened Strings
  import opened KubernetesVersions
  import opened NightlyPlan

  /** No filter, at some rotation index. */
  function Unfiltered(index: nat): Filters { Filters("", "", index) }

  lemma {:induction false} NormalizedMembers(versions: seq<string>)
    ensures forall v :: v in versions && Trim(v) != "" ==> Trim(v) in Normalized(versions)
    decreases |versions|
  {
    if versions != [] {
      NormalizedMembers(versions[..|versions| - 1]);
      assert versions == versions[..|versions| - 1] + [versions[|versions| - 1]];
    }
  }

  /** An accepted reference stands for at least one version. */
  lemma RefDenotes(k: Versions, refs: seq<string>, ref: string) returns (version: string)
    requires ref in refs && RefOk(k, ref)
    ensures ForRef(k, Trim(ref)).Some? && Denotes(k, refs, version)
  {
    var versions := ForRef(k, Trim(ref)).value;
    version := versions[0];
    assert version in versions;
  }

  lemma AcceptedRefsResolve(k: Versions, refs: seq<string>)
    requires refs != [] && forall ref :: ref in refs ==> RefOk(k, ref)
    ensures Resolves(k, refs)
  {
    forall ref | ref in refs ensures ForRef(k, Trim(ref)).Some? {
      var _ := RefDenotes(k, refs, ref);
    }
    var version := RefDenotes(k, refs, refs[0]);
  }

  lemma {:induction false} ProfileIsFound(profiles: seq<Profile>, i: nat)
    requires i < |profiles| && forall a, b :: 0 <= a < b < |profiles| ==> profiles[a].id != profiles[b].id
    ensures FindProfile(profiles, profiles[i].id) == Some(profiles[i])
    decreases |profiles|
  {
    if i > 0 {
      assert profiles[0].id != profiles[i].id;
      ProfileIsFound(profiles[1..], i - 1);
    }
  }

  /** In an accepted manifest only the rotation can keep a lane set from being planned. */
  lemma LaneSetPlansIff(m: Manifest, group: LaneSet, index: nat)
    requires LaneSetOk(m, group)
    ensures LaneSetPlans(m, group, Unfiltered(index))
      <==> (group.rotate ==> TurnAvailable(m.kubernetes, group.kubernetes, index))
  {
    AcceptedRefsResolve(m.kubernetes, group.kubernetes);
  }

  lemma ConfigAlwaysPlans(m: Manifest, config: RowConfig)
    requires RowConfigOk(m, config)
    ensures ConfigPlans(m, config)
  {
    AcceptedRefsResolve(m.kubernetes, [config.kubernetes]);
  }

  /** A lane set that is planned yields a row. */
  lemma LaneSetHasRow(m: Manifest, group: LaneSet, index: nat) returns (row: Row)
    requires LaneSetOk(m, group) && LaneSetPlans(m, group, Unfiltered(index))
    ensures FromLaneSet(m.kubernetes, group, Unfiltered(index), row)
  {
    assert group.lanes[0] in group.lanes;
    if group.rotate {
      row := Row(group.lanes[0], Selected(m.kubernetes, index), group.coverage);
    } else {
      var version :| Denotes(m.kubernetes, group.kubernetes, version);
      row := Row(group.lanes[0], version, group.coverage);
    }
  }

  lemma ConfigHasRow(m: Manifest, config: RowConfig, index: nat) returns (row: Row)
    requires RowConfigOk(m, config)
    ensures FromConfig(m.kubernetes, config, Unfiltered(index), row)
  {
    var version := RefDenotes(m.kubernetes, [config.kubernetes], config.kubernetes);
    row := Row(config.lane, version, config.coverage);
  }

  lemma ProfileHasRow(m: Manifest, p: Profile, index: nat) returns (row: Row)
    requires ProfileOk(m, p) && ProfilePlans(m, p, Unfiltered(index))
    ensures Planned(m, p, Unfiltered(index), row)
  {
    if p.laneSets != [] {
      assert p.laneSets[0] in p.laneSets;
      row := LaneSetHasRow(m, p.laneSets[0], index);
    } else {
      assert p.rows[0] in p.rows;
      row := ConfigHasRow(m, p.rows[0], index);
    }
  }

  /** Every rotating lane set of the profile finds its turn at this index. */
  ghost predicate TurnsFound(k: Versions, p: Profile, index: nat)
  {
    forall group :: group in p.laneSets && group.rotate ==> TurnAvailable(k, group.kubernetes, index)
  }

  lemma ProfilePlansIff(m: Manifest, p: Profile, index: nat)
    requires ProfileOk(m, p)
    ensures ProfilePlans(m, p, Unfiltered(index)) <==> TurnsFound(m.kubernetes, p, index)
  {
    var f := Unfiltered(index);
    forall group | group in p.laneSets
      ensures LaneSetPlans(m, group, f) <==> (group.rotate ==> TurnAvailable(m.kubernetes, group.kubernetes, index))
    {
      LaneSetPlansIff(m, group, index);
    }
    forall config | config in p.rows ensures ConfigPlans(m, config) {
      ConfigAlwaysPlans(m, config);
    }
  }

  /** For an accepted manifest, planning at one index fails only through a rotating lane set. */
  lemma PlannableIff(m: Manifest, i: nat, index: nat)
    requires ValidatorAccepts(m) && EmulatorsOk(m) && i < |m.profiles|
    ensures Plannable(m, m.profiles[i].id, Unfiltered(index)) <==> TurnsFound(m.kubernetes, m.profiles[i], index)
  {
    var p, f := m.profiles[i], Unfiltered(index);
    ProfileIsFound(m.profiles, i);
    ProfilePlansIff(m, p, index);
    if ProfilePlans(m, p, f) {
      var row := ProfileHasRow(m, p, index);
    }
  }

  /** The lane set refers, in whatever way, to every compatibility version. */
  ghost predicate RefersToAllCompatibility(k: Versions, refs: seq<string>)
  {
    forall v :: v in Normalized(k.compatibility) ==> Denotes(k, refs, v)
  }

  lemma TurnsAvailableIff(k: Versions, refs: seq<string>)
    requires Normalized(k.compatibility) != []
    ensures (forall index: nat :: TurnAvailable(k, refs, index)) <==> RefersToAllCompatibility(k, refs)
  {
    var c := Normalized(k.compatibility);
    if forall index: nat :: TurnAvailable(k, refs, index) {
      forall v | v in c ensures Denotes(k, refs, v) {
        var j :| 0 <= j < |c| && c[j] == v;
        var index := TurnInWindow(|c|, 0, j);
        assert TurnAvailable(k, refs, index);
      }
    }
  }

  ghost predicate RotatesOverAll(k: Versions, p: Profile)
  {
    forall group :: group in p.laneSets && group.rotate ==> RefersToAllCompatibility(k, group.kubernetes)
  }

  lemma TurnsAlwaysFoundIff(k: Versions, p: Profile)
    requires Normalized(k.compatibility) != []
    ensures (forall index: nat :: TurnsFound(k, p, index)) <==> RotatesOverAll(k, p)
  {
    if forall index: nat :: TurnsFound(k, p, index) {
      forall group | group in p.laneSets && group.rotate ensures RefersToAllCompatibility(k, group.kubernetes) {
        forall index: nat ensures TurnAvailable(k, group.kubernetes, index) {
          assert TurnsFound(k, p, index);
        }
        TurnsAvailableIff(k, group.kubernetes);
      }
    }
  }

  /**
   * The validator alone does not guarantee progress.  Given it, and valid emulator settings,
   * every profile can be planned at every rotation index exactly when each of its rotating
   * lane sets refers to every compatibility version.
   */
  lemma AlwaysPlannableIff(m: Manifest, i: nat)
    requires ValidatorAccepts(m) && EmulatorsOk(m) && i < |m.profiles|
    ensures (forall index: nat :: Plannable(m, m.profiles[i].id, Unfiltered(index)))
      <==> RotatesOverAll(m.kubernetes, m.profiles[i])
  {
    var p, k := m.profiles[i], m.kubernetes;
    NormalizedMembers(k.compatibility);
    assert k.compatibility[0] in k.compatibility;
    forall index: nat ensures Plannable(m, p.id, Unfiltered(index)) <==> TurnsFound(k, p, index) {
      PlannableIff(m, i, index);
    }
    TurnsAlwaysFoundIff(k, p);
  }

  /** Naming the compatibility set is one way to refer to all of it. */
  lemma CompatibilityReferenceSuffices(k: Versions, refs: seq<string>, ref: string)
    requires ref in refs && Trim(ref) == "@compatibility"
    ensures RefersToAllCompatibility(k, refs)
  {
    forall v | v in Normalized(k.compatibility) ensures Denotes(k, refs, v) {
      assert ForRef(k, Trim(ref)) == Some(Normalized(k.compatibility));
    }
  }

  // ----- fairness

  /**
   * A turn at which every rotating lane set of the profile can be planned, and at which the
   * version takes part in this one.
   */
  ghost predicate SharedTurn(k: Versions, p: Profile, group: LaneSet, version: string, turn: string)
  {
    && turn in Normalized(k.compatibility)
    && (forall other :: other in p.laneSets && other.rotate ==> Denotes(k, other.kubernetes, turn))
    && (group.rotate && version in Normalized(k.compatibility) ==> version == turn)
  }

  lemma TurnAt(k: Versions, p: Profile, group: LaneSet, version: string, index: nat)
    requires Normalized(k.compatibility) != [] && group in p.laneSets
    ensures TurnsFound(k, p, index) && (group.rotate ==> TakesPart(k, index, version))
      <==> SharedTurn(k, p, group, version, Selected(k, index))
  {}

  /** On this night the profile is planned with this lane on this version, from this lane set. */
  ghost predicate PlannedOn(m: Manifest, i: nat, group: LaneSet, row: Row, index: nat)
    requires i < |m.profiles|
  {
    Plannable(m, m.profiles[i].id, Unfiltered(index)) && FromLaneSet(m.kubernetes, group, Unfiltered(index), row)
  }

  /**
   * Fairness of the plan: when the version of a lane set shares a turn with the other rotating
   * lane sets, then within any window of as many consecutive indices as there are compatibility
   * versions the profile is planned on some night with every lane of the set on that version.
   */
  lemma NightlyIsFair(m: Manifest, i: nat, group: LaneSet, version: string, lane: string, start: nat, turn: string)
    returns (index: nat)
    requires ValidatorAccepts(m) && EmulatorsOk(m) && i < |m.profiles| && group in m.profiles[i].laneSets
    requires lane in group.lanes && Denotes(m.kubernetes, group.kubernetes, version)
    requires SharedTurn(m.kubernetes, m.profiles[i], group, version, turn)
    ensures start <= index < start + |Normalized(m.kubernetes.compatibility)|
    ensures PlannedOn(m, i, group, Row(lane, version, group.coverage), index)
    ensures Planned(m, m.profiles[i], Unfiltered(index), Row(lane, version, group.coverage))
  {
    var k, c := m.kubernetes, Normalized(m.kubernetes.compatibility);
    var j :| 0 <= j < |c| && c[j] == turn;
    index := TurnInWindow(|c|, start, j);
    TurnAt(k, m.profiles[i], group, version, index);
    PlannableIff(m, i, index);
    assert FromLaneSet(k, group, Unfiltered(index), Row(lane, version, group.coverage));
  }

  /** When every rotating lane set refers to all compatibility versions, every version shares a turn. */
  lemma AllShareTurns(m: Manifest, i: nat, group: LaneSet, version: string) returns (turn: string)
    requires ValidatorAccepts(m) && i < |m.profiles| && RotatesOverAll(m.kubernetes, m.profiles[i])
    requires group in m.profiles[i].laneSets
    ensures SharedTurn(m.kubernetes, m.profiles[i], group, version, turn)
  {
    var k := m.kubernetes;
    NormalizedMembers(k.compatibility);
    assert k.compatibility[0] in k.compatibility;
    var c := Normalized(k.compatibility);
    turn := if version in c then version else c[0];
  }

  /** A lane set is ever planned on a version it refers to exactly when they share a turn. */
  lemma EverPlannedIff(m: Manifest, i: nat, group: LaneSet, version: string, lane: string)
    requires ValidatorAccepts(m) && EmulatorsOk(m) && i < |m.profiles| && group in m.profiles[i].laneSets
    requires lane in group.lanes && Denotes(m.kubernetes, group.kubernetes, version)
    ensures (exists index: nat :: PlannedOn(m, i, group, Row(lane, version, group.coverage), index))
      <==> exists turn :: SharedTurn(m.kubernetes, m.profiles[i], group, version, turn)
  {
    var k, row := m.kubernetes, Row(lane, version, group.coverage);
    NormalizedMembers(k.compatibility);
    assert k.compatibility[0] in k.compatibility;
    if turn :| SharedTurn(k, m.profiles[i], group, version, turn) {
      var index := NightlyIsFair(m, i, group, version, lane, 0, turn);
    }
    if index: nat :| PlannedOn(m, i, group, row, index) {
      PlannableIff(m, i, index);
      TurnAt(k, m.profiles[i], group, version, index);
    }
  }

  // ----- an accepted manifest that cannot be planned

  lemma TrimWord(s: string)
    requires s != "" && !IsSpace(s[0]) && !IsSpace(s[|s| - 1])
    ensures Trim(s) == s
  {}

  lemma NormalizedPair(a: string, b: string)
    requires Trim(a) == a != "" && Trim(b) == b != ""
    ensures Normalized([a, b]) == [a, b]
  {
    assert [a, b][..1] == [a] && [a][..0] == [];
    assert Normalized([a]) == [a];
  }

  /** Two rotating lane sets, one of which names just one of two compatibility versions. */
  function PartialRotation(a: string, b: string): Manifest
  {
    var lane := Lane("l", "l", "l", "always", 1, "1h", 0, []);
    Manifest(1, "i", Emulators("r", "g", "z"), Versions(a, [a, b], [a]), 1, 1, [lane],
             [Profile("p", [Rotating([a]), Rotating([a, b])], [])])
  }

  function Rotating(refs: seq<string>): LaneSet { LaneSet("full", refs, ["l"], true, 0) }

  predicate PlainVersions(a: string, b: string)
  {
    Trim(a) == a != "" && Trim(b) == b != "" && a != b && !("@" <= a) && !("@" <= b)
  }

  lemma RotatingOk(m: Manifest, refs: seq<string>)
    requires refs != [] && Declared(m, "l") && forall ref :: ref in refs ==> RefOk(m.kubernetes, ref)
    ensures LaneSetOk(m, Rotating(refs))
  {
    TrimWord("full");
  }

  lemma PlainRefOk(k: Versions, v: string)
    requires Trim(v) == v != "" && !("@" <= v)
    ensures RefOk(k, v) && ForRef(k, Trim(v)) == Some([v])
  {
    assert "@primary"[0] == '@' && "@compatibility"[0] == '@' && "@releaseGate"[0] == '@';
    assert v[0] != '@' by { assert v[..1] == [v[0]]; }
  }

  lemma PartialRotationAccepted(a: string, b: string)
    requires PlainVersions(a, b)
    ensures ValidatorAccepts(PartialRotation(a, b)) && EmulatorsOk(PartialRotation(a, b))
  {
    var m := PartialRotation(a, b);
    PartialLanesOk(a, b);
    PlainRefOk(m.kubernetes, a);
    PlainRefOk(m.kubernetes, b);
    RotatingOk(m, [a]);
    RotatingOk(m, [a, b]);
    assert ProfileOk(m, m.profiles[0]);
  }

  lemma PartialLanesOk(a: string, b: string)
    requires PlainVersions(a, b)
    ensures var m := PartialRotation(a, b); LanesOk(m) && VersionsOk(m) && EmulatorsOk(m) && Declared(m, "l")
  {
    var m := PartialRotation(a, b);
    TrimWord("l");
    TrimWord("1h");
    TrimWord("i");
    assert LaneOk(m, m.lanes[0]);
  }

  /** The first lane set does not refer to `b`. */
  lemma FirstLacks(a: string, b: string)
    requires PlainVersions(a, b)
    ensures !Denotes(PartialRotation(a, b).kubernetes, [a], b)
  {
    PlainRefOk(PartialRotation(a, b).kubernetes, a);
  }

  lemma SecondTurnMissing(a: string, b: string)
    requires PlainVersions(a, b)
    ensures var m := PartialRotation(a, b); !TurnsFound(m.kubernetes, m.profiles[0], 1)
  {
    var m := PartialRotation(a, b);
    NormalizedPair(a, b);
    assert Selected(m.kubernetes, 1) == b;
    FirstLacks(a, b);
    assert Rotating([a]) in m.profiles[0].laneSets;
  }

  /** The validator accepts it, and every second night cannot be planned. */
  lemma ValidatorIsNotEnough(a: string, b: string)
    requires PlainVersions(a, b)
    ensures ValidatorAccepts(PartialRotation(a, b)) && EmulatorsOk(PartialRotation(a, b))
    ensures !Plannable(PartialRotation(a, b), PartialRotation(a, b).profiles[0].id, Unfiltered(1))
  {
    PartialRotationAccepted(a, b);
    PlannableIff(PartialRotation(a, b), 0, 1);
    SecondTurnMissing(a, b);
  }

  lemma NoSharedTurn(a: string, b: string, turn: string)
    requires PlainVersions(a, b)
    ensures var m := PartialRotation(a, b); !SharedTurn(m.kubernetes, m.profiles[0], Rotating([a, b]), b, turn)
  {
    var m := PartialRotation(a, b);
    NormalizedPair(a, b);
    FirstLacks(a, b);
    assert Rotating([a]) in m.profiles[0].laneSets;
  }

  lemma SecondDenotes(a: string, b: string)
    requires PlainVersions(a, b)
    ensures Denotes(PartialRotation(a, b).kubernetes, [a, b], b)
  {
    PlainRefOk(PartialRotation(a, b).kubernetes, b);
    assert b in [a, b] && b in [b];
  }

  /** ... and the second lane set, although it refers to `b`, is never planned on it. */
  lemma NeverPlanned(a: string, b: string, index: nat)
    requires PlainVersions(a, b)
    ensures var m := PartialRotation(a, b);
      && Denotes(m.kubernetes, [a, b], b)
      && !PlannedOn(m, 0, Rotating([a, b]), Row("l", b, "full"), index)
  {
    var m := PartialRotation(a, b);
    var group, row := Rotating([a, b]), Row("l", b, "full");
    SecondDenotes(a, b);
    PartialRotationAccepted(a, b);
    NormalizedPair(a, b);
    assert m.profiles[0].laneSets[1] == group;
    PlannableIff(m, 0, index);
    TurnAt(m.kubernetes, m.profiles[0], group, b, index);
    NoSharedTurn(a, b, Selected(m.kubernetes, index));
  }
}
