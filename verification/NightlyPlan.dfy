// The nightly matrix planner, and the manifest validator that is meant to guarantee it.

module NightlyPlan {
  import opened Options
  import opened Strings
  import opened KubernetesVersions

  datatype Lane = Lane(
    id: string, name: string, labelFilter: string, prScope: string, timeoutMinutes: int, e2eTimeout: string,
    parallelNodes: int, preloads: seq<string>)

  datatype LaneSet = LaneSet(
    coverage: string, kubernetes: seq<string>, lanes: seq<string>, rotate: bool, timeoutMinutes: int)

  datatype RowConfig = RowConfig(lane: string, kubernetes: string, coverage: string, timeoutMinutes: int)

  datatype Profile = Profile(id: string, laneSets: seq<LaneSet>, rows: seq<RowConfig>)

  datatype Emulators = Emulators(rustfs: string, fakeGcs: string, azurite: string)

  datatype Manifest = Manifest(
    version: int, defaultImage: string, emulators: Emulators, kubernetes: Versions,
    defaultNodes: int, maxNodes: int, lanes: seq<Lane>, profiles: seq<Profile>)

  /** The planned run of one lane on one Kubernetes version. */
  datatype Row = Row(lane: string, kubernetes: string, coverage: string)

  /** Empty strings stand for no filter. */
  datatype Filters = Filters(lane: string, kubernetes: string, index: int)

  // ----- what both tools check

  predicate IsSlugChar(c: char) { 'a' <= c <= 'z' || '0' <= c <= '9' }

  /** ^[a-z0-9]+(?:-[a-z0-9]+)*$ */
  predicate IsSlug(s: string)
  {
    && s != "" && IsSlugChar(s[0]) && IsSlugChar(s[|s| - 1])
    && forall i :: 0 <= i < |s| ==> IsSlugChar(s[i]) || (s[i] == '-' && i > 0 && s[i - 1] != '-')
  }

  predicate LaneOk(m: Manifest, lane: Lane)
  {
    && IsSlug(lane.id) && Trim(lane.name) != "" && Trim(lane.labelFilter) != ""
    && lane.prScope in {"always", "backup", "hardened", "manual", "seal", "upgrade"}
    && lane.timeoutMinutes > 0 && Trim(lane.e2eTimeout) != ""
    && lane.parallelNodes >= 0 && !(lane.parallelNodes > 0 && m.maxNodes > 0 && lane.parallelNodes > m.maxNodes)
  }

  predicate LanesOk(m: Manifest)
  {
    && m.version == 1 && m.lanes != [] && 0 < m.defaultNodes <= m.maxNodes
    && (forall i :: 0 <= i < |m.lanes| ==> LaneOk(m, m.lanes[i]))
    && (forall i, j :: 0 <= i < j < |m.lanes| ==> m.lanes[i].id != m.lanes[j].id)
  }

  predicate VersionsOk(m: Manifest)
  {
    && Trim(m.defaultImage) != "" && Trim(m.kubernetes.primary) != ""
    && m.kubernetes.compatibility != [] && m.kubernetes.releaseGate != []
    && (forall v :: v in m.kubernetes.compatibility ==> Trim(v) != "")
    && (forall v :: v in m.kubernetes.releaseGate ==> Trim(v) != "")
  }

  predicate Declared(m: Manifest, id: string)
  {
    exists i :: 0 <= i < |m.lanes| && m.lanes[i].id == id
  }

  // ----- what only the planner checks

  predicate PreloadsOk(lane: Lane)
  {
    && (forall i :: 0 <= i < |lane.preloads| ==> Trim(lane.preloads[i]) in {"rustfs", "fake-gcs", "azurite"})
    && (forall i, j :: 0 <= i < j < |lane.preloads| ==> Trim(lane.preloads[i]) != Trim(lane.preloads[j]))
  }

  predicate EmulatorsOk(m: Manifest)
  {
    && Trim(m.emulators.rustfs) != "" && Trim(m.emulators.fakeGcs) != "" && Trim(m.emulators.azurite) != ""
    && (forall i :: 0 <= i < |m.lanes| ==> PreloadsOk(m.lanes[i]))
  }

  predicate PlannerAccepts(m: Manifest)
  {
    LanesOk(m) && VersionsOk(m) && EmulatorsOk(m)
  }

  // ----- what only the validator checks

  predicate RefOk(k: Versions, ref: string)
  {
    var r := Trim(ref);
    && r != ""
    && (r == "@primary" ==> Trim(k.primary) != "")
    && (r == "@compatibility" ==> Normalized(k.compatibility) != [])
    && (r == "@releaseGate" ==> Normalized(k.releaseGate) != [])
    && ("@" <= r ==> r in {"@primary", "@compatibility", "@releaseGate"})
  }

  predicate CoverageOk(coverage: string)
  {
    Trim(coverage) != "" && coverage in {"compatibility-smoke", "full", "release-gate"}
  }

  predicate LaneSetOk(m: Manifest, group: LaneSet)
  {
    && CoverageOk(group.coverage) && group.kubernetes != [] && group.lanes != [] && group.timeoutMinutes >= 0
    && (forall ref :: ref in group.kubernetes ==> RefOk(m.kubernetes, ref))
    && (forall lane :: lane in group.lanes ==> Declared(m, lane))
  }

  predicate RowConfigOk(m: Manifest, row: RowConfig)
  {
    CoverageOk(row.coverage) && row.timeoutMinutes >= 0 && Declared(m, row.lane) && RefOk(m.kubernetes, row.kubernetes)
  }

  predicate ProfileOk(m: Manifest, p: Profile)
  {
    && IsSlug(p.id) && (p.laneSets != [] || p.rows != [])
    && (forall group :: group in p.laneSets ==> LaneSetOk(m, group))
    && (forall row :: row in p.rows ==> RowConfigOk(m, row))
  }

  /** validateManifest, without the checks on suites. */
  predicate ValidatorAccepts(m: Manifest)
  {
    && LanesOk(m) && VersionsOk(m) && m.profiles != []
    && (forall i :: 0 <= i < |m.profiles| ==> ProfileOk(m, m.profiles[i]))
    && (forall i, j :: 0 <= i < j < |m.profiles| ==> m.profiles[i].id != m.profiles[j].id)
  }

  // ----- what a plan should hold

  ghost predicate Resolves(k: Versions, refs: seq<string>)
  {
    Known(k, refs) && exists version :: Denotes(k, refs, version)
  }

  predicate Rotating(group: LaneSet, f: Filters) { group.rotate && f.kubernetes == "" }

  /** The rotation finds the version whose turn it is among those the lane set refers to. */
  predicate TurnAvailable(k: Versions, refs: seq<string>, index: nat)
  {
    Normalized(k.compatibility) != [] && Denotes(k, refs, Selected(k, index))
  }

  predicate PassesFilters(f: Filters, row: Row)
  {
    (f.lane == "" || row.lane == f.lane) && (f.kubernetes == "" || row.kubernetes == f.kubernetes)
  }

  predicate FromLaneSet(k: Versions, group: LaneSet, f: Filters, row: Row)
    requires f.index >= 0
  {
    && PassesFilters(f, row) && row.coverage == group.coverage && row.lane in group.lanes
    && Denotes(k, group.kubernetes, row.kubernetes)
    && (Rotating(group, f) ==> TakesPart(k, f.index, row.kubernetes))
  }

  predicate FromConfig(k: Versions, config: RowConfig, f: Filters, row: Row)
  {
    && PassesFilters(f, row) && row.coverage == config.coverage && row.lane == config.lane
    && Denotes(k, [config.kubernetes], row.kubernetes)
  }

  /** The row belongs to the nightly plan of this profile. */
  ghost predicate Planned(m: Manifest, p: Profile, f: Filters, row: Row)
    requires f.index >= 0
  {
    || (exists group :: group in p.laneSets && FromLaneSet(m.kubernetes, group, f, row))
    || (exists config :: config in p.rows && FromConfig(m.kubernetes, config, f, row))
  }

  ghost predicate LaneSetPlans(m: Manifest, group: LaneSet, f: Filters)
    requires f.index >= 0
  {
    && Resolves(m.kubernetes, group.kubernetes)
    && (Rotating(group, f) ==> TurnAvailable(m.kubernetes, group.kubernetes, f.index))
    && (forall row :: FromLaneSet(m.kubernetes, group, f, row) ==> Declared(m, row.lane))
  }

  ghost predicate ConfigPlans(m: Manifest, config: RowConfig)
  {
    Resolves(m.kubernetes, [config.kubernetes]) && Declared(m, config.lane)
  }

  ghost predicate ProfilePlans(m: Manifest, p: Profile, f: Filters)
    requires f.index >= 0
  {
    && (forall group :: group in p.laneSets ==> LaneSetPlans(m, group, f))
    && (forall config :: config in p.rows ==> ConfigPlans(m, config))
  }

  function FindProfile(profiles: seq<Profile>, id: string): Option<Profile>
  {
    if profiles == [] then None
    else if profiles[0].id == id then Some(profiles[0])
    else FindProfile(profiles[1..], id)
  }

  // ----- buildGithubNightlyMatrix

  method LaneSetVersions(k: Versions, group: LaneSet, f: Filters) returns (versions: Option<seq<string>>)
    requires f.index >= 0
    ensures versions.Some? <==>
      Resolves(k, group.kubernetes) && (Rotating(group, f) ==> TurnAvailable(k, group.kubernetes, f.index))
    ensures versions.Some? ==> forall v :: v in versions.value <==>
      Denotes(k, group.kubernetes, v) && (Rotating(group, f) ==> TakesPart(k, f.index, v))
  {
    versions := ResolveKubernetesRefs(k, group.kubernetes);
    if versions.Some? && Rotating(group, f) {
      versions := RotateCompatibilityVersions(k, versions.value, f.index);
    }
  }

  method PlanLaneSet(m: Manifest, group: LaneSet, f: Filters) returns (rows: Option<seq<Row>>)
    requires f.index >= 0
    ensures rows.Some? <==> LaneSetPlans(m, group, f)
    ensures rows.Some? ==> forall row :: row in rows.value <==> FromLaneSet(m.kubernetes, group, f, row)
  {
    var versions := LaneSetVersions(m.kubernetes, group, f);
    if versions.None? {
      return None;
    }
    var ok, made := true, [];
    var vs := versions.value;
    for i := 0 to |vs|
      invariant forall row :: row in made <==>
        FromLaneSet(m.kubernetes, group, f, row) && row.kubernetes in vs[..i] && Declared(m, row.lane)
      invariant ok <==> forall row :: FromLaneSet(m.kubernetes, group, f, row) && row.kubernetes in vs[..i]
                                      ==> Declared(m, row.lane)
    {
      assert vs[..i + 1] == vs[..i] + [vs[i]];
      assert vs[i] in vs;
      if f.kubernetes == "" || vs[i] == f.kubernetes {
        assert forall row :: OnVersion(group, f, vs[i], group.lanes, row) <==>
                             FromLaneSet(m.kubernetes, group, f, row) && row.kubernetes == vs[i];
        var good, more := PlanVersion(m, group, f, vs[i]);
        ok, made := ok && good, made + more;
      }
    }
    assert vs[..|vs|] == vs;
    return if ok then Some(made) else None;
  }

  /** The rows of one lane set on one of its versions, declared or not. */
  predicate OnVersion(group: LaneSet, f: Filters, version: string, lanes: seq<string>, row: Row)
  {
    row.kubernetes == version && row.coverage == group.coverage && row.lane in lanes && PassesFilters(f, row)
  }

  method PlanVersion(m: Manifest, group: LaneSet, f: Filters, version: string) returns (ok: bool, rows: seq<Row>)
    requires f.kubernetes == "" || version == f.kubernetes
    ensures ok <==> forall row :: OnVersion(group, f, version, group.lanes, row) ==> Declared(m, row.lane)
    ensures forall row :: row in rows <==> OnVersion(group, f, version, group.lanes, row) && Declared(m, row.lane)
  {
    ok, rows := true, [];
    var lanes := group.lanes;
    for i := 0 to |lanes|
      invariant ok <==> forall row :: OnVersion(group, f, version, lanes[..i], row) ==> Declared(m, row.lane)
      invariant forall row :: row in rows <==> OnVersion(group, f, version, lanes[..i], row) && Declared(m, row.lane)
    {
      assert lanes[..i + 1] == lanes[..i] + [lanes[i]];
      var row := Row(lanes[i], version, group.coverage);
      assert PassesFilters(f, row) ==> OnVersion(group, f, version, lanes[..i + 1], row);
      if f.lane == "" || lanes[i] == f.lane {
        if Declared(m, lanes[i]) {
          rows := rows + [row];
        } else {
          ok := false;
        }
      }
    }
    assert lanes[..|lanes|] == lanes;
  }

  method PlanConfig(m: Manifest, config: RowConfig, f: Filters) returns (rows: Option<seq<Row>>)
    ensures rows.Some? <==> ConfigPlans(m, config)
    ensures rows.Some? ==> forall row :: row in rows.value <==> FromConfig(m.kubernetes, config, f, row)
  {
    var versions := ResolveKubernetesRefs(m.kubernetes, [config.kubernetes]);
    if versions.None? || !Declared(m, config.lane) {
      return None;
    }
    var made: seq<Row> := [];
    if f.lane != "" && config.lane != f.lane {
      return Some(made);
    }
    var vs := versions.value;
    for i := 0 to |vs|
      invariant forall row :: row in made <==> FromConfig(m.kubernetes, config, f, row) && row.kubernetes in vs[..i]
    {
      assert vs[..i + 1] == vs[..i] + [vs[i]];
      if f.kubernetes == "" || vs[i] == f.kubernetes {
        made := made + [Row(config.lane, vs[i], config.coverage)];
      }
    }
    assert vs[..|vs|] == vs;
    return Some(made);
  }

  /** Planning succeeds: both checks pass and at least one row is left. */
  ghost predicate Plannable(m: Manifest, profileID: string, f: Filters)
  {
    && PlannerAccepts(m) && f.index >= 0 && (f.lane != "" ==> Declared(m, f.lane))
    && FindProfile(m.profiles, profileID).Some?
    && var p := FindProfile(m.profiles, profileID).value;
       ProfilePlans(m, p, f) && exists row :: Planned(m, p, f, row)
  }

  method BuildGithubNightlyMatrix(m: Manifest, profileID: string, f: Filters) returns (matrix: Option<seq<Row>>)
    ensures matrix.Some? <==> Plannable(m, profileID, f)
    ensures matrix.Some? ==>
      forall row :: row in matrix.value <==> Planned(m, FindProfile(m.profiles, profileID).value, f, row)
  {
    var found := FindProfile(m.profiles, profileID);
    if !PlannerAccepts(m) || f.index < 0 || found.None? || (f.lane != "" && !Declared(m, f.lane)) {
      return None;
    }
    matrix := PlanProfile(m, found.value, f);
  }

  method PlanProfile(m: Manifest, p: Profile, f: Filters) returns (matrix: Option<seq<Row>>)
    requires f.index >= 0
    ensures matrix.Some? <==> ProfilePlans(m, p, f) && exists row :: Planned(m, p, f, row)
    ensures matrix.Some? ==> forall row :: row in matrix.value <==> Planned(m, p, f, row)
  {
    var setsOk, fromSets := PlanLaneSets(m, p, f);
    var rowsOk, fromRows := PlanConfigs(m, p, f);
    if !setsOk || !rowsOk {
      return None;
    }
    var rows := fromSets + fromRows;
    assert forall row :: Planned(m, p, f, row) <==> row in rows;
    if rows == [] {
      return None;
    }
    assert rows[0] in rows;
    return Some(rows);
  }

  method PlanLaneSets(m: Manifest, p: Profile, f: Filters) returns (ok: bool, rows: seq<Row>)
    requires f.index >= 0
    ensures ok <==> forall group :: group in p.laneSets ==> LaneSetPlans(m, group, f)
    ensures ok ==> forall row :: row in rows <==>
      exists group :: group in p.laneSets && FromLaneSet(m.kubernetes, group, f, row)
  {
    ok, rows := true, [];
    var groups := p.laneSets;
    for i := 0 to |groups|
      invariant ok <==> forall group :: group in groups[..i] ==> LaneSetPlans(m, group, f)
      invariant ok ==> forall row :: row in rows <==>
        exists group :: group in groups[..i] && FromLaneSet(m.kubernetes, group, f, row)
    {
      assert groups[..i + 1] == groups[..i] + [groups[i]];
      var more := PlanLaneSet(m, groups[i], f);
      if more.None? {
        ok := false;
      } else {
        rows := rows + more.value;
      }
    }
    assert groups[..|groups|] == groups;
  }

  method PlanConfigs(m: Manifest, p: Profile, f: Filters) returns (ok: bool, rows: seq<Row>)
    ensures ok <==> forall config :: config in p.rows ==> ConfigPlans(m, config)
    ensures ok ==> forall row :: row in rows <==>
      exists config :: config in p.rows && FromConfig(m.kubernetes, config, f, row)
  {
    ok, rows := true, [];
    var configs := p.rows;
    for i := 0 to |configs|
      invariant ok <==> forall config :: config in configs[..i] ==> ConfigPlans(m, config)
      invariant ok ==> forall row :: row in rows <==>
        exists config :: config in configs[..i] && FromConfig(m.kubernetes, config, f, row)
    {
      assert configs[..i + 1] == configs[..i] + [configs[i]];
      var more := PlanConfig(m, configs[i], f);
      if more.None? {
        ok := false;
      } else {
        rows := rows + more.value;
      }
    }
    assert configs[..|configs|] == configs;
  }
}
