// Weekly performance runs: a primary regression seen twice in a row becomes a failure.

module PerfEscalation {
  datatype Severity = Info | Warn | Fail

  datatype Classification = Performance | Consecutive | Other

  datatype Status = Pass | Warned | Failed

  datatype Finding = Finding(measurement: string, severity: Severity, classification: Classification)

  datatype Scenario = Scenario(findings: seq<Finding>, status: Status, samples: nat)

  type Scenarios = map<string, Scenario>

  datatype Totals = Totals(scenarios: nat, samples: nat, pass: nat, warn: nat, fail: nat)

  datatype Role = Primary | Diagnostic | Unset

  /** The roles of a policy document: a measurement's own, else the default, else diagnostic. */
  datatype Policy = Policy(roles: map<string, Role>, defaultRole: Role)

  predicate IsPrimary(policy: Policy, measurement: string)
  {
    var own := if measurement in policy.roles then policy.roles[measurement] else Unset;
    (if own == Unset then policy.defaultRole else own) == Primary
  }

  /** A performance finding of one measurement in one scenario, escalated or not. */
  ghost predicate HasRegression(scenarios: Scenarios, name: string, measurement: string)
  {
    && measurement != "" && name in scenarios
    && exists f :: f in scenarios[name].findings && f.measurement == measurement && f.classification != Other
  }

  predicate Escalatable(policy: Policy, f: Finding)
  {
    f.severity == Warn && f.classification == Performance && f.measurement != "" && IsPrimary(policy, f.measurement)
  }

  /** statusFromFindings */
  method StatusFromFindings(findings: seq<Finding>) returns (status: Status)
    ensures status == StatusOf(findings)
  {
    status := Pass;
    for i := 0 to |findings|
      invariant status == StatusOf(findings[..i]) && status != Failed
    {
      assert findings[..i + 1] == findings[..i] + [findings[i]];
      if findings[i].severity == Fail {
        assert findings[i] in findings;
        return Failed;
      }
      if findings[i].severity == Warn {
        status := Warned;
      }
    }
    assert findings[..|findings|] == findings;
  }

  /** The worst severity decides. */
  ghost function StatusOf(findings: seq<Finding>): Status
  {
    if exists f :: f in findings && f.severity == Fail then Failed
    else if exists f :: f in findings && f.severity == Warn then Warned
    else Pass
  }

  // ----- what escalation should do

  /** One finding after escalation, where `again` says whether it also regressed before. */
  function EscalatedFinding(policy: Policy, f: Finding, again: bool): Finding
  {
    if Escalatable(policy, f) && again then f.(severity := Fail, classification := Consecutive) else f
  }

  ghost function EscalatedScenario(policy: Policy, previous: Scenarios, name: string, s: Scenario): (r: Scenario)
    ensures |r.findings| == |s.findings|
  {
    var findings := seq(|s.findings|, i requires 0 <= i < |s.findings| =>
      EscalatedFinding(policy, s.findings[i], HasRegression(previous, name, s.findings[i].measurement)));
    s.(findings := findings, status := StatusOf(findings))
  }

  ghost function Escalated(policy: Policy, previous: Scenarios, current: Scenarios): Scenarios
  {
    map name | name in current :: EscalatedScenario(policy, previous, name, current[name])
  }

  ghost function WithStatus(scenarios: Scenarios, status: Status): set<string>
  {
    set name | name in scenarios && scenarios[name].status == status
  }

  ghost function CountStatus(scenarios: Scenarios, status: Status): nat { |WithStatus(scenarios, status)| }

  ghost function Samples(scenarios: Scenarios): nat
    decreases |scenarios|
  {
    if scenarios == map[] then 0
    else
      var name :| name in scenarios;
      scenarios[name].samples + Samples(scenarios - {name})
  }

  /** The sum does not depend on the order of the map. */
  lemma {:induction false} SamplesRemove(scenarios: Scenarios, name: string)
    requires name in scenarios
    ensures Samples(scenarios) == scenarios[name].samples + Samples(scenarios - {name})
    decreases |scenarios|
  {
    var other :| other in scenarios && Samples(scenarios) == scenarios[other].samples + Samples(scenarios - {other});
    if other != name {
      SamplesRemove(scenarios - {other}, name);
      SamplesRemove(scenarios - {name}, other);
      assert scenarios - {other} - {name} == scenarios - {name} - {other};
    }
  }

  lemma SamplesAdd(done: Scenarios, name: string, s: Scenario)
    requires name !in done
    ensures Samples(done[name := s]) == Samples(done) + s.samples
  {
    SamplesRemove(done[name := s], name);
    assert done[name := s] - {name} == done;
  }

  ghost predicate TotalsMatch(totals: Totals, scenarios: Scenarios)
  {
    && totals.scenarios == |scenarios.Keys| && totals.samples == Samples(scenarios)
    && totals.pass == CountStatus(scenarios, Pass)
    && totals.warn == CountStatus(scenarios, Warned) && totals.fail == CountStatus(scenarios, Failed)
  }

  // ----- applyConsecutivePrimaryRegressionPolicy

  /** findingKey */
  datatype Key = Key(scenario: string, measurement: string)

  /** previousPerformanceFindingSet */
  method PreviousPerformanceFindingSet(previous: Scenarios) returns (keys: set<Key>)
    ensures forall k :: k in keys <==> HasRegression(previous, k.scenario, k.measurement)
  {
    keys := {};
    var todo := previous.Keys;
    while todo != {}
      invariant todo <= previous.Keys
      invariant forall k :: k in keys <==> HasRegression(previous, k.scenario, k.measurement) && k.scenario !in todo
      decreases |todo|
    {
      var name :| name in todo;
      var more := RegressionsOf(name, previous[name]);
      keys := keys + more;
      todo := todo - {name};
    }
  }

  method RegressionsOf(name: string, s: Scenario) returns (keys: set<Key>)
    ensures forall k :: k in keys <==> k.scenario == name && HasRegression(map[name := s], name, k.measurement)
  {
    keys := {};
    for i := 0 to |s.findings|
      invariant forall k :: k in keys <==>
        && k.scenario == name && k.measurement != ""
        && exists f :: f in s.findings[..i] && f.measurement == k.measurement && f.classification != Other
    {
      var f := s.findings[i];
      assert s.findings[..i + 1] == s.findings[..i] + [f];
      if f.measurement != "" && f.classification != Other {
        keys := keys + {Key(name, f.measurement)};
      }
    }
    assert s.findings[..|s.findings|] == s.findings;
  }

  /** runSummaryDocument */
  class RunSummary {
    var scenarios: Scenarios
    var totals: Totals

    constructor (scenarios: Scenarios)
      ensures this.scenarios == scenarios
    {
      this.scenarios, totals := scenarios, Totals(0, 0, 0, 0, 0);
    }

    method ApplyConsecutivePrimaryRegressionPolicy(previous: Scenarios, policy: Policy)
      modifies this
      ensures scenarios == Escalated(policy, previous, old(scenarios))
      ensures TotalsMatch(totals, scenarios)
    {
      EscalateAll(previous, policy);
      RecomputeSummaryTotals();
      GradedIsEscalated(policy, previous, old(scenarios), scenarios);
    }

    method EscalateAll(previous: Scenarios, policy: Policy)
      modifies this
      ensures scenarios.Keys == old(scenarios).Keys
      ensures forall name :: name in scenarios ==>
        FindingsEscalated(policy, previous, name, old(scenarios)[name], scenarios[name])
    {
      var keys := PreviousPerformanceFindingSet(previous);
      var todo := scenarios.Keys;
      while todo != {}
        invariant todo <= scenarios.Keys == old(scenarios).Keys
        invariant forall name :: name in todo ==> scenarios[name] == old(scenarios)[name]
        invariant forall name :: name in scenarios && name !in todo ==>
          FindingsEscalated(policy, previous, name, old(scenarios)[name], scenarios[name])
        decreases |todo|
      {
        var name :| name in todo;
        var s := EscalateFindings(policy, keys, previous, name, scenarios[name]);
        scenarios := scenarios[name := s];
        todo := todo - {name};
      }
    }

    /** recomputeSummaryTotals */
    method RecomputeSummaryTotals()
      modifies this
      ensures scenarios.Keys == old(scenarios).Keys
      ensures forall name :: name in scenarios ==> Graded(old(scenarios)[name], scenarios[name])
      ensures TotalsMatch(totals, scenarios)
    {
      scenarios, totals := Grade(scenarios);
    }
  }

  method Grade(scenarios: Scenarios) returns (done: Scenarios, totals: Totals)
    ensures done.Keys == scenarios.Keys && TotalsMatch(totals, done)
    ensures forall name :: name in scenarios ==> Graded(scenarios[name], done[name])
  {
    totals := Totals(0, 0, 0, 0, 0);
    var todo := scenarios.Keys;
    done := map[];
    while todo != {}
      invariant GradedBut(scenarios, done, todo)
      invariant TotalsMatch(totals, done)
      decreases |todo|
    {
      var name :| name in todo;
      var s := GradeOne(scenarios[name]);
      CountOne(totals, done, name, s);
      GradeNext(scenarios, done, todo, name, s);
      done := done[name := s];
      totals := Counted(totals, s);
      todo := todo - {name};
    }
  }

  /** Every scenario but those still to do has been graded. */
  ghost predicate GradedBut(scenarios: Scenarios, done: Scenarios, todo: set<string>)
  {
    && (forall name :: name in scenarios <==> name in done || name in todo)
    && (forall name :: name in todo ==> name !in done)
    && (forall name :: name in done ==> Graded(scenarios[name], done[name]))
  }

  lemma GradeNext(scenarios: Scenarios, done: Scenarios, todo: set<string>, name: string, s: Scenario)
    requires GradedBut(scenarios, done, todo) && name in todo && Graded(scenarios[name], s)
    ensures GradedBut(scenarios, done[name := s], todo - {name})
  {}

  method GradeOne(s: Scenario) returns (r: Scenario)
    ensures Graded(s, r)
  {
    var status := StatusFromFindings(s.findings);
    r := s.(status := status);
  }

  /** The findings have been escalated; the status may be out of date. */
  ghost predicate FindingsEscalated(policy: Policy, previous: Scenarios, name: string, was: Scenario, now: Scenario)
  {
    now.findings == EscalatedScenario(policy, previous, name, was).findings && now.samples == was.samples
  }

  ghost predicate Graded(was: Scenario, now: Scenario)
  {
    now == was.(status := StatusOf(was.findings))
  }

  lemma GradedIsEscalated(policy: Policy, previous: Scenarios, was: Scenarios, now: Scenarios)
    requires now.Keys == was.Keys
    requires forall name :: name in now ==>
      exists s :: FindingsEscalated(policy, previous, name, was[name], s) && Graded(s, now[name])
    ensures now == Escalated(policy, previous, was)
  {
    forall name | name in now ensures now[name] == EscalatedScenario(policy, previous, name, was[name]) {
      var s :| FindingsEscalated(policy, previous, name, was[name], s) && Graded(s, now[name]);
    }
  }

  function Counted(t: Totals, s: Scenario): Totals
  {
    var more := t.(scenarios := t.scenarios + 1, samples := t.samples + s.samples);
    match s.status
    case Pass => more.(pass := t.pass + 1)
    case Warned => more.(warn := t.warn + 1)
    case Failed => more.(fail := t.fail + 1)
  }

  lemma CountStatusOne(done: Scenarios, name: string, s: Scenario, status: Status)
    requires name !in done
    ensures CountStatus(done[name := s], status) == CountStatus(done, status) + if s.status == status then 1 else 0
  {
    var now := WithStatus(done[name := s], status);
    if s.status == status {
      forall n ensures n in now <==> n in WithStatus(done, status) || n == name {}
      AddOne(WithStatus(done, status), name, now);
    } else {
      assert now == WithStatus(done, status);
    }
  }

  lemma AddOne(names: set<string>, name: string, more: set<string>)
    requires name !in names && forall n :: n in more <==> n in names || n == name
    ensures |more| == |names| + 1
  {
    assert more == names + {name};
  }

  lemma KeysAdd(done: Scenarios, name: string, s: Scenario)
    requires name !in done
    ensures |done[name := s].Keys| == |done.Keys| + 1
  {
    assert done[name := s].Keys == done.Keys + {name};
  }

  lemma CountOne(totals: Totals, done: Scenarios, name: string, s: Scenario)
    requires name !in done && TotalsMatch(totals, done)
    ensures TotalsMatch(Counted(totals, s), done[name := s])
  {
    SamplesAdd(done, name, s);
    KeysAdd(done, name, s);
    CountStatusOne(done, name, s, Pass);
    CountStatusOne(done, name, s, Warned);
    CountStatusOne(done, name, s, Failed);
  }

  method EscalateFindings(policy: Policy, keys: set<Key>, ghost previous: Scenarios, name: string, s: Scenario)
    returns (r: Scenario)
    requires forall k :: k in keys <==> HasRegression(previous, k.scenario, k.measurement)
    ensures FindingsEscalated(policy, previous, name, s, r)
  {
    var findings: seq<Finding> := [];
    for i := 0 to |s.findings|
      invariant findings == EscalatedScenario(policy, previous, name, s).findings[..i]
    {
      var f := s.findings[i];
      var again := Key(name, f.measurement) in keys;
      findings := findings + [EscalatedFinding(policy, f, again)];
    }
    r := s.(findings := findings);
  }

  /** Every scenario is counted once. */
  lemma TotalsAddUp(totals: Totals, scenarios: Scenarios)
    requires TotalsMatch(totals, scenarios)
    ensures totals.pass + totals.warn + totals.fail == totals.scenarios == |scenarios|
  {
    Partition(scenarios.Keys, WithStatus(scenarios, Pass), WithStatus(scenarios, Warned), WithStatus(scenarios, Failed));
    assert |scenarios.Keys| == |scenarios|;
  }

  lemma Partition(all: set<string>, p: set<string>, w: set<string>, f: set<string>)
    requires p !! w && p !! f && w !! f && forall n :: n in all <==> n in p || n in w || n in f
    ensures |all| == |p| + |w| + |f|
  {
    assert all == p + w + f;
  }

  // ----- sequences of weekly runs

  /** Escalation changes neither which scenarios there are nor which measurements regressed. */
  lemma RegressionsKept(policy: Policy, previous: Scenarios, current: Scenarios, name: string, measurement: string)
    ensures HasRegression(Escalated(policy, previous, current), name, measurement)
      <==> HasRegression(current, name, measurement)
  {
    if name in current {
      var s, r := current[name], EscalatedScenario(policy, previous, name, current[name]);
      if f :| f in s.findings && f.measurement == measurement && f.classification != Other {
        var i :| 0 <= i < |s.findings| && s.findings[i] == f;
        assert r.findings[i] in r.findings;
      }
      if f :| f in r.findings && f.measurement == measurement && f.classification != Other {
        var i :| 0 <= i < |r.findings| && r.findings[i] == f;
        assert s.findings[i] in s.findings;
      }
    }
  }

  /** The results of a sequence of weekly runs, each summarised against the one before. */
  ghost function Results(policy: Policy, weeks: seq<Scenarios>, k: nat): Scenarios
    requires k < |weeks|
  {
    if k == 0 then weeks[0] else Escalated(policy, Results(policy, weeks, k - 1), weeks[k])
  }

  lemma {:induction false} ResultsKeepRegressions(policy: Policy, weeks: seq<Scenarios>, k: nat, name: string, m: string)
    requires k < |weeks|
    ensures HasRegression(Results(policy, weeks, k), name, m) <==> HasRegression(weeks[k], name, m)
    decreases k
  {
    if k > 0 {
      RegressionsKept(policy, Results(policy, weeks, k - 1), weeks[k], name, m);
    }
  }

  /** Only the regressions of the run before matter. */
  lemma EscalatedAgainst(policy: Policy, previous: Scenarios, other: Scenarios, current: Scenarios, name: string, i: nat)
    requires name in current && i < |current[name].findings|
    requires var m := current[name].findings[i].measurement; HasRegression(previous, name, m) <==> HasRegression(other, name, m)
    ensures var f := current[name].findings[i];
      && name in Escalated(policy, previous, current) && i < |Escalated(policy, previous, current)[name].findings|
      && Escalated(policy, previous, current)[name].findings[i]
         == EscalatedFinding(policy, f, HasRegression(other, name, f.measurement))
  {
    assert Escalated(policy, previous, current)[name] == EscalatedScenario(policy, previous, name, current[name]);
  }

  /**
   * In week k a finding is escalated exactly when it is a warning about a primary
   * measurement that regressed in the same scenario in week k - 1.  What earlier weeks were
   * escalated to does not matter.
   */
  lemma EscalationIsExact(policy: Policy, weeks: seq<Scenarios>, k: nat, name: string, i: nat)
    requires 0 < k < |weeks| && name in weeks[k] && i < |weeks[k][name].findings|
    ensures name in Results(policy, weeks, k)
    ensures var f := weeks[k][name].findings[i];
      && i < |Results(policy, weeks, k)[name].findings|
      && Results(policy, weeks, k)[name].findings[i]
         == EscalatedFinding(policy, f, HasRegression(weeks[k - 1], name, f.measurement))
  {
    var f, before := weeks[k][name].findings[i], Results(policy, weeks, k - 1);
    ResultsKeepRegressions(policy, weeks, k - 1, name, f.measurement);
    EscalatedAgainst(policy, before, weeks[k - 1], weeks[k], name, i);
  }

  predicate AtLeast(a: Severity, b: Severity)
  {
    a == Fail || a == b || b == Info
  }

  /** Escalating again changes nothing, and no severity is lowered. */
  lemma EscalationIsStable(policy: Policy, previous: Scenarios, current: Scenarios)
    ensures var once := Escalated(policy, previous, current); Escalated(policy, previous, once) == once
    ensures forall name, i :: name in current && 0 <= i < |current[name].findings| ==>
      AtLeast(EscalatedScenario(policy, previous, name, current[name]).findings[i].severity,
              current[name].findings[i].severity)
  {
    var once := Escalated(policy, previous, current);
    forall name | name in current
      ensures EscalatedScenario(policy, previous, name, once[name]) == once[name]
    {
      assert EscalatedScenario(policy, previous, name, once[name]).findings == once[name].findings;
    }
  }
}
