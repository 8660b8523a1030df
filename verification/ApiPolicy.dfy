// Resolving the stability policy of an API field from the rules of an inventory.

module ApiPolicy {

  datatype Attribute = Classification | Owner | Mutability | Migration | ModuleInteraction | Enforcement | Rationale

  const ATTRIBUTES: set<Attribute> :=
    {Classification, Owner, Mutability, Migration, ModuleInteraction, Enforcement, Rationale}

  /** The value of one attribute; empty when it is not set. */
  type Value = seq<string>

  type Values = map<Attribute, Value>

  /** inventoryRule */
  datatype Rule = Rule(path: string, values: Values, omission: string, stableValues: multiset<string>)

  /** effectivePolicy */
  datatype Policy = Policy(values: Values, omission: string, stableValues: multiset<string>, rulePath: string)

  function Get(values: Values, a: Attribute): Value
  {
    if a in values then values[a] else []
  }

  /** ruleMatchesPath: the rule is for the field, or for an enclosing one. */
  predicate Matches(rulePath: string, path: string)
  {
    rulePath <= path && (|rulePath| < |path| ==> path[|rulePath|] in {'.', '['})
  }

  predicate Sets(rule: Rule, path: string, a: Attribute)
  {
    Matches(rule.path, path) && Get(rule.values, a) != []
  }

  /** No two rules are for the same path; resolveResource reports it as an error otherwise. */
  ghost predicate DuplicateFree(rules: seq<Rule>)
  {
    forall i, j :: 0 <= i < j < |rules| ==> rules[i].path != rules[j].path
  }

  ghost function Members(rules: seq<Rule>): set<Rule> { set r | r in rules }

  // ----- what the policy should be

  /** The longest rule that sets the attribute. */
  ghost predicate Decides(rules: set<Rule>, path: string, a: Attribute, r: Rule)
  {
    && r in rules && Sets(r, path, a)
    && forall q :: q in rules && Sets(q, path, a) ==> |q.path| <= |r.path|
  }

  /** Each attribute comes from the longest rule that sets it, or else from the defaults. */
  ghost predicate AttributeResolved(rules: set<Rule>, path: string, defaults: Values, policy: Policy, a: Attribute)
  {
    && (forall r :: Decides(rules, path, a, r) ==> Get(policy.values, a) == Get(r.values, a))
    && ((forall r :: r in rules ==> !Sets(r, path, a)) ==> Get(policy.values, a) == Get(defaults, a))
  }

  /** Omission and stable values come from the exact rule alone. */
  ghost predicate ExactResolved(rules: set<Rule>, path: string, policy: Policy)
  {
    && (forall r :: r in rules && r.path == path ==>
          policy.omission == r.omission && policy.stableValues == r.stableValues)
    && ((forall r :: r in rules ==> r.path != path) ==> policy.omission == "" && policy.stableValues == multiset{})
  }

  ghost predicate RulePathResolved(rules: set<Rule>, path: string, policy: Policy)
  {
    && (forall r :: r in rules && Matches(r.path, path) ==> |r.path| <= |policy.rulePath| && r.path <= policy.rulePath)
    && (policy.rulePath == "" || exists r :: r in rules && Matches(r.path, path) && r.path == policy.rulePath)
  }

  ghost predicate Resolved(rules: set<Rule>, path: string, defaults: Values, policy: Policy)
  {
    && policy.values.Keys == ATTRIBUTES
    && (forall a :: AttributeResolved(rules, path, defaults, policy, a))
    && ExactResolved(rules, path, policy) && RulePathResolved(rules, path, policy)
  }

  // ----- that it is unique

  lemma {:induction false} LongestExists(s: set<Rule>) returns (r: Rule)
    requires s != {}
    ensures r in s && forall q :: q in s ==> |q.path| <= |r.path|
    decreases |s|
  {
    var x :| x in s;
    r := x;
    var rest := s - {x};
    if rest != {} {
      var y := LongestExists(rest);
      if |y.path| > |x.path| {
        r := y;
      }
      assert forall q :: q in s ==> q == x || q in rest;
    }
  }

  lemma DeciderExists(rules: set<Rule>, path: string, a: Attribute, some: Rule) returns (r: Rule)
    requires some in rules && Sets(some, path, a)
    ensures Decides(rules, path, a, r)
  {
    var setting := set q | q in rules && Sets(q, path, a);
    assert some in setting;
    r := LongestExists(setting);
  }

  lemma SameAttribute(rules: set<Rule>, path: string, defaults: Values, p: Policy, q: Policy, a: Attribute)
    requires AttributeResolved(rules, path, defaults, p, a) && AttributeResolved(rules, path, defaults, q, a)
    ensures Get(p.values, a) == Get(q.values, a)
  {
    if some :| some in rules && Sets(some, path, a) {
      var r := DeciderExists(rules, path, a, some);
    }
  }

  lemma SameExact(rules: set<Rule>, path: string, p: Policy, q: Policy)
    requires ExactResolved(rules, path, p) && ExactResolved(rules, path, q)
    ensures p.omission == q.omission && p.stableValues == q.stableValues
  {}

  lemma SameRulePath(rules: set<Rule>, path: string, p: Policy, q: Policy)
    requires RulePathResolved(rules, path, p) && RulePathResolved(rules, path, q)
    ensures p.rulePath == q.rulePath
  {}

  /** The set of rules, whatever their order, determines the policy. */
  lemma PolicyIsUnique(rules: set<Rule>, path: string, defaults: Values, p: Policy, q: Policy)
    requires Resolved(rules, path, defaults, p) && Resolved(rules, path, defaults, q)
    ensures p == q
  {
    forall a | a in ATTRIBUTES ensures p.values[a] == q.values[a] {
      SameAttribute(rules, path, defaults, p, q, a);
      assert Get(p.values, a) == p.values[a] && Get(q.values, a) == q.values[a];
    }
    assert p.values == q.values;
    SameExact(rules, path, p, q);
    SameRulePath(rules, path, p, q);
  }

  // ----- resolvePolicy

  function Overlay(policy: Policy, rule: Rule, path: string): Policy
  {
    Policy(map a | a in ATTRIBUTES :: if Get(rule.values, a) != [] then Get(rule.values, a) else Get(policy.values, a),
           if rule.path == path then rule.omission else policy.omission,
           if rule.path == path then rule.stableValues else policy.stableValues,
           rule.path)
  }

  /** Matching rules are prefixes of one path: of equal length means equal. */
  lemma MatchingChain(a: string, b: string, path: string)
    requires Matches(a, path) && Matches(b, path) && |a| <= |b|
    ensures a <= b && (|a| == |b| ==> a == b)
  {
    assert a == path[..|a|] && b == path[..|b|];
    assert b[..|a|] == a;
  }

  /** Applying one longer rule on top keeps the policy resolved. */
  lemma OverlayResolves(rules: set<Rule>, path: string, defaults: Values, policy: Policy, rule: Rule)
    requires Resolved(rules, path, defaults, policy) && Matches(rule.path, path) && rule !in rules
    requires forall r :: r in rules ==> Matches(r.path, path) && |r.path| < |rule.path|
    ensures Resolved(rules + {rule}, path, defaults, Overlay(policy, rule, path))
  {
    var more, next := rules + {rule}, Overlay(policy, rule, path);
    forall a ensures AttributeResolved(more, path, defaults, next, a) {
      OverlayAttribute(rules, path, defaults, policy, rule, a);
    }
    forall r | r in more && Matches(r.path, path) ensures r.path <= next.rulePath {
      MatchingChain(r.path, rule.path, path);
    }
    assert rule in more;
    assert forall r :: r in rules ==> r.path != path || rule.path != path;
    assert |rule.path| <= |path|;
  }

  lemma OverlayAttribute(rules: set<Rule>, path: string, defaults: Values, policy: Policy, rule: Rule, a: Attribute)
    requires AttributeResolved(rules, path, defaults, policy, a) && Matches(rule.path, path)
    requires forall r :: r in rules ==> |r.path| < |rule.path|
    ensures AttributeResolved(rules + {rule}, path, defaults, Overlay(policy, rule, path), a)
  {
    var more, next := rules + {rule}, Overlay(policy, rule, path);
    assert rule in more && forall r :: r in rules ==> r in more;
    assert Get(next.values, a) == if Get(rule.values, a) != [] then Get(rule.values, a) else Get(policy.values, a) by {
      assert a in ATTRIBUTES;
    }
    forall r | Decides(more, path, a, r) ensures Get(next.values, a) == Get(r.values, a) {
      DeciderOfMore(rules, path, rule, a, r);
    }
  }

  /** The longest rule decides if it sets the attribute; otherwise nothing changes. */
  lemma DeciderOfMore(rules: set<Rule>, path: string, rule: Rule, a: Attribute, r: Rule)
    requires Matches(rule.path, path) && (forall q :: q in rules ==> |q.path| < |rule.path|)
    requires Decides(rules + {rule}, path, a, r)
    ensures if Sets(rule, path, a) then r == rule else Decides(rules, path, a, r)
  {
    assert rule in rules + {rule};
  }

  /** Rules that do not match make no difference. */
  lemma OthersIrrelevant(rules: set<Rule>, matching: set<Rule>, path: string, defaults: Values, policy: Policy)
    requires forall r :: r in matching <==> r in rules && Matches(r.path, path)
    requires Resolved(matching, path, defaults, policy)
    ensures Resolved(rules, path, defaults, policy)
  {
    forall a ensures AttributeResolved(rules, path, defaults, policy, a) {
      forall r | Decides(rules, path, a, r) ensures Decides(matching, path, a, r) {
      }
      assert AttributeResolved(matching, path, defaults, policy, a);
    }
  }

  ghost predicate ByLength(rules: seq<Rule>)
  {
    forall i, j :: 0 <= i < j < |rules| ==> |rules[i].path| <= |rules[j].path|
  }

  ghost predicate AllMatch(rules: seq<Rule>, path: string)
  {
    forall r :: r in rules ==> Matches(r.path, path)
  }

  function Base(defaults: Values): Policy
  {
    Policy(map a | a in ATTRIBUTES :: Get(defaults, a), "", multiset{}, "")
  }

  function Layered(ordered: seq<Rule>, path: string, defaults: Values): Policy
  {
    if ordered == [] then Base(defaults)
    else Overlay(Layered(ordered[..|ordered| - 1], path, defaults), ordered[|ordered| - 1], path)
  }

  lemma AnyAttribute(a: Attribute)
    ensures a in ATTRIBUTES
  {}

  lemma BaseResolved(path: string, defaults: Values)
    ensures Resolved({}, path, defaults, Base(defaults))
  {
    forall a ensures AttributeResolved({}, path, defaults, Base(defaults), a) {
      AnyAttribute(a);
    }
  }

  lemma ShorterThanLast(ordered: seq<Rule>, path: string, r: Rule)
    requires AllMatch(ordered, path) && ByLength(ordered) && DuplicateFree(ordered) && ordered != []
    requires r in ordered[..|ordered| - 1]
    ensures Matches(r.path, path) && |r.path| < |ordered[|ordered| - 1].path|
  {
    var i := IndexOf(ordered[..|ordered| - 1], r);
    var last := ordered[|ordered| - 1];
    assert ordered[i] == r;
    assert r in ordered && last in ordered;
    MatchingChain(r.path, last.path, path);
  }

  lemma IndexOf(rules: seq<Rule>, r: Rule) returns (i: nat)
    requires r in rules
    ensures i < |rules| && rules[i] == r
  {
    i :| 0 <= i < |rules| && rules[i] == r;
  }

  lemma LayeredSnoc(init: seq<Rule>, last: Rule, path: string, defaults: Values)
    ensures Layered(init + [last], path, defaults) == Overlay(Layered(init, path, defaults), last, path)
  {
    assert (init + [last])[..|init|] == init;
  }

  lemma LayerStep(init: seq<Rule>, last: Rule, path: string, defaults: Values, policy: Policy)
    requires AllMatch(init + [last], path) && ByLength(init + [last]) && DuplicateFree(init + [last])
    requires Resolved(Members(init), path, defaults, policy)
    ensures Resolved(Members(init + [last]), path, defaults, Overlay(policy, last, path))
  {
    var ordered := init + [last];
    assert ordered[..|init|] == init && last in ordered;
    forall r | r in Members(init) ensures Matches(r.path, path) && |r.path| < |last.path| {
      ShorterThanLast(ordered, path, r);
    }
    OverlayResolves(Members(init), path, defaults, policy, last);
    assert Members(ordered) == Members(init) + {last};
  }

  /** Layering the matching rules from short to long resolves the policy. */
  lemma {:induction false} LayeredResolves(ordered: seq<Rule>, path: string, defaults: Values)
    requires AllMatch(ordered, path) && ByLength(ordered) && DuplicateFree(ordered)
    ensures Resolved(Members(ordered), path, defaults, Layered(ordered, path, defaults))
    decreases |ordered|
  {
    if ordered == [] {
      BaseResolved(path, defaults);
      assert Members(ordered) == {};
    } else {
      var init, last := ordered[..|ordered| - 1], ordered[|ordered| - 1];
      assert ordered == init + [last];
      LayeredResolves(init, path, defaults);
      LayerStep(init, last, path, defaults, Layered(init, path, defaults));
      LayeredSnoc(init, last, path, defaults);
    }
  }

  // ----- rules that share a path

  /** The attribute comes from one of the longest rules that set it, or else from the defaults. */
  ghost predicate AttributeFrom(rules: set<Rule>, path: string, defaults: Values, policy: Policy, a: Attribute)
  {
    || (exists r :: Decides(rules, path, a, r) && Get(policy.values, a) == Get(r.values, a))
    || ((forall r :: r in rules ==> !Sets(r, path, a)) && Get(policy.values, a) == Get(defaults, a))
  }

  /** Omission and stable values come from one of the exact rules, if there are any. */
  ghost predicate ExactFrom(rules: set<Rule>, path: string, policy: Policy)
  {
    || (exists r :: r in rules && r.path == path && policy.omission == r.omission && policy.stableValues == r.stableValues)
    || ((forall r :: r in rules ==> r.path != path) && policy.omission == "" && policy.stableValues == multiset{})
  }

  lemma LastDecides(ordered: seq<Rule>, path: string, a: Attribute)
    requires AllMatch(ordered, path) && ByLength(ordered) && ordered != [] && Sets(ordered[|ordered| - 1], path, a)
    ensures Decides(Members(ordered), path, a, ordered[|ordered| - 1])
  {
    forall q | q in Members(ordered) ensures |q.path| <= |ordered[|ordered| - 1].path| {
      var i := IndexOf(ordered, q);
    }
  }

  /** A last rule that does not set the attribute leaves its decision as it was. */
  lemma InitDecides(ordered: seq<Rule>, path: string, a: Attribute, r: Rule)
    requires ordered != [] && !Sets(ordered[|ordered| - 1], path, a)
    requires Decides(Members(ordered[..|ordered| - 1]), path, a, r)
    ensures Decides(Members(ordered), path, a, r)
  {
    assert ordered == ordered[..|ordered| - 1] + [ordered[|ordered| - 1]];
    assert Members(ordered) == Members(ordered[..|ordered| - 1]) + {ordered[|ordered| - 1]};
  }

  lemma OverlaidValue(policy: Policy, rule: Rule, path: string, a: Attribute)
    ensures Get(Overlay(policy, rule, path).values, a)
         == if Get(rule.values, a) != [] then Get(rule.values, a) else Get(policy.values, a)
  {
    AnyAttribute(a);
  }

  lemma AttributeKept(ordered: seq<Rule>, path: string, defaults: Values, policy: Policy, next: Policy, a: Attribute)
    requires ordered != [] && !Sets(ordered[|ordered| - 1], path, a) && Get(next.values, a) == Get(policy.values, a)
    requires AttributeFrom(Members(ordered[..|ordered| - 1]), path, defaults, policy, a)
    ensures AttributeFrom(Members(ordered), path, defaults, next, a)
  {
    var init, last := ordered[..|ordered| - 1], ordered[|ordered| - 1];
    if r :| Decides(Members(init), path, a, r) && Get(policy.values, a) == Get(r.values, a) {
      InitDecides(ordered, path, a, r);
    } else {
      assert ordered == init + [last];
      assert forall r :: r in Members(ordered) ==> r in Members(init) || r == last;
    }
  }

  lemma {:induction false} AttributeLayered(ordered: seq<Rule>, path: string, defaults: Values, a: Attribute)
    requires AllMatch(ordered, path) && ByLength(ordered)
    ensures AttributeFrom(Members(ordered), path, defaults, Layered(ordered, path, defaults), a)
    decreases |ordered|
  {
    if ordered == [] {
      AnyAttribute(a);
    } else {
      var init, last := ordered[..|ordered| - 1], ordered[|ordered| - 1];
      assert last in ordered && forall r :: r in init ==> r in ordered;
      OverlaidValue(Layered(init, path, defaults), last, path, a);
      if Sets(last, path, a) {
        LastDecides(ordered, path, a);
      } else {
        AttributeLayered(init, path, defaults, a);
        AttributeKept(ordered, path, defaults, Layered(init, path, defaults), Layered(ordered, path, defaults), a);
      }
    }
  }

  lemma {:induction false} ExactLayered(ordered: seq<Rule>, path: string, defaults: Values)
    ensures ExactFrom(Members(ordered), path, Layered(ordered, path, defaults))
    decreases |ordered|
  {
    if ordered != [] {
      var init, last := ordered[..|ordered| - 1], ordered[|ordered| - 1];
      assert ordered == init + [last] && last in Members(ordered);
      ExactLayered(init, path, defaults);
      assert forall r :: r in Members(ordered) <==> r in Members(init) || r == last;
    }
  }

  /** Whatever the arrangement, and with rules for the same path too. */
  ghost predicate ResolvedFrom(rules: set<Rule>, path: string, defaults: Values, policy: Policy)
  {
    (forall a :: AttributeFrom(rules, path, defaults, policy, a)) && ExactFrom(rules, path, policy)
  }

  lemma ArrangedResolvesFrom(ordered: seq<Rule>, rules: seq<Rule>, path: string, defaults: Values)
    requires Arranges(ordered, rules, path)
    ensures ResolvedFrom(Members(rules), path, defaults, Layered(ordered, path, defaults))
  {
    var policy := Layered(ordered, path, defaults);
    forall a ensures AttributeFrom(Members(rules), path, defaults, policy, a) {
      AttributeLayered(ordered, path, defaults, a);
      if r :| Decides(Members(ordered), path, a, r) && Get(policy.values, a) == Get(r.values, a) {
        assert Decides(Members(rules), path, a, r);
      }
    }
    ExactLayered(ordered, path, defaults);
  }

  /** `ordered` is what filtering and sorting may leave: any arrangement by length. */
  ghost predicate Arranges(ordered: seq<Rule>, rules: seq<Rule>, path: string)
  {
    && AllMatch(ordered, path) && ByLength(ordered) && (DuplicateFree(rules) ==> DuplicateFree(ordered))
    && forall r :: r in ordered <==> r in rules && Matches(r.path, path)
  }

  lemma ArrangedResolves(ordered: seq<Rule>, rules: seq<Rule>, path: string, defaults: Values)
    requires Arranges(ordered, rules, path) && DuplicateFree(rules)
    ensures Resolved(Members(rules), path, defaults, Layered(ordered, path, defaults))
  {
    LayeredResolves(ordered, path, defaults);
    OthersIrrelevant(Members(rules), Members(ordered), path, defaults, Layered(ordered, path, defaults));
  }

  /**
   * Neither the order of the rules nor an unstable sort can change the outcome, as long as
   * no two rules are for the same path.
   */
  lemma OrderDoesNotMatter(rules: seq<Rule>, others: seq<Rule>, ordered: seq<Rule>, reordered: seq<Rule>,
                           path: string, defaults: Values)
    requires DuplicateFree(rules) && DuplicateFree(others) && Members(rules) == Members(others)
    requires Arranges(ordered, rules, path) && Arranges(reordered, others, path)
    ensures Layered(ordered, path, defaults) == Layered(reordered, path, defaults)
    ensures ordered == reordered
  {
    ArrangedResolves(ordered, rules, path, defaults);
    ArrangedResolves(reordered, others, path, defaults);
    PolicyIsUnique(Members(rules), path, defaults, Layered(ordered, path, defaults),
                   Layered(reordered, path, defaults));
    forall r ensures r in ordered <==> r in reordered {
      assert r in rules <==> r in Members(rules);
      assert r in others <==> r in Members(others);
    }
    ArrangementIsUnique(ordered, reordered, path);
  }

  ghost predicate SameRules(a: seq<Rule>, b: seq<Rule>)
  {
    forall r :: r in a <==> r in b
  }

  /** Matching rules of distinct paths have distinct lengths, so sorting leaves no choice. */
  lemma {:induction false} ArrangementIsUnique(a: seq<Rule>, b: seq<Rule>, path: string)
    requires AllMatch(a, path) && ByLength(a) && DuplicateFree(a) && ByLength(b) && DuplicateFree(b)
    requires SameRules(a, b)
    ensures a == b
    decreases |a|
  {
    assert b != [] ==> b[0] in b;
    if a != [] {
      var x := LastAgrees(a, b, path);
      InitsAgree(a, b, path);
      InitOrdered(a);
      InitOrdered(b);
      ArrangementIsUnique(a[..|a| - 1], b[..|b| - 1], path);
      assert a == a[..|a| - 1] + [x];
      assert b == b[..|b| - 1] + [x];
    }
  }

  lemma InitOrdered(a: seq<Rule>)
    requires ByLength(a) && DuplicateFree(a) && a != []
    ensures ByLength(a[..|a| - 1]) && DuplicateFree(a[..|a| - 1])
  {}

  lemma LastAgrees(a: seq<Rule>, b: seq<Rule>, path: string) returns (y: Rule)
    requires AllMatch(a, path) && ByLength(a) && DuplicateFree(a) && ByLength(b) && a != []
    requires SameRules(a, b)
    ensures b != [] && y == b[|b| - 1] == a[|a| - 1]
  {
    var x := a[|a| - 1];
    assert x in a && x in b;
    y := b[|b| - 1];
    assert y in b && y in a;
    LastIsLongest(a, y);
    LastIsLongest(b, x);
    MatchingChain(x.path, y.path, path);
    SamePathSameRule(a, x, y);
  }

  lemma InitsAgree(a: seq<Rule>, b: seq<Rule>, path: string)
    requires AllMatch(a, path) && DuplicateFree(a) && DuplicateFree(b) && a != [] && b != []
    requires a[|a| - 1] == b[|b| - 1] && SameRules(a, b)
    ensures AllMatch(a[..|a| - 1], path) && SameRules(a[..|a| - 1], b[..|b| - 1])
  {
    var a', b' := a[..|a| - 1], b[..|b| - 1];
    forall r ensures (r in a' <==> r in b') && (r in a' ==> r in a) {
      InitMembers(a, r);
      InitMembers(b, r);
    }
  }

  lemma LastIsLongest(a: seq<Rule>, r: Rule)
    requires ByLength(a) && r in a
    ensures |r.path| <= |a[|a| - 1].path|
  {
    var i :| 0 <= i < |a| && a[i] == r;
  }

  lemma SamePathSameRule(a: seq<Rule>, x: Rule, y: Rule)
    requires DuplicateFree(a) && x in a && y in a && x.path == y.path
    ensures x == y
  {
    var i :| 0 <= i < |a| && a[i] == x;
    var j :| 0 <= j < |a| && a[j] == y;
  }

  lemma InitMembers(a: seq<Rule>, r: Rule)
    requires a != [] && DuplicateFree(a)
    ensures r in a[..|a| - 1] <==> r in a && r != a[|a| - 1]
  {
    assert a == a[..|a| - 1] + [a[|a| - 1]];
  }

  datatype Defaults = Defaults(mutability: string, migration: string, moduleInteraction: string, enforcement: Value)

  function Text(s: string): Value { if s == "" then [] else [s] }

  function AsValues(d: Defaults): Values
  {
    map[Mutability := Text(d.mutability), Migration := Text(d.migration),
        ModuleInteraction := Text(d.moduleInteraction), Enforcement := d.enforcement]
  }

  function DefaultsFor(path: string, spec: Defaults, status: Defaults): Values
  {
    AsValues(if "status." <= path then status else spec)
  }

  /** resolvePolicy */
  method ResolvePolicy(rules: seq<Rule>, path: string, spec: Defaults, status: Defaults)
    returns (policy: Policy, matched: seq<string>)
    ensures ResolvedFrom(Members(rules), path, DefaultsFor(path, spec, status), policy)
    ensures DuplicateFree(rules) ==> Resolved(Members(rules), path, DefaultsFor(path, spec, status), policy)
    ensures forall i, j :: 0 <= i < j < |matched| ==> |matched[i]| <= |matched[j]|
    ensures forall p :: p in matched <==> exists r :: r in rules && r.path == p && Matches(p, path)
  {
    var ordered := MatchingRules(rules, path);
    policy, matched := Layer(ordered, path, DefaultsFor(path, spec, status));
    ArrangedResolvesFrom(ordered, rules, path, DefaultsFor(path, spec, status));
    if DuplicateFree(rules) {
      ArrangedResolves(ordered, rules, path, DefaultsFor(path, spec, status));
    }
    forall p ensures p in matched <==> exists r :: r in rules && r.path == p && Matches(p, path) {
      MatchedPaths(ordered, rules, path, matched, p);
    }
  }

  method Layer(ordered: seq<Rule>, path: string, defaults: Values) returns (policy: Policy, matched: seq<string>)
    ensures policy == Layered(ordered, path, defaults) && matched == Paths(ordered)
  {
    policy := Base(defaults);
    matched := [];
    for i := 0 to |ordered|
      invariant policy == Layered(ordered[..i], path, defaults) && matched == Paths(ordered[..i])
    {
      LayeredNext(ordered, i, path, defaults);
      policy := Overlay(policy, ordered[i], path);
      matched := matched + [ordered[i].path];
    }
    assert ordered[..|ordered|] == ordered;
  }

  function Paths(rules: seq<Rule>): (r: seq<string>)
    ensures |r| == |rules| && forall i :: 0 <= i < |rules| ==> r[i] == rules[i].path
  {
    seq(|rules|, i requires 0 <= i < |rules| => rules[i].path)
  }

  lemma LayeredNext(ordered: seq<Rule>, i: nat, path: string, defaults: Values)
    requires i < |ordered|
    ensures Layered(ordered[..i + 1], path, defaults) == Overlay(Layered(ordered[..i], path, defaults), ordered[i], path)
    ensures Paths(ordered[..i + 1]) == Paths(ordered[..i]) + [ordered[i].path]
  {
    assert ordered[..i + 1] == ordered[..i] + [ordered[i]];
    LayeredSnoc(ordered[..i], ordered[i], path, defaults);
  }

  lemma MatchedPaths(ordered: seq<Rule>, rules: seq<Rule>, path: string, matched: seq<string>, p: string)
    requires Arranges(ordered, rules, path)
    requires matched == Paths(ordered)
    ensures p in matched <==> exists r :: r in rules && r.path == p && Matches(p, path)
  {
    if p in matched {
      var j :| 0 <= j < |matched| && matched[j] == p;
      assert ordered[j] in ordered;
    }
    if r :| r in rules && r.path == p && Matches(p, path) {
      var j := IndexOf(ordered, r);
      assert matched[j] == p;
    }
  }

  method MatchingRules(rules: seq<Rule>, path: string) returns (ordered: seq<Rule>)
    ensures Arranges(ordered, rules, path)
  {
    ordered := [];
    for i := 0 to |rules|
      invariant Arranges(ordered, rules[..i], path)
    {
      assert rules[..i + 1] == rules[..i] + [rules[i]];
      assert DuplicateFree(rules[..i + 1]) ==> DuplicateFree(rules[..i]);
      if Matches(rules[i].path, path) {
        ordered := Insert(ordered, rules[i], rules[..i], path);
      }
    }
    assert rules[..|rules|] == rules;
  }

  /** One step of sorting by length. */
  method Insert(ordered: seq<Rule>, rule: Rule, ghost rules: seq<Rule>, ghost path: string) returns (r: seq<Rule>)
    requires Arranges(ordered, rules, path) && Matches(rule.path, path)
    ensures Arranges(r, rules + [rule], path)
  {
    var k := |ordered|;
    while k > 0 && |ordered[k - 1].path| > |rule.path|
      invariant 0 <= k <= |ordered|
      invariant forall i :: k <= i < |ordered| ==> |ordered[i].path| > |rule.path|
    {
      k := k - 1;
    }
    r := ordered[..k] + [rule] + ordered[k..];
    InsertArranges(ordered, rule, rules, path, k);
  }

  lemma InsertArranges(ordered: seq<Rule>, rule: Rule, rules: seq<Rule>, path: string, k: nat)
    requires Arranges(ordered, rules, path) && Matches(rule.path, path) && k <= |ordered|
    requires k > 0 ==> |ordered[k - 1].path| <= |rule.path|
    requires forall i :: k <= i < |ordered| ==> |ordered[i].path| > |rule.path|
    ensures Arranges(ordered[..k] + [rule] + ordered[k..], rules + [rule], path)
  {
    var r, all := ordered[..k] + [rule] + ordered[k..], rules + [rule];
    InsertMembers(ordered, rule, k);
    InsertByLength(ordered, rule, k);
    assert forall x :: x in all <==> x in rules || x == rule;
    if DuplicateFree(all) {
      assert all[..|rules|] == rules;
      forall x | x in ordered ensures x.path != rule.path {
        var i := IndexOf(rules, x);
        assert all[i] == x && all[|rules|] == rule;
      }
      InsertDuplicateFree(ordered, rule, k);
    }
  }

  lemma InsertMembers(ordered: seq<Rule>, rule: Rule, k: nat)
    requires k <= |ordered|
    ensures forall x :: x in ordered[..k] + [rule] + ordered[k..] <==> x in ordered || x == rule
  {
    assert ordered == ordered[..k] + ordered[k..];
  }

  lemma InsertByLength(ordered: seq<Rule>, rule: Rule, k: nat)
    requires ByLength(ordered) && k <= |ordered|
    requires k > 0 ==> |ordered[k - 1].path| <= |rule.path|
    requires forall i :: k <= i < |ordered| ==> |ordered[i].path| > |rule.path|
    ensures ByLength(ordered[..k] + [rule] + ordered[k..])
  {}

  lemma InsertDuplicateFree(ordered: seq<Rule>, rule: Rule, k: nat)
    requires DuplicateFree(ordered) && k <= |ordered| && forall x :: x in ordered ==> x.path != rule.path
    ensures DuplicateFree(ordered[..k] + [rule] + ordered[k..])
  {
    assert forall i :: 0 <= i < |ordered| ==> ordered[i] in ordered;
  }
}
