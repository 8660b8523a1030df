// Comparing two snapshots node by node and classifying every difference.

module CrdCompare {
  import opened Options
  import opened JsonValues
  import opened CelRules
  import opened CrdSchema
  import opened CrdSnapshot
  import opened CrdPaths
  import Float64

  datatype Impact = Breaking | Review | Compatible

  datatype Classification =
    | FieldRemoved | FieldAddedOptional | FieldAddedUnderOptionalParent | FieldAddedRequired
    | TypeChanged | RequirednessAdded | RequirednessRemoved | DefaultChanged
    | EnumConstraintAdded | EnumConstraintRemoved | EnumValuesRemoved | EnumValuesAdded
    | ValidationRelaxed | ValidationTightened | ValidationChanged
    | CelDiagnosticFix | CelOptionalFeatureValidation | CelChanged

  datatype Change = Change(impact: Impact, classification: Classification, meta: Meta, path: string)

  function NewChange(impact: Impact, classification: Classification, node: Node): Change
  {
    Change(impact, classification, node.meta, node.path)
  }

  // ----- constraint values as numbers

  function ParseFloat(v: Val): Option<real>
  {
    match v
    case Float(x) => Some(x)
    case Int(n) => Some(Float64.ToFloat64(n) as real)
    case _ => None
  }

  predicate IsLowerBound(k: Keyword) { k in {Minimum, MinLength, MinItems, MinProperties} }
  predicate IsUpperBound(k: Keyword) { k in {Maximum, MaxLength, MaxItems, MaxProperties} }

  function ClassifyConstraintChange(k: Keyword, oldValue: Val, newValue: Val): (Impact, Classification)
  {
    if k == Nullable || k == PreserveUnknownFields then
      if newValue == Flag then (Compatible, ValidationRelaxed) else (Review, ValidationTightened)
    else if k == UniqueItems then
      if newValue == Flag then (Review, ValidationTightened) else (Compatible, ValidationRelaxed)
    else if k == ListMapKeys || k == ListType || k == MapType then
      (Review, ValidationChanged)
    else if newValue == Unset then (Compatible, ValidationRelaxed)
    else if oldValue == Unset then (Review, ValidationTightened)
    else
      var oldNumber, newNumber := ParseFloat(oldValue), ParseFloat(newValue);
      if oldNumber.Some? && newNumber.Some? && IsLowerBound(k) then
        if newNumber.value > oldNumber.value then (Review, ValidationTightened) else (Compatible, ValidationRelaxed)
      else if oldNumber.Some? && newNumber.Some? && IsUpperBound(k) then
        if newNumber.value < oldNumber.value then (Review, ValidationTightened) else (Compatible, ValidationRelaxed)
      else
        (Review, ValidationChanged)
  }

  // ----- enums

  function Difference(left: seq<Json>, right: seq<Json>): (r: seq<Json>)
    ensures forall v :: v in r <==> v in left && v !in right
  {
    if left == [] then [] else
      (if left[0] in right then [] else [left[0]]) + Difference(left[1..], right)
  }

  function CompareEnum(o: Node, n: Node): seq<Change>
  {
    if o.enum == [] && n.enum != [] then [NewChange(Breaking, EnumConstraintAdded, n)]
    else if o.enum != [] && n.enum == [] then [NewChange(Compatible, EnumConstraintRemoved, n)]
    else
      (if Difference(o.enum, n.enum) != [] then [NewChange(Breaking, EnumValuesRemoved, n)] else [])
      + (if Difference(n.enum, o.enum) != [] then [NewChange(Compatible, EnumValuesAdded, n)] else [])
  }

  // ----- constraints, in keyword name order

  /** The position of a keyword's name among all keyword names. */
  function Rank(k: Keyword): nat
  {
    match k
    case AdditionalProperties => 0 case EmbeddedResource => 1 case ExclusiveMaximum => 2
    case ExclusiveMinimum => 3 case Format => 4 case IntOrString => 5 case ListMapKeys => 6
    case ListType => 7 case MapType => 8 case MaxItems => 9 case MaxLength => 10
    case MaxProperties => 11 case Maximum => 12 case MinItems => 13 case MinLength => 14
    case MinProperties => 15 case Minimum => 16 case MultipleOf => 17 case Nullable => 18
    case Pattern => 19 case PreserveUnknownFields => 20 case UniqueItems => 21
  }

  ghost predicate IsFirst(k: Keyword, keys: set<Keyword>)
  {
    k in keys && forall j :: j in keys ==> Rank(k) <= Rank(j)
  }

  /** Finds the keyword whose name sorts first. */
  method FindFirst(keys: set<Keyword>) returns (k: Keyword)
    requires keys != {}
    ensures IsFirst(k, keys)
  {
    k :| k in keys;
    var rest := keys - {k};
    while rest != {}
      invariant rest <= keys && k in keys && k !in rest
      invariant forall j :: j in keys - rest ==> Rank(k) <= Rank(j)
      decreases |rest|
    {
      var j :| j in rest;
      rest := rest - {j};
      k := if Rank(j) < Rank(k) then j else k;
    }
  }

  /** `ordered` lists `keys` once each, in name order. */
  ghost predicate NameOrder(ordered: seq<Keyword>, keys: set<Keyword>)
  {
    && (forall k :: k in ordered <==> k in keys)
    && (forall i, j :: 0 <= i < j < |ordered| ==> Rank(ordered[i]) < Rank(ordered[j]))
  }

  function ConstraintChange(o: Node, n: Node, k: Keyword): seq<Change>
  {
    var oldValue, newValue := Lookup(o.constraints, k), Lookup(n.constraints, k);
    if oldValue == newValue then [] else
      var (impact, classification) := ClassifyConstraintChange(k, oldValue, newValue);
      [NewChange(impact, classification, n)]
  }

  function ConstraintChanges(o: Node, n: Node, keys: seq<Keyword>): seq<Change>
  {
    if keys == [] then [] else ConstraintChange(o, n, keys[0]) + ConstraintChanges(o, n, keys[1..])
  }

  method OrderKeywords(keys: set<Keyword>) returns (ordered: seq<Keyword>)
    ensures NameOrder(ordered, keys)
  {
    ordered := [];
    var rest := keys;
    while rest != {}
      invariant rest <= keys
      invariant NameOrder(ordered, keys - rest)
      invariant forall i, k :: 0 <= i < |ordered| && k in rest ==> Rank(ordered[i]) < Rank(k)
      decreases |rest|
    {
      var k := FindFirst(rest);
      forall j | j in rest - {k} ensures Rank(k) < Rank(j) {
        RankInjective(k, j);
      }
      rest, ordered := rest - {k}, ordered + [k];
    }
  }

  lemma RankInjective(j: Keyword, k: Keyword)
    requires j != k
    ensures Rank(j) != Rank(k)
  {}

  /** compareConstraints: the keywords of either node in name order. */
  method CompareConstraints(o: Node, n: Node) returns (changes: seq<Change>, ordered: seq<Keyword>)
    ensures NameOrder(ordered, o.constraints.Keys + n.constraints.Keys)
    ensures changes == ConstraintChanges(o, n, ordered)
  {
    ordered := OrderKeywords(o.constraints.Keys + n.constraints.Keys);
    changes := ListConstraintChanges(o, n, ordered);
  }

  method ListConstraintChanges(o: Node, n: Node, ordered: seq<Keyword>) returns (changes: seq<Change>)
    ensures changes == ConstraintChanges(o, n, ordered)
  {
    changes := [];
    var i := 0;
    while i < |ordered|
      invariant 0 <= i <= |ordered|
      invariant changes == ConstraintChanges(o, n, ordered[..i])
    {
      ConstraintChangesSnoc(o, n, ordered[..i], ordered[i]);
      changes := changes + ConstraintChange(o, n, ordered[i]);
      i := i + 1;
      assert ordered[..i] == ordered[..i - 1] + [ordered[i - 1]];
    }
    assert ordered[..i] == ordered;
  }

  lemma {:induction false} ConstraintChangesSnoc(o: Node, n: Node, keys: seq<Keyword>, k: Keyword)
    ensures ConstraintChanges(o, n, keys + [k]) == ConstraintChanges(o, n, keys) + ConstraintChange(o, n, k)
    decreases |keys|
  {
    if keys == [] {
      assert (keys + [k])[1..] == [];
    } else {
      assert (keys + [k])[1..] == keys[1..] + [k];
      ConstraintChangesSnoc(o, n, keys[1..], k);
    }
  }

  // ----- CEL rules, and the two reviewed rewrites

  const FRESH_RULES: set<CelRule> := {Reviewed(FreshTemplate), Reviewed(FreshLifecycle), Reviewed(FreshCleanup)}

  const CLUSTER_SPEC := (Meta("openbaoclusters.openbao.org", "OpenBaoCluster", "v1alpha1"), "spec")
  const RESTORE_SPEC := (Meta("openbaorestores.openbao.org", "OpenBaoRestore", "v1alpha1"), "spec")

  function RuleSet(rules: seq<CelRule>): set<CelRule>
  {
    set r | r in rules
  }

  predicate IsTlsRotationPeriodDiagnosticFix(n: Node, added: set<CelRule>, removed: set<CelRule>)
  {
    (n.meta, n.path) == CLUSTER_SPEC && added == {Reviewed(TlsAfter)} && removed == {Reviewed(TlsBefore)}
  }

  predicate IsFreshRestoreValidation(n: Node, added: set<CelRule>, removed: set<CelRule>)
  {
    (n.meta, n.path) == RESTORE_SPEC && added != {} && removed == {} && added <= FRESH_RULES
  }

  function CompareCel(o: Node, n: Node): seq<Change>
  {
    if multiset(o.cel) == multiset(n.cel) then [] else
      var added, removed := RuleSet(n.cel) - RuleSet(o.cel), RuleSet(o.cel) - RuleSet(n.cel);
      if IsTlsRotationPeriodDiagnosticFix(n, added, removed) then [NewChange(Compatible, CelDiagnosticFix, n)]
      else if IsFreshRestoreValidation(n, added, removed) then [NewChange(Compatible, CelOptionalFeatureValidation, n)]
      else if added != {} && removed == {} then [NewChange(Review, ValidationTightened, n)]
      else if removed != {} && added == {} then [NewChange(Compatible, ValidationRelaxed, n)]
      else [NewChange(Review, CelChanged, n)]
  }

  function CompareHeader(o: Node, n: Node): seq<Change>
  {
    (if o.typ != n.typ then [NewChange(Breaking, TypeChanged, n)] else [])
    + (if !o.required && n.required then [NewChange(Breaking, RequirednessAdded, n)] else [])
    + (if o.required && !n.required then [NewChange(Compatible, RequirednessRemoved, n)] else [])
    + (if o.dflt != n.dflt then [NewChange(Review, DefaultChanged, n)] else [])
  }

  /** `c` is one of the differences compareNode reports. */
  ghost predicate NodeChange(c: Change, o: Node, n: Node)
  {
    || c in CompareHeader(o, n)
    || c in CompareEnum(o, n)
    || (exists k :: c in ConstraintChange(o, n, k))
    || c in CompareCel(o, n)
  }

  method CompareNode(o: Node, n: Node) returns (changes: seq<Change>)
    ensures forall c :: c in changes <==> NodeChange(c, o, n)
  {
    var constraints, ordered := CompareConstraints(o, n);
    changes := CompareHeader(o, n) + CompareEnum(o, n) + constraints + CompareCel(o, n);
    forall c ensures c in constraints <==> exists k :: c in ConstraintChange(o, n, k) {
      ConstraintsCovered(c, o, n, ordered);
    }
  }

  lemma {:induction false} ConstraintChangesIntro(c: Change, o: Node, n: Node, keys: seq<Keyword>, k: Keyword)
    requires k in keys && c in ConstraintChange(o, n, k)
    ensures c in ConstraintChanges(o, n, keys)
    decreases |keys|
  {
    if k != keys[0] {
      ConstraintChangesIntro(c, o, n, keys[1..], k);
    }
  }

  lemma {:induction false} ConstraintChangesElim(c: Change, o: Node, n: Node, keys: seq<Keyword>)
    requires c in ConstraintChanges(o, n, keys)
    ensures exists k :: c in ConstraintChange(o, n, k)
    decreases |keys|
  {
    if c !in ConstraintChange(o, n, keys[0]) {
      ConstraintChangesElim(c, o, n, keys[1..]);
    }
  }

  lemma ConstraintsCovered(c: Change, o: Node, n: Node, ordered: seq<Keyword>)
    requires NameOrder(ordered, o.constraints.Keys + n.constraints.Keys)
    ensures c in ConstraintChanges(o, n, ordered) <==> exists k :: c in ConstraintChange(o, n, k)
  {
    if c in ConstraintChanges(o, n, ordered) {
      ConstraintChangesElim(c, o, n, ordered);
    }
    forall k | c in ConstraintChange(o, n, k) ensures c in ConstraintChanges(o, n, ordered) {
      assert k in o.constraints.Keys + n.constraints.Keys;
      ConstraintChangesIntro(c, o, n, ordered, k);
    }
  }

  // ----- whole snapshots

  /** The scan of addedUnderOptionalAncestor from `path` upwards. */
  predicate UnderOptionalAncestor(meta: Meta, path: string, olds: map<NodeKey, Node>, news: map<NodeKey, Node>)
    decreases |path|
  {
    path != "" &&
    var k := Key(meta, path);
    k !in olds &&
    ((k in news && !news[k].required) || UnderOptionalAncestor(meta, ParentPath(path), olds, news))
  }

  method AddedUnderOptionalAncestor(n: Node, olds: map<NodeKey, Node>, news: map<NodeKey, Node>) returns (r: bool)
    ensures r <==> UnderOptionalAncestor(n.meta, ParentPath(n.path), olds, news)
  {
    var path := ParentPath(n.path);
    while path != ""
      invariant UnderOptionalAncestor(n.meta, path, olds, news)
           <==> UnderOptionalAncestor(n.meta, ParentPath(n.path), olds, news)
      decreases |path|
    {
      var k := Key(n.meta, path);
      if k in olds {
        return false;
      }
      if k in news && !news[k].required {
        return true;
      }
      path := ParentPath(path);
    }
    return false;
  }

  function AddedChange(n: Node, olds: map<NodeKey, Node>, news: map<NodeKey, Node>): Change
  {
    if !n.required then NewChange(Compatible, FieldAddedOptional, n)
    else if UnderOptionalAncestor(n.meta, ParentPath(n.path), olds, news) then
      NewChange(Compatible, FieldAddedUnderOptionalParent, n)
    else NewChange(Breaking, FieldAddedRequired, n)
  }

  /** `c` is what compareSnapshots reports about one key. */
  ghost predicate ChangeAt(k: NodeKey, c: Change, olds: map<NodeKey, Node>, news: map<NodeKey, Node>)
  {
    if k in olds then
      if k in news then NodeChange(c, olds[k], news[k]) else c == NewChange(Breaking, FieldRemoved, olds[k])
    else
      k in news && c == AddedChange(news[k], olds, news)
  }

  /** `changes` is exactly what the comparison says about the keys in `done`. */
  ghost predicate Covers(changes: seq<Change>, done: set<NodeKey>, olds: map<NodeKey, Node>, news: map<NodeKey, Node>)
  {
    && (forall k, c :: k in done && ChangeAt(k, c, olds, news) ==> c in changes)
    && (forall c :: c in changes ==> exists k :: k in done && ChangeAt(k, c, olds, news))
  }

  lemma CoversMore(changes: seq<Change>, done: set<NodeKey>, k: NodeKey, found: seq<Change>,
                   olds: map<NodeKey, Node>, news: map<NodeKey, Node>)
    requires Covers(changes, done, olds, news)
    requires forall c :: c in found <==> ChangeAt(k, c, olds, news)
    ensures Covers(changes + found, done + {k}, olds, news)
  {
    forall c | c in changes + found
      ensures exists j :: j in done + {k} && ChangeAt(j, c, olds, news)
    {
      if c in changes {
        var j :| j in done && ChangeAt(j, c, olds, news);
        assert j in done + {k};
      } else {
        assert k in done + {k};
      }
    }
  }

  method ReportKey(k: NodeKey, olds: map<NodeKey, Node>, news: map<NodeKey, Node>) returns (found: seq<Change>)
    requires k in olds || k in news
    ensures forall c :: c in found <==> ChangeAt(k, c, olds, news)
  {
    if k in olds {
      if k in news {
        found := CompareNode(olds[k], news[k]);
      } else {
        found := [NewChange(Breaking, FieldRemoved, olds[k])];
      }
    } else {
      var n := news[k];
      var impact, classification := Compatible, FieldAddedOptional;
      if n.required {
        var excused := AddedUnderOptionalAncestor(n, olds, news);
        if excused {
          classification := FieldAddedUnderOptionalParent;
        } else {
          impact, classification := Breaking, FieldAddedRequired;
        }
      }
      found := [NewChange(impact, classification, n)];
    }
  }

  /** One pass of compareSnapshots over some keys; Go visits them in an unspecified order. */
  method ReportKeys(keys: set<NodeKey>, olds: map<NodeKey, Node>, news: map<NodeKey, Node>,
                    before: seq<Change>, ghost done: set<NodeKey>)
    returns (changes: seq<Change>)
    requires forall k :: k in keys ==> k in olds || k in news
    requires Covers(before, done, olds, news)
    ensures Covers(changes, done + keys, olds, news)
  {
    changes := before;
    var rest := keys;
    ghost var seen := done;
    while rest != {}
      invariant rest <= keys && seen == done + (keys - rest)
      invariant Covers(changes, seen, olds, news)
      decreases |rest|
    {
      var k :| k in rest;
      var found := ReportKey(k, olds, news);
      CoversMore(changes, seen, k, found, olds, news);
      changes := changes + found;
      rest, seen := rest - {k}, seen + {k};
    }
    assert seen == done + keys;
  }

  method CompareSnapshots(oldNodes: seq<Node>, newNodes: seq<Node>) returns (changes: seq<Change>)
    ensures var olds, news := NodeMap(oldNodes), NodeMap(newNodes);
            Covers(changes, olds.Keys + news.Keys, olds, news)
  {
    var olds, news := NodeMap(oldNodes), NodeMap(newNodes);
    changes := ReportKeys(olds.Keys, olds, news, [], {});
    assert {} + olds.Keys == olds.Keys;
    changes := ReportKeys(news.Keys - olds.Keys, olds, news, changes, olds.Keys);
    assert olds.Keys + (news.Keys - olds.Keys) == olds.Keys + news.Keys;
  }

  method HasBlockingChanges(changes: seq<Change>) returns (r: bool)
    ensures r <==> exists c :: c in changes && c.impact != Compatible
  {
    for i := 0 to |changes|
      invariant forall j :: 0 <= j < i ==> changes[j].impact == Compatible
    {
      if changes[i].impact == Breaking || changes[i].impact == Review {
        return true;
      }
    }
    return false;
  }

  /** Nothing in the comparison blocks a release. */
  ghost predicate Unblocked(olds: map<NodeKey, Node>, news: map<NodeKey, Node>)
  {
    forall k, c :: k in olds.Keys + news.Keys && ChangeAt(k, c, olds, news) ==> c.impact == Compatible
  }

  /** Enforce mode: the tool exits successfully exactly on an unblocked comparison. */
  method Enforce(oldNodes: seq<Node>, newNodes: seq<Node>) returns (accepted: bool)
    ensures accepted <==> Unblocked(NodeMap(oldNodes), NodeMap(newNodes))
  {
    var changes := CompareSnapshots(oldNodes, newNodes);
    var blocked := HasBlockingChanges(changes);
    accepted := !blocked;
  }
}
