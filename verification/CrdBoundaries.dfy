// Where compatibility soundness stops: what became stricter without the checker noticing.

module CrdBoundaries {
  import opened Options
  import opened JsonValues
  import opened CelRules
  import opened CrdSchema
  import opened CrdSnapshot
  import opened CrdCompare
  import opened CrdSoundness
  import Float64

  /** A snapshot compared with itself reports nothing at all. */
  lemma SameSnapshotIsSilent(nodes: map<NodeKey, Node>, k: NodeKey, c: Change)
    ensures !ChangeAt(k, c, nodes, nodes)
  {
    if k in nodes {
      var node := nodes[k];
      assert Difference(node.enum, node.enum) == [] by {
        if Difference(node.enum, node.enum) != [] {
          assert Difference(node.enum, node.enum)[0] in Difference(node.enum, node.enum);
        }
      }
    }
  }

  /** The bound `y` admits all that `x` admits. */
  predicate NotTightened(k: Keyword, x: int, y: int)
  {
    if IsLowerBound(k) then y <= x else y >= x
  }

  /**
   * The verdict on an integer bound is right exactly when the bound was not tightened, or
   * was tightened to something that float64 tells apart from it.
   */
  lemma BoundVerdictIsExact(k: Keyword, x: int, y: int)
    requires k in {MinLength, MaxLength, MinItems, MaxItems, MinProperties, MaxProperties}
    ensures ClassifyConstraintChange(k, Int(x), Int(y)).0 == Compatible
       <==> NotTightened(k, x, y) || Float64.ToFloat64(x) == Float64.ToFloat64(y)
  {
    if x <= y {
      Float64.Float64Monotone(x, y);
    } else {
      Float64.Float64Monotone(y, x);
    }
  }

  /** Up to 2^53 the verdict is simply right. */
  lemma SmallBoundVerdict(k: Keyword, x: int, y: int)
    requires k in {MinLength, MaxLength, MinItems, MaxItems, MinProperties, MaxProperties}
    requires -Float64.EXACT <= x <= Float64.EXACT && -Float64.EXACT <= y <= Float64.EXACT
    ensures ClassifyConstraintChange(k, Int(x), Int(y)).0 == Compatible <==> NotTightened(k, x, y)
  {
    BoundVerdictIsExact(k, x, y);
    Float64.ExactFloat64(x);
    Float64.ExactFloat64(y);
  }

  /** One past 2^53, a tightened limit rounds to the old one and passes as relaxed. */
  lemma RoundingHidesTightening()
    ensures ClassifyConstraintChange(MinLength, Int(Float64.EXACT), Int(Float64.EXACT + 1)).0 == Compatible
    ensures SizeOk(Some(Float64.EXACT), None, Float64.EXACT)
    ensures !SizeOk(Some(Float64.EXACT + 1), None, Float64.EXACT)
  {
    var n: nat := Float64.EXACT + 1;
    assert Float64.Nearest(n, 2) == Float64.EXACT;
    assert Float64.RoundAt(n, 1) == Float64.RoundAt(n, 2);
    Float64.ExactFloat64(Float64.EXACT);
    BoundVerdictIsExact(MinLength, Float64.EXACT, Float64.EXACT + 1);
  }

  /** A single new optional node never blocks. */
  lemma AddedOptionalIsNotBlocked(olds: map<NodeKey, Node>, key: NodeKey, node: Node)
    requires key !in olds && !node.required
    ensures Unblocked(olds, olds[key := node])
  {
    var news := olds[key := node];
    forall k, c | k in olds.Keys + news.Keys && ChangeAt(k, c, olds, news) ensures c.impact == Compatible {
      if k in olds {
        SameSnapshotIsSilent(olds, k, c);
      }
    }
  }

  // ----- the fresh-restore exemption

  const RESTORE_KEY := Key(RESTORE_SPEC.0, RESTORE_SPEC.1)

  /**
   * Adding a fresh-target rule to the restore request is accepted whatever the old
   * release looked like: the exemption never looks at the old schema.
   */
  lemma FreshExemptionIgnoresOldSchema(olds: map<NodeKey, Node>, id: ReviewedRule)
    requires RESTORE_KEY in olds && (olds[RESTORE_KEY].meta, olds[RESTORE_KEY].path) == RESTORE_SPEC
    requires id in {FreshTemplate, FreshLifecycle, FreshCleanup} && olds[RESTORE_KEY].cel == []
    ensures Unblocked(olds, olds[RESTORE_KEY := olds[RESTORE_KEY].(cel := [Reviewed(id)])])
  {
    var a := olds[RESTORE_KEY];
    var b := a.(cel := [Reviewed(id)]);
    var news := olds[RESTORE_KEY := b];
    forall k, c | k in olds.Keys + news.Keys && ChangeAt(k, c, olds, news) ensures c.impact == Compatible {
      if k != RESTORE_KEY {
        SameSnapshotIsSilent(olds, k, c);
      } else {
        SameSnapshotIsSilent(olds, k, c);
        assert forall j :: ConstraintChange(a, b, j) == [];
        assert c in CompareCel(a, b);
        assert RuleSet(b.cel) - RuleSet(a.cel) == {Reviewed(id)} by { assert Reviewed(id) in b.cel; }
        assert RuleSet(a.cel) - RuleSet(b.cel) == {};
        assert IsFreshRestoreValidation(b, {Reviewed(id)}, {});
        assert !IsTlsRotationPeriodDiagnosticFix(b, {Reviewed(id)}, {});
      }
    }
  }

  /** A request that has targetLifecycle but no template fails the rule about it. */
  lemma LifecycleAloneFails(v: Json)
    requires v.Obj? && GuardField(FreshLifecycle) in v.fields && "clusterTemplate" !in v.fields
    ensures !Passes(FreshLifecycle, v)
  {
    var template, lifecycle := Has(["clusterTemplate"]), Has(["targetLifecycle"]);
    assert Eval(template, v) == No && Eval(lifecycle, v) == Yes;
    assert Eval(Not(lifecycle), v) == No;
    assert Eval(Or(template, Not(lifecycle)), v) == No;
  }

  const NO_LIMITS := Limits("", "", None, None, None, None, None, None, None, None, None,
                            false, false, false, false, false, false, false, "", "", {})

  const TEXT := Schema(StringType, map[], [], None, None, None, [], NO_LIMITS, [], [], [], [], None)

  /** A request schema that already has the field. */
  function Request(field: string, rules: seq<CelRule>): Schema
  {
    Schema(ObjectType, map[field := TEXT], [], None, None, None, [], NO_LIMITS, rules, [], [], [], None)
  }

  function Used(field: string, text: string): Json { Obj(map[field := Str(text)]) }

  lemma RequestFlatten(meta: Meta, field: string, rules: seq<CelRule>)
    ensures Flatten(meta, "spec", Request(field, rules), false)
         == [NodeOf(meta, "spec", Request(field, rules), false), NodeOf(meta, "spec" + "." + field, TEXT, false)]
  {
    var s, path := Request(field, rules), "spec" + "." + field;
    LeafFlatten(meta, path, TEXT);
    var kid := Child(path, TEXT, false);
    assert s.properties.Keys == {field};
    OneChild(s, field);
    assert Children("spec", s) == [kid];
    OneKid(meta, s, kid);
  }

  lemma OneKid(meta: Meta, s: Schema, kid: Child)
    requires kid.schema < s
    ensures FlattenAll(meta, s, [kid]) == Flatten(meta, kid.path, kid.schema, kid.required)
  {
    assert [kid][..0] == [];
  }

  lemma OneChild(s: Schema, field: string)
    requires s.properties.Keys == {field} && field !in s.required
    ensures PropertyChildren("spec", s, {field}) == [Child("spec" + "." + field, s.properties[field], false)]
  {
    assert {field} - {field} == {};
  }

  lemma RulesOnly(meta: Meta, field: string, rules: seq<CelRule>)
    ensures NodeOf(meta, "spec", Request(field, rules), false)
         == NodeOf(meta, "spec", Request(field, []), false).(cel := rules)
  {
    assert forall k :: ConstraintOf(Request(field, []), k) == ConstraintOf(Request(field, rules), k);
    assert Constraints(Request(field, [])) == Constraints(Request(field, rules));
  }

  lemma PairChanged(a: Node, kid: Node, rules: seq<CelRule>)
    requires a.meta == kid.meta && a.path != kid.path
    ensures NodeMap([a.(cel := rules), kid]) == NodeMap([a, kid])[Key(a.meta, a.path) := a.(cel := rules)]
    ensures Key(a.meta, a.path) in NodeMap([a, kid]) && NodeMap([a, kid])[Key(a.meta, a.path)] == a
  {
    PairMap(a, kid);
    PairMap(a.(cel := rules), kid);
  }

  function Snapshot(field: string, rules: seq<CelRule>): seq<Node>
  {
    [NodeOf(RESTORE_SPEC.0, "spec", Request(field, rules), false),
     NodeOf(RESTORE_SPEC.0, "spec" + "." + field, TEXT, false)]
  }

  /** The two snapshots differ in the rules of the request alone, and only by a fresh rule. */
  lemma SnapshotsUnblocked(field: string, id: ReviewedRule)
    requires IsFresh(id)
    ensures Unblocked(NodeMap(Snapshot(field, [])), NodeMap(Snapshot(field, [Reviewed(id)])))
  {
    var meta, rules := RESTORE_SPEC.0, [Reviewed(id)];
    var a, kid := NodeOf(meta, "spec", Request(field, []), false), NodeOf(meta, "spec" + "." + field, TEXT, false);
    RulesOnly(meta, field, rules);
    assert |kid.path| > |a.path|;
    PairChanged(a, kid, rules);
    FreshExemptionIgnoresOldSchema(NodeMap([a, kid]), id);
  }

  lemma UsedIsValid(m: Semantics, field: string, text: string)
    requires forall v :: m.listKind("", {}, v) && m.mapKind("", v)
    ensures Valid(m, Request(field, []), Used(field, text), true)
  {
    assert Valid(m, TEXT, Str(text), true);
  }

  /**
   * The exemption can reject: an old, plain request schema that already has targetLifecycle
   * accepts a request, the comparison with the new one does not block, and the new one
   * rejects the request.
   */
  lemma FreshExemptionCanReject(m: Semantics, text: string)
    requires forall v :: m.listKind("", {}, v) && m.mapKind("", v)
    ensures var field := GuardField(FreshLifecycle);
      var o, n, v := Request(field, []), Request(field, [Reviewed(FreshLifecycle)]), Used(field, text);
      && Valid(m, o, v, true) && !Valid(m, n, v, true)
      && Unblocked(NodeMap(Flatten(RESTORE_SPEC.0, "spec", o, false)), NodeMap(Flatten(RESTORE_SPEC.0, "spec", n, false)))
      && !FreshRulesGuarded(o, n)
  {
    var field, rules := GuardField(FreshLifecycle), [Reviewed(FreshLifecycle)];
    UsedIsValid(m, field, text);
    NewRuleRejects(m, text);
    RequestFlatten(RESTORE_SPEC.0, field, []);
    RequestFlatten(RESTORE_SPEC.0, field, rules);
    SnapshotsUnblocked(field, FreshLifecycle);
  }

  lemma NewRuleRejects(m: Semantics, text: string)
    ensures var field := GuardField(FreshLifecycle);
      var o, n := Request(field, []), Request(field, [Reviewed(FreshLifecycle)]);
      !Valid(m, n, Used(field, text), true) && !FreshRulesGuarded(o, n)
  {
    var field := GuardField(FreshLifecycle);
    var o, n := Request(field, []), Request(field, [Reviewed(FreshLifecycle)]);
    assert field != "clusterTemplate" by { assert field[0] == 't' && "clusterTemplate"[0] == 'c'; }
    LifecycleAloneFails(Used(field, text));
    assert Reviewed(FreshLifecycle) in n.cel && !RuleHolds(m, Reviewed(FreshLifecycle), Used(field, text));
    assert FreshlyAdded(FreshLifecycle, o, n);
  }

  // ----- composition

  /** A branch without a type that nothing but the given value satisfies. */
  function Only(v: Json): Schema
  {
    Schema(Untyped, map[], [], None, None, None, [v], NO_LIMITS, [], [], [], [], None)
  }

  const BRANCH_PATH := "spec" + ("." + BranchName(AllOf, 0))

  lemma ComposedChild(w: Json)
    ensures Children("spec", TEXT.(allOf := [Only(w)])) == [Child(BRANCH_PATH, Only(w), false)]
  {
    var n := TEXT.(allOf := [Only(w)]);
    assert BranchChildren("spec", n, AllOf) == [Child(BRANCH_PATH, Only(w), false)];
    assert ComposedChildren("spec", n) == [Child(BRANCH_PATH, Only(w), false)];
  }

  lemma ComposedNode(meta: Meta, w: Json)
    ensures NodeOf(meta, "spec", TEXT.(allOf := [Only(w)]), false) == NodeOf(meta, "spec", TEXT, false)
  {
    var n := TEXT.(allOf := [Only(w)]);
    assert forall k :: ConstraintOf(TEXT, k) == ConstraintOf(n, k);
    assert Constraints(TEXT) == Constraints(n);
  }

  lemma ComposedFlatten(meta: Meta, w: Json)
    ensures Flatten(meta, "spec", TEXT, false) == [NodeOf(meta, "spec", TEXT, false)]
    ensures Flatten(meta, "spec", TEXT.(allOf := [Only(w)]), false)
         == [NodeOf(meta, "spec", TEXT, false), NodeOf(meta, BRANCH_PATH, Only(w), false)]
  {
    LeafFlatten(meta, "spec", TEXT);
    LeafFlatten(meta, BRANCH_PATH, Only(w));
    ComposedChild(w);
    ComposedNode(meta, w);
    OneKid(meta, TEXT.(allOf := [Only(w)]), Child(BRANCH_PATH, Only(w), false));
  }

  /**
   * An added allOf branch is reported as an optional field and never blocks, although
   * it can reject every value but one: the theorem has to exclude added branches.
   */
  lemma AddedCompositionIsNotBlocked(meta: Meta, w: Json)
    ensures Unblocked(NodeMap(Flatten(meta, "spec", TEXT, false)),
                      NodeMap(Flatten(meta, "spec", TEXT.(allOf := [Only(w)]), false)))
  {
    ComposedFlatten(meta, w);
    var a, b := NodeOf(meta, "spec", TEXT, false), NodeOf(meta, BRANCH_PATH, Only(w), false);
    PairMap(a, b);
    assert |BRANCH_PATH| > |"spec"|;
    AddedOptionalIsNotBlocked(NodeMap([a]), Key(meta, BRANCH_PATH), b);
  }

  lemma PairMap(a: Node, b: Node)
    ensures NodeMap([a]) == map[Key(a.meta, a.path) := a]
    ensures NodeMap([a, b]) == NodeMap([a])[Key(b.meta, b.path) := b]
  {
    assert [a][..0] == [] && [a, b][..1] == [a];
  }

  lemma AddedCompositionCanReject(m: Semantics, v: Json, w: Json)
    requires v.Str? && w != v && m.listKind("", {}, v) && m.mapKind("", v)
    ensures Valid(m, TEXT, v, true) && !Valid(m, TEXT.(allOf := [Only(w)]), v, true)
  {
    assert !Valid(m, Only(w), v, false);
    assert [Only(w)][0] == Only(w);
  }

  lemma LeafFlatten(meta: Meta, path: string, s: Schema)
    requires IsLeaf(s)
    ensures Flatten(meta, path, s, false) == [NodeOf(meta, path, s, false)]
  {
    assert Children(path, s) == [];
  }

  // ----- the schemas of this repository are in scope

  function Typed(t: JsonType): Schema { TEXT.(typ := t) }

  /** A resource quantity: an integer or a string. */
  function Quantity(pattern: string): Schema
  {
    TEXT.(typ := Untyped, limits := NO_LIMITS.(intOrString := true, pattern := pattern),
          anyOf := [Typed(IntegerType), Typed(StringType)])
  }

  /** A field that may hold anything. */
  function Anything(): Schema { TEXT.(typ := Untyped, limits := NO_LIMITS.(preserveUnknownFields := true)) }

  lemma RepositoryShapesArePlain(pattern: string, v: Json, w: Json)
    ensures Plain(Quantity(pattern)) && Plain(Anything()) && Plain(TEXT.(allOf := [Only(v), Only(w)]))
  {
    assert IsLeaf(Typed(IntegerType)) && IsLeaf(Typed(StringType)) && IsLeaf(Only(v)) && IsLeaf(Only(w));
  }
}
