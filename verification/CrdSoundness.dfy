// The point of the compatibility checker: an unblocked comparison means that every
// resource the old release accepts is still accepted by the new one.

module CrdSoundness {
  import opened Options
  import opened JsonValues
  import opened CelRules
  import opened CrdSchema
  import opened CrdSnapshot
  import opened CrdPaths
  import opened CrdCompare
  import Float64

  // ----- one node

  /** The comparison of keyword `k` does not block. */
  ghost predicate Relaxed(k: Keyword, o: Schema, n: Schema)
  {
    var x, y := ConstraintOf(o, k), ConstraintOf(n, k);
    x == y || ClassifyConstraintChange(k, x, y).0 == Compatible
  }

  /** Float64 tells these limits apart, unless they are the same. */
  predicate ToldApart(x: Option<int>, y: Option<int>)
  {
    x.Some? && y.Some? && Float64.ToFloat64(x.value) == Float64.ToFloat64(y.value) ==> x == y
  }

  predicate LimitsToldApart(o: Limits, n: Limits)
  {
    && ToldApart(o.minLength, n.minLength) && ToldApart(o.maxLength, n.maxLength)
    && ToldApart(o.minItems, n.minItems) && ToldApart(o.maxItems, n.maxItems)
    && ToldApart(o.minProperties, n.minProperties) && ToldApart(o.maxProperties, n.maxProperties)
  }

  /** Comparing the float64 values compares the integers, where float64 tells them apart. */
  lemma FloatOrder(x: int, y: int)
    requires ToldApart(Some(x), Some(y))
    ensures Float64.ToFloat64(x) <= Float64.ToFloat64(y) <==> x <= y
  {
    if x <= y {
      Float64.Float64Monotone(x, y);
    } else {
      Float64.Float64Monotone(y, x);
    }
  }

  lemma RelaxedInt(k: Keyword, o: Schema, n: Schema, x: Option<int>, y: Option<int>)
    requires Relaxed(k, o, n) && ConstraintOf(o, k) == OfInt(x) && ConstraintOf(n, k) == OfInt(y)
    requires ToldApart(x, y)
    ensures IsLowerBound(k) ==> y.None? || (x.Some? && y.value <= x.value)
    ensures IsUpperBound(k) ==> y.None? || (x.Some? && y.value >= x.value)
  {
    if x.Some? && y.Some? {
      FloatOrder(x.value, y.value);
      FloatOrder(y.value, x.value);
    }
  }

  lemma RelaxedFloat(k: Keyword, o: Schema, n: Schema, x: Option<real>, y: Option<real>)
    requires Relaxed(k, o, n) && ConstraintOf(o, k) == OfFloat(x) && ConstraintOf(n, k) == OfFloat(y)
    ensures IsLowerBound(k) ==> y.None? || (x.Some? && y.value <= x.value)
    ensures IsUpperBound(k) ==> y.None? || (x.Some? && y.value >= x.value)
    ensures k == MultipleOf ==> y.None? || x == y
  {}

  lemma RelaxedString(k: Keyword, o: Schema, n: Schema, x: string, y: string)
    requires Relaxed(k, o, n) && ConstraintOf(o, k) == OfString(x) && ConstraintOf(n, k) == OfString(y)
    requires k in {Format, Pattern, ListType, MapType}
    ensures x == y || (y == "" && k in {Format, Pattern})
  {}

  lemma RelaxedBool(k: Keyword, o: Schema, n: Schema, x: bool, y: bool)
    requires Relaxed(k, o, n) && ConstraintOf(o, k) == CrdSnapshot.OfBool(x) && ConstraintOf(n, k) == CrdSnapshot.OfBool(y)
    ensures k in {UniqueItems, EmbeddedResource, IntOrString, ExclusiveMinimum, ExclusiveMaximum} ==> (y ==> x)
    ensures k in {Nullable, PreserveUnknownFields} ==> (x ==> y)
  {}

  lemma RelaxedNumber(o: Schema, n: Schema, x: real)
    requires forall k :: Relaxed(k, o, n)
    requires NumberOk(o.limits, x)
    ensures NumberOk(n.limits, x)
  {
    RelaxedFloat(Minimum, o, n, o.limits.minimum, n.limits.minimum);
    RelaxedFloat(Maximum, o, n, o.limits.maximum, n.limits.maximum);
    RelaxedFloat(MultipleOf, o, n, o.limits.multipleOf, n.limits.multipleOf);
    RelaxedBool(ExclusiveMinimum, o, n, o.limits.exclusiveMinimum, n.limits.exclusiveMinimum);
    RelaxedBool(ExclusiveMaximum, o, n, o.limits.exclusiveMaximum, n.limits.exclusiveMaximum);
  }

  /** One pair of size limits. */
  lemma RelaxedSize(low: Keyword, high: Keyword, o: Schema, n: Schema, min: Option<int>, max: Option<int>,
                    newMin: Option<int>, newMax: Option<int>, size: int)
    requires IsLowerBound(low) && Relaxed(low, o, n) && ToldApart(min, newMin)
    requires IsUpperBound(high) && Relaxed(high, o, n) && ToldApart(max, newMax)
    requires ConstraintOf(o, low) == OfInt(min) && ConstraintOf(n, low) == OfInt(newMin)
    requires ConstraintOf(o, high) == OfInt(max) && ConstraintOf(n, high) == OfInt(newMax)
    ensures SizeOk(min, max, size) ==> SizeOk(newMin, newMax, size)
  {
    RelaxedInt(low, o, n, min, newMin);
    RelaxedInt(high, o, n, max, newMax);
  }

  lemma RelaxedSizes(o: Schema, n: Schema, size: int)
    requires forall k :: Relaxed(k, o, n)
    requires LimitsToldApart(o.limits, n.limits)
    ensures SizeOk(o.limits.minLength, o.limits.maxLength, size) ==> SizeOk(n.limits.minLength, n.limits.maxLength, size)
    ensures SizeOk(o.limits.minItems, o.limits.maxItems, size) ==> SizeOk(n.limits.minItems, n.limits.maxItems, size)
    ensures SizeOk(o.limits.minProperties, o.limits.maxProperties, size)
        ==> SizeOk(n.limits.minProperties, n.limits.maxProperties, size)
  {
    var a, b := o.limits, n.limits;
    RelaxedSize(MinLength, MaxLength, o, n, a.minLength, a.maxLength, b.minLength, b.maxLength, size);
    RelaxedSize(MinItems, MaxItems, o, n, a.minItems, a.maxItems, b.minItems, b.maxItems, size);
    RelaxedSize(MinProperties, MaxProperties, o, n,
      a.minProperties, a.maxProperties, b.minProperties, b.maxProperties, size);
  }

  /** Keywords that are compared as text can only stay, or disappear where that relaxes. */
  lemma RelaxedTexts(o: Schema, n: Schema)
    requires forall k :: Relaxed(k, o, n)
    ensures n.limits.format == "" || n.limits.format == o.limits.format
    ensures n.limits.pattern == "" || n.limits.pattern == o.limits.pattern
  {
    RelaxedString(Format, o, n, o.limits.format, n.limits.format);
    RelaxedString(Pattern, o, n, o.limits.pattern, n.limits.pattern);
  }

  lemma RelaxedCollections(o: Schema, n: Schema)
    requires forall k :: Relaxed(k, o, n)
    ensures n.limits.listType == o.limits.listType && n.limits.mapType == o.limits.mapType
    ensures n.limits.listMapKeys == o.limits.listMapKeys
  {
    RelaxedString(ListType, o, n, o.limits.listType, n.limits.listType);
    RelaxedString(MapType, o, n, o.limits.mapType, n.limits.mapType);
    assert Relaxed(ListMapKeys, o, n);
  }

  lemma RelaxedFlags(o: Schema, n: Schema)
    requires forall k :: Relaxed(k, o, n)
    ensures n.limits.embeddedResource ==> o.limits.embeddedResource
    ensures n.limits.uniqueItems ==> o.limits.uniqueItems
    ensures n.limits.intOrString ==> o.limits.intOrString
    ensures o.limits.nullable ==> n.limits.nullable
    ensures o.limits.preserveUnknownFields ==> n.limits.preserveUnknownFields
  {
    RelaxedBool(IntOrString, o, n, o.limits.intOrString, n.limits.intOrString);
    RelaxedBool(PreserveUnknownFields, o, n, o.limits.preserveUnknownFields, n.limits.preserveUnknownFields);
    RelaxedBool(EmbeddedResource, o, n, o.limits.embeddedResource, n.limits.embeddedResource);
    RelaxedBool(UniqueItems, o, n, o.limits.uniqueItems, n.limits.uniqueItems);
    RelaxedBool(Nullable, o, n, o.limits.nullable, n.limits.nullable);
  }

  lemma RelaxedLimits(m: Semantics, o: Schema, n: Schema, v: Json)
    requires forall k :: Relaxed(k, o, n)
    requires LimitsToldApart(o.limits, n.limits)
    requires LimitsOk(m, o.limits, v)
    ensures LimitsOk(m, n.limits, v)
  {
    RelaxedTexts(o, n);
    RelaxedCollections(o, n);
    RelaxedFlags(o, n);
    match v
    case Num(x) => RelaxedNumber(o, n, x);
    case Str(t) => RelaxedSizes(o, n, |t|);
    case Arr(elems) => RelaxedSizes(o, n, |elems|);
    case Obj(fields) => RelaxedSizes(o, n, |fields|);
    case _ =>
  }

  /** The rule is new at this node and was let through as a fresh-target rule. */
  predicate FreshlyAdded(id: ReviewedRule, o: Schema, n: Schema)
  {
    IsFresh(id) && Reviewed(id) in n.cel && Reviewed(id) !in o.cel
  }

  /** A value that the old schema accepts cannot have the guard field of the rule. */
  predicate RulesOutGuard(o: Schema, id: ReviewedRule)
    requires IsFresh(id)
  {
    && o.typ == ObjectType && !o.limits.nullable && !o.limits.preserveUnknownFields
    && o.additional.None? && GuardField(id) !in o.properties
  }

  /**
   * The fresh-restore exemption looks only at the added rules.  It is sound when, for each
   * of them, the old request schema rules out the field that guards it.
   */
  predicate FreshRulesGuarded(o: Schema, n: Schema)
  {
    forall id :: FreshlyAdded(id, o, n) ==> RulesOutGuard(o, id)
  }

  lemma GuardedRulePasses(m: Semantics, o: Schema, n: Schema, id: ReviewedRule, v: Json)
    requires FreshRulesGuarded(o, n) && FreshlyAdded(id, o, n) && Valid(m, o, v, true)
    ensures Passes(id, v)
  {
    FreshRulesAcceptLegacy(id, v);
  }

  lemma RelaxedCel(m: Semantics, a: Node, b: Node, o: Schema, n: Schema, v: Json)
    requires a.cel == o.cel && b.cel == n.cel
    requires forall c :: c in CompareCel(a, b) ==> c.impact == Compatible
    requires forall r :: r in o.cel ==> RuleHolds(m, r, v)
    requires (b.meta, b.path) == RESTORE_SPEC ==> forall id :: FreshlyAdded(id, o, n) ==> Passes(id, v)
    ensures forall r :: r in n.cel ==> RuleHolds(m, r, v)
  {
    var added, removed := RuleSet(b.cel) - RuleSet(a.cel), RuleSet(a.cel) - RuleSet(b.cel);
    forall r | r in n.cel ensures RuleHolds(m, r, v) {
      if r !in o.cel {
        assert r in added;
        assert multiset(a.cel) != multiset(b.cel) by {
          assert r !in multiset(a.cel) && r in multiset(b.cel);
        }
        assert CompareCel(a, b)[0] in CompareCel(a, b);
        if IsTlsRotationPeriodDiagnosticFix(b, added, removed) {
          assert Reviewed(TlsBefore) in removed;
          assert RuleHolds(m, Reviewed(TlsBefore), v);
          TlsGuardPreservesOutcomes(v);
        } else {
          assert IsFreshRestoreValidation(b, added, removed);
          assert r in FRESH_RULES;
          assert FreshlyAdded(r.id, o, n);
        }
      }
    }
  }

  /** Two nodes that differ only compatibly: what the old one accepts, the new one accepts. */
  lemma RelaxedNode(m: Semantics, mo: Meta, mn: Meta, path: string, o: Placed, n: Placed, v: Json)
    requires forall c :: NodeChange(c, NodeAt(mo, path, o), NodeAt(mn, path, n)) ==> c.impact == Compatible
    requires LimitsToldApart(o.schema.limits, n.schema.limits)
    requires (mn, path) == RESTORE_SPEC ==> forall id :: FreshlyAdded(id, o.schema, n.schema) ==> Passes(id, v)
    requires ShallowOk(m, o.schema, v)
    ensures ShallowOk(m, n.schema, v)
  {
    var a, b := NodeAt(mo, path, o), NodeAt(mn, path, n);
    RelaxedHeader(a, b);
    RelaxedKeywords(a, b, o, n);
    RelaxedLimits(m, o.schema, n.schema, v);
    RelaxedFlags(o.schema, n.schema);
    RelaxedCel(m, a, b, o.schema, n.schema, v);
    RelaxedEnum(a, b, v);
  }

  lemma RelaxedKeywords(a: Node, b: Node, o: Placed, n: Placed)
    requires a == NodeAt(a.meta, a.path, o) && b == NodeAt(b.meta, b.path, n)
    requires forall c :: NodeChange(c, a, b) ==> c.impact == Compatible
    ensures forall k :: Relaxed(k, o.schema, n.schema)
  {
    forall k ensures Relaxed(k, o.schema, n.schema) {
      var x, y := ConstraintOf(o.schema, k), ConstraintOf(n.schema, k);
      assert Lookup(a.constraints, k) == x && Lookup(b.constraints, k) == y;
      if x != y {
        assert NodeChange(ConstraintChange(a, b, k)[0], a, b);
      }
    }
  }

  /** Unknown fields that were kept are still kept, and maps stay maps. */
  lemma RelaxedShape(a: Node, b: Node, o: Placed, n: Placed)
    requires a == NodeAt(a.meta, a.path, o) && b == NodeAt(b.meta, b.path, n)
    requires forall c :: NodeChange(c, a, b) ==> c.impact == Compatible
    ensures o.schema.typ == n.schema.typ && (n.required ==> o.required)
    ensures o.schema.limits.preserveUnknownFields ==> n.schema.limits.preserveUnknownFields
    ensures n.schema.additional.Some? ==> o.schema.additional.Some?
  {
    RelaxedHeader(a, b);
    RelaxedKeywords(a, b, o, n);
    RelaxedFlags(o.schema, n.schema);
    assert Relaxed(AdditionalProperties, o.schema, n.schema);
  }

  lemma RelaxedHeader(a: Node, b: Node)
    requires forall c :: NodeChange(c, a, b) ==> c.impact == Compatible
    ensures a.typ == b.typ && (b.required ==> a.required)
  {
    if a.typ != b.typ {
      assert NodeChange(NewChange(Breaking, TypeChanged, b), a, b);
    }
    if b.required && !a.required {
      assert NodeChange(NewChange(Breaking, RequirednessAdded, b), a, b);
    }
  }

  lemma RelaxedEnum(a: Node, b: Node, v: Json)
    requires forall c :: NodeChange(c, a, b) ==> c.impact == Compatible
    requires a.enum != [] ==> v in a.enum
    ensures b.enum != [] ==> v in b.enum
  {
    if b.enum != [] {
      if a.enum == [] {
        assert NodeChange(NewChange(Breaking, EnumConstraintAdded, b), a, b);
      } else if v !in b.enum {
        assert v in Difference(a.enum, b.enum);
        assert NodeChange(NewChange(Breaking, EnumValuesRemoved, b), a, b);
      }
    }
  }
}
