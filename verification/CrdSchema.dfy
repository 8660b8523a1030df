// OpenAPI v3 schemas of a CustomResourceDefinition, and what it means for a JSON
// value to be valid under one.  The validation keywords follow section 5 of
// draft-wright-json-schema-validation-00; a structural schema is closed, because
// the API server prunes every field it does not declare before it stores an object.

module JsonValues {

  datatype Json =
    | Null
    | Bool(b: bool)
    | Num(x: real)
    | Str(s: string)
    | Arr(elems: seq<Json>)
    | Obj(fields: map<string, Json>)
}

module CrdSchema {
  import opened Options
  import opened JsonValues
  import opened CelRules

  datatype JsonType = Untyped | ObjectType | ArrayType | StringType | IntegerType | NumberType | BooleanType

  datatype CelRule =
    | Reviewed(id: ReviewedRule)
    | Custom(rule: string, message: string, messageExpression: string,
             fieldPath: string, reason: string, optionalOldSelf: string)

  /** The scalar keywords of a schema; an empty string is an unset string keyword. */
  datatype Limits = Limits(
    format: string, pattern: string,
    minimum: Option<real>, maximum: Option<real>, multipleOf: Option<real>,
    minLength: Option<int>, maxLength: Option<int>,
    minItems: Option<int>, maxItems: Option<int>,
    minProperties: Option<int>, maxProperties: Option<int>,
    uniqueItems: bool, exclusiveMinimum: bool, exclusiveMaximum: bool,
    nullable: bool, preserveUnknownFields: bool, embeddedResource: bool, intOrString: bool,
    listType: string, mapType: string, listMapKeys: set<string>)

  datatype Schema = Schema(
    typ: JsonType,
    properties: map<string, Schema>,
    required: seq<string>,
    items: Option<Schema>,
    additional: Option<Additional>,
    dflt: Option<Json>,
    enum: seq<Json>,
    limits: Limits,
    cel: seq<CelRule>,
    allOf: seq<Schema>, anyOf: seq<Schema>, oneOf: seq<Schema>, negated: Option<Schema>)

  /** JSONSchemaPropsOrBool: `additionalProperties` as a boolean or a schema. */
  datatype Additional = Additional(allows: bool, schema: Option<Schema>)

  /** The meaning of everything the checker compares only as text. */
  datatype Semantics = Semantics(
    format: (string, Json) -> bool,
    pattern: (string, string) -> bool,
    embedded: Json -> bool,
    listKind: (string, set<string>, Json) -> bool,
    mapKind: (string, Json) -> bool,
    cel: (CelRule, Json) -> bool)

  predicate IsInteger(v: Json) { v.Num? && v.x.Floor as real == v.x }

  ghost predicate TypeOk(s: Schema, v: Json)
  {
    && (s.limits.intOrString ==> IsInteger(v) || v.Str?)
    && match s.typ
       case Untyped => true
       case ObjectType => v.Obj? || (v.Null? && s.limits.nullable)
       case ArrayType => v.Arr? || (v.Null? && s.limits.nullable)
       case StringType => v.Str? || (v.Null? && s.limits.nullable)
       case IntegerType => IsInteger(v) || (v.Null? && s.limits.nullable)
       case NumberType => v.Num? || (v.Null? && s.limits.nullable)
       case BooleanType => v.Bool? || (v.Null? && s.limits.nullable)
  }

  ghost predicate NumberOk(l: Limits, x: real)
  {
    && (l.minimum.Some? ==> if l.exclusiveMinimum then x > l.minimum.value else x >= l.minimum.value)
    && (l.maximum.Some? ==> if l.exclusiveMaximum then x < l.maximum.value else x <= l.maximum.value)
    && (l.multipleOf.Some? ==>
          l.multipleOf.value != 0.0 && (x / l.multipleOf.value).Floor as real == x / l.multipleOf.value)
  }

  predicate SizeOk(low: Option<int>, high: Option<int>, size: int)
  {
    (low.Some? ==> size >= low.value) && (high.Some? ==> size <= high.value)
  }

  ghost predicate Distinct(elems: seq<Json>)
  {
    forall i, j :: 0 <= i < j < |elems| ==> elems[i] != elems[j]
  }

  /** Every scalar keyword, each applied only to the instance type it speaks about. */
  ghost predicate LimitsOk(o: Semantics, l: Limits, v: Json)
  {
    && (l.format != "" ==> o.format(l.format, v))
    && (l.embeddedResource ==> o.embedded(v))
    && o.listKind(l.listType, l.listMapKeys, v)
    && o.mapKind(l.mapType, v)
    && (match v
        case Num(x) => NumberOk(l, x)
        case Str(t) => SizeOk(l.minLength, l.maxLength, |t|) && (l.pattern != "" ==> o.pattern(l.pattern, t))
        case Arr(elems) => SizeOk(l.minItems, l.maxItems, |elems|) && (l.uniqueItems ==> Distinct(elems))
        case Obj(fields) => SizeOk(l.minProperties, l.maxProperties, |fields|)
        case _ => true)
  }

  /** A rule outside the reviewed five is an opaque predicate. */
  ghost predicate RuleHolds(o: Semantics, r: CelRule, v: Json)
  {
    match r
    case Reviewed(id) => CelRules.Passes(id, v)
    case Custom(_, _, _, _, _, _) => o.cel(r, v)
  }

  /** Validity of the value itself, without looking inside it. */
  ghost predicate ShallowOk(o: Semantics, s: Schema, v: Json)
  {
    && TypeOk(s, v)
    && (s.enum != [] ==> v in s.enum)
    && LimitsOk(o, s.limits, v)
    && forall r :: r in s.cel ==> RuleHolds(o, r, v)
  }

  /** Validity.  `closed` is false inside a composition keyword, which never prunes. */
  ghost predicate Valid(o: Semantics, s: Schema, v: Json, closed: bool)
    decreases s
  {
    && ShallowOk(o, s, v)
    && (v.Obj? ==>
          && (forall r :: r in s.required ==> r in v.fields)
          && forall k :: k in v.fields ==>
               if k in s.properties then Valid(o, s.properties[k], v.fields[k], closed)
               else if s.additional.Some? && s.additional.value.schema.Some? then
                 Valid(o, s.additional.value.schema.value, v.fields[k], closed)
               else
                 !closed || s.limits.preserveUnknownFields || (s.additional.Some? && s.additional.value.allows))
    && (v.Arr? && s.items.Some? ==>
          forall i :: 0 <= i < |v.elems| ==> Valid(o, s.items.value, v.elems[i], closed))
    && (forall i :: 0 <= i < |s.allOf| ==> Valid(o, s.allOf[i], v, false))
    && (s.anyOf != [] ==> exists i :: 0 <= i < |s.anyOf| && Valid(o, s.anyOf[i], v, false))
    && (s.oneOf != [] ==>
          exists i :: 0 <= i < |s.oneOf| && Valid(o, s.oneOf[i], v, false)
            && forall j :: 0 <= j < |s.oneOf| && j != i ==> !Valid(o, s.oneOf[j], v, false))
    && (s.negated.Some? ==> !Valid(o, s.negated.value, v, false))
  }

  /** A property name that cannot be mistaken for another path step. */
  predicate CleanName(name: string)
  {
    '.' !in name && name != "*" && name != "not" && !(name != "" && name[|name| - 1] == ']')
  }

  /** A schema that looks no deeper into a value. */
  predicate IsLeaf(s: Schema)
  {
    && s.properties == map[] && s.items.None? && s.additional.None?
    && s.allOf == [] && s.anyOf == [] && s.oneOf == [] && s.negated.None?
  }

  predicate PlainNode(s: Schema)
  {
    && (s.properties.Keys != {} ==> s.additional.None?)
    && (s.additional.Some? ==> s.additional.value.schema.Some?)
    && (s.typ == Untyped ==> s.items.None?)
    && (forall name :: name in s.properties ==> CleanName(name))
    && (forall b :: b in s.allOf ==> IsLeaf(b))
    && (forall b :: b in s.anyOf ==> IsLeaf(b))
    && (forall b :: b in s.oneOf ==> IsLeaf(b))
    && (s.negated.Some? ==> IsLeaf(s.negated.value))
  }

  /** The structural fragment: composition branches do not look deeper into a value. */
  ghost predicate Plain(s: Schema)
    decreases s
  {
    && PlainNode(s)
    && (forall name :: name in s.properties ==> Plain(s.properties[name]))
    && (s.items.Some? ==> Plain(s.items.value))
    && (s.additional.Some? && s.additional.value.schema.Some? ==> Plain(s.additional.value.schema.value))
  }
}
