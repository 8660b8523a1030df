// Flattening a schema tree into the path-keyed nodes of a snapshot.

module CrdSnapshot {
  import opened Options
  import opened JsonValues
  import opened CrdSchema
  import Strings

  datatype Keyword =
    | Format | Pattern | Minimum | Maximum | MultipleOf
    | MinLength | MaxLength | MinItems | MaxItems | MinProperties | MaxProperties
    | UniqueItems | ExclusiveMinimum | ExclusiveMaximum
    | Nullable | PreserveUnknownFields | EmbeddedResource | IntOrString
    | ListType | MapType | ListMapKeys | AdditionalProperties

  /** A constraint as the snapshot stores it: Unset is the empty string, Flag is "true". */
  datatype Val = Unset | Flag | Text(s: string) | Float(x: real) | Int(n: int) | Keys(names: set<string>)

  datatype Meta = Meta(crd: string, kind: string, version: string)

  datatype Node = Node(
    meta: Meta, path: string, typ: JsonType, required: bool,
    dflt: Option<Json>, enum: seq<Json>, constraints: map<Keyword, Val>, cel: seq<CelRule>)

  datatype NodeKey = NodeKey(crd: string, version: string, path: string)

  function OfString(s: string): Val { if s == "" then Unset else Text(s) }
  function OfFloat(x: Option<real>): Val { if x.None? then Unset else Float(x.value) }
  function OfInt(n: Option<int>): Val { if n.None? then Unset else Int(n.value) }
  function OfBool(b: bool): Val { if b then Flag else Unset }

  /** What `constraints` stores under one keyword. */
  function ConstraintOf(s: Schema, k: Keyword): Val
  {
    var l := s.limits;
    match k
    case Format => OfString(l.format)
    case Pattern => OfString(l.pattern)
    case Minimum => OfFloat(l.minimum)
    case Maximum => OfFloat(l.maximum)
    case MultipleOf => OfFloat(l.multipleOf)
    case MinLength => OfInt(l.minLength)
    case MaxLength => OfInt(l.maxLength)
    case MinItems => OfInt(l.minItems)
    case MaxItems => OfInt(l.maxItems)
    case MinProperties => OfInt(l.minProperties)
    case MaxProperties => OfInt(l.maxProperties)
    case UniqueItems => OfBool(l.uniqueItems)
    case ExclusiveMinimum => OfBool(l.exclusiveMinimum)
    case ExclusiveMaximum => OfBool(l.exclusiveMaximum)
    case Nullable => OfBool(l.nullable)
    case PreserveUnknownFields => OfBool(l.preserveUnknownFields)
    case EmbeddedResource => OfBool(l.embeddedResource)
    case IntOrString => OfBool(l.intOrString)
    case ListType => OfString(l.listType)
    case MapType => OfString(l.mapType)
    case ListMapKeys => if l.listMapKeys == {} then Unset else Keys(l.listMapKeys)
    case AdditionalProperties =>
      if s.additional.None? then Unset else if s.additional.value.allows then Flag else Text("false")
  }

  function Constraints(s: Schema): map<Keyword, Val>
  {
    map k: Keyword | ConstraintOf(s, k) != Unset :: ConstraintOf(s, k)
  }

  /** Go's map read: the zero value for a missing key. */
  function Lookup(constraints: map<Keyword, Val>, k: Keyword): Val
  {
    if k in constraints then constraints[k] else Unset
  }

  function NodeOf(meta: Meta, path: string, s: Schema, required: bool): Node
  {
    Node(meta, path, s.typ, required, s.dflt, s.enum, Constraints(s), s.cel)
  }

  function Key(meta: Meta, path: string): NodeKey
  {
    NodeKey(meta.crd, meta.version, path)
  }

  function Decimal(n: nat): string
  {
    if n < 10 then ["0123456789"[n]] else Decimal(n / 10) + ["0123456789"[n % 10]]
  }

  /** The keywords that combine several branches. */
  datatype Composition = AllOf | AnyOf | OneOf

  function Branches(s: Schema, c: Composition): seq<Schema>
  {
    match c case AllOf => s.allOf case AnyOf => s.anyOf case OneOf => s.oneOf
  }

  function CompositionText(c: Composition): string
  {
    match c case AllOf => "allOf" case AnyOf => "anyOf" case OneOf => "oneOf"
  }

  function BranchName(c: Composition, index: nat): string
  {
    CompositionText(c) + ("[" + Decimal(index) + "]")
  }

  /** One recursive call of collectNode. */
  datatype Child = Child(path: string, schema: Schema, required: bool)

  ghost function PropertyChildren(path: string, s: Schema, names: set<string>): (r: seq<Child>)
    requires names <= s.properties.Keys
    ensures forall c :: c in r ==> c.schema < s
    ensures forall c :: c in r <==>
      exists name :: name in names && c == Child(path + "." + name, s.properties[name], name in s.required)
    decreases |names|
  {
    if names == {} then [] else
      var name := Strings.LeastOf(names);
      [Child(path + "." + name, s.properties[name], name in s.required)]
      + PropertyChildren(path, s, names - {name})
  }

  function ItemChildren(path: string, s: Schema): (r: seq<Child>)
    ensures forall c :: c in r ==> c.schema < s
  {
    (if s.typ == ArrayType && s.items.Some? then [Child(path + "[]", s.items.value, false)] else [])
    + (if s.additional.Some? && s.additional.value.schema.Some? then
         [Child(path + ".*", s.additional.value.schema.value, false)] else [])
  }

  function BranchChild(path: string, s: Schema, c: Composition, i: nat): Child
    requires i < |Branches(s, c)|
  {
    Child(path + ("." + BranchName(c, i)), Branches(s, c)[i], false)
  }

  function BranchChildren(path: string, s: Schema, c: Composition): (r: seq<Child>)
    ensures |r| == |Branches(s, c)| && forall i :: 0 <= i < |r| ==> r[i] == BranchChild(path, s, c, i)
  {
    seq(|Branches(s, c)|, i requires 0 <= i < |Branches(s, c)| => BranchChild(path, s, c, i))
  }

  function ComposedChildren(path: string, s: Schema): (r: seq<Child>)
    ensures forall c :: c in r ==> c.schema < s
  {
    BranchChildren(path, s, AllOf)
    + BranchChildren(path, s, AnyOf)
    + BranchChildren(path, s, OneOf)
    + (if s.negated.Some? then [Child(path + ".not", s.negated.value, false)] else [])
  }

  /** The recursive calls collectNode makes, in order: properties in name order first. */
  ghost function Children(path: string, s: Schema): (r: seq<Child>)
    ensures forall c :: c in r ==> c.schema < s
  {
    PropertyChildren(path, s, s.properties.Keys) + ItemChildren(path, s) + ComposedChildren(path, s)
  }

  /** The nodes that collectNode appends, in order. */
  ghost function Flatten(meta: Meta, path: string, s: Schema, required: bool): seq<Node>
    decreases s, 1, 0
  {
    [NodeOf(meta, path, s, required)] + FlattenAll(meta, s, Children(path, s))
  }

  ghost function FlattenAll(meta: Meta, s: Schema, kids: seq<Child>): seq<Node>
    requires forall c :: c in kids ==> c.schema < s
    decreases s, 0, |kids|
  {
    if kids == [] then [] else
      var init, last := kids[..|kids| - 1], kids[|kids| - 1];
      FlattenAll(meta, s, init) + Flatten(meta, last.path, last.schema, last.required)
  }

  lemma FlattenAllSnoc(meta: Meta, s: Schema, kids: seq<Child>, n: nat)
    requires n < |kids| && forall c :: c in kids ==> c.schema < s
    ensures FlattenAll(meta, s, kids[..n + 1])
         == FlattenAll(meta, s, kids[..n]) + Flatten(meta, kids[n].path, kids[n].schema, kids[n].required)
  {
    assert kids[..n + 1][..n] == kids[..n];
  }

  lemma Regroup(a: seq<Node>, b: seq<Node>, c: seq<Node>)
    ensures a + (b + c) == a + b + c
  {}

  lemma FlattenedSoFar(before: seq<Node>, meta: Meta, s: Schema, kids: seq<Child>, n: nat)
    requires n < |kids| && forall c :: c in kids ==> c.schema < s
    ensures before + FlattenAll(meta, s, kids[..n + 1])
         == before + FlattenAll(meta, s, kids[..n]) + Flatten(meta, kids[n].path, kids[n].schema, kids[n].required)
  {
    FlattenAllSnoc(meta, s, kids, n);
    Regroup(before, FlattenAll(meta, s, kids[..n]), Flatten(meta, kids[n].path, kids[n].schema, kids[n].required));
  }

  method ListChildren(path: string, s: Schema) returns (kids: seq<Child>)
    ensures kids == Children(path, s)
  {
    kids := [];
    var names := s.properties.Keys;
    while names != {}
      invariant names <= s.properties.Keys
      invariant kids + PropertyChildren(path, s, names) == PropertyChildren(path, s, s.properties.Keys)
      decreases |names|
    {
      var name := Strings.FindLeast(names);
      kids := kids + [Child(path + "." + name, s.properties[name], name in s.required)];
      names := names - {name};
    }
    kids := kids + ItemChildren(path, s) + ComposedChildren(path, s);
  }

  /** The shared slice that collectNode appends to. */
  class NodeList {
    var nodes: seq<Node>

    constructor ()
      ensures nodes == []
    {
      nodes := [];
    }

    method CollectNode(meta: Meta, path: string, s: Schema, required: bool)
      modifies this
      ensures nodes == old(nodes) + Flatten(meta, path, s, required)
      decreases s, 1
    {
      nodes := nodes + [NodeOf(meta, path, s, required)];
      var kids := ListChildren(path, s);
      CollectChildren(meta, s, kids);
      Regroup(old(nodes), [NodeOf(meta, path, s, required)], FlattenAll(meta, s, kids));
    }

    method CollectChildren(meta: Meta, s: Schema, kids: seq<Child>)
      requires forall c :: c in kids ==> c.schema < s
      modifies this
      ensures nodes == old(nodes) + FlattenAll(meta, s, kids)
      decreases s, 0
    {
      var i := 0;
      while i < |kids|
        invariant 0 <= i <= |kids|
        invariant nodes == old(nodes) + FlattenAll(meta, s, kids[..i])
      {
        var kid := kids[i];
        assert kid in kids;
        FlattenedSoFar(old(nodes), meta, s, kids, i);
        CollectNode(meta, kid.path, kid.schema, kid.required);
        i := i + 1;
      }
      assert kids[..|kids|] == kids;
    }
  }

  /** nodeMap: later nodes replace earlier ones under the same key. */
  function NodeMap(nodes: seq<Node>): map<NodeKey, Node>
  {
    if nodes == [] then map[] else
      var last := nodes[|nodes| - 1];
      NodeMap(nodes[..|nodes| - 1])[Key(last.meta, last.path) := last]
  }
}
