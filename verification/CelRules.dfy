// The CEL rules that the compatibility checker recognises, with CEL's error semantics:
// a missing field is an error, and `||` / `&&` absorb an error when the other side decides.

module CelRules {
  import opened Options
  import opened JsonValues

  /** The five CEL rules, text and message, that the checker knows by heart. */
  datatype ReviewedRule = TlsBefore | TlsAfter | FreshTemplate | FreshLifecycle | FreshCleanup

  datatype Cel =
    | Has(path: seq<string>)                        // has(self.a.b)
    | IsTrue(path: seq<string>)                     // self.a
    | HasSize(path: seq<string>)                    // size(self.a) > 0
    | IsText(path: seq<string>, text: string)       // self.a == 'text'
    | Same(left: seq<string>, right: seq<string>)   // self.a == self.b
    | Not(e: Cel) | And(l: Cel, r: Cel) | Or(l: Cel, r: Cel)

  datatype Outcome = Yes | No | Error

  function Select(v: Json, path: seq<string>): Option<Json>
  {
    if path == [] then Some(v)
    else if v.Obj? && path[0] in v.fields then Select(v.fields[path[0]], path[1..])
    else None
  }

  function OfBool(b: bool): Outcome { if b then Yes else No }

  function EvalHas(v: Json, path: seq<string>): Outcome
  {
    if path == [] then Error
    else if !v.Obj? then Error
    else if |path| == 1 then OfBool(path[0] in v.fields)
    else if path[0] in v.fields then EvalHas(v.fields[path[0]], path[1..])
    else Error
  }

  function EvalSize(v: Option<Json>): Outcome
  {
    match v
    case Some(Str(s)) => OfBool(|s| > 0)
    case Some(Arr(elems)) => OfBool(|elems| > 0)
    case Some(Obj(fields)) => OfBool(|fields| > 0)
    case _ => Error
  }

  function Eval(e: Cel, v: Json): Outcome
  {
    match e
    case Has(path) => EvalHas(v, path)
    case IsTrue(path) =>
      var x := Select(v, path);
      if x.Some? && x.value.Bool? then OfBool(x.value.b) else Error
    case HasSize(path) => EvalSize(Select(v, path))
    case IsText(path, text) =>
      var x := Select(v, path);
      if x.None? then Error else OfBool(x.value == Str(text))
    case Same(left, right) =>
      var x, y := Select(v, left), Select(v, right);
      if x.None? || y.None? then Error else OfBool(x == y)
    case Not(f) =>
      (match Eval(f, v) case Yes => No case No => Yes case Error => Error)
    case And(l, r) =>
      var x, y := Eval(l, v), Eval(r, v);
      if x == No || y == No then No else if x == Yes && y == Yes then Yes else Error
    case Or(l, r) =>
      var x, y := Eval(l, v), Eval(r, v);
      if x == Yes || y == Yes then Yes else if x == No && y == No then No else Error
  }

  const ROTATION := ["tls", "rotationPeriod"]

  function OperatorManaged(): Cel { IsText(["tls", "mode"], "OperatorManaged") }

  /** What a request with a cluster template must look like. */
  function FreshTarget(): Cel
  {
    var identity := And(Has(["source", "expectedClusterID"]), HasSize(["source", "expectedClusterID"]));
    var version := And(Has(["source", "expectedVersion"]),
                       Same(["source", "expectedVersion"], ["clusterTemplate", "version"]));
    var noLock := Or(Not(Has(["overrideOperationLock"])), Not(IsTrue(["overrideOperationLock"])));
    var jwt := And(Not(Has(["tokenSecretRef"])), Not(Has(["jwtAuthRole"])));
    var forced := And(Has(["targetLifecycle"]), IsTrue(["force"]));
    var request := And(And(forced, jwt), noLock);
    And(And(request, identity), version)
  }

  function Expression(id: ReviewedRule): Cel
  {
    match id
    case TlsBefore => Or(Not(OperatorManaged()), HasSize(ROTATION))
    case TlsAfter => Or(Not(OperatorManaged()), And(Has(ROTATION), HasSize(ROTATION)))
    case FreshTemplate => Or(Not(Has(["clusterTemplate"])), FreshTarget())
    case FreshLifecycle => Or(Has(["clusterTemplate"]), Not(Has(["targetLifecycle"])))
    case FreshCleanup =>
      Or(Not(Has(["cleanupAfterSeconds"])), And(Has(["targetLifecycle"]), IsText(["targetLifecycle"], "Disposable")))
  }

  /** Admission accepts a value only when the rule evaluates to true without an error. */
  predicate Passes(id: ReviewedRule, v: Json)
  {
    Eval(Expression(id), v) == Yes
  }

  /** Where has() is false or cannot look, size() is an error. */
  lemma {:induction false} HasDecides(v: Json, path: seq<string>)
    requires path != []
    ensures EvalHas(v, path) == Yes <==> Select(v, path).Some?
    ensures EvalHas(v, path) != Yes ==> EvalSize(Select(v, path)) == Error
    decreases |path|
  {
    if v.Obj? && path[0] in v.fields {
      if |path| == 1 {
        assert path[1..] == [];
      } else {
        HasDecides(v.fields[path[0]], path[1..]);
      }
    }
  }

  /** The presence guard of the TLS rule changes the diagnostic, never the outcome. */
  lemma TlsGuardPreservesOutcomes(v: Json)
    ensures Passes(TlsBefore, v) <==> Passes(TlsAfter, v)
  {
    HasDecides(v, ROTATION);
    var other, has, size := Not(OperatorManaged()), Has(ROTATION), HasSize(ROTATION);
    assert Eval(And(has, size), v) == Yes <==> Eval(size, v) == Yes;
    assert Eval(Or(other, size), v) == Yes <==> Eval(Or(other, And(has, size)), v) == Yes;
  }

  predicate IsFresh(id: ReviewedRule) { id in {FreshTemplate, FreshLifecycle, FreshCleanup} }

  /** The optional field that a fresh-target rule speaks about. */
  function GuardField(id: ReviewedRule): string
    requires IsFresh(id)
  {
    match id
    case FreshTemplate => "clusterTemplate"
    case FreshLifecycle => "targetLifecycle"
    case FreshCleanup => "cleanupAfterSeconds"
  }

  /** A request without its guard field passes a fresh-target rule. */
  lemma FreshRulesAcceptLegacy(id: ReviewedRule, v: Json)
    requires IsFresh(id) && v.Obj? && GuardField(id) !in v.fields
    ensures Passes(id, v)
  {
    var guard := GuardField(id);
    assert Eval(Has([guard]), v) == No;
    var absent := Not(Has([guard]));
    assert Eval(absent, v) == Yes;
    forall other: Cel
      ensures Eval(Or(absent, other), v) == Yes && Eval(Or(other, absent), v) == Yes
    {}
  }
}
