// The dotted paths of a snapshot: parentPath, and why no two nodes share a path.

module CrdPaths {
  import opened Options
  import opened CrdSchema
  import opened CrdSnapshot

  predicate EndsWithBrackets(path: string)
  {
    |path| >= 2 && path[|path| - 2..] == "[]"
  }

  function LastDot(path: string): (i: int)
    ensures -1 <= i < |path|
    ensures i >= 0 ==> path[i] == '.'
    ensures forall j :: i < j < |path| ==> path[j] != '.'
  {
    if path == "" then -1
    else if path[|path| - 1] == '.' then |path| - 1
    else LastDot(path[..|path| - 1])
  }

  function ParentPath(path: string): (r: string)
    ensures path != "" ==> |r| < |path|
  {
    if EndsWithBrackets(path) then path[..|path| - 2]
    else if LastDot(path) >= 0 then path[..LastDot(path)]
    else ""
  }

  datatype Step = Property(name: string) | Item | Star | Branch(keyword: Composition, index: nat) | Negation

  function StepText(step: Step): string
  {
    match step
    case Property(name) => "." + name
    case Item => "[]"
    case Star => ".*"
    case Branch(keyword, index) => "." + BranchName(keyword, index)
    case Negation => ".not"
  }

  predicate CleanStep(step: Step)
  {
    step.Property? ==> CleanName(step.name)
  }

  /** The last step of a path that has one. */
  ghost function LastStep(path: string): Step
  {
    if EndsWithBrackets(path) then Item else StepOf(path[LastDot(path) + 1..])
  }

  /** The step whose text, after the dot, this is. */
  ghost function StepOf(tail: string): Step
  {
    if tail == "*" then Star
    else if tail == "not" then Negation
    else if exists c, i :: BranchName(c, i) == tail then
      var c, i :| BranchName(c, i) == tail;
      Branch(c, i)
    else Property(tail)
  }

  lemma {:induction false} DecimalDigits(n: nat)
    ensures Decimal(n) != "" && forall c :: c in Decimal(n) ==> '0' <= c <= '9'
    decreases n
  {
    if n >= 10 {
      DecimalDigits(n / 10);
    }
  }

  lemma {:induction false} DecimalInjective(a: nat, b: nat)
    requires Decimal(a) == Decimal(b)
    ensures a == b
    decreases a
  {
    var s, t := Decimal(a), Decimal(b);
    assert s[|s| - 1] == "0123456789"[a % 10] && t[|t| - 1] == "0123456789"[b % 10];
    DigitInjective(a % 10, b % 10);
    if a >= 10 {
      DecimalDigits(a / 10);
      assert s[..|s| - 1] == Decimal(a / 10) && b >= 10 && t[..|t| - 1] == Decimal(b / 10);
      DecimalInjective(a / 10, b / 10);
    } else if b >= 10 {
      DecimalDigits(b / 10);
    }
  }

  lemma DigitInjective(a: nat, b: nat)
    requires a < 10 && b < 10 && "0123456789"[a] == "0123456789"[b]
    ensures a == b
  {
    assert forall i :: 0 <= i < 10 ==> "0123456789"[i] as int == '0' as int + i;
  }

  lemma BracketedShape(text: string, d: string)
    requires |text| == 5 && '.' !in text && d != "" && forall c :: c in d ==> '0' <= c <= '9'
    ensures var s := text + ("[" + d + "]");
      && |s| >= 8 && s[..5] == text && s[6..|s| - 1] == d
      && s[|s| - 1] == ']' && s[|s| - 2] != '[' && '.' !in s
  {
    var s := text + ("[" + d + "]");
    assert s[|s| - 2] == d[|d| - 1] && d[|d| - 1] in d;
    assert '.' !in d;
  }

  /** A branch can be read back from its name, which no clean property shares. */
  lemma BranchNameShape(c: Composition, i: nat)
    ensures var s := BranchName(c, i);
      && |s| >= 8 && s[..5] == CompositionText(c) && s[6..|s| - 1] == Decimal(i)
      && s[|s| - 1] == ']' && s[|s| - 2] != '[' && '.' !in s
  {
    DecimalDigits(i);
    BracketedShape(CompositionText(c), Decimal(i));
  }

  lemma BranchNameInjective(c: Composition, i: nat, d: Composition, j: nat)
    requires BranchName(c, i) == BranchName(d, j)
    ensures c == d && i == j
  {
    BranchNameShape(c, i);
    BranchNameShape(d, j);
    DecimalInjective(i, j);
    assert "allOf"[1] == 'l' && "anyOf"[1] == 'n' && "oneOf"[0] == 'o';
    assert CompositionText(c)[0] == CompositionText(d)[0] && CompositionText(c)[1] == CompositionText(d)[1];
  }

  lemma StepOfBranch(c: Composition, i: nat)
    ensures StepOf(BranchName(c, i)) == Branch(c, i)
  {
    BranchNameShape(c, i);
    var s := BranchName(c, i);
    var step := StepOf(s);
    assert |"*"| < 8 && |"not"| < 8;
    assert step.Branch? && BranchName(step.keyword, step.index) == s;
    BranchNameInjective(step.keyword, step.index, c, i);
  }

  lemma StepOfProperty(name: string)
    requires CleanName(name)
    ensures StepOf(name) == Property(name)
  {
    forall c, i ensures BranchName(c, i) != name {
      BranchNameShape(c, i);
    }
  }

  lemma LastDotUnique(path: string, i: int)
    requires -1 <= i < |path| && (i >= 0 ==> path[i] == '.')
    requires forall j :: i < j < |path| ==> path[j] != '.'
    ensures LastDot(path) == i
  {
    assert LastDot(path) >= i && LastDot(path) <= i;
  }

  ghost predicate DotIsLast(path: string, i: int)
  {
    0 <= i < |path| && path[i] == '.' && forall j :: i < j < |path| ==> path[j] != '.'
  }

  lemma DotBeforeTail(path: string, tail: string)
    requires '.' !in tail
    ensures DotIsLast(path + "." + tail, |path|)
  {
    var child := path + "." + tail;
    forall j | |path| < j < |child| ensures child[j] != '.' {
      assert child[j] == tail[j - |path| - 1];
    }
  }

  lemma LastDotIs(path: string, i: int)
    requires DotIsLast(path, i)
    ensures LastDot(path) == i
  {
    LastDotUnique(path, i);
  }

  lemma DottedPath(path: string, tail: string)
    requires '.' !in tail
    ensures LastDot(path + "." + tail) == |path|
  {
    DotBeforeTail(path, tail);
    LastDotIs(path + "." + tail, |path|);
  }

  lemma BracketsAreLast(path: string)
    ensures EndsWithBrackets(path) <==> |path| >= 2 && path[|path| - 2] == '[' && path[|path| - 1] == ']'
  {
    if |path| >= 2 {
      assert path[|path| - 2..] == [path[|path| - 2], path[|path| - 1]];
    }
  }

  lemma DottedHasNoBrackets(path: string, tail: string)
    requires !EndsWithBrackets(tail)
    ensures !EndsWithBrackets(path + "." + tail)
  {
    var child := path + "." + tail;
    BracketsAreLast(child);
    BracketsAreLast(tail);
    assert |tail| >= 2 ==> child[|child| - 2] == tail[|tail| - 2] && child[|child| - 1] == tail[|tail| - 1];
    assert |tail| < 2 ==> child[|path|] == '.' && (|path| == |child| - 2 || |path| == |child| - 1);
  }

  lemma DottedChild(path: string, tail: string)
    requires '.' !in tail && !EndsWithBrackets(tail)
    ensures ParentPath(path + "." + tail) == path
    ensures LastStep(path + "." + tail) == StepOf(tail)
  {
    var child := path + "." + tail;
    DottedPath(path, tail);
    DottedHasNoBrackets(path, tail);
    assert child[..|path|] == path && child[|path| + 1..] == tail;
  }

  /** The parent and the last step of a child's path can both be read back from it. */
  lemma ChildPath(path: string, step: Step)
    requires CleanStep(step)
    ensures ParentPath(path + StepText(step)) == path
    ensures LastStep(path + StepText(step)) == step
  {
    match step
    case Item =>
      var child := path + "[]";
      assert child[|child| - 2..] == "[]" && child[..|child| - 2] == path;
    case Star =>
      assert path + ".*" == path + "." + "*";
      DottedChild(path, "*");
    case Negation =>
      assert path + ".not" == path + "." + "not";
      assert "not"[1] == 'o' && "not"[1..][0] == 'o';
      DottedChild(path, "not");
    case Branch(keyword, index) =>
      var name := BranchName(keyword, index);
      assert path + ("." + name) == path + "." + name;
      BranchNameShape(keyword, index);
      BracketsAreLast(name);
      DottedChild(path, name);
      StepOfBranch(keyword, index);
    case Property(name) =>
      assert path + ("." + name) == path + "." + name;
      BracketsAreLast(name);
      DottedChild(path, name);
      StepOfProperty(name);
  }

  function Render(root: string, steps: seq<Step>): string
    decreases |steps|
  {
    if steps == [] then root else Render(root + StepText(steps[0]), steps[1..])
  }

  predicate CleanSteps(steps: seq<Step>)
  {
    forall i :: 0 <= i < |steps| ==> CleanStep(steps[i])
  }

  /** A root path such as "spec": it has no parent. */
  predicate IsRoot(root: string)
  {
    root != "" && ParentPath(root) == ""
  }

  lemma {:induction false} RenderSnoc(root: string, steps: seq<Step>, last: Step)
    ensures Render(root, steps + [last]) == Render(root, steps) + StepText(last)
    decreases |steps|
  {
    if steps != [] {
      assert (steps + [last])[1..] == steps[1..] + [last];
      RenderSnoc(root + StepText(steps[0]), steps[1..], last);
    } else {
      assert (steps + [last])[1..] == [];
    }
  }

  lemma {:induction false} RenderNonEmpty(root: string, steps: seq<Step>)
    requires root != ""
    ensures Render(root, steps) != ""
    decreases |steps|
  {
    if steps != [] {
      RenderNonEmpty(root + StepText(steps[0]), steps[1..]);
    }
  }

  lemma LastOfRender(root: string, steps: seq<Step>)
    requires root != "" && CleanSteps(steps) && steps != []
    ensures ParentPath(Render(root, steps)) == Render(root, steps[..|steps| - 1]) != ""
    ensures LastStep(Render(root, steps)) == steps[|steps| - 1]
  {
    var init, last := steps[..|steps| - 1], steps[|steps| - 1];
    assert steps == init + [last];
    RenderSnoc(root, init, last);
    ChildPath(Render(root, init), last);
    RenderNonEmpty(root, init);
  }

  lemma SameInitAndLast(a: seq<Step>, b: seq<Step>)
    requires a != [] && b != [] && a[..|a| - 1] == b[..|b| - 1] && a[|a| - 1] == b[|b| - 1]
    ensures a == b
  {
    assert a == a[..|a| - 1] + [a[|a| - 1]] && b == b[..|b| - 1] + [b[|b| - 1]];
  }

  /** Two places in a tree with clean names never have the same path. */
  lemma {:induction false} RenderInjective(r1: string, s1: seq<Step>, r2: string, s2: seq<Step>)
    requires IsRoot(r1) && IsRoot(r2) && CleanSteps(s1) && CleanSteps(s2)
    requires Render(r1, s1) == Render(r2, s2)
    ensures r1 == r2 && s1 == s2
    decreases |s1|
  {
    if s1 != [] {
      LastOfRender(r1, s1);
    }
    if s2 != [] {
      LastOfRender(r2, s2);
    }
    if s1 != [] && s2 != [] {
      RenderInjective(r1, s1[..|s1| - 1], r2, s2[..|s2| - 1]);
      SameInitAndLast(s1, s2);
    }
  }

  lemma RootsAreRoots()
    ensures IsRoot("spec") && IsRoot("status")
  {
    assert LastDot("spec") == -1 by {
      assert forall j :: 0 <= j < 4 ==> "spec"[j] != '.';
    }
    assert LastDot("status") == -1 by {
      assert forall j :: 0 <= j < 6 ==> "status"[j] != '.';
    }
    assert "spec"[2] == 'e' && "status"[4] == 'u';
    assert "spec"[2..][0] == 'e' && "status"[4..][0] == 'u';
  }

  // ----- places in a schema tree

  datatype Placed = Placed(schema: Schema, required: bool)

  function StepInto(s: Schema, step: Step): Option<Placed>
  {
    match step
    case Property(name) =>
      if name in s.properties then Some(Placed(s.properties[name], name in s.required)) else None
    case Item =>
      if s.typ == ArrayType && s.items.Some? then Some(Placed(s.items.value, false)) else None
    case Star =>
      if s.additional.Some? && s.additional.value.schema.Some? then
        Some(Placed(s.additional.value.schema.value, false)) else None
    case Branch(c, i) => if i < |Branches(s, c)| then Some(Placed(Branches(s, c)[i], false)) else None
    case Negation => if s.negated.Some? then Some(Placed(s.negated.value, false)) else None
  }

  function Walk(at: Placed, steps: seq<Step>): Option<Placed>
    decreases |steps|
  {
    if steps == [] then Some(at) else
      var next := StepInto(at.schema, steps[0]);
      if next.None? then None else Walk(next.value, steps[1..])
  }

  lemma {:induction false} WalkSnoc(at: Placed, steps: seq<Step>, last: Step)
    ensures Walk(at, steps + [last])
         == if Walk(at, steps).None? then None else StepInto(Walk(at, steps).value.schema, last)
    decreases |steps|
  {
    if steps == [] {
      assert (steps + [last])[1..] == [];
    } else {
      assert (steps + [last])[1..] == steps[1..] + [last];
      var next := StepInto(at.schema, steps[0]);
      if next.Some? {
        WalkSnoc(next.value, steps[1..], last);
      }
    }
  }

  lemma StepPlain(s: Schema, step: Step)
    requires Plain(s) && StepInto(s, step).Some?
    ensures CleanStep(step) && Plain(StepInto(s, step).value.schema)
  {
    var next := StepInto(s, step).value.schema;
    if step.Branch? {
      assert next in Branches(s, step.keyword);
      LeafIsPlain(next);
    } else if step.Negation? {
      LeafIsPlain(next);
    }
  }

  lemma LeafIsPlain(s: Schema)
    requires IsLeaf(s)
    ensures Plain(s)
  {}

  lemma {:induction false} WalkPlain(at: Placed, steps: seq<Step>)
    requires Plain(at.schema) && Walk(at, steps).Some?
    ensures CleanSteps(steps) && Plain(Walk(at, steps).value.schema)
    decreases |steps|
  {
    if steps != [] {
      StepPlain(at.schema, steps[0]);
      WalkPlain(StepInto(at.schema, steps[0]).value, steps[1..]);
      assert steps == [steps[0]] + steps[1..];
    }
  }

  lemma WalkPlainNode(at: Placed, steps: seq<Step>)
    requires Plain(at.schema) && Walk(at, steps).Some?
    ensures CleanSteps(steps) && PlainNode(Walk(at, steps).value.schema)
  {
    WalkPlain(at, steps);
  }

  // ----- the snapshot of a plain tree is exactly its places

  function NodeAt(meta: Meta, path: string, at: Placed): Node
  {
    NodeOf(meta, path, at.schema, at.required)
  }

  lemma {:induction false} FlattenAllElim(meta: Meta, s: Schema, kids: seq<Child>, node: Node) returns (kid: Child)
    requires forall c :: c in kids ==> c.schema < s
    requires node in FlattenAll(meta, s, kids)
    ensures kid in kids && node in Flatten(meta, kid.path, kid.schema, kid.required)
    decreases |kids|
  {
    kid := kids[|kids| - 1];
    if node !in Flatten(meta, kid.path, kid.schema, kid.required) {
      kid := FlattenAllElim(meta, s, kids[..|kids| - 1], node);
    }
  }

  lemma {:induction false} FlattenAllIntro(meta: Meta, s: Schema, kids: seq<Child>, kid: Child, node: Node)
    requires forall c :: c in kids ==> c.schema < s
    requires kid in kids && node in Flatten(meta, kid.path, kid.schema, kid.required)
    ensures node in FlattenAll(meta, s, kids)
    decreases |kids|
  {
    if kid != kids[|kids| - 1] {
      FlattenAllIntro(meta, s, kids[..|kids| - 1], kid, node);
    }
  }

  lemma PropertyToStep(path: string, s: Schema, kid: Child) returns (step: Step)
    requires kid in PropertyChildren(path, s, s.properties.Keys)
    ensures StepInto(s, step) == Some(Placed(kid.schema, kid.required))
    ensures kid.path == path + StepText(step)
  {
    var name :| name in s.properties.Keys
      && kid == Child(path + "." + name, s.properties[name], name in s.required);
    step := Property(name);
    assert path + "." + name == path + ("." + name);
  }

  lemma ItemToStep(path: string, s: Schema, kid: Child) returns (step: Step)
    requires kid in ItemChildren(path, s)
    ensures StepInto(s, step) == Some(Placed(kid.schema, kid.required))
    ensures kid.path == path + StepText(step)
  {
    step := if StepInto(s, Item).Some? && kid == ItemChildren(path, s)[0] then Item else Star;
  }

  lemma BranchToStep(path: string, s: Schema, kid: Child, c: Composition) returns (step: Step)
    requires kid in BranchChildren(path, s, c)
    ensures StepInto(s, step) == Some(Placed(kid.schema, kid.required))
    ensures kid.path == path + StepText(step)
  {
    var i :| 0 <= i < |Branches(s, c)| && BranchChildren(path, s, c)[i] == kid;
    step := Branch(c, i);
  }

  lemma ComposedToStep(path: string, s: Schema, kid: Child) returns (step: Step)
    requires kid in ComposedChildren(path, s)
    ensures StepInto(s, step) == Some(Placed(kid.schema, kid.required))
    ensures kid.path == path + StepText(step)
  {
    if kid in BranchChildren(path, s, AllOf) {
      step := BranchToStep(path, s, kid, AllOf);
    } else if kid in BranchChildren(path, s, AnyOf) {
      step := BranchToStep(path, s, kid, AnyOf);
    } else if kid in BranchChildren(path, s, OneOf) {
      step := BranchToStep(path, s, kid, OneOf);
    } else {
      step := Negation;
    }
  }

  lemma ChildToStep(path: string, s: Schema, kid: Child) returns (step: Step)
    requires kid in Children(path, s)
    ensures StepInto(s, step) == Some(Placed(kid.schema, kid.required))
    ensures kid.path == path + StepText(step)
  {
    if kid in PropertyChildren(path, s, s.properties.Keys) {
      step := PropertyToStep(path, s, kid);
    } else if kid in ItemChildren(path, s) {
      step := ItemToStep(path, s, kid);
    } else {
      step := ComposedToStep(path, s, kid);
    }
  }

  lemma StepToChild(path: string, s: Schema, step: Step)
    requires StepInto(s, step).Some?
    ensures var at := StepInto(s, step).value;
            Child(path + StepText(step), at.schema, at.required) in Children(path, s)
  {
    match step
    case Property(name) => PropertyStepToChild(path, s, name);
    case Branch(c, i) => BranchStepToChild(path, s, c, i);
    case _ =>
  }

  lemma PropertyStepToChild(path: string, s: Schema, name: string)
    requires name in s.properties
    ensures Child(path + ("." + name), s.properties[name], name in s.required) in Children(path, s)
  {
    var kid := Child(path + ("." + name), s.properties[name], name in s.required);
    assert path + ("." + name) == path + "." + name;
    assert kid in PropertyChildren(path, s, s.properties.Keys);
  }

  lemma BranchStepToChild(path: string, s: Schema, c: Composition, i: nat)
    requires i < |Branches(s, c)|
    ensures BranchChild(path, s, c, i) in Children(path, s)
  {
    assert BranchChildren(path, s, c)[i] == BranchChild(path, s, c, i);
    assert BranchChild(path, s, c, i) in ComposedChildren(path, s);
  }

  lemma FlattenElim(meta: Meta, path: string, at: Placed, node: Node)
    requires node in Flatten(meta, path, at.schema, at.required)
    ensures node == NodeAt(meta, path, at) || node in FlattenAll(meta, at.schema, Children(path, at.schema))
  {}

  lemma {:induction false} NodeToSteps(meta: Meta, path: string, at: Placed, node: Node) returns (steps: seq<Step>)
    requires Plain(at.schema)
    requires node in Flatten(meta, path, at.schema, at.required)
    ensures Walk(at, steps).Some?
    ensures node == NodeAt(meta, Render(path, steps), Walk(at, steps).value)
    decreases at.schema, 1
  {
    FlattenElim(meta, path, at, node);
    if node == NodeAt(meta, path, at) {
      steps := [];
    } else {
      steps := NodeBelow(meta, path, at, node);
    }
  }

  lemma {:induction false} NodeBelow(meta: Meta, path: string, at: Placed, node: Node) returns (steps: seq<Step>)
    requires Plain(at.schema)
    requires node in FlattenAll(meta, at.schema, Children(path, at.schema))
    ensures Walk(at, steps).Some?
    ensures node == NodeAt(meta, Render(path, steps), Walk(at, steps).value)
    decreases at.schema, 0
  {
    var kid := FlattenAllElim(meta, at.schema, Children(path, at.schema), node);
    var step := ChildToStep(path, at.schema, kid);
    StepPlain(at.schema, step);
    var rest := NodeToSteps(meta, kid.path, Placed(kid.schema, kid.required), node);
    steps := [step] + rest;
    PrependStep(at, step, rest, path);
  }

  lemma PrependStep(at: Placed, step: Step, rest: seq<Step>, path: string)
    requires StepInto(at.schema, step).Some?
    ensures Walk(at, [step] + rest) == Walk(StepInto(at.schema, step).value, rest)
    ensures Render(path, [step] + rest) == Render(path + StepText(step), rest)
  {
    assert ([step] + rest)[1..] == rest;
  }

  lemma {:induction false} StepsToNode(meta: Meta, path: string, at: Placed, steps: seq<Step>)
    requires Walk(at, steps).Some?
    ensures NodeAt(meta, Render(path, steps), Walk(at, steps).value)
         in Flatten(meta, path, at.schema, at.required)
    decreases |steps|
  {
    if steps != [] {
      var next := StepInto(at.schema, steps[0]).value;
      var kid := Child(path + StepText(steps[0]), next.schema, next.required);
      StepToChild(path, at.schema, steps[0]);
      StepsToNode(meta, kid.path, next, steps[1..]);
      FlattenAllIntro(meta, at.schema, Children(path, at.schema), kid,
        NodeAt(meta, Render(path, steps), Walk(at, steps).value));
    }
  }
}
