// The greedy deletion plan under two caps, independent of how it is stored.

module DeletionPlan {
  import Strings

  datatype Kind = TaggedTransient | OciReferrerOrphan | OciOrphan | OtherKind

  datatype Item = Item(id: int, kind: Kind, updatedAt: string, planned: bool)

  datatype Package = Package(
    name: string, items: seq<Item>, taggedCandidates: int, planned: nat, deleted: nat, errors: nat)

  /** candidatePosition */
  datatype Position = Position(pkg: nat, item: nat)

  predicate Within(packages: seq<Package>, p: Position)
  {
    p.pkg < |packages| && p.item < |packages[p.pkg].items|
  }

  // ----- the deletion order

  datatype SortKey = SortKey(priority: nat, updatedAt: string, name: string, id: int)

  function Priority(kind: Kind): nat
  {
    match kind case TaggedTransient => 0 case OciReferrerOrphan => 1 case OciOrphan => 2 case OtherKind => 3
  }

  function KeyOf(packages: seq<Package>, p: Position): SortKey
    requires Within(packages, p)
  {
    var item := packages[p.pkg].items[p.item];
    SortKey(Priority(item.kind), item.updatedAt, packages[p.pkg].name, item.id)
  }

  /** The less function handed to sort.Slice. */
  predicate Less(a: SortKey, b: SortKey)
  {
    if a.priority != b.priority then a.priority < b.priority
    else if a.updatedAt != b.updatedAt then !Strings.AtMost(b.updatedAt, a.updatedAt)
    else if a.name != b.name then !Strings.AtMost(b.name, a.name)
    else a.id < b.id
  }

  lemma LessIsStrict(a: SortKey, b: SortKey)
    ensures !(Less(a, b) && Less(b, a))
  {
    Strings.AtMostTotal(a.updatedAt, b.updatedAt);
    Strings.AtMostTotal(a.name, b.name);
  }

  /** "Not after" is transitive, so sorting is meaningful. */
  lemma NotLessTransitive(a: SortKey, b: SortKey, c: SortKey)
    requires !Less(b, a) && !Less(c, b)
    ensures !Less(c, a)
  {
    if a.priority == b.priority == c.priority {
      TextStep(a.updatedAt, b.updatedAt, c.updatedAt);
      if a.updatedAt == b.updatedAt == c.updatedAt {
        TextStep(a.name, b.name, c.name);
      }
    }
  }

  /** Two steps up in text order are one step up, and level only if both were. */
  lemma TextStep(a: string, b: string, c: string)
    ensures Strings.AtMost(a, b) && Strings.AtMost(b, c) ==> Strings.AtMost(a, c)
    ensures Strings.AtMost(a, b) && Strings.AtMost(b, c) && a == c ==> a == b
    ensures Strings.AtMost(a, a)
  {
    Strings.AtMostReflexive(a);
    if Strings.AtMost(a, b) && Strings.AtMost(b, c) {
      Strings.AtMostTransitive(a, b, c);
      if a == c {
        Strings.AtMostAntisymmetric(a, b);
      }
    }
  }

  ghost predicate IsOrdered(packages: seq<Package>, ps: seq<Position>)
  {
    && (forall p :: p in ps ==> Within(packages, p))
    && (forall i, j :: 0 <= i < j < |ps| ==> !Less(KeyOf(packages, ps[j]), KeyOf(packages, ps[i])))
  }

  // ----- the greedy choice

  type Selector = Position -> bool

  function CountIf(ps: seq<Position>, f: Selector): nat
  {
    if ps == [] then 0
    else CountIf(ps[..|ps| - 1], f) + (if f(ps[|ps| - 1]) then 1 else 0)
  }

  function InPackage(pkg: nat): Selector { (p: Position) => p.pkg == pkg }

  function CountIn(ps: seq<Position>, pkg: nat): nat { CountIf(ps, InPackage(pkg)) }

  /** The positions planDeletions plans when it visits `ps` in order. */
  function Chosen(ps: seq<Position>, maxPerPackage: int, maxTotal: int): (r: seq<Position>)
  {
    if ps == [] then [] else
      var before, p := Chosen(ps[..|ps| - 1], maxPerPackage, maxTotal), ps[|ps| - 1];
      if |before| < maxTotal && CountIn(before, p.pkg) < maxPerPackage then before + [p] else before
  }

  lemma CountSnoc(ps: seq<Position>, p: Position, pkg: nat)
    ensures CountIn(ps + [p], pkg) == CountIn(ps, pkg) + (if p.pkg == pkg then 1 else 0)
  {
    assert (ps + [p])[..|ps|] == ps;
  }

  lemma ChosenSnoc(ps: seq<Position>, p: Position, maxPerPackage: int, maxTotal: int)
    ensures var before := Chosen(ps, maxPerPackage, maxTotal);
      Chosen(ps + [p], maxPerPackage, maxTotal)
        == if |before| < maxTotal && CountIn(before, p.pkg) < maxPerPackage then before + [p] else before
  {
    assert (ps + [p])[..|ps|] == ps;
  }

  function Min(a: int, b: int): int { if a <= b then a else b }

  /** A cap below zero admits nothing. */
  function Cap(n: int): nat { if n < 0 then 0 else n }

  /** Per package, the plan takes all it may, unless the total cap is reached first. */
  lemma {:induction false} ChosenFillsCaps(ps: seq<Position>, maxPerPackage: int, maxTotal: int, pkg: nat)
    ensures var c := Chosen(ps, maxPerPackage, maxTotal);
      && |c| <= Cap(maxTotal)
      && CountIn(c, pkg) <= Min(Cap(maxPerPackage), CountIn(ps, pkg))
      && (|c| < maxTotal ==> CountIn(c, pkg) == Min(Cap(maxPerPackage), CountIn(ps, pkg)))
    decreases |ps|
  {
    if ps != [] {
      var init, p := ps[..|ps| - 1], ps[|ps| - 1];
      assert ps == init + [p];
      ChosenFillsCaps(init, maxPerPackage, maxTotal, pkg);
      var before := Chosen(init, maxPerPackage, maxTotal);
      ChosenSnoc(init, p, maxPerPackage, maxTotal);
      CountSnoc(before, p, pkg);
      CountSnoc(init, p, pkg);
    }
  }

  // ----- totals over packages

  /** The sum over the first `n` packages of what each may contribute. */
  function Budget(ps: seq<Position>, maxPerPackage: int, n: nat): nat
  {
    if n == 0 then 0 else Budget(ps, maxPerPackage, n - 1) + Min(Cap(maxPerPackage), CountIn(ps, n - 1))
  }

  function CountBelow(ps: seq<Position>, n: nat): nat
  {
    if n == 0 then 0 else CountBelow(ps, n - 1) + CountIn(ps, n - 1)
  }

  lemma {:induction false} CountBelowSnoc(ps: seq<Position>, p: Position, n: nat)
    ensures CountBelow(ps + [p], n) == CountBelow(ps, n) + (if p.pkg < n then 1 else 0)
    decreases n
  {
    if n > 0 {
      CountBelowSnoc(ps, p, n - 1);
      CountSnoc(ps, p, n - 1);
    }
  }

  /** Positions are counted package by package. */
  lemma {:induction false} CountsSumUp(ps: seq<Position>, n: nat)
    requires forall p :: p in ps ==> p.pkg < n
    ensures CountBelow(ps, n) == |ps|
    decreases |ps|
  {
    if ps == [] {
      EmptyCounts(n);
    } else {
      var init, p := ps[..|ps| - 1], ps[|ps| - 1];
      assert ps == init + [p];
      CountsSumUp(init, n);
      CountBelowSnoc(init, p, n);
    }
  }

  lemma {:induction false} EmptyCounts(n: nat)
    ensures CountBelow([], n) == 0
    decreases n
  {
    if n > 0 { EmptyCounts(n - 1); }
  }

  ghost predicate Feasible(sub: seq<Position>, ps: seq<Position>, maxPerPackage: int, maxTotal: int)
  {
    && |sub| <= Cap(maxTotal)
    && forall pkg :: CountIn(sub, pkg) <= Min(Cap(maxPerPackage), CountIn(ps, pkg))
  }

  lemma {:induction false} WithinBudget(sub: seq<Position>, ps: seq<Position>, maxPerPackage: int, maxTotal: int, n: nat)
    requires Feasible(sub, ps, maxPerPackage, maxTotal)
    ensures CountBelow(sub, n) <= Budget(ps, maxPerPackage, n)
    decreases n
  {
    if n > 0 { WithinBudget(sub, ps, maxPerPackage, maxTotal, n - 1); }
  }

  lemma {:induction false} BudgetReached(ps: seq<Position>, maxPerPackage: int, maxTotal: int, n: nat)
    requires |Chosen(ps, maxPerPackage, maxTotal)| < maxTotal
    ensures CountBelow(Chosen(ps, maxPerPackage, maxTotal), n) == Budget(ps, maxPerPackage, n)
    decreases n
  {
    if n > 0 {
      BudgetReached(ps, maxPerPackage, maxTotal, n - 1);
      ChosenFillsCaps(ps, maxPerPackage, maxTotal, n - 1);
    }
  }

  lemma {:induction false} ChosenSubset(ps: seq<Position>, maxPerPackage: int, maxTotal: int)
    ensures forall p :: p in Chosen(ps, maxPerPackage, maxTotal) ==> p in ps
    decreases |ps|
  {
    if ps != [] {
      ChosenSubset(ps[..|ps| - 1], maxPerPackage, maxTotal);
      assert ps == ps[..|ps| - 1] + [ps[|ps| - 1]];
    }
  }

  lemma ChosenFeasible(ps: seq<Position>, maxPerPackage: int, maxTotal: int)
    ensures Feasible(Chosen(ps, maxPerPackage, maxTotal), ps, maxPerPackage, maxTotal)
  {
    forall pkg: nat
      ensures CountIn(Chosen(ps, maxPerPackage, maxTotal), pkg) <= Min(Cap(maxPerPackage), CountIn(ps, pkg))
    {
      ChosenFillsCaps(ps, maxPerPackage, maxTotal, pkg);
    }
    ChosenFillsCaps(ps, maxPerPackage, maxTotal, 0);
  }

  /** The size of the plan, in closed form: it does not depend on the order of `ps`. */
  lemma PlanSize(ps: seq<Position>, maxPerPackage: int, maxTotal: int, n: nat)
    requires forall p :: p in ps ==> p.pkg < n
    ensures |Chosen(ps, maxPerPackage, maxTotal)| == Min(Cap(maxTotal), Budget(ps, maxPerPackage, n))
  {
    var c := Chosen(ps, maxPerPackage, maxTotal);
    ChosenSubset(ps, maxPerPackage, maxTotal);
    CountsSumUp(c, n);
    ChosenFeasible(ps, maxPerPackage, maxTotal);
    WithinBudget(c, ps, maxPerPackage, maxTotal, n);
    if |c| < maxTotal {
      BudgetReached(ps, maxPerPackage, maxTotal, n);
    }
  }

  /** No plan within the caps deletes more. */
  lemma PlanIsMaximum(sub: seq<Position>, ps: seq<Position>, maxPerPackage: int, maxTotal: int, n: nat)
    requires forall p :: p in ps ==> p.pkg < n
    requires forall p :: p in sub ==> p.pkg < n
    requires Feasible(sub, ps, maxPerPackage, maxTotal)
    ensures |sub| <= |Chosen(ps, maxPerPackage, maxTotal)|
  {
    PlanSize(ps, maxPerPackage, maxTotal, n);
    CountsSumUp(sub, n);
    WithinBudget(sub, ps, maxPerPackage, maxTotal, n);
  }

  // ----- who is left out

  lemma {:induction false} ChosenPrefix(ps: seq<Position>, k: nat, maxPerPackage: int, maxTotal: int)
    requires k <= |ps|
    ensures Chosen(ps[..k], maxPerPackage, maxTotal) <= Chosen(ps, maxPerPackage, maxTotal)
    decreases |ps|
  {
    if k == |ps| {
      assert ps[..k] == ps;
    } else {
      assert ps[..|ps| - 1][..k] == ps[..k];
      ChosenPrefix(ps[..|ps| - 1], k, maxPerPackage, maxTotal);
    }
  }

  lemma ChosenWhenRoom(ps: seq<Position>, k: nat, maxPerPackage: int, maxTotal: int)
    requires k < |ps|
    requires var earlier := Chosen(ps[..k], maxPerPackage, maxTotal);
      |earlier| < maxTotal && CountIn(earlier, ps[k].pkg) < maxPerPackage
    ensures ps[k] in Chosen(ps, maxPerPackage, maxTotal)
  {
    var upto := ps[..k + 1];
    assert upto == ps[..k] + [ps[k]];
    ChosenSnoc(ps[..k], ps[k], maxPerPackage, maxTotal);
    var c := Chosen(upto, maxPerPackage, maxTotal);
    assert c[|c| - 1] == ps[k];
    ChosenPrefix(ps, k + 1, maxPerPackage, maxTotal);
    assert Chosen(ps, maxPerPackage, maxTotal)[|c| - 1] == ps[k];
  }

  /** A candidate is left out only when a cap was already full of candidates that sort before it. */
  lemma LeftOutByEarlier(ps: seq<Position>, k: nat, maxPerPackage: int, maxTotal: int)
    requires k < |ps| && ps[k] !in Chosen(ps, maxPerPackage, maxTotal)
    ensures var earlier := Chosen(ps[..k], maxPerPackage, maxTotal);
      && (|earlier| >= maxTotal || CountIn(earlier, ps[k].pkg) >= maxPerPackage)
      && (forall p :: p in earlier ==> p in ps[..k])
  {
    ChosenSubset(ps[..k], maxPerPackage, maxTotal);
    var earlier := Chosen(ps[..k], maxPerPackage, maxTotal);
    if |earlier| < maxTotal && CountIn(earlier, ps[k].pkg) < maxPerPackage {
      ChosenWhenRoom(ps, k, maxPerPackage, maxTotal);
    }
  }

  // ----- tagged candidates come first

  function IsTagged(packages: seq<Package>): Selector
  {
    (p: Position) => Within(packages, p) && packages[p.pkg].items[p.item].kind == TaggedTransient
  }

  function IsTaggedIn(packages: seq<Package>, pkg: nat): Selector
  {
    (p: Position) => p.pkg == pkg && IsTagged(packages)(p)
  }

  /** In deletion order, everything before a tagged candidate is tagged. */
  lemma TaggedFirst(packages: seq<Package>, ps: seq<Position>, k: nat)
    requires IsOrdered(packages, ps) && k < |ps| && IsTagged(packages)(ps[k])
    ensures forall p :: p in ps[..k + 1] ==> IsTagged(packages)(p)
  {
    forall p | p in ps[..k + 1] ensures IsTagged(packages)(p) {
      var i :| 0 <= i < k + 1 && ps[i] == p;
      if i < k {
        assert !Less(KeyOf(packages, ps[k]), KeyOf(packages, ps[i]));
      }
    }
  }

  /**
   * When every package's tagged candidates fit its cap and all of them together fit the
   * total, every tagged candidate is planned.
   */
  lemma TaggedAllPlanned(packages: seq<Package>, ps: seq<Position>, maxPerPackage: int, maxTotal: int, k: nat)
    requires IsOrdered(packages, ps) && k < |ps| && IsTagged(packages)(ps[k])
    requires CountIf(ps, IsTagged(packages)) <= maxTotal
    requires CountIf(ps, IsTaggedIn(packages, ps[k].pkg)) <= maxPerPackage
    ensures ps[k] in Chosen(ps, maxPerPackage, maxTotal)
  {
    TaggedFirst(packages, ps, k);
    var upto, pkg := ps[..k + 1], ps[k].pkg;
    CountAll(upto, IsTagged(packages));
    CountSame(upto, InPackage(pkg), IsTaggedIn(packages, pkg));
    CountPrefix(ps, k + 1, IsTagged(packages));
    CountPrefix(ps, k + 1, IsTaggedIn(packages, pkg));
    assert upto == ps[..k] + [ps[k]];
    CountSnoc(ps[..k], ps[k], pkg);
    ChosenFillsCaps(ps[..k], maxPerPackage, maxTotal, pkg);
    ChosenNoLonger(ps[..k], maxPerPackage, maxTotal);
    if ps[k] !in Chosen(ps, maxPerPackage, maxTotal) {
      LeftOutByEarlier(ps, k, maxPerPackage, maxTotal);
    }
  }

  lemma {:induction false} ChosenNoLonger(ps: seq<Position>, maxPerPackage: int, maxTotal: int)
    ensures |Chosen(ps, maxPerPackage, maxTotal)| <= |ps|
    decreases |ps|
  {
    if ps != [] { ChosenNoLonger(ps[..|ps| - 1], maxPerPackage, maxTotal); }
  }

  // ----- counting

  lemma {:induction false} CountAll(ps: seq<Position>, f: Selector)
    requires forall p :: p in ps ==> f(p)
    ensures CountIf(ps, f) == |ps|
    decreases |ps|
  {
    if ps != [] {
      assert ps == ps[..|ps| - 1] + [ps[|ps| - 1]];
      CountAll(ps[..|ps| - 1], f);
    }
  }

  lemma {:induction false} CountSame(ps: seq<Position>, f: Selector, g: Selector)
    requires forall p :: p in ps ==> f(p) == g(p)
    ensures CountIf(ps, f) == CountIf(ps, g)
    decreases |ps|
  {
    if ps != [] {
      assert ps == ps[..|ps| - 1] + [ps[|ps| - 1]];
      CountSame(ps[..|ps| - 1], f, g);
    }
  }

  lemma {:induction false} CountPrefix(ps: seq<Position>, k: nat, f: Selector)
    requires k <= |ps|
    ensures CountIf(ps[..k], f) <= CountIf(ps, f)
    decreases |ps|
  {
    if k == |ps| {
      assert ps[..k] == ps;
    } else {
      assert ps[..|ps| - 1][..k] == ps[..k];
      CountPrefix(ps[..|ps| - 1], k, f);
    }
  }

  lemma {:induction false} CountConcat(a: seq<Position>, b: seq<Position>, f: Selector)
    ensures CountIf(a + b, f) == CountIf(a, f) + CountIf(b, f)
    decreases |b|
  {
    if b == [] {
      assert a + b == a;
    } else {
      assert (a + b)[..|a + b| - 1] == a + b[..|b| - 1];
      CountConcat(a, b[..|b| - 1], f);
    }
  }

  lemma CountInsert(a: seq<Position>, p: Position, b: seq<Position>, f: Selector)
    ensures CountIf(a + [p] + b, f) == CountIf(a + b, f) + (if f(p) then 1 else 0)
  {
    CountConcat(a + [p], b, f);
    CountConcat(a, b, f);
    assert (a + [p])[..|a|] == a;
  }

  lemma SplitAround(ps: seq<Position>, p: Position) returns (a: seq<Position>, b: seq<Position>)
    requires p in multiset(ps)
    ensures ps == a + [p] + b && multiset(a + b) == multiset(ps) - multiset{p}
  {
    var j :| 0 <= j < |ps| && ps[j] == p;
    a, b := ps[..j], ps[j + 1..];
    assert ps == a + [p] + b;
  }

  /** Counting does not depend on the order. */
  lemma {:induction false} CountPermutation(ps: seq<Position>, qs: seq<Position>, f: Selector)
    requires multiset(ps) == multiset(qs)
    ensures CountIf(ps, f) == CountIf(qs, f)
    decreases |ps|
  {
    if ps == [] {
      assert |multiset(qs)| == 0;
    } else {
      assert ps[0] in multiset(ps);
      var a, b := SplitAround(ps, ps[0]);
      var c, d := SplitAround(qs, ps[0]);
      CountPermutation(a + b, c + d, f);
      CountInsert(a, ps[0], b, f);
      CountInsert(c, ps[0], d, f);
    }
  }
}
