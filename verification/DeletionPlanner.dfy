// planDeletions and applyDeletionPlan, which update the housekeeping report in place.

module DeletionPlanner {
  import opened DeletionPlan

  /** The positions of one package, in item order. */
  function PositionsOf(pkg: nat, n: nat): (r: seq<Position>)
    ensures |r| == n && forall j :: 0 <= j < n ==> r[j] == Position(pkg, j)
  {
    seq(n, j requires 0 <= j => Position(pkg, j))
  }

  function AllPositions(packages: seq<Package>): seq<Position>
  {
    if packages == [] then [] else
      AllPositions(packages[..|packages| - 1]) + PositionsOf(|packages| - 1, |packages[|packages| - 1].items|)
  }

  /** The report with exactly the chosen positions planned. */
  function Mark(packages: seq<Package>, chosen: seq<Position>): (r: seq<Package>)
    ensures |r| == |packages|
    ensures forall i :: 0 <= i < |r| ==> r[i] == MarkPackage(packages[i], i, chosen)
  {
    seq(|packages|, i requires 0 <= i < |packages| => MarkPackage(packages[i], i, chosen))
  }

  function MarkPackage(p: Package, i: nat, chosen: seq<Position>): Package
  {
    p.(planned := CountIn(chosen, i),
       items := seq(|p.items|, j requires 0 <= j < |p.items| => p.items[j].(planned := Position(i, j) in chosen)))
  }

  /** Marking changes neither the positions nor their order. */
  lemma MarkKeepsKeys(packages: seq<Package>, chosen: seq<Position>, p: Position)
    ensures Within(Mark(packages, chosen), p) <==> Within(packages, p)
    ensures Within(packages, p) ==> KeyOf(Mark(packages, chosen), p) == KeyOf(packages, p)
  {}

  /** sort.Slice over candidate positions: some ordered permutation. */
  method SortedCandidatePositions(packages: seq<Package>, positions: seq<Position>) returns (ordered: seq<Position>)
    requires forall p :: p in positions ==> Within(packages, p)
    ensures IsOrdered(packages, ordered) && multiset(ordered) == multiset(positions)
  {
    ordered := [];
    for i := 0 to |positions|
      invariant IsOrdered(packages, ordered) && multiset(ordered) == multiset(positions[..i])
    {
      assert positions[i] in positions && positions[..i + 1] == positions[..i] + [positions[i]];
      ordered := Insert(packages, ordered, positions[i]);
    }
    assert positions[..|positions|] == positions;
  }

  method Insert(packages: seq<Package>, ordered: seq<Position>, p: Position) returns (r: seq<Position>)
    requires IsOrdered(packages, ordered) && Within(packages, p)
    ensures IsOrdered(packages, r) && multiset(r) == multiset(ordered) + multiset{p}
  {
    var k := |ordered|;
    while k > 0 && Less(KeyOf(packages, p), KeyOf(packages, ordered[k - 1]))
      invariant 0 <= k <= |ordered|
      invariant forall i :: k <= i < |ordered| ==> Less(KeyOf(packages, p), KeyOf(packages, ordered[i]))
    {
      k := k - 1;
    }
    r := ordered[..k] + [p] + ordered[k..];
    InsertOrdered(packages, ordered, p, k);
    InsertCounts(ordered, p, k);
  }

  lemma InsertCounts(ordered: seq<Position>, p: Position, k: nat)
    requires k <= |ordered|
    ensures multiset(ordered[..k] + [p] + ordered[k..]) == multiset(ordered) + multiset{p}
  {
    assert ordered == ordered[..k] + ordered[k..];
  }

  lemma InsertOrdered(packages: seq<Package>, ordered: seq<Position>, p: Position, k: nat)
    requires IsOrdered(packages, ordered) && Within(packages, p) && k <= |ordered|
    requires k > 0 ==> !Less(KeyOf(packages, p), KeyOf(packages, ordered[k - 1]))
    requires forall i :: k <= i < |ordered| ==> Less(KeyOf(packages, p), KeyOf(packages, ordered[i]))
    ensures IsOrdered(packages, ordered[..k] + [p] + ordered[k..])
  {
    var r := ordered[..k] + [p] + ordered[k..];
    forall i, j | 0 <= i < j < |r| ensures !Less(KeyOf(packages, r[j]), KeyOf(packages, r[i])) {
      if i < k && j == k {
        if i < k - 1 {
          NotLessTransitive(KeyOf(packages, ordered[i]), KeyOf(packages, ordered[k - 1]), KeyOf(packages, p));
        }
      } else if i == k {
        LessIsStrict(KeyOf(packages, p), KeyOf(packages, ordered[j - 1]));
      } else {
        var i', j' := if i < k then i else i - 1, if j < k then j else j - 1;
        assert r[i] == ordered[i'] && r[j] == ordered[j'];
      }
    }
  }

  /** Planning one more position updates just that item and its package's counter. */
  lemma MarkOne(packages: seq<Package>, chosen: seq<Position>, p: Position)
    requires Within(packages, p) && p !in chosen
    ensures var m := Mark(packages, chosen);
            var q := m[p.pkg];
            Mark(packages, chosen + [p])
              == m[p.pkg := q.(planned := q.planned + 1, items := q.items[p.item := q.items[p.item].(planned := true)])]
  {
    forall i | 0 <= i < |packages| && i != p.pkg ensures Mark(packages, chosen + [p])[i] == Mark(packages, chosen)[i] {
      MarkOther(packages, chosen, p, i);
    }
    MarkOwn(packages, chosen, p);
  }

  lemma MarkOther(packages: seq<Package>, chosen: seq<Position>, p: Position, i: nat)
    requires i < |packages| && i != p.pkg
    ensures Mark(packages, chosen + [p])[i] == Mark(packages, chosen)[i]
  {
    CountSnoc(chosen, p, i);
    assert Mark(packages, chosen + [p])[i].items == Mark(packages, chosen)[i].items;
  }

  lemma MarkOwn(packages: seq<Package>, chosen: seq<Position>, p: Position)
    requires Within(packages, p) && p !in chosen
    ensures var q := Mark(packages, chosen)[p.pkg];
      Mark(packages, chosen + [p])[p.pkg]
        == q.(planned := q.planned + 1, items := q.items[p.item := q.items[p.item].(planned := true)])
  {
    CountSnoc(chosen, p, p.pkg);
    var q := Mark(packages, chosen)[p.pkg];
    assert Mark(packages, chosen + [p])[p.pkg].items == q.items[p.item := q.items[p.item].(planned := true)];
  }

  lemma {:induction false} AllPositionsMembers(packages: seq<Package>)
    ensures forall p :: p in AllPositions(packages) <==> Within(packages, p)
    decreases |packages|
  {
    if packages != [] {
      var init, last := packages[..|packages| - 1], packages[|packages| - 1];
      AllPositionsMembers(init);
      var own := PositionsOf(|packages| - 1, |last.items|);
      forall p ensures p in own <==> p.pkg == |packages| - 1 && p.item < |last.items| {
        if p.pkg == |packages| - 1 && p.item < |last.items| {
          assert own[p.item] == p;
        }
      }
    }
  }

  ghost predicate Distinct(ps: seq<Position>)
  {
    forall i, j :: 0 <= i < j < |ps| ==> ps[i] != ps[j]
  }

  lemma {:induction false} AllPositionsDistinct(packages: seq<Package>)
    ensures Distinct(AllPositions(packages))
    decreases |packages|
  {
    if packages != [] {
      var init := packages[..|packages| - 1];
      AllPositionsDistinct(init);
      AllPositionsMembers(init);
      var a, all := AllPositions(init), AllPositions(packages);
      forall i, j | 0 <= i < j < |all| ensures all[i] != all[j] {
        if i < |a| <= j {
          assert a[i] in a;
        }
      }
    }
  }

  lemma {:induction false} PermutationDistinct(a: seq<Position>, b: seq<Position>)
    requires multiset(a) == multiset(b) && Distinct(a)
    ensures Distinct(b)
  {
    forall i, j | 0 <= i < j < |b| ensures b[i] != b[j] {
      DistinctMultiplicity(a, b[i]);
      assert b == b[..i] + [b[i]] + b[i + 1..j] + [b[j]] + b[j + 1..];
      assert multiset(b)[b[i]] >= multiset([b[i]])[b[i]] + multiset([b[j]])[b[i]];
    }
  }

  lemma {:induction false} DistinctMultiplicity(a: seq<Position>, p: Position)
    requires Distinct(a)
    ensures multiset(a)[p] <= 1
    decreases |a|
  {
    if a != [] {
      var init, last := a[..|a| - 1], a[|a| - 1];
      assert a == init + [last];
      DistinctMultiplicity(init, p);
      assert p == last ==> p !in init;
    }
  }

  /** housekeepingReport */
  /** Clearing the flags of one more package. */
  lemma ResetNext(before: seq<Package>, now: seq<Package>, i: nat)
    requires i < |now| == |before| && now[..i] == Mark(before, [])[..i] && now[i..] == before[i..]
    ensures var next := now[i := MarkPackage(now[i], i, [])];
      next[..i + 1] == Mark(before, [])[..i + 1] && next[i + 1..] == before[i + 1..]
    ensures AllPositions(before[..i + 1]) == AllPositions(before[..i]) + PositionsOf(i, |now[i].items|)
  {
    var next := now[i := MarkPackage(now[i], i, [])];
    assert now[i] == before[i] by { assert now[i..][0] == before[i..][0]; }
    assert next[..i] == now[..i] && next[i + 1..] == now[i..][1..] && before[i + 1..] == before[i..][1..];
    assert next[..i + 1] == next[..i] + [next[i]];
    assert Mark(before, [])[..i + 1] == Mark(before, [])[..i] + [Mark(before, [])[i]];
    assert before[..i + 1][..i] == before[..i];
  }

  class Report {
    var packages: seq<Package>

    constructor (packages: seq<Package>)
      ensures this.packages == packages
    {
      this.packages := packages;
    }

    /** Clears every flag and lists every candidate. */
    method ResetPlan() returns (positions: seq<Position>)
      modifies this
      ensures packages == Mark(old(packages), [])
      ensures positions == AllPositions(old(packages))
    {
      positions := [];
      var i := 0;
      while i < |packages|
        invariant 0 <= i <= |packages| == |old(packages)|
        invariant packages[..i] == Mark(old(packages), [])[..i] && packages[i..] == old(packages)[i..]
        invariant positions == AllPositions(old(packages)[..i])
      {
        ResetNext(old(packages), packages, i);
        positions := positions + PositionsOf(i, |packages[i].items|);
        packages := packages[i := MarkPackage(packages[i], i, [])];
        i := i + 1;
      }
      assert old(packages)[..i] == old(packages);
    }

    /** validateTaggedCandidateSafety: one recorded error per package over the cap. */
    method ValidateTaggedCandidateSafety(maxPerPackage: int) returns (problems: seq<nat>)
      modifies this
      ensures problems == [] <==> TaggedSafe(old(packages), maxPerPackage)
      ensures |packages| == |old(packages)| && forall i :: 0 <= i < |packages| ==>
        packages[i] == old(packages)[i].(errors := old(packages)[i].errors
                         + if old(packages)[i].taggedCandidates <= maxPerPackage then 0 else 1)
    {
      problems := [];
      for i := 0 to |packages|
        invariant |packages| == |old(packages)|
        invariant problems == [] <==> forall j :: 0 <= j < i ==> old(packages)[j].taggedCandidates <= maxPerPackage
        invariant forall j :: 0 <= j < |packages| ==>
          packages[j] == old(packages)[j].(errors := old(packages)[j].errors
                           + if j >= i || old(packages)[j].taggedCandidates <= maxPerPackage then 0 else 1)
      {
        var p := packages[i];
        if p.taggedCandidates > maxPerPackage {
          packages := packages[i := p.(errors := p.errors + 1)];
          problems := problems + [i];
        }
      }
    }

    method PlanDeletions(maxPerPackage: int, maxTotal: int) returns (ordered: seq<Position>)
      modifies this
      ensures IsOrdered(old(packages), ordered) && multiset(ordered) == multiset(AllPositions(old(packages)))
      ensures packages == Mark(old(packages), Chosen(ordered, maxPerPackage, maxTotal))
    {
      var positions := ResetPlan();
      AllPositionsMembers(old(packages));
      forall p | p in positions ensures Within(packages, p) {
        MarkKeepsKeys(old(packages), [], p);
      }
      ordered := SortedCandidatePositions(packages, positions);
      OrderUnmarked(old(packages), [], ordered);
      AllPositionsDistinct(old(packages));
      PermutationDistinct(positions, ordered);
      PlanOrdered(old(packages), ordered, maxPerPackage, maxTotal);
    }

    /** Plans one more candidate. */
    method PlanOne(ghost before: seq<Package>, ghost chosen: seq<Position>, p: Position)
      requires packages == Mark(before, chosen) && Within(before, p) && p !in chosen
      modifies this
      ensures packages == Mark(before, chosen + [p])
    {
      MarkOne(before, chosen, p);
      var q := packages[p.pkg];
      packages := packages[p.pkg := q.(planned := q.planned + 1,
                                        items := q.items[p.item := q.items[p.item].(planned := true)])];
    }

    method PlanOrdered(ghost before: seq<Package>, ordered: seq<Position>, maxPerPackage: int, maxTotal: int)
      requires packages == Mark(before, []) && Distinct(ordered)
      requires forall p :: p in ordered ==> Within(before, p)
      modifies this
      ensures packages == Mark(before, Chosen(ordered, maxPerPackage, maxTotal))
    {
      var plannedPerPackage := seq(|packages|, _ => 0);
      var plannedTotal := 0;
      var k := 0;
      ghost var chosen: seq<Position> := [];
      while k < |ordered|
        invariant 0 <= k <= |ordered| && Counts(plannedPerPackage, chosen, |before|)
        invariant chosen == Chosen(ordered[..k], maxPerPackage, maxTotal)
        invariant packages == Mark(before, chosen) && plannedTotal == |chosen|
      {
        if plannedTotal >= maxTotal {
          ChosenStops(ordered, k, maxPerPackage, maxTotal);
          return;
        }
        var p := ordered[k];
        assert p in ordered && ordered[..k + 1] == ordered[..k] + [p];
        ChosenSnoc(ordered[..k], p, maxPerPackage, maxTotal);
        if plannedPerPackage[p.pkg] < maxPerPackage {
          NotYetChosen(ordered, k, maxPerPackage, maxTotal);
          PlanOne(before, chosen, p);
          CountsNext(plannedPerPackage, chosen, |before|, p);
          plannedPerPackage := plannedPerPackage[p.pkg := plannedPerPackage[p.pkg] + 1];
          plannedTotal := plannedTotal + 1;
          chosen := chosen + [p];
        }
        k := k + 1;
      }
      assert ordered[..k] == ordered;
    }

    /**
     * applyDeletionPlan.  `answers[k]` is the registry's answer to the k-th deletion; the
     * deletions made are a prefix of the planned order, counted per package even when the
     * next one fails.
     */
    method ApplyDeletionPlan(answers: seq<bool>) returns (ok: bool, ordered: seq<Position>, made: nat)
      requires |answers| >= |AllPositions(packages)|
      modifies this
      ensures IsOrdered(old(packages), ordered) && multiset(ordered) == multiset(PlannedPositions(old(packages)))
      ensures made <= |ordered| <= |answers| && (forall k :: 0 <= k < made ==> answers[k])
      ensures ok <==> made == |ordered|
      ensures !ok ==> !answers[made]
      ensures packages == AfterDeleting(old(packages), ordered[..made], if ok then [] else [ordered[made]])
    {
      var positions := ListPlanned();
      PlannedMembers(packages);
      ordered := SortedCandidatePositions(packages, positions);
      PermutationLength(ordered, positions);
      PlannedNoMore(packages);
      ok, made := DeleteInOrder(ordered, answers);
    }

    method DeleteInOrder(ordered: seq<Position>, answers: seq<bool>) returns (ok: bool, made: nat)
      requires |ordered| <= |answers| && forall p :: p in ordered ==> p.pkg < |packages|
      modifies this
      ensures made <= |ordered| && (forall k :: 0 <= k < made ==> answers[k])
      ensures ok <==> made == |ordered|
      ensures !ok ==> !answers[made]
      ensures packages == AfterDeleting(old(packages), ordered[..made], if ok then [] else [ordered[made]])
    {
      made := 0;
      AfterNothing(packages);
      while made < |ordered|
        invariant 0 <= made <= |ordered| <= |answers|
        invariant forall k :: 0 <= k < made ==> answers[k]
        invariant packages == AfterDeleting(old(packages), ordered[..made], [])
      {
        var p := ordered[made];
        assert p in ordered;
        if !answers[made] {
          AfterFailure(old(packages), ordered[..made], p);
          packages := packages[p.pkg := packages[p.pkg].(errors := packages[p.pkg].errors + 1)];
          return false, made;
        }
        AfterOne(old(packages), ordered[..made], p);
        assert ordered[..made + 1] == ordered[..made] + [p];
        packages := packages[p.pkg := packages[p.pkg].(deleted := packages[p.pkg].deleted + 1)];
        made := made + 1;
      }
      return true, made;
    }

    method ListPlanned() returns (positions: seq<Position>)
      ensures positions == PlannedPositions(packages)
    {
      positions := [];
      var i := 0;
      while i < |packages|
        invariant 0 <= i <= |packages|
        invariant positions == PlannedPositions(packages[..i])
      {
        var items := packages[i].items;
        var own: seq<Position> := [];
        for j := 0 to |items|
          invariant own == PlannedOf(i, items[..j])
        {
          assert items[..j + 1][..j] == items[..j];
          if items[j].planned {
            own := own + [Position(i, j)];
          }
        }
        assert items[..|items|] == items && packages[..i + 1][..i] == packages[..i];
        positions := positions + own;
        i := i + 1;
      }
      assert packages[..i] == packages;
    }
  }

  ghost predicate Counts(perPackage: seq<int>, chosen: seq<Position>, n: nat)
  {
    |perPackage| == n && forall i :: 0 <= i < n ==> perPackage[i] == CountIn(chosen, i)
  }

  lemma CountsNext(perPackage: seq<int>, chosen: seq<Position>, n: nat, p: Position)
    requires Counts(perPackage, chosen, n) && p.pkg < n
    ensures Counts(perPackage[p.pkg := perPackage[p.pkg] + 1], chosen + [p], n)
  {
    CountOneMore(chosen, p, n);
  }

  // ----- applying a plan

  function PlannedOf(pkg: nat, items: seq<Item>): seq<Position>
  {
    if items == [] then [] else
      PlannedOf(pkg, items[..|items| - 1]) + (if items[|items| - 1].planned then [Position(pkg, |items| - 1)] else [])
  }

  function PlannedPositions(packages: seq<Package>): seq<Position>
  {
    if packages == [] then [] else
      PlannedPositions(packages[..|packages| - 1]) + PlannedOf(|packages| - 1, packages[|packages| - 1].items)
  }

  lemma {:induction false} PlannedOfMembers(pkg: nat, items: seq<Item>)
    ensures forall p :: p in PlannedOf(pkg, items) <==> p.pkg == pkg && p.item < |items| && items[p.item].planned
    ensures |PlannedOf(pkg, items)| <= |items|
    decreases |items|
  {
    if items != [] {
      PlannedOfMembers(pkg, items[..|items| - 1]);
    }
  }

  lemma {:induction false} PlannedMembers(packages: seq<Package>)
    ensures forall p :: p in PlannedPositions(packages) <==> Within(packages, p) && packages[p.pkg].items[p.item].planned
    decreases |packages|
  {
    if packages != [] {
      PlannedMembers(packages[..|packages| - 1]);
      PlannedOfMembers(|packages| - 1, packages[|packages| - 1].items);
    }
  }

  lemma {:induction false} PlannedNoMore(packages: seq<Package>)
    ensures |PlannedPositions(packages)| <= |AllPositions(packages)|
    decreases |packages|
  {
    if packages != [] {
      PlannedNoMore(packages[..|packages| - 1]);
      PlannedOfMembers(|packages| - 1, packages[|packages| - 1].items);
    }
  }

  lemma PermutationLength(a: seq<Position>, b: seq<Position>)
    requires multiset(a) == multiset(b)
    ensures |a| == |b|
  {
    assert |multiset(a)| == |a| && |multiset(b)| == |b|;
  }

  lemma {:induction false} PlannedOfDistinct(pkg: nat, items: seq<Item>)
    ensures Distinct(PlannedOf(pkg, items))
    decreases |items|
  {
    if items != [] {
      PlannedOfDistinct(pkg, items[..|items| - 1]);
      PlannedOfMembers(pkg, items[..|items| - 1]);
    }
  }

  lemma {:induction false} PlannedDistinct(packages: seq<Package>)
    ensures Distinct(PlannedPositions(packages))
    decreases |packages|
  {
    if packages != [] {
      var init, last := packages[..|packages| - 1], packages[|packages| - 1];
      PlannedDistinct(init);
      PlannedMembers(init);
      PlannedOfDistinct(|packages| - 1, last.items);
      PlannedOfMembers(|packages| - 1, last.items);
      DistinctConcat(PlannedPositions(init), PlannedOf(|packages| - 1, last.items));
    }
  }

  lemma DistinctConcat(a: seq<Position>, b: seq<Position>)
    requires Distinct(a) && Distinct(b) && forall p :: p in a ==> p !in b
    ensures Distinct(a + b)
  {
    var all := a + b;
    forall i, j | 0 <= i < j < |all| ensures all[i] != all[j] {
      if i < |a| <= j {
        assert a[i] in a && b[j - |a|] in b;
      }
    }
  }

  /** What applyDeletionPlan finds planned is what planDeletions chose. */
  lemma PlannedAreChosen(packages: seq<Package>, chosen: seq<Position>)
    requires Distinct(chosen) && forall p :: p in chosen ==> Within(packages, p)
    ensures multiset(PlannedPositions(Mark(packages, chosen))) == multiset(chosen)
  {
    var planned := PlannedPositions(Mark(packages, chosen));
    PlannedMembers(Mark(packages, chosen));
    PlannedDistinct(Mark(packages, chosen));
    forall p ensures multiset(planned)[p] == multiset(chosen)[p] {
      DistinctMultiplicity(planned, p);
      DistinctMultiplicity(chosen, p);
      assert p in planned <==> p in chosen;
      assert p in multiset(planned) <==> p in planned;
      assert p in multiset(chosen) <==> p in chosen;
    }
  }

  lemma {:induction false} ChosenDistinct(ps: seq<Position>, maxPerPackage: int, maxTotal: int)
    requires Distinct(ps)
    ensures Distinct(Chosen(ps, maxPerPackage, maxTotal))
    decreases |ps|
  {
    if ps != [] {
      var init, p := ps[..|ps| - 1], ps[|ps| - 1];
      ChosenDistinct(init, maxPerPackage, maxTotal);
      ChosenSubset(init, maxPerPackage, maxTotal);
      DistinctConcat(Chosen(init, maxPerPackage, maxTotal), [p]);
    }
  }

  /**
   * Planning and then applying, in whatever order each of the two sorts left equal keys and
   * wherever the deletions stopped: only chosen candidates are deleted, and both caps hold.
   */
  lemma DeletedWithinCaps(packages: seq<Package>, ordered: seq<Position>, again: seq<Position>, made: nat,
                          maxPerPackage: int, maxTotal: int, pkg: nat)
    requires multiset(ordered) == multiset(AllPositions(packages))
    requires multiset(again) == multiset(PlannedPositions(Mark(packages, Chosen(ordered, maxPerPackage, maxTotal))))
    requires made <= |again|
    ensures forall p :: p in again[..made] ==> p in Chosen(ordered, maxPerPackage, maxTotal)
    ensures made <= Cap(maxTotal) && CountIn(again[..made], pkg) <= Cap(maxPerPackage)
    ensures |again| == Min(Cap(maxTotal), Admissible(packages, maxPerPackage))
  {
    var chosen := Chosen(ordered, maxPerPackage, maxTotal);
    ChosenWithin(packages, ordered, maxPerPackage, maxTotal);
    PlannedAreChosen(packages, chosen);
    PermutationLength(again, chosen);
    ReportPlanSize(packages, ordered, maxPerPackage, maxTotal);
    CountPermutation(again, chosen, InPackage(pkg));
    CountPrefix(again, made, InPackage(pkg));
    ChosenFillsCaps(ordered, maxPerPackage, maxTotal, pkg);
    forall p | p in again[..made] ensures p in chosen {
      assert p in multiset(again);
      assert p in multiset(chosen);
    }
  }

  lemma ChosenWithin(packages: seq<Package>, ordered: seq<Position>, maxPerPackage: int, maxTotal: int)
    requires multiset(ordered) == multiset(AllPositions(packages))
    ensures Distinct(Chosen(ordered, maxPerPackage, maxTotal))
    ensures forall p :: p in Chosen(ordered, maxPerPackage, maxTotal) ==> Within(packages, p)
  {
    AllPositionsDistinct(packages);
    PermutationDistinct(AllPositions(packages), ordered);
    ChosenDistinct(ordered, maxPerPackage, maxTotal);
    ChosenSubset(ordered, maxPerPackage, maxTotal);
    AllPositionsMembers(packages);
    forall p | p in ordered ensures Within(packages, p) {
      assert p in multiset(ordered);
      assert p in multiset(AllPositions(packages));
      assert p in AllPositions(packages);
    }
  }

  /** The report after the given deletions, and after the given failures. */
  function AfterDeleting(packages: seq<Package>, deleted: seq<Position>, failed: seq<Position>): (r: seq<Package>)
    ensures |r| == |packages|
    ensures forall i :: 0 <= i < |r| ==> r[i] == packages[i].(
              deleted := packages[i].deleted + CountIn(deleted, i), errors := packages[i].errors + CountIn(failed, i))
  {
    seq(|packages|, i requires 0 <= i < |packages| => packages[i].(
      deleted := packages[i].deleted + CountIn(deleted, i), errors := packages[i].errors + CountIn(failed, i)))
  }

  lemma AfterNothing(packages: seq<Package>)
    ensures AfterDeleting(packages, [], []) == packages
  {}

  lemma AfterOne(packages: seq<Package>, deleted: seq<Position>, p: Position)
    requires p.pkg < |packages|
    ensures var r := AfterDeleting(packages, deleted, []);
      AfterDeleting(packages, deleted + [p], []) == r[p.pkg := r[p.pkg].(deleted := r[p.pkg].deleted + 1)]
  {
    CountOneMore(deleted, p, |packages|);
  }

  lemma AfterFailure(packages: seq<Package>, deleted: seq<Position>, p: Position)
    requires p.pkg < |packages|
    ensures var r := AfterDeleting(packages, deleted, []);
      AfterDeleting(packages, deleted, [p]) == r[p.pkg := r[p.pkg].(errors := r[p.pkg].errors + 1)]
  {
    CountOneMore([], p, |packages|);
    assert [] + [p] == [p];
  }

  lemma CountOneMore(chosen: seq<Position>, p: Position, n: nat)
    ensures forall i :: 0 <= i < n ==> CountIn(chosen + [p], i) == CountIn(chosen, i) + (if p.pkg == i then 1 else 0)
  {
    forall i | 0 <= i < n ensures CountIn(chosen + [p], i) == CountIn(chosen, i) + (if p.pkg == i then 1 else 0) {
      CountSnoc(chosen, p, i);
    }
  }

  // ----- what the plan of a report amounts to

  lemma {:induction false} PositionsCount(i: nat, n: nat, pkg: nat)
    ensures CountIn(PositionsOf(i, n), pkg) == if i == pkg then n else 0
    decreases n
  {
    if n > 0 {
      assert PositionsOf(i, n)[..n - 1] == PositionsOf(i, n - 1);
      PositionsCount(i, n - 1, pkg);
    }
  }

  lemma {:induction false} AllPositionsCount(packages: seq<Package>, pkg: nat)
    ensures CountIn(AllPositions(packages), pkg) == if pkg < |packages| then |packages[pkg].items| else 0
    decreases |packages|
  {
    if packages != [] {
      var init, last := packages[..|packages| - 1], packages[|packages| - 1];
      AllPositionsCount(init, pkg);
      PositionsCount(|packages| - 1, |last.items|, pkg);
      CountConcat(AllPositions(init), PositionsOf(|packages| - 1, |last.items|), InPackage(pkg));
    }
  }

  /** The sum over packages of min(maxPerPackage, candidates). */
  function Admissible(packages: seq<Package>, maxPerPackage: int): nat
  {
    if packages == [] then 0 else
      Admissible(packages[..|packages| - 1], maxPerPackage)
      + Min(Cap(maxPerPackage), |packages[|packages| - 1].items|)
  }

  lemma {:induction false} BudgetOfReport(packages: seq<Package>, ps: seq<Position>, maxPerPackage: int, n: nat)
    requires n <= |packages| && forall i :: 0 <= i < n ==> CountIn(ps, i) == |packages[i].items|
    ensures Budget(ps, maxPerPackage, n) == Admissible(packages[..n], maxPerPackage)
    decreases n
  {
    if n > 0 {
      assert packages[..n][..n - 1] == packages[..n - 1];
      BudgetOfReport(packages, ps, maxPerPackage, n - 1);
    }
  }

  /**
   * The plan is maximum: it holds min(maxTotal, sum over packages of min(maxPerPackage,
   * candidates)) candidates, whichever ordered permutation the sort produced.
   */
  lemma ReportPlanSize(packages: seq<Package>, ordered: seq<Position>, maxPerPackage: int, maxTotal: int)
    requires multiset(ordered) == multiset(AllPositions(packages))
    ensures |Chosen(ordered, maxPerPackage, maxTotal)| == Min(Cap(maxTotal), Admissible(packages, maxPerPackage))
  {
    AllPositionsMembers(packages);
    forall p | p in ordered ensures p.pkg < |packages| {
      assert p in multiset(ordered);
      assert p in multiset(AllPositions(packages));
      assert p in AllPositions(packages);
    }
    forall i | 0 <= i < |packages| ensures CountIn(ordered, i) == |packages[i].items| {
      CountPermutation(ordered, AllPositions(packages), InPackage(i));
      AllPositionsCount(packages, i);
    }
    BudgetOfReport(packages, ordered, maxPerPackage, |packages|);
    assert packages[..|packages|] == packages;
    PlanSize(ordered, maxPerPackage, maxTotal, |packages|);
  }

  /** The report counts its tagged candidates correctly. */
  ghost predicate TaggedCounted(packages: seq<Package>)
  {
    forall i :: 0 <= i < |packages| ==>
      packages[i].taggedCandidates == CountIf(AllPositions(packages), IsTaggedIn(packages, i))
  }

  ghost predicate TaggedSafe(packages: seq<Package>, maxPerPackage: int)
  {
    forall i :: 0 <= i < |packages| ==> packages[i].taggedCandidates <= maxPerPackage
  }

  /** A report that passes the tagged safety check loses no tagged candidate to the caps. */
  lemma TaggedCandidatesAllPlanned(packages: seq<Package>, ordered: seq<Position>, maxPerPackage: int, maxTotal: int, p: Position)
    requires IsOrdered(packages, ordered) && multiset(ordered) == multiset(AllPositions(packages))
    requires TaggedCounted(packages) && TaggedSafe(packages, maxPerPackage)
    requires CountIf(AllPositions(packages), IsTagged(packages)) <= maxTotal
    requires IsTagged(packages)(p)
    ensures p in Chosen(ordered, maxPerPackage, maxTotal)
  {
    AllPositionsMembers(packages);
    assert p in multiset(AllPositions(packages));
    assert p in ordered;
    var k :| 0 <= k < |ordered| && ordered[k] == p;
    CountPermutation(ordered, AllPositions(packages), IsTagged(packages));
    CountPermutation(ordered, AllPositions(packages), IsTaggedIn(packages, p.pkg));
    TaggedAllPlanned(packages, ordered, maxPerPackage, maxTotal, k);
  }

  lemma NotYetChosen(ordered: seq<Position>, k: nat, maxPerPackage: int, maxTotal: int)
    requires Distinct(ordered) && k < |ordered|
    ensures ordered[k] !in Chosen(ordered[..k], maxPerPackage, maxTotal)
  {
    ChosenSubset(ordered[..k], maxPerPackage, maxTotal);
  }

  /** Once the total cap is reached nothing more is chosen. */
  lemma {:induction false} ChosenStops(ordered: seq<Position>, k: nat, maxPerPackage: int, maxTotal: int)
    requires k <= |ordered| && |Chosen(ordered[..k], maxPerPackage, maxTotal)| >= maxTotal
    ensures Chosen(ordered, maxPerPackage, maxTotal) == Chosen(ordered[..k], maxPerPackage, maxTotal)
    decreases |ordered| - k
  {
    if k == |ordered| {
      assert ordered[..k] == ordered;
    } else {
      assert ordered[..k + 1] == ordered[..k] + [ordered[k]];
      ChosenSnoc(ordered[..k], ordered[k], maxPerPackage, maxTotal);
      ChosenStops(ordered, k + 1, maxPerPackage, maxTotal);
    }
  }

  lemma OrderUnmarked(packages: seq<Package>, chosen: seq<Position>, ps: seq<Position>)
    ensures IsOrdered(Mark(packages, chosen), ps) <==> IsOrdered(packages, ps)
  {
    forall p ensures Within(Mark(packages, chosen), p) <==> Within(packages, p) {
      MarkKeepsKeys(packages, chosen, p);
    }
    forall p | Within(packages, p) ensures KeyOf(Mark(packages, chosen), p) == KeyOf(packages, p) {
      MarkKeepsKeys(packages, chosen, p);
    }
  }
}
