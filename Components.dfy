/**
 * Turning the connected components of a cloud into clouds
 * (createComponentsClouds_): the components are optionally visited from the
 * largest to the smallest; each large enough component becomes a cloud named
 * "CC#k", and the small ones are gathered into one residual selection.
 */
module Components {
  import opened Wrappers
  import opened ObjectGraph

  // ---------------------------------------------------------------------------
  // Ordering the components by size
  // ---------------------------------------------------------------------------

  /** A component's position among the components, and its number of points. */
  datatype ComponentIndexAndSize = ComponentIndexAndSize(index: nat, size: nat)

  /** `a` comes before `b` when it is strictly larger. */
  predicate DescendingCompOperator(a: ComponentIndexAndSize, b: ComponentIndexAndSize) {
    a.size > b.size
  }

  /** The comparator is a strict weak order, as sorting requires: equal sizes are the tied ones. */
  lemma DescendingIsStrictWeakOrder(a: ComponentIndexAndSize, b: ComponentIndexAndSize, c: ComponentIndexAndSize)
    ensures !DescendingCompOperator(a, a)
    ensures DescendingCompOperator(a, b) ==> !DescendingCompOperator(b, a)
    ensures DescendingCompOperator(a, b) && DescendingCompOperator(b, c) ==> DescendingCompOperator(a, c)
    ensures (!DescendingCompOperator(a, b) && !DescendingCompOperator(b, a)) <==> a.size == b.size
  {
  }

  /** No entry comes strictly before an earlier one: sizes never increase. */
  ghost predicate SortedDescending(s: seq<ComponentIndexAndSize>) {
    forall i, j :: 0 <= i < j < |s| ==> !DescendingCompOperator(s[j], s[i])
  }

  /** Inserts `x` before the first entry it does not come after. */
  function Insert(x: ComponentIndexAndSize, s: seq<ComponentIndexAndSize>): seq<ComponentIndexAndSize> {
    if s == [] || DescendingCompOperator(x, s[0]) then [x] + s else [s[0]] + Insert(x, s[1..])
  }

  /** Inserting adds exactly `x`. */
  lemma {:induction false} InsertMembers(x: ComponentIndexAndSize, s: seq<ComponentIndexAndSize>)
    ensures multiset(Insert(x, s)) == multiset(s) + multiset{x}
    ensures |Insert(x, s)| == |s| + 1
    ensures Insert(x, s)[0] == x || Insert(x, s)[0] == s[0]
  {
    if s != [] && !DescendingCompOperator(x, s[0]) {
      InsertMembers(x, s[1..]);
      assert s == [s[0]] + s[1..];
    }
  }

  /** Inserting into a sorted sequence keeps it sorted and adds exactly `x`. */
  lemma {:induction false} InsertSorted(x: ComponentIndexAndSize, s: seq<ComponentIndexAndSize>)
    requires SortedDescending(s)
    ensures SortedDescending(Insert(x, s))
    ensures multiset(Insert(x, s)) == multiset(s) + multiset{x}
  {
    InsertMembers(x, s);
    if s != [] && !DescendingCompOperator(x, s[0]) {
      var tail := s[1..];
      InsertSorted(x, tail);
      InsertMembers(x, tail);
      var r, r' := Insert(x, s), Insert(x, tail);
      assert r == [s[0]] + r';
      assert r'[0] == x || r'[0] == s[1];
      forall i, j | 0 <= i < j < |r|
        ensures !DescendingCompOperator(r[j], r[i])
      {
        if i == 0 && j > 1 {
          assert r[j] == r'[j - 1];
          assert !DescendingCompOperator(r'[j - 1], r'[0]);
        }
      }
    }
  }

  /**
   * The entries sorted by inserting them one after the other, from the
   * first: a sort that keeps its promise, which shows that such sorts exist.
   */
  function SortBySize(entries: seq<ComponentIndexAndSize>): (r: seq<ComponentIndexAndSize>)
    ensures SortedDescending(r)
    ensures multiset(r) == multiset(entries)
  {
    if entries == [] then []
    else
      var sorted := SortBySize(entries[..|entries| - 1]);
      InsertLast(entries, sorted);
      Insert(entries[|entries| - 1], sorted)
  }

  /** Inserting the last entry into the sorted other entries sorts all of them. */
  lemma InsertLast(entries: seq<ComponentIndexAndSize>, sorted: seq<ComponentIndexAndSize>)
    requires entries != [] && SortedDescending(sorted) && multiset(sorted) == multiset(entries[..|entries| - 1])
    ensures SortedDescending(Insert(entries[|entries| - 1], sorted))
    ensures multiset(Insert(entries[|entries| - 1], sorted)) == multiset(entries)
  {
    InsertSorted(entries[|entries| - 1], sorted);
    assert entries == entries[..|entries| - 1] + [entries[|entries| - 1]];
  }

  /** What ParallelSort with DescendingCompOperator promises: non-increasing sizes, and the same entries. */
  ghost predicate SortsBySize(sort: seq<ComponentIndexAndSize> -> seq<ComponentIndexAndSize>) {
    forall entries :: SortedDescending(sort(entries)) && multiset(sort(entries)) == multiset(entries)
  }

  /**
   * The library's ParallelSort as a parameter: any sort that keeps that
   * promise. The order it gives equal-sized entries is left open.
   */
  type SizeSort = sort: seq<ComponentIndexAndSize> -> seq<ComponentIndexAndSize> | SortsBySize(sort)
    witness SortBySize

  // ---------------------------------------------------------------------------
  // Names of the component clouds
  // ---------------------------------------------------------------------------

  function Digit(d: nat): char
    requires d < 10
  {
    "0123456789"[d]
  }

  /** The decimal writing of `n`, as QString::arg writes it. */
  function Decimal(n: nat): (r: string)
    ensures |r| > 0 && (|r| == 1 <==> n < 10)
  {
    if n < 10 then [Digit(n)] else Decimal(n / 10) + [Digit(n % 10)]
  }

  /** Different numbers are written differently. */
  lemma {:induction false} DecimalInjective(a: nat, b: nat)
    requires Decimal(a) == Decimal(b)
    ensures a == b
  {
    if a >= 10 && b >= 10 {
      var da, db := Decimal(a), Decimal(b);
      assert da[..|da| - 1] == Decimal(a / 10);
      assert db[..|db| - 1] == Decimal(b / 10);
      DecimalInjective(a / 10, b / 10);
      assert Digit(a % 10) == da[|da| - 1] == Digit(b % 10);
    }
  }

  /** The name of the k-th component cloud created. */
  function ComponentName(k: nat): string {
    "CC#" + Decimal(k)
  }

  lemma ComponentNamesDistinct(a: nat, b: nat)
    requires a != b
    ensures ComponentName(a) != ComponentName(b)
  {
    if ComponentName(a) == ComponentName(b) {
      assert ComponentName(a)[3..] == Decimal(a);
      assert ComponentName(b)[3..] == Decimal(b);
      DecimalInjective(a, b);
    }
  }

  // ---------------------------------------------------------------------------
  // What the components become
  // ---------------------------------------------------------------------------

  /** A component: the indices of its points in the cloud (a ReferenceCloud). */
  type Component = seq<nat>

  /** The library calls the materialisation depends on, as parameters. */
  datatype ComponentsLibrary = ComponentsLibrary(
    sortAllocOk: bool,                          // whether the sort buffer can be reserved
    sort: SizeSort,                             // ParallelSort with DescendingCompOperator
    partialClone: (Entity, seq<nat>) -> Option<Entity>)  // ccPointCloud::partialClone of a selection

  /** Visits `order` are indices of components, each once: a reordering of 0 .. n - 1. */
  ghost predicate IsVisitOrder(order: seq<nat>, n: nat) {
    |order| == n && (forall i :: 0 <= i < n ==> order[i] < n) &&
    forall i, j :: 0 <= i < j < n ==> order[i] != order[j]
  }

  function Range(n: nat): (r: seq<nat>)
    ensures |r| == n && forall i :: 0 <= i < n ==> r[i] == i
  {
    seq(n, i => i)
  }

  /**
   * The component clouds made while visiting `order`, the first one named
   * "CC#" followed by `nb`: each component with at least `minPoints` points
   * whose clone succeeds.
   */
  function Materialised(cloud: Entity, components: seq<Component>, order: seq<nat>, minPoints: nat,
                        partialClone: (Entity, seq<nat>) -> Option<Entity>, nb: nat): seq<Entity>
    requires forall i :: 0 <= i < |order| ==> order[i] < |components|
  {
    if order == [] then []
    else
      var comp := components[order[0]];
      var clone := partialClone(cloud, comp);
      if |comp| >= minPoints && clone.Some? then
        [clone.value.(name := ComponentName(nb))] + Materialised(cloud, components, order[1..], minPoints, partialClone, nb + 1)
      else
        Materialised(cloud, components, order[1..], minPoints, partialClone, nb)
  }

  /** The number of components of `order` with at least `minPoints` points. */
  function LargeCount(components: seq<Component>, order: seq<nat>, minPoints: nat): nat
    requires forall i :: 0 <= i < |order| ==> order[i] < |components|
  {
    if order == [] then 0
    else (if |components[order[0]]| >= minPoints then 1 else 0) + LargeCount(components, order[1..], minPoints)
  }

  /**
   * The component clouds are named "CC#nb", "CC#nb+1", ... with no gap; each
   * is the clone of a large enough component in visit order; there are at
   * most as many as large components, and exactly as many when no clone fails.
   */
  lemma {:induction false} MaterialisedNamesAndCount(cloud: Entity, components: seq<Component>, order: seq<nat>,
                                                     minPoints: nat, partialClone: (Entity, seq<nat>) -> Option<Entity>, nb: nat)
    requires forall i :: 0 <= i < |order| ==> order[i] < |components|
    ensures var r := Materialised(cloud, components, order, minPoints, partialClone, nb);
      && (forall k :: 0 <= k < |r| ==> r[k].name == ComponentName(nb + k))
      && |r| <= LargeCount(components, order, minPoints)
      && ((forall i :: 0 <= i < |order| && |components[order[i]]| >= minPoints ==>
             partialClone(cloud, components[order[i]]).Some?) ==>
          |r| == LargeCount(components, order, minPoints))
  {
    if order != [] {
      MaterialisedNamesAndCount(cloud, components, order[1..], minPoints, partialClone, nb + 1);
      MaterialisedNamesAndCount(cloud, components, order[1..], minPoints, partialClone, nb);
      var r := Materialised(cloud, components, order, minPoints, partialClone, nb);
      var comp := components[order[0]];
      if |comp| >= minPoints && partialClone(cloud, comp).Some? {
        var tail := Materialised(cloud, components, order[1..], minPoints, partialClone, nb + 1);
        forall k | 0 <= k < |r|
          ensures r[k].name == ComponentName(nb + k)
        {
          if k > 0 {
            assert r[k] == tail[k - 1];
          }
        }
      }
    }
  }

  /**
   * The residual selection as written: for each small component, the
   * positions 0 .. size - 1 within the component, not the indices of its points.
   */
  function ResidualAsWritten(components: seq<Component>, order: seq<nat>, minPoints: nat): seq<nat>
    requires forall i :: 0 <= i < |order| ==> order[i] < |components|
  {
    if order == [] then []
    else
      var comp := components[order[0]];
      (if |comp| < minPoints then Range(|comp|) else []) + ResidualAsWritten(components, order[1..], minPoints)
  }

  /** The residual selection intended: the points of the small components. */
  function ResidualIndices(components: seq<Component>, order: seq<nat>, minPoints: nat): seq<nat>
    requires forall i :: 0 <= i < |order| ==> order[i] < |components|
  {
    if order == [] then []
    else
      var comp := components[order[0]];
      (if |comp| < minPoints then comp else []) + ResidualIndices(components, order[1..], minPoints)
  }

  /** The number of points of the components of `order` with fewer than `minPoints` points. */
  function SmallPoints(components: seq<Component>, order: seq<nat>, minPoints: nat): nat
    requires forall i :: 0 <= i < |order| ==> order[i] < |components|
  {
    if order == [] then 0
    else (if |components[order[0]]| < minPoints then |components[order[0]]| else 0) + SmallPoints(components, order[1..], minPoints)
  }

  /** Either way, each small component adds exactly its size to the residual selection. */
  lemma {:induction false} ResidualSizes(components: seq<Component>, order: seq<nat>, minPoints: nat)
    requires forall i :: 0 <= i < |order| ==> order[i] < |components|
    ensures |ResidualAsWritten(components, order, minPoints)| == SmallPoints(components, order, minPoints)
    ensures |ResidualIndices(components, order, minPoints)| == SmallPoints(components, order, minPoints)
  {
    if order != [] {
      ResidualSizes(components, order[1..], minPoints);
    }
  }

  /** The intended residual holds exactly the points of the small components. */
  lemma {:induction false} ResidualIndicesAreSmallPoints(components: seq<Component>, order: seq<nat>, minPoints: nat, p: nat)
    requires forall i :: 0 <= i < |order| ==> order[i] < |components|
    ensures p in ResidualIndices(components, order, minPoints) <==>
      exists i :: 0 <= i < |order| && |components[order[i]]| < minPoints && p in components[order[i]]
  {
    if order != [] {
      ResidualIndicesAreSmallPoints(components, order[1..], minPoints, p);
      if exists i :: 0 <= i < |order| && |components[order[i]]| < minPoints && p in components[order[i]] {
        var i :| 0 <= i < |order| && |components[order[i]]| < minPoints && p in components[order[i]];
        if i > 0 {
          assert order[1..][i - 1] == order[i];
        }
      }
      if exists i :: 0 <= i < |order| - 1 && |components[order[1..][i]]| < minPoints && p in components[order[1..][i]] {
        var i :| 0 <= i < |order| - 1 && |components[order[1..][i]]| < minPoints && p in components[order[1..][i]];
        assert order[1..][i] == order[i + 1];
      }
    }
  }

  /**
   * The residual as written selects points that belong to no small
   * component: with a large component {0, 1, 2} and small ones {3} and {4},
   * it selects point 0 twice instead of points 3 and 4.
   */
  lemma ResidualUsesLocalIndices()
    ensures ResidualAsWritten([[0, 1, 2], [3], [4]], [0, 1, 2], 2) == [0, 0]
    ensures ResidualIndices([[0, 1, 2], [3], [4]], [0, 1, 2], 2) == [3, 4]
  {
    var cs: seq<Component> := [[0, 1, 2], [3], [4]];
    assert [0, 1, 2][1..] == [1, 2];
    assert [0, 1, 2][1..][1..] == [2];
    assert Range(1) == [0];
    assert ResidualAsWritten(cs, [2], 2) == [0];
    assert ResidualIndices(cs, [2], 2) == [4];
  }

  /** The indices in the order the entries give them. */
  function Indices(entries: seq<ComponentIndexAndSize>): (r: seq<nat>)
    ensures |r| == |entries| && forall i :: 0 <= i < |entries| ==> r[i] == entries[i].index
  {
    seq(|entries|, i requires 0 <= i < |entries| => entries[i].index)
  }

  /** Sorting the entries (i, size of component i) gives a visit order by non-increasing size. */
  lemma SortedEntriesGiveVisitOrder(components: seq<Component>, entries: seq<ComponentIndexAndSize>,
                                    sorted: seq<ComponentIndexAndSize>)
    requires entries == SizeEntries(components)
    requires SortedDescending(sorted) && multiset(sorted) == multiset(entries)
    ensures IsVisitOrder(Indices(sorted), |components|)
    ensures forall i, j :: 0 <= i < j < |sorted| ==> |components[Indices(sorted)[i]]| >= |components[Indices(sorted)[j]]|
  {
    var n := |components|;
    assert |sorted| == n by {
      assert |multiset(sorted)| == |multiset(entries)|;
    }
    forall i | 0 <= i < n
      ensures sorted[i].index < n && sorted[i] == ComponentIndexAndSize(sorted[i].index, |components[sorted[i].index]|)
    {
      assert sorted[i] in multiset(entries);
    }
    forall i, j | 0 <= i < j < n
      ensures sorted[i].index != sorted[j].index
    {
      var e := sorted[j].index;
      forall k | 0 <= k < n && k != e
        ensures entries[k] != entries[e]
      {
      }
      DistinctCount(entries, e);
      OnceMeansDistinct(sorted, i, j);
    }
  }

  /** An entry that differs from every other entry of `s` occurs once. */
  lemma {:induction false} DistinctCount(s: seq<ComponentIndexAndSize>, e: nat)
    requires e < |s| && forall k :: 0 <= k < |s| && k != e ==> s[k] != s[e]
    ensures multiset(s)[s[e]] == 1
  {
    assert s == s[..e] + [s[e]] + s[e + 1..];
    assert s[e] !in s[..e];
    assert s[e] !in s[e + 1..];
  }

  /** An entry that occurs once differs from every earlier entry. */
  lemma OnceMeansDistinct(s: seq<ComponentIndexAndSize>, i: nat, j: nat)
    requires i < j < |s| && multiset(s)[s[j]] == 1
    ensures s[i] != s[j]
  {
    assert s == s[..j] + s[j..];
    assert s[i] in s[..j];
    assert s[j..][0] == s[j];
  }

  /** The entries (i, size of component i), in the components' order. */
  function SizeEntries(components: seq<Component>): (r: seq<ComponentIndexAndSize>)
    ensures |r| == |components|
    ensures forall i :: 0 <= i < |components| ==> r[i] == ComponentIndexAndSize(i, |components[i]|)
  {
    seq(|components|, i requires 0 <= i < |components| => ComponentIndexAndSize(i, |components[i]|))
  }

  /** Fills the sort buffer with (i, size of component i), in the components' order. */
  method FillSortEntries(components: seq<Component>) returns (entries: seq<ComponentIndexAndSize>)
    ensures entries == SizeEntries(components)
  {
    entries := [];
    for i := 0 to |components|
      invariant entries == SizeEntries(components[..i])
    {
      assert components[..i + 1][..i] == components[..i];
      entries := entries + [ComponentIndexAndSize(i, |components[i]|)];
    }
    assert components[..|components|] == components;
  }

  /**
   * The order the components are visited in: by non-increasing size when
   * sorting, otherwise their own order; either way each component once.
   */
  function VisitOrder(components: seq<Component>, bySize: bool, sort: SizeSort): (r: seq<nat>)
    ensures IsVisitOrder(r, |components|) && InComponents(r, |components|)
    ensures bySize ==> forall i, j :: 0 <= i < j < |r| ==> |components[r[i]]| >= |components[r[j]]|
    ensures !bySize ==> r == Range(|components|)
  {
    if bySize then
      var entries := SizeEntries(components);
      SortedEntriesGiveVisitOrder(components, entries, sort(entries));
      Indices(sort(entries))
    else Range(|components|)
  }

  /** Whether `order` only names components. */
  predicate InComponents(order: seq<nat>, n: nat) {
    forall k :: 0 <= k < |order| ==> order[k] < n
  }

  /** Appends the positions 0 .. size - 1 of a small component to the residual selection. */
  method AppendPositions(refCloud: seq<nat>, size: nat) returns (r: seq<nat>)
    ensures r == refCloud + Range(size)
  {
    r := refCloud;
    for k := 0 to size
      invariant r == refCloud + Range(k)
    {
      r := r + [k];
    }
  }

  /** After visiting the first `i` components of `order`: what is made so far, and the next name. */
  ghost predicate VisitedSoFar(pc: Entity, components: seq<Component>, order: seq<nat>, minPoints: nat,
                               partialClone: (Entity, seq<nat>) -> Option<Entity>,
                               i: nat, resultClouds: seq<Entity>, nbComp: nat, refCloud: seq<nat>)
    requires i <= |order| && InComponents(order, |components|)
  {
    && resultClouds + Materialised(pc, components, order[i..], minPoints, partialClone, nbComp)
         == Materialised(pc, components, order, minPoints, partialClone, 0)
    && refCloud + ResidualAsWritten(components, order[i..], minPoints)
         == ResidualAsWritten(components, order, minPoints)
  }

  /** Visiting component `order[i]` extends what is made by what it contributes. */
  lemma VisitStep(pc: Entity, components: seq<Component>, order: seq<nat>, minPoints: nat,
                  partialClone: (Entity, seq<nat>) -> Option<Entity>,
                  i: nat, resultClouds: seq<Entity>, nbComp: nat, refCloud: seq<nat>)
    requires i < |order| && InComponents(order, |components|)
    requires VisitedSoFar(pc, components, order, minPoints, partialClone, i, resultClouds, nbComp, refCloud)
    ensures var comp := components[order[i]];
      var made := |comp| >= minPoints && partialClone(pc, comp).Some?;
      VisitedSoFar(pc, components, order, minPoints, partialClone, i + 1,
                   if made then resultClouds + [partialClone(pc, comp).value.(name := ComponentName(nbComp))] else resultClouds,
                   if made then nbComp + 1 else nbComp,
                   if |comp| < minPoints then refCloud + Range(|comp|) else refCloud)
  {
    assert order[i..][1..] == order[i + 1..];
  }

  /**
   * Visits the components in the order the sort gave (or their own), creating
   * the "CC#k" cloud of each large enough one and gathering the small ones.
   */
  method VisitComponents(pc: Entity, components: seq<Component>, sortedIndexes: seq<ComponentIndexAndSize>,
                         sorted: bool, minPointsPerComponent: nat, lib: ComponentsLibrary)
    returns (resultClouds: seq<Entity>, refCloud: seq<nat>)
    requires sorted ==> sortedIndexes == lib.sort(SizeEntries(components))
    ensures var order := VisitOrder(components, sorted, lib.sort);
      && resultClouds == Materialised(pc, components, order, minPointsPerComponent, lib.partialClone, 0)
      && refCloud == ResidualAsWritten(components, order, minPointsPerComponent)
  {
    ghost var order := VisitOrder(components, sorted, lib.sort);
    resultClouds, refCloud := [], [];
    var nbComp := 0;
    for i := 0 to |components|
      invariant VisitedSoFar(pc, components, order, minPointsPerComponent, lib.partialClone, i, resultClouds, nbComp, refCloud)
    {
      VisitStep(pc, components, order, minPointsPerComponent, lib.partialClone, i, resultClouds, nbComp, refCloud);
      var compIndexes := if sorted then components[sortedIndexes[i].index] else components[i];
      assert compIndexes == components[order[i]];
      if |compIndexes| >= minPointsPerComponent {
        var compCloud := lib.partialClone(pc, compIndexes);
        if compCloud.Some? {
          // random colour and global shift are not modelled
          resultClouds := resultClouds + [compCloud.value.(name := ComponentName(nbComp))];
          nbComp := nbComp + 1;
        }
      } else {
        // regroup all small chunks in one entity
        refCloud := AppendPositions(refCloud, |compIndexes|);
      }
    }
    assert order[|components|..] == [];
  }

  /**
   * Creates the clouds of the components of `cloud` (createComponentsClouds_).
   * Nothing is created without a cloud or without components. With
   * `sortBySize` (and when the sort buffer can be reserved) the components are
   * visited by non-increasing size, otherwise in their own order. A component
   * with at least `minPointsPerComponent` points whose clone succeeds becomes
   * the next "CC#k" cloud; the positions of the points of smaller ones are
   * gathered into one selection, whose clone is the single residual.
   */
  method CreateComponentsClouds(cloud: Option<Entity>, components: seq<Component>, minPointsPerComponent: nat,
                                randomColors: bool, sortBySize: bool, lib: ComponentsLibrary)
    returns (resultClouds: seq<Entity>, residualClouds: seq<Option<Entity>>)
    ensures cloud.None? || components == [] ==> resultClouds == [] && residualClouds == []
    ensures cloud.Some? && components != [] ==>
      var order := VisitOrder(components, sortBySize && lib.sortAllocOk, lib.sort);
      && resultClouds == Materialised(cloud.value, components, order, minPointsPerComponent, lib.partialClone, 0)
      && residualClouds == [lib.partialClone(cloud.value, ResidualAsWritten(components, order, minPointsPerComponent))]
  {
    resultClouds, residualClouds := [], [];
    if cloud.None? || |components| == 0 {
      return;
    }
    var pc := cloud.value;
    var sorted := sortBySize && lib.sortAllocOk;
    var sortedIndexes: seq<ComponentIndexAndSize> := [];
    if sorted {
      sortedIndexes := FillSortEntries(components);
      sortedIndexes := lib.sort(sortedIndexes);
    }
    var refCloud;
    resultClouds, refCloud := VisitComponents(pc, components, sortedIndexes, sorted, minPointsPerComponent, lib);
    residualClouds := [lib.partialClone(pc, refCloud)];
  }
}
