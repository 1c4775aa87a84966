/**
 * The connected-components driver (ExtractConnectedComponents_py): each plain
 * point cloud among the entities is labelled by the library, its components
 * counted against a global maximum and turned into clouds; the label field
 * used for the labelling is removed again.
 */
module ConnectedComponents {
  import opened Wrappers
  import opened ObjectGraph
  import opened Components

  /** The scalar field the labelling writes the component of each point to. */
  const LabelFieldName: string := "CC labels"

  /** A C++ `int` parameter. */
  newtype Int32 = x: int | -0x8000_0000 <= x < 0x8000_0000

  /** The conversion of an `int` to `unsigned` (modulo 2^32) that comparing it with a size performs. */
  function AsUnsigned(v: Int32): (r: nat)
    ensures r < 0x1_0000_0000
    ensures v >= 0 ==> r == v as int
    ensures v < 0 ==> r >= 0x8000_0000
  {
    if v < 0 then v as int + 0x1_0000_0000 else v as int
  }

  /** The conversion of an `int` to `unsigned char` (modulo 256) the octree level undergoes. */
  function AsOctreeLevel(v: Int32): (r: nat)
    ensures r < 256 && (0 <= v < 256 ==> r == v as int)
  {
    (v as int) % 256
  }

  /** What the library does with one cloud. */
  datatype Labelling = Labelling(
    octreeOk: bool,              // the cloud has an octree or one can be computed
    labelFieldAllocOk: bool,     // a missing label field can be added
    componentCount: int,         // labelConnectedComponents: negative on failure
    components: seq<Component>)  // what extractConnectedComponents fills in

  /** The library calls the driver depends on, as parameters. */
  datatype ExtractionLibrary = ExtractionLibrary(
    labelCloud: (Entity, nat) -> Labelling,  // labelling of a cloud at an octree level
    clouds: ComponentsLibrary)

  /** The three call arguments that shape the result. */
  datatype Params = Params(octreeLevel: Int32, minComponentSize: Int32, maxNumberComponents: Int32)

  /** What the call returns: a pair when there are too many components, otherwise a triple. */
  datatype Extraction =
    | Triple(nbCloudDone: nat, resultComponents: seq<Entity>, residualComponents: seq<Option<Entity>>)
    | Pair(nbCloudDone: nat, resultComponents: seq<Entity>)

  /** The components a labelling yields: none when labelling failed. */
  function Extracted(lab: Labelling): seq<Component> {
    if lab.componentCount >= 0 then lab.components else []
  }

  /** The number of components of `components` with at least `minPoints` points. */
  function CountLarge(components: seq<Component>, minPoints: nat): nat {
    LargeCount(components, Range(|components|), minPoints)
  }

  /** A cloud once its label field has been deleted. */
  function WithoutLabels(c: Entity): (r: Entity)
    ensures LabelFieldName !in r.fields && r.fields <= c.fields && r.fields + {LabelFieldName} >= c.fields
    ensures r == c.(fields := r.fields)
  {
    c.(fields := c.fields - {LabelFieldName})
  }

  datatype Status = Running | Stopped | TooMany

  /**
   * The driver's state after some clouds: whether it goes on, the clouds
   * done, the large components counted, what was created, and the clouds as
   * they are now.
   */
  datatype ScanState = ScanState(status: Status, nbCloudDone: nat, realComponentCount: int,
                                 resultComponents: seq<Entity>, residualComponents: seq<Option<Entity>>,
                                 clouds: seq<Entity>)

  /** The result clouds and residuals created from the components of one cloud. */
  function Created(c: Entity, components: seq<Component>, minPoints: nat, lib: ComponentsLibrary): (seq<Entity>, seq<Option<Entity>>) {
    if components == [] then ([], [])
    else
      var order := VisitOrder(components, lib.sortAllocOk, lib.sort);
      (Materialised(c, components, order, minPoints, lib.partialClone, 0),
       [lib.partialClone(c, ResidualAsWritten(components, order, minPoints))])
  }

  /** What processing cloud `c` does to a running state. */
  function CloudStep(s: ScanState, c: Entity, p: Params, lib: ExtractionLibrary): ScanState
    requires s.status == Running
  {
    if c.kind != PointCloud then s.(clouds := s.clouds + [c])
    else
      var lab := lib.labelCloud(c, AsOctreeLevel(p.octreeLevel));
      if !lab.octreeOk || (LabelFieldName !in c.fields && !lab.labelFieldAllocOk) then
        s.(status := Stopped, clouds := s.clouds + [c])
      else
        var comps := Extracted(lab);
        var minPoints := AsUnsigned(p.minComponentSize);
        var total := s.realComponentCount + CountLarge(comps, minPoints);
        var stripped := WithoutLabels(c);
        if lab.componentCount >= 0 && total > p.maxNumberComponents as int then
          s.(status := TooMany, realComponentCount := total, clouds := s.clouds + [stripped])
        else
          var (made, residual) := Created(stripped, comps, minPoints, lib.clouds);
          ScanState(Running, s.nbCloudDone + 1, total, s.resultComponents + made,
                    s.residualComponents + residual, s.clouds + [stripped])
  }

  /** The driver's state once it has gone over `clouds`; a stopped scan leaves the rest untouched. */
  function Scan(clouds: seq<Entity>, p: Params, lib: ExtractionLibrary): (s: ScanState)
    ensures |s.clouds| == |clouds|
  {
    if clouds == [] then ScanState(Running, 0, 0, [], [], [])
    else
      var s := Scan(clouds[..|clouds| - 1], p, lib);
      var c := clouds[|clouds| - 1];
      if s.status == Running then CloudStep(s, c, p, lib) else s.(clouds := s.clouds + [c])
  }

  /** The call's result for the state the scan ends in. */
  function Result(s: ScanState): Extraction {
    if s.status == TooMany then Pair(s.nbCloudDone, s.resultComponents)
    else Triple(s.nbCloudDone, s.resultComponents, s.residualComponents)
  }

  /**
   * Labels and extracts the components of one plain cloud and creates their
   * clouds, from the running state's counters.
   */
  method ProcessCloud(c: Entity, p: Params, lib: ExtractionLibrary, nbCloudDone: nat, realComponentCount: int,
                      resultComponents: seq<Entity>, residualComponents: seq<Option<Entity>>, ghost processed: seq<Entity>)
    returns (status: Status, done: nat, count: int, results: seq<Entity>, residuals: seq<Option<Entity>>, after: Entity)
    requires c.kind == PointCloud
    ensures ScanState(status, done, count, results, residuals, processed + [after])
         == CloudStep(ScanState(Running, nbCloudDone, realComponentCount, resultComponents, residualComponents, processed), c, p, lib)
  {
    status, done, count, results, residuals, after := Running, nbCloudDone, realComponentCount, resultComponents, residualComponents, c;
    var lab := lib.labelCloud(c, AsOctreeLevel(p.octreeLevel));
    if !lab.octreeOk {
      status := Stopped;
      return;
    }
    var hasField := LabelFieldName in c.fields;
    if !hasField && !lab.labelFieldAllocOk {
      status := Stopped;
      return;
    }
    after := c.(fields := c.fields + {LabelFieldName});
    var components: seq<Component> := [];
    var minPoints := AsUnsigned(p.minComponentSize);
    if lab.componentCount >= 0 {
      components := lab.components;
      // safety test
      var large := CountLargeComponents(components, minPoints);
      count := count + large;
      if count > p.maxNumberComponents as int {
        // too many components
        after := after.(fields := after.fields - {LabelFieldName});
        assert after.fields == c.fields - {LabelFieldName};
        status := TooMany;
        return;
      }
    }
    assert components == Extracted(lab);
    // the label field is not needed anymore
    after := after.(fields := after.fields - {LabelFieldName});
    assert after.fields == c.fields - {LabelFieldName};
    assert after == WithoutLabels(c);
    if |components| > 0 {
      var made, residual := CreateComponentsClouds(Some(after), components, minPoints, false, true, lib.clouds);
      assert (made, residual) == Created(after, components, minPoints, lib.clouds);
      results := results + made;
      residuals := residuals + residual;
    }
    done := done + 1;
    CloudStepProceeds(ScanState(Running, nbCloudDone, realComponentCount, resultComponents, residualComponents, processed), c, p, lib);
  }

  /** A cloud whose components are created: one more cloud done, and its results and residuals appended. */
  lemma CloudStepProceeds(s: ScanState, c: Entity, p: Params, lib: ExtractionLibrary)
    requires s.status == Running && c.kind == PointCloud
    requires var lab := lib.labelCloud(c, AsOctreeLevel(p.octreeLevel));
      && lab.octreeOk && (LabelFieldName in c.fields || lab.labelFieldAllocOk)
      && !(lab.componentCount >= 0 && s.realComponentCount + CountLarge(lab.components, AsUnsigned(p.minComponentSize)) > p.maxNumberComponents as int)
    ensures var lab := lib.labelCloud(c, AsOctreeLevel(p.octreeLevel));
      var comps := Extracted(lab);
      var minPoints := AsUnsigned(p.minComponentSize);
      var created := Created(WithoutLabels(c), comps, minPoints, lib.clouds);
      CloudStep(s, c, p, lib) == ScanState(Running, s.nbCloudDone + 1, s.realComponentCount + CountLarge(comps, minPoints),
                                          s.resultComponents + created.0, s.residualComponents + created.1, s.clouds + [WithoutLabels(c)])
  {
  }

  /** The safety test: counts the components with at least `minPoints` points. */
  method CountLargeComponents(components: seq<Component>, minPoints: nat) returns (n: nat)
    ensures n == CountLarge(components, minPoints)
  {
    n := 0;
    for i := 0 to |components|
      invariant n == LargeCount(components[..i], Range(i), minPoints)
    {
      LargeCountSnoc(components, i, minPoints);
      if |components[i]| >= minPoints {
        n := n + 1;
      }
    }
    assert components[..|components|] == components;
  }

  /** Counting one more component of a prefix. */
  lemma {:induction false} LargeCountSnoc(components: seq<Component>, i: nat, minPoints: nat)
    requires i < |components|
    ensures LargeCount(components[..i + 1], Range(i + 1), minPoints)
         == LargeCount(components[..i], Range(i), minPoints) + (if |components[i]| >= minPoints then 1 else 0)
  {
    LargeCountPrefix(components[..i + 1], Range(i + 1), i, minPoints);
    assert Range(i + 1)[..i] == Range(i);
    assert forall k :: 0 <= k < i ==> components[..i + 1][k] == components[..i][k];
    LargeCountSameSizes(components[..i + 1], components[..i], Range(i), minPoints);
  }

  /** The count over an order is the count over its first part plus its last element. */
  lemma {:induction false} LargeCountPrefix(components: seq<Component>, order: seq<nat>, i: nat, minPoints: nat)
    requires InComponents(order, |components|) && i + 1 == |order|
    ensures LargeCount(components, order, minPoints)
         == LargeCount(components, order[..i], minPoints) + (if |components[order[i]]| >= minPoints then 1 else 0)
  {
    if i > 0 {
      assert order[1..][..i - 1] == order[..i][1..];
      LargeCountPrefix(components, order[1..], i - 1, minPoints);
    }
  }

  /** The count only looks at the sizes of the components the order names. */
  lemma {:induction false} LargeCountSameSizes(a: seq<Component>, b: seq<Component>, order: seq<nat>, minPoints: nat)
    requires InComponents(order, |a|) && InComponents(order, |b|)
    requires forall k :: 0 <= k < |order| ==> a[order[k]] == b[order[k]]
    ensures LargeCount(a, order, minPoints) == LargeCount(b, order, minPoints)
  {
    if order != [] {
      LargeCountSameSizes(a, b, order[1..], minPoints);
    }
  }

  /** Collects the entities of a cloud kind, in order. */
  method FilterClouds(entities: seq<Entity>) returns (clouds: seq<Entity>)
    ensures clouds == CloudsOf(entities)
  {
    clouds := [];
    for i := 0 to |entities|
      invariant clouds == CloudsOf(entities[..i])
    {
      assert entities[..i + 1][..i] == entities[..i];
      if IsKindOfCloud(entities[i].kind) {
        clouds := clouds + [entities[i]];
      }
    }
    assert entities[..|entities|] == entities;
  }

  /** One more cloud: the scan of a longer prefix. */
  lemma ScanUnfold(clouds: seq<Entity>, p: Params, lib: ExtractionLibrary, i: nat)
    requires i < |clouds|
    ensures var s := Scan(clouds[..i], p, lib);
      Scan(clouds[..i + 1], p, lib) == if s.status == Running then CloudStep(s, clouds[i], p, lib) else s.(clouds := s.clouds + [clouds[i]])
  {
    assert clouds[..i + 1][..i] == clouds[..i];
  }

  /**
   * Extracts the connected components of the clouds among `entities`
   * (ExtractConnectedComponents_py). Only plain point clouds are processed;
   * a failure to get an octree or the label field stops the whole loop; too
   * many large components, counted over all clouds so far, end the call with
   * a pair. `after` is the clouds among the entities as the call leaves them.
   */
  method ExtractConnectedComponents(entities: seq<Entity>, p: Params, randomColors: bool, lib: ExtractionLibrary)
    returns (res: Extraction, after: seq<Entity>)
    ensures var s := Scan(CloudsOf(entities), p, lib);
      res == Result(s) && after == s.clouds
  {
    var clouds := FilterClouds(entities);
    var nbCloudDone: nat, realComponentCount := 0, 0;
    var resultComponents: seq<Entity>, residualComponents: seq<Option<Entity>> := [], [];
    after := [];
    if |clouds| == 0 {
      res := Triple(nbCloudDone, resultComponents, residualComponents);
      return;
    }
    var i := 0;
    while i < |clouds|
      invariant i <= |clouds|
      invariant Scan(clouds[..i], p, lib)
             == ScanState(Running, nbCloudDone, realComponentCount, resultComponents, residualComponents, after)
    {
      ScanUnfold(clouds, p, lib, i);
      var c := clouds[i];
      if c.kind == PointCloud {
        var status, c';
        status, nbCloudDone, realComponentCount, resultComponents, residualComponents, c' :=
          ProcessCloud(c, p, lib, nbCloudDone, realComponentCount, resultComponents, residualComponents, after);
        after := after + [c'];
        if status != Running {
          StoppedScan(clouds, p, lib, i + 1);
          after := after + clouds[i + 1..];
          if status == TooMany {
            res := Pair(nbCloudDone, resultComponents);
            return;
          }
          break;
        }
      } else {
        after := after + [c];
      }
      i := i + 1;
    }
    assert i == |clouds| ==> clouds[..i] == clouds;
    res := Triple(nbCloudDone, resultComponents, residualComponents);
  }

  /** Once stopped, the scan goes over the remaining clouds without touching them. */
  lemma {:induction false} StoppedScan(clouds: seq<Entity>, p: Params, lib: ExtractionLibrary, i: nat)
    requires i <= |clouds| && Scan(clouds[..i], p, lib).status != Running
    ensures Scan(clouds, p, lib) == Scan(clouds[..i], p, lib).(clouds := Scan(clouds[..i], p, lib).clouds + clouds[i..])
    decreases |clouds| - i
  {
    if i == |clouds| {
      assert clouds[..i] == clouds;
    } else {
      var n := |clouds|;
      var init := clouds[..n - 1];
      assert init[..i] == clouds[..i];
      StoppedScan(init, p, lib, i);
      var s := Scan(init, p, lib);
      assert s.status != Running;
      assert Scan(clouds, p, lib) == s.(clouds := s.clouds + [clouds[n - 1]]);
      assert init[i..] + [clouds[n - 1]] == clouds[i..];
    }
  }

  /** The number of plain point clouds (isA(POINT_CLOUD)) among `clouds`. */
  function PlainCount(clouds: seq<Entity>): nat {
    if clouds == [] then 0
    else PlainCount(clouds[..|clouds| - 1]) + (if clouds[|clouds| - 1].kind == PointCloud then 1 else 0)
  }

  /** The number of large components over all plain clouds, as their labellings give them. */
  function TotalLarge(clouds: seq<Entity>, p: Params, lib: ExtractionLibrary): nat {
    if clouds == [] then 0
    else
      var c := clouds[|clouds| - 1];
      TotalLarge(clouds[..|clouds| - 1], p, lib) +
        (if c.kind == PointCloud
         then CountLarge(Extracted(lib.labelCloud(c, AsOctreeLevel(p.octreeLevel))), AsUnsigned(p.minComponentSize))
         else 0)
  }

  /** The library can label plain cloud `c`: it has an octree and a label field. */
  predicate Labelled(c: Entity, p: Params, lib: ExtractionLibrary) {
    var lab := lib.labelCloud(c, AsOctreeLevel(p.octreeLevel));
    lab.octreeOk && (LabelFieldName in c.fields || lab.labelFieldAllocOk)
  }

  /**
   * The scan touches nothing but the label field: every cloud is left as it
   * was or without its label field; other clouds than plain ones are left as
   * they were; and when the scan runs to the end, no plain cloud keeps a
   * label field.
   */
  lemma {:induction false} ScanOnlyRemovesLabels(clouds: seq<Entity>, p: Params, lib: ExtractionLibrary)
    ensures var s := Scan(clouds, p, lib);
      && (forall k :: 0 <= k < |clouds| ==> s.clouds[k] == clouds[k] || s.clouds[k] == WithoutLabels(clouds[k]))
      && (forall k :: 0 <= k < |clouds| && clouds[k].kind != PointCloud ==> s.clouds[k] == clouds[k])
      && (s.status == Running ==>
            forall k :: 0 <= k < |clouds| && clouds[k].kind == PointCloud ==> s.clouds[k] == WithoutLabels(clouds[k]))
  {
    if clouds != [] {
      var n := |clouds|;
      var init := clouds[..n - 1];
      ScanOnlyRemovesLabels(init, p, lib);
      var s0, s := Scan(init, p, lib), Scan(clouds, p, lib);
      ScanLastStep(clouds, p, lib);
      forall k | 0 <= k < n
        ensures s.clouds[k] == clouds[k] || s.clouds[k] == WithoutLabels(clouds[k])
        ensures clouds[k].kind != PointCloud ==> s.clouds[k] == clouds[k]
        ensures s.status == Running && clouds[k].kind == PointCloud ==> s.clouds[k] == WithoutLabels(clouds[k])
      {
        if k < n - 1 {
          assert s.clouds[k] == s0.clouds[k] && clouds[k] == init[k];
        }
      }
    }
  }

  /** The scan of a non-empty sequence extends the scan of all but its last cloud by one step. */
  lemma ScanLastStep(clouds: seq<Entity>, p: Params, lib: ExtractionLibrary)
    requires clouds != []
    ensures var n := |clouds|; var s0, s := Scan(clouds[..n - 1], p, lib), Scan(clouds, p, lib);
      && (forall k :: 0 <= k < n - 1 ==> s.clouds[k] == s0.clouds[k])
      && (s.clouds[n - 1] == clouds[n - 1] || s.clouds[n - 1] == WithoutLabels(clouds[n - 1]))
      && (clouds[n - 1].kind != PointCloud ==> s.clouds[n - 1] == clouds[n - 1])
      && (s.status == Running ==> s0.status == Running)
      && (s.status == Running && clouds[n - 1].kind == PointCloud ==> s.clouds[n - 1] == WithoutLabels(clouds[n - 1]))
  {
    var n := |clouds|;
    StepTouchesLabelsOnly(Scan(clouds[..n - 1], p, lib), clouds[n - 1], p, lib);
  }

  /** One step of the scan appends the cloud, as it was or without its label field. */
  lemma StepTouchesLabelsOnly(s: ScanState, c: Entity, p: Params, lib: ExtractionLibrary)
    ensures var s' := if s.status == Running then CloudStep(s, c, p, lib) else s.(clouds := s.clouds + [c]);
      && |s'.clouds| == |s.clouds| + 1 && s'.clouds[..|s.clouds|] == s.clouds
      && (s'.clouds[|s.clouds|] == c || s'.clouds[|s.clouds|] == WithoutLabels(c))
      && (c.kind != PointCloud ==> s'.clouds[|s.clouds|] == c)
      && (s'.status == Running ==> s.status == Running && (c.kind == PointCloud ==> s'.clouds[|s.clouds|] == WithoutLabels(c)))
  {
    var s' := if s.status == Running then CloudStep(s, c, p, lib) else s.(clouds := s.clouds + [c]);
    assert exists d :: s'.clouds == s.clouds + [d] && (d == c || d == WithoutLabels(c));
  }

  /**
   * The scan counts: it does at most the plain clouds, and all of them when
   * it runs to the end; it stops for too many components only once the count
   * exceeds the maximum, and when it runs to the end the count, accumulated
   * over all clouds, does not exceed it; each cloud done adds at most one
   * residual.
   */
  lemma {:induction false} ScanCounts(clouds: seq<Entity>, p: Params, lib: ExtractionLibrary)
    ensures var s := Scan(clouds, p, lib);
      && s.nbCloudDone <= PlainCount(clouds)
      && |s.residualComponents| <= s.nbCloudDone
      && (s.status == TooMany ==> s.realComponentCount > p.maxNumberComponents as int)
      && (s.status == Running ==>
            && s.nbCloudDone == PlainCount(clouds)
            && s.realComponentCount == TotalLarge(clouds, p, lib))
  {
    if clouds != [] {
      ScanCounts(clouds[..|clouds| - 1], p, lib);
    }
  }

  /**
   * With every labelling successful, the scan runs to the end exactly when
   * there is no plain cloud (the count is then never compared) or the large
   * components over all clouds do not exceed the maximum.
   */
  lemma {:induction false} ScanCompletes(clouds: seq<Entity>, p: Params, lib: ExtractionLibrary)
    requires forall k :: 0 <= k < |clouds| && clouds[k].kind == PointCloud ==>
      Labelled(clouds[k], p, lib) && lib.labelCloud(clouds[k], AsOctreeLevel(p.octreeLevel)).componentCount >= 0
    ensures Scan(clouds, p, lib).status == Running <==>
      PlainCount(clouds) == 0 || TotalLarge(clouds, p, lib) <= p.maxNumberComponents as int
  {
    if clouds != [] {
      var init := clouds[..|clouds| - 1];
      ScanCompletes(init, p, lib);
      ScanCounts(init, p, lib);
      if Scan(init, p, lib).status != Running {
        ScanStaysStopped(init, p, lib);
      }
    }
  }

  /** With every labelling successful, a scan stops only for more large components than the maximum. */
  lemma {:induction false} ScanStaysStopped(clouds: seq<Entity>, p: Params, lib: ExtractionLibrary)
    requires Scan(clouds, p, lib).status != Running
    requires forall k :: 0 <= k < |clouds| && clouds[k].kind == PointCloud ==>
      Labelled(clouds[k], p, lib) && lib.labelCloud(clouds[k], AsOctreeLevel(p.octreeLevel)).componentCount >= 0
    ensures TotalLarge(clouds, p, lib) > p.maxNumberComponents as int
  {
    var init := clouds[..|clouds| - 1];
    ScanCounts(init, p, lib);
    if Scan(init, p, lib).status != Running {
      ScanStaysStopped(init, p, lib);
    }
  }
}
