/**
 * Merging several clouds, or several meshes, into one entity (MergeEntitiesPy):
 * classification of the inputs, the append loop over clouds with the
 * "Original cloud index" scalar field, the removal of consumed inputs, and
 * the mesh branch.
 */
module EntityMerger {
  import opened Wrappers
  import opened ObjectGraph
  import opened RemoveList

  /** Name of the scalar field that records, per point, which input it came from. */
  const OriginalCloudIndexName: string := "Original cloud index"

  // ---------------------------------------------------------------------------
  // Classification of the inputs
  // ---------------------------------------------------------------------------

  /** The two groups the merge sorts its inputs into. */
  datatype Group = Clouds | Meshes

  /** Plain clouds (isA(POINT_CLOUD)) go to the clouds; meshes whose vertices are a plain cloud go to the meshes. */
  predicate InGroup(g: Group, k: Kind) {
    match g
    case Clouds => k == PointCloud
    case Meshes => k.Mesh? && k.standardVertices
  }

  /** The non-null inputs that belong to group `g`, in input order. */
  function Entries(t: Tree, entities: seq<Option<Node>>, g: Group): seq<Node>
    decreases |entities|
  {
    if entities == [] then []
    else
      var e := entities[|entities| - 1];
      Entries(t, entities[..|entities| - 1], g) + (if e.Some? && InGroup(g, KindOf(t, e.value)) then [e.value] else [])
  }

  /** Exactly the non-null inputs of the group are collected, and no more entries than there are inputs. */
  lemma {:induction false} EntriesMembers(t: Tree, entities: seq<Option<Node>>, g: Group)
    ensures forall n :: n in Entries(t, entities, g) <==> Some(n) in entities && InGroup(g, KindOf(t, n))
    ensures |Entries(t, entities, g)| <= |entities|
    decreases |entities|
  {
    if entities != [] {
      var init := entities[..|entities| - 1];
      assert entities == init + [entities[|entities| - 1]];
      EntriesMembers(t, init, g);
    }
  }

  /** The entries of a longer prefix of the inputs: those of the shorter one and, maybe, the next input. */
  lemma EntriesStep(t: Tree, entities: seq<Option<Node>>, i: nat, g: Group)
    requires i < |entities|
    ensures Entries(t, entities[..i + 1], g) ==
      Entries(t, entities[..i], g) +
      (if entities[i].Some? && InGroup(g, KindOf(t, entities[i].value)) then [entities[i].value] else [])
  {
    assert entities[..i + 1][..i] == entities[..i];
  }

  /** No entry of `s` is an ancestor of the first one. */
  ghost predicate FirstIsTopmost(t: Tree, s: seq<Node>)
    requires Valid(t)
  {
    forall k :: 0 <= k < |s| ==> !IsAncestor(t, s[k], s[0])
  }

  /** The clouds collected so far once `c` is collected: appended, then swapped with the first when above it. */
  ghost function Pushed(t: Tree, s: seq<Node>, c: Node): seq<Node>
    requires Valid(t)
  {
    if |s| > 0 && IsAncestor(t, c, s[0]) then [c] + s[1..] + [s[0]] else s + [c]
  }

  /** The clouds the classification collects from the inputs `seen`, in the order it leaves them. */
  ghost function Collected(t: Tree, seen: seq<Option<Node>>): seq<Node>
    requires Valid(t)
    decreases |seen|
  {
    if seen == [] then []
    else
      var e := seen[|seen| - 1];
      var before := Collected(t, seen[..|seen| - 1]);
      if e.Some? && KindOf(t, e.value) == PointCloud then Pushed(t, before, e.value) else before
  }

  /** The clouds collected from a longer prefix of the inputs: the next input is pushed when it is a plain cloud. */
  lemma CollectedStep(t: Tree, entities: seq<Option<Node>>, i: nat)
    requires Valid(t) && i < |entities|
    ensures Collected(t, entities[..i + 1]) ==
      if entities[i].Some? && KindOf(t, entities[i].value) == PointCloud
      then Pushed(t, Collected(t, entities[..i]), entities[i].value)
      else Collected(t, entities[..i])
  {
    assert entities[..i + 1][..i] == entities[..i];
  }

  /**
   * Collecting a new cloud `c` keeps the classification invariant: the
   * collected clouds are the plain-cloud inputs up to order, the first one is
   * topmost, and when the inputs' own first cloud is topmost the order is
   * the input order.
   */
  lemma PushKeepsClassification(t: Tree, s: seq<Node>, c: Node, entries: seq<Node>)
    requires Valid(t)
    requires multiset(s) == multiset(entries) && FirstIsTopmost(t, s)
    requires FirstIsTopmost(t, entries) ==> s == entries
    ensures multiset(Pushed(t, s, c)) == multiset(entries + [c])
    ensures FirstIsTopmost(t, Pushed(t, s, c))
    ensures FirstIsTopmost(t, entries + [c]) ==> Pushed(t, s, c) == entries + [c]
  {
    TopmostPrefix(t, entries, c);
    if |s| > 0 && IsAncestor(t, c, s[0]) {
      SwapKeepsTopmost(t, s, c);
    } else if |s| == 0 {
      AncestorIrreflexive(t, c);
    }
  }

  /** Putting `c` first and the first entry last keeps the entries. */
  lemma SwapSameMultiset(s: seq<Node>, c: Node)
    requires |s| > 0
    ensures multiset([c] + s[1..] + [s[0]]) == multiset(s + [c])
  {
    assert s == [s[0]] + s[1..];
  }

  /** Swapping a new cloud that is above the first cloud into first place leaves a topmost first cloud. */
  lemma SwapKeepsTopmost(t: Tree, s: seq<Node>, c: Node)
    requires Valid(t) && |s| > 0 && IsAncestor(t, c, s[0]) && FirstIsTopmost(t, s)
    ensures FirstIsTopmost(t, [c] + s[1..] + [s[0]])
    ensures multiset([c] + s[1..] + [s[0]]) == multiset(s + [c])
  {
    var s' := [c] + s[1..] + [s[0]];
    SwapSameMultiset(s, c);
    forall k | 0 <= k < |s'|
      ensures !IsAncestor(t, s'[k], c)
    {
      if k == 0 {
        AncestorIrreflexive(t, c);
      } else if k == |s'| - 1 {
        AncestorAsymmetric(t, c, s[0]);
      } else if IsAncestor(t, s'[k], c) {
        assert s'[k] == s[k];
        AncestorTransitive(t, s[k], c, s[0]);
      }
    }
  }

  /** When the first of `s + [c]` is topmost, so is the first of `s`, and `c` is not above it. */
  lemma TopmostPrefix(t: Tree, s: seq<Node>, c: Node)
    requires Valid(t)
    ensures FirstIsTopmost(t, s + [c]) ==> FirstIsTopmost(t, s) && (|s| > 0 ==> !IsAncestor(t, c, s[0]))
  {
    if FirstIsTopmost(t, s + [c]) && |s| > 0 {
      assert (s + [c])[|s|] == c;
      forall k | 0 <= k < |s|
        ensures !IsAncestor(t, s[k], s[0])
      {
        assert (s + [c])[k] == s[k];
      }
    }
  }

  /**
   * The state of the classification after a prefix `seen` of the inputs:
   * the meshes are those of `seen` in order; the clouds are those of `seen`
   * up to order, with a topmost first cloud; when the inputs' own first cloud
   * is topmost, the clouds are in input order.
   */
  ghost predicate Classified(t: Tree, seen: seq<Option<Node>>, clouds: seq<Node>, meshes: seq<Node>)
    requires Valid(t)
  {
    && meshes == Entries(t, seen, Meshes)
    && multiset(clouds) == multiset(Entries(t, seen, Clouds))
    && FirstIsTopmost(t, clouds)
    && (FirstIsTopmost(t, Entries(t, seen, Clouds)) ==> clouds == Entries(t, seen, Clouds))
  }

  /** Sorting one more plain-cloud input keeps the classification state. */
  lemma ClassifyCloudStep(t: Tree, entities: seq<Option<Node>>, i: nat, clouds: seq<Node>, meshes: seq<Node>)
    requires Valid(t) && i < |entities| && Classified(t, entities[..i], clouds, meshes)
    requires entities[i].Some? && KindOf(t, entities[i].value) == PointCloud
    ensures Classified(t, entities[..i + 1], Pushed(t, clouds, entities[i].value), meshes)
  {
    EntriesStep(t, entities, i, Clouds);
    EntriesStep(t, entities, i, Meshes);
    PushKeepsClassification(t, clouds, entities[i].value, Entries(t, entities[..i], Clouds));
  }

  /** Sorting one more input that is not a plain cloud (null, mesh or other) keeps the classification state. */
  lemma ClassifyOtherStep(t: Tree, entities: seq<Option<Node>>, i: nat, clouds: seq<Node>, meshes: seq<Node>)
    requires Valid(t) && i < |entities| && Classified(t, entities[..i], clouds, meshes)
    requires !(entities[i].Some? && KindOf(t, entities[i].value) == PointCloud)
    ensures entities[i].None? ==> Classified(t, entities[..i + 1], clouds, meshes)
    ensures entities[i].Some? && InGroup(Meshes, KindOf(t, entities[i].value)) ==>
      Classified(t, entities[..i + 1], clouds, meshes + [entities[i].value])
    ensures entities[i].Some? && !InGroup(Meshes, KindOf(t, entities[i].value)) ==>
      Classified(t, entities[..i + 1], clouds, meshes)
  {
    EntriesStep(t, entities, i, Clouds);
    EntriesStep(t, entities, i, Meshes);
    var before := Entries(t, entities[..i], Clouds);
    assert Entries(t, entities[..i + 1], Clouds) == before + [] == before;
    assert Entries(t, entities[..i], Meshes) + [] == Entries(t, entities[..i], Meshes);
  }

  /**
   * The collected clouds are the plain-cloud inputs up to order, no other
   * collected cloud is above the first one, and they are in input order
   * when the inputs' own first cloud is already topmost.
   */
  lemma {:induction false} CollectedIsClassified(t: Tree, entities: seq<Option<Node>>)
    requires Valid(t)
    ensures Classified(t, entities, Collected(t, entities), Entries(t, entities, Meshes))
    decreases |entities|
  {
    if entities != [] {
      var i := |entities| - 1;
      CollectedIsClassified(t, entities[..i]);
      CollectedStep(t, entities, i);
      EntriesStep(t, entities, i, Meshes);
      var clouds, meshes := Collected(t, entities[..i]), Entries(t, entities[..i], Meshes);
      if entities[i].Some? && KindOf(t, entities[i].value) == PointCloud {
        ClassifyCloudStep(t, entities, i, clouds, meshes);
      } else {
        ClassifyOtherStep(t, entities, i, clouds, meshes);
      }
      assert entities[..i + 1] == entities;
    }
  }

  /** Collects cloud `c`, and swaps it with the first cloud when it is an ancestor of it. */
  method PushCloud(t: Tree, clouds: seq<Node>, c: Node) returns (r: seq<Node>)
    requires Valid(t)
    ensures r == Pushed(t, clouds, c)
  {
    r := clouds + [c];
    if |r| > 1 && IsAncestor(t, r[|r| - 1], r[0]) {
      // this way the first cloud is not below any other cloud
      r := r[0 := r[|r| - 1]][|r| - 1 := r[0]];
      assert r == [c] + clouds[1..] + [clouds[0]];
    }
  }

  /**
   * Sorts the inputs into plain clouds and meshes with plain-cloud vertices
   * (the classification loop of MergeEntitiesPy). Null inputs and other kinds
   * are skipped. A newly collected cloud that is an ancestor of the current
   * first cloud is swapped with it, so the first cloud is never below another
   * collected cloud.
   */
  method ClassifyForMerge(t: Tree, entities: seq<Option<Node>>) returns (clouds: seq<Node>, meshes: seq<Node>)
    requires Valid(t)
    ensures clouds == Collected(t, entities) && meshes == Entries(t, entities, Meshes)
    ensures Classified(t, entities, clouds, meshes)
  {
    clouds, meshes := [], [];
    for i := 0 to |entities|
      invariant clouds == Collected(t, entities[..i]) && meshes == Entries(t, entities[..i], Meshes)
    {
      CollectedStep(t, entities, i);
      EntriesStep(t, entities, i, Meshes);
      var entity := entities[i];
      if entity.None? {
        continue;
      }
      var n := entity.value;
      if KindOf(t, n) == PointCloud {
        clouds := PushCloud(t, clouds, n);
      } else if KindOf(t, n).Mesh? {
        if KindOf(t, n).standardVertices {
          meshes := meshes + [n];
        }
      }
    }
    assert entities[..|entities|] == entities;
    CollectedIsClassified(t, entities);
  }

  // ---------------------------------------------------------------------------
  // Appending the clouds to the first one
  // ---------------------------------------------------------------------------

  /** The library calls the merge depends on, as parameters. */
  datatype MergeLibrary = MergeLibrary(
    append: (seq<Point>, seq<Point>) -> seq<Point>,  // ccPointCloud::operator+=: the points of the grown cloud
    indexFieldAllocOk: bool,                         // whether addScalarField can allocate the index field
    meshMergeOk: (Node, bool) -> bool)               // whether ccMesh::merge of a mesh succeeds

  /** The first cloud while the others are appended to it: its points, how many clouds were appended, and whether an append failed. */
  datatype Fusion = Fusion(points: seq<Point>, appended: nat, failed: bool)

  /**
   * Appends the point sequences of `rest`, one after the other, to `points`.
   * An append succeeded when the cloud grew by exactly the appended count;
   * the first one that did not stops the fusion.
   */
  function Fuse(points: seq<Point>, rest: seq<seq<Point>>, append: (seq<Point>, seq<Point>) -> seq<Point>): Fusion
    decreases |rest|
  {
    if rest == [] then Fusion(points, 0, false)
    else
      var f := Fuse(points, rest[..|rest| - 1], append);
      var added := rest[|rest| - 1];
      if f.failed then f
      else
        var grown := append(f.points, added);
        if |grown| == |f.points| + |added| then Fusion(grown, f.appended + 1, false)
        else Fusion(grown, f.appended, true)
  }

  function Sum(sizes: seq<nat>): nat {
    if sizes == [] then 0 else sizes[0] + Sum(sizes[1..])
  }

  function Sizes(clouds: seq<seq<Point>>): (r: seq<nat>)
    ensures |r| == |clouds| && forall k :: 0 <= k < |clouds| ==> r[k] == |clouds[k]|
  {
    seq(|clouds|, k requires 0 <= k < |clouds| => |clouds[k]|)
  }

  lemma {:induction false} SumAppend(sizes: seq<nat>, n: nat)
    ensures Sum(sizes + [n]) == Sum(sizes) + n
  {
    if sizes != [] {
      assert (sizes + [n])[1..] == sizes[1..] + [n];
      SumAppend(sizes[1..], n);
    }
  }

  /**
   * Until one fails, every append adds exactly the appended cloud: the
   * number of clouds appended is the number tried, and the points number the
   * first cloud's plus the appended clouds'; a failed append is the last one tried.
   */
  lemma {:induction false} FuseProgress(points: seq<Point>, rest: seq<seq<Point>>, append: (seq<Point>, seq<Point>) -> seq<Point>)
    ensures Fuse(points, rest, append).appended <= |rest|
    ensures !Fuse(points, rest, append).failed ==>
      && Fuse(points, rest, append).appended == |rest|
      && |Fuse(points, rest, append).points| == |points| + Sum(Sizes(rest))
    ensures Fuse(points, rest, append).failed ==>
      !Fuse(points, rest[..Fuse(points, rest, append).appended], append).failed
    decreases |rest|
  {
    if rest != [] {
      var init := rest[..|rest| - 1];
      FuseProgress(points, init, append);
      assert Sizes(rest) == Sizes(init) + [|rest[|rest| - 1]|];
      SumAppend(Sizes(init), |rest[|rest| - 1]|);
      if Fuse(points, rest, append).failed && !Fuse(points, init, append).failed {
        assert rest[..|init|] == init;
      } else if Fuse(points, init, append).failed {
        assert rest[..Fuse(points, init, append).appended] == init[..Fuse(points, init, append).appended];
      }
    }
  }

  /** Once an append failed, the clouds after it are not tried. */
  lemma {:induction false} FuseStopsAtFailure(points: seq<Point>, rest: seq<seq<Point>>, n: nat,
                                              append: (seq<Point>, seq<Point>) -> seq<Point>)
    requires n <= |rest| && Fuse(points, rest[..n], append).failed
    ensures Fuse(points, rest, append) == Fuse(points, rest[..n], append)
    decreases |rest|
  {
    if n < |rest| {
      assert rest[..|rest| - 1][..n] == rest[..n];
      FuseStopsAtFailure(points, rest[..|rest| - 1], n, append);
    } else {
      assert rest[..n] == rest;
    }
  }

  /** The point sequences of `parts`, one after the other. */
  function Concat(parts: seq<seq<Point>>): seq<Point>
    decreases |parts|
  {
    if parts == [] then [] else Concat(parts[..|parts| - 1]) + parts[|parts| - 1]
  }

  /**
   * When an append that grows the cloud by exactly the appended count puts
   * the appended points after the existing ones, a fusion without failure
   * holds the first cloud's points followed by those of every cloud appended.
   */
  lemma {:induction false} FuseConcatenates(points: seq<Point>, rest: seq<seq<Point>>,
                                            append: (seq<Point>, seq<Point>) -> seq<Point>)
    requires forall a, b :: |append(a, b)| == |a| + |b| ==> append(a, b) == a + b
    ensures !Fuse(points, rest, append).failed ==> Fuse(points, rest, append).points == points + Concat(rest)
    decreases |rest|
  {
    if rest != [] && !Fuse(points, rest, append).failed {
      var init := rest[..|rest| - 1];
      FuseConcatenates(points, init, append);
      assert points + Concat(init) + rest[|rest| - 1] == points + Concat(rest);
    }
  }

  /** `n` copies of `v`. */
  function Filled(v: int, n: nat): (r: seq<int>)
    ensures |r| == n && forall j :: 0 <= j < n ==> r[j] == v
  {
    seq(n, _ => v)
  }

  /**
   * The original-cloud index field of a cloud made of blocks of the given
   * sizes: `from` on the points of the first block, `from + 1` on the next, ...
   */
  function Blocks(sizes: seq<nat>, from: int): seq<int> {
    if sizes == [] then [] else Filled(from, sizes[0]) + Blocks(sizes[1..], from + 1)
  }

  /** One more block adds its size worth of its own index at the end. */
  lemma {:induction false} BlocksAppend(sizes: seq<nat>, from: int, n: nat)
    ensures Blocks(sizes + [n], from) == Blocks(sizes, from) + Filled(from + |sizes|, n)
    decreases |sizes|
  {
    if sizes != [] {
      assert (sizes + [n])[1..] == sizes[1..] + [n];
      BlocksAppend(sizes[1..], from + 1, n);
    }
  }

  /** The sum of a non-empty prefix: its first entry and the sum of the rest. */
  lemma SumPrefix(sizes: seq<nat>, b: nat)
    requires 0 < b < |sizes|
    ensures Sum(sizes[..b]) == sizes[0] + Sum(sizes[1..][..b - 1])
    ensures sizes[b] == sizes[1..][b - 1]
  {
    assert sizes[..b][1..] == sizes[1..][..b - 1];
  }

  /** A slice of a concatenation that starts at or after the end of its first part. */
  lemma SliceOfConcat(a: seq<int>, b: seq<int>, lo: nat, hi: nat)
    requires lo <= hi <= |b|
    ensures (a + b)[|a| + lo..|a| + hi] == b[lo..hi]
    ensures (a + b)[0..|a|] == a
  {
    assert forall j :: 0 <= j < hi - lo ==> (a + b)[|a| + lo..|a| + hi][j] == b[lo..hi][j];
    assert forall j :: 0 <= j < |a| ==> (a + b)[0..|a|][j] == a[j];
  }

  /** The field has one entry per point of the blocks. */
  lemma {:induction false} BlocksLength(sizes: seq<nat>, from: int)
    ensures |Blocks(sizes, from)| == Sum(sizes)
    decreases |sizes|
  {
    if sizes != [] {
      BlocksLength(sizes[1..], from + 1);
    }
  }

  /** The points of block `b` start after the points of the blocks before it, and carry `from + b`. */
  lemma {:induction false} BlockAt(sizes: seq<nat>, from: int, b: nat)
    requires b < |sizes|
    ensures |Blocks(sizes, from)| == Sum(sizes)
    ensures Sum(sizes[..b]) + sizes[b] <= Sum(sizes)
    ensures Blocks(sizes, from)[Sum(sizes[..b])..Sum(sizes[..b]) + sizes[b]] == Filled(from + b, sizes[b])
    decreases b
  {
    var tail := sizes[1..];
    var first := Filled(from, sizes[0]);
    BlocksLength(sizes, from);
    BlocksLength(tail, from + 1);
    assert Blocks(sizes, from) == first + Blocks(tail, from + 1);
    var rest := Blocks(tail, from + 1);
    if b == 0 {
      assert sizes[..0] == [];
      SliceOfConcat(first, rest, 0, 0);
    } else {
      BlockAt(tail, from + 1, b - 1);
      SumPrefix(sizes, b);
      var lo, n := Sum(tail[..b - 1]), tail[b - 1];
      assert from + 1 + (b - 1) == from + b;
      SliceOfConcat(first, rest, lo, lo + n);
    }
  }

  /**
   * The field has one entry per point of the blocks, and the points of block
   * `b` (which start after the points of the blocks before it) carry `from + b`.
   */
  lemma BlocksLayout(sizes: seq<nat>, from: int)
    ensures |Blocks(sizes, from)| == Sum(sizes)
    ensures forall b :: 0 <= b < |sizes| ==>
      && Sum(sizes[..b]) + sizes[b] <= Sum(sizes)
      && Blocks(sizes, from)[Sum(sizes[..b])..Sum(sizes[..b]) + sizes[b]] == Filled(from + b, sizes[b])
  {
    BlocksLength(sizes, from);
    forall b | 0 <= b < |sizes|
      ensures Sum(sizes[..b]) + sizes[b] <= Sum(sizes)
      ensures Blocks(sizes, from)[Sum(sizes[..b])..Sum(sizes[..b]) + sizes[b]] == Filled(from + b, sizes[b])
    {
      BlockAt(sizes, from, b);
    }
  }

  /** The field never decreases along the cloud, and never leaves [from, from + |sizes|). */
  lemma {:induction false} BlocksSorted(sizes: seq<nat>, from: int)
    ensures forall i, j :: 0 <= i <= j < |Blocks(sizes, from)| ==> Blocks(sizes, from)[i] <= Blocks(sizes, from)[j]
    ensures forall i :: 0 <= i < |Blocks(sizes, from)| ==> from <= Blocks(sizes, from)[i] < from + |sizes|
    decreases |sizes|
  {
    if sizes != [] {
      BlocksSorted(sizes[1..], from + 1);
    }
  }

  // ---------------------------------------------------------------------------
  // What the merge removes
  // ---------------------------------------------------------------------------

  /**
   * The node to remove once cloud `pc` has been appended: its parent when that
   * is a plain group whose only child is `pc`, so the empty group goes too;
   * otherwise `pc` itself.
   */
  function RemovalCandidate(t: Tree, pc: Node): Node {
    if pc in t.parent && KindOf(t, t.parent[pc]) == HierarchyGroup && ChildCount(t, t.parent[pc]) == 1
    then t.parent[pc] else pc
  }

  /** Removing the candidate removes the cloud. */
  lemma CandidateCoversCloud(t: Tree, pc: Node)
    requires Valid(t)
    ensures RemovalCandidate(t, pc) == pc || IsAncestor(t, RemovalCandidate(t, pc), pc)
  {
  }

  /** The candidate of a cloud that is neither the first cloud nor above it is neither the first cloud nor above it. */
  lemma CandidateSparesFirst(t: Tree, first: Node, pc: Node)
    requires Valid(t) && KindOf(t, first) == PointCloud
    requires pc != first && !IsAncestor(t, pc, first)
    ensures RemovalCandidate(t, pc) != first && !IsAncestor(t, RemovalCandidate(t, pc), first)
  {
    var c := RemovalCandidate(t, pc);
    if c != pc && IsAncestor(t, c, first) {
      OnlyChildCoversGroup(t, c, pc, first);
    }
  }

  /** Two different clouds never share a candidate. */
  lemma CandidatesDistinct(t: Tree, p: Node, q: Node)
    requires KindOf(t, p) == PointCloud && KindOf(t, q) == PointCloud && p != q
    ensures RemovalCandidate(t, p) != RemovalCandidate(t, q)
  {
    var cp, cq := RemovalCandidate(t, p), RemovalCandidate(t, q);
    if cp != p && cq != q && cp == cq {
      assert {p, q} <= Children(t, cp);
      SubsetCardinality({p, q}, Children(t, cp));
    }
  }

  /**
   * The removal schedule after clouds `appended` were appended: no entry
   * lies below another, every entry is the candidate of an appended cloud,
   * and every appended cloud's candidate is removed with the schedule.
   */
  ghost predicate ScheduledFor(t: Tree, appended: seq<Node>, removed: seq<Node>)
    requires Valid(t)
  {
    && NoNesting(t, removed)
    && (forall x :: x in removed ==> x in (set c | c in appended :: RemovalCandidate(t, c)))
    && (forall c :: c in appended ==> Covers(t, removed, RemovalCandidate(t, c)))
  }

  /** Covered by the old schedule and the old schedule covered by the new one: covered by the new one. */
  lemma CoversTransfer(t: Tree, list: seq<Node>, r: seq<Node>, x: Node)
    requires Valid(t) && Covers(t, list, x) && forall y :: y in list ==> Covers(t, r, y)
    ensures Covers(t, r, x)
  {
    if x !in list {
      var y :| y in list && IsAncestor(t, y, x);
      if y !in r {
        var z :| z in r && IsAncestor(t, z, y);
        AncestorTransitive(t, z, y, x);
      }
    }
  }

  /** Scheduling the candidate of one more appended cloud keeps the schedule right. */
  lemma ScheduleStep(t: Tree, appended: seq<Node>, removed: seq<Node>, pc: Node, r: seq<Node>)
    requires Valid(t) && ScheduledFor(t, appended, removed)
    requires ScheduleUpdate(t, RemovalCandidate(t, pc), removed, r)
    ensures ScheduledFor(t, appended + [pc], r)
  {
    var cand := RemovalCandidate(t, pc);
    forall x | x in r
      ensures x in (set c | c in appended + [pc] :: RemovalCandidate(t, c))
    {
      assert x in multiset(r);
      if x != cand {
        assert x in removed;
      }
    }
    forall c | c in appended + [pc]
      ensures Covers(t, r, RemovalCandidate(t, c))
    {
      if c in appended {
        CoversTransfer(t, removed, r, RemovalCandidate(t, c));
      }
    }
  }

  /**
   * When the appended clouds are plain clouds different from the new one, the
   * schedule has no repeated entry before the new candidate is scheduled, and
   * none after.
   */
  lemma ScheduleStepUnique(t: Tree, appended: seq<Node>, removed: seq<Node>, pc: Node, r: seq<Node>)
    requires Valid(t) && ScheduledFor(t, appended, removed) && NoDuplicates(removed)
    requires ScheduleUpdate(t, RemovalCandidate(t, pc), removed, r)
    requires forall k :: 0 <= k < |appended| ==> KindOf(t, appended[k]) == PointCloud && appended[k] != pc
    requires KindOf(t, pc) == PointCloud
    ensures NoDuplicates(r)
  {
    var cand := RemovalCandidate(t, pc);
    assert cand !in removed by {
      if cand in removed {
        var c :| c in appended && cand == RemovalCandidate(t, c);
        CandidatesDistinct(t, c, pc);
      }
    }
    forall x
      ensures multiset(r)[x] <= 1
    {
      assert multiset(r)[x] <= multiset(removed)[x] + multiset{cand}[x];
    }
  }

  /**
   * When the first cloud is not below any other and no cloud occurs twice, the
   * first cloud is still in the tree once the schedule has been removed, and
   * holds the merged cloud.
   */
  lemma MergedFirstSurvives(t: Tree, clouds: seq<Node>, n: nat, removed: seq<Node>, e: Entity)
    requires Valid(t) && 0 < n <= |clouds| && ScheduledFor(t, clouds[1..n], removed)
    requires FirstIsTopmost(t, clouds) && KindOf(t, clouds[0]) == PointCloud
    requires forall k :: 0 < k < |clouds| ==> clouds[k] != clouds[0]
    ensures clouds[0] in DetachAll(SetEntity(t, clouds[0], e), removed).nodes
    ensures DetachAll(SetEntity(t, clouds[0], e), removed).nodes[clouds[0]] == e
  {
    var first := clouds[0];
    var u := SetEntity(t, first, e);
    SameLinksSameAncestry(t, u, first, first);
    forall x | x in removed
      ensures Survives(u, x, first)
    {
      var c :| c in clouds[1..n] && x == RemovalCandidate(t, c);
      var k :| 1 <= k < n && clouds[k] == c;
      CandidateSparesFirst(t, first, c);
      SameLinksSameAncestry(t, u, x, first);
    }
    DetachAllKeeps(u, removed);
  }

  /** Every appended cloud is gone from the tree once the schedule has been removed. */
  lemma AppendedCloudsRemoved(t: Tree, appended: seq<Node>, removed: seq<Node>, u: Tree)
    requires Valid(t) && ScheduledFor(t, appended, removed)
    requires u.parent == t.parent && u.depth == t.depth
    ensures forall c :: c in appended ==> c !in DetachAll(u, removed).nodes
  {
    SameLinksSameAncestry(t, u, 0, 0);
    DetachAllKeeps(u, removed);
    forall c | c in appended
      ensures c !in DetachAll(u, removed).nodes
    {
      var cand := RemovalCandidate(t, c);
      CandidateCoversCloud(t, c);
      var x: Node;
      if cand in removed {
        x := cand;
      } else {
        x :| x in removed && IsAncestor(t, x, cand);
        if cand != c {
          AncestorTransitive(t, x, cand, c);
        }
      }
      SameLinksSameAncestry(t, u, x, c);
      assert !Survives(u, x, c);
    }
  }

  // ---------------------------------------------------------------------------
  // Merging the clouds
  // ---------------------------------------------------------------------------

  /** The points of each cloud, as the tree holds them. */
  function CloudPoints(t: Tree, cs: seq<Node>): (r: seq<seq<Point>>)
    ensures |r| == |cs| && forall k :: 0 <= k < |cs| ==> r[k] == PointsOf(t, cs[k])
  {
    seq(|cs|, k requires 0 <= k < |cs| => PointsOf(t, cs[k]))
  }

  /**
   * Every appended cloud is read as it was before the merge. This fails only
   * when the first cloud, grown in place, is among the clouds appended to it.
   */
  predicate ReadsOriginal(clouds: seq<Node>, deleteOriginalClouds: bool)
    requires |clouds| > 0
  {
    !deleteOriginalClouds || forall k :: 0 < k < |clouds| ==> clouds[k] != clouds[0]
  }

  /** `s` cut or padded to `n` entries (ScalarField::resizeSafe); new entries are set to 0 here. */
  function Resized(s: seq<int>, n: nat): (r: seq<int>)
    ensures |r| == n && forall j :: 0 <= j < n && j < |s| ==> r[j] == s[j]
  {
    if n <= |s| then s[..n] else s + Filled(0, n - |s|)
  }

  /**
   * The merged cloud: the first cloud when it was grown in place (`node`),
   * otherwise a new clone; its original-cloud index field, when one was
   * requested; and the nodes scheduled for removal.
   */
  datatype MergedCloud = MergedCloud(node: Option<Node>, cloud: Entity, index: Option<seq<int>>, removed: seq<Node>)

  /** No node occurs twice. */
  predicate Distinct(s: seq<Node>) {
    forall a, b :: 0 <= a < b < |s| ==> s[a] != s[b]
  }

  /**
   * What the merged cloud `m` is. It is the first cloud with the fused points
   * and, when requested, the index field, whose entries give for each point
   * the position of the cloud it came from among the clouds merged. When the
   * originals are deleted, it is the first cloud itself and the schedule
   * removes every appended cloud and nothing above the first cloud;
   * otherwise it is a new cloud and nothing is scheduled.
   */
  ghost predicate MergedCloudIs(t: Tree, clouds: seq<Node>, deleteOriginalClouds: bool, createSFcloudIndex: bool,
                                lib: MergeLibrary, m: MergedCloud)
    requires Valid(t) && |clouds| > 0 && KindOf(t, clouds[0]) == PointCloud
  {
    var e0 := t.nodes[clouds[0]];
    var rest := CloudPoints(t, clouds[1..]);
    var f := Fuse(e0.points, rest, lib.append);
    FuseProgress(e0.points, rest, lib.append);
    && m.cloud == e0.(points := m.cloud.points,
                      fields := e0.fields + if createSFcloudIndex then {OriginalCloudIndexName} else {})
    && (m.index.Some? <==> createSFcloudIndex)
    && (ReadsOriginal(clouds, deleteOriginalClouds) ==>
          && m.cloud.points == f.points
          && (m.index.Some? ==> m.index.value == Blocks([|e0.points|] + Sizes(rest[..f.appended]), 0)))
    && (deleteOriginalClouds ==>
          && m.node == Some(clouds[0])
          && (ReadsOriginal(clouds, deleteOriginalClouds) ==> ScheduledFor(t, clouds[1..f.appended + 1], m.removed))
          && (Distinct(clouds) ==> NoDuplicates(m.removed)))
    && (!deleteOriginalClouds ==> m.node == None && m.removed == [])
  }

  /**
   * With an append that concatenates whenever the size check passes, the
   * merged cloud, when every append succeeded, holds the first cloud's points
   * followed by the points of every other cloud, in order.
   */
  lemma MergedPointsConcatenate(t: Tree, clouds: seq<Node>, deleteOriginalClouds: bool, createSFcloudIndex: bool,
                                lib: MergeLibrary, m: MergedCloud)
    requires Valid(t) && |clouds| > 0 && KindOf(t, clouds[0]) == PointCloud
    requires MergedCloudIs(t, clouds, deleteOriginalClouds, createSFcloudIndex, lib, m)
    requires ReadsOriginal(clouds, deleteOriginalClouds)
    requires forall a, b :: |lib.append(a, b)| == |a| + |b| ==> lib.append(a, b) == a + b
    requires !Fuse(PointsOf(t, clouds[0]), CloudPoints(t, clouds[1..]), lib.append).failed
    ensures m.cloud.points == PointsOf(t, clouds[0]) + Concat(CloudPoints(t, clouds[1..]))
  {
    FuseConcatenates(PointsOf(t, clouds[0]), CloudPoints(t, clouds[1..]), lib.append);
  }

  /**
   * What merging `clouds` produces. There is no result exactly when the index
   * field is requested, missing and cannot be added; then nothing changed.
   * Otherwise the result is the merged cloud, and the tree is the tree
   * without the schedule (when the originals are deleted) or unchanged.
   */
  ghost predicate CloudsMerged(t: Tree, clouds: seq<Node>, deleteOriginalClouds: bool, createSFcloudIndex: bool,
                               lib: MergeLibrary, res: Option<MergedCloud>, t': Tree)
    requires Valid(t) && |clouds| > 0 && KindOf(t, clouds[0]) == PointCloud
  {
    && (res.None? <==> createSFcloudIndex && OriginalCloudIndexName !in t.nodes[clouds[0]].fields && !lib.indexFieldAllocOk)
    && (res.None? ==> t' == t)
    && (res.Some? ==>
          && MergedCloudIs(t, clouds, deleteOriginalClouds, createSFcloudIndex, lib, res.value)
          && t' == if deleteOriginalClouds then DetachAll(SetEntity(t, clouds[0], res.value.cloud), res.value.removed) else t)
  }

  /**
   * The state of the cloud loop before cloud `i` is tried: the first cloud
   * (`e0` once the index field exists) has received clouds 1 to i - 1, and the
   * index field tags their points.
   */
  ghost predicate FusedSoFar(t: Tree, clouds: seq<Node>, deleteOriginalClouds: bool, createSFcloudIndex: bool,
                             lib: MergeLibrary, e0: Entity, i: nat, acc: Entity, index: Option<seq<int>>, cloudIndex: int)
    requires 0 < i <= |clouds|
  {
    var rest := CloudPoints(t, clouds[1..]);
    && acc == e0.(points := acc.points)
    && (index.Some? <==> createSFcloudIndex)
    && (index.Some? ==> |index.value| == |acc.points| && cloudIndex == i - 1)
    && (ReadsOriginal(clouds, deleteOriginalClouds) ==>
          && Fuse(e0.points, rest[..i - 1], lib.append) == Fusion(acc.points, i - 1, false)
          && (index.Some? ==> index.value == Blocks([|e0.points|] + Sizes(rest[..i - 1]), 0)))
  }

  /** The removal schedule before cloud `i` is tried. */
  ghost predicate ScheduledSoFar(t: Tree, clouds: seq<Node>, deleteOriginalClouds: bool, i: nat, removed: seq<Node>)
    requires Valid(t) && 0 < i <= |clouds|
  {
    && (deleteOriginalClouds && ReadsOriginal(clouds, deleteOriginalClouds) ==> ScheduledFor(t, clouds[1..i], removed))
    && (deleteOriginalClouds && Distinct(clouds) ==> NoDuplicates(removed))
    && (!deleteOriginalClouds ==> removed == [])
  }

  /** The points the loop reads for cloud `i` are the ones it had before the merge. */
  lemma ReadsBeforeMerge(t: Tree, clouds: seq<Node>, deleteOriginalClouds: bool, i: nat, e: Entity)
    requires 0 < i < |clouds| && ReadsOriginal(clouds, deleteOriginalClouds)
    ensures PointsOf(if deleteOriginalClouds then SetEntity(t, clouds[0], e) else t, clouds[i]) ==
            CloudPoints(t, clouds[1..])[i - 1]
  {
  }

  /** A successful append of cloud `i` moves the fusion state on to cloud i + 1. */
  lemma FusedStep(t: Tree, clouds: seq<Node>, deleteOriginalClouds: bool, createSFcloudIndex: bool,
                  lib: MergeLibrary, e0: Entity, i: nat, acc: Entity, index: Option<seq<int>>, cloudIndex: int,
                  added: seq<Point>)
    requires 0 < i < |clouds|
    requires FusedSoFar(t, clouds, deleteOriginalClouds, createSFcloudIndex, lib, e0, i, acc, index, cloudIndex)
    requires ReadsOriginal(clouds, deleteOriginalClouds) ==> added == CloudPoints(t, clouds[1..])[i - 1]
    requires |lib.append(acc.points, added)| == |acc.points| + |added|
    ensures FusedSoFar(t, clouds, deleteOriginalClouds, createSFcloudIndex, lib, e0, i + 1,
                       acc.(points := lib.append(acc.points, added)),
                       if index.Some? then Some(index.value + Filled(cloudIndex + 1, |added|)) else None,
                       if index.Some? then cloudIndex + 1 else cloudIndex)
  {
    if ReadsOriginal(clouds, deleteOriginalClouds) {
      var rest := CloudPoints(t, clouds[1..]);
      FuseStep(e0.points, rest, i - 1, lib.append, acc.points);
      IndexStep(|e0.points|, rest, i - 1);
    }
  }

  /** A failed append of cloud `i` is where the fusion stops. */
  lemma FusedFailure(t: Tree, clouds: seq<Node>, deleteOriginalClouds: bool, createSFcloudIndex: bool,
                     lib: MergeLibrary, e0: Entity, i: nat, acc: Entity, index: Option<seq<int>>, cloudIndex: int,
                     added: seq<Point>)
    requires 0 < i < |clouds| && ReadsOriginal(clouds, deleteOriginalClouds)
    requires FusedSoFar(t, clouds, deleteOriginalClouds, createSFcloudIndex, lib, e0, i, acc, index, cloudIndex)
    requires added == CloudPoints(t, clouds[1..])[i - 1]
    requires |lib.append(acc.points, added)| != |acc.points| + |added|
    ensures Fuse(e0.points, CloudPoints(t, clouds[1..]), lib.append) == Fusion(lib.append(acc.points, added), i - 1, true)
  {
    var rest := CloudPoints(t, clouds[1..]);
    FuseStep(e0.points, rest, i - 1, lib.append, acc.points);
    FuseStopsAtFailure(e0.points, rest, i, lib.append);
  }

  /** A slice one entry longer. */
  lemma SliceExtend(s: seq<Node>, from: nat, to: nat)
    requires from <= to < |s|
    ensures s[from..to + 1] == s[from..to] + [s[to]]
  {
  }

  /** Scheduling the candidate of cloud `i`, when the originals are deleted, moves the schedule on to cloud i + 1. */
  lemma ScheduledStep(t: Tree, clouds: seq<Node>, deleteOriginalClouds: bool, i: nat, removed: seq<Node>, r: seq<Node>)
    requires Valid(t) && 0 < i < |clouds|
    requires forall k :: 0 <= k < |clouds| ==> KindOf(t, clouds[k]) == PointCloud
    requires ScheduledSoFar(t, clouds, deleteOriginalClouds, i, removed)
    requires deleteOriginalClouds ==> ScheduleUpdate(t, RemovalCandidate(t, clouds[i]), removed, r)
    requires !deleteOriginalClouds ==> r == removed
    ensures ScheduledSoFar(t, clouds, deleteOriginalClouds, i + 1, r)
  {
    if deleteOriginalClouds && ReadsOriginal(clouds, true) {
      var appended, pc := clouds[1..i], clouds[i];
      SliceExtend(clouds, 1, i);
      ScheduleStep(t, appended, removed, pc, r);
      if Distinct(clouds) {
        forall k | 0 <= k < |appended|
          ensures KindOf(t, appended[k]) == PointCloud && appended[k] != pc
        {
          assert appended[k] == clouds[k + 1];
        }
        ScheduleStepUnique(t, appended, removed, pc, r);
      }
    }
  }

  /** One more successful or failed append, starting from the state after `i` successful ones. */
  lemma FuseStep(points: seq<Point>, rest: seq<seq<Point>>, i: nat, append: (seq<Point>, seq<Point>) -> seq<Point>, acc: seq<Point>)
    requires i < |rest| && Fuse(points, rest[..i], append) == Fusion(acc, i, false)
    ensures Fuse(points, rest[..i + 1], append) ==
      var grown := append(acc, rest[i]);
      if |grown| == |acc| + |rest[i]| then Fusion(grown, i + 1, false) else Fusion(grown, i, true)
  {
    assert rest[..i + 1][..i] == rest[..i];
  }

  /** The index field after one more appended cloud: its points carry the next index. */
  lemma IndexStep(n0: nat, rest: seq<seq<Point>>, i: nat)
    requires i < |rest|
    ensures Blocks([n0] + Sizes(rest[..i + 1]), 0) == Blocks([n0] + Sizes(rest[..i]), 0) + Filled(i + 1, |rest[i]|)
  {
    assert [n0] + Sizes(rest[..i + 1]) == [n0] + Sizes(rest[..i]) + [|rest[i]|];
    BlocksAppend([n0] + Sizes(rest[..i]), 0, |rest[i]|);
  }

  /** Schedules the candidate of cloud `i` for removal when the originals are deleted. */
  method ScheduleAppended(t: Tree, clouds: seq<Node>, deleteOriginalClouds: bool, i: nat, removed: seq<Node>)
    returns (r: seq<Node>)
    requires Valid(t) && 0 < i < |clouds|
    requires forall k :: 0 <= k < |clouds| ==> KindOf(t, clouds[k]) == PointCloud
    requires ScheduledSoFar(t, clouds, deleteOriginalClouds, i, removed)
    ensures ScheduledSoFar(t, clouds, deleteOriginalClouds, i + 1, r)
    ensures !deleteOriginalClouds ==> r == removed
  {
    var toRemove := RemovalCandidate(t, clouds[i]);
    r := removed;
    if deleteOriginalClouds {
      r := AddToRemoveList(t, toRemove, removed);
    }
    ScheduledStep(t, clouds, deleteOriginalClouds, i, removed, r);
  }

  /** The loop tried every cloud: the merged cloud is as specified. */
  lemma MergeCompleted(t: Tree, clouds: seq<Node>, deleteOriginalClouds: bool, createSFcloudIndex: bool,
                       lib: MergeLibrary, e0: Entity, acc: Entity, index: Option<seq<int>>, cloudIndex: int,
                       removed: seq<Node>)
    requires Valid(t) && |clouds| > 0 && KindOf(t, clouds[0]) == PointCloud
    requires e0 == t.nodes[clouds[0]].(fields := t.nodes[clouds[0]].fields +
                                                 if createSFcloudIndex then {OriginalCloudIndexName} else {})
    requires FusedSoFar(t, clouds, deleteOriginalClouds, createSFcloudIndex, lib, e0, |clouds|, acc, index, cloudIndex)
    requires ScheduledSoFar(t, clouds, deleteOriginalClouds, |clouds|, removed)
    ensures MergedCloudIs(t, clouds, deleteOriginalClouds, createSFcloudIndex, lib,
                          MergedCloud(if deleteOriginalClouds then Some(clouds[0]) else None, acc, index, removed))
  {
    var rest := CloudPoints(t, clouds[1..]);
    assert rest[..|clouds| - 1] == rest;
    assert clouds[1..|clouds|] == clouds[1..];
  }

  /** A failed append of cloud `i` stopped the loop: the merged cloud is as specified. */
  lemma MergeStopped(t: Tree, clouds: seq<Node>, deleteOriginalClouds: bool, createSFcloudIndex: bool,
                     lib: MergeLibrary, e0: Entity, i: nat, acc: Entity, index: Option<seq<int>>, cloudIndex: int,
                     removed: seq<Node>, grown: seq<Point>)
    requires Valid(t) && 0 < i < |clouds| && KindOf(t, clouds[0]) == PointCloud
    requires e0 == t.nodes[clouds[0]].(fields := t.nodes[clouds[0]].fields +
                                                 if createSFcloudIndex then {OriginalCloudIndexName} else {})
    requires FusedSoFar(t, clouds, deleteOriginalClouds, createSFcloudIndex, lib, e0, i, acc, index, cloudIndex)
    requires ScheduledSoFar(t, clouds, deleteOriginalClouds, i, removed)
    requires ReadsOriginal(clouds, deleteOriginalClouds) ==>
      Fuse(e0.points, CloudPoints(t, clouds[1..]), lib.append) == Fusion(grown, i - 1, true)
    ensures MergedCloudIs(t, clouds, deleteOriginalClouds, createSFcloudIndex, lib,
                          MergedCloud(if deleteOriginalClouds then Some(clouds[0]) else None, acc.(points := grown), index, removed))
  {
  }

  /** Sets the `count` entries from `from` on to `value` (the tagging loop of MergeEntitiesPy). */
  method TagAppended(field: seq<int>, from: nat, count: nat, value: int) returns (r: seq<int>)
    requires from + count == |field|
    ensures r == field[..from] + Filled(value, count)
  {
    r := field;
    for k := 0 to count
      invariant |r| == from + count
      invariant r[..from] == field[..from]
      invariant forall j :: from <= j < from + k ==> r[j] == value
    {
      r := r[from + k := value];
    }
    assert r == r[..from] + r[from..];
  }

  /**
   * One turn of the append loop of MergeEntitiesPy: cloud `i` is read (from
   * the tree in which the first cloud has grown, when that is the tree's own
   * node) and appended to `acc`. A failed append ends the merge (`ok` false).
   * Otherwise the cloud (or its group, when the cloud is the group's only
   * child) is scheduled for removal, and the appended points get the next
   * index in the index field.
   */
  method AppendNext(t: Tree, clouds: seq<Node>, deleteOriginalClouds: bool, createSFcloudIndex: bool,
                    lib: MergeLibrary, acc0: Entity, i: nat, acc: Entity, index: Option<seq<int>>, cloudIndex: int,
                    removed: seq<Node>)
    returns (ok: bool, acc': Entity, index': Option<seq<int>>, cloudIndex': int, removed': seq<Node>)
    requires Valid(t) && 0 < i < |clouds| && KindOf(t, clouds[0]) == PointCloud
    requires forall k :: 0 <= k < |clouds| ==> KindOf(t, clouds[k]) == PointCloud
    requires acc0 == t.nodes[clouds[0]].(fields := t.nodes[clouds[0]].fields +
                                                   if createSFcloudIndex then {OriginalCloudIndexName} else {})
    requires FusedSoFar(t, clouds, deleteOriginalClouds, createSFcloudIndex, lib, acc0, i, acc, index, cloudIndex)
    requires ScheduledSoFar(t, clouds, deleteOriginalClouds, i, removed)
    ensures ok ==> FusedSoFar(t, clouds, deleteOriginalClouds, createSFcloudIndex, lib, acc0, i + 1, acc', index', cloudIndex')
    ensures ok ==> ScheduledSoFar(t, clouds, deleteOriginalClouds, i + 1, removed')
    ensures !ok ==> MergedCloudIs(t, clouds, deleteOriginalClouds, createSFcloudIndex, lib,
                                  MergedCloud(if deleteOriginalClouds then Some(clouds[0]) else None, acc', index', removed'))
  {
    ok, acc', index', cloudIndex', removed' := true, acc, index, cloudIndex, removed;
    var tree := if deleteOriginalClouds then SetEntity(t, clouds[0], acc) else t;
    var pc := clouds[i];
    var countBefore := |acc.points|;
    var added := PointsOf(tree, pc);  // pc itself, or its exact copy pc->cloneThis()
    var countAdded := |added|;
    if ReadsOriginal(clouds, deleteOriginalClouds) {
      ReadsBeforeMerge(t, clouds, deleteOriginalClouds, i, acc);
    }
    var grown := lib.append(acc.points, added);
    if |grown| != countBefore + countAdded {
      // fusion failed (not enough memory?)
      if ReadsOriginal(clouds, deleteOriginalClouds) {
        FusedFailure(t, clouds, deleteOriginalClouds, createSFcloudIndex, lib, acc0, i, acc, index, cloudIndex, added);
      }
      MergeStopped(t, clouds, deleteOriginalClouds, createSFcloudIndex, lib, acc0, i, acc, index, cloudIndex, removed, grown);
      ok, acc' := false, acc.(points := grown);
      return;
    }
    FusedStep(t, clouds, deleteOriginalClouds, createSFcloudIndex, lib, acc0, i, acc, index, cloudIndex, added);
    acc' := acc.(points := grown);
    // only the links are read, and growing the first cloud leaves them as they were
    removed' := ScheduleAppended(t, clouds, deleteOriginalClouds, i, removed);
    if index.Some? {
      var field := Resized(index.value, |grown|);
      cloudIndex' := cloudIndex + 1;
      field := TagAppended(field, countBefore, countAdded, cloudIndex');
      assert field[..countBefore] == index.value;
      index' := Some(field);
    }
  }

  /** Before the first append: nothing fused yet, the index field all zeros, nothing scheduled. */
  lemma AppendStart(t: Tree, clouds: seq<Node>, deleteOriginalClouds: bool, createSFcloudIndex: bool,
                    lib: MergeLibrary, acc0: Entity, index0: Option<seq<int>>)
    requires Valid(t) && |clouds| > 0
    requires index0 == if createSFcloudIndex then Some(Filled(0, |acc0.points|)) else None
    ensures FusedSoFar(t, clouds, deleteOriginalClouds, createSFcloudIndex, lib, acc0, 1, acc0, index0, 0)
    ensures ScheduledSoFar(t, clouds, deleteOriginalClouds, 1, [])
  {
    assert [|acc0.points|] + Sizes(CloudPoints(t, clouds[1..])[..0]) == [|acc0.points|];
  }

  /**
   * The append loop of MergeEntitiesPy: appends clouds 1, 2, ... to the first
   * cloud `acc` in turn, and stops at the first failed append. When the
   * originals are deleted the first cloud is the tree's own node and grows in
   * place, so a later read of it sees it grown.
   */
  method AppendClouds(t: Tree, clouds: seq<Node>, deleteOriginalClouds: bool, createSFcloudIndex: bool,
                      lib: MergeLibrary, acc0: Entity, index0: Option<seq<int>>)
    returns (acc: Entity, index: Option<seq<int>>, removed: seq<Node>)
    requires Valid(t) && |clouds| > 0 && KindOf(t, clouds[0]) == PointCloud
    requires forall k :: 0 <= k < |clouds| ==> KindOf(t, clouds[k]) == PointCloud
    requires acc0 == t.nodes[clouds[0]].(fields := t.nodes[clouds[0]].fields +
                                                   if createSFcloudIndex then {OriginalCloudIndexName} else {})
    requires index0 == if createSFcloudIndex then Some(Filled(0, |acc0.points|)) else None
    ensures MergedCloudIs(t, clouds, deleteOriginalClouds, createSFcloudIndex, lib,
                          MergedCloud(if deleteOriginalClouds then Some(clouds[0]) else None, acc, index, removed))
  {
    acc, index := acc0, index0;
    removed := [];
    var cloudIndex := 0;
    var i := 1;
    AppendStart(t, clouds, deleteOriginalClouds, createSFcloudIndex, lib, acc0, index0);
    while i < |clouds|
      invariant 1 <= i <= |clouds|
      invariant FusedSoFar(t, clouds, deleteOriginalClouds, createSFcloudIndex, lib, acc0, i, acc, index, cloudIndex)
      invariant ScheduledSoFar(t, clouds, deleteOriginalClouds, i, removed)
    {
      var ok;
      ok, acc, index, cloudIndex, removed :=
        AppendNext(t, clouds, deleteOriginalClouds, createSFcloudIndex, lib, acc0, i, acc, index, cloudIndex, removed);
      if !ok {
        return;
      }
      i := i + 1;
    }
    MergeCompleted(t, clouds, deleteOriginalClouds, createSFcloudIndex, lib, acc0, acc, index, cloudIndex, removed);
  }

  /** Removes the scheduled nodes one after the other: each is taken from its parent, or deleted when it has none. */
  method RemoveScheduled(tree: Tree, removed: seq<Node>) returns (t': Tree)
    requires Valid(tree)
    ensures t' == DetachAll(tree, removed)
  {
    t' := tree;
    for k := 0 to |removed|
      invariant t' == DetachAll(tree, removed[..k])
    {
      DetachAllStep(tree, removed, k);
      t' := Detach(t', removed[k]);
    }
    assert removed[..|removed|] == removed;
  }

  /**
   * Merges the clouds (the cloud branch of MergeEntitiesPy). The first cloud
   * is grown in place when the originals are to be deleted, and a clone of it
   * otherwise (`cloneThis`, taken to be an exact copy). With `createSFcloudIndex` the "Original cloud index" field is
   * found or added on it and set to 0; a field that cannot be added ends the
   * merge with no result. Then the other clouds are appended, and the
   * schedule is removed from the tree.
   */
  method MergeClouds(t: Tree, clouds: seq<Node>, deleteOriginalClouds: bool, createSFcloudIndex: bool, lib: MergeLibrary)
    returns (res: Option<MergedCloud>, t': Tree)
    requires Valid(t) && |clouds| > 0
    requires forall k :: 0 <= k < |clouds| ==> KindOf(t, clouds[k]) == PointCloud
    ensures CloudsMerged(t, clouds, deleteOriginalClouds, createSFcloudIndex, lib, res, t')
  {
    var first := clouds[0];
    assert KindOf(t, first) == PointCloud;
    var acc := t.nodes[first];  // the clone is an exact copy
    var index: Option<seq<int>> := None;
    if createSFcloudIndex {
      var found := OriginalCloudIndexName in acc.fields;
      if !found && lib.indexFieldAllocOk {
        acc := acc.(fields := acc.fields + {OriginalCloudIndexName});
        found := true;
      }
      if !found {
        // not enough memory for the index field
        return None, t;
      }
      index := Some(Filled(0, |acc.points|));
    }
    var removed;
    acc, index, removed := AppendClouds(t, clouds, deleteOriginalClouds, createSFcloudIndex, lib, acc, index);
    t' := t;
    if deleteOriginalClouds {
      SameLinksSameAncestry(t, SetEntity(t, first, acc), 0, 0);
      t' := RemoveScheduled(SetEntity(t, first, acc), removed);
    }
    res := Some(MergedCloud(if deleteOriginalClouds then Some(first) else None, acc, index, removed));
  }

  /** The first cloud, given once and topmost, survives the removal of what the appended clouds scheduled. */
  lemma FirstHoldsMerged(t: Tree, clouds: seq<Node>, n: nat, removed: seq<Node>, cloud: Entity)
    requires Valid(t) && n < |clouds| && KindOf(t, clouds[0]) == PointCloud
    requires Distinct(clouds) && FirstIsTopmost(t, clouds)
    requires ScheduledFor(t, clouds[1..n + 1], removed)
    ensures var t' := DetachAll(SetEntity(t, clouds[0], cloud), removed);
      clouds[0] in t'.nodes && t'.nodes[clouds[0]] == cloud
  {
    forall k | 0 < k < |clouds|
      ensures clouds[k] != clouds[0]
    {
      assert clouds[0] != clouds[k];
    }
    MergedFirstSurvives(t, clouds, n + 1, removed, cloud);
  }

  /**
   * The removal part of the merge, from the schedule of the first `n`
   * appended clouds: the first cloud stays, holding `cloud`; the appended
   * clouds go; each scheduled node is still there when its turn comes.
   */
  lemma ScheduleRemovesAppended(t: Tree, clouds: seq<Node>, n: nat, removed: seq<Node>, cloud: Entity, t': Tree)
    requires Valid(t) && n < |clouds| && KindOf(t, clouds[0]) == PointCloud
    requires Distinct(clouds) && FirstIsTopmost(t, clouds)
    requires ScheduledFor(t, clouds[1..n + 1], removed) && NoDuplicates(removed)
    requires t' == DetachAll(SetEntity(t, clouds[0], cloud), removed)
    ensures clouds[0] in t'.nodes && t'.nodes[clouds[0]] == cloud
    ensures forall k :: 0 < k <= n ==> k < |clouds| && clouds[k] !in t'.nodes
    ensures forall k :: 0 <= k < |removed| && removed[k] in t.nodes ==>
      removed[k] in DetachAll(SetEntity(t, clouds[0], cloud), removed[..k]).nodes
  {
    FirstHoldsMerged(t, clouds, n, removed, cloud);
    AppendedGone(t, clouds, n, removed, cloud);
    RemovalsSafeAfterSet(t, clouds[0], cloud, removed);
  }

  /** Every appended cloud among the first `n` is gone once their schedule has been removed. */
  lemma AppendedGone(t: Tree, clouds: seq<Node>, n: nat, removed: seq<Node>, cloud: Entity)
    requires Valid(t) && n < |clouds| && ScheduledFor(t, clouds[1..n + 1], removed)
    ensures forall k :: 0 < k <= n ==> clouds[k] !in DetachAll(SetEntity(t, clouds[0], cloud), removed).nodes
  {
    var u := SetEntity(t, clouds[0], cloud);
    AppendedCloudsRemoved(t, clouds[1..n + 1], removed, u);
    forall k | 0 < k <= n
      ensures clouds[k] !in DetachAll(u, removed).nodes
    {
      assert clouds[k] == clouds[1..n + 1][k - 1];
    }
  }

  /** Storing an entity changes no link, so a schedule without nesting can still be removed entry by entry. */
  lemma RemovalsSafeAfterSet(t: Tree, first: Node, cloud: Entity, removed: seq<Node>)
    requires Valid(t) && NoNesting(t, removed) && NoDuplicates(removed)
    ensures forall k :: 0 <= k < |removed| && removed[k] in t.nodes ==>
      removed[k] in DetachAll(SetEntity(t, first, cloud), removed[..k]).nodes
  {
    var u := SetEntity(t, first, cloud);
    SameLinksSameAncestry(t, u, 0, 0);
    forall x, y | x in removed && y in removed
      ensures !IsAncestor(u, x, y)
    {
      SameLinksSameAncestry(t, u, x, y);
    }
    RemovalsAreSafe(u, removed);
  }

  /**
   * With the originals deleted, no cloud given twice and the first cloud
   * topmost (as the classification leaves it), the merge keeps the first
   * cloud in the tree holding the merged cloud, and takes every appended
   * cloud out of the tree; each scheduled node is still in the tree when its
   * turn to be removed comes.
   */
  lemma MergedCloudReplacesInputs(t: Tree, clouds: seq<Node>, createSFcloudIndex: bool, lib: MergeLibrary,
                                  res: Option<MergedCloud>, t': Tree)
    requires Valid(t) && |clouds| > 0
    requires forall k :: 0 <= k < |clouds| ==> KindOf(t, clouds[k]) == PointCloud
    requires Distinct(clouds) && FirstIsTopmost(t, clouds)
    requires CloudsMerged(t, clouds, true, createSFcloudIndex, lib, res, t') && res.Some?
    ensures clouds[0] in t'.nodes && t'.nodes[clouds[0]] == res.value.cloud
    ensures forall k :: 0 < k <= Fuse(PointsOf(t, clouds[0]), CloudPoints(t, clouds[1..]), lib.append).appended ==>
      k < |clouds| && clouds[k] !in t'.nodes
    ensures forall k :: 0 <= k < |res.value.removed| && res.value.removed[k] in t.nodes ==>
      res.value.removed[k] in DetachAll(SetEntity(t, clouds[0], res.value.cloud), res.value.removed[..k]).nodes
  {
    var m := res.value;
    var rest := CloudPoints(t, clouds[1..]);
    var n := Fuse(PointsOf(t, clouds[0]), rest, lib.append).appended;
    FuseProgress(PointsOf(t, clouds[0]), rest, lib.append);
    assert ReadsOriginal(clouds, true);
    assert MergedCloudIs(t, clouds, true, createSFcloudIndex, lib, m);
    ScheduleRemovesAppended(t, clouds, n, m.removed, m.cloud, t');
  }

  // ---------------------------------------------------------------------------
  // Merging the meshes
  // ---------------------------------------------------------------------------

  /**
   * The mesh the merge builds: its name, the name and enabled state of its
   * vertex cloud, its visibility, and the meshes merged into it, in order.
   */
  datatype MergedMesh = MergedMesh(name: string, verticesName: string, verticesEnabled: bool, visible: bool, parts: seq<Node>)

  /**
   * A new visible mesh "Merged mesh" over a disabled vertex cloud "vertices",
   * into which the meshes were merged in order up to the first merge that
   * failed: the longest prefix of successful merges.
   */
  ghost predicate MeshesMerged(meshes: seq<Node>, createSubMeshes: bool, lib: MergeLibrary, m: MergedMesh) {
    && m.name == "Merged mesh" && m.verticesName == "vertices" && !m.verticesEnabled && m.visible
    && |m.parts| <= |meshes| && m.parts == meshes[..|m.parts|]
    && (forall k :: 0 <= k < |m.parts| ==> lib.meshMergeOk(meshes[k], createSubMeshes))
    && (|m.parts| < |meshes| ==> !lib.meshMergeOk(meshes[|m.parts|], createSubMeshes))
  }

  /** The mesh branch of MergeEntitiesPy: merges the meshes into a new mesh until a merge fails. */
  method MergeMeshes(meshes: seq<Node>, createSubMeshes: bool, lib: MergeLibrary) returns (m: MergedMesh)
    ensures MeshesMerged(meshes, createSubMeshes, lib, m)
  {
    m := MergedMesh("Merged mesh", "vertices", false, false, []);
    var k := 0;
    while k < |meshes|
      invariant k <= |meshes| && m.parts == meshes[..k]
      invariant m.name == "Merged mesh" && m.verticesName == "vertices" && !m.verticesEnabled
      invariant forall j :: 0 <= j < k ==> lib.meshMergeOk(meshes[j], createSubMeshes)
    {
      if !lib.meshMergeOk(meshes[k], createSubMeshes) {
        // fusion failed (not enough memory?)
        break;
      }
      m := m.(parts := m.parts + [meshes[k]]);
      k := k + 1;
    }
    m := m.(visible := true);
  }

  // ---------------------------------------------------------------------------
  // The whole merge
  // ---------------------------------------------------------------------------

  /** The result of MergeEntitiesPy: nothing (a null pointer), the merged cloud, or the merged mesh. */
  datatype MergeOutcome = NoEntity | CloudOutcome(cloud: MergedCloud) | MeshOutcome(mesh: MergedMesh)

  /**
   * Merges the given entities (MergeEntitiesPy): clouds and meshes are never
   * mixed, and clouds win over meshes; with neither there is no result.
   * The clouds are merged in the order the classification leaves them.
   */
  method MergeEntities(t: Tree, entities: seq<Option<Node>>, deleteOriginalClouds: bool, createSFcloudIndex: bool,
                       createSubMeshes: bool, lib: MergeLibrary)
    returns (res: MergeOutcome, t': Tree)
    requires Valid(t)
    ensures forall k :: 0 <= k < |Collected(t, entities)| ==> KindOf(t, Collected(t, entities)[k]) == PointCloud
    ensures |Collected(t, entities)| > 0 ==>
      && !res.MeshOutcome?
      && CloudsMerged(t, Collected(t, entities), deleteOriginalClouds, createSFcloudIndex, lib,
                      if res.CloudOutcome? then Some(res.cloud) else None, t')
    ensures |Collected(t, entities)| == 0 ==> t' == t
    ensures |Collected(t, entities)| == 0 && Entries(t, entities, Meshes) != [] ==>
      res.MeshOutcome? && MeshesMerged(Entries(t, entities, Meshes), createSubMeshes, lib, res.mesh)
    ensures |Collected(t, entities)| == 0 && Entries(t, entities, Meshes) == [] ==> res == NoEntity
  {
    var cs, meshes := ClassifyForMerge(t, entities);
    CloudKinds(t, entities, cs);
    t' := t;
    if |cs| == 0 && |meshes| == 0 {
      // select only clouds or meshes
      return NoEntity, t';
    }
    if |cs| > 0 {
      var merged;
      merged, t' := MergeClouds(t, cs, deleteOriginalClouds, createSFcloudIndex, lib);
      res := if merged.Some? then CloudOutcome(merged.value) else NoEntity;
    } else {
      var mesh := MergeMeshes(meshes, createSubMeshes, lib);
      res := MeshOutcome(mesh);
    }
  }

  /** The clouds the classification collects are plain clouds. */
  lemma CloudKinds(t: Tree, entities: seq<Option<Node>>, clouds: seq<Node>)
    requires multiset(clouds) == multiset(Entries(t, entities, Clouds))
    ensures forall k :: 0 <= k < |clouds| ==> KindOf(t, clouds[k]) == PointCloud
  {
    EntriesMembers(t, entities, Clouds);
    forall k | 0 <= k < |clouds|
      ensures KindOf(t, clouds[k]) == PointCloud
    {
      assert clouds[k] in multiset(clouds);
    }
  }
}
