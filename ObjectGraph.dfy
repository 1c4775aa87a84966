/**
 * The object tree every operation of the bindings reads and edits: nodes of
 * several kinds (clouds, meshes, groups, ...) linked by parent pointers.
 * A node's identity is the address of the library object; the geometry of a
 * cloud is abstracted to a sequence of opaque points.
 */
module ObjectGraph {

  /** Identity of a node of the tree. */
  type Node = nat

  /** A point of a cloud, opaque: coordinates, colour and normal are not modelled. */
  type Point = int

  /** The runtime kind of a node, as the library's type queries see it. */
  datatype Kind =
    | PointCloud                    // a plain point cloud: isA(POINT_CLOUD)
    | DerivedCloud                  // another cloud class: isKindOf(POINT_CLOUD) but not isA(POINT_CLOUD)
    | Mesh(standardVertices: bool)  // isKindOf(MESH); standardVertices when its vertices are a plain point cloud
    | HierarchyGroup                // a plain group node: isA(HIERARCHY_OBJECT)
    | Other                         // polylines, labels and every other kind

  /** What the bindings use of a node: its kind, name, points (clouds) and scalar-field names. */
  datatype Entity = Entity(kind: Kind, name: string, points: seq<Point>, fields: set<string>)

  /** A cloud of any class: isKindOf(POINT_CLOUD). */
  predicate IsKindOfCloud(k: Kind) {
    k == PointCloud || k == DerivedCloud
  }

  /** The entities of a cloud kind, in order. */
  function CloudsOf(entities: seq<Entity>): (r: seq<Entity>)
    ensures |r| <= |entities|
  {
    if entities == [] then []
    else
      var e := entities[|entities| - 1];
      CloudsOf(entities[..|entities| - 1]) + (if IsKindOfCloud(e.kind) then [e] else [])
  }

  /** An entity is kept exactly when it is one of the inputs and a cloud. */
  lemma {:induction false} CloudsOfMembers(entities: seq<Entity>)
    ensures forall e :: e in CloudsOf(entities) <==> e in entities && IsKindOfCloud(e.kind)
  {
    if entities != [] {
      var init := entities[..|entities| - 1];
      CloudsOfMembers(init);
      assert entities == init + [entities[|entities| - 1]];
    }
  }

  /**
   * The tree: the entity of each node, the parent of each attached node, and
   * the depth of each node, which witnesses that the parent links have no cycle.
   */
  datatype Tree = Tree(nodes: map<Node, Entity>, parent: map<Node, Node>, depth: map<Node, nat>)

  /** Every parent is one level above its child, so following parents always ends at a root. */
  ghost predicate Valid(t: Tree) {
    forall n :: n in t.parent ==>
      n in t.depth && t.parent[n] in t.depth && t.depth[n] == t.depth[t.parent[n]] + 1
  }

  function Depth(t: Tree, n: Node): nat {
    if n in t.depth then t.depth[n] else 0
  }

  /** The kind of a node; a node the tree does not know is of no kind the bindings handle. */
  function KindOf(t: Tree, n: Node): Kind {
    if n in t.nodes then t.nodes[n].kind else Other
  }

  function PointsOf(t: Tree, n: Node): seq<Point> {
    if n in t.nodes then t.nodes[n].points else []
  }

  function FieldsOf(t: Tree, n: Node): set<string> {
    if n in t.nodes then t.nodes[n].fields else {}
  }

  /** `a` is a strict ancestor of `b` (ccHObject::isAncestorOf): some parent of a parent ... of b is a. */
  predicate IsAncestor(t: Tree, a: Node, b: Node)
    requires Valid(t)
    decreases Depth(t, b)
  {
    b in t.parent && (t.parent[b] == a || IsAncestor(t, a, t.parent[b]))
  }

  lemma {:induction false} AncestorIsShallower(t: Tree, a: Node, b: Node)
    requires Valid(t) && IsAncestor(t, a, b)
    ensures a in t.depth && Depth(t, a) < Depth(t, b)
    decreases Depth(t, b)
  {
    var p := t.parent[b];
    if p != a {
      AncestorIsShallower(t, a, p);
    }
  }

  /** No node is its own ancestor. */
  lemma AncestorIrreflexive(t: Tree, a: Node)
    requires Valid(t)
    ensures !IsAncestor(t, a, a)
  {
    if IsAncestor(t, a, a) {
      AncestorIsShallower(t, a, a);
    }
  }

  /** Two nodes are never ancestors of each other. */
  lemma AncestorAsymmetric(t: Tree, a: Node, b: Node)
    requires Valid(t) && IsAncestor(t, a, b)
    ensures !IsAncestor(t, b, a)
  {
    AncestorIsShallower(t, a, b);
    if IsAncestor(t, b, a) {
      AncestorIsShallower(t, b, a);
    }
  }

  lemma {:induction false} AncestorTransitive(t: Tree, a: Node, b: Node, c: Node)
    requires Valid(t) && IsAncestor(t, a, b) && IsAncestor(t, b, c)
    ensures IsAncestor(t, a, c)
    decreases Depth(t, c)
  {
    var p := t.parent[c];
    if p != b {
      AncestorTransitive(t, a, b, p);
    }
  }

  /** The children of `p` (ccHObject::getChildrenNumber counts them). */
  function Children(t: Tree, p: Node): set<Node> {
    set c | c in t.parent && t.parent[c] == p
  }

  function ChildCount(t: Tree, p: Node): nat {
    |Children(t, p)|
  }

  /** Below a group whose only child is `c`, every node is `c` or lies below `c`. */
  lemma {:induction false} OnlyChildCoversGroup(t: Tree, g: Node, c: Node, d: Node)
    requires Valid(t) && c in t.parent && t.parent[c] == g && ChildCount(t, g) == 1
    requires IsAncestor(t, g, d)
    ensures d == c || IsAncestor(t, c, d)
    decreases Depth(t, d)
  {
    var p := t.parent[d];
    if p == g {
      var kids := Children(t, g);
      assert c in kids && d in kids;
      if c != d {
        assert {c, d} <= kids;
        SubsetCardinality({c, d}, kids);
      }
    } else {
      OnlyChildCoversGroup(t, g, c, p);
    }
  }

  lemma SubsetCardinality<T>(a: set<T>, b: set<T>)
    requires a <= b
    ensures |a| <= |b|
  {
    assert b == a + (b - a);
  }

  /** Replaces the entity of a node already in the tree; the links are untouched. */
  function SetEntity(t: Tree, n: Node, e: Entity): (r: Tree)
    ensures r.parent == t.parent && r.depth == t.depth
    ensures r.nodes.Keys == t.nodes.Keys
    ensures forall m :: m in r.nodes && m != n ==> r.nodes[m] == t.nodes[m]
    ensures n in t.nodes ==> r.nodes[n] == e
  {
    if n in t.nodes then t.(nodes := t.nodes[n := e]) else t
  }

  /** `m` is still in the tree once `n` has been taken out of it. */
  predicate Survives(t: Tree, n: Node, m: Node)
    requires Valid(t)
  {
    m != n && !IsAncestor(t, n, m)
  }

  /**
   * The tree once node `n` has been removed from its parent (or deleted when
   * it has none): the library deletes a removed child together with the
   * children it owns, so `n` and everything below it disappear.
   */
  function Detach(t: Tree, n: Node): (r: Tree)
    requires Valid(t)
    ensures Valid(r)
    ensures forall m :: m in r.nodes <==> m in t.nodes && Survives(t, n, m)
    ensures forall m :: m in r.nodes ==> r.nodes[m] == t.nodes[m]
    ensures forall m :: m in r.parent <==> m in t.parent && Survives(t, n, m)
    ensures forall m :: m in r.parent ==> r.parent[m] == t.parent[m]
  {
    Tree(map m | m in t.nodes && Survives(t, n, m) :: t.nodes[m],
         map m | m in t.parent && Survives(t, n, m) :: t.parent[m],
         t.depth)
  }

  /** Removing a node does not change the ancestry of the nodes that stay. */
  lemma {:induction false} DetachKeepsAncestry(t: Tree, n: Node, a: Node, b: Node)
    requires Valid(t) && Survives(t, n, b)
    ensures IsAncestor(Detach(t, n), a, b) <==> IsAncestor(t, a, b)
    decreases Depth(t, b)
  {
    var r := Detach(t, n);
    if b in t.parent {
      var p := t.parent[b];
      assert b in r.parent && r.parent[b] == p;
      if p != a {
        DetachKeepsAncestry(t, n, a, p);
      }
    }
  }

  /** Ancestry depends on the links only, not on what the nodes hold. */
  lemma {:induction false} SameLinksSameAncestry(t: Tree, u: Tree, a: Node, b: Node)
    requires Valid(t) && u.parent == t.parent && u.depth == t.depth
    ensures Valid(u) && (IsAncestor(u, a, b) <==> IsAncestor(t, a, b))
    decreases Depth(t, b)
  {
    if b in t.parent && t.parent[b] != a {
      SameLinksSameAncestry(t, u, a, t.parent[b]);
    }
  }

  /** The tree once each node of `xs` has been taken out, in order. */
  function DetachAll(t: Tree, xs: seq<Node>): (r: Tree)
    requires Valid(t)
    ensures Valid(r)
    decreases |xs|
  {
    if xs == [] then t else Detach(DetachAll(t, xs[..|xs| - 1]), xs[|xs| - 1])
  }

  /** Removing one more node of the list. */
  lemma DetachAllStep(t: Tree, xs: seq<Node>, k: nat)
    requires Valid(t) && k < |xs|
    ensures DetachAll(t, xs[..k + 1]) == Detach(DetachAll(t, xs[..k]), xs[k])
  {
    assert xs[..k + 1][..k] == xs[..k];
  }

  /** A node is left by DetachAll exactly when it lies below none of the removed nodes. */
  lemma {:induction false} DetachAllKeeps(t: Tree, xs: seq<Node>)
    requires Valid(t)
    ensures forall m :: m in DetachAll(t, xs).nodes <==> m in t.nodes && forall x :: x in xs ==> Survives(t, x, m)
    ensures forall m :: m in DetachAll(t, xs).nodes ==> DetachAll(t, xs).nodes[m] == t.nodes[m]
    ensures forall a, m :: (forall x :: x in xs ==> Survives(t, x, m)) ==>
              (IsAncestor(DetachAll(t, xs), a, m) <==> IsAncestor(t, a, m))
    decreases |xs|, 1
  {
    if xs != [] {
      var init := xs[..|xs| - 1];
      var x := xs[|xs| - 1];
      assert xs == init + [x];
      DetachAllKeeps(t, init);
      var d := DetachAll(t, init);
      forall a, m | forall y :: y in xs ==> Survives(t, y, m)
        ensures IsAncestor(DetachAll(t, xs), a, m) <==> IsAncestor(t, a, m)
      {
        SurvivesEarlierRemovals(t, init, x, m);
        DetachKeepsAncestry(d, x, a, m);
      }
      forall m | m in d.nodes
        ensures Survives(d, x, m) <==> Survives(t, x, m)
      {
        if forall y :: y in init ==> Survives(t, y, m) {
          assert IsAncestor(d, x, m) <==> IsAncestor(t, x, m);
        }
      }
    }
  }

  /** A node at or below none of `init + [x]` is not below `x` once `init` has been removed. */
  lemma {:induction false} SurvivesEarlierRemovals(t: Tree, init: seq<Node>, x: Node, m: Node)
    requires Valid(t) && forall y :: y in init + [x] ==> Survives(t, y, m)
    ensures Survives(DetachAll(t, init), x, m)
    decreases |init| + 1, 0
  {
    DetachAllKeeps(t, init);
    assert Survives(t, x, m) by {
      assert x in init + [x];
    }
    forall y | y in init
      ensures Survives(t, y, m)
    {
      assert y in init + [x];
    }
    assert IsAncestor(DetachAll(t, init), x, m) <==> IsAncestor(t, x, m);
  }
}
