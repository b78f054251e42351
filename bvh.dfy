/** The bounding-volume hierarchy of ver28_CPU/BVH.hpp: `BVHAccel` builds
    a binary tree over the scene's entities by object-median splits and
    answers the frustum query by a pruned depth-first walk. Each entity is
    known by its handle; `box` gives its world box (`globalBoundingVolume`)
    at the time of the build. */
module Bvh {
  import opened LinAlg
  import opened Geometry
  import opened Trees

  /** The world box of each entity. */
  type BoxOf = Handle -> AABB

  /** A node holds one entity (a leaf) or two subtrees (an interior node);
      a leaf is a node without children, as `!left && !right` tests. */
  datatype BVHNode =
    | Leaf(obj: Handle, bound: AABB)
    | Interior(left: BVHNode, right: BVHNode, bound: AABB)

  /** The entities at the leaves, left to right. */
  function Leaves(n: BVHNode): seq<Handle> {
    match n
    case Leaf(o, _) => [o]
    case Interior(l, r, _) => Leaves(l) + Leaves(r)
  }

  /** The leaf nodes themselves, left to right. */
  function LeafNodes(n: BVHNode): (ls: seq<BVHNode>)
    ensures |ls| == |Leaves(n)|
    ensures forall l :: l in ls ==> l.Leaf?
    ensures forall k :: 0 <= k < |ls| ==> ls[k].obj == Leaves(n)[k]
  {
    match n
    case Leaf(_, _) => [n]
    case Interior(l, r, _) => LeafNodes(l) + LeafNodes(r)
  }

  // ---------------------------------------------------------------------
  // Building

  /** Center of an entity's box on `axis`: the key the build sorts by. */
  function Key(box: BoxOf, h: Handle, axis: nat): real
    requires axis < 3
  {
    Component(box(h).center, axis)
  }

  /** Non-decreasing centers on `axis`: what `std::sort` with the `<`
      comparator on that coordinate produces. */
  ghost predicate SortedOn(box: BoxOf, s: seq<Handle>, axis: nat)
    requires axis < 3
  {
    forall i, j :: 0 <= i < j < |s| ==> Key(box, s[i], axis) <= Key(box, s[j], axis)
  }

  /** The box the build loop accumulates: `Union` of the first two boxes,
      then each further box in list order. */
  function UnionPrefix(box: BoxOf, objs: seq<Handle>, n: nat): AABB
    requires 2 <= n <= |objs|
    decreases n
  {
    if n == 2 then Union(box(objs[0]), box(objs[1]))
    else Union(UnionPrefix(box, objs, n - 1), box(objs[n - 1]))
  }

  /** The accumulated box contains the box of every entity it has seen. */
  lemma {:induction false} UnionPrefixContains(box: BoxOf, objs: seq<Handle>, n: nat)
    requires 2 <= n <= |objs|
    ensures Consistent(UnionPrefix(box, objs, n))
    ensures forall k :: 0 <= k < n ==> Contains(UnionPrefix(box, objs, n), box(objs[k]))
    decreases n
  {
    if n > 2 {
      UnionPrefixContains(box, objs, n - 1);
      var u := UnionPrefix(box, objs, n - 1);
      forall k | 0 <= k < n - 1
        ensures Contains(UnionPrefix(box, objs, n), box(objs[k]))
      {
        ContainsTransitive(UnionPrefix(box, objs, n), u, box(objs[k]));
      }
    }
  }

  /** `recursiveBuild` on a non-empty list: one entity gives a leaf with
      that entity's box; two give an interior node over two leaves in list
      order; more are sorted by center along the longest axis of their
      union and split at `size / 2`. Every interior bound is the `Union` of
      its children's bounds. The sort is not stable, so any sorted
      permutation of the list is allowed. */
  ghost predicate IsMedianSplit(box: BoxOf, objs: seq<Handle>, n: BVHNode)
    decreases n, 1
  {
    if |objs| == 1 then
      n == Leaf(objs[0], box(objs[0]))
    else if |objs| == 2 then
      n == Interior(Leaf(objs[0], box(objs[0])), Leaf(objs[1], box(objs[1])),
                    Union(box(objs[0]), box(objs[1])))
    else
      |objs| >= 3 && n.Interior? && n.bound == Union(n.left.bound, n.right.bound) &&
      exists sorted: seq<Handle> :: SplitBy(box, objs, n, sorted)
  }

  /** `sorted` is the list sorted along the longest axis of its union, and
      the two children are built from its halves. */
  ghost predicate SplitBy(box: BoxOf, objs: seq<Handle>, n: BVHNode, sorted: seq<Handle>)
    requires |objs| >= 3 && n.Interior?
    decreases n, 0
  {
    |sorted| == |objs| && multiset(sorted) == multiset(objs) &&
    SortedOn(box, sorted, MaxExtent(UnionPrefix(box, objs, |objs|))) &&
    IsMedianSplit(box, sorted[..|objs| / 2], n.left) &&
    IsMedianSplit(box, sorted[|objs| / 2..], n.right)
  }

  /** The in-place `std::sort` of the build: an insertion sort by center
      on `axis`. */
  method SortByCenter(box: BoxOf, a: array<Handle>, axis: nat)
    requires axis < 3
    modifies a
    ensures SortedOn(box, a[..], axis)
    ensures multiset(a[..]) == multiset(old(a[..]))
  {
    for i := 0 to a.Length
      invariant SortedOn(box, a[..i], axis)
      invariant multiset(a[..]) == multiset(old(a[..]))
    {
      InsertLast(box, a, i, axis);
    }
    assert a[..a.Length] == a[..];
  }

  /** One insertion step: `a[i]` moves down into the sorted prefix `a[..i]`. */
  method InsertLast(box: BoxOf, a: array<Handle>, i: nat, axis: nat)
    requires axis < 3 && i < a.Length && SortedOn(box, a[..i], axis)
    modifies a
    ensures SortedOn(box, a[..i + 1], axis)
    ensures multiset(a[..]) == multiset(old(a[..]))
  {
    var j := i;
    while j > 0 && Key(box, a[j], axis) < Key(box, a[j - 1], axis)
      invariant 0 <= j <= i
      invariant multiset(a[..]) == multiset(old(a[..]))
      invariant forall p, q :: 0 <= p < q <= i && q != j ==> Key(box, a[p], axis) <= Key(box, a[q], axis)
    {
      Swap(a, j - 1, j);
      j := j - 1;
    }
  }

  method Swap(a: array<Handle>, i: nat, j: nat)
    requires i < j < a.Length
    modifies a
    ensures a[..] == old(a[..])[i := old(a[j])][j := old(a[i])]
    ensures multiset(a[..]) == multiset(old(a[..]))
  {
    a[i], a[j] := a[j], a[i];
  }

  /** The loop of `recursiveBuild` that unions the boxes of all entities. */
  method UnionAll(box: BoxOf, objs: seq<Handle>) returns (u: AABB)
    requires |objs| >= 2
    ensures u == UnionPrefix(box, objs, |objs|)
  {
    u := Union(box(objs[0]), box(objs[1]));
    for i := 2 to |objs|
      invariant u == UnionPrefix(box, objs, i)
    {
      u := Union(u, box(objs[i]));
    }
  }

  /** `recursiveBuild`. The list is a value: the caller's list is never
      reordered, only the local copy is sorted. */
  method RecursiveBuild(box: BoxOf, objs: seq<Handle>) returns (n: BVHNode)
    requires |objs| > 0
    ensures IsMedianSplit(box, objs, n)
    decreases |objs|
  {
    if |objs| == 1 {
      n := Leaf(objs[0], box(objs[0]));
    } else if |objs| == 2 {
      var l := RecursiveBuild(box, [objs[0]]);
      var r := RecursiveBuild(box, [objs[1]]);
      n := Interior(l, r, Union(l.bound, r.bound));
    } else {
      var unionBound := UnionAll(box, objs);
      var axis := MaxExtent(unionBound);
      var a := new Handle[|objs|](k requires 0 <= k < |objs| => objs[k]);
      assert a[..] == objs;
      SortByCenter(box, a, axis);
      var sorted := a[..];
      var mid := |objs| / 2;
      var l := RecursiveBuild(box, sorted[..mid]);
      var r := RecursiveBuild(box, sorted[mid..]);
      n := Interior(l, r, Union(l.bound, r.bound));
      assert SplitBy(box, objs, n, sorted);
    }
  }

  /** The leaves of the built tree are the input entities, each as often as
      it occurs in the input. */
  lemma {:induction false} BuildLeaves(box: BoxOf, objs: seq<Handle>, n: BVHNode)
    requires IsMedianSplit(box, objs, n)
    ensures multiset(Leaves(n)) == multiset(objs) && |Leaves(n)| == |objs|
    decreases n
  {
    if |objs| == 1 {
      assert objs == [objs[0]];
    } else if |objs| == 2 {
      assert objs == [objs[0], objs[1]];
    } else {
      var sorted: seq<Handle> :| SplitBy(box, objs, n, sorted);
      var m := |objs| / 2;
      BuildLeaves(box, sorted[..m], n.left);
      BuildLeaves(box, sorted[m..], n.right);
      Halves(sorted, m, Leaves(n.left), Leaves(n.right));
    }
  }

  lemma Halves(s: seq<Handle>, m: nat, l: seq<Handle>, r: seq<Handle>)
    requires m <= |s| && multiset(l) == multiset(s[..m]) && multiset(r) == multiset(s[m..])
    ensures multiset(l + r) == multiset(s)
  {
    assert s == s[..m] + s[m..];
  }

  /** For three or more entities the halves have `size / 2` and
      `size - size / 2` leaves, so both are non-empty and they add up. */
  lemma SplitSizes(box: BoxOf, objs: seq<Handle>, n: BVHNode)
    requires IsMedianSplit(box, objs, n) && |objs| >= 3
    ensures n.Interior?
    ensures |Leaves(n.left)| == |objs| / 2 && |Leaves(n.right)| == |objs| - |objs| / 2
    ensures |Leaves(n.left)| >= 1 && |Leaves(n.right)| >= 1
  {
    var sorted: seq<Handle> :| SplitBy(box, objs, n, sorted);
    BuildLeaves(box, sorted[..|objs| / 2], n.left);
    BuildLeaves(box, sorted[|objs| / 2..], n.right);
  }

  /** Leaf bounds are the entities' boxes and interior bounds the `Union`
      of their children's. */
  ghost predicate BoundsConsistent(box: BoxOf, n: BVHNode) {
    match n
    case Leaf(o, b) => b == box(o)
    case Interior(l, r, b) => b == Union(l.bound, r.bound) && BoundsConsistent(box, l) && BoundsConsistent(box, r)
  }

  lemma {:induction false} BuildBounds(box: BoxOf, objs: seq<Handle>, n: BVHNode)
    requires IsMedianSplit(box, objs, n)
    ensures BoundsConsistent(box, n)
    decreases n
  {
    if |objs| >= 3 {
      var sorted: seq<Handle> :| SplitBy(box, objs, n, sorted);
      BuildBounds(box, sorted[..|objs| / 2], n.left);
      BuildBounds(box, sorted[|objs| / 2..], n.right);
    }
  }

  /** Every node's bound contains the bound of every leaf below it, and is
      consistent when the entities' boxes are. */
  lemma {:induction false} BoundContainsLeaves(box: BoxOf, n: BVHNode)
    requires BoundsConsistent(box, n)
    requires forall h :: h in Leaves(n) ==> Consistent(box(h))
    ensures Consistent(n.bound)
    ensures forall l :: l in LeafNodes(n) ==>
              l.obj in Leaves(n) && l.bound == box(l.obj) && Contains(n.bound, l.bound)
    decreases n
  {
    match n
    case Leaf(o, b) =>
    case Interior(l, r, b) =>
      BoundContainsLeaves(box, l);
      BoundContainsLeaves(box, r);
      forall x | x in LeafNodes(n)
        ensures Contains(b, x.bound)
      {
        if x in LeafNodes(l) {
          ContainsTransitive(b, l.bound, x.bound);
        } else {
          ContainsTransitive(b, r.bound, x.bound);
        }
      }
  }

  // ---------------------------------------------------------------------
  // The frustum query

  /** The entities `updateVisibleObject` appends: nothing below a node
      whose bound fails the frustum, the entity of a passing leaf, and
      otherwise the left subtree's then the right subtree's. */
  function Visible(n: BVHNode, f: Frustum): seq<Handle> {
    if !IsOnFrustum(n.bound, f) then []
    else match n
      case Leaf(o, _) => [o]
      case Interior(l, r, _) => Visible(l, f) + Visible(r, f)
  }

  /** Each leaf's entity together with the bounds on the path from the
      root down to it (root first), below a path `prefix`. */
  function PathsUnder(n: BVHNode, prefix: seq<AABB>): seq<(Handle, seq<AABB>)> {
    match n
    case Leaf(o, b) => [(o, prefix + [b])]
    case Interior(l, r, b) => PathsUnder(l, prefix + [b]) + PathsUnder(r, prefix + [b])
  }

  predicate AllPass(path: seq<AABB>, f: Frustum) {
    forall k :: 0 <= k < |path| ==> IsOnFrustum(path[k], f)
  }

  lemma AllPassAppend(path: seq<AABB>, b: AABB, f: Frustum)
    ensures AllPass(path + [b], f) <==> AllPass(path, f) && IsOnFrustum(b, f)
  {
    var p := path + [b];
    assert forall k :: 0 <= k < |path| ==> p[k] == path[k];
    assert p[|path|] == b;
  }

  /** The entities, in order, whose whole path passes the frustum. */
  function PathPassing(ts: seq<(Handle, seq<AABB>)>, f: Frustum): seq<Handle> {
    if ts == [] then []
    else (if AllPass(ts[0].1, f) then [ts[0].0] else []) + PathPassing(ts[1..], f)
  }

  lemma {:induction false} PathPassingConcat(a: seq<(Handle, seq<AABB>)>, b: seq<(Handle, seq<AABB>)>, f: Frustum)
    ensures PathPassing(a + b, f) == PathPassing(a, f) + PathPassing(b, f)
    decreases |a|
  {
    if a != [] {
      assert (a + b)[0] == a[0];
      assert (a + b)[1..] == a[1..] + b;
      PathPassingConcat(a[1..], b, f);
      var x := if AllPass(a[0].1, f) then [a[0].0] else [];
      assert PathPassing(a + b, f) == x + (PathPassing(a[1..], f) + PathPassing(b, f));
      assert x + (PathPassing(a[1..], f) + PathPassing(b, f)) == (x + PathPassing(a[1..], f)) + PathPassing(b, f);
    } else {
      assert a + b == b;
    }
  }

  /** Below a failing path nothing passes; below a passing one, the leaves
      the query reaches. */
  lemma {:induction false} VisibleUnder(n: BVHNode, prefix: seq<AABB>, f: Frustum)
    ensures PathPassing(PathsUnder(n, prefix), f) == if AllPass(prefix, f) then Visible(n, f) else []
    decreases n
  {
    AllPassAppend(prefix, n.bound, f);
    match n
    case Leaf(o, b) =>
      assert PathsUnder(n, prefix)[1..] == [];
    case Interior(l, r, b) =>
      VisibleUnder(l, prefix + [b], f);
      VisibleUnder(r, prefix + [b], f);
      PathPassingConcat(PathsUnder(l, prefix + [b]), PathsUnder(r, prefix + [b]), f);
  }

  /** The query returns exactly the leaves whose own bound and every
      ancestor's bound pass all six planes, in left-to-right order. */
  lemma VisibleIsPathPassing(n: BVHNode, f: Frustum)
    ensures Visible(n, f) == PathPassing(PathsUnder(n, []), f)
  {
    VisibleUnder(n, [], f);
  }

  /** The entities, in order, of the leaves whose own bound passes. */
  function OnFrustumLeaves(ls: seq<BVHNode>, f: Frustum): seq<Handle>
    requires forall l :: l in ls ==> l.Leaf?
  {
    if ls == [] then []
    else (if IsOnFrustum(ls[0].bound, f) then [ls[0].obj] else []) + OnFrustumLeaves(ls[1..], f)
  }

  lemma {:induction false} OnFrustumLeavesConcat(a: seq<BVHNode>, b: seq<BVHNode>, f: Frustum)
    requires forall l :: l in a ==> l.Leaf?
    requires forall l :: l in b ==> l.Leaf?
    ensures OnFrustumLeaves(a + b, f) == OnFrustumLeaves(a, f) + OnFrustumLeaves(b, f)
    decreases |a|
  {
    if a != [] {
      assert (a + b)[0] == a[0];
      assert (a + b)[1..] == a[1..] + b;
      OnFrustumLeavesConcat(a[1..], b, f);
      var x := if IsOnFrustum(a[0].bound, f) then [a[0].obj] else [];
      assert OnFrustumLeaves(a + b, f) == x + (OnFrustumLeaves(a[1..], f) + OnFrustumLeaves(b, f));
      assert x + (OnFrustumLeaves(a[1..], f) + OnFrustumLeaves(b, f)) == (x + OnFrustumLeaves(a[1..], f)) + OnFrustumLeaves(b, f);
    } else {
      assert a + b == b;
    }
  }

  /** No leaf of a node failing the frustum passes on its own (the
      contrapositive of monotonicity, since the bound contains them). */
  lemma NoneBelowFailing(box: BoxOf, n: BVHNode, f: Frustum)
    requires BoundsConsistent(box, n)
    requires forall h :: h in Leaves(n) ==> Consistent(box(h))
    requires !IsOnFrustum(n.bound, f)
    ensures OnFrustumLeaves(LeafNodes(n), f) == []
  {
    BoundContainsLeaves(box, n);
    var ls := LeafNodes(n);
    forall x | x in ls
      ensures !IsOnFrustum(x.bound, f)
    {
      if IsOnFrustum(x.bound, f) {
        FrustumTestMonotone(n.bound, x.bound, f);
      }
    }
    NoPassing(ls, f);
  }

  lemma {:induction false} NoPassing(ls: seq<BVHNode>, f: Frustum)
    requires forall l :: l in ls ==> l.Leaf? && !IsOnFrustum(l.bound, f)
    ensures OnFrustumLeaves(ls, f) == []
    decreases |ls|
  {
    if ls != [] {
      assert forall l :: l in ls[1..] ==> l in ls;
      NoPassing(ls[1..], f);
    }
  }

  /** The pruning never loses a leaf: on a tree whose bounds are built as
      `recursiveBuild` builds them, the query returns exactly the leaves
      whose own box passes the frustum, in left-to-right order. */
  lemma {:induction false} VisibleIsLeafFilter(box: BoxOf, n: BVHNode, f: Frustum)
    requires BoundsConsistent(box, n)
    requires forall h :: h in Leaves(n) ==> Consistent(box(h))
    ensures Visible(n, f) == OnFrustumLeaves(LeafNodes(n), f)
    decreases n
  {
    if !IsOnFrustum(n.bound, f) {
      NoneBelowFailing(box, n, f);
    } else {
      match n
      case Leaf(o, b) =>
        assert LeafNodes(n)[1..] == [];
      case Interior(l, r, b) =>
        VisibleIsLeafFilter(box, l, f);
        VisibleIsLeafFilter(box, r, f);
        OnFrustumLeavesConcat(LeafNodes(l), LeafNodes(r), f);
    }
  }

  /** The query reports only entities the tree holds. */
  lemma {:induction false} VisibleInLeaves(n: BVHNode, f: Frustum, h: Handle)
    requires h in Visible(n, f)
    ensures h in Leaves(n)
  {
    match n
    case Leaf(_, _) =>
    case Interior(l, r, _) =>
      if h in Visible(l, f) {
        VisibleInLeaves(l, f, h);
      } else {
        VisibleInLeaves(r, f, h);
      }
  }

  /** The tree an accelerator holds over `objs`: none for an empty list,
      an object-median tree otherwise. */
  ghost predicate BuiltOver(box: BoxOf, objs: seq<Handle>, root: Option<BVHNode>) {
    if |objs| == 0 then root.None? else root.Some? && IsMedianSplit(box, objs, root.value)
  }

  /** The query result of an optional root: no tree sees nothing. */
  function VisibleFrom(root: Option<BVHNode>, f: Frustum): seq<Handle> {
    if root.Some? then Visible(root.value, f) else []
  }

  /** Whatever the query reports was in the list the tree was built over;
      an empty list reports nothing. */
  lemma BuiltVisibleInList(box: BoxOf, objs: seq<Handle>, root: Option<BVHNode>, f: Frustum)
    requires BuiltOver(box, objs, root)
    ensures forall h :: h in VisibleFrom(root, f) ==> h in objs
    ensures |objs| == 0 ==> VisibleFrom(root, f) == []
  {
    if root.Some? {
      BuildLeaves(box, objs, root.value);
      forall h | h in VisibleFrom(root, f)
        ensures h in objs
      {
        VisibleInLeaves(root.value, f, h);
        assert h in multiset(Leaves(root.value));
      }
    }
  }

  /** The zero box at the origin: the bound of a default-constructed node. */
  const ZeroBox := AABB(Vec3(0.0, 0.0, 0.0), Vec3(0.0, 0.0, 0.0), Vec3(0.0, 0.0, 0.0), Vec3(0.0, 0.0, 0.0))

  /** `recursiveBuild` on an empty list as written: `new BVHNode()`
      value-initialises the node, so its bound is the zero box and its
      `obj` the null pointer (`nullObj` stands for that pointer, which no
      entity handle denotes). Having no children, it is a leaf to
      `updateVisibleObject`. */
  function EmptyBuildAsWritten(nullObj: Handle): (n: BVHNode)
    ensures n.Leaf? && Leaves(n) == [nullObj]
  {
    Leaf(nullObj, ZeroBox)
  }

  /** The query over that node reports the null pointer exactly when the
      origin lies on the inner side of all six planes, although no entity
      was given to the build; the draw loops then dereference it
      (`entity->isInstanced`). */
  lemma EmptyBuildReportsNull(nullObj: Handle, f: Frustum)
    ensures Visible(EmptyBuildAsWritten(nullObj), f)
              == if forall k :: 0 <= k < 6 ==> Faces(f)[k].distance <= 0.0 then [nullObj] else []
  {
    forall pl: Plane
      ensures IsOnOrAbovePlane(ZeroBox, pl) <==> pl.distance <= 0.0
    {
      assert Radius(ZeroBox.extents, pl.normal) == 0.0;
      assert SignedDistance(pl, ZeroBox.center) == -pl.distance;
    }
  }

  /** The accelerator: the entity list it was built from and the root,
      absent when the list was empty. */
  class BVHAccel {
    var objects: seq<Handle>
    var root: Option<BVHNode>

    /** `BVHAccel(objList)`: keeps a copy of the list and builds over it;
        an empty list gets no tree rather than a leaf without an entity. */
    constructor (box: BoxOf, objList: seq<Handle>)
      ensures objects == objList && BuiltOver(box, objects, root)
    {
      objects := objList;
      if |objList| == 0 {
        root := None;
      } else {
        var r := RecursiveBuild(box, objList);
        root := Some(r);
      }
    }

    /** `updateVisibleObject`: appends the query result below `node` to
        `visList`; a null node appends nothing. */
    method UpdateVisibleObject(node: Option<BVHNode>, f: Frustum, visList: seq<Handle>) returns (out: seq<Handle>)
      ensures out == visList + VisibleFrom(node, f)
      decreases if node.Some? then node.value else Leaf(0, ZeroBox)
    {
      out := visList;
      if node.None? {
        return;
      }
      var n := node.value;
      if !IsOnFrustum(n.bound, f) {
        return;
      }
      match n
      case Leaf(o, _) =>
        out := out + [o];
      case Interior(l, r, _) =>
        out := UpdateVisibleObject(Some(l), f, out);
        out := UpdateVisibleObject(Some(r), f, out);
    }
  }
}
