/** `Transform` and `Entity` of ver28_CPU/BVH.hpp: local translation,
    Euler rotation and scale, the cached world matrix with its dirty flag,
    and the scene graph whose `updateSelfAndChild` recomputes world
    matrices and world boxes. Entities live in the arena `SceneGraph.nodes`
    and refer to each other by index; `glm::rotate` (with the degree to
    radian conversion) is an input, since it needs sine and cosine. */
module Entities {
  import opened LinAlg
  import opened Geometry
  import opened Trees

  /** Identity of a loaded `Model` (the source keys its maps by pointer). */
  type ModelId = nat

  /** A loaded model: its key and the vertex positions of each mesh. */
  datatype Model = Model(key: ModelId, meshes: seq<seq<Vec3>>)

  /** `glm::rotate(glm::mat4(1), glm::radians(degrees), axis)`. */
  type RotationFn = (real, Vec3) -> Mat4

  datatype Transform = Transform(trans: Vec3, eulerRot: Vec3, scale: Vec3,
                                 modelMatrix: Mat4, isDirty: bool)

  /** Default member values: no translation or rotation, unit scale,
      identity matrix, and dirty so that the first update computes it. */
  function InitialTransform(): Transform {
    Transform(Vec3(0.0, 0.0, 0.0), Vec3(0.0, 0.0, 0.0), Vec3(1.0, 1.0, 1.0), Identity(), true)
  }

  /** `getLocalModelMatrix`: translation * (Y * X * Z rotation) * scale. */
  function LocalMatrix(t: Transform, rotate: RotationFn): Mat4 {
    var rotateX := rotate(t.eulerRot.x, Vec3(1.0, 0.0, 0.0));
    var rotateY := rotate(t.eulerRot.y, Vec3(0.0, 1.0, 0.0));
    var rotateZ := rotate(t.eulerRot.z, Vec3(0.0, 0.0, 1.0));
    Mul(Mul(Translation(t.trans), Mul(Mul(rotateY, rotateX), rotateZ)), Scaling(t.scale))
  }

  /** A rotation keeps the origin fixed: its fourth column is (0, 0, 0, 1). */
  predicate FixesOrigin(r: Mat4) {
    r.c3 == Vec4(0.0, 0.0, 0.0, 1.0)
  }

  lemma MulFixesOrigin(a: Mat4, b: Mat4)
    requires FixesOrigin(b)
    ensures Mul(a, b).c3 == a.c3
  {
  }

  /** The translation column of the local matrix is the local position
      whenever the three rotations fix the origin, so `getGlobalPosition`
      of a root entity is its `m_trans`. */
  lemma LocalMatrixPosition(t: Transform, rotate: RotationFn)
    requires FixesOrigin(rotate(t.eulerRot.x, Vec3(1.0, 0.0, 0.0)))
    requires FixesOrigin(rotate(t.eulerRot.y, Vec3(0.0, 1.0, 0.0)))
    requires FixesOrigin(rotate(t.eulerRot.z, Vec3(0.0, 0.0, 1.0)))
    ensures LocalMatrix(t, rotate).c3 == Vec4(t.trans.x, t.trans.y, t.trans.z, 1.0)
  {
    var rotateX := rotate(t.eulerRot.x, Vec3(1.0, 0.0, 0.0));
    var rotateY := rotate(t.eulerRot.y, Vec3(0.0, 1.0, 0.0));
    var rotateZ := rotate(t.eulerRot.z, Vec3(0.0, 0.0, 1.0));
    MulFixesOrigin(rotateY, rotateX);
    MulFixesOrigin(Mul(rotateY, rotateX), rotateZ);
    var r := Mul(Mul(rotateY, rotateX), rotateZ);
    assert FixesOrigin(r);
    MulFixesOrigin(Translation(t.trans), r);
    MulFixesOrigin(Mul(Translation(t.trans), r), Scaling(t.scale));
  }

  /** Both `computeModelMatrix` overloads: the world matrix is the parent's
      world matrix times the local one, or the local one for a root. The
      dirty flag is left alone (the source has that line commented out). */
  function ComputeModelMatrix(t: Transform, parentMatrix: Option<Mat4>, rotate: RotationFn): (r: Transform)
    ensures r.isDirty == t.isDirty
    ensures r.trans == t.trans && r.eulerRot == t.eulerRot && r.scale == t.scale
    ensures parentMatrix.None? ==> r.modelMatrix == LocalMatrix(t, rotate)
    ensures parentMatrix.Some? ==> r.modelMatrix == Mul(parentMatrix.value, LocalMatrix(t, rotate))
  {
    match parentMatrix
    case None => t.(modelMatrix := LocalMatrix(t, rotate))
    case Some(p) => t.(modelMatrix := Mul(p, LocalMatrix(t, rotate)))
  }

  /** An entity: its tree links, the instancing flag, its transform, the
      model it draws, the model-space box and the world box, and the
      per-model instance id that the scene assigns. */
  datatype Entity = Entity(children: seq<Handle>, parent: Option<Handle>, isInstanced: bool,
                           transform: Transform, model: ModelId,
                           localBox: AABB, globalBox: AABB, id: nat)

  /** The tree structure of an arena. */
  ghost function Shape(ns: seq<Entity>): (sh: seq<Links>)
    ensures |sh| == |ns|
    ensures forall j :: 0 <= j < |ns| ==> sh[j] == Links(ns[j].children, ns[j].parent)
  {
    seq(|ns|, j requires 0 <= j < |ns| => Links(ns[j].children, ns[j].parent))
  }

  /** Replacing one entity by one with the same links keeps the shape. */
  lemma ShapeUpdate(ns: seq<Entity>, i: Handle, e: Entity)
    requires i < |ns| && e.children == ns[i].children && e.parent == ns[i].parent
    ensures Shape(ns[i := e]) == Shape(ns)
  {
    assert forall j :: 0 <= j < |ns| ==> Shape(ns[i := e])[j] == Shape(ns)[j];
  }

  /** Appending a root entity appends a root to the shape. */
  lemma ShapeAppendRoot(ns: seq<Entity>, e: Entity)
    requires Linked(Shape(ns)) && e.children == [] && e.parent == None
    ensures Shape(ns + [e]) == Shape(ns) + [Links([], None)] && Linked(Shape(ns + [e]))
  {
    assert Shape(ns + [e]) == Shape(ns) + [Links([], None)];
    LinkedAppendRoot(Shape(ns));
  }

  /** Appending a child of `p` and listing it among `p`'s children is
      `AttachChild` on the shape. */
  lemma ShapeAttach(ns: seq<Entity>, p: Handle, e: Entity)
    requires Linked(Shape(ns)) && p < |ns| && e.children == [] && e.parent == Some(p)
    ensures var r := ns[p := ns[p].(children := ns[p].children + [|ns|])] + [e];
            Shape(r) == AttachChild(Shape(ns), p) && Linked(Shape(r))
  {
    var r := ns[p := ns[p].(children := ns[p].children + [|ns|])] + [e];
    assert Shape(r) == AttachChild(Shape(ns), p);
    LinkedAttachChild(Shape(ns), p);
  }

  /** The entity `Entity(model, isInstanced)` constructs: default transform,
      model box from `generateAABB`, world box re-fit under the (identity)
      default matrix. */
  ghost function FreshEntity(m: Model, isInstanced: bool, parent: Option<Handle>): (e: Entity)
    ensures e.children == [] && e.parent == parent && e.isInstanced == isInstanced
    ensures e.model == m.key && e.id == 0
    ensures e.transform.isDirty && e.transform.modelMatrix == Identity()
    ensures forall i, j :: 0 <= i < |m.meshes| && 0 <= j < |m.meshes[i]| ==> InBox(m.meshes[i][j], e.localBox)
    ensures WellFormed(e.localBox) ==> e.globalBox == e.localBox
  {
    ModelBoxBounds(m.meshes);
    var local := ModelBox(m.meshes);
    if WellFormed(local) then
      RefitIdentity(local);
      Entity([], parent, isInstanced, InitialTransform(), m.key, local, Refit(local, Identity()), 0)
    else
      Entity([], parent, isInstanced, InitialTransform(), m.key, local, Refit(local, Identity()), 0)
  }

  /** The parent's world matrix, read from the arena. */
  function ParentMatrix(ns: seq<Entity>, j: Handle): Option<Mat4>
    requires j < |ns|
  {
    if ns[j].parent.Some? && ns[j].parent.value < |ns| then
      Some(ns[ns[j].parent.value].transform.modelMatrix)
    else None
  }

  /** World matrix of an entity whose transform is `t`, below `parentMatrix`. */
  function WorldMatrix(parentMatrix: Option<Mat4>, t: Transform, rotate: RotationFn): Mat4 {
    if parentMatrix.Some? then Mul(parentMatrix.value, LocalMatrix(t, rotate)) else LocalMatrix(t, rotate)
  }

  /** One node of `forceUpdateSelfAndChild`: recompute the matrix from the
      parent's; if the node was dirty, re-fit its world box and clear the flag. */
  ghost function ForceSelf(ns: seq<Entity>, i: Handle, rotate: RotationFn): (r: seq<Entity>)
    requires i < |ns|
    ensures Shape(r) == Shape(ns)
  {
    var e := ns[i];
    var t := ComputeModelMatrix(e.transform, ParentMatrix(ns, i), rotate);
    var e' := if t.isDirty
              then e.(transform := t.(isDirty := false), globalBox := Refit(e.localBox, t.modelMatrix))
              else e.(transform := t);
    ShapeUpdate(ns, i, e');
    ns[i := e']
  }

  /** `forceUpdateSelfAndChild` on `i`: the node, then each child's subtree in order. */
  ghost function ForceAll(ns: seq<Entity>, i: Handle, rotate: RotationFn): (r: seq<Entity>)
    requires Linked(Shape(ns)) && i < |ns|
    ensures Shape(r) == Shape(ns)
    decreases |ns| - i, 1, 0
  {
    ForceChildren(ForceSelf(ns, i, rotate), i, 0, rotate)
  }

  /** The forced update of the subtrees of children `k..` of `i`. */
  ghost function ForceChildren(ns: seq<Entity>, i: Handle, k: nat, rotate: RotationFn): (r: seq<Entity>)
    requires Linked(Shape(ns)) && i < |ns| && k <= |ns[i].children|
    ensures Shape(r) == Shape(ns)
    decreases |ns| - i, 0, |ns[i].children| - k
  {
    if k == |ns[i].children| then ns
    else
      var t := ForceAll(ns, ns[i].children[k], rotate);
      assert Shape(t)[i] == Shape(ns)[i];
      ForceChildren(t, i, k + 1, rotate)
  }

  /** `updateSelfAndChild` on `i`: force the subtree at the first dirty
      node, otherwise go on into the children. */
  ghost function Lazy(ns: seq<Entity>, i: Handle, rotate: RotationFn): (r: seq<Entity>)
    requires Linked(Shape(ns)) && i < |ns|
    ensures Shape(r) == Shape(ns)
    decreases |ns| - i, 1, 0
  {
    if ns[i].transform.isDirty then ForceAll(ns, i, rotate)
    else LazyChildren(ns, i, 0, rotate)
  }

  ghost function LazyChildren(ns: seq<Entity>, i: Handle, k: nat, rotate: RotationFn): (r: seq<Entity>)
    requires Linked(Shape(ns)) && i < |ns| && k <= |ns[i].children|
    ensures Shape(r) == Shape(ns)
    decreases |ns| - i, 0, |ns[i].children| - k
  {
    if k == |ns[i].children| then ns
    else
      var t := Lazy(ns, ns[i].children[k], rotate);
      assert Shape(t)[i] == Shape(ns)[i];
      LazyChildren(t, i, k + 1, rotate)
  }

  /** Node `j` of `r` is node `j` of `ns` brought up to date: its matrix is
      its parent's (new) world matrix times its local matrix, it is clean,
      and its world box was re-fit under the new matrix exactly when it was
      dirty; nothing else about it changed. */
  ghost predicate Refreshed(ns: seq<Entity>, r: seq<Entity>, j: Handle, rotate: RotationFn)
    requires j < |ns| && |r| == |ns|
  {
    var e := ns[j];
    var m := WorldMatrix(ParentMatrix(r, j), e.transform, rotate);
    r[j] == e.(transform := e.transform.(modelMatrix := m, isDirty := false),
               globalBox := if e.transform.isDirty then Refit(e.localBox, m) else e.globalBox)
  }

  /** `Refreshed` only looks at the new parent matrix and the new node. */
  lemma RefreshedTransfer(ns: seq<Entity>, t: seq<Entity>, r: seq<Entity>, j: Handle, rotate: RotationFn)
    requires j < |ns| && |t| == |ns| && |r| == |ns|
    requires Refreshed(ns, t, j, rotate) && r[j] == t[j] && ParentMatrix(r, j) == ParentMatrix(t, j)
    ensures Refreshed(ns, r, j, rotate)
  {
  }

  /** The forced update brings every node of the subtree up to date, in
      pre-order (each node uses its parent's new matrix), and leaves every
      other node as it was. */
  lemma {:induction false} ForceAllEffect(ns: seq<Entity>, i: Handle, rotate: RotationFn)
    requires Linked(Shape(ns)) && i < |ns|
    ensures var r := ForceAll(ns, i, rotate);
            (forall j :: 0 <= j < |ns| && !InSubtree(Shape(ns), i, j) ==> r[j] == ns[j])
            && (forall j :: 0 <= j < |ns| && InSubtree(Shape(ns), i, j) ==> Refreshed(ns, r, j, rotate))
    decreases |ns| - i, 1, 0
  {
    var sh := Shape(ns);
    var s := ForceSelf(ns, i, rotate);
    var r := ForceAll(ns, i, rotate);
    ForceChildrenEffect(s, i, 0, rotate);
    RootNotBelowChildren(sh, i, 0);
    forall j | 0 <= j < |ns|
      ensures !InSubtree(sh, i, j) ==> r[j] == ns[j]
      ensures InSubtree(sh, i, j) ==> Refreshed(ns, r, j, rotate)
    {
      if InLaterChildren(sh, i, 0, j) {
        LaterChildrenInside(sh, i, 0, j);
        assert Refreshed(s, r, j, rotate);
      } else if j == i {
        if ns[i].parent.Some? {
          var p := ns[i].parent.value;
          if InLaterChildren(sh, i, 0, p) {
            LaterChildrenInside(sh, i, 0, p);
            SubtreeAfterRoot(sh, i, p);
          }
          assert r[p] == ns[p];
        }
        assert ParentMatrix(r, i) == ParentMatrix(ns, i);
      } else if InSubtree(sh, i, j) {
        SubtreeSplit(sh, i, j);
      }
    }
  }

  lemma {:induction false} ForceChildrenEffect(ns: seq<Entity>, i: Handle, k: nat, rotate: RotationFn)
    requires Linked(Shape(ns)) && i < |ns| && k <= |ns[i].children|
    ensures var r := ForceChildren(ns, i, k, rotate);
            (forall j :: 0 <= j < |ns| && !InLaterChildren(Shape(ns), i, k, j) ==> r[j] == ns[j])
            && (forall j :: 0 <= j < |ns| && InLaterChildren(Shape(ns), i, k, j) ==> Refreshed(ns, r, j, rotate))
    decreases |ns| - i, 0, |ns[i].children| - k
  {
    var sh := Shape(ns);
    if k < |ns[i].children| {
      var c := ns[i].children[k];
      var t := ForceAll(ns, c, rotate);
      var r := ForceChildren(ns, i, k, rotate);
      assert Shape(t)[i] == sh[i];
      assert r == ForceChildren(t, i, k + 1, rotate);
      ForceAllEffect(ns, c, rotate);
      ForceChildrenEffect(t, i, k + 1, rotate);
      RootNotBelowChildren(sh, i, k + 1);
      forall j | 0 <= j < |ns|
        ensures !InLaterChildren(sh, i, k, j) ==> r[j] == ns[j]
        ensures InLaterChildren(sh, i, k, j) ==> Refreshed(ns, r, j, rotate)
      {
        LaterChildrenSplit(sh, i, k, j);
        if InSubtree(sh, c, j) {
          ParentOutsideLater(sh, i, k, j);
          RefreshedTransfer(ns, t, r, j, rotate);
        }
      }
    }
  }

  /** Some node on the path from `i` down to `j` (both included) is dirty. */
  ghost predicate DirtyOnPath(ns: seq<Entity>, i: Handle, j: Handle)
    requires Linked(Shape(ns)) && j < |ns|
    decreases j
  {
    ns[j].transform.isDirty
    || (j != i && ns[j].parent.Some? && DirtyOnPath(ns, i, ns[j].parent.value))
  }

  /** Below a dirty node every path is dirty. */
  lemma {:induction false} DirtyRootPath(ns: seq<Entity>, i: Handle, j: Handle)
    requires Linked(Shape(ns)) && i < |ns| && j < |ns|
    requires ns[i].transform.isDirty && InSubtree(Shape(ns), i, j)
    ensures DirtyOnPath(ns, i, j)
    decreases j
  {
    if j != i {
      DirtyRootPath(ns, i, ns[j].parent.value);
    }
  }

  /** Below a clean node, the path from it to `j` is dirty exactly when the
      path from its child above `j` is. */
  lemma {:induction false} PathThroughChild(ns: seq<Entity>, i: Handle, k: nat, j: Handle)
    requires Linked(Shape(ns)) && i < |ns| && j < |ns| && k < |ns[i].children|
    requires !ns[i].transform.isDirty && InSubtree(Shape(ns), ns[i].children[k], j)
    ensures DirtyOnPath(ns, i, j) == DirtyOnPath(ns, ns[i].children[k], j)
    decreases j
  {
    var c := ns[i].children[k];
    SubtreeAfterRoot(Shape(ns), c, j);
    if j != c {
      PathThroughChild(ns, i, k, ns[j].parent.value);
    }
  }

  /** Whether a path below `c` is dirty depends only on the subtree of `c`. */
  lemma {:induction false} DirtyOnPathFrame(ns: seq<Entity>, t: seq<Entity>, c: Handle, j: Handle)
    requires Linked(Shape(ns)) && Shape(t) == Shape(ns) && j < |ns|
    requires InSubtree(Shape(ns), c, j)
    requires forall a :: 0 <= a < |ns| && InSubtree(Shape(ns), c, a) ==> t[a] == ns[a]
    ensures DirtyOnPath(t, c, j) == DirtyOnPath(ns, c, j)
    decreases j
  {
    if j != c {
      DirtyOnPathFrame(ns, t, c, ns[j].parent.value);
    }
  }

  /** `updateSelfAndChild` brings up to date exactly the nodes of the
      subtree that have a dirty node on their path from `i` (they get the
      forced update), leaves the other nodes of the subtree untouched, and
      changes nothing outside the subtree. */
  lemma {:induction false} LazyEffect(ns: seq<Entity>, i: Handle, rotate: RotationFn)
    requires Linked(Shape(ns)) && i < |ns|
    ensures var r := Lazy(ns, i, rotate);
            (forall j :: 0 <= j < |ns| && !InSubtree(Shape(ns), i, j) ==> r[j] == ns[j])
            && (forall j :: 0 <= j < |ns| && InSubtree(Shape(ns), i, j) && DirtyOnPath(ns, i, j)
                  ==> Refreshed(ns, r, j, rotate))
            && (forall j :: 0 <= j < |ns| && InSubtree(Shape(ns), i, j) && !DirtyOnPath(ns, i, j)
                  ==> r[j] == ns[j])
    decreases |ns| - i, 1, 0
  {
    var sh := Shape(ns);
    if ns[i].transform.isDirty {
      ForceAllEffect(ns, i, rotate);
      forall j | 0 <= j < |ns| && InSubtree(sh, i, j)
        ensures DirtyOnPath(ns, i, j)
      {
        DirtyRootPath(ns, i, j);
      }
    } else {
      var r := Lazy(ns, i, rotate);
      LazyChildrenEffect(ns, i, 0, rotate);
      RootNotBelowChildren(sh, i, 0);
      forall j | 0 <= j < |ns|
        ensures !InSubtree(sh, i, j) ==> r[j] == ns[j]
        ensures InSubtree(sh, i, j) && j != i ==> InLaterChildren(sh, i, 0, j)
      {
        if InLaterChildren(sh, i, 0, j) {
          LaterChildrenInside(sh, i, 0, j);
        }
        if InSubtree(sh, i, j) && j != i {
          SubtreeSplit(sh, i, j);
        }
      }
    }
  }

  /** After the lazy update of child `k`, whether a path into a later
      child's subtree is dirty is as before. */
  lemma LaterPathUnchanged(ns: seq<Entity>, t: seq<Entity>, i: Handle, k: nat, j: Handle)
    requires Linked(Shape(ns)) && Shape(t) == Shape(ns) && i < |ns| && j < |ns| && k < |ns[i].children|
    requires !ns[i].transform.isDirty && t[i] == ns[i]
    requires forall a :: 0 <= a < |ns| && !InSubtree(Shape(ns), ns[i].children[k], a) ==> t[a] == ns[a]
    requires InLaterChildren(Shape(ns), i, k + 1, j)
    ensures DirtyOnPath(t, i, j) == DirtyOnPath(ns, i, j)
  {
    var sh := Shape(ns);
    var k' :| k + 1 <= k' < |sh[i].children| && InSubtree(sh, sh[i].children[k'], j);
    var c' := sh[i].children[k'];
    forall a | 0 <= a < |ns| && InSubtree(sh, c', a)
      ensures t[a] == ns[a]
    {
      SiblingsDisjoint(sh, i, k, k', a);
    }
    DirtyOnPathFrame(ns, t, c', j);
    PathThroughChild(ns, i, k', j);
    PathThroughChild(t, i, k', j);
  }

  lemma {:induction false} LazyChildrenEffect(ns: seq<Entity>, i: Handle, k: nat, rotate: RotationFn)
    requires Linked(Shape(ns)) && i < |ns| && k <= |ns[i].children|
    requires !ns[i].transform.isDirty
    ensures var r := LazyChildren(ns, i, k, rotate);
            (forall j :: 0 <= j < |ns| && !InLaterChildren(Shape(ns), i, k, j) ==> r[j] == ns[j])
            && (forall j :: 0 <= j < |ns| && InLaterChildren(Shape(ns), i, k, j) && DirtyOnPath(ns, i, j)
                  ==> Refreshed(ns, r, j, rotate))
            && (forall j :: 0 <= j < |ns| && InLaterChildren(Shape(ns), i, k, j) && !DirtyOnPath(ns, i, j)
                  ==> r[j] == ns[j])
    decreases |ns| - i, 0, |ns[i].children| - k
  {
    var sh := Shape(ns);
    if k < |ns[i].children| {
      var c := ns[i].children[k];
      var t := Lazy(ns, c, rotate);
      var r := LazyChildren(ns, i, k, rotate);
      assert Shape(t)[i] == sh[i];
      assert r == LazyChildren(t, i, k + 1, rotate);
      LazyEffect(ns, c, rotate);
      if InSubtree(sh, c, i) {
        SubtreeAfterRoot(sh, c, i);
      }
      assert t[i] == ns[i];
      LazyChildrenEffect(t, i, k + 1, rotate);
      RootNotBelowChildren(sh, i, k + 1);
      forall j | 0 <= j < |ns| && InLaterChildren(sh, i, k, j)
        ensures DirtyOnPath(ns, i, j) ==> Refreshed(ns, r, j, rotate)
        ensures !DirtyOnPath(ns, i, j) ==> r[j] == ns[j]
      {
        LaterChildrenSplit(sh, i, k, j);
        if InSubtree(sh, c, j) {
          PathThroughChild(ns, i, k, j);
          ParentOutsideLater(sh, i, k, j);
          if DirtyOnPath(ns, i, j) {
            RefreshedTransfer(ns, t, r, j, rotate);
          }
        } else if InLaterChildren(sh, i, k + 1, j) {
          LaterPathUnchanged(ns, t, i, k, j);
        }
      }
      forall j | 0 <= j < |ns| && !InLaterChildren(sh, i, k, j)
        ensures r[j] == ns[j]
      {
        LaterChildrenSplit(sh, i, k, j);
      }
    }
  }

  /** After `updateSelfAndChild` no node of the subtree is dirty. */
  lemma LazyCleans(ns: seq<Entity>, i: Handle, rotate: RotationFn)
    requires Linked(Shape(ns)) && i < |ns|
    ensures var r := Lazy(ns, i, rotate);
            forall j :: 0 <= j < |ns| && InSubtree(Shape(ns), i, j) ==> !r[j].transform.isDirty
  {
    LazyEffect(ns, i, rotate);
  }

  /** Without a dirty node in the subtree there is nothing to do. */
  lemma {:induction false} CleanPaths(ns: seq<Entity>, i: Handle, j: Handle)
    requires Linked(Shape(ns)) && j < |ns| && InSubtree(Shape(ns), i, j)
    requires forall a :: 0 <= a < |ns| && InSubtree(Shape(ns), i, a) ==> !ns[a].transform.isDirty
    ensures !DirtyOnPath(ns, i, j)
    decreases j
  {
    if j != i {
      CleanPaths(ns, i, ns[j].parent.value);
    }
  }

  lemma LazyOnCleanSubtree(ns: seq<Entity>, i: Handle, rotate: RotationFn)
    requires Linked(Shape(ns)) && i < |ns|
    requires forall a :: 0 <= a < |ns| && InSubtree(Shape(ns), i, a) ==> !ns[a].transform.isDirty
    ensures Lazy(ns, i, rotate) == ns
  {
    var r := Lazy(ns, i, rotate);
    LazyEffect(ns, i, rotate);
    forall j | 0 <= j < |ns| && InSubtree(Shape(ns), i, j)
      ensures !DirtyOnPath(ns, i, j)
    {
      CleanPaths(ns, i, j);
    }
    assert forall j :: 0 <= j < |ns| ==> r[j] == ns[j];
  }

  /** A second `updateSelfAndChild` with no change in between does nothing. */
  lemma LazyIdempotent(ns: seq<Entity>, i: Handle, rotate: RotationFn)
    requires Linked(Shape(ns)) && i < |ns|
    ensures Lazy(Lazy(ns, i, rotate), i, rotate) == Lazy(ns, i, rotate)
  {
    var r := Lazy(ns, i, rotate);
    LazyCleans(ns, i, rotate);
    assert Shape(r) == Shape(ns);
    LazyOnCleanSubtree(r, i, rotate);
  }

  /** A node that is dirty itself is brought up to date by the lazy update
      of any subtree holding it; with the setters below, this is what makes
      a changed position, rotation or scale reach the world matrix. */
  lemma DirtyNodeRefreshed(ns: seq<Entity>, i: Handle, h: Handle, rotate: RotationFn)
    requires Linked(Shape(ns)) && i < |ns| && h < |ns|
    requires ns[h].transform.isDirty && InSubtree(Shape(ns), i, h)
    ensures Refreshed(ns, Lazy(ns, i, rotate), h, rotate)
  {
    LazyEffect(ns, i, rotate);
  }

  /** Every stored world box is well formed. */
  ghost predicate BoxesWellFormed(ns: seq<Entity>) {
    forall h :: 0 <= h < |ns| ==> WellFormed(ns[h].globalBox)
  }

  lemma BoxesAppend(ns: seq<Entity>, e: Entity)
    requires BoxesWellFormed(ns) && WellFormed(e.globalBox)
    ensures BoxesWellFormed(ns + [e])
  {
    forall h | 0 <= h < |ns + [e]|
      ensures WellFormed((ns + [e])[h].globalBox)
    {
      if h < |ns| {
        assert (ns + [e])[h] == ns[h];
      }
    }
  }

  lemma BoxesUpdate(ns: seq<Entity>, i: Handle, e: Entity)
    requires BoxesWellFormed(ns) && i < |ns| && WellFormed(e.globalBox)
    ensures BoxesWellFormed(ns[i := e])
  {
  }

  /** The entities of one scene, in creation order; a handle is an index. */
  class SceneGraph {
    var nodes: seq<Entity>

    /** The links form a forest in handle order, and every stored world
        box is well formed (the source builds each with `getGlobalAABB`). */
    ghost predicate Valid()
      reads this
    {
      && Linked(Shape(nodes))
      && BoxesWellFormed(nodes)
    }

    constructor ()
      ensures Valid() && nodes == []
    {
      nodes := [];
    }

    /** `Entity(model, isIns)`: the model box comes from `generateAABB`,
        the world box from `getGlobalAABB` under the identity matrix. */
    static method MakeEntity(m: Model, isInstanced: bool, parent: Option<Handle>) returns (e: Entity)
      ensures e == FreshEntity(m, isInstanced, parent)
    {
      var local := GenerateAABB(m.meshes);
      e := Entity([], parent, isInstanced, InitialTransform(), m.key, local, Refit(local, Identity()), 0);
    }

    /** A new root entity. */
    method NewEntity(m: Model, isInstanced: bool) returns (h: Handle)
      requires Valid()
      modifies this
      ensures Valid()
      ensures h == |old(nodes)| && nodes == old(nodes) + [FreshEntity(m, isInstanced, None)]
    {
      var e := MakeEntity(m, isInstanced, None);
      ShapeAppendRoot(nodes, e);
      BoxesAppend(nodes, e);
      h := |nodes|;
      nodes := nodes + [e];
    }

    /** `addChild`: a new entity appended to the children of `parent`, with
        `parent` as its parent; it lies below exactly the entities that
        `parent` lies below, and no other entity changes subtree. */
    method AddChild(parent: Handle, m: Model, isInstanced: bool) returns (h: Handle)
      requires Valid() && parent < |nodes|
      modifies this
      ensures Valid()
      ensures h == |old(nodes)|
      ensures nodes == old(nodes)[parent := old(nodes)[parent].(children := old(nodes)[parent].children + [h])]
                       + [FreshEntity(m, isInstanced, Some(parent))]
      ensures Shape(nodes) == AttachChild(Shape(old(nodes)), parent)
    {
      var e := MakeEntity(m, isInstanced, Some(parent));
      h := Attach(parent, e);
    }

    /** Links a new entity `e` in as the last child of `parent`. */
    method Attach(parent: Handle, e: Entity) returns (h: Handle)
      requires Valid() && parent < |nodes| && e.children == [] && e.parent == Some(parent)
      requires WellFormed(e.globalBox)
      modifies this
      ensures Valid()
      ensures h == |old(nodes)|
      ensures nodes == old(nodes)[parent := old(nodes)[parent].(children := old(nodes)[parent].children + [h])] + [e]
      ensures Shape(nodes) == AttachChild(Shape(old(nodes)), parent)
    {
      var p := nodes[parent].(children := nodes[parent].children + [|nodes|]);
      ShapeAttach(nodes, parent, e);
      BoxesUpdate(nodes, parent, p);
      BoxesAppend(nodes[parent := p], e);
      h := |nodes|;
      nodes := nodes[parent := p] + [e];
    }

    /** `setLocalPosition`: the new local position, marked dirty. */
    method SetLocalPosition(h: Handle, v: Vec3)
      requires Valid() && h < |nodes|
      modifies this
      ensures Valid() && Shape(nodes) == Shape(old(nodes))
      ensures nodes == old(nodes)[h := old(nodes)[h].(transform := old(nodes)[h].transform.(trans := v, isDirty := true))]
    {
      var e := nodes[h].(transform := nodes[h].transform.(trans := v, isDirty := true));
      ShapeUpdate(nodes, h, e);
      BoxesUpdate(nodes, h, e);
      nodes := nodes[h := e];
    }

    /** `setLocalRotation`: the new Euler angles (degrees), marked dirty. */
    method SetLocalRotation(h: Handle, v: Vec3)
      requires Valid() && h < |nodes|
      modifies this
      ensures Valid() && Shape(nodes) == Shape(old(nodes))
      ensures nodes == old(nodes)[h := old(nodes)[h].(transform := old(nodes)[h].transform.(eulerRot := v, isDirty := true))]
    {
      var e := nodes[h].(transform := nodes[h].transform.(eulerRot := v, isDirty := true));
      ShapeUpdate(nodes, h, e);
      BoxesUpdate(nodes, h, e);
      nodes := nodes[h := e];
    }

    /** `setLocalScale`: the new scale, marked dirty. */
    method SetLocalScale(h: Handle, v: Vec3)
      requires Valid() && h < |nodes|
      modifies this
      ensures Valid() && Shape(nodes) == Shape(old(nodes))
      ensures nodes == old(nodes)[h := old(nodes)[h].(transform := old(nodes)[h].transform.(scale := v, isDirty := true))]
    {
      var e := nodes[h].(transform := nodes[h].transform.(scale := v, isDirty := true));
      ShapeUpdate(nodes, h, e);
      BoxesUpdate(nodes, h, e);
      nodes := nodes[h := e];
    }

    /** `forceUpdateSelfAndChild`: recompute this entity's world matrix from
        its parent's, re-fit the world box if dirty, then recurse into the
        children in order. */
    method ForceUpdateSelfAndChild(i: Handle, rotate: RotationFn)
      requires Valid() && i < |nodes|
      modifies this
      ensures Valid() && nodes == ForceAll(old(nodes), i, rotate)
      decreases |nodes| - i, 1
    {
      ghost var goal := ForceAll(nodes, i, rotate);
      ghost var shape := Shape(nodes);
      var e := nodes[i];
      var parentMatrix := if e.parent.Some? && e.parent.value < |nodes|
                          then Some(nodes[e.parent.value].transform.modelMatrix) else None;
      var t := ComputeModelMatrix(e.transform, parentMatrix, rotate);
      if t.isDirty {
        e := e.(transform := t.(isDirty := false), globalBox := Refit(e.localBox, t.modelMatrix));
      } else {
        e := e.(transform := t);
      }
      ShapeUpdate(nodes, i, e);
      BoxesUpdate(nodes, i, e);
      nodes := nodes[i := e];
      var k := 0;
      while k < |nodes[i].children|
        invariant Shape(nodes) == shape && Valid()
        invariant k <= |nodes[i].children|
        invariant ForceChildren(nodes, i, k, rotate) == goal
        decreases |nodes[i].children| - k
      {
        assert shape[i].children[k] > i;
        ForceUpdateSelfAndChild(nodes[i].children[k], rotate);
        k := k + 1;
      }
    }

    /** `updateSelfAndChild`: a dirty entity forces its whole subtree,
        a clean one passes the update on to its children. */
    method UpdateSelfAndChild(i: Handle, rotate: RotationFn)
      requires Valid() && i < |nodes|
      modifies this
      ensures Valid() && nodes == Lazy(old(nodes), i, rotate)
      decreases |nodes| - i, 2
    {
      if nodes[i].transform.isDirty {
        ForceUpdateSelfAndChild(i, rotate);
        return;
      }
      ghost var goal := Lazy(nodes, i, rotate);
      ghost var shape := Shape(nodes);
      var k := 0;
      while k < |nodes[i].children|
        invariant Shape(nodes) == shape && Valid()
        invariant k <= |nodes[i].children|
        invariant LazyChildren(nodes, i, k, rotate) == goal
        decreases |nodes[i].children| - k
      {
        assert shape[i].children[k] > i;
        UpdateSelfAndChild(nodes[i].children[k], rotate);
        k := k + 1;
      }
    }
  }
}
