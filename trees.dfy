/** The parent/children links of the entity tree in ver28_CPU/BVH.hpp.
    Entities live in an arena and refer to each other by index (a
    `Handle`); `Links` is the part of an entity that holds the tree
    structure. A child is always created after its parent, so a child's
    index is larger than its parent's, which gives every walk over the tree
    a termination measure. */
module Trees {
  import opened LinAlg

  type Handle = nat

  datatype Links = Links(children: seq<Handle>, parent: Option<Handle>)

  /** The links describe a forest: children point back to their parent and
      lie after it, every parent lists its child, and no child is listed
      twice. */
  ghost predicate Linked(sh: seq<Links>) {
    (forall j, k :: 0 <= j < |sh| && 0 <= k < |sh[j].children| ==>
       j < sh[j].children[k] < |sh| && sh[sh[j].children[k]].parent == Some(j))
    && (forall j :: 0 <= j < |sh| && sh[j].parent.Some? ==>
          sh[j].parent.value < j && sh[j].parent.value < |sh| && j in sh[sh[j].parent.value].children)
    && (forall j, k1, k2 :: 0 <= j < |sh| && 0 <= k1 < k2 < |sh[j].children| ==>
          sh[j].children[k1] != sh[j].children[k2])
  }

  /** `j` lies in the subtree rooted at `i`: walking up from `j` reaches `i`. */
  ghost predicate InSubtree(sh: seq<Links>, i: Handle, j: Handle)
    requires Linked(sh) && j < |sh|
    decreases j
  {
    j == i || (sh[j].parent.Some? && InSubtree(sh, i, sh[j].parent.value))
  }

  /** `j` lies in the subtree of one of the children `k..` of `i`. */
  ghost predicate InLaterChildren(sh: seq<Links>, i: Handle, k: nat, j: Handle)
    requires Linked(sh) && i < |sh| && j < |sh|
  {
    exists k' :: k <= k' < |sh[i].children| && InSubtree(sh, sh[i].children[k'], j)
  }

  lemma {:induction false} SubtreeAfterRoot(sh: seq<Links>, i: Handle, j: Handle)
    requires Linked(sh) && j < |sh| && InSubtree(sh, i, j)
    ensures i <= j
    decreases j
  {
    if j != i {
      SubtreeAfterRoot(sh, i, sh[j].parent.value);
    }
  }

  lemma {:induction false} SubtreeTransitive(sh: seq<Links>, i: Handle, a: Handle, j: Handle)
    requires Linked(sh) && a < |sh| && j < |sh|
    requires InSubtree(sh, i, a) && InSubtree(sh, a, j)
    ensures InSubtree(sh, i, j)
    decreases j
  {
    if j != a {
      SubtreeTransitive(sh, i, a, sh[j].parent.value);
    }
  }

  /** The subtree of a child lies inside the subtree of its parent. */
  lemma ChildSubtree(sh: seq<Links>, i: Handle, k: nat, j: Handle)
    requires Linked(sh) && i < |sh| && k < |sh[i].children| && j < |sh|
    requires InSubtree(sh, sh[i].children[k], j)
    ensures InSubtree(sh, i, j) && j != i
  {
    var c := sh[i].children[k];
    assert InSubtree(sh, i, c);
    SubtreeTransitive(sh, i, c, j);
    SubtreeAfterRoot(sh, c, j);
  }

  /** Every node below `i` other than `i` lies under one of its children. */
  lemma {:induction false} SubtreeSplit(sh: seq<Links>, i: Handle, j: Handle)
    requires Linked(sh) && i < |sh| && j < |sh|
    requires InSubtree(sh, i, j) && j != i
    ensures InLaterChildren(sh, i, 0, j)
    decreases j
  {
    var p := sh[j].parent.value;
    if p == i {
      var k :| 0 <= k < |sh[i].children| && sh[i].children[k] == j;
      assert InSubtree(sh, sh[i].children[k], j);
    } else {
      SubtreeSplit(sh, i, p);
      var k :| 0 <= k < |sh[i].children| && InSubtree(sh, sh[i].children[k], p);
      assert InSubtree(sh, sh[i].children[k], j);
    }
  }

  /** Two subtrees that share a node are nested. */
  lemma {:induction false} SubtreesNested(sh: seq<Links>, a: Handle, b: Handle, j: Handle)
    requires Linked(sh) && b < |sh| && j < |sh|
    requires InSubtree(sh, a, j) && InSubtree(sh, b, j) && a <= b
    ensures InSubtree(sh, a, b)
    decreases j
  {
    if j != b {
      var p := sh[j].parent.value;
      if j == a {
        SubtreeAfterRoot(sh, b, j);
      } else {
        SubtreesNested(sh, a, b, p);
      }
    }
  }

  /** Subtrees of two different children of one node are disjoint. */
  lemma SiblingsDisjoint(sh: seq<Links>, i: Handle, k1: nat, k2: nat, j: Handle)
    requires Linked(sh) && i < |sh| && j < |sh|
    requires k1 < |sh[i].children| && k2 < |sh[i].children| && k1 != k2
    ensures !(InSubtree(sh, sh[i].children[k1], j) && InSubtree(sh, sh[i].children[k2], j))
  {
    var c1, c2 := sh[i].children[k1], sh[i].children[k2];
    if InSubtree(sh, c1, j) && InSubtree(sh, c2, j) {
      assert c1 != c2;
      if c1 < c2 {
        SubtreesNested(sh, c1, c2, j);
        SubtreeAfterRoot(sh, c1, i);
      } else {
        SubtreesNested(sh, c2, c1, j);
        SubtreeAfterRoot(sh, c2, i);
      }
    }
  }

  /** A node is not in the subtree of any of its children. */
  lemma RootNotBelowChildren(sh: seq<Links>, i: Handle, k: nat)
    requires Linked(sh) && i < |sh|
    ensures !InLaterChildren(sh, i, k, i)
  {
    if InLaterChildren(sh, i, k, i) {
      var k' :| k <= k' < |sh[i].children| && InSubtree(sh, sh[i].children[k'], i);
      SubtreeAfterRoot(sh, sh[i].children[k'], i);
    }
  }

  /** The subtree of child `k` is disjoint from those of the children after it. */
  lemma LaterChildrenSplit(sh: seq<Links>, i: Handle, k: nat, j: Handle)
    requires Linked(sh) && i < |sh| && j < |sh| && k < |sh[i].children|
    ensures InLaterChildren(sh, i, k, j)
            <==> InSubtree(sh, sh[i].children[k], j) || InLaterChildren(sh, i, k + 1, j)
    ensures !(InSubtree(sh, sh[i].children[k], j) && InLaterChildren(sh, i, k + 1, j))
  {
    if InLaterChildren(sh, i, k, j) {
      var k' :| k <= k' < |sh[i].children| && InSubtree(sh, sh[i].children[k'], j);
      if k' != k {
        assert InLaterChildren(sh, i, k + 1, j);
      }
    }
    if InSubtree(sh, sh[i].children[k], j) && InLaterChildren(sh, i, k + 1, j) {
      var k' :| k + 1 <= k' < |sh[i].children| && InSubtree(sh, sh[i].children[k'], j);
      SiblingsDisjoint(sh, i, k, k', j);
    }
  }

  /** Nodes below a child of `i` lie below `i`, and are not `i`. */
  lemma LaterChildrenInside(sh: seq<Links>, i: Handle, k: nat, j: Handle)
    requires Linked(sh) && i < |sh| && j < |sh|
    requires InLaterChildren(sh, i, k, j)
    ensures InSubtree(sh, i, j) && j != i
  {
    var k' :| k <= k' < |sh[i].children| && InSubtree(sh, sh[i].children[k'], j);
    ChildSubtree(sh, i, k', j);
  }

  /** A node below child `k`, and its parent, are outside the subtrees of
      the later children. */
  lemma ParentOutsideLater(sh: seq<Links>, i: Handle, k: nat, j: Handle)
    requires Linked(sh) && i < |sh| && j < |sh| && k < |sh[i].children|
    requires InSubtree(sh, sh[i].children[k], j)
    ensures sh[j].parent.Some? && sh[j].parent.value < |sh|
    ensures !InLaterChildren(sh, i, k + 1, sh[j].parent.value)
    ensures !InLaterChildren(sh, i, k + 1, j)
  {
    var c := sh[i].children[k];
    LaterChildrenSplit(sh, i, k, j);
    if j == c {
      RootNotBelowChildren(sh, i, k + 1);
    } else {
      SubtreeAfterRoot(sh, c, j);
      LaterChildrenSplit(sh, i, k, sh[j].parent.value);
    }
  }

  /** Appending a new root (an entity made by the `Entity` constructor)
      keeps the links a forest. */
  lemma LinkedAppendRoot(sh: seq<Links>)
    requires Linked(sh)
    ensures Linked(sh + [Links([], None)])
  {
  }

  /** `addChild` on `p`: the new node goes at the end of the arena and at
      the end of `p`'s children, with `p` as its parent. */
  function AttachChild(sh: seq<Links>, p: Handle): (r: seq<Links>)
    requires p < |sh|
    ensures |r| == |sh| + 1 && r[|sh|] == Links([], Some(p))
  {
    sh[p := sh[p].(children := sh[p].children + [|sh|])] + [Links([], Some(p))]
  }

  lemma LinkedAttachChild(sh: seq<Links>, p: Handle)
    requires Linked(sh) && p < |sh|
    ensures Linked(AttachChild(sh, p))
  {
    var r := AttachChild(sh, p);
    forall j, k | 0 <= j < |r| && 0 <= k < |r[j].children|
      ensures j < r[j].children[k] < |r| && r[r[j].children[k]].parent == Some(j)
    {
      if j == p && k == |sh[p].children| {
      } else {
        assert r[j].children[k] == sh[j].children[k];
      }
    }
    forall j, k1, k2 | 0 <= j < |r| && 0 <= k1 < k2 < |r[j].children|
      ensures r[j].children[k1] != r[j].children[k2]
    {
      if j == p && k2 == |sh[p].children| {
        assert r[j].children[k1] == sh[j].children[k1];
      }
    }
  }

  /** Attaching a child does not move any existing node between subtrees. */
  lemma {:induction false} AttachKeepsSubtrees(sh: seq<Links>, p: Handle, a: Handle, j: Handle)
    requires Linked(sh) && p < |sh| && j < |sh|
    ensures (LinkedAttachChild(sh, p); InSubtree(AttachChild(sh, p), a, j) == InSubtree(sh, a, j))
    decreases j
  {
    LinkedAttachChild(sh, p);
    if j != a && sh[j].parent.Some? {
      AttachKeepsSubtrees(sh, p, a, sh[j].parent.value);
    }
  }

  /** The attached node lies below exactly the nodes `p` lies below, and itself. */
  lemma AttachedBelow(sh: seq<Links>, p: Handle, a: Handle)
    requires Linked(sh) && p < |sh|
    ensures (LinkedAttachChild(sh, p);
             InSubtree(AttachChild(sh, p), a, |sh|) <==> a == |sh| || InSubtree(sh, a, p))
  {
    LinkedAttachChild(sh, p);
    AttachKeepsSubtrees(sh, p, a, p);
  }

  /** The subtree of `i` in post-order, the order `Scene::add` appends
      entities: the subtrees of the children in turn, then `i` itself. */
  ghost function PostOrder(sh: seq<Links>, i: Handle): (r: seq<Handle>)
    requires Linked(sh) && i < |sh|
    ensures forall x :: x in r ==> i <= x < |sh|
    ensures forall k :: 0 <= k < |r| ==> i <= r[k] < |sh|
    decreases |sh| - i, 1, 0
  {
    PostOrderChildren(sh, i, 0) + [i]
  }

  /** The post-orders of the subtrees of children `k..` of `i`, in turn. */
  ghost function PostOrderChildren(sh: seq<Links>, i: Handle, k: nat): (r: seq<Handle>)
    requires Linked(sh) && i < |sh| && k <= |sh[i].children|
    ensures forall x :: x in r ==> i < x < |sh|
    ensures forall k :: 0 <= k < |r| ==> i < r[k] < |sh|
    decreases |sh| - i, 0, |sh[i].children| - k
  {
    if k == |sh[i].children| then []
    else PostOrder(sh, sh[i].children[k]) + PostOrderChildren(sh, i, k + 1)
  }

  lemma ConcatAssoc<T>(a: seq<T>, b: seq<T>, c: seq<T>)
    ensures (a + b) + c == a + (b + c)
  {
  }

  /** Stepping over child `k`: what is done grows by its subtree. */
  lemma NextChild(sh: seq<Links>, i: Handle, k: nat, done: seq<Handle>)
    requires Linked(sh) && i < |sh| && k < |sh[i].children|
    requires done + PostOrderChildren(sh, i, k) == PostOrderChildren(sh, i, 0)
    ensures (done + PostOrder(sh, sh[i].children[k])) + PostOrderChildren(sh, i, k + 1)
            == PostOrderChildren(sh, i, 0)
  {
    var sub := PostOrder(sh, sh[i].children[k]);
    var rest := PostOrderChildren(sh, i, k + 1);
    assert PostOrderChildren(sh, i, k) == sub + rest;
    ConcatAssoc(done, sub, rest);
  }

  /** The post-order lists exactly the subtree. */
  lemma {:induction false} PostOrderMembers(sh: seq<Links>, i: Handle, x: Handle)
    requires Linked(sh) && i < |sh| && x < |sh|
    ensures x in PostOrder(sh, i) <==> InSubtree(sh, i, x)
    decreases |sh| - i, 1, 0
  {
    PostOrderChildrenMembers(sh, i, 0, x);
    if InSubtree(sh, i, x) && x != i {
      SubtreeSplit(sh, i, x);
    }
    if InLaterChildren(sh, i, 0, x) {
      LaterChildrenInside(sh, i, 0, x);
    }
  }

  lemma {:induction false} PostOrderChildrenMembers(sh: seq<Links>, i: Handle, k: nat, x: Handle)
    requires Linked(sh) && i < |sh| && k <= |sh[i].children| && x < |sh|
    ensures x in PostOrderChildren(sh, i, k) <==> InLaterChildren(sh, i, k, x)
    decreases |sh| - i, 0, |sh[i].children| - k
  {
    if k < |sh[i].children| {
      PostOrderMembers(sh, sh[i].children[k], x);
      PostOrderChildrenMembers(sh, i, k + 1, x);
      LaterChildrenSplit(sh, i, k, x);
    }
  }

  /** No entry is in the subtree of an earlier entry: descendants come
      before their ancestors, and (taking an entry against itself) no
      entry appears twice. */
  ghost predicate PostOrdered(sh: seq<Links>, s: seq<Handle>)
    requires Linked(sh)
  {
    forall a, b :: 0 <= a < b < |s| && s[b] < |sh| ==> !InSubtree(sh, s[a], s[b])
  }

  lemma PostOrderedConcat(sh: seq<Links>, s: seq<Handle>, t: seq<Handle>)
    requires Linked(sh) && PostOrdered(sh, s) && PostOrdered(sh, t)
    requires forall x, y :: x in s && y in t && y < |sh| ==> !InSubtree(sh, x, y)
    ensures PostOrdered(sh, s + t)
  {
    var u := s + t;
    forall a, b | 0 <= a < b < |u| && u[b] < |sh|
      ensures !InSubtree(sh, u[a], u[b])
    {
      if b < |s| {
      } else if a >= |s| {
        assert u[a] == t[a - |s|] && u[b] == t[b - |s|];
      } else {
        assert u[a] in s && u[b] in t;
      }
    }
  }

  lemma {:induction false} PostOrderOrdered(sh: seq<Links>, i: Handle)
    requires Linked(sh) && i < |sh|
    ensures PostOrdered(sh, PostOrder(sh, i))
    decreases |sh| - i, 1, 0
  {
    var cs := PostOrderChildren(sh, i, 0);
    PostOrderChildrenOrdered(sh, i, 0);
    forall x, y | x in cs && y in [i] && y < |sh|
      ensures !InSubtree(sh, x, y)
    {
      if InSubtree(sh, x, i) {
        SubtreeAfterRoot(sh, x, i);
      }
    }
    PostOrderedConcat(sh, cs, [i]);
  }

  lemma {:induction false} PostOrderChildrenOrdered(sh: seq<Links>, i: Handle, k: nat)
    requires Linked(sh) && i < |sh| && k <= |sh[i].children|
    ensures PostOrdered(sh, PostOrderChildren(sh, i, k))
    decreases |sh| - i, 0, |sh[i].children| - k
  {
    if k < |sh[i].children| {
      var c := sh[i].children[k];
      PostOrderOrdered(sh, c);
      PostOrderChildrenOrdered(sh, i, k + 1);
      forall x, y | x in PostOrder(sh, c) && y in PostOrderChildren(sh, i, k + 1) && y < |sh|
        ensures !InSubtree(sh, x, y)
      {
        PostOrderMembers(sh, c, x);
        PostOrderChildrenMembers(sh, i, k + 1, y);
        if InSubtree(sh, x, y) {
          SubtreeTransitive(sh, c, x, y);
          LaterChildrenSplit(sh, i, k, y);
        }
      }
      PostOrderedConcat(sh, PostOrder(sh, c), PostOrderChildren(sh, i, k + 1));
    }
  }

  /** In particular the post-order has no duplicates. */
  lemma PostOrderDistinct(sh: seq<Links>, i: Handle)
    requires Linked(sh) && i < |sh|
    ensures var s := PostOrder(sh, i); forall a, b :: 0 <= a < b < |s| ==> s[a] != s[b]
  {
    var s := PostOrder(sh, i);
    PostOrderOrdered(sh, i);
    forall a, b | 0 <= a < b < |s|
      ensures s[a] != s[b]
    {
      assert s[b] in s;
    }
  }
}
