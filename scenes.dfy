/** The scene of ver28_CPU/Scene.hpp (`SSBO == 1`) and ver29_GPU/Scene.hpp
    (`SSBO == 2`): the entities added to it, the per-model bookkeeping that
    instanced drawing reads, and the culling pass that refills it every
    frame. Entities live in a `SceneGraph`; the scene holds handles. */
module Scenes {
  import opened LinAlg
  import opened Geometry
  import opened Trees
  import opened Entities
  import opened Bvh
  import opened Compute

  /** `map[key]` on an `unordered_map<Model*, unsigned>`: an absent key reads 0. */
  function Count(mp: map<ModelId, nat>, m: ModelId): nat {
    if m in mp then mp[m] else 0
  }

  /** `map[key]` on a map of vectors: an absent key reads as an empty vector. */
  function Get<T>(mp: map<ModelId, seq<T>>, m: ModelId): seq<T> {
    if m in mp then mp[m] else []
  }

  /** Every listed handle names an entity of the arena. */
  predicate InRange(ns: seq<Entity>, s: seq<Handle>) {
    forall k :: 0 <= k < |s| ==> s[k] < |ns|
  }

  /** The model of each listed entity. */
  function ModelsOf(ns: seq<Entity>, s: seq<Handle>): (r: seq<ModelId>)
    requires InRange(ns, s)
    ensures |r| == |s| && forall k :: 0 <= k < |s| ==> r[k] == ns[s[k]].model
  {
    seq(|s|, k requires 0 <= k < |s| => ns[s[k]].model)
  }

  lemma ModelsOfConcat(ns: seq<Entity>, a: seq<Handle>, b: seq<Handle>)
    requires InRange(ns, a) && InRange(ns, b)
    ensures InRange(ns, a + b) && ModelsOf(ns, a + b) == ModelsOf(ns, a) + ModelsOf(ns, b)
  {
  }

  /** `entity->isInstanced` for an entity of model `m`. */
  predicate InstanceOf(ns: seq<Entity>, h: Handle, m: ModelId) {
    h < |ns| && ns[h].isInstanced && ns[h].model == m
  }

  /** The instanced entities of model `m` in `s`, in the order of `s`: what
      a loop over `s` that tests `isInstanced` and files by `pModel` visits. */
  function Group(ns: seq<Entity>, s: seq<Handle>, m: ModelId): (g: seq<Handle>)
    ensures |g| <= |s| && InRange(ns, g)
    ensures forall h :: h in g ==> h in s && InstanceOf(ns, h, m)
    ensures forall k :: 0 <= k < |g| ==> InstanceOf(ns, g[k], m)
    decreases |s|
  {
    if s == [] then []
    else Group(ns, s[..|s| - 1], m) + (if InstanceOf(ns, s[|s| - 1], m) then [s[|s| - 1]] else [])
  }

  /** Appending one entity to the list appends it to its own group only. */
  lemma GroupSnoc(ns: seq<Entity>, s: seq<Handle>, h: Handle, m: ModelId)
    ensures Group(ns, s + [h], m) == Group(ns, s, m) + (if InstanceOf(ns, h, m) then [h] else [])
  {
    assert (s + [h])[..|s|] == s;
  }

  /** A group holds exactly the instanced entities of its model. */
  lemma {:induction false} GroupMembers(ns: seq<Entity>, s: seq<Handle>, m: ModelId, h: Handle)
    ensures h in Group(ns, s, m) <==> h in s && InstanceOf(ns, h, m)
  {
    if s != [] {
      var p := s[..|s| - 1];
      GroupMembers(ns, p, m, h);
      assert s == p + [s[|s| - 1]];
    }
  }

  /** An entity's group lists it once for every time it appears in `s`. */
  lemma {:induction false} GroupMultiplicity(ns: seq<Entity>, s: seq<Handle>, m: ModelId, h: Handle)
    ensures multiset(Group(ns, s, m))[h] == if InstanceOf(ns, h, m) then multiset(s)[h] else 0
  {
    if s != [] {
      var p := s[..|s| - 1];
      GroupMultiplicity(ns, p, m, h);
      assert s == p + [s[|s| - 1]];
    }
  }

  /** A model's instanced entities never outnumber its entities, so the
      visible-index buffer sized `1 + modelAdded[model]` holds the draw
      count and every instance. */
  lemma {:induction false} GroupWithinCount(ns: seq<Entity>, s: seq<Handle>, m: ModelId)
    requires InRange(ns, s)
    ensures |Group(ns, s, m)| <= multiset(ModelsOf(ns, s))[m]
  {
    if s != [] {
      var p := s[..|s| - 1];
      assert s == p + [s[|s| - 1]];
      GroupWithinCount(ns, p, m);
      ModelsOfConcat(ns, p, [s[|s| - 1]]);
    }
  }

  /** The slots of a model's visible-index buffer as `initialize` sizes
      it: `1 + modelAdded[model]` in `unsigned int`, which wraps at 2^32. */
  function VisibleSlots(count: nat): nat
    requires count < U32
  {
    (1 + count) % U32
  }

  /** While a model has fewer than 2^32 - 1 entities, its visible-index
      buffer has room for the draw count and every instanced entity. */
  lemma VisibleSlotsFit(ns: seq<Entity>, s: seq<Handle>, m: ModelId)
    requires InRange(ns, s) && multiset(ModelsOf(ns, s))[m] < U32 - 1
    ensures 1 + |Group(ns, s, m)| <= VisibleSlots(multiset(ModelsOf(ns, s))[m])
  {
    GroupWithinCount(ns, s, m);
  }

  /** With 2^32 - 1 entities of one model the slot count wraps to zero, so
      the buffer cannot even hold the draw count. */
  lemma VisibleSlotsWrap()
    ensures VisibleSlots(U32 - 1) == 0
  {
  }

  /** `M` is `M0` after `modelAdded[model]++` once per model occurrence in
      `c`: each count grows by the model's multiplicity, and exactly the
      models that occur gain a key. */
  ghost predicate Counted(M0: map<ModelId, nat>, M: map<ModelId, nat>, c: multiset<ModelId>) {
    forall m :: Count(M, m) == Count(M0, m) + c[m] && (m in M <==> m in M0 || c[m] > 0)
  }

  lemma CountedTrans(M0: map<ModelId, nat>, M1: map<ModelId, nat>, M2: map<ModelId, nat>,
                     a: multiset<ModelId>, b: multiset<ModelId>)
    requires Counted(M0, M1, a) && Counted(M1, M2, b)
    ensures Counted(M0, M2, a + b)
  {
  }

  /** The counting of `add` after a child's subtree `sub`. */
  lemma AddedSubtree(ns: seq<Entity>, M0: map<ModelId, nat>, M1: map<ModelId, nat>, M2: map<ModelId, nat>,
                     done: seq<Handle>, sub: seq<Handle>)
    requires InRange(ns, done) && InRange(ns, sub)
    requires Counted(M0, M1, multiset(ModelsOf(ns, done)))
    requires Counted(M1, M2, multiset(ModelsOf(ns, sub)))
    ensures InRange(ns, done + sub) && Counted(M0, M2, multiset(ModelsOf(ns, done + sub)))
  {
    ModelsOfConcat(ns, done, sub);
    CountedTrans(M0, M1, M2, multiset(ModelsOf(ns, done)), multiset(ModelsOf(ns, sub)));
  }

  /** The counting of `add` once the entity itself is appended. */
  lemma AddedRoot(ns: seq<Entity>, M0: map<ModelId, nat>, M: map<ModelId, nat>, obj: Handle, done: seq<Handle>)
    requires InRange(ns, done) && obj < |ns|
    requires Counted(M0, M, multiset{ns[obj].model} + multiset(ModelsOf(ns, done)))
    ensures InRange(ns, done + [obj]) && Counted(M0, M, multiset(ModelsOf(ns, done + [obj])))
  {
    ModelsOfConcat(ns, done, [obj]);
    assert multiset(ModelsOf(ns, done + [obj])) == multiset{ns[obj].model} + multiset(ModelsOf(ns, done));
  }

  /** The models that have at least one instanced entity in `s`. */
  ghost function InstancedModels(ns: seq<Entity>, s: seq<Handle>): set<ModelId> {
    set h | h in s && h < |ns| && ns[h].isInstanced :: ns[h].model
  }

  /** A model has instanced entities in `s` exactly when its group is not empty. */
  lemma InstancedModelsGroups(ns: seq<Entity>, s: seq<Handle>, m: ModelId)
    ensures m in InstancedModels(ns, s) <==> Group(ns, s, m) != []
  {
    if m in InstancedModels(ns, s) {
      var h :| h in s && h < |ns| && ns[h].isInstanced && ns[h].model == m;
      GroupMembers(ns, s, m, h);
    }
  }

  lemma InstancedModelsSnoc(ns: seq<Entity>, s: seq<Handle>, h: Handle)
    ensures InstancedModels(ns, s + [h])
            == InstancedModels(ns, s) + (if h < |ns| && ns[h].isInstanced then {ns[h].model} else {})
  {
    forall x | x in s
      ensures x in s + [h]
    {
    }
  }

  /** What the scene files per instanced entity: its model matrix, its
      instance id, or its world-box record. */
  function MatrixOf(e: Entity): Mat4 {
    e.transform.modelMatrix
  }

  function IdOf(e: Entity): nat {
    e.id
  }

  /** The `aabo_for_ssbo` record of an entity: its `getGlobalAABB()`, the
      model box re-fit under the current model matrix. */
  function EntityRecord(e: Entity): AabbForSsbo {
    PackBox(Refit(e.localBox, e.transform.modelMatrix))
  }

  /** `f` of each listed entity, in order. */
  function Project<T>(ns: seq<Entity>, g: seq<Handle>, f: Entity -> T): (r: seq<T>)
    requires InRange(ns, g)
    ensures |r| == |g| && forall k :: 0 <= k < |g| ==> r[k] == f(ns[g[k]])
  {
    seq(|g|, k requires 0 <= k < |g| => f(ns[g[k]]))
  }

  /** One iteration of the loops that file values by model:
      `if (e->isInstanced) mp[e->pModel].emplace_back(f(e))`. */
  function Push<T>(mp: map<ModelId, seq<T>>, ns: seq<Entity>, h: Handle, f: Entity -> T): map<ModelId, seq<T>>
    requires h < |ns|
  {
    if ns[h].isInstanced then mp[ns[h].model := Get(mp, ns[h].model) + [f(ns[h])]] else mp
  }

  /** `new_` is `old_` after filing `f` of every instanced entity of `objs`,
      in order, under its model: a model with instanced entities in `objs`
      gains exactly their values, in the order of `objs`; no other vector
      changes. */
  ghost predicate Appended<T>(old_: map<ModelId, seq<T>>, new_: map<ModelId, seq<T>>,
                              ns: seq<Entity>, objs: seq<Handle>, f: Entity -> T)
  {
    && new_.Keys == old_.Keys + InstancedModels(ns, objs)
    && forall m :: m in new_ ==> new_[m] == Get(old_, m) + Project(ns, Group(ns, objs, m), f)
  }

  /** Filing one more entity extends the description by that entity. */
  lemma AppendedStep<T>(old_: map<ModelId, seq<T>>, mp: map<ModelId, seq<T>>,
                        ns: seq<Entity>, s: seq<Handle>, h: Handle, f: Entity -> T)
    requires h < |ns| && Appended(old_, mp, ns, s, f)
    ensures Appended(old_, Push(mp, ns, h, f), ns, s + [h], f)
  {
    InstancedModelsSnoc(ns, s, h);
    var r := Push(mp, ns, h, f);
    forall m | m in r
      ensures r[m] == Get(old_, m) + Project(ns, Group(ns, s + [h], m), f)
    {
      AppendedStepAt(old_, mp, ns, s, h, f, m);
    }
  }

  lemma AppendedStepAt<T>(old_: map<ModelId, seq<T>>, mp: map<ModelId, seq<T>>,
                          ns: seq<Entity>, s: seq<Handle>, h: Handle, f: Entity -> T, m: ModelId)
    requires h < |ns| && Appended(old_, mp, ns, s, f) && m in Push(mp, ns, h, f)
    ensures Push(mp, ns, h, f)[m] == Get(old_, m) + Project(ns, Group(ns, s + [h], m), f)
  {
    AppendedAt(old_, mp, ns, s, f, m);
    PushAt(old_, mp, ns, s, h, f, m);
  }

  /** Reading a model's vector, present or not, gives the description. */
  lemma AppendedAt<T>(old_: map<ModelId, seq<T>>, mp: map<ModelId, seq<T>>,
                      ns: seq<Entity>, s: seq<Handle>, f: Entity -> T, m: ModelId)
    requires Appended(old_, mp, ns, s, f)
    ensures Get(mp, m) == Get(old_, m) + Project(ns, Group(ns, s, m), f)
  {
    if m !in mp {
      InstancedModelsGroups(ns, s, m);
    }
  }

  lemma PushAt<T>(old_: map<ModelId, seq<T>>, mp: map<ModelId, seq<T>>,
                  ns: seq<Entity>, s: seq<Handle>, h: Handle, f: Entity -> T, m: ModelId)
    requires h < |ns| && Get(mp, m) == Get(old_, m) + Project(ns, Group(ns, s, m), f)
    ensures Get(Push(mp, ns, h, f), m) == Get(old_, m) + Project(ns, Group(ns, s + [h], m), f)
  {
    GroupSnoc(ns, s, h, m);
    if InstanceOf(ns, h, m) {
      var p := Project(ns, Group(ns, s, m), f);
      ProjectSnoc(ns, Group(ns, s, m), h, f);
      SnocAssoc(Get(old_, m), p, f(ns[h]));
    } else {
      assert Group(ns, s + [h], m) == Group(ns, s, m);
    }
  }

  lemma SnocAssoc<T>(a: seq<T>, b: seq<T>, x: T)
    ensures (a + b) + [x] == a + (b + [x])
  {
  }

  lemma ProjectSnoc<T>(ns: seq<Entity>, g: seq<Handle>, h: Handle, f: Entity -> T)
    requires InRange(ns, g) && h < |ns|
    ensures InRange(ns, g + [h]) && Project(ns, g + [h], f) == Project(ns, g, f) + [f(ns[h])]
  {
  }

  /** The box an unknown handle reads as; no handle the scene holds is unknown. */
  const NoBox := AABB(Vec3(0.0, 0.0, 0.0), Vec3(0.0, 0.0, 0.0), Vec3(0.0, 0.0, 0.0), Vec3(0.0, 0.0, 0.0))

  /** What the BVH sorts and bounds by: each entity's stored world box. */
  function GlobalBoxes(ns: seq<Entity>): BoxOf {
    (h: Handle) => if h < |ns| then ns[h].globalBox else NoBox
  }

  /** Every vector of `mp`, kept, plus an empty vector under each of `ks`
      not yet present: what `map[model].reserve(num)` leaves behind. */
  function WithKeys<T>(mp: map<ModelId, seq<T>>, ks: set<ModelId>): (r: map<ModelId, seq<T>>)
    ensures r.Keys == mp.Keys + ks
    ensures forall m :: m in r ==> r[m] == Get(mp, m)
  {
    map m | m in mp.Keys + ks :: Get(mp, m)
  }

  /** Position `p` holds the last occurrence of its entity in `g`. */
  predicate LastAt(g: seq<Handle>, p: int) {
    0 <= p < |g| && forall q :: p < q < |g| ==> g[q] != g[p]
  }

  /** The ids the initialising loop leaves after the entities `objs`: only
      the `id` field changes, only for instanced entities of `objs`, and
      the entity at position `p` of its model's group has id `p` when that
      is its last position there (an entity listed twice is numbered twice,
      and the second number stays). */
  ghost predicate IdsAssigned(ns0: seq<Entity>, ns: seq<Entity>, objs: seq<Handle>)
  {
    && |ns| == |ns0|
    && (forall h :: 0 <= h < |ns| ==> ns[h] == ns0[h].(id := ns[h].id))
    && (forall h :: 0 <= h < |ns| && (h !in objs || !ns0[h].isInstanced) ==> ns[h].id == ns0[h].id)
    && (forall m, p :: LastAt(Group(ns0, objs, m), p) ==> ns[Group(ns0, objs, m)[p]].id == p)
  }

  /** One iteration of the id loop keeps the counters equal to the group
      sizes: the model of an instanced entity counts one more. */
  lemma CountsStep(ns0: seq<Entity>, pre: seq<Handle>, st: IdState, h: Handle, withRecords: bool)
    requires h < |ns0| && IdsAssigned(ns0, st.ns, pre)
    requires forall m :: Count(st.ids, m) == |Group(ns0, pre, m)|
    ensures forall m :: Count(IdStep(st, h, withRecords).ids, m) == |Group(ns0, pre + [h], m)|
  {
    assert st.ns[h] == ns0[h].(id := st.ns[h].id);
    forall m
      ensures Count(IdStep(st, h, withRecords).ids, m) == |Group(ns0, pre + [h], m)|
    {
      GroupSnoc(ns0, pre, h, m);
    }
  }

  /** After one iteration, the entity at the last position `p` of its
      entry in its model's group `g` (extended by the walked entity `h`
      when it is an instance of `m`) carries id `p`: earlier entities keep
      theirs, the new one takes the count of those before it. */
  lemma SlotStep(ns0: seq<Entity>, st: IdState, h: Handle, withRecords: bool,
                 m: ModelId, g: seq<Handle>, p: nat)
    requires h < |ns0| == |st.ns| && InRange(ns0, g)
    requires forall q :: 0 <= q < |g| ==> InstanceOf(ns0, g[q], m)
    requires st.ns[h].isInstanced == ns0[h].isInstanced && st.ns[h].model == ns0[h].model
    requires forall q :: LastAt(g, q) ==> st.ns[g[q]].id == q
    requires Count(st.ids, m) == |g|
    requires LastAt(g + (if InstanceOf(ns0, h, m) then [h] else []), p)
    ensures IdStep(st, h, withRecords).ns[(g + (if InstanceOf(ns0, h, m) then [h] else []))[p]].id == p
  {
    var ns' := IdStep(st, h, withRecords).ns;
    var g' := g + (if InstanceOf(ns0, h, m) then [h] else []);
    if p < |g| {
      var x := g[p];
      assert g'[p] == x;
      if InstanceOf(ns0, h, m) {
        assert g'[|g|] == h;
      }
      assert x != h;
      assert LastAt(g, p) by {
        forall q | p < q < |g|
          ensures g[q] != g[p]
        {
          assert g'[q] == g[q];
        }
      }
      assert ns'[x] == st.ns[x];
    } else {
      assert g'[p] == h && InstanceOf(ns0, h, m);
    }
  }

  /** One iteration of the id loop (`entity->id = ids[entity->pModel]++`)
      extends `IdsAssigned` by the entity walked. */
  lemma AssignedStep(ns0: seq<Entity>, pre: seq<Handle>, st: IdState, h: Handle, withRecords: bool)
    requires h < |ns0| && IdsAssigned(ns0, st.ns, pre)
    requires forall m :: Count(st.ids, m) == |Group(ns0, pre, m)|
    ensures IdsAssigned(ns0, IdStep(st, h, withRecords).ns, pre + [h])
  {
    var ns' := IdStep(st, h, withRecords).ns;
    assert st.ns[h] == ns0[h].(id := st.ns[h].id);
    forall m, p | LastAt(Group(ns0, pre + [h], m), p)
      ensures ns'[Group(ns0, pre + [h], m)[p]].id == p
    {
      GroupSnoc(ns0, pre, h, m);
      SlotStep(ns0, st, h, withRecords, m, Group(ns0, pre, m), p);
    }
  }

  /** Every entity of `g` has a last position in it. */
  lemma {:induction false} LastOccurrence(g: seq<Handle>, h: Handle) returns (p: nat)
    requires h in g
    ensures LastAt(g, p) && g[p] == h
    decreases |g|
  {
    if g[|g| - 1] == h {
      p := |g| - 1;
    } else {
      var init := g[..|g| - 1];
      assert g == init + [g[|g| - 1]];
      p := LastOccurrence(init, h);
      forall q | p < q < |g|
        ensures g[q] != g[p]
      {
        if q < |g| - 1 {
          assert g[q] == init[q];
        }
      }
    }
  }

  /** With ids assigned from empty vectors, slot `id` of a model's vector
      holds the value of the entity with that id: `allInstanceModelMat[model][i]`
      is the model matrix of instance `i` and `aabbs[model][i]` its box,
      which is how the shaders index them. */
  lemma SlotMatchesId<T>(ns0: seq<Entity>, ns: seq<Entity>, objs: seq<Handle>,
                         base: map<ModelId, seq<T>>, buf: map<ModelId, seq<T>>, f: Entity -> T,
                         m: ModelId, h: Handle)
    requires IdsAssigned(ns0, ns, objs)
    requires Appended(base, buf, ns0, objs, f) && Get(base, m) == []
    requires h in objs && InstanceOf(ns0, h, m)
    ensures m in buf && ns[h].id < |buf[m]| && buf[m][ns[h].id] == f(ns0[h])
  {
    var g := Group(ns0, objs, m);
    GroupMembers(ns0, objs, m, h);
    InstancedModelsGroups(ns0, objs, m);
    assert m in buf;
    var r := Project(ns0, g, f);
    assert buf[m] == Get(base, m) + r == r;
    var p := LastOccurrence(g, h);
    IdAtLast(ns0, ns, objs, m, p);
    assert r[p] == f(ns0[g[p]]);
  }

  lemma IdAtLast(ns0: seq<Entity>, ns: seq<Entity>, objs: seq<Handle>, m: ModelId, p: nat)
    requires IdsAssigned(ns0, ns, objs) && LastAt(Group(ns0, objs, m), p)
    ensures ns[Group(ns0, objs, m)[p]].id == p
  {
  }

  /** Two vectors filed from the same entities stay the same length: the
      `aabbs` buffer is sized from `allInstanceModelMat[model].size()`, and
      those `size() * 32` bytes are exactly the bytes of the box records. */
  lemma AppendedInParallel<T, U>(b1: map<ModelId, seq<T>>, m1: map<ModelId, seq<T>>, f1: Entity -> T,
                                 b2: map<ModelId, seq<U>>, m2: map<ModelId, seq<U>>, f2: Entity -> U,
                                 ns: seq<Entity>, objs: seq<Handle>, m: ModelId)
    requires Appended(b1, m1, ns, objs, f1) && Appended(b2, m2, ns, objs, f2)
    requires |Get(b1, m)| == |Get(b2, m)|
    ensures |Get(m1, m)| == |Get(m2, m)|
    ensures |Get(m1, m)| * 32 == |Get(m2, m)| * AABB_RECORD_BYTES
  {
    if m !in m1 {
      InstancedModelsGroups(ns, objs, m);
    }
    if m !in m2 {
      InstancedModelsGroups(ns, objs, m);
    }
  }

  /** The variables of the id loop of `initialize`: the entities, the next
      id per model, the matrices and the box records filed so far. */
  datatype IdState = IdState(ns: seq<Entity>, ids: map<ModelId, nat>,
                             mats: map<ModelId, seq<Mat4>>, recs: map<ModelId, seq<AabbForSsbo>>)

  /** One iteration for `entity == h`: an instanced entity takes the next
      id of its model (`entity->id = ids[entity->pModel]++`), then its
      model matrix and, when `withRecords`, its world-box record are
      appended to its model's vectors. */
  function IdStep(st: IdState, h: Handle, withRecords: bool): IdState
    requires h < |st.ns|
  {
    var e := st.ns[h].(id := Count(st.ids, st.ns[h].model));
    if !e.isInstanced then st
    else
      IdState(st.ns[h := e], st.ids[e.model := e.id + 1],
              st.mats[e.model := Get(st.mats, e.model) + [e.transform.modelMatrix]],
              if withRecords then st.recs[e.model := Get(st.recs, e.model) + [EntityRecord(e)]] else st.recs)
  }

  /** The loop state after walking `objs` from `init`. */
  ghost function IdLoop(init: IdState, objs: seq<Handle>, withRecords: bool): (r: IdState)
    requires InRange(init.ns, objs)
    ensures |r.ns| == |init.ns|
    decreases |objs|
  {
    if objs == [] then init
    else IdStep(IdLoop(init, objs[..|objs| - 1], withRecords), objs[|objs| - 1], withRecords)
  }

  /** What the id loop has done once it has walked `pre` from the entities
      `ns0` and the vectors `mats0` and `recs0`: the instanced entities of
      `pre` carry their ids, `ids` counts them per model, and their matrices
      (and, with `withRecords`, their box records) are filed in order. */
  ghost predicate Filed(ns0: seq<Entity>, mats0: map<ModelId, seq<Mat4>>, recs0: map<ModelId, seq<AabbForSsbo>>,
                        pre: seq<Handle>, st: IdState, withRecords: bool)
  {
    && Shape(st.ns) == Shape(ns0)
    && IdsAssigned(ns0, st.ns, pre)
    && (forall m :: Count(st.ids, m) == |Group(ns0, pre, m)|)
    && Appended(mats0, st.mats, ns0, pre, MatrixOf)
    && (withRecords ==> Appended(recs0, st.recs, ns0, pre, EntityRecord))
    && (!withRecords ==> st.recs == recs0)
  }

  /** One iteration of the id loop keeps `Filed`. */
  lemma FiledStep(ns0: seq<Entity>, mats0: map<ModelId, seq<Mat4>>, recs0: map<ModelId, seq<AabbForSsbo>>,
                  pre: seq<Handle>, st: IdState, h: Handle, withRecords: bool)
    requires h < |ns0| && Filed(ns0, mats0, recs0, pre, st, withRecords)
    ensures Filed(ns0, mats0, recs0, pre + [h], IdStep(st, h, withRecords), withRecords)
  {
    var st' := IdStep(st, h, withRecords);
    var e := st.ns[h].(id := Count(st.ids, st.ns[h].model));
    assert st.ns[h] == ns0[h].(id := st.ns[h].id);
    assert MatrixOf(e) == MatrixOf(ns0[h]) && EntityRecord(e) == EntityRecord(ns0[h]);
    if e.isInstanced {
      ShapeUpdate(st.ns, h, e);
    }
    CountsStep(ns0, pre, st, h, withRecords);
    AssignedStep(ns0, pre, st, h, withRecords);
    AppendedStep(mats0, st.mats, ns0, pre, h, MatrixOf);
    assert st'.mats == Push(st.mats, ns0, h, MatrixOf);
    if withRecords {
      AppendedStep(recs0, st.recs, ns0, pre, h, EntityRecord);
      assert st'.recs == Push(st.recs, ns0, h, EntityRecord);
    }
  }

  /** `Filed` spelled out for a state given by its parts. */
  lemma FiledMeans(ns0: seq<Entity>, mats0: map<ModelId, seq<Mat4>>, recs0: map<ModelId, seq<AabbForSsbo>>,
                   objs: seq<Handle>, st: IdState, withRecords: bool)
    requires Filed(ns0, mats0, recs0, objs, st, withRecords)
    ensures Shape(st.ns) == Shape(ns0) && IdsAssigned(ns0, st.ns, objs)
    ensures Appended(mats0, st.mats, ns0, objs, MatrixOf)
    ensures withRecords ==> Appended(recs0, st.recs, ns0, objs, EntityRecord)
    ensures !withRecords ==> st.recs == recs0
  {
  }

  /** Walking any list from counters that start at zero leaves the ids
      assigned and the vectors filed as `Filed` describes. */
  lemma {:induction false} IdLoopFiled(init: IdState, objs: seq<Handle>, withRecords: bool)
    requires InRange(init.ns, objs) && forall m :: Count(init.ids, m) == 0
    ensures Filed(init.ns, init.mats, init.recs, objs, IdLoop(init, objs, withRecords), withRecords)
    decreases |objs|
  {
    if objs == [] {
      assert forall m :: Group(init.ns, objs, m) == [];
      assert InstancedModels(init.ns, objs) == {};
    } else {
      var pre, h := objs[..|objs| - 1], objs[|objs| - 1];
      assert pre + [h] == objs;
      IdLoopFiled(init, pre, withRecords);
      FiledStep(init.ns, init.mats, init.recs, pre, IdLoop(init, pre, withRecords), h, withRecords);
    }
  }

  /** The id loop of `initialize`: each instanced entity of the list, in
      order, takes the next id of its model (`ids[model]++`) and appends its
      model matrix to the model's vector and, when `withRecords`
      (`SSBO == 2`), its world-box record to the model's record vector. */
  method NumberInstances(ns0: seq<Entity>, objs: seq<Handle>, ids0: map<ModelId, nat>,
                         mats0: map<ModelId, seq<Mat4>>, recs0: map<ModelId, seq<AabbForSsbo>>,
                         withRecords: bool)
      returns (nodes: seq<Entity>, mats: map<ModelId, seq<Mat4>>, records: map<ModelId, seq<AabbForSsbo>>)
    requires InRange(ns0, objs) && forall m :: Count(ids0, m) == 0
    ensures Shape(nodes) == Shape(ns0) && IdsAssigned(ns0, nodes, objs)
    ensures Appended(mats0, mats, ns0, objs, MatrixOf)
    ensures withRecords ==> Appended(recs0, records, ns0, objs, EntityRecord)
    ensures !withRecords ==> records == recs0
  {
    nodes, mats, records := ns0, mats0, recs0;
    var ids: map<ModelId, nat> := ids0;
    ghost var init := IdState(nodes, ids, mats, records);
    for k := 0 to |objs|
      invariant IdState(nodes, ids, mats, records) == IdLoop(init, objs[..k], withRecords)
    {
      var entity := objs[k];
      assert objs[..k + 1][..k] == objs[..k];
      ghost var st := IdState(nodes, ids, mats, records);
      var e := nodes[entity].(id := Count(ids, nodes[entity].model));
      if e.isInstanced {
        nodes := nodes[entity := e];
        ids := ids[e.model := e.id + 1];
        mats := mats[e.model := Get(mats, e.model) + [e.transform.modelMatrix]];
        if withRecords {
          records := records[e.model := Get(records, e.model) + [EntityRecord(e)]];
        }
      }
      assert IdState(nodes, ids, mats, records) == IdStep(st, entity, withRecords);
    }
    assert objs[..|objs|] == objs;
    IdLoopFiled(init, objs, withRecords);
    FiledMeans(ns0, mats0, recs0, objs, IdLoop(init, objs, withRecords), withRecords);
  }

  /** The scene's state. */
  class Scene {
    /** Every added entity, each subtree in post-order. */
    var objList: seq<Handle>
    /** How many entities of each model were added. */
    var modelAdded: map<ModelId, nat>
    /** The entities the last culling pass found visible. */
    var visList: seq<Handle>
    /** Per model, the model matrices of the visible instanced entities. */
    var instanceModelMatrices: map<ModelId, seq<Mat4>>
    /** Per model, the ids of the visible instanced entities. */
    var visibleIndices: map<ModelId, seq<nat>>
    /** Per model, the model matrices of all instanced entities, by id. */
    var allInstanceModelMat: map<ModelId, seq<Mat4>>
    /** Per model, the world-box records of all instanced entities, by id. */
    var aabbs: map<ModelId, seq<AabbForSsbo>>
    /** The accelerator, once `initializeBVH` has built one. */
    var accel: BVHAccel?

    /** An empty scene, without an accelerator. The source leaves the
        accelerator pointer uninitialised; `null` here is the value it
        evidently should start from. */
    constructor ()
      ensures objList == [] && modelAdded == map[] && visList == []
      ensures instanceModelMatrices == map[] && visibleIndices == map[]
      ensures allInstanceModelMat == map[] && aabbs == map[] && accel == null
    {
      objList := [];
      modelAdded := map[];
      visList := [];
      instanceModelMatrices := map[];
      visibleIndices := map[];
      allInstanceModelMat := map[];
      aabbs := map[];
      accel := null;
    }

    /** `add`: counts the entity's model, adds its children's subtrees in
        turn, then appends the entity itself. */
    method Add(g: SceneGraph, obj: Handle)
      requires g.Valid() && obj < |g.nodes|
      modifies this`objList, this`modelAdded
      ensures objList == old(objList) + PostOrder(Shape(g.nodes), obj)
      ensures Counted(old(modelAdded), modelAdded, multiset(ModelsOf(g.nodes, PostOrder(Shape(g.nodes), obj))))
      decreases |g.nodes| - obj, 1
    {
      ghost var added0 := modelAdded;
      var model := g.nodes[obj].model;
      modelAdded := modelAdded[model := Count(modelAdded, model) + 1];
      ghost var added1 := modelAdded;
      AddChildren(g, obj);
      ghost var done := PostOrderChildren(Shape(g.nodes), obj, 0);
      CountedTrans(added0, added1, modelAdded, multiset{model}, multiset(ModelsOf(g.nodes, done)));
      AddedRoot(g.nodes, added0, modelAdded, obj, done);
      ConcatAssoc(old(objList), done, [obj]);
      objList := objList + [obj];
    }

    /** The loop of `add` over the children, each adding its subtree. */
    method AddChildren(g: SceneGraph, obj: Handle)
      requires g.Valid() && obj < |g.nodes|
      modifies this`objList, this`modelAdded
      ensures objList == old(objList) + PostOrderChildren(Shape(g.nodes), obj, 0)
      ensures Counted(old(modelAdded), modelAdded, multiset(ModelsOf(g.nodes, PostOrderChildren(Shape(g.nodes), obj, 0))))
      decreases |g.nodes| - obj, 0
    {
      ghost var sh := Shape(g.nodes);
      ghost var objs0 := objList;
      ghost var added0 := modelAdded;
      ghost var done: seq<Handle> := [];
      var children := g.nodes[obj].children;
      var k := 0;
      while k < |children|
        invariant k <= |children| == |sh[obj].children|
        invariant objList == objs0 + done && done + PostOrderChildren(sh, obj, k) == PostOrderChildren(sh, obj, 0)
        invariant InRange(g.nodes, done)
        invariant Counted(added0, modelAdded, multiset(ModelsOf(g.nodes, done)))
      {
        var c := children[k];
        assert c == sh[obj].children[k] && c > obj;
        ghost var before := modelAdded;
        Add(g, c);
        ghost var sub := PostOrder(sh, c);
        AddedSubtree(g.nodes, added0, before, modelAdded, done, sub);
        NextChild(sh, obj, k, done);
        ConcatAssoc(objs0, done, sub);
        done := done + sub;
        k := k + 1;
      }
      assert done == PostOrderChildren(sh, obj, 0);
    }

    /** `updateVisibleObject`: the visible list is the query result of
        the accelerator's root. */
    method UpdateVisibleObject(f: Frustum)
      requires accel != null
      modifies this`visList
      ensures visList == VisibleFrom(accel.root, f)
    {
      visList := [];
      visList := accel.UpdateVisibleObject(accel.root, f, visList);
    }

    /** `updateInstanceMat`: every vector emptied (keys kept), then each
        visible instanced entity's model matrix appended under its model. */
    method UpdateInstanceMat(g: SceneGraph)
      requires InRange(g.nodes, visList)
      modifies this`instanceModelMatrices
      ensures instanceModelMatrices.Keys == old(instanceModelMatrices).Keys + InstancedModels(g.nodes, visList)
      ensures forall m :: m in instanceModelMatrices ==>
                instanceModelMatrices[m] == Project(g.nodes, Group(g.nodes, visList, m), MatrixOf)
    {
      instanceModelMatrices := map m | m in instanceModelMatrices :: [];
      ghost var cleared := instanceModelMatrices;
      for k := 0 to |visList|
        invariant Appended(cleared, instanceModelMatrices, g.nodes, visList[..k], MatrixOf)
      {
        var entity := visList[k];
        assert visList[..k + 1] == visList[..k] + [entity];
        AppendedStep(cleared, instanceModelMatrices, g.nodes, visList[..k], entity, MatrixOf);
        if g.nodes[entity].isInstanced {
          var m := g.nodes[entity].model;
          instanceModelMatrices := instanceModelMatrices[m := Get(instanceModelMatrices, m) + [g.nodes[entity].transform.modelMatrix]];
        }
      }
      assert visList[..|visList|] == visList;
    }

    /** The visible-index half of `draw_instanced_with_ssbo`: cull, then
        list each visible instanced entity's id under its model. */
    method DrawInstancedWithSsbo(g: SceneGraph, f: Frustum)
      requires accel != null && (accel.root.Some? ==> forall h :: h in Leaves(accel.root.value) ==> h < |g.nodes|)
      modifies this`visList, this`visibleIndices
      ensures visList == VisibleFrom(accel.root, f)
      ensures visibleIndices.Keys == InstancedModels(g.nodes, visList)
      ensures forall m :: m in visibleIndices ==> visibleIndices[m] == Project(g.nodes, Group(g.nodes, visList, m), IdOf)
    {
      UpdateVisibleObject(f);
      forall k | 0 <= k < |visList|
        ensures visList[k] < |g.nodes|
      {
        VisibleInLeaves(accel.root.value, f, visList[k]);
      }
      var vis := visList;
      visibleIndices := map[];
      for k := 0 to |vis|
        invariant visList == vis
        invariant Appended(map[], visibleIndices, g.nodes, vis[..k], IdOf)
      {
        var entity := vis[k];
        assert vis[..k + 1] == vis[..k] + [entity];
        AppendedStep(map[], visibleIndices, g.nodes, vis[..k], entity, IdOf);
        if g.nodes[entity].isInstanced {
          var m := g.nodes[entity].model;
          visibleIndices := visibleIndices[m := Get(visibleIndices, m) + [g.nodes[entity].id]];
        }
      }
      assert vis[..|vis|] == vis;
    }

    /** `initializeBVH`: a new accelerator over the whole entity list,
        built on the entities' world boxes. */
    method InitializeBVH(g: SceneGraph)
      modifies this`accel
      ensures accel != null && fresh(accel)
      ensures accel.objects == objList && BuiltOver(GlobalBoxes(g.nodes), objList, accel.root)
    {
      accel := new BVHAccel(GlobalBoxes(g.nodes), objList);
    }

    /** The `reserve` loop of `initialize`: every model that was added gets
        a (possibly empty) vector in the three maps; nothing is lost. */
    method ReserveModels()
      modifies this`instanceModelMatrices, this`allInstanceModelMat, this`visibleIndices
      ensures instanceModelMatrices == WithKeys(old(instanceModelMatrices), modelAdded.Keys)
      ensures allInstanceModelMat == WithKeys(old(allInstanceModelMat), modelAdded.Keys)
      ensures visibleIndices == WithKeys(old(visibleIndices), modelAdded.Keys)
    {
      instanceModelMatrices := WithKeys(instanceModelMatrices, modelAdded.Keys);
      allInstanceModelMat := WithKeys(allInstanceModelMat, modelAdded.Keys);
      visibleIndices := WithKeys(visibleIndices, modelAdded.Keys);
    }

    /** The id loop of `initialize` on the scene: the entities get their
        ids, `allInstanceModelMat` and, when `withRecords`, `aabbs` are
        filled, with the counters starting at zero for every added model. */
    method AssignIds(g: SceneGraph, withRecords: bool)
      requires g.Valid() && InRange(g.nodes, objList)
      modifies g`nodes, this`allInstanceModelMat, this`aabbs
      ensures g.Valid() && Shape(g.nodes) == Shape(old(g.nodes))
      ensures IdsAssigned(old(g.nodes), g.nodes, objList)
      ensures Appended(old(allInstanceModelMat), allInstanceModelMat, old(g.nodes), objList, MatrixOf)
      ensures withRecords ==> Appended(old(aabbs), aabbs, old(g.nodes), objList, EntityRecord)
      ensures !withRecords ==> aabbs == old(aabbs)
    {
      var nodes, mats, records := NumberInstances(g.nodes, objList, map m | m in modelAdded :: 0,
                                                  allInstanceModelMat, aabbs, withRecords);
      g.nodes := nodes;
      allInstanceModelMat := mats;
      aabbs := records;
    }

    /** `initialize` with `SSBO == 1`: build the accelerator, reserve the
        per-model vectors, assign the instance ids. */
    method Initialize(g: SceneGraph)
      requires g.Valid() && InRange(g.nodes, objList)
      modifies this`accel, this`instanceModelMatrices, this`allInstanceModelMat, this`visibleIndices, this`aabbs, g`nodes
      ensures g.Valid() && Shape(g.nodes) == Shape(old(g.nodes)) && aabbs == old(aabbs)
      ensures accel != null && fresh(accel)
      ensures accel.objects == objList && BuiltOver(GlobalBoxes(old(g.nodes)), objList, accel.root)
      ensures instanceModelMatrices == WithKeys(old(instanceModelMatrices), modelAdded.Keys)
      ensures visibleIndices == WithKeys(old(visibleIndices), modelAdded.Keys)
      ensures IdsAssigned(old(g.nodes), g.nodes, objList)
      ensures Appended(WithKeys(old(allInstanceModelMat), modelAdded.Keys), allInstanceModelMat, old(g.nodes), objList, MatrixOf)
    {
      ghost var (ns0, objs, added) := (g.nodes, objList, modelAdded);
      ghost var keys := added.Keys;
      ghost var (imm0, amm0, vi0, ab0) := (instanceModelMatrices, allInstanceModelMat, visibleIndices, aabbs);
      InitializeBVH(g);
      ghost var (a, root) := (accel, accel.root);
      assert a.objects == objs && BuiltOver(GlobalBoxes(ns0), objs, root);
      ReserveModels();
      assert objList == objs && g.nodes == ns0 && modelAdded == added && aabbs == ab0;
      ghost var amm1 := allInstanceModelMat;
      assert amm1 == WithKeys(amm0, keys);
      AssignIds(g, false);
      ghost var (ns3, amm3) := (g.nodes, allInstanceModelMat);
      assert objList == objs && accel == a && a.objects == objs && a.root == root;
      assert IdsAssigned(ns0, ns3, objs) && Appended(amm1, amm3, ns0, objs, MatrixOf);
      assert modelAdded == added && WithKeys(old(allInstanceModelMat), modelAdded.Keys) == amm1;
      assert instanceModelMatrices == WithKeys(imm0, keys) && visibleIndices == WithKeys(vi0, keys);
    }

    /** `initialize` with `SSBO == 2`: as `Initialize`, and the world-box
        record of each instanced entity is appended to `aabbs` beside its
        model matrix. */
    method InitializeWithRecords(g: SceneGraph)
      requires g.Valid() && InRange(g.nodes, objList)
      modifies this`accel, this`instanceModelMatrices, this`allInstanceModelMat, this`visibleIndices, this`aabbs, g`nodes
      ensures g.Valid() && Shape(g.nodes) == Shape(old(g.nodes))
      ensures accel != null && fresh(accel)
      ensures accel.objects == objList && BuiltOver(GlobalBoxes(old(g.nodes)), objList, accel.root)
      ensures instanceModelMatrices == WithKeys(old(instanceModelMatrices), modelAdded.Keys)
      ensures visibleIndices == WithKeys(old(visibleIndices), modelAdded.Keys)
      ensures IdsAssigned(old(g.nodes), g.nodes, objList)
      ensures Appended(WithKeys(old(allInstanceModelMat), modelAdded.Keys), allInstanceModelMat, old(g.nodes), objList, MatrixOf)
      ensures Appended(old(aabbs), aabbs, old(g.nodes), objList, EntityRecord)
    {
      ghost var (ns0, objs, added) := (g.nodes, objList, modelAdded);
      ghost var keys := added.Keys;
      ghost var (imm0, amm0, vi0, ab0) := (instanceModelMatrices, allInstanceModelMat, visibleIndices, aabbs);
      InitializeBVH(g);
      ghost var (a, root) := (accel, accel.root);
      assert a.objects == objs && BuiltOver(GlobalBoxes(ns0), objs, root);
      ReserveModels();
      assert objList == objs && g.nodes == ns0 && modelAdded == added && aabbs == ab0;
      ghost var amm1 := allInstanceModelMat;
      assert amm1 == WithKeys(amm0, keys);
      AssignIds(g, true);
      ghost var (ns3, amm3) := (g.nodes, allInstanceModelMat);
      assert objList == objs && accel == a && a.objects == objs && a.root == root;
      assert IdsAssigned(ns0, ns3, objs) && Appended(amm1, amm3, ns0, objs, MatrixOf);
      assert modelAdded == added && WithKeys(old(allInstanceModelMat), modelAdded.Keys) == amm1;
      assert instanceModelMatrices == WithKeys(imm0, keys) && visibleIndices == WithKeys(vi0, keys);
    }
  }
}
