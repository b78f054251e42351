# Frustum culling with a BVH: a Dafny model

The repository measures how much frustum culling speeds up drawing a large
scene. A scene is a graph of entities. Each entity has:

- a transform (translation, Euler rotation, scale, and a dirty flag);
- a model;
- a model-space bounding box and a world-space bounding box.

The scene flattens the graph into an entity list. It builds a
bounding-volume hierarchy (BVH) over the world boxes by object-median
splits. Every frame it walks the hierarchy against the camera's six frustum
planes to find the visible entities.

Instanced entities are numbered per model. Their model matrices are stored
per model in the order of their ids, so a visible entity's id is its index
into that buffer. There are two variants:

- `ver28_CPU`: culls on the CPU and uploads the visible ids.
- `ver29_GPU`: also uploads one world box record per instance, packs the
  frustum planes as six `vec4`s and dispatches a compute shader in work
  groups of 256.

The model has these modules:

| module | contents |
|---|---|
| `LinAlg` | vectors and column-major 4x4 matrices over reals |
| `Geometry` | boxes, planes, the plane and frustum tests, the frustum built from a camera, `generateAABB`, and the world-space re-fit of a box under a model matrix |
| `Trees` | the shape of the scene graph (parent and child handles in an arena) and its post-order |
| `Entities` | transforms, entities, and the `SceneGraph` class that owns the arena, with the lazy and forced transform updates |
| `Bvh` | the hierarchy, its build, and the pruned query |
| `Compute` | the records, packed planes and group count handed to the compute shader |
| `Scenes` | the `Scene` class: `add`, culling, the per-model instance buffers, and `initialize` with one box record per instance (`SSBO == 2`) or without (`SSBO == 1`) |

Handles replace the source's raw pointers. A child's handle is always
larger than its parent's, which is how the arena is built.

`glm::rotate`, `glm::normalize` and `tanf` are function parameters,
because their square roots and trigonometry are not modelled.

`generateAABB` starts its running maximum at
`std::numeric_limits<float>::min()`, which is the smallest positive float,
not the lowest one. The model keeps that start value. `Geometry.ModelBoxBounds`
states the consequence: a model that lies entirely at negative coordinates on
some axis still gets a positive maximum there. The box stays conservative.

## Model

| member | source | states |
|---|---|---|
| Geometry.FromMinMax | ver28_CPU/BVH.hpp:208-213 | the corner constructor yields a box whose center ± extents are the corners; extents are non-negative iff min <= max |
| Geometry.FromCenter | ver28_CPU/BVH.hpp:215-220 | the center constructor yields corners center ± extents; the box is well formed iff the three extents are non-negative |
| Geometry.CenterRoundTrip | ver28_CPU/BVH.hpp:208-220 | building from the center, then from the resulting corners, gives the same box |
| Geometry.CornerRoundTrip | ver28_CPU/BVH.hpp:208-220 | building from the corners, then from the resulting center and extents, gives the same box |
| Geometry.Union | ver28_CPU/BVH.hpp:359-371 | the union contains both boxes and is contained in every box that contains both (least upper bound); well-formedness is preserved |
| Geometry.UnionCommutes | ver28_CPU/BVH.hpp:359-371 | the union does not depend on argument order |
| Geometry.UnionIdempotent | ver28_CPU/BVH.hpp:359-371 | a consistent box united with itself is itself |
| Geometry.ContainsTransitive | ver28_CPU/BVH.hpp:359-371 | box containment is transitive, which makes nested unions bound everything below them |
| Geometry.MaxExtent | ver28_CPU/BVH.hpp:241-255 | the result names a longest side of the diagonal, and no later axis ties it: ties go to the later axis |
| Geometry.PlaneThrough | ver28_CPU/BVH.hpp:155-158 | the plane's normal is the normalized input and the given point lies on the plane |
| Geometry.PlaneTestIsSupport | ver28_CPU/BVH.hpp:260-272 | the center-radius test is the same as comparing the box's support along the normal with the plane distance |
| Geometry.PlaneTestExact | ver28_CPU/BVH.hpp:260-272 | a well-formed box passes the plane test iff some point of the box lies on or above the plane (no false negatives, no false positives) |
| Geometry.SupportBounds | ver28_CPU/BVH.hpp:260-272 | no point of the box projects beyond the support value |
| Geometry.PlaneTestMonotone | ver28_CPU/BVH.hpp:260-272 | if a box passes a plane, every box containing it passes too |
| Geometry.PlaneTestScaleInvariant | ver28_CPU/BVH.hpp:147-166 | scaling a plane's normal and distance by a positive factor does not change the test, so an unnormalized normal is harmless |
| Geometry.IsOnFrustum | ver28_CPU/BVH.hpp:187-195 | a box is on the frustum iff it passes all six faces |
| Geometry.FrustumTestMonotone | ver28_CPU/BVH.hpp:187-195 | a box containing a box on the frustum is on the frustum, which is what makes pruning a BVH node safe |
| Geometry.CreateFrustumFromCamera | ver28_CPU/BVH.hpp:308-335 | the four side planes pass through the camera position; near and far pass through the points at zNear and zFar along the view direction, near's normal is the normalized view direction and far's the normalized reverse |
| Geometry.ViewAxisInFrustum | ver28_CPU/BVH.hpp:308-335 | when `normalize` scales a non-zero vector by a positive factor and the camera basis is right-handed, near and far have opposite normals along the view direction, and a point on the view axis at depth `t` is on the inner side of all six planes exactly when `zNear <= t <= zFar`: every plane faces into the viewing volume |
| Geometry.OverBounds | ver28_CPU/BVH.hpp:338-356 | the running minimum and maximum bound every vertex and their start values |
| Geometry.OverAttained | ver28_CPU/BVH.hpp:338-356 | each coordinate of the result is either the start value or a vertex's coordinate |
| Geometry.ModelBoxBounds | ver28_CPU/BVH.hpp:338-356 | every vertex of every mesh lies in the model box; its maximum never drops below FLT_MIN, the positive start value |
| Geometry.GenerateAABB | ver28_CPU/BVH.hpp:338-356 | the nested vertex loop computes the model box of all meshes |
| Geometry.Refit | ver28_CPU/BVH.hpp:402-425 | the world box is centered at the transformed center, its extents are the absolute projections of the scaled axes, and it is well formed |
| Geometry.WorldExtentsAsProjections | ver28_CPU/BVH.hpp:408-422 | the extents equal the sums of absolute dot products of each world axis with right, up and forward as the source writes them |
| Geometry.RefitIgnoresForwardSign | ver28_CPU/BVH.hpp:125-134 | using the forward axis (the negated third column) instead of the backward one does not change the extents |
| Geometry.RefitIdentity | ver28_CPU/BVH.hpp:402-425 | under the identity matrix the re-fit box is the local box |
| Geometry.RefitBoundsVertices | ver28_CPU/BVH.hpp:226-238 | every transformed corner of the local box lies in the re-fit box (the re-fit box is conservative) |
| Geometry.RefitTight | ver28_CPU/BVH.hpp:226-238 | on each axis the corner chosen by the signs of the matrix row reaches the re-fit maximum and the corner chosen against them the re-fit minimum (the re-fit box is tight) |
| Geometry.TransformedIdentity | ver28_CPU/BVH.hpp:274-305 | the transformed frustum test under the identity matrix is the plain frustum test |
| Trees.SubtreeAfterRoot | ver28_CPU/BVH.hpp:377-378 | every entity in a subtree has a handle no smaller than its root's |
| Trees.SubtreeTransitive | ver28_CPU/BVH.hpp:377-378 | a subtree of a subtree lies inside the outer subtree |
| Trees.SiblingsDisjoint | ver28_CPU/BVH.hpp:377-378 | the subtrees of two different children never share an entity |
| Trees.SubtreesNested | ver28_CPU/BVH.hpp:377-378 | two subtrees that share an entity are nested |
| Trees.LinkedAttachChild | ver28_CPU/BVH.hpp:429-435 | appending a child under an existing parent keeps the parent and child links consistent |
| Trees.AttachKeepsSubtrees | ver28_CPU/BVH.hpp:429-435 | adding a child changes no existing subtree among the old entities |
| Trees.AttachedBelow | ver28_CPU/BVH.hpp:429-435 | the new child lies exactly in the subtrees that contain its parent, and in its own |
| Trees.PostOrderMembers | ver28_CPU/Scene.hpp:41-48 | the post-order walk of `add` visits exactly the subtree of the entity |
| Trees.PostOrderOrdered | ver28_CPU/Scene.hpp:41-48 | in that walk every entity comes after all its descendants |
| Trees.PostOrderDistinct | ver28_CPU/Scene.hpp:41-48 | that walk lists no entity twice |
| Entities.LocalMatrixPosition | ver28_CPU/BVH.hpp:42-53 | when the rotations fix the origin, the last column of T·R·S is the translation |
| Entities.ComputeModelMatrix | ver28_CPU/BVH.hpp:56-66 | without a parent the model matrix is the local matrix, otherwise the parent matrix times it; the local fields and the dirty flag are untouched |
| Entities.FreshEntity | ver28_CPU/BVH.hpp:395-399 | a new entity is dirty, has the identity matrix and id 0, its model box contains every vertex, and its world box equals its model box when that is well formed |
| Entities.SceneGraph.MakeEntity | ver28_CPU/BVH.hpp:395-399 | the constructor computes exactly that fresh entity |
| Entities.SceneGraph.NewEntity | ver28_CPU/ver_final.cpp:93 | a new root entity (`make_unique<Entity>(model, true)`) is appended as a fresh entity without parent; the arena stays a forest |
| Entities.SceneGraph.AddChild | ver28_CPU/BVH.hpp:429-435 | the child is appended and linked under its parent; the shape becomes the attached shape |
| Entities.SceneGraph.SetLocalPosition | ver28_CPU/BVH.hpp:68-72 | only that entity's translation changes, and it becomes dirty |
| Entities.SceneGraph.SetLocalRotation | ver28_CPU/BVH.hpp:74-78 | only that entity's rotation changes, and it becomes dirty |
| Entities.SceneGraph.SetLocalScale | ver28_CPU/BVH.hpp:80-84 | only that entity's scale changes, and it becomes dirty |
| Entities.ForceAllEffect | ver28_CPU/BVH.hpp:455-472 | the forced update refreshes every entity of the subtree and changes nothing outside it |
| Entities.SceneGraph.ForceUpdateSelfAndChild | ver28_CPU/BVH.hpp:455-472 | the recursive method computes the forced update of the subtree |
| Entities.LazyEffect | ver28_CPU/BVH.hpp:438-452 | the lazy update refreshes exactly the entities with a dirty entity on their path from the root of the call; all others are unchanged |
| Entities.SceneGraph.UpdateSelfAndChild | ver28_CPU/BVH.hpp:438-452 | the recursive method computes the lazy update of the subtree |
| Entities.LazyCleans | ver28_CPU/BVH.hpp:438-472 | after the lazy update no entity of the subtree is dirty |
| Entities.LazyOnCleanSubtree | ver28_CPU/BVH.hpp:438-452 | the lazy update of a subtree without dirty entities changes nothing |
| Entities.LazyIdempotent | ver28_CPU/BVH.hpp:438-452 | running the lazy update twice is the same as running it once |
| Entities.DirtyNodeRefreshed | ver28_CPU/BVH.hpp:438-472 | every dirty entity of the subtree ends with its world matrix recomputed from its parent's |
| Bvh.LeafNodes | ver28_CPU/BVH.hpp:507-529 | the leaf nodes carry the leaf entities in left-to-right order |
| Bvh.UnionPrefixContains | ver28_CPU/BVH.hpp:576-579 | the union loop's box contains every entity's world box |
| Bvh.SortByCenter | ver28_CPU/BVH.hpp:585-608 | the sort on the longest axis leaves the list sorted by box center on that axis and a permutation of the input |
| Bvh.UnionAll | ver28_CPU/BVH.hpp:576-579 | the union loop computes the union of all the entities' boxes |
| Bvh.RecursiveBuild | ver28_CPU/BVH.hpp:550-626 | a non-empty list gets a leaf for one entity, two leaves for two, and otherwise an object-median split of the list sorted on the longest axis of its union |
| Bvh.BuildLeaves | ver28_CPU/BVH.hpp:550-626 | the leaves of the built tree are a permutation of the entity list |
| Bvh.SplitSizes | ver28_CPU/BVH.hpp:610-620 | for three or more entities the halves hold ⌊n/2⌋ and ⌈n/2⌉ entities, both non-empty |
| Bvh.BuildBounds | ver28_CPU/BVH.hpp:550-626 | every node's bound is its entity's box at a leaf and the union of its children's bounds above |
| Bvh.BoundContainsLeaves | ver28_CPU/BVH.hpp:550-626 | every node's bound contains the box of every leaf below it |
| Bvh.VisibleUnder | ver28_CPU/BVH.hpp:631-646 | the pruned walk reports exactly the leaves whose whole root path passes the frustum test |
| Bvh.VisibleIsLeafFilter | ver28_CPU/BVH.hpp:631-646 | on a built tree, pruning loses nothing: the walk reports exactly the leaves whose own box is on the frustum, in leaf order |
| Bvh.VisibleInLeaves | ver28_CPU/BVH.hpp:631-646 | everything reported is a leaf of the tree |
| Bvh.BuiltVisibleInList | ver28_CPU/BVH.hpp:537-540 | the accelerator reports only entities of the list it was built over, and nothing for an empty list |
| Bvh.EmptyBuildAsWritten | ver28_CPU/BVH.hpp:550-554 | the empty-list build as written is a value-initialised node without children, so a leaf, whose entity is the null pointer |
| Bvh.EmptyBuildReportsNull | ver28_CPU/BVH.hpp:631-641 | the walk over that node reports the null pointer exactly when the origin is on the inner side of all six planes |
| Bvh.BVHAccel.UpdateVisibleObject | ver28_CPU/BVH.hpp:631-646 | the recursive method appends the query result of the node to the list, and nothing for a null node |
| Compute.PackBox | ver29_GPU/Scene.hpp:374-380 | the record holds the box's two corners with zero padding |
| Compute.PackBoxKeepsBox | ver29_GPU/Scene.hpp:20-25 | a consistent box is recovered from its record's corners |
| Compute.PackFrustumPlanes | ver29_GPU/Scene.hpp:199-205 | six vectors, the k-th holding the normal and distance of the k-th face in top, bottom, left, right, near, far order |
| Compute.PackFrustumRoundTrip | ver29_GPU/Scene.hpp:199-205 | reading the six vectors back in that order gives the original frustum |
| Compute.PackedTestAgrees | ver29_GPU/Scene.hpp:199-209 | the frustum test on the unpacked planes agrees with the test on the camera frustum for every box |
| Compute.NumGroupsWraps | ver29_GPU/Scene.hpp:218-222 | as written in 32-bit arithmetic, 2^32-1 instances dispatch no work group |
| Compute.NumGroups | ver29_GPU/Scene.hpp:218-222 | the intended count: enough groups of 256 to cover every instance and no more; zero for no instances |
| Compute.NumGroupsAgree | ver29_GPU/Scene.hpp:218-222 | without wrap-around the code as written computes the intended count |
| Scenes.ModelsOfConcat | ver28_CPU/Scene.hpp:41-48 | the models of a concatenated list are the concatenated models |
| Scenes.GroupMembers | ver28_CPU/Scene.hpp:276-283 | a model's group holds exactly the listed instanced entities of that model |
| Scenes.GroupMultiplicity | ver28_CPU/Scene.hpp:276-283 | each entity occurs in its model's group as often as in the list, and in no other group |
| Scenes.GroupWithinCount | ver29_GPU/Scene.hpp:392-397 | a model's instanced entities never outnumber its `modelAdded` count (counts as unbounded naturals) |
| Scenes.VisibleSlotsFit | ver29_GPU/Scene.hpp:392-397 | with the slot count `1 + modelAdded[model]` wrapped to 32 bits, the visible-index buffer holds the draw count and every instanced entity of the model while the count is below 2^32 - 1 |
| Scenes.VisibleSlotsWrap | ver29_GPU/Scene.hpp:397 | at 2^32 - 1 entities of one model the 32-bit slot count wraps to 0 |
| Scenes.CountedTrans | ver28_CPU/Scene.hpp:41-48 | counting one list of models and then another counts their union |
| Scenes.InstancedModelsGroups | ver28_CPU/Scene.hpp:69-73 | a model gets a vector exactly when its group is non-empty |
| Scenes.WithKeys | ver28_CPU/Scene.hpp:189-195 | reserving adds each added model as a key and keeps every existing vector |
| Scenes.AppendedStep | ver28_CPU/Scene.hpp:69-73 | one loop step appends the entity's value to its model's vector only when it is instanced |
| Scenes.AppendedAt | ver28_CPU/Scene.hpp:276-283 | after the loop each model's vector is its old contents followed by its group's values in list order |
| Scenes.FiledStep | ver28_CPU/Scene.hpp:276-283 | one step of the id loop keeps ids, counters and buffers in agreement |
| Scenes.IdLoopFiled | ver28_CPU/Scene.hpp:276-283 | the whole id loop, counters starting at zero, numbers every model's instances 0, 1, 2, … in list order and fills the buffers in the same order |
| Scenes.SlotMatchesId | ver28_CPU/Scene.hpp:276-277 | the matrix buffer at an instanced entity's id holds that entity's matrix, as the source comment promises, also when the entity was listed more than once (its last id stands) |
| Scenes.AppendedInParallel | ver29_GPU/Scene.hpp:374-405 | the matrix vector and the box record vector of each model have equal lengths, so `size() * 32` is the byte size of the record data, 32 being the size of one padded record |
| Scenes.NumberInstances | ver29_GPU/Scene.hpp:374-381 | the id loop keeps the graph's shape, assigns the ids, and appends matrices (and records when asked) per model in id order |
| Scenes.Scene.Add | ver28_CPU/Scene.hpp:41-48 | the entity's subtree is appended in post-order and each of its models is counted once per entity |
| Scenes.Scene.AddChildren | ver28_CPU/Scene.hpp:43-47 | the children's subtrees are appended in child order and counted |
| Scenes.Scene.UpdateVisibleObject | ver28_CPU/Scene.hpp:51-55 | the visible list is the accelerator's query result |
| Scenes.Scene.UpdateInstanceMat | ver28_CPU/Scene.hpp:57-74 | existing vectors are emptied and kept; each model's vector then holds its visible instanced entities' matrices in visible order |
| Scenes.Scene.DrawInstancedWithSsbo | ver28_CPU/Scene.hpp:140-149 | after culling each model's visible index vector holds the ids of its visible instanced entities in visible order, and only such models get a vector |
| Scenes.Scene.InitializeBVH | ver28_CPU/Scene.hpp:174-180 | a fresh accelerator is built over the whole entity list and the world boxes |
| Scenes.Scene.ReserveModels | ver28_CPU/Scene.hpp:189-195 | every added model gets a vector in the three maps; nothing already there is lost |
| Scenes.Scene.AssignIds | ver28_CPU/Scene.hpp:276-283 | the entities get their ids and the matrix (and record) buffers are filled in id order |
| Scenes.Scene.Initialize | ver28_CPU/Scene.hpp:184-283 | build, reserve, then number: the accelerator, the reserved maps, the ids and the matrix buffer are as stated above |
| Scenes.Scene.InitializeWithRecords | ver29_GPU/Scene.hpp:256-381 | as `Initialize`, and each model's record buffer holds its instances' world boxes in id order |

## Left out

- OpenGL is not modelled: buffer creation and upload, vertex arrays, shaders, draw calls, reading back draw counts, and the compute shader's own code.
- `float` arithmetic is modelled by reals. Rounding, NaN and infinities are not modelled.
- `glm::rotate`, `glm::radians`, `glm::normalize`, `tanf` and `glm::length` enter as parameters. `getGlobalScale` is not modelled.
- Geometry.ViewAxisInFrustum: assumes that `normalize` scales every non-zero vector by a positive factor, and that the camera basis has a non-zero `front` with `right x up == -front`. The camera class that maintains its basis is not part of this model.
- Raw pointers, `unique_ptr` ownership and `std::list` children become handles into one arena. A dangling or foreign pointer cannot be expressed.
- `Model*` keys become a `ModelId`. The order of iteration over an `unordered_map` does not matter to any stated result.
- Bvh.SortByCenter: `std::sort` is not stable and leaves ties in an unspecified order. The model sorts by insertion, and the build is specified for any sorted permutation.
- Bvh.RecursiveBuild: requires a non-empty list. The empty case is handled by the accelerator's constructor (see Findings).
- Scenes.Scene.UpdateVisibleObject: requires an accelerator. The source's `BVHaccelerator` pointer is never initialised before `initialize`, so a query before it is undefined.
- Scenes.Scene.InitializeBVH: the source never initialises the `BVHaccelerator` pointer (ver28_CPU/Scene.hpp:39, ver29_GPU/Scene.hpp:63), so the first `initializeBVH` tests and deletes an indeterminate value. The model's constructor starts from `null` instead, and that first delete is not modelled.
- Scenes.GroupWithinCount: `modelAdded` and the ids are unbounded naturals, not 32-bit `unsigned int`s. The 32-bit wrap of the buffer size is stated separately, by Scenes.VisibleSlotsFit (count below 2^32 - 1) and Scenes.VisibleSlotsWrap.
- The non-culling draw paths, `drawSelfAndChild`, `drawBVH` and `SSBO == 0` (one instance buffer per model) are not modelled. Only the culling data paths (`SSBO == 1` and `SSBO == 2`) are.
- Timing, console output, window and input handling in the drivers (`ver_final.cpp`) are not modelled.
- Loading a model from a file is not modelled: a model is its key and the vertex lists of its meshes.

## Findings

| source | as written | input that shows it | evidently intended | confidence | as-written member | corrected member |
|---|---|---|---|---|---|---|
| ver29_GPU/Scene.hpp:219-222 | `numGroups = (totalInstances + workGroupSize - 1) / workGroupSize` in `unsigned int` | 2^32 - 1 instances of one model: the sum wraps to 254 and 0 groups are dispatched | ceiling division of the instance count by 256 | not executed | Compute.NumGroupsWraps | Compute.NumGroups |
| ver28_CPU/BVH.hpp:550-554 | `recursiveBuild` on an empty list returns `new BVHNode()`: value-initialised, with no children, a zero bound and a null `obj` | an empty scene and a frustum with the origin on the inner side of all six planes: `updateVisibleObject` treats the node as a leaf and reports the null pointer, which the draw loop then dereferences (`entity->isInstanced`, ver28_CPU/Scene.hpp:146) | an empty list gives no tree and the query reports nothing | not executed | Bvh.EmptyBuildReportsNull | Bvh.BuiltVisibleInList |
