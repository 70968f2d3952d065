# raytrac: BVH, boxes, object lists and Perlin tables

This project models the combinatorial core of a small Rust path tracer in Dafny and proves properties about it. The model covers four parts.

- **Axis-aligned boxes** (`aabb.dfy`, module `Aabbs`).
  - `AABB::hit` is the per-axis slab test as the code writes it. Inside each loop iteration, `tmin` and `tmax` are shadowed, so every axis is checked against the caller's original window. The window is never narrowed across axes. `Aabbs.Hit` is proved equal to that test, `SlabTest`.
  - `SlabPassesIff` shows that each axis on its own is exact: the test passes iff the ray is strictly inside that slab at some time in the window.
  - Across axes the test is only conservative. `HitNotNarrowed` gives a box and ray that pass every axis even though the ray never enters the box. A conservative test is all the BVH relies on: its proofs use only that each primitive's box bounds where it can be hit (`BoxSound`) and that a containing box passes whenever the inner one does (`HitMonotone`). `HitWhenInside` shows that `BoxSound` holds for any primitive whose hit points lie inside its box.
  - `AABB::surrounding_box` is the least box containing both of its arguments.
- **The primitive list** (`objects.dfy`, module `Objects`).
  - A primitive (`Hittable`) is a pair of functions: its hit query and its bounding box.
  - `HittableList` is a class whose `objects` sequence `add` appends to.
  - `hits` is the linear scan that shrinks `closest_so_far`. For primitives that report their nearest hit inside the window they are asked with (`NearestInWindow`), it is proved to return the nearest hit, with the earlier object winning ties.
  - `bounding_box` folds `surrounding_box`, returning `None` early when a box is missing.
  - `TimedMovement::lerp` is modelled as written.
- **The BVH arena** (`bvh.rs` → `bvh.dfy`, module `Bvh`).
  - `BvhTree` holds the `nodes` arena. Children are always pushed before their parent (`WellFormed`).
  - `build` sorts the slice in place on the chosen axis (an insertion sort on an `array`), splits it at `len/2`, and builds the halves recursively.
  - After `build`, the tree has `2n - 1` nodes. Its leaves, read left to right, are a permutation of the input. Every inner node's box is the union of its children's boxes. Every left-half key is at most every right-half key.
  - When every primitive's box contains where it can be hit (`BoxSound`), `hit` on such a tree returns the nearest hit among its primitives. When the primitives also satisfy `NearestInWindow`, that hit has the same `t` as the list's linear scan.
- **Perlin tables** (`noise_texture.dfy`, module `NoiseTexture`).
  - `permute` is an in-place swap shuffle on an `array`, and `perlin_generate_perm` yields a permutation of 0..255.
  - The lattice lookups of `noise` stay below 256, which is proved with a bitwise XOR model.
  - `turb`'s weighted octave loop returns `|Σ 0.5^m · noise(2^m p)|`, which lies in [0, 2) when the noise values lie in [-1, 1].

Modelling conventions:
- `f64` is modelled as `real`. Ray directions are assumed to have no zero component (`NonZeroDirection`), because the code divides by them.
- Random numbers become parameters. The BVH axis is a function `axisFor(lo, hi)` of the slice being built, and the draws of `gen::<f64>()` are sequences of reals in [0, 1).
- A panic is modelled as `None`, for example `build` meeting a primitive without a box.

## Model

| member | source | states |
|---|---|---|
| Aabbs.Hit | src/aabb.rs:19-37 | returns true iff every axis's slab interval, ordered when the inverse direction is negative, overlaps the caller's original `(tmin, tmax)`; no narrowing across axes |
| Aabbs.SlabPassesIff | src/aabb.rs:20-33 | one axis passes iff some `t` in `(tmin, tmax)` puts the ray point strictly between the box's bounds on that axis |
| Aabbs.HitNotNarrowed | src/aabb.rs:28-31 | a box and ray pass all three per-axis tests although no point of the ray lies inside the box: the test is conservative, not exact |
| Aabbs.HitWhenInside | src/aabb.rs:19-37 | if the ray is strictly inside a proper box at some `t` in the window, `hit` is true (no false negatives) |
| Aabbs.HitMonotone | src/aabb.rs:19-37 | a box containing another box passes whenever the inner one does |
| Aabbs.HitEmptyWindow | src/aabb.rs:28-33 | with `tmax <= tmin` the test fails |
| Aabbs.SlabIntervalOrdered | src/aabb.rs:21-26 | after the swap for a negative inverse direction, `t0 <= t1` whenever `min <= max` on that axis |
| Aabbs.CrossingsAlgebra | src/aabb.rs:21-26 | the ordered crossing times bound exactly the `t` at which the ray is inside the slab |
| Aabbs.HitTranslation | src/aabb.rs:19-37 | translating box and ray origin together does not change the result |
| Aabbs.SurroundingBox | src/aabb.rs:39-52 | the result contains both boxes and is contained in every box that contains both |
| Aabbs.SurroundingBoxCommutative | src/aabb.rs:39-52 | `surrounding_box(a, b) == surrounding_box(b, a)` |
| Aabbs.SurroundingBoxAssociative | src/aabb.rs:39-52 | the union is associative |
| Aabbs.SurroundingBoxIdempotent | src/aabb.rs:39-52 | `surrounding_box(a, a) == a` |
| Aabbs.SurroundingBoxOrdered | src/aabb.rs:39-52 | `min <= max` on every axis is preserved |
| Objects.HittableList.constructor | src/objects/mod.rs:58-62 | a new list is empty |
| Objects.HittableList.Size | src/objects/mod.rs:68-70 | the number of objects, zero exactly for the empty list |
| Objects.HittableList.Add | src/objects/mod.rs:64-70 | appends exactly the one object; `size` grows by one and earlier objects are unchanged |
| Objects.HittableList.Hits | src/objects/mod.rs:74-86 | the answer is that of the scan `Scan`, which folds the objects shrinking `closest_so_far` |
| Objects.ScanLastSuccess | src/objects/mod.rs:74-86 | the scan answers `None` iff no query along the way succeeded; otherwise it answers the last successful query |
| Objects.ScanClosestNeverIncreases | src/objects/mod.rs:74-86 | for primitives that report only inside the window they are asked with (`ReportsInWindow`): `closest_so_far` never increases and never exceeds `t_max`; a returned hit has `t` in `(t_min, t_max)` |
| Objects.ScanFindsNearest | src/objects/mod.rs:74-86 | for primitives that report their nearest hit inside the window, the scan returns `None` iff no object hits, and otherwise the minimum-`t` hit, the earliest object winning ties |
| Objects.ScanStepNearest | src/objects/mod.rs:78-83 | one loop iteration keeps "nearest of the objects seen so far" |
| Objects.QueryOfPrefix | src/objects/mod.rs:78-83 | the window the k-th object is asked with depends only on the objects before it |
| Objects.HittableList.BoundingBox | src/objects/mod.rs:88-101 | `None` for an empty list or when any object has no box; otherwise the left fold of `surrounding_box` |
| Objects.ListBoxBounds | src/objects/mod.rs:88-101 | the folded box contains every object's box and is the least box that does |
| Objects.Lerp | src/objects/mod.rs:127-130 | the formula as written, defined only for `time != endtime`; at `starttime` it gives `start` |
| Objects.LerpHalfwayIsEnd | src/objects/mod.rs:127-130 | as written, `lerp` at the midpoint of the interval already returns `end` |
| Objects.LinearLerp | src/objects/mod.rs:127-130 | the corrected interpolation, dividing by `endtime - starttime`: `start` at `starttime` and `end` at `endtime` |
| Objects.LinearLerpProperties | src/objects/mod.rs:104-130 | the corrected interpolation moves by `(end - start) · dt / (endtime - starttime)` over a time step `dt` |
| Bvh.BvhTree.Empty | src/bvh.rs:82-85 | the tree `new` starts from: no nodes, root index 0 |
| Bvh.BvhTree.NewLeaf | src/bvh.rs:130-141 | appends exactly one leaf (no children, the primitive and its box) and returns the old length as its index |
| Bvh.BvhTree.NewNode | src/bvh.rs:143-154 | appends exactly one inner node (both children, the given box, no primitive) and returns the old length as its index |
| Bvh.BvhTree.New | src/bvh.rs:81-89 | fails iff there are two or more primitives and one has no box; otherwise the tree is well formed with `2n - 1` nodes, its leaves are the final slice, and the final slice is a permutation of the input |
| Bvh.BvhTree.Build | src/bvh.rs:91-128 | pushes children before parents; returns the last index; adds `2n - 1` nodes; its leaves are the slice, which is permuted only in `[lo, hi)`; fails iff `n >= 2` and a primitive has no box; an inner root splits the keys on the chosen axis |
| Bvh.BvhTree.BuildInner | src/bvh.rs:92-124 | the non-leaf case of `build`: sort on `axisFor(lo, hi)`, build both halves, join; every left leaf's key is at most every right leaf's |
| Bvh.BvhTree.BuildChildren | src/bvh.rs:106-115 | the two child subtrees hold the final slice, left half then right half; each subtree holds the primitives of its half of the slice as sorted on the parent's axis, so every left key is at most every right key on that axis (`SplitOn`) |
| Bvh.BvhTree.BuildPair | src/bvh.rs:106-108 | two primitives become two leaves, in sorted order |
| Bvh.BvhTree.BuildHalves | src/bvh.rs:109-115 | splitting at `len/2` and building both halves (each re-sorted on its own axis) gives leaves that are the final slice, left half then right half; the halves keep the primitives of the parent's sorted halves, so every left key is at most every right key on the parent's axis (`SplitOn`) |
| Bvh.BvhTree.Join | src/bvh.rs:117-124 | the new inner node's box is the union of its children's, and its leaves are the left child's followed by the right child's |
| Bvh.BvhTree.Hit | src/bvh.rs:28-67 | a node whose box exists and is missed answers `None`; every answer comes from a primitive under the node; in a tree shaped by `build`, with sound boxes, the answer is the nearest hit among its leaves |
| Bvh.BvhTree.Hits | src/bvh.rs:75-77 | from the root: `None` when the root's box exists and is missed; every answer comes from one of the tree's primitives, and with sound primitive boxes (`BoxSound`) it is the nearest hit among all of them |
| Bvh.BvhTree.BoundingBox | src/bvh.rs:71-73 | the root's box, which equals the `HittableList` box of the same primitives over the build interval |
| Bvh.BvhTree.NumberHittables | src/bvh.rs:156-171 | counts exactly the primitives under the node (so `n` at the root after `build`) |
| Bvh.Closer | src/bvh.rs:48-63 | picks the strictly nearer child answer; the right child wins on equal `t`; a missing answer gives the other one |
| Bvh.CloserIsNearest | src/bvh.rs:48-63 | combining the nearest answers of two leaf sequences gives the nearest answer of their concatenation |
| Bvh.PrunedSubtreeHasNoHit | src/bvh.rs:31 | in a built subtree with sound boxes (`Shaped`, `BoxSound`): if the node's box is missed, no primitive under it hits |
| Bvh.NearestAnswerAgreesWithScan | src/bvh.rs:28-67 | for `NearestInWindow` primitives, a nearest answer over the leaves (which `hit` gives when boxes are sound, `BoxSound`) is `None` exactly when the linear scan over the original primitives, in any order, is, and otherwise has the scan's `t` |
| Bvh.ShapedBoxIsUnion | src/bvh.rs:117-123 | in a built subtree, the node's box is the fold of `surrounding_box` over its leaves |
| Bvh.ExtendPreserves | src/bvh.rs:91-128 | pushing more nodes does not change an existing subtree's leaves or shape |
| Bvh.UnionAppend | src/bvh.rs:117-123 | the box of a concatenation is the union of the two boxes |
| Bvh.BoxCompare | src/bvh.rs:174-214 | fails exactly when either primitive has no box |
| Bvh.BoxCompareTotalPreorder | src/bvh.rs:174-214 | on boxed primitives the comparator is antisymmetric, reflexive and transitive |
| Bvh.SortByAxis | src/bvh.rs:94-99 | sorts `[lo, hi)` by box minimum on the axis, permuting only that range |
| Bvh.InsertBack | src/bvh.rs:94-99 | one insertion step extends the sorted prefix by one element |
| Bvh.SortedSplits | src/bvh.rs:94-115 | after sorting, every key left of the split is at most every key right of it |
| Bvh.SplitOnPermutation | src/bvh.rs:94-115 | the split property depends only on the two halves' contents |
| NoiseTexture.Target | src/textures/noise_texture.rs:46 | `floor(r · (i + 1))` with `r` in [0, 1) is at most `i` |
| NoiseTexture.ShufflePermutes | src/textures/noise_texture.rs:43-49 | the shuffle keeps the length and the multiset and leaves the entries at index `>= n` untouched |
| NoiseTexture.Permute | src/textures/noise_texture.rs:43-49 | the in-place swap loop produces the shuffle of the old contents; the result is a permutation with its tail unchanged |
| NoiseTexture.PerlinGeneratePerm | src/textures/noise_texture.rs:51-59 | returns a table of length 256 that is a permutation of 0..255 |
| NoiseTexture.PermTableBelow | src/textures/noise_texture.rs:51-59 | every entry of such a table is below 256 |
| NoiseTexture.PerlinGenerate | src/textures/noise_texture.rs:26-41 | 256 vectors, each `-1 + 2·draw` per component, so inside the cube [-1, 1)³ |
| NoiseTexture.NewPerlin | src/textures/noise_texture.rs:17-24 | a valid Perlin: `ranvec` holds the 256 gradients `perlin_generate` builds from the draws, and each of the three tables is the shuffle of 0..255 by its draws, a permutation |
| NoiseTexture.XorBelow | src/textures/noise_texture.rs:85-87 | the XOR of two numbers below `2^k` is below `2^k` |
| NoiseTexture.CornerIndex | src/textures/noise_texture.rs:85-87 | the `ranvec` index built, as written, from three table lookups at the saturated lattice positions is below 256 |
| NoiseTexture.NoiseCorners | src/textures/noise_texture.rs:61-90 | fills the 2×2×2 array with the gradient at each lattice corner and returns the faded fractions |
| NoiseTexture.Fade | src/textures/noise_texture.rs:65-67 | the smoothing `u·u·(3 - 2u)` fixes 0 and 1 and maps [0, 1] into [0, 1] |
| NoiseTexture.Fraction | src/textures/noise_texture.rs:62-64 | `x - floor(x)` lies in [0, 1) |
| NoiseTexture.SaturatedLatticeIndex | src/textures/noise_texture.rs:85-87 | `(cell as usize + d) & 255` as written, with the saturating cast: always below 256 |
| NoiseTexture.LatticeIndex | src/textures/noise_texture.rs:85-87 | the corrected position, `cell + d` taken modulo 256 on a two's-complement integer: always below 256 |
| NoiseTexture.SaturatedCornerNotShared | src/textures/noise_texture.rs:68-70 | as written, cell -1's upper corner and cell 0's lower corner get different indices, and negative cells repeat cell 0 |
| NoiseTexture.LatticeCornerShared | src/textures/noise_texture.rs:85-87 | with a wrapping cast, neighbouring cells share their common corner and the lattice repeats every 256 cells |
| NoiseTexture.SaturatedAgreesOnNonNegative | src/textures/noise_texture.rs:85-87 | the as-written and corrected indices agree on non-negative cells |
| NoiseTexture.Turb | src/textures/noise_texture.rs:95-106 | the loop runs `depth` times and returns the absolute value of the sum of `0.5^m · noise(2^m · p)`; the result is non-negative |
| NoiseTexture.TurbSumBound | src/textures/noise_texture.rs:95-106 | with noise values in [-1, 1], the sum after `k` octaves is at most `2 - 2 · 0.5^k` in absolute value |
| NoiseTexture.TurbBelowTwo | src/textures/noise_texture.rs:95-106 | with noise values in [-1, 1], `turb` lies in [0, 2) |

## Left out

- Rendering, materials, spheres, moving spheres, the camera, scenes and image output are not part of this model. They are floating-point numerics, thread-local randomness, concurrency and I/O.
- Floating-point rounding, infinities, NaN, and the comparators' "Can't compare" panic when `partial_cmp` meets NaN are not modelled; `f64` is `real`, and ray directions must have no zero component.
- `build` on an empty slice recurses forever; `Build` and `New` require a non-empty slice.
- The `thread_rng` axis choice becomes the parameter `axisFor`, and the draws of `perlin_generate`, `permute` and `perlin_generate_perm` become sequences of reals in [0, 1).
- Bvh.SortByAxis: an insertion sort that swaps only on `Greater`, so it is stable like `sort_by` and gives the same order; the contract states sortedness and the permutation but not stability.
- `build` also sorts a one-element slice; that sort is a no-op and is skipped in the model.
- `HitRecord`'s normal, point and material reference are carried only through its `t`; the material trait object is not modelled.
- `BvhTree` and `HittableList` are not themselves used as primitives inside other lists in this model.
- Rust panics (the comparators' panic on a missing box, and the `panic!` of `build` when a child has no box) are returned as `None`.
- Growing a `Vec` is modelled by reassigning a `seq` field; capacities are not modelled.
- NoiseTexture.PerlinGenerate: the `.normalize()` of each vector is left out (a square root), so it yields the unnormalised vectors; `NewPerlin`'s `ranvec` is therefore unnormalised too.
- `perlin_interp` and `NoiseTexture::value` (float smoothing and `sin`) are not part of this model; `Turb` takes the noise function as a parameter.
- The debug-build overflow panic of `i as usize + di` for a cell at `usize::MAX` is not modelled.

## Findings

| source | as written | input that shows it | evidently intended | confidence | as-written member | corrected member |
|---|---|---|---|---|---|---|
| src/objects/mod.rs:127-130 | `lerp` divides `time - starttime` by `endtime - time` | `starttime = 0`, `endtime = 2`, `time = 1` gives `end` instead of the midpoint | divide by `endtime - starttime` | not executed | Objects.LerpHalfwayIsEnd | Objects.LinearLerpProperties |
| src/textures/noise_texture.rs:68-70, 85-87 | `i as usize` saturates a negative floor to 0 | cell `-1`: its upper corner uses index 1 but cell 0's lower corner uses index 0, so the noise jumps at 0; every negative cell repeats cell 0 | a wrapping (two's-complement) cast, so neighbouring cells share corners | not executed | NoiseTexture.SaturatedCornerNotShared | NoiseTexture.LatticeCornerShared |

`CornerIndex` and `NoiseCorners` keep the source's saturating cast; the corrected position `LatticeIndex` agrees with it on every non-negative cell (`SaturatedAgreesOnNonNegative`).
