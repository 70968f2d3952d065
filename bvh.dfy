/**
 * The bounding volume hierarchy (src/bvh.rs): an arena of nodes, each a leaf
 * holding one primitive or an inner node with two children and the box that
 * surrounds theirs; its construction by random-axis sort and halving, and its
 * nearest-hit traversal.
 */
module Bvh {
  import opened Wrappers
  import opened Geometry
  import opened Aabbs
  import opened Objects
  import opened Sequences

  /** `NodeId`: an index into the arena. */
  datatype NodeId = NodeId(index: nat)

  /** `BvhNode`: optional children, optional box, optional primitive. */
  datatype BvhNode = BvhNode(
    left: Option<NodeId>,
    right: Option<NodeId>,
    aabb: Option<Aabb>,
    hittable: Option<Hittable>)

  // ---------------------------------------------------------------------------
  // The arena and what a subtree holds

  predicate ChildBelow(c: Option<NodeId>, i: nat) {
    c.Some? ==> c.value.index < i
  }

  /**
   * Every child was pushed before its parent, so its index is smaller. This is
   * what `build` produces, and what makes the recursions terminate.
   */
  predicate WellFormed(nodes: seq<BvhNode>) {
    forall i | 0 <= i < |nodes| :: ChildBelow(nodes[i].left, i) && ChildBelow(nodes[i].right, i)
  }

  /**
   * The primitives under node `i`, left to right: the node's own primitive,
   * then those of its left child, then those of its right child (the order in
   * which `number_hittables` counts them).
   */
  function Leaves(nodes: seq<BvhNode>, i: nat): seq<Hittable>
    requires WellFormed(nodes) && i < |nodes|
    decreases i
  {
    var node := nodes[i];
    var below :=
      if node.left.Some? && node.right.Some? then
        Leaves(nodes, node.left.value.index) + Leaves(nodes, node.right.value.index)
      else if node.left.Some? then Leaves(nodes, node.left.value.index)
      else if node.right.Some? then Leaves(nodes, node.right.value.index)
      else [];
    if node.hittable.Some? then [node.hittable.value] + below else below
  }

  /**
   * The shape `build` gives a subtree for the interval [t0, t1]: a leaf has no
   * children and the box its primitive reports; an inner node has no
   * primitive, two children with boxes, and the box surrounding those two.
   */
  ghost predicate Shaped(nodes: seq<BvhNode>, i: nat, t0: real, t1: real)
    requires WellFormed(nodes) && i < |nodes|
    decreases i
  {
    var node := nodes[i];
    if node.hittable.Some? then
      && node.left.None? && node.right.None?
      && node.aabb == node.hittable.value.boundingBox(t0, t1)
    else
      && node.left.Some? && node.right.Some?
      && Shaped(nodes, node.left.value.index, t0, t1)
      && Shaped(nodes, node.right.value.index, t0, t1)
      && nodes[node.left.value.index].aabb.Some?
      && nodes[node.right.value.index].aabb.Some?
      && node.aabb == Some(SurroundingBox(nodes[node.left.value.index].aabb.value,
                                          nodes[node.right.value.index].aabb.value))
  }

  /**
   * Appending nodes to the arena changes neither what an existing subtree
   * holds nor its shape.
   */
  lemma {:induction false} ExtendPreserves(nodes: seq<BvhNode>, more: seq<BvhNode>, i: nat, t0: real, t1: real)
    requires WellFormed(nodes) && WellFormed(nodes + more) && i < |nodes|
    ensures Leaves(nodes + more, i) == Leaves(nodes, i)
    ensures Shaped(nodes + more, i, t0, t1) == Shaped(nodes, i, t0, t1)
    decreases i
  {
    var ext := nodes + more;
    assert ext[i] == nodes[i];
    var node := nodes[i];
    if node.left.Some? {
      assert ext[node.left.value.index] == nodes[node.left.value.index];
      ExtendPreserves(nodes, more, node.left.value.index, t0, t1);
    }
    if node.right.Some? {
      assert ext[node.right.value.index] == nodes[node.right.value.index];
      ExtendPreserves(nodes, more, node.right.value.index, t0, t1);
    }
  }

  /** The primitives under an inner node are its children's, left then right. */
  lemma LeavesOfInner(nodes: seq<BvhNode>, i: nat)
    requires WellFormed(nodes) && i < |nodes|
    requires nodes[i].hittable.None? && nodes[i].left.Some? && nodes[i].right.Some?
    ensures Leaves(nodes, i) == Leaves(nodes, nodes[i].left.value.index) + Leaves(nodes, nodes[i].right.value.index)
  {
  }

  /** The primitives under a childless leaf: its own. */
  lemma LeavesOfLeaf(nodes: seq<BvhNode>, i: nat)
    requires WellFormed(nodes) && i < |nodes|
    requires nodes[i].hittable.Some? && nodes[i].left.None? && nodes[i].right.None?
    ensures Leaves(nodes, i) == [nodes[i].hittable.value]
  {
    assert [nodes[i].hittable.value] + [] + [] == [nodes[i].hittable.value];
  }

  lemma PrefixExtends(nodes: seq<BvhNode>, ext: seq<BvhNode>)
    requires nodes <= ext
    ensures nodes + ext[|nodes|..] == ext
  {
  }

  // ---------------------------------------------------------------------------
  // Boxes of a shaped subtree

  lemma AllBoxedAppend(a: seq<Hittable>, b: seq<Hittable>, t0: real, t1: real)
    ensures AllBoxed(a + b, t0, t1) <==> AllBoxed(a, t0, t1) && AllBoxed(b, t0, t1)
  {
    if AllBoxed(a + b, t0, t1) {
      forall k | 0 <= k < |a| ensures a[k].boundingBox(t0, t1).Some? {
        assert (a + b)[k] == a[k];
      }
      forall k | 0 <= k < |b| ensures b[k].boundingBox(t0, t1).Some? {
        assert (a + b)[|a| + k] == b[k];
      }
    }
  }

  /** Folding `surrounding_box` over a concatenation is surrounding the two folds. */
  lemma {:induction false} UnionAppend(a: seq<Hittable>, b: seq<Hittable>, t0: real, t1: real)
    requires |a| >= 1 && |b| >= 1 && AllBoxed(a, t0, t1) && AllBoxed(b, t0, t1)
    ensures AllBoxed(a + b, t0, t1)
    ensures BoxesUnion(a + b, t0, t1) == SurroundingBox(BoxesUnion(a, t0, t1), BoxesUnion(b, t0, t1))
    decreases |b|
  {
    AllBoxedAppend(a, b, t0, t1);
    var ab := a + b;
    var n := |ab| - 1;
    assert ab[n] == b[|b| - 1];
    if |b| == 1 {
      assert ab[..n] == a;
    } else {
      var b' := b[..|b| - 1];
      assert ab[..n] == a + b';
      assert AllBoxed(b', t0, t1);
      UnionAppend(a, b', t0, t1);
      SurroundingBoxAssociative(BoxesUnion(a, t0, t1), BoxesUnion(b', t0, t1),
                                b[|b| - 1].boundingBox(t0, t1).value);
    }
  }

  /**
   * The box `build` stores at a node is exactly the box `HittableList` would
   * compute for the primitives under it: `None` only for a single primitive
   * without a box.
   */
  lemma {:induction false} ShapedBoxIsUnion(nodes: seq<BvhNode>, i: nat, t0: real, t1: real)
    requires WellFormed(nodes) && i < |nodes| && Shaped(nodes, i, t0, t1)
    ensures nodes[i].aabb == ListBox(Leaves(nodes, i), t0, t1)
    decreases i
  {
    var node := nodes[i];
    if node.hittable.Some? {
      LeavesOfLeaf(nodes, i);
      SingletonListBox(node.hittable.value, t0, t1);
    } else {
      var l, r := node.left.value.index, node.right.value.index;
      ShapedBoxIsUnion(nodes, l, t0, t1);
      ShapedBoxIsUnion(nodes, r, t0, t1);
      LeavesOfInner(nodes, i);
      JoinListBox(Leaves(nodes, l), Leaves(nodes, r), t0, t1);
    }
  }

  lemma SingletonListBox(h: Hittable, t0: real, t1: real)
    ensures ListBox([h], t0, t1) == h.boundingBox(t0, t1)
  {
    if h.boundingBox(t0, t1).Some? {
      assert AllBoxed([h], t0, t1);
    } else {
      assert !AllBoxed([h], t0, t1) by {
        assert [h][0] == h;
      }
    }
  }

  lemma JoinListBox(a: seq<Hittable>, b: seq<Hittable>, t0: real, t1: real)
    requires ListBox(a, t0, t1).Some? && ListBox(b, t0, t1).Some?
    ensures ListBox(a + b, t0, t1) == Some(SurroundingBox(ListBox(a, t0, t1).value, ListBox(b, t0, t1).value))
  {
    UnionAppend(a, b, t0, t1);
  }

  // ---------------------------------------------------------------------------
  // Nearest-hit answers

  /** A correct answer to a nearest-hit query over `objs`. */
  ghost predicate NearestAnswer(objs: seq<Hittable>, r: Ray, lo: real, hi: real, o: Option<HitRecord>) {
    && (o.None? <==> NoHit(objs, r, lo, hi))
    && (o.Some? ==> IsNearest(objs, r, lo, hi, o.value))
  }

  /** Every primitive's box is sound for the interval [t0, t1]. */
  ghost predicate AllBoxSound(objs: seq<Hittable>, t0: real, t1: real) {
    forall h | h in objs :: BoxSound(h, t0, t1)
  }

  /**
   * How `hit` combines its children's answers: the left one if it is strictly
   * nearer, otherwise the right one; whichever exists if only one does.
   */
  function Closer(hitLeft: Option<HitRecord>, hitRight: Option<HitRecord>): (c: Option<HitRecord>)
    ensures c == hitLeft || c == hitRight
    ensures c.None? <==> hitLeft.None? && hitRight.None?
    ensures c.Some? && hitLeft.Some? ==> c.value.t <= hitLeft.value.t
    ensures c.Some? && hitRight.Some? ==> c.value.t <= hitRight.value.t
    ensures hitLeft.Some? && hitRight.Some? && hitLeft.value.t == hitRight.value.t ==> c == hitRight
  {
    match hitLeft
    case Some(left) =>
      (match hitRight
       case Some(right) => if left.t < right.t then hitLeft else hitRight
       case None => hitLeft)
    case None => hitRight
  }

  /** The nearer of the nearest answers over two lists is the nearest answer over both. */
  lemma CloserIsNearest(a: seq<Hittable>, b: seq<Hittable>, r: Ray, lo: real, hi: real,
                        x: Option<HitRecord>, y: Option<HitRecord>)
    requires NearestAnswer(a, r, lo, hi, x) && NearestAnswer(b, r, lo, hi, y)
    ensures NearestAnswer(a + b, r, lo, hi, Closer(x, y))
  {
    var c := Closer(x, y);
    assert forall h :: h in a + b <==> h in a || h in b;
    if c.Some? {
      if c == x {
        var h :| h in a && h.hits(r, lo, hi) == Some(c.value);
        assert h in a + b;
      } else {
        var h :| h in b && h.hits(r, lo, hi) == Some(c.value);
        assert h in a + b;
      }
    }
  }

  /** A primitive reporting a hit passes the slab test of any box containing its own. */
  lemma ContainedHitPassesBox(h: Hittable, box: Aabb, t0: real, t1: real, r: Ray, tmin: real, tmax: real)
    requires NonZeroDirection(r) && BoxSound(h, t0, t1)
    requires h.boundingBox(t0, t1).Some? && Contains(box, h.boundingBox(t0, t1).value)
    ensures h.hits(r, tmin, tmax).Some? ==> SlabTest(box, r, tmin, tmax)
  {
    if h.hits(r, tmin, tmax).Some? {
      HitMonotone(h.boundingBox(t0, t1).value, box, r, tmin, tmax);
    }
  }

  /** When a node's box is missed, no primitive under it reports a hit. */
  lemma PrunedSubtreeHasNoHit(nodes: seq<BvhNode>, i: nat, t0: real, t1: real, r: Ray, tmin: real, tmax: real)
    requires WellFormed(nodes) && i < |nodes| && Shaped(nodes, i, t0, t1) && NonZeroDirection(r)
    requires AllBoxSound(Leaves(nodes, i), t0, t1)
    requires nodes[i].aabb.Some? && !SlabTest(nodes[i].aabb.value, r, tmin, tmax)
    ensures NoHit(Leaves(nodes, i), r, tmin, tmax)
  {
    var leaves := Leaves(nodes, i);
    ShapedBoxIsUnion(nodes, i, t0, t1);
    ListBoxBounds(leaves, t0, t1);
    forall h | h in leaves
      ensures h.hits(r, tmin, tmax).None?
    {
      var k :| 0 <= k < |leaves| && leaves[k] == h;
      ContainedHitPassesBox(h, nodes[i].aabb.value, t0, t1, r, tmin, tmax);
    }
  }

  /**
   * Two correct nearest answers over lists with the same primitives (the
   * tree's and the list's, say) agree: both miss or both hit at the same t.
   * With primitives that report their nearest crossing, `HittableList::hits`
   * over `objs` is such an answer.
   */
  lemma NearestAnswerAgreesWithScan(leaves: seq<Hittable>, objs: seq<Hittable>, r: Ray, tmin: real, tmax: real,
                                    o: Option<HitRecord>)
    requires multiset(leaves) == multiset(objs)
    requires forall h | h in objs :: NearestInWindow(h)
    requires NearestAnswer(leaves, r, tmin, tmax, o)
    ensures o.None? <==> Scan(objs, r, tmin, tmax).hit.None?
    ensures o.Some? ==> Scan(objs, r, tmin, tmax).hit.Some? && o.value.t == Scan(objs, r, tmin, tmax).hit.value.t
  {
    assert forall h :: h in leaves <==> h in objs by {
      forall h ensures h in leaves <==> h in objs {
        assert h in leaves <==> h in multiset(leaves);
        assert h in objs <==> h in multiset(objs);
      }
    }
    ScanFindsNearest(objs, r, tmin, tmax);
    var s := Scan(objs, r, tmin, tmax).hit;
    if o.Some? && s.Some? {
      var h1 :| h1 in leaves && h1.hits(r, tmin, tmax) == o;
      var h2 :| h2 in objs && h2.hits(r, tmin, tmax) == s;
      assert o.value.t <= s.value.t;
      assert s.value.t <= o.value.t;
    }
  }

  // ---------------------------------------------------------------------------
  // The comparators and the sort

  /** A primitive whose box for [t0, t1] exists. */
  predicate Boxed(h: Hittable, t0: real, t1: real) {
    h.boundingBox(t0, t1).Some?
  }

  /**
   * The key `box_x_compare`, `box_y_compare` and `box_z_compare` compare: the
   * minimum of the primitive's box on `axis`. (A primitive without a box
   * never gets compared: the comparator panics first. Its key is 0 here only
   * to make the function total.)
   */
  function Key(h: Hittable, axis: Axis, t0: real, t1: real): real {
    match h.boundingBox(t0, t1)
    case Some(b) => b.min.At(axis)
    case None => 0.0
  }

  datatype Ordering = Less | Equal | Greater

  /**
   * `box_x_compare` (axis 0), `box_y_compare` (1) and `box_z_compare` (2):
   * `None` where they panic because a primitive has no box.
   */
  function BoxCompare(a: Hittable, b: Hittable, axis: Axis, t0: real, t1: real): (o: Option<Ordering>)
    ensures o.None? <==> !Boxed(a, t0, t1) || !Boxed(b, t0, t1)
  {
    if Boxed(a, t0, t1) && Boxed(b, t0, t1) then
      var ka, kb := Key(a, axis, t0, t1), Key(b, axis, t0, t1);
      Some(if ka < kb then Less else if ka == kb then Equal else Greater)
    else None
  }

  /** The comparators are a total preorder on boxed primitives, as `sort_by` needs. */
  lemma BoxCompareTotalPreorder(a: Hittable, b: Hittable, c: Hittable, axis: Axis, t0: real, t1: real)
    requires Boxed(a, t0, t1) && Boxed(b, t0, t1) && Boxed(c, t0, t1)
    ensures BoxCompare(a, b, axis, t0, t1) == Some(Less) <==> BoxCompare(b, a, axis, t0, t1) == Some(Greater)
    ensures BoxCompare(a, b, axis, t0, t1) == Some(Equal) <==> BoxCompare(b, a, axis, t0, t1) == Some(Equal)
    ensures BoxCompare(a, b, axis, t0, t1) != Some(Greater) && BoxCompare(b, c, axis, t0, t1) != Some(Greater)
            ==> BoxCompare(a, c, axis, t0, t1) != Some(Greater)
    ensures BoxCompare(a, a, axis, t0, t1) == Some(Equal)
  {
  }

  /** Some primitive in [lo, hi) has no box: a comparator sorting them panics. */
  predicate AnyUnboxed(s: seq<Hittable>, lo: nat, hi: nat, t0: real, t1: real)
    requires lo <= hi <= |s|
  {
    exists k | lo <= k < hi :: !Boxed(s[k], t0, t1)
  }

  /** Every primitive in [lo, hi) has a box. */
  ghost predicate BoxedOn(s: seq<Hittable>, lo: nat, hi: nat, t0: real, t1: real)
    requires lo <= hi <= |s|
  {
    forall k | lo <= k < hi :: Boxed(s[k], t0, t1)
  }

  /** [lo, hi) is in non-decreasing key order. */
  ghost predicate SortedOn(s: seq<Hittable>, lo: nat, hi: nat, axis: Axis, t0: real, t1: real)
    requires lo <= hi <= |s|
  {
    forall x, y | lo <= x < y < hi :: Key(s[x], axis, t0, t1) <= Key(s[y], axis, t0, t1)
  }

  /** `s` and `o` agree everywhere outside [lo, hi). */
  ghost predicate SameOutside(s: seq<Hittable>, o: seq<Hittable>, lo: nat, hi: nat) {
    |s| == |o| && forall k | 0 <= k < |s| && !(lo <= k < hi) :: s[k] == o[k]
  }

  /** `s` is `o` with only the slice [lo, hi) rearranged. */
  ghost predicate Permutes(s: seq<Hittable>, o: seq<Hittable>, lo: nat, hi: nat) {
    && lo <= hi <= |s|
    && SameOutside(s, o, lo, hi)
    && multiset(s[lo..hi]) == multiset(o[lo..hi])
  }

  lemma PermutesTransitive(s2: seq<Hittable>, s1: seq<Hittable>, s0: seq<Hittable>, lo: nat, hi: nat)
    requires Permutes(s2, s1, lo, hi) && Permutes(s1, s0, lo, hi)
    ensures Permutes(s2, s0, lo, hi)
  {
  }

  lemma PermutesWithin(s2: seq<Hittable>, s1: seq<Hittable>, s0: seq<Hittable>, lo: nat, m: nat, hi: nat)
    requires m <= hi && Permutes(s1, s0, lo, hi) && Permutes(s2, s1, lo, m)
    ensures Permutes(s2, s0, lo, hi)
  {
    assert s2[lo..hi] == s2[lo..m] + s2[m..hi];
    assert s1[lo..hi] == s1[lo..m] + s1[m..hi];
    assert s2[m..hi] == s1[m..hi];
  }

  /**
   * Rearranging [lo, mid) and then [mid, hi) rearranges [lo, hi), and each
   * half keeps its own primitives.
   */
  lemma PermutesHalves(s2: seq<Hittable>, s1: seq<Hittable>, s0: seq<Hittable>, lo: nat, mid: nat, hi: nat)
    requires mid <= hi && Permutes(s1, s0, lo, mid) && Permutes(s2, s1, mid, hi)
    ensures Permutes(s2, s0, lo, hi)
    ensures s2[lo..mid] == s1[lo..mid] && s1[mid..hi] == s0[mid..hi]
    ensures s2[lo..hi] == s2[lo..mid] + s2[mid..hi]
    ensures multiset(s2[lo..mid]) == multiset(s0[lo..mid]) && multiset(s2[mid..hi]) == multiset(s0[mid..hi])
  {
    assert s2[lo..mid] == s1[lo..mid];
    assert s1[mid..hi] == s0[mid..hi];
    assert s2[lo..hi] == s2[lo..mid] + s2[mid..hi];
    assert s0[lo..hi] == s0[lo..mid] + s0[mid..hi];
  }

  lemma SwapPermutes(s: seq<Hittable>, o: seq<Hittable>, lo: nat, hi: nat, a: nat, b: nat)
    requires Permutes(s, o, lo, hi) && lo <= a < hi && lo <= b < hi
    ensures Permutes(Swapped(s, a, b), o, lo, hi)
  {
    var seg := s[lo..hi];
    assert Swapped(s, a, b)[lo..hi] == seg[a - lo := seg[b - lo]][b - lo := seg[a - lo]];
  }

  /** [lo, i] without position `j` is sorted. */
  ghost predicate SortedSkipping(s: seq<Hittable>, lo: nat, i: nat, j: nat, axis: Axis, t0: real, t1: real)
    requires lo <= i < |s|
  {
    forall x, y | lo <= x < y <= i && x != j && y != j :: Key(s[x], axis, t0, t1) <= Key(s[y], axis, t0, t1)
  }

  /** Everything after `j` up to `i` has a greater key than position `j`. */
  ghost predicate BelowAfter(s: seq<Hittable>, lo: nat, i: nat, j: nat, axis: Axis, t0: real, t1: real)
    requires lo <= j <= i < |s|
  {
    forall y | j < y <= i :: Key(s[j], axis, t0, t1) < Key(s[y], axis, t0, t1)
  }

  /**
   * The state of one pass of the insertion sort: the element being inserted
   * sits at `j`; [lo, i] without `j` is sorted; everything after `j` up to
   * `i` has a greater key; only [lo, i] has been rearranged.
   */
  ghost predicate InsertState(s: seq<Hittable>, o: seq<Hittable>, lo: nat, i: nat, hi: nat, j: nat,
                              axis: Axis, t0: real, t1: real)
  {
    && lo <= j <= i < hi <= |s|
    && BoxedOn(s, lo, hi, t0, t1)
    && Permutes(s, o, lo, i + 1)
    && SortedSkipping(s, lo, i, j, axis, t0, t1)
    && BelowAfter(s, lo, i, j, axis, t0, t1)
  }

  lemma InsertStart(s: seq<Hittable>, lo: nat, i: nat, hi: nat, axis: Axis, t0: real, t1: real)
    requires lo <= i < hi <= |s| && BoxedOn(s, lo, hi, t0, t1) && SortedOn(s, lo, i, axis, t0, t1)
    ensures InsertState(s, s, lo, i, hi, i, axis, t0, t1)
  {
  }

  lemma InsertStep(s: seq<Hittable>, o: seq<Hittable>, lo: nat, i: nat, hi: nat, j: nat, axis: Axis, t0: real, t1: real)
    requires InsertState(s, o, lo, i, hi, j, axis, t0, t1) && lo < j
    requires Key(s[j - 1], axis, t0, t1) > Key(s[j], axis, t0, t1)
    ensures InsertState(Swapped(s, j - 1, j), o, lo, i, hi, j - 1, axis, t0, t1)
  {
    InsertStepPermutes(s, o, lo, i, j);
    InsertStepBoxed(s, o, lo, i, hi, j, axis, t0, t1);
    InsertStepOrder(s, o, lo, i, hi, j, axis, t0, t1);
  }

  lemma InsertStepPermutes(s: seq<Hittable>, o: seq<Hittable>, lo: nat, i: nat, j: nat)
    requires lo < j <= i < |s| && Permutes(s, o, lo, i + 1)
    ensures Permutes(Swapped(s, j - 1, j), o, lo, i + 1)
  {
    SwapPermutes(s, o, lo, i + 1, j - 1, j);
  }

  lemma InsertStepBoxed(s: seq<Hittable>, o: seq<Hittable>, lo: nat, i: nat, hi: nat, j: nat, axis: Axis, t0: real, t1: real)
    requires InsertState(s, o, lo, i, hi, j, axis, t0, t1) && lo < j
    ensures BoxedOn(Swapped(s, j - 1, j), lo, hi, t0, t1)
  {
    SwapKeepsBoxed(s, lo, hi, j - 1, j, t0, t1);
  }

  lemma InsertStepOrder(s: seq<Hittable>, o: seq<Hittable>, lo: nat, i: nat, hi: nat, j: nat, axis: Axis, t0: real, t1: real)
    requires InsertState(s, o, lo, i, hi, j, axis, t0, t1) && lo < j
    requires Key(s[j - 1], axis, t0, t1) > Key(s[j], axis, t0, t1)
    ensures SortedSkipping(Swapped(s, j - 1, j), lo, i, j - 1, axis, t0, t1)
    ensures BelowAfter(Swapped(s, j - 1, j), lo, i, j - 1, axis, t0, t1)
  {
    SwapKeepsOrder(s, lo, i, j, axis, t0, t1);
  }

  lemma SwapKeepsBoxed(s: seq<Hittable>, lo: nat, hi: nat, a: nat, b: nat, t0: real, t1: real)
    requires lo <= a < hi && lo <= b < hi && hi <= |s| && BoxedOn(s, lo, hi, t0, t1)
    ensures BoxedOn(Swapped(s, a, b), lo, hi, t0, t1)
  {
  }

  lemma SwapKeepsOrder(s: seq<Hittable>, lo: nat, i: nat, j: nat, axis: Axis, t0: real, t1: real)
    requires lo < j <= i < |s|
    requires SortedSkipping(s, lo, i, j, axis, t0, t1) && BelowAfter(s, lo, i, j, axis, t0, t1)
    requires Key(s[j - 1], axis, t0, t1) > Key(s[j], axis, t0, t1)
    ensures SortedSkipping(Swapped(s, j - 1, j), lo, i, j - 1, axis, t0, t1)
    ensures BelowAfter(Swapped(s, j - 1, j), lo, i, j - 1, axis, t0, t1)
  {
    var s' := Swapped(s, j - 1, j);
    forall x, y | lo <= x < y <= i && x != j - 1 && y != j - 1
      ensures Key(s'[x], axis, t0, t1) <= Key(s'[y], axis, t0, t1)
    {
      if x == j {
        assert Key(s[j - 1], axis, t0, t1) <= Key(s[y], axis, t0, t1);
      } else if y == j {
        assert Key(s[x], axis, t0, t1) <= Key(s[j - 1], axis, t0, t1);
      } else {
        assert s'[x] == s[x] && s'[y] == s[y];
      }
    }
  }

  lemma InsertEnd(s: seq<Hittable>, o: seq<Hittable>, lo: nat, i: nat, hi: nat, j: nat, axis: Axis, t0: real, t1: real)
    requires InsertState(s, o, lo, i, hi, j, axis, t0, t1)
    requires j == lo || Key(s[j - 1], axis, t0, t1) <= Key(s[j], axis, t0, t1)
    ensures SortedOn(s, lo, i + 1, axis, t0, t1)
  {
    forall x, y | lo <= x < y <= i
      ensures Key(s[x], axis, t0, t1) <= Key(s[y], axis, t0, t1)
    {
      if y == j && x < j - 1 {
        assert Key(s[x], axis, t0, t1) <= Key(s[j - 1], axis, t0, t1);
      }
    }
  }

  /**
   * `sort_by` with a box comparator on the slice [lo, hi) of `l`, as an
   * insertion sort by adjacent swaps. The slice ends sorted by key and holds
   * the same primitives; the rest of the array is untouched.
   */
  method SortByAxis(l: array<Hittable>, lo: nat, hi: nat, axis: Axis, t0: real, t1: real)
    requires lo <= hi <= l.Length
    requires BoxedOn(l[..], lo, hi, t0, t1)
    modifies l
    ensures BoxedOn(l[..], lo, hi, t0, t1) && SortedOn(l[..], lo, hi, axis, t0, t1)
    ensures Permutes(l[..], old(l[..]), lo, hi)
  {
    if lo == hi {
      return;
    }
    for i := lo + 1 to hi
      invariant BoxedOn(l[..], lo, hi, t0, t1) && SortedOn(l[..], lo, i, axis, t0, t1)
      invariant Permutes(l[..], old(l[..]), lo, hi)
    {
      ghost var before := l[..];
      InsertBack(l, lo, i, hi, axis, t0, t1);
      PermutesWithin(l[..], before, old(l[..]), lo, i + 1, hi);
    }
  }

  /** One pass of the insertion sort: moves `l[i]` down into the sorted run [lo, i). */
  method InsertBack(l: array<Hittable>, lo: nat, i: nat, hi: nat, axis: Axis, t0: real, t1: real)
    requires lo <= i < hi <= l.Length
    requires BoxedOn(l[..], lo, hi, t0, t1) && SortedOn(l[..], lo, i, axis, t0, t1)
    modifies l
    ensures BoxedOn(l[..], lo, hi, t0, t1) && SortedOn(l[..], lo, i + 1, axis, t0, t1)
    ensures Permutes(l[..], old(l[..]), lo, i + 1)
  {
    InsertStart(l[..], lo, i, hi, axis, t0, t1);
    var j: nat := i;
    while j > lo && BoxCompare(l[j - 1], l[j], axis, t0, t1) == Some(Greater)
      invariant lo <= j <= i
      invariant InsertState(l[..], old(l[..]), lo, i, hi, j, axis, t0, t1)
      decreases j
    {
      ghost var s := l[..];
      InsertStep(s, old(l[..]), lo, i, hi, j, axis, t0, t1);
      l[j - 1], l[j] := l[j], l[j - 1];
      assert l[..] == Swapped(s, j - 1, j);
      j := j - 1;
    }
    InsertEnd(l[..], old(l[..]), lo, i, hi, j, axis, t0, t1);
  }

  /** The primitives of one sorted slice split in two: every key on the left is at most every key on the right. */
  ghost predicate SplitOn(a: seq<Hittable>, b: seq<Hittable>, axis: Axis, t0: real, t1: real) {
    forall x, y | x in a && y in b :: Boxed(x, t0, t1) && Boxed(y, t0, t1) && Key(x, axis, t0, t1) <= Key(y, axis, t0, t1)
  }

  lemma SortedSplits(s: seq<Hittable>, lo: nat, mid: nat, hi: nat, axis: Axis, t0: real, t1: real)
    requires lo <= mid <= hi <= |s|
    requires BoxedOn(s, lo, hi, t0, t1) && SortedOn(s, lo, hi, axis, t0, t1)
    ensures SplitOn(s[lo..mid], s[mid..hi], axis, t0, t1)
  {
    forall x, y | x in s[lo..mid] && y in s[mid..hi]
      ensures Boxed(x, t0, t1) && Boxed(y, t0, t1) && Key(x, axis, t0, t1) <= Key(y, axis, t0, t1)
    {
      var p :| lo <= p < mid && s[p] == x;
      var q :| mid <= q < hi && s[q] == y;
    }
  }

  lemma SplitOnPermutation(a: seq<Hittable>, a': seq<Hittable>, b: seq<Hittable>, b': seq<Hittable>,
                           axis: Axis, t0: real, t1: real)
    requires multiset(a) == multiset(a') && multiset(b) == multiset(b')
    requires SplitOn(a, b, axis, t0, t1)
    ensures SplitOn(a', b', axis, t0, t1)
  {
    forall x, y | x in a' && y in b'
      ensures Boxed(x, t0, t1) && Boxed(y, t0, t1) && Key(x, axis, t0, t1) <= Key(y, axis, t0, t1)
    {
      assert x in multiset(a');
      assert y in multiset(b');
      assert x in a && y in b;
    }
  }

  /** An inner node whose children's primitives are split on `axis`. */
  ghost predicate SplitNode(nodes: seq<BvhNode>, i: nat, axis: Axis, t0: real, t1: real)
    requires WellFormed(nodes) && i < |nodes|
  {
    && nodes[i].hittable.None? && nodes[i].left.Some? && nodes[i].right.Some?
    && nodes[i].left.value.index < i && nodes[i].right.value.index < i
    && SplitOn(Leaves(nodes, nodes[i].left.value.index), Leaves(nodes, nodes[i].right.value.index), axis, t0, t1)
  }

  // ---------------------------------------------------------------------------
  // BvhTree

  /** `BvhTree`: the node arena and the root's id. */
  class BvhTree {
    var nodes: seq<BvhNode>
    var root: NodeId
    /** The interval the tree was built for; `bounding_box` ignores its own arguments. */
    ghost var time0: real
    ghost var time1: real

    ghost predicate Valid()
      reads this
    {
      WellFormed(nodes) && root.index < |nodes| && Shaped(nodes, root.index, time0, time1)
    }

    /** The primitives the tree holds. */
    ghost function Primitives(): seq<Hittable>
      reads this
      requires WellFormed(nodes) && root.index < |nodes|
    {
      Leaves(nodes, root.index)
    }

    /** The tree `new` starts from: no nodes, root 0. */
    constructor Empty(ghost t0: real, ghost t1: real)
      ensures nodes == [] && root == NodeId(0) && time0 == t0 && time1 == t1
    {
      nodes := [];
      root := NodeId(0);
      time0 := t0;
      time1 := t1;
    }

    /**
     * `BvhTree::new`: builds the tree over all of `l`, reordering `l`. `None`
     * stands for the panic of a comparator on a primitive without a box. An
     * empty slice is excluded: `build` would recurse on it forever.
     */
    static method New(l: array<Hittable>, time0: real, time1: real, axisFor: (nat, nat) -> Axis)
      returns (tree: Option<BvhTree>)
      requires l.Length >= 1
      modifies l
      ensures multiset(l[..]) == multiset(old(l[..]))
      ensures tree.None? <==> l.Length >= 2 && AnyUnboxed(old(l[..]), 0, l.Length, time0, time1)
      ensures tree.Some? ==>
        && fresh(tree.value)
        && tree.value.Valid() && tree.value.time0 == time0 && tree.value.time1 == time1
        && tree.value.Primitives() == l[..]
        && |tree.value.nodes| == 2 * l.Length - 1
    {
      ghost var input := l[..];
      var t := new BvhTree.Empty(time0, time1);
      assert l[..] == input;
      var res := t.Build(l, 0, l.Length, time0, time1, axisFor);
      assert l[0..l.Length] == l[..];
      assert old(l[0..l.Length]) == old(l[..]);
      if res.None? {
        return None;
      }
      t.root := res.value;
      return Some(t);
    }

    /** `new_leaf`: pushes a leaf for `h` with the box `h` reports for [t0, t1]. */
    method NewLeaf(h: Hittable, t0: real, t1: real) returns (id: NodeId)
      modifies this`nodes
      ensures nodes == old(nodes) + [BvhNode(None, None, h.boundingBox(t0, t1), Some(h))]
      ensures id == NodeId(|old(nodes)|)
    {
      id := NodeId(|nodes|);
      nodes := nodes + [BvhNode(None, None, h.boundingBox(t0, t1), Some(h))];
    }

    /** `new_node`: pushes an inner node with the given box and children. */
    method NewNode(aabb: Aabb, left: Option<NodeId>, right: Option<NodeId>) returns (id: NodeId)
      modifies this`nodes
      ensures nodes == old(nodes) + [BvhNode(left, right, Some(aabb), None)]
      ensures id == NodeId(|old(nodes)|)
    {
      id := NodeId(|nodes|);
      nodes := nodes + [BvhNode(left, right, Some(aabb), None)];
    }

    /**
     * `build` on the slice [lo, hi) of `l`: sorts it on the axis `axisFor`
     * picks, makes a leaf of a single primitive, two leaves of two, and
     * otherwise builds both halves; then joins the two subtrees under a node
     * with their surrounding box. `None` stands for the comparator's panic.
     * The tree holds the slice's primitives in their final order, with
     * 2n - 1 nodes for n primitives.
     */
    method Build(l: array<Hittable>, lo: nat, hi: nat, t0: real, t1: real, axisFor: (nat, nat) -> Axis)
      returns (res: Option<NodeId>)
      requires lo < hi <= l.Length
      requires WellFormed(nodes)
      modifies this`nodes, l
      ensures WellFormed(nodes) && old(nodes) <= nodes
      ensures Permutes(l[..], old(l[..]), lo, hi)
      ensures res.None? <==> hi - lo >= 2 && AnyUnboxed(old(l[..]), lo, hi, t0, t1)
      ensures res.Some? ==>
        && res.value.index == |nodes| - 1
        && |nodes| == |old(nodes)| + 2 * (hi - lo) - 1
        && Shaped(nodes, res.value.index, t0, t1)
        && Leaves(nodes, res.value.index) == l[..][lo..hi]
        && (!AnyUnboxed(old(l[..]), lo, hi, t0, t1) ==> nodes[res.value.index].aabb.Some?)
        && (hi - lo >= 2 ==> SplitNode(nodes, res.value.index, axisFor(lo, hi), t0, t1))
      decreases hi - lo, 3
    {
      if hi - lo >= 2 && AnyUnboxed(l[..], lo, hi, t0, t1) {
        return None;
      }
      if hi - lo == 1 {
        // sorting a single primitive compares nothing and changes nothing
        var leaf := NewLeaf(l[lo], t0, t1);
        assert l[..][lo..hi] == [l[lo]];
        LeavesOfLeaf(nodes, leaf.index);
        return Some(leaf);
      }
      var node := BuildInner(l, lo, hi, t0, t1, axisFor);
      return Some(node);
    }

    /**
     * `build` on two or more primitives that all have boxes: sorts the slice
     * along the chosen axis, builds the two children and joins them.
     */
    method BuildInner(l: array<Hittable>, lo: nat, hi: nat, t0: real, t1: real, axisFor: (nat, nat) -> Axis)
      returns (node: NodeId)
      requires lo < hi <= l.Length && hi - lo >= 2
      requires WellFormed(nodes) && BoxedOn(l[..], lo, hi, t0, t1)
      modifies this`nodes, l
      ensures WellFormed(nodes) && old(nodes) <= nodes
      ensures Permutes(l[..], old(l[..]), lo, hi)
      ensures node.index == |nodes| - 1
      ensures |nodes| == |old(nodes)| + 2 * (hi - lo) - 1
      ensures Shaped(nodes, node.index, t0, t1)
      ensures Leaves(nodes, node.index) == l[..][lo..hi]
      ensures nodes[node.index].aabb.Some?
      ensures SplitNode(nodes, node.index, axisFor(lo, hi), t0, t1)
      decreases hi - lo, 2
    {
      var axis := axisFor(lo, hi);
      SortByAxis(l, lo, hi, axis, t0, t1);
      ghost var sorted := l[..];
      var left, right := BuildChildren(l, lo, hi, t0, t1, axisFor);
      PermutesTransitive(l[..], sorted, old(l[..]), lo, hi);
      ghost var leftLeaves, rightLeaves := Leaves(nodes, left.index), Leaves(nodes, right.index);
      node := Join(left, right, t0, t1);
      assert SplitOn(leftLeaves, rightLeaves, axisFor(lo, hi), t0, t1);
    }

    /**
     * The two children of a node over the sorted, boxed slice [lo, hi): two
     * leaves for two primitives, otherwise a subtree for each half.
     */
    method BuildChildren(l: array<Hittable>, lo: nat, hi: nat, t0: real, t1: real, axisFor: (nat, nat) -> Axis)
      returns (left: NodeId, right: NodeId)
      requires lo < hi <= l.Length && hi - lo >= 2
      requires WellFormed(nodes)
      requires BoxedOn(l[..], lo, hi, t0, t1) && SortedOn(l[..], lo, hi, axisFor(lo, hi), t0, t1)
      modifies this`nodes, l
      ensures WellFormed(nodes) && old(nodes) <= nodes
      ensures Permutes(l[..], old(l[..]), lo, hi)
      ensures left.index < right.index == |nodes| - 1
      ensures |nodes| == |old(nodes)| + 2 * (hi - lo) - 2
      ensures Shaped(nodes, left.index, t0, t1) && Shaped(nodes, right.index, t0, t1)
      ensures nodes[left.index].aabb.Some? && nodes[right.index].aabb.Some?
      ensures Leaves(nodes, left.index) + Leaves(nodes, right.index) == l[..][lo..hi]
      ensures SplitOn(Leaves(nodes, left.index), Leaves(nodes, right.index), axisFor(lo, hi), t0, t1)
      decreases hi - lo, 1
    {
      if hi - lo == 2 {
        left, right := BuildPair(l, lo, t0, t1, axisFor(lo, hi));
      } else {
        left, right := BuildHalves(l, lo, lo + (hi - lo) / 2, hi, t0, t1, axisFor);
      }
    }

    /** `build` on exactly two sorted, boxed primitives: a leaf for each. */
    method BuildPair(l: array<Hittable>, lo: nat, t0: real, t1: real, ghost axis: Axis)
      returns (left: NodeId, right: NodeId)
      requires lo + 2 <= l.Length && WellFormed(nodes)
      requires BoxedOn(l[..], lo, lo + 2, t0, t1) && SortedOn(l[..], lo, lo + 2, axis, t0, t1)
      modifies this`nodes
      ensures WellFormed(nodes) && old(nodes) <= nodes
      ensures left.index < right.index == |nodes| - 1 && |nodes| == |old(nodes)| + 2
      ensures Shaped(nodes, left.index, t0, t1) && Shaped(nodes, right.index, t0, t1)
      ensures nodes[left.index].aabb.Some? && nodes[right.index].aabb.Some?
      ensures Leaves(nodes, left.index) + Leaves(nodes, right.index) == l[..][lo..lo + 2]
      ensures SplitOn(Leaves(nodes, left.index), Leaves(nodes, right.index), axis, t0, t1)
    {
      left := NewLeaf(l[lo], t0, t1);
      ghost var mid := nodes;
      right := NewLeaf(l[lo + 1], t0, t1);
      assert mid + [nodes[right.index]] == nodes;
      ExtendPreserves(mid, [nodes[right.index]], left.index, t0, t1);
      LeavesOfLeaf(mid, left.index);
      LeavesOfLeaf(nodes, right.index);
      assert l[..][lo..lo + 2] == [l[lo]] + [l[lo + 1]];
      SortedSplits(l[..], lo, lo + 1, lo + 2, axis, t0, t1);
      assert l[..][lo..lo + 1] == [l[lo]];
      assert l[..][lo + 1..lo + 2] == [l[lo + 1]];
    }

    /**
     * `build` on three or more sorted, boxed primitives: builds [lo, mid) and
     * then [mid, hi), each on its own random axis.
     */
    method BuildHalves(l: array<Hittable>, lo: nat, mid: nat, hi: nat, t0: real, t1: real, axisFor: (nat, nat) -> Axis)
      returns (left: NodeId, right: NodeId)
      requires lo < mid < hi <= l.Length && hi - lo >= 3 && mid == lo + (hi - lo) / 2
      requires WellFormed(nodes)
      requires BoxedOn(l[..], lo, hi, t0, t1) && SortedOn(l[..], lo, hi, axisFor(lo, hi), t0, t1)
      modifies this`nodes, l
      ensures WellFormed(nodes) && old(nodes) <= nodes
      ensures Permutes(l[..], old(l[..]), lo, hi)
      ensures left.index < right.index == |nodes| - 1
      ensures |nodes| == |old(nodes)| + 2 * (hi - lo) - 2
      ensures Shaped(nodes, left.index, t0, t1) && Shaped(nodes, right.index, t0, t1)
      ensures nodes[left.index].aabb.Some? && nodes[right.index].aabb.Some?
      ensures Leaves(nodes, left.index) + Leaves(nodes, right.index) == l[..][lo..hi]
      ensures SplitOn(Leaves(nodes, left.index), Leaves(nodes, right.index), axisFor(lo, hi), t0, t1)
      decreases hi - lo, 0
    {
      ghost var s0 := l[..];
      SortedSplits(s0, lo, mid, hi, axisFor(lo, hi), t0, t1);

      var leftRes := Build(l, lo, mid, t0, t1, axisFor);
      left := leftRes.value;
      ghost var s1 := l[..];
      ghost var afterLeft := nodes;

      var rightRes := Build(l, mid, hi, t0, t1, axisFor);
      right := rightRes.value;
      ghost var s2 := l[..];

      PermutesHalves(s2, s1, s0, lo, mid, hi);
      PrefixExtends(afterLeft, nodes);
      ExtendPreserves(afterLeft, nodes[|afterLeft|..], left.index, t0, t1);
      SplitOnPermutation(s0[lo..mid], s2[lo..mid], s0[mid..hi], s2[mid..hi], axisFor(lo, hi), t0, t1);
    }

    /**
     * The end of `build`: takes both children's boxes and pushes the node
     * that joins them under the box surrounding both. The children's boxes
     * always exist here, so the panic that follows in the source is never
     * reached.
     */
    method Join(left: NodeId, right: NodeId, ghost t0: real, ghost t1: real) returns (id: NodeId)
      requires WellFormed(nodes) && left.index < |nodes| && right.index < |nodes|
      requires Shaped(nodes, left.index, t0, t1) && Shaped(nodes, right.index, t0, t1)
      requires nodes[left.index].aabb.Some? && nodes[right.index].aabb.Some?
      modifies this`nodes
      ensures WellFormed(nodes) && old(nodes) <= nodes
      ensures id.index == |old(nodes)| && |nodes| == |old(nodes)| + 1
      ensures nodes[id.index].left == Some(left) && nodes[id.index].right == Some(right)
      ensures nodes[id.index].hittable.None?
      ensures Shaped(nodes, id.index, t0, t1)
      ensures Leaves(nodes, left.index) == old(Leaves(nodes, left.index))
      ensures Leaves(nodes, right.index) == old(Leaves(nodes, right.index))
      ensures Leaves(nodes, id.index) == old(Leaves(nodes, left.index)) + old(Leaves(nodes, right.index))
    {
      ghost var before := nodes;
      var leftBox := nodes[left.index].aabb.value;
      var rightBox := nodes[right.index].aabb.value;
      id := NewNode(SurroundingBox(leftBox, rightBox), Some(left), Some(right));
      assert before + [nodes[id.index]] == nodes;
      ExtendPreserves(before, [nodes[id.index]], left.index, t0, t1);
      ExtendPreserves(before, [nodes[id.index]], right.index, t0, t1);
      LeavesOfInner(nodes, id.index);
    }

    /**
     * `hit` on the subtree at `id`: a node whose box is missed answers
     * nothing; a leaf answers its primitive's hit; an inner node asks both
     * children with the same window and keeps the nearer answer. Every
     * answer comes from a primitive under `id`; in a tree as `build` shapes
     * it, with sound primitive boxes, the answer is the nearest hit among
     * those primitives.
     */
    method Hit(id: NodeId, r: Ray, tmin: real, tmax: real) returns (rec: Option<HitRecord>)
      requires WellFormed(nodes) && id.index < |nodes| && NonZeroDirection(r)
      ensures rec.Some? ==> exists h | h in Leaves(nodes, id.index) :: h.hits(r, tmin, tmax) == rec
      ensures nodes[id.index].aabb.Some? && !SlabTest(nodes[id.index].aabb.value, r, tmin, tmax) ==> rec.None?
      ensures Shaped(nodes, id.index, time0, time1) && AllBoxSound(Leaves(nodes, id.index), time0, time1) ==>
        NearestAnswer(Leaves(nodes, id.index), r, tmin, tmax, rec)
      decreases id.index
    {
      var node := nodes[id.index];
      var boxHit := false;
      if node.aabb.Some? {
        boxHit := Aabbs.Hit(node.aabb.value, r, tmin, tmax);
      }
      if node.aabb.None? || boxHit {
        if node.hittable.Some? {
          rec := node.hittable.value.hits(r, tmin, tmax);
          assert node.hittable.value in Leaves(nodes, id.index);
          if Shaped(nodes, id.index, time0, time1) {
            LeavesOfLeaf(nodes, id.index);
          }
          return;
        }
        var hitLeft: Option<HitRecord> := None;
        var hitRight: Option<HitRecord> := None;
        if node.left.Some? {
          hitLeft := Hit(node.left.value, r, tmin, tmax);
        }
        if node.right.Some? {
          hitRight := Hit(node.right.value, r, tmin, tmax);
        }
        rec := Closer(hitLeft, hitRight);
        if Shaped(nodes, id.index, time0, time1) && AllBoxSound(Leaves(nodes, id.index), time0, time1) {
          LeavesOfInner(nodes, id.index);
          CloserIsNearest(Leaves(nodes, node.left.value.index), Leaves(nodes, node.right.value.index),
                          r, tmin, tmax, hitLeft, hitRight);
        }
      } else {
        rec := None;
        if Shaped(nodes, id.index, time0, time1) && AllBoxSound(Leaves(nodes, id.index), time0, time1) {
          PrunedSubtreeHasNoHit(nodes, id.index, time0, time1, r, tmin, tmax);
        }
      }
    }

    /**
     * `hits` of the `Hittable` implementation: `hit` from the root. With sound
     * primitive boxes it is the nearest hit among all the tree's primitives.
     */
    method Hits(r: Ray, tmin: real, tmax: real) returns (rec: Option<HitRecord>)
      requires Valid() && NonZeroDirection(r)
      ensures rec.Some? ==> exists h | h in Primitives() :: h.hits(r, tmin, tmax) == rec
      ensures nodes[root.index].aabb.Some? && !SlabTest(nodes[root.index].aabb.value, r, tmin, tmax) ==> rec.None?
      ensures AllBoxSound(Primitives(), time0, time1) ==> NearestAnswer(Primitives(), r, tmin, tmax, rec)
    {
      rec := Hit(root, r, tmin, tmax);
    }

    /**
     * `bounding_box` of the `Hittable` implementation: the root's box, whatever
     * interval is asked for. It is the box `HittableList::bounding_box` gives
     * for the same primitives over the build interval.
     */
    method BoundingBox(t0: real, t1: real) returns (b: Option<Aabb>)
      requires Valid()
      ensures b == ListBox(Primitives(), time0, time1)
    {
      b := nodes[root.index].aabb;
      ShapedBoxIsUnion(nodes, root.index, time0, time1);
    }

    /** `number_hittables`: how many primitives lie under `id`. */
    method NumberHittables(id: NodeId) returns (n: nat)
      requires WellFormed(nodes) && id.index < |nodes|
      ensures n == |Leaves(nodes, id.index)|
      decreases id.index
    {
      var node := nodes[id.index];
      var localHittable := if node.hittable.Some? then 1 else 0;
      var countLeft := 0;
      if node.left.Some? {
        countLeft := NumberHittables(node.left.value);
      }
      var countRight := 0;
      if node.right.Some? {
        countRight := NumberHittables(node.right.value);
      }
      n := localHittable + countLeft + countRight;
    }
  }
}
