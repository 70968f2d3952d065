/**
 * Axis-aligned bounding boxes (src/aabb.rs): the per-axis slab test exactly as
 * the tracer writes it, and the union of two boxes.
 */
module Aabbs {
  import opened Geometry

  /** `AABB { min, max }`; `AABB::new` is this constructor, storing both corners unchanged. */
  datatype Aabb = Aabb(min: Vec3, max: Vec3)

  /** min <= max on every axis, the invariant boxes of real geometry keep. */
  predicate Ordered(b: Aabb) {
    b.min.x <= b.max.x && b.min.y <= b.max.y && b.min.z <= b.max.z
  }

  /** min < max on every axis: the box has volume. */
  predicate Proper(b: Aabb) {
    b.min.x < b.max.x && b.min.y < b.max.y && b.min.z < b.max.z
  }

  predicate ContainsOn(outer: Aabb, inner: Aabb, a: Axis) {
    outer.min.At(a) <= inner.min.At(a) && inner.max.At(a) <= outer.max.At(a)
  }

  /** Every point of `inner` lies in `outer`. */
  predicate Contains(outer: Aabb, inner: Aabb) {
    ContainsOn(outer, inner, 0) && ContainsOn(outer, inner, 1) && ContainsOn(outer, inner, 2)
  }

  predicate InsideOn(b: Aabb, p: Vec3, a: Axis) {
    b.min.At(a) <= p.At(a) <= b.max.At(a)
  }

  /** Point `p` lies in the closed box `b`. */
  predicate Inside(b: Aabb, p: Vec3) {
    InsideOn(b, p, 0) && InsideOn(b, p, 1) && InsideOn(b, p, 2)
  }

  /**
   * The parameters at which the ray crosses the two planes of the slab of
   * axis `a`, in the order `AABB::hit` leaves them after its swap.
   */
  function SlabInterval(b: Aabb, r: Ray, a: Axis): (real, real)
    requires r.direction.At(a) != 0.0
  {
    OrderedCrossings(b.min.At(a), b.max.At(a), r.origin.At(a), r.direction.At(a))
  }

  /**
   * The test one iteration of `AABB::hit` makes for axis `a`: the slab
   * interval clipped to the CALLER's window (tmin, tmax) is non-empty.
   */
  predicate SlabPasses(b: Aabb, r: Ray, a: Axis, tmin: real, tmax: real)
    requires r.direction.At(a) != 0.0
  {
    var (t0, t1) := SlabInterval(b, r, a);
    Max(t0, tmin) < Min(t1, tmax)
  }

  /** What `AABB::hit` answers: each axis passes on its own against the original window. */
  predicate SlabTest(b: Aabb, r: Ray, tmin: real, tmax: real)
    requires NonZeroDirection(r)
  {
    SlabPasses(b, r, 0, tmin, tmax) && SlabPasses(b, r, 1, tmin, tmax) && SlabPasses(b, r, 2, tmin, tmax)
  }

  /**
   * `AABB::hit`. The `let tmin` / `let tmax` of the source bind new names
   * inside one iteration only, so every axis is checked against the window
   * the caller passed and the window is never narrowed across axes.
   */
  method Hit(b: Aabb, r: Ray, tmin: real, tmax: real) returns (hit: bool)
    requires NonZeroDirection(r)
    ensures hit <==> SlabTest(b, r, tmin, tmax)
  {
    for a := 0 to 3
      invariant forall k: Axis | k < a :: SlabPasses(b, r, k, tmin, tmax)
    {
      var invD := 1.0 / r.direction.At(a);
      var t0 := (b.min.At(a) - r.origin.At(a)) * invD;
      var t1 := (b.max.At(a) - r.origin.At(a)) * invD;
      if invD < 0.0 {
        t0, t1 := t1, t0;
      }
      assert SlabInterval(b, r, a).0 == t0;
      assert SlabInterval(b, r, a).1 == t1;
      var tmin' := Max(t0, tmin);
      var tmax' := Min(t1, tmax);
      if tmax' <= tmin' {
        return false;
      }
    }
    return true;
  }

  /** `AABB::surrounding_box`: componentwise min of the mins and max of the maxes. */
  function SurroundingBox(a: Aabb, b: Aabb): (r: Aabb)
    ensures Contains(r, a) && Contains(r, b)
    ensures forall c :: Contains(c, a) && Contains(c, b) ==> Contains(c, r)
  {
    Aabb(Vec3(Min(a.min.x, b.min.x), Min(a.min.y, b.min.y), Min(a.min.z, b.min.z)),
         Vec3(Max(a.max.x, b.max.x), Max(a.max.y, b.max.y), Max(a.max.z, b.max.z)))
  }

  // ---------------------------------------------------------------------------
  // Arithmetic of the slab parameters, over plain reals

  /** Comparing c * (1 / d) with t is comparing c with t * d, for d > 0. */
  lemma DivComparePositive(c: real, d: real, t: real)
    requires d > 0.0
    ensures c * (1.0 / d) < t <==> c < t * d
    ensures c * (1.0 / d) <= t <==> c <= t * d
    ensures t < c * (1.0 / d) <==> t * d < c
    ensures t <= c * (1.0 / d) <==> t * d <= c
  {
    var q := c * (1.0 / d);
    assert q * d == c;
    assert t * d - c == (t - q) * d;
  }

  /** The same comparison flips for d < 0. */
  lemma DivCompareNegative(c: real, d: real, t: real)
    requires d < 0.0
    ensures c * (1.0 / d) < t <==> t * d < c
    ensures c * (1.0 / d) <= t <==> t * d <= c
    ensures t < c * (1.0 / d) <==> c < t * d
    ensures t <= c * (1.0 / d) <==> c <= t * d
  {
    var q := c * (1.0 / d);
    assert q * d == c;
    assert c - t * d == (t - q) * (0.0 - d);
  }

  /** Multiplying by a positive factor keeps a strict order; a negative one reverses it. */
  lemma ScaleOrder(c1: real, c2: real, k: real)
    requires c1 < c2
    ensures k > 0.0 ==> c1 * k < c2 * k
    ensures k < 0.0 ==> c2 * k < c1 * k
  {
    var gap := c2 - c1;
    assert c2 * k - c1 * k == gap * k;
    if k > 0.0 {
      assert gap * k > 0.0;
    } else if k < 0.0 {
      assert gap * k < 0.0;
    }
  }

  /** The entry and exit parameters for planes `lo` and `hi`, origin `o` and direction `d`. */
  function OrderedCrossings(lo: real, hi: real, o: real, d: real): (real, real)
    requires d != 0.0
  {
    var invD := 1.0 / d;
    var t0 := (lo - o) * invD;
    var t1 := (hi - o) * invD;
    if invD < 0.0 then (t1, t0) else (t0, t1)
  }

  /**
   * The ray is strictly between the planes exactly at the parameters strictly
   * between entry and exit; on or between the planes implies between entry
   * and exit inclusive; and the planes' order carries over to the parameters.
   */
  lemma CrossingsAlgebra(lo: real, hi: real, o: real, d: real, t: real)
    requires d != 0.0
    ensures var (e0, e1) := OrderedCrossings(lo, hi, o, d);
      && ((e0 < t < e1) <==> (lo < o + t * d < hi))
      && ((lo <= o + t * d <= hi) ==> e0 <= t <= e1)
      && (lo < hi ==> e0 < e1)
      && (lo <= hi ==> e0 <= e1)
  {
    InverseSign(d);
    var c0, c1 := (lo - o) * (1.0 / d), (hi - o) * (1.0 / d);
    if d > 0.0 {
      CrossingsPositive(lo, hi, o, d, t);
      assert OrderedCrossings(lo, hi, o, d).0 == c0;
      assert OrderedCrossings(lo, hi, o, d).1 == c1;
    } else {
      CrossingsNegative(lo, hi, o, d, t);
      assert OrderedCrossings(lo, hi, o, d).0 == c1;
      assert OrderedCrossings(lo, hi, o, d).1 == c0;
    }
  }

  lemma InverseSign(d: real)
    requires d != 0.0
    ensures d > 0.0 ==> 1.0 / d > 0.0
    ensures d < 0.0 ==> 1.0 / d < 0.0
  {
  }

  lemma CrossingsPositive(lo: real, hi: real, o: real, d: real, t: real)
    requires d > 0.0
    ensures var c0, c1 := (lo - o) * (1.0 / d), (hi - o) * (1.0 / d);
      && ((c0 < t < c1) <==> (lo < o + t * d < hi))
      && ((lo <= o + t * d <= hi) ==> c0 <= t <= c1)
      && (lo < hi ==> c0 < c1)
      && (lo <= hi ==> c0 <= c1)
  {
    DivComparePositive(lo - o, d, t);
    DivComparePositive(hi - o, d, t);
    InverseSign(d);
    if lo < hi {
      ScaleOrder(lo - o, hi - o, 1.0 / d);
    }
  }

  lemma CrossingsNegative(lo: real, hi: real, o: real, d: real, t: real)
    requires d < 0.0
    ensures var c0, c1 := (lo - o) * (1.0 / d), (hi - o) * (1.0 / d);
      && ((c1 < t < c0) <==> (lo < o + t * d < hi))
      && ((lo <= o + t * d <= hi) ==> c1 <= t <= c0)
      && (lo < hi ==> c1 < c0)
      && (lo <= hi ==> c1 <= c0)
  {
    DivCompareNegative(lo - o, d, t);
    DivCompareNegative(hi - o, d, t);
    InverseSign(d);
    if lo < hi {
      ScaleOrder(lo - o, hi - o, 1.0 / d);
    }
  }

  lemma PointAtOn(r: Ray, t: real, a: Axis)
    ensures PointAt(r, t).At(a) == r.origin.At(a) + t * r.direction.At(a)
  {
  }

  // ---------------------------------------------------------------------------
  // Properties of the slab test

  /**
   * The swap on a negative inverse direction puts the entry parameter first:
   * t0 <= t1 whenever the box is ordered on that axis.
   */
  lemma SlabIntervalOrdered(b: Aabb, r: Ray, a: Axis)
    requires r.direction.At(a) != 0.0
    requires b.min.At(a) <= b.max.At(a)
    ensures SlabInterval(b, r, a).0 <= SlabInterval(b, r, a).1
  {
    CrossingsAlgebra(b.min.At(a), b.max.At(a), r.origin.At(a), r.direction.At(a), 0.0);
  }

  /** With an empty window (tmax <= tmin) no box is ever hit. */
  lemma HitEmptyWindow(b: Aabb, r: Ray, tmin: real, tmax: real)
    requires NonZeroDirection(r)
    requires tmax <= tmin
    ensures !SlabTest(b, r, tmin, tmax)
  {
    var (t0, t1) := SlabInterval(b, r, 0);
    assert Min(t1, tmax) <= tmax <= tmin <= Max(t0, tmin);
  }

  /**
   * The meaning of one axis of the test: it passes exactly when the ray is
   * strictly between the two planes of that slab at some parameter strictly
   * inside the caller's window.
   */
  lemma {:induction false} SlabPassesIff(b: Aabb, r: Ray, a: Axis, tmin: real, tmax: real)
    requires r.direction.At(a) != 0.0
    ensures SlabPasses(b, r, a, tmin, tmax) <==>
      exists t :: tmin < t < tmax && b.min.At(a) < PointAt(r, t).At(a) < b.max.At(a)
  {
    if SlabPasses(b, r, a, tmin, tmax) {
      var t := SlabMidpoint(b, r, a, tmin, tmax);
      SlabPassesWitness(b, r, a, tmin, tmax);
      assert tmin < t < tmax && b.min.At(a) < PointAt(r, t).At(a) < b.max.At(a);
    } else {
      forall t | tmin < t < tmax
        ensures !(b.min.At(a) < PointAt(r, t).At(a) < b.max.At(a))
      {
        SlabFailsAt(b, r, a, tmin, tmax, t);
      }
    }
  }

  /** The middle of the overlap of a slab's crossing interval with the window. */
  function SlabMidpoint(b: Aabb, r: Ray, a: Axis, tmin: real, tmax: real): real
    requires r.direction.At(a) != 0.0
  {
    (Max(SlabInterval(b, r, a).0, tmin) + Min(SlabInterval(b, r, a).1, tmax)) / 2.0
  }

  lemma SlabPassesWitness(b: Aabb, r: Ray, a: Axis, tmin: real, tmax: real)
    requires r.direction.At(a) != 0.0 && SlabPasses(b, r, a, tmin, tmax)
    ensures var t := SlabMidpoint(b, r, a, tmin, tmax);
            tmin < t < tmax && b.min.At(a) < PointAt(r, t).At(a) < b.max.At(a)
  {
    var t := SlabMidpoint(b, r, a, tmin, tmax);
    var t0, t1 := SlabInterval(b, r, a).0, SlabInterval(b, r, a).1;
    assert tmin < t < tmax && t0 < t < t1;
    PointAtOn(r, t, a);
    CrossingsAlgebra(b.min.At(a), b.max.At(a), r.origin.At(a), r.direction.At(a), t);
  }

  lemma SlabFailsAt(b: Aabb, r: Ray, a: Axis, tmin: real, tmax: real, t: real)
    requires r.direction.At(a) != 0.0 && !SlabPasses(b, r, a, tmin, tmax)
    requires tmin < t < tmax
    ensures !(b.min.At(a) < PointAt(r, t).At(a) < b.max.At(a))
  {
    var t0, t1 := SlabInterval(b, r, a).0, SlabInterval(b, r, a).1;
    assert !(t0 < t < t1);
    PointAtOn(r, t, a);
    CrossingsAlgebra(b.min.At(a), b.max.At(a), r.origin.At(a), r.direction.At(a), t);
  }

  /**
   * Because the window is not narrowed, `AABB::hit` can report a box that the
   * ray never enters: here each slab is crossed inside (-10, 10), but at
   * different parameters, and no point of the ray lies in the box.
   */
  lemma HitNotNarrowed()
    ensures var b := Aabb(Vec3(1.0, 1.0, -1.0), Vec3(2.0, 2.0, 1.0));
            var r := Ray(Vec3(0.0, 3.0, 0.0), Vec3(1.0, 1.0, 1.0), 0.0);
            SlabTest(b, r, -10.0, 10.0) && forall t :: !Inside(b, PointAt(r, t))
  {
    var b := Aabb(Vec3(1.0, 1.0, -1.0), Vec3(2.0, 2.0, 1.0));
    var r := Ray(Vec3(0.0, 3.0, 0.0), Vec3(1.0, 1.0, 1.0), 0.0);
    SkewSlabsPass(b, r);
    forall t
      ensures !Inside(b, PointAt(r, t))
    {
      SkewRayOutside(b, r, t);
    }
  }

  lemma SkewSlabsPass(b: Aabb, r: Ray)
    requires b == Aabb(Vec3(1.0, 1.0, -1.0), Vec3(2.0, 2.0, 1.0))
    requires r == Ray(Vec3(0.0, 3.0, 0.0), Vec3(1.0, 1.0, 1.0), 0.0)
    ensures SlabTest(b, r, -10.0, 10.0)
  {
    assert 1.0 / 1.0 == 1.0;
    assert SlabInterval(b, r, 0).0 == 1.0 && SlabInterval(b, r, 0).1 == 2.0;
    assert SlabPasses(b, r, 0, -10.0, 10.0);
    assert SlabInterval(b, r, 1).0 == -2.0 && SlabInterval(b, r, 1).1 == -1.0;
    assert SlabPasses(b, r, 1, -10.0, 10.0);
    assert SlabInterval(b, r, 2).0 == -1.0 && SlabInterval(b, r, 2).1 == 1.0;
    assert SlabPasses(b, r, 2, -10.0, 10.0);
  }

  lemma SkewRayOutside(b: Aabb, r: Ray, t: real)
    requires b == Aabb(Vec3(1.0, 1.0, -1.0), Vec3(2.0, 2.0, 1.0))
    requires r == Ray(Vec3(0.0, 3.0, 0.0), Vec3(1.0, 1.0, 1.0), 0.0)
    ensures !Inside(b, PointAt(r, t))
  {
    PointAtOn(r, t, 0);
    PointAtOn(r, t, 1);
    assert t * 1.0 == t;
    assert PointAt(r, t).At(0) == t && PointAt(r, t).At(1) == 3.0 + t;
  }

  /**
   * No false negatives: if the ray is in a box with volume at a parameter
   * strictly inside the window, the test passes.
   */
  lemma HitWhenInside(b: Aabb, r: Ray, tmin: real, tmax: real, t: real)
    requires NonZeroDirection(r) && Proper(b)
    requires tmin < t < tmax && Inside(b, PointAt(r, t))
    ensures SlabTest(b, r, tmin, tmax)
  {
    SlabPassesWhenInside(b, r, 0, tmin, tmax, t);
    SlabPassesWhenInside(b, r, 1, tmin, tmax, t);
    SlabPassesWhenInside(b, r, 2, tmin, tmax, t);
  }

  lemma SlabPassesWhenInside(b: Aabb, r: Ray, a: Axis, tmin: real, tmax: real, t: real)
    requires r.direction.At(a) != 0.0 && b.min.At(a) < b.max.At(a)
    requires tmin < t < tmax && InsideOn(b, PointAt(r, t), a)
    ensures SlabPasses(b, r, a, tmin, tmax)
  {
    var d, o, lo, hi := r.direction.At(a), r.origin.At(a), b.min.At(a), b.max.At(a);
    PointAtOn(r, t, a);
    CrossingsAlgebra(lo, hi, o, d, t);
    var (t0, t1) := SlabInterval(b, r, a);
    assert t0 <= t <= t1 && t0 < t1;
  }

  /** A box that contains another is hit whenever the inner one is. */
  lemma HitMonotone(inner: Aabb, outer: Aabb, r: Ray, tmin: real, tmax: real)
    requires NonZeroDirection(r)
    requires Contains(outer, inner) && SlabTest(inner, r, tmin, tmax)
    ensures SlabTest(outer, r, tmin, tmax)
  {
    SlabPassesMonotone(inner, outer, r, 0, tmin, tmax);
    SlabPassesMonotone(inner, outer, r, 1, tmin, tmax);
    SlabPassesMonotone(inner, outer, r, 2, tmin, tmax);
  }

  lemma SlabPassesMonotone(inner: Aabb, outer: Aabb, r: Ray, a: Axis, tmin: real, tmax: real)
    requires r.direction.At(a) != 0.0
    requires ContainsOn(outer, inner, a) && SlabPasses(inner, r, a, tmin, tmax)
    ensures SlabPasses(outer, r, a, tmin, tmax)
  {
    SlabPassesIff(inner, r, a, tmin, tmax);
    SlabPassesIff(outer, r, a, tmin, tmax);
  }

  function Translate(b: Aabb, v: Vec3): Aabb {
    Aabb(Add(b.min, v), Add(b.max, v))
  }

  /** Moving the box and the ray's origin by the same vector does not change the answer. */
  lemma HitTranslation(b: Aabb, r: Ray, v: Vec3, tmin: real, tmax: real)
    requires NonZeroDirection(r)
    ensures SlabTest(Translate(b, v), Ray(Add(r.origin, v), r.direction, r.time), tmin, tmax)
        == SlabTest(b, r, tmin, tmax)
  {
    var moved := Ray(Add(r.origin, v), r.direction, r.time);
    SlabIntervalTranslation(b, r, v, 0);
    SlabIntervalTranslation(b, r, v, 1);
    SlabIntervalTranslation(b, r, v, 2);
  }

  lemma SlabIntervalTranslation(b: Aabb, r: Ray, v: Vec3, a: Axis)
    requires r.direction.At(a) != 0.0
    ensures SlabInterval(Translate(b, v), Ray(Add(r.origin, v), r.direction, r.time), a)
        == SlabInterval(b, r, a)
  {
    var moved := Ray(Add(r.origin, v), r.direction, r.time);
    var c := Translate(b, v);
    var invD := 1.0 / r.direction.At(a);
    assert moved.direction.At(a) == r.direction.At(a);
    assert c.min.At(a) - moved.origin.At(a) == b.min.At(a) - r.origin.At(a);
    assert c.max.At(a) - moved.origin.At(a) == b.max.At(a) - r.origin.At(a);
    assert SlabInterval(c, moved, a).0 == SlabInterval(b, r, a).0;
    assert SlabInterval(c, moved, a).1 == SlabInterval(b, r, a).1;
  }

  // ---------------------------------------------------------------------------
  // Algebra of surrounding_box

  lemma SurroundingBoxCommutative(a: Aabb, b: Aabb)
    ensures SurroundingBox(a, b) == SurroundingBox(b, a)
  {
  }

  lemma SurroundingBoxAssociative(a: Aabb, b: Aabb, c: Aabb)
    ensures SurroundingBox(SurroundingBox(a, b), c) == SurroundingBox(a, SurroundingBox(b, c))
  {
  }

  lemma SurroundingBoxIdempotent(a: Aabb)
    ensures SurroundingBox(a, a) == a
  {
  }

  lemma SurroundingBoxOrdered(a: Aabb, b: Aabb)
    requires Ordered(a) && Ordered(b)
    ensures Ordered(SurroundingBox(a, b))
  {
  }
}
