/**
 * The primitive interface, the primitive list and timed movement
 * (src/objects/mod.rs).
 */
module Objects {
  import opened Wrappers
  import opened Geometry
  import opened Aabbs

  /**
   * `HitRecord`. The shared material reference is not part of this model;
   * nothing here reads it.
   */
  datatype HitRecord = HitRecord(t: real, p: Vec3, normal: Vec3, u: real, v: real)

  /**
   * A primitive, seen only through the `Hittable` interface: its ray query
   * `hits(ray, t_min, t_max)` and its `bounding_box(t0, t1)`. The concrete
   * shapes (spheres, moving spheres) are not part of this model.
   */
  datatype Hittable = Hittable(
    hits: (Ray, real, real) -> Option<HitRecord>,
    boundingBox: (real, real) -> Option<Aabb>)

  // ---------------------------------------------------------------------------
  // What a well-behaved primitive promises

  /** A reported hit lies strictly inside the query window. */
  ghost predicate ReportsInWindow(h: Hittable) {
    forall r, lo, hi :: h.hits(r, lo, hi).Some? ==> lo < h.hits(r, lo, hi).value.t < hi
  }

  /** The part of a query answer that survives lowering the window's upper end to `hi`. */
  function Narrow(o: Option<HitRecord>, hi: real): Option<HitRecord> {
    if o.Some? && o.value.t < hi then o else None
  }

  /**
   * The primitive reports its nearest surface crossing in the window: asking
   * with a smaller upper end gives the same hit if it is still below it, and
   * nothing otherwise. Spheres behave this way (the first root in the window).
   */
  ghost predicate NearestInWindow(h: Hittable) {
    && ReportsInWindow(h)
    && forall r, lo, hi, hi' | hi' <= hi :: h.hits(r, lo, hi') == Narrow(h.hits(r, lo, hi), hi')
  }

  /**
   * The primitive's box for the interval [t0, t1] passes the slab test for
   * every ray and window in which the primitive reports a hit.
   */
  ghost predicate BoxSound(h: Hittable, t0: real, t1: real) {
    forall r, lo, hi | NonZeroDirection(r) && h.hits(r, lo, hi).Some? && h.boundingBox(t0, t1).Some? ::
      SlabTest(h.boundingBox(t0, t1).value, r, lo, hi)
  }

  /** No object reports a hit in the full window. */
  ghost predicate NoHit(objs: seq<Hittable>, r: Ray, lo: real, hi: real) {
    forall h | h in objs :: h.hits(r, lo, hi).None?
  }

  /** `rec` is reported by some object, and no object reports a smaller t. */
  ghost predicate IsNearest(objs: seq<Hittable>, r: Ray, lo: real, hi: real, rec: HitRecord) {
    && (exists h | h in objs :: h.hits(r, lo, hi) == Some(rec))
    && forall h | h in objs && h.hits(r, lo, hi).Some? :: rec.t <= h.hits(r, lo, hi).value.t
  }

  /** Moreover `rec` comes from the first object that reaches the smallest t. */
  ghost predicate IsFirstNearest(objs: seq<Hittable>, r: Ray, lo: real, hi: real, rec: HitRecord) {
    exists j | 0 <= j < |objs| ::
      && objs[j].hits(r, lo, hi) == Some(rec)
      && forall i | 0 <= i < j :: objs[i].hits(r, lo, hi).None? || rec.t < objs[i].hits(r, lo, hi).value.t
  }

  // ---------------------------------------------------------------------------
  // The scan of HittableList::hits

  /** `closest_so_far` and `hit_anything` of `HittableList::hits`. */
  datatype ScanState = ScanState(closest: real, hit: Option<HitRecord>)

  /**
   * The state of the loop of `HittableList::hits` after it has visited `objs`:
   * every object is asked with the window (tMin, closest_so_far), and a
   * reported hit becomes the new closest.
   */
  function Scan(objs: seq<Hittable>, r: Ray, tMin: real, tMax: real): ScanState
    decreases |objs|
  {
    if objs == [] then ScanState(tMax, None)
    else
      var s := Scan(objs[..|objs| - 1], r, tMin, tMax);
      match objs[|objs| - 1].hits(r, tMin, s.closest)
      case Some(rec) => ScanState(rec.t, Some(rec))
      case None => s
  }

  /** The query the loop makes of object `k`: its window ends at the closest t so far. */
  function Query(objs: seq<Hittable>, k: nat, r: Ray, tMin: real, tMax: real): Option<HitRecord>
    requires k < |objs|
  {
    objs[k].hits(r, tMin, Scan(objs[..k], r, tMin, tMax).closest)
  }

  lemma QueryOfPrefix(objs: seq<Hittable>, n: nat, k: nat, r: Ray, tMin: real, tMax: real)
    requires k < n <= |objs|
    ensures Query(objs[..n], k, r, tMin, tMax) == Query(objs, k, r, tMin, tMax)
  {
    assert objs[..n][..k] == objs[..k];
  }

  /** Query `j` reported `rec` and every later query reported nothing. */
  ghost predicate LastSuccessAt(objs: seq<Hittable>, j: nat, r: Ray, tMin: real, tMax: real, rec: HitRecord) {
    && j < |objs|
    && Query(objs, j, r, tMin, tMax) == Some(rec)
    && forall k | j < k < |objs| :: Query(objs, k, r, tMin, tMax).None?
  }

  /**
   * For any objects whatsoever: the result is the answer of the last query
   * that reported something, and `closest_so_far` is its t; when nothing is
   * returned, every query said no and `closest_so_far` is still t_max.
   */
  lemma {:induction false} ScanLastSuccess(objs: seq<Hittable>, r: Ray, tMin: real, tMax: real)
    ensures Scan(objs, r, tMin, tMax).hit.None? ==>
      && Scan(objs, r, tMin, tMax).closest == tMax
      && forall k | 0 <= k < |objs| :: Query(objs, k, r, tMin, tMax).None?
    ensures Scan(objs, r, tMin, tMax).hit.Some? ==>
      && Scan(objs, r, tMin, tMax).closest == Scan(objs, r, tMin, tMax).hit.value.t
      && exists j :: LastSuccessAt(objs, j, r, tMin, tMax, Scan(objs, r, tMin, tMax).hit.value)
    decreases |objs|
  {
    if objs != [] {
      var n := |objs| - 1;
      var init := objs[..n];
      ScanLastSuccess(init, r, tMin, tMax);
      forall k | 0 <= k < n
        ensures Query(init, k, r, tMin, tMax) == Query(objs, k, r, tMin, tMax)
      {
        QueryOfPrefix(objs, n, k, r, tMin, tMax);
      }
      var s := Scan(init, r, tMin, tMax);
      assert Query(objs, n, r, tMin, tMax) == objs[n].hits(r, tMin, s.closest);
      if objs[n].hits(r, tMin, s.closest).Some? {
        assert LastSuccessAt(objs, n, r, tMin, tMax, Scan(objs, r, tMin, tMax).hit.value);
      } else if s.hit.Some? {
        var j :| LastSuccessAt(init, j, r, tMin, tMax, s.hit.value);
        assert LastSuccessAt(objs, j, r, tMin, tMax, s.hit.value);
      }
    }
  }

  /**
   * With primitives that report only inside their window, `closest_so_far`
   * never increases, never exceeds t_max, and a returned hit lies in
   * (t_min, t_max).
   */
  lemma {:induction false} ScanClosestNeverIncreases(objs: seq<Hittable>, r: Ray, tMin: real, tMax: real)
    requires forall h | h in objs :: ReportsInWindow(h)
    ensures forall k | 0 <= k < |objs| ::
      Scan(objs[..k + 1], r, tMin, tMax).closest <= Scan(objs[..k], r, tMin, tMax).closest
    ensures Scan(objs, r, tMin, tMax).closest <= tMax
    ensures Scan(objs, r, tMin, tMax).hit.Some? ==> tMin < Scan(objs, r, tMin, tMax).hit.value.t < tMax
    decreases |objs|
  {
    if objs != [] {
      var n := |objs| - 1;
      var init := objs[..n];
      ScanClosestNeverIncreases(init, r, tMin, tMax);
      forall k | 0 <= k <= n
        ensures objs[..k] == init[..k]
      {
      }
      assert objs[..n + 1] == objs;
      var s := Scan(init, r, tMin, tMax);
      assert objs[n] in objs;
      if s.hit.Some? {
        assert s.closest == s.hit.value.t by { ScanLastSuccess(init, r, tMin, tMax); }
      }
    }
  }

  /** What the scan knows about the objects it has visited, as ScanFindsNearest states it. */
  ghost predicate NearestSoFar(objs: seq<Hittable>, r: Ray, tMin: real, tMax: real, s: ScanState) {
    && (s.hit.None? <==> NoHit(objs, r, tMin, tMax))
    && (s.hit.Some? ==> IsNearest(objs, r, tMin, tMax, s.hit.value) && IsFirstNearest(objs, r, tMin, tMax, s.hit.value))
    && s.closest == if s.hit.Some? then s.hit.value.t else tMax
  }

  /**
   * With primitives that report their nearest crossing, the scan finds the
   * nearest hit over the whole list: nothing exactly when no object reports
   * anything in (t_min, t_max), otherwise the smallest t, from the earliest
   * object that reaches it.
   */
  lemma {:induction false} ScanFindsNearest(objs: seq<Hittable>, r: Ray, tMin: real, tMax: real)
    requires forall h | h in objs :: NearestInWindow(h)
    ensures NearestSoFar(objs, r, tMin, tMax, Scan(objs, r, tMin, tMax))
    decreases |objs|
  {
    if objs != [] {
      var n := |objs| - 1;
      var init := objs[..n];
      assert objs == init + [objs[n]];
      ScanFindsNearest(init, r, tMin, tMax);
      ScanStepNearest(init, objs[n], r, tMin, tMax);
    }
  }

  lemma ScanStepNearest(init: seq<Hittable>, last: Hittable, r: Ray, tMin: real, tMax: real)
    requires forall h | h in init :: NearestInWindow(h)
    requires NearestInWindow(last)
    requires NearestSoFar(init, r, tMin, tMax, Scan(init, r, tMin, tMax))
    ensures NearestSoFar(init + [last], r, tMin, tMax, Scan(init + [last], r, tMin, tMax))
  {
    var objs := init + [last];
    assert objs[..|init|] == init;
    var s := Scan(init, r, tMin, tMax);
    var full := last.hits(r, tMin, tMax);
    assert s.closest <= tMax by {
      if s.hit.Some? {
        var h :| h in init && h.hits(r, tMin, tMax) == s.hit;
        assert ReportsInWindow(h);
      }
    }
    assert last.hits(r, tMin, s.closest) == Narrow(full, s.closest);
    if full.Some? && full.value.t < s.closest {
      assert Scan(objs, r, tMin, tMax) == ScanState(full.value.t, full);
      ScanStepTakes(init, last, r, tMin, tMax, s);
    } else {
      assert Scan(objs, r, tMin, tMax) == s;
      ScanStepKeeps(init, last, r, tMin, tMax, s);
    }
  }

  /** The last object reports a hit below the closest so far: it is the new nearest. */
  lemma ScanStepTakes(init: seq<Hittable>, last: Hittable, r: Ray, tMin: real, tMax: real, s: ScanState)
    requires NearestSoFar(init, r, tMin, tMax, s)
    requires last.hits(r, tMin, tMax).Some? && last.hits(r, tMin, tMax).value.t < s.closest
    ensures NearestSoFar(init + [last], r, tMin, tMax,
                         ScanState(last.hits(r, tMin, tMax).value.t, last.hits(r, tMin, tMax)))
  {
    var objs := init + [last];
    var n := |init|;
    var rec := last.hits(r, tMin, tMax).value;
    assert objs[n] == last;
    forall i | 0 <= i < n
      ensures objs[i].hits(r, tMin, tMax).None? || rec.t < objs[i].hits(r, tMin, tMax).value.t
    {
      assert objs[i] == init[i] && init[i] in init;
    }
    assert IsFirstNearest(objs, r, tMin, tMax, rec);
    forall h | h in objs && h.hits(r, tMin, tMax).Some?
      ensures rec.t <= h.hits(r, tMin, tMax).value.t
    {
      if h != last {
        assert h in init;
      }
    }
  }

  /** The last object reports nothing below the closest so far: the answer stays. */
  lemma ScanStepKeeps(init: seq<Hittable>, last: Hittable, r: Ray, tMin: real, tMax: real, s: ScanState)
    requires ReportsInWindow(last)
    requires NearestSoFar(init, r, tMin, tMax, s)
    requires !(last.hits(r, tMin, tMax).Some? && last.hits(r, tMin, tMax).value.t < s.closest)
    ensures NearestSoFar(init + [last], r, tMin, tMax, s)
  {
    var objs := init + [last];
    var n := |init|;
    assert objs[n] == last;
    assert forall h | h in objs :: h in init || h == last;
    if s.hit.Some? {
      var rec := s.hit.value;
      var j :| 0 <= j < n && init[j].hits(r, tMin, tMax) == Some(rec)
        && forall i | 0 <= i < j :: init[i].hits(r, tMin, tMax).None? || rec.t < init[i].hits(r, tMin, tMax).value.t;
      assert objs[j] == init[j];
      assert IsFirstNearest(objs, r, tMin, tMax, rec);
    } else {
      assert last.hits(r, tMin, tMax).None?;
    }
  }

  // ---------------------------------------------------------------------------
  // The bounding box of HittableList

  /** Every object has a box for the interval [t0, t1]. */
  predicate AllBoxed(objs: seq<Hittable>, t0: real, t1: real) {
    forall i | 0 <= i < |objs| :: objs[i].boundingBox(t0, t1).Some?
  }

  /** The left fold of `surrounding_box` over the objects' boxes. */
  function BoxesUnion(objs: seq<Hittable>, t0: real, t1: real): Aabb
    requires |objs| >= 1 && AllBoxed(objs, t0, t1)
    decreases |objs|
  {
    if |objs| == 1 then objs[0].boundingBox(t0, t1).value
    else SurroundingBox(BoxesUnion(objs[..|objs| - 1], t0, t1), objs[|objs| - 1].boundingBox(t0, t1).value)
  }

  /** What `HittableList::bounding_box` returns. */
  function ListBox(objs: seq<Hittable>, t0: real, t1: real): Option<Aabb> {
    if |objs| < 1 || !AllBoxed(objs, t0, t1) then None else Some(BoxesUnion(objs, t0, t1))
  }

  /**
   * The list's box contains every object's box, and it is the smallest box
   * that does.
   */
  lemma {:induction false} ListBoxBounds(objs: seq<Hittable>, t0: real, t1: real)
    requires ListBox(objs, t0, t1).Some?
    ensures forall i | 0 <= i < |objs| :: Contains(ListBox(objs, t0, t1).value, objs[i].boundingBox(t0, t1).value)
    ensures forall c :: (forall i | 0 <= i < |objs| :: Contains(c, objs[i].boundingBox(t0, t1).value)) ==>
      Contains(c, ListBox(objs, t0, t1).value)
    decreases |objs|
  {
    if |objs| > 1 {
      var n := |objs| - 1;
      var init := objs[..n];
      assert AllBoxed(init, t0, t1);
      ListBoxBounds(init, t0, t1);
      var u := BoxesUnion(init, t0, t1);
      var lastBox := objs[n].boundingBox(t0, t1).value;
      assert ListBox(objs, t0, t1).value == SurroundingBox(u, lastBox);
      forall i | 0 <= i < |objs|
        ensures Contains(SurroundingBox(u, lastBox), objs[i].boundingBox(t0, t1).value)
      {
        if i < n {
          assert init[i] == objs[i];
          ContainsTransitive(SurroundingBox(u, lastBox), u, objs[i].boundingBox(t0, t1).value);
        }
      }
      forall c | (forall i | 0 <= i < |objs| :: Contains(c, objs[i].boundingBox(t0, t1).value))
        ensures Contains(c, SurroundingBox(u, lastBox))
      {
        assert forall i | 0 <= i < n :: Contains(c, init[i].boundingBox(t0, t1).value) by {
          forall i | 0 <= i < n ensures Contains(c, init[i].boundingBox(t0, t1).value) {
            assert init[i] == objs[i];
          }
        }
      }
    }
  }

  lemma ContainsTransitive(a: Aabb, b: Aabb, c: Aabb)
    requires Contains(a, b) && Contains(b, c)
    ensures Contains(a, c)
  {
  }

  // ---------------------------------------------------------------------------
  // HittableList

  /** `HittableList`: a growable list of primitives. */
  class HittableList {
    var objects: seq<Hittable>

    /** `HittableList::new`: an empty list. */
    constructor ()
      ensures objects == []
    {
      objects := [];
    }

    /** `size`: the number of objects; zero exactly for the empty list. */
    function Size(): (n: nat)
      reads this
      ensures n == |objects|
      ensures n == 0 <==> objects == []
    {
      |objects|
    }

    /** `add`: appends one object; the earlier ones stay where they were. */
    method Add(obj: Hittable)
      modifies this
      ensures objects == old(objects) + [obj]
      ensures Size() == old(Size()) + 1
    {
      objects := objects + [obj];
    }

    /** `hits`: the linear nearest-hit scan. */
    method Hits(r: Ray, tMin: real, tMax: real) returns (hitAnything: Option<HitRecord>)
      ensures hitAnything == Scan(objects, r, tMin, tMax).hit
    {
      hitAnything := None;
      var closestSoFar := tMax;
      for i := 0 to |objects|
        invariant Scan(objects[..i], r, tMin, tMax) == ScanState(closestSoFar, hitAnything)
      {
        assert objects[..i + 1][..i] == objects[..i];
        match objects[i].hits(r, tMin, closestSoFar) {
          case Some(hit) =>
            closestSoFar := hit.t;
            hitAnything := Some(hit);
          case None =>
        }
      }
      assert objects[..|objects|] == objects;
    }

    /** `bounding_box`: folds `surrounding_box`, giving up on the first object without a box. */
    method BoundingBox(t0: real, t1: real) returns (result: Option<Aabb>)
      ensures result == ListBox(objects, t0, t1)
    {
      if Size() < 1 {
        return None;
      }
      var first := objects[0].boundingBox(t0, t1);
      if first.None? {
        return None;
      }
      var bx := first.value;
      for i := 1 to |objects|
        invariant AllBoxed(objects[..i], t0, t1) && BoxesUnion(objects[..i], t0, t1) == bx
      {
        var tmp := objects[i].boundingBox(t0, t1);
        if tmp.None? {
          return None;
        }
        assert objects[..i + 1][..i] == objects[..i];
        bx := SurroundingBox(bx, tmp.value);
      }
      assert objects[..|objects|] == objects;
      return Some(bx);
    }
  }

  // ---------------------------------------------------------------------------
  // TimedMovement

  /** A center moving from `start` at `starttime` to `end` at `endtime`. */
  datatype TimedMovement = TimedMovement(starttime: real, start: Vec3, endtime: real, end: Vec3)

  /**
   * `TimedMovement::lerp` as written: the factor divides by (endtime - time),
   * not by (endtime - starttime), so it is undefined at time = endtime.
   */
  function Lerp(m: TimedMovement, time: real): (c: Vec3)
    requires time != m.endtime
    ensures time == m.starttime ==> c == m.start
  {
    Add(m.start, Scale((time - m.starttime) / (m.endtime - time), Sub(m.end, m.start)))
  }

  /**
   * The formula as written is not linear: halfway between the two times it
   * already gives the end point, while the linear interpolation there is the
   * midpoint of `start` and `end`.
   */
  lemma LerpHalfwayIsEnd(m: TimedMovement, time: real)
    requires m.starttime < time < m.endtime
    requires time - m.starttime == m.endtime - time
    ensures Lerp(m, time) == m.end
  {
    var f := (time - m.starttime) / (m.endtime - time);
    SelfQuotient(m.endtime - time);
    assert f == 1.0;
    ScaleOne(Sub(m.end, m.start));
  }

  lemma SelfQuotient(x: real)
    requires x != 0.0
    ensures x / x == 1.0
  {
  }

  lemma ScaleOne(v: Vec3)
    ensures Scale(1.0, v) == v
  {
  }

  /** Linear interpolation, dividing by (endtime - starttime): it starts at `start` and ends at `end`. */
  function LinearLerp(m: TimedMovement, time: real): (c: Vec3)
    requires m.starttime != m.endtime
    ensures time == m.starttime ==> c == m.start
    ensures time == m.endtime ==> c == m.end
  {
    SelfQuotient(m.endtime - m.starttime);
    Add(m.start, Scale((time - m.starttime) / (m.endtime - m.starttime), Sub(m.end, m.start)))
  }

  /** The corrected interpolation moves by equal steps in equal times. */
  lemma LinearLerpProperties(m: TimedMovement, time: real, dt: real)
    requires m.starttime != m.endtime
    ensures Sub(LinearLerp(m, time + dt), LinearLerp(m, time))
         == Scale(dt / (m.endtime - m.starttime), Sub(m.end, m.start))
  {
    var k := 1.0 / (m.endtime - m.starttime);
    assert (m.endtime - m.starttime) / (m.endtime - m.starttime) == 1.0;
    var f0 := (time - m.starttime) / (m.endtime - m.starttime);
    var f1 := (time + dt - m.starttime) / (m.endtime - m.starttime);
    assert f1 - f0 == dt / (m.endtime - m.starttime);
    var d := Sub(m.end, m.start);
    assert f1 * d.x - f0 * d.x == (f1 - f0) * d.x;
    assert f1 * d.y - f0 * d.y == (f1 - f0) * d.y;
    assert f1 * d.z - f0 * d.z == (f1 - f0) * d.z;
  }
}
