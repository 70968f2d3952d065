/** Sequence helpers shared by the BVH sort and the Perlin shuffle. */
module Sequences {

  /** `slice.swap(a, b)` on a sequence: positions `a` and `b` trade places. */
  function Swapped<T>(s: seq<T>, a: nat, b: nat): seq<T>
    requires a < |s| && b < |s|
  {
    s[a := s[b]][b := s[a]]
  }
}
