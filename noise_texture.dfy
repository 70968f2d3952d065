/**
 * The Perlin tables behind `NoiseTexture` (src/textures/noise_texture.rs):
 * three shuffled permutations of 0..255, a table of 256 gradient vectors,
 * the lookup of the gradients at the eight corners of a lattice cell in
 * `noise`, and the octave loop of `turb`.
 *
 * Every call to `rng.gen::<f64>()` is a number in [0, 1) passed in by the
 * caller; the smoothing in `perlin_interp` is not part of this model, so
 * `turb` receives the noise values as a function.
 */
module NoiseTexture {
  import opened Geometry
  import opened Sequences

  /** The length of every Perlin table. */
  const TableSize: nat := 256

  /** A value `rng.gen::<f64>()` may return. */
  predicate IsDraw(r: real) {
    0.0 <= r < 1.0
  }

  predicate AllDraws(draws: seq<real>) {
    forall m | 0 <= m < |draws| :: IsDraw(draws[m])
  }

  /** 0, 1, ..., n - 1. */
  function Range(n: nat): (s: seq<nat>)
    ensures |s| == n
    ensures forall m | 0 <= m < n :: s[m] == m
  {
    seq(n, m requires 0 <= m < n => m as nat)
  }

  // ---------------------------------------------------------------------------
  // permute and perlin_generate_perm

  lemma ScaledDrawBelow(r: real, n: nat)
    requires IsDraw(r) && n >= 1
    ensures 0.0 <= r * n as real < n as real
  {
    assert (1.0 - r) * n as real > 0.0;
  }

  /**
   * The swap partner of position `i`: `(r * (i + 1) as f64) as usize` for a
   * draw `r`. The cast truncates, which for a non-negative number is the
   * floor, and the partner is never past `i`.
   */
  function Target(r: real, i: nat): (t: nat)
    requires IsDraw(r)
    ensures t <= i
  {
    ScaledDrawBelow(r, i + 1);
    (r * (i + 1) as real).Floor
  }

  /**
   * What `permute(p, n)` leaves in `p`: for i from n - 1 down to 0, position
   * i is swapped with Target(draws[i], i), where draws[i] is the number drawn
   * in the iteration for i.
   */
  function Shuffle(s: seq<nat>, n: nat, draws: seq<real>): seq<nat>
    requires n <= |s| && n <= |draws| && AllDraws(draws)
    decreases n
  {
    if n == 0 then s
    else Shuffle(Swapped(s, n - 1, Target(draws[n - 1], n - 1)), n - 1, draws)
  }

  /**
   * Shuffling only swaps: the result holds the same values as the input and
   * everything from position n on is untouched.
   */
  lemma {:induction false} ShufflePermutes(s: seq<nat>, n: nat, draws: seq<real>)
    requires n <= |s| && n <= |draws| && AllDraws(draws)
    ensures |Shuffle(s, n, draws)| == |s|
    ensures multiset(Shuffle(s, n, draws)) == multiset(s)
    ensures Shuffle(s, n, draws)[n..] == s[n..]
    decreases n
  {
    if n > 0 {
      var t := Target(draws[n - 1], n - 1);
      var s' := Swapped(s, n - 1, t);
      assert multiset(s') == multiset(s) by {
        assert s' == s[n - 1 := s[t]][t := s[n - 1]];
      }
      ShufflePermutes(s', n - 1, draws);
      assert s'[n..] == s[n..];
      assert s'[n - 1..][1..] == s'[n..];
    }
  }

  /**
   * `Perlin::permute`: a Fisher-Yates pass over the first `n` entries of `p`,
   * from the last one down, swapping in place.
   */
  method Permute(p: array<nat>, n: nat, draws: seq<real>)
    requires n <= p.Length && n <= |draws| && AllDraws(draws)
    modifies p
    ensures p[..] == Shuffle(old(p[..]), n, draws)
    ensures multiset(p[..]) == multiset(old(p[..])) && p[n..] == old(p[n..])
  {
    var i: nat := n;
    while i > 0
      invariant i <= n
      invariant Shuffle(p[..], i, draws) == Shuffle(old(p[..]), n, draws)
    {
      i := i - 1;
      var target := Target(draws[i], i);
      ghost var before := p[..];
      p[i], p[target] := p[target], p[i];
      assert p[..] == Swapped(before, i, target);
    }
    ShufflePermutes(old(p[..]), n, draws);
  }

  /** A permutation table: 256 entries holding each of 0..255 exactly once. */
  ghost predicate IsPermTable(p: seq<nat>) {
    |p| == TableSize && multiset(p) == multiset(Range(TableSize))
  }

  /** Every entry of a permutation table is a valid table index. */
  lemma PermTableBelow(p: seq<nat>)
    requires IsPermTable(p)
    ensures forall m | 0 <= m < |p| :: p[m] < TableSize
  {
    var range := Range(TableSize);
    forall m | 0 <= m < |p| ensures p[m] < TableSize {
      assert p[m] in multiset(p);
      assert p[m] in multiset(range);
      assert p[m] in range;
      var k :| 0 <= k < |range| && range[k] == p[m];
    }
  }

  /**
   * `Perlin::perlin_generate_perm`: the numbers 0..255 in order, then
   * permuted over all 256 positions.
   */
  method PerlinGeneratePerm(draws: seq<real>) returns (p: seq<nat>)
    requires |draws| == TableSize && AllDraws(draws)
    ensures p == Shuffle(Range(TableSize), TableSize, draws)
    ensures IsPermTable(p)
  {
    var a := new nat[TableSize];
    for i := 0 to TableSize
      invariant forall m | 0 <= m < i :: a[m] == m
    {
      a[i] := i;
    }
    assert a[..] == Range(TableSize);
    Permute(a, TableSize, draws);
    p := a[..];
  }

  // ---------------------------------------------------------------------------
  // perlin_generate and Perlin::new

  /** One draw per coordinate mapped from [0, 1) onto [-1, 1). */
  function Spread(d: (real, real, real)): Vec3 {
    Vec3(-1.0 + 2.0 * d.0, -1.0 + 2.0 * d.1, -1.0 + 2.0 * d.2)
  }

  predicate InCube(v: Vec3) {
    -1.0 <= v.x < 1.0 && -1.0 <= v.y < 1.0 && -1.0 <= v.z < 1.0
  }

  predicate AllTripleDraws(draws: seq<(real, real, real)>) {
    forall m | 0 <= m < |draws| :: IsDraw(draws[m].0) && IsDraw(draws[m].1) && IsDraw(draws[m].2)
  }

  /**
   * `Perlin::perlin_generate`: 256 random vectors, each coordinate drawn in
   * [-1, 1) (x, then y, then z), pushed in order.
   */
  method PerlinGenerate(draws: seq<(real, real, real)>) returns (p: seq<Vec3>)
    requires |draws| == TableSize && AllTripleDraws(draws)
    ensures |p| == TableSize
    ensures forall m | 0 <= m < |p| :: p[m] == Spread(draws[m]) && InCube(p[m])
  {
    p := [];
    for i := 0 to TableSize
      invariant |p| == i
      invariant forall m | 0 <= m < i :: p[m] == Spread(draws[m]) && InCube(p[m])
    {
      p := p + [Spread(draws[i])];
    }
  }

  /** The fields of `Perlin`. */
  datatype Perlin = Perlin(ranvec: seq<Vec3>, permX: seq<nat>, permY: seq<nat>, permZ: seq<nat>)

  /** What `Perlin::new` guarantees: 256 gradients and three permutation tables. */
  ghost predicate ValidPerlin(perlin: Perlin) {
    && |perlin.ranvec| == TableSize
    && IsPermTable(perlin.permX) && IsPermTable(perlin.permY) && IsPermTable(perlin.permZ)
  }

  /** `Perlin::new`: the gradients, then the x, y and z permutations. */
  method NewPerlin(vecDraws: seq<(real, real, real)>, drawsX: seq<real>, drawsY: seq<real>, drawsZ: seq<real>)
    returns (perlin: Perlin)
    requires |vecDraws| == TableSize && AllTripleDraws(vecDraws)
    requires |drawsX| == TableSize && AllDraws(drawsX)
    requires |drawsY| == TableSize && AllDraws(drawsY)
    requires |drawsZ| == TableSize && AllDraws(drawsZ)
    ensures ValidPerlin(perlin)
    ensures forall m | 0 <= m < TableSize :: perlin.ranvec[m] == Spread(vecDraws[m]) && InCube(perlin.ranvec[m])
    ensures perlin.permX == Shuffle(Range(TableSize), TableSize, drawsX)
    ensures perlin.permY == Shuffle(Range(TableSize), TableSize, drawsY)
    ensures perlin.permZ == Shuffle(Range(TableSize), TableSize, drawsZ)
  {
    var ranvec := PerlinGenerate(vecDraws);
    var permX := PerlinGeneratePerm(drawsX);
    var permY := PerlinGeneratePerm(drawsY);
    var permZ := PerlinGeneratePerm(drawsZ);
    perlin := Perlin(ranvec, permX, permY, permZ);
  }

  // ---------------------------------------------------------------------------
  // Bitwise exclusive or

  /** `a ^ b` on unsigned integers, bit by bit from the lowest. */
  function Xor(a: nat, b: nat): nat
    decreases a + b
  {
    if a == 0 && b == 0 then 0
    else 2 * Xor(a / 2, b / 2) + (if a % 2 == b % 2 then 0 else 1)
  }

  /** `2^k` on naturals, the bound of a `k`-bit number (`Pow` below is the real power `turb` uses). */
  function Pow2(k: nat): (p: nat)
    ensures p >= 1
  {
    if k == 0 then 1 else 2 * Pow2(k - 1)
  }

  /** Exclusive or of two numbers below 2^k is below 2^k. */
  lemma {:induction false} XorBelow(a: nat, b: nat, k: nat)
    requires a < Pow2(k) && b < Pow2(k)
    ensures Xor(a, b) < Pow2(k)
    decreases k
  {
    if k > 0 && !(a == 0 && b == 0) {
      XorBelow(a / 2, b / 2, k - 1);
    }
  }

  // ---------------------------------------------------------------------------
  // The corner lookup of noise

  /** The largest `usize`. */
  const UsizeMax: nat := 0xFFFF_FFFF_FFFF_FFFF

  /**
   * `f as usize` for an integral `f64`: a saturating cast, so every negative
   * value becomes 0.
   */
  function SaturatingCast(f: int): (n: nat)
    ensures n <= UsizeMax
  {
    if f < 0 then 0 else if f > UsizeMax then UsizeMax else f
  }

  /**
   * The table position of the lattice coordinate `cell + d` as the source
   * writes it: `(cell as usize + d) & 255`. Masking with 255 keeps the low
   * eight bits, the remainder by 256. At `usize::MAX + 1` the sum wraps to 0
   * in release builds, which leaves the same remainder.
   */
  function SaturatedLatticeIndex(cell: int, d: nat): (n: nat)
    ensures n < TableSize
  {
    (SaturatingCast(cell) + d) % TableSize
  }

  /**
   * The table position of the lattice coordinate `cell + d` on a
   * two's-complement integer, `(cell + d) & 255`: the Euclidean remainder by
   * 256, so negative cells wrap around like positive ones.
   */
  function LatticeIndex(cell: int, d: nat): (n: nat)
    ensures n < TableSize
  {
    (cell + d) % TableSize
  }

  /**
   * As written, the cell just below 0 and the cell at 0 disagree about the
   * lattice point they share: the cell [-1, 0) looks its upper corner up at
   * position 1, the cell [0, 1) its lower corner at position 0, so the noise
   * jumps at 0 (and every negative cell uses the gradients of cell 0).
   */
  lemma SaturatedCornerNotShared()
    ensures SaturatedLatticeIndex(-1, 1) != SaturatedLatticeIndex(0, 0)
    ensures SaturatedLatticeIndex(-5, 0) == SaturatedLatticeIndex(0, 0)
  {
  }

  /** The cast agrees with the wrapping index on the non-negative cells. */
  lemma SaturatedAgreesOnNonNegative(cell: int, d: nat)
    requires 0 <= cell <= UsizeMax
    ensures SaturatedLatticeIndex(cell, d) == LatticeIndex(cell, d)
  {
  }

  /**
   * With wrapping, neighbouring cells agree on the corner they share, and the
   * lattice repeats every 256 cells on both sides of 0.
   */
  lemma LatticeCornerShared(cell: int)
    ensures LatticeIndex(cell, 1) == LatticeIndex(cell + 1, 0)
    ensures LatticeIndex(cell + TableSize, 0) == LatticeIndex(cell, 0)
  {
  }

  /**
   * The gradient position for corner (di, dj, dk) of the cell (i, j, k), as
   * the source computes it (with the saturating cast): the exclusive or of
   * the three permutation entries, which is always below 256 and so a valid
   * position in `ranvec`.
   */
  function CornerIndex(perlin: Perlin, i: int, j: int, k: int, di: nat, dj: nat, dk: nat): (n: nat)
    requires ValidPerlin(perlin)
    ensures n < TableSize
  {
    PermTableBelow(perlin.permX);
    PermTableBelow(perlin.permY);
    PermTableBelow(perlin.permZ);
    var x := perlin.permX[SaturatedLatticeIndex(i, di)];
    var y := perlin.permY[SaturatedLatticeIndex(j, dj)];
    var z := perlin.permZ[SaturatedLatticeIndex(k, dk)];
    assert Pow2(8) == TableSize;
    XorBelow(x, y, 8);
    XorBelow(Xor(x, y), z, 8);
    Xor(Xor(x, y), z)
  }

  /** The gradient at corner (di, dj, dk) of the cell (i, j, k). */
  function Corner(perlin: Perlin, i: int, j: int, k: int, di: nat, dj: nat, dk: nat): Vec3
    requires ValidPerlin(perlin)
  {
    perlin.ranvec[CornerIndex(perlin, i, j, k, di, dj, dk)]
  }

  /** The smoothing `f * f * (3 - 2f)` that `noise` applies to each fraction. */
  function Fade(f: real): (g: real)
    ensures f == 0.0 ==> g == 0.0
    ensures f == 1.0 ==> g == 1.0
    ensures 0.0 <= f <= 1.0 ==> 0.0 <= g <= 1.0
  {
    FadeBounds(f);
    f * f * (3.0 - 2.0 * f)
  }

  /** On [0, 1] the smoothing stays in [0, 1]: 1 - g factors as (1 - f)^2 (1 + 2f). */
  lemma FadeBounds(f: real)
    ensures 0.0 <= f <= 1.0 ==> 0.0 <= f * f * (3.0 - 2.0 * f) <= 1.0
  {
    if 0.0 <= f <= 1.0 {
      var sq, rest := f * f, 3.0 - 2.0 * f;
      assert sq >= 0.0 && rest >= 1.0;
      assert sq * rest >= 0.0;
      var gap, up := (1.0 - f) * (1.0 - f), 1.0 + 2.0 * f;
      assert gap >= 0.0 && up >= 1.0;
      assert gap * up >= 0.0;
      assert 1.0 - sq * rest == gap * up;
    }
  }

  /** The fractional part `x - x.floor()`, in [0, 1). */
  function Fraction(x: real): (f: real)
    ensures 0.0 <= f < 1.0
    ensures x == x.Floor as real + f
  {
    x - x.Floor as real
  }

  /**
   * The part of `Perlin::noise` before `perlin_interp`: the smoothed
   * fractions of `p` and the 2x2x2 array `c` of gradients at the corners of
   * the lattice cell holding `p`, filled by three nested loops.
   */
  method NoiseCorners(perlin: Perlin, p: Vec3) returns (c: array3<Vec3>, u: real, v: real, w: real)
    requires ValidPerlin(perlin)
    ensures fresh(c) && c.Length0 == 2 && c.Length1 == 2 && c.Length2 == 2
    ensures forall di, dj, dk | 0 <= di < 2 && 0 <= dj < 2 && 0 <= dk < 2 ::
      c[di, dj, dk] == Corner(perlin, p.x.Floor, p.y.Floor, p.z.Floor, di, dj, dk)
    ensures u == Fade(Fraction(p.x)) && v == Fade(Fraction(p.y)) && w == Fade(Fraction(p.z))
  {
    u := Fade(Fraction(p.x));
    v := Fade(Fraction(p.y));
    w := Fade(Fraction(p.z));
    var i, j, k := p.x.Floor, p.y.Floor, p.z.Floor;
    c := new Vec3[2, 2, 2]((_, _, _) => Vec3(0.0, 0.0, 0.0));
    for di := 0 to 2
      invariant forall a, b, e | 0 <= a < di && 0 <= b < 2 && 0 <= e < 2 :: c[a, b, e] == Corner(perlin, i, j, k, a, b, e)
    {
      for dj := 0 to 2
        invariant forall a, b, e | 0 <= a < di && 0 <= b < 2 && 0 <= e < 2 :: c[a, b, e] == Corner(perlin, i, j, k, a, b, e)
        invariant forall b, e | 0 <= b < dj && 0 <= e < 2 :: c[di, b, e] == Corner(perlin, i, j, k, di, b, e)
      {
        for dk := 0 to 2
          invariant forall a, b, e | 0 <= a < di && 0 <= b < 2 && 0 <= e < 2 :: c[a, b, e] == Corner(perlin, i, j, k, a, b, e)
          invariant forall b, e | 0 <= b < dj && 0 <= e < 2 :: c[di, b, e] == Corner(perlin, i, j, k, di, b, e)
          invariant forall e | 0 <= e < dk :: c[di, dj, e] == Corner(perlin, i, j, k, di, dj, e)
        {
          c[di, dj, dk] := perlin.ranvec[CornerIndex(perlin, i, j, k, di, dj, dk)];
        }
      }
    }
  }

  // ---------------------------------------------------------------------------
  // turb

  function Pow(x: real, k: nat): real {
    if k == 0 then 1.0 else x * Pow(x, k - 1)
  }

  function Abs(x: real): (a: real)
    ensures a >= 0.0 && (a == x || a == -x)
  {
    if x < 0.0 then -x else x
  }

  /** Octave m of `turb`: the noise at 2^m p, weighted by 0.5^m. */
  function Octave(noise: Vec3 -> real, p: Vec3, m: nat): real {
    Weighted(Pow(0.5, m), noise(Scale(Pow(2.0, m), p)))
  }

  /** A noise value `n` scaled by the octave's weight `w`. */
  function Weighted(w: real, n: real): real {
    w * n
  }

  /** The sum `turb` accumulates over its first k octaves. */
  function TurbSum(noise: Vec3 -> real, p: Vec3, k: nat): real {
    if k == 0 then 0.0 else TurbSum(noise, p, k - 1) + Octave(noise, p, k - 1)
  }

  lemma ScaleTwice(a: real, b: real, p: Vec3)
    ensures Scale(a, Scale(b, p)) == Scale(a * b, p)
  {
    assert a * (b * p.x) == (a * b) * p.x;
    assert a * (b * p.y) == (a * b) * p.y;
    assert a * (b * p.z) == (a * b) * p.z;
  }

  /**
   * `Perlin::turb`: `depth` octaves, each adding the weighted noise at the
   * current point, then halving the weight and doubling the point; the
   * result is the absolute value of the sum.
   */
  method Turb(noise: Vec3 -> real, p: Vec3, depth: nat) returns (r: real)
    ensures r == Abs(TurbSum(noise, p, depth))
    ensures r >= 0.0
  {
    var accum := 0.0;
    var tempP := p;
    var weight := 1.0;
    for i := 0 to depth
      invariant weight == Pow(0.5, i)
      invariant tempP == Scale(Pow(2.0, i), p)
      invariant accum == TurbSum(noise, p, i)
    {
      accum := accum + weight * noise(tempP);
      weight := weight * 0.5;
      ScaleTwice(2.0, Pow(2.0, i), p);
      tempP := Scale(2.0, tempP);
    }
    r := Abs(accum);
  }

  lemma {:induction false} HalfPowPositive(k: nat)
    ensures 0.0 < Pow(0.5, k) <= 1.0
  {
    if k > 0 {
      HalfPowPositive(k - 1);
    }
  }

  /** With noise values in [-1, 1], octave m lies in [-0.5^m, 0.5^m]. */
  lemma OctaveBound(noise: Vec3 -> real, p: Vec3, m: nat)
    requires -1.0 <= noise(Scale(Pow(2.0, m), p)) <= 1.0
    ensures -Pow(0.5, m) <= Octave(noise, p, m) <= Pow(0.5, m)
  {
    HalfPowPositive(m);
    WeightedBound(Pow(0.5, m), noise(Scale(Pow(2.0, m), p)));
  }

  lemma WeightedBound(weight: real, n: real)
    requires weight > 0.0 && -1.0 <= n <= 1.0
    ensures -weight <= Weighted(weight, n) <= weight
  {
    if n >= 0.0 {
      assert weight * n <= weight * 1.0;
    } else {
      assert weight * n >= weight * -1.0;
    }
  }

  /**
   * With noise values in [-1, 1], the first k octaves sum to at most
   * 2 - 2 * 0.5^k in absolute value: the weights 1, 1/2, 1/4, ... add up to
   * less than 2.
   */
  lemma {:induction false} TurbSumBound(noise: Vec3 -> real, p: Vec3, k: nat)
    requires forall q :: -1.0 <= noise(q) <= 1.0
    ensures Abs(TurbSum(noise, p, k)) <= 2.0 - 2.0 * Pow(0.5, k)
    decreases k
  {
    if k > 0 {
      TurbSumBound(noise, p, k - 1);
      OctaveBound(noise, p, k - 1);
      assert TurbSum(noise, p, k) == TurbSum(noise, p, k - 1) + Octave(noise, p, k - 1);
      assert Pow(0.5, k) == 0.5 * Pow(0.5, k - 1);
    }
  }

  /** Hence `turb` of noise in [-1, 1] lies in [0, 2). */
  lemma TurbBelowTwo(noise: Vec3 -> real, p: Vec3, depth: nat)
    requires forall q :: -1.0 <= noise(q) <= 1.0
    ensures 0.0 <= Abs(TurbSum(noise, p, depth)) < 2.0
  {
    TurbSumBound(noise, p, depth);
    HalfPowPositive(depth);
  }
}
