// The renderer object: its stratified sampling patterns, the per-pixel
// box filter, and the uniform light pick.
//
// rand() is an input: `draws(k)` is the value rand() / RAND_MAX takes at
// the k-th draw of the computation being modelled, a number in [0, 1].
// The camera's GetRay is a parameter too.
module Rendering {
  import opened Floats
  import opened Vectors
  import opened Materials
  import opened Lights
  import opened Tracing

  /** NUM_SAMPLING_PATTERNS: how many stratified patterns are precomputed. */
  const NUM_SAMPLING_PATTERNS: nat := 64

  /** The samplesPerPixel a Renderer gets when none is given. */
  const DEFAULT_SAMPLES_PER_PIXEL: nat := 1

  /** A sample position inside a pixel, in pixel units. */
  datatype SamplePoint = SamplePoint(x: real, y: real)

  /** A ray the camera produces: its origin and direction. */
  datatype Ray = Ray(origin: Vector3, direction: Vector3)

  /** The sequence of rand() / RAND_MAX values a computation consumes, each in [0, 1]. */
  type Draws = nat -> real

  /** camera->GetRay(x, y, u, v, origin, direction): image-plane point (x, y), lens point (u, v). */
  type Camera = (real, real, real, real) -> Ray

  ghost predicate UnitDraws(draws: Draws)
  {
    forall k: nat :: 0.0 <= draws(k) <= 1.0
  }

  // ---------------------------------------------------------------- sample-count guard

  /** n is 2^k for some k >= 0. */
  predicate IsPowerOfTwo(n: nat)
  {
    n == 1 || (n > 1 && n % 2 == 0 && IsPowerOfTwo(n / 2))
  }

  /** (int)sqrt(n) for a whole n: the largest r with r * r <= n. */
  function FloorSqrt(n: nat): (r: nat)
    ensures r * r <= n < (r + 1) * (r + 1)
  {
    if n == 0 then 0
    else
      var s := FloorSqrt(n - 1);
      if (s + 1) * (s + 1) <= n then s + 1 else s
  }

  /**
   * The test createSamplingPatterns makes for a count other than 1:
   * `(spp & (spp - 1)) != 0` means exit, so for a non-negative count it
   * lets through exactly 0 and the powers of two.
   */
  predicate GuardAsWritten(spp: nat)
  {
    spp == 0 || IsPowerOfTwo(spp)
  }

  /** The corrected guard: a count other than 1 must be a power of two AND a perfect square (1, 4, 16, 64, ...). */
  predicate SampleCountAccepted(spp: nat)
  {
    spp == 1 || (IsPowerOfTwo(spp) && FloorSqrt(spp) * FloorSqrt(spp) == spp)
  }

  // ---------------------------------------------------------------- sampling patterns

  /**
   * The point drawn in cell (x, y) of a size x size grid over the pixel:
   * each coordinate is min + r * (max - min) for the cell's bounds
   * [x / size, (x + 1) / size] and the rand value r.
   */
  function CellPoint(size: nat, x: nat, y: nat, rx: real, ry: real): SamplePoint
    requires size > 0
  {
    var xMin := x as real / size as real;
    var yMin := y as real / size as real;
    var xMax := (x + 1) as real / size as real;
    var yMax := (y + 1) as real / size as real;
    SamplePoint(rx * (xMax - xMin) + xMin, ry * (yMax - yMin) + yMin)
  }

  /** The draw that cell (x, y) of pattern i consumes for its x coordinate; its y coordinate takes the next one. */
  function DrawIndex(size: nat, i: nat, x: nat, y: nat): nat
  {
    ((i * size + x) * size + y) * 2
  }

  /** The points of column x of pattern i, for y = 0 .. size - 1. */
  function Column(size: nat, draws: Draws, i: nat, x: nat): (r: seq<SamplePoint>)
    ensures |r| == size
  {
    seq(size, y requires 0 <= y < size =>
      CellPoint(size, x, y, draws(DrawIndex(size, i, x, y)), draws(DrawIndex(size, i, x, y) + 1)))
  }

  /** The first n columns of pattern i, column after column. */
  function Columns(size: nat, draws: Draws, i: nat, n: nat): (r: seq<SamplePoint>)
    ensures |r| == n * size
  {
    if n == 0 then [] else Columns(size, draws, i, n - 1) + Column(size, draws, i, n - 1)
  }

  /** Point x * size + y of the pattern is the one drawn in cell (x, y). */
  lemma {:induction false} ColumnsIndex(size: nat, draws: Draws, i: nat, n: nat, x: nat, y: nat)
    requires size > 0 && x < n && y < size
    ensures x * size + y < n * size
    ensures Columns(size, draws, i, n)[x * size + y] == Column(size, draws, i, x)[y]
  {
    if x < n - 1 {
      ColumnsIndex(size, draws, i, n - 1, x, y);
      assert (n - 1) * size == n * size - size;
    } else {
      assert x * size == (n - 1) * size;
    }
  }

  /** The 64 stratified patterns for a grid of size x size cells (64 empty ones for size 0). */
  function StratifiedPatterns(size: nat, draws: Draws): (r: seq<seq<SamplePoint>>)
    ensures |r| == NUM_SAMPLING_PATTERNS
    ensures forall k :: 0 <= k < |r| ==> |r[k]| == size * size
  {
    seq(NUM_SAMPLING_PATTERNS, i requires 0 <= i < NUM_SAMPLING_PATTERNS => Columns(size, draws, i, size))
  }

  /**
   * What createSamplingPatterns leaves in samplePatterns: one pattern holding
   * the pixel centre for 1 spp, nothing when the guard fails (the program
   * exits), and otherwise 64 stratified patterns over a (int)sqrt(spp)
   * square grid.
   */
  function SamplingPatternsAsWritten(spp: nat, draws: Draws): seq<seq<SamplePoint>>
  {
    if spp == 1 then [[SamplePoint(0.5, 0.5)]]
    else if !GuardAsWritten(spp) then []
    else StratifiedPatterns(FloorSqrt(spp), draws)
  }

  /**
   * Past the guard, every pattern holds (int)sqrt(spp) squared points: fewer
   * than spp, so that ColorPixel reads past the end of its pattern, exactly
   * when spp is not a perfect square.
   */
  lemma PatternsAsWrittenShort(spp: nat, draws: Draws)
    requires spp != 1 && GuardAsWritten(spp)
    ensures var ps := SamplingPatternsAsWritten(spp, draws);
      |ps| == NUM_SAMPLING_PATTERNS
      && (forall k :: 0 <= k < |ps| ==> |ps[k]| == FloorSqrt(spp) * FloorSqrt(spp))
      && (forall k :: 0 <= k < |ps| ==> (|ps[k]| < spp <==> FloorSqrt(spp) * FloorSqrt(spp) != spp))
  {
  }

  /**
   * With the guard as written, 2 samples per pixel are admitted, yet each of
   * the 64 patterns holds one point, so ColorPixel's read of sample 1 is
   * past the end.
   */
  lemma GuardAsWrittenOverruns(draws: Draws)
    ensures GuardAsWritten(2) && !SampleCountAccepted(2)
    ensures var ps := SamplingPatternsAsWritten(2, draws);
      |ps| == NUM_SAMPLING_PATTERNS && forall k :: 0 <= k < |ps| ==> |ps[k]| == 1
  {
    assert IsPowerOfTwo(1);
    assert IsPowerOfTwo(2);
    assert FloorSqrt(2) == 1;
  }

  /**
   * The patterns the corrected guard allows: as written, but nothing for a
   * count that is not a perfect square.
   */
  function SamplingPatterns(spp: nat, draws: Draws): seq<seq<SamplePoint>>
  {
    if !SampleCountAccepted(spp) then [] else SamplingPatternsAsWritten(spp, draws)
  }

  /** An accepted count gets 1 or 64 patterns, each holding exactly spp points; a rejected one gets none. */
  lemma AcceptedPatternsHoldEverySample(spp: nat, draws: Draws)
    ensures var ps := SamplingPatterns(spp, draws);
      SampleCountAccepted(spp) ==>
        |ps| == (if spp == 1 then 1 else NUM_SAMPLING_PATTERNS)
        && forall k :: 0 <= k < |ps| ==> |ps[k]| == spp
    ensures !SampleCountAccepted(spp) ==> SamplingPatterns(spp, draws) == []
    ensures spp == 1 ==> SamplingPatterns(spp, draws) == [[SamplePoint(0.5, 0.5)]]
  {
  }

  /** r * d lies between 0 and d for r in [0, 1] and d >= 0. */
  lemma ScaledWithin(r: real, d: real)
    requires 0.0 <= r <= 1.0 && 0.0 <= d
    ensures 0.0 <= r * d <= d
  {
    assert (1.0 - r) * d >= 0.0;
  }

  /** x / s <= (x + 1) / s for a positive s. */
  lemma CellBoundsOrdered(x: nat, s: nat)
    requires s > 0
    ensures x as real / s as real <= (x + 1) as real / s as real
  {
    var a := x as real / s as real;
    var b := (x + 1) as real / s as real;
    assert a * s as real == x as real;
    assert b * s as real == (x + 1) as real;
    assert (b - a) * s as real == 1.0;
  }

  /** lo + r * d lies in [lo, lo + d] for r in [0, 1] and d >= 0. */
  lemma Between(lo: real, d: real, r: real)
    requires 0.0 <= d && 0.0 <= r <= 1.0
    ensures lo <= r * d + lo <= lo + d
  {
    ScaledWithin(r, d);
  }

  /** A cell point drawn with rand values in [0, 1] lies within its cell. */
  lemma CellPointInCell(size: nat, x: nat, y: nat, rx: real, ry: real)
    requires size > 0 && 0.0 <= rx <= 1.0 && 0.0 <= ry <= 1.0
    ensures var p := CellPoint(size, x, y, rx, ry);
      x as real / size as real <= p.x <= (x + 1) as real / size as real
      && y as real / size as real <= p.y <= (y + 1) as real / size as real
  {
    CellBoundsOrdered(x, size);
    CellBoundsOrdered(y, size);
    var xMin, xMax := x as real / size as real, (x + 1) as real / size as real;
    var yMin, yMax := y as real / size as real, (y + 1) as real / size as real;
    Between(xMin, xMax - xMin, rx);
    Between(yMin, yMax - yMin, ry);
  }

  /** Every stratified point lies within its cell [x / size, (x + 1) / size] x [y / size, (y + 1) / size]. */
  lemma PointInCell(size: nat, draws: Draws, i: nat, x: nat, y: nat)
    requires size > 0 && i < NUM_SAMPLING_PATTERNS && x < size && y < size
    requires UnitDraws(draws)
    ensures x * size + y < size * size
    ensures var p := StratifiedPatterns(size, draws)[i][x * size + y];
      x as real / size as real <= p.x <= (x + 1) as real / size as real
      && y as real / size as real <= p.y <= (y + 1) as real / size as real
  {
    ColumnsIndex(size, draws, i, size, x, y);
    var k := DrawIndex(size, i, x, y);
    assert StratifiedPatterns(size, draws)[i][x * size + y] == CellPoint(size, x, y, draws(k), draws(k + 1));
    CellPointInCell(size, x, y, draws(k), draws(k + 1));
  }

  // ---------------------------------------------------------------- pixel colour

  /** The pattern a pixel uses: (j * imageWidth + i) mod the number of patterns. */
  function PatternIndex(i: nat, j: nat, imageWidth: nat, count: nat): (r: nat)
    requires count > 0
    ensures r < count
  {
    (j * imageWidth + i) % count
  }

  /** Sample n of pixel (i, j): the pattern point offset into the pixel, a lens point from two draws, and the traced colour. */
  function SampleColor(w: World, pattern: seq<SamplePoint>, n: nat, i: nat, j: nat, camera: Camera, draws: Draws): Vector3
    requires PositiveIndices(w) && n < |pattern|
  {
    var ray := camera(i as real + pattern[n].x, j as real + pattern[n].y, draws(2 * n), draws(2 * n + 1));
    Trace(w, ray.origin, ray.direction, Zero, 0, [])
  }

  /** The sum of a list of colours, added front to back. */
  function SumColors(cs: seq<Vector3>): Vector3
  {
    if |cs| == 0 then Zero else Add(SumColors(cs[..|cs| - 1]), cs[|cs| - 1])
  }

  /** The box filter: the sum of the samples divided by their number. */
  function BoxFilter(cs: seq<Vector3>): Vector3
    requires |cs| > 0
  {
    DivScalar(SumColors(cs), |cs| as real)
  }

  /** The colour ColorPixel outputs: the box filter over spp samples of the chosen pattern. */
  function PixelColor(w: World, pattern: seq<SamplePoint>, spp: nat, i: nat, j: nat, camera: Camera, draws: Draws): Vector3
    requires PositiveIndices(w) && 0 < spp <= |pattern|
  {
    BoxFilter(seq(spp, n requires 0 <= n < spp => SampleColor(w, pattern, n, i, j, camera, draws)))
  }

  /** Summing k copies of c gives c scaled by k. */
  lemma {:induction false} SumOfConstant(cs: seq<Vector3>, c: Vector3)
    requires forall k :: 0 <= k < |cs| ==> cs[k] == c
    ensures SumColors(cs) == Scale(c, |cs| as real)
  {
    if |cs| > 0 {
      SumOfConstant(cs[..|cs| - 1], c);
      var n := (|cs| - 1) as real;
      assert c.x * n + c.x == c.x * (n + 1.0);
      assert c.y * n + c.y == c.y * (n + 1.0);
      assert c.z * n + c.z == c.z * (n + 1.0);
    }
  }

  /** The box filter of identical samples is that sample. */
  lemma BoxFilterOfConstant(cs: seq<Vector3>, c: Vector3)
    requires |cs| > 0 && forall k :: 0 <= k < |cs| ==> cs[k] == c
    ensures BoxFilter(cs) == c
  {
    SumOfConstant(cs, c);
    var n := |cs| as real;
    assert c.x * n / n == c.x;
    assert c.y * n / n == c.y;
    assert c.z * n / n == c.z;
  }

  /** Each component of the sum of k colours in [0, 1] lies in [0, k]. */
  lemma {:induction false} SumBounds(cs: seq<Vector3>)
    requires forall k :: 0 <= k < |cs| ==> UnitColor(cs[k])
    ensures var s := SumColors(cs); var n := |cs| as real;
      0.0 <= s.x <= n && 0.0 <= s.y <= n && 0.0 <= s.z <= n
  {
    if |cs| > 0 {
      SumBounds(cs[..|cs| - 1]);
    }
  }

  /** A quotient a / n of 0 <= a <= n by a positive n lies in [0, 1]. */
  lemma UnitQuotient(a: real, n: real)
    requires 0.0 < n && 0.0 <= a <= n
    ensures 0.0 <= a / n <= 1.0
  {
    var q := a / n;
    assert q * n == a;
    assert (1.0 - q) * n >= 0.0;
  }

  /** Averaging colours in [0, 1] gives a colour in [0, 1]. */
  lemma BoxFilterBounds(cs: seq<Vector3>)
    requires |cs| > 0 && forall k :: 0 <= k < |cs| ==> UnitColor(cs[k])
    ensures UnitColor(BoxFilter(cs))
  {
    SumBounds(cs);
    var s := SumColors(cs);
    var n := |cs| as real;
    UnitQuotient(s.x, n);
    UnitQuotient(s.y, n);
    UnitQuotient(s.z, n);
  }

  // ---------------------------------------------------------------- light picking

  /** pickLight: light rand % n, with pdf 1 / n. */
  function PickLight(lights: seq<Light>, rand: nat): (r: (nat, real))
    requires |lights| > 0
    ensures r.0 < |lights| && r.1 * |lights| as real == 1.0
  {
    (rand % |lights|, 1.0 / |lights| as real)
  }

  /** The pick is uniform: every light is the one some draw picks, all with the same pdf. */
  lemma PickLightUniform(lights: seq<Light>, k: nat, rand: nat)
    requires k < |lights|
    ensures PickLight(lights, k).0 == k
    ensures PickLight(lights, rand).1 == PickLight(lights, k).1
  {
  }

  // ---------------------------------------------------------------- the renderer

  class Renderer {
    /** The scene, as the world traceRay consults. */
    const world: World
    var samplesPerPixel: nat
    var samplePatterns: seq<seq<SamplePoint>>

    /** The patterns are built and each holds a point for every sample ColorPixel reads. */
    ghost predicate Valid()
      reads this
    {
      samplesPerPixel >= 1 && |samplePatterns| > 0
      && forall k :: 0 <= k < |samplePatterns| ==> |samplePatterns[k]| == samplesPerPixel
    }

    /**
     * Renderer(scene, samplesPerPixel): stores its arguments and builds the
     * sampling patterns; the renderer can colour pixels exactly when the
     * count passes the corrected guard, and then holds the corrected patterns.
     */
    constructor(world: World, samplesPerPixel: nat, draws: Draws)
      ensures this.world == world && this.samplesPerPixel == samplesPerPixel
      ensures samplePatterns == SamplingPatternsAsWritten(samplesPerPixel, draws)
      ensures Valid() <==> SampleCountAccepted(samplesPerPixel)
      ensures Valid() ==> samplePatterns == SamplingPatterns(samplesPerPixel, draws)
    {
      this.world := world;
      this.samplesPerPixel := samplesPerPixel;
      samplePatterns := [];
      new;
      var ok := CreateSamplingPatterns(draws);
      if samplesPerPixel != 1 && GuardAsWritten(samplesPerPixel) {
        PatternsAsWrittenShort(samplesPerPixel, draws);
        assert |samplePatterns[0]| == FloorSqrt(samplesPerPixel) * FloorSqrt(samplesPerPixel);
      }
    }

    /**
     * createSamplingPatterns: the nested loops over patterns, cells and
     * rows. `ok` is false where the program prints its message and exits.
     */
    method CreateSamplingPatterns(draws: Draws) returns (ok: bool)
      requires samplePatterns == []
      modifies this
      ensures samplesPerPixel == old(samplesPerPixel)
      ensures ok <==> samplesPerPixel == 1 || GuardAsWritten(samplesPerPixel)
      ensures samplePatterns == SamplingPatternsAsWritten(samplesPerPixel, draws)
    {
      if samplesPerPixel == 1 {
        samplePatterns := [[SamplePoint(0.5, 0.5)]];
        return true;
      }
      if !GuardAsWritten(samplesPerPixel) {
        return false;
      }
      var size := FloorSqrt(samplesPerPixel);
      var patterns: seq<seq<SamplePoint>> := [];
      var i := 0;
      while i < NUM_SAMPLING_PATTERNS
        invariant 0 <= i <= NUM_SAMPLING_PATTERNS && |patterns| == i
        invariant samplesPerPixel == old(samplesPerPixel)
        invariant forall k :: 0 <= k < i ==> patterns[k] == Columns(size, draws, k, size)
      {
        var pattern := SamplePattern(size, draws, i);
        patterns := patterns + [pattern];
        i := i + 1;
      }
      samplePatterns := patterns;
      ok := true;
    }

    /**
     * samplePixel's colour: trace one ray per sample through the chosen
     * pattern with an empty inside stack, then average the colours.
     */
    method ColorPixel(i: nat, j: nat, imageWidth: nat, camera: Camera, draws: Draws) returns (outputColor: Vector3)
      requires Valid() && PositiveIndices(world)
      ensures outputColor == PixelColor(world, samplePatterns[PatternIndex(i, j, imageWidth, |samplePatterns|)],
                                        samplesPerPixel, i, j, camera, draws)
    {
      var spp := samplesPerPixel;
      var whichSamplePattern := (j * imageWidth + i) % |samplePatterns|;
      var pattern := samplePatterns[whichSamplePattern];
      var sampleColors: seq<Vector3> := [];
      var n := 0;
      while n < samplesPerPixel
        invariant 0 <= n <= samplesPerPixel && |sampleColors| == n
        invariant forall k :: 0 <= k < n ==> sampleColors[k] == SampleColor(world, pattern, k, i, j, camera, draws)
      {
        var x := i as real + pattern[n].x;
        var y := j as real + pattern[n].y;
        var ray := camera(x, y, draws(2 * n), draws(2 * n + 1));
        var c := TraceRay(world, ray.origin, ray.direction, Zero, 0, []);
        sampleColors := sampleColors + [c];
        n := n + 1;
      }
      assert sampleColors == seq(spp, k requires 0 <= k < spp => SampleColor(world, pattern, k, i, j, camera, draws));
      outputColor := SumSamples(sampleColors);
      outputColor := DivScalar(outputColor, samplesPerPixel as real);
    }
  }

  /** The inner two loops of createSamplingPatterns for pattern i: column after column. */
  method SamplePattern(size: nat, draws: Draws, i: nat) returns (pattern: seq<SamplePoint>)
    ensures pattern == Columns(size, draws, i, size)
  {
    pattern := [];
    var x := 0;
    while x < size
      invariant 0 <= x <= size && pattern == Columns(size, draws, i, x)
    {
      var column := SampleColumn(size, draws, i, x);
      pattern := pattern + column;
      x := x + 1;
    }
  }

  /** The innermost loop of createSamplingPatterns: the points of column x, one per cell y. */
  method SampleColumn(size: nat, draws: Draws, i: nat, x: nat) returns (column: seq<SamplePoint>)
    ensures column == Column(size, draws, i, x)
  {
    column := [];
    var y := 0;
    while y < size
      invariant 0 <= y <= size && column == Column(size, draws, i, x)[..y]
    {
      var xMin := x as real / size as real;
      var yMin := y as real / size as real;
      var xMax := (x + 1) as real / size as real;
      var yMax := (y + 1) as real / size as real;
      var k := DrawIndex(size, i, x, y);
      var p := SamplePoint(draws(k) * (xMax - xMin) + xMin, draws(k + 1) * (yMax - yMin) + yMin);
      assert p == Column(size, draws, i, x)[y];
      column := column + [p];
      y := y + 1;
    }
  }

  /** The accumulation loop outputColor += sampleColors[n]. */
  method SumSamples(sampleColors: seq<Vector3>) returns (sum: Vector3)
    ensures sum == SumColors(sampleColors)
  {
    sum := Zero;
    var n := 0;
    while n < |sampleColors|
      invariant 0 <= n <= |sampleColors| && sum == SumColors(sampleColors[..n])
    {
      assert sampleColors[..n + 1][..n] == sampleColors[..n];
      sum := Add(sum, sampleColors[n]);
      n := n + 1;
    }
    assert sampleColors[..n] == sampleColors;
  }
}
