// Colour shaders (which edit the material of a hit) and intersection
// shaders (which accept or reject a hit).
//
// A colour shader's `Shade(hitData, out)` assigns fields of a Material held
// by value in the hit record, so it is modelled as a function from the old
// material to the new one. The procedural noise the shaders sample is not
// part of this model; it travels as a `Noise` value.
module Shaders {
  import opened Floats
  import opened Vectors
  import opened Materials

  /** Noise::noise(x, y, z) and Noise::octaveNoise(x, y, z, octaves, persistence). */
  datatype Noise = Noise(noise: (real, real, real) -> real, octaveNoise: (real, real, real, real, real) -> real)

  datatype ColorShader =
    | CheckerBoardColor(checkSizeU: real, checkSizeV: real)
    | TextureColor(data: seq<Byte>, width: int, height: int)
    | WoodColor
    | FunColor
    | GlassColor
    | RainbowColor

  datatype IntersectionShader =
    | CheckerBoardIntersection(checkSizeU: real, checkSizeV: real)
    | HoleIntersection

  function Grey(c: real): Vector3
  {
    Vector3(c, c, c)
  }

  // ---------------------------------------------------------------- checkerboard

  /** The cell index floor(u * sizeU) + floor(v * sizeV). */
  function Cell(sizeU: real, sizeV: real, u: real, v: real): int
  {
    (u * sizeU).Floor + (v * sizeV).Floor
  }

  /** The checkerboard test `(int)(floor(u*sizeU) + floor(v*sizeV)) % 2 == 0`, with C's remainder. */
  predicate CheckerAccepts(sizeU: real, sizeV: real, u: real, v: real)
  {
    CRem(Cell(sizeU, sizeV, u, v), 2) == 0
  }

  /** A cell is accepted exactly when its index is even, negative indices included. */
  lemma CheckerAcceptsEven(sizeU: real, sizeV: real, u: real, v: real)
    ensures CheckerAccepts(sizeU, sizeV, u, v) <==> Cell(sizeU, sizeV, u, v) % 2 == 0
  {
    CRemTwoZeroIffEven(Cell(sizeU, sizeV, u, v));
  }

  lemma FloorPlusOne(x: real)
    ensures (x + 1.0).Floor == x.Floor + 1
  {
  }

  /** Stepping u by one cell width 1/size adds exactly 1 to u * size. */
  lemma ShiftByCell(u: real, size: real)
    requires size != 0.0
    ensures ((u + 1.0 / size) * size).Floor == (u * size).Floor + 1
  {
    assert (u + 1.0 / size) * size == u * size + (1.0 / size) * size;
    assert (1.0 / size) * size == 1.0;
    FloorPlusOne(u * size);
  }

  /** Moving one cell along u flips the decision (and likewise along v). */
  lemma CheckerFlips(sizeU: real, sizeV: real, u: real, v: real)
    requires sizeU != 0.0 && sizeV != 0.0
    ensures CheckerAccepts(sizeU, sizeV, u + 1.0 / sizeU, v) <==> !CheckerAccepts(sizeU, sizeV, u, v)
    ensures CheckerAccepts(sizeU, sizeV, u, v + 1.0 / sizeV) <==> !CheckerAccepts(sizeU, sizeV, u, v)
  {
    ShiftByCell(u, sizeU);
    ShiftByCell(v, sizeV);
    var c := Cell(sizeU, sizeV, u, v);
    assert Cell(sizeU, sizeV, u + 1.0 / sizeU, v) == c + 1;
    assert Cell(sizeU, sizeV, u, v + 1.0 / sizeV) == c + 1;
    CheckerAcceptsEven(sizeU, sizeV, u, v);
    CheckerAcceptsEven(sizeU, sizeV, u + 1.0 / sizeU, v);
    CheckerAcceptsEven(sizeU, sizeV, u, v + 1.0 / sizeV);
  }

  /** CheckerBoardColorShader: 0.7 grey on the accepted cells, 0.1 grey on the others; only diffColor changes. */
  function CheckerShade(sizeU: real, sizeV: real, h: HitData, out: Material): (r: Material)
    ensures r == out.(diffColor := r.diffColor)
    ensures CheckerAccepts(sizeU, sizeV, h.u, h.v) ==> r.diffColor == Grey(0.7)
    ensures !CheckerAccepts(sizeU, sizeV, h.u, h.v) ==> r.diffColor == Grey(0.1)
  {
    if CheckerAccepts(sizeU, sizeV, h.u, h.v) then out.(diffColor := Grey(0.7))
    else out.(diffColor := Grey(0.1))
  }

  // ---------------------------------------------------------------- texture lookup

  /** std::max(std::min(x, hi), 0). */
  function ClampIndex(x: int, hi: int): (r: int)
    requires 0 <= hi
    ensures 0 <= r <= hi
    ensures 0 <= x <= hi ==> r == x
  {
    var c := if hi < x then hi else x;
    if c < 0 then 0 else c
  }

  /** The texel column and row the hit's (u, v) selects, clamped into the image. */
  function TexelX(h: HitData, width: int): int
    requires 1 <= width
  {
    ClampIndex(TruncateToInt(h.u * (width - 1) as real), width - 1)
  }

  function TexelY(h: HitData, height: int): int
    requires 1 <= height
  {
    ClampIndex(TruncateToInt(h.v * (height - 1) as real), height - 1)
  }

  /** Every pixel of a width-by-height RGB image has its three bytes inside the buffer. */
  lemma TexelIndexInBounds(x: int, y: int, width: int, height: int, c: int)
    requires 0 <= x < width && 0 <= y < height && 0 <= c < 3
    ensures 0 <= (y * width + x) * 3 + c < width * height * 3
  {
    assert y * width + x < (y + 1) * width <= height * width;
  }

  /** TextureColorShader: diffColor becomes the clamped texel, each byte divided by 255. */
  function TextureShade(data: seq<Byte>, width: int, height: int, h: HitData, out: Material): (r: Material)
    requires 1 <= width && 1 <= height && |data| == width * height * 3
    ensures r == out.(diffColor := r.diffColor)
    ensures UnitColor(r.diffColor)
  {
    var x := TexelX(h, width);
    var y := TexelY(h, height);
    TexelIndexInBounds(x, y, width, height, 0);
    TexelIndexInBounds(x, y, width, height, 1);
    TexelIndexInBounds(x, y, width, height, 2);
    var base := (y * width + x) * 3;
    out.(diffColor := Vector3(data[base] as real / 255.0, data[base + 1] as real / 255.0, data[base + 2] as real / 255.0))
  }

  // ---------------------------------------------------------------- smoothstep and holes

  /** 0 below 0, 1 above 1. */
  function Saturate(x: real): (r: real)
  {
    Max(Min(x, 1.0), 0.0)
  }

  /** smoothstep(edge0, edge1, x): x scaled to the edges, saturated, then x*x*(3 - 2*x). */
  function Smoothstep(edge0: real, edge1: real, x: real): real
  {
    var s := Saturate(Divide(x - edge0, edge1 - edge0));
    s * s * (3.0 - 2.0 * s)
  }

  /** The sign of a product from the signs of its factors. */
  lemma ProductSigns(a: real, b: real)
    ensures 0.0 <= a && b <= 0.0 ==> a * b <= 0.0
    ensures 0.0 <= a && 0.0 <= b ==> 0.0 <= a * b
    ensures 0.0 < a && 0.0 < b ==> 0.0 < a * b
  {
  }

  /** 3s^2 - 2s^3 - 1/2 has the sign of s - 1/2 on [0, 1]; it factors as (2s - 1)(1 + 2s - 2s^2) / 2. */
  lemma CubicAboveHalf(s: real)
    requires 0.0 <= s <= 1.0
    ensures s * s * (3.0 - 2.0 * s) > 0.5 <==> s > 0.5
  {
    ProductSigns(s, s - 1.0);
    var g := 1.0 - 2.0 * (s * (s - 1.0));
    assert 0.0 < g;
    assert s * s * (3.0 - 2.0 * s) - 0.5 == (2.0 * s - 1.0) * g / 2.0;
    ProductSigns(2.0 * s - 1.0, g);
    ProductSigns(1.0 - 2.0 * s, g);
    assert (1.0 - 2.0 * s) * g == -((2.0 * s - 1.0) * g);
  }

  lemma CubicInUnitInterval(s: real)
    requires 0.0 <= s <= 1.0
    ensures 0.0 <= s * s * (3.0 - 2.0 * s) <= 1.0
  {
    ProductSigns(s, s);
    ProductSigns(s * s, 3.0 - 2.0 * s);
    ProductSigns(1.0 - s, 1.0 - s);
    ProductSigns((1.0 - s) * (1.0 - s), 1.0 + 2.0 * s);
    assert 1.0 - s * s * (3.0 - 2.0 * s) == (1.0 - s) * (1.0 - s) * (1.0 + 2.0 * s);
  }

  lemma QuotientNotPositive(a: real, d: real)
    requires a <= 0.0 < d
    ensures a / d <= 0.0
  {
  }

  lemma QuotientAtLeastOne(a: real, d: real)
    requires 0.0 < d <= a
    ensures a / d >= 1.0
  {
  }

  /** smoothstep lies in [0, 1]; with edge0 < edge1 it is 0 up to edge0 and 1 from edge1 on. */
  lemma SmoothstepRange(edge0: real, edge1: real, x: real)
    ensures 0.0 <= Smoothstep(edge0, edge1, x) <= 1.0
    ensures edge0 < edge1 && x <= edge0 ==> Smoothstep(edge0, edge1, x) == 0.0
    ensures edge0 < edge1 && edge1 <= x ==> Smoothstep(edge0, edge1, x) == 1.0
  {
    CubicInUnitInterval(Saturate(Divide(x - edge0, edge1 - edge0)));
    if edge0 < edge1 {
      if x <= edge0 {
        QuotientNotPositive(x - edge0, edge1 - edge0);
      }
      if edge1 <= x {
        QuotientAtLeastOne(x - edge0, edge1 - edge0);
      }
    }
  }

  /** HoleIntersectionShader: accept where smoothstep(0, 0.3, noise(20u, 20v, 0)) exceeds 0.5. */
  predicate HoleAccepts(n: Noise, h: HitData)
  {
    1.0 * Smoothstep(0.0, 0.3, n.noise(h.u * 20.0, h.v * 20.0, 0.0)) > 0.5
  }

  /** The hole shader keeps exactly the hits whose noise sample exceeds 0.15, the middle of the ramp. */
  lemma HoleThreshold(n: Noise, h: HitData)
    ensures HoleAccepts(n, h) <==> n.noise(h.u * 20.0, h.v * 20.0, 0.0) > 0.15
  {
    var x := n.noise(h.u * 20.0, h.v * 20.0, 0.0);
    var s := Saturate(Divide(x - 0.0, 0.3 - 0.0));
    CubicAboveHalf(s);
    assert Divide(x - 0.0, 0.3 - 0.0) == x / 0.3;
    assert s > 0.5 <==> x / 0.3 > 0.5;
  }

  // ---------------------------------------------------------------- wood and fun

  const WoodDark := Vector3(0.45, 0.32, 0.22)
  const WoodLight := Vector3(1.0, 0.83, 0.61)

  /** The wood colour for a grain value: the dark ring colour plus the grain times the way to 70% of the light colour. */
  function WoodColor(grain: real): Vector3
  {
    Add(WoodDark, Scale(Sub(Scale(WoodLight, 0.7), WoodDark), grain))
  }

  /**
   * The grain WoodColorShader computes: rings around (0.2, 0.8) in texture
   * space, sqrt(|sin(10 pi dist + turbulence)|), plus half an octave-noise grain.
   */
  function WoodGrain(m: Math, n: Noise, h: HitData): real
  {
    var distx := h.u - 0.2;
    var disty := h.v - 0.8;
    var dist := m.sqrt(distx * distx + disty * disty);
    var turbulence := 6.0 * n.octaveNoise(h.u, h.v, 0.0, 1.0, 3.0);
    var sine := m.sqrt(Abs(m.sin(dist * 10.0 * M_PI + turbulence)));
    sine + 0.5 * n.octaveNoise(h.u, h.v, 5.0, 4.0, 9.0)
  }

  /** WoodColorShader: the diffuse colour follows the grain and the shininess becomes 4; nothing else changes. */
  function WoodShade(m: Math, n: Noise, h: HitData, out: Material): (r: Material)
    ensures r == out.(diffColor := r.diffColor, shininess := 4.0)
    ensures r.diffColor == WoodColor(WoodGrain(m, n, h))
  {
    out.(diffColor := WoodColor(WoodGrain(m, n, h)), shininess := 4.0)
  }

  /**
   * The wood colour runs from the dark colour at grain 0 to 70% of the light
   * colour at grain 1, growing in every channel; a grain in [0, 1] gives a
   * colour between the two, so within the unit cube.
   */
  lemma WoodColorRange(grain: real, grain': real)
    ensures WoodColor(0.0) == WoodDark && WoodColor(1.0) == Scale(WoodLight, 0.7)
    ensures grain <= grain' ==>
      WoodColor(grain).x <= WoodColor(grain').x && WoodColor(grain).y <= WoodColor(grain').y && WoodColor(grain).z <= WoodColor(grain').z
    ensures 0.0 <= grain <= 1.0 ==> UnitColor(WoodColor(grain))
  {
  }

  /**
   * FunColorShader: the transparency is 0.4 |sin(wave + 10 turbulence)| and
   * the shininess and the three specular channels are all 1 - |sin(wave +
   * 40 turbulence)|, for wave = 0.2 u + 0.3 v; nothing else changes.
   */
  function FunShade(m: Math, n: Noise, h: HitData, out: Material): (r: Material)
    ensures r == out.(ktran := r.ktran, specColor := Grey(r.shininess), shininess := r.shininess)
    ensures 0.0 <= r.ktran && r.shininess <= 1.0
  {
    var wave := h.u * 0.2 + h.v * 0.3;
    var transparency := Abs(m.sin(wave + 10.0 * n.octaveNoise(h.u, h.v, 0.0, 2.0, 9.0)));
    var shine := 1.0 - Abs(m.sin(wave + 40.0 * n.octaveNoise(h.u, h.v, 1.0, 2.0, 9.0)));
    out.(ktran := transparency * 0.4, specColor := Vector3(shine, shine, shine), shininess := shine)
  }

  /** With sin in [-1, 1], the fun shader's transparency is at most 0.4 and its shininess at least 0. */
  lemma FunShadeRange(m: Math, n: Noise, h: HitData, out: Material)
    requires SinLaws(m)
    ensures 0.0 <= FunShade(m, n, h, out).ktran <= 0.4
    ensures 0.0 <= FunShade(m, n, h, out).shininess <= 1.0
    ensures UnitColor(FunShade(m, n, h, out).specColor)
  {
  }

  // ---------------------------------------------------------------- constant shaders

  /** GlassColorShader: fixed transparency, shininess, specular and diffuse colours. */
  function GlassShade(out: Material): (r: Material)
    ensures r.ktran == 0.714286 && r.shininess == 0.787037
    ensures r.specColor == Grey(0.357143) && r.diffColor == Vector3(0.194609, 0.192348, 0.204082)
    ensures r.ambColor == out.ambColor && r.emissColor == out.emissColor && r.bssrdf == out.bssrdf
  {
    out.(ktran := 0.714286, shininess := 0.787037, specColor := Vector3(0.357143, 0.357143, 0.357143),
         diffColor := Vector3(0.194609, 0.192348, 0.204082))
  }

  function RainbowChannel(n: Noise, h: HitData, z: real): real
  {
    Abs(n.noise(h.u * 2.0, h.v * 2.0, z)) * 0.8 + 0.2
  }

  /** RainbowColorShader: opaque, fixed shininess and specular colour, diffuse from three noise samples. */
  function RainbowShade(n: Noise, h: HitData, out: Material): (r: Material)
    ensures r.ktran == 0.0 && r.shininess == 0.787037 && r.specColor == Grey(0.5)
    ensures r.ambColor == out.ambColor && r.emissColor == out.emissColor && r.bssrdf == out.bssrdf
    ensures 0.2 <= r.diffColor.x && 0.2 <= r.diffColor.y && 0.2 <= r.diffColor.z
  {
    out.(ktran := 0.0, shininess := 0.787037, specColor := Vector3(0.5, 0.5, 0.5),
         diffColor := Vector3(RainbowChannel(n, h, 0.0), RainbowChannel(n, h, 1.0), RainbowChannel(n, h, 2.0)))
  }

  // ---------------------------------------------------------------- dispatch

  /** A texture shader whose image matches its size. */
  predicate ShaderWellFormed(s: ColorShader)
  {
    s.TextureColor? ==> 1 <= s.width && 1 <= s.height && |s.data| == s.width * s.height * 3
  }

  /** ColorShader::Shade: the material after the shader has edited it; the bssrdf pointer is never touched. */
  function ColorShade(m: Math, n: Noise, s: ColorShader, h: HitData, out: Material): (r: Material)
    requires ShaderWellFormed(s)
    ensures r.bssrdf == out.bssrdf && r.ambColor == out.ambColor && r.emissColor == out.emissColor
  {
    match s
    case CheckerBoardColor(su, sv) => CheckerShade(su, sv, h, out)
    case TextureColor(data, w, ht) => TextureShade(data, w, ht, h, out)
    case WoodColor => WoodShade(m, n, h, out)
    case FunColor => FunShade(m, n, h, out)
    case GlassColor => GlassShade(out)
    case RainbowColor => RainbowShade(n, h, out)
  }

  /** IntersectionShader::Shade. */
  predicate IntersectionShade(n: Noise, s: IntersectionShader, h: HitData)
  {
    match s
    case CheckerBoardIntersection(su, sv) => CheckerAccepts(su, sv, h.u, h.v)
    case HoleIntersection => HoleAccepts(n, h)
  }

  /** Checkerboards of one size agree: the colour shader paints light exactly the cells the intersection shader keeps. */
  lemma CheckerShadersAgree(su: real, sv: real, h: HitData, out: Material)
    ensures CheckerShade(su, sv, h, out).diffColor == Grey(0.7) <==> IntersectionShade(Noise((x, y, z) => 0.0, (x, y, z, o, p) => 0.0), CheckerBoardIntersection(su, sv), h)
  {
  }
}
