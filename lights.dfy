// Light sources: a point light with inverse-quadratic fall-off and a
// directional light at infinity.
module Lights {
  import opened Floats
  import opened Vectors

  datatype Light =
    | PointLight(color: Vector3, position: Vector3)
    | DirectionalLight(color: Vector3, direction: Vector3)

  /** getDirection(position): the unit vector from `p` toward the light. */
  function GetDirection(m: Math, l: Light, p: Vector3): Vector3
  {
    match l
    case PointLight(_, position) => Normalize(m, Sub(position, p))
    case DirectionalLight(_, direction) => Neg(Normalize(m, direction))
  }

  /** getDistance(position): how far the light is from `p`; a directional light is FLT_MAX away. */
  function GetDistance(m: Math, l: Light, p: Vector3): real
  {
    match l
    case PointLight(_, position) => Length(m, Sub(position, p))
    case DirectionalLight(_, _) => FLT_MAX
  }

  function Sq(d: real): real
  {
    d * d
  }

  /** The fall-off polynomial of a point light, 0.25 + 0.1 d + 0.01 d^2. */
  function FallOff(d: real): real
  {
    0.25 + 0.1 * d + 0.01 * Sq(d)
  }

  /**
   * getAttenuation(distance): min(1, 1 / FallOff(d)) for a point light and 1
   * for a directional one. The polynomial is 0.01 (d + 5)^2, which vanishes at
   * d = -5; there the float division gives +infinity and the min gives 1,
   * which is what `InverseOrOne` yields too.
   */
  function GetAttenuation(l: Light, d: real): real
  {
    match l
    case PointLight(_, _) => Min(1.0, InverseOrOne(FallOff(d)))
    case DirectionalLight(_, _) => 1.0
  }

  // ---------------------------------------------------------------- lemmas

  lemma SqMonotone(a: real, b: real)
    requires 0.0 <= a <= b
    ensures 0.0 <= Sq(a) <= Sq(b)
    ensures a < b ==> Sq(a) < Sq(b)
  {
    assert Sq(b) - Sq(a) == (b - a) * (b + a);
    assert 0.0 <= a * a;
    if a < b {
      PositiveProduct(b - a, b + a);
    } else {
      assert 0.0 <= (b - a) * (b + a);
    }
  }

  lemma FallOffAtFive()
    ensures FallOff(5.0) == 1.0
  {
    assert Sq(5.0) == 25.0;
  }

  /** For non-negative distances the fall-off is at least 0.25 and non-decreasing, strictly so for a strict increase. */
  lemma FallOffMonotone(d1: real, d2: real)
    requires 0.0 <= d1 <= d2
    ensures 0.25 <= FallOff(d1) <= FallOff(d2)
    ensures d1 < d2 ==> FallOff(d1) < FallOff(d2)
  {
    SqMonotone(0.0, d1);
    SqMonotone(d1, d2);
  }

  lemma InverseAntitone(p: real, q: real)
    requires 0.0 < p <= q
    ensures 0.0 < 1.0 / q <= 1.0 / p
    ensures p < q ==> 1.0 / q < 1.0 / p
  {
    var a := 1.0 / p;
    var b := 1.0 / q;
    assert a * p == 1.0;
    assert b * q == 1.0;
    assert 0.0 < b;
    assert a - b == (q - p) * a * b;
    if p < q {
      assert 0.0 < (q - p) * a * b;
    } else {
      assert 0.0 <= (q - p) * a * b;
    }
  }

  /** At d >= 0 a point light's attenuation is in (0, 1], and exactly 1 up to distance 5 (FallOff(5) = 1). */
  lemma PointAttenuationRange(color: Vector3, position: Vector3, d: real)
    requires 0.0 <= d
    ensures 0.0 < GetAttenuation(PointLight(color, position), d) <= 1.0
    ensures GetAttenuation(PointLight(color, position), d) == 1.0 <==> d <= 5.0
  {
    FallOffAtFive();
    if d <= 5.0 {
      FallOffMonotone(d, 5.0);
      InverseAntitone(FallOff(d), 1.0);
    } else {
      FallOffMonotone(5.0, d);
      InverseAntitone(1.0, FallOff(d));
    }
    FallOffMonotone(0.0, d);
  }

  /** A point light's attenuation never increases with distance. */
  lemma PointAttenuationNonIncreasing(color: Vector3, position: Vector3, d1: real, d2: real)
    requires 0.0 <= d1 <= d2
    ensures GetAttenuation(PointLight(color, position), d2) <= GetAttenuation(PointLight(color, position), d1)
  {
    FallOffMonotone(0.0, d1);
    FallOffMonotone(d1, d2);
    InverseAntitone(FallOff(d1), FallOff(d2));
  }

  /** A directional light is FLT_MAX away, unattenuated, and points the same way from everywhere. */
  lemma DirectionalLightConstant(m: Math, color: Vector3, direction: Vector3, p: Vector3, q: Vector3, d: real)
    ensures GetAttenuation(DirectionalLight(color, direction), d) == 1.0
    ensures GetDistance(m, DirectionalLight(color, direction), p) == FLT_MAX
    ensures GetDirection(m, DirectionalLight(color, direction), p) == GetDirection(m, DirectionalLight(color, direction), q)
    ensures GetDirection(m, DirectionalLight(color, direction), p) == Neg(Normalize(m, direction))
  {
  }

  /** With the real square root, a point light's distance is non-negative and squares to |position - p|^2. */
  lemma PointDistanceSquared(m: Math, color: Vector3, position: Vector3, p: Vector3)
    requires SqrtLaws(m)
    ensures 0.0 <= GetDistance(m, PointLight(color, position), p)
    ensures GetDistance(m, PointLight(color, position), p) * GetDistance(m, PointLight(color, position), p)
            == Dot(Sub(position, p), Sub(position, p))
  {
    LengthSquared(m, Sub(position, p));
  }
}
