// Vector3: the 3-component value type used for points, directions, normals
// and RGB colours. Vector3 has value semantics, so the members that update a
// vector in place (`Set`, `+=`) are modelled as functions returning the
// updated value.
module Vectors {
  import opened Floats

  datatype Vector3 = Vector3(x: real, y: real, z: real)

  /** Vector3(): (0, 0, 0). */
  const Zero := Vector3(0.0, 0.0, 0.0)
  const One := Vector3(1.0, 1.0, 1.0)

  /** Vector3(x, y): z is set to 0. */
  function FromXY(x: real, y: real): (r: Vector3)
    ensures r.x == x && r.y == y && r.z == 0.0
  {
    Vector3(x, y, 0.0)
  }

  /** Vector3(const float v[3]). */
  function FromArray(a: seq<real>): (r: Vector3)
    requires |a| >= 3
    ensures r.x == a[0] && r.y == a[1] && r.z == a[2]
  {
    Vector3(a[0], a[1], a[2])
  }

  function Add(a: Vector3, b: Vector3): Vector3 { Vector3(a.x + b.x, a.y + b.y, a.z + b.z) }
  function AddScalar(a: Vector3, s: real): Vector3 { Vector3(a.x + s, a.y + s, a.z + s) }
  function Sub(a: Vector3, b: Vector3): Vector3 { Vector3(a.x - b.x, a.y - b.y, a.z - b.z) }
  function SubScalar(a: Vector3, s: real): Vector3 { Vector3(a.x - s, a.y - s, a.z - s) }
  /** Component-wise product (used for colour modulation). */
  function Mul(a: Vector3, b: Vector3): Vector3 { Vector3(a.x * b.x, a.y * b.y, a.z * b.z) }
  function Scale(a: Vector3, s: real): Vector3 { Vector3(a.x * s, a.y * s, a.z * s) }
  function DivScalar(a: Vector3, s: real): Vector3
    requires s != 0.0
  {
    Vector3(a.x / s, a.y / s, a.z / s)
  }
  function Neg(a: Vector3): Vector3 { Vector3(-a.x, -a.y, -a.z) }

  /** operator+=: the receiver becomes the sum. */
  function PlusAssign(self: Vector3, other: Vector3): (r: Vector3)
    ensures Sub(r, other) == self
  {
    Add(self, other)
  }

  function Dot(a: Vector3, b: Vector3): real
  {
    a.x * b.x + a.y * b.y + a.z * b.z
  }

  function Cross(a: Vector3, b: Vector3): (r: Vector3)
    ensures Dot(r, a) == 0.0 && Dot(r, b) == 0.0
  {
    Vector3(a.y * b.z - a.z * b.y, -a.x * b.z + a.z * b.x, a.x * b.y - a.y * b.x)
  }

  /** Reflection of `v` across `normal`: normal * (normal . v) * 2 - v. */
  function Reflect(v: Vector3, normal: Vector3): Vector3
  {
    Sub(Scale(Scale(normal, Dot(normal, v)), 2.0), v)
  }

  function Luminance(c: Vector3): real
  {
    0.2126 * c.x + 0.7152 * c.y + 0.0722 * c.z
  }

  function MaxComponent(v: Vector3): (r: real)
    ensures v.x <= r && v.y <= r && v.z <= r
    ensures r == v.x || r == v.y || r == v.z
  {
    Max(v.x, Max(v.y, v.z))
  }

  /** Get(axis): 0 gives x, 1 gives y, any other axis gives z. */
  function Get(v: Vector3, axis: int): real
  {
    if axis == 0 then v.x else if axis == 1 then v.y else v.z
  }

  /** Set(axis, value): only axes 0, 1 and 2 are written; any other axis leaves the vector as it was. */
  function Set(v: Vector3, axis: int, value: real): Vector3
  {
    if axis == 0 then v.(x := value)
    else if axis == 1 then v.(y := value)
    else if axis == 2 then v.(z := value)
    else v
  }

  function Length(m: Math, v: Vector3): real
  {
    m.sqrt(v.x * v.x + v.y * v.y + v.z * v.z)
  }

  /** v / length(v); a zero-length vector, which the source turns into NaNs, is returned unchanged. */
  function Normalize(m: Math, v: Vector3): Vector3
  {
    var len := Length(m, v);
    if len == 0.0 then v else DivScalar(v, len)
  }

  /** A refraction outcome: `tir` reports total internal reflection; `dir` is the out-parameter's new value. */
  datatype Refraction = Refraction(tir: bool, dir: Vector3)

  /** The ratio n_i / n_t that `refract` uses: 1/n when v faces against the normal, n otherwise. */
  function RefractEta(v: Vector3, normal: Vector3, n: real): real
    requires n != 0.0
  {
    if Dot(v, normal) < 0.0 then 1.0 / n else n / 1.0
  }

  /** The cosine `refract` uses, made non-negative. */
  function RefractCos(v: Vector3, normal: Vector3): (c: real)
    ensures 0.0 <= c
    ensures c * c == Dot(v, normal) * Dot(v, normal)
  {
    if Dot(v, normal) < 0.0 then -Dot(v, normal) else Dot(v, normal)
  }

  /** The normal `refract` uses, flipped to face against v. */
  function RefractNormal(v: Vector3, normal: Vector3): (r: Vector3)
    ensures Dot(v, r) == -RefractCos(v, normal)
  {
    if Dot(v, normal) < 0.0 then normal else Neg(normal)
  }

  /** The discriminant k = 1 - eta^2 (1 - cos^2); refraction is impossible when it is negative. */
  function RefractK(v: Vector3, normal: Vector3, n: real): real
    requires n != 0.0
  {
    var eta := RefractEta(v, normal, n);
    var cosi := RefractCos(v, normal);
    1.0 - eta * eta * (1.0 - cosi * cosi)
  }

  /**
   * Vector3::refract(normal, n, refractDir): reports total internal reflection,
   * leaving refractDir untouched, or writes the refracted direction.
   */
  function Refract(m: Math, v: Vector3, normal: Vector3, n: real, refractDir: Vector3): (r: Refraction)
    requires n != 0.0
    ensures r.tir <==> RefractK(v, normal, n) < 0.0
    ensures r.tir ==> r.dir == refractDir
  {
    var eta := RefractEta(v, normal, n);
    var cosi := RefractCos(v, normal);
    var norm := RefractNormal(v, normal);
    var k := RefractK(v, normal, n);
    if k < 0.0 then Refraction(true, refractDir)
    else Refraction(false, Add(Scale(v, eta), Scale(norm, eta * cosi - m.sqrt(k))))
  }

  /** The factor `1 / s` by which dividing by `s` scales; a zero `s`, which the source turns into infinities/NaNs, gives 1. */
  function InverseOrOne(s: real): (k: real)
    ensures s != 0.0 ==> k * s == 1.0
    ensures s == 0.0 ==> k == 1.0
  {
    if s == 0.0 then 1.0 else 1.0 / s
  }

  /**
   * CreateNormalSpace: a tangent built from the two components other than the
   * smaller of |x| and |y|, normalised, and bitangent = this x tangent. The three
   * vectors are pairwise orthogonal.
   */
  function CreateNormalSpace(m: Math, v: Vector3): (r: (Vector3, Vector3))
    ensures Dot(r.0, v) == 0.0 && Dot(r.1, v) == 0.0 && Dot(r.1, r.0) == 0.0
  {
    var w := if Abs(v.x) > Abs(v.y) then Vector3(v.z, 0.0, -v.x) else Vector3(0.0, -v.z, v.y);
    var len := if Abs(v.x) > Abs(v.y) then m.sqrt(v.x * v.x + v.z * v.z) else m.sqrt(v.y * v.y + v.z * v.z);
    var k := InverseOrOne(len);
    OrthogonalScaled(w, v, k);
    var t := Scale(w, k);
    (t, Cross(v, t))
  }

  // ---------------------------------------------------------------- lemmas

  lemma PositiveProduct(a: real, b: real)
    requires 0.0 < a && 0.0 < b
    ensures 0.0 < a * b
  {
  }

  lemma SquareNotNegative(a: real)
    ensures !(a * a < 0.0)
  {
    if a > 0.0 {
      PositiveProduct(a, a);
    } else if a < 0.0 {
      PositiveProduct(-a, -a);
      assert (-a) * (-a) == a * a;
    }
  }

  /** The squared length `v . v` is never negative. */
  lemma DotSelfNotNegative(v: Vector3)
    ensures 0.0 <= Dot(v, v)
  {
    SquareNotNegative(v.x);
    SquareNotNegative(v.y);
    SquareNotNegative(v.z);
  }

  lemma OrthogonalScaled(w: Vector3, v: Vector3, k: real)
    requires Dot(w, v) == 0.0
    ensures Dot(Scale(w, k), v) == 0.0
  {
    assert Dot(Scale(w, k), v) == k * Dot(w, v);
  }

  lemma DotScaleRight(a: Vector3, b: Vector3, s: real)
    ensures Dot(a, Scale(b, s)) == s * Dot(a, b)
  {
  }

  /** Reflection keeps the component along a unit normal. */
  lemma ReflectKeepsNormalComponent(v: Vector3, normal: Vector3)
    requires Dot(normal, normal) == 1.0
    ensures Dot(normal, Reflect(v, normal)) == Dot(normal, v)
  {
    var d := Dot(normal, v);
    calc {
      Dot(normal, Reflect(v, normal));
      Dot(normal, Scale(Scale(normal, d), 2.0)) - d;
      { DotScaleRight(normal, Scale(normal, d), 2.0); DotScaleRight(normal, normal, d); }
      2.0 * (d * Dot(normal, normal)) - d;
    }
  }

  /** Reflecting twice across the same unit normal gives the original vector back. */
  lemma ReflectInvolution(v: Vector3, normal: Vector3)
    requires Dot(normal, normal) == 1.0
    ensures Reflect(Reflect(v, normal), normal) == v
  {
    ReflectKeepsNormalComponent(v, normal);
    var d := Dot(normal, v);
    assert Dot(normal, Reflect(v, normal)) == d;
    var r := Reflect(v, normal);
    assert r == Sub(Scale(normal, 2.0 * d), v);
  }

  /** Reflection across a unit normal preserves length. */
  lemma ReflectPreservesLength(v: Vector3, normal: Vector3)
    requires Dot(normal, normal) == 1.0
    ensures Dot(Reflect(v, normal), Reflect(v, normal)) == Dot(v, v)
  {
    var d := Dot(normal, v);
    var r := Reflect(v, normal);
    assert r == Sub(Scale(normal, 2.0 * d), v);
    calc {
      Dot(r, r);
      4.0 * d * d * Dot(normal, normal) - 4.0 * d * Dot(normal, v) + Dot(v, v);
      Dot(v, v);
    }
  }

  /** When the transmitted medium is not optically thinner (eta^2 <= 1), refraction never reports total internal reflection. */
  lemma RefractNoTotalReflection(m: Math, v: Vector3, normal: Vector3, n: real, refractDir: Vector3)
    requires n != 0.0
    requires RefractEta(v, normal, n) * RefractEta(v, normal, n) <= 1.0
    requires RefractCos(v, normal) <= 1.0
    ensures !Refract(m, v, normal, n, refractDir).tir
  {
    var eta := RefractEta(v, normal, n);
    var c := RefractCos(v, normal);
    assert 0.0 <= 1.0 - c * c by {
      assert c * c <= c;
    }
    assert eta * eta * (1.0 - c * c) <= 1.0 - c * c by {
      assert 0.0 <= eta * eta;
      MulMonotone(eta * eta, 1.0, 1.0 - c * c);
    }
  }

  lemma MulMonotone(a: real, b: real, s: real)
    requires a <= b && 0.0 <= s
    ensures a * s <= b * s
  {
    assert (b - a) * s >= 0.0;
  }

  /** Normalize and scaling by the length are inverse: scaling the normalised vector back by the length gives the vector. */
  lemma NormalizeScalesBack(m: Math, v: Vector3)
    ensures Length(m, v) != 0.0 ==> Scale(Normalize(m, v), Length(m, v)) == v
    ensures Length(m, v) == 0.0 ==> Normalize(m, v) == v
  {
  }

  /** With the real square root, Length is the square root of `v . v`: its square is `v . v`. */
  lemma LengthSquared(m: Math, v: Vector3)
    requires SqrtLaws(m)
    ensures 0.0 <= Length(m, v)
    ensures Length(m, v) * Length(m, v) == Dot(v, v)
  {
    DotSelfNotNegative(v);
    SqrtAt(m, Dot(v, v));
  }

  /** Set writes exactly the chosen axis, as read back by Get; any other axis reads what it did before. */
  lemma GetAfterSet(v: Vector3, axis: int, value: real, other: int)
    requires 0 <= axis <= 2 && 0 <= other <= 2
    ensures Get(Set(v, axis, value), axis) == value
    ensures other != axis ==> Get(Set(v, axis, value), other) == Get(v, other)
  {
  }

  /** Set with an axis outside 0..2 is a no-op. */
  lemma SetOutOfRange(v: Vector3, axis: int, value: real)
    requires axis < 0 || 2 < axis
    ensures Set(v, axis, value) == v
  {
  }

  /** Luminance weights sum to one, so a grey colour has luminance equal to its level, and it is monotone in each channel. */
  lemma LuminanceOfGrey(c: real)
    ensures Luminance(Vector3(c, c, c)) == c
  {
  }

  lemma LuminanceBounds(c: Vector3)
    requires 0.0 <= c.x <= 1.0 && 0.0 <= c.y <= 1.0 && 0.0 <= c.z <= 1.0
    ensures 0.0 <= Luminance(c) <= 1.0
  {
  }

  /** Negation is an involution and flips the sign of every dot product. */
  lemma NegProperties(a: Vector3, b: Vector3)
    ensures Neg(Neg(a)) == a
    ensures Dot(Neg(a), b) == -Dot(a, b) && Dot(b, Neg(a)) == -Dot(b, a)
    ensures Add(a, Neg(a)) == Zero
  {
  }

  /** The dot product is symmetric and linear in each argument. */
  lemma DotBilinear(a: Vector3, b: Vector3, c: Vector3, s: real)
    ensures Dot(a, b) == Dot(b, a)
    ensures Dot(Add(a, b), c) == Dot(a, c) + Dot(b, c)
    ensures Dot(Scale(a, s), b) == s * Dot(a, b)
  {
  }

  /** The cross product is anti-commutative and vanishes on parallel arguments. */
  lemma CrossAntiCommutative(a: Vector3, b: Vector3, s: real)
    ensures Cross(a, b) == Neg(Cross(b, a))
    ensures Cross(a, Scale(a, s)) == Zero
  {
  }
}
