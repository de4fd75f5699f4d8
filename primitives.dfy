// Spheres and triangles: intersection with a ray, bounding boxes, midpoints.
//
// A primitive refers to its parent object and to its materials by id (index
// into the scene's object and material lists). The parent's intersection
// shader travels as `accept`: None when the parent has none, otherwise the
// shader's yes/no answer on the hit record.
module Primitives {
  import opened Floats
  import opened Vectors
  import opened Bounds
  import opened Optional
  import opened Materials

  /** M_PI. */
  const PI: real := 3.14159265358979323846

  /** The three per-vertex slots of a triangle. */
  datatype Triple<T> = Triple(first: T, second: T, third: T)

  function At<T>(t: Triple<T>, k: int): T
  {
    if k == 0 then t.first else if k == 1 then t.second else t.third
  }

  datatype Primitive =
    | Sphere(parent: nat, material: nat, center: Vector3, radius: real)
    | Triangle(parent: nat, v: Triple<Vector3>, n: Triple<Vector3>, m: Triple<nat>, tex: Triple<Vector3>)

  /**
   * Sphere(center, radius). The parent and material pointers are left for
   * the scene loader to set; they start as id 0 here.
   */
  function NewSphere(center: Vector3, radius: real): (s: Primitive)
    ensures s.Sphere? && s.center == center && s.radius == radius
    ensures s.parent == 0 && s.material == 0
  {
    Sphere(0, 0, center, radius)
  }

  /**
   * Triangle(v0, v1, v2, n0, n1, n2): positions and normals in slot order;
   * texture coordinates start as the zero vector, and the parent and
   * material slots are left for the loader (id 0 here).
   */
  function NewTriangle(v0: Vector3, v1: Vector3, v2: Vector3, n0: Vector3, n1: Vector3, n2: Vector3): (tri: Primitive)
    ensures tri.Triangle?
    ensures At(tri.v, 0) == v0 && At(tri.v, 1) == v1 && At(tri.v, 2) == v2
    ensures At(tri.n, 0) == n0 && At(tri.n, 1) == n1 && At(tri.n, 2) == n2
    ensures forall k :: 0 <= k < 3 ==> At(tri.tex, k) == Zero && At(tri.m, k) == 0
    ensures tri.parent == 0
  {
    Triangle(0, Triple(v0, v1, v2), Triple(n0, n1, n2), Triple(0, 0, 0), Triple(Zero, Zero, Zero))
  }

  /** The primitive's materials are all in the material list. */
  predicate MaterialsIn(p: Primitive, count: nat)
  {
    match p
    case Sphere(_, material, _, _) => material < count
    case Triangle(_, _, _, m, _) => m.first < count && m.second < count && m.third < count
  }

  /** The parent's intersection shader accepts the hit (or the parent has none). */
  predicate Accepts(accept: Option<HitData -> bool>, h: HitData)
  {
    accept.None? || accept.value(h)
  }

  // ---------------------------------------------------------------- sphere

  function QuadA(direction: Vector3): real
  {
    Dot(direction, direction)
  }

  function QuadB(direction: Vector3, offset: Vector3): real
  {
    Dot(direction, offset) * 2.0
  }

  function QuadC(offset: Vector3, radius: real): real
  {
    Dot(offset, offset) - radius * radius
  }

  /** The determinant b*b - 4*a*c of the ray-sphere quadratic. */
  function Discriminant(a: real, b: real, c: real): real
  {
    b * b - 4.0 * a * c
  }

  /** The roots (-b + sqrt(det)) / 2a and (-b - sqrt(det)) / 2a. */
  function FarRoot(m: Math, a: real, b: real, det: real): real
  {
    Divide(-b + m.sqrt(det), 2.0 * a)
  }

  function NearRoot(m: Math, a: real, b: real, det: real): real
  {
    Divide(-b - m.sqrt(det), 2.0 * a)
  }

  /** The choice among two roots: the smaller when both are at least 0, t1 when only t1 is, else t2. */
  function ChooseRoot(t1: real, t2: real): (t: real)
    ensures t == t1 || t == t2
    ensures 0.0 <= t1 && 0.0 <= t2 ==> t == Min(t1, t2)
    ensures 0.0 <= t1 && t2 < 0.0 ==> t == t1
    ensures t1 < 0.0 ==> t == t2
  {
    if t1 >= 0.0 then (if t2 >= 0.0 then Min(t1, t2) else t1) else t2
  }

  /** u = 0.5 + atan2(n.z, n.x) / 2pi, v = 0.5 - asin(n.y) / pi. */
  function SphereU(m: Math, normal: Vector3): real
  {
    0.5 + m.atan2(normal.z, normal.x) / (2.0 * PI)
  }

  function SphereV(m: Math, normal: Vector3): real
  {
    0.5 - m.asin(normal.y) / PI
  }

  /** The hit record at parameter t on sphere `s`; `mirrored` selects u = 1 - (...), used on the two-root branch. */
  function SphereHit(m: Math, s: Primitive, mats: seq<Material>, origin: Vector3, direction: Vector3, t: real, mirrored: bool): (h: HitData)
    requires s.Sphere? && s.material < |mats|
    ensures h.t == t && PositionOnRay(h, origin, direction) && h.material == mats[s.material]
  {
    var position := Add(origin, Scale(direction, t));
    var normal := Normalize(m, Sub(position, s.center));
    var u := SphereU(m, normal);
    HitData(t, position, normal, mats[s.material], if mirrored then 1.0 - u else u, SphereV(m, normal))
  }

  /**
   * Sphere::intersects. With |det| < FLT_EPSILON the ray is tangent and
   * t = -b/2a; with det > FLT_EPSILON the nearer acceptable root is chosen
   * and, if the shader rejects it, the farther root is tried once; any
   * other determinant (including exactly FLT_EPSILON) misses. A chosen
   * t <= 0 misses.
   */
  function IntersectSphere(m: Math, s: Primitive, mats: seq<Material>, accept: Option<HitData -> bool>, origin: Vector3, direction: Vector3): (r: Option<HitData>)
    requires s.Sphere? && s.material < |mats|
    ensures r.Some? ==> 0.0 < r.value.t && PositionOnRay(r.value, origin, direction) && r.value.material == mats[s.material]
    ensures r.Some? ==> Accepts(accept, r.value)
    ensures var offset := Sub(origin, s.center);
      var a, b := QuadA(direction), QuadB(direction, offset);
      var det := Discriminant(a, b, QuadC(offset, s.radius));
      (det <= -FLT_EPSILON || det == FLT_EPSILON ==> r.None?)
      && (-FLT_EPSILON < det < FLT_EPSILON ==>
            (r.Some? <==> 0.0 < Divide(-b, 2.0 * a) && Accepts(accept, SphereHit(m, s, mats, origin, direction, Divide(-b, 2.0 * a), false)))
            && (r.Some? ==> r.value == SphereHit(m, s, mats, origin, direction, Divide(-b, 2.0 * a), false)))
      && (FLT_EPSILON < det ==>
            var t1, t2 := FarRoot(m, a, b, det), NearRoot(m, a, b, det);
            var t := ChooseRoot(t1, t2);
            (r.Some? <==> 0.0 < t && (Accepts(accept, SphereHit(m, s, mats, origin, direction, t, true))
                                      || Accepts(accept, SphereHit(m, s, mats, origin, direction, Max(t1, t2), true))))
            && (r.Some? ==> r.value.t == t || r.value.t == Max(t1, t2)))
  {
    var offset := Sub(origin, s.center);
    var a := QuadA(direction);
    var b := QuadB(direction, offset);
    var c := QuadC(offset, s.radius);
    var det := Discriminant(a, b, c);
    if det < FLT_EPSILON && det > -FLT_EPSILON then
      var t := Divide(-b, 2.0 * a);
      if t <= 0.0 then None
      else
        var h := SphereHit(m, s, mats, origin, direction, t, false);
        if !Accepts(accept, h) then None else Some(h)
    else if det > FLT_EPSILON then
      var t1 := FarRoot(m, a, b, det);
      var t2 := NearRoot(m, a, b, det);
      var further := Max(t1, t2);
      var t := ChooseRoot(t1, t2);
      if t <= 0.0 then None
      else
        var h := SphereHit(m, s, mats, origin, direction, t, true);
        if !Accepts(accept, h) then
          // the ray goes through this closer hit: try the farther one
          var h' := SphereHit(m, s, mats, origin, direction, further, true);
          if !Accepts(accept, h') then None else Some(h')
        else Some(h)
    else None
  }

  lemma DivideMonotone(x: real, y: real, d: real)
    requires 0.0 < d && x <= y
    ensures Divide(x, d) <= Divide(y, d)
  {
    assert x / d <= y / d;
  }

  /** For a non-degenerate ray (a > 0) and the true square root, t2 <= t1. */
  lemma RootsOrdered(m: Math, a: real, b: real, det: real)
    requires SqrtLaws(m) && 0.0 < a && 0.0 <= det
    ensures NearRoot(m, a, b, det) <= FarRoot(m, a, b, det)
  {
    SqrtAt(m, det);
    DivideMonotone(-b - m.sqrt(det), -b + m.sqrt(det), 2.0 * a);
  }

  /**
   * With t2 <= t1, the chosen root is positive exactly when t1 is positive
   * and t2 is not 0: a nearer root of exactly 0 (the origin on the surface)
   * gives t = 0, and the hit is rejected without trying t1.
   */
  lemma ChosenRootPositive(t1: real, t2: real)
    requires t2 <= t1
    ensures 0.0 < ChooseRoot(t1, t2) <==> 0.0 < t1 && t2 != 0.0
    ensures 0.0 < t2 ==> ChooseRoot(t1, t2) == t2
    ensures t2 < 0.0 < t1 ==> ChooseRoot(t1, t2) == t1
  {
  }

  /** The "further" root is never nearer than the chosen one. */
  lemma FurtherNotNearer(t1: real, t2: real)
    ensures ChooseRoot(t1, t2) <= Max(t1, t2)
  {
  }

  // ---------------------------------------------------------------- triangle

  function Edge1(tri: Primitive): Vector3
    requires tri.Triangle?
  {
    Sub(tri.v.second, tri.v.first)
  }

  function Edge2(tri: Primitive): Vector3
    requires tri.Triangle?
  {
    Sub(tri.v.third, tri.v.first)
  }

  /** det = edge1 . (direction x edge2). */
  function TriDet(tri: Primitive, direction: Vector3): real
    requires tri.Triangle?
  {
    Dot(Edge1(tri), Cross(direction, Edge2(tri)))
  }

  /** u = (origin - v0) . P / det. */
  function TriU(tri: Primitive, origin: Vector3, direction: Vector3): real
    requires tri.Triangle?
  {
    Dot(Sub(origin, tri.v.first), Cross(direction, Edge2(tri))) * InverseOrOne(TriDet(tri, direction))
  }

  /** v = direction . Q / det, with Q = (origin - v0) x edge1. */
  function TriV(tri: Primitive, origin: Vector3, direction: Vector3): real
    requires tri.Triangle?
  {
    Dot(direction, Cross(Sub(origin, tri.v.first), Edge1(tri))) * InverseOrOne(TriDet(tri, direction))
  }

  /** t = edge2 . Q / det. */
  function TriT(tri: Primitive, origin: Vector3, direction: Vector3): real
    requires tri.Triangle?
  {
    Dot(Edge2(tri), Cross(Sub(origin, tri.v.first), Edge1(tri))) * InverseOrOne(TriDet(tri, direction))
  }

  /** The interpolation of three per-vertex values with weights (1 - (u + v), u, v). */
  function Blend(a: real, b: real, c: real, u: real, v: real): real
  {
    a * (1.0 - (u + v)) + b * u + c * v
  }

  function BlendVectors(t: Triple<Vector3>, u: real, v: real): Vector3
  {
    Add(Add(Scale(t.first, 1.0 - (u + v)), Scale(t.second, u)), Scale(t.third, v))
  }

  /** The hit record at barycentric (u, v) and parameter t: normals, materials and texture coordinates interpolated. */
  function TriangleHit(m: Math, tri: Primitive, mats: seq<Material>, origin: Vector3, direction: Vector3, u: real, v: real, t: real): (h: HitData)
    requires tri.Triangle? && MaterialsIn(tri, |mats|)
    ensures h.t == t && PositionOnRay(h, origin, direction)
    ensures h.material == Interpolate(mats[tri.m.first], mats[tri.m.second], mats[tri.m.third], 1.0 - (u + v), u, v)
    ensures h.material.bssrdf == mats[tri.m.first].bssrdf
    ensures h.u == Blend(tri.tex.first.x, tri.tex.second.x, tri.tex.third.x, u, v)
    ensures h.v == Blend(tri.tex.first.y, tri.tex.second.y, tri.tex.third.y, u, v)
  {
    HitData(t, Add(origin, Scale(direction, t)), Normalize(m, BlendVectors(tri.n, u, v)),
            Interpolate(mats[tri.m.first], mats[tri.m.second], mats[tri.m.third], 1.0 - (u + v), u, v),
            Blend(tri.tex.first.x, tri.tex.second.x, tri.tex.third.x, u, v),
            Blend(tri.tex.first.y, tri.tex.second.y, tri.tex.third.y, u, v))
  }

  /**
   * Triangle::intersects (Moller-Trumbore): a hit exactly when |det| is at
   * least FLT_EPSILON, 0 <= u <= 1, v >= 0, u + v <= 1, t > FLT_EPSILON, and
   * the shader accepts it.
   */
  function IntersectTriangle(m: Math, tri: Primitive, mats: seq<Material>, accept: Option<HitData -> bool>, origin: Vector3, direction: Vector3): (r: Option<HitData>)
    requires tri.Triangle? && MaterialsIn(tri, |mats|)
    ensures var det, u, v, t := TriDet(tri, direction), TriU(tri, origin, direction), TriV(tri, origin, direction), TriT(tri, origin, direction);
      (r.Some? <==> !(-FLT_EPSILON < det < FLT_EPSILON) && 0.0 <= u <= 1.0 && 0.0 <= v && u + v <= 1.0 && FLT_EPSILON < t
                    && Accepts(accept, TriangleHit(m, tri, mats, origin, direction, u, v, t)))
      && (r.Some? ==> r.value == TriangleHit(m, tri, mats, origin, direction, u, v, t) && Barycentric(1.0 - (u + v), u, v))
  {
    var det := TriDet(tri, direction);
    if det > -FLT_EPSILON && det < FLT_EPSILON then None
    else
      var u := TriU(tri, origin, direction);
      if u < 0.0 || u > 1.0 then None
      else
        var v := TriV(tri, origin, direction);
        if v < 0.0 || u + v > 1.0 then None
        else
          var t := TriT(tri, origin, direction);
          if t > FLT_EPSILON then
            var h := TriangleHit(m, tri, mats, origin, direction, u, v, t);
            if !Accepts(accept, h) then None else Some(h)
          else None
  }

  /** The weights of an accepted hit are barycentric, each at most 1. */
  lemma WeightsInUnitInterval(u: real, v: real)
    requires 0.0 <= u <= 1.0 && 0.0 <= v && u + v <= 1.0
    ensures Barycentric(1.0 - (u + v), u, v)
    ensures UnitInterval(1.0 - (u + v)) && UnitInterval(u) && UnitInterval(v)
  {
  }

  lemma SumLessEq(x1: real, y1: real, x2: real, y2: real, x3: real, y3: real)
    requires x1 <= y1 && x2 <= y2 && x3 <= y3
    ensures x1 + x2 + x3 <= y1 + y2 + y3
  {
  }

  /** A constant weighted by barycentric weights is itself. */
  lemma WeightedConstant(k: real, w: real, u: real, v: real)
    requires w + u + v == 1.0
    ensures k * w + k * u + k * v == k
  {
    assert k * w + k * u + k * v == k * (w + u + v);
  }

  lemma WeightedAbove(a: real, b: real, c: real, w: real, u: real, v: real, lo: real)
    requires 0.0 <= w && 0.0 <= u && 0.0 <= v && w + u + v == 1.0
    requires lo <= a && lo <= b && lo <= c
    ensures lo <= a * w + b * u + c * v
  {
    MulMonotone(lo, a, w);
    MulMonotone(lo, b, u);
    MulMonotone(lo, c, v);
    SumLessEq(lo * w, a * w, lo * u, b * u, lo * v, c * v);
    WeightedConstant(lo, w, u, v);
  }

  lemma WeightedBelow(a: real, b: real, c: real, w: real, u: real, v: real, hi: real)
    requires 0.0 <= w && 0.0 <= u && 0.0 <= v && w + u + v == 1.0
    requires a <= hi && b <= hi && c <= hi
    ensures a * w + b * u + c * v <= hi
  {
    MulMonotone(a, hi, w);
    MulMonotone(b, hi, u);
    MulMonotone(c, hi, v);
    SumLessEq(a * w, hi * w, b * u, hi * u, c * v, hi * v);
    WeightedConstant(hi, w, u, v);
  }

  /** Interpolated texture coordinates stay within the range of the vertices' coordinates. */
  lemma BlendBetween(a: real, b: real, c: real, u: real, v: real, lo: real, hi: real)
    requires Barycentric(1.0 - (u + v), u, v)
    requires lo <= a <= hi && lo <= b <= hi && lo <= c <= hi
    ensures lo <= Blend(a, b, c, u, v) <= hi
  {
    WeightedAbove(a, b, c, 1.0 - (u + v), u, v, lo);
    WeightedBelow(a, b, c, 1.0 - (u + v), u, v, hi);
  }

  // ---------------------------------------------------------------- bounds and midpoints

  /** GetBounds: center -/+ radius for a sphere, the per-axis min and max of the vertices for a triangle. */
  function PrimitiveBounds(p: Primitive): BoundingBox
  {
    match p
    case Sphere(_, _, center, radius) => BoundingBox(SubScalar(center, radius), AddScalar(center, radius))
    case Triangle(_, v, _, _, _) =>
      BoundingBox(
        Vector3(Min(v.first.x, Min(v.second.x, v.third.x)), Min(v.first.y, Min(v.second.y, v.third.y)), Min(v.first.z, Min(v.second.z, v.third.z))),
        Vector3(Max(v.first.x, Max(v.second.x, v.third.x)), Max(v.first.y, Max(v.second.y, v.third.y)), Max(v.first.z, Max(v.second.z, v.third.z))))
  }

  /** GetMidpoint: the centre of a sphere, the centroid (v0 + v1 + v2) * (1/3) of a triangle. */
  function Midpoint(p: Primitive): Vector3
  {
    match p
    case Sphere(_, _, center, _) => center
    case Triangle(_, v, _, _, _) => Scale(Add(Add(v.first, v.second), v.third), 1.0 / 3.0)
  }

  /** A sphere of non-negative radius has a well-formed box containing its centre (its midpoint). */
  lemma SphereBoundsContainCenter(s: Primitive)
    requires s.Sphere? && 0.0 <= s.radius
    ensures WellFormed(PrimitiveBounds(s)) && Inside(PrimitiveBounds(s), Midpoint(s))
  {
  }

  /** A triangle's box is well-formed and contains its three vertices. */
  lemma TriangleBoundsContainVertices(tri: Primitive)
    requires tri.Triangle?
    ensures WellFormed(PrimitiveBounds(tri))
    ensures Inside(PrimitiveBounds(tri), tri.v.first) && Inside(PrimitiveBounds(tri), tri.v.second) && Inside(PrimitiveBounds(tri), tri.v.third)
  {
  }

  /** Any box containing the three vertices contains the triangle's box: it is the least such box. */
  lemma TriangleBoundsLeast(tri: Primitive, b: BoundingBox)
    requires tri.Triangle?
    requires Inside(b, tri.v.first) && Inside(b, tri.v.second) && Inside(b, tri.v.third)
    ensures Contains(b, PrimitiveBounds(tri))
  {
  }

  /** A third of a sum of three values lies between their minimum and maximum. */
  lemma ThirdBetween(a: real, b: real, c: real)
    ensures Min(a, Min(b, c)) <= (a + b + c) * (1.0 / 3.0) <= Max(a, Max(b, c))
  {
  }

  /** The centroid lies inside the triangle's box. */
  lemma CentroidInside(tri: Primitive)
    requires tri.Triangle?
    ensures Inside(PrimitiveBounds(tri), Midpoint(tri))
  {
    var v := tri.v;
    ThirdBetween(v.first.x, v.second.x, v.third.x);
    ThirdBetween(v.first.y, v.second.y, v.third.y);
    ThirdBetween(v.first.z, v.second.z, v.third.z);
  }

  // ---------------------------------------------------------------- spherical texture map

  /** The direction from the object's centre to vertex k, normalised. */
  function VertexDirection(m: Math, tri: Primitive, objectCenter: Vector3, k: int): Vector3
    requires tri.Triangle?
  {
    Normalize(m, Sub(At(tri.v, k), objectCenter))
  }

  function MapCoord(m: Math, tex: Vector3, dir: Vector3): Vector3
  {
    tex.(x := 1.0 - SphereU(m, dir), y := SphereV(m, dir))
  }

  /**
   * MapTextureCoords(objectCenter): each vertex's texture u, v become the
   * sphere parameterisation of its direction from the centre; the third
   * texture component and every other field are kept.
   */
  function MapTextureCoords(m: Math, tri: Primitive, objectCenter: Vector3): (r: Primitive)
    requires tri.Triangle?
    ensures r.Triangle? && r == tri.(tex := r.tex)
    ensures forall k :: 0 <= k < 3 ==>
      At(r.tex, k).z == At(tri.tex, k).z
      && At(r.tex, k).x == 1.0 - SphereU(m, VertexDirection(m, tri, objectCenter, k))
      && At(r.tex, k).y == SphereV(m, VertexDirection(m, tri, objectCenter, k))
  {
    tri.(tex := Triple(MapCoord(m, tri.tex.first, VertexDirection(m, tri, objectCenter, 0)),
                       MapCoord(m, tri.tex.second, VertexDirection(m, tri, objectCenter, 1)),
                       MapCoord(m, tri.tex.third, VertexDirection(m, tri, objectCenter, 2))))
  }

  /**
   * The mapping is the sphere's: a two-root sphere hit centred on the object
   * centre, at a point that is vertex k, has the texture coordinates the map
   * gives that vertex.
   */
  lemma MapAgreesWithSphere(m: Math, tri: Primitive, s: Primitive, mats: seq<Material>, origin: Vector3, direction: Vector3, t: real, k: int)
    requires tri.Triangle? && s.Sphere? && s.material < |mats| && 0 <= k < 3
    requires Add(origin, Scale(direction, t)) == At(tri.v, k)
    ensures var h := SphereHit(m, s, mats, origin, direction, t, true);
      var c := MapTextureCoords(m, tri, s.center);
      h.u == At(c.tex, k).x && h.v == At(c.tex, k).y
  {
  }

  // ---------------------------------------------------------------- BSSRDF

  /** The material ids a primitive refers to. */
  function MaterialSlots(p: Primitive): set<nat>
  {
    match p
    case Sphere(_, material, _, _) => {material}
    case Triangle(_, _, _, m, _) => {m.first, m.second, m.third}
  }

  /**
   * SetBSSRDF: write `b` through every material pointer of the primitive.
   * The write is to the shared material, so every other primitive that
   * refers to it sees it too; other materials and fields are untouched.
   */
  function SetBSSRDF(p: Primitive, mats: seq<Material>, b: Option<nat>): (r: seq<Material>)
    requires MaterialsIn(p, |mats|)
    ensures |r| == |mats|
    ensures forall i :: 0 <= i < |mats| && i in MaterialSlots(p) ==> r[i] == mats[i].(bssrdf := b)
    ensures forall i :: 0 <= i < |mats| && i !in MaterialSlots(p) ==> r[i] == mats[i]
  {
    match p
    case Sphere(_, material, _, _) => mats[material := mats[material].(bssrdf := b)]
    case Triangle(_, _, _, m, _) =>
      var r1 := mats[m.first := mats[m.first].(bssrdf := b)];
      var r2 := r1[m.second := r1[m.second].(bssrdf := b)];
      r2[m.third := r2[m.third].(bssrdf := b)]
  }
}
