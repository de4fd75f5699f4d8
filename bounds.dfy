// Axis-aligned bounding boxes: growing a box to cover another, the slab
// test against a ray, the longest axis and the centre point.
//
// BoundingBox is a value type (the tree nodes hold copies), so the in-place
// `Expand` is a function that returns the grown box.
module Bounds {
  import opened Floats
  import opened Vectors

  datatype BoundingBox = BoundingBox(minCorner: Vector3, maxCorner: Vector3)

  /** Componentwise `a <= b`. */
  predicate LessEq(a: Vector3, b: Vector3)
  {
    a.x <= b.x && a.y <= b.y && a.z <= b.z
  }

  /** A box whose min corner is below its max corner on every axis. */
  predicate WellFormed(b: BoundingBox)
  {
    LessEq(b.minCorner, b.maxCorner)
  }

  /** The point `p` lies in the closed box `b`. */
  predicate Inside(b: BoundingBox, p: Vector3)
  {
    LessEq(b.minCorner, p) && LessEq(p, b.maxCorner)
  }

  /** `outer` covers `inner`: its min corner is below and its max corner above. */
  predicate Contains(outer: BoundingBox, inner: BoundingBox)
  {
    LessEq(outer.minCorner, inner.minCorner) && LessEq(inner.maxCorner, outer.maxCorner)
  }

  /**
   * Expand(bounds): every min coordinate becomes the smaller of the two, every
   * max coordinate the larger. The result covers both boxes, and each of its
   * coordinates is one of the two inputs' coordinates.
   */
  function Expand(b: BoundingBox, other: BoundingBox): (r: BoundingBox)
    ensures Contains(r, b) && Contains(r, other)
    ensures r.minCorner.x in {b.minCorner.x, other.minCorner.x}
    ensures r.minCorner.y in {b.minCorner.y, other.minCorner.y}
    ensures r.minCorner.z in {b.minCorner.z, other.minCorner.z}
    ensures r.maxCorner.x in {b.maxCorner.x, other.maxCorner.x}
    ensures r.maxCorner.y in {b.maxCorner.y, other.maxCorner.y}
    ensures r.maxCorner.z in {b.maxCorner.z, other.maxCorner.z}
  {
    BoundingBox(
      Vector3(Min(b.minCorner.x, other.minCorner.x), Min(b.minCorner.y, other.minCorner.y), Min(b.minCorner.z, other.minCorner.z)),
      Vector3(Max(b.maxCorner.x, other.maxCorner.x), Max(b.maxCorner.y, other.maxCorner.y), Max(b.maxCorner.z, other.maxCorner.z)))
  }

  lemma ContainsReflexive(b: BoundingBox)
    ensures Contains(b, b)
  {
  }

  lemma ContainsTransitive(a: BoundingBox, b: BoundingBox, c: BoundingBox)
    requires Contains(a, b) && Contains(b, c)
    ensures Contains(a, c)
  {
  }

  /** Expand gives the least box covering both: any box covering the two inputs covers the result. */
  lemma ExpandLeast(b: BoundingBox, other: BoundingBox, c: BoundingBox)
    requires Contains(c, b) && Contains(c, other)
    ensures Contains(c, Expand(b, other))
  {
  }

  /** Expanding a box by itself changes nothing; the result is symmetric and associative in the inputs. */
  lemma ExpandAlgebra(a: BoundingBox, b: BoundingBox, c: BoundingBox)
    ensures Expand(a, a) == a
    ensures Expand(a, b) == Expand(b, a)
    ensures Expand(Expand(a, b), c) == Expand(a, Expand(b, c))
  {
  }

  /** Expanding a well-formed box by a well-formed box gives a well-formed box. */
  lemma ExpandWellFormed(b: BoundingBox, other: BoundingBox)
    requires WellFormed(b) && WellFormed(other)
    ensures WellFormed(Expand(b, other))
  {
  }

  // ---------------------------------------------------------------- slab test

  /**
   * A float of the slab test. The box corners and the origin are finite,
   * but a zero direction component has an infinite reciprocal, and a zero
   * distance times an infinity is NaN; the test's answer depends on both.
   */
  datatype Ext = Fin(v: real) | PosInf | NegInf | NaN

  /** IEEE `<`: false whenever either side is NaN. */
  predicate Lt(a: Ext, b: Ext)
  {
    match a
    case NaN => false
    case PosInf => false
    case NegInf => b.Fin? || b.PosInf?
    case Fin(x) => b.PosInf? || (b.Fin? && x < b.v)
  }

  /** IEEE `>=`: false whenever either side is NaN. */
  predicate Ge(a: Ext, b: Ext)
  {
    !a.NaN? && !b.NaN? && !Lt(a, b)
  }

  /** std::min(a, b), that is (b < a) ? b : a: a NaN second argument is passed over, a NaN first one returned. */
  function EMin(a: Ext, b: Ext): Ext
  {
    if Lt(b, a) then b else a
  }

  /** std::max(a, b), that is (a < b) ? b : a. */
  function EMax(a: Ext, b: Ext): Ext
  {
    if Lt(a, b) then b else a
  }

  /** 1.0f / x: the reciprocal, and +infinity for a zero x. */
  function Reciprocal(x: real): (r: Ext)
    ensures x == 0.0 ==> r == PosInf
    ensures x != 0.0 ==> r.Fin? && r.v * x == 1.0
  {
    if x == 0.0 then PosInf else Fin(1.0 / x)
  }

  /** A vector of slab-test floats: the inverse direction. */
  datatype ExtVector3 = ExtVector3(x: Ext, y: Ext, z: Ext)

  /** invDirection = Vector3(1.0f / x, 1.0f / y, 1.0f / z). */
  function InverseDirection(d: Vector3): (r: ExtVector3)
    ensures r == ExtVector3(Reciprocal(d.x), Reciprocal(d.y), Reciprocal(d.z))
    ensures (d.x == 0.0 ==> r.x == PosInf) && (d.y == 0.0 ==> r.y == PosInf) && (d.z == 0.0 ==> r.z == PosInf)
    ensures (d.x != 0.0 ==> r.x.Fin? && r.x.v * d.x == 1.0)
         && (d.y != 0.0 ==> r.y.Fin? && r.y.v * d.y == 1.0)
         && (d.z != 0.0 ==> r.z.Fin? && r.z.v * d.z == 1.0)
  {
    ExtVector3(Reciprocal(d.x), Reciprocal(d.y), Reciprocal(d.z))
  }

  /** The ray parameter at which the ray crosses the plane `c` of one axis, for a finite inverse: (c - origin) * inv. */
  function SlabT(c: real, o: real, inv: real): real
  {
    (c - o) * inv
  }

  /** (c - origin) * inv in floats: an infinite inverse gives an infinity of the distance's sign, or NaN for a zero distance. */
  function Crossing(c: real, o: real, inv: Ext): Ext
  {
    match inv
    case Fin(v) => Fin(SlabT(c, o, v))
    case PosInf => if c > o then PosInf else if c < o then NegInf else NaN
    case NegInf => if c > o then NegInf else if c < o then PosInf else NaN
    case NaN => NaN
  }

  /** Entry parameter of one slab: min(T1, T2). */
  function Near(lo: real, hi: real, o: real, inv: Ext): Ext
  {
    EMin(Crossing(lo, o, inv), Crossing(hi, o, inv))
  }

  /** Exit parameter of one slab: max(T1, T2). */
  function Far(lo: real, hi: real, o: real, inv: Ext): Ext
  {
    EMax(Crossing(lo, o, inv), Crossing(hi, o, inv))
  }

  /** tmin: the entry parameters folded with max, x, then y, then z. */
  function SlabMin(b: BoundingBox, origin: Vector3, inv: ExtVector3): Ext
  {
    EMax(EMax(Near(b.minCorner.x, b.maxCorner.x, origin.x, inv.x),
              Near(b.minCorner.y, b.maxCorner.y, origin.y, inv.y)),
         Near(b.minCorner.z, b.maxCorner.z, origin.z, inv.z))
  }

  /** tmax: the exit parameters folded with min, x, then y, then z. */
  function SlabMax(b: BoundingBox, origin: Vector3, inv: ExtVector3): Ext
  {
    EMin(EMin(Far(b.minCorner.x, b.maxCorner.x, origin.x, inv.x),
              Far(b.minCorner.y, b.maxCorner.y, origin.y, inv.y)),
         Far(b.minCorner.z, b.maxCorner.z, origin.z, inv.z))
  }

  /**
   * intersects(origin, invDirection): the ray meets the box when its exit
   * parameter is not before its entry parameter and not behind the origin
   * (both comparisons fail on NaN).
   */
  predicate Intersects(b: BoundingBox, origin: Vector3, inv: ExtVector3)
  {
    Ge(SlabMax(b, origin, inv), SlabMin(b, origin, inv)) && Ge(SlabMax(b, origin, inv), Fin(0.0))
  }

  /** The crossing parameter is monotone in the plane position, rising or falling with the sign of invDirection. */
  lemma SlabTMonotone(c1: real, c2: real, o: real, inv: real)
    requires c1 <= c2
    ensures 0.0 <= inv ==> SlabT(c1, o, inv) <= SlabT(c2, o, inv)
    ensures inv <= 0.0 ==> SlabT(c2, o, inv) <= SlabT(c1, o, inv)
  {
    assert SlabT(c2, o, inv) - SlabT(c1, o, inv) == (c2 - c1) * inv;
    if 0.0 <= inv {
      assert 0.0 <= (c2 - c1) * inv;
    } else {
      assert (c2 - c1) * inv <= 0.0;
    }
  }

  /** For a finite inverse, the crossing parameter of any plane between lo and hi lies between the slab's entry and exit. */
  lemma PlaneWithinSlab(lo: real, hi: real, c: real, o: real, inv: real)
    requires lo <= c <= hi
    ensures Min(SlabT(lo, o, inv), SlabT(hi, o, inv)) <= SlabT(c, o, inv) <= Max(SlabT(lo, o, inv), SlabT(hi, o, inv))
  {
    SlabTMonotone(lo, c, o, inv);
    SlabTMonotone(c, hi, o, inv);
  }

  /** The point origin + direction * t of the ray. */
  function PointAt(origin: Vector3, direction: Vector3, t: real): Vector3
  {
    Add(origin, Scale(direction, t))
  }

  /** The point at parameter t is crossed at parameter t: ((o + d * t) - o) * (1 / d) == t. */
  lemma CrossingOfPoint(o: real, d: real, t: real)
    requires d != 0.0
    ensures SlabT(o + d * t, o, 1.0 / d) == t
  {
    assert (o + d * t) - o == d * t;
    assert d * t * (1.0 / d) == t * (d * (1.0 / d));
  }

  /**
   * The point at parameter t lies in the box, and on every axis the ray
   * runs parallel to, the origin lies strictly between the box's faces.
   */
  predicate HitInside(b: BoundingBox, origin: Vector3, direction: Vector3, t: real)
  {
    Inside(b, PointAt(origin, direction, t))
    && (direction.x == 0.0 ==> b.minCorner.x < origin.x < b.maxCorner.x)
    && (direction.y == 0.0 ==> b.minCorner.y < origin.y < b.maxCorner.y)
    && (direction.z == 0.0 ==> b.minCorner.z < origin.z < b.maxCorner.z)
  }

  /**
   * One axis: when the ray's coordinate at parameter t lies between the
   * faces (strictly, for a parallel ray), neither slab parameter is NaN and
   * t lies between them.
   */
  lemma AxisBrackets(lo: real, hi: real, o: real, d: real, t: real)
    requires lo <= o + d * t <= hi
    requires d == 0.0 ==> lo < o < hi
    ensures Ge(Fin(t), Near(lo, hi, o, Reciprocal(d))) && Ge(Far(lo, hi, o, Reciprocal(d)), Fin(t))
  {
    if d != 0.0 {
      CrossingOfPoint(o, d, t);
      PlaneWithinSlab(lo, hi, o + d * t, o, 1.0 / d);
    }
  }

  /** Bounds on each of three values bound their min and max, as the folds compute them. */
  lemma FoldBrackets(n1: Ext, n2: Ext, n3: Ext, f1: Ext, f2: Ext, f3: Ext, t: real)
    requires Ge(Fin(t), n1) && Ge(Fin(t), n2) && Ge(Fin(t), n3)
    requires Ge(f1, Fin(t)) && Ge(f2, Fin(t)) && Ge(f3, Fin(t))
    ensures Ge(Fin(t), EMax(EMax(n1, n2), n3)) && Ge(EMin(EMin(f1, f2), f3), Fin(t))
  {
  }

  /** Two values either side of a third are ordered. */
  lemma GeThrough(a: Ext, t: real, b: Ext)
    requires Ge(a, Fin(t)) && Ge(Fin(t), b)
    ensures Ge(a, b)
  {
  }

  /** When t >= 0 lies between every slab's entry and exit, the ray passes the slab test. */
  lemma BracketedIntersects(b: BoundingBox, origin: Vector3, inv: ExtVector3, t: real)
    requires 0.0 <= t
    requires Ge(Fin(t), Near(b.minCorner.x, b.maxCorner.x, origin.x, inv.x)) && Ge(Far(b.minCorner.x, b.maxCorner.x, origin.x, inv.x), Fin(t))
    requires Ge(Fin(t), Near(b.minCorner.y, b.maxCorner.y, origin.y, inv.y)) && Ge(Far(b.minCorner.y, b.maxCorner.y, origin.y, inv.y), Fin(t))
    requires Ge(Fin(t), Near(b.minCorner.z, b.maxCorner.z, origin.z, inv.z)) && Ge(Far(b.minCorner.z, b.maxCorner.z, origin.z, inv.z), Fin(t))
    ensures Intersects(b, origin, inv)
  {
    FoldBrackets(Near(b.minCorner.x, b.maxCorner.x, origin.x, inv.x),
                 Near(b.minCorner.y, b.maxCorner.y, origin.y, inv.y),
                 Near(b.minCorner.z, b.maxCorner.z, origin.z, inv.z),
                 Far(b.minCorner.x, b.maxCorner.x, origin.x, inv.x),
                 Far(b.minCorner.y, b.maxCorner.y, origin.y, inv.y),
                 Far(b.minCorner.z, b.maxCorner.z, origin.z, inv.z), t);
    GeThrough(SlabMax(b, origin, inv), t, SlabMin(b, origin, inv));
    GeThrough(SlabMax(b, origin, inv), t, Fin(0.0));
  }

  /**
   * A ray whose point at parameter t >= 0 lies in the box (strictly between
   * the faces on the axes it runs parallel to) passes the slab test.
   */
  lemma HitPointIntersects(b: BoundingBox, origin: Vector3, direction: Vector3, t: real)
    requires 0.0 <= t && HitInside(b, origin, direction, t)
    ensures Intersects(b, origin, InverseDirection(direction))
  {
    var p := PointAt(origin, direction, t);
    assert p.x == origin.x + direction.x * t && p.y == origin.y + direction.y * t && p.z == origin.z + direction.z * t;
    AxisBrackets(b.minCorner.x, b.maxCorner.x, origin.x, direction.x, t);
    AxisBrackets(b.minCorner.y, b.maxCorner.y, origin.y, direction.y, t);
    AxisBrackets(b.minCorner.z, b.maxCorner.z, origin.z, direction.z, t);
    BracketedIntersects(b, origin, InverseDirection(direction), t);
  }

  /** A ray starting inside the box, strictly inside on the axes it runs parallel to, passes the slab test. */
  lemma OriginInsideIntersects(b: BoundingBox, origin: Vector3, direction: Vector3)
    requires Inside(b, origin)
    requires direction.x == 0.0 ==> b.minCorner.x < origin.x < b.maxCorner.x
    requires direction.y == 0.0 ==> b.minCorner.y < origin.y < b.maxCorner.y
    requires direction.z == 0.0 ==> b.minCorner.z < origin.z < b.maxCorner.z
    ensures Intersects(b, origin, InverseDirection(direction))
  {
    assert PointAt(origin, direction, 0.0) == origin;
    HitPointIntersects(b, origin, direction, 0.0);
  }

  /** A point in a box, strictly inside on the parallel axes, is so in every box containing it. */
  lemma HitInsideGrows(outer: BoundingBox, inner: BoundingBox, origin: Vector3, direction: Vector3, t: real)
    requires Contains(outer, inner) && HitInside(inner, origin, direction, t)
    ensures HitInside(outer, origin, direction, t)
  {
  }

  /**
   * An axis-aligned ray passes the test of a box it goes through: from
   * (0, 0, 5) along (0, 0, -1), the cube [-1, 1]^3 is entered at t = 4; the
   * x and y slabs, with infinite inverses, span all of the ray.
   */
  lemma AxisAlignedRayHits()
    ensures var b := BoundingBox(Vector3(-1.0, -1.0, -1.0), Vector3(1.0, 1.0, 1.0));
      Intersects(b, Vector3(0.0, 0.0, 5.0), InverseDirection(Vector3(0.0, 0.0, -1.0)))
  {
    var b := BoundingBox(Vector3(-1.0, -1.0, -1.0), Vector3(1.0, 1.0, 1.0));
    var o, d := Vector3(0.0, 0.0, 5.0), Vector3(0.0, 0.0, -1.0);
    var inv := InverseDirection(d);
    assert inv == ExtVector3(PosInf, PosInf, Fin(-1.0));
    assert Near(-1.0, 1.0, 0.0, PosInf) == NegInf && Far(-1.0, 1.0, 0.0, PosInf) == PosInf;
    assert Near(-1.0, 1.0, 5.0, Fin(-1.0)) == Fin(4.0) && Far(-1.0, 1.0, 5.0, Fin(-1.0)) == Fin(6.0);
  }

  /**
   * A ray that runs along a face of the box is culled even where it passes
   * through the box: origin (0.5, 1, -1), direction (0, 0, 1) reaches the
   * point (0.5, 1, 0) of the unit cube at t = 1, but its y distance to the
   * top face is 0, 0 * infinity is NaN, and max(-infinity, NaN) is
   * -infinity, so tmax is -infinity.
   */
  lemma FaceRayCulled()
    ensures var b := BoundingBox(Vector3(0.0, 0.0, 0.0), Vector3(1.0, 1.0, 1.0));
      var o, d := Vector3(0.5, 1.0, -1.0), Vector3(0.0, 0.0, 1.0);
      Inside(b, PointAt(o, d, 1.0)) && !Intersects(b, o, InverseDirection(d))
  {
    var b := BoundingBox(Vector3(0.0, 0.0, 0.0), Vector3(1.0, 1.0, 1.0));
    var o, d := Vector3(0.5, 1.0, -1.0), Vector3(0.0, 0.0, 1.0);
    var inv := InverseDirection(d);
    assert inv == ExtVector3(PosInf, PosInf, Fin(1.0));
    assert Far(0.0, 1.0, 1.0, PosInf) == NegInf;
    assert SlabMax(b, o, inv) == NegInf;
  }

  // ---------------------------------------------------------------- axis and centre

  function Extent(b: BoundingBox): Vector3
  {
    Sub(b.maxCorner, b.minCorner)
  }

  /**
   * LongestAxis: 0, 1 or 2, an axis of greatest extent; because the source only
   * switches on a strictly greater extent, ties go to the lower axis.
   */
  function LongestAxis(b: BoundingBox): (axis: int)
    ensures 0 <= axis <= 2
    ensures forall a :: 0 <= a <= 2 ==> Get(Extent(b), a) <= Get(Extent(b), axis)
    ensures forall a :: 0 <= a < axis ==> Get(Extent(b), a) < Get(Extent(b), axis)
  {
    var delta := Extent(b);
    var afterY := if delta.y > delta.x then 1 else 0;
    var longestSoFar := if delta.y > delta.x then delta.y else delta.x;
    if delta.z > longestSoFar then 2 else afterY
  }

  /** GetMidpoint: (max + min) * 0.5. */
  function GetMidpoint(b: BoundingBox): Vector3
  {
    Scale(Add(b.maxCorner, b.minCorner), 0.5)
  }

  /** The midpoint is equidistant from the two corners and lies inside a well-formed box. */
  lemma MidpointInside(b: BoundingBox)
    ensures Sub(GetMidpoint(b), b.minCorner) == Sub(b.maxCorner, GetMidpoint(b))
    ensures WellFormed(b) ==> Inside(b, GetMidpoint(b))
  {
  }
}
