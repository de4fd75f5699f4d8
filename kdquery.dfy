// What a traversal of the KD-tree computes, and how it relates to a linear
// scan over every primitive.
//
// A ray is fixed for one query, and each primitive's intersection test with
// that ray is the `Tracer` it carries: `None` for a miss, the hit record
// otherwise. The closest-hit search threads the out-parameters (hitData,
// *hitObject, *tMax) through the primitives; the shadow search threads the
// shadow factor.
module KDQuery {
  import opened Floats
  import opened Vectors
  import opened Bounds
  import opened Optional
  import opened Materials
  import opened KDBuild

  /** MIN_SHADOW_INTERSECT: the tree ignores shadow hits closer than this to the ray's origin. */
  const MIN_SHADOW_INTERSECT: real := 0.0001

  /** FULLY_OPAQUE_THRESHOLD: a hit whose transparency is below this blocks all light. */
  const FULLY_OPAQUE_THRESHOLD: real := 0.01

  /** Every primitive's intersection test against the ray being traced. */
  type Tracer = Prim -> Option<HitData>

  /** The out-parameters of a closest-hit search: hitData, *hitObject and *tMax. */
  datatype Closest = Closest(data: HitData, hitObject: nat, tMax: real)

  // ---------------------------------------------------------------- closest hit

  /** Test one primitive: a hit nearer than tMax becomes the new closest hit. */
  function ClosestStep(p: Prim, hit: Tracer, st: Closest): (bool, Closest)
  {
    if hit(p).Some? && hit(p).value.t < st.tMax then (true, Closest(hit(p).value, p.parent, hit(p).value.t))
    else (false, st)
  }

  /** The leaf loop (and the brute-force loop): whether any test updated the result, and the final out-parameters. */
  function ScanClosest(ps: seq<Prim>, hit: Tracer, st: Closest): (bool, Closest)
  {
    if |ps| == 0 then (false, st)
    else
      var (found, s) := ScanClosest(ps[..|ps| - 1], hit, st);
      var (now, s') := ClosestStep(ps[|ps| - 1], hit, s);
      (found || now, s')
  }

  /** intersectsNode: skip a node whose box the ray misses, scan a leaf, otherwise search left then right. */
  function QueryNode(n: KDNode, reg: seq<seq<Prim>>, origin: Vector3, inv: ExtVector3, hit: Tracer, st: Closest): (bool, Closest)
    requires Valid(n, reg)
  {
    if !Intersects(n.bounds, origin, inv) then (false, st)
    else if IsLeaf(n) then ScanClosest(reg[n.primitivesIndex], hit, st)
    else
      var (hitLeft, s1) := if n.left.Some? then QueryNode(n.left.value, reg, origin, inv, hit, st) else (false, st);
      var (hitRight, s2) := if n.right.Some? then QueryNode(n.right.value, reg, origin, inv, hit, s1) else (false, s1);
      (hitLeft || hitRight, s2)
  }

  /** Hit `i` of `ps` exists and is nearer than the bound. */
  predicate HitBefore(ps: seq<Prim>, hit: Tracer, i: int, bound: real)
  {
    0 <= i < |ps| && hit(ps[i]).Some? && hit(ps[i]).value.t < bound
  }

  /** Scanning a concatenation scans the first part, then the second from where the first left off. */
  lemma {:induction false} ScanAppend(a: seq<Prim>, b: seq<Prim>, hit: Tracer, st: Closest)
    ensures var (fa, sa) := ScanClosest(a, hit, st);
      var (fb, sb) := ScanClosest(b, hit, sa);
      ScanClosest(a + b, hit, st) == (fa || fb, sb)
  {
    if |b| > 0 {
      var b' := b[..|b| - 1];
      ScanAppend(a, b', hit, st);
      assert (a + b)[..|a + b| - 1] == a + b';
      assert (a + b)[|a + b| - 1] == b[|b| - 1];
    } else {
      assert a + b == a;
    }
  }

  /** Primitives the ray misses leave the out-parameters alone. */
  lemma {:induction false} ScanMisses(ps: seq<Prim>, hit: Tracer, st: Closest)
    requires forall p :: p in ps ==> hit(p).None?
    ensures ScanClosest(ps, hit, st) == (false, st)
  {
    if |ps| > 0 {
      assert forall p :: p in ps[..|ps| - 1] ==> p in ps;
      ScanMisses(ps[..|ps| - 1], hit, st);
    }
  }

  /**
   * What the scan computes, in terms of the primitives' hits only: the flag
   * says whether some hit is nearer than the initial tMax; without one the
   * out-parameters are untouched; otherwise they hold a hit of the list, the
   * nearest one, and among the nearest the first in list order.
   */
  lemma {:induction false} ScanCharacterised(ps: seq<Prim>, hit: Tracer, st: Closest)
    ensures var (found, s) := ScanClosest(ps, hit, st);
      (found <==> exists i :: HitBefore(ps, hit, i, st.tMax))
      && (!found ==> s == st)
      && s.tMax <= st.tMax
      && (forall i :: 0 <= i < |ps| && hit(ps[i]).Some? ==> s.tMax <= hit(ps[i]).value.t)
      && (found ==> exists i :: 0 <= i < |ps| && hit(ps[i]) == Some(s.data) && s.hitObject == ps[i].parent
                       && s.tMax == s.data.t
                       && (forall j :: 0 <= j < i ==> hit(ps[j]).None? || hit(ps[j]).value.t > s.tMax))
  {
    if |ps| > 0 {
      var init, last := ps[..|ps| - 1], ps[|ps| - 1];
      ScanCharacterised(init, hit, st);
      var (f0, s0) := ScanClosest(init, hit, st);
      var (found, s) := ScanClosest(ps, hit, st);
      assert forall i :: 0 <= i < |init| ==> ps[i] == init[i];
      if hit(last).Some? && hit(last).value.t < s0.tMax {
        assert s == Closest(hit(last).value, last.parent, hit(last).value.t);
        assert HitBefore(ps, hit, |ps| - 1, st.tMax);
        forall j | 0 <= j < |ps| - 1
          ensures hit(ps[j]).None? || hit(ps[j]).value.t > s.tMax
        {
          assert ps[j] == init[j];
        }
      } else {
        assert s == s0 && found == f0;
        if f0 {
          var i :| HitBefore(init, hit, i, st.tMax);
          assert HitBefore(ps, hit, i, st.tMax);
        }
        if exists i :: HitBefore(ps, hit, i, st.tMax) {
          var i :| HitBefore(ps, hit, i, st.tMax);
          if i == |ps| - 1 {
          } else {
            assert HitBefore(init, hit, i, st.tMax);
          }
        }
        if found {
          var i :| 0 <= i < |init| && hit(init[i]) == Some(s0.data) && s0.hitObject == init[i].parent
                   && s0.tMax == s0.data.t
                   && (forall j :: 0 <= j < i ==> hit(init[j]).None? || hit(init[j]).value.t > s0.tMax);
          assert hit(ps[i]) == Some(s.data) && s.hitObject == ps[i].parent && s.tMax == s.data.t;
          forall j | 0 <= j < i
            ensures hit(ps[j]).None? || hit(ps[j]).value.t > s.tMax
          {
            assert ps[j] == init[j];
          }
        }
      }
    }
  }

  // ---------------------------------------------------------------- shadow factor

  /** normalizedDiffuse: the diffuse colour divided by its largest component, or white when that is tiny. */
  function NormalizedDiffuse(c: Vector3): Vector3
  {
    if MaxComponent(c) > FLT_EPSILON then DivScalar(c, MaxComponent(c)) else One
  }

  /** A hit that filters the light: an opaque one blocks it, any other scales it by ktran times the normalised diffuse colour. */
  function Attenuate(f: Vector3, h: HitData): Vector3
  {
    if h.material.ktran < FULLY_OPAQUE_THRESHOLD then Zero
    else Mul(Scale(f, h.material.ktran), NormalizedDiffuse(h.material.diffColor))
  }

  /**
   * Whether a hit lies between the shading point and the light: before
   * maxDist, and (for the tree, `bounded`) not closer than MIN_SHADOW_INTERSECT.
   */
  predicate Occludes(h: HitData, maxDist: real, bounded: bool)
  {
    h.t < maxDist && (bounded ==> h.t >= MIN_SHADOW_INTERSECT)
  }

  function ShadowStep(p: Prim, hit: Tracer, maxDist: real, bounded: bool, f: Vector3): Vector3
  {
    if hit(p).Some? && Occludes(hit(p).value, maxDist, bounded) then Attenuate(f, hit(p).value) else f
  }

  /** The shadow factor after filtering through the primitives of `ps`, front to back. */
  function ShadowFold(ps: seq<Prim>, hit: Tracer, maxDist: real, bounded: bool, f: Vector3): Vector3
  {
    if |ps| == 0 then f
    else ShadowStep(ps[|ps| - 1], hit, maxDist, bounded, ShadowFold(ps[..|ps| - 1], hit, maxDist, bounded, f))
  }

  /** traceShadowNode: skip a node whose box the ray misses, filter through a leaf, otherwise left then right. */
  function ShadowNode(n: KDNode, reg: seq<seq<Prim>>, origin: Vector3, inv: ExtVector3, hit: Tracer, maxDist: real, f: Vector3): Vector3
    requires Valid(n, reg)
  {
    if !Intersects(n.bounds, origin, inv) then f
    else if IsLeaf(n) then ShadowFold(reg[n.primitivesIndex], hit, maxDist, true, f)
    else
      var f1 := if n.left.Some? then ShadowNode(n.left.value, reg, origin, inv, hit, maxDist, f) else f;
      if n.right.Some? then ShadowNode(n.right.value, reg, origin, inv, hit, maxDist, f1) else f1
  }

  /** A blocked ray stays blocked: filtering a zero factor gives zero. */
  lemma AttenuateZero(h: HitData)
    ensures Attenuate(Zero, h) == Zero
  {
    assert Scale(Zero, h.material.ktran) == Zero;
  }

  lemma {:induction false} ShadowFromZero(ps: seq<Prim>, hit: Tracer, maxDist: real, bounded: bool)
    ensures ShadowFold(ps, hit, maxDist, bounded, Zero) == Zero
  {
    if |ps| > 0 {
      ShadowFromZero(ps[..|ps| - 1], hit, maxDist, bounded);
      if hit(ps[|ps| - 1]).Some? {
        AttenuateZero(hit(ps[|ps| - 1]).value);
      }
    }
  }

  lemma {:induction false} ShadowAppend(a: seq<Prim>, b: seq<Prim>, hit: Tracer, maxDist: real, bounded: bool, f: Vector3)
    ensures ShadowFold(a + b, hit, maxDist, bounded, f)
         == ShadowFold(b, hit, maxDist, bounded, ShadowFold(a, hit, maxDist, bounded, f))
  {
    if |b| > 0 {
      var b' := b[..|b| - 1];
      ShadowAppend(a, b', hit, maxDist, bounded, f);
      assert (a + b)[..|a + b| - 1] == a + b';
      assert (a + b)[|a + b| - 1] == b[|b| - 1];
    } else {
      assert a + b == a;
    }
  }

  /**
   * Once an opaque occluding hit has been met the factor is zero whatever
   * follows: stopping the leaf loop there (the early `return`) loses nothing.
   */
  lemma OpaqueBlocks(ps: seq<Prim>, i: int, hit: Tracer, maxDist: real, bounded: bool, f: Vector3)
    requires 0 <= i < |ps| && hit(ps[i]).Some? && Occludes(hit(ps[i]).value, maxDist, bounded)
    requires hit(ps[i]).value.material.ktran < FULLY_OPAQUE_THRESHOLD
    ensures ShadowFold(ps[..i + 1], hit, maxDist, bounded, f) == Zero
    ensures ShadowFold(ps, hit, maxDist, bounded, f) == Zero
  {
    assert ps[..i + 1][..i] == ps[..i];
    ShadowAppend(ps[..i + 1], ps[i + 1..], hit, maxDist, bounded, f);
    assert ps == ps[..i + 1] + ps[i + 1..];
    ShadowFromZero(ps[i + 1..], hit, maxDist, bounded);
  }

  lemma {:induction false} ShadowMisses(ps: seq<Prim>, hit: Tracer, maxDist: real, bounded: bool, f: Vector3)
    requires forall p :: p in ps ==> hit(p).None?
    ensures ShadowFold(ps, hit, maxDist, bounded, f) == f
  {
    if |ps| > 0 {
      assert forall p :: p in ps[..|ps| - 1] ==> p in ps;
      ShadowMisses(ps[..|ps| - 1], hit, maxDist, bounded, f);
    }
  }

  lemma Reorder(f: real, a: real, b: real, c: real, d: real)
    ensures Weigh(Weigh(Weigh(Weigh(f, a), b), c), d) == Weigh(Weigh(Weigh(Weigh(f, c), d), a), b)
  {
  }

  /** A transparent filter, component by component. */
  lemma FilterWeights(f: Vector3, k: real, d: Vector3)
    ensures Mul(Scale(f, k), d) == Vector3(Weigh(Weigh(f.x, k), d.x), Weigh(Weigh(f.y, k), d.y), Weigh(Weigh(f.z, k), d.z))
  {
  }

  /** Two filters commute: multiplying by transparencies and colours is order-independent, and zero absorbs. */
  lemma AttenuateCommutes(f: Vector3, hp: HitData, hq: HitData)
    ensures Attenuate(Attenuate(f, hp), hq) == Attenuate(Attenuate(f, hq), hp)
  {
    AttenuateZero(hp);
    AttenuateZero(hq);
    if hp.material.ktran >= FULLY_OPAQUE_THRESHOLD && hq.material.ktran >= FULLY_OPAQUE_THRESHOLD {
      var kp, kq := hp.material.ktran, hq.material.ktran;
      var dp, dq := NormalizedDiffuse(hp.material.diffColor), NormalizedDiffuse(hq.material.diffColor);
      FilterWeights(f, kp, dp);
      FilterWeights(f, kq, dq);
      FilterWeights(Mul(Scale(f, kp), dp), kq, dq);
      FilterWeights(Mul(Scale(f, kq), dq), kp, dp);
      Reorder(f.x, kp, dp.x, kq, dq.x);
      Reorder(f.y, kp, dp.y, kq, dq.y);
      Reorder(f.z, kp, dp.z, kq, dq.z);
    }
  }

  lemma StepsCommute(p: Prim, q: Prim, hit: Tracer, maxDist: real, bounded: bool, f: Vector3)
    ensures ShadowStep(q, hit, maxDist, bounded, ShadowStep(p, hit, maxDist, bounded, f))
         == ShadowStep(p, hit, maxDist, bounded, ShadowStep(q, hit, maxDist, bounded, f))
  {
    if hit(p).Some? && hit(q).Some? {
      AttenuateCommutes(f, hit(p).value, hit(q).value);
    }
  }

  /** Moving one primitive to the end of the list does not change the factor. */
  lemma {:induction false} MoveToEnd(c: seq<Prim>, x: Prim, d: seq<Prim>, hit: Tracer, maxDist: real, bounded: bool, f: Vector3)
    ensures ShadowFold(c + [x] + d, hit, maxDist, bounded, f) == ShadowFold(c + d + [x], hit, maxDist, bounded, f)
  {
    if |d| > 0 {
      var d', y := d[..|d| - 1], d[|d| - 1];
      MoveToEnd(c, x, d', hit, maxDist, bounded, f);
      assert (c + [x] + d)[..|c + [x] + d| - 1] == c + [x] + d';
      assert (c + d + [x])[..|c + d + [x]| - 1] == c + d;
      assert (c + d)[..|c + d| - 1] == c + d';
      assert (c + d' + [x])[..|c + d' + [x]| - 1] == c + d';
      assert (c + [x] + d)[|c + [x] + d| - 1] == y;
      assert (c + d)[|c + d| - 1] == y;
      StepsCommute(x, y, hit, maxDist, bounded, ShadowFold(c + d', hit, maxDist, bounded, f));
    } else {
      assert c + [x] + d == c + d + [x];
    }
  }

  /** Taking the same element out of two equal multisets leaves equal multisets. */
  lemma RemoveOne(a: seq<Prim>, x: Prim, c: seq<Prim>, d: seq<Prim>)
    requires multiset(a + [x]) == multiset(c + [x] + d)
    ensures multiset(a) == multiset(c + d)
  {
    assert multiset(a + [x]) == multiset(a) + multiset{x};
    assert multiset(c + [x] + d) == multiset(c + d) + multiset{x};
    forall z
      ensures multiset(a)[z] == multiset(c + d)[z]
    {
      assert (multiset(a) + multiset{x})[z] == (multiset(c + d) + multiset{x})[z];
    }
  }

  /** The shadow factor depends only on which primitives are filtered through, not on their order. */
  lemma {:induction false} ShadowPermutation(a: seq<Prim>, b: seq<Prim>, hit: Tracer, maxDist: real, bounded: bool, f: Vector3)
    requires multiset(a) == multiset(b)
    ensures ShadowFold(a, hit, maxDist, bounded, f) == ShadowFold(b, hit, maxDist, bounded, f)
    decreases |a|
  {
    if |a| > 0 {
      var a', x := a[..|a| - 1], a[|a| - 1];
      assert a == a' + [x];
      assert x in multiset(b);
      var k :| 0 <= k < |b| && b[k] == x;
      var c, d := b[..k], b[k + 1..];
      assert b == c + [x] + d;
      RemoveOne(a', x, c, d);
      ShadowPermutation(a', c + d, hit, maxDist, bounded, f);
      MoveToEnd(c, x, d, hit, maxDist, bounded, f);
      assert (c + d + [x])[..|c + d + [x]| - 1] == c + d;
    }
  }

  /** Without hits closer than MIN_SHADOW_INTERSECT, the bound changes nothing. */
  lemma {:induction false} BoundIrrelevant(ps: seq<Prim>, hit: Tracer, maxDist: real, f: Vector3)
    requires forall p :: p in ps && hit(p).Some? ==> hit(p).value.t >= MIN_SHADOW_INTERSECT
    ensures ShadowFold(ps, hit, maxDist, true, f) == ShadowFold(ps, hit, maxDist, false, f)
  {
    if |ps| > 0 {
      assert forall p :: p in ps[..|ps| - 1] ==> p in ps;
      BoundIrrelevant(ps[..|ps| - 1], hit, maxDist, f);
    }
  }

  /** An opaque hit just in front of the shading point. */
  function GrazingHit(p: Prim): Option<HitData>
  {
    Some(HitData(0.00005, Zero, Zero, Material(Zero, Zero, Zero, Zero, 0.0, 0.0, None), 0.0, 0.0))
  }

  /**
   * The tree and the linear scan of the scene can disagree: an opaque hit at
   * t = 0.00005 is ignored by the tree, which skips hits below
   * MIN_SHADOW_INTERSECT, but blocks the light in the linear scan, which
   * has no such bound.
   */
  lemma GrazingHitDisagrees(p: Prim)
    ensures ShadowFold([p], GrazingHit, 1.0, true, One) == One
    ensures ShadowFold([p], GrazingHit, 1.0, false, One) == Zero
  {
  }

  // ---------------------------------------------------------------- tree against scan

  /**
   * Every primitive the ray hits is hit at a parameter t >= 0 whose point
   * lies in the primitive's box, strictly between the box's faces on the
   * axes the ray runs parallel to.
   */
  ghost predicate HitsInsideBoxes(ps: seq<Prim>, hit: Tracer, origin: Vector3, direction: Vector3)
  {
    forall p :: p in ps && hit(p).Some? ==> 0.0 <= hit(p).value.t && HitInside(p.bounds, origin, direction, hit(p).value.t)
  }

  /** A node whose box the ray misses holds no primitive the ray hits. */
  lemma PrunedMisses(n: KDNode, reg: seq<seq<Prim>>, hit: Tracer, origin: Vector3, direction: Vector3)
    requires Valid(n, reg) && Covered(n, reg)
    requires HitsInsideBoxes(LeafOrder(n, reg), hit, origin, direction)
    requires !Intersects(n.bounds, origin, InverseDirection(direction))
    ensures forall p :: p in LeafOrder(n, reg) ==> hit(p).None?
  {
    forall p | p in LeafOrder(n, reg)
      ensures hit(p).None?
    {
      if hit(p).Some? {
        HitInsideGrows(n.bounds, p.bounds, origin, direction, hit(p).value.t);
        HitPointIntersects(n.bounds, origin, direction, hit(p).value.t);
      }
    }
  }

  /** The tree traversal computes what the scan of its leaves, left to right, computes. */
  lemma {:induction false} QueryMatchesScan(n: KDNode, reg: seq<seq<Prim>>, origin: Vector3, direction: Vector3, hit: Tracer, st: Closest)
    requires Valid(n, reg) && Covered(n, reg)
    requires HitsInsideBoxes(LeafOrder(n, reg), hit, origin, direction)
    ensures QueryNode(n, reg, origin, InverseDirection(direction), hit, st) == ScanClosest(LeafOrder(n, reg), hit, st)
  {
    var inv := InverseDirection(direction);
    if !Intersects(n.bounds, origin, inv) {
      PrunedMisses(n, reg, hit, origin, direction);
      ScanMisses(LeafOrder(n, reg), hit, st);
    } else if !IsLeaf(n) {
      var l, r := n.left.value, n.right.value;
      QueryMatchesScan(l, reg, origin, direction, hit, st);
      var (hl, s1) := QueryNode(l, reg, origin, inv, hit, st);
      QueryMatchesScan(r, reg, origin, direction, hit, s1);
      ScanAppend(LeafOrder(l, reg), LeafOrder(r, reg), hit, st);
    }
  }

  /** Likewise for the shadow factor. */
  lemma {:induction false} ShadowMatchesScan(n: KDNode, reg: seq<seq<Prim>>, origin: Vector3, direction: Vector3, hit: Tracer, maxDist: real, f: Vector3)
    requires Valid(n, reg) && Covered(n, reg)
    requires HitsInsideBoxes(LeafOrder(n, reg), hit, origin, direction)
    ensures ShadowNode(n, reg, origin, InverseDirection(direction), hit, maxDist, f) == ShadowFold(LeafOrder(n, reg), hit, maxDist, true, f)
  {
    var inv := InverseDirection(direction);
    if !Intersects(n.bounds, origin, inv) {
      PrunedMisses(n, reg, hit, origin, direction);
      ShadowMisses(LeafOrder(n, reg), hit, maxDist, true, f);
    } else if !IsLeaf(n) {
      var l, r := n.left.value, n.right.value;
      ShadowMatchesScan(l, reg, origin, direction, hit, maxDist, f);
      ShadowMatchesScan(r, reg, origin, direction, hit, maxDist, ShadowNode(l, reg, origin, inv, hit, maxDist, f));
      ShadowAppend(LeafOrder(l, reg), LeafOrder(r, reg), hit, maxDist, true, f);
    }
  }

  // ---------------------------------------------------------------- independence of order

  /** No two different primitives of `ps` are hit at the same distance. */
  ghost predicate DistinctHitTimes(ps: seq<Prim>, hit: Tracer)
  {
    forall p, q :: p in ps && q in ps && hit(p).Some? && hit(q).Some? && hit(p).value.t == hit(q).value.t ==> p == q
  }

  /** The scan's answer seen through membership only: a primitive with this hit attains the minimum. */
  lemma NearestInList(ps: seq<Prim>, hit: Tracer, st: Closest)
    ensures var (found, s) := ScanClosest(ps, hit, st);
      (found <==> exists p :: p in ps && hit(p).Some? && hit(p).value.t < st.tMax)
      && (!found ==> s == st)
      && (forall p :: p in ps && hit(p).Some? ==> s.tMax <= hit(p).value.t)
      && (found ==> exists p :: p in ps && hit(p) == Some(s.data) && s.hitObject == p.parent && s.tMax == s.data.t)
  {
    ScanCharacterised(ps, hit, st);
    var (found, s) := ScanClosest(ps, hit, st);
    if exists p :: p in ps && hit(p).Some? && hit(p).value.t < st.tMax {
      var p :| p in ps && hit(p).Some? && hit(p).value.t < st.tMax;
      var i :| 0 <= i < |ps| && ps[i] == p;
      assert HitBefore(ps, hit, i, st.tMax);
    }
    if found {
      var i :| 0 <= i < |ps| && hit(ps[i]) == Some(s.data) && s.hitObject == ps[i].parent && s.tMax == s.data.t
               && (forall j :: 0 <= j < i ==> hit(ps[j]).None? || hit(ps[j]).value.t > s.tMax);
      assert ps[i] in ps;
    }
    forall p | p in ps && hit(p).Some?
      ensures s.tMax <= hit(p).value.t
    {
      var i :| 0 <= i < |ps| && ps[i] == p;
    }
  }

  /**
   * Scanning the same primitives in another order finds a hit exactly when
   * the first order does, at the same distance; and when no two primitives
   * are hit at the same distance, it reports the same hit and object.
   */
  lemma ScanPermutation(a: seq<Prim>, b: seq<Prim>, hit: Tracer, st: Closest)
    requires multiset(a) == multiset(b)
    ensures ScanClosest(a, hit, st).0 == ScanClosest(b, hit, st).0
    ensures ScanClosest(a, hit, st).1.tMax == ScanClosest(b, hit, st).1.tMax
    ensures DistinctHitTimes(a, hit) ==> ScanClosest(a, hit, st) == ScanClosest(b, hit, st)
  {
    assert forall p :: p in a <==> p in b by {
      forall p
        ensures p in a <==> p in b
      {
        assert p in a <==> p in multiset(a);
        assert p in b <==> p in multiset(b);
      }
    }
    NearestInList(a, hit, st);
    NearestInList(b, hit, st);
  }

  // ---------------------------------------------------------------- the built tree against the scan

  /**
   * GetClosestIntersection of a tree built from `ps`: intersectsNode from
   * the root with invDirection. A tree of no primitives has no root (the
   * program would dereference NULL); it is given the answer "no hit" here.
   */
  function TreeClosest(ps: seq<Prim>, origin: Vector3, direction: Vector3, hit: Tracer, st: Closest): (bool, Closest)
  {
    if |ps| == 0 then (false, st)
    else
      BuildShape(ps, 0, []);
      var (root, reg) := Build(ps, 0, []);
      QueryNode(root.value, reg, origin, InverseDirection(direction), hit, st)
  }

  /** TraceShadowRay of a tree built from `ps`: traceShadowNode from the root; the factor is kept for no primitives. */
  function TreeShadow(ps: seq<Prim>, origin: Vector3, direction: Vector3, hit: Tracer, maxDist: real, f: Vector3): Vector3
  {
    if |ps| == 0 then f
    else
      BuildShape(ps, 0, []);
      var (root, reg) := Build(ps, 0, []);
      ShadowNode(root.value, reg, origin, InverseDirection(direction), hit, maxDist, f)
  }

  lemma ConservativeOnLeaves(ps: seq<Prim>, leaves: seq<Prim>, hit: Tracer, origin: Vector3, direction: Vector3)
    requires multiset(leaves) == multiset(ps)
    requires HitsInsideBoxes(ps, hit, origin, direction)
    ensures HitsInsideBoxes(leaves, hit, origin, direction)
  {
    forall p | p in leaves
      ensures p in ps
    {
      assert p in multiset(leaves);
    }
  }

  /**
   * For a tree built from `ps`, whenever every primitive hit lies in its own
   * box (strictly inside on the axes the ray runs parallel to), the
   * traversal reports a hit exactly when some primitive of `ps` is hit
   * nearer than the initial tMax, at the distance the linear scan of `ps`
   * finds, and (without ties in distance) the very same hit and object.
   */
  lemma TreeMatchesScan(ps: seq<Prim>, origin: Vector3, direction: Vector3, hit: Tracer, st: Closest)
    requires HitsInsideBoxes(ps, hit, origin, direction)
    ensures var tree := TreeClosest(ps, origin, direction, hit, st);
      var scan := ScanClosest(ps, hit, st);
      tree.0 == scan.0 && tree.1.tMax == scan.1.tMax
      && (tree.0 ==> tree.1.data.t == tree.1.tMax)
      && (DistinctHitTimes(ps, hit) ==> tree == scan)
  {
    if |ps| > 0 {
      var (root, reg) := Build(ps, 0, []);
      BuildShape(ps, 0, []);
      var leaves := LeafOrder(root.value, reg);
      ConservativeOnLeaves(ps, leaves, hit, origin, direction);
      QueryMatchesScan(root.value, reg, origin, direction, hit, st);
      ScanPermutation(ps, leaves, hit, st);
      NearestInList(leaves, hit, st);
    }
  }

  /**
   * For a tree built from `ps`, under the same condition, the shadow factor
   * the traversal computes is that of filtering through every primitive of
   * `ps` that occludes at a distance of at least MIN_SHADOW_INTERSECT.
   */
  lemma TreeShadowMatchesScan(ps: seq<Prim>, origin: Vector3, direction: Vector3, hit: Tracer, maxDist: real, f: Vector3)
    requires HitsInsideBoxes(ps, hit, origin, direction)
    ensures TreeShadow(ps, origin, direction, hit, maxDist, f) == ShadowFold(ps, hit, maxDist, true, f)
  {
    if |ps| > 0 {
      var (root, reg) := Build(ps, 0, []);
      BuildShape(ps, 0, []);
      var leaves := LeafOrder(root.value, reg);
      ConservativeOnLeaves(ps, leaves, hit, origin, direction);
      ShadowMatchesScan(root.value, reg, origin, direction, hit, maxDist, f);
      ShadowPermutation(leaves, ps, hit, maxDist, true, f);
    }
  }
}
