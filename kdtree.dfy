// The KD-tree object: built once from the scene's primitives, then queried
// for the closest hit along a ray and for the light reaching a point.
//
// Nodes are values (a node's children are only assigned while it is being
// built), so `makeNode` returns the finished node; the registry
// `nodePrimitives` is a field that it grows in place.
module KDTrees {
  import opened Floats
  import opened Vectors
  import opened Bounds
  import opened Optional
  import opened Materials
  import opened KDBuild
  import opened KDQuery

  /** The bounds loop of makeNode: the first box, expanded by every later one. */
  method ListBounds(ps: seq<Prim>) returns (b: BoundingBox)
    requires |ps| > 0
    ensures b == BoundsOf(ps)
    ensures forall p :: p in ps ==> Contains(b, p.bounds)
  {
    b := ps[0].bounds;
    for i := 1 to |ps|
      invariant b == BoundsOf(ps[..i])
    {
      assert ps[..i + 1][..i] == ps[..i];
      b := Expand(b, ps[i].bounds);
    }
    assert ps[..|ps|] == ps;
    BoundsOfCovers(ps);
  }

  /** The midpoint loop of makeNode: the mean of the midpoints' coordinates on `axis`. */
  method MeanAlong(ps: seq<Prim>, axis: int) returns (mid: real)
    requires |ps| > 0
    ensures mid == Mean(ps, axis)
  {
    mid := 0.0;
    for i := 0 to |ps|
      invariant mid == SumAlong(ps[..i], axis)
    {
      assert ps[..i + 1][..i] == ps[..i];
      mid := mid + Get(ps[i].midpoint, axis);
    }
    assert ps[..|ps|] == ps;
    mid := mid / (|ps| as real);
  }

  /** The partition loop of makeNode: midpoints at or above `mid` go right, the others left, in order. */
  method Partition(ps: seq<Prim>, axis: int, mid: real) returns (left: seq<Prim>, right: seq<Prim>)
    ensures left == SplitLeft(ps, axis, mid) && right == SplitRight(ps, axis, mid)
    ensures multiset(left) + multiset(right) == multiset(ps)
  {
    left, right := [], [];
    for i := 0 to |ps|
      invariant left == SplitLeft(ps[..i], axis, mid)
      invariant right == SplitRight(ps[..i], axis, mid)
    {
      assert ps[..i + 1][..i] == ps[..i];
      if Get(ps[i].midpoint, axis) >= mid {
        right := right + [ps[i]];
      } else {
        left := left + [ps[i]];
      }
    }
    assert ps[..|ps|] == ps;
    SplitSizes(ps, axis, mid);
  }

  /** The nested sharedCount loops of makeNode: pairs of entries that are the same primitive. */
  method CountShared(left: seq<Prim>, right: seq<Prim>) returns (sharedCount: nat)
    ensures sharedCount == SharedCount(left, right)
    ensures left == right ==> sharedCount >= |left|
  {
    sharedCount := 0;
    for i := 0 to |left|
      invariant sharedCount == SharedCount(left[..i], right)
    {
      assert left[..i + 1][..i] == left[..i];
      for j := 0 to |right|
        invariant sharedCount == SharedCount(left[..i], right) + Matches(left[i], right[..j])
      {
        assert right[..j + 1][..j] == right[..j];
        if left[i].id == right[j].id {
          sharedCount := sharedCount + 1;
        }
      }
      assert right[..|right|] == right;
    }
    assert left[..|left|] == left;
    if left == right {
      SharedWithItself(left, right);
    }
  }

  class KDTree {
    /** The first node of the tree; None for a tree built from no primitives. */
    var root: Option<KDNode>
    /** The primitive list of every node, in creation order. */
    var nodePrimitives: seq<seq<Prim>>
    /** The primitives the tree was built from. */
    ghost var primitives: seq<Prim>

    /** The tree is the one `Build` makes from `primitives`. */
    ghost predicate Valid()
      reads this
    {
      (root, nodePrimitives) == Build(primitives, 0, [])
      && (root.Some? ==> KDBuild.Valid(root.value, nodePrimitives) && Covered(root.value, nodePrimitives)
                         && multiset(LeafOrder(root.value, nodePrimitives)) == multiset(primitives))
    }

    /** KDTree(primitives): build the whole tree from depth 0. */
    constructor(prims: seq<Prim>)
      ensures Valid() && primitives == prims
      ensures root.Some? <==> |prims| > 0
    {
      nodePrimitives := [];
      primitives := prims;
      new;
      root := MakeNode(prims, 0);
      if |prims| > 0 {
        BuildShape(prims, 0, []);
      }
    }

    /** makeNode(primitives, depth): the node for `ps`, pushing its list and those of its descendants. */
    method MakeNode(ps: seq<Prim>, depth: nat) returns (node: Option<KDNode>)
      modifies this
      ensures (node, nodePrimitives) == Build(ps, depth, old(nodePrimitives))
      ensures root == old(root) && primitives == old(primitives)
      decreases |ps|
    {
      if |ps| == 0 {
        return None;
      }
      nodePrimitives := nodePrimitives + [ps];
      var idx := |nodePrimitives| - 1;
      if |ps| == 1 {
        var b := ListBounds(ps);
        return Some(KDNode(None, None, b, idx));
      }

      var axis := depth % 3;
      var mid := MeanAlong(ps, axis);
      var left, right := Partition(ps, axis, mid);
      // was this split trivial?
      if |left| == 0 {
        left := right;
      }
      if |right| == 0 {
        right := left;
      }
      var sharedCount := CountShared(left, right);

      if (sharedCount as real) < STOP_PERCENT * (|left| as real) && (sharedCount as real) < STOP_PERCENT * (|right| as real) {
        SplitShrinks(ps, depth);
        var l := MakeNode(left, depth + 1);
        var r := MakeNode(right, depth + 1);
        return Some(KDNode(l, r, Expand(l.value.bounds, r.value.bounds), idx));
      } else {
        var b := ListBounds(ps);
        return Some(KDNode(None, None, b, idx));
      }
    }

    /** intersectsNode: update the closest hit with the primitives below `node`; true when one was updated. */
    method IntersectsNode(node: KDNode, origin: Vector3, inv: ExtVector3, hit: Tracer, st: Closest)
      returns (found: bool, out: Closest)
      requires KDBuild.Valid(node, nodePrimitives)
      ensures (found, out) == QueryNode(node, nodePrimitives, origin, inv, hit, st)
      decreases node
    {
      if Intersects(node.bounds, origin, inv) {
        if node.left.None? && node.right.None? {
          var prims := nodePrimitives[node.primitivesIndex];
          found, out := false, st;
          for i := 0 to |prims|
            invariant (found, out) == ScanClosest(prims[..i], hit, st)
          {
            assert prims[..i + 1][..i] == prims[..i];
            var h := hit(prims[i]);
            if h.Some? && h.value.t < out.tMax {
              out := Closest(h.value, prims[i].parent, h.value.t);
              found := true;
            }
          }
          assert prims[..|prims|] == prims;
          return;
        } else {
          var hitLeft, hitRight := false, false;
          out := st;
          if node.left.Some? {
            hitLeft, out := IntersectsNode(node.left.value, origin, inv, hit, out);
          }
          if node.right.Some? {
            hitRight, out := IntersectsNode(node.right.value, origin, inv, hit, out);
          }
          return hitLeft || hitRight, out;
        }
      }
      return false, st;
    }

    /** traceShadowNode: filter the shadow factor through the primitives below `node`. */
    method TraceShadowNode(node: KDNode, origin: Vector3, inv: ExtVector3, hit: Tracer, shadowFactor: Vector3, maxDist: real)
      returns (factor: Vector3)
      requires KDBuild.Valid(node, nodePrimitives)
      ensures factor == ShadowNode(node, nodePrimitives, origin, inv, hit, maxDist, shadowFactor)
      decreases node
    {
      factor := shadowFactor;
      if Intersects(node.bounds, origin, inv) {
        if node.left.None? && node.right.None? {
          var prims := nodePrimitives[node.primitivesIndex];
          for i := 0 to |prims|
            invariant factor == ShadowFold(prims[..i], hit, maxDist, true, shadowFactor)
          {
            assert prims[..i + 1][..i] == prims[..i];
            var h := hit(prims[i]);
            if h.Some? && h.value.t < maxDist && h.value.t >= MIN_SHADOW_INTERSECT {
              // a fully opaque hit blocks all light: stop with this leaf
              if h.value.material.ktran < FULLY_OPAQUE_THRESHOLD {
                factor := Zero;
                OpaqueBlocks(prims, i, hit, maxDist, true, shadowFactor);
                return;
              }
              var normFactor := MaxComponent(h.value.material.diffColor);
              var normalizedDiffuse := if normFactor > FLT_EPSILON then DivScalar(h.value.material.diffColor, normFactor) else One;
              factor := Mul(Scale(factor, h.value.material.ktran), normalizedDiffuse);
            }
          }
          assert prims[..|prims|] == prims;
        } else {
          if node.left.Some? {
            factor := TraceShadowNode(node.left.value, origin, inv, hit, factor, maxDist);
          }
          if node.right.Some? {
            factor := TraceShadowNode(node.right.value, origin, inv, hit, factor, maxDist);
          }
        }
      }
    }

    /**
     * GetClosestIntersection: the closest hit along the ray, starting from
     * tMax = FLT_MAX; hitData and hitObject are left as they were when nothing
     * is hit. When every primitive hit lies in its own box (strictly inside
     * on the axes the ray runs parallel to), the answer is that of scanning
     * all the primitives.
     */
    method GetClosestIntersection(origin: Vector3, direction: Vector3, hit: Tracer, hitData: HitData, hitObject: nat)
      returns (found: bool, hitData': HitData, hitObject': nat)
      requires Valid() && root.Some?
      ensures var q := QueryNode(root.value, nodePrimitives, origin, InverseDirection(direction), hit, Closest(hitData, hitObject, FLT_MAX));
        found == q.0 && hitData' == q.1.data && hitObject' == q.1.hitObject
      ensures var q := TreeClosest(primitives, origin, direction, hit, Closest(hitData, hitObject, FLT_MAX));
        found == q.0 && hitData' == q.1.data && hitObject' == q.1.hitObject
      ensures HitsInsideBoxes(primitives, hit, origin, direction) ==>
        var scan := ScanClosest(primitives, hit, Closest(hitData, hitObject, FLT_MAX));
        found == scan.0
        && (found ==> hitData'.t == scan.1.tMax)
        && (DistinctHitTimes(primitives, hit) ==> hitData' == scan.1.data && hitObject' == scan.1.hitObject)
    {
      var invDirection := InverseDirection(direction);
      var tMax := FLT_MAX;
      var out;
      found, out := IntersectsNode(root.value, origin, invDirection, hit, Closest(hitData, hitObject, tMax));
      hitData', hitObject' := out.data, out.hitObject;
      if HitsInsideBoxes(primitives, hit, origin, direction) {
        TreeMatchesScan(primitives, origin, direction, hit, Closest(hitData, hitObject, tMax));
      }
    }

    /**
     * TraceShadowRay: the shadow factor, starting from white. When every
     * primitive hit lies in its own box (strictly inside on the axes the ray
     * runs parallel to), it is the product over every occluding primitive at
     * distance at least MIN_SHADOW_INTERSECT, or zero if one of them is opaque.
     */
    method TraceShadowRay(origin: Vector3, direction: Vector3, hit: Tracer, maxDist: real)
      returns (shadowFactor: Vector3)
      requires Valid() && root.Some?
      ensures shadowFactor == ShadowNode(root.value, nodePrimitives, origin, InverseDirection(direction), hit, maxDist, One)
      ensures shadowFactor == TreeShadow(primitives, origin, direction, hit, maxDist, One)
      ensures HitsInsideBoxes(primitives, hit, origin, direction) ==>
        shadowFactor == ShadowFold(primitives, hit, maxDist, true, One)
    {
      var invDirection := InverseDirection(direction);
      shadowFactor := One;
      shadowFactor := TraceShadowNode(root.value, origin, invDirection, hit, shadowFactor, maxDist);
      if HitsInsideBoxes(primitives, hit, origin, direction) {
        TreeShadowMatchesScan(primitives, origin, direction, hit, maxDist, One);
      }
    }
  }
}
