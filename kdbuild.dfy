// The KD-tree builder, as specification functions.
//
// A primitive is seen by the tree only through an id (its pointer), its
// midpoint, its bounding box and its parent object. `Build` is the recursion
// of `makeNode`: it returns the node it creates and the registry
// `nodePrimitives` after every node it creates has pushed its primitive list.
module KDBuild {
  import opened Floats
  import opened Vectors
  import opened Bounds
  import opened Optional

  /** STOP_PERCENT: a node stops dividing once this share of its primitives is on both sides. */
  const STOP_PERCENT: real := 0.6

  datatype Prim = Prim(id: nat, midpoint: Vector3, bounds: BoundingBox, parent: nat)

  /** A tree node: NULL children are `None`; a node is a leaf exactly when both are. */
  datatype KDNode = KDNode(left: Option<KDNode>, right: Option<KDNode>, bounds: BoundingBox, primitivesIndex: nat)

  predicate IsLeaf(n: KDNode)
  {
    n.left.None? && n.right.None?
  }

  /** The KDNode constructor: both children NULL. */
  function NewNode(bounds: BoundingBox, primitivesIndex: nat): (n: KDNode)
    ensures IsLeaf(n) && n.bounds == bounds && n.primitivesIndex == primitivesIndex
  {
    KDNode(None, None, bounds, primitivesIndex)
  }

  function Along(p: Prim, axis: int): real
  {
    Get(p.midpoint, axis)
  }

  /** Sum of the midpoints' coordinates on `axis`, accumulated front to back. */
  function SumAlong(ps: seq<Prim>, axis: int): real
  {
    if |ps| == 0 then 0.0 else SumAlong(ps[..|ps| - 1], axis) + Along(ps[|ps| - 1], axis)
  }

  function Mean(ps: seq<Prim>, axis: int): real
    requires |ps| > 0
  {
    SumAlong(ps, axis) / (|ps| as real)
  }

  /** The primitives whose midpoint lies below `mid` on `axis`, in input order. */
  function SplitLeft(ps: seq<Prim>, axis: int, mid: real): (l: seq<Prim>)
    ensures forall p :: p in l ==> p in ps && Along(p, axis) < mid
  {
    if |ps| == 0 then []
    else if Along(ps[|ps| - 1], axis) >= mid then SplitLeft(ps[..|ps| - 1], axis, mid)
    else SplitLeft(ps[..|ps| - 1], axis, mid) + [ps[|ps| - 1]]
  }

  /** The primitives whose midpoint lies at or above `mid` on `axis`, in input order. */
  function SplitRight(ps: seq<Prim>, axis: int, mid: real): (r: seq<Prim>)
    ensures forall p :: p in r ==> p in ps && Along(p, axis) >= mid
  {
    if |ps| == 0 then []
    else if Along(ps[|ps| - 1], axis) >= mid then SplitRight(ps[..|ps| - 1], axis, mid) + [ps[|ps| - 1]]
    else SplitRight(ps[..|ps| - 1], axis, mid)
  }

  /** How many entries of `r` are the same primitive (pointer) as `p`. */
  function Matches(p: Prim, r: seq<Prim>): nat
  {
    if |r| == 0 then 0
    else Matches(p, r[..|r| - 1]) + (if p.id == r[|r| - 1].id then 1 else 0)
  }

  /** sharedCount: the number of pairs (i, j) with left[i] and right[j] the same primitive. */
  function SharedCount(l: seq<Prim>, r: seq<Prim>): nat
  {
    if |l| == 0 then 0 else SharedCount(l[..|l| - 1], r) + Matches(l[|l| - 1], r)
  }

  /** The bounds of a non-empty list: the first primitive's box expanded by each of the others in turn. */
  function BoundsOf(ps: seq<Prim>): BoundingBox
    requires |ps| > 0
  {
    if |ps| == 1 then ps[0].bounds else Expand(BoundsOf(ps[..|ps| - 1]), ps[|ps| - 1].bounds)
  }

  /** The split applied at one node: the two sides after the trivial-split fix, and whether to recurse. */
  datatype Split = Split(left: seq<Prim>, right: seq<Prim>, shared: nat, divide: bool)

  function SplitAt(ps: seq<Prim>, depth: nat): Split
    requires |ps| > 1
  {
    var axis := depth % 3;
    var mid := Mean(ps, axis);
    var l0 := SplitLeft(ps, axis, mid);
    var r0 := SplitRight(ps, axis, mid);
    var l := if |l0| == 0 then r0 else l0;
    var r := if |r0| == 0 then l else r0;
    var shared := SharedCount(l, r);
    Split(l, r, shared, (shared as real) < STOP_PERCENT * (|l| as real) && (shared as real) < STOP_PERCENT * (|r| as real))
  }

  /**
   * makeNode(primitives, depth) with the registry `reg` before the call: the node
   * built (None for an empty list) and the registry after the call.
   */
  function Build(ps: seq<Prim>, depth: nat, reg: seq<seq<Prim>>): (r: (Option<KDNode>, seq<seq<Prim>>))
    ensures r.0.Some? <==> |ps| > 0
    ensures reg <= r.1
    ensures r.0.Some? ==> r.0.value.primitivesIndex == |reg| && |reg| < |r.1| && r.1[|reg|] == ps
    decreases |ps|
  {
    if |ps| == 0 then (None, reg)
    else
      var reg1 := reg + [ps];
      var idx := |reg1| - 1;
      if |ps| == 1 then (Some(KDNode(None, None, BoundsOf(ps), idx)), reg1)
      else
        var s := SplitAt(ps, depth);
        if s.divide then
          SplitShrinks(ps, depth);
          var (ln, reg2) := Build(s.left, depth + 1, reg1);
          var (rn, reg3) := Build(s.right, depth + 1, reg2);
          (Some(KDNode(ln, rn, Expand(ln.value.bounds, rn.value.bounds), idx)), reg3)
        else
          (Some(KDNode(None, None, BoundsOf(ps), idx)), reg1)
  }

  /** makeNode on one primitive: a childless leaf with that primitive's box, registered as the next entry. */
  lemma BuildSingleton(p: Prim, depth: nat, reg: seq<seq<Prim>>)
    ensures Build([p], depth, reg) == (Some(NewNode(p.bounds, |reg|)), reg + [[p]])
  {
  }

  // ---------------------------------------------------------------- the split

  lemma {:induction false} SplitSizes(ps: seq<Prim>, axis: int, mid: real)
    ensures |SplitLeft(ps, axis, mid)| + |SplitRight(ps, axis, mid)| == |ps|
    ensures multiset(SplitLeft(ps, axis, mid)) + multiset(SplitRight(ps, axis, mid)) == multiset(ps)
  {
    if |ps| > 0 {
      var init, last := ps[..|ps| - 1], ps[|ps| - 1];
      SplitSizes(init, axis, mid);
      assert ps == init + [last];
      assert multiset(ps) == multiset(init) + multiset{last};
      var l, r := SplitLeft(init, axis, mid), SplitRight(init, axis, mid);
      if Along(last, axis) >= mid {
        assert SplitRight(ps, axis, mid) == r + [last];
        assert multiset(r + [last]) == multiset(r) + multiset{last};
      } else {
        assert SplitLeft(ps, axis, mid) == l + [last];
        assert multiset(l + [last]) == multiset(l) + multiset{last};
      }
    }
  }

  /** With nothing below `mid`, the right side is the whole list, in order. */
  lemma {:induction false} EmptyLeftKeepsAll(ps: seq<Prim>, axis: int, mid: real)
    requires |SplitLeft(ps, axis, mid)| == 0
    ensures SplitRight(ps, axis, mid) == ps
  {
    SplitSizes(ps, axis, mid);
    if |ps| > 0 {
      var init := ps[..|ps| - 1];
      SplitSizes(init, axis, mid);
      EmptyLeftKeepsAll(init, axis, mid);
      assert ps == init + [ps[|ps| - 1]];
    }
  }

  /** With nothing at or above `mid`, the left side is the whole list, in order. */
  lemma {:induction false} EmptyRightKeepsAll(ps: seq<Prim>, axis: int, mid: real)
    requires |SplitRight(ps, axis, mid)| == 0
    ensures SplitLeft(ps, axis, mid) == ps
  {
    SplitSizes(ps, axis, mid);
    if |ps| > 0 {
      var init := ps[..|ps| - 1];
      SplitSizes(init, axis, mid);
      EmptyRightKeepsAll(init, axis, mid);
      assert ps == init + [ps[|ps| - 1]];
    }
  }

  lemma {:induction false} MatchesItself(p: Prim, r: seq<Prim>)
    requires p in r
    ensures Matches(p, r) >= 1
  {
    var init := r[..|r| - 1];
    if p != r[|r| - 1] {
      assert p in init by {
        assert r == init + [r[|r| - 1]];
      }
      MatchesItself(p, init);
    }
  }

  /** A list shares at least its own length with itself: every entry matches its own occurrence. */
  lemma {:induction false} SharedWithItself(l: seq<Prim>, r: seq<Prim>)
    requires forall p :: p in l ==> p in r
    ensures SharedCount(l, r) >= |l|
  {
    if |l| > 0 {
      var init := l[..|l| - 1];
      assert forall p :: p in init ==> p in l;
      SharedWithItself(init, r);
      MatchesItself(l[|l| - 1], r);
    }
  }

  /**
   * Whenever the builder divides, both sides are strictly shorter than the
   * input: a split that put everything on one side makes both sides the whole
   * list, and then the shared count (at least the list's length) stops the
   * division. Hence `Build` terminates.
   */
  lemma SplitShrinks(ps: seq<Prim>, depth: nat)
    requires |ps| > 1 && SplitAt(ps, depth).divide
    ensures |SplitAt(ps, depth).left| < |ps| && |SplitAt(ps, depth).right| < |ps|
    ensures multiset(SplitAt(ps, depth).left) + multiset(SplitAt(ps, depth).right) == multiset(ps)
  {
    var axis := depth % 3;
    var mid := Mean(ps, axis);
    var l0 := SplitLeft(ps, axis, mid);
    var r0 := SplitRight(ps, axis, mid);
    SplitSizes(ps, axis, mid);
    if |l0| == 0 {
      EmptyLeftKeepsAll(ps, axis, mid);
      SharedWithItself(ps, ps);
      assert false;
    } else if |r0| == 0 {
      EmptyRightKeepsAll(ps, axis, mid);
      SharedWithItself(ps, ps);
      assert false;
    }
  }

  /** When every midpoint falls on one side, both sides are the whole set and the node becomes a leaf. */
  lemma DegenerateSplitStops(ps: seq<Prim>, depth: nat)
    requires |ps| > 1
    requires |SplitLeft(ps, depth % 3, Mean(ps, depth % 3))| == 0 || |SplitRight(ps, depth % 3, Mean(ps, depth % 3))| == 0
    ensures SplitAt(ps, depth).left == ps && SplitAt(ps, depth).right == ps
    ensures SplitAt(ps, depth).shared >= |ps|
    ensures !SplitAt(ps, depth).divide
  {
    var axis := depth % 3;
    var mid := Mean(ps, axis);
    SplitSizes(ps, axis, mid);
    if |SplitLeft(ps, axis, mid)| == 0 {
      EmptyLeftKeepsAll(ps, axis, mid);
    } else {
      EmptyRightKeepsAll(ps, axis, mid);
    }
    SharedWithItself(ps, ps);
  }

  // ---------------------------------------------------------------- bounds of a list

  /** BoundsOf(ps) covers the box of every primitive of `ps`, and is well-formed when they all are. */
  lemma {:induction false} BoundsOfCovers(ps: seq<Prim>)
    requires |ps| > 0
    ensures forall p :: p in ps ==> Contains(BoundsOf(ps), p.bounds)
    ensures (forall p :: p in ps ==> WellFormed(p.bounds)) ==> WellFormed(BoundsOf(ps))
  {
    ContainsReflexive(ps[0].bounds);
    if |ps| > 1 {
      var init := ps[..|ps| - 1];
      BoundsOfCovers(init);
      assert ps == init + [ps[|ps| - 1]];
      forall p | p in ps
        ensures Contains(BoundsOf(ps), p.bounds)
      {
        if p in init {
          ContainsTransitive(BoundsOf(ps), BoundsOf(init), p.bounds);
        }
      }
      if forall p :: p in ps ==> WellFormed(p.bounds) {
        ExpandWellFormed(BoundsOf(init), ps[|ps| - 1].bounds);
      }
    }
  }

  /** The least-box property of BoundsOf: any box covering every primitive of `ps` covers BoundsOf(ps). */
  lemma {:induction false} BoundsOfLeast(ps: seq<Prim>, c: BoundingBox)
    requires |ps| > 0
    requires forall p :: p in ps ==> Contains(c, p.bounds)
    ensures Contains(c, BoundsOf(ps))
  {
    if |ps| > 1 {
      var init := ps[..|ps| - 1];
      assert forall p :: p in init ==> p in ps;
      BoundsOfLeast(init, c);
      ExpandLeast(BoundsOf(init), ps[|ps| - 1].bounds, c);
    }
  }

  // ---------------------------------------------------------------- shape of a built tree

  /**
   * Every node's registry index is in range, and a node has either both
   * children or none.
   */
  predicate Valid(n: KDNode, reg: seq<seq<Prim>>)
  {
    n.primitivesIndex < |reg|
    && (n.left.Some? <==> n.right.Some?)
    && (n.left.Some? ==> Valid(n.left.value, reg) && Valid(n.right.value, reg))
  }

  /** The primitives of the leaves below `n`, left to right. */
  function LeafOrder(n: KDNode, reg: seq<seq<Prim>>): seq<Prim>
    requires Valid(n, reg)
  {
    if IsLeaf(n) then reg[n.primitivesIndex]
    else LeafOrder(n.left.value, reg) + LeafOrder(n.right.value, reg)
  }

  /** Every node's box covers the boxes of all primitives in the leaves below it. */
  predicate Covered(n: KDNode, reg: seq<seq<Prim>>)
    requires Valid(n, reg)
  {
    (forall p :: p in LeafOrder(n, reg) ==> Contains(n.bounds, p.bounds))
    && (!IsLeaf(n) ==> Covered(n.left.value, reg) && Covered(n.right.value, reg))
  }

  /** Number of nodes of the tree. */
  function NodeCount(n: KDNode): nat
  {
    1 + (if n.left.Some? then NodeCount(n.left.value) else 0)
      + (if n.right.Some? then NodeCount(n.right.value) else 0)
  }

  /** Validity, the leaf lists and coverage survive pushing further entries onto the registry. */
  lemma {:induction false} ExtendRegistry(n: KDNode, reg: seq<seq<Prim>>, reg': seq<seq<Prim>>)
    requires Valid(n, reg) && reg <= reg'
    ensures Valid(n, reg') && LeafOrder(n, reg') == LeafOrder(n, reg)
    ensures Covered(n, reg) ==> Covered(n, reg')
  {
    if !IsLeaf(n) {
      ExtendRegistry(n.left.value, reg, reg');
      ExtendRegistry(n.right.value, reg, reg');
    }
  }

  /**
   * A built tree is valid over the final registry; its leaves hold exactly the
   * input primitives (each as often as in the input, so each in exactly one
   * leaf); every node's box covers the primitives beneath it; and the registry
   * gained one entry per node.
   */
  lemma {:induction false} BuildShape(ps: seq<Prim>, depth: nat, reg: seq<seq<Prim>>)
    requires |ps| > 0
    ensures var (n, reg') := Build(ps, depth, reg);
      Valid(n.value, reg') && multiset(LeafOrder(n.value, reg')) == multiset(ps) && Covered(n.value, reg')
      && |reg'| == |reg| + NodeCount(n.value)
    decreases |ps|
  {
    var (n, reg') := Build(ps, depth, reg);
    var reg1 := reg + [ps];
    if |ps| == 1 {
      ContainsReflexive(ps[0].bounds);
    } else {
      var s := SplitAt(ps, depth);
      if s.divide {
        SplitShrinks(ps, depth);
        var (ln, reg2) := Build(s.left, depth + 1, reg1);
        var (rn, reg3) := Build(s.right, depth + 1, reg2);
        BuildShape(s.left, depth + 1, reg1);
        BuildShape(s.right, depth + 1, reg2);
        ExtendRegistry(ln.value, reg2, reg3);
        var node := n.value;
        assert node.left == ln && node.right == rn;
        assert LeafOrder(node, reg3) == LeafOrder(ln.value, reg3) + LeafOrder(rn.value, reg3);
        forall p | p in LeafOrder(node, reg3)
          ensures Contains(node.bounds, p.bounds)
        {
          if p in LeafOrder(ln.value, reg3) {
            ContainsTransitive(node.bounds, ln.value.bounds, p.bounds);
          } else {
            ContainsTransitive(node.bounds, rn.value.bounds, p.bounds);
          }
        }
      } else {
        BoundsOfCovers(ps);
      }
    }
  }

  /** A built node's box is the least box covering the input primitives. */
  lemma {:induction false} BuildBoundsLeast(ps: seq<Prim>, depth: nat, reg: seq<seq<Prim>>, c: BoundingBox)
    requires |ps| > 0
    requires forall p :: p in ps ==> Contains(c, p.bounds)
    ensures Contains(c, Build(ps, depth, reg).0.value.bounds)
    decreases |ps|
  {
    var reg1 := reg + [ps];
    if |ps| == 1 {
    } else {
      var s := SplitAt(ps, depth);
      if s.divide {
        SplitShrinks(ps, depth);
        var (ln, reg2) := Build(s.left, depth + 1, reg1);
        assert forall p :: p in s.left ==> p in multiset(ps);
        assert forall p :: p in s.right ==> p in multiset(ps);
        BuildBoundsLeast(s.left, depth + 1, reg1, c);
        BuildBoundsLeast(s.right, depth + 1, reg2, c);
        ExpandLeast(ln.value.bounds, Build(s.right, depth + 1, reg2).0.value.bounds, c);
      } else {
        BoundsOfLeast(ps, c);
      }
    }
  }
}
