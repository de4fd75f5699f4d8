// The scene: objects, primitives, materials and lights built from the scene
// description records, the KD-tree over the primitives, and the two ray
// queries (closest hit and shadow factor).
//
// Objects, primitives and materials are heap objects shared by pointer in
// C++. Here each kind lives in an arena (`objStore`, `primStore`,
// `materials`) and a pointer is an index into it; `objects` and
// `primitives` are the scene's vectors of such pointers. Deleting a
// primitive leaves its arena slot unused.
module Scenes {
  import opened Floats
  import opened Vectors
  import opened Bounds
  import opened Optional
  import opened Materials
  import opened Lights
  import opened Primitives
  import opened Shaders
  import opened SceneRecords
  import opened KDBuild
  import opened KDQuery
  import opened KDTrees

  /** An object: a solid for refraction purposes, owning primitives, with optional shaders. */
  datatype SceneObject = SceneObject(indexOfRefraction: real, primitives: seq<nat>,
                                     colorShader: Option<ColorShader>, intersectionShader: Option<IntersectionShader>)

  /** Object(): index of refraction 1.5, no shaders, no primitives. */
  function NewObject(): (o: SceneObject)
    ensures o.indexOfRefraction == 1.5 && o.colorShader.None? && o.intersectionShader.None? && o.primitives == []
  {
    SceneObject(1.5, [], None, None)
  }

  predicate NoDup<T(==)>(s: seq<T>)
  {
    forall i, j :: 0 <= i < j < |s| ==> s[i] != s[j]
  }

  /** start, start + 1, ..., start + n - 1. */
  function Range(start: nat, n: nat): (r: seq<nat>)
    ensures |r| == n && forall k :: 0 <= k < n ==> r[k] == start + k
  {
    seq(n, k requires 0 <= k < n => start + k)
  }

  // ---------------------------------------------------------------- materials and lights

  /** makeMaterial: the six colour and scalar fields of the record, and no BSSRDF. */
  function MakeMaterial(io: MaterialIO): (m: Material)
    ensures m.diffColor == io.diffColor && m.ambColor == io.ambColor && m.specColor == io.specColor
    ensures m.emissColor == io.emissColor && m.shininess == io.shininess && m.ktran == io.ktran
    ensures m.bssrdf.None?
  {
    Material(io.diffColor, io.ambColor, io.specColor, io.emissColor, io.shininess, io.ktran, None)
  }

  function MaterialsOf(ms: seq<MaterialIO>): (r: seq<Material>)
    ensures |r| == |ms| && forall i :: 0 <= i < |ms| ==> r[i] == MakeMaterial(ms[i])
  {
    seq(|ms|, i requires 0 <= i < |ms| => MakeMaterial(ms[i]))
  }

  /** A valid material record gives a material whose colours and scalars are in [0, 1]. */
  lemma MakeMaterialInRange(io: MaterialIO)
    requires ValidMaterial(io)
    ensures UnitColor(MakeMaterial(io).diffColor) && UnitColor(MakeMaterial(io).specColor)
    ensures UnitInterval(MakeMaterial(io).ktran) && UnitInterval(MakeMaterial(io).shininess)
  {
  }

  /** The light a record creates: point and directional lights with the record's colour; a spot light creates none. */
  function LightOf(l: LightIO): (r: Option<Light>)
    ensures r.Some? <==> l.kind != SpotLightType
    ensures r.Some? ==> r.value.color == l.color
    ensures l.kind == PointLightType ==> r == Some(PointLight(l.color, l.position))
    ensures l.kind == DirectionalLightType ==> r == Some(DirectionalLight(l.color, l.direction))
  {
    match l.kind
    case PointLightType => Some(PointLight(l.color, l.position))
    case DirectionalLightType => Some(DirectionalLight(l.color, l.direction))
    case SpotLightType => None
  }

  function OptionToSeq<T>(o: Option<T>): seq<T>
  {
    if o.Some? then [o.value] else []
  }

  /** The lights loadLights creates from a list of records, in list order. */
  function LightsOf(ls: seq<LightIO>): seq<Light>
  {
    if |ls| == 0 then [] else LightsOf(ls[..|ls| - 1]) + OptionToSeq(LightOf(ls[|ls| - 1]))
  }

  /** The number of point and directional records. */
  function CountSupported(ls: seq<LightIO>): nat
  {
    if |ls| == 0 then 0 else CountSupported(ls[..|ls| - 1]) + (if ls[|ls| - 1].kind == SpotLightType then 0 else 1)
  }

  /** Loading the lights of two lists one after the other gives the lights of each, in order. */
  lemma {:induction false} LightsOfAppend(a: seq<LightIO>, b: seq<LightIO>)
    ensures LightsOf(a + b) == LightsOf(a) + LightsOf(b)
    decreases |b|
  {
    if |b| == 0 {
      assert a + b == a;
    } else {
      assert (a + b)[..|a + b| - 1] == a + b[..|b| - 1];
      LightsOfAppend(a, b[..|b| - 1]);
    }
  }

  /** One light per point or directional record, each carrying that record's colour. */
  lemma {:induction false} LightsOfCount(ls: seq<LightIO>)
    ensures |LightsOf(ls)| == CountSupported(ls)
    ensures forall i :: 0 <= i < |LightsOf(ls)| ==> exists j :: 0 <= j < |ls| && LightOf(ls[j]) == Some(LightsOf(ls)[i])
  {
    if |ls| > 0 {
      var init := ls[..|ls| - 1];
      LightsOfCount(init);
      forall i | 0 <= i < |LightsOf(ls)|
        ensures exists j :: 0 <= j < |ls| && LightOf(ls[j]) == Some(LightsOf(ls)[i])
      {
        if i < |LightsOf(init)| {
          var j :| 0 <= j < |init| && LightOf(init[j]) == Some(LightsOf(init)[i]);
          assert ls[j] == init[j];
        } else {
          assert LightOf(ls[|ls| - 1]) == Some(LightsOf(ls)[i]);
        }
      }
    }
  }

  // ---------------------------------------------------------------- the arena

  datatype Arena = Arena(objStore: seq<SceneObject>, objects: seq<nat>, primStore: seq<Primitive>,
                         primitives: seq<nat>, materials: seq<Material>)

  const EmptyArena := Arena([], [], [], [], [])

  /** Every pointer of the list is below n. */
  predicate Below(ids: seq<nat>, n: nat)
  {
    forall i :: 0 <= i < |ids| ==> ids[i] < n
  }

  /**
   * Pointers stay inside their arenas; every primitive's materials exist;
   * no pointer is listed twice; a listed primitive is listed by the listed
   * object its parent pointer names, and each listed object's primitives
   * are listed and name it as their parent.
   */
  ghost predicate ArenaValid(a: Arena)
  {
    (forall k :: 0 <= k < |a.primStore| ==> MaterialsIn(a.primStore[k], |a.materials|) && a.primStore[k].parent < |a.objStore|)
    && Below(a.objects, |a.objStore|) && Below(a.primitives, |a.primStore|)
    && NoDup(a.objects) && NoDup(a.primitives)
    && (forall i :: 0 <= i < |a.primitives| ==>
          a.primStore[a.primitives[i]].parent in a.objects
          && a.primitives[i] in a.objStore[a.primStore[a.primitives[i]].parent].primitives)
    && (forall i :: 0 <= i < |a.objects| ==> Owned(a, a.objects[i]))
  }

  /** The primitives object o lists: distinct, inside the store, listed by the scene, and naming o as parent. */
  ghost predicate Owned(a: Arena, o: nat)
    requires o < |a.objStore|
  {
    var ops := a.objStore[o].primitives;
    NoDup(ops) && Below(ops, |a.primStore|)
    && forall j :: 0 <= j < |ops| ==> ops[j] in a.primitives && a.primStore[ops[j]].parent == o
  }

  /** What loading a record reads: a sphere's first material; a mesh's first three vertices and the materials they name. */
  predicate Loadable(o: ObjIO)
  {
    match o.data
    case SphereData(_) => 1 <= |o.material|
    case PolySetData(ps) => ps.kind == TriMesh ==> MeshLoadable(ps, |o.material|)
  }

  /** A triangle mesh whose polygons have three vertices and whose material references exist. */
  predicate MeshLoadable(ps: PolySetIO, numMaterials: nat)
  {
    (forall i :: 0 <= i < |ps.poly| ==> 3 <= |ps.poly[i].vert|)
    && (ps.materialBinding == PerVertexMaterial ==>
          forall i, j :: 0 <= i < |ps.poly| && 0 <= j < 3 && j < |ps.poly[i].vert| ==> 0 <= ps.poly[i].vert[j].materialIndex < numMaterials)
    && (ps.materialBinding == PerObjectMaterial && 0 < |ps.poly| ==> 1 <= numMaterials)
  }

  /** A well-formed record with at least one material can be loaded. */
  lemma ValidObjectLoadable(o: ObjIO)
    requires ValidObject(o) && 1 <= |o.material|
    ensures Loadable(o)
  {
  }

  /** The sphere loadSphere creates: the record's centre and radius, its parent, and material `material`. */
  function SphereFor(o: ObjIO, parent: nat, material: nat): Primitive
    requires o.data.SphereData?
  {
    Sphere(parent, material, o.data.sphere.origin, o.data.sphere.radius)
  }

  /** The normals of polygon i: the normalised vertex normals, or the negated normalised face normal. */
  function NormalsFor(m: Math, ps: PolySetIO, i: int): Triple<Vector3>
    requires 0 <= i < |ps.poly| && 3 <= |ps.poly[i].vert|
  {
    var vs := ps.poly[i].vert;
    if ps.normType == PerVertexNormal then
      Triple(Normalize(m, vs[0].norm), Normalize(m, vs[1].norm), Normalize(m, vs[2].norm))
    else
      var face := Neg(Normalize(m, Cross(Sub(vs[2].pos, vs[0].pos), Sub(vs[1].pos, vs[0].pos))));
      Triple(face, face, face)
  }

  /** The material pointers of polygon i, where the object's materials start at `base`. */
  function MaterialsFor(ps: PolySetIO, i: int, base: nat, numMaterials: nat): Triple<nat>
    requires 0 <= i < |ps.poly| && MeshLoadable(ps, numMaterials)
  {
    var vs := ps.poly[i].vert;
    if ps.materialBinding == PerVertexMaterial then
      Triple(base + vs[0].materialIndex, base + vs[1].materialIndex, base + vs[2].materialIndex)
    else Triple(base, base, base)
  }

  /** The texture coordinates of the i-th triangle: the two halves of a unit quad, alternating. */
  function TexFor(i: int): Triple<Vector3>
  {
    if i % 2 == 0 then Triple(FromXY(0.0, 0.0), FromXY(1.0, 0.0), FromXY(1.0, 1.0))
    else Triple(FromXY(0.0, 0.0), FromXY(1.0, 1.0), FromXY(0.0, 1.0))
  }

  /** The triangle loadPolyset creates for polygon i. */
  function TriangleFor(m: Math, ps: PolySetIO, i: int, parent: nat, base: nat, numMaterials: nat): Primitive
    requires 0 <= i < |ps.poly| && MeshLoadable(ps, numMaterials)
  {
    var vs := ps.poly[i].vert;
    Triangle(parent, Triple(vs[0].pos, vs[1].pos, vs[2].pos), NormalsFor(m, ps, i), MaterialsFor(ps, i, base, numMaterials), TexFor(i))
  }

  function TrianglesFor(m: Math, ps: PolySetIO, parent: nat, base: nat, numMaterials: nat): (r: seq<Primitive>)
    requires MeshLoadable(ps, numMaterials)
    ensures |r| == |ps.poly| && forall i :: 0 <= i < |r| ==> r[i] == TriangleFor(m, ps, i, parent, base, numMaterials)
  {
    seq(|ps.poly|, i requires 0 <= i < |ps.poly| => TriangleFor(m, ps, i, parent, base, numMaterials))
  }

  /**
   * Triangle i of a mesh: the first three vertex positions in slot order,
   * its parent, per-vertex materials indexed by the vertices' material
   * indices (or the object's first material in all three slots), and the
   * texture pattern (0,0),(1,0),(1,1) at even positions and
   * (0,0),(1,1),(0,1) at odd ones.
   */
  lemma LoadedTriangle(m: Math, ps: PolySetIO, i: int, parent: nat, base: nat, numMaterials: nat)
    requires 0 <= i < |ps.poly| && MeshLoadable(ps, numMaterials)
    ensures var t := TriangleFor(m, ps, i, parent, base, numMaterials);
      t.Triangle? && t.parent == parent
      && t.v == Triple(ps.poly[i].vert[0].pos, ps.poly[i].vert[1].pos, ps.poly[i].vert[2].pos)
      && (ps.materialBinding == PerVertexMaterial ==>
            forall k :: 0 <= k < 3 ==> At(t.m, k) == base + ps.poly[i].vert[k].materialIndex)
      && (ps.materialBinding == PerObjectMaterial ==> t.m == Triple(base, base, base))
      && (i % 2 == 0 ==> t.tex == Triple(Vector3(0.0, 0.0, 0.0), Vector3(1.0, 0.0, 0.0), Vector3(1.0, 1.0, 0.0)))
      && (i % 2 == 1 ==> t.tex == Triple(Vector3(0.0, 0.0, 0.0), Vector3(1.0, 1.0, 0.0), Vector3(0.0, 1.0, 0.0)))
      && MaterialsIn(t, base + numMaterials)
  {
  }

  /** loadSphere: one sphere, listed by its object and by the scene, and one material. */
  function AddSphere(a: Arena, o: ObjIO, parent: nat): Arena
    requires o.data.SphereData? && 1 <= |o.material| && parent < |a.objStore|
  {
    var id := |a.primStore|;
    var obj := a.objStore[parent];
    a.(primStore := a.primStore + [SphereFor(o, parent, |a.materials|)],
       objStore := a.objStore[parent := obj.(primitives := obj.primitives + [id])],
       primitives := a.primitives + [id],
       materials := a.materials + [MakeMaterial(o.material[0])])
  }

  /** loadPolyset: the object's materials, then one triangle per polygon of a triangle mesh (none for other kinds). */
  function AddPolyset(m: Math, a: Arena, o: ObjIO, parent: nat): Arena
    requires o.data.PolySetData? && Loadable(o) && parent < |a.objStore|
  {
    var ps := o.data.polyset;
    var base := |a.materials|;
    var a1 := a.(materials := a.materials + MaterialsOf(o.material));
    if ps.kind != TriMesh then a1
    else
      var ids := Range(|a.primStore|, |ps.poly|);
      var obj := a1.objStore[parent];
      a1.(primStore := a1.primStore + TrianglesFor(m, ps, parent, base, |o.material|),
          primitives := a1.primitives + ids,
          objStore := a1.objStore[parent := obj.(primitives := obj.primitives + ids)])
  }

  /** One iteration of loadObjects: a new object, its geometry, and the object listed. */
  function AddObject(m: Math, a: Arena, o: ObjIO): Arena
    requires Loadable(o)
  {
    var id := |a.objStore|;
    var a1 := a.(objStore := a.objStore + [NewObject()]);
    var a2 := if o.data.SphereData? then AddSphere(a1, o, id) else AddPolyset(m, a1, o, id);
    a2.(objects := a2.objects + [id])
  }

  function AddObjects(m: Math, a: Arena, objs: seq<ObjIO>): Arena
    requires forall i :: 0 <= i < |objs| ==> Loadable(objs[i])
  {
    if |objs| == 0 then a else AddObject(m, AddObjects(m, a, objs[..|objs| - 1]), objs[|objs| - 1])
  }

  /** The number of primitives a record creates. */
  function PrimitiveCount(o: ObjIO): nat
  {
    match o.data
    case SphereData(_) => 1
    case PolySetData(ps) => if ps.kind == TriMesh then |ps.poly| else 0
  }

  /** The primitives a record creates when its object gets pointer `parent` and its materials start at `base`. */
  function NewPrimitives(m: Math, o: ObjIO, parent: nat, base: nat): (r: seq<Primitive>)
    requires Loadable(o)
    ensures |r| == PrimitiveCount(o)
  {
    match o.data
    case SphereData(_) => [SphereFor(o, parent, base)]
    case PolySetData(ps) => if ps.kind == TriMesh then TrianglesFor(m, ps, parent, base, |o.material|) else []
  }

  /** The materials a record creates: the first one for a sphere, all of them for a polygon set. */
  function NewMaterials(o: ObjIO): seq<Material>
    requires Loadable(o)
  {
    if o.data.SphereData? then [MakeMaterial(o.material[0])] else MaterialsOf(o.material)
  }

  /**
   * Loading a record appends one object that lists the new primitives, the
   * new primitives (named by consecutive fresh pointers) and the new
   * materials, and lists the object last; nothing already there changes.
   */
  lemma AddObjectAppends(m: Math, a: Arena, o: ObjIO)
    requires Loadable(o)
    ensures var ids := Range(|a.primStore|, PrimitiveCount(o));
      AddObject(m, a, o) == Arena(a.objStore + [NewObject().(primitives := ids)], a.objects + [|a.objStore|],
                                  a.primStore + NewPrimitives(m, o, |a.objStore|, |a.materials|), a.primitives + ids,
                                  a.materials + NewMaterials(o))
  {
    var id := |a.objStore|;
    if o.data.SphereData? {
      assert NewObject().primitives + [|a.primStore|] == Range(|a.primStore|, 1);
    } else if o.data.polyset.kind == TriMesh {
      assert NewObject().primitives + Range(|a.primStore|, PrimitiveCount(o)) == Range(|a.primStore|, PrimitiveCount(o));
    } else {
      assert Range(|a.primStore|, 0) == [];
      assert NewObject().(primitives := []) == NewObject();
    }
  }

  /** The primitives a record creates name its object as parent and point at existing materials. */
  lemma NewPrimitivesWellFormed(m: Math, o: ObjIO, parent: nat, base: nat)
    requires Loadable(o)
    ensures var ps := NewPrimitives(m, o, parent, base);
      forall k :: 0 <= k < |ps| ==> ps[k].parent == parent && MaterialsIn(ps[k], base + |NewMaterials(o)|)
  {
    if o.data.PolySetData? && o.data.polyset.kind == TriMesh {
      forall k | 0 <= k < |o.data.polyset.poly|
        ensures TriangleFor(m, o.data.polyset, k, parent, base, |o.material|).parent == parent
        ensures MaterialsIn(TriangleFor(m, o.data.polyset, k, parent, base, |o.material|), base + |o.material|)
      {
        LoadedTriangle(m, o.data.polyset, k, parent, base, |o.material|);
      }
    }
  }

  lemma RangeNoDup(start: nat, n: nat)
    ensures NoDup(Range(start, n))
  {
  }

  /** Appending an object with fresh primitives that name it as parent keeps the arena valid. */
  lemma AppendObjectValid(a: Arena, ps: seq<Primitive>, mats: seq<Material>)
    requires ArenaValid(a)
    requires forall k :: 0 <= k < |ps| ==> ps[k].parent == |a.objStore| && MaterialsIn(ps[k], |a.materials| + |mats|)
    ensures var ids := Range(|a.primStore|, |ps|);
      ArenaValid(Arena(a.objStore + [NewObject().(primitives := ids)], a.objects + [|a.objStore|],
                       a.primStore + ps, a.primitives + ids, a.materials + mats))
  {
    var id := |a.objStore|;
    var ids := Range(|a.primStore|, |ps|);
    var r := Arena(a.objStore + [NewObject().(primitives := ids)], a.objects + [id], a.primStore + ps, a.primitives + ids, a.materials + mats);
    forall k | 0 <= k < |r.primStore|
      ensures MaterialsIn(r.primStore[k], |r.materials|) && r.primStore[k].parent < |r.objStore|
    {
      if k < |a.primStore| {
        assert r.primStore[k] == a.primStore[k];
        MaterialsInGrows(a.primStore[k], |a.materials|, |r.materials|);
      } else {
        assert r.primStore[k] == ps[k - |a.primStore|];
      }
    }
    assert Below(r.objects, |r.objStore|);
    assert Below(r.primitives, |r.primStore|);
    assert NoDup(r.objects) by {
      forall i | 0 <= i < |a.objects| ensures r.objects[i] != id {
        assert r.objects[i] == a.objects[i];
      }
    }
    assert NoDup(r.primitives) by {
      forall i, j | 0 <= i < |a.primitives| <= j < |r.primitives| ensures r.primitives[i] != r.primitives[j] {
        assert r.primitives[i] == a.primitives[i] < |a.primStore| <= r.primitives[j];
      }
    }
    forall i | 0 <= i < |r.primitives|
      ensures r.primStore[r.primitives[i]].parent in r.objects
      ensures r.primitives[i] in r.objStore[r.primStore[r.primitives[i]].parent].primitives
    {
      if i < |a.primitives| {
        var p := a.primitives[i];
        var o := a.primStore[p].parent;
        assert r.primitives[i] == p && r.primStore[p] == a.primStore[p];
        assert o in a.objects;
        assert r.objStore[o] == a.objStore[o];
      } else {
        var j := i - |a.primitives|;
        assert r.primitives[i] == ids[j] && r.primStore[ids[j]] == ps[j];
        assert r.objStore[id].primitives == ids;
        assert r.objects[|a.objects|] == id;
      }
    }
    forall i | 0 <= i < |r.objects| ensures Owned(r, r.objects[i]) {
      if i < |a.objects| {
        var o := a.objects[i];
        assert Owned(a, o);
        assert r.objects[i] == o && r.objStore[o] == a.objStore[o];
        var ops := a.objStore[o].primitives;
        forall j | 0 <= j < |ops| ensures ops[j] in r.primitives && r.primStore[ops[j]].parent == o {
          assert ops[j] in a.primitives && r.primStore[ops[j]] == a.primStore[ops[j]];
        }
      } else {
        assert r.objects[i] == id && r.objStore[id].primitives == ids;
        RangeNoDup(|a.primStore|, |ps|);
        forall j | 0 <= j < |ids| ensures ids[j] in r.primitives && r.primStore[ids[j]].parent == id {
          assert r.primitives[|a.primitives| + j] == ids[j];
          assert r.primStore[ids[j]] == ps[j];
        }
      }
    }
  }

  lemma MaterialsInGrows(p: Primitive, n: nat, n': nat)
    requires MaterialsIn(p, n) && n <= n'
    ensures MaterialsIn(p, n')
  {
  }

  /** Loading one object keeps the arena valid. */
  lemma AddObjectValid(m: Math, a: Arena, o: ObjIO)
    requires ArenaValid(a) && Loadable(o)
    ensures ArenaValid(AddObject(m, a, o))
  {
    AddObjectAppends(m, a, o);
    NewPrimitivesWellFormed(m, o, |a.objStore|, |a.materials|);
    AppendObjectValid(a, NewPrimitives(m, o, |a.objStore|, |a.materials|), NewMaterials(o));
  }

  /** Loading a list of objects keeps the arena valid. */
  lemma {:induction false} AddObjectsValid(m: Math, a: Arena, objs: seq<ObjIO>)
    requires ArenaValid(a) && forall i :: 0 <= i < |objs| ==> Loadable(objs[i])
    ensures ArenaValid(AddObjects(m, a, objs))
  {
    if |objs| > 0 {
      AddObjectsValid(m, a, objs[..|objs| - 1]);
      AddObjectValid(m, AddObjects(m, a, objs[..|objs| - 1]), objs[|objs| - 1]);
    }
  }

  /** Loading a list of objects lists one object per record and adds PrimitiveCount primitives per record. */
  lemma {:induction false} AddObjectsCounts(m: Math, a: Arena, objs: seq<ObjIO>)
    requires forall i :: 0 <= i < |objs| ==> Loadable(objs[i])
    ensures |AddObjects(m, a, objs).objects| == |a.objects| + |objs|
    ensures |AddObjects(m, a, objs).primitives| == |a.primitives| + TotalPrimitives(objs)
  {
    if |objs| > 0 {
      AddObjectsCounts(m, a, objs[..|objs| - 1]);
      AddObjectAppends(m, AddObjects(m, a, objs[..|objs| - 1]), objs[|objs| - 1]);
    }
  }

  function TotalPrimitives(objs: seq<ObjIO>): nat
  {
    if |objs| == 0 then 0 else TotalPrimitives(objs[..|objs| - 1]) + PrimitiveCount(objs[|objs| - 1])
  }

  // ---------------------------------------------------------------- queries

  /** The KD-tree's view of a primitive: its pointer, midpoint, bounds and parent. */
  function PrimView(store: seq<Primitive>, id: nat): Prim
    requires id < |store|
  {
    Prim(id, Midpoint(store[id]), PrimitiveBounds(store[id]), store[id].parent)
  }

  function View(store: seq<Primitive>, ids: seq<nat>): (r: seq<Prim>)
    requires Below(ids, |store|)
    ensures |r| == |ids| && forall i :: 0 <= i < |ids| ==> r[i] == PrimView(store, ids[i])
  {
    seq(|ids|, i requires 0 <= i < |ids| => PrimView(store, ids[i]))
  }

  /** Changing primitives in a way that keeps their shape and parent does not change the tree's view. */
  lemma ViewUnchanged(store: seq<Primitive>, store': seq<Primitive>, ids: seq<nat>)
    requires |store'| == |store| && Below(ids, |store|)
    requires forall k :: 0 <= k < |store| ==>
      Midpoint(store'[k]) == Midpoint(store[k]) && PrimitiveBounds(store'[k]) == PrimitiveBounds(store[k]) && store'[k].parent == store[k].parent
    ensures View(store', ids) == View(store, ids)
  {
  }

  /** The parent object's intersection shader as an accept/reject test. */
  function ShaderOf(n: Noise, a: Arena, parent: nat): Option<HitData -> bool>
  {
    if parent < |a.objStore| && a.objStore[parent].intersectionShader.Some? then
      var sh := a.objStore[parent].intersectionShader.value;
      Some((h: HitData) => IntersectionShade(n, sh, h))
    else None
  }

  /** primitives[i]->intersects(origin, direction, hitData) for the primitive at pointer `id`. */
  function HitPrimitive(m: Math, n: Noise, a: Arena, id: nat, origin: Vector3, direction: Vector3): Option<HitData>
  {
    if id >= |a.primStore| || !MaterialsIn(a.primStore[id], |a.materials|) then None
    else
      var p := a.primStore[id];
      if p.Sphere? then IntersectSphere(m, p, a.materials, ShaderOf(n, a, p.parent), origin, direction)
      else IntersectTriangle(m, p, a.materials, ShaderOf(n, a, p.parent), origin, direction)
  }

  function TracerOf(m: Math, n: Noise, a: Arena, origin: Vector3, direction: Vector3): Tracer
  {
    (p: Prim) => HitPrimitive(m, n, a, p.id, origin, direction)
  }

  /** A primitive whose object has an intersection shader is hit only where that shader accepts. */
  lemma ShaderFiltersHits(m: Math, n: Noise, a: Arena, id: nat, origin: Vector3, direction: Vector3)
    requires id < |a.primStore| && a.primStore[id].parent < |a.objStore|
    requires a.objStore[a.primStore[id].parent].intersectionShader.Some?
    requires HitPrimitive(m, n, a, id, origin, direction).Some?
    ensures IntersectionShade(n, a.objStore[a.primStore[id].parent].intersectionShader.value, HitPrimitive(m, n, a, id, origin, direction).value)
  {
  }

  // ---------------------------------------------------------------- BSSRDF assignment

  /** The material slots of a list of primitives. */
  function SlotsOf(store: seq<Primitive>, ids: seq<nat>): set<nat>
    requires Below(ids, |store|)
  {
    if |ids| == 0 then {} else SlotsOf(store, ids[..|ids| - 1]) + MaterialSlots(store[ids[|ids| - 1]])
  }

  lemma {:induction false} SlotsContain(store: seq<Primitive>, ids: seq<nat>, j: int)
    requires Below(ids, |store|) && 0 <= j < |ids|
    ensures MaterialSlots(store[ids[j]]) <= SlotsOf(store, ids)
  {
    if j < |ids| - 1 {
      SlotsContain(store, ids[..|ids| - 1], j);
    }
  }

  /** Every hit on a primitive whose materials all carry b carries b. */
  lemma HitCarriesBSSRDF(m: Math, n: Noise, a: Arena, id: nat, origin: Vector3, direction: Vector3, b: Option<nat>)
    requires id < |a.primStore| && MaterialsIn(a.primStore[id], |a.materials|)
    requires forall s :: s in MaterialSlots(a.primStore[id]) ==> a.materials[s].bssrdf == b
    requires HitPrimitive(m, n, a, id, origin, direction).Some?
    ensures HitPrimitive(m, n, a, id, origin, direction).value.material.bssrdf == b
  {
    var p := a.primStore[id];
    if p.Triangle? {
      assert p.m.first in MaterialSlots(p);
    } else {
      assert p.material in MaterialSlots(p);
    }
  }

  /** After SetObjectBSSRDF(index, b) every hit on any primitive of the object carries b. */
  lemma BSSRDFReachesHits(m: Math, n: Noise, a: Arena, ops: seq<nat>, b: Option<nat>, j: int, origin: Vector3, direction: Vector3)
    requires Below(ops, |a.primStore|) && 0 <= j < |ops| && MaterialsIn(a.primStore[ops[j]], |a.materials|)
    requires forall s :: 0 <= s < |a.materials| && s in SlotsOf(a.primStore, ops) ==> a.materials[s].bssrdf == b
    requires HitPrimitive(m, n, a, ops[j], origin, direction).Some?
    ensures HitPrimitive(m, n, a, ops[j], origin, direction).value.material.bssrdf == b
  {
    SlotsContain(a.primStore, ops, j);
    var p := a.primStore[ops[j]];
    assert forall s :: s in MaterialSlots(p) ==> s < |a.materials|;
    HitCarriesBSSRDF(m, n, a, ops[j], origin, direction, b);
  }

  // ---------------------------------------------------------------- object centre

  predicate AllTriangles(store: seq<Primitive>, ids: seq<nat>)
  {
    Below(ids, |store|) && forall i :: 0 <= i < |ids| ==> store[ids[i]].Triangle?
  }

  /** The sum of v[0] + v[1] + v[2] over a list of triangles. */
  function VertexSum(store: seq<Primitive>, ids: seq<nat>): Vector3
    requires AllTriangles(store, ids)
  {
    if |ids| == 0 then Zero
    else
      var t := store[ids[|ids| - 1]];
      Add(VertexSum(store, ids[..|ids| - 1]), Add(Add(t.v.first, t.v.second), t.v.third))
  }

  /** The centre GetCenter computes: the mean of the 3n vertices, or the origin for no triangles. */
  function Center(store: seq<Primitive>, ids: seq<nat>): Vector3
    requires AllTriangles(store, ids)
  {
    if |ids| == 0 then Zero else Scale(VertexSum(store, ids), 1.0 / (3.0 * |ids| as real))
  }

  /** The running sum GetCenter accumulates: every vertex weighted by w. */
  function WeightedVertexSum(store: seq<Primitive>, ids: seq<nat>, w: real): Vector3
    requires AllTriangles(store, ids)
  {
    if |ids| == 0 then Zero
    else
      var t := store[ids[|ids| - 1]];
      AddFirstVertices(WeightedVertexSum(store, ids[..|ids| - 1], w), t, w, 3)
  }

  /** The running GetCenter sum after the first j vertices of t. */
  function AddFirstVertices(c: Vector3, t: Primitive, w: real, j: int): Vector3
    requires t.Triangle?
    decreases j
  {
    if j <= 0 then c else Add(AddFirstVertices(c, t, w, j - 1), Scale(At(t.v, j - 1), w))
  }

  lemma ScaleDistributes(a: real, b: real, c: real, d: real, w: real)
    ensures a * w + b * w + c * w + d * w == (a + (b + c + d)) * w
  {
  }

  lemma ScaleSum(s: Vector3, a: Vector3, b: Vector3, c: Vector3, w: real)
    ensures Add(Add(Add(Scale(s, w), Scale(a, w)), Scale(b, w)), Scale(c, w)) == Scale(Add(s, Add(Add(a, b), c)), w)
  {
    ScaleDistributes(s.x, a.x, b.x, c.x, w);
    ScaleDistributes(s.y, a.y, b.y, c.y, w);
    ScaleDistributes(s.z, a.z, b.z, c.z, w);
  }

  /** Weighting each vertex by w is weighting their sum by w. */
  lemma {:induction false} WeightedIsScaledSum(store: seq<Primitive>, ids: seq<nat>, w: real)
    requires AllTriangles(store, ids)
    ensures WeightedVertexSum(store, ids, w) == Scale(VertexSum(store, ids), w)
  {
    if |ids| > 0 {
      var init := ids[..|ids| - 1];
      WeightedIsScaledSum(store, init, w);
      var t := store[ids[|ids| - 1]];
      var s := VertexSum(store, init);
      assert AddFirstVertices(WeightedVertexSum(store, init, w), t, w, 3)
        == Add(Add(Add(WeightedVertexSum(store, init, w), Scale(t.v.first, w)), Scale(t.v.second, w)), Scale(t.v.third, w));
      ScaleSum(s, t.v.first, t.v.second, t.v.third, w);
    }
  }

  // ---------------------------------------------------------------- removal

  /** std::find: the first position of x, or |s| when it is absent. */
  function IndexOf(s: seq<nat>, x: nat): (k: nat)
    ensures k <= |s| && (k < |s| ==> s[k] == x) && forall j :: 0 <= j < k ==> s[j] != x
    ensures k == |s| <==> x !in s
  {
    if |s| == 0 then 0 else if s[0] == x then 0 else 1 + IndexOf(s[1..], x)
  }

  /** primitives.erase(find(primitives, x)) for an x that is present. */
  function RemoveFirst(s: seq<nat>, x: nat): seq<nat>
    requires x in s
  {
    var k := IndexOf(s, x);
    s[..k] + s[k + 1..]
  }

  /** Removing the first x keeps every other element. */
  lemma RemoveFirstKeeps(s: seq<nat>, x: nat, y: nat)
    requires x in s
    ensures y != x ==> (y in RemoveFirst(s, x) <==> y in s)
  {
    var k := IndexOf(s, x);
    assert s == s[..k] + [s[k]] + s[k + 1..];
  }

  /** The elements of s, in order, that are not in xs. */
  function Without(s: seq<nat>, xs: seq<nat>): seq<nat>
  {
    if |s| == 0 then [] else (if s[0] in xs then [] else [s[0]]) + Without(s[1..], xs)
  }

  lemma {:induction false} WithoutMembers(s: seq<nat>, xs: seq<nat>, y: nat)
    ensures y in Without(s, xs) <==> y in s && y !in xs
  {
    if |s| > 0 {
      WithoutMembers(s[1..], xs, y);
      assert s == [s[0]] + s[1..];
    }
  }

  lemma {:induction false} WithoutNoDup(s: seq<nat>, xs: seq<nat>)
    requires NoDup(s)
    ensures NoDup(Without(s, xs))
  {
    if |s| > 0 {
      var t := s[1..];
      assert NoDup(t) by {
        forall i, j | 0 <= i < j < |t| ensures t[i] != t[j] {
          assert t[i] == s[i + 1] && t[j] == s[j + 1];
        }
      }
      WithoutNoDup(t, xs);
      WithoutMembers(t, xs, s[0]);
      assert s[0] !in t by {
        forall j | 0 <= j < |t| ensures t[j] != s[0] {
          assert t[j] == s[j + 1];
        }
      }
      var w := Without(t, xs);
      if s[0] !in xs {
        forall i, j | 0 <= i < j < |[s[0]] + w| ensures ([s[0]] + w)[i] != ([s[0]] + w)[j] {
          assert ([s[0]] + w)[j] == w[j - 1];
          if i == 0 {
            assert w[j - 1] in w;
          } else {
            assert ([s[0]] + w)[i] == w[i - 1];
          }
        }
      }
    }
  }

  lemma {:induction false} WithoutNothing(s: seq<nat>, xs: seq<nat>)
    requires forall j :: 0 <= j < |s| ==> s[j] !in xs
    ensures Without(s, xs) == s
  {
    if |s| > 0 {
      WithoutNothing(s[1..], xs);
      assert s == [s[0]] + s[1..];
    }
  }

  /** On a list without duplicates, removing the first x removes exactly x. */
  lemma {:induction false} RemoveFirstIsWithout(s: seq<nat>, x: nat)
    requires NoDup(s) && x in s
    ensures RemoveFirst(s, x) == Without(s, [x])
  {
    var t := s[1..];
    if s[0] == x {
      assert forall j :: 0 <= j < |t| ==> t[j] == s[j + 1];
      WithoutNothing(t, [x]);
    } else {
      assert x in t;
      assert NoDup(t) by {
        forall i, j | 0 <= i < j < |t| ensures t[i] != t[j] {
          assert t[i] == s[i + 1] && t[j] == s[j + 1];
        }
      }
      RemoveFirstIsWithout(t, x);
      var k := IndexOf(t, x);
      assert IndexOf(s, x) == 1 + k;
      assert s[..k + 1] == [s[0]] + t[..k];
      assert s[k + 2..] == t[k + 1..];
    }
  }

  lemma {:induction false} WithoutTwice(s: seq<nat>, x: nat, rest: seq<nat>)
    ensures Without(Without(s, [x]), rest) == Without(s, [x] + rest)
  {
    if |s| > 0 {
      WithoutTwice(s[1..], x, rest);
      var w := Without(s[1..], [x]);
      assert s[0] in [x] + rest <==> s[0] == x || s[0] in rest;
      if s[0] == x {
        assert Without(s, [x]) == w;
        assert Without(s, [x] + rest) == Without(s[1..], [x] + rest);
      } else {
        assert Without(s, [x]) == [s[0]] + w;
        assert ([s[0]] + w)[0] == s[0] && ([s[0]] + w)[1..] == w;
        if s[0] in rest {
          assert Without(s, [x] + rest) == Without(s[1..], [x] + rest);
        } else {
          assert Without(s, [x] + rest) == [s[0]] + Without(s[1..], [x] + rest);
        }
      }
    }
  }

  /** Removing the elements of `xs` one after the other, each at its first position. */
  function RemoveEach(s: seq<nat>, xs: seq<nat>): seq<nat>
    requires forall j :: 0 <= j < |xs| ==> xs[j] in s
    requires NoDup(xs)
    decreases |xs|
  {
    if |xs| == 0 then s
    else
      RemoveEachStep(s, xs);
      RemoveEach(RemoveFirst(s, xs[0]), xs[1..])
  }

  lemma RemoveEachStep(s: seq<nat>, xs: seq<nat>)
    requires forall j :: 0 <= j < |xs| ==> xs[j] in s
    requires NoDup(xs) && 0 < |xs|
    ensures NoDup(xs[1..]) && forall j :: 0 <= j < |xs[1..]| ==> xs[1..][j] in RemoveFirst(s, xs[0])
  {
    forall j | 0 <= j < |xs[1..]| ensures xs[1..][j] in RemoveFirst(s, xs[0]) {
      assert xs[1..][j] == xs[j + 1] != xs[0];
      RemoveFirstKeeps(s, xs[0], xs[j + 1]);
    }
  }

  /**
   * RemoveObject's loop removes exactly the object's primitives and keeps the
   * others in order, when neither list repeats a pointer.
   */
  lemma {:induction false} RemoveEachIsWithout(s: seq<nat>, xs: seq<nat>)
    requires NoDup(s) && NoDup(xs) && forall j :: 0 <= j < |xs| ==> xs[j] in s
    ensures RemoveEach(s, xs) == Without(s, xs)
    decreases |xs|
  {
    if |xs| == 0 {
      WithoutNothing(s, xs);
    } else {
      RemoveEachStep(s, xs);
      RemoveFirstIsWithout(s, xs[0]);
      WithoutNoDup(s, [xs[0]]);
      RemoveEachIsWithout(RemoveFirst(s, xs[0]), xs[1..]);
      WithoutTwice(s, xs[0], xs[1..]);
      assert [xs[0]] + xs[1..] == xs;
    }
  }

  /** RemoveObject without the tree: the object's primitives and the object itself leave the lists. */
  function RemoveFromArena(a: Arena, index: nat): Arena
    requires ArenaValid(a) && index < |a.objects|
  {
    var o := a.objects[index];
    assert Owned(a, o);
    a.(primitives := RemoveEach(a.primitives, a.objStore[o].primitives), objects := a.objects[..index] + a.objects[index + 1..])
  }

  /** The primitive list after removal: the old list without the object's primitives, which are exactly those naming it as parent. */
  lemma RemovedPrimitives(a: Arena, index: nat)
    requires ArenaValid(a) && index < |a.objects|
    ensures var r := RemoveFromArena(a, index);
      r.primitives == Without(a.primitives, a.objStore[a.objects[index]].primitives)
      && NoDup(r.primitives) && Below(r.primitives, |a.primStore|)
      && (forall p :: p in r.primitives <==> p in a.primitives && a.primStore[p].parent != a.objects[index])
  {
    var o := a.objects[index];
    var ops := a.objStore[o].primitives;
    assert Owned(a, o);
    var r := RemoveFromArena(a, index);
    RemoveEachIsWithout(a.primitives, ops);
    WithoutNoDup(a.primitives, ops);
    forall p | p in a.primitives ensures p in ops <==> a.primStore[p].parent == o {
      var i :| 0 <= i < |a.primitives| && a.primitives[i] == p;
      if p in ops {
        var j :| 0 <= j < |ops| && ops[j] == p;
      }
    }
    forall p: nat ensures p in r.primitives <==> p in a.primitives && a.primStore[p].parent != o {
      WithoutMembers(a.primitives, ops, p);
    }
    forall i | 0 <= i < |r.primitives| ensures r.primitives[i] < |a.primStore| {
      assert r.primitives[i] in r.primitives;
      var k :| 0 <= k < |a.primitives| && a.primitives[k] == r.primitives[i];
    }
  }

  /**
   * Removing an object keeps the arena valid; the primitives left are those
   * of the other objects, in their old order.
   */
  lemma RemoveValid(a: Arena, index: nat)
    requires ArenaValid(a) && index < |a.objects|
    ensures var r := RemoveFromArena(a, index);
      ArenaValid(r)
      && r.primitives == Without(a.primitives, a.objStore[a.objects[index]].primitives)
      && (forall p :: p in r.primitives <==> p in a.primitives && a.primStore[p].parent != a.objects[index])
  {
    var o := a.objects[index];
    var r := RemoveFromArena(a, index);
    RemovedPrimitives(a, index);
    RemovedObjectsValid(a, index);
    forall i | 0 <= i < |r.primitives|
      ensures r.primStore[r.primitives[i]].parent in r.objects
      ensures r.primitives[i] in r.objStore[r.primStore[r.primitives[i]].parent].primitives
    {
      var p := r.primitives[i];
      assert p in r.primitives;
      var k :| 0 <= k < |a.primitives| && a.primitives[k] == p;
    }
    forall i | 0 <= i < |r.objects| ensures Owned(r, r.objects[i]) {
      OwnedAfterRemoval(a, index, r.objects[i]);
    }
  }

  lemma OwnedAfterRemoval(a: Arena, index: nat, q: nat)
    requires ArenaValid(a) && index < |a.objects|
    requires q in a.objects && q != a.objects[index]
    ensures Owned(RemoveFromArena(a, index), q)
  {
    var r := RemoveFromArena(a, index);
    RemovedPrimitives(a, index);
    var k :| 0 <= k < |a.objects| && a.objects[k] == q;
    assert Owned(a, q);
    var qs := a.objStore[q].primitives;
    forall j | 0 <= j < |qs| ensures qs[j] in r.primitives {
      assert qs[j] in a.primitives && a.primStore[qs[j]].parent == q;
    }
  }

  /** Splicing one entry out of the object list keeps it inside the store and free of duplicates. */
  lemma RemovedObjectsValid(a: Arena, index: nat)
    requires ArenaValid(a) && index < |a.objects|
    ensures var objs := a.objects[..index] + a.objects[index + 1..];
      Below(objs, |a.objStore|) && NoDup(objs) && forall k :: k in objs <==> k in a.objects && k != a.objects[index]
  {
    var objs := a.objects[..index] + a.objects[index + 1..];
    forall i | 0 <= i < |objs| ensures objs[i] == a.objects[if i < index then i else i + 1] {
    }
    forall i, j | 0 <= i < j < |objs| ensures objs[i] != objs[j] {
      var i' := if i < index then i else i + 1;
      var j' := if j < index then j else j + 1;
      assert objs[i] == a.objects[i'] && objs[j] == a.objects[j'] && i' < j';
    }
    assert a.objects == a.objects[..index] + [a.objects[index]] + a.objects[index + 1..];
    forall k ensures k in objs <==> k in a.objects && k != a.objects[index] {
      if k in objs {
        var j :| 0 <= j < |objs| && objs[j] == k;
        var j' := if j < index then j else j + 1;
        assert a.objects[j'] == k && j' != index;
      }
    }
  }

  lemma NoDupTail(s: seq<nat>, i: int)
    requires NoDup(s) && 0 <= i < |s|
    ensures NoDup(s[i + 1..])
  {
    var t := s[i + 1..];
    forall a, b | 0 <= a < b < |t| ensures t[a] != t[b] {
      assert t[a] == s[i + 1 + a] && t[b] == s[i + 1 + b];
    }
  }
  /** Changing objects without changing what primitives they list keeps the arena valid. */
  lemma ObjectsRelabelled(a: Arena, objStore': seq<SceneObject>)
    requires ArenaValid(a) && |objStore'| == |a.objStore|
    requires forall k :: 0 <= k < |a.objStore| ==> objStore'[k].primitives == a.objStore[k].primitives
    ensures ArenaValid(a.(objStore := objStore'))
  {
    var r := a.(objStore := objStore');
    forall i | 0 <= i < |r.objects| ensures Owned(r, r.objects[i]) {
      assert Owned(a, a.objects[i]);
    }
  }

  /** Changing primitives while keeping their parents and material pointers, or materials while keeping their number, keeps the arena valid. */
  lemma ContentsChanged(a: Arena, primStore': seq<Primitive>, materials': seq<Material>)
    requires ArenaValid(a) && |primStore'| == |a.primStore| && |materials'| == |a.materials|
    requires forall k :: 0 <= k < |a.primStore| ==>
      primStore'[k].parent == a.primStore[k].parent && MaterialSlots(primStore'[k]) == MaterialSlots(a.primStore[k])
    ensures ArenaValid(a.(primStore := primStore', materials := materials'))
  {
    var r := a.(primStore := primStore', materials := materials');
    forall k | 0 <= k < |r.primStore| ensures MaterialsIn(r.primStore[k], |r.materials|) {
      SlotsBound(a.primStore[k], |a.materials|);
      SlotsBound(r.primStore[k], |a.materials|);
    }
    forall i | 0 <= i < |r.objects| ensures Owned(r, r.objects[i]) {
      assert Owned(a, a.objects[i]);
    }
  }

  lemma SlotsBound(p: Primitive, n: nat)
    ensures MaterialsIn(p, n) <==> forall s :: s in MaterialSlots(p) ==> s < n
  {
    if p.Triangle? {
      assert p.m.first in MaterialSlots(p) && p.m.second in MaterialSlots(p) && p.m.third in MaterialSlots(p);
    } else {
      assert p.material in MaterialSlots(p);
    }
  }

  // ---------------------------------------------------------------- the loops of the scene's operations

  /** The loop of SetObjectBSSRDF: SetBSSRDF on each primitive of the list in turn. */
  method AssignBSSRDF(store: seq<Primitive>, ops: seq<nat>, mats: seq<Material>, b: Option<nat>) returns (r: seq<Material>)
    requires Below(ops, |store|) && forall k :: 0 <= k < |store| ==> MaterialsIn(store[k], |mats|)
    ensures |r| == |mats|
    ensures forall s :: 0 <= s < |mats| ==> r[s] == (if s in SlotsOf(store, ops) then mats[s].(bssrdf := b) else mats[s])
  {
    r := mats;
    var i := 0;
    while i < |ops|
      invariant 0 <= i <= |ops| && |r| == |mats|
      invariant forall s :: 0 <= s < |mats| ==> r[s] == (if s in SlotsOf(store, ops[..i]) then mats[s].(bssrdf := b) else mats[s])
    {
      assert ops[..i + 1][..i] == ops[..i];
      r := SetBSSRDF(store[ops[i]], r, b);
      i := i + 1;
    }
    assert ops[..i] == ops;
  }

  /** std::find. */
  method Find(s: seq<nat>, x: nat) returns (k: nat)
    requires x in s
    ensures k == IndexOf(s, x)
  {
    k := 0;
    while s[k] != x
      invariant k <= IndexOf(s, x)
      decreases IndexOf(s, x) - k
    {
      k := k + 1;
    }
  }

  /** The loop of RemoveObject: find and erase each primitive of the object. */
  method RemovePrimitives(prims: seq<nat>, ops: seq<nat>) returns (r: seq<nat>)
    requires NoDup(ops) && forall j :: 0 <= j < |ops| ==> ops[j] in prims
    ensures r == RemoveEach(prims, ops)
  {
    r := prims;
    var i := 0;
    while i < |ops|
      invariant 0 <= i <= |ops|
      invariant NoDup(ops[i..]) && forall j :: 0 <= j < |ops[i..]| ==> ops[i..][j] in r
      invariant RemoveEach(prims, ops) == RemoveEach(r, ops[i..])
    {
      assert ops[i..][0] == ops[i] && ops[i..][1..] == ops[i + 1..];
      RemoveEachStep(r, ops[i..]);
      var k := Find(r, ops[i]);
      r := r[..k] + r[k + 1..];
      i := i + 1;
    }
  }

  /** The loop of Object::GetCenter: add every vertex times 1/(3n). */
  method ComputeCenter(store: seq<Primitive>, ops: seq<nat>) returns (center: Vector3)
    requires AllTriangles(store, ops)
    ensures center == Center(store, ops)
  {
    var w := if |ops| == 0 then 0.0 else 1.0 / (3.0 * |ops| as real);
    center := Zero;
    var i := 0;
    while i < |ops|
      invariant 0 <= i <= |ops|
      invariant center == WeightedVertexSum(store, ops[..i], w)
    {
      assert ops[..i + 1][..i] == ops[..i];
      var t := store[ops[i]];
      var j := 0;
      while j < 3
        invariant 0 <= j <= 3
        invariant center == AddFirstVertices(WeightedVertexSum(store, ops[..i], w), t, w, j)
      {
        center := Add(center, Scale(At(t.v, j), w));
        j := j + 1;
      }
      i := i + 1;
    }
    assert ops[..i] == ops;
    if |ops| > 0 {
      WeightedIsScaledSum(store, ops, w);
    }
  }

  /** The loop of Object::AlternateTextureMap: MapTextureCoords on each triangle of the list. */
  method MapTextures(m: Math, store: seq<Primitive>, ops: seq<nat>, center: Vector3) returns (r: seq<Primitive>)
    requires AllTriangles(store, ops) && NoDup(ops)
    ensures |r| == |store|
    ensures forall k :: 0 <= k < |store| ==> r[k] == (if k in ops then MapTextureCoords(m, store[k], center) else store[k])
  {
    r := store;
    var i := 0;
    while i < |ops|
      invariant 0 <= i <= |ops| && |r| == |store|
      invariant forall k :: 0 <= k < |store| ==> r[k] == (if k in ops[..i] then MapTextureCoords(m, store[k], center) else store[k])
    {
      assert ops[..i + 1] == ops[..i] + [ops[i]];
      assert ops[i] !in ops[..i] by {
        forall j | 0 <= j < i ensures ops[..i][j] != ops[i] {
          assert ops[..i][j] == ops[j];
        }
      }
      r := r[ops[i] := MapTextureCoords(m, r[ops[i]], center)];
      i := i + 1;
    }
    assert ops[..i] == ops;
  }

  /**
   * The polygon loop of loadPolyset: one triangle per polygon, with the
   * texture pattern flipping after each triangle.
   */
  method MakeTriangles(m: Math, ps: PolySetIO, parent: nat, base: nat, numMaterials: nat) returns (triangles: seq<Primitive>)
    requires MeshLoadable(ps, numMaterials)
    ensures triangles == TrianglesFor(m, ps, parent, base, numMaterials)
  {
    var textureMapTriangle := true;
    triangles := [];
    var i := 0;
    while i < |ps.poly|
      invariant 0 <= i <= |ps.poly|
      invariant textureMapTriangle <==> i % 2 == 0
      invariant triangles == TrianglesFor(m, ps, parent, base, numMaterials)[..i]
    {
      var vs := ps.poly[i].vert;
      var n := NormalsFor(m, ps, i);
      var tex;
      if textureMapTriangle {
        tex := Triple(FromXY(0.0, 0.0), FromXY(1.0, 0.0), FromXY(1.0, 1.0));
      } else {
        tex := Triple(FromXY(0.0, 0.0), FromXY(1.0, 1.0), FromXY(0.0, 1.0));
      }
      var triangle := Triangle(parent, Triple(vs[0].pos, vs[1].pos, vs[2].pos), n, MaterialsFor(ps, i, base, numMaterials), tex);
      assert TrianglesFor(m, ps, parent, base, numMaterials)[..i + 1] == TrianglesFor(m, ps, parent, base, numMaterials)[..i] + [triangle];
      triangles := triangles + [triangle];
      textureMapTriangle := !textureMapTriangle;
      i := i + 1;
    }
    assert TrianglesFor(m, ps, parent, base, numMaterials)[..i] == TrianglesFor(m, ps, parent, base, numMaterials);
  }

  /**
   * The brute-force closest hit (Scene::GetClosestIntersection without
   * ACCELERATION): every primitive in list order, keeping a hit nearer than
   * all before it.
   */
  method ScanForClosest(m: Math, n: Noise, a: Arena, origin: Vector3, direction: Vector3, hitData: HitData, hitObject: nat)
    returns (hit: bool, hitData': HitData, hitObject': nat)
    requires Below(a.primitives, |a.primStore|)
    ensures (hit, Closest(hitData', hitObject', if hit then hitData'.t else FLT_MAX))
      == ScanClosest(View(a.primStore, a.primitives), TracerOf(m, n, a, origin, direction), Closest(hitData, hitObject, FLT_MAX))
  {
    var ps := View(a.primStore, a.primitives);
    var tracer := TracerOf(m, n, a, origin, direction);
    var closest := FLT_MAX;
    hit, hitData', hitObject' := false, hitData, hitObject;
    var i := 0;
    while i < |a.primitives|
      invariant 0 <= i <= |a.primitives|
      invariant (hit, Closest(hitData', hitObject', closest)) == ScanClosest(ps[..i], tracer, Closest(hitData, hitObject, FLT_MAX))
      invariant hit ==> closest == hitData'.t
      invariant !hit ==> closest == FLT_MAX
    {
      assert ps[..i + 1][..i] == ps[..i];
      var thisHitData := HitPrimitive(m, n, a, a.primitives[i], origin, direction);
      assert thisHitData == tracer(ps[i]);
      if thisHitData.Some? && thisHitData.value.t < closest {
        closest := thisHitData.value.t;
        hit := true;
        hitObject' := a.primStore[a.primitives[i]].parent;
        hitData' := thisHitData.value;
      }
      i := i + 1;
    }
    assert ps[..i] == ps;
  }

  /**
   * The brute-force shadow ray (Scene::TraceShadowRay without
   * ACCELERATION): start from white and filter through every primitive hit
   * before maxDist, returning black at the first opaque one. There is no
   * lower bound on the hit distance here.
   */
  method ScanForShadow(m: Math, n: Noise, a: Arena, origin: Vector3, direction: Vector3, maxDist: real)
    returns (shadowFactor: Vector3)
    requires Below(a.primitives, |a.primStore|)
    ensures shadowFactor == ShadowFold(View(a.primStore, a.primitives), TracerOf(m, n, a, origin, direction), maxDist, false, One)
  {
    var ps := View(a.primStore, a.primitives);
    var tracer := TracerOf(m, n, a, origin, direction);
    shadowFactor := One;
    var i := 0;
    while i < |a.primitives|
      invariant 0 <= i <= |a.primitives|
      invariant shadowFactor == ShadowFold(ps[..i], tracer, maxDist, false, One)
    {
      assert ps[..i + 1][..i] == ps[..i];
      var thisHitData := HitPrimitive(m, n, a, a.primitives[i], origin, direction);
      assert thisHitData == tracer(ps[i]);
      if thisHitData.Some? && thisHitData.value.t < maxDist {
        if thisHitData.value.material.ktran < FULLY_OPAQUE_THRESHOLD {
          OpaqueBlocks(ps, i, tracer, maxDist, false, One);
          shadowFactor := Zero;
          return;
        }
        var normFactor := MaxComponent(thisHitData.value.material.diffColor);
        var normalizedDiffuse := if normFactor > FLT_EPSILON then DivScalar(thisHitData.value.material.diffColor, normFactor) else One;
        assert normalizedDiffuse == NormalizedDiffuse(thisHitData.value.material.diffColor);
        shadowFactor := Mul(Scale(shadowFactor, thisHitData.value.material.ktran), normalizedDiffuse);
      }
      i := i + 1;
    }
    assert ps[..i] == ps;
  }

  // ---------------------------------------------------------------- the scene

  class Scene {
    var objStore: seq<SceneObject>
    var objects: seq<nat>
    var primStore: seq<Primitive>
    var primitives: seq<nat>
    var materials: seq<Material>
    var lights: seq<Light>
    var kdtree: KDTree

    function ArenaOf(): Arena
      reads this
    {
      Arena(objStore, objects, primStore, primitives, materials)
    }

    /** The arena is valid and the tree is the one built from the current primitive list. */
    ghost predicate Valid()
      reads this, kdtree
    {
      ArenaValid(ArenaOf()) && kdtree.Valid() && kdtree.primitives == View(primStore, primitives)
    }

    /**
     * Scene(sceneFile, ...) after the file is read: lights, then objects,
     * then the tree over the primitives.
     */
    constructor(m: Math, io: SceneIO)
      requires forall i :: 0 <= i < |io.objects| ==> Loadable(io.objects[i])
      ensures Valid()
      ensures lights == LightsOf(io.lights)
      ensures ArenaOf() == AddObjects(m, EmptyArena, io.objects)
    {
      objStore, objects, primStore, primitives, materials, lights := [], [], [], [], [], [];
      kdtree := new KDTree([]);
      new;
      assert ArenaOf() == EmptyArena;
      LoadLights(io.lights);
      LoadObjects(m, io.objects);
      AddObjectsValid(m, EmptyArena, io.objects);
      assert ArenaValid(ArenaOf());
      kdtree := new KDTree(View(primStore, primitives));
    }

    /** loadLights: append the light of every point or directional record, in order. */
    method LoadLights(ls: seq<LightIO>)
      modifies this
      ensures lights == old(lights) + LightsOf(ls)
      ensures ArenaOf() == old(ArenaOf()) && kdtree == old(kdtree)
    {
      var i := 0;
      while i < |ls|
        invariant 0 <= i <= |ls|
        invariant lights == old(lights) + LightsOf(ls[..i])
        invariant ArenaOf() == old(ArenaOf()) && kdtree == old(kdtree)
      {
        var light := LightOf(ls[i]);
        if light.Some? {
          lights := lights + [light.value];
        }
        assert ls[..i + 1][..i] == ls[..i];
        i := i + 1;
      }
      assert ls[..i] == ls;
    }

    /** loadObjects: one object per record, in order. */
    method LoadObjects(m: Math, objs: seq<ObjIO>)
      requires forall i :: 0 <= i < |objs| ==> Loadable(objs[i])
      modifies this
      ensures ArenaOf() == AddObjects(m, old(ArenaOf()), objs)
      ensures lights == old(lights) && kdtree == old(kdtree)
    {
      var i := 0;
      while i < |objs|
        invariant 0 <= i <= |objs|
        invariant ArenaOf() == AddObjects(m, old(ArenaOf()), objs[..i])
        invariant lights == old(lights) && kdtree == old(kdtree)
      {
        assert objs[..i + 1][..i] == objs[..i];
        var id := |objStore|;
        objStore := objStore + [NewObject()];
        if objs[i].data.SphereData? {
          LoadSphere(objs[i], id);
        } else {
          LoadPolyset(m, objs[i], id);
        }
        objects := objects + [id];
        i := i + 1;
      }
      assert objs[..i] == objs;
    }

    /** loadSphere(objNode, parent). */
    method LoadSphere(o: ObjIO, parent: nat)
      requires o.data.SphereData? && 1 <= |o.material| && parent < |objStore|
      modifies this
      ensures ArenaOf() == AddSphere(old(ArenaOf()), o, parent)
      ensures lights == old(lights) && kdtree == old(kdtree)
    {
      var id := |primStore|;
      objStore := objStore[parent := objStore[parent].(primitives := objStore[parent].primitives + [id])];
      var mat := MakeMaterial(o.material[0]);
      var sphere := Sphere(parent, |materials|, o.data.sphere.origin, o.data.sphere.radius);
      primStore := primStore + [sphere];
      primitives := primitives + [id];
      materials := materials + [mat];
    }

    /** loadPolyset(objNode, parent). */
    method LoadPolyset(m: Math, o: ObjIO, parent: nat)
      requires o.data.PolySetData? && Loadable(o) && parent < |objStore|
      modifies this
      ensures ArenaOf() == AddPolyset(m, old(ArenaOf()), o, parent)
      ensures lights == old(lights) && kdtree == old(kdtree)
    {
      var ps := o.data.polyset;
      var base := |materials|;
      var i := 0;
      while i < |o.material|
        invariant 0 <= i <= |o.material|
        invariant materials == old(materials) + MaterialsOf(o.material[..i])
        invariant objStore == old(objStore) && primStore == old(primStore) && primitives == old(primitives)
        invariant objects == old(objects) && lights == old(lights) && kdtree == old(kdtree)
      {
        materials := materials + [MakeMaterial(o.material[i])];
        i := i + 1;
      }
      assert o.material[..i] == o.material;
      if ps.kind == TriMesh {
        LoadTriangles(m, ps, parent, base, |o.material|);
      }
    }

    /** The triangle-mesh part of loadPolyset: the triangles, listed by the object and by the scene. */
    method LoadTriangles(m: Math, ps: PolySetIO, parent: nat, base: nat, numMaterials: nat)
      requires MeshLoadable(ps, numMaterials) && parent < |objStore|
      modifies this
      ensures var ids := Range(|old(primStore)|, |ps.poly|);
        primStore == old(primStore) + TrianglesFor(m, ps, parent, base, numMaterials)
        && primitives == old(primitives) + ids
        && objStore == old(objStore)[parent := old(objStore)[parent].(primitives := old(objStore)[parent].primitives + ids)]
      ensures objects == old(objects) && materials == old(materials) && lights == old(lights) && kdtree == old(kdtree)
    {
      var triangles := MakeTriangles(m, ps, parent, base, numMaterials);
      var ids := Range(|primStore|, |ps.poly|);
      objStore := objStore[parent := objStore[parent].(primitives := objStore[parent].primitives + ids)];
      primStore := primStore + triangles;
      primitives := primitives + ids;
    }

    /** SetObjectShader(index, color, intersect). */
    method SetObjectShader(index: nat, color: Option<ColorShader>, intersect: Option<IntersectionShader>)
      requires Valid() && index < |objects|
      modifies this
      ensures objStore == old(objStore)[old(objects)[index] := old(objStore)[old(objects)[index]].(colorShader := color, intersectionShader := intersect)]
      ensures objects == old(objects) && primStore == old(primStore) && primitives == old(primitives)
      ensures materials == old(materials) && lights == old(lights) && kdtree == old(kdtree)
      ensures Valid()
    {
      var o := objects[index];
      ObjectsRelabelled(ArenaOf(), objStore[o := objStore[o].(colorShader := color, intersectionShader := intersect)]);
      objStore := objStore[o := objStore[o].(colorShader := color, intersectionShader := intersect)];
    }

    /**
     * SetObjectBSSRDF(index, b): every material any of the object's
     * primitives points to carries b; no other material changes.
     */
    method SetObjectBSSRDF(index: nat, b: Option<nat>)
      requires Valid() && index < |objects|
      modifies this
      ensures Valid() && objects == old(objects) && objStore == old(objStore) && primStore == old(primStore)
      ensures primitives == old(primitives) && lights == old(lights) && kdtree == old(kdtree)
      ensures Owned(ArenaOf(), objects[index]) && |materials| == |old(materials)|
      ensures forall s :: 0 <= s < |materials| ==>
        materials[s] == (if s in SlotsOf(primStore, objStore[objects[index]].primitives) then old(materials)[s].(bssrdf := b) else old(materials)[s])
    {
      assert Owned(ArenaOf(), objects[index]);
      materials := AssignBSSRDF(primStore, objStore[objects[index]].primitives, materials, b);
      ContentsChanged(old(ArenaOf()), primStore, materials);
    }

    /** RemoveObject(index): drop the object's primitives and the object, then rebuild the tree. */
    method RemoveObject(index: nat)
      requires Valid() && index < |objects|
      modifies this
      ensures Valid() && lights == old(lights) && fresh(kdtree)
      ensures ArenaOf() == RemoveFromArena(old(ArenaOf()), index)
      ensures primitives == Without(old(primitives), old(objStore)[old(objects)[index]].primitives)
      ensures forall p :: p in primitives <==> p in old(primitives) && primStore[p].parent != old(objects)[index]
      ensures objects == old(objects)[..index] + old(objects)[index + 1..]
    {
      ghost var a := ArenaOf();
      assert Owned(a, objects[index]);
      RemoveValid(a, index);
      var r := RemoveFromArena(a, index);
      primitives := RemovePrimitives(primitives, objStore[objects[index]].primitives);
      objects := objects[..index] + objects[index + 1..];
      assert ArenaOf() == r;
      kdtree := new KDTree(View(primStore, primitives));
    }

    /** Object::GetCenter: the mean of the triangle vertices of object `index`, or the origin if it has none. */
    method GetCenter(index: nat) returns (center: Vector3)
      requires Valid() && index < |objects|
      requires AllTriangles(primStore, objStore[objects[index]].primitives)
      ensures center == Center(primStore, objStore[objects[index]].primitives)
    {
      center := ComputeCenter(primStore, objStore[objects[index]].primitives);
    }

    /**
     * Object::AlternateTextureMap: the sphere-style texture map around the
     * object's centre on each of its triangles; nothing else changes, and
     * the tree stays valid because the triangles keep their shape.
     */
    method AlternateTextureMap(m: Math, index: nat)
      requires Valid() && index < |objects|
      requires AllTriangles(primStore, objStore[objects[index]].primitives)
      modifies this
      ensures Valid() && objStore == old(objStore) && objects == old(objects) && primitives == old(primitives)
      ensures materials == old(materials) && lights == old(lights) && kdtree == old(kdtree)
      ensures |primStore| == |old(primStore)|
      ensures forall k :: 0 <= k < |primStore| ==>
        primStore[k] == (if k in objStore[objects[index]].primitives
                         then MapTextureCoords(m, old(primStore)[k], Center(old(primStore), objStore[objects[index]].primitives))
                         else old(primStore)[k])
    {
      var ops := objStore[objects[index]].primitives;
      assert Owned(ArenaOf(), objects[index]);
      var center := ComputeCenter(primStore, ops);
      primStore := MapTextures(m, primStore, ops, center);
      ViewUnchanged(old(primStore), primStore, primitives);
      ContentsChanged(old(ArenaOf()), primStore, materials);
    }

    /**
     * Scene::GetClosestIntersection with ACCELERATION defined: the query of
     * the tree built from the primitive list. When every primitive hit lies
     * in its own box (strictly inside on the axes the ray runs parallel to),
     * it agrees with the brute-force scan.
     */
    method GetClosestIntersection(m: Math, n: Noise, origin: Vector3, direction: Vector3, hitData: HitData, hitObject: nat)
      returns (found: bool, hitData': HitData, hitObject': nat)
      requires Valid() && |primitives| > 0
      ensures var ps, tracer := View(primStore, primitives), TracerOf(m, n, ArenaOf(), origin, direction);
        var tree := TreeClosest(ps, origin, direction, tracer, Closest(hitData, hitObject, FLT_MAX));
        found == tree.0 && hitData' == tree.1.data && hitObject' == tree.1.hitObject
      ensures var ps, tracer := View(primStore, primitives), TracerOf(m, n, ArenaOf(), origin, direction);
        var brute := ScanClosest(ps, tracer, Closest(hitData, hitObject, FLT_MAX));
        HitsInsideBoxes(ps, tracer, origin, direction) ==>
          found == brute.0 && (found ==> hitData'.t == brute.1.tMax)
          && (DistinctHitTimes(ps, tracer) ==> hitData' == brute.1.data && hitObject' == brute.1.hitObject)
    {
      found, hitData', hitObject' := kdtree.GetClosestIntersection(origin, direction, TracerOf(m, n, ArenaOf(), origin, direction), hitData, hitObject);
    }

    /**
     * Scene::TraceShadowRay with ACCELERATION defined: the shadow query of the
     * tree built from the primitive list, equal to filtering through every
     * occluding primitive when every hit lies in its own box.
     */
    method TraceShadowRay(m: Math, n: Noise, origin: Vector3, direction: Vector3, maxDist: real)
      returns (shadowFactor: Vector3)
      requires Valid() && |primitives| > 0
      ensures var ps, tracer := View(primStore, primitives), TracerOf(m, n, ArenaOf(), origin, direction);
        shadowFactor == TreeShadow(ps, origin, direction, tracer, maxDist, One)
      ensures var ps, tracer := View(primStore, primitives), TracerOf(m, n, ArenaOf(), origin, direction);
        HitsInsideBoxes(ps, tracer, origin, direction) ==>
          shadowFactor == ShadowFold(ps, tracer, maxDist, true, One)
    {
      shadowFactor := kdtree.TraceShadowRay(origin, direction, TracerOf(m, n, ArenaOf(), origin, direction), maxDist);
    }
  }
}
