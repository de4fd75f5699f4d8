// The scene description records the loader fills in and the scene builder
// reads: a camera, lights, and objects that are spheres or polygon sets
// with their materials, plus the well-formedness rules their comments state.
//
// The linked lists of lights and objects are sequences here; the list
// operations themselves are modelled in the SceneFiles module.
module SceneRecords {
  import opened Vectors
  import opened Optional
  import opened Materials

  datatype CameraIO = CameraIO(position: Vector3, viewDirection: Vector3, focalDistance: real, orthoUp: Vector3, verticalFOV: real)

  datatype LightType = PointLightType | DirectionalLightType | SpotLightType

  datatype LightIO = LightIO(kind: LightType, position: Vector3, direction: Vector3, color: Vector3, dropOffRate: real, cutOffAngle: real)

  datatype MaterialIO = MaterialIO(diffColor: Vector3, ambColor: Vector3, specColor: Vector3, emissColor: Vector3, shininess: real, ktran: real)

  datatype SphereIO = SphereIO(origin: Vector3, radius: real, xaxis: Vector3, xlength: real, yaxis: Vector3, ylength: real, zaxis: Vector3, zlength: real)

  datatype VertexIO = VertexIO(pos: Vector3, norm: Vector3, materialIndex: int, s: real, t: real)

  /** A polygon; numVertices is |vert|. */
  datatype PolygonIO = PolygonIO(vert: seq<VertexIO>)

  datatype PolySetType = TriMesh | FaceSet | QuadMesh
  datatype NormType = PerVertexNormal | PerFaceNormal
  datatype MaterialBinding = PerObjectMaterial | PerVertexMaterial

  /** A polygon set; numPolys is |poly|. */
  datatype PolySetIO = PolySetIO(kind: PolySetType, normType: NormType, materialBinding: MaterialBinding,
                                 hasTextureCoords: bool, rowSize: int, poly: seq<PolygonIO>)

  /** The object's type tag together with the data it points to. */
  datatype ObjData = SphereData(sphere: SphereIO) | PolySetData(polyset: PolySetIO)

  /** An object; numMaterials is |material|. */
  datatype ObjIO = ObjIO(name: Option<string>, material: seq<MaterialIO>, data: ObjData)

  datatype SceneIO = SceneIO(camera: Option<CameraIO>, lights: seq<LightIO>, objects: seq<ObjIO>)

  // ---------------------------------------------------------------- well-formedness

  /** A colour: every component in [0, 1]. */
  predicate ColorIO(c: Vector3)
  {
    UnitColor(c)
  }

  /** Colours in range; shininess and ktran in [0, 1]. */
  predicate ValidMaterial(m: MaterialIO)
  {
    ColorIO(m.diffColor) && ColorIO(m.ambColor) && ColorIO(m.specColor) && ColorIO(m.emissColor)
    && UnitInterval(m.shininess) && UnitInterval(m.ktran)
  }

  /** The light colour is a colour; a spot light's dropOffRate is in [0, 1]. */
  predicate ValidLight(l: LightIO)
  {
    ColorIO(l.color) && (l.kind == SpotLightType ==> UnitInterval(l.dropOffRate))
  }

  /**
   * Triangle meshes hold only triangles and quad meshes only quads; face
   * sets have per-face normals and per-object materials; per-vertex
   * material indices index the object's materials; rowSize is 0 or divides
   * the number of polygons.
   */
  predicate ValidPolySet(p: PolySetIO, numMaterials: int)
  {
    (p.kind == TriMesh ==> forall i :: 0 <= i < |p.poly| ==> |p.poly[i].vert| == 3)
    && (p.kind == QuadMesh ==> forall i :: 0 <= i < |p.poly| ==> |p.poly[i].vert| == 4)
    && (p.kind == FaceSet ==> p.normType == PerFaceNormal && p.materialBinding == PerObjectMaterial)
    && (p.materialBinding == PerVertexMaterial ==>
          forall i, j :: 0 <= i < |p.poly| && 0 <= j < |p.poly[i].vert| ==> 0 <= p.poly[i].vert[j].materialIndex < numMaterials)
    && 0 <= p.rowSize && (p.rowSize == 0 || |p.poly| % p.rowSize == 0)
  }

  predicate ValidObject(o: ObjIO)
  {
    (forall i :: 0 <= i < |o.material| ==> ValidMaterial(o.material[i]))
    && (o.data.PolySetData? ==> ValidPolySet(o.data.polyset, |o.material|))
  }

  predicate ValidScene(s: SceneIO)
  {
    (forall i :: 0 <= i < |s.lights| ==> ValidLight(s.lights[i]))
    && (forall i :: 0 <= i < |s.objects| ==> ValidObject(s.objects[i]))
  }
}
