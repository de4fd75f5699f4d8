// The loops of the binary reader and writer: the count-driven loops that
// read lights, objects, materials, polygons and vertices off the stream,
// and the loops that write the lists and the polygons of a set. Each is
// proved to compute the stream function of the same name in SceneFiles.
module SceneReaders {
  import opened Optional
  import opened SceneRecords
  import opened SceneFiles

  /** read_lightsB: read the count, then loop reading one light per iteration. */
  method ReadLightsB(s: seq<Field>) returns (r: Option<Read<seq<LightIO>>>)
    ensures r == DecodeLights(s)
  {
    if |s| == 0 || !s[0].IntField? {
      return None;
    }
    var numLights := RecordsToRead(s[0].n);
    var lights: seq<LightIO> := [];
    var rest := s[1..];
    var i := 0;
    while i < numLights
      invariant 0 <= i <= numLights
      invariant DecodeLightList(i, s[1..]) == Some(Read(lights, rest))
    {
      var light := DecodeLight(rest);
      if light.None? {
        LightListFailsOnward(i + 1, numLights, s[1..]);
        return None;
      }
      lights := lights + [light.value.value];
      rest := light.value.rest;
      i := i + 1;
    }
    return Some(Read(lights, rest));
  }

  /** write_lightsB: the count, then one light per iteration of the walk along the list. */
  method WriteLightsB(ls: seq<LightIO>) returns (out: seq<Field>)
    ensures out == EncodeLights(ls)
  {
    var list: seq<Field> := [];
    var i := 0;
    while i < |ls|
      invariant 0 <= i <= |ls|
      invariant list == EncodeLightList(ls[..i])
    {
      assert ls[..i + 1][..i] == ls[..i];
      list := list + EncodeLight(ls[i]);
      i := i + 1;
    }
    assert ls[..i] == ls;
    out := [IntField(|ls|)] + list;
  }

  /** The material loop of read_objectB: k materials, one per iteration. */
  method ReadMaterialsB(k: nat, s: seq<Field>) returns (r: Option<Read<seq<MaterialIO>>>)
    ensures r == DecodeMaterialList(k, s)
  {
    var materials: seq<MaterialIO> := [];
    var rest := s;
    var i := 0;
    while i < k
      invariant 0 <= i <= k
      invariant DecodeMaterialList(i, s) == Some(Read(materials, rest))
    {
      var m := DecodeMaterial(rest);
      if m.None? {
        MaterialListFailsOnward(i + 1, k, s);
        return None;
      }
      materials := materials + [m.value.value];
      rest := m.value.rest;
      i := i + 1;
    }
    return Some(Read(materials, rest));
  }

  /** The vertex loop of read_poly_setB for one polygon. */
  method ReadVerticesB(f: VertexFormat, k: nat, s: seq<Field>) returns (r: Option<Read<seq<VertexIO>>>)
    ensures r == DecodeVertexList(f, k, s)
  {
    var verts: seq<VertexIO> := [];
    var rest := s;
    var j := 0;
    while j < k
      invariant 0 <= j <= k
      invariant DecodeVertexList(f, j, s) == Some(Read(verts, rest))
    {
      var v := DecodeVertex(f, rest);
      if v.None? {
        VertexListFailsOnward(f, j + 1, k, s);
        return None;
      }
      verts := verts + [v.value.value];
      rest := v.value.rest;
      j := j + 1;
    }
    return Some(Read(verts, rest));
  }

  /** The polygon loop of read_poly_setB: each polygon's numVertices, then its vertices. */
  method ReadPolygonsB(f: VertexFormat, k: nat, s: seq<Field>) returns (r: Option<Read<seq<PolygonIO>>>)
    ensures r == DecodePolygonList(f, k, s)
  {
    var polys: seq<PolygonIO> := [];
    var rest := s;
    var i := 0;
    while i < k
      invariant 0 <= i <= k
      invariant DecodePolygonList(f, i, s) == Some(Read(polys, rest))
    {
      if |rest| == 0 || !rest[0].IntField? {
        PolygonListFailsOnward(f, i + 1, k, s);
        return None;
      }
      var verts := ReadVerticesB(f, ArrayLength(rest[0].n), rest[1..]);
      if verts.None? {
        PolygonListFailsOnward(f, i + 1, k, s);
        return None;
      }
      polys := polys + [PolygonIO(verts.value.value)];
      rest := verts.value.rest;
      i := i + 1;
    }
    return Some(Read(polys, rest));
  }

  /** read_poly_setB: the header, then the polygon loop. */
  method ReadPolySetB(version: real, s: seq<Field>) returns (r: Option<Read<PolySetIO>>)
    ensures r == DecodePolySet(version, s)
  {
    var header := DecodePolySetHeader(version, s);
    if header.None? {
      return None;
    }
    var h := header.value.value;
    var polys := ReadPolygonsB(h.format, ArrayLength(h.numPolys), header.value.rest);
    if polys.None? {
      return None;
    }
    var f := h.format;
    return Some(Read(PolySetIO(h.kind, f.normType, f.materialBinding, f.hasTextureCoords, h.rowSize, polys.value.value), polys.value.rest));
  }

  /** The vertex loop of write_poly_setB for one polygon. */
  method WriteVerticesB(f: VertexFormat, vs: seq<VertexIO>) returns (out: seq<Field>)
    ensures out == EncodeVertexList(f, vs)
  {
    out := [];
    var j := 0;
    while j < |vs|
      invariant 0 <= j <= |vs|
      invariant out == EncodeVertexList(f, vs[..j])
    {
      assert vs[..j + 1][..j] == vs[..j];
      out := out + EncodeVertex(f, vs[j]);
      j := j + 1;
    }
    assert vs[..j] == vs;
  }

  /** write_poly_setB after the object header: the six header fields, then each polygon's numVertices and vertices. */
  method WritePolySetB(p: PolySetIO) returns (out: seq<Field>)
    ensures out == EncodePolySet(p)
  {
    var f := FormatOf(p);
    var header := [IntField(PolySetCode(p.kind)), IntField(NormCode(p.normType)), IntField(BindingCode(p.materialBinding)),
                   IntField(BoolCode(p.hasTextureCoords)), IntField(p.rowSize), IntField(|p.poly|)];
    var polys: seq<Field> := [];
    var i := 0;
    while i < |p.poly|
      invariant 0 <= i <= |p.poly|
      invariant polys == EncodePolygonList(f, p.poly[..i])
    {
      assert p.poly[..i + 1][..i] == p.poly[..i];
      var verts := WriteVerticesB(f, p.poly[i].vert);
      polys := polys + ([IntField(|p.poly[i].vert|)] + verts);
      i := i + 1;
    }
    assert p.poly[..i] == p.poly;
    out := header + polys;
  }

  /** read_objectB: type, name, material count and the material loop, then the sphere or the polygon set. */
  method ReadObjectB(version: real, s: seq<Field>) returns (r: Option<Read<ObjIO>>)
    ensures r == DecodeObject(version, s)
  {
    if |s| == 0 || !s[0].IntField? || !(0 <= s[0].n <= 1) {
      return None;
    }
    var code := s[0].n;
    var name := DecodeName(s[1..]);
    if name.None? {
      return None;
    }
    var count := DecodeMaterialCount(version, name.value.rest);
    if count.None? {
      return None;
    }
    var materials := ReadMaterialsB(ArrayLength(count.value.value), count.value.rest);
    if materials.None? {
      return None;
    }
    var ms := materials.value;
    if code == 0 {
      var sphere := DecodeSphere(ms.rest);
      if sphere.None? {
        return None;
      }
      return Some(Read(ObjIO(name.value.value, ms.value, SphereData(sphere.value.value)), sphere.value.rest));
    } else {
      var polyset := ReadPolySetB(version, ms.rest);
      if polyset.None? {
        return None;
      }
      return Some(Read(ObjIO(name.value.value, ms.value, PolySetData(polyset.value.value)), polyset.value.rest));
    }
  }

  /** read_objectsB: read the count, then loop reading one object per iteration. */
  method ReadObjectsB(version: real, s: seq<Field>) returns (r: Option<Read<seq<ObjIO>>>)
    ensures r == DecodeObjects(version, s)
  {
    if |s| == 0 || !s[0].IntField? {
      return None;
    }
    var numObjects := RecordsToRead(s[0].n);
    var objects: seq<ObjIO> := [];
    var rest := s[1..];
    var i := 0;
    while i < numObjects
      invariant 0 <= i <= numObjects
      invariant DecodeObjectList(version, i, s[1..]) == Some(Read(objects, rest))
    {
      var obj := ReadObjectB(version, rest);
      if obj.None? {
        ObjectListFails(version, i, s[1..], objects, rest);
        ObjectListFailsOnward(version, i + 1, numObjects, s[1..]);
        return None;
      }
      DecodeObjectListStep(version, i, s[1..], objects, rest, obj.value.value, obj.value.rest);
      objects := objects + [obj.value.value];
      rest := obj.value.rest;
      i := i + 1;
    }
    return Some(Read(objects, rest));
  }

  /** write_objectsB: the count, then one object per iteration of the walk along the list. */
  method WriteObjectsB(os: seq<ObjIO>) returns (out: seq<Field>)
    ensures out == EncodeObjects(os)
  {
    var list: seq<Field> := [];
    var i := 0;
    while i < |os|
      invariant 0 <= i <= |os|
      invariant list == EncodeObjectList(os[..i])
    {
      EncodeObjectListSnoc(os, i);
      list := list + EncodeObject(os[i]);
      i := i + 1;
    }
    assert os[..i] == os;
    out := [IntField(|os|)] + list;
  }

  /** readSceneB: the architecture check for version 2.1 files, then the camera, the lights and the objects. */
  method ReadSceneB(version: real, s: seq<Field>) returns (r: Option<SceneIO>)
    ensures r == DecodeScene(version, s)
  {
    var body := s;
    if version >= 2.1 {
      if |s| < 2 || s[0] != IntField(TEST_LONG) || s[1] != FltField(TEST_FLT) {
        return None;
      }
      body := s[2..];
    }
    var camera := DecodeCamera(body);
    if camera.None? {
      return None;
    }
    var lights := ReadLightsB(camera.value.rest);
    if lights.None? {
      return None;
    }
    var objects := ReadObjectsB(version, lights.value.rest);
    if objects.None? {
      return None;
    }
    return Some(SceneIO(camera.value.value, lights.value.value, objects.value.value));
  }

  /** writeSceneBinary after its header line. */
  method WriteSceneB(sc: SceneIO) returns (out: seq<Field>)
    ensures out == EncodeScene(sc)
  {
    var lights := WriteLightsB(sc.lights);
    var objects := WriteObjectsB(sc.objects);
    out := [IntField(TEST_LONG), FltField(TEST_FLT)] + (EncodeCamera(sc.camera) + (lights + objects));
  }

  // Once one record of a list fails to read, the list of any greater length fails too.

  lemma {:induction false} LightListFailsOnward(i: nat, k: nat, s: seq<Field>)
    requires i <= k && DecodeLightList(i, s).None?
    ensures DecodeLightList(k, s).None?
    decreases k
  {
    if i < k {
      LightListFailsOnward(i, k - 1, s);
    }
  }

  lemma {:induction false} MaterialListFailsOnward(i: nat, k: nat, s: seq<Field>)
    requires i <= k && DecodeMaterialList(i, s).None?
    ensures DecodeMaterialList(k, s).None?
    decreases k
  {
    if i < k {
      MaterialListFailsOnward(i, k - 1, s);
    }
  }

  lemma {:induction false} VertexListFailsOnward(f: VertexFormat, i: nat, k: nat, s: seq<Field>)
    requires i <= k && DecodeVertexList(f, i, s).None?
    ensures DecodeVertexList(f, k, s).None?
    decreases k
  {
    if i < k {
      VertexListFailsOnward(f, i, k - 1, s);
    }
  }

  lemma {:induction false} PolygonListFailsOnward(f: VertexFormat, i: nat, k: nat, s: seq<Field>)
    requires i <= k && DecodePolygonList(f, i, s).None?
    ensures DecodePolygonList(f, k, s).None?
    decreases k
  {
    if i < k {
      PolygonListFailsOnward(f, i, k - 1, s);
    }
  }

  lemma {:induction false} ObjectListFailsOnward(version: real, i: nat, k: nat, s: seq<Field>)
    requires i <= k && DecodeObjectList(version, i, s).None?
    ensures DecodeObjectList(version, k, s).None?
    decreases k - i
  {
    if i < k {
      ObjectListFailsAfter(version, i, s);
      ObjectListFailsOnward(version, i + 1, k, s);
    }
  }

  /** A list that fails at k objects fails at k + 1. */
  lemma ObjectListFailsAfter(version: real, k: nat, s: seq<Field>)
    requires DecodeObjectList(version, k, s).None?
    ensures DecodeObjectList(version, k + 1, s).None?
  {
  }

  /** An object that fails to read after k good ones ends the list read. */
  lemma ObjectListFails(version: real, k: nat, s: seq<Field>, prefix: seq<ObjIO>, mid: seq<Field>)
    requires DecodeObjectList(version, k, s) == Some(Read(prefix, mid))
    requires DecodeObject(version, mid).None?
    ensures DecodeObjectList(version, k + 1, s).None?
  {
  }

  lemma EncodeObjectListSnoc(os: seq<ObjIO>, i: nat)
    requires i < |os|
    ensures EncodeObjectList(os[..i + 1]) == EncodeObjectList(os[..i]) + EncodeObject(os[i])
  {
    assert os[..i + 1][..i] == os[..i];
  }
}
