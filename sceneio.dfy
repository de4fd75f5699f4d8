// The binary scene format: writers turn the scene records into a stream of
// fields, readers turn a stream back into records. A field is one fwrite of
// an integer (int or long), one float, or one character of a name; the
// reader of each record consumes exactly the fields its writer emits.
module SceneFiles {
  import opened Vectors
  import opened Optional
  import opened SceneRecords

  /** THIS_VERSION: the format version the writers emit. */
  const THIS_VERSION: real := 2.1

  /** Test_long and Test_Flt: the architecture test values after the header. */
  const TEST_LONG: int := 123456789
  const TEST_FLT: real := 3.1415926

  datatype Field = IntField(n: int) | FltField(x: real) | CharField(c: char)

  /** What a reader returns: the value read and the fields after it. */
  datatype Read<T> = Read(value: T, rest: seq<Field>)

  // ---------------------------------------------------------------- enum codes

  function LightCode(k: LightType): int
  {
    match k
    case PointLightType => 0
    case DirectionalLightType => 1
    case SpotLightType => 2
  }

  /** The light type with a given code; the codes are those of enum LightType. */
  function LightTypeOf(n: int): (r: Option<LightType>)
    ensures r.Some? <==> 0 <= n <= 2
    ensures r.Some? ==> LightCode(r.value) == n
  {
    if n == 0 then Some(PointLightType)
    else if n == 1 then Some(DirectionalLightType)
    else if n == 2 then Some(SpotLightType)
    else None
  }

  function PolySetCode(k: PolySetType): int
  {
    match k
    case TriMesh => 0
    case FaceSet => 1
    case QuadMesh => 2
  }

  function PolySetTypeOf(n: int): (r: Option<PolySetType>)
    ensures r.Some? <==> 0 <= n <= 2
    ensures r.Some? ==> PolySetCode(r.value) == n
  {
    if n == 0 then Some(TriMesh) else if n == 1 then Some(FaceSet) else if n == 2 then Some(QuadMesh) else None
  }

  function NormCode(k: NormType): int
  {
    match k
    case PerVertexNormal => 0
    case PerFaceNormal => 1
  }

  function NormTypeOf(n: int): (r: Option<NormType>)
    ensures r.Some? <==> 0 <= n <= 1
    ensures r.Some? ==> NormCode(r.value) == n
  {
    if n == 0 then Some(PerVertexNormal) else if n == 1 then Some(PerFaceNormal) else None
  }

  function BindingCode(k: MaterialBinding): int
  {
    match k
    case PerObjectMaterial => 0
    case PerVertexMaterial => 1
  }

  function BindingOf(n: int): (r: Option<MaterialBinding>)
    ensures r.Some? <==> 0 <= n <= 1
    ensures r.Some? ==> BindingCode(r.value) == n
  {
    if n == 0 then Some(PerObjectMaterial) else if n == 1 then Some(PerVertexMaterial) else None
  }

  /** enum ObjType: SPHERE_OBJ is 0, POLYSET_OBJ is 1. */
  function ObjCode(d: ObjData): int
  {
    if d.SphereData? then 0 else 1
  }

  /** TRUE and FALSE as written; any non-zero value reads as true. */
  function BoolCode(b: bool): int
  {
    if b then 1 else 0
  }

  /** The number of records a count field makes the list readers read: none for 0, one for any negative count, else the count. */
  function RecordsToRead(n: int): (k: nat)
    ensures n == 0 ==> k == 0
    ensures n < 0 ==> k == 1
    ensures n > 0 ==> k == n
  {
    if n == 0 then 0 else if n < 0 then 1 else n
  }

  /** The number of entries a `for (i = 0; i < n; ++i)` loop over a calloc'd array reads: n, or none when n is not positive. */
  function ArrayLength(n: int): (k: nat)
    ensures n > 0 ==> k == n
    ensures n <= 0 ==> k == 0
  {
    if n > 0 then n else 0
  }

  // ---------------------------------------------------------------- scalars

  /** Fields i .. j - 1 of s are floats. */
  predicate Flts(s: seq<Field>, i: int, j: int)
  {
    0 <= i <= j <= |s| && forall k :: i <= k < j ==> s[k].FltField?
  }

  function EncodeVec(v: Vector3): seq<Field>
  {
    [FltField(v.x), FltField(v.y), FltField(v.z)]
  }

  /** The vector in fields i, i + 1, i + 2. */
  function VecAt(s: seq<Field>, i: int): Vector3
    requires Flts(s, i, i + 3)
  {
    Vector3(s[i].x, s[i + 1].x, s[i + 2].x)
  }

  /** Appending is associative; stated over fields alone so that it is cheap to use. */
  lemma AppendAssoc(a: seq<Field>, b: seq<Field>, c: seq<Field>)
    ensures (a + b) + c == a + (b + c)
  {
  }

  /** Reading one field leaves the fields after it. */
  lemma DropFirst(x: Field, a: seq<Field>)
    ensures ([x] + a)[0] == x && ([x] + a)[1..] == a
  {
  }

  /** One fread of an integer. */
  function ReadInt(s: seq<Field>): (r: Option<Read<int>>)
    ensures r.Some? <==> |s| > 0 && s[0].IntField?
    ensures r.Some? ==> r.value.value == s[0].n && r.value.rest == s[1..]
  {
    if |s| > 0 && s[0].IntField? then Some(Read(s[0].n, s[1..])) else None
  }

  // ---------------------------------------------------------------- camera

  /** calloc's zeroed camera, which write_cameraB writes when there is no camera. */
  const ZeroCamera := CameraIO(Zero, Zero, 0.0, Zero, 0.0)

  /** write_cameraB: position, viewDirection, focalDistance, orthoUp, verticalFOV; zeros in their place when there is no camera. */
  function EncodeCamera(c: Option<CameraIO>): (r: seq<Field>)
  {
    var cam := if c.Some? then c.value else ZeroCamera;
    EncodeVec(cam.position) + EncodeVec(cam.viewDirection) + [FltField(cam.focalDistance)]
      + EncodeVec(cam.orthoUp) + [FltField(cam.verticalFOV)]
  }

  /** read_cameraB: eleven floats; a zero verticalFOV means no camera. */
  function DecodeCamera(s: seq<Field>): (r: Option<Read<Option<CameraIO>>>)
    ensures r.Some? <==> Flts(s, 0, 11)
    ensures r.Some? ==> r.value.rest == s[11..] && (r.value.value.None? <==> s[10].x == 0.0)
  {
    if Flts(s, 0, 11) then
      var cam := CameraIO(VecAt(s, 0), VecAt(s, 3), s[6].x, VecAt(s, 7), s[10].x);
      Some(Read(if cam.verticalFOV == 0.0 then None else Some(cam), s[11..]))
    else None
  }

  /** What the camera reader gives back: the camera, unless there is none or its field of view is zero. */
  function CameraAfterReading(c: Option<CameraIO>): Option<CameraIO>
  {
    if c.Some? && c.value.verticalFOV != 0.0 then c else None
  }

  /** A camera round-trips exactly when it is missing or has a non-zero field of view; one with a zero field of view reads back as missing. */
  lemma CameraRoundTrip(c: Option<CameraIO>, rest: seq<Field>)
    ensures DecodeCamera(EncodeCamera(c) + rest) == Some(Read(CameraAfterReading(c), rest))
    ensures CameraAfterReading(c) == c <==> c.None? || c.value.verticalFOV != 0.0
  {
    var s := EncodeCamera(c) + rest;
    assert Flts(s, 0, 11);
    assert s[11..] == rest;
    var cam := if c.Some? then c.value else ZeroCamera;
    assert CameraIO(VecAt(s, 0), VecAt(s, 3), s[6].x, VecAt(s, 7), s[10].x) == cam;
  }

  // ---------------------------------------------------------------- lights

  /** write_lightB: type, position, direction, color, dropOffRate, cutOffAngle. */
  function EncodeLight(l: LightIO): (r: seq<Field>)
  {
    [IntField(LightCode(l.kind))] + EncodeVec(l.position) + EncodeVec(l.direction) + EncodeVec(l.color)
      + [FltField(l.dropOffRate), FltField(l.cutOffAngle)]
  }

  /** read_lightB: the same twelve fields; the type code must name a light type. */
  function DecodeLight(s: seq<Field>): (r: Option<Read<LightIO>>)
    ensures r.Some? ==> |s| >= 12 && r.value.rest == s[12..]
  {
    if |s| >= 12 && s[0].IntField? && LightTypeOf(s[0].n).Some? && Flts(s, 1, 12) then
      Some(Read(LightIO(LightTypeOf(s[0].n).value, VecAt(s, 1), VecAt(s, 4), VecAt(s, 7), s[10].x, s[11].x), s[12..]))
    else None
  }

  /** read_lightB reads back exactly what write_lightB writes. */
  lemma LightRoundTrip(l: LightIO, rest: seq<Field>)
    ensures DecodeLight(EncodeLight(l) + rest) == Some(Read(l, rest))
  {
    var s := EncodeLight(l) + rest;
    assert s[..12] == EncodeLight(l) && s[12..] == rest;
    assert Flts(s, 1, 12);
    assert LightTypeOf(LightCode(l.kind)) == Some(l.kind);
  }

  /** The records of a list, one after another. */
  function EncodeLightList(ls: seq<LightIO>): seq<Field>
  {
    if |ls| == 0 then [] else EncodeLightList(ls[..|ls| - 1]) + EncodeLight(ls[|ls| - 1])
  }

  /** write_lightsB: the number of lights, then each light. */
  function EncodeLights(ls: seq<LightIO>): seq<Field>
  {
    [IntField(|ls|)] + EncodeLightList(ls)
  }

  /** k lights read one after another. */
  function DecodeLightList(k: nat, s: seq<Field>): (r: Option<Read<seq<LightIO>>>)
    ensures r.Some? ==> |r.value.value| == k
  {
    if k == 0 then Some(Read([], s))
    else match DecodeLightList(k - 1, s)
      case None => None
      case Some(prefix) =>
        match DecodeLight(prefix.rest)
        case None => None
        case Some(last) => Some(Read(prefix.value + [last.value], last.rest))
  }

  /** read_lightsB: a count, then that many lights (one for a negative count). */
  function DecodeLights(s: seq<Field>): (r: Option<Read<seq<LightIO>>>)
    ensures r.Some? ==> |s| > 0 && s[0].IntField? && |r.value.value| == RecordsToRead(s[0].n)
  {
    match ReadInt(s)
    case None => None
    case Some(count) => DecodeLightList(RecordsToRead(count.value), count.rest)
  }

  lemma {:induction false} LightListRoundTrip(ls: seq<LightIO>, rest: seq<Field>)
    ensures DecodeLightList(|ls|, EncodeLightList(ls) + rest) == Some(Read(ls, rest))
    decreases |ls|
  {
    if |ls| == 0 {
      assert EncodeLightList(ls) + rest == rest;
    } else {
      var init, last := ls[..|ls| - 1], ls[|ls| - 1];
      AppendAssoc(EncodeLightList(init), EncodeLight(last), rest);
      LightListRoundTrip(init, EncodeLight(last) + rest);
      LightRoundTrip(last, rest);
      assert init + [last] == ls;
    }
  }

  /** read_lightsB reads back exactly the list write_lightsB writes. */
  lemma LightsRoundTrip(ls: seq<LightIO>, rest: seq<Field>)
    ensures DecodeLights(EncodeLights(ls) + rest) == Some(Read(ls, rest))
  {
    var s := EncodeLights(ls) + rest;
    assert s[1..] == EncodeLightList(ls) + rest;
    LightListRoundTrip(ls, rest);
  }

  // ---------------------------------------------------------------- materials

  /** write_materialB: the four colours, shininess, ktran. */
  function EncodeMaterial(m: MaterialIO): (r: seq<Field>)
  {
    EncodeVec(m.diffColor) + EncodeVec(m.ambColor) + EncodeVec(m.specColor) + EncodeVec(m.emissColor)
      + [FltField(m.shininess), FltField(m.ktran)]
  }

  function DecodeMaterial(s: seq<Field>): (r: Option<Read<MaterialIO>>)
    ensures r.Some? <==> Flts(s, 0, 14)
    ensures r.Some? ==> r.value.rest == s[14..]
  {
    if Flts(s, 0, 14) then
      Some(Read(MaterialIO(VecAt(s, 0), VecAt(s, 3), VecAt(s, 6), VecAt(s, 9), s[12].x, s[13].x), s[14..]))
    else None
  }

  /** read_materialB reads back exactly what write_materialB writes. */
  lemma MaterialRoundTrip(m: MaterialIO, rest: seq<Field>)
    ensures DecodeMaterial(EncodeMaterial(m) + rest) == Some(Read(m, rest))
  {
    var s := EncodeMaterial(m) + rest;
    assert Flts(s, 0, 14);
    assert s[14..] == rest;
  }

  function EncodeMaterialList(ms: seq<MaterialIO>): seq<Field>
  {
    if |ms| == 0 then [] else EncodeMaterialList(ms[..|ms| - 1]) + EncodeMaterial(ms[|ms| - 1])
  }

  function DecodeMaterialList(k: nat, s: seq<Field>): (r: Option<Read<seq<MaterialIO>>>)
    ensures r.Some? ==> |r.value.value| == k
  {
    if k == 0 then Some(Read([], s))
    else match DecodeMaterialList(k - 1, s)
      case None => None
      case Some(prefix) =>
        match DecodeMaterial(prefix.rest)
        case None => None
        case Some(last) => Some(Read(prefix.value + [last.value], last.rest))
  }

  lemma {:induction false} MaterialListRoundTrip(ms: seq<MaterialIO>, rest: seq<Field>)
    ensures DecodeMaterialList(|ms|, EncodeMaterialList(ms) + rest) == Some(Read(ms, rest))
    decreases |ms|
  {
    if |ms| == 0 {
      assert EncodeMaterialList(ms) + rest == rest;
    } else {
      var init, last := ms[..|ms| - 1], ms[|ms| - 1];
      AppendAssoc(EncodeMaterialList(init), EncodeMaterial(last), rest);
      MaterialListRoundTrip(init, EncodeMaterial(last) + rest);
      MaterialRoundTrip(last, rest);
      assert init + [last] == ms;
    }
  }

  // ---------------------------------------------------------------- names

  /** A C string: no NUL inside it. */
  predicate CString(s: string)
  {
    forall k :: 0 <= k < |s| ==> s[k] != '\0'
  }

  function EncodeChars(s: string): (r: seq<Field>)
    ensures |r| == |s| && forall k :: 0 <= k < |s| ==> r[k] == CharField(s[k])
  {
    if |s| == 0 then [] else EncodeChars(s[..|s| - 1]) + [CharField(s[|s| - 1])]
  }

  /** The name in write_objectB: length -1 for none, else the length and the characters with the terminating NUL. */
  function EncodeName(name: Option<string>): seq<Field>
  {
    if name.None? then [IntField(-1)] else [IntField(|name.value|)] + EncodeChars(name.value + "\0")
  }

  /** Fields i .. j - 1 of s are characters. */
  predicate Chars(s: seq<Field>, i: int, j: int)
  {
    0 <= i <= j <= |s| && forall k :: i <= k < j ==> s[k].CharField?
  }

  /** The characters of the fields, up to the first NUL: the C string a char buffer holds. */
  function StringUpToNul(s: seq<Field>): (r: string)
    requires forall k :: 0 <= k < |s| ==> s[k].CharField?
    ensures CString(r) && |r| <= |s|
    ensures forall k :: 0 <= k < |r| ==> s[k] == CharField(r[k])
    ensures |r| < |s| ==> s[|r|] == CharField('\0')
  {
    if |s| == 0 || s[0].c == '\0' then [] else [s[0].c] + StringUpToNul(s[1..])
  }

  /**
   * read_objectB's name: a length of -1 is no name; a length n >= 0 is
   * followed by n + 1 characters, and the name is the C string they hold.
   * A buffer without its NUL, or any other length, is not readable.
   */
  function DecodeName(s: seq<Field>): (r: Option<Read<Option<string>>>)
    ensures r.Some? ==> |s| > 0 && s[0].IntField? && (r.value.value.None? <==> s[0].n == -1)
  {
    match ReadInt(s)
    case None => None
    case Some(len) =>
      if len.value == -1 then Some(Read(None, len.rest))
      else if 0 <= len.value && Chars(len.rest, 0, len.value + 1) then
        var name := StringUpToNul(len.rest[..len.value + 1]);
        if |name| <= len.value then Some(Read(Some(name), len.rest[len.value + 1..])) else None
      else None
  }

  /** A missing name, and any C string, reads back as written. */
  lemma NameRoundTrip(name: Option<string>, rest: seq<Field>)
    requires name.Some? ==> CString(name.value)
    ensures DecodeName(EncodeName(name) + rest) == Some(Read(name, rest))
  {
    var s := EncodeName(name) + rest;
    if name.Some? {
      var n := name.value;
      var body := EncodeChars(n + "\0");
      assert s[1..] == body + rest;
      assert Chars(s[1..], 0, |n| + 1);
      assert s[1..][..|n| + 1] == body;
      assert s[1..][|n| + 1..] == rest;
      StringUpToNulOfTerminated(n, body);
    }
  }

  lemma {:induction false} StringUpToNulOfTerminated(n: string, body: seq<Field>)
    requires CString(n) && body == EncodeChars(n + "\0")
    ensures forall k :: 0 <= k < |body| ==> body[k].CharField?
    ensures StringUpToNul(body) == n
    decreases |n|
  {
    if |n| > 0 {
      assert body[0] == CharField(n[0]);
      assert n[1..] + "\0" == (n + "\0")[1..];
      assert body[1..] == EncodeChars(n[1..] + "\0") by {
        var b := EncodeChars(n[1..] + "\0");
        assert |b| == |body[1..]|;
        forall k | 0 <= k < |b| ensures b[k] == body[1..][k] {
          assert b[k] == CharField((n + "\0")[k + 1]);
        }
      }
      StringUpToNulOfTerminated(n[1..], body[1..]);
      assert n == [n[0]] + n[1..];
    } else {
      assert body[0] == CharField('\0');
    }
  }

  // ---------------------------------------------------------------- spheres

  /** write_sphereB after the object header: origin, radius, then each axis with its length. */
  function EncodeSphere(sp: SphereIO): (r: seq<Field>)
  {
    EncodeVec(sp.origin) + [FltField(sp.radius)] + EncodeVec(sp.xaxis) + [FltField(sp.xlength)]
      + EncodeVec(sp.yaxis) + [FltField(sp.ylength)] + EncodeVec(sp.zaxis) + [FltField(sp.zlength)]
  }

  function DecodeSphere(s: seq<Field>): (r: Option<Read<SphereIO>>)
    ensures r.Some? <==> Flts(s, 0, 16)
    ensures r.Some? ==> r.value.rest == s[16..]
  {
    if Flts(s, 0, 16) then
      Some(Read(SphereIO(VecAt(s, 0), s[3].x, VecAt(s, 4), s[7].x, VecAt(s, 8), s[11].x, VecAt(s, 12), s[15].x), s[16..]))
    else None
  }

  lemma SphereRoundTrip(sp: SphereIO, rest: seq<Field>)
    ensures DecodeSphere(EncodeSphere(sp) + rest) == Some(Read(sp, rest))
  {
    var s := EncodeSphere(sp) + rest;
    assert Flts(s, 0, 16);
    assert s[16..] == rest;
  }

  // ---------------------------------------------------------------- polygon sets

  /** The per-vertex fields a polygon set carries, in the order its header gives them. */
  datatype VertexFormat = VertexFormat(normType: NormType, materialBinding: MaterialBinding, hasTextureCoords: bool)

  function FormatOf(p: PolySetIO): VertexFormat
  {
    VertexFormat(p.normType, p.materialBinding, p.hasTextureCoords)
  }

  /** pos; norm iff PER_VERTEX_NORMAL; materialIndex iff PER_VERTEX_MATERIAL; s and t iff hasTextureCoords. */
  function EncodeVertex(f: VertexFormat, v: VertexIO): seq<Field>
  {
    EncodeVec(v.pos) + (NormFields(f, v) + (IndexFields(f, v) + TextureFields(f, v)))
  }

  function NormFields(f: VertexFormat, v: VertexIO): seq<Field>
  {
    if f.normType == PerVertexNormal then EncodeVec(v.norm) else []
  }

  function IndexFields(f: VertexFormat, v: VertexIO): seq<Field>
  {
    if f.materialBinding == PerVertexMaterial then [IntField(v.materialIndex)] else []
  }

  function TextureFields(f: VertexFormat, v: VertexIO): seq<Field>
  {
    if f.hasTextureCoords then [FltField(v.s), FltField(v.t)] else []
  }

  /** The conditional fields of one vertex, each read only when the format has it. */
  function DecodeNorm(f: VertexFormat, s: seq<Field>): (r: Option<Read<Vector3>>)
    ensures r.Some? && f.normType != PerVertexNormal ==> r.value == Read(Zero, s)
  {
    if f.normType != PerVertexNormal then Some(Read(Zero, s))
    else if Flts(s, 0, 3) then Some(Read(VecAt(s, 0), s[3..]))
    else None
  }

  function DecodeMaterialIndex(f: VertexFormat, s: seq<Field>): (r: Option<Read<int>>)
    ensures r.Some? && f.materialBinding != PerVertexMaterial ==> r.value == Read(0, s)
  {
    if f.materialBinding != PerVertexMaterial then Some(Read(0, s)) else ReadInt(s)
  }

  function DecodeTexture(f: VertexFormat, s: seq<Field>): (r: Option<Read<(real, real)>>)
    ensures r.Some? && !f.hasTextureCoords ==> r.value == Read((0.0, 0.0), s)
  {
    if !f.hasTextureCoords then Some(Read((0.0, 0.0), s))
    else if Flts(s, 0, 2) then Some(Read((s[0].x, s[1].x), s[2..]))
    else None
  }

  /** read_poly_setB's vertex: the fields its writer emits; those absent stay as calloc left them, zero. */
  function DecodeVertex(f: VertexFormat, s: seq<Field>): Option<Read<VertexIO>>
  {
    if !Flts(s, 0, 3) then None
    else
      match DecodeNorm(f, s[3..])
      case None => None
      case Some(norm) =>
        match DecodeMaterialIndex(f, norm.rest)
        case None => None
        case Some(index) =>
          match DecodeTexture(f, index.rest)
          case None => None
          case Some(st) => Some(Read(VertexIO(VecAt(s, 0), norm.value, index.value, st.value.0, st.value.1), st.rest))
  }

  /** A vertex as it reads back: the fields its format leaves out are zero. */
  function ScrubVertex(f: VertexFormat, v: VertexIO): VertexIO
  {
    VertexIO(v.pos,
             if f.normType == PerVertexNormal then v.norm else Zero,
             if f.materialBinding == PerVertexMaterial then v.materialIndex else 0,
             if f.hasTextureCoords then v.s else 0.0,
             if f.hasTextureCoords then v.t else 0.0)
  }

  lemma NormRoundTrip(f: VertexFormat, v: VertexIO, rest: seq<Field>)
    ensures DecodeNorm(f, NormFields(f, v) + rest) == Some(Read(ScrubVertex(f, v).norm, rest))
  {
    var s := NormFields(f, v) + rest;
    if f.normType == PerVertexNormal {
      assert Flts(s, 0, 3) && VecAt(s, 0) == v.norm && s[3..] == rest;
    } else {
      assert s == rest;
    }
  }

  lemma IndexRoundTrip(f: VertexFormat, v: VertexIO, rest: seq<Field>)
    ensures DecodeMaterialIndex(f, IndexFields(f, v) + rest) == Some(Read(ScrubVertex(f, v).materialIndex, rest))
  {
    if f.materialBinding == PerVertexMaterial {
      DropFirst(IntField(v.materialIndex), rest);
    } else {
      assert IndexFields(f, v) + rest == rest;
    }
  }

  lemma TextureRoundTrip(f: VertexFormat, v: VertexIO, rest: seq<Field>)
    ensures DecodeTexture(f, TextureFields(f, v) + rest) == Some(Read((ScrubVertex(f, v).s, ScrubVertex(f, v).t), rest))
  {
    var s := TextureFields(f, v) + rest;
    if f.hasTextureCoords {
      assert Flts(s, 0, 2) && s[0].x == v.s && s[1].x == v.t && s[2..] == rest;
    } else {
      assert s == rest;
    }
  }

  /** The vertex reader reads back the fields the vertex writer emits, under the same conditions. */
  lemma VertexRoundTrip(f: VertexFormat, v: VertexIO, rest: seq<Field>)
    ensures DecodeVertex(f, EncodeVertex(f, v) + rest) == Some(Read(ScrubVertex(f, v), rest))
  {
    var r2 := TextureFields(f, v) + rest;
    var r1 := IndexFields(f, v) + r2;
    var r0 := NormFields(f, v) + r1;
    var s := EncodeVertex(f, v) + rest;
    assert s == EncodeVec(v.pos) + r0 by {
      AppendAssoc(IndexFields(f, v), TextureFields(f, v), rest);
      AppendAssoc(NormFields(f, v), IndexFields(f, v) + TextureFields(f, v), rest);
      AppendAssoc(EncodeVec(v.pos), NormFields(f, v) + (IndexFields(f, v) + TextureFields(f, v)), rest);
    }
    assert Flts(s, 0, 3) && VecAt(s, 0) == v.pos && s[3..] == r0;
    NormRoundTrip(f, v, r1);
    IndexRoundTrip(f, v, r2);
    TextureRoundTrip(f, v, rest);
  }

  function EncodeVertexList(f: VertexFormat, vs: seq<VertexIO>): seq<Field>
  {
    if |vs| == 0 then [] else EncodeVertexList(f, vs[..|vs| - 1]) + EncodeVertex(f, vs[|vs| - 1])
  }

  function DecodeVertexList(f: VertexFormat, k: nat, s: seq<Field>): (r: Option<Read<seq<VertexIO>>>)
    ensures r.Some? ==> |r.value.value| == k
  {
    if k == 0 then Some(Read([], s))
    else match DecodeVertexList(f, k - 1, s)
      case None => None
      case Some(prefix) =>
        match DecodeVertex(f, prefix.rest)
        case None => None
        case Some(last) => Some(Read(prefix.value + [last.value], last.rest))
  }

  /** A polygon: its numVertices, then its vertices. */
  function EncodePolygon(f: VertexFormat, p: PolygonIO): seq<Field>
  {
    [IntField(|p.vert|)] + EncodeVertexList(f, p.vert)
  }

  function DecodePolygon(f: VertexFormat, s: seq<Field>): (r: Option<Read<PolygonIO>>)
    ensures r.Some? ==> |s| > 0 && s[0].IntField? && |r.value.value.vert| == ArrayLength(s[0].n)
  {
    match ReadInt(s)
    case None => None
    case Some(count) =>
      match DecodeVertexList(f, ArrayLength(count.value), count.rest)
      case None => None
      case Some(vs) => Some(Read(PolygonIO(vs.value), vs.rest))
  }

  function EncodePolygonList(f: VertexFormat, ps: seq<PolygonIO>): seq<Field>
  {
    if |ps| == 0 then [] else EncodePolygonList(f, ps[..|ps| - 1]) + EncodePolygon(f, ps[|ps| - 1])
  }

  function DecodePolygonList(f: VertexFormat, k: nat, s: seq<Field>): (r: Option<Read<seq<PolygonIO>>>)
    ensures r.Some? ==> |r.value.value| == k
  {
    if k == 0 then Some(Read([], s))
    else match DecodePolygonList(f, k - 1, s)
      case None => None
      case Some(prefix) =>
        match DecodePolygon(f, prefix.rest)
        case None => None
        case Some(last) => Some(Read(prefix.value + [last.value], last.rest))
  }

  /** Vertices as they read back. */
  function ScrubVertices(f: VertexFormat, vs: seq<VertexIO>): (r: seq<VertexIO>)
    ensures |r| == |vs| && forall j :: 0 <= j < |vs| ==> r[j] == ScrubVertex(f, vs[j])
  {
    seq(|vs|, j requires 0 <= j < |vs| => ScrubVertex(f, vs[j]))
  }

  /** The polygons of a set as they read back. */
  function ScrubPolygons(f: VertexFormat, ps: seq<PolygonIO>): (r: seq<PolygonIO>)
    ensures |r| == |ps| && forall i :: 0 <= i < |ps| ==> r[i] == PolygonIO(ScrubVertices(f, ps[i].vert))
  {
    seq(|ps|, i requires 0 <= i < |ps| => PolygonIO(ScrubVertices(f, ps[i].vert)))
  }

  /** A polygon set as it reads back: every vertex scrubbed of the fields its format leaves out. */
  function ScrubPolySet(p: PolySetIO): PolySetIO
  {
    p.(poly := ScrubPolygons(FormatOf(p), p.poly))
  }

  /** write_poly_setB after the object header: type, normType, materialBinding, hasTextureCoords, rowSize, numPolys, then the polygons. */
  function EncodePolySet(p: PolySetIO): seq<Field>
  {
    [IntField(PolySetCode(p.kind)), IntField(NormCode(p.normType)), IntField(BindingCode(p.materialBinding)),
     IntField(BoolCode(p.hasTextureCoords)), IntField(p.rowSize), IntField(|p.poly|)]
      + EncodePolygonList(FormatOf(p), p.poly)
  }

  /** The header of a polygon set before its polygons. */
  datatype PolySetHeader = PolySetHeader(kind: PolySetType, format: VertexFormat, rowSize: int, numPolys: int)

  /**
   * read_poly_setB's header: type and normType, then, for files newer than
   * version 2.0, materialBinding and hasTextureCoords (older ones get
   * PER_OBJECT_MATERIAL and no texture coordinates), then rowSize and numPolys.
   */
  function DecodePolySetHeader(version: real, s: seq<Field>): (r: Option<Read<PolySetHeader>>)
    ensures r.Some? && version <= 2.0 ==>
      r.value.value.format.materialBinding == PerObjectMaterial && !r.value.value.format.hasTextureCoords
  {
    var n := if version <= 2.0 then 4 else 6;
    if |s| >= n && (forall k :: 0 <= k < n ==> s[k].IntField?) && PolySetTypeOf(s[0].n).Some? && NormTypeOf(s[1].n).Some?
       && (version > 2.0 ==> BindingOf(s[2].n).Some?) then
      var binding := if version <= 2.0 then PerObjectMaterial else BindingOf(s[2].n).value;
      var hasTex := if version <= 2.0 then false else s[3].n != 0;
      Some(Read(PolySetHeader(PolySetTypeOf(s[0].n).value, VertexFormat(NormTypeOf(s[1].n).value, binding, hasTex),
                              s[n - 2].n, s[n - 1].n), s[n..]))
    else None
  }

  function DecodePolySet(version: real, s: seq<Field>): (r: Option<Read<PolySetIO>>)
    ensures r.Some? && version <= 2.0 ==> r.value.value.materialBinding == PerObjectMaterial && !r.value.value.hasTextureCoords
  {
    match DecodePolySetHeader(version, s)
    case None => None
    case Some(h) =>
      var f := h.value.format;
      match DecodePolygonList(f, ArrayLength(h.value.numPolys), h.rest)
      case None => None
      case Some(ps) =>
        Some(Read(PolySetIO(h.value.kind, f.normType, f.materialBinding, f.hasTextureCoords, h.value.rowSize, ps.value), ps.rest))
  }

  lemma {:induction false} VertexListRoundTrip(f: VertexFormat, vs: seq<VertexIO>, rest: seq<Field>)
    ensures DecodeVertexList(f, |vs|, EncodeVertexList(f, vs) + rest)
         == Some(Read(ScrubVertices(f, vs), rest))
    decreases |vs|
  {
    if |vs| == 0 {
      assert EncodeVertexList(f, vs) + rest == rest;
    } else {
      var init, last := vs[..|vs| - 1], vs[|vs| - 1];
      AppendAssoc(EncodeVertexList(f, init), EncodeVertex(f, last), rest);
      VertexListRoundTrip(f, init, EncodeVertex(f, last) + rest);
      VertexRoundTrip(f, last, rest);
      assert ScrubVertices(f, init) + [ScrubVertex(f, last)] == ScrubVertices(f, vs);
    }
  }

  lemma PolygonRoundTrip(f: VertexFormat, p: PolygonIO, rest: seq<Field>)
    ensures DecodePolygon(f, EncodePolygon(f, p) + rest)
         == Some(Read(PolygonIO(ScrubVertices(f, p.vert)), rest))
  {
    var s := EncodePolygon(f, p) + rest;
    assert s[1..] == EncodeVertexList(f, p.vert) + rest;
    VertexListRoundTrip(f, p.vert, rest);
  }

  lemma {:induction false} PolygonListRoundTrip(f: VertexFormat, ps: seq<PolygonIO>, rest: seq<Field>)
    ensures DecodePolygonList(f, |ps|, EncodePolygonList(f, ps) + rest) == Some(Read(ScrubPolygons(f, ps), rest))
    decreases |ps|
  {
    if |ps| == 0 {
      assert EncodePolygonList(f, ps) + rest == rest;
    } else {
      var init, last := ps[..|ps| - 1], ps[|ps| - 1];
      AppendAssoc(EncodePolygonList(f, init), EncodePolygon(f, last), rest);
      PolygonListRoundTrip(f, init, EncodePolygon(f, last) + rest);
      PolygonRoundTrip(f, last, rest);
      assert ScrubPolygons(f, init) + [ScrubPolygons(f, ps)[|ps| - 1]] == ScrubPolygons(f, ps);
    }
  }

  /** A polygon set written at the current version reads back with every vertex field its format carries. */
  lemma PolySetRoundTrip(p: PolySetIO, rest: seq<Field>)
    ensures DecodePolySet(THIS_VERSION, EncodePolySet(p) + rest) == Some(Read(ScrubPolySet(p), rest))
  {
    var s := EncodePolySet(p) + rest;
    var f := FormatOf(p);
    assert s[6..] == EncodePolygonList(f, p.poly) + rest;
    assert BindingOf(BindingCode(p.materialBinding)) == Some(p.materialBinding);
    assert PolySetTypeOf(PolySetCode(p.kind)) == Some(p.kind);
    assert NormTypeOf(NormCode(p.normType)) == Some(p.normType);
    assert (BoolCode(p.hasTextureCoords) != 0) == p.hasTextureCoords;
    assert DecodePolySetHeader(THIS_VERSION, s)
        == Some(Read(PolySetHeader(p.kind, f, p.rowSize, |p.poly|), s[6..]));
    PolygonListRoundTrip(f, p.poly, rest);
  }

  /** The vertex fields a set's format leaves out are already zero: the polygon set reads back unchanged. */
  predicate Scrubbed(p: PolySetIO)
  {
    forall i, j :: 0 <= i < |p.poly| && 0 <= j < |p.poly[i].vert| ==>
      ScrubVertex(FormatOf(p), p.poly[i].vert[j]) == p.poly[i].vert[j]
  }

  lemma ScrubbedPolySetRoundTrip(p: PolySetIO, rest: seq<Field>)
    requires Scrubbed(p)
    ensures DecodePolySet(THIS_VERSION, EncodePolySet(p) + rest) == Some(Read(p, rest))
  {
    PolySetRoundTrip(p, rest);
    var q := ScrubPolySet(p);
    assert |q.poly| == |p.poly|;
    forall i | 0 <= i < |p.poly| ensures q.poly[i] == p.poly[i] {
      assert q.poly[i].vert == p.poly[i].vert;
    }
    assert q.poly == p.poly;
  }

  // ---------------------------------------------------------------- objects

  /** write_objectB followed by the sphere or polygon-set data: type, name, numMaterials, the materials, the data. */
  function EncodeObject(o: ObjIO): seq<Field>
  {
    [IntField(ObjCode(o.data))] + (EncodeName(o.name) + ([IntField(|o.material|)] + (EncodeMaterialList(o.material) + EncodeData(o.data))))
  }

  function EncodeData(d: ObjData): seq<Field>
  {
    if d.SphereData? then EncodeSphere(d.sphere) else EncodePolySet(d.polyset)
  }

  /** numMaterials: one without reading for files of version 2.0 or older, else read from the stream. */
  function DecodeMaterialCount(version: real, s: seq<Field>): (r: Option<Read<int>>)
    ensures r.Some? && version <= 2.0 ==> r.value == Read(1, s)
  {
    if version <= 2.0 then Some(Read(1, s)) else ReadInt(s)
  }

  /**
   * read_objectB: the type, the name, the material count and materials,
   * then the sphere or polygon set the type announces; an unknown type
   * leaves the object without data, which is not readable here.
   */
  function DecodeObject(version: real, s: seq<Field>): (r: Option<Read<ObjIO>>)
    ensures r.Some? && version <= 2.0 ==> |r.value.value.material| == 1
  {
    match ReadInt(s)
    case None => None
    case Some(code) =>
      if !(0 <= code.value <= 1) then None
      else match DecodeName(code.rest)
        case None => None
        case Some(name) =>
          match DecodeMaterialCount(version, name.rest)
          case None => None
          case Some(count) =>
            match DecodeMaterialList(ArrayLength(count.value), count.rest)
            case None => None
            case Some(ms) =>
              if code.value == 0 then
                match DecodeSphere(ms.rest)
                case None => None
                case Some(sp) => Some(Read(ObjIO(name.value, ms.value, SphereData(sp.value)), sp.rest))
              else
                match DecodePolySet(version, ms.rest)
                case None => None
                case Some(p) => Some(Read(ObjIO(name.value, ms.value, PolySetData(p.value)), p.rest))
  }

  /** An object as it reads back: a polygon set loses the vertex fields its format leaves out. */
  function ObjectAfterReading(o: ObjIO): ObjIO
  {
    if o.data.SphereData? then o else o.(data := PolySetData(ScrubPolySet(o.data.polyset)))
  }

  /** The data after an object's materials reads back as written, up to scrubbing. */
  lemma DataRoundTrip(d: ObjData, rest: seq<Field>)
    ensures d.SphereData? ==> DecodeSphere(EncodeData(d) + rest) == Some(Read(d.sphere, rest))
    ensures d.PolySetData? ==> DecodePolySet(THIS_VERSION, EncodeData(d) + rest) == Some(Read(ScrubPolySet(d.polyset), rest))
  {
    if d.SphereData? {
      SphereRoundTrip(d.sphere, rest);
    } else {
      PolySetRoundTrip(d.polyset, rest);
    }
  }

  /** How read_objectB composes the readers of its parts. */
  lemma DecodeObjectOfParts(s: seq<Field>, code: int, afterCode: seq<Field>, name: Option<string>, afterName: seq<Field>,
                            ms: seq<MaterialIO>, afterCount: seq<Field>, afterMaterials: seq<Field>, d: ObjData, rest: seq<Field>)
    requires ReadInt(s) == Some(Read(code, afterCode)) && code == ObjCode(d)
    requires DecodeName(afterCode) == Some(Read(name, afterName))
    requires DecodeMaterialCount(THIS_VERSION, afterName) == Some(Read(|ms|, afterCount))
    requires DecodeMaterialList(|ms|, afterCount) == Some(Read(ms, afterMaterials))
    requires d.SphereData? ==> DecodeSphere(afterMaterials) == Some(Read(d.sphere, rest))
    requires d.PolySetData? ==> DecodePolySet(THIS_VERSION, afterMaterials) == Some(Read(ScrubPolySet(d.polyset), rest))
    ensures DecodeObject(THIS_VERSION, s) == Some(Read(ObjectAfterReading(ObjIO(name, ms, d)), rest))
  {
    assert ArrayLength(|ms|) == |ms|;
  }

  /** Objects whose names are C strings read back as written, up to the scrubbing of polygon-set vertices. */
  lemma ObjectRoundTrip(o: ObjIO, rest: seq<Field>)
    requires o.name.Some? ==> CString(o.name.value)
    ensures DecodeObject(THIS_VERSION, EncodeObject(o) + rest) == Some(Read(ObjectAfterReading(o), rest))
  {
    var afterMaterials := EncodeData(o.data) + rest;
    var afterCount := EncodeMaterialList(o.material) + afterMaterials;
    var afterName := [IntField(|o.material|)] + afterCount;
    var afterCode := EncodeName(o.name) + afterName;
    var s := EncodeObject(o) + rest;
    assert s == [IntField(ObjCode(o.data))] + afterCode by {
      AppendAssoc(EncodeMaterialList(o.material), EncodeData(o.data), rest);
      AppendAssoc([IntField(|o.material|)], EncodeMaterialList(o.material) + EncodeData(o.data), rest);
      AppendAssoc(EncodeName(o.name), [IntField(|o.material|)] + (EncodeMaterialList(o.material) + EncodeData(o.data)), rest);
      AppendAssoc([IntField(ObjCode(o.data))], EncodeName(o.name) + ([IntField(|o.material|)] + (EncodeMaterialList(o.material) + EncodeData(o.data))), rest);
    }
    assert ReadInt(s) == Some(Read(ObjCode(o.data), afterCode)) by {
      DropFirst(IntField(ObjCode(o.data)), afterCode);
    }
    NameRoundTrip(o.name, afterName);
    assert DecodeMaterialCount(THIS_VERSION, afterName) == Some(Read(|o.material|, afterCount)) by {
      DropFirst(IntField(|o.material|), afterCount);
    }
    MaterialListRoundTrip(o.material, afterMaterials);
    DataRoundTrip(o.data, rest);
    DecodeObjectOfParts(s, ObjCode(o.data), afterCode, o.name, afterName, o.material, afterCount, afterMaterials, o.data, rest);
  }

  function EncodeObjectList(os: seq<ObjIO>): seq<Field>
  {
    if |os| == 0 then [] else EncodeObjectList(os[..|os| - 1]) + EncodeObject(os[|os| - 1])
  }

  /** write_objectsB: the number of objects, then each object. */
  function EncodeObjects(os: seq<ObjIO>): seq<Field>
  {
    [IntField(|os|)] + EncodeObjectList(os)
  }

  function DecodeObjectList(version: real, k: nat, s: seq<Field>): (r: Option<Read<seq<ObjIO>>>)
    ensures r.Some? ==> |r.value.value| == k
  {
    if k == 0 then Some(Read([], s))
    else match DecodeObjectList(version, k - 1, s)
      case None => None
      case Some(prefix) =>
        match DecodeObject(version, prefix.rest)
        case None => None
        case Some(last) => Some(Read(prefix.value + [last.value], last.rest))
  }

  /** read_objectsB: a count, then that many objects (one for a negative count). */
  function DecodeObjects(version: real, s: seq<Field>): (r: Option<Read<seq<ObjIO>>>)
    ensures r.Some? ==> |s| > 0 && s[0].IntField? && |r.value.value| == RecordsToRead(s[0].n)
  {
    match ReadInt(s)
    case None => None
    case Some(count) => DecodeObjectList(version, RecordsToRead(count.value), count.rest)
  }

  predicate NamesAreCStrings(os: seq<ObjIO>)
  {
    forall i :: 0 <= i < |os| && os[i].name.Some? ==> CString(os[i].name.value)
  }

  function ObjectsAfterReading(os: seq<ObjIO>): (r: seq<ObjIO>)
    ensures |r| == |os| && forall i :: 0 <= i < |os| ==> r[i] == ObjectAfterReading(os[i])
  {
    seq(|os|, i requires 0 <= i < |os| => ObjectAfterReading(os[i]))
  }

  lemma ObjectsAfterReadingSnoc(os: seq<ObjIO>)
    requires |os| > 0
    ensures ObjectsAfterReading(os[..|os| - 1]) + [ObjectAfterReading(os[|os| - 1])] == ObjectsAfterReading(os)
  {
    var a := ObjectsAfterReading(os[..|os| - 1]) + [ObjectAfterReading(os[|os| - 1])];
    var b := ObjectsAfterReading(os);
    forall i | 0 <= i < |os| ensures a[i] == b[i] {
      if i < |os| - 1 {
        assert a[i] == ObjectsAfterReading(os[..|os| - 1])[i];
      }
    }
  }

  /** Reading one more object after k of them. */
  lemma DecodeObjectListStep(version: real, k: nat, s: seq<Field>, prefix: seq<ObjIO>, mid: seq<Field>, last: ObjIO, rest: seq<Field>)
    requires DecodeObjectList(version, k, s) == Some(Read(prefix, mid))
    requires DecodeObject(version, mid) == Some(Read(last, rest))
    ensures DecodeObjectList(version, k + 1, s) == Some(Read(prefix + [last], rest))
  {
  }

  lemma {:induction false} ObjectListRoundTrip(os: seq<ObjIO>, rest: seq<Field>)
    requires NamesAreCStrings(os)
    ensures DecodeObjectList(THIS_VERSION, |os|, EncodeObjectList(os) + rest) == Some(Read(ObjectsAfterReading(os), rest))
    decreases |os|
  {
    if |os| == 0 {
      assert EncodeObjectList(os) + rest == rest;
    } else {
      var init, last := os[..|os| - 1], os[|os| - 1];
      var mid := EncodeObject(last) + rest;
      AppendAssoc(EncodeObjectList(init), EncodeObject(last), rest);
      assert NamesAreCStrings(init);
      ObjectListRoundTrip(init, mid);
      ObjectRoundTrip(last, rest);
      DecodeObjectListStep(THIS_VERSION, |init|, EncodeObjectList(init) + mid, ObjectsAfterReading(init), mid, ObjectAfterReading(last), rest);
      ObjectsAfterReadingSnoc(os);
    }
  }

  lemma ObjectsRoundTrip(os: seq<ObjIO>, rest: seq<Field>)
    requires NamesAreCStrings(os)
    ensures DecodeObjects(THIS_VERSION, EncodeObjects(os) + rest) == Some(Read(ObjectsAfterReading(os), rest))
  {
    var s := EncodeObjects(os) + rest;
    assert s[1..] == EncodeObjectList(os) + rest;
    ObjectListRoundTrip(os, rest);
  }

  // ---------------------------------------------------------------- scenes

  /** writeSceneBinary after its header line: the architecture test values, the camera, the lights, the objects. */
  function EncodeScene(sc: SceneIO): seq<Field>
  {
    [IntField(TEST_LONG), FltField(TEST_FLT)] + (EncodeCamera(sc.camera) + (EncodeLights(sc.lights) + EncodeObjects(sc.objects)))
  }

  /**
   * readSceneB: for version 2.1 files the architecture test values must
   * match; then camera, lights and objects. Fields after the objects are
   * never read.
   */
  function DecodeScene(version: real, s: seq<Field>): (r: Option<SceneIO>)
    ensures version >= 2.1 && (|s| < 2 || s[0] != IntField(TEST_LONG) || s[1] != FltField(TEST_FLT)) ==> r.None?
  {
    if version >= 2.1 && (|s| < 2 || s[0] != IntField(TEST_LONG) || s[1] != FltField(TEST_FLT)) then None
    else
      var body := if version >= 2.1 then s[2..] else s;
      match DecodeCamera(body)
      case None => None
      case Some(cam) =>
        match DecodeLights(cam.rest)
        case None => None
        case Some(ls) =>
          match DecodeObjects(version, ls.rest)
          case None => None
          case Some(os) => Some(SceneIO(cam.value, ls.value, os.value))
  }

  /** A scene as it reads back from its binary file. */
  function SceneAfterReading(sc: SceneIO): SceneIO
  {
    SceneIO(CameraAfterReading(sc.camera), sc.lights, ObjectsAfterReading(sc.objects))
  }

  /** How readSceneB composes the readers of its parts. */
  lemma DecodeSceneOfParts(s: seq<Field>, cam: Option<CameraIO>, afterCamera: seq<Field>, ls: seq<LightIO>,
                           afterLights: seq<Field>, os: seq<ObjIO>, rest: seq<Field>)
    requires |s| >= 2 && s[0] == IntField(TEST_LONG) && s[1] == FltField(TEST_FLT)
    requires DecodeCamera(s[2..]) == Some(Read(cam, afterCamera))
    requires DecodeLights(afterCamera) == Some(Read(ls, afterLights))
    requires DecodeObjects(THIS_VERSION, afterLights) == Some(Read(os, rest))
    ensures DecodeScene(THIS_VERSION, s) == Some(SceneIO(cam, ls, os))
  {
  }

  /** readSceneB reads back what writeSceneBinary writes, whatever follows it. */
  lemma SceneRoundTrip(sc: SceneIO, rest: seq<Field>)
    requires NamesAreCStrings(sc.objects)
    ensures DecodeScene(THIS_VERSION, EncodeScene(sc) + rest) == Some(SceneAfterReading(sc))
  {
    var afterLights := EncodeObjects(sc.objects) + rest;
    var afterCamera := EncodeLights(sc.lights) + afterLights;
    var body := EncodeCamera(sc.camera) + afterCamera;
    var s := EncodeScene(sc) + rest;
    assert s == [IntField(TEST_LONG), FltField(TEST_FLT)] + body by {
      AppendAssoc(EncodeLights(sc.lights), EncodeObjects(sc.objects), rest);
      AppendAssoc(EncodeCamera(sc.camera), EncodeLights(sc.lights) + EncodeObjects(sc.objects), rest);
      AppendAssoc([IntField(TEST_LONG), FltField(TEST_FLT)], EncodeCamera(sc.camera) + (EncodeLights(sc.lights) + EncodeObjects(sc.objects)), rest);
    }
    assert s[2..] == body;
    CameraRoundTrip(sc.camera, afterCamera);
    LightsRoundTrip(sc.lights, afterLights);
    ObjectsRoundTrip(sc.objects, rest);
    DecodeSceneOfParts(s, CameraAfterReading(sc.camera), afterCamera, sc.lights, afterLights, ObjectsAfterReading(sc.objects), rest);
  }

  /** The defaults an object read from a file of version 2.0 or older has. */
  predicate OldObjectDefaults(o: ObjIO)
  {
    |o.material| == 1 && (o.data.PolySetData? ==> o.data.polyset.materialBinding == PerObjectMaterial && !o.data.polyset.hasTextureCoords)
  }

  /** One object read from a file of version 2.0 or older has the old defaults. */
  lemma OldObjectHasDefaults(version: real, s: seq<Field>)
    requires version <= 2.0
    ensures DecodeObject(version, s).Some? ==> OldObjectDefaults(DecodeObject(version, s).value.value)
  {
  }

  /** Files of version 2.0 or older give every object one material and no polygon set per-vertex materials or texture coordinates. */
  lemma {:induction false} OldVersionDefaults(version: real, s: seq<Field>, k: nat)
    requires version <= 2.0
    ensures DecodeObjectList(version, k, s).Some? ==>
      forall i :: 0 <= i < k ==> var o := DecodeObjectList(version, k, s).value.value[i];
        |o.material| == 1 && (o.data.PolySetData? ==> o.data.polyset.materialBinding == PerObjectMaterial && !o.data.polyset.hasTextureCoords)
    decreases k
  {
    if k > 0 && DecodeObjectList(version, k, s).Some? {
      OldVersionDefaults(version, s, k - 1);
      var prefix := DecodeObjectList(version, k - 1, s).value;
      OldObjectHasDefaults(version, prefix.rest);
      var last := DecodeObject(version, prefix.rest).value;
      var os := DecodeObjectList(version, k, s).value.value;
      assert os == prefix.value + [last.value];
      forall i | 0 <= i < k
        ensures OldObjectDefaults(os[i])
      {
        if i < k - 1 {
          assert os[i] == prefix.value[i];
        }
      }
    }
  }
}
