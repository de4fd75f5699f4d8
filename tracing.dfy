// The recursive integrator: traceRay and the direct-lighting term it sums.
//
// What traceRay asks of the rest of the program (the scene's closest-hit and
// shadow queries, an object's index of refraction and colour shader, the
// subsurface estimator) is collected in a `World` value, so that one ray's
// colour is a function of the world, the ray, the bounce count and the stack
// of objects the ray is inside. `SceneWorld` builds that value from a loaded
// scene. The stack is a `seq`, a value: every call works on its own copy,
// exactly as the by-value `std::vector<Object*>` parameter does.
module Tracing {
  import opened Floats
  import opened Vectors
  import opened Optional
  import opened Materials
  import opened Lights
  import opened Shaders
  import opened KDQuery
  import opened Scenes

  /** Maximum bounces before recursion terminates. */
  const MAX_BOUNCES: int := 10
  /** The largest specular component must exceed this for a reflection ray to be spawned. */
  const MIN_SHININESS: real := 0.01
  /** ktran must exceed this for a refraction ray to be spawned. */
  const MIN_TRANSPARENCY: real := 0.01
  /** How far spawned rays are pushed off the surface along the normal. */
  const PUSH_SPAWNED_RAYS: real := 0.0001

  /** The closest hit of a ray: the hit record and the object its primitive belongs to. */
  datatype SurfaceHit = SurfaceHit(data: HitData, obj: nat)

  /** Everything traceRay consults besides its own arguments. */
  datatype World = World(
    math: Math,
    // scene->GetClosestIntersection(origin, direction, ...)
    closest: (Vector3, Vector3) -> Option<SurfaceHit>,
    // scene->TraceShadowRay(origin, direction, shadowFactor, maxDist)
    shadow: (Vector3, Vector3, real) -> Vector3,
    // object->indexOfRefraction
    indexOfRefraction: nat -> real,
    // the material after object->colorShader (if any) has shaded the hit
    shade: (nat, HitData) -> Material,
    lights: seq<Light>,
    // getSubsurfaceRadiance(direction, hitData)
    subsurface: (Vector3, HitData) -> Vector3)

  /** Every object's index of refraction is positive, so n1 / n2 is defined and positive. */
  ghost predicate PositiveIndices(w: World)
  {
    forall o: nat :: w.indexOfRefraction(o) > 0.0
  }

  // ---------------------------------------------------------------- normal orientation

  /**
   * The two flips of the hit normal: once if the ray is inside the hit
   * object, and once more if the normal still points along the ray.
   */
  function OrientNormal(direction: Vector3, normal: Vector3, stack: seq<nat>, o: nat): (r: Vector3)
    ensures Dot(direction, r) <= 0.0
    ensures r == normal || r == Neg(normal)
  {
    var n1 := if |stack| > 0 && o in stack then Neg(normal) else normal;
    NegProperties(n1, direction);
    NegProperties(normal, direction);
    if Dot(direction, n1) > 0.0 then Neg(n1) else n1
  }

  /** The hit record traceRay works with: normal oriented against the ray, then the colour shader applied. */
  function Prepare(w: World, direction: Vector3, hit: SurfaceHit, stack: seq<nat>): (h: HitData)
    ensures Dot(direction, h.normal) <= 0.0
    ensures h.t == hit.data.t && h.position == hit.data.position && h.u == hit.data.u && h.v == hit.data.v
  {
    var oriented := hit.data.(normal := OrientNormal(direction, hit.data.normal, stack, hit.obj));
    oriented.(material := w.shade(hit.obj, oriented))
  }

  // ---------------------------------------------------------------- the inside stack

  /** The indices of refraction on either side of a surface, and the stack on the far side. */
  datatype Crossing = Crossing(n1: real, n2: real, stack: seq<nat>)

  /** The index of the medium the ray is in: the innermost object's, or 1 (air) outside everything. */
  function Top(w: World, stack: seq<nat>): real
  {
    if |stack| == 0 then 1.0 else w.indexOfRefraction(stack[|stack| - 1])
  }

  /**
   * Crossing the surface of object o: a ray not inside o enters it (o is
   * pushed), a ray inside o leaves it (its first occurrence is erased).
   */
  function PassSurface(w: World, stack: seq<nat>, o: nat): (c: Crossing)
    requires PositiveIndices(w)
    ensures c.n1 > 0.0 && c.n2 > 0.0
  {
    if |stack| == 0 || o !in stack then
      Crossing(Top(w, stack), w.indexOfRefraction(o), stack + [o])
    else
      var rest := RemoveFirst(stack, o);
      Crossing(w.indexOfRefraction(o), Top(w, rest), rest)
  }

  /** The ratio n1 / n2 handed to refract. */
  function RefractionRatio(w: World, stack: seq<nat>, o: nat): (r: real)
    requires PositiveIndices(w)
    ensures r > 0.0
  {
    var c := PassSurface(w, stack, o);
    PositiveQuotient(c.n1, c.n2);
    c.n1 / c.n2
  }

  lemma PositiveQuotient(a: real, b: real)
    requires a > 0.0 && b > 0.0
    ensures a / b > 0.0
  {
  }

  /** A quotient of positives is at most 1 when the numerator is at most the denominator. */
  lemma QuotientAtMostOne(a: real, b: real)
    requires a > 0.0 && b > 0.0 && a <= b
    ensures 0.0 < a / b <= 1.0
  {
    var q := a / b;
    assert q * b == a;
    assert (1.0 - q) * b >= 0.0;
  }

  /**
   * Snell's rule for the stack: entering, n1 is the enclosing medium's index
   * and n2 the object's, and the object becomes the innermost; leaving, n1 is
   * the object's index, the object is erased, and n2 is the index of what
   * now encloses the ray.
   */
  lemma PassSurfaceIndices(w: World, stack: seq<nat>, o: nat)
    requires PositiveIndices(w)
    ensures var c := PassSurface(w, stack, o);
      o !in stack ==>
        c.n1 == Top(w, stack) && c.n2 == w.indexOfRefraction(o)
        && c.stack == stack + [o] && Top(w, c.stack) == w.indexOfRefraction(o)
    ensures var c := PassSurface(w, stack, o);
      o in stack ==>
        c.n1 == w.indexOfRefraction(o) && c.n2 == Top(w, c.stack)
        && |c.stack| + 1 == |stack| && forall y :: y != o ==> (y in c.stack <==> y in stack)
  {
    if o in stack {
      var k := IndexOf(stack, o);
      forall y | y != o
        ensures y in RemoveFirst(stack, o) <==> y in stack
      {
        RemoveFirstKeeps(stack, o, y);
      }
    }
  }

  /** Erasing the first occurrence keeps a duplicate-free stack duplicate-free, and the erased object is gone. */
  lemma RemoveFirstNoDup(s: seq<nat>, x: nat)
    requires x in s && NoDup(s)
    ensures NoDup(RemoveFirst(s, x)) && x !in RemoveFirst(s, x)
  {
    var k := IndexOf(s, x);
    var r := s[..k] + s[k + 1..];
    forall a, b | 0 <= a < b < |r|
      ensures r[a] != r[b]
    {
      var a' := if a < k then a else a + 1;
      var b' := if b < k then b else b + 1;
      assert r[a] == s[a'] && r[b] == s[b'] && a' < b';
    }
    forall i | 0 <= i < |r|
      ensures r[i] != x
    {
      var i' := if i < k then i else i + 1;
      assert r[i] == s[i'] && s[k] == x && i' != k;
    }
  }

  /** The stack never holds an object twice: crossing a surface keeps it duplicate-free. */
  lemma PassSurfaceNoDup(w: World, stack: seq<nat>, o: nat)
    requires PositiveIndices(w) && NoDup(stack)
    ensures NoDup(PassSurface(w, stack, o).stack)
    ensures o in stack ==> o !in PassSurface(w, stack, o).stack
    ensures o !in stack ==> o in PassSurface(w, stack, o).stack
  {
    if o in stack {
      RemoveFirstNoDup(stack, o);
    } else {
      var s := stack + [o];
      forall a, b | 0 <= a < b < |s|
        ensures s[a] != s[b]
      {
        if b == |stack| {
          assert s[a] == stack[a];
        }
      }
    }
  }

  /**
   * A ray entering a medium at least as dense as the one it travels in is
   * never totally reflected (for a unit direction and unit normal, whose dot
   * product lies in [-1, 1]).
   */
  lemma EnteringDenserNeverReflects(w: World, direction: Vector3, normal: Vector3, stack: seq<nat>, o: nat)
    requires PositiveIndices(w)
    requires o !in stack && Top(w, stack) <= w.indexOfRefraction(o)
    requires Dot(direction, normal) <= 0.0 && -1.0 <= Dot(direction, normal)
    ensures !Refract(w.math, Neg(direction), normal, RefractionRatio(w, stack, o), Zero).tir
  {
    var c := PassSurface(w, stack, o);
    var n := RefractionRatio(w, stack, o);
    if |stack| > 0 {
      assert Top(w, stack) > 0.0;
    }
    QuotientAtMostOne(c.n1, c.n2);
    NegProperties(direction, normal);
    var v := Neg(direction);
    assert Dot(v, normal) >= 0.0;
    assert RefractEta(v, normal, n) == n;
    assert n * n <= 1.0 by {
      MulMonotone(n, 1.0, n);
    }
    RefractNoTotalReflection(w.math, v, normal, n, Zero);
  }

  // ---------------------------------------------------------------- direct lighting

  /** The ambient term ambColor * diffColor * (1 - ktran). */
  function Ambient(m: Material): Vector3
  {
    Scale(Mul(m.ambColor, m.diffColor), 1.0 - m.ktran)
  }

  /** The diffuse term of one light: diffColor * max(lightDir . normal, 0) * (1 - ktran). */
  function Diffuse(m: Material, lightDir: Vector3, normal: Vector3): (r: Vector3)
    ensures Dot(lightDir, normal) <= 0.0 ==> r == Zero
  {
    Scale(Scale(m.diffColor, Max(Dot(lightDir, normal), 0.0)), 1.0 - m.ktran)
  }

  /** The Phong specular term: specColor * pow(max(reflectDir . viewDir, 0), shininess * 128). */
  function Specular(math: Math, m: Material, direction: Vector3, lightDir: Vector3, normal: Vector3): Vector3
  {
    var reflectDir := Normalize(math, Reflect(lightDir, normal));
    var viewDir := Normalize(math, Neg(direction));
    Scale(m.specColor, math.pow(Max(Dot(reflectDir, viewDir), 0.0), m.shininess * 128.0))
  }

  /** getLightRadiance: (diffuse + specular) * shadowFactor * light colour * attenuation. */
  function LightRadiance(w: World, direction: Vector3, light: Light, h: HitData): Vector3
  {
    var lightDir := GetDirection(w.math, light, h.position);
    var lightDist := GetDistance(w.math, light, h.position);
    var shadowFactor := w.shadow(Add(h.position, Scale(h.normal, PUSH_SPAWNED_RAYS)), lightDir, lightDist);
    var attenuation := GetAttenuation(light, lightDist);
    Scale(Mul(Mul(Add(Diffuse(h.material, lightDir, h.normal), Specular(w.math, h.material, direction, lightDir, h.normal)),
                  shadowFactor), light.color), attenuation)
  }

  /** The shadow ray toward a light starts just above the surface and runs to the light. */
  function ShadowFactor(w: World, light: Light, h: HitData): Vector3
  {
    w.shadow(Add(h.position, Scale(h.normal, PUSH_SPAWNED_RAYS)), GetDirection(w.math, light, h.position), GetDistance(w.math, light, h.position))
  }

  /** A light whose shadow ray is fully blocked contributes nothing. */
  lemma BlockedLightAddsNothing(w: World, direction: Vector3, light: Light, h: HitData)
    requires ShadowFactor(w, light, h) == Zero
    ensures LightRadiance(w, direction, light, h) == Zero
  {
    var lightDir := GetDirection(w.math, light, h.position);
    var sum := Add(Diffuse(h.material, lightDir, h.normal), Specular(w.math, h.material, direction, lightDir, h.normal));
    assert Mul(sum, Zero) == Zero;
  }

  /** The radiance after the ambient term and the first k lights, added in list order. */
  function Lit(w: World, direction: Vector3, h: HitData, k: nat): Vector3
    requires k <= |w.lights|
  {
    if k == 0 then Ambient(h.material)
    else Add(Lit(w, direction, h, k - 1), LightRadiance(w, direction, w.lights[k - 1], h))
  }

  /** With every light blocked, only the ambient term remains. */
  lemma {:induction false} AllBlockedIsAmbient(w: World, direction: Vector3, h: HitData, k: nat)
    requires k <= |w.lights|
    requires forall i :: 0 <= i < k ==> ShadowFactor(w, w.lights[i], h) == Zero
    ensures Lit(w, direction, h, k) == Ambient(h.material)
  {
    if k > 0 {
      AllBlockedIsAmbient(w, direction, h, k - 1);
      BlockedLightAddsNothing(w, direction, w.lights[k - 1], h);
    }
  }

  // ---------------------------------------------------------------- traceRay

  /**
   * traceRay(origin, direction, outputColor, numBounces, insideStack): the
   * colour written to outputColor, which keeps its value `out` when the
   * bounce limit is exceeded or the ray misses everything.
   */
  function Trace(w: World, origin: Vector3, direction: Vector3, out: Vector3, numBounces: int, stack: seq<nat>): (r: Vector3)
    requires PositiveIndices(w)
    ensures numBounces > MAX_BOUNCES || w.closest(origin, direction).None? ==> r == out
    decreases MAX_BOUNCES + 1 - numBounces, 2
  {
    if numBounces > MAX_BOUNCES then out
    else match w.closest(origin, direction)
      case None => out
      case Some(hit) => Shade(w, direction, Prepare(w, direction, hit, stack), hit.obj, numBounces, stack)
  }

  /**
   * The colour of a prepared hit on object o: the subsurface radiance for a
   * material with a BSSRDF, otherwise
   * radiance + reflection * specColor + refraction * ktran.
   */
  function Shade(w: World, direction: Vector3, h: HitData, o: nat, numBounces: int, stack: seq<nat>): (r: Vector3)
    requires PositiveIndices(w) && numBounces <= MAX_BOUNCES
    ensures h.material.bssrdf.Some? ==> r == w.subsurface(direction, h)
    decreases MAX_BOUNCES + 1 - numBounces, 1
  {
    if h.material.bssrdf.Some? then w.subsurface(direction, h)
    else
      Add(Add(Lit(w, direction, h, |w.lights|), Mul(Reflected(w, direction, h, numBounces, stack), h.material.specColor)),
          Scale(Refracted(w, direction, h, o, numBounces, stack), h.material.ktran))
  }

  /**
   * The reflection term: a ray from just above the surface along the mirror
   * direction, traced one bounce deeper with the UNEDITED stack; zero unless
   * the largest specular component exceeds MIN_SHININESS.
   */
  function Reflected(w: World, direction: Vector3, h: HitData, numBounces: int, stack: seq<nat>): (r: Vector3)
    requires PositiveIndices(w) && numBounces <= MAX_BOUNCES
    ensures MaxComponent(h.material.specColor) <= MIN_SHININESS ==> r == Zero
    ensures numBounces == MAX_BOUNCES ==> r == Zero
    decreases MAX_BOUNCES + 1 - numBounces, 0
  {
    if MaxComponent(h.material.specColor) > MIN_SHININESS then
      Trace(w, Add(h.position, Scale(h.normal, PUSH_SPAWNED_RAYS)), Neg(Normalize(w.math, Reflect(direction, h.normal))), Zero, numBounces + 1, stack)
    else Zero
  }

  /**
   * The refraction term: zero unless ktran exceeds MIN_TRANSPARENCY, and zero
   * under total internal reflection; otherwise a ray from just below the
   * surface along the refracted direction, traced one bounce deeper with
   * the stack after the crossing.
   */
  function Refracted(w: World, direction: Vector3, h: HitData, o: nat, numBounces: int, stack: seq<nat>): (r: Vector3)
    requires PositiveIndices(w) && numBounces <= MAX_BOUNCES
    ensures h.material.ktran <= MIN_TRANSPARENCY ==> r == Zero
    ensures RefractK(Neg(direction), h.normal, RefractionRatio(w, stack, o)) < 0.0 ==> r == Zero
    ensures numBounces == MAX_BOUNCES ==> r == Zero
    decreases MAX_BOUNCES + 1 - numBounces, 0
  {
    if h.material.ktran > MIN_TRANSPARENCY then
      var c := PassSurface(w, stack, o);
      var refraction := Refract(w.math, Neg(direction), h.normal, RefractionRatio(w, stack, o), Zero);
      if refraction.tir then Zero
      else Trace(w, Sub(h.position, Scale(h.normal, PUSH_SPAWNED_RAYS)), Neg(refraction.dir), Zero, numBounces + 1, c.stack)
    else Zero
  }

  /** At the last allowed bounce, and on a surface that spawns neither ray, only direct lighting is seen. */
  lemma LocalLightingOnly(w: World, origin: Vector3, direction: Vector3, out: Vector3, numBounces: int, stack: seq<nat>)
    requires PositiveIndices(w) && numBounces <= MAX_BOUNCES
    requires w.closest(origin, direction).Some?
    requires var h := Prepare(w, direction, w.closest(origin, direction).value, stack);
      h.material.bssrdf.None?
      && (numBounces == MAX_BOUNCES || (MaxComponent(h.material.specColor) <= MIN_SHININESS && h.material.ktran <= MIN_TRANSPARENCY))
    ensures var h := Prepare(w, direction, w.closest(origin, direction).value, stack);
      Trace(w, origin, direction, out, numBounces, stack) == Lit(w, direction, h, |w.lights|)
  {
    var hit := w.closest(origin, direction).value;
    var h := Prepare(w, direction, hit, stack);
    var lit := Lit(w, direction, h, |w.lights|);
    assert Reflected(w, direction, h, numBounces, stack) == Zero;
    assert Refracted(w, direction, h, hit.obj, numBounces, stack) == Zero;
    assert Add(Add(lit, Mul(Zero, h.material.specColor)), Scale(Zero, h.material.ktran)) == lit;
  }

  /**
   * traceRay as the program runs it: flips the normal, shades, sums the
   * lights, recurses for the reflection ray with the stack it was given,
   * then edits its local copy of the stack and recurses for the refraction
   * ray.
   */
  method TraceRay(w: World, origin: Vector3, direction: Vector3, outputColor: Vector3, numBounces: int, insideStack: seq<nat>)
    returns (color: Vector3)
    requires PositiveIndices(w)
    ensures color == Trace(w, origin, direction, outputColor, numBounces, insideStack)
    decreases MAX_BOUNCES + 1 - numBounces, 1
  {
    if numBounces > MAX_BOUNCES {
      return outputColor;
    }
    var found := w.closest(origin, direction);
    if found.None? {
      return outputColor;
    }
    var hitData := found.value.data;
    var hitObject := found.value.obj;
    if |insideStack| > 0 && hitObject in insideStack {
      hitData := hitData.(normal := Neg(hitData.normal));
    }
    if Dot(direction, hitData.normal) > 0.0 {
      hitData := hitData.(normal := Neg(hitData.normal));
    }
    hitData := hitData.(material := w.shade(hitObject, hitData));
    assert hitData == Prepare(w, direction, found.value, insideStack);

    if hitData.material.bssrdf.Some? {
      return w.subsurface(direction, hitData);
    }
    var radiance := SumLights(w, direction, hitData);
    var radianceReflection := Zero;
    if MaxComponent(hitData.material.specColor) > MIN_SHININESS {
      var reflectOrigin := Add(hitData.position, Scale(hitData.normal, PUSH_SPAWNED_RAYS));
      var reflectDir := Neg(Normalize(w.math, Reflect(direction, hitData.normal)));
      radianceReflection := TraceRay(w, reflectOrigin, reflectDir, Zero, numBounces + 1, insideStack);
    }
    assert radianceReflection == Reflected(w, direction, hitData, numBounces, insideStack);
    var radianceRefraction := Zero;
    if hitData.material.ktran > MIN_TRANSPARENCY {
      radianceRefraction := TraceRefraction(w, direction, hitData, hitObject, numBounces, insideStack);
    }
    assert radianceRefraction == Refracted(w, direction, hitData, hitObject, numBounces, insideStack);
    color := Add(Add(radiance, Mul(radianceReflection, hitData.material.specColor)), Scale(radianceRefraction, hitData.material.ktran));
    assert color == Shade(w, direction, hitData, hitObject, numBounces, insideStack);
  }

  /** The loop over the scene's lights, starting from the ambient term. */
  method SumLights(w: World, direction: Vector3, hitData: HitData) returns (radiance: Vector3)
    ensures radiance == Lit(w, direction, hitData, |w.lights|)
  {
    radiance := Ambient(hitData.material);
    var i := 0;
    while i < |w.lights|
      invariant 0 <= i <= |w.lights|
      invariant radiance == Lit(w, direction, hitData, i)
    {
      radiance := Add(radiance, LightRadiance(w, direction, w.lights[i], hitData));
      i := i + 1;
    }
  }

  /**
   * The refraction branch of traceRay: the local copy of the stack is pushed
   * or erased from, n1 and n2 are read off it, and the refracted ray is traced
   * unless refract reports total internal reflection.
   */
  method TraceRefraction(w: World, direction: Vector3, hitData: HitData, hitObject: nat, numBounces: int, insideStack: seq<nat>)
    returns (radianceRefraction: Vector3)
    requires PositiveIndices(w) && numBounces <= MAX_BOUNCES && hitData.material.ktran > MIN_TRANSPARENCY
    ensures radianceRefraction == Refracted(w, direction, hitData, hitObject, numBounces, insideStack)
    decreases MAX_BOUNCES + 1 - numBounces, 0
  {
    radianceRefraction := Zero;
    var stack := insideStack;
    var refractOrigin := Sub(hitData.position, Scale(hitData.normal, PUSH_SPAWNED_RAYS));
    var n1: real, n2: real;
    var refractDir := Zero;
    if |stack| == 0 || hitObject !in stack {
      n1 := if |stack| == 0 then 1.0 else w.indexOfRefraction(stack[|stack| - 1]);
      stack := stack + [hitObject];
      n2 := w.indexOfRefraction(hitObject);
    } else {
      var k := Find(stack, hitObject);
      n1 := w.indexOfRefraction(hitObject);
      stack := stack[..k] + stack[k + 1..];
      n2 := if |stack| == 0 then 1.0 else w.indexOfRefraction(stack[|stack| - 1]);
    }
    assert Crossing(n1, n2, stack) == PassSurface(w, insideStack, hitObject);
    var refraction := Refract(w.math, Neg(direction), hitData.normal, n1 / n2, refractDir);
    var totalInternalReflection := refraction.tir;
    refractDir := refraction.dir;
    if !totalInternalReflection {
      radianceRefraction := TraceRay(w, refractOrigin, Neg(refractDir), Zero, numBounces + 1, stack);
    }
  }

  // ---------------------------------------------------------------- the scene as a world

  /** The hit record traceRay declares before the query; its contents are never read on a miss. */
  const NoHit := HitData(0.0, Zero, Zero, Material(Zero, Zero, Zero, Zero, 0.0, 0.0, None), 0.0, 0.0)

  /**
   * The closest-hit query traceRay makes with ACCELERATION defined: the tree
   * built from the scene's primitive list, from tMax = FLT_MAX. A scene
   * without primitives reports no hit.
   */
  function SceneClosest(m: Math, n: Noise, a: Arena, origin: Vector3, direction: Vector3): Option<SurfaceHit>
  {
    if !Below(a.primitives, |a.primStore|) then None
    else
      var (found, c) := TreeClosest(View(a.primStore, a.primitives), origin, direction, TracerOf(m, n, a, origin, direction), Closest(NoHit, 0, FLT_MAX));
      if found then Some(SurfaceHit(c.data, c.hitObject)) else None
  }

  /** The shadow query with ACCELERATION defined: the tree's traceShadowNode from white. */
  function SceneShadow(m: Math, n: Noise, a: Arena, origin: Vector3, direction: Vector3, maxDist: real): Vector3
  {
    if !Below(a.primitives, |a.primStore|) then One
    else TreeShadow(View(a.primStore, a.primitives), origin, direction, TracerOf(m, n, a, origin, direction), maxDist, One)
  }

  /** hitObject->colorShader->Shade(hitData, hitData.material), or the material unchanged without a shader. */
  function SceneShade(m: Math, n: Noise, a: Arena, o: nat, h: HitData): Material
  {
    if o < |a.objStore| && a.objStore[o].colorShader.Some? && ShaderWellFormed(a.objStore[o].colorShader.value) then
      ColorShade(m, n, a.objStore[o].colorShader.value, h, h.material)
    else h.material
  }

  /** The world a loaded scene presents to traceRay. */
  function SceneWorld(m: Math, n: Noise, a: Arena, lights: seq<Light>, subsurface: (Vector3, HitData) -> Vector3): (w: World)
    ensures w.lights == lights && w.math == m
  {
    World(m,
          (origin, direction) => SceneClosest(m, n, a, origin, direction),
          (origin, direction, maxDist) => SceneShadow(m, n, a, origin, direction, maxDist),
          (o: nat) => if o < |a.objStore| then a.objStore[o].indexOfRefraction else 1.0,
          (o: nat, h: HitData) => SceneShade(m, n, a, o, h),
          lights, subsurface)
  }

  /**
   * Where every primitive the ray hits lies in its own box (strictly inside
   * on the axes the ray runs parallel to), the world's tree queries give
   * the brute-force answers: a hit exactly when the scan of the primitive
   * list finds one, at the scan's distance, and the shadow factor of
   * filtering through every primitive hit at least MIN_SHADOW_INTERSECT away.
   */
  lemma SceneWorldMatchesScan(m: Math, n: Noise, a: Arena, lights: seq<Light>, subsurface: (Vector3, HitData) -> Vector3,
                              origin: Vector3, direction: Vector3, maxDist: real)
    requires Below(a.primitives, |a.primStore|)
    requires HitsInsideBoxes(View(a.primStore, a.primitives), TracerOf(m, n, a, origin, direction), origin, direction)
    ensures var w := SceneWorld(m, n, a, lights, subsurface);
      var ps, tracer := View(a.primStore, a.primitives), TracerOf(m, n, a, origin, direction);
      var scan := ScanClosest(ps, tracer, Closest(NoHit, 0, FLT_MAX));
      (w.closest(origin, direction).Some? <==> scan.0)
      && (w.closest(origin, direction).Some? ==> w.closest(origin, direction).value.data.t == scan.1.tMax)
      && w.shadow(origin, direction, maxDist) == ShadowFold(ps, tracer, maxDist, true, One)
  {
    var ps, tracer := View(a.primStore, a.primitives), TracerOf(m, n, a, origin, direction);
    TreeMatchesScan(ps, origin, direction, tracer, Closest(NoHit, 0, FLT_MAX));
    TreeShadowMatchesScan(ps, origin, direction, tracer, maxDist, One);
  }

  /** A scene whose objects all have positive indices of refraction gives a world traceRay accepts. */
  lemma SceneWorldIndices(m: Math, n: Noise, a: Arena, lights: seq<Light>, subsurface: (Vector3, HitData) -> Vector3)
    requires forall i :: 0 <= i < |a.objStore| ==> a.objStore[i].indexOfRefraction > 0.0
    ensures PositiveIndices(SceneWorld(m, n, a, lights, subsurface))
  {
    var w := SceneWorld(m, n, a, lights, subsurface);
    forall o: nat
      ensures w.indexOfRefraction(o) > 0.0
    {
      if o < |a.objStore| {
        assert w.indexOfRefraction(o) == a.objStore[o].indexOfRefraction;
      }
    }
  }

  /** A hit of the scene comes from the colour shader only where the object has one: otherwise the material is the primitive's. */
  lemma SceneShadeKeepsBssrdf(m: Math, n: Noise, a: Arena, o: nat, h: HitData)
    ensures SceneShade(m, n, a, o, h).bssrdf == h.material.bssrdf
    ensures (o >= |a.objStore| || a.objStore[o].colorShader.None?) ==> SceneShade(m, n, a, o, h) == h.material
  {
  }
}
