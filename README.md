# BasicRayTracer in Dafny

A model of the C++ Whitted-style ray tracer in `BasicRayTracer/`, with
proofs about it. The model follows the program's own structure:

- `floats.dfy` (module `Floats`): floats as exact reals, the `<cfloat>` constants, C division and remainder, and the C
  math library as a `Math` value of functions.
- `vectors.dfy` (`Vectors`): `Vector3` and its operators, reflection, refraction and the normal space.
- `bounds.dfy` (`Bounds`): `BoundingBox`, with `Expand`, the slab test `intersects`, its longest axis and its midpoint.
- `materials.dfy` (`Materials`): `Material` and the barycentric interpolation a triangle hit uses.
- `lights.dfy` (`Lights`): point and directional lights, their direction, distance and fall-off.
- `shaders.dfy` (`Shaders`): every colour shader and intersection shader.
- `primitives.dfy` (`Primitives`): spheres and triangles, their intersection tests, bounds, midpoints and texture mapping.
- `kdbuild.dfy`, `kdquery.dfy`, `kdtree.dfy` (`KDBuild`, `KDQuery`, `KDTrees`): the KD tree.
  - `KDBuild` gives the construction as a function, with shape lemmas.
  - `KDQuery` gives the two queries, both as functions and as the brute-force scans they must agree with.
  - `KDTrees` has the `KDTree` class, whose methods are proved equal to those functions.
- `scene.dfy` (`Scenes`): the `Scene` class.
  - Loading lights, spheres and polygon sets, setting shaders and BSSRDFs, removing objects, centring and
    re-texturing objects, and the two ray queries.
  - The scene keeps its objects and primitives in stores indexed by id, so pointers are ids.
- `tracing.dfy` (`Tracing`): `traceRay`.
  - Normal orientation, the inside-stack of refractive indices, and local lighting with shadows, reflection and
    refraction.
- `renderer.dfy` (`Rendering`): the `Renderer` class, its stratified sampling patterns, the per-pixel box filter
  and the light pick.
- `framebuffer.dfy` (`Frames`): `FrameBuffer` and its pixel addressing.
- `tiles.dfy` (`ImageTiles`): tile generation in `main.cpp` and the rendering of one tile into the frame buffer.
- `records.dfy`, `sceneio.dfy`, `sceneread.dfy`, `scenelists.dfy`, `sceneascii.dfy`, `scenefile.dfy`: the scene
  file reader and writer of `scene_io.cpp`.
  - Module `SceneRecords` holds the records.
  - `SceneFiles` holds the binary format as a stream of typed fields, with encoders, decoders and round trips.
  - `SceneReaders` holds the `read_*B` / `write_*B` loops, proved equal to those functions.
  - `SceneLists` holds the light and object linked lists.
  - `SceneText` holds the ASCII reader's keyword loop and the name line.
  - `SceneLoading` holds `readScene`.

The randomness (`rand()`), the noise generator, the camera, the C math library and the subsurface (BSSRDF)
shading all enter as parameters.

Two places where the program does not do what it says it does. In both, the model follows the code:

- `main.cpp:18` says the sample count "Must be a power of 2", and `createSamplingPatterns` (`Renderer.cpp:18-20`)
  accepts exactly the powers of two, and also 0.
  - `Renderer.cpp:24-44` then builds a (int)sqrt(spp) × (int)sqrt(spp) grid of points per pattern.
  - `ColorPixel` (`Renderer.cpp:69-70`) reads spp points of a pattern.
  - For a power of two that is not a square (2, 8, 32, …) the pattern is too short. See Findings.
- The brute-force shadow query in `Scene.h` lacks the `MIN_SHADOW_INTERSECT` bound that the tree query has.
  `KDQuery.GrazingHitDisagrees` shows that the two differ.
  - The world that `traceRay` sees uses the KD tree queries, as `ACCELERATION` selects (`Tracing.SceneWorld`).
  - `Tracing.SceneWorldMatchesScan` relates those queries to the brute-force scans.

## Model

| member | source | states |
|---|---|---|
| Floats.Min | BasicRayTracer/BoundingBox.h:15-20 | the result is at most both arguments and is one of them |
| Floats.Max | BasicRayTracer/BoundingBox.h:15-20 | the result is at least both arguments and is one of them |
| Floats.Divide | BasicRayTracer/Vector3.cpp:52-54 | for a non-zero divisor, the quotient times the divisor gives back the dividend |
| Floats.Abs | BasicRayTracer/Vector3.cpp:97 | the result is non-negative and is the argument or its negation |
| Floats.TruncateToInt | BasicRayTracer/Shader.h:80-81 | `(int)x` truncates toward zero: the result is the whole number next to x on the side of zero |
| Floats.CRem | BasicRayTracer/Shader.h:50-57 | C's `%` satisfies `a == b * (a / b) + r`, and the remainder takes the sign of the dividend and is smaller than the divisor |
| Floats.CRemTwoZeroIffEven | BasicRayTracer/Shader.h:50-57 | C's `n % 2 == 0` holds exactly for the even n, negative ones included |
| Floats.SqrtAt | BasicRayTracer/Vector3.h:121-123 | under the sqrt laws, sqrt of a non-negative x is non-negative and squares back to x |
| Vectors.FromXY | BasicRayTracer/Vector3.cpp:7-11 | the two-argument constructor sets x and y and zeroes z |
| Vectors.FromArray | BasicRayTracer/Vector3.cpp:19-23 | the array constructor copies the first three elements |
| Vectors.PlusAssign | BasicRayTracer/Vector3.cpp:33-38 | `+=` is undone by subtracting the same vector |
| Vectors.Cross | BasicRayTracer/Vector3.cpp:64-73 | the cross product is orthogonal to both factors |
| Vectors.CrossAntiCommutative | BasicRayTracer/Vector3.cpp:64-73 | swapping the factors negates the cross product, and a vector crossed with a multiple of itself is zero |
| Vectors.MaxComponent | BasicRayTracer/Vector3.h:96-98 | the result bounds every component and is one of them |
| Vectors.RefractCos | BasicRayTracer/Vector3.h:62-72 | the cosine used is the absolute value of v·n |
| Vectors.RefractNormal | BasicRayTracer/Vector3.h:62-72 | the normal is flipped so that it makes the cosine with v negative |
| Vectors.Refract | BasicRayTracer/Vector3.h:61-79 | total internal reflection is reported exactly when k < 0, and then the output direction is left as it was |
| Vectors.RefractNoTotalReflection | BasicRayTracer/Vector3.h:73-76 | with eta² ≤ 1 and a cosine of at most 1, no total internal reflection occurs |
| Vectors.InverseOrOne | BasicRayTracer/Vector3.cpp:52-54 | a non-zero scalar gets its reciprocal; zero gets 1 |
| Vectors.CreateNormalSpace | BasicRayTracer/Vector3.cpp:96-102 | the two vectors built are orthogonal to v and to each other |
| Vectors.DotBilinear | BasicRayTracer/Vector3.h:49-51 | the dot product is symmetric, additive and homogeneous in its first argument |
| Vectors.ReflectKeepsNormalComponent | BasicRayTracer/Vector3.h:54-56 | about a unit normal, reflection keeps the component along the normal |
| Vectors.ReflectInvolution | BasicRayTracer/Vector3.h:54-56 | about a unit normal, reflecting twice gives back the vector |
| Vectors.ReflectPreservesLength | BasicRayTracer/Vector3.h:54-56 | about a unit normal, reflection keeps the squared length |
| Vectors.NormalizeScalesBack | BasicRayTracer/Vector3.h:125-127 | a normalized non-zero vector times its length is the vector; a zero-length vector is left unchanged |
| Vectors.LengthSquared | BasicRayTracer/Vector3.h:121-123 | under the sqrt laws, the length is non-negative and its square is v·v |
| Vectors.GetAfterSet | BasicRayTracer/Vector3.h:100-115 | `[]` reads back what was set at an axis and leaves the other axes |
| Vectors.SetOutOfRange | BasicRayTracer/Vector3.h:108-115 | setting an axis outside 0..2 changes nothing |
| Vectors.LuminanceOfGrey | BasicRayTracer/Vector3.h:92-94 | the luminance weights sum to one, so a grey keeps its level |
| Vectors.LuminanceBounds | BasicRayTracer/Vector3.h:92-94 | a colour in the unit cube has a luminance in [0, 1] |
| Vectors.NegProperties | BasicRayTracer/Vector3.h:117-119 | negation is an involution, negates dot products and is the additive inverse |
| Bounds.Expand | BasicRayTracer/BoundingBox.h:14-21 | the expanded box contains both boxes and each corner coordinate comes from one of them |
| Bounds.ExpandLeast | BasicRayTracer/BoundingBox.h:14-21 | any box containing both boxes contains their expansion |
| Bounds.ExpandAlgebra | BasicRayTracer/BoundingBox.h:14-21 | expansion is idempotent, commutative and associative |
| Bounds.ExpandWellFormed | BasicRayTracer/BoundingBox.h:14-21 | expanding two well-formed boxes gives a well-formed box |
| Bounds.Reciprocal | BasicRayTracer/KDTree.cpp:164 | `1.0f / x` is +infinity for a zero x and otherwise the x' with x' · x = 1 |
| Bounds.InverseDirection | BasicRayTracer/KDTree.cpp:164 | each component is the reciprocal of the direction's: +infinity for a zero component, the exact inverse otherwise |
| Bounds.SlabTMonotone | BasicRayTracer/BoundingBox.h:24-37 | the slab parameter grows with the plane coordinate for a non-negative inverse direction and shrinks for a non-positive one |
| Bounds.PlaneWithinSlab | BasicRayTracer/BoundingBox.h:24-37 | a plane between the slab's faces is crossed between the slab's near and far parameters |
| Bounds.CrossingOfPoint | BasicRayTracer/BoundingBox.h:25-26 | for a non-zero direction component, the plane through the ray's point at t is crossed at t |
| Bounds.AxisBrackets | BasicRayTracer/BoundingBox.h:25-34 | on one axis, a ray point at t between the faces (strictly, for a zero direction component) puts t between the slab's entry and exit, neither of them NaN |
| Bounds.HitPointIntersects | BasicRayTracer/BoundingBox.h:24-37 | a ray whose point at some t ≥ 0 lies in the box, strictly between the faces on the axes with a zero direction component, passes the slab test with infinite inverses |
| Bounds.OriginInsideIntersects | BasicRayTracer/BoundingBox.h:24-37 | a ray starting inside the box, strictly inside on the axes with a zero direction component, passes the slab test |
| Bounds.HitInsideGrows | BasicRayTracer/BoundingBox.h:24-37 | a point inside a box in that sense is inside every box containing it |
| Bounds.AxisAlignedRayHits | BasicRayTracer/BoundingBox.h:24-37 | the ray from (0, 0, 5) along (0, 0, -1) passes the test of the cube [-1, 1]³ |
| Bounds.FaceRayCulled | BasicRayTracer/BoundingBox.h:24-37 | a ray running along a face, in the face plane, fails the test although it passes through the box: 0 · infinity is NaN |
| Bounds.LongestAxis | BasicRayTracer/BoundingBox.h:40-53 | the axis has the greatest extent, and the first such axis is chosen |
| Bounds.MidpointInside | BasicRayTracer/BoundingBox.h:55-57 | the midpoint is as far from the min corner as from the max corner, and lies inside a well-formed box |
| Materials.Interpolate | BasicRayTracer/Material.h:17-39 | the interpolated material keeps the first vertex's BSSRDF |
| Materials.OperatorsKeepBssrdf | BasicRayTracer/Material.h:17-39 | `*` and `+` keep the left operand's BSSRDF, and scaling by 1 is the identity |
| Materials.InterpolateIdentical | BasicRayTracer/Material.h:17-39 | interpolating three copies of one material with weights summing to one gives that material |
| Lights.FallOffAtFive | BasicRayTracer/LightSource.h:32-34 | the point-light fall-off is exactly 1 at distance 5 |
| Lights.FallOffMonotone | BasicRayTracer/LightSource.h:32-34 | the fall-off is at least 0.25 and grows strictly with distance |
| Lights.PointAttenuationRange | BasicRayTracer/LightSource.h:32-34 | point attenuation lies in (0, 1] and is 1 exactly within distance 5 |
| Lights.PointAttenuationNonIncreasing | BasicRayTracer/LightSource.h:32-34 | point attenuation never grows with distance |
| Lights.PointDistanceSquared | BasicRayTracer/LightSource.h:28-30 | under the sqrt laws, the distance to a point light is non-negative and squares to the squared offset |
| Lights.DirectionalLightConstant | BasicRayTracer/LightSource.h:46-56 | a directional light never attenuates, is FLT_MAX away, and points the same way from everywhere: its direction normalized and negated |
| Shaders.CheckerAcceptsEven | BasicRayTracer/Shader.h:50-57 | the checkerboard test passes exactly when the cell index sum is even |
| Shaders.CheckerFlips | BasicRayTracer/Shader.h:50-57 | moving one cell along u or along v flips the checkerboard test |
| Shaders.CheckerShade | BasicRayTracer/Shader.h:30-37 | only the diffuse colour changes: grey 0.7 on accepted cells and grey 0.1 on the others |
| Shaders.CheckerShadersAgree | BasicRayTracer/Shader.h:30-57 | the colour checkerboard is light exactly where the intersection checkerboard of the same size keeps the hit |
| Shaders.ClampIndex | BasicRayTracer/Shader.h:79-90 | the index is clamped into [0, hi] and left alone when already inside |
| Shaders.TexelIndexInBounds | BasicRayTracer/Shader.h:87-89 | every texel channel address of an in-range pixel lies inside the image |
| Shaders.TextureShade | BasicRayTracer/Shader.h:79-90 | only the diffuse colour changes, and it lies in the unit cube |
| Shaders.SmoothstepRange | BasicRayTracer/Shader.h:169-177 | smoothstep lies in [0, 1]; with ordered edges it is 0 up to the first and 1 from the second |
| Shaders.HoleThreshold | BasicRayTracer/Shader.h:180-183 | the hole shader keeps a hit exactly when its noise sample exceeds 0.15 |
| Shaders.WoodShade | BasicRayTracer/Shader.h:93-121 | only the diffuse colour and the shininess change; the shininess becomes 4 and the colour follows the ring grain |
| Shaders.WoodColorRange | BasicRayTracer/Shader.h:113-118 | the wood colour runs from the dark colour at grain 0 to 70% of the light colour at grain 1, grows in every channel, and stays in the unit cube for a grain in [0, 1] |
| Shaders.FunShade | BasicRayTracer/Shader.h:123-152 | only the transparency, shininess and specular colour change; the specular colour is the grey of the shininess, the transparency is non-negative and the shininess at most 1 |
| Shaders.FunShadeRange | BasicRayTracer/Shader.h:139-151 | with sin in [-1, 1], the transparency lies in [0, 0.4] and the shininess and specular colour in [0, 1] |
| Shaders.GlassShade | BasicRayTracer/Shader.h:156-161 | the glass constants are set, and the ambient, emissive and BSSRDF fields are kept |
| Shaders.RainbowShade | BasicRayTracer/Shader.h:191-200 | opaque, with fixed shininess and specular colour, every diffuse channel at least 0.2, and the other fields kept |
| Shaders.ColorShade | BasicRayTracer/Shader.h:7-10 | no colour shader touches the BSSRDF, ambient or emissive fields |
| Primitives.NewSphere | BasicRayTracer/Primitive.h:37-40 | a sphere with the given centre and radius, and parent and material 0 |
| Primitives.NewTriangle | BasicRayTracer/Primitive.h:64-71 | a triangle with the given vertices and normals, and zero texture coordinates and materials |
| Primitives.ChooseRoot | BasicRayTracer/Primitive.cpp:39-51 | the root chosen is the smaller non-negative one, or the other root when one is negative |
| Primitives.ChosenRootPositive | BasicRayTracer/Primitive.cpp:39-51 | for ordered roots, the chosen root is positive exactly when the far root is positive and the near one is not zero |
| Primitives.FurtherNotNearer | BasicRayTracer/Primitive.cpp:39-51 | the chosen root is never beyond the larger root |
| Primitives.RootsOrdered | BasicRayTracer/Primitive.cpp:36-37 | under the sqrt laws, for a > 0 the near root is no larger than the far one |
| Primitives.SphereHit | BasicRayTracer/Primitive.cpp:53-59 | the hit lies on the ray at t and carries the sphere's material |
| Primitives.IntersectSphere | BasicRayTracer/Primitive.cpp:6-78 | by discriminant: no hit when it is very negative or exactly FLT_EPSILON; the tangent root near zero; otherwise the chosen root with the far root as fallback, each only when the intersection shader accepts it; every hit is ahead of the ray |
| Primitives.TriangleHit | BasicRayTracer/Primitive.cpp:116-123 | the hit lies on the ray; its material and texture coordinates are blended with weights (1-u-v, u, v), and its BSSRDF is the first vertex's |
| Primitives.IntersectTriangle | BasicRayTracer/Primitive.cpp:82-130 | a hit exactly when the determinant is not near zero, u and v are barycentric, t exceeds FLT_EPSILON and the shader accepts |
| Primitives.WeightsInUnitInterval | BasicRayTracer/Primitive.cpp:100-123 | accepted u and v give barycentric weights, each in [0, 1] |
| Primitives.BlendBetween | BasicRayTracer/Primitive.cpp:100-123 | a barycentric blend lies between the bounds of its three values |
| Primitives.SphereBoundsContainCenter | BasicRayTracer/Primitive.cpp:132-139 | a sphere's box is well formed and contains its centre |
| Primitives.TriangleBoundsContainVertices | BasicRayTracer/Primitive.cpp:141-153 | a triangle's box is well formed and holds all three vertices |
| Primitives.TriangleBoundsLeast | BasicRayTracer/Primitive.cpp:141-153 | every box holding the three vertices contains the triangle's box |
| Primitives.ThirdBetween | BasicRayTracer/Primitive.cpp:159-161 | the mean of three values lies between their minimum and maximum |
| Primitives.CentroidInside | BasicRayTracer/Primitive.cpp:159-161 | a triangle's midpoint lies inside its box |
| Primitives.MapTextureCoords | BasicRayTracer/Primitive.h:78-87 | only the texture coordinates change, each vertex getting the spherical (1-u, v) of its direction from the centre |
| Primitives.MapAgreesWithSphere | BasicRayTracer/Primitive.cpp:53-59 | at a vertex, the mapped texture coordinates equal those a sphere hit at the same point would report |
| Primitives.SetBSSRDF | BasicRayTracer/Primitive.h:89-91 | the materials the primitive refers to get the BSSRDF; the others are unchanged |
| KDBuild.NewNode | BasicRayTracer/KDTree.h:21-23 | a new node is a leaf with the given bounds and registry index |
| KDBuild.Build | BasicRayTracer/KDTree.cpp:13-94 | a node exists exactly for a non-empty list; the registry only grows, and the node's entry is the list itself |
| KDBuild.BuildSingleton | BasicRayTracer/KDTree.cpp:15-33 | one primitive gives a leaf with that primitive's box, registered as the next entry |
| KDBuild.SplitLeft | BasicRayTracer/KDTree.cpp:48-55 | the left side holds primitives of the list whose midpoint is below the split |
| KDBuild.SplitRight | BasicRayTracer/KDTree.cpp:48-55 | the right side holds primitives of the list whose midpoint is at or above the split |
| KDBuild.SplitSizes | BasicRayTracer/KDTree.cpp:48-55 | the two sides together are a permutation of the list |
| KDBuild.EmptyLeftKeepsAll | BasicRayTracer/KDTree.cpp:57-61 | an empty left side leaves the whole list on the right |
| KDBuild.EmptyRightKeepsAll | BasicRayTracer/KDTree.cpp:57-61 | an empty right side leaves the whole list on the left |
| KDBuild.SharedWithItself | BasicRayTracer/KDTree.cpp:64-70 | a side contained in the other counts at least its own size as shared |
| KDBuild.SplitShrinks | BasicRayTracer/KDTree.cpp:57-76 | when a split divides, both sides are strictly smaller and together a permutation of the list |
| KDBuild.DegenerateSplitStops | BasicRayTracer/KDTree.cpp:57-91 | when one side is empty, both become the whole list, everything is shared and the node does not divide |
| KDBuild.BoundsOfCovers | BasicRayTracer/KDTree.cpp:87-90 | the node's box contains every primitive's box, and is well formed when they are |
| KDBuild.BoundsOfLeast | BasicRayTracer/KDTree.cpp:87-90 | every box containing all the primitive boxes contains the node's box |
| KDBuild.BuildShape | BasicRayTracer/KDTree.cpp:13-94 | the tree is valid, its leaves hold a permutation of the list, every node's box covers its leaves, and the registry grows by one entry per node |
| KDBuild.BuildBoundsLeast | BasicRayTracer/KDTree.cpp:78-90 | the root's box is contained in every box containing all the primitive boxes |
| KDQuery.ScanCharacterised | BasicRayTracer/KDTree.cpp:104-115 | the scan reports a hit exactly when some primitive is hit before tMax; the result is the first hit with the least t, and nothing changes without a hit |
| KDQuery.NearestInList | BasicRayTracer/KDTree.cpp:104-115 | the scan's result is a hit of the list no farther than any other hit |
| KDQuery.ScanPermutation | BasicRayTracer/Scene.h:82-96 | reordering the list keeps whether a hit occurs and the nearest t, and keeps the whole result when hit times are distinct |
| KDQuery.PrunedMisses | BasicRayTracer/KDTree.cpp:96-128 | when the ray fails a node's slab test, no primitive below it is hit, provided every hit point lies in its primitive's box |
| KDQuery.QueryMatchesScan | BasicRayTracer/KDTree.cpp:96-128 | on a valid covered node, when every hit point lies in its primitive's box, the tree query equals the scan of its leaves in order |
| KDQuery.TreeMatchesScan | BasicRayTracer/KDTree.cpp:96-128 | when every hit point lies in its primitive's box, the query of the tree built from the list agrees with the brute-force scan of the list on the hit and the nearest t, and fully when hit times are distinct |
| KDQuery.OpaqueBlocks | BasicRayTracer/KDTree.cpp:137-142 | an occluding opaque primitive makes the shadow factor zero |
| KDQuery.AttenuateCommutes | BasicRayTracer/KDTree.cpp:135-149 | two attenuations can be applied in either order |
| KDQuery.ShadowPermutation | BasicRayTracer/KDTree.cpp:135-149 | the shadow factor does not depend on the order of the primitives |
| KDQuery.ShadowMatchesScan | BasicRayTracer/KDTree.cpp:130-160 | on a valid covered node, when every hit point lies in its primitive's box, the tree shadow query equals the fold over its leaves |
| KDQuery.TreeShadowMatchesScan | BasicRayTracer/KDTree.cpp:130-160 | when every hit point lies in its primitive's box, the shadow query of the tree built from the list equals the bounded fold over the list |
| KDQuery.BoundIrrelevant | BasicRayTracer/KDTree.cpp:137 | when no hit is nearer than MIN_SHADOW_INTERSECT, the lower bound changes nothing |
| KDQuery.GrazingHitDisagrees | BasicRayTracer/Scene.h:105-122 | a grazing opaque hit lets light through the bounded query and blocks it in the unbounded one |
| KDTrees.ListBounds | BasicRayTracer/KDTree.cpp:87-90 | the loop computes the node box function, which contains every primitive box |
| KDTrees.MeanAlong | BasicRayTracer/KDTree.cpp:41-45 | the loop computes the mean midpoint along the axis |
| KDTrees.Partition | BasicRayTracer/KDTree.cpp:48-55 | the loop computes both sides of the split, together a permutation of the list |
| KDTrees.CountShared | BasicRayTracer/KDTree.cpp:64-70 | the double loop counts the shared primitives, at least the size for equal sides |
| KDTrees.KDTree.constructor | BasicRayTracer/KDTree.cpp:3-6 | the tree is valid over the given primitives, with a root exactly when there are some |
| KDTrees.KDTree.MakeNode | BasicRayTracer/KDTree.cpp:13-94 | makeNode returns the node and registry that Build describes |
| KDTrees.KDTree.IntersectsNode | BasicRayTracer/KDTree.cpp:96-128 | intersectsNode returns what the query function gives |
| KDTrees.KDTree.TraceShadowNode | BasicRayTracer/KDTree.cpp:130-160 | traceShadowNode returns what the shadow function gives |
| KDTrees.KDTree.GetClosestIntersection | BasicRayTracer/KDTree.cpp:162-171 | the query from the root with tMax = FLT_MAX, which is the query of the tree built from the primitives; when every hit point lies in its primitive's box it agrees with the brute-force scan |
| KDTrees.KDTree.TraceShadowRay | BasicRayTracer/KDTree.cpp:173-182 | the shadow query from the root starting at (1, 1, 1), which is that of the tree built from the primitives; when every hit point lies in its primitive's box it equals the bounded fold over all primitives |
| Scenes.NewObject | BasicRayTracer/Object.h:19-23 | a new object has refractive index 1.5, no shaders and no primitives |
| Scenes.MakeMaterial | BasicRayTracer/Scene.cpp:35-45 | every colour and scalar is copied from the record, and there is no BSSRDF |
| Scenes.MakeMaterialInRange | BasicRayTracer/scene_io.h:118-125 | a material record in range gives unit colours, transparency and shininess |
| Scenes.LightOf | BasicRayTracer/Scene.cpp:47-74 | point and directional records become lights with their colour and position or direction; spot lights are skipped |
| Scenes.LightsOfAppend | BasicRayTracer/Scene.cpp:47-74 | loading two record lists in turn is loading their concatenation |
| Scenes.LightsOfCount | BasicRayTracer/Scene.cpp:47-74 | one light per supported record, each coming from a record |
| Scenes.ValidObjectLoadable | BasicRayTracer/scene_io.h:165-219 | a well-formed object record with at least one material can be loaded |
| Scenes.TrianglesFor | BasicRayTracer/Scene.cpp:140-206 | one triangle per polygon, the i-th from the i-th polygon |
| Scenes.LoadedTriangle | BasicRayTracer/Scene.cpp:171-201 | each triangle has the polygon's vertex positions, the object as parent, per-vertex or per-object materials by binding, and texture coordinates alternating between the two halves of the unit square |
| Scenes.AddObjectAppends | BasicRayTracer/Scene.cpp:76-122 | loading an object appends it, its new primitives and its materials to the stores, with fresh consecutive ids |
| Scenes.NewPrimitivesWellFormed | BasicRayTracer/Scene.cpp:76-122 | every new primitive has the object as parent and refers only to the materials loaded with it |
| Scenes.AddObjectValid | BasicRayTracer/Scene.cpp:76-122 | loading an object keeps the stores consistent |
| Scenes.AddObjectsValid | BasicRayTracer/Scene.cpp:76-102 | loading a list of objects keeps the stores consistent |
| Scenes.AddObjectsCounts | BasicRayTracer/Scene.cpp:76-102 | one object per record and the records' total count of primitives are added |
| Scenes.ShaderFiltersHits | BasicRayTracer/Primitive.cpp:125 | a hit of a primitive whose object has an intersection shader is one that shader accepts |
| Scenes.BSSRDFReachesHits | BasicRayTracer/Scene.cpp:214-217 | after the BSSRDF is set, every hit on the object's primitives carries it |
| Scenes.AssignBSSRDF | BasicRayTracer/Scene.cpp:214-217 | the loop sets the BSSRDF on exactly the materials of the object's primitives |
| Scenes.IndexOf | BasicRayTracer/Scene.cpp:219-231 | the first position of x, or the length when x is absent |
| Scenes.Find | BasicRayTracer/Scene.cpp:219-231 | the search loop returns the first position of x |
| Scenes.RemoveEachIsWithout | BasicRayTracer/Scene.cpp:219-231 | erasing each id in turn from a list without repeats removes exactly those ids |
| Scenes.RemovedPrimitives | BasicRayTracer/Scene.cpp:219-231 | removing an object leaves exactly the primitives of the other objects, without repeats |
| Scenes.RemoveValid | BasicRayTracer/Scene.cpp:219-231 | removing an object keeps the stores consistent |
| Scenes.RemovePrimitives | BasicRayTracer/Scene.cpp:219-231 | the erase loop computes the removal function |
| Scenes.ComputeCenter | BasicRayTracer/Object.h:26-36 | the loop computes the mean of all three vertices of every triangle, each weighted 1/(3n) as in the code |
| Scenes.MapTextures | BasicRayTracer/Object.h:39-44 | exactly the object's triangles get spherical texture coordinates about the centre |
| Scenes.MakeTriangles | BasicRayTracer/Scene.cpp:140-202 | the loop builds the triangle list TrianglesFor describes |
| Scenes.ScanForClosest | BasicRayTracer/Scene.h:82-96 | the brute-force loop computes the closest-hit scan |
| Scenes.ScanForShadow | BasicRayTracer/Scene.h:105-122 | the brute-force loop computes the unbounded shadow fold |
| Scenes.Scene.constructor | BasicRayTracer/Scene.cpp:3-33 | the scene is valid, with the record's lights and objects loaded and a tree over its primitives |
| Scenes.Scene.LoadLights | BasicRayTracer/Scene.cpp:47-74 | appends the lights of the records and changes nothing else |
| Scenes.Scene.LoadObjects | BasicRayTracer/Scene.cpp:76-102 | loads each record in order, as AddObjects describes |
| Scenes.Scene.LoadSphere | BasicRayTracer/Scene.cpp:104-122 | adds the sphere primitive and its material, as AddSphere describes |
| Scenes.Scene.LoadPolyset | BasicRayTracer/Scene.cpp:124-207 | adds the materials and triangles of the polygon set, as AddPolyset describes |
| Scenes.Scene.LoadTriangles | BasicRayTracer/Scene.cpp:140-202 | appends the triangles and their fresh ids to the stores and to the parent object |
| Scenes.Scene.SetObjectShader | BasicRayTracer/Scene.cpp:209-212 | sets the two shaders of the object and nothing else |
| Scenes.Scene.SetObjectBSSRDF | BasicRayTracer/Scene.cpp:214-217 | sets the BSSRDF on exactly the materials of the object's primitives |
| Scenes.Scene.RemoveObject | BasicRayTracer/Scene.cpp:219-231 | removes the object and exactly its primitives, keeps the rest in order, and rebuilds the tree |
| Scenes.Scene.GetCenter | BasicRayTracer/Object.h:26-36 | returns the object's centre |
| Scenes.Scene.AlternateTextureMap | BasicRayTracer/Object.h:39-44 | re-textures exactly the object's triangles about its centre and keeps the scene valid |
| Scenes.Scene.GetClosestIntersection | BasicRayTracer/Scene.h:78-98 | the answer is the query of the tree built from the scene's primitive list; when every hit point lies in its primitive's box it agrees with the brute-force scan of that list |
| Scenes.Scene.TraceShadowRay | BasicRayTracer/Scene.h:101-124 | the answer is the shadow query of the tree built from the scene's primitive list; when every hit point lies in its primitive's box it equals the bounded shadow fold over that list |
| Tracing.OrientNormal | BasicRayTracer/Renderer.cpp:107-112 | the normal is flipped if needed so that it faces against the ray |
| Tracing.Prepare | BasicRayTracer/Renderer.cpp:104-121 | the prepared hit faces the ray and keeps the hit's t, position and texture coordinates |
| Tracing.PassSurface | BasicRayTracer/Renderer.cpp:161-177 | both refractive indices of a crossing are positive |
| Tracing.PassSurfaceIndices | BasicRayTracer/Renderer.cpp:161-177 | entering pushes the object and goes from the current index to the object's; leaving removes it and goes back to the index beneath |
| Tracing.PassSurfaceNoDup | BasicRayTracer/Renderer.cpp:161-177 | the inside stack never repeats an object, and it holds the object exactly after entering it |
| Tracing.RefractionRatio | BasicRayTracer/Renderer.cpp:165-176 | the index ratio is positive |
| Tracing.RemoveFirstNoDup | BasicRayTracer/Renderer.cpp:174 | erasing an object from a stack without repeats removes it entirely |
| Tracing.EnteringDenserNeverReflects | BasicRayTracer/Renderer.cpp:162-168 | entering a medium at least as dense never gives total internal reflection |
| Tracing.Diffuse | BasicRayTracer/Renderer.cpp:202 | a light behind the surface adds no diffuse term |
| Tracing.BlockedLightAddsNothing | BasicRayTracer/Renderer.cpp:189-209 | a fully shadowed light contributes nothing |
| Tracing.AllBlockedIsAmbient | BasicRayTracer/Renderer.cpp:129-136 | when every light is blocked, only the ambient term remains |
| Tracing.Trace | BasicRayTracer/Renderer.cpp:100-187 | beyond the bounce limit, or on a miss, the output colour is returned unchanged |
| Tracing.Shade | BasicRayTracer/Renderer.cpp:119-185 | a material with a BSSRDF is shaded by subsurface scattering alone |
| Tracing.Reflected | BasicRayTracer/Renderer.cpp:138-148 | no reflection below the shininess threshold or at the last bounce |
| Tracing.Refracted | BasicRayTracer/Renderer.cpp:150-182 | no refraction below the transparency threshold, on total internal reflection, or at the last bounce |
| Tracing.LocalLightingOnly | BasicRayTracer/Renderer.cpp:100-187 | without BSSRDF, reflection or refraction, the result is the local lighting from all the lights |
| Tracing.TraceRay | BasicRayTracer/Renderer.cpp:100-187 | the recursive method computes Trace |
| Tracing.SumLights | BasicRayTracer/Renderer.cpp:130-136 | the light loop computes the local lighting |
| Tracing.TraceRefraction | BasicRayTracer/Renderer.cpp:150-182 | the refraction branch computes Refracted |
| Tracing.SceneWorld | BasicRayTracer/Scene.h:78-124 | the world a scene presents has the scene's lights and math library |
| Tracing.SceneWorldMatchesScan | BasicRayTracer/Scene.h:78-124 | when every hit point lies in its primitive's box, the world's tree-based closest query finds a hit exactly when the brute-force scan does, at the same distance, and its shadow query is the bounded fold |
| Tracing.SceneWorldIndices | BasicRayTracer/Renderer.cpp:165-176 | a scene with positive refractive indices gives a world traceRay accepts |
| Tracing.SceneShadeKeepsBssrdf | BasicRayTracer/Renderer.cpp:119-127 | colour shading keeps the BSSRDF, and an object without a shader keeps the material |
| Rendering.FloorSqrt | BasicRayTracer/Renderer.cpp:24 | the integer square root r satisfies r² ≤ n < (r+1)² |
| Rendering.PatternsAsWrittenShort | BasicRayTracer/Renderer.cpp:18-45 | past the guard, for a count other than 1, there are 64 patterns of (int)sqrt(spp)² points each, fewer than spp exactly when spp is not a perfect square |
| Rendering.GuardAsWrittenOverruns | BasicRayTracer/Renderer.cpp:18-24 | the guard admits 2 samples, which the corrected guard rejects, yet each of the 64 patterns holds only one point |
| Rendering.Column | BasicRayTracer/Renderer.cpp:28-44 | a column has one point per cell |
| Rendering.Columns | BasicRayTracer/Renderer.cpp:28-44 | n columns hold n × size points |
| Rendering.ColumnsIndex | BasicRayTracer/Renderer.cpp:28-42 | point x × size + y of the pattern is cell y of column x |
| Rendering.StratifiedPatterns | BasicRayTracer/Renderer.cpp:26-45 | there are NUM_SAMPLING_PATTERNS patterns, each of size × size points |
| Rendering.AcceptedPatternsHoldEverySample | BasicRayTracer/Renderer.cpp:9-45 | under the corrected guard, an accepted count gives patterns of exactly that many points, a rejected count none, and 1 sample the pixel centre |
| Rendering.CellPointInCell | BasicRayTracer/Renderer.cpp:30-39 | with draws in [0, 1], a cell's point lies inside the cell |
| Rendering.PointInCell | BasicRayTracer/Renderer.cpp:27-44 | every pattern point lies in its own grid cell |
| Rendering.PatternIndex | BasicRayTracer/Renderer.cpp:64 | the pattern index chosen for a pixel is in range |
| Rendering.SumOfConstant | BasicRayTracer/Renderer.cpp:86-89 | summing n copies of a colour scales it by n |
| Rendering.SumBounds | BasicRayTracer/Renderer.cpp:86-89 | the sum of n unit colours lies in [0, n] in every channel |
| Rendering.BoxFilterOfConstant | BasicRayTracer/Renderer.cpp:86-90 | the box filter of equal samples is that sample |
| Rendering.BoxFilterBounds | BasicRayTracer/Renderer.cpp:86-90 | the box filter of unit colours is a unit colour |
| Rendering.PickLight | BasicRayTracer/Renderer.cpp:360-364 | the light index is in range and its weight is one over the number of lights |
| Rendering.PickLightUniform | BasicRayTracer/Renderer.cpp:360-364 | every light can be picked, and all picks have the same weight |
| Rendering.Renderer.constructor | BasicRayTracer/Renderer.cpp:3-5 | the renderer keeps the world and sample count and builds the patterns as the code does; every pattern holds spp points exactly for a count the corrected guard accepts, and then the patterns are the corrected ones |
| Rendering.Renderer.CreateSamplingPatterns | BasicRayTracer/Renderer.cpp:7-47 | it succeeds exactly for 1, 0 and the powers of two, and builds the centre pattern or the 64 (int)sqrt(spp)-square patterns |
| Rendering.Renderer.ColorPixel | BasicRayTracer/Renderer.cpp:49-98 | the pixel's colour is the box filter of the traced samples of its pattern |
| Rendering.SamplePattern | BasicRayTracer/Renderer.cpp:28-44 | the nested loop builds one stratified pattern |
| Rendering.SampleColumn | BasicRayTracer/Renderer.cpp:29-43 | the innermost loop builds one column of the pattern, one point per cell |
| Rendering.SumSamples | BasicRayTracer/Renderer.cpp:86-89 | the loop sums the sample colours |
| Frames.PixelByteInBounds | BasicRayTracer/FrameBuffer.h:28-30 | every channel of an in-range pixel has its address inside the image |
| Frames.RowOrder | BasicRayTracer/FrameBuffer.h:28-30 | pixels of a lower row come before those of a higher row |
| Frames.PixelBytesDistinct | BasicRayTracer/FrameBuffer.h:28-30 | distinct pixel channels have distinct addresses |
| Frames.FrameBuffer.constructor | BasicRayTracer/FrameBuffer.h:14-21 | a zeroed image of width × height × 3 bytes |
| Frames.FrameBuffer.GetPixelPtr | BasicRayTracer/FrameBuffer.h:28-30 | an in-range pixel's three bytes lie inside the image |
| ImageTiles.ColumnTiles | BasicRayTracer/main.cpp:135-142 | a column of m tiles |
| ImageTiles.ColumnCount | BasicRayTracer/main.cpp:135-142 | a pixel of the column's strip lies in exactly one of its first m tiles, or none beyond them |
| ImageTiles.GridTiles | BasicRayTracer/main.cpp:134-143 | n columns of tiles |
| ImageTiles.GridCount | BasicRayTracer/main.cpp:134-143 | a pixel lies in exactly one tile of the first n columns when its column is among them |
| ImageTiles.ImageTileList | BasicRayTracer/main.cpp:133-143 | one tile per tile position across and down |
| ImageTiles.TilesCoverOnce | BasicRayTracer/main.cpp:133-143 | every pixel of the image lies in exactly one tile |
| ImageTiles.TilesWellFormed | BasicRayTracer/main.cpp:136-140 | every tile lies inside the image |
| ImageTiles.GenerateTiles | BasicRayTracer/main.cpp:133-143 | the nested loop builds the tile list |
| ImageTiles.Quantize | BasicRayTracer/main.cpp:52-54 | channels clamp to 0 and 255 and are otherwise the floor of 255 c |
| ImageTiles.QuantizeMonotone | BasicRayTracer/main.cpp:52-54 | quantization keeps the order of channel values |
| ImageTiles.StorePixel | BasicRayTracer/main.cpp:52-54 | the pixel's three bytes are written and no other byte changes |
| ImageTiles.PixelSlot | BasicRayTracer/FrameBuffer.h:28-30 | a byte address belongs to the pixel channel written exactly when the pixel and channel match |
| ImageTiles.PaintPixel | BasicRayTracer/main.cpp:46-55 | writing one pixel extends the painted part of the tile by that pixel |
| ImageTiles.NextRow | BasicRayTracer/main.cpp:45-56 | a finished row continues at the start of the next |
| ImageTiles.PaintedTile | BasicRayTracer/main.cpp:43-56 | after the last row, the tile holds rendered pixels and the rest of the image is unchanged |
| ImageTiles.RenderTile | BasicRayTracer/main.cpp:43-65 | after rendering a tile, its pixels hold the renderer's colours and every other byte is unchanged |
| SceneLists.Node.constructor | BasicRayTracer/scene_io.cpp:282-286 | a node holds the record and has no successor |
| SceneLists.NodeList.constructor | BasicRayTracer/scene_io.cpp:63-65 | an empty list has a null head |
| SceneLists.NodeList.Append | BasicRayTracer/scene_io.cpp:289-306 | the new node becomes the tail, reached from the old one, and the earlier records are kept |
| SceneLists.NodeList.Count | BasicRayTracer/scene_io.cpp:466-480 | walking the list counts its records |
| SceneFiles.LightTypeOf | BasicRayTracer/scene_io.h:68 | a light code is known exactly for 0..2, and the type read encodes back to it |
| SceneFiles.PolySetTypeOf | BasicRayTracer/scene_io.h:188 | a polygon set code is known exactly for 0..2, and the type read encodes back to it |
| SceneFiles.NormTypeOf | BasicRayTracer/scene_io.h:195 | a normal type code is known exactly for 0..1, and the type read encodes back to it |
| SceneFiles.BindingOf | BasicRayTracer/scene_io.h:205 | a material binding code is known exactly for 0..1, and the binding read encodes back to it |
| SceneFiles.RecordsToRead | BasicRayTracer/scene_io.cpp:434-445 | a count of 0 reads none, a negative count reads one record, and a positive count reads that many |
| SceneFiles.ArrayLength | BasicRayTracer/scene_io.cpp:1105-1109 | an array of a positive count has that length, and otherwise none |
| SceneFiles.ReadInt | BasicRayTracer/scene_io.cpp:434 | an integer is read exactly when one comes next |
| SceneFiles.DecodeCamera | BasicRayTracer/scene_io.cpp:253-270 | a camera reads eleven floats, and is absent exactly when the field of view is zero |
| SceneFiles.CameraRoundTrip | BasicRayTracer/scene_io.cpp:238-270 | a written camera reads back, and is unchanged unless its field of view is zero |
| SceneFiles.DecodeLight | BasicRayTracer/scene_io.cpp:450-463 | a light consumes twelve fields |
| SceneFiles.LightRoundTrip | BasicRayTracer/scene_io.cpp:414-463 | a written light reads back unchanged |
| SceneFiles.DecodeLights | BasicRayTracer/scene_io.cpp:427-446 | the light list starts with a count and holds as many records as that count says to read |
| SceneFiles.LightsRoundTrip | BasicRayTracer/scene_io.cpp:398-446 | a written light list reads back unchanged |
| SceneFiles.DecodeMaterial | BasicRayTracer/scene_io.cpp:781-789 | a material reads fourteen floats |
| SceneFiles.MaterialRoundTrip | BasicRayTracer/scene_io.cpp:768-789 | a written material reads back unchanged |
| SceneFiles.StringUpToNul | BasicRayTracer/scene_io.cpp:660-663 | the string read is the characters up to the first NUL |
| SceneFiles.DecodeName | BasicRayTracer/scene_io.cpp:657-663 | a name starts with its length, and a length of -1 means no name |
| SceneFiles.NameRoundTrip | BasicRayTracer/scene_io.cpp:609-663 | a written name without NULs reads back unchanged |
| SceneFiles.DecodeSphere | BasicRayTracer/scene_io.cpp:860-875 | a sphere reads sixteen floats |
| SceneFiles.SphereRoundTrip | BasicRayTracer/scene_io.cpp:842-875 | a written sphere reads back unchanged |
| SceneFiles.DecodeNorm | BasicRayTracer/scene_io.cpp:1116-1119 | without per-vertex normals nothing is read and the normal is zero |
| SceneFiles.NormRoundTrip | BasicRayTracer/scene_io.cpp:1063-1120 | a written normal reads back as the format keeps it |
| SceneFiles.VertexRoundTrip | BasicRayTracer/scene_io.cpp:1063-1120 | a written vertex reads back with the fields its format carries and the others zero |
| SceneFiles.DecodePolySetHeader | BasicRayTracer/scene_io.cpp:1091-1101 | files of version 2.0 or older get per-object materials and no texture coordinates |
| SceneFiles.DecodePolySet | BasicRayTracer/scene_io.cpp:1081-1123 | a version 2.0 polygon set has per-object materials and no texture coordinates |
| SceneFiles.PolySetRoundTrip | BasicRayTracer/scene_io.cpp:1044-1123 | a written polygon set reads back as the format keeps it |
| SceneFiles.DecodeMaterialCount | BasicRayTracer/scene_io.cpp:664-668 | files of version 2.0 or older have one material per object and read no count |
| SceneFiles.DecodeObject | BasicRayTracer/scene_io.cpp:649-682 | a version 2.0 object has exactly one material |
| SceneFiles.ObjectRoundTrip | BasicRayTracer/scene_io.cpp:604-682 | a written object reads back as the reader keeps it |
| SceneFiles.DecodeObjects | BasicRayTracer/scene_io.cpp:626-645 | the object list starts with a count and holds as many objects as that count says to read |
| SceneFiles.ObjectsRoundTrip | BasicRayTracer/scene_io.cpp:584-645 | a written object list reads back as the reader keeps it |
| SceneFiles.DecodeScene | BasicRayTracer/scene_io.cpp:164-184 | for version 2.1 and later, a scene without the test integer and float reads as nothing |
| SceneFiles.SceneRoundTrip | BasicRayTracer/scene_io.cpp:146-184 | a written scene reads back as the reader keeps it |
| SceneFiles.OldVersionDefaults | BasicRayTracer/scene_io.cpp:664-668 | every object read from an old file has one material, and its polygon sets have per-object materials and no texture coordinates |
| SceneReaders.ReadLightsB | BasicRayTracer/scene_io.cpp:426-446 | the reader loop computes the light list decoder |
| SceneReaders.WriteLightsB | BasicRayTracer/scene_io.cpp:398-411 | the writer loop computes the light list encoder |
| SceneReaders.ReadMaterialsB | BasicRayTracer/scene_io.cpp:669-672 | the reader loop computes the material list decoder |
| SceneReaders.ReadVerticesB | BasicRayTracer/scene_io.cpp:1109-1121 | the reader loop computes the vertex list decoder |
| SceneReaders.ReadPolygonsB | BasicRayTracer/scene_io.cpp:1105-1122 | the reader loop computes the polygon list decoder |
| SceneReaders.ReadPolySetB | BasicRayTracer/scene_io.cpp:1081-1123 | the reader computes the polygon set decoder |
| SceneReaders.WriteVerticesB | BasicRayTracer/scene_io.cpp:1063-1075 | the writer loop computes the vertex list encoder |
| SceneReaders.WritePolySetB | BasicRayTracer/scene_io.cpp:1044-1077 | the writer computes the polygon set encoder |
| SceneReaders.ReadObjectB | BasicRayTracer/scene_io.cpp:648-682 | the reader computes the object decoder |
| SceneReaders.ReadObjectsB | BasicRayTracer/scene_io.cpp:625-645 | the reader loop computes the object list decoder |
| SceneReaders.WriteObjectsB | BasicRayTracer/scene_io.cpp:584-601 | the writer loop computes the object list encoder |
| SceneReaders.ReadSceneB | BasicRayTracer/scene_io.cpp:164-184 | the reader computes the scene decoder |
| SceneReaders.WriteSceneB | BasicRayTracer/scene_io.cpp:146-162 | the writer computes the scene encoder |
| SceneText.SkipSpace | BasicRayTracer/scene_io.cpp:563 | the leading white space is dropped, and what remains is a suffix that starts with something else |
| SceneText.LineOf | BasicRayTracer/scene_io.cpp:563 | the longest prefix without a newline, followed by the newline or the end |
| SceneText.ScanLine | BasicRayTracer/scene_io.cpp:563 | `%[^\n]` matches exactly when the text does not start with a newline, and splits it at the first newline |
| SceneText.ParseName | BasicRayTracer/scene_io.cpp:564-574 | "NULL" means no name; a quoted word gives the text between its quotes |
| SceneText.NameLineRoundTrip | BasicRayTracer/scene_io.cpp:542-574 | a name without newlines, written as a name line, reads back unchanged |
| SceneText.NewlineNameCut | BasicRayTracer/scene_io.cpp:549-563 | a name with a newline is cut there on reading |
| SceneText.NewlineNameLost | BasicRayTracer/scene_io.cpp:549-563 | a name with a newline reads back only as its first line, and only when that line ends in a quote |
| SceneText.LightOf | BasicRayTracer/scene_io.cpp:350-395 | each light keyword gives its light type, with the unused fields zero and the colour read |
| SceneText.ObjectOf | BasicRayTracer/scene_io.cpp:815-839 | an object keeps the name and materials read, and is a sphere exactly for the sphere keyword |
| SceneText.Step | BasicRayTracer/scene_io.cpp:120-137 | a statement is accepted exactly when its keyword is known |
| SceneText.ReadSceneA | BasicRayTracer/scene_io.cpp:116-140 | the keyword loop computes the entry reader |
| SceneText.AbortsIffUnknownKeyword | BasicRayTracer/scene_io.cpp:133-136 | the reader fails exactly when some statement has an unknown keyword |
| SceneText.ReadEntriesContents | BasicRayTracer/scene_io.cpp:116-140 | a successful read holds the last camera, every light and every object, in order |
| SceneText.LightCount | BasicRayTracer/scene_io.cpp:116-140 | one light per light statement |
| SceneLoading.ReadSceneFile | BasicRayTracer/scene_io.cpp:68-98 | a scene is read only under a header that scans, with a version no newer than the reader, naming binary or ascii |
| SceneLoading.ReadScene | BasicRayTracer/scene_io.cpp:68-98 | the dispatch method computes ReadSceneFile |
| SceneLoading.BinaryFileRoundTrip | BasicRayTracer/scene_io.cpp:146-184 | a file written by writeSceneBinary reads back as the reader keeps it |
| SceneLoading.AsciiFileRead | BasicRayTracer/scene_io.cpp:116-140 | an ASCII file fails exactly on an unknown keyword, and otherwise holds every statement's record |

## Left out

- BSSRDF.h and the subsurface functions (Renderer.cpp:222-358): the subsurface shading is a parameter `subsurface` of the world.
- Camera.h is not part of this model. The camera's `GetRay` is a parameter of the renderer.
- sqrt, sin, atan2, asin, exp and pow are `Math` parameters. The Phong `pow` is one of them.
- The noise generator (`noise`, `octaveNoise`) is not part of this model. It is a `Noise` parameter.
- `rand()` is a sequence of draws given as a parameter.
- stb image I/O (`SaveToFile`, texture loading), threads, the mutex, the progress output, the Timer and the `recordRay` debug output are left out, because they are I/O or concurrency.
- Float rounding, infinities and NaN: floats are exact reals.
- Division by zero, which gives an infinity or NaN in C++, is a fixed value in the model. `Floats.Divide` gives 0 and `Vectors.InverseOrOne` gives 1.
  The slab test is the exception: `Bounds.InverseDirection` and `Bounds.Intersects` model +infinity, -infinity and NaN.
- Bounds.Reciprocal: a zero component is taken as +0.0, so its reciprocal is +infinity. A -0.0 component gives -infinity in
  C++; the model does not tell the two zeros apart.
- `printf`'s `%g` precision is not modelled in the ASCII writer.
- Vectors.Refract: the unit length of the refracted direction is not stated. Proving it needs products of square roots that the solver does not close.
- Vectors.NormalizeScalesBack: the unit length of a normalized vector is not stated, for the same reason.
- `long` and `int` are taken as the same width in the binary format.
- The binary readers treat an enum code outside its enum as a read failure. The C keeps the raw value.
- A reader failure or a short stream gives no result. The C leaves calloc'd zeros or garbage in the record.
- A binary name whose body lacks its NUL is unreadable in the model.
- The `%[^\n]` overflow of the MAX_NAME buffer is not modelled.
- `\r` line endings are not modelled.
- The ASCII bodies (camera, light fields, sphere and polygon set) are parsers given as parameters (`Parsers`). Only the keyword loop and the name line are modelled as code.
- The header line and the body are given as two readings of the same bytes: fields for the binary reader and statements for the ASCII one.
- The ASCII writers other than the name line are not modelled. They are the `write_*A` functions.
- `deleteScene`, the `delete_*` functions and the destructors are left out, because they only manage memory.
- Scenes.Scene.GetClosestIntersection: requires at least one primitive. On an empty scene the C++ tree root is null and `intersectsNode` dereferences it.
- Scenes.Scene.TraceShadowRay: requires at least one primitive, for the same reason.
- Scenes.Scene.GetCenter: requires every primitive of the object to be a triangle. The C++ casts each primitive to `Triangle*`, which is undefined for a sphere.
- Scenes.Scene.AlternateTextureMap: requires every primitive of the object to be a triangle, for the same reason.
- Primitives.NewSphere: parent and material are set to 0. The C++ constructor leaves them uninitialised until the scene loader sets them.
- Primitives.NewTriangle: texture coordinates and materials are set to zero. The C++ constructor leaves them uninitialised until the scene loader sets them.
- Rendering.Renderer.ColorPixel: requires every pattern to hold spp points. Past the as-written guard with a count that is not a square, the C++ reads past the pattern (see Findings); that read is not modelled.
- KDQuery.TreeMatchesScan: agrees with the brute-force scan only under `HitsInsideBoxes`. That hypothesis says every hit point lies in its primitive's box, strictly inside on the axes where the direction component is zero.
  - It is not proved for the primitives. For a sphere, the tangent branch (`|discriminant| < FLT_EPSILON`) reports a point that need not lie on the sphere. For a triangle it needs the Möller–Trumbore solution identity, which is not proved.
  - It does fail as the code is written. A ray lying in a face plane of a box, with a zero direction component there, is culled (`Bounds.FaceRayCulled`), so the tree can miss a hit the scan finds.
- KDQuery.TreeShadowMatchesScan: equals the brute-force fold only under `HitsInsideBoxes`, for the same reasons.
- KDTrees.KDTree.GetClosestIntersection and KDTrees.KDTree.TraceShadowRay: state the brute-force agreement only under `HitsInsideBoxes`. They state the tree answer unconditionally.
- Tracing.SceneWorldMatchesScan: relates the world's queries to the scans only under `HitsInsideBoxes`.

## Findings

| source | as written | input that shows it | evidently intended | confidence | as-written member | corrected member |
|---|---|---|---|---|---|---|
| BasicRayTracer/Renderer.cpp:18-24 | the guard accepts 0 and every power of two, then builds (int)sqrt(spp) × (int)sqrt(spp) points per pattern | spp = 2: the guard passes, each pattern holds 1 point, and ColorPixel reads sample 1 | accept only counts that are powers of two and perfect squares (1, 4, 16, 64, …) | not executed | Rendering.GuardAsWrittenOverruns | Rendering.AcceptedPatternsHoldEverySample |
