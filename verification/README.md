# Whitted ray tracer: scene, camera, ray and shading model

This project models the rendering core of a small Whitted-style ray tracer written in C++.

**Scene.** A scene holds:
- its cameras;
- a material table and a vertex table;
- meshes, standalone triangles and spheres;
- point lights and an ambient light;
- a background colour, a shadow-ray epsilon and a maximum recursion depth.

Rendering a scene has two steps:
1. It flattens the primitives into one sphere list and one face list. Each mesh and triangle writes its material id onto its faces.
2. Each camera, in order, generates one primary ray per pixel and then traces the whole ray buffer into an RGB byte framebuffer.

**Tracing.** Tracing one ray works like this:
- It searches every sphere and then every face for the nearest positive hit.
- A hit shades the point: ambient light, plus a mirror bounce that stops past the maximum depth, plus one Phong term per light that a shadow ray does not block.
- A primary ray that misses everything gets the background colour.
- The colour is rounded and clamped to 0..255, and its three channels are stored as bytes.

**Modules:**
- `Types` (`types.dfy`): the value types, the integer and real vector algebra, colour clamping and the face constructors.
- `Rays` (`rays.dfy`): ray construction, the sphere and triangle intersection tests, and the nearest-hit search. A ray is a value in the source (it is copied into and out of arrays), so here it is a datatype. The search is a method with two loops, proved against the functions `Scan`/`Closest`. The lemmas prove that those functions find the nearest positive hit, and that on a tie it is the first in visiting order.
- `Shading` (`shading.dfy`): the shadow test, the colour of a ray, and shading at a hit point. Each is a method proved equal to a recursive specification function.
- `Cameras` (`camera.dfy`): the `Camera` class, with its two heap arrays (the ray buffer and the framebuffer). It also has:
  - primary-ray generation, with its flipped-row index arithmetic;
  - the twelve strided tracing workers, run one after the other. The lemmas show that together they trace every ray exactly once and write exactly the framebuffer `Framebuffer` describes.
- `Scenes` (`scene.dfy`): the `Scene` class, primitive flattening, and rendering all cameras.

**Floats and sizes.**
- Floating-point values are modelled as mathematical reals.
- The float operations that real arithmetic cannot express are parameters, passed in a `FloatOps` record:
  - square root;
  - vector normalisation;
  - the diffuse-plus-specular contribution of one light (which uses `pow`);
  - a quotient whose divisor is zero.
- Vertex and material ids are 1-based, as in the scene files. Neither the loader nor the tracer checks them against the tables. The model demands up front, as the precondition `ValidPrimitives`, that every id of every primitive names a table entry.

## Model

| member | source | states |
|---|---|---|
| Types.DotAsWritten | include/basicTypeDefinition.h:17-20 | `Vec3i::dot` as written differs from the true dot product by exactly z·(v.y - v.z), so it agrees only when a.z = 0 or v.y = v.z |
| Types.CrossI | include/basicTypeDefinition.h:21-24 | `Vec3i::cross` obeys Lagrange's identity: \|a×v\|² = \|a\|²\|v\|² - (a·v)² |
| Types.CrossAntisymmetric | include/basicTypeDefinition.h:21-24 | `Vec3i::cross` is antisymmetric (a×b = -(b×a)) and a×a is the zero vector |
| Types.CrossOrthogonal | include/basicTypeDefinition.h:17-24 | with the dot product as evidently intended (third term z·v.z), dot is symmetric and a×b is orthogonal to both a and b |
| Types.DotAsWrittenNotOrthogonal | include/basicTypeDefinition.h:17-20 | `Vec3i::dot` as written gives a·(a×b) = 1 for a = (0,0,1), b = (1,0,0), so it breaks orthogonality |
| Types.DotAsWrittenAsymmetric | include/basicTypeDefinition.h:17-20 | `Vec3i::dot` as written is not symmetric: (0,0,1)·(0,1,0) differs from (0,1,0)·(0,0,1) |
| Types.Round | include/basicTypeDefinition.h:85-89 | `round` gives an integer within one half of its argument, with halves rounded away from zero |
| Types.RoundMonotone | include/basicTypeDefinition.h:85-89 | rounding is monotone |
| Types.Saturate | include/basicTypeDefinition.h:85-89 | `min(255, max(0, (int)round(x)))` lies in 0..255. It is 0 when the rounded value is negative, 255 when that value is above 255, and the rounded value otherwise |
| Types.SaturateMonotone | include/basicTypeDefinition.h:85-89 | a brighter channel never gives a smaller byte |
| Types.SaturateNearest | include/basicTypeDefinition.h:85-89 | for a channel in 0..255, the result is within one half of the channel (nearest integer) |
| Types.SaturateExamples | include/basicTypeDefinition.h:85-89 | concrete cases: 127.6 gives 128, 127.4 gives 127, 2.5 rounds to 3 and -2.5 to -3, -3 gives 0 and 300 gives 255 |
| Types.Clamp | include/basicTypeDefinition.h:85-89 | `Vec3f::clamp` yields a byte-ranged colour whose every channel is the saturated channel of the input |
| Types.ToByte | src/Camera.cpp:50-52 | the store into an `unsigned char` keeps the value modulo 256 and is the identity on 0..255 |
| Types.NearPlanePositional | include/basicTypeDefinition.h:93-99 | `Vec4f(x, y, z, w)` fills `l, r, t, b` by position: a window given as (left, right, bottom, top) keeps its bottom in `t` and its top in `b` |
| Types.DefaultFace | include/basicTypeDefinition.h:214-217 | `Face()` has vertex ids 0 and a zero normal |
| Types.MakeFace | include/basicTypeDefinition.h:218-224 | `Face(v0, v1, v2)` keeps the three ids and the zero default normal |
| Rays.NewRay | src/Ray.cpp:6-15 | a new ray keeps its origin and direction and has depth 0. Its hit record has t = -1, material id -1, and a zero point and normal |
| Rays.RootChoice | src/Ray.cpp:87-93 | the chosen root is -1 (a miss), or else one of the two roots and non-negative |
| Rays.RootChoiceNearest | src/Ray.cpp:87-93 | with t1 ≤ t2, the result is a miss exactly when t2 < 0. It picks t1 when t1 ≥ 0, picks t2 when only t2 ≥ 0, and never exceeds t2 |
| Rays.SphereRootsOrdered | src/Ray.cpp:87-88 | for a > 0, (-b - √D)/a ≤ (-b + √D)/a, so the sphere test always offers the roots in order |
| Rays.SphereTest | src/Ray.cpp:77-93 | the sphere distance is -1 or non-negative, and a negative discriminant is a miss |
| Rays.SphereIntersection | src/Ray.cpp:72-94 | the test against a stored sphere (centre looked up by 1-based vertex id) is -1 or non-negative |
| Rays.TriangleTest | src/Ray.cpp:53-69 | the Möller–Trumbore distance is -1 or at least 1e-6 |
| Rays.TriangleTestRejects | src/Ray.cpp:57-68 | each rejection of the test gives -1: a near-parallel determinant (within 1e-10), u outside [0,1], v < 0, or u + v > 1 |
| Rays.FaceIntersection | src/Ray.cpp:47-70 | the test against a stored face (vertices looked up by 1-based id) is -1 or at least 1e-6 |
| Rays.RefreshNormal | include/basicTypeDefinition.h:208-213 | `calculateNormal` leaves a face's vertex ids valid |
| Rays.RefreshNormalKeepsTest | src/Ray.cpp:47-70 | recomputing the normal sets it to the normalised edge cross product. It keeps the material id, and it changes neither the face's distance nor a later recomputation |
| Rays.RefreshNormals | src/Ray.cpp:30-32 | the face list after one search has as many faces as before |
| Rays.RefreshNormalsInvisible | src/Ray.cpp:30-39 | the normals a search writes back do not change what any later search sees, and writing them twice equals writing them once |
| Rays.SphereCandidates | src/Ray.cpp:18-20 | one candidate per sphere, all with valid material ids |
| Rays.FaceCandidates | src/Ray.cpp:30-32 | one candidate per face, all with valid material ids |
| Rays.Candidates | src/Ray.cpp:17-39 | the search visits the spheres in order, then the faces in order: candidate i is sphere i, and candidate \|spheres\| + i is face i |
| Rays.OneBasedLookups | src/Ray.cpp:24-27 | ids are 1-based. A sphere's centre and a face's three corners are `vertexData[id - 1]`, read through the raw-index getters `getVertex`/`getMaterial` (include/basicTypeDefinition.h:192-194; face corners at src/Ray.cpp:49-51, sphere centre at src/Ray.cpp:74). An accepted candidate brings its id and the material `materials[id - 1]` (src/Ray.cpp:24, 36) |
| Rays.FreshRecordAcceptsAnyHit | include/basicTypeDefinition.h:132-138 | `HitRecord()` holds no hit (t = -1, id -1, zero point and normal), and the search accepts exactly the positive distances against it |
| Rays.ScanSnoc | src/Ray.cpp:21-38 | offering one more candidate extends the search by one step |
| Rays.SphereCandidatesSnoc | src/Ray.cpp:18-29 | the sphere loop's next iteration adds that sphere's candidate |
| Rays.FaceCandidatesSnoc | src/Ray.cpp:30-39 | the face loop's next iteration adds that face's candidate |
| Rays.ScanNearest | src/Ray.cpp:17-39 | the search keeps its start record unless some candidate is accepted. The accepted winner is positive, at most every positive candidate and every positive stored distance, and strictly nearer than every earlier positive candidate. Its t, normal, material id and looked-up material end up in the record |
| Rays.SettleNearest | src/Ray.cpp:40-44 | for a fresh ray: it hits exactly when some candidate is positive. A hit carries the nearest positive distance (the first one on a tie), its normal and material, and the point origin + t·direction. A miss returns the ray unchanged. Origin, direction and depth always stay |
| Rays.ClosestNearest | src/Ray.cpp:17-45 | the same nearest-hit statement for the spheres and faces of the scene |
| Rays.OfferSphere | src/Ray.cpp:18-29 | one sphere-loop iteration updates the record as the search function's step does |
| Rays.OfferFace | src/Ray.cpp:30-39 | one face-loop iteration updates the record as the search's step does, and refreshes that face's normal |
| Rays.ClosestIntersection | src/Ray.cpp:17-45 | the method returns the ray `Closest` describes, and true exactly when its distance is positive. It returns the face list with every normal recomputed |
| Shading.ShadowRay | src/Ray.cpp:97-98 | the shadow ray starts at the hit point pushed along the normal by the shadow epsilon. It has depth 0 and no hit yet |
| Shading.LightDistance | src/Ray.cpp:102 | when the shadow ray's x direction is non-zero, `tLight` is the distance at which the shadow ray reaches the light's x coordinate |
| Shading.InShadowIff | src/Ray.cpp:96-108 | a point is in shadow exactly when some sphere or face meets the shadow ray at a positive distance below the light's distance (measured along x) |
| Shading.IsInShadow | src/Ray.cpp:96-108 | the method decides exactly `InShadow` |
| Shading.ReflectionRay | src/Ray.cpp:129-130 | the mirror ray starts at the hit point pushed along the normal by the epsilon. Its depth is one more than the incoming ray's, and it has no hit yet |
| Shading.ShadowedLightsAddNothing | src/Ray.cpp:133-137 | when every light is in shadow, the light loop adds nothing to the colour |
| Shading.LightSumAppend | src/Ray.cpp:133-154 | the light loop over two runs of lights equals the loop over the first run continued over the second |
| Shading.LightSumShift | src/Ray.cpp:133-154 | the light loop adds its terms to whatever colour it starts from |
| Shading.ShadowedLightSkipped | src/Ray.cpp:134-137 | any one light in shadow adds nothing: the sum equals the sum with that light removed |
| Shading.LitLightAdds | src/Ray.cpp:134-154 | any one light not in shadow adds exactly its Phong term, wherever it stands in the list |
| Shading.ColorCases | src/Ray.cpp:110-124 | a ray beyond the maximum depth is black. A ray that meets something is shaded at its nearest hit. A primary ray that misses everything gets the background colour, and a reflected ray that misses is black |
| Shading.BouncesBounded | src/Ray.cpp:112-131 | a ray makes at most maxRecursionDepth + 1 - depth mirror bounces, so recursion ends |
| Shading.ComputeColor | src/Ray.cpp:110-124 | the method returns the colour `Color` defines, and the ray updated by its nearest-hit search unless it was too deep |
| Shading.ApplyShading | src/Ray.cpp:126-156 | the method returns the colour `Shade` defines: ambient plus the mirror term plus one Phong term per unshadowed light, with lights taken in order |
| Cameras.FlatIndexInverse | src/Camera.cpp:81 | the store index (height - i - 1)·width + j of a pixel lies in the buffer, and row and column are recovered from it |
| Cameras.FlatIndexOnto | src/Camera.cpp:72-81 | every buffer index is the store index of some pixel |
| Cameras.FlatIndexInjective | src/Camera.cpp:72-81 | no two pixels share a store index |
| Cameras.PixelOffsetStep | src/Camera.cpp:76-77 | consecutive pixel offsets differ by one pixel's extent, (hi - lo)/count |
| Cameras.PixelCentresEvenlySpaced | src/Camera.cpp:74-79 | the near-plane points the loop aims at form an even grid. One column moves them by (r - l)/width along u, one row by (t - b)/height against v. The direction is the normalised vector from the camera to that point (`PixelDirection`) |
| Cameras.PrimaryRay | src/Camera.cpp:74-81 | a primary ray starts at the camera position with depth 0 and no hit |
| Cameras.GeneratedRays | src/Camera.cpp:67-84 | the generated buffer has width·height rays |
| Cameras.GeneratedRaysAt | src/Camera.cpp:72-83 | the ray at pixel (i, j)'s store index is that pixel's primary ray |
| Cameras.GeneratedExists | src/Camera.cpp:72-83 | some buffer holds exactly the primary ray of every pixel at that pixel's store index |
| Cameras.GeneratedUnique | src/Camera.cpp:72-83 | any buffer that holds each pixel's primary ray at that pixel's store index is exactly `GeneratedRays`, so every slot is written |
| Cameras.TracedRays | src/Camera.cpp:47-49 | tracing keeps the number of rays |
| Cameras.PixelColor | src/Camera.cpp:49 | every pixel's clamped colour is byte-ranged |
| Cameras.PixelColors | src/Camera.cpp:47-49 | one colour per ray |
| Cameras.Bytes | src/Camera.cpp:50-52 | three bytes per colour |
| Cameras.Framebuffer | src/Camera.cpp:44-53 | the framebuffer holds three bytes per ray |
| Cameras.BytesAt | src/Camera.cpp:50-52 | byte 3k + c holds channel c of colour k |
| Cameras.FramebufferPixel | src/Camera.cpp:49-52 | byte 3k + c of the framebuffer is channel c of the clamped colour of ray k |
| Cameras.StrideAt | src/Camera.cpp:47 | worker t visits ⌈(n - t)/12⌉ indices, the k-th being t + 12k |
| Cameras.StridePartition | src/Camera.cpp:41-54 | every index p < n is visited by worker p mod 12 at step p div 12, and by no other worker or step |
| Cameras.StrideMembers | src/Camera.cpp:47 | a worker visits only indices below n, and visits p exactly when p mod 12 is its number |
| Cameras.StrideNext | src/Camera.cpp:47 | a worker's next index is new and in range |
| Cameras.StrideInRange | src/Camera.cpp:47 | a worker's indices are in range and pairwise distinct |
| Cameras.StrideEnd | src/Camera.cpp:47 | when the loop index passes n, the worker has visited its whole stride |
| Cameras.TraceAt | src/Camera.cpp:47-49 | tracing a set of indices keeps the buffer length |
| Cameras.TraceAtAt | src/Camera.cpp:47-49 | after tracing a set of indices, a ray is traced exactly when its index is in the set |
| Cameras.PaintPixel | src/Camera.cpp:50-52 | painting one pixel keeps the framebuffer length |
| Cameras.PaintPixelAt | src/Camera.cpp:50-52 | painting pixel p changes exactly bytes 3p..3p+2, to the narrowed channels |
| Cameras.PaintAt | src/Camera.cpp:47-53 | painting a set of pixels keeps the framebuffer length |
| Cameras.PaintAtAt | src/Camera.cpp:47-53 | after painting a set of pixels, a byte holds its pixel's channel exactly when that pixel is in the set, and is unchanged otherwise |
| Cameras.Snoc | src/Camera.cpp:47-53 | one more loop iteration traces and paints one more pixel |
| Cameras.WorkerStep | src/Camera.cpp:47-53 | iteration k of worker t extends the worker's traced and painted prefix by index t + 12k |
| Cameras.Append | src/Camera.cpp:41-59 | running two workers with disjoint indices one after the other equals one pass over both index sets. The second worker sees rays and bytes the first did not touch |
| Cameras.Covered | src/Camera.cpp:41-59 | once every index is handled, every ray is traced and every byte holds its pixel's channel |
| Cameras.Extend | src/Camera.cpp:41-55 | worker t's indices are disjoint from those of workers 0..t-1, and together they handle every index whose residue is at most t |
| Cameras.WorkerJoins | src/Camera.cpp:57-59 | joining worker t after workers 0..t-1 equals one pass over all their indices |
| Cameras.Finish | src/Camera.cpp:36-60 | after all twelve workers, the ray buffer is `TracedRays` and the framebuffer is `Framebuffer` of the original rays |
| Cameras.Camera.Default | src/Camera.cpp:4-14 | the default camera sits at the origin looking down -z with up +y, window (-1, 1, -1, 1) at distance 1, 640×480, named "out", with no buffers |
| Cameras.Camera.constructor | src/Camera.cpp:16-28 | the camera stores every setting and allocates fresh ray and byte buffers of width·height and 3·width·height entries |
| Cameras.Camera.ComputeTracingRays | src/Camera.cpp:67-84 | after the two pixel loops, the ray buffer is exactly `GeneratedRays` of the camera's settings |
| Cameras.Camera.PixelRay | src/Camera.cpp:74-81 | the loop body builds the primary ray of pixel (i, j) from the hoisted basis u, v, w |
| Cameras.Camera.TraceRay | src/Camera.cpp:49-52 | one iteration traces ray i and paints its three bytes, and changes nothing else |
| Cameras.Camera.TraceWorker | src/Camera.cpp:42-54 | worker t leaves the rays of its stride traced and their bytes painted, and every other slot unchanged |
| Cameras.Camera.RayTrace | src/Camera.cpp:36-60 | after all workers have joined, the framebuffer is `Framebuffer` of the buffered rays and the ray buffer is `TracedRays` of them |
| Scenes.TagMeshKeeps | src/Scene.cpp:29-30 | tagging a mesh keeps its material id and face count, and each face becomes the same face carrying the mesh's material id |
| Scenes.TagIdempotent | src/Scene.cpp:28-37 | tagging meshes or triangles twice equals tagging once, so rendering a scene again flattens the same faces |
| Scenes.MeshFacesLength | src/Scene.cpp:28-33 | the mesh part of the face list has as many faces as the meshes together |
| Scenes.FaceCountTagged | src/Scene.cpp:28-33 | tagging does not change the number of mesh faces |
| Scenes.MeshFaceAt | src/Scene.cpp:28-33 | face j of mesh k sits at position (faces of meshes before k) + j |
| Scenes.MeshFaceOrigin | src/Scene.cpp:28-33 | every position of the mesh part comes from some face j of some mesh k |
| Scenes.FlatFacesLength | src/Scene.cpp:28-37 | the face list has the mesh faces plus one face per triangle |
| Scenes.FlatMeshFace | src/Scene.cpp:28-33 | face j of mesh k appears in the face list, tagged with mesh k's material id, at position (faces of meshes before k) + j |
| Scenes.FlatTriangleFace | src/Scene.cpp:34-37 | triangle i's face, tagged with its material id, follows all mesh faces at position (mesh faces) + i |
| Scenes.MeshFacesSnoc | src/Scene.cpp:28-33 | the outer loop's next mesh appends that mesh's tagged faces |
| Scenes.Scene.constructor | src/Scene.cpp:5-18 | a new scene has zero colours, epsilon and depth, and no cameras, lights, materials, vertices or primitives |
| Scenes.Scene.FlattenPrimitives | src/Scene.cpp:26-40 | flattening tags the scene's meshes and triangles and returns `FlatFaces` of the original primitives and a copy of the spheres. Cameras and settings are unchanged |
| Scenes.Scene.FlattenMeshes | src/Scene.cpp:28-33 | the mesh loops tag every mesh and return their faces in order. Triangles, spheres, cameras and settings are unchanged |
| Scenes.Scene.TagMeshFaces | src/Scene.cpp:29-32 | the inner loop tags mesh i only and appends its tagged faces |
| Scenes.Scene.FlattenTriangles | src/Scene.cpp:34-37 | the triangle loop tags every triangle and appends their faces in order |
| Scenes.Scene.CopySpheres | src/Scene.cpp:38-40 | the sphere list is a copy of the scene's spheres |
| Scenes.Scene.RenderScene | src/Scene.cpp:20-54 | rendering tags the primitives and leaves spheres, cameras and settings unchanged. Every camera then holds its traced rays and the framebuffer of its generated primary rays against the flattened primitives |
| Scenes.RenderCameras | src/Scene.cpp:50-53 | every camera ends rendered, and rendering one camera leaves the others' buffers untouched |
| Scenes.RenderCamera | src/Scene.cpp:51-52 | generating rays and then tracing leaves the camera rendered |
| Scenes.RenderedMeans | src/Scene.cpp:50-53 | a camera is rendered exactly when its ray buffer is `TracedRays` and its framebuffer is `Framebuffer` of `GeneratedRays` of its settings |

## Left out

- Loading a scene from XML (`Scene::loadScene`, the parser) is not part of this model. The scene's fields are set directly.
- Writing images (`Camera::saveImage`, `Scene::saveScene`, `write_ppm`) and the program entry point are file I/O and are left out.
- Destructors and memory release are left out; Dafny memory is managed.
- The twelve threads of `rayTrace` run one after the other in worker order. Their indices are disjoint, so the result is the same. The model does not capture thread scheduling.
- The concurrent threads also write face normals into the shared face list; that race is not modelled. Every writer stores the same value (`RefreshNormalsInvisible`).
- Callers of the nearest-hit search (`IsInShadow`, `ComputeColor`) drop the face list with refreshed normals. The write-back is invisible to every later search (`RefreshNormalsInvisible`).
- Single-precision rounding, infinities and NaN are not modelled: values are reals. Square root, normalisation, the per-light Phong term (with `pow`) and a division by a zero x-direction come from `FloatOps`, and their values are not constrained.
- The `double` conversions in the pixel offsets are not modelled, since real arithmetic has none.
- 32-bit overflow of `image_width * image_height * 3` and of `int` ids is not modelled.
- Types.DotAsWritten, Types.CrossI, Types.CrossAntisymmetric and Types.CrossOrthogonal: `Vec3i::dot` and `Vec3i::cross` multiply and add C++ `int` components, where signed overflow is undefined. The model's integers are unbounded, so these facts hold of the source only when no product, sum or difference leaves the `int` range. Nothing in the rendering core calls either operation.
- Types.Saturate: gives 255 for any channel above 255. The source's `(int)round(x)` is undefined for a channel beyond the `int` range. On common targets it yields `INT_MIN`, which `max(0, …)` turns into 0. That narrowing of huge finite channels is not modelled.
- Cameras.Camera.constructor: requires non-negative width and height; with a negative size the source's array allocation throws, and that path is not modelled.
- Scenes.Scene.RenderScene: requires every vertex and material id of every primitive to name a table entry (`ValidPrimitives`). This is a guarantee demanded of the loaded scene up front. The source needs less: it reads a vertex only when it tests that primitive, and a material only when that primitive is hit; with no cameras or no pixels it reads nothing. Scenes with dangling ids that happen never to be read are outside the model.
- Scenes.Scene.RenderScene: requires the cameras' buffers to be distinct arrays, which holds for cameras each built by their own constructor.
- Cameras.Camera.PixelRay: states its result as `pixel(i, j)` for a ghost pixel function pinned by `IsPrimary` to `PrimaryRay`. This keeps the method's proof small and is equivalent to naming `PrimaryRay`.
- Scenes.Rendered is stated through a restricted trigger; `RenderedMeans` gives its plain meaning.
- Fields the source leaves indeterminate are fixed to placeholders:
  - a default `Material`;
  - the material id of a `Face` built without one;
  - a default-constructed `Ray`.

  Rendering overwrites each of them before use.
- `Vec3i::normalize`, `Vec3i` addition and scaling, and the zero- and two-argument `Background` constructors are not used by the rendering core, so they are not modelled.
- The `type` and `material` fields of `Object` are never read by the core and are left out.

## Findings

| source | as written | input that shows it | evidently intended | confidence | as-written member | corrected member |
|---|---|---|---|---|---|---|
| include/basicTypeDefinition.h:19 | `Vec3i::dot` returns `x*v.x + y*v.y + z*v.y` | a = (0,0,1), b = (1,0,0): a×b = (0,1,0), and a·(a×b) evaluates to 1 instead of 0 | third term `z*v.z` | high; not executed | Types.DotAsWrittenNotOrthogonal | Types.CrossOrthogonal |
