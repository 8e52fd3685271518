/**
 * The scene (`Scene`): its settings, its cameras and its primitives, and
 * `renderScene`, which flattens the primitives into one sphere list and one
 * face list and then has every camera generate its primary rays and trace
 * them.
 *
 * Flattening writes each owner's material id onto its faces, both in the
 * scene's own meshes and triangles and in the face list it builds. The face
 * list is stated by `FlatFaces`: the faces of the meshes in mesh order, each
 * mesh's faces in order, then the faces of the standalone triangles.
 */
module Scenes {
  import opened Types
  import opened Rays
  import opened Cameras

  // ---------------------------------------------------------------------
  // Material-id tagging

  /** A mesh whose faces carry the mesh's material id. */
  function TagMesh(m: Mesh): Mesh {
    m.(faces := seq(|m.faces|, j requires 0 <= j < |m.faces| => m.faces[j].(materialId := m.materialId)))
  }

  function TagMeshes(ms: seq<Mesh>): seq<Mesh> {
    seq(|ms|, i requires 0 <= i < |ms| => TagMesh(ms[i]))
  }

  /** A triangle whose face carries the triangle's material id. */
  function TagTriangle(t: Triangle): Triangle {
    t.(face := t.face.(materialId := t.materialId))
  }

  function TagTriangles(ts: seq<Triangle>): seq<Triangle> {
    seq(|ts|, i requires 0 <= i < |ts| => TagTriangle(ts[i]))
  }

  /** Tagging keeps every mesh's material id and face count, and every face's vertices. */
  lemma TagMeshKeeps(m: Mesh)
    ensures var t := TagMesh(m);
            && t.materialId == m.materialId && |t.faces| == |m.faces|
            && forall j :: 0 <= j < |m.faces| ==>
                 && t.faces[j].materialId == m.materialId
                 && t.faces[j] == m.faces[j].(materialId := m.materialId)
  {
  }

  /** Tagging twice is tagging once. */
  lemma TagIdempotent(ms: seq<Mesh>, ts: seq<Triangle>)
    ensures TagMeshes(TagMeshes(ms)) == TagMeshes(ms)
    ensures TagTriangles(TagTriangles(ts)) == TagTriangles(ts)
  {
    forall i | 0 <= i < |ms|
      ensures TagMesh(TagMesh(ms[i])) == TagMesh(ms[i])
    {
      assert TagMesh(TagMesh(ms[i])).faces == TagMesh(ms[i]).faces;
    }
  }

  // ---------------------------------------------------------------------
  // The flattened face list

  /** The faces of the meshes, mesh after mesh, each mesh's faces in order. */
  function MeshFaces(ms: seq<Mesh>): seq<Face>
    decreases |ms|
  {
    if |ms| == 0 then [] else MeshFaces(ms[..|ms| - 1]) + ms[|ms| - 1].faces
  }

  /** The number of faces of all meshes together. */
  function FaceCount(ms: seq<Mesh>): nat
    decreases |ms|
  {
    if |ms| == 0 then 0 else FaceCount(ms[..|ms| - 1]) + |ms[|ms| - 1].faces|
  }

  /** The faces of the triangles, in order. */
  function TriangleFaces(ts: seq<Triangle>): seq<Face> {
    seq(|ts|, i requires 0 <= i < |ts| => ts[i].face)
  }

  /** The face list `renderScene` builds: tagged mesh faces, then tagged triangle faces. */
  function FlatFaces(ms: seq<Mesh>, ts: seq<Triangle>): seq<Face> {
    MeshFaces(TagMeshes(ms)) + TriangleFaces(TagTriangles(ts))
  }

  lemma {:induction false} MeshFacesLength(ms: seq<Mesh>)
    ensures |MeshFaces(ms)| == FaceCount(ms)
    decreases |ms|
  {
    if |ms| > 0 {
      MeshFacesLength(ms[..|ms| - 1]);
    }
  }

  /** Tagging changes no face count. */
  lemma {:induction false} FaceCountTagged(ms: seq<Mesh>)
    ensures FaceCount(TagMeshes(ms)) == FaceCount(ms)
    decreases |ms|
  {
    if |ms| > 0 {
      var n := |ms|;
      assert TagMeshes(ms)[..n - 1] == TagMeshes(ms[..n - 1]);
      FaceCountTagged(ms[..n - 1]);
    }
  }

  /** Face j of mesh k sits right after the faces of the meshes before k. */
  lemma {:induction false} MeshFaceAt(ms: seq<Mesh>, k: int, j: int)
    requires 0 <= k < |ms| && 0 <= j < |ms[k].faces|
    ensures FaceCount(ms[..k]) + j < |MeshFaces(ms)|
    ensures MeshFaces(ms)[FaceCount(ms[..k]) + j] == ms[k].faces[j]
    decreases |ms|
  {
    var n := |ms|;
    var pre := ms[..n - 1];
    MeshFacesLength(pre);
    if k == n - 1 {
      assert ms[..k] == pre;
    } else {
      assert pre[..k] == ms[..k];
      MeshFaceAt(pre, k, j);
    }
  }

  /** Position p of the mesh part is face j of mesh k. */
  predicate MeshFacePosition(ms: seq<Mesh>, p: int, k: int, j: int) {
    0 <= k < |ms| && 0 <= j < |ms[k].faces| && p == FaceCount(ms[..k]) + j
  }

  /** Every position of the mesh part of the list holds some face of some mesh. */
  lemma {:induction false} MeshFaceOrigin(ms: seq<Mesh>, p: int)
    requires 0 <= p < FaceCount(ms)
    ensures exists k, j :: MeshFacePosition(ms, p, k, j)
    decreases |ms|
  {
    var n := |ms|;
    var pre := ms[..n - 1];
    if p < FaceCount(pre) {
      MeshFaceOrigin(pre, p);
      var k, j :| MeshFacePosition(pre, p, k, j);
      assert pre[..k] == ms[..k];
      assert MeshFacePosition(ms, p, k, j);
    } else {
      assert ms[..n - 1] == pre;
      assert MeshFacePosition(ms, p, n - 1, p - FaceCount(pre));
    }
  }

  /** The flattened list has one face per mesh face and one per triangle. */
  lemma FlatFacesLength(ms: seq<Mesh>, ts: seq<Triangle>)
    ensures |FlatFaces(ms, ts)| == FaceCount(ms) + |ts|
  {
    MeshFacesLength(TagMeshes(ms));
    FaceCountTagged(ms);
  }

  /** Face j of mesh k comes first in mesh order, carrying mesh k's material id. */
  lemma FlatMeshFace(ms: seq<Mesh>, ts: seq<Triangle>, k: int, j: int)
    requires 0 <= k < |ms| && 0 <= j < |ms[k].faces|
    ensures FaceCount(ms[..k]) + j < FaceCount(ms) <= |FlatFaces(ms, ts)|
    ensures FlatFaces(ms, ts)[FaceCount(ms[..k]) + j] == ms[k].faces[j].(materialId := ms[k].materialId)
  {
    var tagged := TagMeshes(ms);
    MeshFaceAt(tagged, k, j);
    assert tagged[..k] == TagMeshes(ms[..k]);
    FaceCountTagged(ms[..k]);
    MeshFacesLength(tagged);
    FaceCountTagged(ms);
  }

  /** The face of triangle i follows all mesh faces, carrying the triangle's material id. */
  lemma FlatTriangleFace(ms: seq<Mesh>, ts: seq<Triangle>, i: int)
    requires 0 <= i < |ts|
    ensures FaceCount(ms) + i < |FlatFaces(ms, ts)|
    ensures FlatFaces(ms, ts)[FaceCount(ms) + i] == ts[i].face.(materialId := ts[i].materialId)
  {
    MeshFacesLength(TagMeshes(ms));
    FaceCountTagged(ms);
  }

  /** Adding one mesh adds its tagged faces at the end of the mesh part. */
  lemma MeshFacesSnoc(ms: seq<Mesh>, i: int)
    requires 0 <= i < |ms|
    ensures MeshFaces(TagMeshes(ms[..i + 1])) == MeshFaces(TagMeshes(ms[..i])) + TagMesh(ms[i]).faces
  {
    assert TagMeshes(ms[..i + 1])[..i] == TagMeshes(ms[..i]);
  }

  // ---------------------------------------------------------------------
  // The scene

  /** The buffers of every camera. */
  function CameraBuffers(cameras: seq<Camera>): set<object?>
    reads set k | 0 <= k < |cameras| :: cameras[k]
  {
    (set k | 0 <= k < |cameras| :: cameras[k].tracingRays as object?)
    + (set k | 0 <= k < |cameras| :: cameras[k].imageData as object?)
  }

  /** Every camera has its buffers, and no two cameras share one. */
  ghost predicate CamerasReady(cameras: seq<Camera>)
    reads set k | 0 <= k < |cameras| :: cameras[k]
  {
    && (forall k :: 0 <= k < |cameras| ==> cameras[k].Valid())
    && (forall k, l :: 0 <= k < l < |cameras| ==>
          cameras[k].tracingRays != cameras[l].tracingRays && cameras[k].imageData != cameras[l].imageData)
  }

  class Scene {
    var backgroundColor: Vec3i
    var shadowRayEpsilon: real
    var maxRecursionDepth: int
    var cameras: seq<Camera>
    var ambientLight: Vec3
    var pointLights: seq<PointLight>
    var materials: seq<Material>
    var vertexData: seq<Vec3>
    var meshes: seq<Mesh>
    var triangles: seq<Triangle>
    var spheres: seq<Sphere>

    /** `Scene()`: zero colours, epsilon and depth, and no cameras, lights or primitives. */
    constructor ()
      ensures backgroundColor == Vec3i(0, 0, 0) && shadowRayEpsilon == 0.0 && maxRecursionDepth == 0
      ensures ambientLight == Zero
      ensures cameras == [] && pointLights == [] && materials == [] && vertexData == []
      ensures meshes == [] && triangles == [] && spheres == []
    {
      backgroundColor := Vec3i(0, 0, 0);
      shadowRayEpsilon := 0.0;
      maxRecursionDepth := 0;
      cameras := [];
      ambientLight := Zero;
      pointLights := [];
      materials := [];
      vertexData := [];
      meshes := [];
      triangles := [];
      spheres := [];
    }

    /** The `Background` that `renderScene` hands to every camera. */
    function Snapshot(): Background
      reads this
    {
      Background(backgroundColor, ambientLight, pointLights, vertexData, maxRecursionDepth,
                 materials, shadowRayEpsilon)
    }

    /**
     * The flattening part of `renderScene`: every mesh face and then every
     * triangle face gets its owner's material id, in the scene and in the
     * returned face list; the spheres are copied in order.
     */
    method FlattenPrimitives() returns (flatSpheres: seq<Sphere>, faces: seq<Face>)
      modifies this
      ensures meshes == TagMeshes(old(meshes)) && triangles == TagTriangles(old(triangles))
      ensures faces == FlatFaces(old(meshes), old(triangles))
      ensures flatSpheres == spheres == old(spheres)
      ensures cameras == old(cameras) && Snapshot() == old(Snapshot())
    {
      faces := FlattenMeshes();
      faces := FlattenTriangles(faces);
      flatSpheres := CopySpheres();
    }

    /** The mesh loop: mesh after mesh, tag its faces and append them. */
    method FlattenMeshes() returns (faces: seq<Face>)
      modifies this
      ensures meshes == TagMeshes(old(meshes)) && faces == MeshFaces(meshes)
      ensures triangles == old(triangles) && spheres == old(spheres)
      ensures cameras == old(cameras) && Snapshot() == old(Snapshot())
    {
      ghost var ms := meshes;
      faces := [];
      var i := 0;
      while i < |meshes|
        invariant 0 <= i <= |meshes| == |ms|
        invariant forall k :: 0 <= k < i ==> meshes[k] == TagMesh(ms[k])
        invariant forall k :: i <= k < |ms| ==> meshes[k] == ms[k]
        invariant faces == MeshFaces(TagMeshes(ms[..i]))
        invariant triangles == old(triangles) && spheres == old(spheres)
        invariant cameras == old(cameras) && Snapshot() == old(Snapshot())
      {
        faces := TagMeshFaces(i, faces);
        MeshFacesSnoc(ms, i);
        i := i + 1;
      }
      assert meshes == TagMeshes(ms);
      assert ms[..i] == ms;
    }

    /** The face loop of mesh i: tag each face with the mesh's id and append it to `faces`. */
    method TagMeshFaces(i: int, faces: seq<Face>) returns (extended: seq<Face>)
      requires 0 <= i < |meshes|
      modifies this
      ensures meshes == old(meshes)[i := TagMesh(old(meshes[i]))]
      ensures extended == faces + TagMesh(old(meshes[i])).faces
      ensures triangles == old(triangles) && spheres == old(spheres)
      ensures cameras == old(cameras) && Snapshot() == old(Snapshot())
    {
      ghost var m := meshes[i];
      ghost var tagged := TagMesh(m);
      extended := faces;
      var j := 0;
      while j < |meshes[i].faces|
        invariant |meshes| == |old(meshes)| && 0 <= j <= |meshes[i].faces| == |m.faces|
        invariant meshes == old(meshes)[i := meshes[i]] && meshes[i].materialId == m.materialId
        invariant forall l :: 0 <= l < j ==> meshes[i].faces[l] == tagged.faces[l]
        invariant forall l :: j <= l < |m.faces| ==> meshes[i].faces[l] == m.faces[l]
        invariant extended == faces + tagged.faces[..j]
        invariant triangles == old(triangles) && spheres == old(spheres)
        invariant cameras == old(cameras) && Snapshot() == old(Snapshot())
      {
        var face := meshes[i].faces[j].(materialId := meshes[i].materialId);
        meshes := meshes[i := meshes[i].(faces := meshes[i].faces[j := face])];
        extended := extended + [meshes[i].faces[j]];
        assert tagged.faces[..j + 1] == tagged.faces[..j] + [face];
        j := j + 1;
      }
      assert meshes[i] == tagged by {
        assert meshes[i].faces == tagged.faces;
      }
      assert tagged.faces[..j] == tagged.faces;
    }

    /** The triangle loop: tag each triangle's face with its id and append it to `faces`. */
    method FlattenTriangles(faces: seq<Face>) returns (extended: seq<Face>)
      modifies this
      ensures triangles == TagTriangles(old(triangles))
      ensures extended == faces + TriangleFaces(triangles)
      ensures meshes == old(meshes) && spheres == old(spheres)
      ensures cameras == old(cameras) && Snapshot() == old(Snapshot())
    {
      ghost var ts := triangles;
      ghost var want := TriangleFaces(TagTriangles(ts));
      extended := faces;
      var i := 0;
      while i < |triangles|
        invariant 0 <= i <= |triangles| == |ts|
        invariant forall k :: 0 <= k < i ==> triangles[k] == TagTriangle(ts[k])
        invariant forall k :: i <= k < |ts| ==> triangles[k] == ts[k]
        invariant extended == faces + want[..i]
        invariant meshes == old(meshes) && spheres == old(spheres)
        invariant cameras == old(cameras) && Snapshot() == old(Snapshot())
      {
        triangles := triangles[i := triangles[i].(face := triangles[i].face.(materialId := triangles[i].materialId))];
        extended := extended + [triangles[i].face];
        assert want[..i + 1] == want[..i] + [triangles[i].face];
        i := i + 1;
      }
      assert triangles == TagTriangles(ts);
      assert want[..i] == want;
    }

    /** The sphere loop: the spheres, copied in order. */
    method CopySpheres() returns (flatSpheres: seq<Sphere>)
      ensures flatSpheres == spheres
    {
      flatSpheres := [];
      var i := 0;
      while i < |spheres|
        invariant 0 <= i <= |spheres|
        invariant flatSpheres == spheres[..i]
      {
        flatSpheres := flatSpheres + [spheres[i]];
        i := i + 1;
      }
      assert spheres[..i] == spheres;
    }

    /**
     * `renderScene`: flatten the primitives, then have every camera render
     * against the flattened lists and the scene's snapshot.
     */
    method RenderScene(ops: FloatOps)
      requires CamerasReady(cameras)
      requires ValidPrimitives(Snapshot(), spheres, FlatFaces(meshes, triangles))
      modifies this, CameraBuffers(cameras)
      ensures meshes == TagMeshes(old(meshes)) && triangles == TagTriangles(old(triangles))
      ensures spheres == old(spheres) && cameras == old(cameras) && Snapshot() == old(Snapshot())
      ensures forall k :: 0 <= k < |cameras| ==>
                Rendered(cameras[k], spheres, FlatFaces(old(meshes), old(triangles)), Snapshot(), ops)
    {
      var background := Snapshot();
      var flatSpheres, faces := FlattenPrimitives();
      RenderCameras(cameras, flatSpheres, faces, background, ops);
    }
  }

  /**
   * The camera loop of `renderScene`: camera after camera, generate its
   * primary rays, then trace them. Each camera is rendered once, and
   * rendering one camera leaves the others' buffers alone.
   */
  method RenderCameras(cameras: seq<Camera>, spheres: seq<Sphere>, faces: seq<Face>, bg: Background,
                       ops: FloatOps)
    requires CamerasReady(cameras) && ValidPrimitives(bg, spheres, faces)
    modifies CameraBuffers(cameras)
    ensures forall k :: 0 <= k < |cameras| ==> Rendered(cameras[k], spheres, faces, bg, ops)
  {
    var size := |cameras|;
    var c := 0;
    while c < size
      invariant 0 <= c <= size
      invariant forall k :: 0 <= k < c ==> Rendered(cameras[k], spheres, faces, bg, ops)
    {
      label before:
      RenderCamera(cameras[c], spheres, faces, bg, ops);
      forall k | 0 <= k < c
        ensures Rendered(cameras[k], spheres, faces, bg, ops)
      {
        assert old@before(Rendered(cameras[k], spheres, faces, bg, ops));
        assert cameras[k].tracingRays != cameras[c].tracingRays && cameras[k].imageData != cameras[c].imageData;
        assert unchanged@before(cameras[k].tracingRays, cameras[k].imageData);
      }
      c := c + 1;
    }
  }

  /** One pass of the camera loop: `computeTracingRays`, then `rayTrace`. */
  method RenderCamera(cam: Camera, spheres: seq<Sphere>, faces: seq<Face>, bg: Background, ops: FloatOps)
    requires cam.Valid() && ValidPrimitives(bg, spheres, faces)
    modifies cam.tracingRays, cam.imageData
    ensures Rendered(cam, spheres, faces, bg, ops)
  {
    cam.ComputeTracingRays(ops);
    cam.RayTrace(spheres, faces, bg, ops);
  }

  /**
   * A camera has rendered: its image is the framebuffer of its own primary
   * rays, and its ray buffer holds those rays as traced. (Stated for every
   * setup equal to the camera's, so that the definitions behind it are
   * only unfolded where a camera's primary rays are in play.)
   */
  ghost predicate Rendered(cam: Camera, spheres: seq<Sphere>, faces: seq<Face>, bg: Background, ops: FloatOps)
    reads cam, cam.tracingRays, cam.imageData
    requires cam.Valid() && ValidPrimitives(bg, spheres, faces)
  {
    forall s {:trigger GeneratedRays(s, ops)} :: s == cam.Settings() ==>
      && cam.tracingRays[..] == TracedRays(GeneratedRays(s, ops), spheres, faces, bg, ops)
      && cam.imageData[..] == Framebuffer(GeneratedRays(s, ops), spheres, faces, bg, ops)
  }

  /** What `Rendered` says, for the camera's own primary rays. */
  lemma RenderedMeans(cam: Camera, spheres: seq<Sphere>, faces: seq<Face>, bg: Background, ops: FloatOps)
    requires cam.Valid() && ValidPrimitives(bg, spheres, faces)
    ensures Rendered(cam, spheres, faces, bg, ops) <==>
              var rays := GeneratedRays(cam.Settings(), ops);
              && cam.tracingRays[..] == TracedRays(rays, spheres, faces, bg, ops)
              && cam.imageData[..] == Framebuffer(rays, spheres, faces, bg, ops)
  {
  }
}
