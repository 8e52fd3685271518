/**
 * Rays and the nearest-hit search (`Ray::Ray`, `closestIntersection`,
 * `calculateSphereIntersection`, `calculateFaceIntersection`).
 *
 * A C++ `Ray` is a value stored by copy in arrays, so it is a datatype here;
 * an operation that updates the ray in place takes the ray and returns the
 * updated one. The search visits every sphere and then every face, and keeps
 * a candidate only when it is positive and strictly nearer than the stored
 * distance. `Scan` states that search over the list of candidates; the
 * lemmas below show it finds the nearest positive candidate, the first one
 * on a tie.
 */
module Rays {
  import opened Types

  /** The parallel-plane tolerance of the triangle test (`EPS`). */
  const Eps := 1.0e-10
  /** Triangle hits nearer than this are rejected as self-intersections. */
  const MinFaceDistance := 1.0e-6

  datatype Ray = Ray(origin: Vec3, direction: Vec3, depth: nat, hitRecord: HitRecord)

  /** `Ray::Ray(origin, direction)`: depth 0 and a fresh hit record. */
  function NewRay(origin: Vec3, direction: Vec3): (r: Ray)
    ensures r.origin == origin && r.direction == direction && r.depth == 0
    ensures r.hitRecord.t == -1.0 && r.hitRecord.materialId == -1
    ensures r.hitRecord.intersectionPoint == Zero && r.hitRecord.normal == Zero
  {
    Ray(origin, direction, 0, NoHit)
  }

  /**
   * `Ray()`, the element of a freshly allocated ray array: zero origin and
   * direction and a fresh hit record. The source leaves the depth unset; the
   * model uses 0, and every slot is overwritten before it is traced.
   */
  const UnsetRay := Ray(Zero, Zero, 0, NoHit)

  /** The point `origin + direction * t`. */
  function Along(ray: Ray, t: real): Vec3 {
    Add(ray.origin, Scale(ray.direction, t))
  }

  // ---------------------------------------------------------------------
  // Sphere test

  /** The root choice of the sphere test, once the discriminant is non-negative. */
  function RootChoice(t1: real, t2: real): (t: real)
    ensures t == -1.0 || (t >= 0.0 && (t == t1 || t == t2))
  {
    if t1 >= 0.0 && t1 < t2 then t1
    else if t2 >= 0.0 then t2
    else -1.0
  }

  /**
   * With ordered roots the choice is the nearest non-negative root: the near
   * root when it is non-negative, else the far root, else no hit.
   */
  lemma RootChoiceNearest(t1: real, t2: real)
    requires t1 <= t2
    ensures RootChoice(t1, t2) == -1.0 <==> t2 < 0.0
    ensures RootChoice(t1, t2) >= 0.0 ==> RootChoice(t1, t2) <= t2
    ensures t1 >= 0.0 ==> RootChoice(t1, t2) == t1
    ensures t1 < 0.0 <= t2 ==> RootChoice(t1, t2) == t2
  {
  }

  /** The coefficients of `a t^2 + 2 b t + c = 0` for a ray and a sphere. */
  function QuadA(ray: Ray): real { Dot(ray.direction, ray.direction) }
  function QuadB(ray: Ray, center: Vec3): real { Dot(ray.direction, Sub(ray.origin, center)) }
  function QuadC(ray: Ray, center: Vec3, radius: real): real {
    Dot(Sub(ray.origin, center), Sub(ray.origin, center)) - radius * radius
  }
  function Discriminant(ray: Ray, center: Vec3, radius: real): real {
    QuadB(ray, center) * QuadB(ray, center) - QuadA(ray) * QuadC(ray, center, radius)
  }

  function SphereCenter(bg: Background, s: Sphere): Vec3
    requires ValidSphere(bg, s)
  {
    bg.GetVertex(s.centerVertexId - 1)
  }

  /**
   * The sphere test on a centre and radius: -1 for a negative discriminant,
   * otherwise the chosen root. A zero direction makes both roots 0/0, a NaN
   * that fails both comparisons of the root choice, so it also gives -1.
   */
  function SphereTest(ray: Ray, center: Vec3, radius: real, ops: FloatOps): (t: real)
    ensures t == -1.0 || t >= 0.0
    ensures Discriminant(ray, center, radius) < 0.0 ==> t == -1.0
  {
    var a := QuadA(ray);
    var b := QuadB(ray, center);
    var disc := Discriminant(ray, center, radius);
    if disc < 0.0 then -1.0
    else if a == 0.0 then -1.0
    else
      var root := ops.sqrt(disc);
      RootChoice((-b - root) / a, (-b + root) / a)
  }

  /** `calculateSphereIntersection`: the sphere test on the sphere's centre vertex. */
  function SphereIntersection(ray: Ray, s: Sphere, bg: Background, ops: FloatOps): (t: real)
    requires ValidSphere(bg, s)
    ensures t == -1.0 || t >= 0.0
  {
    SphereTest(ray, SphereCenter(bg, s), s.radius, ops)
  }

  /** A correct square root orders the two roots of the sphere test. */
  lemma SphereRootsOrdered(a: real, b: real, root: real)
    requires a > 0.0 && root >= 0.0
    ensures (-b - root) / a <= (-b + root) / a
  {
    assert (-b - root) <= (-b + root);
  }

  // ---------------------------------------------------------------------
  // Triangle test (Möller–Trumbore)

  function FaceVertex0(bg: Background, f: Face): Vec3 requires ValidFace(bg, f) { bg.GetVertex(f.v0 - 1) }
  function FaceVertex1(bg: Background, f: Face): Vec3 requires ValidFace(bg, f) { bg.GetVertex(f.v1 - 1) }
  function FaceVertex2(bg: Background, f: Face): Vec3 requires ValidFace(bg, f) { bg.GetVertex(f.v2 - 1) }

  /** `Face::calculateNormal` on the face's current vertices. */
  function FaceNormal(f: Face, bg: Background, ops: FloatOps): Vec3
    requires ValidFace(bg, f)
  {
    var v0 := FaceVertex0(bg, f);
    ops.normalize(Cross(Sub(FaceVertex1(bg, f), v0), Sub(FaceVertex2(bg, f), v0)))
  }

  /**
   * The Möller–Trumbore test on three corners: -1 when the ray is parallel to
   * the plane, when a barycentric coordinate is out of range or when the hit
   * is nearer than `MinFaceDistance`; otherwise the distance along the ray.
   */
  function TriangleTest(ray: Ray, v0: Vec3, v1: Vec3, v2: Vec3): (t: real)
    ensures t == -1.0 || t >= MinFaceDistance
  {
    var edge1 := Sub(v1, v0);
    var edge2 := Sub(v2, v0);
    var h := Cross(ray.direction, edge2);
    var det := Dot(edge1, h);
    if -Eps < det < Eps then -1.0
    else
      var inv := 1.0 / det;
      var s := Sub(ray.origin, v0);
      var u := inv * Dot(s, h);
      if u < 0.0 || u > 1.0 then -1.0
      else
        var q := Cross(s, edge1);
        var v := inv * Dot(ray.direction, q);
        if v < 0.0 || u + v > 1.0 then -1.0
        else
          var t := inv * Dot(edge2, q);
          if t < MinFaceDistance then -1.0 else t
  }

  /** Each rejection of the triangle test yields -1. */
  lemma TriangleTestRejects(ray: Ray, v0: Vec3, v1: Vec3, v2: Vec3)
    ensures var edge1 := Sub(v1, v0);
            var edge2 := Sub(v2, v0);
            var h := Cross(ray.direction, edge2);
            var det := Dot(edge1, h);
            var s := Sub(ray.origin, v0);
            var q := Cross(s, edge1);
            var t := TriangleTest(ray, v0, v1, v2);
            (-Eps < det < Eps ==> t == -1.0)
            && (det != 0.0 && (Dot(s, h) / det < 0.0 || Dot(s, h) / det > 1.0) ==> t == -1.0)
            && (det != 0.0 && Dot(ray.direction, q) / det < 0.0 ==> t == -1.0)
            && (det != 0.0 && Dot(s, h) / det + Dot(ray.direction, q) / det > 1.0 ==> t == -1.0)
  {
  }

  /** `calculateFaceIntersection`: the triangle test on the face's three vertices. */
  function FaceIntersection(ray: Ray, f: Face, bg: Background): (t: real)
    requires ValidFace(bg, f)
    ensures t == -1.0 || t >= MinFaceDistance
  {
    TriangleTest(ray, FaceVertex0(bg, f), FaceVertex1(bg, f), FaceVertex2(bg, f))
  }

  /** The triangle test writes the recomputed normal into the face it is given. */
  function RefreshNormal(f: Face, bg: Background, ops: FloatOps): (g: Face)
    requires ValidFace(bg, f)
    ensures ValidFace(bg, g)
  {
    f.(normal := FaceNormal(f, bg, ops))
  }

  /** Writing the normal changes neither the triangle test nor the normal it computes. */
  lemma RefreshNormalKeepsTest(ray: Ray, f: Face, bg: Background, ops: FloatOps)
    requires ValidFace(bg, f)
    ensures var g := RefreshNormal(f, bg, ops);
            && g.materialId == f.materialId && g.normal == FaceNormal(f, bg, ops)
            && FaceIntersection(ray, g, bg) == FaceIntersection(ray, f, bg)
            && FaceNormal(g, bg, ops) == FaceNormal(f, bg, ops)
  {
  }

  function RefreshNormals(faces: seq<Face>, bg: Background, ops: FloatOps): (r: seq<Face>)
    requires forall i :: 0 <= i < |faces| ==> ValidFace(bg, faces[i])
    ensures |r| == |faces|
  {
    seq(|faces|, i requires 0 <= i < |faces| => RefreshNormal(faces[i], bg, ops))
  }

  // ---------------------------------------------------------------------
  // Candidates and the nearest-hit search

  /** What one primitive offers the search: its distance, material id and normal. */
  datatype Candidate =
    | SphereCandidate(t: real, materialId: int, normal: Vec3)
    | FaceCandidate(t: real, materialId: int, normal: Vec3)

  function OfSphere(ray: Ray, s: Sphere, bg: Background, ops: FloatOps): (c: Candidate)
    requires ValidSphere(bg, s)
    ensures c.t == SphereIntersection(ray, s, bg, ops) && c.materialId == s.materialId
  {
    var t := SphereIntersection(ray, s, bg, ops);
    SphereCandidate(t, s.materialId, ops.normalize(Sub(Along(ray, t), SphereCenter(bg, s))))
  }

  /** The normal a face offers is the one the triangle test has just written. */
  function OfFace(ray: Ray, f: Face, bg: Background, ops: FloatOps): (c: Candidate)
    requires ValidFace(bg, f)
    ensures c.t == FaceIntersection(ray, f, bg) && c.materialId == f.materialId
    ensures c.normal == FaceNormal(f, bg, ops)
  {
    FaceCandidate(FaceIntersection(ray, f, bg), f.materialId, FaceNormal(f, bg, ops))
  }

  predicate CandidatesValid(bg: Background, cs: seq<Candidate>) {
    forall j :: 0 <= j < |cs| ==> ValidMaterialId(bg, cs[j].materialId)
  }

  function SphereCandidates(ray: Ray, spheres: seq<Sphere>, bg: Background, ops: FloatOps): (cs: seq<Candidate>)
    requires forall i :: 0 <= i < |spheres| ==> ValidSphere(bg, spheres[i])
    ensures |cs| == |spheres| && CandidatesValid(bg, cs)
  {
    var cs := seq(|spheres|, i requires 0 <= i < |spheres| => OfSphere(ray, spheres[i], bg, ops));
    assert forall j :: 0 <= j < |cs| ==> cs[j].materialId == spheres[j].materialId;
    assert forall j :: 0 <= j < |spheres| ==> ValidSphere(bg, spheres[j]);
    cs
  }

  function FaceCandidates(ray: Ray, faces: seq<Face>, bg: Background, ops: FloatOps): (cs: seq<Candidate>)
    requires forall i :: 0 <= i < |faces| ==> ValidFace(bg, faces[i])
    ensures |cs| == |faces| && CandidatesValid(bg, cs)
  {
    var cs := seq(|faces|, i requires 0 <= i < |faces| => OfFace(ray, faces[i], bg, ops));
    assert forall j :: 0 <= j < |cs| ==> cs[j].materialId == faces[j].materialId;
    assert forall j :: 0 <= j < |faces| ==> ValidFace(bg, faces[j]);
    cs
  }

  /** The candidates in the order the search meets them: spheres first, then faces, each in list order. */
  function Candidates(ray: Ray, spheres: seq<Sphere>, faces: seq<Face>, bg: Background, ops: FloatOps): (cs: seq<Candidate>)
    requires ValidPrimitives(bg, spheres, faces)
    ensures |cs| == |spheres| + |faces| && CandidatesValid(bg, cs)
    ensures forall i :: 0 <= i < |spheres| ==> cs[i] == OfSphere(ray, spheres[i], bg, ops)
    ensures forall i :: 0 <= i < |faces| ==> cs[|spheres| + i] == OfFace(ray, faces[i], bg, ops)
  {
    SphereCandidates(ray, spheres, bg, ops) + FaceCandidates(ray, faces, bg, ops)
  }

  /** The acceptance test of both loops: positive, and no hit stored yet or strictly nearer. */
  predicate Accepts(t: real, stored: real) {
    t > 0.0 && (stored < 0.0 || t < stored)
  }

  /** One step of the search: the record after offering one candidate. */
  function Offer(rec: HitRecord, c: Candidate, ray: Ray, bg: Background): HitRecord
    requires ValidMaterialId(bg, c.materialId)
  {
    if !Accepts(c.t, rec.t) then rec
    else match c
      case SphereCandidate(t, id, n) =>
        HitRecord(t, Along(ray, t), n, bg.GetMaterial(id - 1), id)
      case FaceCandidate(t, id, n) =>
        rec.(t := t, materialId := id, material := bg.GetMaterial(id - 1), normal := n)
  }

  /** The record after offering the candidates in order. */
  function Scan(rec: HitRecord, cs: seq<Candidate>, ray: Ray, bg: Background): HitRecord
    requires CandidatesValid(bg, cs)
    decreases |cs|
  {
    if |cs| == 0 then rec
    else Offer(Scan(rec, cs[..|cs| - 1], ray, bg), cs[|cs| - 1], ray, bg)
  }

  /** The index of the candidate the search kept last, or -1 when it kept none. */
  function Winner(rec: HitRecord, cs: seq<Candidate>, ray: Ray, bg: Background): int
    requires CandidatesValid(bg, cs)
    decreases |cs|
  {
    if |cs| == 0 then -1
    else if Accepts(cs[|cs| - 1].t, Scan(rec, cs[..|cs| - 1], ray, bg).t) then |cs| - 1
    else Winner(rec, cs[..|cs| - 1], ray, bg)
  }

  /**
   * The search keeps the nearest positive candidate, and among equally near
   * ones the first; a stored positive distance never grows; when nothing is
   * kept the record is untouched. The kept record carries the winner's
   * distance, normal and material id, and the material at that id minus one.
   */
  lemma {:induction false} ScanNearest(rec: HitRecord, cs: seq<Candidate>, ray: Ray, bg: Background)
    requires CandidatesValid(bg, cs)
    requires rec.t != 0.0
    ensures var r := Scan(rec, cs, ray, bg);
            var w := Winner(rec, cs, ray, bg);
            && -1 <= w < |cs|
            && (w == -1 ==> r == rec)
            && (w >= 0 ==>
                  && Accepts(cs[w].t, rec.t)
                  && r.t == cs[w].t && r.normal == cs[w].normal
                  && r.materialId == cs[w].materialId
                  && r.material == bg.materials[cs[w].materialId - 1])
            && (w >= 0 ==> forall j :: 0 <= j < w && cs[j].t > 0.0 ==> cs[j].t > r.t)
            && (forall j :: 0 <= j < |cs| && cs[j].t > 0.0 ==> 0.0 < r.t <= cs[j].t)
            && (rec.t > 0.0 ==> 0.0 < r.t <= rec.t)
  {
    if |cs| > 0 {
      var n := |cs|;
      var pre := cs[..n - 1];
      ScanNearest(rec, pre, ray, bg);
      assert forall j :: 0 <= j < n - 1 ==> pre[j] == cs[j];
    }
  }

  /** The ray with the record the search ends with; the point along the ray is set when it is a hit. */
  function Settle(ray: Ray, rec: HitRecord): Ray {
    if rec.t > 0.0 then ray.(hitRecord := rec.(intersectionPoint := Along(ray, rec.t)))
    else ray.(hitRecord := rec)
  }

  /** The ray after `closestIntersection`. */
  function Closest(ray: Ray, spheres: seq<Sphere>, faces: seq<Face>, bg: Background, ops: FloatOps): Ray
    requires ValidPrimitives(bg, spheres, faces)
  {
    Settle(ray, Scan(ray.hitRecord, Candidates(ray, spheres, faces, bg, ops), ray, bg))
  }

  /** `ClosestNearest` for any list of candidates. */
  lemma SettleNearest(ray: Ray, cs: seq<Candidate>, bg: Background)
    requires CandidatesValid(bg, cs)
    requires ray.hitRecord.t < 0.0
    ensures var r := Settle(ray, Scan(ray.hitRecord, cs, ray, bg));
            var rec := r.hitRecord;
            var w := Winner(ray.hitRecord, cs, ray, bg);
            && r.origin == ray.origin && r.direction == ray.direction && r.depth == ray.depth
            && (rec.t > 0.0 <==> exists j :: 0 <= j < |cs| && cs[j].t > 0.0)
            && (rec.t > 0.0 ==>
                  && 0 <= w < |cs| && rec.t == cs[w].t
                  && rec.materialId == cs[w].materialId
                  && rec.material == bg.materials[rec.materialId - 1]
                  && rec.normal == cs[w].normal
                  && rec.intersectionPoint == Along(ray, rec.t)
                  && (forall j :: 0 <= j < |cs| && cs[j].t > 0.0 ==> rec.t <= cs[j].t)
                  && (forall j :: 0 <= j < w && cs[j].t > 0.0 ==> cs[j].t > rec.t))
            && (rec.t <= 0.0 ==> r == ray)
  {
    ScanNearest(ray.hitRecord, cs, ray, bg);
  }

  /**
   * On a fresh ray the search reports a hit exactly when some candidate is
   * positive; the hit is then the nearest positive candidate, the first one
   * met on a tie, with its material id, its material and its normal, and the
   * point along the ray at that distance. Without a hit nothing changes.
   */
  lemma ClosestNearest(ray: Ray, spheres: seq<Sphere>, faces: seq<Face>, bg: Background, ops: FloatOps)
    requires ValidPrimitives(bg, spheres, faces)
    requires ray.hitRecord.t < 0.0
    ensures var r := Closest(ray, spheres, faces, bg, ops);
            var rec := r.hitRecord;
            var cs := Candidates(ray, spheres, faces, bg, ops);
            var w := Winner(ray.hitRecord, cs, ray, bg);
            && r.origin == ray.origin && r.direction == ray.direction && r.depth == ray.depth
            && (rec.t > 0.0 <==> exists j :: 0 <= j < |cs| && cs[j].t > 0.0)
            && (rec.t > 0.0 ==>
                  && 0 <= w < |cs| && rec.t == cs[w].t
                  && rec.materialId == cs[w].materialId
                  && rec.material == bg.materials[rec.materialId - 1]
                  && rec.normal == cs[w].normal
                  && rec.intersectionPoint == Along(ray, rec.t)
                  && (forall j :: 0 <= j < |cs| && cs[j].t > 0.0 ==> rec.t <= cs[j].t)
                  && (forall j :: 0 <= j < w && cs[j].t > 0.0 ==> cs[j].t > rec.t))
            && (rec.t <= 0.0 ==> r == ray)
  {
    SettleNearest(ray, Candidates(ray, spheres, faces, bg, ops), bg);
  }

  /**
   * The normal written back into a face never changes what the face offers
   * the search, and writing it twice is the same as writing it once.
   */
  lemma RefreshNormalsInvisible(ray: Ray, faces: seq<Face>, bg: Background, ops: FloatOps)
    requires forall i :: 0 <= i < |faces| ==> ValidFace(bg, faces[i])
    ensures FaceCandidates(ray, RefreshNormals(faces, bg, ops), bg, ops) == FaceCandidates(ray, faces, bg, ops)
    ensures RefreshNormals(RefreshNormals(faces, bg, ops), bg, ops) == RefreshNormals(faces, bg, ops)
  {
    var refreshed := RefreshNormals(faces, bg, ops);
    forall i | 0 <= i < |faces|
      ensures OfFace(ray, refreshed[i], bg, ops) == OfFace(ray, faces[i], bg, ops)
    {
      assert refreshed[i] == faces[i].(normal := FaceNormal(faces[i], bg, ops));
    }
  }

  /**
   * Ids are 1-based: a sphere's centre, a face's corners and an accepted
   * candidate's material are read from the tables at index id - 1.
   */
  lemma OneBasedLookups(bg: Background, s: Sphere, f: Face, rec: HitRecord, c: Candidate, ray: Ray)
    requires ValidSphere(bg, s) && ValidFace(bg, f) && ValidMaterialId(bg, c.materialId)
    ensures SphereCenter(bg, s) == bg.vertexData[s.centerVertexId - 1]
    ensures FaceVertex0(bg, f) == bg.vertexData[f.v0 - 1]
    ensures FaceVertex1(bg, f) == bg.vertexData[f.v1 - 1]
    ensures FaceVertex2(bg, f) == bg.vertexData[f.v2 - 1]
    ensures Accepts(c.t, rec.t) ==>
              Offer(rec, c, ray, bg).material == bg.materials[c.materialId - 1]
              && Offer(rec, c, ray, bg).materialId == c.materialId
  {
  }

  /**
   * The record of a fresh ray holds no hit, and the search accepts any
   * positive distance against it and nothing else.
   */
  lemma FreshRecordAcceptsAnyHit()
    ensures NoHit.t < 0.0 && NoHit.materialId == -1
    ensures NoHit.intersectionPoint == Zero && NoHit.normal == Zero
    ensures forall t :: Accepts(t, NoHit.t) <==> t > 0.0
  {
  }

  /** Offering one more candidate extends the scan by one step. */
  lemma ScanSnoc(rec: HitRecord, cs: seq<Candidate>, c: Candidate, ray: Ray, bg: Background)
    requires CandidatesValid(bg, cs) && ValidMaterialId(bg, c.materialId)
    ensures CandidatesValid(bg, cs + [c])
    ensures Scan(rec, cs + [c], ray, bg) == Offer(Scan(rec, cs, ray, bg), c, ray, bg)
  {
    assert (cs + [c])[..|cs|] == cs;
  }

  lemma SphereCandidatesSnoc(ray: Ray, spheres: seq<Sphere>, i: int, bg: Background, ops: FloatOps)
    requires 0 <= i < |spheres|
    requires forall k :: 0 <= k < |spheres| ==> ValidSphere(bg, spheres[k])
    ensures SphereCandidates(ray, spheres[..i + 1], bg, ops)
         == SphereCandidates(ray, spheres[..i], bg, ops) + [OfSphere(ray, spheres[i], bg, ops)]
  {
  }

  lemma FaceCandidatesSnoc(ray: Ray, faces: seq<Face>, i: int, bg: Background, ops: FloatOps)
    requires 0 <= i < |faces|
    requires forall k :: 0 <= k < |faces| ==> ValidFace(bg, faces[k])
    ensures FaceCandidates(ray, faces[..i + 1], bg, ops)
         == FaceCandidates(ray, faces[..i], bg, ops) + [OfFace(ray, faces[i], bg, ops)]
  {
  }

  /** One pass of the sphere loop: the sphere is kept when it is accepted. */
  method OfferSphere(ray: Ray, sphere: Sphere, rec: HitRecord, bg: Background, ops: FloatOps)
    returns (next: HitRecord)
    requires ValidSphere(bg, sphere)
    ensures next == Offer(rec, OfSphere(ray, sphere, bg, ops), ray, bg)
  {
    next := rec;
    var t := SphereIntersection(ray, sphere, bg, ops);
    if t > 0.0 && (rec.t < 0.0 || t < rec.t) {
      var point := Along(ray, t);
      next := HitRecord(t, point, ops.normalize(Sub(point, SphereCenter(bg, sphere))),
                        bg.GetMaterial(sphere.materialId - 1), sphere.materialId);
    }
  }

  /**
   * One pass of the face loop: the triangle test writes the face's normal,
   * then the face is kept when it is accepted.
   */
  method OfferFace(ray: Ray, face: Face, rec: HitRecord, bg: Background, ops: FloatOps)
    returns (next: HitRecord, refreshed: Face)
    requires ValidFace(bg, face)
    ensures refreshed == RefreshNormal(face, bg, ops)
    ensures next == Offer(rec, OfFace(ray, face, bg, ops), ray, bg)
  {
    refreshed := RefreshNormal(face, bg, ops);
    RefreshNormalKeepsTest(ray, face, bg, ops);
    next := rec;
    var t := FaceIntersection(ray, refreshed, bg);
    if t > 0.0 && (rec.t < 0.0 || t < rec.t) {
      next := rec.(t := t, materialId := refreshed.materialId,
                   material := bg.GetMaterial(refreshed.materialId - 1), normal := refreshed.normal);
    }
  }

  /**
   * `closestIntersection`: the sphere loop, then the face loop, each keeping
   * an accepted candidate in the hit record; finally the point of a hit.
   * `facesAfter` is the shared face list after the normals the triangle test
   * writes into it.
   */
  method ClosestIntersection(ray: Ray, spheres: seq<Sphere>, faces: seq<Face>, bg: Background, ops: FloatOps)
    returns (hit: bool, r: Ray, facesAfter: seq<Face>)
    requires ValidPrimitives(bg, spheres, faces)
    ensures r == Closest(ray, spheres, faces, bg, ops)
    ensures hit <==> r.hitRecord.t > 0.0
    ensures facesAfter == RefreshNormals(faces, bg, ops)
  {
    var rec := ray.hitRecord;
    ghost var seen: seq<Candidate> := [];
    var i := 0;
    while i < |spheres|
      invariant 0 <= i <= |spheres|
      invariant seen == SphereCandidates(ray, spheres[..i], bg, ops)
      invariant rec == Scan(ray.hitRecord, seen, ray, bg)
    {
      ghost var c := OfSphere(ray, spheres[i], bg, ops);
      ScanSnoc(ray.hitRecord, seen, c, ray, bg);
      rec := OfferSphere(ray, spheres[i], rec, bg, ops);
      SphereCandidatesSnoc(ray, spheres, i, bg, ops);
      seen := seen + [c];
      i := i + 1;
    }
    assert spheres[..i] == spheres;
    ghost var sphereCs := seen;
    facesAfter := faces;
    i := 0;
    assert sphereCs + FaceCandidates(ray, faces[..0], bg, ops) == sphereCs;
    while i < |faces|
      invariant 0 <= i <= |faces| && |facesAfter| == |faces|
      invariant seen == sphereCs + FaceCandidates(ray, faces[..i], bg, ops)
      invariant rec == Scan(ray.hitRecord, seen, ray, bg)
      invariant forall k :: 0 <= k < i ==> facesAfter[k] == RefreshNormal(faces[k], bg, ops)
      invariant forall k :: i <= k < |faces| ==> facesAfter[k] == faces[k]
    {
      ghost var c := OfFace(ray, faces[i], bg, ops);
      ScanSnoc(ray.hitRecord, seen, c, ray, bg);
      var face;
      rec, face := OfferFace(ray, facesAfter[i], rec, bg, ops);
      facesAfter := facesAfter[i := face];
      FaceCandidatesSnoc(ray, faces, i, bg, ops);
      seen := seen + [c];
      i := i + 1;
    }
    assert faces[..i] == faces;
    if rec.t > 0.0 {
      rec := rec.(intersectionPoint := Along(ray, rec.t));
      hit := true;
    } else {
      hit := false;
    }
    r := ray.(hitRecord := rec);
  }
}
