/**
 * Colour of a ray (`computeColor`, `applyShading`, `isInShadow`).
 *
 * `Color` and `Shade` are the specification: a ray deeper than the maximum
 * recursion depth is black; otherwise a hit is shaded, a primary miss takes
 * the background colour and a reflected miss is black. Shading adds the
 * ambient term, the mirror term of a reflected ray one level deeper, and
 * the Phong term of every light that is not in shadow, in light order.
 * The methods `ComputeColor`, `ApplyShading` and `IsInShadow` follow the
 * source step by step and are proved to compute those functions.
 */
module Shading {
  import opened Types
  import opened Rays

  const Black := Zero

  /** The integer background colour, converted to reals. */
  function BackgroundColor(bg: Background): Vec3 {
    Vec3(bg.backgroundColor.x as real, bg.backgroundColor.y as real, bg.backgroundColor.z as real)
  }

  /** The ray from a hit towards a light, its origin pushed off the surface along the normal. */
  function ShadowRay(rec: HitRecord, light: PointLight, bg: Background, ops: FloatOps): (r: Ray)
    ensures r.depth == 0 && r.hitRecord == NoHit
    ensures r.origin == Add(rec.intersectionPoint, Scale(rec.normal, bg.shadowRayEpsilon))
  {
    NewRay(Add(rec.intersectionPoint, Scale(rec.normal, bg.shadowRayEpsilon)),
           ops.normalize(Sub(light.position, rec.intersectionPoint)))
  }

  /**
   * `tLight`: the light's distance along the shadow ray, measured on the x
   * axis alone. A zero x direction divides by zero in floats; the quotient
   * (an infinity or NaN) comes from `ops.quotientByZero`.
   */
  function LightDistance(light: PointLight, shadow: Ray, ops: FloatOps): (d: real)
    ensures shadow.direction.x != 0.0 ==> Along(shadow, d).x == light.position.x
  {
    var n := light.position.x - shadow.origin.x;
    if shadow.direction.x != 0.0 then n / shadow.direction.x else ops.quotientByZero(n)
  }

  /** `isInShadow`: the shadow ray hits something, and nearer than the light. */
  predicate InShadow(rec: HitRecord, light: PointLight, spheres: seq<Sphere>, faces: seq<Face>,
                     bg: Background, ops: FloatOps)
    requires ValidPrimitives(bg, spheres, faces)
  {
    var shadow := ShadowRay(rec, light, bg, ops);
    var blocked := Closest(shadow, spheres, faces, bg, ops).hitRecord.t;
    blocked > 0.0 && blocked < LightDistance(light, shadow, ops)
  }

  /**
   * A point is in shadow exactly when some primitive meets the shadow ray at
   * a positive distance below the light's distance.
   */
  lemma InShadowIff(rec: HitRecord, light: PointLight, spheres: seq<Sphere>, faces: seq<Face>,
                    bg: Background, ops: FloatOps)
    requires ValidPrimitives(bg, spheres, faces)
    ensures var shadow := ShadowRay(rec, light, bg, ops);
            var cs := Candidates(shadow, spheres, faces, bg, ops);
            var tLight := LightDistance(light, shadow, ops);
            InShadow(rec, light, spheres, faces, bg, ops) <==> exists j :: 0 <= j < |cs| && 0.0 < cs[j].t < tLight
  {
    var shadow := ShadowRay(rec, light, bg, ops);
    ClosestNearest(shadow, spheres, faces, bg, ops);
  }

  /** The mirror ray of a hit, one level deeper. */
  function ReflectionRay(ray: Ray, bg: Background, ops: FloatOps): (r: Ray)
    ensures r.depth == ray.depth + 1 && r.hitRecord == NoHit
    ensures r.origin == Add(ray.hitRecord.intersectionPoint, Scale(ray.hitRecord.normal, bg.shadowRayEpsilon))
  {
    var rec := ray.hitRecord;
    var d := ray.direction;
    var reflected := Sub(d, Scale(Scale(rec.normal, 2.0), Dot(d, rec.normal)));
    NewRay(Add(rec.intersectionPoint, Scale(rec.normal, bg.shadowRayEpsilon)), ops.normalize(reflected))
      .(depth := ray.depth + 1)
  }

  /** The colour `computeColor` returns. */
  function Color(ray: Ray, spheres: seq<Sphere>, faces: seq<Face>, bg: Background, ops: FloatOps): Vec3
    requires ValidPrimitives(bg, spheres, faces)
    decreases bg.maxRecursionDepth - ray.depth + 1, 1
  {
    if ray.depth > bg.maxRecursionDepth then Black
    else
      var r := Closest(ray, spheres, faces, bg, ops);
      if r.hitRecord.t > 0.0 then Shade(r, spheres, faces, bg, ops)
      else if ray.depth == 0 then BackgroundColor(bg)
      else Black
  }

  /** The colour `applyShading` returns for a ray whose hit record holds a hit. */
  function Shade(ray: Ray, spheres: seq<Sphere>, faces: seq<Face>, bg: Background, ops: FloatOps): Vec3
    requires ValidPrimitives(bg, spheres, faces)
    requires ray.depth <= bg.maxRecursionDepth
    decreases bg.maxRecursionDepth - ray.depth + 1, 0
  {
    var m := ray.hitRecord.material;
    var ambient := Mul(bg.ambientLight, m.ambient);
    var base :=
      if m.isMirror
      then Add(ambient, Mul(Color(ReflectionRay(ray, bg, ops), spheres, faces, bg, ops), m.mirror))
      else ambient;
    LightSum(base, ray, bg.pointLights, spheres, faces, bg, ops)
  }

  /** `acc` plus the Phong term of every light of `lights` that is not in shadow, in order. */
  function LightSum(acc: Vec3, ray: Ray, lights: seq<PointLight>, spheres: seq<Sphere>, faces: seq<Face>,
                    bg: Background, ops: FloatOps): Vec3
    requires ValidPrimitives(bg, spheres, faces)
    decreases |lights|
  {
    if |lights| == 0 then acc
    else
      var prev := LightSum(acc, ray, lights[..|lights| - 1], spheres, faces, bg, ops);
      var light := lights[|lights| - 1];
      if InShadow(ray.hitRecord, light, spheres, faces, bg, ops) then prev
      else Add(prev, ops.phong(ray.hitRecord, ray.direction, light))
  }

  /** Lights in shadow add nothing: with every light shadowed only `acc` remains. */
  lemma {:induction false} ShadowedLightsAddNothing(acc: Vec3, ray: Ray, lights: seq<PointLight>,
                                                     spheres: seq<Sphere>, faces: seq<Face>,
                                                     bg: Background, ops: FloatOps)
    requires ValidPrimitives(bg, spheres, faces)
    requires forall k :: 0 <= k < |lights| ==> InShadow(ray.hitRecord, lights[k], spheres, faces, bg, ops)
    ensures LightSum(acc, ray, lights, spheres, faces, bg, ops) == acc
  {
    if |lights| > 0 {
      var pre := lights[..|lights| - 1];
      assert forall k :: 0 <= k < |pre| ==> pre[k] == lights[k];
      ShadowedLightsAddNothing(acc, ray, pre, spheres, faces, bg, ops);
    }
  }

  /** Summing lights in two runs is summing them in one. */
  lemma {:induction false} LightSumAppend(acc: Vec3, ray: Ray, front: seq<PointLight>, back: seq<PointLight>,
                                          spheres: seq<Sphere>, faces: seq<Face>, bg: Background, ops: FloatOps)
    requires ValidPrimitives(bg, spheres, faces)
    ensures LightSum(acc, ray, front + back, spheres, faces, bg, ops)
         == LightSum(LightSum(acc, ray, front, spheres, faces, bg, ops), ray, back, spheres, faces, bg, ops)
    decreases |back|
  {
    if |back| == 0 {
      assert front + back == front;
    } else {
      var all := front + back;
      var pre := back[..|back| - 1];
      assert all[..|all| - 1] == front + pre;
      assert all[|all| - 1] == back[|back| - 1];
      LightSumAppend(acc, ray, front, pre, spheres, faces, bg, ops);
    }
  }

  /** Adding a term to the start value adds it to the sum. */
  lemma {:induction false} LightSumShift(acc: Vec3, extra: Vec3, ray: Ray, lights: seq<PointLight>,
                                         spheres: seq<Sphere>, faces: seq<Face>, bg: Background, ops: FloatOps)
    requires ValidPrimitives(bg, spheres, faces)
    ensures LightSum(Add(acc, extra), ray, lights, spheres, faces, bg, ops)
         == Add(LightSum(acc, ray, lights, spheres, faces, bg, ops), extra)
    decreases |lights|
  {
    if |lights| > 0 {
      LightSumShift(acc, extra, ray, lights[..|lights| - 1], spheres, faces, bg, ops);
    }
  }

  /** One light in shadow adds nothing: the sum is the sum over the other lights. */
  lemma ShadowedLightSkipped(acc: Vec3, ray: Ray, lights: seq<PointLight>, k: int,
                             spheres: seq<Sphere>, faces: seq<Face>, bg: Background, ops: FloatOps)
    requires ValidPrimitives(bg, spheres, faces)
    requires 0 <= k < |lights| && InShadow(ray.hitRecord, lights[k], spheres, faces, bg, ops)
    ensures LightSum(acc, ray, lights, spheres, faces, bg, ops)
         == LightSum(acc, ray, lights[..k] + lights[k + 1..], spheres, faces, bg, ops)
  {
    var front, back := lights[..k], lights[k + 1..];
    assert lights == (front + [lights[k]]) + back;
    assert (front + [lights[k]])[..k] == front;
    LightSumAppend(acc, ray, front + [lights[k]], back, spheres, faces, bg, ops);
    LightSumAppend(acc, ray, front, back, spheres, faces, bg, ops);
  }

  /** One light not in shadow adds exactly its Phong term, wherever it stands. */
  lemma LitLightAdds(acc: Vec3, ray: Ray, lights: seq<PointLight>, k: int,
                     spheres: seq<Sphere>, faces: seq<Face>, bg: Background, ops: FloatOps)
    requires ValidPrimitives(bg, spheres, faces)
    requires 0 <= k < |lights| && !InShadow(ray.hitRecord, lights[k], spheres, faces, bg, ops)
    ensures LightSum(acc, ray, lights, spheres, faces, bg, ops)
         == Add(LightSum(acc, ray, lights[..k] + lights[k + 1..], spheres, faces, bg, ops),
                ops.phong(ray.hitRecord, ray.direction, lights[k]))
  {
    var front, back := lights[..k], lights[k + 1..];
    var p := ops.phong(ray.hitRecord, ray.direction, lights[k]);
    assert lights == (front + [lights[k]]) + back;
    assert (front + [lights[k]])[..k] == front;
    LightSumAppend(acc, ray, front + [lights[k]], back, spheres, faces, bg, ops);
    LightSumShift(LightSum(acc, ray, front, spheres, faces, bg, ops), p, ray, back, spheres, faces, bg, ops);
    LightSumAppend(acc, ray, front, back, spheres, faces, bg, ops);
  }

  /**
   * The three outcomes of `computeColor` for a fresh ray, in terms of the
   * primitives: too deep is black; a ray some primitive meets at a positive
   * distance is shaded at its nearest hit; a primary ray that meets nothing
   * takes the background colour, and a reflected one is black.
   */
  lemma ColorCases(ray: Ray, spheres: seq<Sphere>, faces: seq<Face>, bg: Background, ops: FloatOps)
    requires ValidPrimitives(bg, spheres, faces)
    requires ray.hitRecord.t < 0.0
    ensures var cs := Candidates(ray, spheres, faces, bg, ops);
            var met := exists j :: 0 <= j < |cs| && cs[j].t > 0.0;
            var color := Color(ray, spheres, faces, bg, ops);
            && (ray.depth > bg.maxRecursionDepth ==> color == Black)
            && (ray.depth <= bg.maxRecursionDepth && met ==>
                  color == Shade(Closest(ray, spheres, faces, bg, ops), spheres, faces, bg, ops))
            && (ray.depth <= bg.maxRecursionDepth && !met && ray.depth == 0 ==> color == BackgroundColor(bg))
            && (ray.depth <= bg.maxRecursionDepth && !met && ray.depth > 0 ==> color == Black)
  {
    ClosestNearest(ray, spheres, faces, bg, ops);
  }

  /** The number of nested mirror reflections the colour of `ray` follows. */
  function Bounces(ray: Ray, spheres: seq<Sphere>, faces: seq<Face>, bg: Background, ops: FloatOps): nat
    requires ValidPrimitives(bg, spheres, faces)
    decreases bg.maxRecursionDepth - ray.depth + 1
  {
    if ray.depth > bg.maxRecursionDepth then 0
    else
      var r := Closest(ray, spheres, faces, bg, ops);
      if r.hitRecord.t > 0.0 && r.hitRecord.material.isMirror
      then 1 + Bounces(ReflectionRay(r, bg, ops), spheres, faces, bg, ops)
      else 0
  }

  /** Reflections stop at the maximum depth: at most `maxRecursionDepth + 1 - depth` of them. */
  lemma {:induction false} BouncesBounded(ray: Ray, spheres: seq<Sphere>, faces: seq<Face>,
                                          bg: Background, ops: FloatOps)
    requires ValidPrimitives(bg, spheres, faces)
    ensures Bounces(ray, spheres, faces, bg, ops)
            <= if ray.depth > bg.maxRecursionDepth then 0 else bg.maxRecursionDepth + 1 - ray.depth
    decreases bg.maxRecursionDepth - ray.depth + 1
  {
    if ray.depth <= bg.maxRecursionDepth {
      var r := Closest(ray, spheres, faces, bg, ops);
      if r.hitRecord.t > 0.0 && r.hitRecord.material.isMirror {
        BouncesBounded(ReflectionRay(r, bg, ops), spheres, faces, bg, ops);
      }
    }
  }

  /** `isInShadow`: traces the shadow ray with the nearest-hit search, then compares with `tLight`. */
  method IsInShadow(rec: HitRecord, light: PointLight, spheres: seq<Sphere>, faces: seq<Face>,
                    bg: Background, ops: FloatOps)
    returns (shadowed: bool)
    requires ValidPrimitives(bg, spheres, faces)
    ensures shadowed == InShadow(rec, light, spheres, faces, bg, ops)
  {
    var direction := ops.normalize(Sub(light.position, rec.intersectionPoint));
    var shadowRay := NewRay(Add(rec.intersectionPoint, Scale(rec.normal, bg.shadowRayEpsilon)), direction);
    var hit, traced, _ := ClosestIntersection(shadowRay, spheres, faces, bg, ops);
    if hit {
      var tLight := LightDistance(light, shadowRay, ops);
      if traced.hitRecord.t < tLight {
        return true;
      }
    }
    return false;
  }

  /**
   * `computeColor`: also returns the ray as the nearest-hit search left it,
   * since the search updates the ray's hit record in place.
   */
  method ComputeColor(ray: Ray, spheres: seq<Sphere>, faces: seq<Face>, bg: Background, ops: FloatOps)
    returns (color: Vec3, after: Ray)
    requires ValidPrimitives(bg, spheres, faces)
    ensures color == Color(ray, spheres, faces, bg, ops)
    ensures after == if ray.depth > bg.maxRecursionDepth then ray else Closest(ray, spheres, faces, bg, ops)
    decreases bg.maxRecursionDepth - ray.depth + 1, 1
  {
    if ray.depth > bg.maxRecursionDepth {
      return Black, ray;
    }
    var hit, r, _ := ClosestIntersection(ray, spheres, faces, bg, ops);
    after := r;
    if hit {
      color := ApplyShading(r, spheres, faces, bg, ops);
    } else if ray.depth == 0 {
      color := BackgroundColor(bg);
    } else {
      color := Black;
    }
  }

  /** `applyShading`: ambient, then the mirror term, then the light loop. */
  method ApplyShading(ray: Ray, spheres: seq<Sphere>, faces: seq<Face>, bg: Background, ops: FloatOps)
    returns (color: Vec3)
    requires ValidPrimitives(bg, spheres, faces)
    requires ray.depth <= bg.maxRecursionDepth
    ensures color == Shade(ray, spheres, faces, bg, ops)
    decreases bg.maxRecursionDepth - ray.depth + 1, 0
  {
    var rec := ray.hitRecord;
    color := Mul(bg.ambientLight, rec.material.ambient);
    if rec.material.isMirror {
      var reflectionRay := ReflectionRay(ray, bg, ops);
      var reflected, _ := ComputeColor(reflectionRay, spheres, faces, bg, ops);
      color := Add(color, Mul(reflected, rec.material.mirror));
    }
    ghost var base := color;
    var lights := bg.pointLights;
    var i := 0;
    while i < |lights|
      invariant 0 <= i <= |lights|
      invariant color == LightSum(base, ray, lights[..i], spheres, faces, bg, ops)
    {
      assert lights[..i + 1][..i] == lights[..i];
      var shadowed := IsInShadow(rec, lights[i], spheres, faces, bg, ops);
      if shadowed {
        i := i + 1;
        continue;
      }
      color := Add(color, ops.phong(rec, ray.direction, lights[i]));
      i := i + 1;
    }
    assert lights[..i] == lights;
  }
}
