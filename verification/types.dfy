/**
 * Value types of the ray tracer: integer and real triples, the near-plane
 * window, materials, hit records, point lights, the read-only scene snapshot
 * (`Background`) and the primitives (faces, meshes, triangles, spheres).
 *
 * Floating-point quantities are modelled as `real`. The few float operations
 * whose value cannot be written in real arithmetic (square root, vector
 * normalisation, the Phong term of one light, and a float quotient whose
 * divisor is zero) are supplied by the caller through `FloatOps`.
 */
module Types {

  /** Integer triple (`Vec3i`), used for quantised colours. */
  datatype Vec3i = Vec3i(x: int, y: int, z: int)

  /** Real triple (`Vec3f`): positions, directions, colours and normals. */
  datatype Vec3 = Vec3(x: real, y: real, z: real)

  const Zero := Vec3(0.0, 0.0, 0.0)

  function Add(a: Vec3, b: Vec3): Vec3 { Vec3(a.x + b.x, a.y + b.y, a.z + b.z) }
  function Sub(a: Vec3, b: Vec3): Vec3 { Vec3(a.x - b.x, a.y - b.y, a.z - b.z) }
  function Scale(a: Vec3, f: real): Vec3 { Vec3(a.x * f, a.y * f, a.z * f) }
  /** Element-wise product. */
  function Mul(a: Vec3, b: Vec3): Vec3 { Vec3(a.x * b.x, a.y * b.y, a.z * b.z) }
  function Dot(a: Vec3, b: Vec3): real { a.x * b.x + a.y * b.y + a.z * b.z }
  function Cross(a: Vec3, b: Vec3): Vec3 {
    Vec3(a.y * b.z - a.z * b.y, a.z * b.x - a.x * b.z, a.x * b.y - a.y * b.x)
  }

  /** The float operations the model does not compute itself. */
  datatype FloatOps = FloatOps(
    sqrt: real -> real,
    normalize: Vec3 -> Vec3,
    // diffuse plus specular contribution of one unshadowed light, given the
    // hit record, the incoming direction and the light
    phong: (HitRecord, Vec3, PointLight) -> Vec3,
    // the float value of `n / d.x` when `d.x` is zero (an infinity or NaN)
    quotientByZero: real -> real
  )

  // ---------------------------------------------------------------------
  // Vec3i: dot and cross

  /** `Vec3i::dot` as written: its third term multiplies by `v.y`, not `v.z`. */
  function DotAsWritten(a: Vec3i, v: Vec3i): (r: int)
    ensures r == DotIntended(a, v) + a.z * (v.y - v.z)
    ensures a.z == 0 || v.y == v.z ==> r == DotIntended(a, v)
  {
    a.x * v.x + a.y * v.y + a.z * v.y
  }

  /** The dot product `Vec3i::dot` evidently meant. */
  function DotIntended(a: Vec3i, v: Vec3i): int {
    a.x * v.x + a.y * v.y + a.z * v.z
  }

  /** The 2x2 determinant `a * d - b * c`, one component of a cross product. */
  function Det2(a: int, b: int, c: int, d: int): int { a * d - b * c }

  /**
   * `Vec3i::cross`. Its squared length obeys Lagrange's identity
   * |a x v|^2 = |a|^2 |v|^2 - (a . v)^2 (with the intended dot product).
   */
  function CrossI(a: Vec3i, v: Vec3i): (r: Vec3i)
    ensures DotIntended(r, r) == DotIntended(a, a) * DotIntended(v, v) - DotIntended(a, v) * DotIntended(a, v)
  {
    Vec3i(Det2(a.y, a.z, v.y, v.z), Det2(a.z, a.x, v.z, v.x), Det2(a.x, a.y, v.x, v.y))
  }

  function NegI(a: Vec3i): Vec3i { Vec3i(-a.x, -a.y, -a.z) }

  /** The cross product is antisymmetric and vanishes on equal operands. */
  lemma CrossAntisymmetric(a: Vec3i, b: Vec3i)
    ensures CrossI(a, b) == NegI(CrossI(b, a))
    ensures CrossI(a, a) == Vec3i(0, 0, 0)
  {
  }

  /** With the intended dot product a cross product is orthogonal to its operands. */
  lemma CrossOrthogonal(a: Vec3i, b: Vec3i)
    ensures DotIntended(a, b) == DotIntended(b, a)
    ensures DotIntended(a, CrossI(a, b)) == 0
    ensures DotIntended(b, CrossI(a, b)) == 0
  {
  }

  /**
   * The dot product as written breaks orthogonality: for a = (0,0,1) and
   * b = (1,0,0) it gives a . (a x b) = 1.
   */
  lemma DotAsWrittenNotOrthogonal()
    ensures DotAsWritten(Vec3i(0, 0, 1), CrossI(Vec3i(0, 0, 1), Vec3i(1, 0, 0))) == 1
  {
  }

  /** It is not symmetric either. */
  lemma DotAsWrittenAsymmetric()
    ensures DotAsWritten(Vec3i(0, 0, 1), Vec3i(0, 1, 0)) != DotAsWritten(Vec3i(0, 1, 0), Vec3i(0, 0, 1))
  {
  }

  // ---------------------------------------------------------------------
  // Colour quantisation

  /** C's `round`: nearest integer, halfway cases away from zero. */
  function Round(x: real): (r: int)
    ensures x >= 0.0 ==> x - 0.5 < r as real <= x + 0.5
    ensures x < 0.0 ==> x - 0.5 <= r as real < x + 0.5
  {
    if x >= 0.0 then (x + 0.5).Floor else -((-x + 0.5).Floor)
  }

  lemma RoundMonotone(x: real, y: real)
    requires x <= y
    ensures Round(x) <= Round(y)
  {
    if x >= 0.0 {
    } else if y >= 0.0 {
    } else {
      assert (-y + 0.5).Floor <= (-x + 0.5).Floor;
    }
  }

  /** One channel of `Vec3f::clamp`: round, then saturate into [0, 255]. */
  function Saturate(x: real): (c: int)
    ensures 0 <= c <= 255
    ensures Round(x) < 0 ==> c == 0
    ensures Round(x) > 255 ==> c == 255
    ensures 0 <= Round(x) <= 255 ==> c == Round(x)
  {
    var r := Round(x);
    if r < 0 then 0 else if r > 255 then 255 else r
  }

  /** Saturation keeps the order of channel values. */
  lemma SaturateMonotone(x: real, y: real)
    requires x <= y
    ensures Saturate(x) <= Saturate(y)
  {
    RoundMonotone(x, y);
  }

  /** On in-range values the quantised channel is within one half of the real value. */
  lemma SaturateNearest(x: real)
    requires 0.0 <= x <= 255.0
    ensures -0.5 < Saturate(x) as real - x <= 0.5
  {
    assert 0 <= Round(x) <= 255 by {
      assert (x + 0.5).Floor <= (255.5).Floor;
    }
  }

  /** Examples: 127.6 rounds up, halves round away from zero, out-of-range values saturate. */
  lemma SaturateExamples()
    ensures Saturate(127.6) == 128 && Saturate(127.4) == 127
    ensures Round(2.5) == 3 && Round(-2.5) == -3
    ensures Saturate(-3.0) == 0 && Saturate(300.0) == 255
  {
  }

  predicate IsColorByte(v: Vec3i) {
    0 <= v.x <= 255 && 0 <= v.y <= 255 && 0 <= v.z <= 255
  }

  /** `Vec3f::clamp`: every channel rounded and saturated into [0, 255]. */
  function Clamp(c: Vec3): (r: Vec3i)
    ensures IsColorByte(r)
    ensures r.x == Saturate(c.x) && r.y == Saturate(c.y) && r.z == Saturate(c.z)
  {
    Vec3i(Saturate(c.x), Saturate(c.y), Saturate(c.z))
  }

  newtype byte = x: int | 0 <= x < 256

  /** C++'s conversion of an `int` to `unsigned char`: reduction modulo 256. */
  function ToByte(x: int): (b: byte)
    ensures (b as int - x) % 256 == 0
    ensures 0 <= x < 256 ==> b as int == x
  {
    (x % 256) as byte
  }

  // ---------------------------------------------------------------------
  // Near plane, materials, hit records, lights

  /** `Vec4f`: fields `l, r, t, b`, filled positionally by its constructor. */
  datatype Vec4f = Vec4f(l: real, r: real, t: real, b: real)

  /**
   * `Vec4f(x, y, z, w)`: the third argument lands in `t` and the fourth in `b`,
   * so a window given in (left, right, bottom, top) order stores its bottom
   * in `t` and its top in `b`.
   */
  lemma NearPlanePositional(left: real, right: real, bottom: real, top: real)
    ensures var p := Vec4f(left, right, bottom, top); p.t == bottom && p.b == top
  {
  }

  datatype Material = Material(
    isMirror: bool, ambient: Vec3, diffuse: Vec3, specular: Vec3, mirror: Vec3,
    phongExponent: real)

  /** Stands for the default-constructed `Material`, whose flag and exponent are never set. */
  const UnsetMaterial := Material(false, Zero, Zero, Zero, Zero, 0.0)

  datatype HitRecord = HitRecord(
    t: real, intersectionPoint: Vec3, normal: Vec3, material: Material, materialId: int)

  /** `HitRecord()`: no hit (t = -1), material id -1, zero point and normal. */
  const NoHit := HitRecord(-1.0, Zero, Zero, UnsetMaterial, -1)

  datatype PointLight = PointLight(position: Vec3, intensity: Vec3)

  /** The read-only scene snapshot handed to the tracer. */
  datatype Background = Background(
    backgroundColor: Vec3i, ambientLight: Vec3, pointLights: seq<PointLight>,
    vertexData: seq<Vec3>, maxRecursionDepth: int, materials: seq<Material>,
    shadowRayEpsilon: real)
  {
    /** Raw index: callers pass the 1-based id minus one. */
    function GetVertex(id: int): Vec3
      requires 0 <= id < |vertexData|
    {
      vertexData[id]
    }

    /** Raw index: callers pass the 1-based id minus one. */
    function GetMaterial(id: int): Material
      requires 0 <= id < |materials|
    {
      materials[id]
    }
  }

  // ---------------------------------------------------------------------
  // Primitives

  datatype Face = Face(v0: int, v1: int, v2: int, normal: Vec3, materialId: int)

  /**
   * `Face()`: vertex ids 0 and a zero normal. The source leaves `material_id`
   * indeterminate; the model fixes 0, and rendering overwrites it before use.
   */
  function DefaultFace(): (f: Face)
    ensures f.v0 == 0 && f.v1 == 0 && f.v2 == 0 && f.normal == Zero
  {
    Face(0, 0, 0, Zero, 0)
  }

  /** `Face(v0, v1, v2)`: the ids as given; the normal keeps its zero default. */
  function MakeFace(v0: int, v1: int, v2: int): (f: Face)
    ensures f.v0 == v0 && f.v1 == v1 && f.v2 == v2 && f.normal == Zero
  {
    Face(v0, v1, v2, Zero, 0)
  }

  datatype Mesh = Mesh(materialId: int, faces: seq<Face>)
  datatype Triangle = Triangle(materialId: int, face: Face)
  datatype Sphere = Sphere(materialId: int, centerVertexId: int, radius: real)

  /** A 1-based vertex id names an entry of the vertex table. */
  predicate ValidVertexId(bg: Background, id: int) { 1 <= id <= |bg.vertexData| }

  /** A 1-based material id names an entry of the material table. */
  predicate ValidMaterialId(bg: Background, id: int) { 1 <= id <= |bg.materials| }

  predicate ValidSphere(bg: Background, s: Sphere) {
    ValidVertexId(bg, s.centerVertexId) && ValidMaterialId(bg, s.materialId)
  }

  predicate ValidFace(bg: Background, f: Face) {
    ValidVertexId(bg, f.v0) && ValidVertexId(bg, f.v1) && ValidVertexId(bg, f.v2)
    && ValidMaterialId(bg, f.materialId)
  }

  /**
   * Every index a primitive holds is in range. Neither the loader nor the
   * tracer checks this; the model demands it of the scene up front.
   */
  predicate ValidPrimitives(bg: Background, spheres: seq<Sphere>, faces: seq<Face>) {
    (forall i :: 0 <= i < |spheres| ==> ValidSphere(bg, spheres[i]))
    && (forall i :: 0 <= i < |faces| ==> ValidFace(bg, faces[i]))
  }
}
