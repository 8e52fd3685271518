/**
 * The camera (`Camera`): primary-ray generation into a flat ray buffer and
 * tracing that buffer into an RGB byte framebuffer.
 *
 * Pixel (row i, column j) is stored at flat index `(height - i - 1) * width + j`,
 * so row 0 is stored last. Row 0 lies at the window edge held in the near
 * plane's field `t`, and each further row moves towards the edge in `b`. A
 * camera read from a scene file gets its window in (left, right, bottom, top)
 * order, so `t` holds the bottom edge: row 0 is the bottom row and the buffer
 * runs top row first. The framebuffer holds three bytes per ray, `3 * k` to `3 * k + 2`
 * for ray k. Tracing is split among twelve workers, worker t taking the
 * rays t, t + 12, t + 24, ...; the workers touch disjoint rays and bytes,
 * so the model runs them one after the other.
 */
module Cameras {
  import opened Types
  import opened Rays
  import opened Shading

  const NumThreads := 12

  // ---------------------------------------------------------------------
  // Pixel indexing

  /** The flat buffer index of pixel (row i, column j). */
  function FlatIndex(i: int, j: int, width: int, height: int): int {
    (height - i - 1) * width + j
  }

  /** The row of the pixel stored at flat index k. */
  function RowOf(k: int, width: int, height: int): int
    requires width > 0
  {
    height - 1 - k / width
  }

  /** The column of the pixel stored at flat index k. */
  function ColOf(k: int, width: int): int
    requires width > 0
  {
    k % width
  }

  lemma MulAtLeast(x: int, d: int)
    requires x >= 1 && d >= 0
    ensures x * d >= d
  {
  }

  /** Euclidean division is determined by its quotient-remainder decomposition. */
  lemma DivModUnique(k: int, d: int, q: int, r: int)
    requires d > 0 && 0 <= r < d && k == q * d + r
    ensures k / d == q && k % d == r
  {
    var q' := k / d;
    var r' := k % d;
    assert q * d - q' * d == r' - r;
    assert (q - q') * d == r' - r;
    if q > q' {
      MulAtLeast(q - q', d);
    } else if q < q' {
      MulAtLeast(q' - q, d);
    }
  }

  lemma ProductPositive(a: int, b: int, k: int)
    requires a >= 0 && b >= 0 && 0 <= k < a * b
    ensures a > 0 && b > 0
  {
  }

  /**
   * The product a * b by repeated addition. Index arithmetic on the buffers is
   * argued through it, so that those arguments stay linear; `TimesIsProduct`
   * ties it to `*`.
   */
  function Times(a: nat, b: nat): nat {
    if a == 0 then 0 else Times(a - 1, b) + b
  }

  lemma {:induction false} TimesIsProduct(a: nat, b: nat)
    ensures Times(a, b) == a * b == b * a
  {
    if a > 0 {
      TimesIsProduct(a - 1, b);
    }
  }

  /** Every pixel of the image gets an index inside the buffer, and the index gives the pixel back. */
  lemma FlatIndexInverse(i: int, j: int, width: int, height: int)
    requires 0 <= i < height && 0 <= j < width
    ensures 0 <= FlatIndex(i, j, width, height) < width * height
    ensures RowOf(FlatIndex(i, j, width, height), width, height) == i
    ensures ColOf(FlatIndex(i, j, width, height), width) == j
  {
    var q := height - i - 1;
    DivModUnique(FlatIndex(i, j, width, height), width, q, j);
    assert q * width + j < (q + 1) * width;
    assert (q + 1) * width <= height * width;
  }

  /** Every buffer index belongs to some pixel: the indexing is a bijection onto the buffer. */
  lemma FlatIndexOnto(k: int, width: int, height: int)
    requires width > 0 && 0 <= k < width * height
    ensures 0 <= RowOf(k, width, height) < height && 0 <= ColOf(k, width) < width
    ensures FlatIndex(RowOf(k, width, height), ColOf(k, width), width, height) == k
  {
    var q := k / width;
    assert k == q * width + k % width;
    if q >= height {
      assert q * width >= height * width;
    }
  }

  /** Two pixels share a buffer index only when they are the same pixel. */
  lemma FlatIndexInjective(i: int, j: int, i': int, j': int, width: int, height: int)
    requires 0 <= i < height && 0 <= j < width && 0 <= i' < height && 0 <= j' < width
    requires FlatIndex(i, j, width, height) == FlatIndex(i', j', width, height)
    ensures i == i' && j == j'
  {
    FlatIndexInverse(i, j, width, height);
    FlatIndexInverse(i', j', width, height);
  }

  // ---------------------------------------------------------------------
  // Primary rays

  /** The camera's settings that primary-ray generation reads. */
  datatype Setup = Setup(
    position: Vec3, gaze: Vec3, up: Vec3, nearPlane: Vec4f, nearDistance: real,
    width: int, height: int)

  /** How far the centre of pixel `index` of `count` lies across a window edge of extent `hi - lo`. */
  function PixelOffset(lo: real, hi: real, index: int, count: int): real
    requires count > 0
  {
    (hi - lo) * (index as real + 0.5) / count as real
  }

  /** The camera basis: v is the normalised up vector, w the normalised reverse gaze, u = v x w normalised. */
  function BasisV(s: Setup, ops: FloatOps): Vec3 { ops.normalize(s.up) }
  function BasisW(s: Setup, ops: FloatOps): Vec3 { ops.normalize(Vec3(-s.gaze.x, -s.gaze.y, -s.gaze.z)) }
  function BasisU(s: Setup, ops: FloatOps): Vec3 { ops.normalize(Cross(BasisV(s, ops), BasisW(s, ops))) }

  /**
   * The centre of pixel (row i, column j) on the near plane: from the window
   * corner q = m + u l + v t, across by the column offset along u and back by
   * the row offset along v (towards the edge in `b` when t > b).
   */
  function PixelCentre(s: Setup, i: int, j: int, ops: FloatOps): Vec3
    requires s.width > 0 && s.height > 0
  {
    var v := BasisV(s, ops);
    var u := BasisU(s, ops);
    var m := Sub(s.position, Scale(BasisW(s, ops), s.nearDistance));
    var q := Add(Add(m, Scale(u, s.nearPlane.l)), Scale(v, s.nearPlane.t));
    var su := PixelOffset(s.nearPlane.l, s.nearPlane.r, j, s.width);
    var sv := PixelOffset(s.nearPlane.b, s.nearPlane.t, i, s.height);
    Sub(Add(q, Scale(u, su)), Scale(v, sv))
  }

  /** The normalised direction from the camera through the centre of pixel (row i, column j). */
  function PixelDirection(s: Setup, i: int, j: int, ops: FloatOps): Vec3
    requires s.width > 0 && s.height > 0
  {
    ops.normalize(Sub(PixelCentre(s, i, j, ops), s.position))
  }

  /** Consecutive pixels' offsets differ by one pixel's extent. */
  lemma PixelOffsetStep(lo: real, hi: real, index: int, count: int)
    requires count > 0
    ensures PixelOffset(lo, hi, index + 1, count) == PixelOffset(lo, hi, index, count) + (hi - lo) / count as real
  {
  }

  /** Scaling by a sum of factors: the extra factor's share. */
  lemma ScaleDifference(u: Vec3, a: real, d: real)
    ensures Sub(Scale(u, a + d), Scale(u, a)) == Scale(u, d)
    ensures Sub(Scale(u, a), Scale(u, a + d)) == Scale(u, -d)
  {
    assert u.x * (a + d) - u.x * a == u.x * d;
    assert u.y * (a + d) - u.y * a == u.y * d;
    assert u.z * (a + d) - u.z * a == u.z * d;
    assert u.x * a - u.x * (a + d) == u.x * -d;
    assert u.y * a - u.y * (a + d) == u.y * -d;
    assert u.z * a - u.z * (a + d) == u.z * -d;
  }

  /** Two points `q + a - b` differ by the difference of their `a` terms less that of their `b` terms. */
  lemma OffsetDifference(q: Vec3, a: Vec3, b: Vec3, a': Vec3, b': Vec3)
    ensures Sub(Sub(Add(q, a'), b'), Sub(Add(q, a), b)) == Add(Sub(a', a), Sub(b, b'))
  {
  }

  /** One column to the right moves a pixel centre by one pixel width along u. */
  lemma PixelColumnStep(s: Setup, i: int, j: int, ops: FloatOps)
    requires s.width > 0 && s.height > 0
    ensures Sub(PixelCentre(s, i, j + 1, ops), PixelCentre(s, i, j, ops))
         == Scale(BasisU(s, ops), (s.nearPlane.r - s.nearPlane.l) / s.width as real)
  {
    var u, v := BasisU(s, ops), BasisV(s, ops);
    var m := Sub(s.position, Scale(BasisW(s, ops), s.nearDistance));
    var q := Add(Add(m, Scale(u, s.nearPlane.l)), Scale(v, s.nearPlane.t));
    var du := (s.nearPlane.r - s.nearPlane.l) / s.width as real;
    var su := PixelOffset(s.nearPlane.l, s.nearPlane.r, j, s.width);
    var b := Scale(v, PixelOffset(s.nearPlane.b, s.nearPlane.t, i, s.height));
    PixelOffsetStep(s.nearPlane.l, s.nearPlane.r, j, s.width);
    OffsetDifference(q, Scale(u, su), b, Scale(u, su + du), b);
    ScaleDifference(u, su, du);
  }

  /** The next row moves a pixel centre by (t - b) / height against v. */
  lemma PixelRowStep(s: Setup, i: int, j: int, ops: FloatOps)
    requires s.width > 0 && s.height > 0
    ensures Sub(PixelCentre(s, i + 1, j, ops), PixelCentre(s, i, j, ops))
         == Scale(BasisV(s, ops), -((s.nearPlane.t - s.nearPlane.b) / s.height as real))
  {
    var u, v := BasisU(s, ops), BasisV(s, ops);
    var m := Sub(s.position, Scale(BasisW(s, ops), s.nearDistance));
    var q := Add(Add(m, Scale(u, s.nearPlane.l)), Scale(v, s.nearPlane.t));
    var dv := (s.nearPlane.t - s.nearPlane.b) / s.height as real;
    var a := Scale(u, PixelOffset(s.nearPlane.l, s.nearPlane.r, j, s.width));
    var sv := PixelOffset(s.nearPlane.b, s.nearPlane.t, i, s.height);
    PixelOffsetStep(s.nearPlane.b, s.nearPlane.t, i, s.height);
    OffsetDifference(q, a, Scale(v, sv), a, Scale(v, sv + dv));
    ScaleDifference(v, sv, dv);
  }

  /**
   * Pixel centres form an even grid: one column to the right moves a centre
   * by (r - l) / width along u, and the next row moves it by (t - b) / height
   * against v.
   */
  lemma PixelCentresEvenlySpaced(s: Setup, i: int, j: int, ops: FloatOps)
    requires s.width > 0 && s.height > 0
    ensures Sub(PixelCentre(s, i, j + 1, ops), PixelCentre(s, i, j, ops))
         == Scale(BasisU(s, ops), (s.nearPlane.r - s.nearPlane.l) / s.width as real)
    ensures Sub(PixelCentre(s, i + 1, j, ops), PixelCentre(s, i, j, ops))
         == Scale(BasisV(s, ops), -((s.nearPlane.t - s.nearPlane.b) / s.height as real))
  {
    PixelColumnStep(s, i, j, ops);
    PixelRowStep(s, i, j, ops);
  }

  /** The primary ray of pixel (row i, column j): from the camera, depth 0, no hit yet. */
  function PrimaryRay(s: Setup, i: int, j: int, ops: FloatOps): (r: Ray)
    requires s.width > 0 && s.height > 0
    ensures r.origin == s.position && r.depth == 0 && r.hitRecord == NoHit
  {
    NewRay(s.position, PixelDirection(s, i, j, ops))
  }

  /** The ray buffer `computeTracingRays` fills: slot k holds the primary ray of the pixel stored there. */
  function GeneratedRays(s: Setup, ops: FloatOps): (rays: seq<Ray>)
    requires s.width >= 0 && s.height >= 0
    ensures |rays| == s.width * s.height
  {
    seq(s.width * s.height, k requires 0 <= k < s.width * s.height =>
      ProductPositive(s.width, s.height, k);
      PrimaryRay(s, RowOf(k, s.width, s.height), ColOf(k, s.width), ops))
  }

  /**
   * Pixel (row i, column j) finds its own primary ray at its flat index; every
   * generated ray starts at the camera with depth 0 and no hit.
   */
  lemma GeneratedRaysAt(s: Setup, i: int, j: int, ops: FloatOps)
    requires 0 <= i < s.height && 0 <= j < s.width
    ensures var k := FlatIndex(i, j, s.width, s.height);
            0 <= k < |GeneratedRays(s, ops)| && GeneratedRays(s, ops)[k] == PrimaryRay(s, i, j, ops)
  {
    FlatIndexInverse(i, j, s.width, s.height);
  }

  /** pixel gives the primary ray of every pixel. */
  ghost predicate IsPrimary(pixel: (int, int) -> Ray, s: Setup, ops: FloatOps) {
    forall i, j {:trigger PrimaryRay(s, i, j, ops)} :: 0 <= i < s.height && 0 <= j < s.width ==>
      pixel(i, j) == PrimaryRay(s, i, j, ops)
  }

  /** rays holds, at each pixel's flat index, that pixel's ray. */
  ghost predicate IsFilled(rays: seq<Ray>, s: Setup, pixel: (int, int) -> Ray) {
    |rays| == s.width * s.height
    && forall i, j {:trigger pixel(i, j)} :: 0 <= i < s.height && 0 <= j < s.width ==>
         0 <= FlatIndex(i, j, s.width, s.height) < |rays|
         && rays[FlatIndex(i, j, s.width, s.height)] == pixel(i, j)
  }

  /** Some buffer holds every pixel's primary ray at its flat index. */
  lemma GeneratedExists(s: Setup, ops: FloatOps)
    requires s.width >= 0 && s.height >= 0
    ensures exists pixel, rays :: IsPrimary(pixel, s, ops) && IsFilled(rays, s, pixel)
  {
    var gen := GeneratedRays(s, ops);
    var pixel := (i, j) => if 0 <= i < s.height && 0 <= j < s.width then PrimaryRay(s, i, j, ops) else UnsetRay;
    forall i, j | 0 <= i < s.height && 0 <= j < s.width
      ensures 0 <= FlatIndex(i, j, s.width, s.height) < |gen|
      ensures gen[FlatIndex(i, j, s.width, s.height)] == pixel(i, j)
    {
      GeneratedRaysAt(s, i, j, ops);
    }
    assert IsPrimary(pixel, s, ops);
    assert IsFilled(gen, s, pixel);
  }

  /** A buffer filled with every pixel's primary ray is the generated buffer. */
  lemma GeneratedUnique(rays: seq<Ray>, pixel: (int, int) -> Ray, s: Setup, ops: FloatOps)
    requires s.width >= 0 && s.height >= 0 && IsPrimary(pixel, s, ops) && IsFilled(rays, s, pixel)
    ensures rays == GeneratedRays(s, ops)
  {
    var gen := GeneratedRays(s, ops);
    forall k | 0 <= k < |rays|
      ensures rays[k] == gen[k]
    {
      ProductPositive(s.width, s.height, k);
      FlatIndexOnto(k, s.width, s.height);
      var i, j := RowOf(k, s.width, s.height), ColOf(k, s.width);
      assert rays[FlatIndex(i, j, s.width, s.height)] == pixel(i, j) == PrimaryRay(s, i, j, ops);
      GeneratedRaysAt(s, i, j, ops);
    }
  }

  // ---------------------------------------------------------------------
  // Tracing and the framebuffer

  /** A ray as tracing leaves it in the buffer: its hit record filled in unless it is too deep. */
  function AfterTrace(ray: Ray, spheres: seq<Sphere>, faces: seq<Face>, bg: Background, ops: FloatOps): Ray
    requires ValidPrimitives(bg, spheres, faces)
  {
    if ray.depth > bg.maxRecursionDepth then ray else Closest(ray, spheres, faces, bg, ops)
  }

  function TracedRays(rays: seq<Ray>, spheres: seq<Sphere>, faces: seq<Face>, bg: Background, ops: FloatOps)
    : (traced: seq<Ray>)
    requires ValidPrimitives(bg, spheres, faces)
    ensures |traced| == |rays|
  {
    seq(|rays|, k requires 0 <= k < |rays| => AfterTrace(rays[k], spheres, faces, bg, ops))
  }

  /** Channel c (0 red, 1 green, 2 blue) of an integer colour. */
  function Channel(c: Vec3i, k: int): int {
    if k == 0 then c.x else if k == 1 then c.y else c.z
  }

  /** The clamped colour of one ray. */
  function PixelColor(ray: Ray, spheres: seq<Sphere>, faces: seq<Face>, bg: Background, ops: FloatOps): (c: Vec3i)
    requires ValidPrimitives(bg, spheres, faces)
    ensures IsColorByte(c)
  {
    Clamp(Color(ray, spheres, faces, bg, ops))
  }

  /** The clamped colour of every ray in the buffer. */
  function PixelColors(rays: seq<Ray>, spheres: seq<Sphere>, faces: seq<Face>, bg: Background, ops: FloatOps)
    : (colors: seq<Vec3i>)
    requires ValidPrimitives(bg, spheres, faces)
    ensures |colors| == |rays|
  {
    seq(|rays|, k requires 0 <= k < |rays| => PixelColor(rays[k], spheres, faces, bg, ops))
  }

  /** Three bytes per colour, red, green and blue, each narrowed to a byte. */
  function Bytes(colors: seq<Vec3i>): (data: seq<byte>)
    ensures |data| == 3 * |colors|
  {
    seq(3 * |colors|, b requires 0 <= b < 3 * |colors| => ToByte(Channel(colors[b / 3], b % 3)))
  }

  /** The framebuffer `rayTrace` writes for a buffer of rays. */
  function Framebuffer(rays: seq<Ray>, spheres: seq<Sphere>, faces: seq<Face>, bg: Background, ops: FloatOps)
    : (fb: seq<byte>)
    requires ValidPrimitives(bg, spheres, faces)
    ensures |fb| == 3 * |rays|
  {
    Bytes(PixelColors(rays, spheres, faces, bg, ops))
  }

  /** Byte 3k + c holds channel c of colour k, narrowed. */
  lemma BytesAt(colors: seq<Vec3i>, k: int, c: int)
    requires 0 <= k < |colors| && 0 <= c < 3
    ensures 3 * k + c < |Bytes(colors)| && Bytes(colors)[3 * k + c] == ToByte(Channel(colors[k], c))
  {
    DivModUnique(3 * k + c, 3, k, c);
  }

  /**
   * Bytes 3k, 3k + 1 and 3k + 2 hold the red, green and blue channels of
   * ray k's clamped colour, exactly: clamping keeps them in byte range, so
   * the narrowing store loses nothing.
   */
  lemma FramebufferPixel(rays: seq<Ray>, spheres: seq<Sphere>, faces: seq<Face>, bg: Background, ops: FloatOps,
                         k: int, c: int)
    requires ValidPrimitives(bg, spheres, faces)
    requires 0 <= k < |rays| && 0 <= c < 3
    ensures 3 * k + c < |Framebuffer(rays, spheres, faces, bg, ops)|
    ensures Framebuffer(rays, spheres, faces, bg, ops)[3 * k + c] as int
            == Channel(Clamp(Color(rays[k], spheres, faces, bg, ops)), c)
  {
    var colors := PixelColors(rays, spheres, faces, bg, ops);
    BytesAt(colors, k, c);
    assert colors[k] == PixelColor(rays[k], spheres, faces, bg, ops);
  }

  /** The rays worker t handles among n: t, t + 12, t + 24, ... below n. */
  function Stride(t: int, n: int): seq<int>
    requires t >= 0
    decreases n - t
  {
    if t >= n then [] else [t] + Stride(t + NumThreads, n)
  }

  /** The k-th ray of worker t is ray t + 12k, and the worker has ceil((n - t) / 12) of them. */
  lemma {:induction false} StrideAt(t: int, n: int)
    requires t >= 0
    ensures |Stride(t, n)| == if t >= n then 0 else (n - t + NumThreads - 1) / NumThreads
    ensures forall k :: 0 <= k < |Stride(t, n)| ==> Stride(t, n)[k] == t + NumThreads * k
    decreases n - t
  {
    if t < n {
      StrideAt(t + NumThreads, n);
      var rest := Stride(t + NumThreads, n);
      assert Stride(t, n) == [t] + rest;
      forall k | 0 < k < |Stride(t, n)|
        ensures Stride(t, n)[k] == t + NumThreads * k
      {
        assert Stride(t, n)[k] == rest[k - 1];
      }
    }
  }

  /**
   * The twelve workers partition the rays: ray p (below n) is handled by
   * worker p % 12 as its (p / 12)-th ray, and by no other worker and at no
   * other position.
   */
  lemma StridePartition(n: int, p: int)
    requires 0 <= p < n
    ensures var t := p % NumThreads;
            var k := p / NumThreads;
            0 <= k < |Stride(t, n)| && Stride(t, n)[k] == p
    ensures forall t, k :: 0 <= t < NumThreads && 0 <= k < |Stride(t, n)| && Stride(t, n)[k] == p
              ==> t == p % NumThreads && k == p / NumThreads
  {
    StrideAt(p % NumThreads, n);
    forall t, k | 0 <= t < NumThreads && 0 <= k < |Stride(t, n)| && Stride(t, n)[k] == p
      ensures t == p % NumThreads && k == p / NumThreads
    {
      StrideAt(t, n);
      DivModUnique(p, NumThreads, k, t);
    }
  }

  /** Worker t handles exactly the rays below n that are t modulo 12. */
  lemma StrideMembers(t: int, n: int)
    requires 0 <= t < NumThreads
    ensures forall p :: p in Stride(t, n) ==> 0 <= p < n
    ensures forall p :: 0 <= p < n ==> (p in Stride(t, n) <==> p % NumThreads == t)
  {
    StrideAt(t, n);
    forall p | p in Stride(t, n)
      ensures 0 <= p < n && p % NumThreads == t
    {
      var k :| 0 <= k < |Stride(t, n)| && Stride(t, n)[k] == p;
      DivModUnique(p, NumThreads, k, t);
    }
    forall p | 0 <= p < n && p % NumThreads == t
      ensures p in Stride(t, n)
    {
      StridePartition(n, p);
    }
  }

  /** Every index in ps names one of n rays. */
  predicate InRange(ps: seq<int>, n: int) {
    forall k :: 0 <= k < |ps| ==> 0 <= ps[k] < n
  }

  /** The rays, with those at the indices in ps replaced by their image under f. */
  function TraceAt<T>(rays: seq<T>, ps: seq<int>, f: T -> T): (r: seq<T>)
    requires InRange(ps, |rays|)
    ensures |r| == |rays|
    decreases |ps|
  {
    if ps == [] then rays
    else
      var p := ps[|ps| - 1];
      TraceAt(rays, ps[..|ps| - 1], f)[p := f(rays[p])]
  }

  /** The narrowing store of colour c into pixel p's three bytes. */
  function PaintPixel(data: seq<byte>, p: int, c: Vec3i): (r: seq<byte>)
    requires 0 <= p && 3 * p + 2 < |data|
    ensures |r| == |data|
  {
    data[3 * p := ToByte(c.x)][3 * p + 1 := ToByte(c.y)][3 * p + 2 := ToByte(c.z)]
  }

  /** Painting pixel p changes exactly its three bytes, to the channels of c. */
  lemma PaintPixelAt(data: seq<byte>, p: int, c: Vec3i, b: int)
    requires 0 <= p && 3 * p + 2 < |data| && 0 <= b < |data|
    ensures PaintPixel(data, p, c)[b] == if b / 3 == p then ToByte(Channel(c, b % 3)) else data[b]
  {
    if b / 3 == p {
      assert b == 3 * p + b % 3;
    } else {
      assert b != 3 * p && b != 3 * p + 1 && b != 3 * p + 2;
    }
  }

  /** The bytes, with pixel p painted in colour g(rays[p]) for every index p in ps, in the order listed. */
  function PaintAt<T>(data: seq<byte>, rays: seq<T>, ps: seq<int>, g: T -> Vec3i): (r: seq<byte>)
    requires |data| == 3 * |rays| && InRange(ps, |rays|)
    ensures |r| == |data|
    decreases |ps|
  {
    if ps == [] then data
    else
      var p := ps[|ps| - 1];
      PaintPixel(PaintAt(data, rays, ps[..|ps| - 1], g), p, g(rays[p]))
  }

  /**
   * Handling one more ray p, not yet handled: replacing it in the current
   * rays and painting its pixel with the colour of its current value.
   */
  lemma Snoc<T>(data: seq<byte>, rays: seq<T>, ps: seq<int>, p: int, qs: seq<int>, f: T -> T, g: T -> Vec3i)
    requires |data| == 3 * |rays| && InRange(ps, |rays|) && 0 <= p < |rays| && p !in ps
    requires qs == ps + [p]
    ensures InRange(qs, |rays|)
    ensures var cur := TraceAt(rays, ps, f);
            cur[p := f(cur[p])] == TraceAt(rays, qs, f)
    ensures var cur := TraceAt(rays, ps, f);
            PaintPixel(PaintAt(data, rays, ps, g), p, g(cur[p])) == PaintAt(data, rays, qs, g)
  {
    TraceAtAt(rays, ps, p, f);
    assert qs[..|ps|] == ps;
  }

  /** Worker t's k-th ray is t + 12k, which its first k rays do not include. */
  lemma StrideNext(t: int, n: int, k: int)
    requires 0 <= t < NumThreads && 0 <= k && t + NumThreads * k < n
    ensures var ps := Stride(t, n);
            k < |ps| && ps[..k + 1] == ps[..k] + [t + NumThreads * k]
            && t + NumThreads * k !in ps[..k] && InRange(ps[..k], n)
  {
    var ps := Stride(t, n);
    StrideAt(t, n);
    StrideInRange(t, n);
    PrefixInRange(ps, n, k);
    assert ps[..k + 1] == ps[..k] + [ps[k]];
  }

  /** Worker t handling its k-th ray extends the rays and bytes it has handled by that ray. */
  lemma WorkerStep<T>(data: seq<byte>, rays: seq<T>, t: int, k: int, f: T -> T, g: T -> Vec3i)
    requires 0 <= t < NumThreads && 0 <= k && t + NumThreads * k < |rays| && |data| == 3 * |rays|
    ensures var ps := Stride(t, |rays|);
            k < |ps| && InRange(ps[..k], |rays|) && InRange(ps[..k + 1], |rays|)
    ensures var ps := Stride(t, |rays|);
            var i := t + NumThreads * k;
            var cur := TraceAt(rays, ps[..k], f);
            cur[i := f(cur[i])] == TraceAt(rays, ps[..k + 1], f)
            && PaintPixel(PaintAt(data, rays, ps[..k], g), i, g(cur[i])) == PaintAt(data, rays, ps[..k + 1], g)
  {
    var ps := Stride(t, |rays|);
    StrideNext(t, |rays|, k);
    Snoc(data, rays, ps[..k], t + NumThreads * k, ps[..k + 1], f, g);
  }

  /** Every ray a worker handles exists, and it handles no ray twice. */
  lemma StrideInRange(t: int, n: int)
    requires 0 <= t < NumThreads
    ensures InRange(Stride(t, n), n)
    ensures var ps := Stride(t, n);
            forall a, b :: 0 <= a < b < |ps| ==> ps[a] != ps[b]
  {
    StrideMembers(t, n);
    StrideAt(t, n);
    var ps := Stride(t, n);
    forall j | 0 <= j < |ps|
      ensures 0 <= ps[j] < n
    {
      assert ps[j] in ps;
    }
  }

  lemma PrefixInRange(ps: seq<int>, n: int, k: int)
    requires InRange(ps, n) && 0 <= k <= |ps|
    ensures InRange(ps[..k], n)
  {
    forall j | 0 <= j < k
      ensures 0 <= ps[..k][j] < n
    {
      assert ps[..k][j] == ps[j];
    }
  }

  /** A worker that has passed the last ray has handled all of its rays. */
  lemma StrideEnd(t: int, n: int, k: int)
    requires 0 <= t < NumThreads && 0 <= k <= |Stride(t, n)| && t + NumThreads * k >= n
    ensures Stride(t, n)[..k] == Stride(t, n) && InRange(Stride(t, n), n)
  {
    StrideAt(t, n);
    StrideInRange(t, n);
    var ps := Stride(t, n);
    if k < |ps| {
      assert false;
    }
  }

  /** A ray is replaced exactly when its index is listed. */
  lemma {:induction false} TraceAtAt<T>(rays: seq<T>, ps: seq<int>, p: int, f: T -> T)
    requires InRange(ps, |rays|) && 0 <= p < |rays|
    ensures TraceAt(rays, ps, f)[p] == if p in ps then f(rays[p]) else rays[p]
    decreases |ps|
  {
    if ps != [] {
      var init := ps[..|ps| - 1];
      TraceAtAt(rays, init, p, f);
      assert ps == init + [ps[|ps| - 1]];
    }
  }

  /** A byte is painted exactly when the index of its pixel is listed. */
  lemma {:induction false} PaintAtAt<T>(data: seq<byte>, rays: seq<T>, ps: seq<int>, b: int, g: T -> Vec3i)
    requires |data| == 3 * |rays| && InRange(ps, |rays|) && 0 <= b < |data|
    ensures PaintAt(data, rays, ps, g)[b] == if b / 3 in ps then ToByte(Channel(g(rays[b / 3]), b % 3)) else data[b]
    decreases |ps|
  {
    if ps != [] {
      var init := ps[..|ps| - 1];
      var p := ps[|ps| - 1];
      PaintAtAt(data, rays, init, b, g);
      assert ps == init + [p];
      PaintPixelAt(PaintAt(data, rays, init, g), p, g(rays[p]), b);
    }
  }

  /**
   * Handling the rays at ps and then, on the result, those at qs (none of
   * them at ps) is handling the rays at ps + qs.
   */
  lemma {:induction false} Append<T>(data: seq<byte>, rays: seq<T>, ps: seq<int>, qs: seq<int>, f: T -> T, g: T -> Vec3i)
    requires |data| == 3 * |rays| && InRange(ps, |rays|) && InRange(qs, |rays|)
    requires forall k :: 0 <= k < |qs| ==> qs[k] !in ps
    ensures InRange(ps + qs, |rays|)
    ensures TraceAt(TraceAt(rays, ps, f), qs, f) == TraceAt(rays, ps + qs, f)
    ensures PaintAt(PaintAt(data, rays, ps, g), TraceAt(rays, ps, f), qs, g) == PaintAt(data, rays, ps + qs, g)
    decreases |qs|
  {
    if qs == [] {
      assert ps + qs == ps;
    } else {
      var init := qs[..|qs| - 1];
      var q := qs[|qs| - 1];
      assert q !in ps;
      Append(data, rays, ps, init, f, g);
      TraceAtAt(rays, ps, q, f);
      var cur := TraceAt(rays, ps, f);
      assert cur[q] == rays[q];
      assert (ps + qs)[..|ps + qs| - 1] == ps + init;
      assert (ps + qs)[|ps + qs| - 1] == q;
      calc {
        TraceAt(cur, qs, f);
        TraceAt(cur, init, f)[q := f(cur[q])];
        TraceAt(rays, ps + init, f)[q := f(rays[q])];
        TraceAt(rays, ps + qs, f);
      }
      calc {
        PaintAt(PaintAt(data, rays, ps, g), cur, qs, g);
        PaintPixel(PaintAt(PaintAt(data, rays, ps, g), cur, init, g), q, g(cur[q]));
        PaintPixel(PaintAt(data, rays, ps + init, g), q, g(rays[q]));
        PaintAt(data, rays, ps + qs, g);
      }
    }
  }

  /** Once every index is listed, every ray is replaced and every pixel painted. */
  lemma Covered<T>(data: seq<byte>, rays: seq<T>, ps: seq<int>, f: T -> T, g: T -> Vec3i)
    requires |data| == 3 * |rays| && InRange(ps, |rays|)
    requires forall p :: 0 <= p < |rays| ==> p in ps
    ensures forall p :: 0 <= p < |rays| ==> TraceAt(rays, ps, f)[p] == f(rays[p])
    ensures forall b :: 0 <= b < |data| ==> PaintAt(data, rays, ps, g)[b] == ToByte(Channel(g(rays[b / 3]), b % 3))
  {
    forall p | 0 <= p < |rays|
      ensures TraceAt(rays, ps, f)[p] == f(rays[p])
    {
      TraceAtAt(rays, ps, p, f);
    }
    forall b | 0 <= b < |data|
      ensures PaintAt(data, rays, ps, g)[b] == ToByte(Channel(g(rays[b / 3]), b % 3))
    {
      PaintAtAt(data, rays, ps, b, g);
    }
  }

  /** all lists, once each, exactly the rays below n handled by workers 0..t-1. */
  predicate HandledBelow(all: seq<int>, t: int, n: int) {
    InRange(all, n)
    && (forall k :: 0 <= k < |all| ==> all[k] % NumThreads < t)
    && (forall p :: 0 <= p < n && p % NumThreads < t ==> p in all)
  }

  /** Worker t's rays are new, and after them workers 0..t have handled theirs. */
  lemma Extend(all: seq<int>, done: seq<int>, t: int, n: int)
    requires 0 <= t < NumThreads && HandledBelow(all, t, n) && done == Stride(t, n)
    ensures forall k :: 0 <= k < |done| ==> done[k] !in all
    ensures HandledBelow(all + done, t + 1, n)
  {
    StrideMembers(t, n);
    forall k | 0 <= k < |done|
      ensures done[k] !in all && 0 <= done[k] < n && done[k] % NumThreads == t
    {
      assert done[k] in done;
    }
    forall p | 0 <= p < n && p % NumThreads < t + 1
      ensures p in all + done
    {
      if p % NumThreads == t {
        assert p in done;
      }
    }
  }

  /**
   * Worker t's rays are new; after them, workers 0..t have handled theirs,
   * and the rays and bytes are those of handling all of them in turn.
   */
  lemma WorkerJoins<T>(data: seq<byte>, rays: seq<T>, all: seq<int>, done: seq<int>, t: int, f: T -> T, g: T -> Vec3i)
    requires |data| == 3 * |rays| && 0 <= t < NumThreads && HandledBelow(all, t, |rays|)
    requires done == Stride(t, |rays|)
    ensures HandledBelow(all + done, t + 1, |rays|) && InRange(done, |rays|)
    ensures TraceAt(TraceAt(rays, all, f), done, f) == TraceAt(rays, all + done, f)
    ensures PaintAt(PaintAt(data, rays, all, g), TraceAt(rays, all, f), done, g) == PaintAt(data, rays, all + done, g)
  {
    Extend(all, done, t, |rays|);
    StrideInRange(t, |rays|);
    Append(data, rays, all, done, f, g);
  }

  /** Once every ray is handled, the buffers hold the traced rays and the framebuffer. */
  lemma Finish(data: seq<byte>, rays: seq<Ray>, ps: seq<int>, f: Ray -> Ray, g: Ray -> Vec3i,
               spheres: seq<Sphere>, faces: seq<Face>, bg: Background, ops: FloatOps)
    requires ValidPrimitives(bg, spheres, faces)
    requires IsTracer(f, spheres, faces, bg, ops) && IsShader(g, spheres, faces, bg, ops)
    requires |data| == 3 * |rays| && HandledBelow(ps, NumThreads, |rays|)
    ensures TraceAt(rays, ps, f) == TracedRays(rays, spheres, faces, bg, ops)
    ensures PaintAt(data, rays, ps, g) == Framebuffer(rays, spheres, faces, bg, ops)
  {
    Covered(data, rays, ps, f, g);
    var colors := PixelColors(rays, spheres, faces, bg, ops);
    forall b | 0 <= b < |data|
      ensures PaintAt(data, rays, ps, g)[b] == Framebuffer(rays, spheres, faces, bg, ops)[b]
    {
      assert colors[b / 3] == PixelColor(rays[b / 3], spheres, faces, bg, ops);
    }
    forall p | 0 <= p < |rays|
      ensures TraceAt(rays, ps, f)[p] == TracedRays(rays, spheres, faces, bg, ops)[p]
    {
      assert TracedRays(rays, spheres, faces, bg, ops)[p] == AfterTrace(rays[p], spheres, faces, bg, ops);
    }
  }

  /** f traces every ray. */
  ghost predicate IsTracer(f: Ray -> Ray, spheres: seq<Sphere>, faces: seq<Face>, bg: Background, ops: FloatOps)
    requires ValidPrimitives(bg, spheres, faces)
  {
    forall ray {:trigger AfterTrace(ray, spheres, faces, bg, ops)} ::
      f(ray) == AfterTrace(ray, spheres, faces, bg, ops)
  }

  /** g gives the clamped colour of every ray. */
  ghost predicate IsShader(g: Ray -> Vec3i, spheres: seq<Sphere>, faces: seq<Face>, bg: Background, ops: FloatOps)
    requires ValidPrimitives(bg, spheres, faces)
  {
    forall ray {:trigger PixelColor(ray, spheres, faces, bg, ops)} ::
      g(ray) == PixelColor(ray, spheres, faces, bg, ops)
  }

  lemma TracerExists(spheres: seq<Sphere>, faces: seq<Face>, bg: Background, ops: FloatOps)
    requires ValidPrimitives(bg, spheres, faces)
    ensures exists f :: IsTracer(f, spheres, faces, bg, ops)
    ensures exists g :: IsShader(g, spheres, faces, bg, ops)
  {
    var f := ray => AfterTrace(ray, spheres, faces, bg, ops);
    var g := ray => PixelColor(ray, spheres, faces, bg, ops);
    assert IsTracer(f, spheres, faces, bg, ops);
    assert IsShader(g, spheres, faces, bg, ops);
  }

  class Camera {
    var position: Vec3
    var gaze: Vec3
    var up: Vec3
    /** Filled positionally as (l, r, t, b); see `NearPlanePositional`. */
    var nearPlane: Vec4f
    var nearDistance: real
    var imageWidth: int
    var imageHeight: int
    var imageName: string
    var imageData: array?<byte>
    var tracingRays: array?<Ray>

    /** Both buffers allocated: one ray per pixel, three bytes per ray. */
    ghost predicate Valid()
      reads this
    {
      && 0 <= imageWidth && 0 <= imageHeight
      && imageData != null && tracingRays != null
      && tracingRays.Length == imageWidth * imageHeight
      && imageData.Length == 3 * tracingRays.Length
    }

    function Settings(): Setup
      reads this
    {
      Setup(position, gaze, up, nearPlane, nearDistance, imageWidth, imageHeight)
    }

    /** `Camera()`: the default settings, no buffers. */
    constructor Default()
      ensures position == Zero && gaze == Vec3(0.0, 0.0, -1.0) && up == Vec3(0.0, 1.0, 0.0)
      ensures nearPlane == Vec4f(-1.0, 1.0, -1.0, 1.0) && nearDistance == 1.0
      ensures imageWidth == 640 && imageHeight == 480 && imageName == "out"
      ensures imageData == null && tracingRays == null
    {
      position := Zero;
      gaze := Vec3(0.0, 0.0, -1.0);
      up := Vec3(0.0, 1.0, 0.0);
      nearPlane := Vec4f(-1.0, 1.0, -1.0, 1.0);
      nearDistance := 1.0;
      imageWidth := 640;
      imageHeight := 480;
      imageName := "out";
      imageData := null;
      tracingRays := null;
    }

    /** The full constructor: stores the settings and allocates both buffers. */
    constructor (position: Vec3, gaze: Vec3, up: Vec3, nearPlane: Vec4f, nearDistance: real,
                 imageWidth: int, imageHeight: int, imageName: string)
      requires 0 <= imageWidth && 0 <= imageHeight
      ensures Valid() && fresh(imageData) && fresh(tracingRays)
      ensures Settings() == Setup(position, gaze, up, nearPlane, nearDistance, imageWidth, imageHeight)
      ensures this.imageName == imageName
      ensures forall k :: 0 <= k < tracingRays.Length ==> tracingRays[k] == UnsetRay
    {
      this.position := position;
      this.gaze := gaze;
      this.up := up;
      this.nearPlane := nearPlane;
      this.nearDistance := nearDistance;
      this.imageWidth := imageWidth;
      this.imageHeight := imageHeight;
      this.imageName := imageName;
      this.imageData := new byte[imageWidth * imageHeight * 3];
      this.tracingRays := new Ray[imageWidth * imageHeight](_ => UnsetRay);
    }

    /** `computeTracingRays`: fills the ray buffer with the primary ray of every pixel. */
    method ComputeTracingRays(ops: FloatOps)
      requires Valid()
      modifies tracingRays
      ensures tracingRays[..] == GeneratedRays(Settings(), ops)
    {
      var v := ops.normalize(up);
      var w := ops.normalize(Vec3(-gaze.x, -gaze.y, -gaze.z));
      var u := ops.normalize(Cross(v, w));
      ghost var s := Settings();
      GeneratedExists(s, ops);
      ghost var pixel, rays :| IsPrimary(pixel, s, ops) && IsFilled(rays, s, pixel);
      ghost var n := tracingRays.Length;
      assert |rays| == n;
      TimesIsProduct(imageHeight, imageWidth);
      // rows 0 .. i-1 are done; they occupy the buffer from `top` to the end
      ghost var top := n;
      var i := 0;
      while i < imageHeight
        invariant 0 <= i <= imageHeight
        invariant top == Times(imageHeight - i, imageWidth) <= n
        invariant forall k :: top <= k < n ==> tracingRays[k] == rays[k]
      {
        // row i occupies the slots from `base` to `top`
        ghost var base := Times(imageHeight - i - 1, imageWidth);
        TimesIsProduct(imageHeight - i - 1, imageWidth);
        var j := 0;
        while j < imageWidth
          invariant 0 <= j <= imageWidth
          invariant forall k :: top <= k < n ==> tracingRays[k] == rays[k]
          invariant forall k :: base <= k < base + j ==> tracingRays[k] == rays[k]
        {
          var ray := PixelRay(i, j, v, w, u, ops, pixel);
          tracingRays[(imageHeight - i - 1) * imageWidth + j] := ray;
          j := j + 1;
        }
        top := base;
        i := i + 1;
      }
      assert tracingRays[..] == rays;
      GeneratedUnique(rays, pixel, s, ops);
    }

    /** The primary ray of pixel (i, j), built from the camera basis u, v, w. */
    method PixelRay(i: int, j: int, v: Vec3, w: Vec3, u: Vec3, ops: FloatOps, ghost pixel: (int, int) -> Ray)
      returns (ray: Ray)
      requires 0 <= i < imageHeight && 0 <= j < imageWidth && IsPrimary(pixel, Settings(), ops)
      requires v == ops.normalize(up) && w == ops.normalize(Vec3(-gaze.x, -gaze.y, -gaze.z))
      requires u == ops.normalize(Cross(v, w))
      ensures ray == pixel(i, j)
    {
      var m := Sub(position, Scale(w, nearDistance));
      var q := Add(Add(m, Scale(u, nearPlane.l)), Scale(v, nearPlane.t));
      var su := PixelOffset(nearPlane.l, nearPlane.r, j, imageWidth);
      var sv := PixelOffset(nearPlane.b, nearPlane.t, i, imageHeight);
      var p := Sub(Add(q, Scale(u, su)), Scale(v, sv));
      var d := ops.normalize(Sub(p, position));
      ray := NewRay(position, d);
      assert ray == PrimaryRay(Settings(), i, j, ops);
    }

    /**
     * One step of a worker: ray i's colour is computed, clamped and stored as
     * pixel i's three bytes, and the ray keeps the hit record the search gave it.
     */
    method TraceRay(i: int, spheres: seq<Sphere>, faces: seq<Face>, bg: Background, ops: FloatOps,
                    ghost f: Ray -> Ray, ghost g: Ray -> Vec3i)
      requires Valid() && ValidPrimitives(bg, spheres, faces) && 0 <= i < tracingRays.Length
      requires IsTracer(f, spheres, faces, bg, ops) && IsShader(g, spheres, faces, bg, ops)
      modifies imageData, tracingRays
      ensures tracingRays[..] == old(tracingRays[..])[i := f(old(tracingRays[i]))]
      ensures imageData[..] == PaintPixel(old(imageData[..]), i, g(old(tracingRays[i])))
    {
      var color, after := ComputeColor(tracingRays[i], spheres, faces, bg, ops);
      assert after == AfterTrace(old(tracingRays[i]), spheres, faces, bg, ops);
      tracingRays[i] := after;
      var colorRay := Clamp(color);
      assert colorRay == PixelColor(old(tracingRays[i]), spheres, faces, bg, ops);
      imageData[i * 3] := ToByte(colorRay.x);
      imageData[i * 3 + 1] := ToByte(colorRay.y);
      imageData[i * 3 + 2] := ToByte(colorRay.z);
    }

    /**
     * The body of worker t of `rayTrace`: rays t, t + 12, ... in turn get
     * their colour computed, clamped and stored as three bytes, and keep the
     * hit record the search gave them. Nothing else changes. `done` lists the
     * rays handled, in order.
     */
    method TraceWorker(t: int, spheres: seq<Sphere>, faces: seq<Face>, bg: Background, ops: FloatOps,
                       ghost f: Ray -> Ray, ghost g: Ray -> Vec3i)
      returns (ghost done: seq<int>)
      requires Valid() && ValidPrimitives(bg, spheres, faces) && 0 <= t < NumThreads
      requires IsTracer(f, spheres, faces, bg, ops) && IsShader(g, spheres, faces, bg, ops)
      modifies imageData, tracingRays
      ensures done == Stride(t, tracingRays.Length) && InRange(done, tracingRays.Length)
      ensures tracingRays[..] == TraceAt(old(tracingRays[..]), done, f)
      ensures imageData[..] == PaintAt(old(imageData[..]), old(tracingRays[..]), done, g)
    {
      ghost var n := tracingRays.Length;
      ghost var rays := tracingRays[..];
      done := Stride(t, n);
      var numOfRays := imageHeight * imageWidth;
      assert numOfRays == n;
      var i := t;
      ghost var k := 0;
      while i < numOfRays
        invariant 0 <= k <= |done| && i == t + NumThreads * k && numOfRays == n
        invariant InRange(done[..k], n)
        invariant tracingRays[..] == TraceAt(rays, done[..k], f)
        invariant imageData[..] == PaintAt(old(imageData[..]), rays, done[..k], g)
        decreases numOfRays - i
      {
        WorkerStep(old(imageData[..]), rays, t, k, f, g);
        TraceRay(i, spheres, faces, bg, ops, f, g);
        i := i + NumThreads;
        k := k + 1;
      }
      StrideEnd(t, n, k);
    }

    /**
     * `rayTrace`: workers 0..11, run here one after another (they touch
     * disjoint rays and bytes). Afterwards the byte buffer is the framebuffer
     * of the rays as they were, and every ray keeps the hit record the search
     * gave it.
     */
    method RayTrace(spheres: seq<Sphere>, faces: seq<Face>, bg: Background, ops: FloatOps)
      requires Valid() && ValidPrimitives(bg, spheres, faces)
      modifies imageData, tracingRays
      ensures imageData[..] == Framebuffer(old(tracingRays[..]), spheres, faces, bg, ops)
      ensures tracingRays[..] == TracedRays(old(tracingRays[..]), spheres, faces, bg, ops)
    {
      ghost var rays := tracingRays[..];
      ghost var data := imageData[..];
      ghost var n := tracingRays.Length;
      TracerExists(spheres, faces, bg, ops);
      ghost var f :| IsTracer(f, spheres, faces, bg, ops);
      ghost var g :| IsShader(g, spheres, faces, bg, ops);
      // the rays the workers so far have handled, worker by worker
      ghost var all: seq<int> := [];
      var t := 0;
      while t < NumThreads
        invariant 0 <= t <= NumThreads && HandledBelow(all, t, n)
        invariant tracingRays[..] == TraceAt(rays, all, f)
        invariant imageData[..] == PaintAt(data, rays, all, g)
      {
        ghost var done := TraceWorker(t, spheres, faces, bg, ops, f, g);
        WorkerJoins(data, rays, all, done, t, f, g);
        all := all + done;
        t := t + 1;
      }
      Finish(data, rays, all, f, g, spheres, faces, bg, ops);
    }
  }
}
