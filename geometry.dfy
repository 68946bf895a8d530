/**
 * Points in 3-space and the numeric primitives of the layout engine:
 * distance, the sphere-overlap test, spherical-to-Cartesian conversion,
 * normalisation and the pole-avoiding clamp on the polar angle.
 *
 * JavaScript's Math.sqrt, Math.pow, Math.sin and Math.cos are supplied by
 * the caller as a `Numerics` value; nothing here assumes anything about
 * them except where a lemma says so in its `requires`.
 */
module Geometry {

  datatype Vec3 = Vec3(x: real, y: real, z: real) {
    function Add(o: Vec3): Vec3 { Vec3(x + o.x, y + o.y, z + o.z) }
    function Sub(o: Vec3): Vec3 { Vec3(x - o.x, y - o.y, z - o.z) }
    function Scale(s: real): Vec3 { Vec3(x * s, y * s, z * s) }
    function LengthSq(): real { x * x + y * y + z * z }
  }

  /** The floating-point library functions the engine calls. */
  datatype Numerics = Numerics(sqrt: real -> real, pow: (real, real) -> real, sin: real -> real, cos: real -> real)

  /** Math.pow(x, 2) does not depend on the sign of x (true of IEEE pow for an even exponent). */
  ghost predicate EvenSquare(num: Numerics)
  {
    forall a: real, b: real :: a == -b ==> num.pow(a, 2.0) == num.pow(b, 2.0)
  }

  /** Math.PI, as the decimal literal JavaScript prints for it. */
  const Pi: real := 3.141592653589793

  /** The default `minGap` of checkSphereOverlap. */
  const DefaultMinGap: real := 0.5

  /** The polar-angle window every candidate is clamped into. */
  const PhiMin: real := 0.1
  const PhiMax: real := Pi - 0.1

  function Min(a: real, b: real): real { if a <= b then a else b }
  function Max(a: real, b: real): real { if a >= b then a else b }

  lemma PositiveProduct(a: real, b: real)
    requires a > 0.0 && b > 0.0
    ensures a * b > 0.0
  {
  }

  lemma {:induction false} SquareFacts(a: real)
    ensures a * a >= 0.0
    ensures a != 0.0 ==> a * a > 0.0
  {
    if a < 0.0 {
      PositiveProduct(-a, -a);
      assert a * a == (-a) * (-a);
    } else if a > 0.0 {
      PositiveProduct(a, a);
    }
  }

  /** The sum under the square root of calculateDistance: Math.pow(difference, 2) per axis. */
  function DistSq(num: Numerics, p: Vec3, q: Vec3): real
  {
    num.pow(p.x - q.x, 2.0) + num.pow(p.y - q.y, 2.0) + num.pow(p.z - q.z, 2.0)
  }

  /** Math.pow is exact at the three differences of p and q, and Math.sqrt at their sum. */
  predicate ExactAt(num: Numerics, p: Vec3, q: Vec3)
  {
    && num.pow(p.x - q.x, 2.0) == (p.x - q.x) * (p.x - q.x)
    && num.pow(p.y - q.y, 2.0) == (p.y - q.y) * (p.y - q.y)
    && num.pow(p.z - q.z, 2.0) == (p.z - q.z) * (p.z - q.z)
    && num.sqrt(DistSq(num, p, q)) >= 0.0
    && num.sqrt(DistSq(num, p, q)) * num.sqrt(DistSq(num, p, q)) == DistSq(num, p, q)
  }

  lemma {:induction false} DistSqSymmetric(num: Numerics, p: Vec3, q: Vec3)
    requires EvenSquare(num)
    ensures DistSq(num, p, q) == DistSq(num, q, p)
  {
    assert num.pow(p.x - q.x, 2.0) == num.pow(q.x - p.x, 2.0);
    assert num.pow(p.y - q.y, 2.0) == num.pow(q.y - p.y, 2.0);
    assert num.pow(p.z - q.z, 2.0) == num.pow(q.z - p.z, 2.0);
  }

  /** calculateDistance: the square root of the squared distance. */
  function Distance(num: Numerics, p: Vec3, q: Vec3): real
  {
    num.sqrt(DistSq(num, p, q))
  }

  /** The distance does not depend on the order of its arguments. */
  lemma {:induction false} DistanceSymmetric(num: Numerics, p: Vec3, q: Vec3)
    requires EvenSquare(num)
    ensures Distance(num, p, q) == Distance(num, q, p)
  {
    DistSqSymmetric(num, p, q);
  }

  lemma {:induction false} LessIffSquareLess(d: real, b: real)
    requires d >= 0.0
    ensures d < b <==> (b > 0.0 && d * d < b * b)
  {
    var dd, db, bb := d * d, d * b, b * b;
    if d < b {
      assert dd <= db;
      assert db < bb;
    } else if b > 0.0 {
      assert bb <= db;
      assert db <= dd;
    }
  }

  /**
   * Where the library is exact, "closer than b" means what it means
   * geometrically: b is positive and the squared Euclidean distance is
   * below b squared.
   */
  lemma {:induction false} DistanceBelowIffSquared(num: Numerics, p: Vec3, q: Vec3, b: real)
    requires ExactAt(num, p, q)
    ensures Distance(num, p, q) < b <==> (b > 0.0 && p.Sub(q).LengthSq() < b * b)
  {
    LessIffSquareLess(Distance(num, p, q), b);
  }

  /** checkSphereOverlap: two spheres plus a gap overlap when their centres are closer than the radii and gap together. */
  function CheckSphereOverlap(num: Numerics, p1: Vec3, r1: real, p2: Vec3, r2: real, minGap: real := DefaultMinGap): bool
  {
    Distance(num, p1, p2) < r1 + r2 + minGap
  }

  /** The overlap test is symmetric in its two spheres. */
  lemma {:induction false} OverlapSymmetric(num: Numerics, p1: Vec3, r1: real, p2: Vec3, r2: real, minGap: real)
    requires EvenSquare(num)
    ensures CheckSphereOverlap(num, p1, r1, p2, r2, minGap) == CheckSphereOverlap(num, p2, r2, p1, r1, minGap)
  {
    DistanceSymmetric(num, p1, p2);
  }

  /**
   * Where the library is exact, two spheres overlap (with the given gap)
   * exactly when the squared centre distance is below the square of
   * r1 + r2 + minGap, that sum being positive.
   */
  lemma {:induction false} OverlapMeaning(num: Numerics, p1: Vec3, r1: real, p2: Vec3, r2: real, minGap: real)
    requires ExactAt(num, p1, p2)
    ensures CheckSphereOverlap(num, p1, r1, p2, r2, minGap)
        <==> (r1 + r2 + minGap > 0.0 && p1.Sub(p2).LengthSq() < (r1 + r2 + minGap) * (r1 + r2 + minGap))
  {
    DistanceBelowIffSquared(num, p1, p2, r1 + r2 + minGap);
  }

  /** Spherical (azimuth theta, polar angle phi) to Cartesian, with y the polar axis, scaled by radius. */
  function SphericalToCartesian(num: Numerics, theta: real, phi: real, radius: real): Vec3
  {
    var x := num.sin(phi) * num.cos(theta);
    var y := num.cos(phi);
    var z := num.sin(phi) * num.sin(theta);
    Vec3(x * radius, y * radius, z * radius)
  }

  /** With exact sine and cosine, the converted point lies on the sphere of the given radius. */
  lemma {:induction false} SphericalOnSphere(num: Numerics, theta: real, phi: real, radius: real)
    requires num.sin(theta) * num.sin(theta) + num.cos(theta) * num.cos(theta) == 1.0
    requires num.sin(phi) * num.sin(phi) + num.cos(phi) * num.cos(phi) == 1.0
    ensures SphericalToCartesian(num, theta, phi, radius).LengthSq() == radius * radius
  {
    var sp, cp, st, ct := num.sin(phi), num.cos(phi), num.sin(theta), num.cos(theta);
    var v := SphericalToCartesian(num, theta, phi, radius);
    var r2 := radius * radius;
    assert v.x * v.x == (sp * sp) * (ct * ct) * r2;
    assert v.y * v.y == (cp * cp) * r2;
    assert v.z * v.z == (sp * sp) * (st * st) * r2;
    calc {
      v.LengthSq();
      (sp * sp) * (ct * ct) * r2 + (cp * cp) * r2 + (sp * sp) * (st * st) * r2;
      ((sp * sp) * (st * st + ct * ct) + cp * cp) * r2;
      (sp * sp + cp * cp) * r2;
      r2;
    }
  }

  /** THREE.Vector3.normalize: divide by the length, or by 1 when the length is zero. */
  function Normalize(num: Numerics, v: Vec3): Vec3
  {
    var len := num.sqrt(v.LengthSq());
    if len == 0.0 then v else v.Scale(1.0 / len)
  }

  /** With an exact square root, normalising a non-zero vector gives a unit vector. */
  lemma {:induction false} NormalizeUnit(num: Numerics, v: Vec3)
    requires v.LengthSq() > 0.0
    requires num.sqrt(v.LengthSq()) * num.sqrt(v.LengthSq()) == v.LengthSq()
    ensures Normalize(num, v).LengthSq() == 1.0
  {
    var len := num.sqrt(v.LengthSq());
    assert len != 0.0;
    var inv := 1.0 / len;
    assert inv * inv * (len * len) == 1.0 by {
      assert inv * len == 1.0;
      assert inv * inv * (len * len) == (inv * len) * (inv * len);
    }
    calc {
      Normalize(num, v).LengthSq();
      (v.x * inv) * (v.x * inv) + (v.y * inv) * (v.y * inv) + (v.z * inv) * (v.z * inv);
      (v.x * v.x + v.y * v.y + v.z * v.z) * (inv * inv);
      (len * len) * (inv * inv);
      1.0;
    }
  }

  /**
   * Math.max(0.1, Math.min(Math.PI - 0.1, phi)): keeps a polar angle away
   * from both poles, leaving angles already inside the window alone.
   */
  function ClampPhi(phi: real): (r: real)
    ensures PhiMin <= r <= PhiMax
    ensures PhiMin <= phi <= PhiMax ==> r == phi
    ensures phi < PhiMin ==> r == PhiMin
    ensures phi > PhiMax ==> r == PhiMax
  {
    Max(PhiMin, Min(PhiMax, phi))
  }
}
