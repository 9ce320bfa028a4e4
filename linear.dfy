/**
 * Vectors and 4x4 matrices over the reals, standing for the `SIMD3<Float>`,
 * `SIMD4<Float>` and `simd_float4x4` values of the source. Floating-point
 * rounding is not modelled.
 */
module Linear {

  datatype Vec3 = Vec3(x: real, y: real, z: real)

  datatype Vec4 = Vec4(x: real, y: real, z: real, w: real)

  /** A 4x4 matrix stored by columns, as `simd_float4x4` is. */
  datatype Matrix4 = Matrix4(c0: Vec4, c1: Vec4, c2: Vec4, c3: Vec4)

  const Identity: Matrix4 :=
    Matrix4(Vec4(1.0, 0.0, 0.0, 0.0), Vec4(0.0, 1.0, 0.0, 0.0),
            Vec4(0.0, 0.0, 1.0, 0.0), Vec4(0.0, 0.0, 0.0, 1.0))

  function Add(p: Vec3, q: Vec3): Vec3 { Vec3(p.x + q.x, p.y + q.y, p.z + q.z) }

  function Sub(p: Vec3, q: Vec3): Vec3 { Vec3(p.x - q.x, p.y - q.y, p.z - q.z) }

  function Scale(k: real, p: Vec3): Vec3 { Vec3(k * p.x, k * p.y, k * p.z) }

  function Dot(p: Vec3, q: Vec3): real { p.x * q.x + p.y * q.y + p.z * q.z }

  /** The squared Euclidean distance between two points. */
  function SqDist(p: Vec3, q: Vec3): real { Dot(Sub(p, q), Sub(p, q)) }

  /**
   * `simd_distance`: the square root of the squared distance. The square
   * root is a parameter of the model (it is a floating-point library call).
   */
  function Distance(p: Vec3, q: Vec3, sqrt: real -> real): real { sqrt(SqDist(p, q)) }

  /** `sqrt` returns the non-negative square root of `x`. */
  predicate IsSqrtAt(sqrt: real -> real, x: real)
  {
    sqrt(x) >= 0.0 && sqrt(x) * sqrt(x) == x
  }

  /**
   * The floating-point library functions the meshes and layouts call,
   * taken as parameters: `sin`, `cos`, `acos`, `sqrt` and the constant π.
   */
  datatype Trig = Trig(sin: real -> real, cos: real -> real, acos: real -> real,
                       sqrt: real -> real, pi: real)

  /** `acos` inverts `cos` on [-1, 1]. */
  ghost predicate CosInvertsAcos(trig: Trig)
  {
    forall c :: -1.0 <= c <= 1.0 ==> trig.cos(trig.acos(c)) == c
  }

  /** `sin² + cos² = 1` at every angle. */
  ghost predicate Pythagorean(trig: Trig)
  {
    forall a :: trig.sin(a) * trig.sin(a) + trig.cos(a) * trig.cos(a) == 1.0
  }

  // ---------------------------------------------------------------------
  // Real arithmetic the solver needs spelled out.

  lemma MulNonneg(a: real, b: real)
    requires a >= 0.0 && b >= 0.0
    ensures a * b >= 0.0
  {
  }

  lemma MulPos(a: real, b: real)
    requires a > 0.0 && b > 0.0
    ensures a * b > 0.0
  {
  }

  lemma SquareNonneg(a: real)
    ensures a * a >= 0.0
  {
    if a < 0.0 {
      MulNonneg(-a, -a);
    } else {
      MulNonneg(a, a);
    }
  }

  lemma SquareLess(c: real, r: real)
    requires 0.0 <= r < c
    ensures r * r < c * c
  {
    var d := c - r;
    MulPos(c, d);
    MulNonneg(r, d);
    assert c * d + r * d == c * c - r * r;
  }

  /** A number whose square is at most `r * r` lies in [-r, r]. */
  lemma SquareBound(c: real, r: real)
    requires r >= 0.0 && c * c <= r * r
    ensures -r <= c <= r
  {
    if c > r {
      SquareLess(c, r);
    } else if c < -r {
      assert (-c) * (-c) == c * c;
      SquareLess(-c, r);
    }
  }

  /** A point at distance `r` from the origin lies in the cube [-r, r]³. */
  lemma InCube(p: Vec3, r: real)
    requires r >= 0.0 && Dot(p, p) == r * r
    ensures -r <= p.x <= r && -r <= p.y <= r && -r <= p.z <= r
  {
    SquareNonneg(p.x);
    SquareNonneg(p.y);
    SquareNonneg(p.z);
    SquareBound(p.x, r);
    SquareBound(p.y, r);
    SquareBound(p.z, r);
  }

  lemma ScaleByOne(a: real, one: real)
    requires one == 1.0
    ensures a * one == a
  {
  }

  /**
   * The point at polar sine and cosine (s, c) and azimuth sine and cosine
   * (sp, cp), scaled by `r`, lies at distance `r` from the origin.
   */
  lemma OnSphere(r: real, s: real, c: real, sp: real, cp: real)
    requires s * s + c * c == 1.0 && sp * sp + cp * cp == 1.0
    ensures Dot(Vec3(r * s * cp, r * s * sp, r * c), Vec3(r * s * cp, r * s * sp, r * c)) == r * r
  {
    calc {
      Dot(Vec3(r * s * cp, r * s * sp, r * c), Vec3(r * s * cp, r * s * sp, r * c));
      (r * r) * ((s * s) * (sp * sp + cp * cp) + c * c);
      { ScaleByOne(s * s, sp * sp + cp * cp); }
      (r * r) * (s * s + c * c);
      { ScaleByOne(r * r, s * s + c * c); }
      r * r;
    }
  }
}
