/** Vectors and quaternions over the reals: the value types the rigid-transform
    algebra is built on. The course's vector and quaternion headers are not part
    of this model; the operations below are the standard ones they provide
    (component-wise vector arithmetic, the Hamilton product, conjugate, inverse
    as conjugate over squared norm, and rotation of a vector by the sandwich
    q * (0, v) * inv(q)). Doubles are idealised as exact reals. */
module Quaternions {

  datatype Vec3 = Vec3(x: real, y: real, z: real)

  /** Homogeneous 4-vector: (x, y, z) with weight w (1 for points, 0 for directions). */
  datatype Vec4 = Vec4(x: real, y: real, z: real, w: real)

  /** A quaternion w + x i + y j + z k. */
  datatype Quat = Quat(w: real, x: real, y: real, z: real)

  const Zero3: Vec3 := Vec3(0.0, 0.0, 0.0)
  const QIdentity: Quat := Quat(1.0, 0.0, 0.0, 0.0)

  function Add(u: Vec3, v: Vec3): Vec3 { Vec3(u.x + v.x, u.y + v.y, u.z + v.z) }
  function Sub(u: Vec3, v: Vec3): Vec3 { Vec3(u.x - v.x, u.y - v.y, u.z - v.z) }
  function Neg(v: Vec3): Vec3 { Vec3(-v.x, -v.y, -v.z) }
  function Scale(v: Vec3, s: real): Vec3 { Vec3(v.x * s, v.y * s, v.z * s) }

  /** Squared length of a vector. */
  function Len2(v: Vec3): real { v.x * v.x + v.y * v.y + v.z * v.z }

  /** Hamilton product: the rotation q is applied first, then p. */
  function Mul(p: Quat, q: Quat): Quat {
    Quat(p.w * q.w - p.x * q.x - p.y * q.y - p.z * q.z,
         p.w * q.x + p.x * q.w + p.y * q.z - p.z * q.y,
         p.w * q.y - p.x * q.z + p.y * q.w + p.z * q.x,
         p.w * q.z + p.x * q.y - p.y * q.x + p.z * q.w)
  }

  function QAdd(p: Quat, q: Quat): Quat { Quat(p.w + q.w, p.x + q.x, p.y + q.y, p.z + q.z) }

  function Conj(q: Quat): Quat { Quat(q.w, -q.x, -q.y, -q.z) }

  function QNeg(q: Quat): Quat { Quat(-q.w, -q.x, -q.y, -q.z) }

  function Norm2(q: Quat): real { q.w * q.w + q.x * q.x + q.y * q.y + q.z * q.z }

  predicate IsUnit(q: Quat) { Norm2(q) == 1.0 }

  /** Inverse: conjugate divided by the squared norm. The zero quaternion has no
      inverse; the model maps it to itself. */
  function Inv(q: Quat): Quat {
    var n := Norm2(q);
    if n == 0.0 then q else Quat(q.w / n, -q.x / n, -q.y / n, -q.z / n)
  }

  /** The pure quaternion (0, v). */
  function Pure(v: Vec3): Quat { Quat(0.0, v.x, v.y, v.z) }

  function VecPart(q: Quat): Vec3 { Vec3(q.x, q.y, q.z) }

  /** Rotation of a vector: the vector part of q * ((0, v) * inv(q)). */
  function Rotate(q: Quat, v: Vec3): Vec3 {
    VecPart(Mul(q, Mul(Pure(v), Inv(q))))
  }

  // ---------------------------------------------------------------------------
  // Algebraic laws

  lemma MulAssoc(p: Quat, q: Quat, r: Quat)
    ensures Mul(Mul(p, q), r) == Mul(p, Mul(q, r))
  {
    AssocW(p, q, r);
    AssocX(p, q, r);
    AssocY(p, q, r);
    AssocZ(p, q, r);
  }

  lemma AssocW(p: Quat, q: Quat, r: Quat)
    ensures Mul(Mul(p, q), r).w == Mul(p, Mul(q, r)).w
  {
    var pq, qr := Mul(p, q), Mul(q, r);
    ProductFacts(p, q);
    ProductFacts(q, r);
    MulAssocW(p.w, p.x, p.y, p.z, q.w, q.x, q.y, q.z, r.w, r.x, r.y, r.z, pq.w, pq.x, pq.y, pq.z, qr.w, qr.x, qr.y, qr.z);
  }

  lemma AssocX(p: Quat, q: Quat, r: Quat)
    ensures Mul(Mul(p, q), r).x == Mul(p, Mul(q, r)).x
  {
    var pq, qr := Mul(p, q), Mul(q, r);
    ProductFacts(p, q);
    ProductFacts(q, r);
    MulAssocX(p.w, p.x, p.y, p.z, q.w, q.x, q.y, q.z, r.w, r.x, r.y, r.z, pq.w, pq.x, pq.y, pq.z, qr.w, qr.x, qr.y, qr.z);
  }

  lemma AssocY(p: Quat, q: Quat, r: Quat)
    ensures Mul(Mul(p, q), r).y == Mul(p, Mul(q, r)).y
  {
    var pq, qr := Mul(p, q), Mul(q, r);
    ProductFacts(p, q);
    ProductFacts(q, r);
    MulAssocY(p.w, p.x, p.y, p.z, q.w, q.x, q.y, q.z, r.w, r.x, r.y, r.z, pq.w, pq.x, pq.y, pq.z, qr.w, qr.x, qr.y, qr.z);
  }

  lemma AssocZ(p: Quat, q: Quat, r: Quat)
    ensures Mul(Mul(p, q), r).z == Mul(p, Mul(q, r)).z
  {
    var pq, qr := Mul(p, q), Mul(q, r);
    ProductFacts(p, q);
    ProductFacts(q, r);
    MulAssocZ(p.w, p.x, p.y, p.z, q.w, q.x, q.y, q.z, r.w, r.x, r.y, r.z, pq.w, pq.x, pq.y, pq.z, qr.w, qr.x, qr.y, qr.z);
  }

  /** (aw, ax, ay, az) is the Hamilton product of (pw, ..) and (qw, ..), written
      over scalars so that the associativity steps below stay polynomial identities
      in independent unknowns. */
  predicate IsProduct(aw: real, ax: real, ay: real, az: real, pw: real, px: real, py: real, pz: real,
                      qw: real, qx: real, qy: real, qz: real)
  {
    && aw == pw * qw - px * qx - py * qy - pz * qz
    && ax == pw * qx + px * qw + py * qz - pz * qy
    && ay == pw * qy - px * qz + py * qw + pz * qx
    && az == pw * qz + px * qy - py * qx + pz * qw
  }

  lemma ProductFacts(p: Quat, q: Quat)
    ensures IsProduct(Mul(p, q).w, Mul(p, q).x, Mul(p, q).y, Mul(p, q).z, p.w, p.x, p.y, p.z, q.w, q.x, q.y, q.z)
  {
  }

  // The four components of associativity: with a = p * q and s = q * r,
  // component c of a * r equals component c of p * s.
  lemma MulAssocW(pw: real, px: real, py: real, pz: real, qw: real, qx: real, qy: real, qz: real,
                    rw: real, rx: real, ry: real, rz: real,
                    aw: real, ax: real, ay: real, az: real, sw: real, sx: real, sy: real, sz: real)
    requires IsProduct(aw, ax, ay, az, pw, px, py, pz, qw, qx, qy, qz)
    requires IsProduct(sw, sx, sy, sz, qw, qx, qy, qz, rw, rx, ry, rz)
    ensures aw * rw - ax * rx - ay * ry - az * rz
         == pw * sw - px * sx - py * sy - pz * sz
  {
  }

  lemma MulAssocX(pw: real, px: real, py: real, pz: real, qw: real, qx: real, qy: real, qz: real,
                    rw: real, rx: real, ry: real, rz: real,
                    aw: real, ax: real, ay: real, az: real, sw: real, sx: real, sy: real, sz: real)
    requires IsProduct(aw, ax, ay, az, pw, px, py, pz, qw, qx, qy, qz)
    requires IsProduct(sw, sx, sy, sz, qw, qx, qy, qz, rw, rx, ry, rz)
    ensures aw * rx + ax * rw + ay * rz - az * ry
         == pw * sx + px * sw + py * sz - pz * sy
  {
  }

  lemma MulAssocY(pw: real, px: real, py: real, pz: real, qw: real, qx: real, qy: real, qz: real,
                    rw: real, rx: real, ry: real, rz: real,
                    aw: real, ax: real, ay: real, az: real, sw: real, sx: real, sy: real, sz: real)
    requires IsProduct(aw, ax, ay, az, pw, px, py, pz, qw, qx, qy, qz)
    requires IsProduct(sw, sx, sy, sz, qw, qx, qy, qz, rw, rx, ry, rz)
    ensures aw * ry - ax * rz + ay * rw + az * rx
         == pw * sy - px * sz + py * sw + pz * sx
  {
  }

  lemma MulAssocZ(pw: real, px: real, py: real, pz: real, qw: real, qx: real, qy: real, qz: real,
                    rw: real, rx: real, ry: real, rz: real,
                    aw: real, ax: real, ay: real, az: real, sw: real, sx: real, sy: real, sz: real)
    requires IsProduct(aw, ax, ay, az, pw, px, py, pz, qw, qx, qy, qz)
    requires IsProduct(sw, sx, sy, sz, qw, qx, qy, qz, rw, rx, ry, rz)
    ensures aw * rz + ax * ry - ay * rx + az * rw
         == pw * sz + px * sy - py * sx + pz * sw
  {
  }

  // Vector laws, stated once here so that callers need no arithmetic of their own.

  lemma AddZero(v: Vec3)
    ensures Add(v, Zero3) == v && Add(Zero3, v) == v
  {
  }

  lemma AddNegCancel(u: Vec3, v: Vec3)
    ensures Add(Add(u, Neg(v)), v) == u
  {
  }

  lemma AddAssoc(u: Vec3, v: Vec3, w: Vec3)
    ensures Add(Add(u, v), w) == Add(u, Add(v, w))
  {
  }

  lemma MulIdentity(q: Quat)
    ensures Mul(QIdentity, q) == q && Mul(q, QIdentity) == q
  {
  }

  lemma Norm2Mul(p: Quat, q: Quat)
    ensures Norm2(Mul(p, q)) == Norm2(p) * Norm2(q)
  {
    var a, cp, cq := Mul(p, q), Conj(p), Conj(q);
    MulConjSelf(a);
    MulConjSelf(p);
    MulConjSelf(q);
    ConjMul(p, q);
    MulAssoc(p, q, Mul(cq, cp));
    MulAssoc(q, cq, cp);
    ScaleIsRealMul(cp, Norm2(q));
    MulScaleRight(p, cp, Norm2(q));
    ScaleIsRealMul(Quat(Norm2(p), 0.0, 0.0, 0.0), Norm2(q));
  }

  /** q times its conjugate is the real quaternion of its squared norm. */
  lemma MulConjSelf(q: Quat)
    ensures Mul(q, Conj(q)) == Quat(Norm2(q), 0.0, 0.0, 0.0)
  {
  }

  function QScale(q: Quat, s: real): Quat { Quat(q.w * s, q.x * s, q.y * s, q.z * s) }

  /** Scaling a quaternion is multiplying it by a real quaternion, on either side. */
  lemma ScaleIsRealMul(q: Quat, s: real)
    ensures Mul(q, Quat(s, 0.0, 0.0, 0.0)) == QScale(q, s)
    ensures Mul(Quat(s, 0.0, 0.0, 0.0), q) == QScale(q, s)
  {
  }

  lemma MulScaleLeft(a: Quat, c: Quat, s: real)
    ensures Mul(QScale(a, s), c) == QScale(Mul(a, c), s)
  {
    ScaleIsRealMul(a, s);
    ScaleIsRealMul(Mul(a, c), s);
    MulAssoc(Quat(s, 0.0, 0.0, 0.0), a, c);
  }

  lemma MulScaleRight(q: Quat, a: Quat, s: real)
    ensures Mul(q, QScale(a, s)) == QScale(Mul(q, a), s)
  {
    ScaleIsRealMul(a, s);
    ScaleIsRealMul(Mul(q, a), s);
    MulAssoc(q, a, Quat(s, 0.0, 0.0, 0.0));
  }

  /** Unit quaternions are closed under multiplication. */
  lemma MulUnit(p: Quat, q: Quat)
    requires IsUnit(p) && IsUnit(q)
    ensures IsUnit(Mul(p, q))
  {
    Norm2Mul(p, q);
  }

  lemma ConjMul(p: Quat, q: Quat)
    ensures Conj(Mul(p, q)) == Mul(Conj(q), Conj(p))
  {
    var a, b := Mul(p, q), Mul(Conj(q), Conj(p));
    ProductFacts(p, q);
    ProductFacts(Conj(q), Conj(p));
    ConjProduct(p.w, p.x, p.y, p.z, q.w, q.x, q.y, q.z, a.w, a.x, a.y, a.z, b.w, b.x, b.y, b.z);
  }

  // With a = p * q and s = conj q * conj p, s is the conjugate of a.
  lemma ConjProduct(pw: real, px: real, py: real, pz: real, qw: real, qx: real, qy: real, qz: real,
                    aw: real, ax: real, ay: real, az: real, sw: real, sx: real, sy: real, sz: real)
    requires IsProduct(aw, ax, ay, az, pw, px, py, pz, qw, qx, qy, qz)
    requires IsProduct(sw, sx, sy, sz, qw, -qx, -qy, -qz, pw, -px, -py, -pz)
    ensures aw == sw && -ax == sx && -ay == sy && -az == sz
  {
  }

  lemma UnitInv(q: Quat)
    requires IsUnit(q)
    ensures Inv(q) == Conj(q)
    ensures Mul(q, Inv(q)) == QIdentity && Mul(Inv(q), q) == QIdentity
  {
  }

  /** (q * ((0, v) * conj q)) is again a pure quaternion. */
  lemma SandwichPure(q: Quat, v: Vec3)
    ensures Mul(q, Mul(Pure(v), Conj(q))).w == 0.0
  {
  }

  lemma MulAddRight(q: Quat, a: Quat, b: Quat)
    ensures Mul(q, QAdd(a, b)) == QAdd(Mul(q, a), Mul(q, b))
  {
    var qa, qb, qs := Mul(q, a), Mul(q, b), Mul(q, QAdd(a, b));
    ProductFacts(q, a);
    ProductFacts(q, b);
    ProductFacts(q, QAdd(a, b));
    SumOfProducts(q.w, q.x, q.y, q.z, a.w, a.x, a.y, a.z, b.w, b.x, b.y, b.z,
                  qa.w, qa.x, qa.y, qa.z, qb.w, qb.x, qb.y, qb.z, qs.w, qs.x, qs.y, qs.z);
  }

  lemma MulAddLeft(a: Quat, b: Quat, c: Quat)
    ensures Mul(QAdd(a, b), c) == QAdd(Mul(a, c), Mul(b, c))
  {
    var ac, bc, sc := Mul(a, c), Mul(b, c), Mul(QAdd(a, b), c);
    ProductFacts(a, c);
    ProductFacts(b, c);
    ProductFacts(QAdd(a, b), c);
    SumOfProductsLeft(a.w, a.x, a.y, a.z, b.w, b.x, b.y, b.z, c.w, c.x, c.y, c.z,
                   ac.w, ac.x, ac.y, ac.z, bc.w, bc.x, bc.y, bc.z, sc.w, sc.x, sc.y, sc.z);
  }

  // With u = q * a, v = q * b and s = q * (a + b), s is u + v.
  lemma SumOfProducts(qw: real, qx: real, qy: real, qz: real, aw: real, ax: real, ay: real, az: real,
                      ew: real, ex: real, ey: real, ez: real,
                      uw: real, ux: real, uy: real, uz: real, vw: real, vx: real, vy: real, vz: real,
                      sw: real, sx: real, sy: real, sz: real)
    requires IsProduct(uw, ux, uy, uz, qw, qx, qy, qz, aw, ax, ay, az)
    requires IsProduct(vw, vx, vy, vz, qw, qx, qy, qz, ew, ex, ey, ez)
    requires IsProduct(sw, sx, sy, sz, qw, qx, qy, qz, aw + ew, ax + ex, ay + ey, az + ez)
    ensures sw == uw + vw && sx == ux + vx && sy == uy + vy && sz == uz + vz
  {
  }

  // With u = a * c, v = b * c and s = (a + b) * c, s is u + v.
  lemma SumOfProductsLeft(aw: real, ax: real, ay: real, az: real, ew: real, ex: real, ey: real, ez: real,
                       cw: real, cx: real, cy: real, cz: real,
                       uw: real, ux: real, uy: real, uz: real, vw: real, vx: real, vy: real, vz: real,
                       sw: real, sx: real, sy: real, sz: real)
    requires IsProduct(uw, ux, uy, uz, aw, ax, ay, az, cw, cx, cy, cz)
    requires IsProduct(vw, vx, vy, vz, ew, ex, ey, ez, cw, cx, cy, cz)
    requires IsProduct(sw, sx, sy, sz, aw + ew, ax + ex, ay + ey, az + ez, cw, cx, cy, cz)
    ensures sw == uw + vw && sx == ux + vx && sy == uy + vy && sz == uz + vz
  {
  }

  lemma MulNegRight(q: Quat, a: Quat)
    ensures Mul(q, QNeg(a)) == QNeg(Mul(q, a))
  {
    var u, s := Mul(q, a), Mul(q, QNeg(a));
    ProductFacts(q, a);
    ProductFacts(q, QNeg(a));
    NegOfProduct(q.w, q.x, q.y, q.z, a.w, a.x, a.y, a.z, u.w, u.x, u.y, u.z, s.w, s.x, s.y, s.z);
  }

  lemma MulNegLeft(a: Quat, c: Quat)
    ensures Mul(QNeg(a), c) == QNeg(Mul(a, c))
  {
    var u, s := Mul(a, c), Mul(QNeg(a), c);
    ProductFacts(a, c);
    ProductFacts(QNeg(a), c);
    NegOfProductLeft(a.w, a.x, a.y, a.z, c.w, c.x, c.y, c.z, u.w, u.x, u.y, u.z, s.w, s.x, s.y, s.z);
  }

  // With u = q * a and s = q * (-a), s is -u.
  lemma NegOfProduct(qw: real, qx: real, qy: real, qz: real, aw: real, ax: real, ay: real, az: real,
                     uw: real, ux: real, uy: real, uz: real, sw: real, sx: real, sy: real, sz: real)
    requires IsProduct(uw, ux, uy, uz, qw, qx, qy, qz, aw, ax, ay, az)
    requires IsProduct(sw, sx, sy, sz, qw, qx, qy, qz, -aw, -ax, -ay, -az)
    ensures sw == -uw && sx == -ux && sy == -uy && sz == -uz
  {
  }

  // With u = a * c and s = (-a) * c, s is -u.
  lemma NegOfProductLeft(aw: real, ax: real, ay: real, az: real, cw: real, cx: real, cy: real, cz: real,
                         uw: real, ux: real, uy: real, uz: real, sw: real, sx: real, sy: real, sz: real)
    requires IsProduct(uw, ux, uy, uz, aw, ax, ay, az, cw, cx, cy, cz)
    requires IsProduct(sw, sx, sy, sz, -aw, -ax, -ay, -az, cw, cx, cy, cz)
    ensures sw == -uw && sx == -ux && sy == -uy && sz == -uz
  {
  }

  lemma InvNeg(q: Quat)
    ensures Inv(QNeg(q)) == QNeg(Inv(q))
  {
    assert Norm2(QNeg(q)) == Norm2(q);
  }

  lemma RotateIdentity(v: Vec3)
    ensures Rotate(QIdentity, v) == v
  {
    UnitInv(QIdentity);
    MulIdentity(Pure(v));
  }

  lemma RotateZero(q: Quat)
    ensures Rotate(q, Zero3) == Zero3
  {
  }

  lemma RotateAdd(q: Quat, u: Vec3, v: Vec3)
    ensures Rotate(q, Add(u, v)) == Add(Rotate(q, u), Rotate(q, v))
  {
    var c := Inv(q);
    assert Pure(Add(u, v)) == QAdd(Pure(u), Pure(v));
    MulAddLeft(Pure(u), Pure(v), c);
    MulAddRight(q, Mul(Pure(u), c), Mul(Pure(v), c));
  }

  lemma RotateNeg(q: Quat, v: Vec3)
    ensures Rotate(q, Neg(v)) == Neg(Rotate(q, v))
  {
    var c := Inv(q);
    assert Pure(Neg(v)) == QNeg(Pure(v));
    MulNegLeft(Pure(v), c);
    MulNegRight(q, Mul(Pure(v), c));
  }

  /** Rotating by a product of unit quaternions is rotating by the right factor
      first, then by the left one. */
  lemma RotateCompose(p: Quat, q: Quat, v: Vec3)
    requires IsUnit(p) && IsUnit(q)
    ensures Rotate(Mul(p, q), v) == Rotate(p, Rotate(q, v))
  {
    var pq := Mul(p, q);
    Norm2Mul(p, q);
    UnitInv(p);
    UnitInv(q);
    UnitInv(pq);
    ConjMul(p, q);
    var cp, cq := Conj(p), Conj(q);
    var y := Mul(Pure(v), cq);
    var x := Mul(q, y);
    SandwichPure(q, v);
    assert Pure(VecPart(x)) == x;
    MulAssoc(Pure(v), cq, cp);
    MulAssoc(p, q, Mul(y, cp));
    MulAssoc(q, y, cp);
  }

  /** Rotating by a unit quaternion and then by its inverse gives back the vector. */
  lemma RotateInv(q: Quat, v: Vec3)
    requires IsUnit(q)
    ensures Rotate(Inv(q), Rotate(q, v)) == v
    ensures Rotate(q, Rotate(Inv(q), v)) == v
  {
    UnitInv(q);
    assert IsUnit(Inv(q));
    RotateCompose(Inv(q), q, v);
    RotateCompose(q, Inv(q), v);
    RotateIdentity(v);
  }

  lemma InvUnit(q: Quat)
    requires IsUnit(q)
    ensures IsUnit(Inv(q)) && Inv(Inv(q)) == q
  {
    UnitInv(q);
    UnitInv(Conj(q));
  }

  /** A unit quaternion rotates without stretching: lengths are kept. */
  lemma RotateLength(q: Quat, v: Vec3)
    requires IsUnit(q)
    ensures Len2(Rotate(q, v)) == Len2(v)
  {
    var y := Mul(Pure(v), Conj(q));
    var x := Mul(q, y);
    UnitInv(q);
    SandwichPure(q, v);
    Norm2Mul(q, y);
    Norm2Mul(Pure(v), Conj(q));
    assert Norm2(Conj(q)) == 1.0;
    assert Len2(VecPart(x)) == Norm2(x);
  }
}
