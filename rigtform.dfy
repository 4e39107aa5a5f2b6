/** The rigid-body transform: a translation together with a rotation quaternion,
    acting on homogeneous vectors by rotating and then translating. This module
    holds the value-level algebra (the free functions of the course header);
    the in-place object with its setters is in module RigTFormObjects. */
module RigidTransforms {
  import opened Quaternions

  datatype RigTForm = RigTForm(t: Vec3, r: Quat)

  /** The default transform: zero translation, identity rotation. */
  const Identity: RigTForm := RigTForm(Zero3, QIdentity)

  /** The course library's tolerance for "equal to 0" and "equal to 1". */
  const Eps: real := 0.00000001

  /** A transform is rigid when its quaternion has norm 1. */
  predicate IsRigid(x: RigTForm) { IsUnit(x.r) }

  function FromTranslation(t: Vec3): RigTForm { RigTForm(t, QIdentity) }

  function FromRotation(r: Quat): RigTForm { RigTForm(Zero3, r) }

  function Xyz(a: Vec4): Vec3 { Vec3(a.x, a.y, a.z) }

  /** Applying a transform to a homogeneous vector: rotate its first three
      coordinates, then add the translation scaled by its weight; the weight
      itself is kept. */
  function Apply(x: RigTForm, a: Vec4): Vec4 {
    var v := Add(Rotate(x.r, Xyz(a)), Scale(x.t, a.w));
    Vec4(v.x, v.y, v.z, a.w)
  }

  /** Composition: first b, then a. */
  function Compose(a: RigTForm, b: RigTForm): RigTForm {
    RigTForm(Add(a.t, Rotate(a.r, b.t)), Mul(a.r, b.r))
  }

  function Inverse(x: RigTForm): RigTForm {
    var ri := Inv(x.r);
    RigTForm(Neg(Rotate(ri, x.t)), ri)
  }

  /** The translation factor of a transform. */
  function TransFact(x: RigTForm): RigTForm { FromTranslation(x.t) }

  /** The linear (rotation) factor of a transform. */
  function LinFact(x: RigTForm): RigTForm { FromRotation(x.r) }

  /** The frame with O's origin and E's axes. The course header builds it as
      the product transFact(O) * linFact(E); MixedFrameIsProduct proves that
      this is the same transform. */
  function MakeMixedFrame(o: RigTForm, e: RigTForm): RigTForm {
    RigTForm(o.t, e.r)
  }

  /** Applies the motion m to the object frame o, expressed with respect to the
      auxiliary frame a; the products associate to the left. */
  function DoMtoOwrtA(a: RigTForm, m: RigTForm, o: RigTForm): RigTForm {
    Compose(Compose(Compose(a, m), Inverse(a)), o)
  }

  /** The representative with non-negative scalar part of the rotation q
      stands for (q and -q are the same rotation). */
  function Cn(q: Quat): (c: Quat)
    ensures c.w >= 0.0
    ensures c == q || c == QNeg(q)
  {
    if q.w < 0.0 then QNeg(q) else q
  }

  function Lerp(u: Vec3, v: Vec3, i: real): Vec3 {
    Add(Scale(u, 1.0 - i), Scale(v, i))
  }

  /** Linear interpolation between two keyframe transforms. `power(q, i)` is the
      library's quaternion power (the i-th fraction of the rotation q), taken as
      a parameter. The relative rotation is canonicalised before the power is
      taken, exactly as Cn does. */
  function Interpolate(a: RigTForm, b: RigTForm, i: real, power: (Quat, real) -> Quat): RigTForm {
    if i == 0.0 then a
    else if i == 1.0 then b
    else RigTForm(Lerp(a.t, b.t, i), Mul(power(Cn(Mul(b.r, Inv(a.r))), i), a.r))
  }

  function Abs(x: real): real { if x < 0.0 then -x else x }

  function Cube(x: real): real { x * x * x }

  /** The cubic Bernstein blend of four scalars. */
  function Blend(a: real, b: real, c: real, d: real, i: real): real {
    a * Cube(1.0 - i) + b * (3.0 * i * ((1.0 - i) * (1.0 - i))) + c * (3.0 * (1.0 - i) * (i * i)) + d * Cube(i)
  }

  /** The cubic Bezier curve with control points p0..p3, coordinate by coordinate. */
  function Bezier(p0: Vec3, p1: Vec3, p2: Vec3, p3: Vec3, i: real): Vec3 {
    Vec3(Blend(p0.x, p1.x, p2.x, p3.x, i), Blend(p0.y, p1.y, p2.y, p3.y, i), Blend(p0.z, p1.z, p2.z, p3.z, i))
  }

  /** The inner Bezier control points of the Catmull-Rom segment from c1 to c2. */
  function ControlPoint(base: Vec3, prev: Vec3, next: Vec3): Vec3 { Add(Scale(Sub(next, prev), 1.0 / 6.0), base) }

  /** One de Casteljau step on rotations: the i-th fraction of the way from p to q. */
  function Slerp(p: Quat, q: Quat, i: real, power: (Quat, real) -> Quat): Quat {
    Mul(power(Cn(Mul(q, Inv(p))), i), p)
  }

  /** Catmull-Rom interpolation between c1 and c2 with neighbours c0 and c3. */
  function CrsInterpolate(c0: RigTForm, c1: RigTForm, c2: RigTForm, c3: RigTForm, i: real,
                          power: (Quat, real) -> Quat): RigTForm
  {
    if Abs(i - 0.0) < Eps then c1
    else if Abs(i - 1.0) < Eps then c2
    else
      var dt := ControlPoint(c1.t, c0.t, c2.t);
      var et := ControlPoint(c2.t, c3.t, c1.t);
      var dr := Mul(power(Cn(Mul(c2.r, Inv(c0.r))), 1.0 / 6.0), c1.r);
      var er := Mul(power(Cn(Mul(c1.r, Inv(c3.r))), 1.0 / 6.0), c2.r);
      var p01 := Slerp(c1.r, dr, i, power);
      var p12 := Slerp(dr, er, i, power);
      var p23 := Slerp(er, c2.r, i, power);
      var p012 := Slerp(p01, p12, i, power);
      var p123 := Slerp(p12, p23, i, power);
      RigTForm(Bezier(c1.t, dt, et, c2.t, i), Slerp(p012, p123, i, power))
  }

  // ---------------------------------------------------------------------------
  // Constructors and factors

  lemma FactorsOfDefault()
    ensures Identity.t == Zero3 && Identity.r == QIdentity
    ensures FromTranslation(Zero3) == Identity && FromRotation(QIdentity) == Identity
  {
  }

  /** A pure rotation is undone by the pure rotation by the inverse quaternion. */
  lemma InverseOfRotation(r: Quat)
    ensures Inverse(FromRotation(r)) == FromRotation(Inv(r))
  {
    RotateZero(Inv(r));
    assert Neg(Zero3) == Zero3;
  }

  /** Translating after rotating gives the transform with both parts. */
  lemma TranslationThenRotation(t: Vec3, r: Quat)
    ensures Compose(FromTranslation(t), FromRotation(r)) == RigTForm(t, r)
  {
    RotateZero(QIdentity);
    AddZero(t);
    MulIdentity(r);
  }

  /** The translation factor followed by the linear factor rebuilds the transform. */
  lemma TransFactLinFact(x: RigTForm)
    ensures Compose(TransFact(x), LinFact(x)) == x
  {
    TranslationThenRotation(x.t, x.r);
  }

  /** The mixed frame is the translation factor of O followed by the linear
      factor of E. */
  lemma MixedFrameIsProduct(o: RigTForm, e: RigTForm)
    ensures MakeMixedFrame(o, e) == Compose(TransFact(o), LinFact(e))
    ensures MakeMixedFrame(o, e).t == o.t && MakeMixedFrame(o, e).r == e.r
  {
    TranslationThenRotation(o.t, e.r);
  }

  // ---------------------------------------------------------------------------
  // Application to vectors

  lemma RotateScale(q: Quat, v: Vec3, s: real)
    ensures Rotate(q, Scale(v, s)) == Scale(Rotate(q, v), s)
  {
    var c := Inv(q);
    assert Pure(Scale(v, s)) == QScale(Pure(v), s);
    MulScaleLeft(Pure(v), c, s);
    MulScaleRight(q, Mul(Pure(v), c), s);
  }

  /** A direction (weight 0) is only rotated; the translation does not reach it. */
  lemma ApplyDirection(x: RigTForm, v: Vec3)
    ensures Apply(x, Vec4(v.x, v.y, v.z, 0.0)) == Vec4(Rotate(x.r, v).x, Rotate(x.r, v).y, Rotate(x.r, v).z, 0.0)
  {
  }

  /** A point (weight 1) is rotated and then moved by the translation. */
  lemma ApplyPoint(x: RigTForm, v: Vec3)
    ensures Xyz(Apply(x, Vec4(v.x, v.y, v.z, 1.0))) == Add(Rotate(x.r, v), x.t)
  {
  }

  /** Applying a composition is applying its right factor and then its left one. */
  lemma ApplyCompose(a: RigTForm, b: RigTForm, v: Vec4)
    requires IsRigid(a) && IsRigid(b)
    ensures Apply(Compose(a, b), v) == Apply(a, Apply(b, v))
  {
    var u := Xyz(v);
    RotateCompose(a.r, b.r, u);
    RotateAdd(a.r, Rotate(b.r, u), Scale(b.t, v.w));
    RotateScale(a.r, b.t, v.w);
  }

  /** The inverse undoes the transform on every vector. */
  lemma ApplyInverse(x: RigTForm, v: Vec4)
    requires IsRigid(x)
    ensures Apply(Inverse(x), Apply(x, v)) == v
    ensures Apply(x, Apply(Inverse(x), v)) == v
  {
    ComposeInverse(x);
    InverseRigid(x);
    ApplyCompose(Inverse(x), x, v);
    ApplyCompose(x, Inverse(x), v);
    ApplyIdentity(v);
  }

  lemma ApplyIdentity(v: Vec4)
    ensures Apply(Identity, v) == v
  {
    RotateIdentity(Xyz(v));
  }

  // ---------------------------------------------------------------------------
  // Group laws

  lemma ComposeIdentity(x: RigTForm)
    ensures Compose(Identity, x) == x && Compose(x, Identity) == x
  {
    RotateIdentity(x.t);
    RotateZero(x.r);
    MulIdentity(x.r);
  }

  lemma ComposeRigid(a: RigTForm, b: RigTForm)
    requires IsRigid(a) && IsRigid(b)
    ensures IsRigid(Compose(a, b))
  {
    Norm2Mul(a.r, b.r);
  }

  lemma {:induction false} ComposeAssoc(a: RigTForm, b: RigTForm, c: RigTForm)
    requires IsRigid(a) && IsRigid(b)
    ensures Compose(Compose(a, b), c) == Compose(a, Compose(b, c))
  {
    MulAssoc(a.r, b.r, c.r);
    RotateCompose(a.r, b.r, c.t);
    RotateAdd(a.r, b.t, Rotate(b.r, c.t));
  }

  lemma InverseRigid(x: RigTForm)
    requires IsRigid(x)
    ensures IsRigid(Inverse(x)) && Inverse(Inverse(x)) == x
  {
    InvUnit(x.r);
    RotateInv(x.r, x.t);
    RotateNeg(x.r, Rotate(Inv(x.r), x.t));
  }

  /** For a rigid transform, the inverse is a two-sided inverse for composition. */
  lemma ComposeInverse(x: RigTForm)
    requires IsRigid(x)
    ensures Compose(x, Inverse(x)) == Identity && Compose(Inverse(x), x) == Identity
  {
    UnitInv(x.r);
    RotateNeg(x.r, Rotate(Inv(x.r), x.t));
    RotateInv(x.r, x.t);
  }

  // ---------------------------------------------------------------------------
  // Motion with respect to an auxiliary frame

  /** The doubly-associated product is A * (M * (inv(A) * O)). */
  lemma DoMtoOwrtANested(a: RigTForm, m: RigTForm, o: RigTForm)
    requires IsRigid(a) && IsRigid(m)
    ensures DoMtoOwrtA(a, m, o) == Compose(a, Compose(m, Compose(Inverse(a), o)))
  {
    InverseRigid(a);
    ComposeRigid(a, m);
    ComposeAssoc(Compose(a, m), Inverse(a), o);
    ComposeAssoc(a, m, Compose(Inverse(a), o));
  }

  /** The identity motion leaves the object where it is. */
  lemma DoMtoOwrtAIdentity(a: RigTForm, o: RigTForm)
    requires IsRigid(a)
    ensures DoMtoOwrtA(a, Identity, o) == o
  {
    ComposeIdentity(a);
    ComposeInverse(a);
    ComposeIdentity(o);
  }

  /** A motion that fixes the origin, applied with respect to a frame A whose
      origin is O's origin, leaves O's origin where it is. */
  lemma RotationAboutOriginKeepsOrigin(a: RigTForm, m: RigTForm, o: RigTForm)
    requires IsRigid(a) && IsRigid(m) && m.t == Zero3 && a.t == o.t
    ensures DoMtoOwrtA(a, m, o).t == o.t
  {
    var q := Mul(a.r, m.r);
    MulUnit(a.r, m.r);
    assert Compose(a, m) == RigTForm(o.t, q) by { ComposeWithRotation(a.t, a.r, m); }
    TurnAboutPoint(o.t, q, a.r, o);
  }

  /** A pure rotation applied about the mixed frame of O and E turns O about its
      own origin: O's position does not change. */
  lemma RotationAboutMixedFrameKeepsOrigin(o: RigTForm, e: RigTForm, m: RigTForm)
    requires IsRigid(e) && IsRigid(m) && m.t == Zero3
    ensures DoMtoOwrtA(MakeMixedFrame(o, e), m, o).t == o.t
  {
    RotationAboutOriginKeepsOrigin(MakeMixedFrame(o, e), m, o);
  }

  lemma ComposeWithRotation(p: Vec3, q: Quat, m: RigTForm)
    requires m.t == Zero3
    ensures Compose(RigTForm(p, q), m) == RigTForm(p, Mul(q, m.r))
  {
    RotateZero(q);
    AddZero(p);
  }

  /** Moving to the frame (p, q2), turning it into (p, q1) and composing with a
      frame whose origin is p keeps that origin. */
  lemma TurnAboutPoint(p: Vec3, q1: Quat, q2: Quat, o: RigTForm)
    requires IsUnit(q1) && IsUnit(q2) && o.t == p
    ensures Compose(Compose(RigTForm(p, q1), Inverse(RigTForm(p, q2))), o).t == p
  {
    var i2 := Inv(q2);
    var w := Rotate(i2, p);
    var k := Mul(q1, i2);
    InvUnit(q2);
    RotateCompose(q1, i2, p);
    RotateNeg(q1, w);
    assert Compose(RigTForm(p, q1), Inverse(RigTForm(p, q2))) == RigTForm(Add(p, Neg(Rotate(k, p))), k);
    AddNegCancel(p, Rotate(k, p));
  }

  /** A pure translation applied about the mixed frame leaves O's orientation. */
  lemma TranslationAboutMixedFrameKeepsRotation(o: RigTForm, e: RigTForm, m: RigTForm)
    requires IsRigid(e) && m.r == QIdentity
    ensures DoMtoOwrtA(MakeMixedFrame(o, e), m, o).r == o.r
  {
    MulIdentity(e.r);
    UnitInv(e.r);
    MulIdentity(o.r);
  }

  /** A pure rotation applied with respect to a frame at the world origin
      moves O's origin on a sphere about the world origin. */
  lemma RotationAboutWorldOriginKeepsDistance(a: RigTForm, m: RigTForm, o: RigTForm)
    requires IsRigid(a) && IsRigid(m) && a.t == Zero3 && m.t == Zero3
    ensures Len2(DoMtoOwrtA(a, m, o).t) == Len2(o.t)
  {
    var q := Mul(a.r, m.r);
    var k := Mul(q, Inv(a.r));
    TurnAboutOrigin(a.r, m, q);
    TurnAboutOrigin(q, Inverse(a), k) by { InverseOfRotation(a.r); }
    MulUnit(a.r, m.r);
    InvUnit(a.r);
    MulUnit(q, Inv(a.r));
    RotateLength(k, o.t);
  }

  lemma TurnAboutOrigin(p: Quat, m: RigTForm, q: Quat)
    requires m.t == Zero3 && q == Mul(p, m.r)
    ensures Compose(RigTForm(Zero3, p), m) == RigTForm(Zero3, q)
  {
    ComposeWithRotation(Zero3, p, m);
  }

  /** A pure translation, applied with respect to any rigid frame, leaves O's
      orientation unchanged. */
  lemma TranslationKeepsRotation(a: RigTForm, m: RigTForm, o: RigTForm)
    requires IsRigid(a) && m.r == QIdentity
    ensures DoMtoOwrtA(a, m, o).r == o.r
  {
    MulIdentity(a.r);
    UnitInv(a.r);
    MulIdentity(o.r);
  }

  // ---------------------------------------------------------------------------
  // Interpolation

  /** Negating a quaternion does not change the rotation it performs, so Cn
      keeps the rotation. */
  lemma RotateCn(q: Quat, v: Vec3)
    ensures Rotate(Cn(q), v) == Rotate(q, v)
  {
    if q.w < 0.0 {
      InvNeg(q);
      MulNegRight(Pure(v), Inv(q));
      MulNegLeft(q, QNeg(Mul(Pure(v), Inv(q))));
      MulNegRight(q, Mul(Pure(v), Inv(q)));
    }
  }

  lemma InterpolateEnds(a: RigTForm, b: RigTForm, power: (Quat, real) -> Quat)
    ensures Interpolate(a, b, 0.0, power) == a && Interpolate(a, b, 1.0, power) == b
  {
  }

  /** At every parameter, including the two exact endpoints, the translation is
      the affine blend (1 - i) a.t + i b.t. */
  lemma InterpolateTranslation(a: RigTForm, b: RigTForm, i: real, power: (Quat, real) -> Quat)
    ensures Interpolate(a, b, i, power).t == Lerp(a.t, b.t, i)
  {
  }

  /** Between the endpoints the rotation is a power of the relative rotation from
      a to b, taken with non-negative scalar part, applied after a. */
  lemma InterpolateRotation(a: RigTForm, b: RigTForm, i: real, power: (Quat, real) -> Quat)
    requires i != 0.0 && i != 1.0
    ensures exists q :: (q == Mul(b.r, Inv(a.r)) || q == QNeg(Mul(b.r, Inv(a.r))))
                        && q.w >= 0.0 && Interpolate(a, b, i, power).r == Mul(power(q, i), a.r)
  {
    var q := Cn(Mul(b.r, Inv(a.r)));
    assert q == Mul(b.r, Inv(a.r)) || q == QNeg(Mul(b.r, Inv(a.r)));
  }

  /** Interpolating between two keyframes with the same unit rotation keeps that
      rotation, provided the power of the identity is the identity. */
  lemma InterpolateSameRotation(a: RigTForm, b: RigTForm, i: real, power: (Quat, real) -> Quat)
    requires a.r == b.r && IsUnit(a.r) && power(QIdentity, i) == QIdentity
    ensures Interpolate(a, b, i, power).r == a.r
  {
    UnitInv(a.r);
    MulIdentity(a.r);
  }

  lemma CrsEnds(c0: RigTForm, c1: RigTForm, c2: RigTForm, c3: RigTForm, i: real, power: (Quat, real) -> Quat)
    ensures Abs(i) < Eps ==> CrsInterpolate(c0, c1, c2, c3, i, power) == c1
    ensures Abs(i - 1.0) < Eps ==> CrsInterpolate(c0, c1, c2, c3, i, power) == c2
  {
  }

  /** Away from the endpoint windows the translation is the Bezier blend of c1,
      c1 + (c2 - c0)/6, c2 + (c1 - c3)/6 and c2. */
  lemma CrsTranslation(c0: RigTForm, c1: RigTForm, c2: RigTForm, c3: RigTForm, i: real, power: (Quat, real) -> Quat)
    requires Abs(i) >= Eps && Abs(i - 1.0) >= Eps
    ensures CrsInterpolate(c0, c1, c2, c3, i, power).t
         == Bezier(c1.t, Add(c1.t, Scale(Sub(c2.t, c0.t), 1.0 / 6.0)), Add(c2.t, Scale(Sub(c1.t, c3.t), 1.0 / 6.0)), c2.t, i)
  {
  }

  /** Control points spaced evenly along a line give a curve traversed at
      constant speed. */
  lemma BlendLinear(a: real, b: real, c: real, e: real, d: real, i: real)
    requires b == a + d * (1.0 / 3.0) && c == a + d * (2.0 / 3.0) && e == a + d
    ensures Blend(a, b, c, e, i) == a + d * i
  {
  }

  /** Equally spaced collinear keyframe positions are traversed at constant
      speed: the translation is c1 + i (c2 - c1). */
  lemma CrsCollinear(c0: RigTForm, c1: RigTForm, c2: RigTForm, c3: RigTForm, i: real, power: (Quat, real) -> Quat)
    requires Abs(i) >= Eps && Abs(i - 1.0) >= Eps
    requires Sub(c1.t, c0.t) == Sub(c2.t, c1.t) && Sub(c3.t, c2.t) == Sub(c2.t, c1.t)
    ensures CrsInterpolate(c0, c1, c2, c3, i, power).t == Add(c1.t, Scale(Sub(c2.t, c1.t), i))
  {
    CrsTranslation(c0, c1, c2, c3, i, power);
    BezierCollinear(c0.t, c1.t, c2.t, c3.t, i);
  }

  lemma BezierCollinear(c0: Vec3, c1: Vec3, c2: Vec3, c3: Vec3, i: real)
    requires Sub(c1, c0) == Sub(c2, c1) && Sub(c3, c2) == Sub(c2, c1)
    ensures Bezier(c1, Add(c1, Scale(Sub(c2, c0), 1.0 / 6.0)), Add(c2, Scale(Sub(c1, c3), 1.0 / 6.0)), c2, i)
         == Add(c1, Scale(Sub(c2, c1), i))
  {
    var d := Sub(c2, c1);
    var dt := Add(c1, Scale(Sub(c2, c0), 1.0 / 6.0));
    var et := Add(c2, Scale(Sub(c1, c3), 1.0 / 6.0));
    assert dt == Add(c1, Scale(d, 1.0 / 3.0));
    assert et == Add(c1, Scale(d, 2.0 / 3.0));
    assert c2 == Add(c1, d);
    BezierLinear(c1, dt, et, c2, d, i);
  }

  /** Control points spaced evenly on a line give a Bezier curve traversed at
      constant speed. */
  lemma BezierLinear(a: Vec3, b: Vec3, c: Vec3, e: Vec3, d: Vec3, i: real)
    requires b == Add(a, Scale(d, 1.0 / 3.0)) && c == Add(a, Scale(d, 2.0 / 3.0)) && e == Add(a, d)
    ensures Bezier(a, b, c, e, i) == Add(a, Scale(d, i))
  {
    BlendLinear(a.x, b.x, c.x, e.x, d.x, i);
    BlendLinear(a.y, b.y, c.y, e.y, d.y, i);
    BlendLinear(a.z, b.z, c.z, e.z, d.z, i);
  }

  /** Four keyframes at the same position keep the object at that position. */
  lemma CrsConstantTranslation(c0: RigTForm, c1: RigTForm, c2: RigTForm, c3: RigTForm, i: real, power: (Quat, real) -> Quat)
    requires c0.t == c1.t == c2.t == c3.t
    ensures CrsInterpolate(c0, c1, c2, c3, i, power).t == c1.t
  {
    if Abs(i) >= Eps && Abs(i - 1.0) >= Eps {
      CrsCollinear(c0, c1, c2, c3, i, power);
      AddZero(c1.t);
      assert Scale(Zero3, i) == Zero3;
    }
  }

  lemma SlerpSame(q: Quat, i: real, power: (Quat, real) -> Quat)
    requires IsUnit(q) && power(QIdentity, i) == QIdentity
    ensures Slerp(q, q, i, power) == q
  {
    UnitInv(q);
    MulIdentity(q);
  }

  /** Four keyframes with the same unit rotation keep that rotation, provided
      the power of the identity is the identity. */
  lemma CrsConstantRotation(c0: RigTForm, c1: RigTForm, c2: RigTForm, c3: RigTForm, i: real, power: (Quat, real) -> Quat)
    requires c0.r == c1.r == c2.r == c3.r && IsUnit(c1.r)
    requires power(QIdentity, 1.0 / 6.0) == QIdentity && power(QIdentity, i) == QIdentity
    ensures CrsInterpolate(c0, c1, c2, c3, i, power).r == c1.r
  {
    var q := c1.r;
    SlerpSame(q, 1.0 / 6.0, power);
    SlerpSame(q, i, power);
  }
}
