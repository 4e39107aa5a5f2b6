/** The transform as the course header stores it: a three-slot translation
    buffer and a four-slot quaternion buffer (scalar part first), filled
    component by component by the constructors and updated in place by the
    setters. Every operation is specified by the value-level algebra of module
    RigidTransforms. */
module RigTFormObjects {
  import opened Quaternions
  import opened RigidTransforms

  /** Component k of a vector (0 = x, 1 = y, 2 = z). */
  function Vec3At(v: Vec3, k: int): real
    requires 0 <= k < 3
  {
    if k == 0 then v.x else if k == 1 then v.y else v.z
  }

  /** Component k of a quaternion (0 = scalar part, then x, y, z). */
  function QuatAt(q: Quat, k: int): real
    requires 0 <= k < 4
  {
    if k == 0 then q.w else if k == 1 then q.x else if k == 2 then q.y else q.z
  }

  function Vec4At(a: Vec4, k: int): real
    requires 0 <= k < 4
  {
    if k == 0 then a.x else if k == 1 then a.y else if k == 2 then a.z else a.w
  }

  class RigTFormObject {
    const tArr: array<real>
    const rArr: array<real>

    ghost predicate Valid()
      reads this
    {
      tArr.Length == 3 && rArr.Length == 4
    }

    /** The transform the two buffers currently hold. */
    ghost function Value(): RigTForm
      reads this, tArr, rArr
      requires Valid()
    {
      RigTForm(Vec3(tArr[0], tArr[1], tArr[2]), Quat(rArr[0], rArr[1], rArr[2], rArr[3]))
    }

    /** The default transform: zero translation and the identity quaternion. */
    constructor Default()
      ensures Valid() && fresh(tArr) && fresh(rArr)
      ensures Value() == Identity
    {
      tArr := new real[3] [0.0, 0.0, 0.0];
      rArr := new real[4] [1.0, 0.0, 0.0, 0.0];
    }

    /** Copies both components in, slot by slot. */
    constructor (t: Vec3, r: Quat)
      ensures Valid() && fresh(tArr) && fresh(rArr)
      ensures Value() == RigTForm(t, r)
    {
      tArr := new real[3];
      rArr := new real[4];
      new;
      for i := 0 to 3
        invariant forall k :: 0 <= k < i ==> tArr[k] == Vec3At(t, k)
      {
        tArr[i] := Vec3At(t, i);
      }
      for i := 0 to 4
        invariant forall k :: 0 <= k < 3 ==> tArr[k] == Vec3At(t, k)
        invariant forall k :: 0 <= k < i ==> rArr[k] == QuatAt(r, k)
      {
        rArr[i] := QuatAt(r, i);
      }
    }

    /** A pure translation: the translation is copied, the rotation is the identity. */
    constructor FromTranslation(t: Vec3)
      ensures Valid() && fresh(tArr) && fresh(rArr)
      ensures Value() == RigidTransforms.FromTranslation(t)
    {
      tArr := new real[3];
      rArr := new real[4] [1.0, 0.0, 0.0, 0.0];
      new;
      for i := 0 to 3
        invariant forall k :: 0 <= k < i ==> tArr[k] == Vec3At(t, k)
        invariant rArr[..] == [1.0, 0.0, 0.0, 0.0]
      {
        tArr[i] := Vec3At(t, i);
      }
    }

    /** A pure rotation: the translation is zero, the quaternion is copied. */
    constructor FromRotation(r: Quat)
      ensures Valid() && fresh(tArr) && fresh(rArr)
      ensures Value() == RigidTransforms.FromRotation(r)
    {
      tArr := new real[3] [0.0, 0.0, 0.0];
      rArr := new real[4];
      new;
      for i := 0 to 4
        invariant forall k :: 0 <= k < i ==> rArr[k] == QuatAt(r, k)
        invariant tArr[..] == [0.0, 0.0, 0.0]
      {
        rArr[i] := QuatAt(r, i);
      }
    }

    function GetTranslation(): (t: Vec3)
      reads this, tArr
      requires Valid()
      ensures t == Value().t
    {
      Vec3(tArr[0], tArr[1], tArr[2])
    }

    function GetRotation(): (r: Quat)
      reads this, rArr
      requires Valid()
      ensures r == Value().r
    {
      Quat(rArr[0], rArr[1], rArr[2], rArr[3])
    }

    /** Replaces the translation; the rotation is untouched. */
    method SetTranslation(t: Vec3)
      requires Valid()
      modifies tArr
      ensures Valid()
      ensures Value() == RigTForm(t, old(Value()).r)
    {
      tArr[0], tArr[1], tArr[2] := t.x, t.y, t.z;
    }

    /** Replaces the rotation; the translation is untouched. */
    method SetRotation(r: Quat)
      requires Valid()
      modifies rArr
      ensures Valid()
      ensures Value() == RigTForm(old(Value()).t, r)
    {
      rArr[0], rArr[1], rArr[2], rArr[3] := r.w, r.x, r.y, r.z;
    }

    /** The composition this * a, built in a fresh object: the rotation is the
        product of the rotations, the translation is this translation plus a's
        translation rotated by this rotation. */
    method Times(a: RigTFormObject) returns (res: RigTFormObject)
      requires Valid() && a.Valid()
      ensures res.Valid() && fresh(res.tArr) && fresh(res.rArr)
      ensures res.Value() == Compose(Value(), a.Value())
    {
      var r := GetRotation();
      var at := a.GetTranslation();
      res := new RigTFormObject.Default();
      res.SetRotation(Mul(r, a.GetRotation()));
      var temp := Apply(RigidTransforms.FromRotation(r), Vec4(at.x, at.y, at.z, 0.0));
      var temp2 := new real[3];
      for i := 0 to 3
        modifies temp2
        invariant forall k :: 0 <= k < i ==> temp2[k] == Vec4At(temp, k)
      {
        temp2[i] := Vec4At(temp, i);
      }
      ApplyDirection(RigidTransforms.FromRotation(r), at);
      assert Vec3(temp2[0], temp2[1], temp2[2]) == Rotate(r, at);
      res.SetTranslation(Add(GetTranslation(), Vec3(temp2[0], temp2[1], temp2[2])));
    }
  }

  /** The inverse of x, built in a fresh object: the inverse rotation, and the
      translation rotated by it and negated component by component. */
  method Inverse(x: RigTFormObject) returns (res: RigTFormObject)
    requires x.Valid()
    ensures res.Valid() && fresh(res.tArr) && fresh(res.rArr)
    ensures res.Value() == RigidTransforms.Inverse(x.Value())
  {
    var ri := Inv(x.GetRotation());
    var t := NegatedRotation(ri, x.GetTranslation());
    res := new RigTFormObject.Default();
    res.SetRotation(ri);
    res.SetTranslation(t);
  }

  /** The translation part of an inverse: the direction (v, 0) rotated by ri,
      then negated slot by slot. */
  method NegatedRotation(ri: Quat, v: Vec3) returns (t: Vec3)
    ensures t == Neg(Rotate(ri, v))
  {
    var temp := Apply(RigidTransforms.FromRotation(ri), Vec4(v.x, v.y, v.z, 0.0));
    var temp2 := new real[3];
    for i := 0 to 3
      invariant forall k :: 0 <= k < i ==> temp2[k] == -Vec4At(temp, k)
    {
      temp2[i] := -Vec4At(temp, i);
    }
    ApplyDirection(RigidTransforms.FromRotation(ri), v);
    t := Vec3(temp2[0], temp2[1], temp2[2]);
  }
}
