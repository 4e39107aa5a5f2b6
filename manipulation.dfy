/** The manipulation state machine of the two-cube viewer: which frame is the
    eye (`views`), which frame is being manipulated (`objects`), and, when the
    sky camera manipulates itself, whether it does so about the world origin
    or about its own frame (`world`). Participants are numbered 0 (first cube),
    1 (second cube) and 2 (the sky camera). A mouse drag, already turned into a
    motion `m`, is applied to the manipulated frame with respect to an
    auxiliary frame chosen from this state. */
module Manipulation {
  import opened Quaternions
  import opened RigidTransforms
  import opened Options
  import opened MouseButtons

  const Sky: int := 2

  /** 'v' cycles the eye: cube 1, cube 2, sky, cube 1, ... */
  function NextView(v: int): (r: int)
    requires 0 <= v <= 2
    ensures 0 <= r <= 2 && r == (v + 1) % 3
  {
    if v == 2 then 0 else v + 1
  }

  /** 'o' cycles the manipulated object in the same order. */
  function NextObject(o: int): (r: int)
    requires 0 <= o <= 2
    ensures 0 <= r <= 2 && r == (o + 1) % 3
  {
    if o == 1 then 2 else if o == 2 then 0 else o + 1
  }

  lemma CyclesReturn(v: int, o: int)
    requires 0 <= v <= 2 && 0 <= o <= 2
    ensures NextView(NextView(NextView(v))) == v
    ensures NextObject(NextObject(NextObject(o))) == o
    ensures NextView(v) != v && NextObject(o) != o
  {
  }

  /** Ego motion: the translation of m with its rotation inverted. */
  function EgoMotion(m: RigTForm): RigTForm {
    Compose(TransFact(m), Inverse(LinFact(m)))
  }

  /** The ego motion keeps m's translation and inverts its rotation. */
  lemma EgoMotionParts(m: RigTForm)
    ensures EgoMotion(m) == RigTForm(m.t, Inv(m.r))
  {
    InverseOfRotation(m.r);
    TranslationThenRotation(m.t, Inv(m.r));
  }

  /** A motion expressed in the moved frame itself: A * X * inv(A) * A is A * X. */
  lemma SelfFrameMotion(a: RigTForm, x: RigTForm)
    requires IsRigid(a) && IsRigid(x)
    ensures DoMtoOwrtA(a, x, a) == Compose(a, x)
  {
    ComposeRigid(a, x);
    InverseRigid(a);
    ComposeAssoc(Compose(a, x), Inverse(a), a);
    ComposeInverse(a);
    ComposeIdentity(Compose(a, x));
  }

  /** The frame a motion is expressed in, from the object and eye frames: for
      a cube, the mixed frame of the cube and the eye; for the sky as its own
      eye, the world origin with the sky's axes (world-sky) or the sky frame
      itself (sky-sky). The sky cannot be moved from a cube's view: None. */
  function AuxFrameOf(objects: int, views: int, world: int, obj: RigTForm, eye: RigTForm): (a: Option<RigTForm>)
    ensures a.None? <==> objects == Sky && views != Sky
  {
    if objects != Sky then Some(MakeMixedFrame(obj, eye))
    else if views != Sky then None
    else if world == 1 then Some(LinFact(eye))
    else Some(eye)
  }

  /** The frame of the manipulated object after the motion m, given the
      auxiliary frame aux. A cube seen from elsewhere moves by m about aux; a
      cube that is the eye, and the sky in sky-sky mode, move by the ego motion
      about themselves; the sky in world-sky mode moves by the inverse of m
      about aux. */
  function MoveAbout(objects: int, views: int, world: int, aux: RigTForm, obj: RigTForm, eye: RigTForm, m: RigTForm): RigTForm {
    var (a, motion, o) :=
      if objects != Sky && objects != views then (aux, m, obj)
      else if objects != Sky then (eye, EgoMotion(m), eye)
      else if world == 1 then (aux, Inverse(m), obj)
      else (eye, EgoMotion(m), eye);
    DoMtoOwrtA(a, motion, o)
  }

  /** The new frame of the manipulated object, or None when manipulation is
      refused. */
  function Moved(objects: int, views: int, world: int, obj: RigTForm, eye: RigTForm, m: RigTForm): (r: Option<RigTForm>)
    ensures r.None? <==> objects == Sky && views != Sky
  {
    match AuxFrameOf(objects, views, world, obj, eye)
    case None => None
    case Some(aux) => Some(MoveAbout(objects, views, world, aux, obj, eye, m))
  }

  /** The drag handler as hw3/asst2.cpp writes it: the auxiliary frame is
      computed first, on every drag and whether or not a button is held, and
      only then are the button and valid_manipulation consulted. None: the
      computation ran off the end of give_auxFrame (undefined behaviour).
      Some(None): no frame moves. Some(Some(f)): the manipulated frame
      becomes f. */
  function MotionAsWritten(clickDown: bool, objects: int, views: int, world: int, obj: RigTForm, eye: RigTForm, m: RigTForm): (r: Option<Option<RigTForm>>)
    ensures r.None? <==> objects == Sky && views != Sky
  {
    match AuxFrameOf(objects, views, world, obj, eye)
    case None => None
    case Some(aux) => Some(if clickDown then Some(MoveAbout(objects, views, world, aux, obj, eye, m)) else None)
  }

  /** The handler the model uses (Manipulator.Motion) consults the frame only
      when a button is held and manipulation is valid. It is defined in every
      state and agrees with the handler as written wherever that one is. */
  lemma MotionAgreesWhereDefined(clickDown: bool, objects: int, views: int, world: int, obj: RigTForm, eye: RigTForm, m: RigTForm)
    ensures MotionAsWritten(clickDown, objects, views, world, obj, eye, m).Some? ==>
              MotionAsWritten(clickDown, objects, views, world, obj, eye, m).value
              == (if clickDown then Moved(objects, views, world, obj, eye, m) else None)
    ensures !clickDown || (objects == Sky && views != Sky) ==>
              (if clickDown then Moved(objects, views, world, obj, eye, m) else None) == None
  {
  }

  /** The input that shows it: a drag (motion events arrive only while a
      button is held) with the sky selected and the first cube as the eye.
      The handler as written evaluates give_auxFrame past its last return;
      the intended handler refuses the motion and leaves every frame as it
      was. */
  lemma DragFromCubeAtSkyReachesUndefinedFrame(obj: RigTForm, eye: RigTForm, m: RigTForm)
    ensures MotionAsWritten(true, Sky, 0, 1, obj, eye, m) == None
    ensures Moved(Sky, 0, 1, obj, eye, m) == None
  {
  }

  /** A cube seen from another frame and turned by a pure rotation turns about
      its own centre: its origin stays where it was. */
  lemma CubeRotationKeepsCentre(objects: int, views: int, world: int, obj: RigTForm, eye: RigTForm, m: RigTForm)
    requires objects != Sky && objects != views
    requires IsRigid(eye) && IsRigid(m) && m.t == Zero3
    ensures Moved(objects, views, world, obj, eye, m).Some?
    ensures Moved(objects, views, world, obj, eye, m).value.t == obj.t
  {
    RotationAboutMixedFrameKeepsOrigin(obj, eye, m);
  }

  /** A cube seen from another frame and moved by a pure translation keeps its
      orientation. */
  lemma CubeTranslationKeepsOrientation(objects: int, views: int, world: int, obj: RigTForm, eye: RigTForm, m: RigTForm)
    requires objects != Sky && objects != views
    requires IsRigid(eye) && m.r == QIdentity
    ensures Moved(objects, views, world, obj, eye, m).Some?
    ensures Moved(objects, views, world, obj, eye, m).value.r == obj.r
  {
    TranslationAboutMixedFrameKeepsRotation(obj, eye, m);
  }

  /** An eye that moves itself (a cube that is the eye, or the sky in sky-sky
      mode) applies m in its own frame with the rotation reversed. */
  lemma EgoMove(objects: int, views: int, world: int, obj: RigTForm, eye: RigTForm, m: RigTForm)
    requires (objects != Sky && objects == views) || (objects == Sky && views == Sky && world == 0)
    requires IsRigid(eye) && IsRigid(m)
    ensures Moved(objects, views, world, obj, eye, m) == Some(Compose(eye, RigTForm(m.t, Inv(m.r))))
  {
    EgoMotionParts(m);
    InvUnit(m.r);
    SelfFrameMotion(eye, EgoMotion(m));
  }

  /** In world-sky mode a pure rotation orbits the sky camera about the world
      origin: its distance from the origin is kept. */
  lemma WorldSkyOrbit(obj: RigTForm, eye: RigTForm, m: RigTForm)
    requires IsRigid(eye) && IsRigid(m) && m.t == Zero3
    ensures Moved(Sky, Sky, 1, obj, eye, m).Some?
    ensures Len2(Moved(Sky, Sky, 1, obj, eye, m).value.t) == Len2(obj.t)
  {
    InverseRigid(m);
    InverseOfRotation(m.r);
    RotationAboutWorldOriginKeepsDistance(LinFact(eye), Inverse(m), obj);
  }

  /** In world-sky mode a pure translation keeps the sky camera's orientation. */
  lemma WorldSkyTranslationKeepsOrientation(obj: RigTForm, eye: RigTForm, m: RigTForm)
    requires IsRigid(eye) && m.r == QIdentity
    ensures Moved(Sky, Sky, 1, obj, eye, m).Some?
    ensures Moved(Sky, Sky, 1, obj, eye, m).value.r == obj.r
  {
    UnitInv(QIdentity);
    TranslationKeepsRotation(LinFact(eye), Inverse(m), obj);
  }

  class Manipulator {
    var views: int
    var objects: int
    var world: int
    var skyRbt: RigTForm
    const objectRbt: array<RigTForm>
    const mouse: MouseState

    ghost predicate Valid()
      reads this, mouse
    {
      objectRbt.Length == 2 && 0 <= views <= 2 && 0 <= objects <= 2 && 0 <= world <= 1 && mouse.Valid()
    }

    /** The start-up state: the sky camera is the eye, the first cube is
        manipulated, sky manipulation is about the world origin. */
    constructor (height: int)
      ensures Valid() && fresh(objectRbt) && fresh(mouse)
      ensures views == 2 && objects == 0 && world == 1
      ensures skyRbt == RigidTransforms.FromTranslation(Vec3(0.0, 0.25, 4.0))
      ensures objectRbt[..] == [RigidTransforms.FromTranslation(Vec3(-1.0, 0.0, 0.0)), RigidTransforms.FromTranslation(Vec3(1.0, 0.0, 0.0))]
      ensures !mouse.clickDown && mouse.windowHeight == height
    {
      views, objects, world := 2, 0, 1;
      skyRbt := RigidTransforms.FromTranslation(Vec3(0.0, 0.25, 4.0));
      objectRbt := new RigTForm[2] [RigidTransforms.FromTranslation(Vec3(-1.0, 0.0, 0.0)), RigidTransforms.FromTranslation(Vec3(1.0, 0.0, 0.0))];
      mouse := new MouseState(height);
    }

    /** The frame of participant i. */
    function Frame(i: int): RigTForm
      reads this, objectRbt
      requires objectRbt.Length == 2 && 0 <= i <= 2
    {
      if i == Sky then skyRbt else objectRbt[i]
    }

    function EyeRbt(): RigTForm
      reads this, objectRbt
      requires objectRbt.Length == 2 && 0 <= views <= 2
    {
      Frame(views)
    }

    function ObjectRbt(): RigTForm
      reads this, objectRbt
      requires objectRbt.Length == 2 && 0 <= objects <= 2
    {
      Frame(objects)
    }

    /** Manipulation is refused only when the sky is the object but not the eye. */
    predicate ValidManipulation()
      reads this
    {
      !(objects == Sky && views != Sky)
    }

    /** The auxiliary frame of the current state. */
    function AuxFrame(): (a: Option<RigTForm>)
      reads this, objectRbt
      requires objectRbt.Length == 2 && 0 <= views <= 2 && 0 <= objects <= 2
      ensures a.Some? <==> ValidManipulation()
    {
      AuxFrameOf(objects, views, world, ObjectRbt(), EyeRbt())
    }

    /** The arcball is drawn at the manipulated cube, or at the world origin
        for the sky. Either way it sits at the origin of the frame a drag
        turns about: the cube's mixed frame, or world-sky's frame. */
    function ArcballRbt(): (r: RigTForm)
      reads this, objectRbt
      requires objectRbt.Length == 2 && 0 <= views <= 2 && 0 <= objects <= 2
      ensures objects != Sky || (views == Sky && world == 1) ==>
                AuxFrame().Some? && AuxFrame().value.t == r.t
    {
      if objects != Sky then ObjectRbt() else Identity
    }

    /** 'v': the next eye. */
    method KeyView()
      requires Valid()
      modifies this`views
      ensures Valid() && views == NextView(old(views))
    {
      if views == 2 {
        views := 0;
      } else {
        views := views + 1;
      }
    }

    /** 'o': the next manipulated object. */
    method KeyObject()
      requires Valid()
      modifies this`objects
      ensures Valid() && objects == NextObject(old(objects))
    {
      if objects == 1 {
        objects := 2;
      } else if objects == 2 {
        objects := 0;
      } else {
        objects := objects + 1;
      }
    }

    /** 'm': switch between world-sky and sky-sky manipulation, only while the
        sky is both eye and object. */
    method KeyMode()
      requires Valid()
      modifies this`world
      ensures Valid()
      ensures objects == Sky && views == Sky ==> world == 1 - old(world)
      ensures !(objects == Sky && views == Sky) ==> world == old(world)
    {
      if world == 1 && objects == 2 && views == 2 {
        world := 0;
      } else if world == 0 && objects == 2 && views == 2 {
        world := world + 1;
      }
    }

    /** A drag to window position (x, y) that the arcball or the mouse deltas
        turned into the motion m. While a button is held and manipulation is
        allowed, the manipulated frame becomes Moved(...) of the old state and
        nothing else moves; the click position is always updated. */
    method Motion(m: RigTForm, x: int, y: int)
      requires Valid()
      modifies this`skyRbt, objectRbt, mouse`clickX, mouse`clickY
      ensures Valid()
      ensures mouse.clickX == x && mouse.clickY == mouse.windowHeight - y - 1
      ensures var moved := old(Moved(objects, views, world, ObjectRbt(), EyeRbt(), m));
              if old(mouse.clickDown) && moved.Some? then
                if objects != Sky then
                  skyRbt == old(skyRbt) && objectRbt[..] == old(objectRbt[..])[objects := moved.value]
                else
                  skyRbt == moved.value && objectRbt[..] == old(objectRbt[..])
              else
                skyRbt == old(skyRbt) && objectRbt[..] == old(objectRbt[..])
    {
      if mouse.clickDown {
        var moved := Moved(objects, views, world, ObjectRbt(), EyeRbt(), m);
        if moved.Some? {
          if objects != Sky {
            objectRbt[objects] := moved.value;
          } else {
            skyRbt := moved.value;
          }
        }
      }
      mouse.clickX := x;
      mouse.clickY := mouse.windowHeight - y - 1;
    }
  }
}
