/** The keyframe animator of the robot viewers: a list of keyframes (each one
    transform per scene-graph transform node, in scanner order), a cursor into
    that list together with the number of the current frame, the scene the
    frames are copied to and from, the text file the list is saved to, and the
    timed playback that blends keyframes into the scene. The two viewers share
    everything except playback, which is Catmull-Rom over four frames in the
    later one and linear over two frames in the earlier one. */
module Keyframes {
  import opened Quaternions
  import opened RigidTransforms
  import opened Options

  datatype Playback = CatmullRom | Linear

  /** The number of transform nodes the start-up scene holds: the sky camera,
      the ground, two robots with nine joints each, and, in the Catmull-Rom
      viewer, two lights. */
  function InitialNodes(style: Playback): nat {
    if style == CatmullRom then 24 else 22
  }

  const InitialMsBetweenKeyFrames: int := 2000
  const FramesPerSecond: int := 60

  // ---------------------------------------------------------------------------
  // The list operations the store is specified by

  /** s with x inserted right after position i. */
  function InsertAfter<T>(s: seq<T>, i: nat, x: T): seq<T>
    requires i < |s|
  {
    s[..i + 1] + [x] + s[i + 1..]
  }

  /** s without its element at position i. */
  function RemoveAt<T>(s: seq<T>, i: nat): seq<T>
    requires i < |s|
  {
    s[..i] + s[i + 1..]
  }

  /** Inserting after i puts x at i + 1 and shifts the later elements by one;
      every element keeps its contents and relative order. */
  lemma InsertAfterShape<T>(s: seq<T>, i: nat, x: T)
    requires i < |s|
    ensures |InsertAfter(s, i, x)| == |s| + 1
    ensures InsertAfter(s, i, x)[i + 1] == x
    ensures forall j :: 0 <= j <= i ==> InsertAfter(s, i, x)[j] == s[j]
    ensures forall j :: i + 1 < j < |s| + 1 ==> InsertAfter(s, i, x)[j] == s[j - 1]
  {
  }

  /** Removing position i shifts the later elements down by one. */
  lemma RemoveAtShape<T>(s: seq<T>, i: nat)
    requires i < |s|
    ensures |RemoveAt(s, i)| == |s| - 1
    ensures forall j :: 0 <= j < i ==> RemoveAt(s, i)[j] == s[j]
    ensures forall j :: i <= j < |s| - 1 ==> RemoveAt(s, i)[j] == s[j + 1]
  {
  }

  /** Deleting a frame just created undoes the creation. */
  lemma RemoveInserted<T>(s: seq<T>, i: nat, x: T)
    requires i < |s|
    ensures RemoveAt(InsertAfter(s, i, x), i + 1) == s
  {
    var r := InsertAfter(s, i, x);
    assert r[..i + 1] == s[..i + 1];
    assert r[i + 2..] == s[i + 1..];
    assert s == s[..i + 1] + s[i + 1..];
  }

  // ---------------------------------------------------------------------------
  // The animation file: a header line "frames nodes", then per frame one line
  // "qw qx qy qz tx ty tz" per node. A line is its sequence of numbers.

  type Line = seq<real>

  function NodeLine(x: RigTForm): (l: Line)
    ensures |l| == 7
  {
    [x.r.w, x.r.x, x.r.y, x.r.z, x.t.x, x.t.y, x.t.z]
  }

  /** The transform a node line describes: rotation first, then translation. */
  function NodeOf(l: Line): RigTForm
    requires |l| >= 7
  {
    RigTForm(Vec3(l[4], l[5], l[6]), Quat(l[0], l[1], l[2], l[3]))
  }

  /** The lines of one frame: its first n nodes. */
  function FrameLines(f: seq<RigTForm>, n: nat): (ls: seq<Line>)
    requires n <= |f|
    ensures |ls| == n
  {
    seq(n, j requires 0 <= j < n => NodeLine(f[j]))
  }

  /** The node lines of all frames, in order. */
  function BodyLines(frames: seq<seq<RigTForm>>, n: nat): (ls: seq<Line>)
    requires forall k :: 0 <= k < |frames| ==> n <= |frames[k]|
    ensures |ls| == |frames| * n
  {
    if |frames| == 0 then []
    else BodyLines(frames[..|frames| - 1], n) + FrameLines(frames[|frames| - 1], n)
  }

  /** The whole file for frames of n nodes. */
  function Serialize(frames: seq<seq<RigTForm>>, n: nat): seq<Line>
    requires forall k :: 0 <= k < |frames| ==> n <= |frames[k]|
  {
    [[|frames| as real, n as real]] + BodyLines(frames, n)
  }

  function HeaderFrames(file: seq<Line>): int
    requires |file| >= 1 && |file[0]| >= 2
  {
    file[0][0].Floor
  }

  function HeaderNodes(file: seq<Line>): int
    requires |file| >= 1 && |file[0]| >= 2
  {
    file[0][1].Floor
  }

  /** A file the reader can take: a header with two whole non-negative counts,
      and as many node lines of seven numbers as the header announces. */
  predicate WellFormed(file: seq<Line>) {
    |file| >= 1 && |file[0]| >= 2
    && HeaderFrames(file) >= 0 && HeaderNodes(file) >= 0
    && |file| >= 1 + HeaderFrames(file) * HeaderNodes(file)
    && forall i :: 1 <= i < 1 + HeaderFrames(file) * HeaderNodes(file) ==> |file[i]| >= 7
  }

  /** The frame read from n consecutive node lines. */
  function ParseFrame(ls: seq<Line>): (f: seq<RigTForm>)
    requires forall i :: 0 <= i < |ls| ==> |ls[i]| >= 7
    ensures |f| == |ls|
  {
    seq(|ls|, i requires 0 <= i < |ls| => NodeOf(ls[i]))
  }

  /** The first k frames of n nodes read from the node lines ls. */
  function ParseFrames(ls: seq<Line>, k: nat, n: nat): (frames: seq<seq<RigTForm>>)
    requires k * n <= |ls|
    requires forall i :: 0 <= i < k * n ==> |ls[i]| >= 7
    ensures |frames| == k
    ensures forall j :: 0 <= j < k ==> |frames[j]| == n
  {
    if k == 0 then []
    else
      assert (k - 1) * n + n == k * n;
      ParseFrames(ls, k - 1, n) + [ParseFrame(ls[(k - 1) * n..k * n])]
  }

  /** Reading a frame back from its lines gives the frame. */
  lemma ParseFrameLines(f: seq<RigTForm>)
    ensures ParseFrame(FrameLines(f, |f|)) == f
  {
  }

  /** The frames read from a prefix of the lines do not depend on what follows. */
  lemma {:induction false} ParseFramesPrefix(ls: seq<Line>, more: seq<Line>, k: nat, n: nat)
    requires k * n <= |ls|
    requires forall i :: 0 <= i < k * n ==> |ls[i]| >= 7
    ensures ParseFrames(ls + more, k, n) == ParseFrames(ls, k, n)
  {
    if k > 0 {
      assert (k - 1) * n + n == k * n;
      ParseFramesPrefix(ls, more, k - 1, n);
      assert (ls + more)[(k - 1) * n..k * n] == ls[(k - 1) * n..k * n];
    }
  }

  /** Every line of the body is a node line of seven numbers. */
  lemma {:induction false} BodyLinesWidth(frames: seq<seq<RigTForm>>, n: nat)
    requires forall k :: 0 <= k < |frames| ==> n <= |frames[k]|
    ensures forall i :: 0 <= i < |BodyLines(frames, n)| ==> |BodyLines(frames, n)[i]| == 7
  {
    if |frames| > 0 {
      var init, last := frames[..|frames| - 1], frames[|frames| - 1];
      BodyLinesWidth(init, n);
      var front, tail := BodyLines(init, n), FrameLines(last, n);
      assert BodyLines(frames, n) == front + tail;
      forall i | 0 <= i < |front + tail|
        ensures |(front + tail)[i]| == 7
      {
        if i >= |front| {
          assert (front + tail)[i] == tail[i - |front|];
        }
      }
    }
  }

  /** Reading the node lines written for frames of n nodes gives the frames. */
  lemma {:induction false} ParseBodyLines(frames: seq<seq<RigTForm>>, n: nat)
    requires forall k :: 0 <= k < |frames| ==> |frames[k]| == n
    ensures forall i :: 0 <= i < |frames| * n ==> |BodyLines(frames, n)[i]| >= 7
    ensures ParseFrames(BodyLines(frames, n), |frames|, n) == frames
  {
    var body := BodyLines(frames, n);
    BodyLinesWidth(frames, n);
    if |frames| > 0 {
      var k := |frames|;
      var init, last := frames[..k - 1], frames[k - 1];
      ParseBodyLines(init, n);
      var front := BodyLines(init, n);
      assert body == front + FrameLines(last, n);
      assert (k - 1) * n + n == k * n;
      BodyLinesWidth(frames, n);
      ParseFramesPrefix(front, FrameLines(last, n), k - 1, n);
      assert body[(k - 1) * n..k * n] == FrameLines(last, n);
      ParseFrameLines(last);
      assert frames == init + [last];
    }
  }

  /** The file written for frames of n nodes is well formed, announces their
      number and size, and reads back as the same frames. */
  lemma ReadAfterWrite(frames: seq<seq<RigTForm>>, n: nat)
    requires forall k :: 0 <= k < |frames| ==> |frames[k]| == n
    ensures WellFormed(Serialize(frames, n))
    ensures HeaderFrames(Serialize(frames, n)) == |frames|
    ensures HeaderNodes(Serialize(frames, n)) == n
    ensures ParseFrames(Serialize(frames, n)[1..], |frames|, n) == frames
  {
    var file := Serialize(frames, n);
    ParseBodyLines(frames, n);
    assert file[1..] == BodyLines(frames, n);
  }

  // ---------------------------------------------------------------------------
  // Playback blends

  /** The Catmull-Rom pose between keyframes c1 and c2, node by node. */
  function CrsBlend(c0: seq<RigTForm>, c1: seq<RigTForm>, c2: seq<RigTForm>, c3: seq<RigTForm>,
                    i: real, power: (Quat, real) -> Quat): (pose: seq<RigTForm>)
    requires |c0| == |c1| == |c2| == |c3|
    ensures |pose| == |c1|
  {
    seq(|c1|, j requires 0 <= j < |c1| => CrsInterpolate(c0[j], c1[j], c2[j], c3[j], i, power))
  }

  /** The linear pose between keyframes a and b, node by node. */
  function LinearBlend(a: seq<RigTForm>, b: seq<RigTForm>, i: real, power: (Quat, real) -> Quat): (pose: seq<RigTForm>)
    requires |a| == |b|
    ensures |pose| == |a|
  {
    seq(|a|, j requires 0 <= j < |a| => Interpolate(a[j], b[j], i, power))
  }

  /** At a whole time the Catmull-Rom pose is keyframe c1 itself, and just
      before the next whole time it is keyframe c2. */
  lemma CrsBlendHitsKeyframes(c0: seq<RigTForm>, c1: seq<RigTForm>, c2: seq<RigTForm>, c3: seq<RigTForm>,
                              i: real, power: (Quat, real) -> Quat)
    requires |c0| == |c1| == |c2| == |c3|
    ensures Abs(i) < Eps ==> CrsBlend(c0, c1, c2, c3, i, power) == c1
    ensures Abs(i - 1.0) < Eps ==> CrsBlend(c0, c1, c2, c3, i, power) == c2
  {
    forall j | 0 <= j < |c1|
      ensures Abs(i) < Eps ==> CrsBlend(c0, c1, c2, c3, i, power)[j] == c1[j]
      ensures Abs(i - 1.0) < Eps ==> CrsBlend(c0, c1, c2, c3, i, power)[j] == c2[j]
    {
      CrsEnds(c0[j], c1[j], c2[j], c3[j], i, power);
    }
  }

  /** The linear pose starts at keyframe a and ends at keyframe b. */
  lemma LinearBlendHitsKeyframes(a: seq<RigTForm>, b: seq<RigTForm>, power: (Quat, real) -> Quat)
    requires |a| == |b|
    ensures LinearBlend(a, b, 0.0, power) == a
    ensures LinearBlend(a, b, 1.0, power) == b
  {
    forall j | 0 <= j < |a|
      ensures LinearBlend(a, b, 0.0, power)[j] == a[j] && LinearBlend(a, b, 1.0, power)[j] == b[j]
    {
      InterpolateEnds(a[j], b[j], power);
    }
  }

  /** Where playback leaves the cursor while showing time t: on the last frame
      of the segment read. */
  function SegmentCursor(style: Playback, t: real): int
    requires t >= 0.0
  {
    if style == CatmullRom then t.Floor + 3 else t.Floor + 2
  }

  /** The pose shown at time t, for 0 <= t < |frames| - 3: Catmull-Rom over
      frames floor(t) .. floor(t) + 3, or linear between frames floor(t) + 1 and
      floor(t) + 2, at the fraction t - floor(t). */
  function PlaybackPose(style: Playback, frames: seq<seq<RigTForm>>, t: real, power: (Quat, real) -> Quat): (pose: seq<RigTForm>)
    requires 0.0 <= t < (|frames| - 3) as real
    requires forall k :: 0 <= k < |frames| ==> |frames[k]| == |frames[0]|
    ensures |pose| == |frames[0]|
  {
    var k := t.Floor;
    if style == CatmullRom then CrsBlend(frames[k], frames[k + 1], frames[k + 2], frames[k + 3], t - k as real, power)
    else LinearBlend(frames[k + 1], frames[k + 2], t - k as real, power)
  }

  /** At a whole time k playback shows keyframe k + 1 exactly, in both styles. */
  lemma PoseAtWholeTime(style: Playback, frames: seq<seq<RigTForm>>, k: nat, power: (Quat, real) -> Quat)
    requires k + 3 < |frames|
    requires forall j :: 0 <= j < |frames| ==> |frames[j]| == |frames[0]|
    ensures PlaybackPose(style, frames, k as real, power) == frames[k + 1]
  {
    assert (k as real).Floor == k;
    if style == CatmullRom {
      CrsBlendHitsKeyframes(frames[k], frames[k + 1], frames[k + 2], frames[k + 3], 0.0, power);
    } else {
      LinearBlendHitsKeyframes(frames[k + 1], frames[k + 2], power);
    }
  }

  /** Frame k of a well-formed file ends n lines after it starts, within the
      file, and every line up to its end is long enough to read. */
  lemma FrameBounds(file: seq<Line>, k: nat)
    requires WellFormed(file) && k < HeaderFrames(file)
    ensures var n := HeaderNodes(file);
            && (k + 1) * n == k * n + n
            && 1 + (k + 1) * n <= |file|
            && forall i :: 1 <= i < 1 + (k + 1) * n ==> |file[i]| >= 7
  {
    MulMono(k + 1, HeaderFrames(file), HeaderNodes(file));
  }

  /** Reading frame k of a file extends the first k frames by one. */
  lemma ReadStep(file: seq<Line>, k: nat, n: nat)
    requires (k + 1) * n == k * n + n && 1 + (k + 1) * n <= |file|
    requires forall i :: 1 <= i < 1 + (k + 1) * n ==> |file[i]| >= 7
    ensures ParseFrames(file[1..], k + 1, n) == ParseFrames(file[1..], k, n) + [ParseFrame(file[1 + k * n..1 + (k + 1) * n])]
  {
    assert file[1..][k * n..(k + 1) * n] == file[1 + k * n..1 + (k + 1) * n];
  }

  lemma ZeroOver(d: real)
    requires d != 0.0
    ensures 0 as real / d == 0.0
  {
  }

  lemma MulMono(a: int, b: int, c: nat)
    requires a <= b
    ensures a * c <= b * c
  {
  }

  // ---------------------------------------------------------------------------
  // The editor

  class KeyframeEditor {
    const style: Playback
    /** The keyframes, in order. */
    var frames: seq<seq<RigTForm>>
    /** The list cursor as a position: |frames| stands for the end of the list. */
    var cur: nat
    /** The number of the current frame, -1 when there is none. */
    var frameNumber: int
    /** The number of nodes per frame the file is written with. */
    var numRbtNodes: int
    /** The transforms of the scene's transform nodes, in scanner order. */
    const scene: array<RigTForm>
    var animating: bool
    var msBetweenKeyFrames: int

    /** The cursor and the frame number agree: both name the current frame,
        and there is none (the cursor is at the end, the number is -1) exactly
        when the list is empty. */
    ghost predicate CursorInvariant()
      reads this
    {
      -1 <= frameNumber < |frames|
      && (frameNumber == -1 <==> |frames| == 0)
      && cur == (if |frames| == 0 then 0 else frameNumber)
    }

    ghost predicate Valid()
      reads this
    {
      (forall k :: 0 <= k < |frames| ==> |frames[k]| == scene.Length)
      && numRbtNodes == scene.Length
      && cur <= |frames|
      && 100 <= msBetweenKeyFrames <= 10000 && msBetweenKeyFrames % 100 == 0
      && (animating ==> |frames| >= 4)
      && (!animating ==> CursorInvariant())
    }

    /** No keyframes, no current frame, two seconds between keyframes. */
    constructor (style: Playback, initial: seq<RigTForm>)
      requires |initial| == InitialNodes(style)
      ensures Valid() && fresh(scene)
      ensures this.style == style && scene[..] == initial
      ensures frames == [] && cur == 0 && frameNumber == -1 && !animating
      ensures numRbtNodes == InitialNodes(style) && msBetweenKeyFrames == InitialMsBetweenKeyFrames
    {
      this.style := style;
      frames := [];
      cur := 0;
      frameNumber := -1;
      numRbtNodes := InitialNodes(style);
      scene := new RigTForm[|initial|](i requires 0 <= i < |initial| => initial[i]);
      animating := false;
      msBetweenKeyFrames := InitialMsBetweenKeyFrames;
    }

    /** Loads the current frame into the scene, node by node. */
    method CopyCurFrameToScene()
      requires Valid() && cur < |frames|
      modifies scene
      ensures scene[..] == frames[cur]
    {
      var f := frames[cur];
      for i := 0 to scene.Length
        invariant scene[..i] == f[..i]
      {
        scene[i] := f[i];
      }
    }

    /** Stores the scene into the current frame, node by node. */
    method CopySceneToCurFrame()
      requires Valid() && cur < |frames|
      modifies this`frames
      ensures Valid()
      ensures frames == old(frames)[cur := scene[..]]
    {
      var f := frames[cur];
      for i := 0 to scene.Length
        invariant |f| == scene.Length
        invariant forall j :: 0 <= j < i ==> f[j] == scene[j]
      {
        f := f[i := scene[i]];
      }
      assert f == scene[..];
      frames := frames[cur := f];
    }

    /** Moves the cursor n places (backwards when n is negative). */
    method IteratorMove(n: int)
      requires 0 <= cur + n <= |frames|
      modifies this`cur
      ensures cur == old(cur) + n
    {
      if n > 0 {
        for i := 0 to n
          invariant cur == old(cur) + i
        {
          cur := cur + 1;
        }
      } else {
        for i := 0 to -n
          invariant cur == old(cur) - i
        {
          cur := cur - 1;
        }
      }
    }

    /** Inserts a copy of the scene right after the current frame and makes it
        the current frame. */
    method CreateNewFrame()
      requires Valid() && !animating && |frames| > 0
      modifies this`frames, this`cur, this`frameNumber
      ensures Valid()
      ensures frames == InsertAfter(old(frames), old(cur), scene[..])
      ensures cur == old(cur) + 1 && frameNumber == old(frameNumber) + 1
    {
      var temp := seq(|frames[cur]|, _ => Identity);
      frames := frames[..cur + 1] + [temp] + frames[cur + 1..];
      cur := cur + 1;
      frameNumber := frameNumber + 1;
      CopySceneToCurFrame();
    }

    /** On an empty list: the scene becomes frame 0, the current frame. */
    method CreateNewFrameWhenEmpty()
      requires Valid() && !animating && |frames| == 0
      modifies this`frames, this`cur, this`frameNumber
      ensures Valid()
      ensures frames == [scene[..]] && cur == 0 && frameNumber == 0
    {
      var temp := seq(scene.Length, _ => Identity);
      for i := 0 to |temp|
        invariant |temp| == scene.Length
        invariant forall j :: 0 <= j < i ==> temp[j] == scene[j]
      {
        temp := temp[i := scene[i]];
      }
      assert temp == scene[..];
      frames := [temp];
      cur := 0;
      frameNumber := frameNumber + 1;
    }

    /** Deletes the current frame. The sole frame leaves an empty list; frame 0
        hands over to its successor (the new frame 0); any other frame hands
        over to its predecessor. The new current frame is loaded into the
        scene. */
    method DeleteCurFrame()
      requires Valid() && !animating && |frames| > 0
      modifies this`frames, this`cur, this`frameNumber, scene
      ensures Valid()
      ensures frames == RemoveAt(old(frames), old(cur))
      ensures old(|frames|) == 1 ==> cur == 0 && frameNumber == -1 && scene[..] == old(scene[..])
      ensures old(|frames|) > 1 && old(frameNumber) == 0 ==>
                cur == 0 && frameNumber == 0 && scene[..] == frames[0]
      ensures old(frameNumber) > 0 ==>
                cur == old(cur) - 1 && frameNumber == old(frameNumber) - 1 && scene[..] == frames[cur]
    {
      if |frames| == 1 {
        frameNumber := frameNumber - 1;
        frames := RemoveAt(frames, cur);
        cur := |frames|;
      } else if frameNumber == 0 {
        frames := RemoveAt(frames, cur);
        cur := 0;
        CopyCurFrameToScene();
      } else {
        var prev := cur - 1;
        frames := RemoveAt(frames, cur);
        cur := prev;
        frameNumber := frameNumber - 1;
        CopyCurFrameToScene();
      }
    }
  
    /** Saves the list: the header, then every frame's first numRbtNodes nodes
        as rotation and translation lines. Nothing changes. */
    method WriteFile() returns (file: seq<Line>)
      requires Valid()
      ensures file == Serialize(frames, numRbtNodes)
    {
      var n := numRbtNodes;
      file := [[|frames| as real, n as real]];
      for k := 0 to |frames|
        invariant file == [[|frames| as real, n as real]] + BodyLines(frames[..k], n)
      {
        for j := 0 to n
          invariant file == [[|frames| as real, n as real]] + BodyLines(frames[..k], n) + FrameLines(frames[k], j)
        {
          var r := frames[k][j].r;
          var t := frames[k][j].t;
          file := file + [[r.w, r.x, r.y, r.z, t.x, t.y, t.z]];
        }
        assert frames[..k + 1][..k] == frames[..k];
      }
      assert frames[..|frames|] == frames;
    }

    /** Reads one frame: per consecutive node lines from line pos on. */
    static method ReadFrame(file: seq<Line>, pos: nat, per: nat) returns (rbts: seq<RigTForm>)
      requires pos + per <= |file|
      requires forall i :: pos <= i < pos + per ==> |file[i]| >= 7
      ensures rbts == ParseFrame(file[pos..pos + per])
    {
      rbts := [];
      for l := 0 to per
        invariant rbts == ParseFrame(file[pos..pos + l])
      {
        rbts := rbts + [NodeOf(file[pos + l])];
      }
    }

    /** Reads the frames of a well-formed file one after the other, each
        inserted before the cursor, which stays at the end of the list. */
    method ReadFrames(file: seq<Line>)
      requires WellFormed(file) && frames == [] && cur == 0
      modifies this`frames, this`cur
      ensures frames == ParseFrames(file[1..], HeaderFrames(file), HeaderNodes(file))
      ensures cur == |frames|
    {
      var numFrames, per := HeaderFrames(file), HeaderNodes(file);
      var pos := 1;
      for k := 0 to numFrames
        invariant pos == 1 + k * per
        invariant frames == ParseFrames(file[1..], k, per)
        invariant cur == |frames|
      {
        FrameBounds(file, k);
        ReadStep(file, k, per);
        var rbts := ReadFrame(file, pos, per);
        pos := pos + per;
        frames := frames + [rbts];
        cur := |frames|;
      }
    }

    /** Replaces the list by the frames a well-formed file holds. The cursor
        goes to frame 0, which is loaded into the scene, or stays at the end of
        an empty list. */
    method ReadFile(file: seq<Line>)
      requires Valid() && !animating && WellFormed(file) && HeaderNodes(file) == scene.Length
      modifies this`frames, this`cur, this`frameNumber, this`numRbtNodes, scene
      ensures Valid()
      ensures frames == ParseFrames(file[1..], HeaderFrames(file), HeaderNodes(file))
      ensures numRbtNodes == HeaderNodes(file)
      ensures |frames| == 0 ==> cur == 0 && frameNumber == -1 && scene[..] == old(scene[..])
      ensures |frames| > 0 ==> cur == 0 && frameNumber == 0 && scene[..] == frames[0]
    {
      var numFrames, per := HeaderFrames(file), HeaderNodes(file);
      frames := [];
      cur := 0;
      frameNumber := -1;
      numRbtNodes := per;
      if numFrames != 0 {
        ReadFrames(file);
        frameNumber := 0;
        cur := 0;
        CopyCurFrameToScene();
      }
    }

    /** Where playback stops: the cursor and the frame number go to the
        second-to-last frame, which is loaded into the scene. */
    method ShowSecondToLast()
      requires Valid() && |frames| >= 2
      modifies this`cur, this`frameNumber, scene
      ensures Valid()
      ensures cur == |frames| - 2 && frameNumber == |frames| - 2 && scene[..] == frames[|frames| - 2]
    {
      cur := |frames|;
      IteratorMove(-2);
      frameNumber := |frames| - 2;
      CopyCurFrameToScene();
    }

    /** Plays back the pose at time t (in keyframe intervals). At or beyond the
        last segment playback ends on the second-to-last frame; otherwise the
        pose of segment floor(t) is blended into the scene. Nothing happens
        when not animating. */
    method InterpolateAndDisplay(t: real, power: (Quat, real) -> Quat) returns (end: bool)
      requires Valid() && t >= 0.0
      modifies this`cur, this`frameNumber, scene
      ensures Valid()
      ensures !animating ==>
                !end && cur == old(cur) && frameNumber == old(frameNumber) && scene[..] == old(scene[..])
      ensures animating && t >= (|frames| - 3) as real ==>
                end && cur == |frames| - 2 && frameNumber == |frames| - 2 && scene[..] == frames[|frames| - 2]
      ensures animating && t < (|frames| - 3) as real ==>
                !end && frameNumber == old(frameNumber)
                && cur == SegmentCursor(style, t) && scene[..] == PlaybackPose(style, frames, t, power)
    {
      if !animating {
        return false;
      }
      if t >= (|frames| - 3) as real {
        ShowSecondToLast();
        return true;
      }
      cur := 0;
      if style == CatmullRom {
        ShowCrsSegment(t, power);
      } else {
        ShowLinearSegment(t, power);
      }
      return false;
    }

    /** Shows the Catmull-Rom pose of segment floor(t), reading frames
        floor(t) .. floor(t) + 3 with the cursor. */
    method ShowCrsSegment(t: real, power: (Quat, real) -> Quat)
      requires Valid() && animating && cur == 0 && style == CatmullRom
      requires 0.0 <= t < (|frames| - 3) as real
      modifies this`cur, scene
      ensures Valid()
      ensures cur == SegmentCursor(style, t) && scene[..] == PlaybackPose(style, frames, t, power)
    {
      var k := t.Floor;
      var i := t - k as real;
      IteratorMove(k);
      var c0 := frames[cur];
      cur := cur + 1;
      var c1 := frames[cur];
      cur := cur + 1;
      var c2 := frames[cur];
      cur := cur + 1;
      var c3 := frames[cur];
      for j := 0 to |c1|
        modifies scene
        invariant forall m :: 0 <= m < j ==> scene[m] == CrsInterpolate(c0[m], c1[m], c2[m], c3[m], i, power)
      {
        scene[j] := CrsInterpolate(c0[j], c1[j], c2[j], c3[j], i, power);
      }
      assert scene[..] == CrsBlend(c0, c1, c2, c3, i, power);
    }

    /** Shows the linear pose of segment floor(t), between frames floor(t) + 1
        and floor(t) + 2. */
    method ShowLinearSegment(t: real, power: (Quat, real) -> Quat)
      requires Valid() && animating && cur == 0 && style == Linear
      requires 0.0 <= t < (|frames| - 3) as real
      modifies this`cur, scene
      ensures Valid()
      ensures cur == SegmentCursor(style, t) && scene[..] == PlaybackPose(style, frames, t, power)
    {
      var k := t.Floor;
      var i := t - k as real;
      IteratorMove(1 + k);
      var prev := frames[cur];
      cur := cur + 1;
      var next := frames[cur];
      for j := 0 to |prev|
        modifies scene
        invariant forall m :: 0 <= m < j ==> scene[m] == Interpolate(prev[m], next[m], i, power)
      {
        scene[j] := Interpolate(prev[j], next[j], i, power);
      }
      assert scene[..] == LinearBlend(prev, next, i, power);
    }

    /** The playback timer at ms milliseconds into the animation: shows that
        moment and returns when to fire next, or stops playback on the
        second-to-last frame. */
    method AnimateTimerCallback(ms: int, power: (Quat, real) -> Quat) returns (next: Option<int>)
      requires Valid() && ms >= 0 && |frames| >= 2
      modifies this`cur, this`frameNumber, this`animating, scene
      ensures Valid()
      ensures next.Some? <==> old(animating) && ms as real / msBetweenKeyFrames as real < (|frames| - 3) as real
      ensures next.Some? ==>
                animating && next.value == ms + 1000 / FramesPerSecond
                && cur == SegmentCursor(style, ms as real / msBetweenKeyFrames as real)
                && frameNumber == old(frameNumber)
                && scene[..] == PlaybackPose(style, frames, ms as real / msBetweenKeyFrames as real, power)
      ensures next.None? ==>
                !animating && cur == |frames| - 2 && frameNumber == |frames| - 2 && scene[..] == frames[|frames| - 2]
    {
      var t := ms as real / msBetweenKeyFrames as real;
      var endReached := InterpolateAndDisplay(t, power);
      if !endReached && animating {
        next := Some(ms + 1000 / FramesPerSecond);
      } else {
        ShowSecondToLast();
        animating := false;
        next := None;
      }
    }

    // -------------------------------------------------------------------------
    // Keys. All but 'w', 'y', '+' and '-' are refused during playback.

    /** Space: load the current frame into the scene, if there is one. */
    method KeyRestore()
      requires Valid()
      modifies scene
      ensures !animating && |frames| > 0 ==> scene[..] == frames[cur]
      ensures animating || |frames| == 0 ==> scene[..] == old(scene[..])
    {
      if !animating && |frames| > 0 {
        CopyCurFrameToScene();
      }
    }

    /** 'n': a new frame from the scene, after the current one. */
    method KeyNew()
      requires Valid()
      modifies this`frames, this`cur, this`frameNumber
      ensures Valid()
      ensures animating ==> frames == old(frames) && cur == old(cur) && frameNumber == old(frameNumber)
      ensures !animating && old(|frames|) == 0 ==> frames == [scene[..]] && cur == 0 && frameNumber == 0
      ensures !animating && old(|frames|) > 0 ==>
                frames == InsertAfter(old(frames), old(cur), scene[..])
                && cur == old(cur) + 1 && frameNumber == old(frameNumber) + 1
    {
      if animating {
        return;
      }
      if |frames| > 0 {
        CreateNewFrame();
      } else {
        CreateNewFrameWhenEmpty();
      }
    }

    /** 'u': store the scene into the current frame; on an empty list this
        creates frame 0 as 'n' does. */
    method KeyUpdate()
      requires Valid()
      modifies this`frames, this`cur, this`frameNumber
      ensures Valid()
      ensures animating ==> frames == old(frames) && cur == old(cur) && frameNumber == old(frameNumber)
      ensures !animating && old(|frames|) == 0 ==> frames == [scene[..]] && cur == 0 && frameNumber == 0
      ensures !animating && old(|frames|) > 0 ==>
                frames == old(frames)[old(cur) := scene[..]] && cur == old(cur) && frameNumber == old(frameNumber)
    {
      if animating {
        return;
      }
      if |frames| > 0 {
        CopySceneToCurFrame();
        return;
      }
      KeyNew();
    }

    /** '>': step to the next frame and load it, unless at the last frame. */
    method KeyNext()
      requires Valid()
      modifies this`cur, this`frameNumber, scene
      ensures Valid()
      ensures !animating && |frames| > 0 && old(frameNumber) != |frames| - 1 ==>
                frameNumber == old(frameNumber) + 1 && cur == old(cur) + 1 && scene[..] == frames[cur]
      ensures animating || |frames| == 0 || old(frameNumber) == |frames| - 1 ==>
                frameNumber == old(frameNumber) && cur == old(cur) && scene[..] == old(scene[..])
    {
      if animating {
        return;
      }
      if |frames| == 0 || frameNumber == |frames| - 1 {
        return;
      }
      frameNumber := frameNumber + 1;
      cur := cur + 1;
      CopyCurFrameToScene();
    }

    /** '<': step to the previous frame and load it, unless at frame 0. */
    method KeyPrev()
      requires Valid()
      modifies this`cur, this`frameNumber, scene
      ensures Valid()
      ensures !animating && |frames| > 0 && old(frameNumber) != 0 ==>
                frameNumber == old(frameNumber) - 1 && cur == old(cur) - 1 && scene[..] == frames[cur]
      ensures animating || |frames| == 0 || old(frameNumber) == 0 ==>
                frameNumber == old(frameNumber) && cur == old(cur) && scene[..] == old(scene[..])
    {
      if animating {
        return;
      }
      if |frames| == 0 || frameNumber == 0 {
        return;
      }
      frameNumber := frameNumber - 1;
      cur := cur - 1;
      CopyCurFrameToScene();
    }

    /** 'd': delete the current frame, if there is one. */
    method KeyDelete()
      requires Valid()
      modifies this`frames, this`cur, this`frameNumber, scene
      ensures Valid()
      ensures !animating && old(|frames|) > 0 ==> frames == RemoveAt(old(frames), old(cur))
      ensures !animating && old(|frames|) == 1 ==>
                cur == 0 && frameNumber == -1 && scene[..] == old(scene[..])
      ensures !animating && old(|frames|) > 1 && old(frameNumber) == 0 ==>
                cur == 0 && frameNumber == 0 && scene[..] == frames[0]
      ensures !animating && old(|frames|) > 0 && old(frameNumber) > 0 ==>
                cur == old(cur) - 1 && frameNumber == old(frameNumber) - 1 && scene[..] == frames[cur]
      ensures animating || old(|frames|) == 0 ==>
                frames == old(frames) && cur == old(cur) && frameNumber == old(frameNumber) && scene[..] == old(scene[..])
    {
      if animating || |frames| == 0 {
        return;
      }
      DeleteCurFrame();
    }

    /** 'i': read the animation file, unless playing back. */
    method KeyRead(file: seq<Line>)
      requires Valid() && WellFormed(file) && HeaderNodes(file) == scene.Length
      modifies this`frames, this`cur, this`frameNumber, this`numRbtNodes, scene
      ensures Valid()
      ensures !animating ==>
                frames == ParseFrames(file[1..], HeaderFrames(file), HeaderNodes(file))
                && numRbtNodes == HeaderNodes(file)
      ensures !animating && |frames| == 0 ==> cur == 0 && frameNumber == -1 && scene[..] == old(scene[..])
      ensures !animating && |frames| > 0 ==> cur == 0 && frameNumber == 0 && scene[..] == frames[0]
      ensures animating ==>
                frames == old(frames) && cur == old(cur) && frameNumber == old(frameNumber)
                && numRbtNodes == old(numRbtNodes) && scene[..] == old(scene[..])
    {
      if animating {
        return;
      }
      ReadFile(file);
    }

    /** 'y': start playback (needs four frames), or stop it on the
        second-to-last frame. Playback starts by showing frame 1. */
    method KeyPlay(power: (Quat, real) -> Quat) returns (next: Option<int>)
      requires Valid()
      modifies this`cur, this`frameNumber, this`animating, scene
      ensures Valid()
      ensures |frames| < 4 ==>
                next == None && animating == old(animating) && cur == old(cur)
                && frameNumber == old(frameNumber) && scene[..] == old(scene[..])
      ensures |frames| >= 4 && !old(animating) ==>
                animating && next == Some(1000 / FramesPerSecond)
                && cur == SegmentCursor(style, 0.0) && frameNumber == old(frameNumber) && scene[..] == frames[1]
      ensures |frames| >= 4 && old(animating) ==>
                !animating && next == None
                && cur == |frames| - 2 && frameNumber == |frames| - 2 && scene[..] == frames[|frames| - 2]
    {
      if |frames| < 4 {
        return None;
      }
      if !animating {
        animating := true;
        ZeroOver(msBetweenKeyFrames as real);
        next := AnimateTimerCallback(0, power);
        PoseAtWholeTime(style, frames, 0, power);
      } else {
        ShowSecondToLast();
        animating := false;
        next := None;
      }
    }

    /** '+': 100 ms less between keyframes, down to 100. */
    method KeyFaster()
      requires Valid()
      modifies this`msBetweenKeyFrames
      ensures Valid()
      ensures msBetweenKeyFrames == if old(msBetweenKeyFrames) == 100 then 100 else old(msBetweenKeyFrames) - 100
    {
      if msBetweenKeyFrames != 100 {
        msBetweenKeyFrames := msBetweenKeyFrames - 100;
      }
    }

    /** '-': 100 ms more between keyframes, up to 10000. */
    method KeySlower()
      requires Valid()
      modifies this`msBetweenKeyFrames
      ensures Valid()
      ensures msBetweenKeyFrames == if old(msBetweenKeyFrames) == 10000 then 10000 else old(msBetweenKeyFrames) + 100
    {
      if msBetweenKeyFrames != 10000 {
        msBetweenKeyFrames := msBetweenKeyFrames + 100;
      }
    }
  }
}
