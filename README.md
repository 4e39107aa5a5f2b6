# Rigid transforms, keyframes, manipulation and picking — a Dafny model

This project models the core of a course viewer for rigid-body scenes. It
has five parts.

- **Rigid-body transforms** (`RigTForm`): a translation and a rotation
  quaternion. They support composition, inverse, application to a
  homogeneous vector, the translation and rotation factors, the mixed
  auxiliary frame, "do M to O with respect to A", and linear and
  Catmull-Rom interpolation between keyframes. The pure algebra is in
  `rigtform.dfy`, over the quaternion algebra of `quaternion.dfy`. The
  header's in-place object, two buffers filled component by component, is
  in `rigtform_object.dfy`.
- **The manipulation state machine of the two-cube viewer**
  (`manipulation.dfy`, with the mouse-button flags in `mouse.dfy`).
  - Keys cycle the eye and the manipulated object, and switch the sky
    camera between world-sky and sky-sky mode.
  - A drag, already turned into a motion `m`, moves the selected frame with
    respect to the auxiliary frame the state selects: the object motion, the
    ego motion, or the inverted sky motion.
- **The keyframe animator** (`keyframes.dfy`). It keeps a list of keyframes
  (one transform per rigid-body node of the scene), a cursor on it and a
  frame number. It has the editing keys, a text file format (a header line,
  then one `qw qx qy qz tx ty tz` line per node) and timed playback.
  Playback is Catmull-Rom over four frames in one version of the program and
  linear over two in the other.
- **Picking** (`picker.dfy`). Every shape is drawn in the colour of a
  fresh id, four bits per channel, and the id is mapped to the innermost
  enclosing rigid-body node. A read-back pixel is decoded back to that node.
- **The rigid-body node scanner** (`scene_graph.dfy`, `scanner.dfy`). It
  collects the rigid-body transform nodes of the scene graph in visiting
  order. That order fixes which keyframe slot belongs to which node.

Doubles and floats are idealised as `real`. Integers are unbounded except
where the source works on bytes (`bv8`) and packs twelve-bit ids (`bv12`).
The quaternion library the transforms rely on is not part of this model. It
is defined here as the Hamilton product, the conjugate and the inverse
(conjugate over squared norm). The lemmas about it in `Quaternions` support
the transform proofs and are not listed below.

## Model

| member | source | states |
|---|---|---|
| RigidTransforms.Apply | hw7/rigtform.h:63-64 | definition of `operator*` on a 4-vector: rotate, plus the translation scaled by the weight; pinned by ApplyDirection, ApplyPoint, ApplyCompose, ApplyInverse, ApplyIdentity |
| RigidTransforms.Compose | hw7/rigtform.h:69-80 | definition of `operator*` on transforms; pinned by ComposeIdentity, ComposeAssoc, ComposeInverse, ApplyCompose |
| RigidTransforms.Inverse | hw7/rigtform.h:83-94 | definition of `inv`; pinned by ComposeInverse, ApplyInverse, InverseRigid, InverseOfRotation |
| RigidTransforms.TransFact | hw7/rigtform.h:96-98 | definition of `transFact`; pinned by TransFactLinFact, TranslationThenRotation |
| RigidTransforms.LinFact | hw7/rigtform.h:100-102 | definition of `linFact`; pinned by TransFactLinFact, InverseOfRotation |
| RigidTransforms.MakeMixedFrame | hw7/rigtform.h:114-116 | definition of `makeMixedFrame` in closed form; pinned by MixedFrameIsProduct, RotationAboutMixedFrameKeepsOrigin |
| RigidTransforms.DoMtoOwrtA | hw7/rigtform.h:117-119 | definition of `doMtoOwrtA`; pinned by DoMtoOwrtANested, DoMtoOwrtAIdentity, RotationAboutOriginKeepsOrigin |
| RigidTransforms.Interpolate | hw7/rigtform.h:121-141 | definition of `interpolate`; pinned by InterpolateEnds, InterpolateTranslation, InterpolateRotation, InterpolateSameRotation |
| RigidTransforms.CrsInterpolate | hw7/rigtform.h:143-178 | definition of `CRS_interpolate`; pinned by CrsEnds, CrsTranslation, CrsCollinear, CrsConstantTranslation, CrsConstantRotation |
| RigidTransforms.FactorsOfDefault | hw7/rigtform.h:15-43 | the default transform is zero translation with the identity quaternion; the translation-only and rotation-only transforms of zero/identity are that default |
| RigidTransforms.InverseOfRotation | hw7/rigtform.h:83-94 | the inverse of a pure rotation is the pure rotation by the inverse quaternion |
| RigidTransforms.TranslationThenRotation | hw7/rigtform.h:69-80 | a pure translation composed with a pure rotation is the transform with that translation and that rotation |
| RigidTransforms.TransFactLinFact | hw7/rigtform.h:96-102 | every transform is its translation factor times its rotation factor |
| RigidTransforms.MixedFrameIsProduct | hw7/rigtform.h:114-116 | the mixed frame of O and E is transFact(O) * linFact(E): O's translation with E's rotation |
| RigidTransforms.ApplyDirection | hw7/rigtform.h:63-64 | applied to a direction (weight 0) a transform only rotates it; the translation is ignored |
| RigidTransforms.ApplyPoint | hw7/rigtform.h:63-64 | applied to a point (weight 1) a transform rotates it and then adds the translation |
| RigidTransforms.ApplyCompose | hw7/rigtform.h:63-80 | for unit rotations, applying a composition is applying the right factor, then the left |
| RigidTransforms.ApplyInverse | hw7/rigtform.h:63-94 | for a unit rotation, the inverse undoes the transform on every vector, on either side |
| RigidTransforms.ApplyIdentity | hw7/rigtform.h:15-17 | the default transform leaves every vector unchanged |
| RigidTransforms.ComposeIdentity | hw7/rigtform.h:69-80 | the default transform is a left and a right unit of composition |
| RigidTransforms.ComposeRigid | hw7/rigtform.h:69-80 | composing transforms with unit rotations gives a unit rotation |
| RigidTransforms.ComposeAssoc | hw7/rigtform.h:69-80 | composition is associative when the first two factors have unit rotations |
| RigidTransforms.InverseRigid | hw7/rigtform.h:83-94 | the inverse of a rigid transform is rigid and inverting twice gives it back |
| RigidTransforms.ComposeInverse | hw7/rigtform.h:83-94 | t * inv(t) and inv(t) * t are the identity for a unit rotation |
| RigidTransforms.DoMtoOwrtANested | hw7/rigtform.h:117-119 | ((A*M)*inv(A))*O regroups as A*(M*(inv(A)*O)) |
| RigidTransforms.DoMtoOwrtAIdentity | hw7/rigtform.h:117-119 | doing the identity to O with respect to any rigid A gives O |
| RigidTransforms.RotationAboutOriginKeepsOrigin | hw7/rigtform.h:117-119 | a pure rotation about a frame centred at O's origin leaves O's origin in place |
| RigidTransforms.RotationAboutMixedFrameKeepsOrigin | hw7/rigtform.h:114-119 | a pure rotation about the mixed frame of O and an eye leaves O's origin in place |
| RigidTransforms.ComposeWithRotation | hw7/rigtform.h:69-80 | composing with a pure rotation keeps the translation and multiplies the quaternions |
| RigidTransforms.TranslationAboutMixedFrameKeepsRotation | hw7/rigtform.h:114-119 | a pure translation about the mixed frame leaves O's rotation unchanged |
| RigidTransforms.RotationAboutWorldOriginKeepsDistance | hw7/rigtform.h:117-119 | a pure rotation about a frame at the world origin keeps O's distance from the origin |
| RigidTransforms.TranslationKeepsRotation | hw7/rigtform.h:117-119 | a pure translation with respect to any rigid frame leaves O's rotation unchanged |
| RigidTransforms.Cn | hw7/rigtform.h:166-176 | the canonical quaternion has a non-negative scalar part and is q or -q |
| RigidTransforms.RotateCn | hw7/rigtform.h:166-176 | canonicalising a quaternion does not change the rotation it performs |
| RigidTransforms.InterpolateEnds | hw7/rigtform.h:121-123 | linear interpolation returns a exactly at 0 and b exactly at 1 |
| RigidTransforms.InterpolateTranslation | hw7/rigtform.h:121-126 | the interpolated translation is (1-i)·a.t + i·b.t |
| RigidTransforms.InterpolateRotation | hw7/rigtform.h:128-138 | inside (0,1) the rotation is power of b.r·inv(a.r), negated when its scalar part is negative, times a.r |
| RigidTransforms.InterpolateSameRotation | hw7/rigtform.h:128-138 | interpolating between equal unit rotations keeps that rotation |
| RigidTransforms.CrsEnds | hw7/rigtform.h:143-145 | Catmull-Rom interpolation returns c1 when abs(i) < EPS and c2 when abs(i-1) < EPS |
| RigidTransforms.CrsTranslation | hw7/rigtform.h:149-157 | the translation is the cubic Bernstein blend of c1, c1+(c2-c0)/6, c2+(c1-c3)/6 and c2 |
| RigidTransforms.BlendLinear | hw7/rigtform.h:157 | the cubic blend of four equally spaced values moves linearly |
| RigidTransforms.CrsCollinear | hw7/rigtform.h:149-157 | equally spaced collinear translations give c1 + i·(c2-c1) |
| RigidTransforms.BezierCollinear | hw7/rigtform.h:154-157 | with equally spaced control translations the inner control points are the thirds of c1..c2 |
| RigidTransforms.BezierLinear | hw7/rigtform.h:157 | a cubic Bézier curve with control points at the thirds of a segment is the segment |
| RigidTransforms.CrsConstantTranslation | hw7/rigtform.h:149-157 | four equal translations interpolate to that translation |
| RigidTransforms.SlerpSame | hw7/rigtform.h:169-176 | one slerp step between equal unit rotations keeps that rotation |
| RigidTransforms.CrsConstantRotation | hw7/rigtform.h:161-176 | four equal unit rotations interpolate to that rotation |
| RigTFormObjects.RigTFormObject.Default | hw7/rigtform.h:15-17 | the default object holds zero translation and the identity quaternion |
| RigTFormObjects.RigTFormObject.constructor | hw7/rigtform.h:19-27 | the component-copy loops store exactly t and r |
| RigTFormObjects.RigTFormObject.FromTranslation | hw7/rigtform.h:29-35 | the translation is copied and the rotation is the identity |
| RigTFormObjects.RigTFormObject.FromRotation | hw7/rigtform.h:37-43 | the translation is zero and the quaternion is copied |
| RigTFormObjects.RigTFormObject.GetTranslation | hw7/rigtform.h:45-47 | returns the stored translation |
| RigTFormObjects.RigTFormObject.GetRotation | hw7/rigtform.h:49-51 | returns the stored rotation |
| RigTFormObjects.RigTFormObject.SetTranslation | hw7/rigtform.h:53-56 | replaces the translation in place and keeps the rotation |
| RigTFormObjects.RigTFormObject.SetRotation | hw7/rigtform.h:58-61 | replaces the rotation in place and keeps the translation |
| RigTFormObjects.RigTFormObject.Times | hw7/rigtform.h:69-80 | the fresh product holds Compose of the two transforms |
| RigTFormObjects.Inverse | hw7/rigtform.h:83-94 | the fresh result holds the inverse transform |
| RigTFormObjects.NegatedRotation | hw7/rigtform.h:87-91 | the slot-by-slot negation of the rotated direction (v, 0) is minus the rotation of v |
| MouseButtons.Press | hw3/asst2.cpp:489-495 | definition of the three flag updates of `mouse`; pinned by Flag and PressRelease |
| MouseButtons.Flag | hw3/asst2.cpp:489-495 | a button flag is raised by its DOWN, lowered by its UP, and kept by any other event |
| MouseButtons.PressRelease | hw3/asst2.cpp:489-495 | pressing and releasing a button lowers its flag and leaves the other two unchanged |
| MouseButtons.MouseState.constructor | hw3/asst2.cpp:64-65 | all button flags and the click-down flag start lowered |
| MouseButtons.MouseState.OnMouse | hw3/asst2.cpp:485-500 | records the click position bottom-up, updates the three flags, and click-down is their OR |
| MouseButtons.MouseState.RequestPick | hw7/asst4.cpp:509-513 | 'p' turns picking mode on |
| MouseButtons.MouseState.OnMouseWithPick | hw7/asst4.cpp:438-461 | a pick happens exactly when picking mode is on and left but not right is held; it turns picking mode off |
| Manipulation.EgoMotion | hw3/asst2.cpp:468 | definition of `transFact(m)*inv(linFact(m))`; pinned by EgoMotionParts, EgoMove |
| Manipulation.MoveAbout | hw3/asst2.cpp:466-475 | definition of the three update branches; pinned by Moved, CubeRotationKeepsCentre, EgoMove, WorldSkyOrbit |
| Manipulation.NextView | hw3/asst2.cpp:535-536 | 'v' moves views to (views+1) mod 3 |
| Manipulation.NextObject | hw3/asst2.cpp:538-552 | 'o' moves objects to (objects+1) mod 3 |
| Manipulation.CyclesReturn | hw3/asst2.cpp:535-552 | three presses of 'v' or 'o' return to the start, and one press always changes the value |
| Manipulation.EgoMotionParts | hw3/asst2.cpp:468 | transFact(m)*inv(linFact(m)) keeps m's translation and inverts its rotation |
| Manipulation.SelfFrameMotion | hw3/asst2.cpp:468 | doing X to A with respect to A itself is A*X |
| Manipulation.AuxFrameOf | hw3/asst2.cpp:219-233 | a cube gets the mixed frame of cube and eye, the sky gets linFact(sky) or sky by mode; no frame exactly when the sky is moved from a cube's view |
| Manipulation.Moved | hw3/asst2.cpp:460-477 | a motion is refused exactly when valid_manipulation is false |
| Manipulation.MotionAsWritten | hw3/asst2.cpp:460-477 | the handler as written reaches the undefined end of give_auxFrame exactly when the sky is selected and a cube is the eye, whether or not a button is held |
| Manipulation.MotionAgreesWhereDefined | hw3/asst2.cpp:460-477 | the handler the model uses agrees with the one as written wherever that is defined, and moves nothing when no button is held or manipulation is invalid |
| Manipulation.DragFromCubeAtSkyReachesUndefinedFrame | hw3/asst2.cpp:219-233 | a drag (a button is held) with the sky selected and the first cube as eye reaches the undefined return; the intended handler refuses it |
| Manipulation.CubeRotationKeepsCentre | hw3/asst2.cpp:466-467 | a cube seen from elsewhere turned by a pure rotation keeps its centre |
| Manipulation.CubeTranslationKeepsOrientation | hw3/asst2.cpp:466-467 | a cube seen from elsewhere moved by a pure translation keeps its orientation |
| Manipulation.EgoMove | hw3/asst2.cpp:466-474 | the eye cube, and the sky in sky-sky mode, become eye * (m.t, inv(m.r)) |
| Manipulation.WorldSkyOrbit | hw3/asst2.cpp:470-471 | in world-sky mode a pure rotation keeps the sky camera's distance from the world origin |
| Manipulation.WorldSkyTranslationKeepsOrientation | hw3/asst2.cpp:470-471 | in world-sky mode a pure translation keeps the sky camera's orientation |
| Manipulation.Manipulator.EyeRbt | hw3/asst2.cpp:205-210 | definition of `give_eyeRbt`: the sky frame or the viewing cube's frame; used by AuxFrame and Motion |
| Manipulation.Manipulator.ObjectRbt | hw3/asst2.cpp:212-217 | definition of `give_objectRbt`: the sky frame or the manipulated cube's frame; used by AuxFrame, ArcballRbt and Motion |
| Manipulation.Manipulator.ValidManipulation | hw3/asst2.cpp:241-244 | definition of `valid_manipulation`; pinned by AuxFrame (a frame exists exactly when it holds) |
| Manipulation.Manipulator.constructor | hw3/asst2.cpp:194-203 | the start-up frames, the sky as eye, cube 1 as object, world-sky mode, and the window height (512, `g_windowHeight`) given to the mouse state |
| Manipulation.Manipulator.AuxFrame | hw3/asst2.cpp:219-244 | an auxiliary frame exists exactly when valid_manipulation holds |
| Manipulation.Manipulator.ArcballRbt | hw3/asst2.cpp:235-239 | wherever a drag turns about the mixed frame or world-sky's frame, the arcball sits at that frame's origin |
| Manipulation.Manipulator.KeyView | hw3/asst2.cpp:525-537 | 'v' cycles the eye and keeps the state valid |
| Manipulation.Manipulator.KeyObject | hw3/asst2.cpp:538-552 | 'o' cycles the manipulated object |
| Manipulation.Manipulator.KeyMode | hw3/asst2.cpp:553-562 | 'm' flips world only when the sky is both object and eye; otherwise nothing changes |
| Manipulation.Manipulator.Motion | hw3/asst2.cpp:428-482 | while a button is down and manipulation is valid, only the selected frame becomes Moved(...); the click position is always updated |
| Keyframes.InsertAfter | hw7/asst4.cpp:858-866 | definition of `list::insert` after the cursor; pinned by InsertAfterShape, RemoveInserted |
| Keyframes.RemoveAt | hw7/asst4.cpp:882-918 | definition of `list::erase` at the cursor; pinned by RemoveAtShape, RemoveInserted |
| Keyframes.InsertAfterShape | hw7/asst4.cpp:858-866 | the new frame sits right after the current one; the frames before keep their places, the frames after shift by one |
| Keyframes.RemoveAtShape | hw7/asst4.cpp:882-918 | deleting drops exactly one frame; the frames after it shift down by one |
| Keyframes.RemoveInserted | hw7/asst4.cpp:858-918 | deleting a frame just created gives back the list before creation |
| Keyframes.Serialize | hw7/asst4.cpp:920-934 | definition of the text `write_file` produces; pinned by WriteFile and ReadAfterWrite |
| Keyframes.NodeOf | hw7/asst4.cpp:963-978 | definition of reading one node line, rotation first; pinned by ParseFrameLines |
| Keyframes.HeaderFrames | hw7/asst4.cpp:942-945 | definition of the frame count read from the header; pinned by ReadAfterWrite |
| Keyframes.HeaderNodes | hw7/asst4.cpp:942-945 | definition of the per-frame node count read from the header; pinned by ReadAfterWrite |
| Keyframes.NodeLine | hw7/asst4.cpp:926-928 | one node is written as seven numbers |
| Keyframes.FrameLines | hw7/asst4.cpp:925-929 | a frame is written as numRbtNodes lines |
| Keyframes.BodyLines | hw7/asst4.cpp:924-930 | the body has one line per node of every frame |
| Keyframes.ParseFrame | hw7/asst4.cpp:962-979 | one transform is read per line |
| Keyframes.ParseFrames | hw7/asst4.cpp:960-981 | numFrames frames of numRbtsPerFrame transforms are read |
| Keyframes.ParseFrameLines | hw7/asst4.cpp:926-978 | reading back a frame's lines (rotation first, then translation) gives the frame |
| Keyframes.ParseFramesPrefix | hw7/asst4.cpp:960-981 | the frames read do not depend on lines after them |
| Keyframes.ParseBodyLines | hw7/asst4.cpp:920-981 | reading the written body gives back the frames in order |
| Keyframes.ReadAfterWrite | hw7/asst4.cpp:920-993 | the written file is readable, announces the frame and node counts, and reads back as the same frames |
| Keyframes.CrsBlend | hw7/asst4.cpp:1027-1033 | the Catmull-Rom pose has one transform per node |
| Keyframes.LinearBlend | hw5/asst4.cpp:1036-1041 | the linear pose has one transform per node |
| Keyframes.CrsBlendHitsKeyframes | hw7/asst4.cpp:1021-1033 | at fraction 0 the Catmull-Rom pose is keyframe c1, at fraction 1 it is c2 |
| Keyframes.LinearBlendHitsKeyframes | hw5/asst4.cpp:1032-1041 | the linear pose starts at the previous and ends at the next keyframe |
| Keyframes.SegmentCursor | hw7/asst4.cpp:1019-1037 | definition of where playback leaves the cursor; stated by ShowCrsSegment, ShowLinearSegment, AnimateTimerCallback |
| Keyframes.PlaybackPose | hw7/asst4.cpp:1019-1037 | the pose shown at time t has one transform per node |
| Keyframes.PoseAtWholeTime | hw7/asst4.cpp:1019-1037 | at a whole time k both playback styles show keyframe k+1 exactly |
| Keyframes.KeyframeEditor.constructor | hw7/asst4.cpp:183-186 | empty list, cursor at end, frame number -1, 24 nodes (22 in the linear version), 2000 ms between keyframes |
| Keyframes.KeyframeEditor.CopyCurFrameToScene | hw7/asst4.cpp:837-846 | the scene becomes the current frame and the list is unchanged |
| Keyframes.KeyframeEditor.CopySceneToCurFrame | hw7/asst4.cpp:847-856 | only the current frame changes, to the scene |
| Keyframes.KeyframeEditor.IteratorMove | hw7/asst4.cpp:998-1001 | the cursor moves n places and nothing else changes |
| Keyframes.KeyframeEditor.CreateNewFrame | hw7/asst4.cpp:858-866 | a copy of the scene is inserted after the current frame and becomes current; cursor and number advance by one |
| Keyframes.KeyframeEditor.CreateNewFrameWhenEmpty | hw7/asst4.cpp:868-880 | the list becomes the one scene snapshot, frame 0, current |
| Keyframes.KeyframeEditor.DeleteCurFrame | hw7/asst4.cpp:882-918 | the current frame is removed; the sole frame leaves an empty list, frame 0 hands over to its successor, any other to its predecessor, and the scene loads the new current frame |
| Keyframes.KeyframeEditor.WriteFile | hw7/asst4.cpp:920-934 | the text written is the header then every frame's node lines |
| Keyframes.KeyframeEditor.ReadFrame | hw7/asst4.cpp:960-979 | reads the next numRbtsPerFrame lines as one frame |
| Keyframes.KeyframeEditor.ReadFrames | hw7/asst4.cpp:960-981 | reading the frames one after another, each inserted before the end cursor, yields exactly the frames the file describes |
| Keyframes.KeyframeEditor.ReadFile | hw7/asst4.cpp:936-993 | the list becomes the file's frames; the cursor is frame 0 with the scene loaded, or -1 on an empty file |
| Keyframes.KeyframeEditor.ShowSecondToLast | hw7/asst4.cpp:1046-1055 | playback ends with cursor and number on frame size-2 and that frame in the scene |
| Keyframes.KeyframeEditor.InterpolateAndDisplay | hw7/asst4.cpp:1002-1038 | when not playing nothing happens; at t >= size-3 it ends on frame size-2; otherwise it shows PlaybackPose at t |
| Keyframes.KeyframeEditor.ShowCrsSegment | hw7/asst4.cpp:1019-1037 | shows the Catmull-Rom pose of frames floor(t)..floor(t)+3 and leaves the cursor on floor(t)+3 |
| Keyframes.KeyframeEditor.ShowLinearSegment | hw5/asst4.cpp:1030-1045 | shows the linear pose of frames floor(t)+1 and floor(t)+2 and leaves the cursor on floor(t)+2 |
| Keyframes.KeyframeEditor.AnimateTimerCallback | hw7/asst4.cpp:1040-1061 | re-arms 1000/60 ms later while playing inside the animation; otherwise stops on frame size-2 |
| Keyframes.KeyframeEditor.KeyRestore | hw7/asst4.cpp:514-521 | space loads the current frame into the scene, unless playing or empty |
| Keyframes.KeyframeEditor.KeyNew | hw7/asst4.cpp:531-538 | 'n' creates after the current frame, or frame 0 on an empty list; refused while playing |
| Keyframes.KeyframeEditor.KeyUpdate | hw7/asst4.cpp:522-538 | 'u' stores the scene into the current frame, and on an empty list falls through to 'n' |
| Keyframes.KeyframeEditor.KeyNext | hw7/asst4.cpp:539-552 | '>' advances and loads unless empty or at the last frame, in which case nothing changes |
| Keyframes.KeyframeEditor.KeyPrev | hw7/asst4.cpp:553-566 | '<' steps back and loads unless empty or at frame 0, in which case nothing changes |
| Keyframes.KeyframeEditor.KeyDelete | hw7/asst4.cpp:567-576 | 'd' deletes the current frame unless empty or playing, then moves to the predecessor, or to the new frame 0, or to an empty list, and loads that frame |
| Keyframes.KeyframeEditor.KeyRead | hw7/asst4.cpp:580-586 | 'i' reads the file unless playing: the node count comes from the header and frame 0 is loaded; while playing nothing changes |
| Keyframes.KeyframeEditor.KeyPlay | hw7/asst4.cpp:587-608 | 'y' is refused below four frames, starts playback showing frame 1, or stops it on frame size-2 |
| Keyframes.KeyframeEditor.KeyFaster | hw7/asst4.cpp:609-613 | '+' lowers the interval by 100 ms but not below 100 |
| Keyframes.KeyframeEditor.KeySlower | hw7/asst4.cpp:614-618 | '-' raises the interval by 100 ms but not above 10000 |
| SceneGraph.RbtNodes | hw8/sgutils.h:15-21 | definition of the nodes the scanner collects; pinned by RbtNodesAreFiltered, OnlyRbtAreRbt |
| SceneGraph.OnlyRbt | hw8/sgutils.h:15-21 | definition of the rigid-body filter; pinned by OnlyRbtAreRbt, RbtNodesAreFiltered |
| SceneGraph.RbtNodesAreFiltered | hw8/sgutils.h:15-21 | the nodes collected are the visited transform nodes that are rigid-body nodes, in visiting order |
| SceneGraph.RbtNodesInAreFiltered | hw8/sgutils.h:15-21 | the same for a sequence of sibling subtrees |
| SceneGraph.OnlyRbtAreRbt | hw8/sgutils.h:17-19 | only rigid-body nodes are collected |
| RbtScanner.RbtNodesScanner.constructor | hw8/sgutils.h:13 | the scanner works on the caller's vector as it is |
| RbtScanner.RbtNodesScanner.Visit | hw8/sgutils.h:15-21 | appends the node exactly when it is a rigid-body node and always continues the traversal |
| RbtScanner.RbtNodesScanner.Accept | hw8/sgutils.h:15-27 | a traversal appends the subtree's rigid-body nodes in visiting order |
| RbtScanner.DumpSgRbtNodes | hw8/sgutils.h:24-27 | the result is the old contents followed by the graph's rigid-body nodes in visiting order; all appended nodes are rigid-body nodes |
| Picking.IdNibbles | hw4/picker.cpp:75-79 | the three masked channels are id's base-16 digits, each below 16, low to high |
| Picking.IdToColor | hw4/picker.cpp:77-92 | every channel lies strictly between 0 and 1 |
| Picking.IdToColorInjective | hw4/picker.cpp:77-92 | distinct ids get distinct colours |
| Picking.HighNibble | hw4/picker.cpp:104-106 | shifting a byte down by the unused bits is division by 16 |
| Picking.ColorToId | hw4/picker.cpp:103-108 | the id is the high nibbles of r, g, b as digits 0, 1, 2, so it lies in [0, 4096) |
| Picking.ColorToIdOfNibbles | hw4/picker.cpp:79-108 | bytes whose high nibbles are id's digits decode to id, whatever their low nibbles |
| Picking.QuantisedChannel | hw4/picker.cpp:80-106 | a byte within half a step of 255 times a digit's channel colour has that digit as its high nibble |
| Picking.PickRoundTrip | hw4/picker.cpp:77-108 | drawing in IdToColor(id) and reading back the quantised pixel decodes to id |
| Picking.NearestRbt | hw4/picker.cpp:29-32 | definition of the top-down scan for a rigid-body node; pinned by NearestRbtIsNearest |
| Picking.Assigned | hw4/picker.cpp:24-41 | definition of the id-to-node entries one traversal records; pinned by AssignedIds, AssignedNodes, Picker.Accept |
| Picking.NearestRbtIsNearest | hw4/picker.cpp:29-32 | the scan from the top finds a rigid-body node with none above it, and finds nothing exactly when the stack has none |
| Picking.FindAfterAdd | hw4/picker.cpp:62-72 | after addToMap(id, node), find(id) is node and every other id finds what it found before |
| Picking.AssignedIds | hw4/picker.cpp:24-41 | one traversal hands out exactly the ids counter+1 through counter+(number of shapes) |
| Picking.AssignedNodes | hw4/picker.cpp:29-34 | every recorded node is the enclosing stack's nearest rigid-body node or a rigid-body node of the subtree |
| Picking.Picker.constructor | hw4/picker.cpp:7-10 | empty stack, id counter 0, empty map |
| Picking.Picker.VisitTransform | hw4/picker.cpp:12-16 | pushes the node and continues |
| Picking.Picker.PostVisitTransform | hw4/picker.cpp:18-22 | pops the top node and continues |
| Picking.Picker.AddToMap | hw4/picker.cpp:62-64 | overwrites the entry for id and nothing else |
| Picking.Picker.Find | hw4/picker.cpp:66-72 | returns the recorded entry exactly when the id is present, and null for an id never added |
| Picking.Picker.VisitShape | hw4/picker.cpp:24-41 | takes the next id, maps it to the nearest rigid-body node on the stack, and returns its colour |
| Picking.Picker.GetRbtNodeAtXY | hw4/picker.cpp:48-56 | decodes the pixel's colour and looks the id up |
| Picking.Picker.Accept | hw4/picker.cpp:12-41 | a traversal restores the stack, advances the counter by the number of shapes, and adds exactly the Assigned entries |

## Left out

- The quaternion and vector library (`quat.h`, `cvec.h`, `matrix4.h`) is not part of this model. Its operations are defined here from their standard meaning. The inverse is made total: the zero quaternion maps to itself.
- `power`, the real-exponent quaternion power, is a parameter of the interpolation functions, not a definition. Rotation properties are stated only where they follow from its shape (`power(identity, i) == identity`), or as the structure of the formula.
- `rigTFormToMatrix` and all drawing: rendering, windowing, shaders, `glutPostRedisplay`, console output, `exit`.
- RigidTransforms.MakeMixedFrame: written in closed form (O's translation, E's rotation). Its equality to transFact(O) * linFact(E), as the source writes it, is the lemma MixedFrameIsProduct.
- `CS175_EPS` comes from a header that is not part of this model. It is the constant `Eps`, a small positive number; the proofs use only 0 < Eps < 1/2.
- The arcball: the screen projection, `give_z_coordinate` (square root), `getScreenToEyeScale`, `valid_arcball`, and how a drag becomes the motion `m`. `m` is a parameter of Motion.
- Manipulation.AuxFrameOf: `give_auxFrame` falls off its end when the sky is selected and a cube is the eye, which is undefined in C++. The drag handler calls it on every drag, before it tests the button or `valid_manipulation` (hw3/asst2.cpp:460-462). So in that state every drag reaches the undefined return. The model returns None there, and Manipulator.Motion skips the computation; see Findings.
- The picking viewers select the manipulated object by picking rather than by 'o'. Only the two-cube viewer's selection table is modelled.
- `pick()` itself (a render pass followed by reading the framebuffer): GetRbtNodeAtXY takes the pixel as a parameter.
- Picking.IdToColor: only the branch for a framebuffer that stores colours linearly. The sRGB branch raises to the power 2.4, which is not modelled. It is the branch the shipped program takes: `g_Gl2Compatible` is false (hw7/asst4.cpp:60), so `srgbFrameBuffer_` is true (hw4/picker.cpp:10). PickRoundTrip still describes it, because the sRGB framebuffer re-encodes the linear colour on write: the byte stored is the quantised encoded colour that `Quantises` describes.
- Picking.IdNibbles: masking with N - 1 and shifting by NBits on the non-negative `int` id are written as `%` and `/` by 16. Bit operations are kept for the pixel bytes in ColorToId.
- The drawing visitor the picker delegates to: its visit results are taken to be "continue", and the uniform it sets is the returned colour.
- The scene-graph traversal belongs to a header that is not part of this model. It is taken to be depth first: visit, children in order, post-visit. Shape leaves carry no transform.
- Keyframe files are modelled as lines of numbers. The decimal conversion (`<<`, `stod`, `stoi`) is not modelled, and neither are a file that fails to open or the uninitialised counts it leaves. `<<` writes 6 significant digits by default, so Keyframes.ReadAfterWrite holds only under the exact conversion the model assumes; the program itself loses precision on a round trip.
- Keyframes.KeyframeEditor.ReadFile: requires the header's per-frame count to equal the number of scene nodes, even for an empty file. The source reads any count. A smaller count makes the copy loops, which run over the scene's nodes, read and write past the end of a frame. A larger count is accepted by the source, which then uses only the first scene-size entries of each frame; the model excludes it.
- Keyframes.KeyframeEditor.AnimateTimerCallback: requires at least two frames, because stopping moves to frame size-2. Playback only starts with four. The timer itself is not modelled: the next call's time is returned as `next`.
- Keyframes.KeyframeEditor.InterpolateAndDisplay: the `float` conversions of the time are taken as exact real division.
- The cursor/frame-number agreement is an invariant only while not playing back: playback moves the cursor without renumbering, and every keyframe key is refused while playing.
- 'w' (write) is modelled as WriteFile, returning the text; the file name and the disk are not modelled.

## Findings

| source | as written | input that shows it | evidently intended | confidence | as-written member | corrected member |
|---|---|---|---|---|---|---|
| hw3/asst2.cpp:219-233, 460-462 | `motion` calls `give_auxFrame()` before testing the button and `valid_manipulation()`; `give_auxFrame` has no return for the sky seen from a cube | `objects == 2`, `views == 0`, any drag (a button is held) | compute the auxiliary frame only when manipulation is valid, as the later test already assumes | high (undefined behaviour by the C++ rules; not executed) | Manipulation.MotionAsWritten, Manipulation.DragFromCubeAtSkyReachesUndefinedFrame | Manipulation.Manipulator.Motion, Manipulation.MotionAgreesWhereDefined |
