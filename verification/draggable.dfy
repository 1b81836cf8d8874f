/** The draggable automatism as a transition system. Each instance has its
    own `dragged` flag, drag offset and drag camera; the flags
    `somethingDragged` and `leftPressedLastFrame` are shared by every
    instance. The mouse position, already mapped to scene coordinates
    through each camera of the object's layer, is an input: one point per
    camera. Coordinates are exact integers, so float rounding is abstracted
    away. */
module Draggable {
  import opened Wrappers

  datatype Point = Point(x: int, y: int)

  /** The parts of the runtime object the automatism reads and moves. The
      drawable box is the position shifted by a fixed origin offset. */
  datatype SceneObject = SceneObject(
    x: int, y: int,
    drawableDx: int, drawableDy: int,
    width: int, height: int)

  datatype Instance = Instance(
    sceneObject: SceneObject,
    dragged: bool,
    xOffset: int,
    yOffset: int,
    dragCameraIndex: nat)

  /** The two static flags of the automatism class. */
  datatype Shared = Shared(somethingDragged: bool, leftPressedLastFrame: bool)

  datatype StepResult = StepResult(instance: Instance, shared: Shared)
  datatype FrameResult = FrameResult(instances: seq<Instance>, shared: Shared)

  function DrawableX(o: SceneObject): int { o.x + o.drawableDx }
  function DrawableY(o: SceneObject): int { o.y + o.drawableDy }

  /** The mouse point lies in the drawable box, borders included. */
  predicate Hits(o: SceneObject, m: Point) {
    && DrawableX(o) <= m.x && DrawableX(o) + o.width >= m.x
    && DrawableY(o) <= m.y && DrawableY(o) + o.height >= m.y
  }

  /** The lowest camera index at or after `from` whose mouse point hits the
      object, if any. */
  function FirstHit(o: SceneObject, cams: seq<Point>, from: nat): (r: Option<nat>)
    requires from <= |cams|
    ensures r.Some? ==> from <= r.value < |cams| && Hits(o, cams[r.value])
    ensures r.Some? ==> forall j :: from <= j < r.value ==> !Hits(o, cams[j])
    ensures r.None? ==> forall j :: from <= j < |cams| ==> !Hits(o, cams[j])
    decreases |cams| - from
  {
    if from == |cams| then None
    else if Hits(o, cams[from]) then Some(from)
    else FirstHit(o, cams, from + 1)
  }

  /** The guard of the begin-drag branch: a press edge while nothing is
      dragged. */
  predicate CanBegin(inst: Instance, sh: Shared, pressed: bool) {
    !inst.dragged && pressed && !sh.leftPressedLastFrame && !sh.somethingDragged
  }

  /** A held drag still finds its camera among the layer's cameras. */
  predicate CameraValid(inst: Instance, pressed: bool, cams: seq<Point>) {
    inst.dragged && pressed ==> inst.dragCameraIndex < |cams|
  }

  /** `DoStepPreEvents` of one instance, with the left button state and the
      mouse point seen through each camera of the object's layer. */
  function StepPreEvents(inst: Instance, sh: Shared, pressed: bool, cams: seq<Point>): (r: StepResult)
    requires CameraValid(inst, pressed, cams)
    ensures r.shared.leftPressedLastFrame == sh.leftPressedLastFrame
    ensures r.instance.dragged && !inst.dragged ==> CanBegin(inst, sh, pressed)
    ensures CanBegin(inst, sh, pressed) && FirstHit(inst.sceneObject, cams, 0).None? ==> r == StepResult(inst, sh)
    ensures CanBegin(inst, sh, pressed) && FirstHit(inst.sceneObject, cams, 0).Some? ==>
              && r.instance.dragged && r.shared.somethingDragged
              && r.instance.dragCameraIndex == FirstHit(inst.sceneObject, cams, 0).value
              && r.instance.sceneObject == inst.sceneObject
    ensures !CanBegin(inst, sh, pressed) && !pressed ==>
              !r.instance.dragged && !r.shared.somethingDragged && r.instance.sceneObject == inst.sceneObject
    ensures !CanBegin(inst, sh, pressed) && pressed ==>
              && r.shared == sh && r.instance.dragged == inst.dragged
              && r.instance.xOffset == inst.xOffset && r.instance.yOffset == inst.yOffset
              && r.instance.dragCameraIndex == inst.dragCameraIndex
    ensures r.instance.dragged ==>
              && r.instance.dragCameraIndex < |cams|
              && r.instance.sceneObject.x == cams[r.instance.dragCameraIndex].x - r.instance.xOffset
              && r.instance.sceneObject.y == cams[r.instance.dragCameraIndex].y - r.instance.yOffset
    ensures !r.instance.dragged ==> r.instance.sceneObject == inst.sceneObject
    ensures r.instance.sceneObject ==
              inst.sceneObject.(x := r.instance.sceneObject.x, y := r.instance.sceneObject.y)
    ensures !CanBegin(inst, sh, pressed) && !pressed ==> r.instance == inst.(dragged := false)
  {
    var after :=
      if CanBegin(inst, sh, pressed) then
        match FirstHit(inst.sceneObject, cams, 0)
        case None => StepResult(inst, sh)
        case Some(k) =>
          StepResult(inst.(dragged := true,
                           xOffset := cams[k].x - inst.sceneObject.x,
                           yOffset := cams[k].y - inst.sceneObject.y,
                           dragCameraIndex := k),
                     sh.(somethingDragged := true))
      else if !pressed then
        StepResult(inst.(dragged := false), sh.(somethingDragged := false))
      else
        StepResult(inst, sh);
    if after.instance.dragged then
      var m := cams[after.instance.dragCameraIndex];
      var i := after.instance;
      StepResult(i.(sceneObject := i.sceneObject.(x := m.x - i.xOffset, y := m.y - i.yOffset)), after.shared)
    else
      after
  }

  /** `DoStepPostEvents`: remembers the button state for the next frame. */
  function StepPostEvents(sh: Shared, pressed: bool): (r: Shared)
    ensures r.leftPressedLastFrame == pressed
    ensures r.somethingDragged == sh.somethingDragged
  {
    sh.(leftPressedLastFrame := pressed)
  }

  /** `OnDeActivate`: the instance stops dragging, and releases the shared
      flag only when it held it. */
  function DeActivate(inst: Instance, sh: Shared): (r: StepResult)
    ensures !r.instance.dragged
    ensures r.shared.somethingDragged == (sh.somethingDragged && !inst.dragged)
    ensures r.shared.leftPressedLastFrame == sh.leftPressedLastFrame
    ensures r.instance.sceneObject == inst.sceneObject
  {
    var sh' := if inst.dragged then sh.(somethingDragged := false) else sh;
    StepResult(inst.(dragged := false), sh')
  }

  // ---------------------------------------------------------------------
  // Several instances in one frame

  predicate CamerasValid(insts: seq<Instance>, pressed: bool, cams: seq<seq<Point>>) {
    |cams| == |insts| && forall i :: 0 <= i < |insts| ==> CameraValid(insts[i], pressed, cams[i])
  }

  /** The pre-event steps of all instances, in order, threading the shared
      flags through them. */
  function PreEventsAll(insts: seq<Instance>, sh: Shared, pressed: bool, cams: seq<seq<Point>>): (r: FrameResult)
    requires CamerasValid(insts, pressed, cams)
    ensures |r.instances| == |insts|
    ensures r.shared.leftPressedLastFrame == sh.leftPressedLastFrame
    ensures forall i :: 0 <= i < |insts| && !r.instances[i].dragged ==> r.instances[i].sceneObject == insts[i].sceneObject
    decreases |insts|
  {
    if |insts| == 0 then FrameResult([], sh)
    else
      var s := StepPreEvents(insts[0], sh, pressed, cams[0]);
      var rest := PreEventsAll(insts[1..], s.shared, pressed, cams[1..]);
      FrameResult([s.instance] + rest.instances, rest.shared)
  }

  /** The post-event steps of `n` instances: each stores the same button
      state, so none stores anything when there is no instance. */
  function PostEventsAll(sh: Shared, pressed: bool, n: nat): (r: Shared)
    ensures r.somethingDragged == sh.somethingDragged
    ensures n > 0 ==> r.leftPressedLastFrame == pressed
    ensures n == 0 ==> r == sh
    decreases n
  {
    if n == 0 then sh else PostEventsAll(StepPostEvents(sh, pressed), pressed, n - 1)
  }

  /** One frame: pre-event steps of every instance, then (after the scene
      events, which are not modelled) the post-event steps. */
  function Frame(insts: seq<Instance>, sh: Shared, pressed: bool, cams: seq<seq<Point>>): (r: FrameResult)
    requires CamerasValid(insts, pressed, cams)
    ensures |r.instances| == |insts|
    ensures |insts| > 0 ==> r.shared.leftPressedLastFrame == pressed
  {
    var pre := PreEventsAll(insts, sh, pressed, cams);
    FrameResult(pre.instances, PostEventsAll(pre.shared, pressed, |insts|))
  }

  // ---------------------------------------------------------------------
  // Only one thing dragged

  predicate AtMostOneDragged(insts: seq<Instance>) {
    forall i, j :: 0 <= i < j < |insts| && insts[i].dragged ==> !insts[j].dragged
  }

  /** At most one instance is dragged, and a dragged instance holds the
      shared flag. */
  predicate Consistent(insts: seq<Instance>, sh: Shared) {
    && AtMostOneDragged(insts)
    && forall i :: 0 <= i < |insts| && insts[i].dragged ==> sh.somethingDragged
  }

  /** With the button released every drag ends, and any instance stepping
      clears the shared flag. */
  lemma {:induction false} PreEventsReleased(insts: seq<Instance>, sh: Shared, cams: seq<seq<Point>>)
    requires CamerasValid(insts, false, cams)
    ensures forall i :: 0 <= i < |insts| ==> !PreEventsAll(insts, sh, false, cams).instances[i].dragged
    ensures |insts| > 0 ==> !PreEventsAll(insts, sh, false, cams).shared.somethingDragged
    decreases |insts|
  {
    if |insts| > 0 {
      var s := StepPreEvents(insts[0], sh, false, cams[0]);
      PreEventsReleased(insts[1..], s.shared, cams[1..]);
      var r := PreEventsAll(insts, sh, false, cams);
      forall i | 0 <= i < |insts| ensures !r.instances[i].dragged {
        if i > 0 {
          assert r.instances[i] == PreEventsAll(insts[1..], s.shared, false, cams[1..]).instances[i - 1];
        }
      }
    }
  }

  /** While the button is held and either a drag is under way or the button
      was already down last frame, no drag begins or ends and the shared
      flags stay as they are. */
  lemma {:induction false} PreEventsLocked(insts: seq<Instance>, sh: Shared, cams: seq<seq<Point>>)
    requires CamerasValid(insts, true, cams)
    requires sh.somethingDragged || sh.leftPressedLastFrame
    ensures PreEventsAll(insts, sh, true, cams).shared == sh
    ensures forall i :: 0 <= i < |insts| ==>
              PreEventsAll(insts, sh, true, cams).instances[i].dragged == insts[i].dragged
    decreases |insts|
  {
    if |insts| > 0 {
      var s := StepPreEvents(insts[0], sh, true, cams[0]);
      assert !CanBegin(insts[0], sh, true);
      PreEventsLocked(insts[1..], s.shared, cams[1..]);
      var r := PreEventsAll(insts, sh, true, cams);
      forall i | 0 <= i < |insts| ensures r.instances[i].dragged == insts[i].dragged {
        if i > 0 {
          assert r.instances[i] == PreEventsAll(insts[1..], s.shared, true, cams[1..]).instances[i - 1];
        }
      }
    }
  }

  /** The pre-event steps of a frame keep at most one instance dragged, and
      keep the shared flag set while one is. */
  lemma {:induction false} PreEventsConsistent(insts: seq<Instance>, sh: Shared, pressed: bool, cams: seq<seq<Point>>)
    requires CamerasValid(insts, pressed, cams)
    requires Consistent(insts, sh)
    ensures Consistent(PreEventsAll(insts, sh, pressed, cams).instances, PreEventsAll(insts, sh, pressed, cams).shared)
    decreases |insts|
  {
    if !pressed {
      PreEventsReleased(insts, sh, cams);
    } else if |insts| > 0 {
      var s := StepPreEvents(insts[0], sh, true, cams[0]);
      var rest := PreEventsAll(insts[1..], s.shared, true, cams[1..]);
      var r := PreEventsAll(insts, sh, true, cams);
      assert r.instances == [s.instance] + rest.instances;
      assert Consistent(insts[1..], s.shared) by {
        forall i | 0 <= i < |insts[1..]| && insts[1..][i].dragged ensures s.shared.somethingDragged {
          assert insts[i + 1].dragged;
        }
      }
      PreEventsConsistent(insts[1..], s.shared, true, cams[1..]);
      if s.instance.dragged {
        assert s.shared.somethingDragged;
        PreEventsLocked(insts[1..], s.shared, cams[1..]);
        forall j | 0 <= j < |rest.instances| ensures !rest.instances[j].dragged {
          assert insts[j + 1] == insts[1..][j];
          if insts[0].dragged {
            assert !insts[j + 1].dragged;
          } else {
            assert !sh.somethingDragged;
          }
        }
      }
      assert forall i :: 0 < i < |r.instances| ==> r.instances[i] == rest.instances[i - 1];
    }
  }

  /** The post-event steps change no instance and not the shared drag flag,
      so a whole frame keeps the invariant too. */
  lemma FrameConsistent(insts: seq<Instance>, sh: Shared, pressed: bool, cams: seq<seq<Point>>)
    requires CamerasValid(insts, pressed, cams)
    requires Consistent(insts, sh)
    ensures Consistent(Frame(insts, sh, pressed, cams).instances, Frame(insts, sh, pressed, cams).shared)
  {
    PreEventsConsistent(insts, sh, pressed, cams);
  }

  /** Holding the button over the next frame begins no drag: a drag only
      begins on a press edge. */
  lemma HeldButtonBeginsNothing(insts: seq<Instance>, sh: Shared, cams: seq<seq<Point>>, cams2: seq<seq<Point>>)
    requires CamerasValid(insts, true, cams)
    requires |insts| > 0
    requires CamerasValid(Frame(insts, sh, true, cams).instances, true, cams2)
    ensures var f1 := Frame(insts, sh, true, cams);
            var f2 := Frame(f1.instances, f1.shared, true, cams2);
            forall i :: 0 <= i < |insts| ==> f2.instances[i].dragged == f1.instances[i].dragged
  {
    var f1 := Frame(insts, sh, true, cams);
    PreEventsLocked(f1.instances, f1.shared, cams2);
  }

  /** A drag begun on some frame leaves the object where it was on that
      frame. */
  lemma BeginKeepsPosition(inst: Instance, sh: Shared, cams: seq<Point>)
    requires CanBegin(inst, sh, true)
    ensures StepPreEvents(inst, sh, true, cams).instance.sceneObject == inst.sceneObject
  {
  }

  /** The mouse point of some camera of the object's layer hits it. */
  predicate UnderMouse(inst: Instance, cams: seq<Point>) {
    FirstHit(inst.sceneObject, cams, 0).Some?
  }

  /** A frame with the button released, stepping at least one instance,
      leaves nothing dragged, the shared flag clear and the button recorded
      as up: the next press is an edge. */
  lemma ReleaseFrameResets(insts: seq<Instance>, sh: Shared, cams: seq<seq<Point>>)
    requires CamerasValid(insts, false, cams)
    requires |insts| > 0
    ensures Frame(insts, sh, false, cams).shared == Shared(false, false)
    ensures forall i :: 0 <= i < |insts| ==> !Frame(insts, sh, false, cams).instances[i].dragged
  {
    PreEventsReleased(insts, sh, cams);
  }

  /** On a press edge with nothing dragged, exactly the first instance in
      stepping order that is under the mouse begins a drag. */
  lemma {:induction false} PressEdgeDragsFirstHit(insts: seq<Instance>, cams: seq<seq<Point>>)
    requires CamerasValid(insts, true, cams)
    requires forall i :: 0 <= i < |insts| ==> !insts[i].dragged
    ensures var r := PreEventsAll(insts, Shared(false, false), true, cams);
            forall i :: 0 <= i < |insts| ==>
              (r.instances[i].dragged <==>
                 UnderMouse(insts[i], cams[i]) && forall j :: 0 <= j < i ==> !UnderMouse(insts[j], cams[j]))
    decreases |insts|
  {
    if |insts| > 0 {
      var sh := Shared(false, false);
      var s := StepPreEvents(insts[0], sh, true, cams[0]);
      var rest := PreEventsAll(insts[1..], s.shared, true, cams[1..]);
      var r := PreEventsAll(insts, sh, true, cams);
      assert r.instances == [s.instance] + rest.instances;
      if UnderMouse(insts[0], cams[0]) {
        PreEventsLocked(insts[1..], s.shared, cams[1..]);
        forall i | 0 < i < |insts| ensures !r.instances[i].dragged {
          assert r.instances[i] == rest.instances[i - 1];
          assert insts[1..][i - 1] == insts[i];
        }
      } else {
        assert s.shared == sh;
        PressEdgeDragsFirstHit(insts[1..], cams[1..]);
        forall i | 0 < i < |insts|
          ensures r.instances[i].dragged <==>
                    UnderMouse(insts[i], cams[i]) && forall j :: 0 <= j < i ==> !UnderMouse(insts[j], cams[j])
        {
          assert r.instances[i] == rest.instances[i - 1];
          assert insts[1..][i - 1] == insts[i] && cams[1..][i - 1] == cams[i];
          assert (forall j :: 0 <= j < i - 1 ==> !UnderMouse(insts[1..][j], cams[1..][j])) <==>
                 (forall j :: 0 <= j < i ==> !UnderMouse(insts[j], cams[j])) by {
            if forall j :: 0 <= j < i - 1 ==> !UnderMouse(insts[1..][j], cams[1..][j]) {
              forall j | 0 < j < i ensures !UnderMouse(insts[j], cams[j]) {
                assert insts[1..][j - 1] == insts[j] && cams[1..][j - 1] == cams[j];
              }
            }
          }
        }
      }
    }
  }

  /** Deactivating any one instance keeps the invariant. */
  lemma DeActivateConsistent(insts: seq<Instance>, sh: Shared, k: nat)
    requires Consistent(insts, sh)
    requires k < |insts|
    ensures var d := DeActivate(insts[k], sh);
            Consistent(insts[k := d.instance], d.shared)
  {
  }
}
