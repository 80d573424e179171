/** ARPlaceObjectAuto: each frame, pick the first tracked anchor; if it is not
    visible, place (creating it once) an arrow at the screen edge on the
    anchor's side, otherwise hide the arrow. */
module AutoPlacement {
  import opened Geometry
  import Visibility
  import Placement

  datatype Option<T> = None | Some(value: T)

  /** The arrow as the component sees it. spawned says whether m_SpawnedObject
      has been set; active, position and rotation are the spawned object's
      active flag and transform; instances counts the calls to Instantiate. */
  datatype Marker = Marker(spawned: bool, active: bool, position: Vec3, rotation: Rotation, instances: nat)

  /** How a call of Update ends: normally, or with the NullReferenceException
      raised by hiding an arrow that was never spawned. */
  datatype Outcome = Completed | NullReference

  /** What one frame supplies: the tracked anchors' world positions in
      enumeration order, the camera and the screen size. */
  datatype Frame = Frame(anchors: seq<Vec3>, camera: Camera, viewport: Viewport)

  /** The marker after an Update, and how the Update ended. */
  datatype Step = Step(marker: Marker, outcome: Outcome)

  /** The arrow is instantiated at most once: one instance exists exactly when
      the arrow has been spawned. */
  predicate SingleInstance(m: Marker) {
    m.instances == if m.spawned then 1 else 0
  }

  /** The state of the component before any frame: no arrow yet. */
  predicate Initial(m: Marker) {
    !m.spawned && m.instances == 0
  }

  /** Whether the frame's first anchor projects onto the screen, in front of the camera. */
  predicate FirstAnchorVisible(f: Frame)
    requires |f.anchors| > 0
  {
    Visibility.IsAnchorVisible(f.camera.worldToScreen(f.anchors[0]), f.viewport)
  }

  /** The pose PlaceObject picks for the frame's first anchor. */
  function ChosenPose(f: Frame): Placement.ArrowPose
    requires |f.anchors| > 0
  {
    Placement.PoseFor(f.camera.worldToScreen(f.anchors[0]), f.viewport)
  }

  /** PlaceObject on the marker's state. Without anchors nothing changes;
      otherwise the arrow is instantiated if it does not exist yet, then shown
      at the unprojection of the chosen screen point, with the chosen rotation. */
  function PlaceObjectSpec(m: Marker, f: Frame): (r: Marker)
    ensures |f.anchors| == 0 ==> r == m
    ensures |f.anchors| > 0 ==>
              r.spawned && r.active
              && r.position == f.camera.screenToWorld(ChosenPose(f).point)
              && r.rotation == ChosenPose(f).rotation
    ensures r.instances == if |f.anchors| > 0 && !m.spawned then m.instances + 1 else m.instances
  {
    if |f.anchors| == 0 then
      m
    else
      var pose := ChosenPose(f);
      var instances := if m.spawned then m.instances else m.instances + 1;
      Marker(true, true, f.camera.screenToWorld(pose.point), pose.rotation, instances)
  }

  /** Update on the marker's state, as the source is written. */
  function UpdateSpec(m: Marker, f: Frame): (r: Step)
    ensures |f.anchors| == 0 ==> r == Step(m, Completed)
    ensures |f.anchors| > 0 && !FirstAnchorVisible(f) ==> r == Step(PlaceObjectSpec(m, f), Completed)
    ensures |f.anchors| > 0 && FirstAnchorVisible(f) && m.spawned ==> r == Step(m.(active := false), Completed)
    ensures |f.anchors| > 0 && FirstAnchorVisible(f) && !m.spawned ==> r == Step(m, NullReference)
  {
    if |f.anchors| == 0 then
      Step(m, Completed)
    else if !FirstAnchorVisible(f) then
      Step(PlaceObjectSpec(m, f), Completed)
    else if m.spawned then
      Step(m.(active := false), Completed)
    else
      Step(m, NullReference)
  }

  /** Update with the evident guard: hide the arrow only if it exists. */
  function GuardedUpdateSpec(m: Marker, f: Frame): (r: Step)
    ensures r.outcome == Completed
  {
    if |f.anchors| > 0 && FirstAnchorVisible(f) && !m.spawned then
      Step(m, Completed)
    else
      UpdateSpec(m, f)
  }

  /** The marker after the frames, one Update each. */
  function Run(m: Marker, frames: seq<Frame>): Marker
    decreases |frames|
  {
    if |frames| == 0 then m else Run(UpdateSpec(m, frames[0]).marker, frames[1..])
  }

  /** Pressing the button twice in a frame is the same as pressing it once. */
  lemma PlaceObjectIdempotent(m: Marker, f: Frame)
    ensures PlaceObjectSpec(PlaceObjectSpec(m, f), f) == PlaceObjectSpec(m, f)
  {
  }

  /** The placed arrow is on the anchor's side: flipped exactly when the anchor
      projects left of the integer half of the screen width. */
  lemma PlacedArrowFacesAnchorSide(m: Marker, f: Frame)
    requires |f.anchors| > 0
    ensures PlaceObjectSpec(m, f).rotation == Flipped
            <==> f.camera.worldToScreen(f.anchors[0]).x < (f.viewport.width / 2) as real
  {
  }

  /** Update faults exactly when it must hide an arrow that was never spawned. */
  lemma UpdateFaultsIff(m: Marker, f: Frame)
    ensures UpdateSpec(m, f).outcome == NullReference
            <==> |f.anchors| > 0 && FirstAnchorVisible(f) && !m.spawned
  {
  }

  /** One Update keeps the arrow single. */
  lemma UpdateKeepsSingleInstance(m: Marker, f: Frame)
    requires SingleInstance(m)
    ensures SingleInstance(UpdateSpec(m, f).marker)
  {
  }

  /** Any sequence of frames keeps the arrow single: it is created at most once. */
  lemma {:induction false} RunKeepsSingleInstance(m: Marker, frames: seq<Frame>)
    requires SingleInstance(m)
    ensures SingleInstance(Run(m, frames))
    decreases |frames|
  {
    if |frames| > 0 {
      UpdateKeepsSingleInstance(m, frames[0]);
      RunKeepsSingleInstance(UpdateSpec(m, frames[0]).marker, frames[1..]);
    }
  }

  /** Once spawned, the arrow is reused by every later frame, never recreated. */
  lemma {:induction false} SpawnedArrowReused(m: Marker, frames: seq<Frame>)
    requires m.spawned
    ensures Run(m, frames).spawned
    ensures Run(m, frames).instances == m.instances
    decreases |frames|
  {
    if |frames| > 0 {
      SpawnedArrowReused(UpdateSpec(m, frames[0]).marker, frames[1..]);
    }
  }

  /** Frames without anchors leave the marker as it is. */
  lemma {:induction false} EmptyFramesChangeNothing(m: Marker, frames: seq<Frame>)
    requires forall i :: 0 <= i < |frames| ==> |frames[i].anchors| == 0
    ensures Run(m, frames) == m
    decreases |frames|
  {
    if |frames| > 0 {
      EmptyFramesChangeNothing(m, frames[1..]);
    }
  }

  /** After a frame whose anchor is not visible, the arrow exists, is shown and
      has that frame's placement, whatever came before. */
  lemma {:induction false} HiddenAnchorShowsArrow(m: Marker, frames: seq<Frame>)
    requires |frames| > 0
    requires |frames[|frames| - 1].anchors| > 0 && !FirstAnchorVisible(frames[|frames| - 1])
    ensures Run(m, frames).spawned && Run(m, frames).active
    ensures var last := frames[|frames| - 1];
            Run(m, frames).position == last.camera.screenToWorld(ChosenPose(last).point)
            && Run(m, frames).rotation == ChosenPose(last).rotation
    decreases |frames|
  {
    if |frames| > 1 {
      HiddenAnchorShowsArrow(UpdateSpec(m, frames[0]).marker, frames[1..]);
    }
  }

  /** The Update as written faults on the very first frame if the anchor is
      already visible before any arrow was placed. */
  lemma VisibleAnchorBeforePlacementFaults(m: Marker, f: Frame)
    requires Initial(m)
    requires |f.anchors| > 0 && FirstAnchorVisible(f)
    ensures UpdateSpec(m, f).outcome == NullReference && UpdateSpec(m, f).marker == m
  {
  }

  /** One such first frame: an anchor projecting to (10, 10, 1) on a 100x100 screen. */
  lemma FirstVisibleFrameFaultsExample(m: Marker)
    requires Initial(m)
    ensures var f := Frame([Vec3(10.0, 10.0, 1.0)], Camera(p => p, p => p), Viewport(100, 100));
            UpdateSpec(m, f).outcome == NullReference && UpdateSpec(m, f).marker == m
  {
  }

  /** The guarded Update never faults and leaves the marker exactly as the
      Update as written does, so the fault is its only difference. */
  lemma GuardedUpdateAgrees(m: Marker, f: Frame)
    ensures GuardedUpdateSpec(m, f).outcome == Completed
    ensures GuardedUpdateSpec(m, f).marker == UpdateSpec(m, f).marker
  {
  }

  /** The loops at the head of Update and PlaceObject: enumerate the anchors
      and stop at the first one. */
  method SelectAnchor(anchors: seq<Vec3>) returns (first: Option<Vec3>)
    ensures first.None? <==> |anchors| == 0
    ensures first.Some? ==> first.value == anchors[0]
  {
    first := None;
    for i := 0 to |anchors|
      invariant i == 0 && first == None
    {
      first := Some(anchors[i]);
      break;
    }
  }

  /** The MonoBehaviour itself: m_SpawnedObject and the spawned object's state. */
  class PlaceObjectAuto {
    var spawned: bool
    var active: bool
    var position: Vec3
    var rotation: Rotation
    var instances: nat

    /** The fields as one Marker value. */
    function State(): Marker
      reads this
    {
      Marker(spawned, active, position, rotation, instances)
    }

    ghost predicate Valid()
      reads this
    {
      SingleInstance(State())
    }

    /** A fresh component: m_SpawnedObject is null. */
    constructor ()
      ensures Valid() && Initial(State())
    {
      spawned := false;
      active := false;
      position := Vec3(0.0, 0.0, 0.0);
      rotation := Identity;
      instances := 0;
    }

    /** PlaceObject, run by the button and by Update. */
    method PlaceObject(f: Frame)
      requires Valid()
      modifies this
      ensures Valid()
      ensures State() == PlaceObjectSpec(old(State()), f)
    {
      if |f.anchors| == 0 {
        return;
      }
      var reference := SelectAnchor(f.anchors);
      // The null check on the selected anchor never fires: there is one.
      var anchor := reference.value;
      if !spawned {
        spawned := true;
        instances := instances + 1;
      }
      var anchorScreen := f.camera.worldToScreen(anchor);
      var pose := Placement.PoseFor(anchorScreen, f.viewport);
      var world := f.camera.screenToWorld(pose.point);
      active := true;
      position := world;
      rotation := pose.rotation;
    }

    /** Update, run once per frame. The visibility test is repeated in the
        second branch as in the source; both see the same projection. */
    method Update(f: Frame) returns (outcome: Outcome)
      requires Valid()
      modifies this
      ensures Valid()
      ensures Step(State(), outcome) == UpdateSpec(old(State()), f)
    {
      outcome := Completed;
      if |f.anchors| == 0 {
        return;
      }
      var reference := SelectAnchor(f.anchors);
      var nearest := reference.value;
      if !Visibility.IsAnchorVisible(f.camera.worldToScreen(nearest), f.viewport) {
        PlaceObject(f);
      } else if Visibility.IsAnchorVisible(f.camera.worldToScreen(nearest), f.viewport) {
        if !spawned {
          outcome := NullReference;
          return;
        }
        active := false;
      }
    }
  }
}
