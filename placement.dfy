/** The left/right rule inside PlaceObject: which side of the screen the arrow
    goes to, where exactly, and how it is rotated. */
module Placement {
  import opened Geometry
  import Visibility

  /** Distance, in pixels, from the left or right screen edge to the arrow. */
  const EdgeInset: nat := 100

  /** Depth of the screen point the arrow is unprojected from. */
  const ArrowDepth: real := 1.0

  /** The screen point the arrow is placed at, and its rotation. */
  datatype ArrowPose = ArrowPose(point: Vec3, rotation: Rotation)

  /** The anchor counts as left when its screen x is below the integer half of
      the screen width (C# `Screen.width / 2` on an int). */
  predicate IsOnLeft(x: real, vp: Viewport) {
    x < (vp.width / 2) as real
  }

  /** The arrow's pose for an anchor projected to anchorScreen. Only the
      anchor's x is looked at. */
  function PoseFor(anchorScreen: Vec3, vp: Viewport): (pose: ArrowPose)
    ensures pose.point.z == ArrowDepth
    ensures pose.point.y == (vp.height / 2) as real
    ensures pose.rotation == Flipped <==> IsOnLeft(anchorScreen.x, vp)
    ensures pose.point.x == if pose.rotation == Flipped then EdgeInset as real
                            else vp.width as real - EdgeInset as real
  {
    if IsOnLeft(anchorScreen.x, vp) then
      ArrowPose(Vec3(EdgeInset as real, (vp.height / 2) as real, ArrowDepth), Flipped)
    else
      ArrowPose(Vec3((vp.width - EdgeInset) as real, (vp.height / 2) as real, ArrowDepth), Identity)
  }

  /** The anchor's projected y and depth never influence the pose. */
  lemma PoseIgnoresYAndDepth(a: Vec3, b: Vec3, vp: Viewport)
    requires a.x == b.x
    ensures PoseFor(a, vp) == PoseFor(b, vp)
  {
  }

  /** The integer half rounds down: the side test is x < w/2 for an even width
      and x < w/2 - 1/2 for an odd one. */
  lemma IsOnLeftExact(x: real, vp: Viewport)
    ensures IsOnLeft(x, vp) <==> 2.0 * x + (vp.width % 2) as real < vp.width as real
  {
  }

  /** For an odd width, a point just left of the true centre already counts
      as right. */
  lemma OddWidthCentreCountsRight(vp: Viewport)
    requires vp.width % 2 == 1
    ensures var x := vp.width as real / 2.0 - 0.25;
            x < vp.width as real / 2.0 && !IsOnLeft(x, vp)
  {
    IsOnLeftExact(vp.width as real / 2.0 - 0.25, vp);
  }

  /** The arrow's screen point lies on screen, in front of the camera, exactly
      when the screen is at least EdgeInset pixels wide. */
  lemma ArrowOnScreenIffWideEnough(a: Vec3, vp: Viewport)
    ensures Visibility.IsAnchorVisible(PoseFor(a, vp).point, vp) <==> vp.width >= EdgeInset
  {
  }

  /** The arrow lands on the anchor's own side of the screen (by the same
      side test) exactly when the screen is wide enough: 202 pixels for a
      left anchor, 199 for a right one. */
  lemma ArrowSideMatchesAnchorIff(a: Vec3, vp: Viewport)
    ensures IsOnLeft(PoseFor(a, vp).point.x, vp) == IsOnLeft(a.x, vp)
            <==> (if IsOnLeft(a.x, vp) then vp.width >= 202 else vp.width >= 199)
  {
  }
}
