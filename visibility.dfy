/** IsAnchorVisible: is the anchor's projected screen point on screen and in
    front of the camera? */
module Visibility {
  import opened Geometry

  /** The closed screen rectangle [0, width] x [0, height]. */
  predicate OnScreen(x: real, y: real, vp: Viewport) {
    0.0 <= x <= vp.width as real && 0.0 <= y <= vp.height as real
  }

  /** IsAnchorVisible, given the anchor's screen point p (the result of
      WorldToScreenPoint on the anchor's position). A point behind the camera
      is rejected before the bounds are looked at. */
  function IsAnchorVisible(p: Vec3, vp: Viewport): (visible: bool)
    ensures visible <==> 0.0 <= p.z && OnScreen(p.x, p.y, vp)
  {
    if p.z < 0.0 then
      false
    else if p.x >= 0.0 && p.x <= vp.width as real && p.y >= 0.0 && p.y <= vp.height as real then
      true
    else
      false
  }

  /** Behind the camera means not visible, wherever x and y project to. */
  lemma BehindCameraNeverVisible(p: Vec3, vp: Viewport)
    requires p.z < 0.0
    ensures !IsAnchorVisible(p, vp)
  {
  }

  /** In front of the camera (depth 0 included), visibility is the bounds check
      alone, so it does not depend on the depth. */
  lemma InFrontDepthIrrelevant(p: Vec3, q: Vec3, vp: Viewport)
    requires p.x == q.x && p.y == q.y
    requires 0.0 <= p.z && 0.0 <= q.z
    ensures IsAnchorVisible(p, vp) == IsAnchorVisible(q, vp)
  {
  }

  /** Both bounds are inclusive: the four corners of the screen are visible. */
  lemma CornersVisible(z: real, vp: Viewport)
    requires 0.0 <= z
    ensures IsAnchorVisible(Vec3(0.0, 0.0, z), vp)
    ensures IsAnchorVisible(Vec3(vp.width as real, 0.0, z), vp)
    ensures IsAnchorVisible(Vec3(0.0, vp.height as real, z), vp)
    ensures IsAnchorVisible(Vec3(vp.width as real, vp.height as real, z), vp)
  {
  }

  /** Any distance past an edge, however small, makes the point invisible. */
  lemma PastAnEdgeNotVisible(p: Vec3, vp: Viewport, eps: real)
    requires 0.0 < eps
    requires p.x == -eps || p.x == vp.width as real + eps || p.y == -eps || p.y == vp.height as real + eps
    ensures !IsAnchorVisible(p, vp)
  {
  }
}
