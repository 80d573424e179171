/** Values shared by the auto-placement component: Unity's Vector3, the screen
    size, the two arrow rotations and the AR camera's two projections. */
module Geometry {

  /** A Unity Vector3, with exact reals in place of single-precision floats.
      It stands for world positions and for screen points alike: a screen
      point has x and y in pixels and z the depth in front of the camera. */
  datatype Vec3 = Vec3(x: real, y: real, z: real)

  /** Screen.width and Screen.height, in pixels. */
  datatype Viewport = Viewport(width: nat, height: nat)

  /** The two rotations the arrow is ever given:
      Flipped is Quaternion.Euler(180, 0, 0), Identity is Quaternion.Euler(0, 0, 0). */
  datatype Rotation = Flipped | Identity

  /** The AR camera of the current frame, reduced to its WorldToScreenPoint and
      ScreenToWorldPoint transforms, which the model leaves uninterpreted. */
  datatype Camera = Camera(worldToScreen: Vec3 -> Vec3, screenToWorld: Vec3 -> Vec3)
}
