/**
 Camera placement for a heightmap: the camera sits at `(x / 2, (x + z) / 3, z)`
 and looks at `(x / 2, 0, z / 2)`. The texture callback passes the image
 HEIGHT as `x` and the image WIDTH as `z`.
 */
module Camera {

  /** A point in scene coordinates. */
  datatype Point = Point(x: real, y: real, z: real)

  /** Where the camera is and the point it looks at. */
  datatype Pose = Pose(position: Point, target: Point)

  /**
   The camera pose for extents `x` and `z`: above the middle of the `x` range,
   at the far `z` edge, one third of `x + z` up, looking down at ground level
   halfway along `z`.
   */
  function DynamicCamera(x: real, z: real): (pose: Pose)
    ensures 2.0 * pose.position.x == x && pose.position.z == z
    ensures 3.0 * pose.position.y == x + z
    ensures pose.target.x == pose.position.x
    ensures pose.target.y == 0.0
    ensures 2.0 * pose.target.z == pose.position.z
  {
    Pose(Point(x / 2.0, (x + z) / 3.0, z), Point(x / 2.0, 0.0, z / 2.0))
  }

  /**
   The pose the texture callback sets for an image of the given size: the
   height goes in as `x` and the width as `z`. The camera looks straight along
   the z axis from above, and its height is a third of the image's half-perimeter.
   */
  function CameraFor(width: nat, height: nat): (pose: Pose)
    ensures pose.position.z == width as real && 2.0 * pose.position.x == height as real
    ensures 3.0 * pose.position.y == (width + height) as real
    ensures pose.target == Point(pose.position.x, 0.0, pose.position.z / 2.0)
  {
    DynamicCamera(height as real, width as real)
  }

  /**
   A 16 wide, 32 high image puts the camera at `(16, 16, 16)` looking at
   `(16, 0, 8)`; with the arguments the other way round it would sit at
   `(8, 16, 32)`.
   */
  lemma CameraForExample()
    ensures CameraFor(16, 32) == Pose(Point(16.0, 16.0, 16.0), Point(16.0, 0.0, 8.0))
    ensures DynamicCamera(16.0, 32.0) == Pose(Point(8.0, 16.0, 32.0), Point(8.0, 0.0, 16.0))
  {
  }
}
