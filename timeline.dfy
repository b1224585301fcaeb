/**
 * The data the timeline works on: 3D vectors, keyframes, keyframed animations
 * and tracks. Times and coordinates are exact reals.
 */
module Timeline {

  /** A position or a rotation. */
  datatype Vec3 = Vec3(x: real, y: real, z: real)

  const Origin: Vec3 := Vec3(0.0, 0.0, 0.0)

  /** One key of an animation; `time` is local to the animation, in seconds. */
  datatype Keyframe = Keyframe(id: string, position: Vec3, rotation: Vec3, opacity: real, time: real)

  /**
   * A keyframed animation on a track. `start` and `end` are global times in
   * seconds; `keyframes` are expected in ascending `time` order.
   */
  datatype Animation = Animation(id: string, name: string, start: real, end: real, keyframes: seq<Keyframe>)

  /** One lane of the timeline, for one phone. */
  datatype Track = Track(id: string, phoneName: string, animations: seq<Animation>)

  /** What the resolver publishes: the transform-control position and rotation. */
  datatype Pose = Pose(position: Vec3, rotation: Vec3)

  /** The pose a keyframe holds exactly. */
  function KeyPose(kf: Keyframe): Pose {
    Pose(kf.position, kf.rotation)
  }
}
