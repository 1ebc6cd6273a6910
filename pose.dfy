/** The skeleton records of src/pose/util.py. They hold data only; the
    skeleton's bounding box is not implemented in the source and is not
    modelled. */
module Pose {
  import opened Points

  /** A detected joint: its image position, its index in the joint layout
      and whether it is visible. */
  datatype Joint2D = Joint2D(pos: Point2DInt, id: int, isVisible: bool)

  /** A human as the list of its joints, in the order they were added. */
  datatype Human2D = Human2D(joints: seq<Joint2D>)

  /** The number of joints in the MPII layout. */
  const NumJoints: nat := 16
}
