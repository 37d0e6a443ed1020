/**
  The calibration results the window keeps after a successful run and hands
  to the glTF exporter.
 */
module CalibrationData {
  import opened Wrappers
  import opened Linear

  /** A camera-to-world pose in the solver's (OpenCV) convention. */
  datatype Pose = Pose(rotation: Mat3, translation: Vec3)

  /**
    intrinsics: image index -> K matrix; poses: image index -> camera-to-world
    pose; points3d and pointIds are index-aligned (None where no set id was
    found); registeredIndices in the order they were extracted.
   */
  datatype CalibrationResults = CalibrationResults(
    intrinsics: map<int, Mat3>,
    poses: map<int, Pose>,
    points3d: seq<Vec3>,
    pointIds: seq<Option<int>>,
    registeredIndices: seq<int>)
}
