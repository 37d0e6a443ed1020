/**
  The correspondence data the main window keeps: for each point set (a track of
  one physical feature) the pixel position of its observation in each image.
 */
module Observations {

  /** A pixel position in image space. */
  datatype Point2 = Point2(x: real, y: real)

  /** point set id -> (image index -> observed position) */
  type PointData = map<int, map<int, Point2>>

  /** The point sets that hold an observation in image img. */
  function Observers(pd: PointData, img: int): set<int> {
    set s | s in pd && img in pd[s]
  }

  /** Every set id is below the next id to hand out. */
  predicate IdsBelow(pd: PointData, nextId: int) {
    forall s :: s in pd ==> s < nextId
  }
}
