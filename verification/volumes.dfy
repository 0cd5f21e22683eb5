/** A dense 3D array of intensities with axes (Z, X, Y), as numpy holds a scan
    or a crop of it. Intensities are reals: the raw scan is 16-bit, calibration
    turns it into floats. */
module Volumes {

  datatype Volume = Volume(zSize: nat, xSize: nat, ySize: nat, data: seq<seq<seq<real>>>)

  /** numpy arrays are rectangular: every slice has the same rows, every row the
      same length, and the extents are kept even when an axis is empty. */
  predicate WellShaped(v: Volume) {
    && |v.data| == v.zSize
    && (forall a :: 0 <= a < |v.data| ==> |v.data[a]| == v.xSize)
    && (forall a, b :: 0 <= a < |v.data| && 0 <= b < |v.data[a]| ==> |v.data[a][b]| == v.ySize)
  }

  type Image = v: Volume | WellShaped(v) witness Volume(0, 0, 0, [])

  predicate InBounds(v: Image, a: int, b: int, c: int) {
    0 <= a < v.zSize && 0 <= b < v.xSize && 0 <= c < v.ySize
  }

  function At(v: Image, a: int, b: int, c: int): real
    requires InBounds(v, a, b, c)
  {
    v.data[a][b][c]
  }
}
