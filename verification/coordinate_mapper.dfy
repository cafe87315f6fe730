/**
 * The mapping from camera-image coordinates to screen coordinates used to draw
 * the skeleton: the image is scaled uniformly until it covers the screen
 * ("fill") and centred, so the overflow on one axis is cropped equally on both
 * sides.
 */
module CoordinateMapper {

  /** The derived mapping parameters; the rotation is stored but never read. */
  datatype Mapper = Mapper(scale: real, xOffset: real, yOffset: real, rotationDegrees: int)

  function MaxOf(a: real, b: real): real
  {
    if a >= b then a else b
  }

  /** The mapper for a `cameraWidth` x `cameraHeight` image shown on a `screenWidth` x `screenHeight` view. */
  function NewMapper(cameraWidth: real, cameraHeight: real, screenWidth: real, screenHeight: real,
                     rotationDegrees: int): (m: Mapper)
    requires cameraWidth > 0.0 && cameraHeight > 0.0
    // the scaled image covers the screen on both axes
    ensures cameraWidth * m.scale >= screenWidth && cameraHeight * m.scale >= screenHeight
    // and fits it exactly on at least one axis
    ensures cameraWidth * m.scale == screenWidth || cameraHeight * m.scale == screenHeight
    // so the image's origin sits at or before the screen's on both axes
    ensures m.xOffset <= 0.0 && m.yOffset <= 0.0
    // the image centre lands on the screen centre
    ensures TransposeX(m, cameraWidth / 2.0) == screenWidth / 2.0
    ensures TransposeY(m, cameraHeight / 2.0) == screenHeight / 2.0
    // a screen with some positive side gets a positive scale
    ensures screenWidth > 0.0 || screenHeight > 0.0 ==> m.scale > 0.0
    ensures m.rotationDegrees == rotationDegrees
  {
    var scale := MaxOf(screenWidth / cameraWidth, screenHeight / cameraHeight);
    var xOffset := (screenWidth - cameraWidth * scale) / 2.0;
    var yOffset := (screenHeight - cameraHeight * scale) / 2.0;
    Mapper(scale, xOffset, yOffset, rotationDegrees)
  }

  /** Screen x of image x; with a non-zero scale, the image x can be recovered from it. */
  function TransposeX(m: Mapper, x: real): (sx: real)
    ensures m.scale != 0.0 ==> (sx - m.xOffset) / m.scale == x
  {
    m.xOffset + x * m.scale
  }

  /** Screen y of image y; with a non-zero scale, the image y can be recovered from it. */
  function TransposeY(m: Mapper, y: real): (sy: real)
    ensures m.scale != 0.0 ==> (sy - m.yOffset) / m.scale == y
  {
    m.yOffset + y * m.scale
  }

  /**
   * Both maps are strictly increasing when the scale is positive, and they
   * stretch distances by the same factor, so shapes keep their aspect ratio.
   */
  lemma TransposePreservesShape(m: Mapper, x1: real, x2: real, y1: real, y2: real)
    ensures TransposeX(m, x2) - TransposeX(m, x1) == m.scale * (x2 - x1)
    ensures TransposeY(m, y2) - TransposeY(m, y1) == m.scale * (y2 - y1)
    ensures m.scale > 0.0 && x1 < x2 ==> TransposeX(m, x1) < TransposeX(m, x2)
    ensures m.scale > 0.0 && y1 < y2 ==> TransposeY(m, y1) < TransposeY(m, y2)
  {
  }

  /** The rotation argument has no effect on where a point is drawn. */
  lemma RotationIgnored(cameraWidth: real, cameraHeight: real, screenWidth: real, screenHeight: real,
                        r1: int, r2: int, x: real, y: real)
    requires cameraWidth > 0.0 && cameraHeight > 0.0
    ensures TransposeX(NewMapper(cameraWidth, cameraHeight, screenWidth, screenHeight, r1), x)
            == TransposeX(NewMapper(cameraWidth, cameraHeight, screenWidth, screenHeight, r2), x)
    ensures TransposeY(NewMapper(cameraWidth, cameraHeight, screenWidth, screenHeight, r1), y)
            == TransposeY(NewMapper(cameraWidth, cameraHeight, screenWidth, screenHeight, r2), y)
  {
  }
}
