/** Values shared by the measurement, diagnosis, calibration and growth-rate
    modules: the outcome of a Python call that may raise, and the geometric
    inputs that OpenCV hands to the analysis (points, bounding rectangles,
    contours). */
module PlantTypes {

  datatype Option<+T> = None | Some(value: T)

  /** The Python exceptions the analysis can raise on its own inputs. */
  datatype PyError =
    | ValueError         // max() of an empty sequence
    | ZeroDivisionError  // a ratio whose divisor is 0
    | TypeError          // arithmetic, comparison or indexing on None
    | IndexError         // [-1] on an empty list

  /** Either the value a Python call returns or the exception it raises. */
  datatype Result<+T> = Ok(value: T) | Err(error: PyError)

  /** An image point (x, y); y grows downwards, as in OpenCV. */
  datatype Point = Point(x: int, y: int)

  /** An axis-aligned bounding rectangle as cv2.boundingRect returns it. */
  datatype Rect = Rect(x: int, y: int, w: int, h: int)

  /** A contour as the analysis sees it: the area cv2.contourArea reports,
      the rectangle cv2.boundingRect reports, and the boundary points. */
  datatype Contour = Contour(area: real, rect: Rect, points: seq<Point>)

  /** A stem measurement (width, height) in pixels. */
  datatype StemSize = StemSize(width: int, height: int)
}
