/** Rectangles in canvas coordinates (`SwRect`). */
module Geometry {
  datatype Rect = Rect(x: int, y: int, width: int, height: int)
}
