/** Screen geometry handed to the core: points and `getBoundingClientRect()` results. */
module Layout {
  datatype Point = Point(x: real, y: real)

  /** A bounding client rectangle: left and top edge, width and height. */
  datatype Rect = Rect(left: real, top: real, width: real, height: real)
}
