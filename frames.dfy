/**
  * The values that travel through the pipeline. A captured frame is a pixel
  * array; the detectors look at it and the JPEG encoder turns it into bytes.
  * Pixel contents never matter to the modelled logic, only whether a frame is
  * there and whether it is empty.
  */
module Frames {

  type Byte = bv8

  /** A frame as it sits in one of the deques: raw pixels or an encoded image. */
  datatype Frame = Raw(pixels: seq<int>) | Jpeg(bytes: seq<Byte>)
  {
    /** numpy's `frame.size`: the number of elements of the array. */
    function Size(): nat
    {
      match this
      case Raw(p) => |p|
      case Jpeg(b) => |b|
    }
  }

  /** A detection box (top, right, bottom, left) in frame pixel coordinates. */
  datatype Box = Box(top: int, right: int, bottom: int, left: int)

  /** An RGB triple as drawn by OpenCV. */
  datatype Color = Rgb(r: int, g: int, b: int)
}
