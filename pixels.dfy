/** Bytes, pixels and rasters shared by the server and the browser client. */
module Pixels {

  /** One unsigned 8-bit value, as stored in a `uint8` ndarray or a `Uint8Array`. */
  type byte = x: int | 0 <= x < 256

  type Bytes = seq<byte>

  /** One pixel of an h x w x 3 frame, channels in the frame's own order (BGR for OpenCV). */
  datatype Pixel = Pixel(c0: byte, c1: byte, c2: byte)

  /** Every row has the width of the first one. */
  predicate Rectangular(rows: seq<seq<Pixel>>) {
    forall y :: 0 <= y < |rows| ==> |rows[y]| == |rows[0]|
  }

  /** A decoded image as a value: `height` rows of `width` pixels. */
  type Raster = rows: seq<seq<Pixel>> | Rectangular(rows) witness []

  function Height(img: Raster): nat { |img| }

  function Width(img: Raster): nat { if |img| == 0 then 0 else |img[0]| }

  /** The contents of an in-memory frame, row by row. */
  function Rows(a: array2<Pixel>): (rows: seq<seq<Pixel>>)
    reads a
    ensures |rows| == a.Length0
    ensures forall y :: 0 <= y < a.Length0 ==> |rows[y]| == a.Length1
    ensures forall y, x :: 0 <= y < a.Length0 && 0 <= x < a.Length1 ==> rows[y][x] == a[y, x]
  {
    seq(a.Length0, y requires 0 <= y < a.Length0 reads a =>
      seq(a.Length1, x requires 0 <= x < a.Length1 reads a => a[y, x]))
  }

  /** Allocates a fresh frame holding `img`, as a decoder hands back a new buffer. */
  method NewFrame(img: Raster) returns (a: array2<Pixel>)
    ensures fresh(a)
    ensures a.Length0 == Height(img) && a.Length1 == Width(img)
    ensures Rows(a) == img
  {
    a := new Pixel[Height(img), Width(img)];
    forall y, x | 0 <= y < a.Length0 && 0 <= x < a.Length1 {
      a[y, x] := img[y][x];
    }
    forall y | 0 <= y < a.Length0 ensures Rows(a)[y] == img[y] {
      assert |img[y]| == |img[0]|;
    }
  }
}
