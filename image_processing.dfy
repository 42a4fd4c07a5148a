/**
 * The still-image pipeline of the server: a centred rectangle is computed from the frame's
 * dimensions and two proportions, filled in place with one colour, and the image processor
 * validates the requested colour, reverses it from RGB to BGR and wires decode, draw and encode.
 */
module ImageProcessing {
  import opened Wrappers
  import opened Pixels

  /** An exact rational `num / den`, standing for a floating-point proportion such as 0.3. */
  datatype Fraction = Fraction(num: int, den: int)

  type Proportion = p: Fraction | p.den > 0 witness Fraction(0, 1)

  /** 30% of the frame, the default for both directions. */
  const DefaultProportion: Proportion := Fraction(3, 10)

  /** Euclidean division by a positive divisor brackets the dividend. */
  lemma DivBrackets(a: nat, d: int)
    requires d > 0
    ensures 0 <= d * (a / d) <= a < d * (a / d + 1)
  {
  }

  /** `int(n * p)`: the product, truncated toward zero as Python's `int` does. */
  function ScaleTruncated(n: nat, p: Proportion): (k: int)
    ensures 0 <= p.num ==> 0 <= k * p.den <= n * p.num < (k + 1) * p.den
    ensures p.num < 0 ==> (k - 1) * p.den < n * p.num <= k * p.den <= 0
  {
    var a := n * p.num;
    if a >= 0 then
      DivBrackets(a, p.den);
      a / p.den
    else
      DivBrackets(-a, p.den);
      -((-a) / p.den)
  }

  /** Within the proportion's range [0, 1], the truncated share never exceeds the whole. */
  lemma ScaleWithinWhole(n: nat, p: Proportion)
    requires 0 <= p.num <= p.den
    ensures 0 <= ScaleTruncated(n, p) <= n
  {
  }

  /** A pixel position, `x` along the width and `y` along the height, as OpenCV takes it. */
  datatype Point = Point(x: int, y: int)

  datatype Corners = Corners(topLeft: Point, bottomRight: Point)

  /** The drawing strategy: a filled rectangle whose size is a share of the frame's. */
  datatype RectangleStrategy = RectangleStrategy(heightProportion: Proportion, widthProportion: Proportion)

  const HeightOption := "height_proportion"
  const WidthOption := "width_proportion"

  /**
   * Builds the strategy from optional sizing options; a missing option map counts as empty and a
   * missing key falls back to 30%.
   */
  function NewRectangleStrategy(sizingOptions: Option<map<string, Proportion>>): (s: RectangleStrategy)
    ensures sizingOptions.None? ==> s.heightProportion == DefaultProportion && s.widthProportion == DefaultProportion
    ensures sizingOptions.Some? && HeightOption in sizingOptions.value ==>
      s.heightProportion == sizingOptions.value[HeightOption]
    ensures sizingOptions.Some? && HeightOption !in sizingOptions.value ==> s.heightProportion == DefaultProportion
    ensures sizingOptions.Some? && WidthOption in sizingOptions.value ==>
      s.widthProportion == sizingOptions.value[WidthOption]
    ensures sizingOptions.Some? && WidthOption !in sizingOptions.value ==> s.widthProportion == DefaultProportion
  {
    var options := if sizingOptions.Some? then sizingOptions.value else map[];
    RectangleStrategy(
      if HeightOption in options then options[HeightOption] else DefaultProportion,
      if WidthOption in options then options[WidthOption] else DefaultProportion)
  }

  /**
   * The rectangle's corners for a frame of `height` rows and `width` columns: centred on
   * `(width / 2, height / 2)`, each corner half the (truncated) shape size away from the centre.
   */
  function RectangleCoordinates(s: RectangleStrategy, height: nat, width: nat): (c: Corners)
    ensures c.topLeft.x + c.bottomRight.x == 2 * (width / 2)
    ensures c.topLeft.y + c.bottomRight.y == 2 * (height / 2)
    ensures c.bottomRight.x - c.topLeft.x == 2 * (ScaleTruncated(width, s.widthProportion) / 2)
    ensures c.bottomRight.y - c.topLeft.y == 2 * (ScaleTruncated(height, s.heightProportion) / 2)
  {
    var centerX, centerY := width / 2, height / 2;
    var shapeHeight := ScaleTruncated(height, s.heightProportion);
    var shapeWidth := ScaleTruncated(width, s.widthProportion);
    Corners(Point(centerX - shapeWidth / 2, centerY - shapeHeight / 2),
            Point(centerX + shapeWidth / 2, centerY + shapeHeight / 2))
  }

  /**
   * With proportions in [0, 1] the corners are ordered and lie within `(0, 0)..(width, height)`;
   * the bottom-right corner reaches `width` (one past the last column) only for an even width
   * and a proportion of 1, which the fill then clips.
   */
  lemma {:induction false} CornersWithinFrame(s: RectangleStrategy, height: nat, width: nat)
    requires 0 <= s.heightProportion.num <= s.heightProportion.den
    requires 0 <= s.widthProportion.num <= s.widthProportion.den
    ensures var c := RectangleCoordinates(s, height, width);
      && 0 <= c.topLeft.x <= c.bottomRight.x <= width
      && 0 <= c.topLeft.y <= c.bottomRight.y <= height
  {
    ScaleWithinWhole(width, s.widthProportion);
    ScaleWithinWhole(height, s.heightProportion);
  }

  /** With the default 30% proportions the rectangle never leaves a non-empty frame. */
  lemma DefaultCornersInsideFrame(height: nat, width: nat)
    requires height > 0 && width > 0
    ensures var c := RectangleCoordinates(NewRectangleStrategy(None), height, width);
      && 0 <= c.topLeft.x <= c.bottomRight.x < width
      && 0 <= c.topLeft.y <= c.bottomRight.y < height
  {
  }

  function Min(a: int, b: int): int { if a <= b then a else b }

  function Max(a: int, b: int): int { if a <= b then b else a }

  /** The filled area: every position between the two opposite corners, both edges included. */
  predicate InFill(c: Corners, y: int, x: int) {
    && Min(c.topLeft.x, c.bottomRight.x) <= x <= Max(c.topLeft.x, c.bottomRight.x)
    && Min(c.topLeft.y, c.bottomRight.y) <= y <= Max(c.topLeft.y, c.bottomRight.y)
  }

  /** The marker's area in a frame of the given size. */
  predicate InMarker(s: RectangleStrategy, height: nat, width: nat, y: int, x: int) {
    InFill(RectangleCoordinates(s, height, width), y, x)
  }

  /**
   * The image with the marker drawn on it: same size, the marker's pixels (clipped to the image)
   * set to `color`, every other pixel as it was.
   */
  function Overlay(s: RectangleStrategy, img: Raster, color: Pixel): (r: Raster)
    ensures Height(r) == Height(img) && Width(r) == Width(img)
    ensures forall y, x :: 0 <= y < Height(img) && 0 <= x < Width(img) && InMarker(s, Height(img), Width(img), y, x) ==>
      r[y][x] == color
    ensures forall y, x :: 0 <= y < Height(img) && 0 <= x < Width(img) && !InMarker(s, Height(img), Width(img), y, x) ==>
      r[y][x] == img[y][x]
  {
    var h, w := Height(img), Width(img);
    seq(h, y requires 0 <= y < h =>
      seq(w, x requires 0 <= x < w => if InMarker(s, h, w, y, x) then color else img[y][x]))
  }

  /**
   * Fills the marker in `frame` in place with `colorBgr`, clipped to the frame, and hands the same
   * frame back.
   */
  method Draw(s: RectangleStrategy, frame: array2<Pixel>, colorBgr: Pixel) returns (result: array2<Pixel>)
    modifies frame
    ensures result == frame
    ensures forall y, x :: 0 <= y < frame.Length0 && 0 <= x < frame.Length1 ==>
      frame[y, x] == if InMarker(s, frame.Length0, frame.Length1, y, x) then colorBgr else old(frame[y, x])
    ensures Rows(frame) == Overlay(s, old(Rows(frame)), colorBgr)
  {
    ghost var before := Rows(frame);
    var c := RectangleCoordinates(s, frame.Length0, frame.Length1);
    forall y, x | 0 <= y < frame.Length0 && 0 <= x < frame.Length1 && InFill(c, y, x) {
      frame[y, x] := colorBgr;
    }
    result := frame;
    var after := Rows(frame);
    var expected := Overlay(s, before, colorBgr);
    if frame.Length0 > 0 {
      forall y | 0 <= y < frame.Length0 ensures after[y] == expected[y] {
        assert |before[y]| == |before[0]| == frame.Length1;
      }
    }
  }

  /** The colour argument as the caller passes it: a tuple of integers, or some other value. */
  datatype ColorArg = TupleColor(components: seq<int>) | OtherColor

  /** A tuple of exactly three components, each in [0, 255]. */
  predicate ValidColor(color: ColorArg) {
    && color.TupleColor?
    && |color.components| == 3
    && forall i :: 0 <= i < 3 ==> 0 <= color.components[i] <= 255
  }

  /** The colour reversed, `color[::-1]`: an RGB request becomes a BGR pixel. */
  function ToBgr(color: ColorArg): Pixel
    requires ValidColor(color)
  {
    Pixel(color.components[2], color.components[1], color.components[0])
  }

  /**
   * A codec: `toFrame` decodes a payload and may fail, `fromFrame` encodes a frame. Both are
   * foreign (OpenCV's JPEG codec, PyAV's frame conversion) and given as plain functions.
   */
  datatype IoStrategy = IoStrategy(toFrame: Bytes -> Option<Raster>, fromFrame: Raster -> Bytes)

  datatype ImageProcessor = ImageProcessor(
    inputStrategy: IoStrategy, outputStrategy: IoStrategy, drawingStrategy: RectangleStrategy)

  /**
   * Wires the processor: the input codec defaults to JPEG (`jpeg`), the output codec to the given
   * input codec and then to JPEG, the drawing strategy to a rectangle with default sizing.
   */
  function NewImageProcessor(
    jpeg: IoStrategy,
    inputStrategy: Option<IoStrategy>,
    outputStrategy: Option<IoStrategy>,
    drawingStrategy: Option<RectangleStrategy>
  ): (p: ImageProcessor)
    ensures inputStrategy.Some? ==> p.inputStrategy == inputStrategy.value
    ensures inputStrategy.None? ==> p.inputStrategy == jpeg
    ensures outputStrategy.Some? ==> p.outputStrategy == outputStrategy.value
    ensures outputStrategy.None? ==> p.outputStrategy == p.inputStrategy
    ensures drawingStrategy.Some? ==> p.drawingStrategy == drawingStrategy.value
    ensures drawingStrategy.None? ==>
      p.drawingStrategy.heightProportion == DefaultProportion && p.drawingStrategy.widthProportion == DefaultProportion
  {
    ImageProcessor(
      if inputStrategy.Some? then inputStrategy.value else jpeg,
      if outputStrategy.Some? then outputStrategy.value
      else if inputStrategy.Some? then inputStrategy.value
      else jpeg,
      if drawingStrategy.Some? then drawingStrategy.value else NewRectangleStrategy(None))
  }

  /** The `ValueError` raised when the input cannot be decoded. */
  datatype ProcessError = DecodeError

  /** What processing an image yields: the decoded frame, marked when the colour is valid, re-encoded. */
  function Processed(p: ImageProcessor, imageData: Bytes, color: ColorArg): Result<Bytes, ProcessError> {
    match p.inputStrategy.toFrame(imageData)
    case None => Failure(DecodeError)
    case Some(img) =>
      Success(p.outputStrategy.fromFrame(if ValidColor(color) then Overlay(p.drawingStrategy, img, ToBgr(color)) else img))
  }

  /**
   * Decodes `imageData` into a fresh frame, draws the marker in BGR order when `color` is valid,
   * and encodes the frame; an undecodable payload raises instead of producing output.
   */
  method ProcessImage(p: ImageProcessor, imageData: Bytes, color: ColorArg) returns (r: Result<Bytes, ProcessError>)
    ensures p.inputStrategy.toFrame(imageData).None? ==> r == Failure(DecodeError)
    ensures p.inputStrategy.toFrame(imageData).Some? && !ValidColor(color) ==>
      r == Success(p.outputStrategy.fromFrame(p.inputStrategy.toFrame(imageData).value))
    ensures p.inputStrategy.toFrame(imageData).Some? && ValidColor(color) ==>
      var c := color.components;
      r == Success(p.outputStrategy.fromFrame(
        Overlay(p.drawingStrategy, p.inputStrategy.toFrame(imageData).value, Pixel(c[2], c[1], c[0]))))
  {
    var decoded := p.inputStrategy.toFrame(imageData);
    if decoded.None? {
      return Failure(DecodeError);
    }
    var frame := NewFrame(decoded.value);
    if ValidColor(color) {
      frame := Draw(p.drawingStrategy, frame, ToBgr(color));
    }
    r := Success(p.outputStrategy.fromFrame(Rows(frame)));
  }
}
