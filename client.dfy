/**
 * The browser client: it averages the colour of the current video frame, packs the average and the
 * JPEG bytes into one binary message, and sends it only while the socket is open and the video has
 * a size.
 */
module Client {
  import opened Wrappers
  import opened Pixels

  /** The averaged colour, as the numbers `Math.round` returns. */
  datatype Rgb = Rgb(r: int, g: int, b: int)

  /** The sum of channel `channel` (0 red, 1 green, 2 blue) over the first `pixels` RGBA pixels. */
  function ChannelSum(data: Bytes, channel: nat, pixels: nat): nat
    requires channel < 4 && 4 * pixels <= |data|
  {
    if pixels == 0 then 0 else ChannelSum(data, channel, pixels - 1) + data[4 * (pixels - 1) + channel]
  }

  /** A channel sum over `pixels` pixels is at most `255 * pixels`. */
  lemma {:induction false} ChannelSumBound(data: Bytes, channel: nat, pixels: nat)
    requires channel < 4 && 4 * pixels <= |data|
    ensures ChannelSum(data, channel, pixels) <= 255 * pixels
  {
    if pixels > 0 {
      ChannelSumBound(data, channel, pixels - 1);
    }
  }

  /**
   * `Math.round(sum / n)` in exact arithmetic: the integer `q` with `q <= sum / n + 1/2 < q + 1`,
   * so the nearest integer, halves rounded up.
   */
  function RoundedMean(sum: nat, n: nat): (q: nat)
    requires n > 0
    ensures 2 * n * q <= 2 * sum + n < 2 * n * (q + 1)
  {
    (2 * sum + n) / (2 * n)
  }

  /** The rounded mean of values in [0, 255] stays in [0, 255]. */
  lemma RoundedMeanIsByte(sum: nat, n: nat)
    requires n > 0 && sum <= 255 * n
    ensures RoundedMean(sum, n) <= 255
  {
    var q := RoundedMean(sum, n);
    assert 2 * n * q < 2 * n * 256 by {
      assert 2 * sum + n <= 511 * n;
    }
  }

  /** The average colour of a `width` x `height` RGBA buffer, alpha ignored, each mean rounded. */
  function AverageOf(data: Bytes, width: nat, height: nat): Rgb
    requires |data| == 4 * width * height && width > 0 && height > 0
  {
    var n := width * height;
    Rgb(RoundedMean(ChannelSum(data, 0, n), n), RoundedMean(ChannelSum(data, 1, n), n),
        RoundedMean(ChannelSum(data, 2, n), n))
  }

  /** Every component of the average colour is a byte. */
  lemma AverageIsByte(data: Bytes, width: nat, height: nat)
    requires |data| == 4 * width * height && width > 0 && height > 0
    ensures var avg := AverageOf(data, width, height);
      0 <= avg.r <= 255 && 0 <= avg.g <= 255 && 0 <= avg.b <= 255
  {
    var n := width * height;
    ChannelSumBound(data, 0, n);
    ChannelSumBound(data, 1, n);
    ChannelSumBound(data, 2, n);
    RoundedMeanIsByte(ChannelSum(data, 0, n), n);
    RoundedMeanIsByte(ChannelSum(data, 1, n), n);
    RoundedMeanIsByte(ChannelSum(data, 2, n), n);
  }

  /** Channel sums read only their own channel's bytes. */
  lemma {:induction false} ChannelSumReadsChannel(data: Bytes, other: Bytes, channel: nat, pixels: nat)
    requires channel < 4 && 4 * pixels <= |data| == |other|
    requires forall j :: 0 <= j < pixels ==> data[4 * j + channel] == other[4 * j + channel]
    ensures ChannelSum(data, channel, pixels) == ChannelSum(other, channel, pixels)
  {
    if pixels > 0 {
      ChannelSumReadsChannel(data, other, channel, pixels - 1);
    }
  }

  /** The byte at `4 * j + channel` lies at offset `channel` within its pixel. */
  lemma OffsetInPixel(j: nat, channel: nat)
    requires channel < 4
    ensures (4 * j + channel) % 4 == channel
  {
  }

  /** Buffers equal outside the alpha bytes have equal red, green and blue sums. */
  lemma ColourSumsIgnoreAlpha(data: Bytes, other: Bytes, pixels: nat)
    requires |data| == |other| == 4 * pixels
    requires forall i :: 0 <= i < |data| && i % 4 != 3 ==> data[i] == other[i]
    ensures forall channel :: 0 <= channel < 3 ==> ChannelSum(data, channel, pixels) == ChannelSum(other, channel, pixels)
  {
    forall channel | 0 <= channel < 3
      ensures ChannelSum(data, channel, pixels) == ChannelSum(other, channel, pixels)
    {
      forall j | 0 <= j < pixels ensures data[4 * j + channel] == other[4 * j + channel] {
        OffsetInPixel(j, channel);
      }
      ChannelSumReadsChannel(data, other, channel, pixels);
    }
  }

  /** The alpha bytes (offsets 3 mod 4) have no influence on the average colour. */
  lemma AlphaIgnored(data: Bytes, other: Bytes, width: nat, height: nat)
    requires |data| == |other| == 4 * width * height && width > 0 && height > 0
    requires forall i :: 0 <= i < |data| && i % 4 != 3 ==> data[i] == other[i]
    ensures AverageOf(data, width, height) == AverageOf(other, width, height)
  {
    var n := width * height;
    ColourSumsIgnoreAlpha(data, other, n);
  }

  /** Walks the RGBA buffer four bytes at a time, summing red, green and blue, then rounds each mean. */
  method GetAverageColor(data: Bytes, width: nat, height: nat) returns (avg: Rgb)
    requires |data| == 4 * width * height && width > 0 && height > 0
    ensures avg == AverageOf(data, width, height)
    ensures 0 <= avg.r <= 255 && 0 <= avg.g <= 255 && 0 <= avg.b <= 255
  {
    var r: nat, g: nat, b: nat := 0, 0, 0;
    var totalPixels := width * height;
    assert |data| == 4 * totalPixels;
    var i := 0;
    ghost var pixel := 0;
    while i < |data|
      invariant 0 <= pixel <= totalPixels && i == 4 * pixel
      invariant r == ChannelSum(data, 0, pixel)
      invariant g == ChannelSum(data, 1, pixel)
      invariant b == ChannelSum(data, 2, pixel)
    {
      r := r + data[i];
      g := g + data[i + 1];
      b := b + data[i + 2];
      i := i + 4;
      pixel := pixel + 1;
    }
    avg := Rgb(RoundedMean(r, totalPixels), RoundedMean(g, totalPixels), RoundedMean(b, totalPixels));
    AverageIsByte(data, width, height);
  }

  /** Storing a number into a `Uint8Array`: reduced modulo 256. */
  function ToUint8(x: int): (v: byte)
    ensures 0 <= x <= 255 ==> v == x
    ensures (v - x) % 256 == 0
  {
    x % 256
  }

  /** The message the client sends: the colour bytes `r, g, b`, then the image bytes. */
  function PackedMessage(avg: Rgb, imageBytes: Bytes): Bytes {
    [ToUint8(avg.r), ToUint8(avg.g), ToUint8(avg.b)] + imageBytes
  }

  /** Allocates `3 + |imageBytes|` bytes, writes the colour at offset 0 and the image at offset 3. */
  method PackFrame(avg: Rgb, imageBytes: Bytes) returns (combined: array<byte>)
    ensures fresh(combined)
    ensures combined.Length == 3 + |imageBytes|
    ensures combined[0] == ToUint8(avg.r) && combined[1] == ToUint8(avg.g) && combined[2] == ToUint8(avg.b)
    ensures combined[3..] == imageBytes
    ensures combined[..] == PackedMessage(avg, imageBytes)
  {
    var colorBytes := [ToUint8(avg.r), ToUint8(avg.g), ToUint8(avg.b)];
    combined := new byte[3 + |imageBytes|];
    forall i | 0 <= i < 3 {
      combined[i] := colorBytes[i];
    }
    forall i | 3 <= i < combined.Length {
      combined[i] := imageBytes[i - 3];
    }
    assert combined[..] == colorBytes + imageBytes;
  }

  /** The ready states of the client's WebSocket, with the state before it has been created. */
  datatype SocketState = NoSocket | Connecting | Open | Closing | Closed

  /**
   * One tick of the capture timer: nothing is sent unless the socket is open and the video has a
   * non-zero width and height; otherwise the frame's average colour and its JPEG bytes go out as
   * one packed message. `canvasData` is the RGBA buffer of the frame copied onto a canvas of the
   * video's size, `jpegBytes` the canvas encoded as JPEG.
   */
  method SendFrame(socket: SocketState, videoWidth: nat, videoHeight: nat, canvasData: Bytes, jpegBytes: Bytes)
    returns (sent: Option<Bytes>)
    requires |canvasData| == 4 * videoWidth * videoHeight
    ensures sent.Some? <==> socket == Open && videoWidth != 0 && videoHeight != 0
    ensures sent.Some? ==> var avg := AverageOf(canvasData, videoWidth, videoHeight);
      sent.value == [avg.r, avg.g, avg.b] + jpegBytes
  {
    if socket != Open {
      return None;
    }
    if videoWidth == 0 || videoHeight == 0 {
      return None;
    }
    var avgColor := GetAverageColor(canvasData, videoWidth, videoHeight);
    var combined := PackFrame(avgColor, jpegBytes);
    sent := Some(combined[..]);
  }
}
