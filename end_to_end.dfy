/**
 * The client's packing and the server's split, taken together: the server recovers exactly the
 * colour and the image the client packed, and answers a client frame with that image marked in
 * the frame's average colour.
 */
module EndToEnd {
  import opened Wrappers
  import opened Pixels
  import opened ImageProcessing
  import opened Handler
  import opened Client

  /** An average colour every component of which fits a byte, as `GetAverageColor` guarantees. */
  predicate ByteColor(avg: Rgb) {
    0 <= avg.r <= 255 && 0 <= avg.g <= 255 && 0 <= avg.b <= 255
  }

  /** Packing a byte colour stores its components unchanged, in order `r, g, b`. */
  lemma PackedWithoutWrap(avg: Rgb, imageBytes: Bytes)
    requires ByteColor(avg)
    ensures PackedMessage(avg, imageBytes) == [avg.r, avg.g, avg.b] + imageBytes
  {
  }

  /** For a non-empty image, the server's split recovers exactly the packed colour and image. */
  lemma ParseInvertsPack(avg: Rgb, imageBytes: Bytes)
    requires ByteColor(avg) && |imageBytes| >= 1
    ensures Parse(Binary(PackedMessage(avg, imageBytes))) == Some(Request(TupleColor([avg.r, avg.g, avg.b]), imageBytes))
  {
  }

  /** A packed empty image is a three-byte message, which the server drops without a reply. */
  lemma EmptyImageDropped(p: ImageProcessor, avg: Rgb)
    ensures Parse(Binary(PackedMessage(avg, []))) == None
    ensures Serve(p, [Binary(PackedMessage(avg, []))]) == Transcript([], None)
  {
  }

  /** Every message the server accepts is the client packing of its parsed colour and image. */
  lemma PackInvertsParse(m: Bytes)
    requires Parse(Binary(m)).Some?
    ensures var req := Parse(Binary(m)).value;
      m == PackedMessage(Rgb(m[0], m[1], m[2]), req.imageData)
  {
  }

  /**
   * A frame the client sends is answered with exactly one reply: its JPEG re-encoded with the
   * marker drawn in the frame's average colour `avg` (a byte colour, as `GetAverageColor`
   * ensures), stored as the BGR pixel `(b, g, r)`; an undecodable JPEG gets no reply and ends the
   * handler with the decode error.
   */
  lemma ClientFrameAnswered(p: ImageProcessor, avg: Rgb, jpegBytes: Bytes)
    requires ByteColor(avg) && |jpegBytes| >= 1
    ensures var t := Serve(p, [Binary(PackedMessage(avg, jpegBytes))]);
      match p.inputStrategy.toFrame(jpegBytes)
      case None => t == Transcript([], Some(DecodeError))
      case Some(img) =>
        t == Transcript([p.outputStrategy.fromFrame(Overlay(p.drawingStrategy, img, Pixel(avg.b, avg.g, avg.r)))], None)
  {
  }
}
