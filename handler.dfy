/**
 * The discrete-mode connection handler: every binary message of at least four bytes is split into
 * a three-byte colour and an image, processed, and answered with exactly one reply, in order.
 */
module Handler {
  import opened Wrappers
  import opened Pixels
  import opened ImageProcessing

  /** A WebSocket message as the server receives it. */
  datatype Message = Binary(data: Bytes) | Text(text: string)

  /** An accepted message, split into the colour tuple and the image payload. */
  datatype Request = Request(color: ColorArg, imageData: Bytes)

  /**
   * Accepts only binary messages of at least four bytes: the first three bytes become the colour,
   * in order, and the rest (at least one byte) the image. Splitting loses nothing and the colour
   * always passes the processor's validity check.
   */
  function Parse(m: Message): (r: Option<Request>)
    ensures r.Some? <==> m.Binary? && |m.data| >= 4
    ensures r.Some? ==> |r.value.imageData| == |m.data| - 3 >= 1
    ensures r.Some? ==> r.value.color.TupleColor? && m.data == r.value.color.components + r.value.imageData
    ensures r.Some? ==> ValidColor(r.value.color) && ToBgr(r.value.color) == Pixel(m.data[2], m.data[1], m.data[0])
  {
    if m.Binary? && |m.data| >= 4 then
      Some(Request(TupleColor([m.data[0], m.data[1], m.data[2]]), m.data[3..]))
    else
      None
  }

  /**
   * What one connection produces: the replies sent, and the error that ended the handler, if
   * processing raised one.
   */
  datatype Transcript = Transcript(replies: seq<Bytes>, raised: Option<ProcessError>)

  /** The replies `done` already sent, followed by the transcript `t` of the remaining messages. */
  function After(done: seq<Bytes>, t: Transcript): Transcript {
    Transcript(done + t.replies, t.raised)
  }

  /**
   * The handler's behaviour on a message sequence: dropped messages are skipped, each accepted one
   * is answered with its processed image, and a decode error ends the handler there.
   */
  function Serve(p: ImageProcessor, msgs: seq<Message>): Transcript
    decreases |msgs|
  {
    if msgs == [] then Transcript([], None)
    else match Parse(msgs[0])
      case None => Serve(p, msgs[1..])
      case Some(req) =>
        match Processed(p, req.imageData, req.color)
        case Failure(e) => Transcript([], Some(e))
        case Success(out) => After([out], Serve(p, msgs[1..]))
  }

  /** The messages the handler accepts, in order, as requests. */
  function Accepted(msgs: seq<Message>): seq<Request>
    decreases |msgs|
  {
    if msgs == [] then []
    else match Parse(msgs[0])
      case None => Accepted(msgs[1..])
      case Some(req) => [req] + Accepted(msgs[1..])
  }

  /** The loop over one connection's messages, sending one reply per accepted message. */
  method Handle(p: ImageProcessor, msgs: seq<Message>) returns (replies: seq<Bytes>, raised: Option<ProcessError>)
    ensures Transcript(replies, raised) == Serve(p, msgs)
  {
    replies, raised := [], None;
    var i := 0;
    while i < |msgs| && raised.None?
      invariant 0 <= i <= |msgs|
      invariant raised.None? ==> Serve(p, msgs) == After(replies, Serve(p, msgs[i..]))
      invariant raised.Some? ==> Serve(p, msgs) == Transcript(replies, raised)
    {
      assert msgs[i..][1..] == msgs[i + 1..];
      var request := Parse(msgs[i]);
      if request.Some? {
        var processed := ProcessImage(p, request.value.imageData, request.value.color);
        match processed
        case Failure(e) =>
          raised := Some(e);
        case Success(out) =>
          replies := replies + [out];
      }
      i := i + 1;
    }
    if raised.None? {
      assert msgs[i..] == [];
    }
  }

  /**
   * The transcript is determined by the accepted requests: the k-th reply is the processed k-th
   * accepted request; all of them are answered unless one fails to decode, and then the replies
   * stop exactly before it and its error ends the handler.
   */
  lemma {:induction false} ServeAnswersAccepted(p: ImageProcessor, msgs: seq<Message>)
    ensures var t, acc := Serve(p, msgs), Accepted(msgs);
      && |t.replies| <= |acc|
      && (forall k :: 0 <= k < |t.replies| ==> Processed(p, acc[k].imageData, acc[k].color) == Success(t.replies[k]))
      && (t.raised.None? ==> |t.replies| == |acc|)
      && (t.raised.Some? ==>
            && |t.replies| < |acc|
            && Processed(p, acc[|t.replies|].imageData, acc[|t.replies|].color) == Failure(t.raised.value))
    decreases |msgs|
  {
    if msgs != [] {
      ServeAnswersAccepted(p, msgs[1..]);
    }
  }

  /**
   * Messages the handler drops leave the transcript unchanged wherever they occur: a text
   * message or a binary message shorter than four bytes neither gets a reply nor ends the loop.
   */
  lemma {:induction false} DroppedMessageIgnored(p: ImageProcessor, before: seq<Message>, m: Message, after: seq<Message>)
    requires Parse(m).None?
    ensures Serve(p, before + [m] + after) == Serve(p, before + after)
    decreases |before|
  {
    if before == [] {
      assert (before + [m] + after)[0] == m && (before + [m] + after)[1..] == after;
      assert before + after == after;
    } else {
      assert (before + [m] + after)[1..] == before[1..] + [m] + after;
      assert (before + after)[1..] == before[1..] + after;
      DroppedMessageIgnored(p, before[1..], m, after);
    }
  }

  /**
   * Every accepted message whose image decodes is answered with the image re-encoded with the marker
   * drawn in the pixel `(message[2], message[1], message[0])`: the RGB bytes in BGR order.
   */
  lemma AcceptedMessageIsMarked(p: ImageProcessor, m: Message)
    requires Parse(m).Some?
    requires p.inputStrategy.toFrame(m.data[3..]).Some?
    ensures var req := Parse(m).value;
      Processed(p, req.imageData, req.color) ==
        Success(p.outputStrategy.fromFrame(
          Overlay(p.drawingStrategy, p.inputStrategy.toFrame(m.data[3..]).value, Pixel(m.data[2], m.data[1], m.data[0]))))
  {
  }
}
