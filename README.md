# Average-colour rectangle relay: the still-image path

This project is a Dafny model of the still-image ("discrete") mode of a small media relay. A
browser client grabs a video frame. It averages the frame's colour and packs the average as three
bytes in front of the frame's JPEG bytes. It sends the result as one binary WebSocket message.
The Python server accepts every binary message of at least four bytes. It splits each message
into a colour and an image, decodes the image, and draws a filled rectangle of that colour,
centred and 30% x 30% of the frame by default. It re-encodes the image and sends exactly one
reply per accepted message, unless that message's image fails to decode.

Modules:

- `Wrappers` (`wrappers.dfy`): `Option` and `Result`.
- `Pixels` (`pixels.dfy`): bytes, BGR pixels, rasters (decoded images as values), in-memory frames
  (`array2<Pixel>`, rows = height, columns = width) and the copy between the two.
- `ImageProcessing` (`image_processing.dfy`): `tools/image_processor.py`. This covers the rectangle
  geometry, the in-place fill, colour validation with RGB to BGR reversal, and the processor's
  default wiring. The codecs are `IoStrategy` values holding a decoder that may fail
  (`Bytes -> Option<Raster>`) and an encoder.
- `Handler` (`handler.dfy`): `tools/handler.py`. This covers the message filter and split, and the
  per-connection loop as a method from a message sequence to the replies sent.
- `Client` (`client.dfy`): `js/script.js`. This covers the stride-4 colour averaging with exact
  `Math.round`, the packing into one buffer, and the guards of `sendFrame`.
- `EndToEnd` (`end_to_end.dfy`): the client's packing against the server's split, plus the reply a
  client frame gets.

Modelling choices:

- Strategy objects are never changed after construction, so `RectangleStrategy`,
  `IoStrategy` and `ImageProcessor` are datatypes built by constructor functions.
- The drawing itself works in place. `Draw` fills an `array2` and returns the same array.
  `ProcessImage` decodes, copies the decoded raster into a fresh frame (as the decoder returns a
  new buffer), draws on it, and encodes its rows.
- Proportions are exact rationals `num/den`, default `3/10`. `int(n * p)` is truncation toward
  zero.
- OpenCV's filled rectangle covers every position between the two opposite corners, both edges
  included, clipped to the frame.
- `Math.round(s / n)` is the integer `q` with `2nq <= 2s + n < 2n(q + 1)`.
- Storing into a `Uint8Array` reduces modulo 256 (`ToUint8`).

A message whose image cannot be decoded would be expected to be dropped with the connection kept
open. The code instead stops there: the decoder raises `ValueError`
(tools/image_processor.py:56-57). Nothing in the handler catches it (tools/handler.py:37), so the handler ends at that message and answers nothing
after it. `Serve` and `Handle` model this as a transcript whose `raised` field carries the error.

## Model

| member | source | states |
|---|---|---|
| `ImageProcessing.ScaleTruncated` | tools/image_processor.py:34-35 | `int(n * p)` truncates toward zero: for a non-negative proportion `k*den <= n*num < (k+1)*den`, and the mirrored bracket for a negative one |
| `ImageProcessing.ScaleWithinWhole` | tools/image_processor.py:34-35 | for a proportion in [0, 1] the shape size lies in `[0, n]` |
| `ImageProcessing.NewRectangleStrategy` | tools/image_processor.py:10-22 | a missing option map counts as empty; each proportion is the given option, or 0.3 (`3/10`) when its key is absent |
| `ImageProcessing.RectangleCoordinates` | tools/image_processor.py:30-39 | the corners are symmetric about `(width//2, height//2)` and lie exactly `shape_width//2` and `shape_height//2` away from it |
| `ImageProcessing.CornersWithinFrame` | tools/image_processor.py:33-39 | with proportions in [0, 1]: `0 <= top_left <= bottom_right <= (width, height)` componentwise |
| `ImageProcessing.DefaultCornersInsideFrame` | tools/image_processor.py:21-22 | with the default 0.3/0.3 proportions and a non-empty frame, both corners lie strictly inside the frame, so nothing is clipped |
| `ImageProcessing.Overlay` | tools/image_processor.py:24-27 | the marked image keeps the size; every pixel inside the rectangle (corners inclusive, clipped) is the colour; every other pixel is unchanged |
| `ImageProcessing.Draw` | tools/image_processor.py:24-28 | fills the rectangle of the frame in place; the frame keeps its shape; pixels outside are unchanged; the same frame is returned; its rows equal `Overlay` of the old rows |
| `ImageProcessing.NewImageProcessor` | tools/image_processor.py:74-82 | the input codec defaults to JPEG; the output codec falls back to the effective input codec (so to JPEG when neither is given); the drawing strategy defaults to a rectangle with 0.3/0.3 |
| `ImageProcessing.ProcessImage` | tools/image_processor.py:84-95 | an undecodable input raises the decode error with no output; an invalid colour (not a tuple, not 3 long, or a component outside [0,255]) encodes the decoded frame unmarked; a valid colour is drawn as `(c[2], c[1], c[0])`, i.e. RGB becomes BGR |
| `Pixels.NewFrame` | tools/image_processor.py:53-58 | a decoded image becomes a fresh frame with its height, width and pixels |
| `Handler.Parse` | tools/handler.py:34-36 | accepts exactly binary messages of at least 4 bytes; the colour is `(m[0], m[1], m[2])` and the image is `m[3..]`, at least one byte long; the split loses nothing; the colour always passes the processor's check and is drawn as `(m[2], m[1], m[0])` |
| `Handler.Handle` | tools/handler.py:32-38 | the loop's replies and ending are exactly `Serve` of the message sequence |
| `Handler.ServeAnswersAccepted` | tools/handler.py:33-38 | the k-th reply is the processed k-th accepted message, in order; every accepted message is answered unless one fails to decode; then the replies stop just before it and its error ends the handler |
| `Handler.DroppedMessageIgnored` | tools/handler.py:33-34 | a non-binary or shorter-than-4-byte message, wherever it occurs, neither gets a reply nor changes what happens to the rest |
| `Handler.AcceptedMessageIsMarked` | tools/handler.py:35-37 | an accepted message whose image decodes is answered with that image re-encoded with the marker in `(m[2], m[1], m[0])` |
| `Client.ChannelSumBound` | js/script.js:81-85 | a channel sum over `n` pixels is at most `255 * n` |
| `Client.RoundedMean` | js/script.js:87-91 | the result is `Math.round(sum / n)`: the nearest integer, with halves rounded up |
| `Client.RoundedMeanIsByte` | js/script.js:87-91 | the rounded mean of values in [0,255] is in [0,255] |
| `Client.AverageIsByte` | js/script.js:72-92 | every component of the average colour of a `4*width*height` byte buffer is in [0,255], so the `Uint8Array` at line 55 stores it without wrapping |
| `Client.ChannelSumReadsChannel` | js/script.js:81-85 | a channel sum reads only that channel's bytes, at offsets `4j + channel` |
| `Client.ColourSumsIgnoreAlpha` | js/script.js:81-85 | buffers that agree everywhere except at offsets 3 mod 4 have equal red, green and blue sums |
| `Client.AlphaIgnored` | js/script.js:81-85 | two buffers that differ only at offsets 3 mod 4 (alpha) have the same average colour |
| `Client.GetAverageColor` | js/script.js:72-92 | the stride-4 loop computes `AverageOf`, the per-channel rounded means of R, G and B; each is in [0,255] |
| `Client.ToUint8` | js/script.js:55 | a value already in [0,255] is stored unchanged; any value is stored congruent modulo 256 |
| `Client.PackFrame` | js/script.js:55-62 | the buffer is freshly allocated and has length `3 + imageBytes.length`; bytes 0..2 are `r, g, b` in that order; bytes from offset 3 on are the image bytes, unchanged |
| `Client.SendFrame` | js/script.js:44-63 | a message is sent exactly when the socket is open and both video dimensions are non-zero; it is the frame's average `[r, g, b]` followed by the JPEG bytes |
| `EndToEnd.PackedWithoutWrap` | js/script.js:55-62 | packing a byte colour stores its components unchanged |
| `EndToEnd.ParseInvertsPack` | tools/handler.py:34-36 | for a non-empty image, the server's split of the packed message gives back exactly the packed colour and image |
| `EndToEnd.PackInvertsParse` | js/script.js:60-62 | every message the server accepts is the client packing of its parsed colour and image |
| `EndToEnd.EmptyImageDropped` | tools/handler.py:34 | a packed empty image is a 3-byte message; it is dropped and gets no reply |
| `EndToEnd.ClientFrameAnswered` | tools/handler.py:33-38 | a client frame gets exactly one reply: its JPEG marked in the BGR pixel `(b, g, r)` of the average colour; if the JPEG cannot be decoded, there is no reply and the decode error ends the handler |

## Left out

- Codecs: `cv2.imdecode` and `cv2.imencode` (JpegIo) and the PyAV frame conversion (PyAVframeIo) are foreign. They are the `toFrame` and `fromFrame` functions of an `IoStrategy`, and the JPEG default is passed in as a parameter. Decoding may fail. Nothing is assumed about encode followed by decode, since JPEG is lossy. `PyAVframeIo.to_ndarray` takes a video frame, not bytes; the model's codecs all take bytes.
- ImageProcessing.NewImageProcessor: only `RectangleStrategy`, the one concrete `DrawingStrategy` in the source, can be chosen as the drawing strategy. A caller-supplied subclass with its own `draw` cannot be expressed, so `ImageProcessing.ProcessImage` promises the rectangle `Overlay` for a valid colour only for this family.
- Floating point: the proportions `0.3` and the JS divisions are exact rationals and integers. IEEE rounding is not modelled.
- Colour values in Python are integers. A tuple holding non-integers (floats, say) is outside the model.
- `ColorArg.OtherColor` stands for every non-tuple colour argument (a list, `None`, ...).
- `Client.GetAverageColor`: requires a non-empty canvas. With zero pixels the source divides by zero and yields `NaN`. `sendFrame`'s guards exclude that case, and `Client.SendFrame` shows it.
- `Client.SendFrame`: the asynchronous `toBlob`/`FileReader` callbacks, the canvas drawing and the 100 ms timer are I/O. The canvas's RGBA buffer and the JPEG bytes are parameters. If the socket closes between the guard and `socket.send`, the message is still sent in the model.
- WebSocket connect/reconnect logic, image display on reply, `ServerConfig.from_json`, configuration fetching and connection logging: I/O, timers and clocks.
- The streaming mode: the WebRTC React component, peer connections, the track relay and the server's aiohttp/aiortc wiring (`server_api.py`). These are transport, UI and concurrency, and there is no session state machine in this code to model. The React component's copy of the averaging function is the same code as in `js/script.js`, so it is modelled once.
- Concurrency between connections: each connection's handler is modelled on its own.
