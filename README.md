# esp_cam streaming core in Dafny

A model of the firmware's `main/main.c` for an ESP32-S3 camera that serves
an MJPEG stream over HTTP. Three parts of that file are covered.

- **The `/stream` handler** (`stream_handler`). It sets the response type
  `multipart/x-mixed-replace;boundary=frame`. Then it loops:
  - it pulls a frame buffer from the camera driver;
  - it formats the part header `Content-Type: image/jpeg` /
    `Content-Length: <len>` into a 64-byte stack buffer with `snprintf`;
  - it writes three chunks: the boundary, the header and the JPEG bytes;
  - it gives the frame back and pauses 30 ms.

  The loop ends with `ESP_FAIL` when a capture returns NULL. It ends with
  `ESP_OK` when a write fails. In that case the frame is still given back,
  and none of the part's later chunks are written.
- **The frame-size setting** (`get_camera_frame_size`). The configured name
  is compared with nine names by `strcmp`, and SVGA is the fallback.
- **The Wi-Fi event handler** (`wifi_event_handler`). This is the
  `wifi_connected` flag and the reconnect calls.

Modules:

- `Wrappers` (wrappers.dfy) holds the `Option` datatype.
- `Ascii` (ascii.dfy) holds octets, C string literals, and `%u` decimal
  printing with its reading back.
- `Multipart` (multipart.dfy) holds the bytes of one part, `snprintf` into
  `part_buf` as an array method, and a receiver's parser, which is the
  encoder's inverse.
- `Stream` (stream.dfy) holds the handler. `StreamHandler` is an imperative
  method, proved equal to the specification function `Handler`. Lemmas
  about `Handler`'s event trace cover frame custody, how a run ends, and
  the bytes on the wire.
- `CameraConfig` (camera_config.dfy) holds the frame-size mapping.
- `WifiEvents` (wifi.dfy) holds the event handler, as a class with the
  flag, plus a pure transition function.

The boundary write passes length 12 with the 11-character literal
`"\r\n--frame\r\n"`. So the literal's terminating NUL goes on the wire after
every delimiter line. The model writes exactly those 12 bytes
(`BOUNDARY_CHUNK`, see `BoundaryChunkEndsInNul`). The receiver's parser
expects them too, so every round-trip property below includes that byte.

The environment becomes parameters:

- The camera is a finite script `captures`. Entry i is what the i-th
  `esp_camera_fb_get` of the connection returns, with `None` for NULL.
- The HTTP transport is an oracle `writeOk`. `writeOk(j)` says whether the
  j-th `httpd_resp_send_chunk` of the connection returns `ESP_OK`.
- A run whose script ends while every write succeeds stops at the top of the
  loop, with exit `Streaming`.

The handler's calls are recorded as a trace of events:
`SetType`, `Pull`, `Send` (with the chunk and its outcome), `Release` and
`Delay`.

## Model

| member | source | states |
|---|---|---|
| Stream.Handler | main/main.c:146-176 | The whole run of one connection, as a specification: the response type is set first, then the first capture is pulled. StreamHandler is proved to compute it; HandlerCustody, LoopEnding, LoopWire and HandlerDeliversFrames characterise it. |
| Stream.Loop | main/main.c:153-173 | The loop from the top of an iteration: every turn starts by pulling the next capture, so the trace is empty only when the script is. LoopCaptures, LoopEnding, LoopStopsAtFailure, LoopCustody, LoopReleasesPulled and LoopWire characterise it. |
| Stream.StreamHandler | main/main.c:146-176 | The imperative handler: part_buf is a 64-byte array, and the capture/write/release/pause loop runs until a failure. Its exit code and trace are exactly those of the specification `Handler`. |
| Stream.WritePart | main/main.c:160-166 | snprintf fills part_buf: afterwards it holds the whole header block followed by a NUL, and the rest of the buffer is unchanged. Then the three chunks are written in order, each only if the one before it succeeded: boundary, then part_buf[..hlen], then the payload. `ok` holds exactly when all three writes succeed. |
| Stream.Attempt | main/main.c:164-166 | The short-circuit chain. The i-th write carries the i-th chunk with the i-th oracle answer. Every write but the last succeeded. Fewer writes than chunks means the last one failed. |
| Stream.WrittenCount | main/main.c:164-166 | Counts how many of the three writes succeed before one fails. It is 3 exactly when all three oracle answers are ESP_OK. |
| Stream.AttemptPart | main/main.c:164-166 | Closed form of the writes of one part for each first failing write. A failed boundary write stops everything. A failed header write stops the payload write. |
| Stream.IterationShape | main/main.c:154-171 | One iteration is the pull, then the chunks in order (boundary, header block, payload) up to and including the first failed write, then the release of that frame. |
| Stream.PartPrefixes | main/main.c:164-166 | The first chunk is the boundary chunk, the first two add the header block, and all three are the whole part. |
| Stream.WireOfChunks | main/main.c:164-166 | The successful writes put the leading chunks on the wire, whole and in order, up to the first failure, and nothing else. |
| Stream.WireOfAttempt | main/main.c:164-166 | The wire after one part's writes is the part cut after its WrittenCount chunks. |
| Stream.IterationViews | main/main.c:154-171 | One iteration captures, obtains and gives back exactly its own frame, and writes the part's leading chunks. |
| Stream.IterationCustody | main/main.c:154-171 | An iteration starts and ends holding no frame, and every write happens while holding its frame. |
| Stream.LoopCustody | main/main.c:153-173 | Every loop run ends holding no frame under the ownership rule (pull only when free, release only the held frame, pause only when free). |
| Stream.HandlerCustody | main/main.c:146-176 | Over a whole run the ownership rule is never broken at any point (at most one frame held, each released once, before the next pull), and nothing is held at the end. |
| Stream.LoopReleasesPulled | main/main.c:153-173 | The frames given back are exactly the frames obtained, in the same order. |
| Stream.LoopCaptures | main/main.c:153-154 | The captures are consumed in script order, one per pull, and all of them while still streaming. |
| Stream.LoopEnding | main/main.c:153-175 | The exit is ESP_FAIL iff the trace ends with the NULL pull (no write, no release after it). It is ESP_OK iff the trace ends with a failed write and then a release. Otherwise the trace ends after a 30 ms pause. |
| Stream.LoopStopsAtFailure | main/main.c:153-169 | Nothing follows a NULL capture, and only the release follows a failed write: no later chunk and no later frame is written. |
| Stream.LoopWire | main/main.c:153-173 | Without a failed write, the wire is one whole part per pulled frame, in pull order. After a failed write, it is whole parts for all earlier frames, then the last frame's part cut after its successful chunks. |
| Stream.HandlerDeliversFrames | main/main.c:146-176 | When no write failed, the model's receiver (ParseParts, which expects the NUL after each delimiter line) parsing the wire gets back exactly the payloads of the frames pulled, in order. Each payload's length equals its Content-Length. |
| Multipart.PartHeader | main/main.c:160-162 | The expanded snprintf format: the Content-Type line and `Content-Length: `, then a value and blank line that a receiver reads back as exactly the length printed, with nothing after. HeaderTextIsFormat and PartHeaderFits characterise its text and size. |
| Multipart.BoundaryChunkEndsInNul | main/main.c:164 | The boundary write sends the first 12 bytes of the 11-character literal's storage: the delimiter line followed by the literal's NUL terminator. |
| Multipart.HeaderTextIsFormat | main/main.c:160-162 | The header bytes around the decimal length are the snprintf format's text. |
| Multipart.PartHeaderFits | main/main.c:148-162 | For every 32-bit length the header block is 47 to 56 bytes, below the 64-byte part_buf, so snprintf never truncates it. |
| Multipart.Snprintf | main/main.c:160-162 | snprintf into a buffer stores the text that fits followed by a NUL, leaves the rest of the buffer alone, and returns the full text length. |
| Multipart.FormatPartHeader | main/main.c:160-162 | The call in the handler formats the whole header block into part_buf, followed by a NUL, and leaves the rest of part_buf alone; hlen is the block's exact length, which is below 64. |
| Multipart.ParseLengthOfDecimal | main/main.c:162 | The printed length reads back as the number printed. |
| Multipart.ParsedLengthIsDecimal | main/main.c:162 | Whatever reads as a length line is that number as printed, so the parser accepts nothing else. |
| Multipart.ParsePartBytes | main/main.c:160-166 | A receiver reading a written part gets its payload and the bytes after it. |
| Multipart.ParsedPartIsPartBytes | main/main.c:160-166 | Whatever a receiver reads as a part is exactly the bytes the handler writes for that payload. |
| Multipart.ParsePartsOfParts | main/main.c:153-173 | A sequence of written parts reads back as the payload sequence, in order. |
| Ascii.Decimal | main/main.c:162 | `%u` prints a canonical digit run (no leading zero) whose last digit is n mod 10. |
| Ascii.DigitsValueOfDecimal | main/main.c:162 | Reading back what `%u` printed gives the number. |
| Ascii.DecimalOfDigitsValue | main/main.c:162 | Every canonical digit run is what `%u` prints for its value. |
| Ascii.Uint32Digits | main/main.c:162 | A 32-bit length prints as at most ten digits. |
| CameraConfig.CString | main/main.c:87 | The C string held by an array is its prefix before the first NUL, and it contains no NUL. |
| CameraConfig.CameraFrameSize | main/main.c:86-106 | The strcmp chain: the result is the frame size whose name the setting holds as a C string, or SVGA when it holds none of the nine names. FrameSizeOfConfig turns this into an if-and-only-if, and FrameSizeOfName shows every size is reachable. |
| CameraConfig.FrameSizeOfMatch | main/main.c:86-104 | A setting holding one of the nine names selects that frame size. |
| CameraConfig.FrameSizeOfUnknown | main/main.c:86-106 | A setting holding none of the nine names selects SVGA. |
| CameraConfig.FrameSizeOfConfig | main/main.c:86-106 | The mapping is total: the result is fs exactly when the setting holds fs's name, or fs is SVGA and the setting holds no name. |
| CameraConfig.FrameSizeOfName | main/main.c:86-106 | Each frame size is selected by its own name, so the mapping is onto and Name is its inverse. |
| WifiEvents.NextConnected | main/main.c:41-55 | IP_EVENT/STA_GOT_IP sets the flag and WIFI_EVENT/STA_DISCONNECTED clears it. STA_START and every other (family, id) pair leave it unchanged. |
| WifiEvents.ConnectedAfterEvents | main/main.c:35-55 | After any event sequence, the flag is set iff an address arrived with no disconnection after it, or the flag started set and no disconnection came. |
| WifiEvents.WifiStation.HandleEvent | main/main.c:41-55 | The handler updates the flag as NextConnected says. It calls esp_wifi_connect once for STA_START and for STA_DISCONNECTED, and not otherwise. |
| WifiEvents.WifiStation.constructor | main/main.c:35 | The flag starts false, and no connect call has been made. |

## Left out

- `wifi_init`, `print_chip_info`, `start_webserver`, `index_handler` and `camera_init` are left out: they are start-up, diagnostic and static-page I/O glue. `wifi_init`, `start_webserver` and `camera_init` register and configure drivers, `print_chip_info` reads the chip, flash and PSRAM sizes only to log them, and `index_handler` sends the fixed HTML page.
- `app_main`'s start-up policy and timing are left out: the NVS erase-and-retry on `ESP_ERR_NVS_NO_FREE_PAGES` or `ESP_ERR_NVS_NEW_VERSION_FOUND`, and the bounded wait of up to 20 polls of `wifi_connected`, 500 ms apart, after which start-up is abandoned if the flag is still false. That wait is the only reader of the flag `WifiEvents` models; the model gives the flag's value after any event sequence, not when the events arrive.
- The camera driver, the HTTP server and the Wi-Fi driver are environment. Captures are a finite script and write outcomes an oracle. What a failed write does to the connection, and what `esp_wifi_connect` does, are not modelled.
- The chunked transfer coding is not modelled: `Wire` is the concatenation of the bytes of the successful writes. In particular, a frame with `fb->len == 0` makes the payload write a zero-length chunk, which the HTTP server sends as the terminating chunk that ends the response body for a real client; the model's wire just goes on to the next part.
- `vTaskDelay(pdMS_TO_TICKS(30))` is an event carrying 30 ms. Tick conversion and real time are not modelled.
- `ESP_LOGI`/`ESP_LOGE`/`ESP_LOGW` logging and the got-IP event's address payload are left out, because they have no effect on state.
- Concurrency is not modelled. That covers several stream connections at once, and the event task running beside the HTTP task. Each connection is modelled alone.
- StreamHandler: a run stops with exit `Streaming` when the capture script ends. The unbounded stream the firmware keeps serving is only covered up to any finite prefix.
- Stream.Frame: a frame's length is assumed below 2^32, the range of the target's 32-bit `size_t`. The frame bytes are opaque; they are not checked to be JPEG.
- CameraConfig.StrEqual: the model covers `strcmp(a, lit) == 0` only for a NUL-free literal, which is how the firmware uses it. The ordering that `strcmp` returns is not modelled.
- CameraConfig.FrameSize: it holds the nine selectable values, not the numeric `framesize_t` codes, which the driver defines.
