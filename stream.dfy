/**
 * The `/stream` handler of one connection: it sets the multipart response
 * type, then loops pulling a frame from the camera, writing it as one part
 * (boundary chunk, header block, payload), releasing it and pausing, until a
 * capture or a write fails.
 *
 * The camera is a script: `captures[i]` is what the i-th `esp_camera_fb_get`
 * of the connection returns (None for NULL). The transport is an oracle:
 * `writeOk(j)` says whether the j-th `httpd_resp_send_chunk` of the connection
 * returns ESP_OK. A run whose script ends while frames keep arriving stops
 * with exit `Streaming`, at the top of the loop, where the handler would pull
 * the next frame.
 */
module Stream {
  import opened Wrappers
  import opened Ascii
  import opened Multipart

  /** `camera_fb_t`: the driver's handle for the buffer, and its JPEG bytes (`buf`, `len`). */
  datatype FrameBuffer = FrameBuffer(handle: nat, buf: seq<byte>)

  /** `len` is a 32-bit `size_t`. */
  type Frame = f: FrameBuffer | |f.buf| < UINT32_LIMIT witness FrameBuffer(0, [])

  datatype EspErr = EspOk | EspFail

  /** How a run ended: the handler returned a code, or the capture script ran out first. */
  datatype Exit = Returned(code: EspErr) | Streaming

  /** The calls the handler makes, in the order it makes them. */
  datatype Event =
    | SetType(mime: string)              // httpd_resp_set_type
    | Pull(got: Option<Frame>)           // esp_camera_fb_get, with what it returned
    | Send(chunk: seq<byte>, ok: bool)   // httpd_resp_send_chunk, and whether it returned ESP_OK
    | Release(frame: Frame)              // esp_camera_fb_return
    | Delay(ms: nat)                     // vTaskDelay

  datatype Run = Run(exit: Exit, trace: seq<Event>)

  /** The pause after each part, in milliseconds. */
  const PACING_MS: nat := 30

  /** The three chunks of the part carrying frame `f`, in the order they are written. */
  function PartChunks(f: Frame): seq<seq<byte>> {
    [BOUNDARY_CHUNK, PartHeader(|f.buf|), f.buf]
  }

  /**
   * Writing `chunks` in order as the w-th, (w+1)-th, ... write of the
   * connection, stopping after the first write that fails: the `||` chain.
   */
  function Attempt(chunks: seq<seq<byte>>, writeOk: nat -> bool, w: nat): (r: seq<Event>)
    ensures |r| <= |chunks| && (chunks != [] ==> |r| >= 1)
    ensures forall i :: 0 <= i < |r| ==> r[i] == Send(chunks[i], writeOk(w + i))
    ensures forall i :: 0 <= i < |r| - 1 ==> r[i].ok
    ensures 0 < |r| < |chunks| ==> !r[|r| - 1].ok
    decreases |chunks|
  {
    if chunks == [] then []
    else if writeOk(w) then [Send(chunks[0], true)] + Attempt(chunks[1..], writeOk, w + 1)
    else [Send(chunks[0], false)]
  }

  /** How many of the three writes of a part starting at write w succeed before one fails. */
  function WrittenCount(writeOk: nat -> bool, w: nat): (k: nat)
    ensures k <= 3
    ensures k == 3 <==> writeOk(w) && writeOk(w + 1) && writeOk(w + 2)
  {
    if !writeOk(w) then 0 else if !writeOk(w + 1) then 1 else if !writeOk(w + 2) then 2 else 3
  }

  /** One iteration on a captured frame, from the pull up to and including the release. */
  function Iteration(f: Frame, writeOk: nat -> bool, w: nat): seq<Event> {
    [Pull(Some(f))] + Attempt(PartChunks(f), writeOk, w) + [Release(f)]
  }

  /**
   * The handler's loop from the top of an iteration, with the rest of the
   * capture script and the index of the next write: what StreamHandler does.
   * Every turn starts by pulling the next capture, so the trace is empty only
   * when the script is.
   */
  function Loop(captures: seq<Option<Frame>>, writeOk: nat -> bool, w: nat): (r: Run)
    ensures r.trace == [] <==> captures == []
    ensures captures != [] ==> r.trace[0] == Pull(captures[0])
    decreases |captures|
  {
    if captures == [] then Run(Streaming, [])
    else match captures[0]
      case None => Run(Returned(EspFail), [Pull(None)])
      case Some(f) =>
        if WrittenCount(writeOk, w) == 3 then
          var rest := Loop(captures[1..], writeOk, w + 3);
          Run(rest.exit, Iteration(f, writeOk, w) + [Delay(PACING_MS)] + rest.trace)
        else
          Run(Returned(EspOk), Iteration(f, writeOk, w))
  }

  /** A whole run of the handler on one connection: the response type is set before the first pull. */
  function Handler(captures: seq<Option<Frame>>, writeOk: nat -> bool): (r: Run)
    ensures r.trace != [] && r.trace[0] == SetType(STREAM_CONTENT_TYPE)
    ensures captures != [] ==> |r.trace| > 1 && r.trace[1] == Pull(captures[0])
  {
    var run := Loop(captures, writeOk, 0);
    Run(run.exit, [SetType(STREAM_CONTENT_TYPE)] + run.trace)
  }

  /** One turn of the loop on a frame that was captured. */
  lemma LoopCaptured(captures: seq<Option<Frame>>, writeOk: nat -> bool, w: nat)
    requires captures != [] && captures[0].Some?
    ensures var f := captures[0].value;
      var rest := Loop(captures[1..], writeOk, w + 3);
      Loop(captures, writeOk, w) ==
        if WrittenCount(writeOk, w) == 3 then Run(rest.exit, Iteration(f, writeOk, w) + [Delay(PACING_MS)] + rest.trace)
        else Run(Returned(EspOk), Iteration(f, writeOk, w))
  {
  }

  /** The writes of one part, by which write fails first. */
  lemma AttemptPart(f: Frame, writeOk: nat -> bool, w: nat)
    ensures Attempt(PartChunks(f), writeOk, w) ==
      if !writeOk(w) then [Send(BOUNDARY_CHUNK, false)]
      else if !writeOk(w + 1) then [Send(BOUNDARY_CHUNK, true), Send(PartHeader(|f.buf|), false)]
      else [Send(BOUNDARY_CHUNK, true), Send(PartHeader(|f.buf|), true), Send(f.buf, writeOk(w + 2))]
  {
    var r := Attempt(PartChunks(f), writeOk, w);
    if writeOk(w) && writeOk(w + 1) {
      assert |r| == 3;
    }
  }

  /**
   * The shape of one iteration: the pull, then the part's chunks in order
   * (boundary, header block, payload) up to and including the first write
   * that fails, then the release of the frame.
   */
  lemma IterationShape(f: Frame, writeOk: nat -> bool, w: nat)
    ensures var e := Iteration(f, writeOk, w); var k := WrittenCount(writeOk, w);
      && |e| == (if k == 3 then 5 else k + 3)
      && e[0] == Pull(Some(f)) && e[|e| - 1] == Release(f)
      && forall i :: 0 < i < |e| - 1 ==> e[i] == Send(PartChunks(f)[i - 1], i <= k)
  {
    var e := Iteration(f, writeOk, w);
    var sends := Attempt(PartChunks(f), writeOk, w);
    AttemptPart(f, writeOk, w);
    forall i | 0 < i < |e| - 1
      ensures e[i] == Send(PartChunks(f)[i - 1], i <= WrittenCount(writeOk, w))
    {
      assert e[i] == sends[i - 1];
    }
  }

  lemma Regroup4<T>(a: seq<T>, b: seq<T>, c: seq<T>, d: seq<T>)
    ensures a + b + c + d == a + (b + c + d)
  {
  }

  /**
   * The body of one turn after a successful capture: `snprintf` formats the
   * header block into `part_buf`, then the condition of the handler's `if`
   * writes the boundary chunk, the header block and the payload, each only
   * if the one before it succeeded. `hlen` is what `snprintf` returned and
   * `ok` is whether all three writes succeeded.
   */
  method WritePart(partBuf: array<byte>, f: Frame, writeOk: nat -> bool, w: nat) returns (hlen: nat, ok: bool, sends: seq<Event>)
    requires partBuf.Length == PART_BUF_SIZE
    modifies partBuf
    ensures hlen < PART_BUF_SIZE && partBuf[..hlen] == PartHeader(|f.buf|)
    ensures partBuf[hlen] == NUL && partBuf[hlen + 1..] == old(partBuf[hlen + 1..])
    ensures sends == Attempt(PartChunks(f), writeOk, w)
    ensures ok <==> WrittenCount(writeOk, w) == 3
  {
    hlen := FormatPartHeader(partBuf, |f.buf|);
    AttemptPart(f, writeOk, w);
    ok := writeOk(w);
    sends := [Send(BOUNDARY_CHUNK, ok)];
    if ok {
      ok := writeOk(w + 1);
      sends := sends + [Send(partBuf[..hlen], ok)];
      if ok {
        ok := writeOk(w + 2);
        sends := sends + [Send(f.buf, ok)];
      }
    }
  }

  /**
   * `stream_handler`: the loop as the firmware runs it, with `part_buf` as a
   * 64-byte array that `snprintf` fills in place.
   */
  method StreamHandler(captures: seq<Option<Frame>>, writeOk: nat -> bool) returns (exit: Exit, trace: seq<Event>)
    ensures Run(exit, trace) == Handler(captures, writeOk)
  {
    var partBuf := new byte[PART_BUF_SIZE];
    trace := [SetType(STREAM_CONTENT_TYPE)];
    var i, w := 0, 0;
    ghost var spec := Handler(captures, writeOk);
    while true
      invariant 0 <= i <= |captures|
      invariant spec == Run(Loop(captures[i..], writeOk, w).exit, trace + Loop(captures[i..], writeOk, w).trace)
      decreases |captures| - i
    {
      if i == |captures| {
        // the script ends here; the firmware would call esp_camera_fb_get again
        return Streaming, trace;
      }
      var fb := captures[i];
      ghost var todo := captures[i..];
      assert todo[0] == fb && todo[1..] == captures[i + 1..];
      ghost var before := trace;
      trace := trace + [Pull(fb)];
      if fb.None? {
        return Returned(EspFail), trace;
      }
      var f := fb.value;
      LoopCaptured(todo, writeOk, w);
      var hlen, ok, sends := WritePart(partBuf, f, writeOk, w);
      trace := trace + sends + [Release(f)];
      ghost var e := Iteration(f, writeOk, w);
      Regroup4(before, [Pull(fb)], sends, [Release(f)]);
      if !ok {
        break;
      }
      ghost var rest := Loop(captures[i + 1..], writeOk, w + 3).trace;
      trace := trace + [Delay(PACING_MS)];
      Regroup4(before, e, [Delay(PACING_MS)], rest);
      i, w := i + 1, w + 3;
    }
    exit := Returned(EspOk);
  }

  // ---------------------------------------------------------------------------
  // Views of a trace

  /** What `pick` gives for each event of `t`, concatenated in trace order. */
  function Collect<T>(t: seq<Event>, pick: Event -> seq<T>): seq<T> {
    if t == [] then [] else pick(t[0]) + Collect(t[1..], pick)
  }

  function CaptureIn(e: Event): seq<Option<Frame>> {
    if e.Pull? then [e.got] else []
  }

  function PulledIn(e: Event): seq<Frame> {
    if e.Pull? && e.got.Some? then [e.got.value] else []
  }

  function ReleasedIn(e: Event): seq<Frame> {
    if e.Release? then [e.frame] else []
  }

  function WrittenIn(e: Event): seq<byte> {
    if e.Send? && e.ok then e.chunk else []
  }

  /** Every capture result the handler received, in order. */
  function Captures(t: seq<Event>): seq<Option<Frame>> {
    Collect(t, CaptureIn)
  }

  /** The frames the handler obtained, in order. */
  function Pulled(t: seq<Event>): seq<Frame> {
    Collect(t, PulledIn)
  }

  /** The frames the handler gave back, in order. */
  function Released(t: seq<Event>): seq<Frame> {
    Collect(t, ReleasedIn)
  }

  /** The bytes of the writes that succeeded, in order: what the receiver got. */
  function Wire(t: seq<Event>): seq<byte> {
    Collect(t, WrittenIn)
  }

  function Payloads(fs: seq<Frame>): (ps: seq<seq<byte>>)
    ensures |ps| == |fs| && forall i :: 0 <= i < |fs| ==> ps[i] == fs[i].buf
  {
    seq(|fs|, i requires 0 <= i < |fs| => fs[i].buf)
  }

  /** The bytes of a sequence of chunks written one after another. */
  function Concat(chunks: seq<seq<byte>>): seq<byte> {
    if chunks == [] then [] else chunks[0] + Concat(chunks[1..])
  }

  lemma {:induction false} CollectAppend<T>(a: seq<Event>, b: seq<Event>, pick: Event -> seq<T>)
    ensures Collect(a + b, pick) == Collect(a, pick) + Collect(b, pick)
  {
    if a == [] {
      assert a + b == b;
    } else {
      assert (a + b)[0] == a[0] && (a + b)[1..] == a[1..] + b;
      CollectAppend(a[1..], b, pick);
      calc {
        Collect(a + b, pick);
        pick(a[0]) + Collect(a[1..] + b, pick);
        pick(a[0]) + (Collect(a[1..], pick) + Collect(b, pick));
        Collect(a, pick) + Collect(b, pick);
      }
    }
  }

  lemma CollectOne<T>(e: Event, pick: Event -> seq<T>)
    ensures Collect([e], pick) == pick(e)
  {
    assert [e][1..] == [];
  }

  /** The bytes of the first k chunks of the part carrying f. */
  function PartPrefix(f: Frame, k: nat): seq<byte>
    requires k <= 3
  {
    Concat(PartChunks(f)[..k])
  }

  lemma PartPrefixes(f: Frame)
    ensures PartPrefix(f, 0) == []
    ensures PartPrefix(f, 1) == BOUNDARY_CHUNK
    ensures PartPrefix(f, 2) == BOUNDARY_CHUNK + PartHeader(|f.buf|)
    ensures PartPrefix(f, 3) == PartBytes(f.buf)
  {
    var c := PartChunks(f);
    var h := PartHeader(|f.buf|);
    var none: seq<seq<byte>> := [];
    var c1: seq<seq<byte>> := [BOUNDARY_CHUNK];
    var c2: seq<seq<byte>> := [BOUNDARY_CHUNK, h];
    var d1: seq<seq<byte>> := [h];
    var d2: seq<seq<byte>> := [h, f.buf];
    var d3: seq<seq<byte>> := [f.buf];
    assert c[..0] == none;
    assert c[..1] == c1 && c1[1..] == none;
    assert Concat(d1) == h by { assert d1[1..] == none; }
    assert Concat(d3) == f.buf by { assert d3[1..] == none; }
    assert c[..2] == c2 && c2[1..] == d1;
    assert Concat(d2) == h + f.buf by { assert d2[1..] == d3; }
    assert c[..3] == c && c[1..] == d2;
  }

  /** How many of `chunks`, written from the w-th write on, succeed before one fails. */
  function LeadingOk(chunks: seq<seq<byte>>, writeOk: nat -> bool, w: nat): (n: nat)
    ensures n <= |chunks|
    decreases |chunks|
  {
    if chunks == [] || !writeOk(w) then 0 else 1 + LeadingOk(chunks[1..], writeOk, w + 1)
  }

  /**
   * The successful writes of an attempt put its leading chunks on the wire,
   * whole and in order, up to the first failed write, and nothing else.
   */
  lemma {:induction false} WireOfChunks(chunks: seq<seq<byte>>, writeOk: nat -> bool, w: nat)
    ensures Wire(Attempt(chunks, writeOk, w)) == Concat(chunks[..LeadingOk(chunks, writeOk, w)])
    decreases |chunks|
  {
    var none: seq<seq<byte>> := [];
    if chunks == [] {
      assert chunks[..0] == none;
    } else if !writeOk(w) {
      CollectOne(Send(chunks[0], false), WrittenIn);
      assert chunks[..0] == none;
    } else {
      var rest := chunks[1..];
      var n := LeadingOk(rest, writeOk, w + 1);
      WireOfChunks(rest, writeOk, w + 1);
      CollectOne(Send(chunks[0], true), WrittenIn);
      CollectAppend([Send(chunks[0], true)], Attempt(rest, writeOk, w + 1), WrittenIn);
      var taken := chunks[..n + 1];
      assert taken[0] == chunks[0] && taken[1..] == rest[..n];
    }
  }

  lemma LeadingOkOfPart(f: Frame, writeOk: nat -> bool, w: nat)
    ensures LeadingOk(PartChunks(f), writeOk, w) == WrittenCount(writeOk, w)
  {
    var c0 := PartChunks(f);
    var c1 := c0[1..];
    var c2 := c1[1..];
    var c3 := c2[1..];
    assert |c3| == 0;
    assert LeadingOk(c2, writeOk, w + 2) == if writeOk(w + 2) then 1 else 0;
    assert LeadingOk(c1, writeOk, w + 1) == if writeOk(w + 1) then 1 + LeadingOk(c2, writeOk, w + 2) else 0;
  }

  /** The successful writes of one part put exactly its first WrittenCount chunks on the wire. */
  lemma WireOfAttempt(f: Frame, writeOk: nat -> bool, w: nat)
    ensures Wire(Attempt(PartChunks(f), writeOk, w)) == PartPrefix(f, WrittenCount(writeOk, w))
  {
    WireOfChunks(PartChunks(f), writeOk, w);
    LeadingOkOfPart(f, writeOk, w);
  }

  /** What the views of a trace see of one iteration. */
  lemma IterationViews(f: Frame, writeOk: nat -> bool, w: nat)
    ensures var e := Iteration(f, writeOk, w);
      && Captures(e) == [Some(f)] && Pulled(e) == [f] && Released(e) == [f]
      && Wire(e) == PartPrefix(f, WrittenCount(writeOk, w))
  {
    var sends := Attempt(PartChunks(f), writeOk, w);
    var p, r := Pull(Some(f)), Release(f);
    NoFramesInWrites(sends);
    WireOfAttempt(f, writeOk, w);
    AttemptPart(f, writeOk, w);
    assert Wire([p]) == [] && Wire([r]) == [] by {
      CollectOne(p, WrittenIn);
      CollectOne(r, WrittenIn);
    }
    CollectOne(p, CaptureIn);
    CollectOne(r, CaptureIn);
    CollectOne(p, PulledIn);
    CollectOne(r, PulledIn);
    CollectOne(p, ReleasedIn);
    CollectOne(r, ReleasedIn);
    CollectAppend([p], sends, CaptureIn);
    CollectAppend([p], sends, PulledIn);
    CollectAppend([p], sends, ReleasedIn);
    CollectAppend([p], sends, WrittenIn);
    CollectAppend([p] + sends, [r], CaptureIn);
    CollectAppend([p] + sends, [r], PulledIn);
    CollectAppend([p] + sends, [r], ReleasedIn);
    CollectAppend([p] + sends, [r], WrittenIn);
  }

  /** One iteration starts and ends holding no frame, and holds its own frame in between. */
  lemma IterationCustody(f: Frame, writeOk: nat -> bool, w: nat)
    ensures Replay(Free, Iteration(f, writeOk, w)) == Free
  {
    var sends := Attempt(PartChunks(f), writeOk, w);
    WritesKeepCustody(f, sends);
    assert Replay(Free, [Pull(Some(f))]) == Holding(f);
    ReplayAppend(Free, [Pull(Some(f))], sends);
    assert Replay(Holding(f), [Release(f)]) == Free;
    ReplayAppend(Free, [Pull(Some(f))] + sends, [Release(f)]);
  }

  /** The views of a trace that continues with a pause and then `rest`. */
  lemma CollectPaused<T>(e: seq<Event>, rest: seq<Event>, pick: Event -> seq<T>)
    requires pick(Delay(PACING_MS)) == []
    ensures Collect(e + [Delay(PACING_MS)] + rest, pick) == Collect(e, pick) + Collect(rest, pick)
  {
    CollectOne(Delay(PACING_MS), pick);
    CollectAppend(e, [Delay(PACING_MS)], pick);
    CollectAppend(e + [Delay(PACING_MS)], rest, pick);
  }
  // ---------------------------------------------------------------------------
  // Custody of frame buffers

  /** Who holds a frame buffer: nobody, the handler (one frame), or the rule was broken. */
  datatype Custody = Free | Holding(frame: Frame) | Violated

  /**
   * The ownership rule for the camera's buffers: a frame may be pulled only
   * when none is held, written only while one is held, given back only by
   * the holder and only once, and the handler pauses and sets headers
   * holding none. Breaking it is final.
   */
  function Step(c: Custody, e: Event): Custody {
    match e
    case Pull(got) => if !c.Free? then Violated else if got.Some? then Holding(got.value) else Free
    case Send(_, _) => if c.Holding? then c else Violated
    case Release(f) => if c == Holding(f) then Free else Violated
    case Delay(_) => if c.Free? then c else Violated
    case SetType(_) => if c.Free? then c else Violated
  }

  function Replay(c: Custody, t: seq<Event>): Custody
    decreases |t|
  {
    if t == [] then c else Replay(Step(c, t[0]), t[1..])
  }

  lemma {:induction false} ReplayAppend(c: Custody, a: seq<Event>, b: seq<Event>)
    ensures Replay(c, a + b) == Replay(Replay(c, a), b)
    decreases |a|
  {
    if a == [] {
      assert a + b == b;
    } else {
      assert (a + b)[0] == a[0] && (a + b)[1..] == a[1..] + b;
      ReplayAppend(Step(c, a[0]), a[1..], b);
    }
  }

  lemma {:induction false} ViolationIsFinal(t: seq<Event>)
    ensures Replay(Violated, t) == Violated
  {
    if t != [] {
      ViolationIsFinal(t[1..]);
    }
  }

  /** Writes happen while the frame is held and leave it held. */
  lemma {:induction false} WritesKeepCustody(f: Frame, sends: seq<Event>)
    requires forall i :: 0 <= i < |sends| ==> sends[i].Send?
    ensures Replay(Holding(f), sends) == Holding(f)
  {
    if sends != [] {
      WritesKeepCustody(f, sends[1..]);
    }
  }

  lemma {:induction false} NoFramesInWrites(sends: seq<Event>)
    requires forall i :: 0 <= i < |sends| ==> sends[i].Send?
    ensures Released(sends) == [] && Pulled(sends) == [] && Captures(sends) == []
  {
    if sends != [] {
      NoFramesInWrites(sends[1..]);
    }
  }

  /** Every iteration gives back the frame it pulled, before pausing and before the next pull. */
  lemma {:induction false} LoopCustody(captures: seq<Option<Frame>>, writeOk: nat -> bool, w: nat)
    ensures Replay(Free, Loop(captures, writeOk, w).trace) == Free
    decreases |captures|
  {
    if captures != [] && captures[0].Some? {
      var f := captures[0].value;
      var e := Iteration(f, writeOk, w);
      IterationCustody(f, writeOk, w);
      if WrittenCount(writeOk, w) == 3 {
        var rest := Loop(captures[1..], writeOk, w + 3).trace;
        LoopCustody(captures[1..], writeOk, w + 3);
        ReplayAppend(Free, e, [Delay(PACING_MS)]);
        ReplayAppend(Free, e + [Delay(PACING_MS)], rest);
      }
    }
  }

  /**
   * Over a whole run the ownership rule is never broken (at every point the
   * handler holds at most one frame, every frame is given back once, by the
   * holder, before the next pull) and no frame is held at the end.
   */
  lemma HandlerCustody(captures: seq<Option<Frame>>, writeOk: nat -> bool)
    ensures var t := Handler(captures, writeOk).trace;
      Replay(Free, t) == Free && forall k :: 0 <= k <= |t| ==> Replay(Free, t[..k]) != Violated
  {
    var t := Handler(captures, writeOk).trace;
    var loop := Loop(captures, writeOk, 0).trace;
    LoopCustody(captures, writeOk, 0);
    ReplayAppend(Free, [SetType(STREAM_CONTENT_TYPE)], loop);
    forall k | 0 <= k <= |t|
      ensures Replay(Free, t[..k]) != Violated
    {
      assert t == t[..k] + t[k..];
      ReplayAppend(Free, t[..k], t[k..]);
      if Replay(Free, t[..k]) == Violated {
        ViolationIsFinal(t[k..]);
      }
    }
  }

  /** The frames given back are the frames obtained, in the same order. */
  lemma {:induction false} LoopReleasesPulled(captures: seq<Option<Frame>>, writeOk: nat -> bool, w: nat)
    ensures var t := Loop(captures, writeOk, w).trace; Released(t) == Pulled(t)
    decreases |captures|
  {
    var t := Loop(captures, writeOk, w).trace;
    if captures == [] {
    } else if captures[0].None? {
      CollectOne(Pull(None), ReleasedIn);
      CollectOne(Pull(None), PulledIn);
    } else {
      var f := captures[0].value;
      var e := Iteration(f, writeOk, w);
      IterationViews(f, writeOk, w);
      if WrittenCount(writeOk, w) == 3 {
        var rest := Loop(captures[1..], writeOk, w + 3).trace;
        LoopReleasesPulled(captures[1..], writeOk, w + 3);
        CollectPaused(e, rest, ReleasedIn);
        CollectPaused(e, rest, PulledIn);
      }
    }
  }

  // ---------------------------------------------------------------------------
  // How a run ends

  /** An iteration ends with the last write it made, which failed if and only if the part was cut, and the release. */
  lemma IterationEnds(f: Frame, writeOk: nat -> bool, w: nat)
    ensures var e := Iteration(f, writeOk, w);
      && |e| >= 3 && e[0] == Pull(Some(f)) && e[|e| - 1] == Release(f)
      && e[|e| - 2].Send? && (e[|e| - 2].ok <==> WrittenCount(writeOk, w) == 3)
  {
    IterationShape(f, writeOk, w);
  }

  /**
   * The loop consumes the capture script in order, one capture per pull,
   * and all of it when it is still streaming at the end.
   */
  lemma {:induction false} LoopCaptures(captures: seq<Option<Frame>>, writeOk: nat -> bool, w: nat)
    ensures var r := Loop(captures, writeOk, w);
      && Captures(r.trace) <= captures
      && (r.exit == Streaming ==> Captures(r.trace) == captures)
    decreases |captures|
  {
    var r := Loop(captures, writeOk, w);
    if captures == [] {
    } else if captures[0].None? {
      CollectOne(Pull(None), CaptureIn);
    } else {
      var f := captures[0].value;
      var e := Iteration(f, writeOk, w);
      IterationViews(f, writeOk, w);
      assert captures == [Some(f)] + captures[1..];
      if WrittenCount(writeOk, w) == 3 {
        var rest := Loop(captures[1..], writeOk, w + 3);
        LoopCaptures(captures[1..], writeOk, w + 3);
        CollectPaused(e, rest.trace, CaptureIn);
      }
    }
  }

  /**
   * How a trace ends for each exit. A NULL capture ends the run with
   * ESP_FAIL, and that pull is the last event: the iteration writes nothing
   * and releases nothing. A failed write ends it with ESP_OK, and the only
   * event after the failed write is the release of the frame. A run that
   * ends in neither way has stopped after a pause, or at once on an empty
   * script.
   */
  predicate EndsAs(x: Exit, t: seq<Event>) {
    && (x == Returned(EspFail) <==> t != [] && t[|t| - 1] == Pull(None))
    && (x == Returned(EspOk) <==> |t| >= 2 && t[|t| - 2].Send? && !t[|t| - 2].ok && t[|t| - 1].Release?)
    && (x == Streaming ==> t == [] || t[|t| - 1] == Delay(PACING_MS))
  }

  /** A trace that ends as `x` still does after an iteration and a pause are put in front of it. */
  lemma EndsAsAfterPause(e: seq<Event>, r: seq<Event>, x: Exit)
    requires e != [] && e[|e| - 1].Release?
    requires EndsAs(x, r)
    ensures EndsAs(x, e + [Delay(PACING_MS)] + r)
  {
    var t := e + [Delay(PACING_MS)] + r;
    if r == [] {
      assert t[|t| - 1] == Delay(PACING_MS) && t[|t| - 2] == e[|e| - 1];
    } else {
      assert t[|t| - 1] == r[|r| - 1];
      if |r| >= 2 {
        assert t[|t| - 2] == r[|r| - 2];
      } else {
        assert t[|t| - 2] == Delay(PACING_MS);
      }
    }
  }

  /** Every run of the loop ends as its exit says. */
  lemma {:induction false} LoopEnding(captures: seq<Option<Frame>>, writeOk: nat -> bool, w: nat)
    ensures EndsAs(Loop(captures, writeOk, w).exit, Loop(captures, writeOk, w).trace)
    decreases |captures|
  {
    if captures != [] && captures[0].Some? {
      var f := captures[0].value;
      var e := Iteration(f, writeOk, w);
      IterationEnds(f, writeOk, w);
      if WrittenCount(writeOk, w) == 3 {
        var rest := Loop(captures[1..], writeOk, w + 3);
        LoopEnding(captures[1..], writeOk, w + 3);
        EndsAsAfterPause(e, rest.trace, rest.exit);
      }
    }
  }

  /** A NULL capture or a failed write. */
  predicate IsFailure(e: Event) {
    e == Pull(None) || (e.Send? && !e.ok)
  }

  /**
   * Nothing follows a NULL capture, and only the release of the frame follows
   * a failed write.
   */
  predicate StopsAtFailure(t: seq<Event>) {
    && (forall i :: 0 <= i < |t| && t[i] == Pull(None) ==> i == |t| - 1)
    && (forall i :: 0 <= i < |t| && t[i].Send? && !t[i].ok ==> i == |t| - 2 && t[i + 1].Release?)
  }

  lemma CleanThenStops(p: seq<Event>, r: seq<Event>)
    requires forall i :: 0 <= i < |p| ==> !IsFailure(p[i])
    requires StopsAtFailure(r)
    ensures StopsAtFailure(p + r)
  {
    var t := p + r;
    forall i | |p| <= i < |t| && IsFailure(t[i])
      ensures t[i] == Pull(None) ==> i == |t| - 1
      ensures t[i].Send? && !t[i].ok ==> i == |t| - 2 && t[i + 1].Release?
    {
      assert t[i] == r[i - |p|];
      if t[i].Send? && !t[i].ok {
        assert t[i + 1] == r[i - |p| + 1];
      }
    }
    forall i | 0 <= i < |p|
      ensures !IsFailure(t[i])
    {
      assert t[i] == p[i];
    }
  }

  /** An iteration whose part was written completely has no failure in it, nor in the pause after it. */
  lemma CompleteIterationClean(f: Frame, writeOk: nat -> bool, w: nat)
    requires WrittenCount(writeOk, w) == 3
    ensures var p := Iteration(f, writeOk, w) + [Delay(PACING_MS)]; forall i :: 0 <= i < |p| ==> !IsFailure(p[i])
  {
    var e := Iteration(f, writeOk, w);
    var p := e + [Delay(PACING_MS)];
    IterationShape(f, writeOk, w);
    forall i | 0 <= i < |p|
      ensures !IsFailure(p[i])
    {
      if i < |e| {
        assert p[i] == e[i];
      }
    }
  }

  /** An iteration whose part was cut ends with the failed write and the release. */
  lemma CutIterationStops(f: Frame, writeOk: nat -> bool, w: nat)
    requires WrittenCount(writeOk, w) < 3
    ensures StopsAtFailure(Iteration(f, writeOk, w))
  {
    IterationShape(f, writeOk, w);
  }

  /**
   * The loop never goes on past a failure: nothing follows a NULL capture,
   * and after a failed write the handler only gives the frame back, so no
   * later chunk of that part and no later frame is written.
   */
  lemma {:induction false} LoopStopsAtFailure(captures: seq<Option<Frame>>, writeOk: nat -> bool, w: nat)
    ensures StopsAtFailure(Loop(captures, writeOk, w).trace)
    decreases |captures|
  {
    if captures != [] && captures[0].Some? {
      var f := captures[0].value;
      if WrittenCount(writeOk, w) == 3 {
        LoopStopsAtFailure(captures[1..], writeOk, w + 3);
        CompleteIterationClean(f, writeOk, w);
        CleanThenStops(Iteration(f, writeOk, w) + [Delay(PACING_MS)], Loop(captures[1..], writeOk, w + 3).trace);
      } else {
        CutIterationStops(f, writeOk, w);
      }
    }
  }

  // ---------------------------------------------------------------------------
  // What reaches the receiver

  lemma PartsCons(f: Frame, fs: seq<Frame>)
    ensures Parts(Payloads([f] + fs)) == PartBytes(f.buf) + Parts(Payloads(fs))
  {
    var ps := Payloads([f] + fs);
    assert ps[0] == f.buf && ps[1..] == Payloads(fs);
  }

  /**
   * The wire after a failed write: whole parts for all frames but the last,
   * then the first k chunks of the last frame's part, those written before
   * the failure.
   */
  predicate CutAt(wire: seq<byte>, fs: seq<Frame>, k: nat) {
    |fs| >= 1 && k < 3 && wire == Parts(Payloads(fs[..|fs| - 1])) + PartPrefix(fs[|fs| - 1], k)
  }

  /** A whole part in front of a wire cut in its last part keeps it cut there. */
  lemma ConsCut(f: Frame, fs: seq<Frame>, wire: seq<byte>, k: nat)
    requires CutAt(wire, fs, k)
    ensures CutAt(PartBytes(f.buf) + wire, [f] + fs, k)
  {
    var init := fs[..|fs| - 1];
    assert ([f] + fs)[..|fs|] == [f] + init;
    assert ([f] + fs)[|fs|] == fs[|fs| - 1];
    PartsCons(f, init);
  }

  /** A part cut after its first k chunks, with nothing in front of it. */
  lemma CutFirst(f: Frame, k: nat)
    requires k < 3
    ensures CutAt(PartPrefix(f, k), [f], k)
  {
    var none: seq<Frame> := [];
    assert [f][..0] == none;
    assert Payloads(none) == [];
  }

  /**
   * The receiver gets one whole part per frame, in the order the frames were
   * pulled; when a write fails, the part it belongs to is cut after its last
   * successful chunk.
   */
  lemma {:induction false} LoopWire(captures: seq<Option<Frame>>, writeOk: nat -> bool, w: nat)
    ensures var r := Loop(captures, writeOk, w);
      && (r.exit != Returned(EspOk) ==> Wire(r.trace) == Parts(Payloads(Pulled(r.trace))))
      && (r.exit == Returned(EspOk) ==> exists k :: CutAt(Wire(r.trace), Pulled(r.trace), k))
    decreases |captures|
  {
    var r := Loop(captures, writeOk, w);
    var t := r.trace;
    if captures == [] {
    } else if captures[0].None? {
      CollectOne(Pull(None), WrittenIn);
      CollectOne(Pull(None), PulledIn);
    } else {
      var f := captures[0].value;
      var e := Iteration(f, writeOk, w);
      var k := WrittenCount(writeOk, w);
      IterationViews(f, writeOk, w);
      if k == 3 {
        var rest := Loop(captures[1..], writeOk, w + 3);
        LoopWire(captures[1..], writeOk, w + 3);
        PartPrefixes(f);
        CollectPaused(e, rest.trace, WrittenIn);
        CollectPaused(e, rest.trace, PulledIn);
        if r.exit == Returned(EspOk) {
          var j :| CutAt(Wire(rest.trace), Pulled(rest.trace), j);
          ConsCut(f, Pulled(rest.trace), Wire(rest.trace), j);
          assert CutAt(Wire(t), Pulled(t), j);
        } else {
          PartsCons(f, Pulled(rest.trace));
        }
      } else {
        CutFirst(f, k);
        assert CutAt(Wire(t), Pulled(t), k);
      }
    }
  }

  /**
   * When no write failed, the receiver reads back exactly the frames the
   * handler pulled, in pull order, each with a Content-Length equal to its
   * length.
   */
  lemma HandlerDeliversFrames(captures: seq<Option<Frame>>, writeOk: nat -> bool)
    ensures var r := Handler(captures, writeOk);
      r.exit != Returned(EspOk) ==> ParseParts(Wire(r.trace)) == Some(Payloads(Pulled(r.trace)))
  {
    var loop := Loop(captures, writeOk, 0);
    var s := SetType(STREAM_CONTENT_TYPE);
    LoopWire(captures, writeOk, 0);
    CollectOne(s, WrittenIn);
    CollectOne(s, PulledIn);
    CollectAppend([s], loop.trace, WrittenIn);
    CollectAppend([s], loop.trace, PulledIn);
    assert Wire([s] + loop.trace) == Wire(loop.trace);
    assert Pulled([s] + loop.trace) == Pulled(loop.trace);
    ParsePartsOfParts(Payloads(Pulled(loop.trace)));
  }
}
