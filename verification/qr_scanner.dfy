/** The camera scanner of `static/js/qr_scanner.js`: the `QRScanner` state,
    its start/stop transitions, the per-frame rate limit, the start/stop
    button and the handling of the attendance endpoint's reply.

    The camera, the frame decoder and `fetch` are not modelled; they appear
    as inputs: a `Camera` grant or denial, a `Frame` that holds the decoded
    payload if any, and a `FetchOutcome`. Time is the integer millisecond
    clock `new Date().getTime()`. */
module QrScanner {
  import opened Wrappers
  import opened Feedback

  /** `scanInterval`: minimum time in milliseconds before the same payload is
      forwarded again. */
  const ScanInterval: int := 500

  datatype Track = Track(id: nat, stopped: bool)

  /** A camera stream (`MediaStream`) and its tracks. */
  datatype Stream = Stream(tracks: seq<Track>)

  /** The fields of a `QRScanner`: the `scanning` flag, the rate-limit memory
      (`lastScannedCode`, None for the initial `null`, and `lastScannedTime`),
      whether a callback was passed to the constructor, and the stream
      attached to the video element (`video.srcObject`). */
  datatype Scanner = Scanner(
    scanning: bool,
    lastCode: Option<string>,
    lastTime: int,
    hasCallback: bool,
    stream: Option<Stream>)

  /** The camera is held exactly while scanning. */
  predicate Consistent(s: Scanner) {
    s.scanning <==> s.stream.Some?
  }

  /** `new QRScanner(video, canvas, callback)` */
  function NewScanner(hasCallback: bool): (s: Scanner)
    ensures !s.scanning && s.lastCode == None && s.lastTime == 0
    ensures s.hasCallback == hasCallback && Consistent(s)
  {
    Scanner(false, None, 0, hasCallback, None)
  }

  // ---------------------------------------------------------------- rate limit

  /** A payload handed over by the decoder at a given time. */
  datatype Decode = Decode(data: string, time: int)

  /** The outcome of one decoded payload: the new state, whether the payload
      passed the rate limit, and the payload given to the callback, if any. */
  datatype DecodeStep = DecodeStep(scanner: Scanner, forwarded: bool, callback: Option<string>)

  /** The rate-limit branch of `scanFrame` for a decoded payload `data` read
      at time `now`. */
  function OnDecode(s: Scanner, data: string, now: int): (r: DecodeStep)
    ensures r.forwarded <==> s.lastCode != Some(data) || now - s.lastTime > ScanInterval
    ensures r.forwarded ==> r.scanner == s.(lastCode := Some(data), lastTime := now)
    ensures !r.forwarded ==> r.scanner == s
    ensures r.scanner.lastCode == Some(data)
    ensures r.callback.Some? <==> r.forwarded && s.hasCallback
    ensures r.callback.Some? ==> r.callback.value == data
  {
    if Some(data) != s.lastCode || now - s.lastTime > ScanInterval then
      DecodeStep(s.(lastCode := Some(data), lastTime := now), true,
                 if s.hasCallback then Some(data) else None)
    else
      DecodeStep(s, false, None)
  }

  /** A fresh scanner forwards whatever it decodes first, at any time. */
  lemma FirstDecodeForwarded(hasCallback: bool, data: string, now: int)
    ensures OnDecode(NewScanner(hasCallback), data, now).forwarded
    ensures hasCallback ==> OnDecode(NewScanner(hasCallback), data, now).callback == Some(data)
  {
  }

  /** The comparison is strict: the same payload exactly one interval after
      the last forwarded one is still suppressed, one millisecond later it is
      not. */
  lemma BoundaryOfInterval(s: Scanner, data: string)
    requires s.lastCode == Some(data)
    ensures !OnDecode(s, data, s.lastTime + ScanInterval).forwarded
    ensures OnDecode(s, data, s.lastTime + ScanInterval + 1).forwarded
  {
  }

  /** Feeding the decoder's payloads one after the other: the final state and
      the payloads that passed the rate limit, in order. */
  function Forwards(s: Scanner, ds: seq<Decode>): (r: (Scanner, seq<Decode>))
    ensures |r.1| <= |ds|
    ensures r.0.scanning == s.scanning && r.0.stream == s.stream && r.0.hasCallback == s.hasCallback
    decreases |ds|
  {
    if |ds| == 0 then (s, [])
    else
      var step := OnDecode(s, ds[0].data, ds[0].time);
      var rest := Forwards(step.scanner, ds[1..]);
      (rest.0, if step.forwarded then [ds[0]] + rest.1 else rest.1)
  }

  /** Only decoded payloads are forwarded, each at the time it was decoded. */
  lemma {:induction false} ForwardsFromInput(s: Scanner, ds: seq<Decode>)
    ensures forall k :: 0 <= k < |Forwards(s, ds).1| ==> Forwards(s, ds).1[k] in ds
    decreases |ds|
  {
    if |ds| > 0 {
      var step := OnDecode(s, ds[0].data, ds[0].time);
      ForwardsFromInput(step.scanner, ds[1..]);
      var rest := Forwards(step.scanner, ds[1..]).1;
      assert forall x :: x in rest ==> x in ds;
    }
  }

  /** Two payloads forwarded one after the other either differ or lie more
      than one interval apart, and the first one forwarded passes the rate
      limit against the starting state. No assumption on the clock is needed. */
  predicate Spaced(s: Scanner, out: seq<Decode>) {
    && (|out| > 0 ==> s.lastCode != Some(out[0].data) || out[0].time - s.lastTime > ScanInterval)
    && forall k :: 0 <= k < |out| - 1 ==>
         out[k].data != out[k + 1].data || out[k + 1].time - out[k].time > ScanInterval
  }

  lemma {:induction false} ForwardsAreSpaced(s: Scanner, ds: seq<Decode>)
    ensures Spaced(s, Forwards(s, ds).1)
    decreases |ds|
  {
    if |ds| > 0 {
      var step := OnDecode(s, ds[0].data, ds[0].time);
      ForwardsAreSpaced(step.scanner, ds[1..]);
      var rest := Forwards(step.scanner, ds[1..]).1;
      if step.forwarded {
        SpacedCons(s, ds[0], rest);
      }
    }
  }

  /** After a run the scanner remembers the last payload decoded and the time
      of the last one forwarded. */
  lemma {:induction false} ForwardsLast(s: Scanner, ds: seq<Decode>)
    ensures var (fin, out) := Forwards(s, ds);
            if |out| == 0 then fin.lastTime == s.lastTime
            else fin.lastTime == out[|out| - 1].time
    decreases |ds|
  {
    if |ds| > 0 {
      var step := OnDecode(s, ds[0].data, ds[0].time);
      ForwardsLast(step.scanner, ds[1..]);
    }
  }

  lemma {:induction false} ForwardsLastCode(s: Scanner, ds: seq<Decode>)
    ensures |ds| > 0 ==> Forwards(s, ds).0.lastCode == Some(ds[|ds| - 1].data)
    ensures |ds| == 0 ==> Forwards(s, ds).0.lastCode == s.lastCode
    decreases |ds|
  {
    if |ds| > 0 {
      var step := OnDecode(s, ds[0].data, ds[0].time);
      ForwardsLastCode(step.scanner, ds[1..]);
      if |ds| > 1 {
        assert ds[1..][|ds[1..]| - 1] == ds[|ds| - 1];
      }
    }
  }

  lemma LastOfCons<T>(x: T, xs: seq<T>)
    requires |xs| > 0
    ensures ([x] + xs)[|xs|] == xs[|xs| - 1]
  {
  }

  lemma SpacedCons(s: Scanner, d: Decode, rest: seq<Decode>)
    requires s.lastCode != Some(d.data) || d.time - s.lastTime > ScanInterval
    requires Spaced(s.(lastCode := Some(d.data), lastTime := d.time), rest)
    ensures Spaced(s, [d] + rest)
  {
    var out := [d] + rest;
    assert forall k :: 1 <= k < |out| ==> out[k] == rest[k - 1];
  }

  /** A payload that differs from the one decoded just before it is always
      forwarded, however soon it comes. */
  lemma {:induction false} ChangedPayloadForwarded(s: Scanner, ds: seq<Decode>, d: Decode)
    requires |ds| > 0 && ds[|ds| - 1].data != d.data
    ensures OnDecode(Forwards(s, ds).0, d.data, d.time).forwarded
  {
    ForwardsLastCode(s, ds);
  }

  /** The example run: "STU1001" at 0 ms, 200 ms and 600 ms is forwarded at 0
      and at 600 only. */
  lemma ExampleRun()
    ensures Forwards(NewScanner(true), [Decode("STU1001", 0), Decode("STU1001", 200), Decode("STU1001", 600)]).1
            == [Decode("STU1001", 0), Decode("STU1001", 600)]
  {
    var s0 := NewScanner(true);
    var ds := [Decode("STU1001", 0), Decode("STU1001", 200), Decode("STU1001", 600)];
    var s1 := OnDecode(s0, "STU1001", 0).scanner;
    var s2 := OnDecode(s1, "STU1001", 200).scanner;
    assert ds[1..] == [Decode("STU1001", 200), Decode("STU1001", 600)];
    assert ds[1..][1..] == [Decode("STU1001", 600)];
    assert Forwards(s2, ds[1..][1..]).1 == [Decode("STU1001", 600)];
  }

  // ---------------------------------------------------------------- frames

  /** What one animation frame sees: the video not yet at `HAVE_ENOUGH_DATA`,
      or a frame handed to the decoder, which may or may not find a code. */
  datatype Frame = NotReady | Ready(decoded: Option<string>)

  datatype FrameStep = FrameStep(scanner: Scanner, callback: Option<string>, reschedule: bool)

  /** `scanFrame()` at time `now`. */
  function ScanFrame(s: Scanner, frame: Frame, now: int): (r: FrameStep)
    ensures !s.scanning ==> r == FrameStep(s, None, false)
    ensures r.reschedule <==> s.scanning
    ensures r.scanner.scanning == s.scanning && r.scanner.stream == s.stream
    ensures (frame.NotReady? || frame.decoded.None?) ==> r.scanner == s && r.callback == None
    ensures r.callback.Some? ==> frame == Ready(r.callback)
    ensures s.scanning && frame.Ready? && frame.decoded.Some? ==>
              r.scanner == OnDecode(s, frame.decoded.value, now).scanner
  {
    if !s.scanning then FrameStep(s, None, false)
    else if frame.Ready? && frame.decoded.Some? then
      var step := OnDecode(s, frame.decoded.value, now);
      FrameStep(step.scanner, step.callback, step.scanner.scanning)
    else
      FrameStep(s, None, s.scanning)
  }

  // ---------------------------------------------------------------- start/stop

  /** The answer of `getUserMedia`. */
  datatype Camera = Granted(stream: Stream) | Denied

  /** The outcome of `startScanning()`: the new state, the value the promise
      resolves to (a frame is requested exactly when it is true), and the
      stream that was attached before and is now dropped without its tracks
      being stopped. */
  datatype StartStep = StartStep(scanner: Scanner, ok: bool, abandoned: Option<Stream>)

  /** `startScanning()`. It has no guard of its own against being called while
      scanning: a second grant replaces the attached stream. */
  function StartScanning(s: Scanner, cam: Camera): (r: StartStep)
    ensures r.ok <==> cam.Granted?
    ensures !r.ok ==> r.scanner == s && r.abandoned == None
    ensures r.ok ==> r.scanner.scanning && r.scanner.stream == Some(cam.stream)
    ensures r.ok ==> r.abandoned == s.stream
    ensures r.scanner.lastCode == s.lastCode && r.scanner.lastTime == s.lastTime
    ensures !s.scanning && Consistent(s) ==> Consistent(r.scanner) && r.abandoned == None
  {
    match cam
    case Denied => StartStep(s, false, None)
    case Granted(st) => StartStep(s.(scanning := true, stream := Some(st)), true, s.stream)
  }

  /** A second granted start while scanning drops a live stream. */
  lemma StartTwiceAbandons(s: Scanner, a: Stream, b: Stream)
    ensures var first := StartScanning(s, Granted(a)).scanner;
            StartScanning(first, Granted(b)).abandoned == Some(a)
  {
  }

  /** The outcome of `stopScanning()`: the new state and the tracks of the
      released stream, now stopped. */
  datatype StopStep = StopStep(scanner: Scanner, released: seq<Track>)

  function StopTracks(ts: seq<Track>): (r: seq<Track>)
    ensures |r| == |ts|
    ensures forall i :: 0 <= i < |ts| ==> r[i].stopped && r[i].id == ts[i].id
  {
    seq(|ts|, i requires 0 <= i < |ts| => ts[i].(stopped := true))
  }

  /** `stopScanning()` */
  function StopScanning(s: Scanner): (r: StopStep)
    ensures !r.scanner.scanning && r.scanner.stream == None && Consistent(r.scanner)
    ensures r.scanner.lastCode == s.lastCode && r.scanner.lastTime == s.lastTime
    ensures r.scanner.hasCallback == s.hasCallback
    ensures s.stream == None ==> r.scanner == s.(scanning := false) && r.released == []
    ensures s.stream.Some? ==> |r.released| == |s.stream.value.tracks|
    ensures forall i :: 0 <= i < |r.released| ==>
              r.released[i].stopped && r.released[i].id == s.stream.value.tracks[i].id
  {
    match s.stream
    case None => StopStep(s.(scanning := false), [])
    case Some(st) => StopStep(s.(scanning := false, stream := None), StopTracks(st.tracks))
  }

  /** Stopping twice is stopping once; a stopped scanner has nothing left to
      release. */
  lemma StopIdempotent(s: Scanner)
    ensures StopScanning(StopScanning(s).scanner).scanner == StopScanning(s).scanner
    ensures StopScanning(StopScanning(s).scanner).released == []
  {
  }

  /** Stopping keeps the rate-limit memory, so after a restart the payload
      decoded last before the stop is still suppressed within the interval. */
  lemma RestartKeepsSuppression(s: Scanner, st: Stream, data: string, now: int)
    requires s.lastCode == Some(data) && s.lastTime <= now <= s.lastTime + ScanInterval
    ensures var restarted := StartScanning(StopScanning(s).scanner, Granted(st)).scanner;
            !OnDecode(restarted, data, now).forwarded
  {
  }

  // ---------------------------------------------------------------- the button

  datatype ButtonStyle = BtnPrimary | BtnDanger | BtnOther

  /** The start/stop button: its text and its `btn-*` colour class. */
  datatype Button = Button(text: string, style: ButtonStyle)

  /** `classList.replace(from, to)`: only replaces a class that is present. */
  function ReplaceStyle(style: ButtonStyle, from: ButtonStyle, to: ButtonStyle): ButtonStyle {
    if style == from then to else style
  }

  datatype ToggleStep = ToggleStep(
    scanner: Scanner,
    button: Button,
    alerts: seq<Notice>,
    abandoned: Option<Stream>,
    released: seq<Track>)

  /** A click on the start/stop button: start when not scanning, stop
      otherwise. */
  function ToggleClick(s: Scanner, b: Button, cam: Camera): (r: ToggleStep)
    ensures !s.scanning ==> r.released == []
    ensures !s.scanning && cam.Granted? ==>
              r.scanner.scanning && r.button.text == "Stop Scanning"
              && r.alerts == [Notice(Info, "QR scanner is active")]
    ensures !s.scanning && cam.Denied? ==>
              r.scanner == s && r.button == b
              && r.alerts == [Notice(Danger, "Failed to start camera. Please check permissions.")]
    ensures s.scanning ==>
              r.scanner == StopScanning(s).scanner && r.released == StopScanning(s).released
              && r.button.text == "Start Scanning" && r.alerts == []
    ensures Consistent(s) ==> Consistent(r.scanner) && r.abandoned == None
  {
    if !s.scanning then
      var st := StartScanning(s, cam);
      if st.ok then
        ToggleStep(st.scanner, Button("Stop Scanning", ReplaceStyle(b.style, BtnPrimary, BtnDanger)),
                   [Notice(Info, "QR scanner is active")], st.abandoned, [])
      else
        ToggleStep(st.scanner, b, [Notice(Danger, "Failed to start camera. Please check permissions.")],
                   st.abandoned, [])
    else
      var stop := StopScanning(s);
      ToggleStep(stop.scanner, Button("Start Scanning", ReplaceStyle(b.style, BtnDanger, BtnPrimary)),
                 [], None, stop.released)
  }

  /** The page around the scanner: the scanner, the button, the number of
      camera requests (`getUserMedia`) still waiting for an answer, the
      alerts shown so far, and every stream dropped while still live. */
  datatype Ui = Ui(
    scanner: Scanner,
    button: Button,
    pending: nat,
    alerts: seq<Notice>,
    abandoned: seq<Stream>)

  /** A click as the click handler is written: when not scanning it only asks
      for the camera (`startScanning()` awaits the answer, and `scanning` is
      still false meanwhile), otherwise it stops at once. Nothing stops a
      second click from asking again while the first request is pending. */
  function PressAsWritten(u: Ui): (r: Ui)
    ensures !u.scanner.scanning ==> r == u.(pending := u.pending + 1)
    ensures u.scanner.scanning ==>
              && r.scanner == StopScanning(u.scanner).scanner
              && r.button.text == "Start Scanning"
              && r.pending == u.pending && r.alerts == u.alerts && r.abandoned == u.abandoned
  {
    if !u.scanner.scanning then u.(pending := u.pending + 1)
    else
      var stop := StopScanning(u.scanner);
      u.(scanner := stop.scanner,
         button := Button("Start Scanning", ReplaceStyle(u.button.style, BtnDanger, BtnPrimary)))
  }

  /** The answer to one pending camera request, running the rest of
      `startScanning()` and the handler's `.then`. With no request pending
      there is nothing to answer. A grant that arrives while scanning
      replaces the attached stream, which stays live. */
  function Answer(u: Ui, cam: Camera): (r: Ui)
    ensures u.pending == 0 ==> r == u
    ensures u.pending > 0 ==> r.pending == u.pending - 1
    ensures u.pending > 0 && cam.Denied? ==>
              r == u.(pending := u.pending - 1,
                      alerts := u.alerts + [Notice(Danger, "Failed to start camera. Please check permissions.")])
    ensures u.pending > 0 && cam.Granted? ==>
              && r.scanner.scanning && r.scanner.stream == Some(cam.stream)
              && r.button.text == "Stop Scanning"
              && r.alerts == u.alerts + [Notice(Info, "QR scanner is active")]
              && r.abandoned == u.abandoned + (if u.scanner.stream.Some? then [u.scanner.stream.value] else [])
  {
    if u.pending == 0 then u
    else
      var st := StartScanning(u.scanner, cam);
      var lost := if st.abandoned.Some? then [st.abandoned.value] else [];
      if st.ok then
        Ui(st.scanner, Button("Stop Scanning", ReplaceStyle(u.button.style, BtnPrimary, BtnDanger)),
           u.pending - 1, u.alerts + [Notice(Info, "QR scanner is active")], u.abandoned + lost)
      else
        Ui(st.scanner, u.button, u.pending - 1,
           u.alerts + [Notice(Danger, "Failed to start camera. Please check permissions.")], u.abandoned + lost)
  }

  /** Everything a scanner goes through from the page's point of view: clicks,
      answers of the camera, and animation frames. */
  datatype Event = Press | Answered(cam: Camera) | Tick(frame: Frame, now: int)

  function TickUi(u: Ui, frame: Frame, now: int): (r: Ui)
    ensures r.scanner.scanning == u.scanner.scanning && r.scanner.stream == u.scanner.stream
    ensures r == u.(scanner := r.scanner)
  {
    u.(scanner := ScanFrame(u.scanner, frame, now).scanner)
  }

  function StepAsWritten(u: Ui, e: Event): Ui {
    match e
    case Press => PressAsWritten(u)
    case Answered(cam) => Answer(u, cam)
    case Tick(frame, now) => TickUi(u, frame, now)
  }

  /** The page as written, over a run of events. The camera is still held
      exactly while scanning, and streams once dropped stay dropped. */
  function RunAsWritten(u: Ui, es: seq<Event>): (r: Ui)
    ensures Consistent(u.scanner) ==> Consistent(r.scanner)
    ensures |u.abandoned| <= |r.abandoned| && r.abandoned[..|u.abandoned|] == u.abandoned
    decreases |es|
  {
    if |es| == 0 then u else StepAsWritten(RunAsWritten(u, es[..|es| - 1]), es[|es| - 1])
  }

  /** Two quick clicks before the camera answers: both requests are granted,
      and the second grant drops the first stream without stopping it. */
  lemma DoubleClickAbandons(a: Stream, b: Stream)
    ensures var u := Ui(NewScanner(true), Button("Start Scanning", BtnPrimary), 0, [], []);
            var r := RunAsWritten(u, [Press, Press, Answered(Granted(a)), Answered(Granted(b))]);
            r.abandoned == [a] && r.scanner.stream == Some(b) && r.pending == 0
  {
    var u := Ui(NewScanner(true), Button("Start Scanning", BtnPrimary), 0, [], []);
    var es := [Press, Press, Answered(Granted(a)), Answered(Granted(b))];
    assert es[..3] == [Press, Press, Answered(Granted(a))];
    assert es[..3][..2] == [Press, Press];
    assert es[..3][..2][..1] == [Press];
    assert RunAsWritten(u, [Press, Press]).pending == 2;
  }

  /** A click with a request pending is ignored, as if the button were
      disabled until the camera answers. */
  function PressGuarded(u: Ui): (r: Ui)
    ensures u.pending > 0 ==> r == u
    ensures u.pending == 0 && !u.scanner.scanning ==> r == u.(pending := 1)
    ensures u.pending == 0 && u.scanner.scanning ==>
              r.scanner == StopScanning(u.scanner).scanner && r.button.text == "Start Scanning"
  {
    if u.pending > 0 then u else PressAsWritten(u)
  }

  function Step(u: Ui, e: Event): Ui {
    match e
    case Press => PressGuarded(u)
    case Answered(cam) => Answer(u, cam)
    case Tick(frame, now) => TickUi(u, frame, now)
  }

  /** At most one request is in flight, and only while not scanning; the
      camera is held exactly while scanning. */
  predicate Settled(u: Ui) {
    Consistent(u.scanner) && u.pending <= 1 && (u.pending > 0 ==> !u.scanner.scanning)
  }

  /** The guarded page over a run of events: it holds the camera exactly
      while scanning and never drops a live stream. */
  function Run(u: Ui, es: seq<Event>): (r: Ui)
    ensures Settled(u) ==> Settled(r) && r.abandoned == u.abandoned
    decreases |es|
  {
    if |es| == 0 then u else Step(Run(u, es[..|es| - 1]), es[|es| - 1])
  }

  /** On the guarded page the double click of `DoubleClickAbandons` asks for
      the camera once; the second answer finds nothing pending. */
  lemma DoubleClickGuarded(a: Stream, b: Stream)
    ensures var u := Ui(NewScanner(true), Button("Start Scanning", BtnPrimary), 0, [], []);
            var r := Run(u, [Press, Press, Answered(Granted(a)), Answered(Granted(b))]);
            r.abandoned == [] && r.scanner.stream == Some(a) && r.pending == 0
  {
    var u := Ui(NewScanner(true), Button("Start Scanning", BtnPrimary), 0, [], []);
    var es := [Press, Press, Answered(Granted(a)), Answered(Granted(b))];
    assert es[..3] == [Press, Press, Answered(Granted(a))];
    assert es[..3][..2] == [Press, Press];
    assert es[..3][..2][..1] == [Press];
    assert Run(u, [Press, Press]).pending == 1;
  }

  /** A click that the camera answers before anything else happens is the
      single step `ToggleClick`, on both pages. */
  lemma PressThenAnswer(u: Ui, cam: Camera)
    requires u.pending == 0
    ensures var r := if u.scanner.scanning then PressGuarded(u) else Answer(PressGuarded(u), cam);
            var t := ToggleClick(u.scanner, u.button, cam);
            && r.scanner == t.scanner && r.button == t.button && r.alerts == u.alerts + t.alerts
            && r.abandoned == u.abandoned + (if t.abandoned.Some? then [t.abandoned.value] else [])
            && r.pending == 0
  {
  }

  // ---------------------------------------------------------------- handshake

  /** The parts of the page the scan callback looks for. */
  datatype Page = Page(
    hasDataField: bool,
    hasForm: bool,
    hasList: bool,
    activityId: string,
    csrfToken: string)

  /** The form body posted to `/attendance/scan`. */
  datatype Submission = Submission(activityId: string, scannedData: string, csrfToken: string)

  /** The scan callback: a request is sent only on a page with both the data
      field and the scan form, and it carries exactly the decoded payload. */
  function Submit(page: Page, data: string): (r: Option<Submission>)
    ensures r.Some? <==> page.hasDataField && page.hasForm
    ensures r.Some? ==> r.value == Submission(page.activityId, data, page.csrfToken)
  {
    if page.hasDataField && page.hasForm then Some(Submission(page.activityId, data, page.csrfToken))
    else None
  }

  /** One animation frame from end to end: the request it sends, if any. A
      request goes out exactly when a scanning scanner with a callback decodes
      a payload that passes the rate limit on a page with the data field and
      the scan form, and it carries that payload. */
  function FramePost(s: Scanner, page: Page, frame: Frame, now: int): (r: Option<Submission>)
    ensures r.Some? <==>
              && s.scanning && s.hasCallback && frame.Ready? && frame.decoded.Some?
              && OnDecode(s, frame.decoded.value, now).forwarded
              && page.hasDataField && page.hasForm
    ensures r.Some? ==> r.value == Submission(page.activityId, frame.decoded.value, page.csrfToken)
  {
    var step := ScanFrame(s, frame, now);
    if step.callback.Some? then Submit(page, step.callback.value) else None
  }

  /** A payload repeated within the interval sends nothing, whatever the
      page; once the interval has passed it is sent again. */
  lemma RepeatWithinIntervalNotPosted(s: Scanner, page: Page, data: string, now: int)
    requires s.scanning && s.lastCode == Some(data)
    ensures now - s.lastTime <= ScanInterval ==> FramePost(s, page, Ready(Some(data)), now) == None
    ensures now - s.lastTime > ScanInterval && s.hasCallback && page.hasDataField && page.hasForm ==>
              FramePost(s, page, Ready(Some(data)), now) == Some(Submission(page.activityId, data, page.csrfToken))
  {
  }

  datatype StudentInfo = StudentInfo(name: string, studentId: string)

  /** The JSON body of the endpoint's reply. */
  datatype Reply = Reply(success: bool, message: string, student: Option<StudentInfo>)

  /** What the promise chain sees: a parsed reply, or a rejection (network
      failure or a body that is not JSON). */
  datatype FetchOutcome = Delivered(reply: Reply) | TransportError

  /** The list of recorded students on the page (newest first) and the alerts
      shown so far. */
  datatype View = View(items: seq<StudentInfo>, alerts: seq<Notice>)

  const GenericError := Notice(Danger, "Error recording attendance")

  /** The `.then`/`.catch` handlers. Reading `student.name` of a successful
      reply without a student throws inside `.then`, so it ends in the
      `.catch` branch; on a page without the list the student is not read. */
  function HandleOutcome(hasList: bool, v: View, o: FetchOutcome): (r: View)
    ensures |r.alerts| == |v.alerts| + 1 && r.alerts[..|v.alerts|] == v.alerts
    ensures o.TransportError? ==> r == View(v.items, v.alerts + [GenericError])
    ensures o.Delivered? && !o.reply.success ==>
              r == View(v.items, v.alerts + [Notice(Danger, o.reply.message)])
    ensures o.Delivered? && o.reply.success && hasList && o.reply.student.Some? ==>
              r == View([o.reply.student.value] + v.items, v.alerts + [Notice(Success, o.reply.message)])
    ensures o.Delivered? && o.reply.success && !hasList ==>
              r == View(v.items, v.alerts + [Notice(Success, o.reply.message)])
    ensures o.Delivered? && o.reply.success && hasList && o.reply.student.None? ==>
              r == View(v.items, v.alerts + [GenericError])
  {
    match o
    case TransportError => View(v.items, v.alerts + [GenericError])
    case Delivered(reply) =>
      if !reply.success then View(v.items, v.alerts + [Notice(Danger, reply.message)])
      else if !hasList then View(v.items, v.alerts + [Notice(Success, reply.message)])
      else if reply.student.None? then View(v.items, v.alerts + [GenericError])
      else View([reply.student.value] + v.items, v.alerts + [Notice(Success, reply.message)])
  }

  predicate Adds(o: FetchOutcome) {
    o.Delivered? && o.reply.success && o.reply.student.Some?
  }

  function CountAdds(os: seq<FetchOutcome>): nat {
    if |os| == 0 then 0 else CountAdds(os[..|os| - 1]) + (if Adds(os[|os| - 1]) then 1 else 0)
  }

  function HandleAll(hasList: bool, v: View, os: seq<FetchOutcome>): View
    decreases |os|
  {
    if |os| == 0 then v else HandleOutcome(hasList, HandleAll(hasList, v, os[..|os| - 1]), os[|os| - 1])
  }

  /** Over any series of replies the list grows by one entry per successful
      reply that names a student, the earlier entries stay below it, and every
      reply leaves exactly one alert. */
  lemma {:induction false} ListGrowsOnlyOnSuccess(v: View, os: seq<FetchOutcome>)
    ensures var r := HandleAll(true, v, os);
            |r.items| == |v.items| + CountAdds(os)
            && r.items[|r.items| - |v.items|..] == v.items
            && |r.alerts| == |v.alerts| + |os|
    decreases |os|
  {
    if |os| > 0 {
      ListGrowsOnlyOnSuccess(v, os[..|os| - 1]);
    }
  }
}
