/** The decision rules of the rig's threads, as functions of their inputs:
    the exposure buttons, the debounce and the watchdog on steady-clock
    nanoseconds, the settle countdown after a shutter press, the gain cycle
    and the encoder's take from the capture queue. */
module Controls {

  import opened Types

  /** A shutter speed: exposure time in microseconds and how many times the
      LED blinks to confirm it. */
  datatype ExposureSetting = ExposureSetting(microseconds: int, blinks: nat)

  /** Exposure time for a shutter speed of 1/`speed` s, in whole microseconds
      (the C++ truncates the double quotient toward zero, which for these
      positive values is integer division). */
  function MicrosFor(speed: nat): (us: int)
    requires speed > 0
    ensures us * speed <= 1000000 < (us + 1) * speed
  {
    1000000 / speed
  }

  /** The shutter speed (as 1/speed s) a pin selects and its blink count. */
  function SpeedFor(pin: int): Option<(nat, nat)>
  {
    if pin == ExposurePin1000 then Some((1000, 4))
    else if pin == ExposurePin250 then Some((250, 3))
    else if pin == ExposurePin60 then Some((60, 2))
    else if pin == ExposurePin15 then Some((15, 1))
    else None
  }

  /** The exposure a button pin selects; None for every other pin, which
      leaves the exposure alone. */
  function ExposureFor(pin: int): (r: Option<ExposureSetting>)
    ensures r.Some? <==> pin in {ExposurePin1000, ExposurePin250, ExposurePin60, ExposurePin15}
    ensures r.Some? ==> 1 <= r.value.blinks <= 4 && r.value.microseconds > 0
  {
    match SpeedFor(pin)
    case Some((speed, blinks)) => Some(ExposureSetting(MicrosFor(speed), blinks))
    case None => None
  }

  /** The four settings: 1/1000 s is 1000 us, 1/250 s is 4000 us, 1/60 s is
      16666 us and 1/15 s is 66666 us, with 4, 3, 2 and 1 blinks. */
  lemma ExposureTable()
    ensures ExposureFor(ExposurePin1000) == Some(ExposureSetting(1000, 4))
    ensures ExposureFor(ExposurePin250) == Some(ExposureSetting(4000, 3))
    ensures ExposureFor(ExposurePin60) == Some(ExposureSetting(16666, 2))
    ensures ExposureFor(ExposurePin15) == Some(ExposureSetting(66666, 1))
    ensures ExposureFor(ShutterPin) == None && ExposureFor(GainPin) == None
  {
  }

  /** More blinks always mean a shorter exposure, and different buttons give
      different settings. */
  lemma BlinksOrderExposure(p: int, q: int)
    requires ExposureFor(p).Some? && ExposureFor(q).Some?
    ensures ExposureFor(p).value.blinks > ExposureFor(q).value.blinks
        <==> ExposureFor(p).value.microseconds < ExposureFor(q).value.microseconds
    ensures ExposureFor(p) == ExposureFor(q) <==> p == q
  {
    ExposureTable();
  }

  function Abs(a: int): nat
  {
    if a < 0 then -a else a
  }

  /** `a / d` rounded toward zero, as `duration_cast` does: the magnitude is
      the whole number of `d`s in `|a|` and the sign is that of `a` (floor
      division would give -1 for a = -1). */
  function TruncDiv(a: int, d: int): (q: int)
    requires d > 0
    ensures Abs(q) == Abs(a) / d
    ensures (q > 0 ==> a > 0) && (q < 0 ==> a < 0)
  {
    if a >= 0 then a / d else -((-a) / d)
  }

  /** The debounce: an edge counts only when the whole milliseconds since the
      last accepted edge exceed 300. */
  predicate EdgeAccepted(now: int, last: int)
  {
    TruncDiv(now - last, NanosPerMilli) > DebounceMs
  }

  /** An edge is accepted exactly when at least 301 ms have passed. */
  lemma EdgeAcceptedIff(now: int, last: int)
    ensures EdgeAccepted(now, last) <==> now - last >= (DebounceMs + 1) * NanosPerMilli
  {
  }

  /** After an accepted edge, every edge in the next 301 ms is ignored, and
      the first edge 301 ms or more later is accepted. */
  lemma DebounceWindow(accepted: int, now: int)
    ensures now < accepted + 301 * NanosPerMilli ==> !EdgeAccepted(now, accepted)
    ensures now >= accepted + 301 * NanosPerMilli ==> EdgeAccepted(now, accepted)
  {
    EdgeAcceptedIff(now, accepted);
  }

  /** The watchdog: the camera has stalled when the whole seconds since the
      last completed frame exceed 5. */
  predicate WatchdogExpired(now: int, lastFrame: int)
  {
    TruncDiv(now - lastFrame, NanosPerSecond) > WatchdogSeconds
  }

  /** The watchdog fires exactly when at least 6 s have passed. */
  lemma WatchdogExpiredIff(now: int, lastFrame: int)
    ensures WatchdogExpired(now, lastFrame) <==> now - lastFrame >= (WatchdogSeconds + 1) * NanosPerSecond
  {
  }

  /** What one pass of the main loop sees: the `running` flag, the clock and
      the time of the last completed frame. */
  datatype WatchSample = WatchSample(running: bool, now: int, lastFrame: int)

  /** Whether the main loop leaves at a pass: shutdown or a stalled camera. */
  predicate LoopEnds(s: WatchSample)
  {
    !s.running || WatchdogExpired(s.now, s.lastFrame)
  }

  /** The main loop over successive passes: it stops at the first pass where
      `running` is false or the watchdog fires, and reports which. `stop` is
      `|samples|` when it never stops. It never writes `running`. */
  method WatchdogLoop(samples: seq<WatchSample>) returns (stop: nat, timedOut: bool)
    ensures stop <= |samples|
    ensures forall i :: 0 <= i < stop ==> !LoopEnds(samples[i])
    ensures stop < |samples| ==> LoopEnds(samples[stop])
    ensures timedOut <==> stop < |samples| && samples[stop].running
  {
    stop := 0;
    timedOut := false;
    while stop < |samples| && samples[stop].running
      invariant stop <= |samples|
      invariant forall i :: 0 <= i < stop ==> !LoopEnds(samples[i])
      invariant !timedOut
    {
      if WatchdogExpired(samples[stop].now, samples[stop].lastFrame) {
        timedOut := true;
        return;
      }
      stop := stop + 1;
    }
  }

  /** What the completion handler does with one frame, by the countdown. */
  datatype Settle = Idle | Skip | Capture

  /** One completed frame against the countdown: 0 means no capture pending;
      above 1 the frame is skipped and the count drops; at 1 the frame is
      captured and the count reaches 0. */
  function CountdownStep(c: nat): (r: (Settle, nat))
    ensures r.0 == Idle <==> c == 0
    ensures r.0 == Skip <==> c > 1
    ensures r.0 != Idle ==> r.1 == c - 1
    ensures r.0 == Idle ==> r.1 == 0
  {
    if c == 0 then (Idle, 0)
    else if c > 1 then (Skip, c - 1)
    else (Capture, 0)
  }

  /** `n` copies of `s`. */
  function Repeat(s: Settle, n: nat): (r: seq<Settle>)
    ensures |r| == n && forall i :: 0 <= i < n ==> r[i] == s
  {
    if n == 0 then [] else [s] + Repeat(s, n - 1)
  }

  /** What `k` completed frames do, with no shutter press in between, from
      countdown `c`: the decision for each frame and the final countdown. */
  function RunFrames(c: nat, k: nat): (seq<Settle>, nat)
  {
    if k == 0 then ([], c)
    else
      var step := CountdownStep(c);
      var rest := RunFrames(step.1, k - 1);
      ([step.0] + rest.0, rest.1)
  }

  /** A countdown armed to n lets n - 1 frames through without capturing, then
      captures the n-th and is back at 0; with n = 3 that is two skipped
      frames and one captured. */
  lemma {:induction false} SettleSequence(n: nat)
    requires n >= 1
    ensures RunFrames(n, n) == (Repeat(Skip, n - 1) + [Capture], 0)
  {
    if n == 1 {
      assert CountdownStep(1) == (Capture, 0) && RunFrames(0, 0) == ([], 0);
      assert RunFrames(1, 1).0 == [Capture] == Repeat(Skip, 0) + [Capture];
    } else {
      SettleSequence(n - 1);
      assert CountdownStep(n) == (Skip, n - 1);
      assert Repeat(Skip, n - 1) == [Skip] + Repeat(Skip, n - 2);
      assert [Skip] + (Repeat(Skip, n - 2) + [Capture]) == Repeat(Skip, n - 1) + [Capture];
    }
  }

  /** With no capture pending, no frame is ever captured. */
  lemma {:induction false} IdleStaysIdle(k: nat)
    ensures RunFrames(0, k) == (Repeat(Idle, k), 0)
  {
    if k > 0 {
      IdleStaysIdle(k - 1);
    }
  }

  /** A shutter press is refused while a job waits for the encoder or a
      capture is still counting down. */
  predicate CaptureBusy(queueLength: nat, countdown: int)
  {
    queueLength > 0 || countdown > 0
  }

  /** The gain index after one press of the gain button. */
  function NextGainIndex(i: nat): (j: nat)
    ensures j < GainLevels
    ensures i < GainLevels - 1 ==> j == i + 1
    ensures i == GainLevels - 1 ==> j == 0
  {
    (i + 1) % GainLevels
  }

  /** Three presses of the gain button bring the gain back. */
  lemma GainCycle(i: nat)
    requires i < GainLevels
    ensures NextGainIndex(NextGainIndex(NextGainIndex(i))) == i
    ensures NextGainIndex(i) != i
  {
  }

  /** What the encoder thread gets when it looks at the queue. */
  datatype Take<T> = Stop | Block | Next(item: T, rest: seq<T>)

  /** The encoder's wait and pop: the oldest job if there is one; otherwise
      wait while running and stop once shut down. */
  function TakeNext<T>(running: bool, q: seq<T>): (t: Take<T>)
    ensures t.Stop? <==> !running && q == []
    ensures t.Block? <==> running && q == []
    ensures t.Next? <==> q != []
    ensures t.Next? ==> q == [t.item] + t.rest
  {
    if q != [] then Next(q[0], q[1..])
    else if running then Block
    else Stop
  }

  /** The interleaved actions of the completion handler (which queues a
      job), the encoder (which takes one) and the signal handler. */
  datatype QueueEvent<T> = Produce(item: T) | Consume | Shutdown

  /** The jobs a sequence of events queues. */
  function Produced<T>(events: seq<QueueEvent<T>>): seq<T>
  {
    if events == [] then []
    else
      var last := events[|events| - 1];
      Produced(events[..|events| - 1]) + (if last.Produce? then [last.item] else [])
  }

  /** Replays events from a queue and a running flag: the jobs the encoder
      has taken, in order, and the final queue and flag. */
  function Replay<T>(events: seq<QueueEvent<T>>, running: bool, q: seq<T>): (seq<T>, seq<T>, bool)
  {
    if events == [] then ([], q, running)
    else
      var prev := Replay(events[..|events| - 1], running, q);
      var taken, queue, run := prev.0, prev.1, prev.2;
      match events[|events| - 1]
      case Produce(x) => (taken, queue + [x], run)
      case Shutdown => (taken, queue, false)
      case Consume =>
        match TakeNext(run, queue)
        case Next(x, rest) => (taken + [x], rest, run)
        case _ => (taken, queue, run)
  }

  /** The queue is first in, first out and loses nothing: what has been
      taken followed by what is still queued is the initial queue followed
      by everything produced, in production order. */
  lemma {:induction false} ReplayIsFifo<T>(events: seq<QueueEvent<T>>, running: bool, q: seq<T>)
    ensures var r := Replay(events, running, q); r.0 + r.1 == q + Produced(events)
  {
    if events != [] {
      var init := events[..|events| - 1];
      ReplayIsFifo(init, running, q);
      var prev := Replay(init, running, q);
      match events[|events| - 1]
      case Produce(x) =>
        assert prev.0 + (prev.1 + [x]) == (prev.0 + prev.1) + [x];
      case Shutdown =>
      case Consume =>
        if prev.1 != [] {
          assert prev.0 + prev.1 == prev.0 + [prev.1[0]] + prev.1[1..];
        }
    }
  }

  /** `n` takes by the encoder, with nothing else happening. */
  function Consumes<T>(n: nat): (events: seq<QueueEvent<T>>)
    ensures |events| == n && forall i :: 0 <= i < n ==> events[i] == Consume
  {
    if n == 0 then [] else Consumes(n - 1) + [Consume]
  }

  /** Once shut down, the encoder still takes every queued job, in order. */
  lemma {:induction false} DrainOnShutdown<T>(q: seq<T>, n: nat)
    requires n <= |q|
    ensures Replay(Consumes<T>(n), false, q) == (q[..n], q[n..], false)
  {
    if n == 0 {
      assert Consumes<T>(0) == [];
    } else {
      var events := Consumes<T>(n);
      assert events[..n - 1] == Consumes<T>(n - 1);
      DrainOnShutdown(q, n - 1);
      var rest := q[n - 1..];
      assert TakeNext(false, rest) == Next(q[n - 1], q[n..]);
      assert q[..n - 1] + [q[n - 1]] == q[..n];
    }
  }

  /** After the queued jobs are drained, the next take stops the encoder. */
  lemma DrainThenStop<T>(q: seq<T>)
    ensures TakeNext(false, Replay(Consumes<T>(|q|), false, q).1) == Stop
  {
    DrainOnShutdown(q, |q|);
  }
}
