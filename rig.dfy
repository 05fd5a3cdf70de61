/** The capture rig's shared state and the steps its threads take on it:
    the camera's frame-completion handler, the encoder thread's loop body,
    the button thread's edge handler and the signal handler. Each step is
    one atomic update of the object. */
module Rig {

  import opened Types
  import opened Timestamp
  import opened Encoder
  import opened Extraction
  import opened Controls

  /** What the completion handler does with the request afterwards. */
  datatype Requeue =
    | NotRequeued
      /** Reset and handed back to the camera without exposure or gain
          controls (frame skipped while settling). */
    | RequeuedAsIs
      /** Handed back with these exposure time and gain index controls. */
    | RequeuedWith(exposureTime: int, gainIndex: int)

  /** What one turn of the encoder loop does. */
  datatype EncoderOutcome =
    | Exit
    | Waiting
      /** Took `job` off the queue and packed it into `planar` for the codec. */
    | Encoded(job: CaptureJob, planar: seq<byte>)

  /** What the button thread does with one falling edge. */
  datatype EdgeOutcome =
    | Debounced
    | Busy
    | Armed
    | ExposureSet(setting: ExposureSetting)
    | NoAction

  class Rig {
    /** Cleared by a camera error, a failed re-queue or a shutdown signal. */
    var running: bool
    /** Frames still to count down before a capture; 0 when none is pending. */
    var captureCountdown: int
    /** Exposure time, in microseconds, applied to every re-queued request. */
    var currentExposureTime: int
    /** Index into the gain levels 2.0, 4.0 and 8.0. */
    var currentGainIndex: int
    /** Steady-clock time, in nanoseconds, of the last accepted button edge. */
    var lastPressed: int
    /** Steady-clock time, in nanoseconds, of the last completed frame. */
    var lastFrameTime: int
    /** Jobs waiting for the encoder, oldest first. */
    var captureQueue: seq<CaptureJob>

    /** The countdown is never above its armed value, the gain index and the
        exposure are ones the controls can produce, and every queued job's
        rows lie inside its bytes. */
    predicate Valid()
      reads this
    {
      0 <= captureCountdown <= SettleDepth &&
      0 <= currentGainIndex < GainLevels &&
      (currentExposureTime == DefaultExposureTime ||
       currentExposureTime in {1000, 4000, 16666, 66666}) &&
      forall j :: 0 <= j < |captureQueue| ==> JobFits(captureQueue[j])
    }

    /** Start-up state at steady-clock time `start`: running, no capture
        pending, 1/30 s at gain 4.0, a last press 2 s in the past (so the
        first press is accepted) and the watchdog timer starting now. */
    constructor(start: int)
      ensures Valid()
      ensures running && captureCountdown == 0 && captureQueue == []
      ensures currentExposureTime == DefaultExposureTime && currentGainIndex == DefaultGainIndex
      ensures lastPressed == start - 2 * NanosPerSecond && lastFrameTime == start
    {
      running := true;
      captureCountdown := 0;
      currentExposureTime := DefaultExposureTime;
      currentGainIndex := DefaultGainIndex;
      lastPressed := start - 2 * NanosPerSecond;
      lastFrameTime := start;
      captureQueue := [];
    }

    /** The camera's completion callback for one request. A cancelled request
        is dropped. Any other status but complete is a camera error: it stops
        the rig and the request is not re-queued. A complete frame resets the
        watchdog and steps the countdown: a frame being skipped goes straight
        back to the camera (whether that succeeds is not checked); otherwise
        a frame that ends the countdown is extracted into the queue, each job
        stamped with the path for the local time `times[i]`, and the request
        is re-queued with the current exposure and gain. If that re-queue
        fails (`requeueOk` false) the rig stops. */
    method RequestComplete(req: Request, now: int, home: string, times: seq<DateTime>, requeueOk: bool)
      returns (requeue: Requeue)
      requires Valid()
      requires req.status.RequestComplete? ==>
        |times| == |req.buffers| && forall i :: 0 <= i < |times| ==> ValidTime(times[i])
      requires req.status.RequestComplete? ==>
        forall i :: 0 <= i < |req.buffers| ==> Mappable(req.buffers[i]) && Consistent(req.buffers[i])
      modifies this
      ensures Valid()
      ensures currentExposureTime == old(currentExposureTime) && currentGainIndex == old(currentGainIndex)
      ensures lastPressed == old(lastPressed)
      ensures req.status.RequestCancelled? ==>
        requeue == NotRequeued && running == old(running) && captureCountdown == old(captureCountdown) &&
        captureQueue == old(captureQueue) && lastFrameTime == old(lastFrameTime)
      ensures req.status.RequestPending? ==>
        requeue == NotRequeued && !running && captureCountdown == old(captureCountdown) &&
        captureQueue == old(captureQueue) && lastFrameTime == old(lastFrameTime)
      ensures req.status.RequestComplete? ==>
        var step := CountdownStep(old(captureCountdown));
        lastFrameTime == now && captureCountdown == step.1 &&
        (step.0 == Skip ==> requeue == RequeuedAsIs && running == old(running)) &&
        (step.0 != Skip ==>
           requeue == RequeuedWith(old(currentExposureTime), old(currentGainIndex)) &&
           running == (old(running) && requeueOk)) &&
        captureQueue == old(captureQueue) +
          (if step.0 == Capture then ExtractAll(req.buffers, Paths(home, times)) else [])
    {
      if req.status.RequestCancelled? {
        return NotRequeued;
      }
      if !req.status.RequestComplete? {
        running := false;
        return NotRequeued;
      }
      lastFrameTime := now;
      var countdown := captureCountdown;
      if countdown > 0 {
        var previous := captureCountdown;
        captureCountdown := captureCountdown - 1;
        if previous > 1 {
          return RequeuedAsIs;
        }
        var jobs := ExtractFrame(req.buffers, Paths(home, times));
        captureQueue := captureQueue + jobs;
      }
      requeue := RequeuedWith(currentExposureTime, currentGainIndex);
      if !requeueOk {
        running := false;
      }
    }

    /** One turn of the encoder loop: take the oldest job and pack it into a
        contiguous I420 buffer for the codec; with the queue empty, wait while
        the rig runs and leave once it has stopped, so every job queued
        before shutdown is still encoded. */
    method EncoderStep() returns (outcome: EncoderOutcome)
      requires Valid()
      modifies this
      ensures Valid()
      ensures running == old(running) && captureCountdown == old(captureCountdown)
      ensures currentExposureTime == old(currentExposureTime) && currentGainIndex == old(currentGainIndex)
      ensures lastPressed == old(lastPressed) && lastFrameTime == old(lastFrameTime)
      ensures match TakeNext(old(running), old(captureQueue))
        case Stop => outcome == Exit && captureQueue == old(captureQueue)
        case Block => outcome == Waiting && captureQueue == old(captureQueue)
        case Next(job, rest) =>
          JobFits(job) && outcome == Encoded(job, I420(job)) && captureQueue == rest
    {
      if captureQueue == [] {
        if running {
          return Waiting;
        }
        return Exit;
      }
      var job := captureQueue[0];
      captureQueue := captureQueue[1..];
      var planar := PackI420(job);
      outcome := Encoded(job, planar);
    }

    /** The exposure button handler: a known pin sets the exposure and gives
        its blink count; any other pin changes nothing and blinks 0 times. */
    method SetExposureTime(pin: int) returns (blinks: nat)
      requires Valid()
      modifies this
      ensures Valid()
      ensures match ExposureFor(pin)
        case Some(s) => currentExposureTime == s.microseconds && blinks == s.blinks
        case None => currentExposureTime == old(currentExposureTime) && blinks == 0
      ensures running == old(running) && captureCountdown == old(captureCountdown)
      ensures captureQueue == old(captureQueue) && currentGainIndex == old(currentGainIndex)
      ensures lastPressed == old(lastPressed) && lastFrameTime == old(lastFrameTime)
    {
      var setting := ExposureFor(pin);
      if setting.None? {
        return 0;
      }
      ExposureTable();
      currentExposureTime := setting.value.microseconds;
      blinks := setting.value.blinks;
    }

    /** The gain button handler: the next of the three gains, confirmed by one
        blink more than its index. */
    method CycleAnalogueGain() returns (blinks: nat)
      requires Valid()
      modifies this
      ensures Valid()
      ensures currentGainIndex == NextGainIndex(old(currentGainIndex)) && blinks == currentGainIndex + 1
      ensures running == old(running) && captureCountdown == old(captureCountdown)
      ensures captureQueue == old(captureQueue) && currentExposureTime == old(currentExposureTime)
      ensures lastPressed == old(lastPressed) && lastFrameTime == old(lastFrameTime)
    {
      currentGainIndex := NextGainIndex(currentGainIndex);
      blinks := currentGainIndex + 1;
    }

    /** One falling edge on `pin` at time `now`. Within the debounce window it
        is ignored. Otherwise it becomes the last press, whatever follows; the
        shutter then arms the countdown unless a capture is queued or counting
        down, and every other pin, the gain pin included, goes to the
        exposure handler. */
    method OnEdge(pin: int, now: int) returns (outcome: EdgeOutcome)
      requires Valid()
      modifies this
      ensures Valid()
      ensures running == old(running) && captureQueue == old(captureQueue)
      ensures currentGainIndex == old(currentGainIndex) && lastFrameTime == old(lastFrameTime)
      ensures !EdgeAccepted(now, old(lastPressed)) ==>
        outcome == Debounced && lastPressed == old(lastPressed) &&
        captureCountdown == old(captureCountdown) && currentExposureTime == old(currentExposureTime)
      ensures EdgeAccepted(now, old(lastPressed)) ==> lastPressed == now
      ensures EdgeAccepted(now, old(lastPressed)) && pin == ShutterPin ==>
        currentExposureTime == old(currentExposureTime) &&
        (CaptureBusy(|old(captureQueue)|, old(captureCountdown)) ==>
           outcome == Busy && captureCountdown == old(captureCountdown)) &&
        (!CaptureBusy(|old(captureQueue)|, old(captureCountdown)) ==>
           outcome == Armed && captureCountdown == SettleDepth)
      ensures EdgeAccepted(now, old(lastPressed)) && pin != ShutterPin ==>
        captureCountdown == old(captureCountdown) &&
        match ExposureFor(pin)
        case Some(s) => outcome == ExposureSet(s) && currentExposureTime == s.microseconds
        case None => outcome == NoAction && currentExposureTime == old(currentExposureTime)
    {
      if !EdgeAccepted(now, lastPressed) {
        return Debounced;
      }
      lastPressed := now;
      if pin == ShutterPin {
        var busy := CaptureBusy(|captureQueue|, captureCountdown);
        if busy {
          return Busy;
        }
        captureCountdown := SettleDepth;
        return Armed;
      }
      var blinks := SetExposureTime(pin);
      var setting := ExposureFor(pin);
      outcome := if setting.Some? then ExposureSet(setting.value) else NoAction;
    }

    /** The signal handler: stop the rig; the encoder drains what is queued. */
    method SignalShutdown()
      requires Valid()
      modifies this
      ensures Valid()
      ensures !running
      ensures captureCountdown == old(captureCountdown) && captureQueue == old(captureQueue)
      ensures currentExposureTime == old(currentExposureTime) && currentGainIndex == old(currentGainIndex)
      ensures lastPressed == old(lastPressed) && lastFrameTime == old(lastFrameTime)
    {
      running := false;
    }
  }

  /** The output path of each buffer's job, from the local time its clock
      read gave. */
  function Paths(home: string, times: seq<DateTime>): (paths: seq<string>)
    requires forall i :: 0 <= i < |times| ==> ValidTime(times[i])
    ensures |paths| == |times|
    ensures forall i :: 0 <= i < |times| ==> paths[i] == OutputPath(home, times[i])
  {
    if times == [] then []
    else Paths(home, times[..|times| - 1]) + [OutputPath(home, times[|times| - 1])]
  }
}
