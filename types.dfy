/** Values shared by every part of the capture pipeline: the frame buffers the
    sensor driver hands over, the capture jobs the encoder consumes, and the
    fixed configuration of the rig. */
module Types {

  /** An unsigned 8-bit sample, as stored in the pixel buffers. */
  newtype byte = b: int | 0 <= b < 256

  datatype Option<T> = None | Some(value: T)

  /** One plane of a driver buffer: where it starts in the shared memory and
      how many bytes it covers. */
  datatype Plane = Plane(offset: nat, length: nat)

  /** The end of a plane inside the shared memory. */
  function PlaneEnd(p: Plane): nat
  {
    p.offset + p.length
  }

  /** One (stream, buffer) pair of a completed request: the stream's
      configuration (pixel format name, size, luma stride) and the buffer's
      planes. `mapping` is what a read-only memory mapping of the buffer
      yields: the bytes from offset 0, or None when the mapping fails. */
  datatype FrameBuffer = FrameBuffer(
    format: string,
    width: nat,
    height: nat,
    stride: nat,
    planes: seq<Plane>,
    mapping: Option<seq<byte>>)

  /** The states a camera request can complete in. */
  datatype RequestStatus = RequestPending | RequestComplete | RequestCancelled

  /** A completed camera request as the completion handler sees it. */
  datatype Request = Request(status: RequestStatus, buffers: seq<FrameBuffer>)

  /** An owned snapshot of one frame plus everything needed to encode it. */
  datatype CaptureJob = CaptureJob(
    yuvData: seq<byte>,
    width: nat,
    height: nat,
    yStride: nat,
    uvStride: nat,
    path: string,
    numPlanes: nat,
    plane0Offset: nat,
    plane1Offset: nat,
    plane2Offset: nat)

  // GPIO line numbers of the inputs.
  const ShutterPin := 23
  const ExposurePin1000 := 19
  const ExposurePin250 := 5
  const ExposurePin60 := 6
  const ExposurePin15 := 26
  const GainPin := 20

  /** The sensor resolution the camera is configured for. */
  const SensorWidth := 4624
  const SensorHeight := 3472

  /** The one pixel format the extraction accepts. */
  const SupportedFormat := "YUV420"

  /** Frames counted down after a shutter press: two skipped, one captured. */
  const SettleDepth := 3

  /** Quiet interval of the debounce, in milliseconds. */
  const DebounceMs := 300

  /** Frame gap, in whole seconds, beyond which the watchdog gives up. */
  const WatchdogSeconds := 5

  /** Exposure applied at start-up: 1/30 s, truncated to whole microseconds. */
  const DefaultExposureTime := 1000000 / 30

  /** Number of analogue gain levels (2.0, 4.0 and 8.0); the start-up index is 1. */
  const GainLevels := 3
  const DefaultGainIndex := 1

  // steady_clock ticks are nanoseconds.
  const NanosPerMilli := 1000000
  const NanosPerSecond := 1000000000
}
