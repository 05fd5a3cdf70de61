# Capture rig pipeline, modelled in Dafny

The rig's control program (`main.cpp`) streams frames from an image sensor. A
shutter button arms a three-frame settle countdown. The frame that ends the
countdown is copied out of the driver's buffers into a capture job. An encoder
thread takes jobs off a queue and strips the row padding from them to make a
contiguous I420 image for the JPEG codec. Four other buttons set the exposure
time. A debounce shared by all buttons filters the edges, and a watchdog stops
the main loop when frames stop arriving.

The model has six modules:

- `Types`: the values that flow through the pipeline (driver buffers and their
  planes, completed requests, capture jobs, bytes) and the program's constants.
- `Timestamp`: the `%Y%m%d_%H%M%S` rendering of a local time, its inverse, and
  the output path built from it.
- `Encoder`: the stride-removing copy. It is an array algorithm (`CopyRow`,
  `CopyPlane`, `PackI420`) proved against the specification function `I420`.
- `Extraction`: sizing the mapping, copying a buffer into a job, and the plane
  offsets. It includes the loop over a frame's buffers.
- `Controls`: the decision rules, written as functions. These are the exposure
  table, the truncating `duration_cast`, the debounce, the watchdog and its
  loop, the settle countdown, the gain cycle, and the encoder's take from the
  queue with its FIFO and drain laws.
- `Rig`: the class `Rig`. Its fields are the program's shared atomics and the
  capture queue. Its methods are the steps the threads take, each treated as
  one atomic update: frame completion, encoder turn, button edge, exposure and
  gain handlers, and the signal handler.

Modelling conventions:

- Time is the steady clock in integer nanoseconds.
- Integers are unbounded.
- `Mul(a, b)` is `a * b` computed row by row (`Encoder.MulIsProduct`). Offsets
  and sizes are written with it so that the proofs unfold one row at a time.

Three facts about the code that the model follows:

- File names carry a 15-character timestamp. The format string at
  `main.cpp:92` puts an underscore between the 8-digit date and the 6-digit
  time.
- The watchdog only leaves the main loop (`main.cpp:638-640`). It does not
  clear the run flag. `main` then joins the button thread (`main.cpp:646`),
  which loops while the flag is set (`main.cpp:540`), and the encoder keeps
  waiting while it is set (`main.cpp:186`). So after a stalled camera trips
  the watchdog, the process does not exit until a signal clears the flag.
  `Controls.WatchdogLoop` states that the loop leaves `running` as it was.
- At 4624 x 3472 the encoder's arithmetic (`main.cpp:203-204`) gives a luma
  plane of 16,054,528 bytes and chroma planes of 8,027,264 bytes together
  (`Encoder.FullResolutionSizes`).

## Model

| member | source | states |
|---|---|---|
| `Timestamp.Format` | main.cpp:86-94 | the rendering is 15 characters: 8 digits of date (`%Y%m%d`), an underscore, then 6 digits of time (`%H%M%S`) |
| `Timestamp.ParseOfFormat` | main.cpp:92 | reading a rendered timestamp back gives the same local time, so captures in different seconds get different file names (two captures within one second get the same name, and the second JPEG overwrites the first) |
| `Timestamp.FormatOfParse` | main.cpp:92 | every string of that shape with in-range fields is exactly the rendering of the time it denotes |
| `Timestamp.OutputPath` | main.cpp:335 | the path is the tapes directory under home, then `/mpi_`, the timestamp (which parses back to the capture time), then `.jpg` |
| `Encoder.I420` | main.cpp:203-205 | the packed image is `YSize + 2 * UVSize` bytes: Y rows, then U rows, then V rows, each without its padding |
| `Encoder.I420SizeIsProduct` | main.cpp:203-205 | the packed image is `w * h + 2 * ((w / 2) * (h / 2))` bytes |
| `Encoder.FullResolutionSizes` | main.cpp:203-204 | at 4624 x 3472 the luma plane is 16054528 bytes and the chroma planes 8027264 bytes together |
| `Encoder.RowsAt` | main.cpp:207-210 | row r of an unpadded plane sits at `r * width` and equals source row r, read `stride` bytes apart from the plane start |
| `Encoder.I420YRow` | main.cpp:207-210 | packed bytes `[y*w, y*w+w)` equal the source bytes from `plane0Offset + y*yStride`, which lie inside the job |
| `Encoder.I420URow` | main.cpp:212-216 | U row y is at `w*h + y*(w/2)` and equals `w/2` source bytes from `plane1Offset + y*uvStride` |
| `Encoder.I420VRow` | main.cpp:218-222 | V row y is at `w*h + (w/2)*(h/2) + y*(w/2)` and equals `w/2` source bytes from `plane2Offset + y*uvStride` |
| `Encoder.CopyRow` | main.cpp:209 | one `memcpy`: the destination range receives the source bytes and nothing else in the array changes |
| `Encoder.CopyPlane` | main.cpp:208-210 | after the row loop the array is the old prefix, then the unpadded plane, then the old suffix |
| `Encoder.PackI420` | main.cpp:197-222 | the buffer filled by the three row loops is exactly `I420(job)` |
| `Extraction.MaxEnd` | main.cpp:315-319 | the mapping size is an upper bound on every plane's `offset + length`, reached by some plane, and 0 with no planes |
| `Extraction.TotalSize` | main.cpp:315-319 | the running-maximum loop computes `MaxEnd` |
| `Extraction.PlaneOffsets` | main.cpp:341-349 | with 3 or more planes the native offsets of planes 0-2; with 1 plane, U at `yStride*height` and V after `(yStride/2)*(height/2)` more bytes |
| `Extraction.SinglePlaneOffsets` | main.cpp:345-348 | the single-plane offsets stated as plain products |
| `Extraction.SingleMatchesThreePlanes` | main.cpp:341-349 | a single plane gets the same offsets a three-plane driver reports for planes at 0, `S*H` and `S*H + (S/2)*(H/2)` |
| `Extraction.SingleAndThreePlanesPackAlike` | main.cpp:341-349 | such a single-plane buffer and three-plane buffer, with the same mapped bytes, give jobs that pack to the same I420 image |
| `Extraction.ExtractBuffer` | main.cpp:292-349 | the loop body for one buffer (skip checks, running-maximum size via `TotalSize`, copy, strides and offsets) yields `Extract` of the buffer |
| `Extraction.Extract` | main.cpp:294-349 | a job is made iff the buffer has planes, is YUV420 and maps; its bytes are the first `MaxEnd` mapped bytes, `uvStride = yStride / 2`, and its path, plane count and offsets are as given |
| `Extraction.ExtractAll` | main.cpp:288-361 | a frame yields at most one job per buffer |
| `Extraction.ExtractAllPrefix` | main.cpp:288-361 | the jobs of the first k buffers are a prefix of the frame's jobs |
| `Extraction.ExtractAllTo` | main.cpp:354-358 | every buffer that passes the checks has its job queued, right after the jobs of the buffers before it |
| `Extraction.ExtractAllFrom` | main.cpp:288-361 | every queued job is the extraction of one of the frame's buffers, with that buffer's path |
| `Extraction.ExtractAllNone` | main.cpp:294-327 | a frame whose buffers are all skipped queues nothing |
| `Extraction.ExtractedJobFits` | main.cpp:197-222 | a job from a consistently laid out buffer never makes the encoder's unchecked row copies read outside its bytes |
| `Extraction.ExtractAllFits` | main.cpp:288-361 | every job of a consistent frame fits its bytes |
| `Extraction.ExtractFrame` | main.cpp:288-361 | the loop over a frame's buffers returns `ExtractAll` of them, all fitting |
| `Controls.MicrosFor` | main.cpp:126-152 | the exposure time is 10^6 / speed truncated: `us * speed <= 10^6 < (us + 1) * speed` |
| `Controls.ExposureFor` | main.cpp:124-156 | a setting exists iff the pin is 19, 5, 6 or 26; blinks are 1 to 4 and the time is positive |
| `Controls.ExposureTable` | main.cpp:126-152 | pin 19 gives 1000 us and 4 blinks, 5 gives 4000 and 3, 6 gives 16666 and 2, 26 gives 66666 and 1; the shutter and gain pins give nothing |
| `Controls.BlinksOrderExposure` | main.cpp:126-152 | more blinks iff a shorter exposure; distinct buttons give distinct settings |
| `Controls.TruncDiv` | main.cpp:561 | `duration_cast` truncates toward zero: the magnitude is `|a| / d` and the sign is that of `a` |
| `Controls.EdgeAcceptedIff` | main.cpp:561 | an edge passes the debounce iff at least 301 ms have passed since the last accepted edge |
| `Controls.DebounceWindow` | main.cpp:558-562 | every edge within 301 ms of an accepted one is ignored, and any later edge is accepted |
| `Controls.WatchdogExpiredIff` | main.cpp:637-638 | the watchdog fires iff at least 6 s have passed since the last completed frame |
| `Controls.WatchdogLoop` | main.cpp:635-643 | the main loop stops at the first pass where `running` is false or the watchdog fires, says whether it timed out, and does not clear `running` |
| `Controls.CountdownStep` | main.cpp:279-287 | a frame is idle iff the count is 0 and skipped iff it is above 1; a skip or capture lowers the count by one |
| `Controls.SettleSequence` | main.cpp:279-287 | a countdown armed to n skips n - 1 frames, captures the n-th and ends at 0; for n = 3, two skips and one capture |
| `Controls.IdleStaysIdle` | main.cpp:279-280 | with the countdown at 0, no number of frames ever captures |
| `Controls.NextGainIndex` | main.cpp:164-165 | the next gain index is the index plus one, wrapping from 2 to 0 |
| `Controls.GainCycle` | main.cpp:164-165 | three gain presses return to the starting gain; a press always changes it |
| `Controls.TakeNext` | main.cpp:186-193 | the encoder stops iff shut down with an empty queue, waits iff running with an empty queue, and otherwise takes the front job |
| `Controls.ReplayIsFifo` | main.cpp:186-193 | over any interleaving of pushes, takes and shutdown, the jobs taken then the jobs left are the initial queue then the pushed jobs, in order |
| `Controls.DrainOnShutdown` | main.cpp:186-193 | after shutdown, each take still returns the next queued job in order |
| `Controls.DrainThenStop` | main.cpp:188-190 | once every queued job has been taken after shutdown, the next take stops the encoder |
| `Rig.Paths` | main.cpp:335 | each buffer's path is the output path for that buffer's clock reading |
| `Rig.Rig.constructor` | main.cpp:70-76 | the rig starts running with no capture pending, at 1/30 s and gain index 1, with the last press 2 s in the past |
| `Rig.Rig.RequestComplete` | main.cpp:262-373 | cancelled requests change nothing. Other failures clear `running` and skip the re-queue. A complete frame resets the watchdog and steps the countdown. A skip re-queues untouched and never clears `running`. A capture appends the frame's jobs. Otherwise the request is re-queued with the current exposure and gain, and a failed re-queue clears `running`. Queued jobs always fit |
| `Rig.Rig.EncoderStep` | main.cpp:181-222 | the encoder takes as `TakeNext` says and packs the job it took into `I420(job)`; the rest of the state is unchanged |
| `Rig.Rig.SetExposureTime` | main.cpp:121-160 | a known pin sets the exposure and gives its blink count; any other pin changes nothing |
| `Rig.Rig.CycleAnalogueGain` | main.cpp:162-178 | the gain index becomes the next index and blinks one more time than the new index |
| `Rig.Rig.OnEdge` | main.cpp:556-582 | a debounced edge changes nothing. An accepted edge always sets `lastPressed`. The shutter arms the countdown to 3 iff the queue is empty and the countdown is 0, and otherwise changes nothing more. Other pins, the gain pin included, go to the exposure handler |
| `Rig.Rig.SignalShutdown` | main.cpp:592-596 | the signal handler clears `running` and nothing else |

## Left out

- Camera setup, teardown and request plumbing (`main.cpp:376-483`) are foreign
  driver calls. A completed request is a status plus its buffers' format,
  size, stride, planes and mapped bytes.
- Mapping and unmapping a buffer is reading a supplied byte sequence. `None`
  stands for a failed mapping. The driver is assumed to map every plane
  (`Extraction.Mappable`) and to lay planes out consistently with the
  configured size (`Extraction.Consistent`). The encoder's unchecked
  `memcpy` relies on that layout, and the code never checks it.
- A YUV420 buffer with exactly two planes whose mapping succeeds is excluded
  by a precondition (`Extraction.Mappable`), because the code then leaves its
  U and V offsets unassigned (`main.cpp:342-349`). Two-plane buffers in other
  formats, or whose mapping fails, are skipped as in the code.
- JPEG compression and the file write (`main.cpp:224-257`) are a foreign codec
  and file I/O. The model ends with the packed I420 buffer handed to the
  codec.
- GPIO chip and line access and the event wait (`main.cpp:487-554`) are I/O.
  So are the `raspi-gpio` commands for the LED and screen
  (`main.cpp:96-119`). The LED blinks are kept only as a returned count.
- The threads, mutex, condition variable and signal registration are
  concurrency. Each thread's body is one atomic step on the `Rig` object, and
  the queue's interleavings are a replay of events (`Controls.Replay`). The
  `fetch_sub` on the countdown is modelled under the assumption that no other
  thread writes the countdown between the load and the decrement.
- The floating-point gain values (`main.cpp:75`, `367`) are left out. Only the
  index into them is kept.
- Clock reads are parameters: steady-clock times in nanoseconds, and the local
  time as a broken-down `DateTime`, one per buffer. `sleep_for` and logging
  are left out.
- Integer widths are not modelled. Every quantity is unbounded. At the
  configured resolution, none of the code's `int` and `size_t` products comes
  near its limit.
- `Timestamp.Format` covers years 1000 to 9999, where `%Y` gives exactly four
  digits.
- `Rig.Rig.RequestComplete` takes one re-queue outcome, which decides only
  whether `running` is cleared.
- The gain handler is modelled (`Rig.Rig.CycleAnalogueGain`), but its call is
  commented out in the edge handler (`main.cpp:577-578`), so `OnEdge` sends
  the gain pin to the exposure handler, which ignores it.
- `main.py` and `button_test.py` are not part of this model. They are thin
  scripts around camera and GPIO libraries.
