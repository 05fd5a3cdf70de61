/** Frame extraction: turning one driver buffer of a captured frame into an
    owned capture job (size of the mapping, deep copy of its bytes, plane
    offsets and strides). */
module Extraction {

  import opened Types
  import opened Encoder

  /** The largest plane end of a buffer, 0 for no planes: how many bytes the
      mapping must cover. */
  function MaxEnd(planes: seq<Plane>): (m: nat)
    ensures forall i :: 0 <= i < |planes| ==> PlaneEnd(planes[i]) <= m
    ensures planes == [] ==> m == 0
    ensures planes != [] ==> exists i :: 0 <= i < |planes| && PlaneEnd(planes[i]) == m
  {
    if planes == [] then 0
    else
      var m := MaxEnd(planes[..|planes| - 1]);
      var e := PlaneEnd(planes[|planes| - 1]);
      if e > m then e else m
  }

  /** The running-maximum loop over the planes that sizes the mapping. */
  method TotalSize(planes: seq<Plane>) returns (total: nat)
    ensures total == MaxEnd(planes)
  {
    total := 0;
    for i := 0 to |planes|
      invariant total == MaxEnd(planes[..i])
    {
      assert planes[..i + 1][..i] == planes[..i];
      var planeEnd := PlaneEnd(planes[i]);
      if planeEnd > total {
        total := planeEnd;
      }
    }
    assert planes[..|planes|] == planes;
  }

  /** Offsets of the Y, U and V planes inside the copied bytes. A buffer with
      three or more planes gives them directly; a single contiguous plane has
      U right after `height` luma rows and V right after `height / 2` chroma
      rows of half the stride (`Mul(a, b)` is `a * b`). Two planes leave U
      and V unassigned in the C++ and are excluded. */
  function PlaneOffsets(b: FrameBuffer): (offsets: (nat, nat, nat))
    requires |b.planes| == 1 || |b.planes| >= 3
    ensures offsets.0 == b.planes[0].offset
    ensures |b.planes| >= 3 ==> offsets.1 == b.planes[1].offset && offsets.2 == b.planes[2].offset
    ensures |b.planes| == 1 ==>
      offsets.1 == Mul(b.height, b.stride) &&
      offsets.2 == offsets.1 + Mul(b.height / 2, b.stride / 2)
  {
    if |b.planes| >= 3 then
      (b.planes[0].offset, b.planes[1].offset, b.planes[2].offset)
    else
      var p1 := Mul(b.height, b.stride);
      (b.planes[0].offset, p1, p1 + Mul(b.height / 2, b.stride / 2))
  }

  /** For a single plane, U starts at `stride * height` and V at
      `stride * height + (stride / 2) * (height / 2)`. */
  lemma SinglePlaneOffsets(b: FrameBuffer)
    requires |b.planes| == 1
    ensures PlaneOffsets(b).1 == b.stride * b.height
    ensures PlaneOffsets(b).2 == b.stride * b.height + (b.stride / 2) * (b.height / 2)
  {
    MulIsProduct(b.height, b.stride);
    MulIsProduct(b.height / 2, b.stride / 2);
  }

  /** A single contiguous plane gets the same Y, U and V offsets as a
      three-plane buffer of the same stride and height whose planes start at
      0, `stride * height` and `stride * height + (stride / 2) * (height / 2)`. */
  lemma SingleMatchesThreePlanes(one: FrameBuffer, three: FrameBuffer)
    requires |one.planes| == 1 && one.planes[0].offset == 0
    requires |three.planes| >= 3 && three.stride == one.stride && three.height == one.height
    requires three.planes[0].offset == 0
    requires three.planes[1].offset == one.stride * one.height
    requires three.planes[2].offset == one.stride * one.height + (one.stride / 2) * (one.height / 2)
    ensures PlaneOffsets(one) == PlaneOffsets(three)
  {
    SinglePlaneOffsets(one);
  }

  /** So a single-plane frame and the matching three-plane frame with the
      same mapped bytes are packed into the same I420 image. */
  lemma SingleAndThreePlanesPackAlike(one: FrameBuffer, three: FrameBuffer, p: string, q: string)
    requires |one.planes| == 1 && one.planes[0].offset == 0
    requires |three.planes| >= 3 && three.stride == one.stride && three.height == one.height
    requires three.width == one.width
    requires three.planes[0].offset == 0
    requires three.planes[1].offset == one.stride * one.height
    requires three.planes[2].offset == one.stride * one.height + (one.stride / 2) * (one.height / 2)
    requires Mappable(one) && Mappable(three)
    requires Extract(one, p).Some? && Extract(three, q).Some?
    requires one.mapping == three.mapping && MaxEnd(one.planes) == MaxEnd(three.planes)
    requires JobFits(Extract(one, p).value)
    ensures JobFits(Extract(three, q).value)
    ensures I420(Extract(one, p).value) == I420(Extract(three, q).value)
  {
    SingleMatchesThreePlanes(one, three);
  }

  /** What the driver promises about a buffer it hands over: a successful
      mapping covers every plane, and a YUV420 buffer that maps does not have
      exactly two planes (the code leaves its U and V offsets unassigned). */
  predicate Mappable(b: FrameBuffer)
  {
    (b.mapping.Some? ==> MaxEnd(b.planes) <= |b.mapping.value|) &&
    (|b.planes| == 2 ==> b.format != SupportedFormat || b.mapping.None?)
  }

  /** The capture job for one buffer, or None when the buffer is skipped: it
      has no planes, its format is not YUV420, or mapping it fails. */
  function Extract(b: FrameBuffer, path: string): (r: Option<CaptureJob>)
    requires Mappable(b)
    ensures r.Some? <==> |b.planes| > 0 && b.format == SupportedFormat && b.mapping.Some?
    ensures r.Some? ==>
      var job := r.value;
      job.yuvData == b.mapping.value[..MaxEnd(b.planes)] &&
      job.width == b.width && job.height == b.height &&
      job.yStride == b.stride && job.uvStride == b.stride / 2 &&
      job.path == path && job.numPlanes == |b.planes| &&
      (job.plane0Offset, job.plane1Offset, job.plane2Offset) == PlaneOffsets(b)
  {
    if |b.planes| == 0 || b.format != SupportedFormat || b.mapping.None? then None
    else
      var offsets := PlaneOffsets(b);
      Some(CaptureJob(
        b.mapping.value[..MaxEnd(b.planes)],
        b.width, b.height, b.stride, b.stride / 2, path, |b.planes|,
        offsets.0, offsets.1, offsets.2))
  }

  /** The jobs a captured frame yields, in buffer order; `paths[i]` is the
      file name stamped on buffer i's job. */
  function ExtractAll(bufs: seq<FrameBuffer>, paths: seq<string>): (jobs: seq<CaptureJob>)
    requires |paths| == |bufs|
    requires forall i :: 0 <= i < |bufs| ==> Mappable(bufs[i])
    ensures |jobs| <= |bufs|
  {
    if bufs == [] then []
    else
      var n := |bufs| - 1;
      ExtractAll(bufs[..n], paths[..n])
        + match Extract(bufs[n], paths[n]) { case Some(job) => [job] case None => [] }
  }

  /** Every extracted job is the extraction of some buffer, with its path. */
  lemma {:induction false} ExtractAllFrom(bufs: seq<FrameBuffer>, paths: seq<string>, k: nat)
    requires |paths| == |bufs|
    requires forall i :: 0 <= i < |bufs| ==> Mappable(bufs[i])
    requires k < |ExtractAll(bufs, paths)|
    ensures exists i :: 0 <= i < |bufs| && Extract(bufs[i], paths[i]) == Some(ExtractAll(bufs, paths)[k])
  {
    var n := |bufs| - 1;
    var prefix := ExtractAll(bufs[..n], paths[..n]);
    if k < |prefix| {
      ExtractAllFrom(bufs[..n], paths[..n], k);
      var i :| 0 <= i < n && Extract(bufs[..n][i], paths[..n][i]) == Some(prefix[k]);
      assert bufs[..n][i] == bufs[i] && paths[..n][i] == paths[i];
    } else {
      assert Extract(bufs[n], paths[n]) == Some(ExtractAll(bufs, paths)[k]);
    }
  }

  /** The jobs of the first `k` buffers are the start of the frame's jobs. */
  lemma {:induction false} ExtractAllPrefix(bufs: seq<FrameBuffer>, paths: seq<string>, k: nat)
    requires |paths| == |bufs| && k <= |bufs|
    requires forall i :: 0 <= i < |bufs| ==> Mappable(bufs[i])
    ensures ExtractAll(bufs[..k], paths[..k]) <= ExtractAll(bufs, paths)
  {
    if k == |bufs| {
      assert bufs[..k] == bufs && paths[..k] == paths;
    } else {
      var n := |bufs| - 1;
      ExtractAllPrefix(bufs[..n], paths[..n], k);
      assert bufs[..n][..k] == bufs[..k] && paths[..n][..k] == paths[..k];
    }
  }

  /** Every buffer that can be extracted has its job queued, right after the
      jobs of the buffers before it: at index "number of jobs from buffers
      0 to i - 1". */
  lemma ExtractAllTo(bufs: seq<FrameBuffer>, paths: seq<string>, i: nat)
    requires |paths| == |bufs| && i < |bufs|
    requires forall k :: 0 <= k < |bufs| ==> Mappable(bufs[k])
    requires Extract(bufs[i], paths[i]).Some?
    ensures |ExtractAll(bufs[..i], paths[..i])| < |ExtractAll(bufs, paths)|
    ensures ExtractAll(bufs, paths)[|ExtractAll(bufs[..i], paths[..i])|] == Extract(bufs[i], paths[i]).value
  {
    ExtractAllStep(bufs, paths, i);
    ExtractAllPrefix(bufs, paths, i + 1);
  }

  /** A frame none of whose buffers can be extracted yields no jobs. */
  lemma {:induction false} ExtractAllNone(bufs: seq<FrameBuffer>, paths: seq<string>)
    requires |paths| == |bufs|
    requires forall i :: 0 <= i < |bufs| ==> Mappable(bufs[i]) && Extract(bufs[i], paths[i]).None?
    ensures ExtractAll(bufs, paths) == []
  {
    if bufs != [] {
      var n := |bufs| - 1;
      ExtractAllNone(bufs[..n], paths[..n]);
    }
  }

  /** The layout the sensor driver gives a YUV420 buffer: each luma row fits
      in the stride, and the planes are long enough for their rows. A single
      plane starts at offset 0 and holds Y, U and V back to back. Buffers in
      other formats are skipped, so nothing is asked of them. */
  predicate Consistent(b: FrameBuffer)
  {
    b.format == SupportedFormat ==>
    b.width <= b.stride &&
    (|b.planes| == 1 ==>
       b.planes[0].offset == 0 &&
       Mul(b.height, b.stride) + 2 * Mul(b.height / 2, b.stride / 2) <= b.planes[0].length) &&
    (|b.planes| >= 3 ==>
       Mul(b.height, b.stride) <= b.planes[0].length &&
       Mul(b.height / 2, b.stride / 2) <= b.planes[1].length &&
       Mul(b.height / 2, b.stride / 2) <= b.planes[2].length)
  }

  /** Rows no wider than their stride fit when the whole strided block fits. */
  lemma StridedBlockFits(base: nat, rows: nat, stride: nat, width: nat, size: nat)
    requires width <= stride && base + Mul(rows, stride) <= size
    ensures RowsFit(base, rows, stride, width, size)
  {
  }

  /** A job extracted from a consistently laid out buffer never makes the
      encoder read outside its bytes. */
  lemma ExtractedJobFits(b: FrameBuffer, path: string)
    requires Mappable(b) && Consistent(b) && Extract(b, path).Some?
    ensures JobFits(Extract(b, path).value)
  {
    var job := Extract(b, path).value;
    var size := |job.yuvData|;
    var w, h, s := b.width, b.height, b.stride;
    assert size == MaxEnd(b.planes);
    assert w / 2 <= s / 2;
    if |b.planes| >= 3 {
      assert PlaneEnd(b.planes[0]) <= size && PlaneEnd(b.planes[1]) <= size && PlaneEnd(b.planes[2]) <= size;
    } else {
      assert PlaneEnd(b.planes[0]) <= size;
    }
    StridedBlockFits(job.plane0Offset, h, s, w, size);
    StridedBlockFits(job.plane1Offset, h / 2, s / 2, w / 2, size);
    StridedBlockFits(job.plane2Offset, h / 2, s / 2, w / 2, size);
  }

  /** Every job a frame of consistent buffers yields fits its bytes. */
  lemma {:induction false} ExtractAllFits(bufs: seq<FrameBuffer>, paths: seq<string>)
    requires |paths| == |bufs|
    requires forall i :: 0 <= i < |bufs| ==> Mappable(bufs[i]) && Consistent(bufs[i])
    ensures forall j :: 0 <= j < |ExtractAll(bufs, paths)| ==> JobFits(ExtractAll(bufs, paths)[j])
  {
    if bufs != [] {
      var n := |bufs| - 1;
      ExtractAllFits(bufs[..n], paths[..n]);
      if Extract(bufs[n], paths[n]).Some? {
        ExtractedJobFits(bufs[n], paths[n]);
      }
    }
  }

  /** Extracting one more buffer appends its job, if it yields one. */
  lemma ExtractAllStep(bufs: seq<FrameBuffer>, paths: seq<string>, i: nat)
    requires |paths| == |bufs| && i < |bufs|
    requires forall k :: 0 <= k < |bufs| ==> Mappable(bufs[k])
    ensures ExtractAll(bufs[..i + 1], paths[..i + 1]) == ExtractAll(bufs[..i], paths[..i])
      + match Extract(bufs[i], paths[i]) { case Some(job) => [job] case None => [] }
  {
    assert bufs[..i + 1][..i] == bufs[..i] && paths[..i + 1][..i] == paths[..i];
  }

  /** One buffer's pass through the loop body: skip it without planes, in
      another format or when mapping fails; otherwise size the mapping with
      the running maximum, copy that many bytes and set strides and offsets. */
  method ExtractBuffer(b: FrameBuffer, path: string) returns (job: Option<CaptureJob>)
    requires Mappable(b)
    ensures job == Extract(b, path)
  {
    if |b.planes| == 0 || b.format != SupportedFormat {
      return None;
    }
    var totalSize := TotalSize(b.planes);
    if b.mapping.None? {
      return None;
    }
    var offsets := PlaneOffsets(b);
    job := Some(CaptureJob(
      b.mapping.value[..totalSize],
      b.width, b.height, b.stride, b.stride / 2, path, |b.planes|,
      offsets.0, offsets.1, offsets.2));
  }

  /** The loop over the buffers of a captured frame: each buffer that can be
      extracted yields one job, in buffer order, and every job fits its bytes. */
  method ExtractFrame(bufs: seq<FrameBuffer>, paths: seq<string>) returns (jobs: seq<CaptureJob>)
    requires |paths| == |bufs|
    requires forall i :: 0 <= i < |bufs| ==> Mappable(bufs[i]) && Consistent(bufs[i])
    ensures jobs == ExtractAll(bufs, paths)
    ensures forall j :: 0 <= j < |jobs| ==> JobFits(jobs[j])
  {
    jobs := [];
    for i := 0 to |bufs|
      invariant jobs == ExtractAll(bufs[..i], paths[..i])
    {
      ExtractAllStep(bufs, paths, i);
      var job := ExtractBuffer(bufs[i], paths[i]);
      if job.Some? {
        jobs := jobs + [job.value];
      }
    }
    assert bufs[..|bufs|] == bufs && paths[..|paths|] == paths;
    ExtractAllFits(bufs, paths);
  }
}
