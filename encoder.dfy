/** Stride removal: the encoder copies the Y, U and V planes of a job, whose
    rows are padded to `yStride` and `uvStride` bytes, into one contiguous
    I420 buffer for the JPEG codec. */
module Encoder {

  import opened Types

  /** `a * b` as repeated addition. Offsets and sizes below are written with
      it so that the verifier unfolds a product one row at a time instead of
      reasoning about products; MulIsProduct says it is the product. */
  function Mul(a: nat, b: nat): nat
  {
    if a == 0 then 0 else Mul(a - 1, b) + b
  }

  lemma {:induction false} MulIsProduct(a: nat, b: nat)
    ensures Mul(a, b) == a * b
  {
    if a > 0 {
      MulIsProduct(a - 1, b);
      assert a * b == (a - 1) * b + b;
    }
  }

  lemma {:induction false} MulMonotone(a: nat, c: nat, b: nat)
    requires a <= c
    ensures Mul(a, b) <= Mul(c, b)
  {
    if a < c {
      MulMonotone(a, c - 1, b);
    }
  }

  /** Size of the Y plane: `height` rows of `width` bytes. */
  function YSize(width: nat, height: nat): nat
  {
    Mul(height, width)
  }

  /** Size of one chroma plane: half the rows, half the width. */
  function UVSize(width: nat, height: nat): nat
  {
    Mul(height / 2, width / 2)
  }

  /** Length of the unpadded I420 buffer: a full-size Y plane and two
      half-width, half-height chroma planes. */
  function I420Size(width: nat, height: nat): nat
  {
    YSize(width, height) + 2 * UVSize(width, height)
  }

  /** The packed buffer holds `w * h + 2 * ((w / 2) * (h / 2))` bytes. */
  lemma I420SizeIsProduct(w: nat, h: nat)
    ensures I420Size(w, h) == w * h + 2 * ((w / 2) * (h / 2))
  {
    MulIsProduct(h, w);
    MulIsProduct(h / 2, w / 2);
  }

  /** At the configured resolution the luma plane is 16054528 bytes and the
      two chroma planes 8027264 bytes together. */
  lemma FullResolutionSizes()
    ensures YSize(SensorWidth, SensorHeight) == 16054528
    ensures 2 * UVSize(SensorWidth, SensorHeight) == 8027264
  {
    MulIsProduct(SensorHeight, SensorWidth);
    MulIsProduct(SensorHeight / 2, SensorWidth / 2);
  }

  /** `rows` rows of `width` bytes, `stride` bytes apart from `base`, all lie
      inside `size` bytes (only the last row needs checking). */
  predicate RowsFit(base: nat, rows: nat, stride: nat, width: nat, size: nat)
  {
    rows == 0 || base + Mul(rows - 1, stride) + width <= size
  }

  /** Every row the encoder reads from a job lies inside the job's pixel data:
      the C++ copy does no bounds checking, so this is what it relies on. */
  predicate JobFits(job: CaptureJob)
  {
    RowsFit(job.plane0Offset, job.height, job.yStride, job.width, |job.yuvData|) &&
    RowsFit(job.plane1Offset, job.height / 2, job.uvStride, job.width / 2, |job.yuvData|) &&
    RowsFit(job.plane2Offset, job.height / 2, job.uvStride, job.width / 2, |job.yuvData|)
  }

  /** Row `r` of a plane that starts at `base` with rows `stride` bytes apart. */
  function Row(s: seq<byte>, base: nat, stride: nat, width: nat, r: nat): seq<byte>
    requires base + Mul(r, stride) + width <= |s|
  {
    s[base + Mul(r, stride) .. base + Mul(r, stride) + width]
  }

  /** Row `r` of a plane that fits lies inside the source. */
  lemma RowInSource(base: nat, r: nat, rows: nat, stride: nat, width: nat, size: nat)
    requires r < rows && RowsFit(base, rows, stride, width, size)
    ensures base + Mul(r, stride) + width <= size
  {
    MulMonotone(r, rows - 1, stride);
  }

  /** The first `rows` rows of a padded plane, back to back without padding. */
  function Rows(src: seq<byte>, base: nat, stride: nat, width: nat, rows: nat): (s: seq<byte>)
    requires RowsFit(base, rows, stride, width, |src|)
    ensures |s| == Mul(rows, width)
  {
    if rows == 0 then []
    else
      assert RowsFit(base, rows - 1, stride, width, |src|) by {
        if rows > 1 { MulMonotone(rows - 2, rows - 1, stride); }
      }
      Rows(src, base, stride, width, rows - 1) + Row(src, base, stride, width, rows - 1)
  }

  /** The I420 packing of a job: its Y plane, then its U plane, then its V
      plane, each with the row padding removed. */
  function I420(job: CaptureJob): (s: seq<byte>)
    requires JobFits(job)
    ensures |s| == I420Size(job.width, job.height)
  {
    var w, h := job.width, job.height;
    Rows(job.yuvData, job.plane0Offset, job.yStride, w, h)
      + Rows(job.yuvData, job.plane1Offset, job.uvStride, w / 2, h / 2)
      + Rows(job.yuvData, job.plane2Offset, job.uvStride, w / 2, h / 2)
  }

  /** Row `r` of the unpadded plane sits at `r * width` and is row `r` of the
      padded source. */
  lemma {:induction false} RowsAt(src: seq<byte>, base: nat, stride: nat, width: nat, rows: nat, r: nat)
    requires RowsFit(base, rows, stride, width, |src|) && r < rows
    ensures base + Mul(r, stride) + width <= |src|
    ensures Mul(r, width) + width <= Mul(rows, width)
    ensures Rows(src, base, stride, width, rows)[Mul(r, width) .. Mul(r, width) + width]
         == Row(src, base, stride, width, r)
  {
    RowInSource(base, r, rows, stride, width, |src|);
    MulMonotone(r + 1, rows, width);
    assert RowsFit(base, rows - 1, stride, width, |src|) by {
      if rows > 1 { MulMonotone(rows - 2, rows - 1, stride); }
    }
    var prefix := Rows(src, base, stride, width, rows - 1);
    var last := Row(src, base, stride, width, rows - 1);
    assert Rows(src, base, stride, width, rows) == prefix + last;
    if r < rows - 1 {
      RowsAt(src, base, stride, width, rows - 1, r);
      MulMonotone(r + 1, rows - 1, width);
      SliceOfPrefix(prefix, last, Mul(r, width), Mul(r, width) + width);
    } else {
      assert |prefix| == Mul(r, width) && |last| == width;
      SliceOfSuffix(prefix, last);
    }
  }

  /** The second part of a concatenation, sliced back out. */
  lemma SliceOfSuffix(x: seq<byte>, y: seq<byte>)
    ensures (x + y)[|x| .. |x| + |y|] == y
  {
  }

  /** A slice inside the first part of a concatenation. */
  lemma SliceOfPrefix(x: seq<byte>, y: seq<byte>, i: nat, j: nat)
    requires i <= j <= |x|
    ensures (x + y)[i..j] == x[i..j]
  {
  }

  /** A slice inside the middle part of a three-part concatenation. */
  lemma SliceOfMiddle(x: seq<byte>, y: seq<byte>, z: seq<byte>, i: nat, j: nat)
    requires i <= j <= |y|
    ensures (x + y + z)[|x| + i .. |x| + j] == y[i..j]
  {
    assert (x + y + z)[|x| + i .. |x| + j] == (x + y)[|x| + i .. |x| + j];
  }

  /** Row y of the Y plane is at `y * w` of the packed buffer and is row y of
      the padded luma plane (with `Mul(a, b) == a * b`). */
  lemma I420YRow(job: CaptureJob, y: nat)
    requires JobFits(job) && y < job.height
    ensures job.plane0Offset + Mul(y, job.yStride) + job.width <= |job.yuvData|
    ensures Mul(y, job.width) + job.width <= |I420(job)|
    ensures I420(job)[Mul(y, job.width) .. Mul(y, job.width) + job.width]
         == Row(job.yuvData, job.plane0Offset, job.yStride, job.width, y)
  {
    var w, h := job.width, job.height;
    var ys := Rows(job.yuvData, job.plane0Offset, job.yStride, w, h);
    var us := Rows(job.yuvData, job.plane1Offset, job.uvStride, w / 2, h / 2);
    var vs := Rows(job.yuvData, job.plane2Offset, job.uvStride, w / 2, h / 2);
    assert I420(job) == [] + ys + (us + vs);
    RowsAt(job.yuvData, job.plane0Offset, job.yStride, w, h, y);
    SliceOfMiddle([], ys, us + vs, Mul(y, w), Mul(y, w) + w);
  }

  /** Row y of the U plane is at `w * h + y * (w / 2)` of the packed buffer
      and is row y of the padded U plane. */
  lemma I420URow(job: CaptureJob, y: nat)
    requires JobFits(job) && y < job.height / 2
    ensures job.plane1Offset + Mul(y, job.uvStride) + job.width / 2 <= |job.yuvData|
    ensures var u := YSize(job.width, job.height) + Mul(y, job.width / 2);
      u + job.width / 2 <= |I420(job)| &&
      I420(job)[u .. u + job.width / 2]
        == Row(job.yuvData, job.plane1Offset, job.uvStride, job.width / 2, y)
  {
    var w, h := job.width, job.height;
    var ys := Rows(job.yuvData, job.plane0Offset, job.yStride, w, h);
    var us := Rows(job.yuvData, job.plane1Offset, job.uvStride, w / 2, h / 2);
    var vs := Rows(job.yuvData, job.plane2Offset, job.uvStride, w / 2, h / 2);
    assert I420(job) == ys + us + vs && |ys| == YSize(w, h);
    RowsAt(job.yuvData, job.plane1Offset, job.uvStride, w / 2, h / 2, y);
    SliceOfMiddle(ys, us, vs, Mul(y, w / 2), Mul(y, w / 2) + w / 2);
  }

  /** Row y of the V plane is at `w * h + (w / 2) * (h / 2) + y * (w / 2)` of
      the packed buffer and is row y of the padded V plane. */
  lemma I420VRow(job: CaptureJob, y: nat)
    requires JobFits(job) && y < job.height / 2
    ensures job.plane2Offset + Mul(y, job.uvStride) + job.width / 2 <= |job.yuvData|
    ensures var v := YSize(job.width, job.height) + UVSize(job.width, job.height) + Mul(y, job.width / 2);
      v + job.width / 2 <= |I420(job)| &&
      I420(job)[v .. v + job.width / 2]
        == Row(job.yuvData, job.plane2Offset, job.uvStride, job.width / 2, y)
  {
    var w, h := job.width, job.height;
    var ys := Rows(job.yuvData, job.plane0Offset, job.yStride, w, h);
    var us := Rows(job.yuvData, job.plane1Offset, job.uvStride, w / 2, h / 2);
    var vs := Rows(job.yuvData, job.plane2Offset, job.uvStride, w / 2, h / 2);
    assert I420(job) == ys + us + vs + [] && |ys + us| == YSize(w, h) + UVSize(w, h);
    RowsAt(job.yuvData, job.plane2Offset, job.uvStride, w / 2, h / 2, y);
    SliceOfMiddle(ys + us, vs, [], Mul(y, w / 2), Mul(y, w / 2) + w / 2);
  }

  /** One memcpy of `n` bytes from `src[srcAt..]` to `dst[dstAt..]`. */
  method CopyRow(dst: array<byte>, dstAt: nat, src: seq<byte>, srcAt: nat, n: nat)
    requires dstAt + n <= dst.Length && srcAt + n <= |src|
    modifies dst
    ensures dst[dstAt..dstAt + n] == src[srcAt..srcAt + n]
    ensures dst[..dstAt] == old(dst[..dstAt]) && dst[dstAt + n..] == old(dst[dstAt + n..])
  {
    forall k | dstAt <= k < dstAt + n {
      dst[k] := src[srcAt + (k - dstAt)];
    }
  }

  /** The row loop for one plane: row y of the padded source goes to
      `dst[dstBase + y * width ..]`; nothing outside the plane's block changes. */
  method CopyPlane(dst: array<byte>, dstBase: nat, width: nat, rows: nat,
                   src: seq<byte>, srcBase: nat, stride: nat)
    requires dstBase + Mul(rows, width) <= dst.Length
    requires RowsFit(srcBase, rows, stride, width, |src|)
    modifies dst
    ensures dst[..] == old(dst[..dstBase]) + Rows(src, srcBase, stride, width, rows)
                       + old(dst[dstBase + Mul(rows, width)..])
  {
    ghost var orig := dst[..];
    var at := dstBase;
    for y := 0 to rows
      invariant at == dstBase + Mul(y, width) && at <= dstBase + Mul(rows, width)
      invariant RowsFit(srcBase, y, stride, width, |src|)
      invariant dst[..] == orig[..dstBase] + Rows(src, srcBase, stride, width, y) + orig[at..]
    {
      RowInSource(srcBase, y, rows, stride, width, |src|);
      MulMonotone(y + 1, rows, width);
      ghost var before := dst[..];
      CopyRow(dst, at, src, srcBase + Mul(y, stride), width);
      RowAppended(before, dst[..], orig[..dstBase], Rows(src, srcBase, stride, width, y),
                  Row(src, srcBase, stride, width, y), orig, at, width);
      assert Rows(src, srcBase, stride, width, y + 1)
          == Rows(src, srcBase, stride, width, y) + Row(src, srcBase, stride, width, y);
      at := at + width;
    }
  }

  /** What one row copy at `at` does to a buffer whose block from `|prefix|`
      holds `done`: the block grows by the row and nothing else moves. */
  lemma RowAppended(before: seq<byte>, after: seq<byte>, prefix: seq<byte>, done: seq<byte>,
                    row: seq<byte>, orig: seq<byte>, at: nat, n: nat)
    requires |prefix| + |done| == at && at + n <= |orig| == |before| == |after|
    requires before == prefix + done + orig[at..]
    requires after[..at] == before[..at] && after[at + n..] == before[at + n..]
    requires after[at..at + n] == row
    ensures after == prefix + (done + row) + orig[at + n..]
  {
    assert after[..at] == prefix + done;
    assert after == after[..at] + after[at..at + n] + after[at + n..];
  }

  /** A sequence cut in two places is the concatenation of its pieces. */
  lemma ThreePieces(b: seq<byte>, i: nat, j: nat)
    requires i <= j <= |b|
    ensures b == b[..i] + b[i..j] + b[j..]
  {
  }

  /** Three block copies into consecutive blocks of a buffer leave exactly
      the three blocks, back to back. */
  lemma ThreeCopies(s0: seq<byte>, s1: seq<byte>, s2: seq<byte>, s3: seq<byte>,
                    ys: seq<byte>, us: seq<byte>, vs: seq<byte>)
    requires |s0| == |ys| + |us| + |vs|
    requires s1 == s0[..0] + ys + s0[|ys|..]
    requires s2 == s1[..|ys|] + us + s1[|ys| + |us|..]
    requires s3 == s2[..|ys| + |us|] + vs + s2[|ys| + |us| + |vs|..]
    ensures s3 == ys + us + vs
  {
    assert s1[..|ys|] == ys;
    assert s2[..|ys| + |us|] == ys + us;
  }

  /** Builds the contiguous I420 buffer of a job, one row copy at a time. */
  method PackI420(job: CaptureJob) returns (planar: seq<byte>)
    requires JobFits(job)
    ensures planar == I420(job)
  {
    var w, h := job.width, job.height;
    var ySize := YSize(w, h);
    var uvSize := UVSize(w, h);
    var buf := new byte[ySize + uvSize + uvSize];
    ghost var s0 := buf[..];
    CopyPlane(buf, 0, w, h, job.yuvData, job.plane0Offset, job.yStride);
    ghost var s1 := buf[..];
    CopyPlane(buf, ySize, w / 2, h / 2, job.yuvData, job.plane1Offset, job.uvStride);
    ghost var s2 := buf[..];
    CopyPlane(buf, ySize + uvSize, w / 2, h / 2, job.yuvData, job.plane2Offset, job.uvStride);
    ThreeCopies(s0, s1, s2, buf[..],
      Rows(job.yuvData, job.plane0Offset, job.yStride, w, h),
      Rows(job.yuvData, job.plane1Offset, job.uvStride, w / 2, h / 2),
      Rows(job.yuvData, job.plane2Offset, job.uvStride, w / 2, h / 2));
    planar := buf[..];
  }
}
