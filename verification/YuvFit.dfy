/**
  The size of the buffer requested for a YUV image, and exactly which images lie in it
  whatever stride the driver grants.
 */
module YuvFit {
  import opened IntMath
  import opened Wrappers
  import opened Gralloc
  import opened YuvLayout
  import opened YuvSamples

  /** Width and height in pixels of 16 bits; planar YV12 is folded into rows of half the width. */
  function Requested(format: Format, w: nat, h: nat): (nat, nat) {
    if format.Yv12? then (w / 2, h + h / 2) else (w, h)
  }

  ghost predicate Fits(format: Format, w: nat, h: nat, stride: nat)
    requires YcbcrFormat(format)
  {
    forall s: Sample | InPicture(s, w, h) ::
      LockAddress(LockLayout(format, w, h).value, s) < stride * Requested(format, w, h).1
  }

  /** The driver grants rows of at least the requested pixels. */
  ghost predicate FitsAnyStride(format: Format, w: nat, h: nat)
    requires YcbcrFormat(format)
  {
    forall stride: nat | stride >= 2 * Requested(format, w, h).0 :: Fits(format, w, h, stride)
  }

  /** The bytes of the smallest buffer that the driver may grant. */
  function SmallestBuffer(format: Format, w: nat, h: nat): nat {
    2 * Requested(format, w, h).0 * Requested(format, w, h).1
  }

  // -------------------------------------------------- the stride in pixels

  /** Bytes of a pixel of the driver format that a format is allocated as; 0 if there is none. */
  function DriverBytes(format: Format): nat {
    match format
    case Rgba8888 => 4
    case Rgbx8888 => 4
    case Bgra8888 => 4
    case Rgb565 => 2
    case YCbCr420Flexible => 2
    case ImplementationDefined => 2
    case Yv12 => 2
    case Blob => 1
    case _ => 0
  }

  /** The stride in pixels that an allocation returns covers the width, up to the odd column that
      folding YV12 drops, and is just that width if the driver pads nothing. */
  lemma PixelStrideCoversWidth(format: Format, w: nat, h: nat, byteStride: nat)
    requires DriverBytes(format) != 0 && byteStride >= DriverBytes(format) * Requested(format, w, h).0
    ensures BytesPerPixel(format) != 0
    ensures byteStride / BytesPerPixel(format) >= if format.Yv12? then w - w % 2 else w
    ensures byteStride == DriverBytes(format) * Requested(format, w, h).0 ==>
              byteStride / BytesPerPixel(format) == if format.Yv12? then w - w % 2 else w
  {
  }

  // -------------------------------------------------- the last sample of each plane

  predicate HasPlane(plane: Component, w: nat, h: nat) {
    if plane.LumaY? then w > 0 && h > 0 else HasChroma(w, h)
  }

  function LastSample(plane: Component, w: nat, h: nat): Sample
    requires HasPlane(plane, w, h)
  {
    if plane.LumaY? then Sample(plane, h - 1, w - 1) else Sample(plane, h / 2 - 1, w / 2 - 1)
  }

  lemma RowsMono(s: nat, step: nat, r: nat, c: nat, lastRow: nat, lastCol: nat)
    requires r <= lastRow && c <= lastCol
    ensures r * s + c * step <= lastRow * s + lastCol * step
  {
    MulMono(s, r, lastRow);
    MulMono(step, c, lastCol);
  }

  lemma LastIsLargest(l: Ycbcr, w: nat, h: nat, s: Sample)
    requires InPicture(s, w, h)
    ensures HasPlane(s.plane, w, h)
    ensures LockAddress(l, s) <= LockAddress(l, LastSample(s.plane, w, h))
  {
    var last := LastSample(s.plane, w, h);
    if s.plane.LumaY? {
      RowsMono(l.ystride, 1, s.row, s.col, last.row, last.col);
    } else {
      RowsMono(l.cstride, l.chromaStep, s.row, s.col, last.row, last.col);
    }
  }

  ghost predicate LastSamplesFit(format: Format, w: nat, h: nat)
    requires YcbcrFormat(format)
  {
    forall p: Component | HasPlane(p, w, h) ::
      LockAddress(LockLayout(format, w, h).value, LastSample(p, w, h)) < SmallestBuffer(format, w, h)
  }

  lemma LastSamplesSuffice(format: Format, w: nat, h: nat, stride: nat)
    requires YcbcrFormat(format) && LastSamplesFit(format, w, h) && stride >= 2 * Requested(format, w, h).0
    ensures Fits(format, w, h, stride)
  {
    var l, rows := LockLayout(format, w, h).value, Requested(format, w, h).1;
    MulMono(rows, 2 * Requested(format, w, h).0, stride);
    assert rows * stride == stride * rows;
    forall s: Sample | InPicture(s, w, h) ensures LockAddress(l, s) < stride * rows {
      LastIsLargest(l, w, h, s);
    }
  }

  /** An image of any format and size lies in its buffer at every stride granted exactly if the
      last sample of each plane it has lies in the smallest buffer. */
  lemma FitsIffLastSamplesDo(format: Format, w: nat, h: nat)
    requires YcbcrFormat(format)
    ensures FitsAnyStride(format, w, h) <==> LastSamplesFit(format, w, h)
  {
    if FitsAnyStride(format, w, h) {
      assert Fits(format, w, h, 2 * Requested(format, w, h).0);
      forall p: Component | HasPlane(p, w, h)
        ensures LockAddress(LockLayout(format, w, h).value, LastSample(p, w, h)) < SmallestBuffer(format, w, h)
      {
        assert InPicture(LastSample(p, w, h), w, h);
      }
    }
    if LastSamplesFit(format, w, h) {
      forall stride: nat | stride >= 2 * Requested(format, w, h).0 ensures Fits(format, w, h, stride) {
        LastSamplesSuffice(format, w, h, stride);
      }
    }
  }

  // -------------------------------------------------- YV12

  lemma WholeRows(w: nat, h: nat)
    requires h > 0
    ensures Area(h - 1, w) + w == Area(w, h)
  {
  }

  lemma Yv12Last(w: nat, h: nat)
    ensures w > 0 && h > 0 ==> LockAddress(LockLayout(Yv12, w, h).value, LastSample(LumaY, w, h)) == Area(w, h) - 1
    ensures HasChroma(w, h) ==>
      var l := LockLayout(Yv12, w, h).value; var cb := LockAddress(l, LastSample(ChromaCb, w, h));
      && cb == CbStart(w, h) + Area(h / 2 - 1, Align16(w / 2)) + w / 2 - 1
      && LockAddress(l, LastSample(ChromaCr, w, h)) <= cb
  {
    if h > 0 {
      WholeRows(w, h);
    }
  }

  /** A YV12 image of any size, wrapped offsets included, lies in its buffer at every stride
      granted exactly if its luma plane and its last Cb sample do. */
  lemma Yv12FitsIff(w: nat, h: nat)
    ensures FitsAnyStride(Yv12, w, h) <==>
      && Area(w, h) <= SmallestBuffer(Yv12, w, h)
      && (HasChroma(w, h) ==>
            CbStart(w, h) + Area(h / 2 - 1, Align16(w / 2)) + w / 2 <= SmallestBuffer(Yv12, w, h))
  {
    FitsIffLastSamplesDo(Yv12, w, h);
    Yv12Last(w, h);
    assert w == 0 || h == 0 ==> Area(w, h) == 0;
    assert LastSamplesFit(Yv12, w, h) ==>
        (HasPlane(LumaY, w, h) ==>
           LockAddress(LockLayout(Yv12, w, h).value, LastSample(LumaY, w, h)) < SmallestBuffer(Yv12, w, h))
        && (HasPlane(ChromaCb, w, h) ==>
              LockAddress(LockLayout(Yv12, w, h).value, LastSample(ChromaCb, w, h)) < SmallestBuffer(Yv12, w, h));
  }

  // -------------------------------------------------- YV12 without wrap

  predicate Yv12SizeFits(w: nat, h: nat) {
    w == 0 || h == 0 || (w % 2 == 0 && h == 1) || (w % 32 == 0 && h % 2 == 0)
  }

  lemma OverrunPolynomial(hw: int, n: int, u: int, e: int, k: int)
    ensures (2 * hw + u) * (2 * n + e) + k * (2 * n + e) + (n - 1) * (2 * k) + hw - 2 * hw * (2 * n + e + n)
      == u * (2 * n + e) + (2 * n - 1) * (2 * k - hw) + e * k
  {
  }

  lemma Halve(c: nat, h: nat)
    requires c % 2 == 0
    ensures c * h / 2 == c / 2 * h
  {
    var k := c / 2;
    assert c * h == 2 * (k * h);
  }

  /** How far the last Cb sample passes the end of the smallest buffer, exactly. */
  lemma Overrun(w: nat, h: nat, c: nat, end: int)
    requires c % 2 == 0
    requires end == w * h + c * h / 2 + (h / 2 - 1) * c + w / 2
    ensures end - 2 * (w / 2) * (h + h / 2) == w % 2 * h + (2 * (h / 2) - 1) * (c - w / 2) + h % 2 * (c / 2)
  {
    Halve(c, h);
    OverrunPolynomial(w / 2, h / 2, w % 2, h % 2, c / 2);
  }

  lemma TermsVanish(u: nat, h: nat, m: nat, d: nat, e: nat, k: nat)
    requires h >= 1 && m >= 1 && k >= 1
    ensures u * h + m * d + e * k <= 0 <==> u == 0 && d == 0 && e == 0
  {
    MulMono(u, 1, h);
    MulMono(d, 1, m);
    MulMono(e, 1, k);
    assert d * m == m * d && u * 1 == u && d * 1 == d && e * 1 == e;
  }

  lemma ExactlyAligned(w: nat, c: nat)
    requires c % 16 == 0 && w / 2 <= c < w / 2 + 16
    ensures w % 2 == 0 && c == w / 2 <==> w % 32 == 0
  {
    var k := c / 16;
    assert c == 16 * k;
  }

  lemma OverrunDecides(w: nat, h: nat, c: nat, end: int)
    requires w >= 2 && h >= 2 && c % 16 == 0 && w / 2 <= c < w / 2 + 16
    requires end == w * h + c * h / 2 + (h / 2 - 1) * c + w / 2
    ensures end <= 2 * (w / 2) * (h + h / 2) <==> w % 32 == 0 && h % 2 == 0
  {
    Overrun(w, h, c, end);
    TermsVanish(w % 2, h, 2 * (h / 2) - 1, c - w / 2, h % 2, c / 2);
    ExactlyAligned(w, c);
  }

  /** The computations of the layout, when none of them wraps. */
  predicate NoWrap(w: nat, h: nat) {
    Area(w, h) < RANGE && Area(Align16(w / 2), h) < RANGE
  }

  lemma Unwrapped(w: nat, h: nat, c: nat)
    requires NoWrap(w, h) && c == Align16(w / 2) && h >= 2
    ensures CbStart(w, h) + Area(h / 2 - 1, c) + w / 2 == w * h + c * h / 2 + (h / 2 - 1) * c + w / 2
    ensures SmallestBuffer(Yv12, w, h) == 2 * (w / 2) * (h + h / 2)
  {
  }

  lemma ThickPicture(w: nat, h: nat)
    requires IsSize(w, h) && NoWrap(w, h) && HasChroma(w, h)
    ensures CbStart(w, h) + Area(h / 2 - 1, Align16(w / 2)) + w / 2 <= SmallestBuffer(Yv12, w, h) <==> Yv12SizeFits(w, h)
  {
    var c := Align16(w / 2);
    Aligned(w, h);
    Unwrapped(w, h, c);
    OverrunDecides(w, h, c, CbStart(w, h) + Area(h / 2 - 1, c) + w / 2);
  }

  lemma ThinPicture(w: nat, h: nat)
    requires w < 2 || h < 2
    ensures Area(w, h) <= SmallestBuffer(Yv12, w, h) <==> Yv12SizeFits(w, h)
  {
    if h == 1 {
      assert SmallestBuffer(Yv12, w, 1) == 2 * (w / 2);
    } else {
      assert h == 0 ==> Area(w, h) == 0;
    }
  }

  lemma LumaFits(w: nat, h: nat)
    requires w % 2 == 0
    ensures Area(w, h) <= SmallestBuffer(Yv12, w, h)
  {
    MulMono(w, h, h + h / 2);
  }

  /** Absent wrap these are: no image at all, one row of even width, or a width that is a multiple
      of 32 and an even height. */
  lemma Yv12FitsUnwrappedIff(w: nat, h: nat)
    requires IsSize(w, h) && NoWrap(w, h)
    ensures FitsAnyStride(Yv12, w, h) <==> Yv12SizeFits(w, h)
  {
    Yv12FitsIff(w, h);
    if HasChroma(w, h) {
      ThickPicture(w, h);
      if w % 2 == 0 {
        LumaFits(w, h);
      }
    } else {
      ThinPicture(w, h);
    }
  }

  // -------------------------------------------------- 4:2:0 with interleaved chroma

  predicate Flexible(format: Format) {
    format.YCbCr420Flexible? || format.ImplementationDefined?
  }

  lemma FlexibleLast(format: Format, w: nat, h: nat)
    requires Flexible(format)
    ensures var a := Align16(w); var l := LockLayout(format, w, h).value;
      && (w > 0 && h > 0 ==> LockAddress(l, LastSample(LumaY, w, h)) == Area(h - 1, a) + w - 1)
      && (HasChroma(w, h) ==>
            var cr := LockAddress(l, LastSample(ChromaCr, w, h));
            && cr == U32(Area(a, h)) + Area(h / 2 - 1, a) + 2 * (w / 2) - 1
            && LockAddress(l, LastSample(ChromaCb, w, h)) <= cr)
  {
  }

  /** An interleaved 4:2:0 image of any size, wrapped offset included, lies in its buffer at every
      stride granted exactly if its last luma and its last Cr sample do. */
  lemma FlexibleFitsIff(format: Format, w: nat, h: nat)
    requires Flexible(format)
    ensures var a := Align16(w);
      FitsAnyStride(format, w, h) <==>
      && (w > 0 && h > 0 ==> Area(h - 1, a) + w <= 2 * w * h)
      && (HasChroma(w, h) ==> U32(Area(a, h)) + Area(h / 2 - 1, a) + 2 * (w / 2) <= 2 * w * h)
  {
    FitsIffLastSamplesDo(format, w, h);
    FlexibleLast(format, w, h);
    assert LastSamplesFit(format, w, h) ==>
        (HasPlane(LumaY, w, h) ==>
           LockAddress(LockLayout(format, w, h).value, LastSample(LumaY, w, h)) < SmallestBuffer(format, w, h))
        && (HasPlane(ChromaCr, w, h) ==>
              LockAddress(LockLayout(format, w, h).value, LastSample(ChromaCr, w, h)) < SmallestBuffer(format, w, h));
  }

  // -------------------------------------------------- widths that fit at every height

  ghost predicate FitsEveryHeight(format: Format, w: nat)
    requires Flexible(format)
  {
    forall h: nat | IsSize(w, h) :: FitsAnyStride(format, w, h)
  }

  lemma ThreeHalves(a: nat, w: nat, h: nat)
    requires 3 * a <= 4 * w
    ensures a * h + a * (h / 2) <= 2 * w * h
  {
    var ah, half := a * h, a * (h / 2);
    MulMono(a, 2 * (h / 2), h);
    assert a * (2 * (h / 2)) == 2 * half;
    MulMono(h, 3 * a, 4 * w);
    assert h * (3 * a) == 3 * ah && h * (4 * w) == 2 * (2 * w * h);
  }

  lemma RowBefore(a: nat, n: nat)
    requires n > 0
    ensures Area(n - 1, a) == a * n - a
  {
  }

  lemma WideArithmetic(w: nat, h: nat, a: nat, u: nat)
    requires w <= a && 3 * a <= 4 * w && u <= Area(a, h)
    ensures h > 0 ==> Area(h - 1, a) + w <= 2 * w * h
    ensures h >= 2 ==> u + Area(h / 2 - 1, a) + 2 * (w / 2) <= 2 * w * h
  {
    ThreeHalves(a, w, h);
    assert a * (h / 2) >= 0;
    if h > 0 {
      RowBefore(a, h);
    }
    if h >= 2 {
      RowBefore(a, h / 2);
    }
  }

  lemma WideEnough(format: Format, w: nat)
    requires Flexible(format) && w <= Align16(w) && 3 * Align16(w) <= 4 * w
    ensures FitsEveryHeight(format, w)
  {
    forall h: nat | IsSize(w, h) ensures FitsAnyStride(format, w, h) {
      FlexibleFitsIff(format, w, h);
      WideArithmetic(w, h, Align16(w), U32(Area(Align16(w), h)));
    }
  }

  lemma TallColumn(a: nat)
    requires a >= 16
    ensures Area(2 * a - 1, a) + 1 > 2 * (2 * a)
  {
    MulMono(a, 4, 2 * a - 1);
  }

  lemma TallRows(w: nat, a: nat)
    requires w >= 2 && a >= 16 && 3 * a > 4 * w
    ensures Area(a, 2 * a) + Area(a - 1, a) + 2 * (w / 2) > 2 * w * (2 * a)
  {
    var square := a * a;
    assert Area(a, 2 * a) == 2 * square && Area(a - 1, a) == square - a;
    MulMono(a, 4 * w, 3 * a - 1);
    assert a * (3 * a - 1) == 3 * square - a && a * (4 * w) == 2 * w * (2 * a);
  }

  /** Of a tall image, twice as high as a row is long, the last sample passes the end. */
  lemma TallImageOverruns(format: Format, w: nat, a: nat)
    requires Flexible(format) && IsSize(w, 0) && a == Align16(w) && a % 16 == 0 && w <= a < w + 16 && 3 * a > 4 * w
    ensures !FitsEveryHeight(format, w)
  {
    var h := 2 * a;
    assert 16 <= a < 64;
    FlexibleFitsIff(format, w, h);
    MulMono(a, h, 128);
    if w == 1 {
      TallColumn(a);
    } else {
      TallRows(w, a);
    }
    assert IsSize(w, h) && !FitsAnyStride(format, w, h);
  }

  lemma AlignedThirds(w: nat, a: nat)
    requires a % 16 == 0 && w <= a < w + 16
    ensures 3 * a <= 4 * w <==> w == 0 || 12 <= w <= 16 || 24 <= w <= 32 || 36 <= w
  {
    var k := a / 16;
    assert a == 16 * k;
  }

  /** The widths at which an interleaved 4:2:0 image fits whatever its height. */
  lemma FlexibleWidthFitsIff(format: Format, w: nat)
    requires Flexible(format) && IsSize(w, 0)
    ensures FitsEveryHeight(format, w) <==> w == 0 || 12 <= w <= 16 || 24 <= w <= 32 || 36 <= w
  {
    Aligned(w, 0);
    var a := Align16(w);
    AlignedThirds(w, a);
    if 3 * a <= 4 * w {
      WideEnough(format, w);
    } else {
      TallImageOverruns(format, w, a);
    }
  }
}
