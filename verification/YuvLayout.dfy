/**
  Where the samples of a YUV buffer lie, as the CPU lock and the mapper's metadata each
  compute it, and the size of the buffer the allocation asks for.  Offsets are products in
  32-bit unsigned arithmetic; the addresses a client forms from them are not.
 */
module YuvLayout {
  import opened IntMath
  import opened Wrappers
  import opened BoLock
  import opened Gralloc

  const RANGE := 0x1_0000_0000

  /** The value of a 32-bit unsigned computation whose exact result is `x`. */
  function U32(x: nat): (r: nat)
    ensures r < RANGE && r <= x
    ensures x < RANGE ==> r == x
  {
    if x < RANGE then x else U32(x - RANGE)
  }

  function Area(stride: nat, rows: nat): nat {
    stride * rows
  }

  // -------------------------------------------------- the alignment mask

  function And(a: nat, b: nat): nat
    decreases a
  {
    if a == 0 || b == 0 then 0
    else 2 * And(a / 2, b / 2) + if a % 2 == 1 && b % 2 == 1 then 1 else 0
  }

  function Pow2(k: nat): (p: nat)
    ensures p > 0
  {
    if k == 0 then 1 else 2 * Pow2(k - 1)
  }

  /** Add 15, then clear the low four bits with the 32-bit complement of 15. */
  function Align16(x: nat): nat {
    And(U32(x + 15), 0xFFFF_FFF0)
  }

  lemma {:induction false} AndOnes(a: nat, k: nat)
    requires a < Pow2(k)
    ensures And(a, Pow2(k) - 1) == a
  {
    if a != 0 {
      AndOnes(a / 2, k - 1);
      assert (Pow2(k) - 1) / 2 == Pow2(k - 1) - 1;
    }
  }

  lemma Pow2Of28()
    ensures Pow2(28) == 0x1000_0000
  {
    assert Pow2(4) == 16;
    assert Pow2(8) == 256;
    assert Pow2(12) == 0x1000;
    assert Pow2(16) == 0x1_0000;
    assert Pow2(20) == 0x10_0000;
    assert Pow2(24) == 0x100_0000;
  }

  lemma AndDouble(a: nat, m: nat)
    ensures And(a, 2 * m) == 2 * And(a / 2, m)
  {
    if a != 0 && m != 0 {
      assert 2 * m / 2 == m && 2 * m % 2 == 0;
    }
  }

  lemma MaskClearsLowBits(a: nat)
    requires a < RANGE
    ensures And(a, 0xFFFF_FFF0) == 16 * (a / 16)
  {
    AndDouble(a, 0x7FFF_FFF8);
    AndDouble(a / 2, 0x3FFF_FFFC);
    AndDouble(a / 4, 0x1FFF_FFFE);
    AndDouble(a / 8, 0x0FFF_FFFF);
    assert a / 2 / 2 == a / 4 && a / 4 / 2 == a / 8 && a / 8 / 2 == a / 16;
    Pow2Of28();
    AndOnes(a / 16, 28);
  }

  lemma LeastMultiple(x: nat, r: nat)
    requires r == 16 * ((x + 15) / 16)
    ensures r % 16 == 0 && x <= r < x + 16
    ensures forall m: nat | m % 16 == 0 && x <= m :: r <= m
  {
  }

  /** Absent overflow, the mask gives the least multiple of 16 not below its argument. */
  lemma Align16IsLeastMultiple(x: nat)
    requires x + 15 < RANGE
    ensures Align16(x) % 16 == 0 && x <= Align16(x) < x + 16
    ensures forall m: nat | m % 16 == 0 && x <= m :: Align16(x) <= m
  {
    MaskClearsLowBits(x + 15);
    LeastMultiple(x, Align16(x));
  }

  /** At the very top of the range the sum wraps, and the result is below the argument. */
  lemma Align16Wraps(x: nat)
    requires RANGE - 15 <= x < RANGE
    ensures Align16(x) == 0
  {
    assert U32(x + 15) == x + 15 - RANGE;
    MaskClearsLowBits(x + 15 - RANGE);
  }

  // -------------------------------------------------- the two computations

  /** Offsets from the mapped address, strides and chroma step of a CPU lock. */
  datatype Ycbcr = Ycbcr(y: nat, cb: nat, cr: nat, ystride: nat, cstride: nat, chromaStep: nat)

  function LockLayout(format: Format, w: nat, h: nat): Option<Ycbcr> {
    match format
    case YCbCr420Flexible =>
      var s := Align16(w); Some(Ycbcr(0, U32(Area(s, h)), U32(Area(s, h)) + 1, s, s, 2))
    case ImplementationDefined =>
      var s := Align16(w); Some(Ycbcr(0, U32(Area(s, h)), U32(Area(s, h)) + 1, s, s, 2))
    case YCrCb420Sp =>
      var s := Align16(w); Some(Ycbcr(0, U32(Area(s, h)) + 1, U32(Area(s, h)), s, s, 2))
    case Yv12 =>
      var c := Align16(w / 2); Some(Ycbcr(0, U32(Area(w, h)) + U32(Area(c, h)) / 2, U32(Area(w, h)), w, c, 1))
    case _ => None
  }

  /** gbm_lock_ycbcr: the format is looked at behind the lock. */
  method LockYcbcrBuffer(gralloc: GbmGralloc, h: Handle, usage: Usage, mapOk: bool) returns (err: int, ycbcr: Option<Ycbcr>)
    modifies gralloc
    ensures (gralloc.View(), err) == LockYcbcr(old(gralloc.View()), h, usage, mapOk)
    ensures ycbcr == if err == 0 then LockLayout(h.format, h.width, h.height) else None
    ensures err == 0 ==> ycbcr.Some?
  {
    err := gralloc.GbmLock(h, usage, mapOk);
    if err != 0 {
      return err, None;
    }
    ycbcr := LockLayout(h.format, h.width, h.height);
    if ycbcr.None? {
      err := -EINVAL;
    }
  }

  datatype Component = LumaY | ChromaCr | ChromaCb

  datatype PlaneLayout = PlaneLayout(
    component: Component, offset: nat, incrementBits: nat, stride: nat,
    widthInSamples: nat, heightInSamples: nat, total: nat, subsampling: nat)

  function LumaPlane(stride: nat, w: nat, h: nat): PlaneLayout {
    PlaneLayout(LumaY, 0, 8, stride, w, h, U32(Area(stride, h)), 1)
  }

  function ChromaPlane(component: Component, offset: nat, incrementBits: nat, stride: nat, w: nat, h: nat): PlaneLayout {
    PlaneLayout(component, offset, incrementBits, stride, w / 2, h / 2, U32(Area(Align16(w / 2), h)) / 2, 2)
  }

  function PlaneLayouts(format: Format, w: nat, h: nat): Option<seq<PlaneLayout>> {
    match format
    case YCbCr420Flexible => Some(SemiPlanarLayouts(w, h, 1, 0))
    case ImplementationDefined => Some(SemiPlanarLayouts(w, h, 1, 0))
    case YCrCb420Sp => Some(SemiPlanarLayouts(w, h, 0, 1))
    case Yv12 =>
      var c := Align16(w / 2);
      Some([LumaPlane(w, w, h),
            ChromaPlane(ChromaCr, U32(Area(w, h)), 8, c, w, h),
            ChromaPlane(ChromaCb, U32(U32(Area(w, h)) + U32(Area(c, h)) / 2), 8, c, w, h)])
    case _ => None
  }

  function SemiPlanarLayouts(w: nat, h: nat, crAt: nat, cbAt: nat): seq<PlaneLayout> {
    var s := Align16(w);
    [LumaPlane(s, w, h),
     ChromaPlane(ChromaCr, U32(U32(Area(s, h)) + crAt), 16, s, w, h),
     ChromaPlane(ChromaCb, U32(U32(Area(s, h)) + cbAt), 16, s, w, h)]
  }

  // -------------------------------------------------- samples and their bytes

  datatype Sample = Sample(plane: Component, row: nat, col: nat)

  predicate InPicture(s: Sample, w: nat, h: nat) {
    if s.plane.LumaY? then s.row < h && s.col < w else s.row < h / 2 && s.col < w / 2
  }

  function LockAddress(l: Ycbcr, s: Sample): nat {
    match s.plane
    case LumaY => l.y + s.row * l.ystride + s.col
    case ChromaCr => l.cr + s.row * l.cstride + s.col * l.chromaStep
    case ChromaCb => l.cb + s.row * l.cstride + s.col * l.chromaStep
  }

  function PlaneAddress(p: PlaneLayout, row: nat, col: nat): nat {
    p.offset + row * p.stride + col * (p.incrementBits / 8)
  }

  function PlaneOf(planes: seq<PlaneLayout>, c: Component): PlaneLayout
    requires |planes| == 3
  {
    if c.LumaY? then planes[0] else if c.ChromaCr? then planes[1] else planes[2]
  }

  function LayoutAddress(planes: seq<PlaneLayout>, s: Sample): nat
    requires |planes| == 3
  {
    PlaneAddress(PlaneOf(planes, s.plane), s.row, s.col)
  }

  /** Dimensions come from signed 32-bit values, and the aligned width is one again. */
  predicate IsSize(w: nat, h: nat) {
    w + 15 < RANGE / 2 && h < RANGE / 2
  }

  lemma Aligned(w: nat, h: nat)
    requires IsSize(w, h)
    ensures Align16(w) % 16 == 0 && w <= Align16(w) < w + 16
    ensures Align16(w / 2) % 16 == 0 && w / 2 <= Align16(w / 2) < w / 2 + 16
  {
    Align16IsLeastMultiple(w);
    Align16IsLeastMultiple(w / 2);
  }

  lemma {:induction false} WrapKeepsMultiple(x: nat)
    requires x % 16 == 0
    ensures U32(x) % 16 == 0
  {
    if x >= RANGE {
      WrapKeepsMultiple(x - RANGE);
    }
  }

  lemma MultipleOf16(s: nat, h: nat)
    requires s % 16 == 0
    ensures U32(Area(s, h)) % 16 == 0
  {
    var k := s / 16;
    assert s * h == 16 * (k * h);
    WrapKeepsMultiple(s * h);
  }

  // -------------------------------------------------- what the planes describe

  /** A lock has a layout, and the metadata has one, for exactly the formats that a YCbCr lock accepts. */
  lemma LayoutIffYcbcr(format: Format, w: nat, h: nat)
    ensures LockLayout(format, w, h).Some? <==> YcbcrFormat(format)
    ensures PlaneLayouts(format, w, h).Some? <==> YcbcrFormat(format)
  {
  }

  /** The planes are those of Y, Cr and Cb; each counts exactly the samples of the picture in its
      component, at the subsampling it states, and its total is its rows, for chroma half the rows
      of the planar stride. */
  lemma PlanesDescribePicture(format: Format, w: nat, h: nat, s: Sample)
    requires YcbcrFormat(format)
    ensures var planes := PlaneLayouts(format, w, h).value; var p := PlaneOf(planes, s.plane);
      && p.component == s.plane
      && (InPicture(s, w, h) <==> s.row < p.heightInSamples && s.col < p.widthInSamples)
      && p.subsampling == (if s.plane.LumaY? then 1 else 2)
      && p.widthInSamples == w / p.subsampling && p.heightInSamples == h / p.subsampling
      && p.total == if s.plane.LumaY? then U32(Area(p.stride, h)) else U32(Area(Align16(w / 2), h)) / 2
  {
  }

  /** Which chroma component comes first: Cb next to Cr in the flexible formats, Cr next to Cb in
      YCrCb 4:2:0, and the Cr plane before the Cb plane in YV12. */
  lemma ChromaOrder(format: Format, w: nat, h: nat)
    requires YcbcrFormat(format)
    ensures var l := LockLayout(format, w, h).value;
      && l.y == 0
      && (format.YCbCr420Flexible? || format.ImplementationDefined? ==> l.cr == l.cb + 1)
      && (format.YCrCb420Sp? ==> l.cb == l.cr + 1)
      && (format.Yv12? ==> l.cr == U32(Area(w, h)) && l.cb == l.cr + U32(Area(Align16(w / 2), h)) / 2)
  {
  }

  // -------------------------------------------------- the two agree

  /** Where the Cb plane of YV12 starts, before the offset is cut to 32 bits. */
  function CbStart(w: nat, h: nat): nat {
    U32(Area(w, h)) + U32(Area(Align16(w / 2), h)) / 2
  }

  ghost predicate Agree(format: Format, w: nat, h: nat)
    requires YcbcrFormat(format)
  {
    forall s: Sample ::
      LockAddress(LockLayout(format, w, h).value, s) == LayoutAddress(PlaneLayouts(format, w, h).value, s)
  }

  lemma SemiPlanarLumaArea(w: nat, h: nat)
    requires IsSize(w, h)
    ensures U32(Area(Align16(w), h)) + 1 < RANGE
  {
    Aligned(w, h);
    MultipleOf16(Align16(w), h);
  }

  lemma SemiPlanarSampleAgrees(format: Format, w: nat, h: nat, base: nat, s: Sample)
    requires YcbcrFormat(format) && !format.Yv12?
    requires base == U32(Area(Align16(w), h)) && base + 1 < RANGE
    ensures LockAddress(LockLayout(format, w, h).value, s) == LayoutAddress(PlaneLayouts(format, w, h).value, s)
  {
    assert U32(base) == base && U32(base + 1) == base + 1;
  }

  lemma SemiPlanarAgree(format: Format, w: nat, h: nat, base: nat)
    requires YcbcrFormat(format) && !format.Yv12?
    requires base == U32(Area(Align16(w), h)) && base + 1 < RANGE
    ensures Agree(format, w, h)
  {
    forall s: Sample
      ensures LockAddress(LockLayout(format, w, h).value, s) == LayoutAddress(PlaneLayouts(format, w, h).value, s)
    {
      SemiPlanarSampleAgrees(format, w, h, base, s);
    }
  }

  lemma Yv12Agree(w: nat, h: nat)
    requires CbStart(w, h) < RANGE
    ensures Agree(Yv12, w, h)
  {
  }

  lemma Yv12Disagrees(w: nat, h: nat)
    requires CbStart(w, h) >= RANGE
    ensures !Agree(Yv12, w, h)
  {
    var s := Sample(ChromaCb, 0, 0);
    assert LockAddress(LockLayout(Yv12, w, h).value, s) != LayoutAddress(PlaneLayouts(Yv12, w, h).value, s);
  }

  /** Lock and metadata place every sample alike, at every size, except that the Cb plane of
      YV12 differs when the planes before it do not fit 32 bits. */
  lemma LayoutsAgreeIff(format: Format, w: nat, h: nat)
    requires YcbcrFormat(format) && IsSize(w, h)
    ensures Agree(format, w, h) <==> (format.Yv12? ==> CbStart(w, h) < RANGE)
  {
    if !format.Yv12? {
      SemiPlanarLumaArea(w, h);
      SemiPlanarAgree(format, w, h, U32(Area(Align16(w), h)));
    } else if CbStart(w, h) < RANGE {
      Yv12Agree(w, h);
    } else {
      Yv12Disagrees(w, h);
    }
  }

  /** Unless the sizes wrap, the YV12 planes follow each other without gap or overlap. */
  lemma Yv12PlanesTile(w: nat, h: nat)
    requires IsSize(w, h) && CbStart(w, h) < RANGE
    ensures var p := PlaneLayouts(Yv12, w, h).value;
      p[0].offset + p[0].total == p[1].offset && p[1].offset + p[1].total == p[2].offset
  {
  }
}
