/** For exactly which sizes no two samples of a locked YUV buffer share a byte. */
module YuvSamples {
  import opened IntMath
  import opened Wrappers
  import opened Gralloc
  import opened YuvLayout

  // -------------------------------------------------- rows and columns

  lemma RowCol(s: nat, r1: nat, c1: nat, r2: nat, c2: nat)
    requires c1 < s && c2 < s && r1 * s + c1 == r2 * s + c2
    ensures r1 == r2 && c1 == c2
  {
    ModUnique(r1 * s + c1, s, r1, c1);
    ModUnique(r1 * s + c1, s, r2, c2);
  }

  lemma InRows(s: nat, r: nat, c: nat, h: nat)
    requires r < h && c < s
    ensures r * s + c < s * h
  {
    assert s * h == s * (h - 1 - r) + r * s + s;
  }

  /** Where a byte offset below s * h falls. */
  lemma RowOf(s: nat, b: nat, h: nat) returns (r: nat, c: nat)
    requires s > 0 && b < s * h
    ensures b == r * s + c && c < s && r < h
  {
    r, c := b / s, b % s;
    assert b == s * r + c;
    assert s * r == s * h + s * (r - h);
  }

  // -------------------------------------------------- no shared bytes

  ghost predicate Injective(format: Format, w: nat, h: nat)
    requires YcbcrFormat(format)
  {
    var l := LockLayout(format, w, h).value;
    forall a: Sample, b: Sample | InPicture(a, w, h) && InPicture(b, w, h) && LockAddress(l, a) == LockAddress(l, b) ::
      a == b
  }

  ghost predicate Collide(format: Format, w: nat, h: nat, a: Sample, b: Sample)
    requires YcbcrFormat(format)
  {
    InPicture(a, w, h) && InPicture(b, w, h) && a != b
    && LockAddress(LockLayout(format, w, h).value, a) == LockAddress(LockLayout(format, w, h).value, b)
  }

  predicate HasChroma(w: nat, h: nat) {
    w >= 2 && h >= 2
  }

  /** In a semi-planar layout both chroma planes fill one block of rows behind the luma rows,
      two bytes a column: `k` is 0 for the plane that comes first and 1 for the other. */
  ghost predicate SemiPlanar(l: Ycbcr, s: nat, h: nat, k: Component -> nat) {
    && l.y == 0 && l.ystride == l.cstride == s && l.chromaStep == 2
    && k(ChromaCb) <= 1 && k(ChromaCr) == 1 - k(ChromaCb)
    && l.cb == s * h + k(ChromaCb) && l.cr == s * h + k(ChromaCr)
  }

  lemma ChromaPair(l: Ycbcr, w: nat, h: nat, s: nat, k: Component -> nat, a: Sample, b: Sample)
    requires SemiPlanar(l, s, h, k) && w <= s && !a.plane.LumaY? && !b.plane.LumaY?
    requires InPicture(a, w, h) && InPicture(b, w, h) && LockAddress(l, a) == LockAddress(l, b)
    ensures a == b
  {
    var ca, cb := 2 * a.col + k(a.plane), 2 * b.col + k(b.plane);
    assert LockAddress(l, a) == s * h + (a.row * s + ca) && LockAddress(l, b) == s * h + (b.row * s + cb);
    RowCol(s, a.row, ca, b.row, cb);
    assert ca % 2 == k(a.plane) && cb % 2 == k(b.plane);
  }

  lemma LumaPair(l: Ycbcr, w: nat, h: nat, s: nat, k: Component -> nat, a: Sample, b: Sample)
    requires SemiPlanar(l, s, h, k) && w <= s && a.plane.LumaY? && b.plane.LumaY?
    requires InPicture(a, w, h) && InPicture(b, w, h) && LockAddress(l, a) == LockAddress(l, b)
    ensures a == b
  {
    RowCol(s, a.row, a.col, b.row, b.col);
  }

  lemma LumaBeforeChroma(l: Ycbcr, w: nat, h: nat, s: nat, k: Component -> nat, a: Sample, b: Sample)
    requires SemiPlanar(l, s, h, k) && w <= s && a.plane.LumaY? && !b.plane.LumaY? && InPicture(a, w, h)
    ensures LockAddress(l, a) < s * h <= LockAddress(l, b)
  {
    InRows(s, a.row, a.col, h);
    assert b.row * s >= 0;
  }

  lemma SemiPlanarPair(l: Ycbcr, w: nat, h: nat, s: nat, k: Component -> nat, a: Sample, b: Sample)
    requires SemiPlanar(l, s, h, k) && w <= s
    requires InPicture(a, w, h) && InPicture(b, w, h) && LockAddress(l, a) == LockAddress(l, b)
    ensures a == b
  {
    if a.plane.LumaY? && b.plane.LumaY? {
      LumaPair(l, w, h, s, k, a, b);
    } else if a.plane.LumaY? {
      LumaBeforeChroma(l, w, h, s, k, a, b);
    } else if b.plane.LumaY? {
      LumaBeforeChroma(l, w, h, s, k, b, a);
    } else {
      ChromaPair(l, w, h, s, k, a, b);
    }
  }

  lemma SemiPlanarInjective(format: Format, w: nat, h: nat)
    requires YcbcrFormat(format) && !format.Yv12? && IsSize(w, h)
    requires !HasChroma(w, h) || Align16(w) * h < RANGE
    ensures Injective(format, w, h)
  {
    Aligned(w, h);
    var l := LockLayout(format, w, h).value;
    forall a: Sample, b: Sample | InPicture(a, w, h) && InPicture(b, w, h) && LockAddress(l, a) == LockAddress(l, b)
      ensures a == b
    {
      if HasChroma(w, h) {
        SemiPlanarPair(l, w, h, Align16(w), (p: Component) => if p.ChromaCr? == format.YCrCb420Sp? then 0 else 1, a, b);
      } else {
        RowCol(Align16(w), a.row, a.col, b.row, b.col);
      }
    }
  }

  /** Once the chroma offset wraps, the first chroma sample falls on a luma sample. */
  lemma SemiPlanarCollides(format: Format, w: nat, h: nat) returns (a: Sample, b: Sample)
    requires YcbcrFormat(format) && !format.Yv12? && IsSize(w, h)
    requires HasChroma(w, h) && Align16(w) * h >= RANGE
    ensures Collide(format, w, h, a, b)
  {
    Aligned(w, h);
    var s := Align16(w);
    MultipleOf16(s, h);
    var r, c := RowOf(s, U32(s * h), h);
    WrappedColumn(s, r, c, U32(s * h));
    a := Sample(LumaY, r, c);
    b := Sample(if format.YCrCb420Sp? then ChromaCr else ChromaCb, 0, 0);
  }

  lemma WrappedColumn(s: nat, r: nat, c: nat, b: nat)
    requires s % 16 == 0 && b % 16 == 0 && b == r * s + c && c < s
    ensures c + 16 <= s
  {
    var k := s / 16;
    assert r * s == 16 * (r * k);
    assert c % 16 == 0;
  }

  /** Semi-planar formats: no two samples share a byte exactly when there is no chroma or the
      luma plane is smaller than 2^32 bytes. */
  lemma SemiPlanarInjectiveIff(format: Format, w: nat, h: nat)
    requires YcbcrFormat(format) && !format.Yv12? && IsSize(w, h)
    ensures Injective(format, w, h) <==> (HasChroma(w, h) ==> Align16(w) * h < RANGE)
  {
    if HasChroma(w, h) && Align16(w) * h >= RANGE {
      var a, b := SemiPlanarCollides(format, w, h);
    } else {
      SemiPlanarInjective(format, w, h);
    }
  }

  // -------------------------------------------------- planar YV12

  /** Distance of the Cb plane from the Cr plane. */
  function CbDistance(w: nat, h: nat): nat {
    U32(Area(Align16(w / 2), h)) / 2
  }

  /** The Cb plane starts behind the last row of the Cr plane, or never meets it because the
      narrow rows of the two interleave. */
  predicate ChromaApart(w: nat, h: nat) {
    w >= 16 || h < 0x1000_0000 || h % 2 == 1
  }

  ghost predicate Planar(l: Ycbcr, w: nat, h: nat, c: nat, x: nat) {
    l == Ycbcr(0, w * h + x, w * h, w, c, 1) && w / 2 <= c
  }

  lemma SamePlane(l: Ycbcr, w: nat, h: nat, c: nat, x: nat, a: Sample, b: Sample)
    requires Planar(l, w, h, c, x) && a.plane == b.plane
    requires InPicture(a, w, h) && InPicture(b, w, h) && LockAddress(l, a) == LockAddress(l, b)
    ensures a == b
  {
    RowCol(if a.plane.LumaY? then w else c, a.row, a.col, b.row, b.col);
  }

  lemma LumaBelowChroma(l: Ycbcr, w: nat, h: nat, c: nat, x: nat, a: Sample, b: Sample)
    requires Planar(l, w, h, c, x) && a.plane.LumaY? && !b.plane.LumaY? && InPicture(a, w, h)
    ensures LockAddress(l, a) < w * h <= LockAddress(l, b)
  {
    InRows(w, a.row, a.col, h);
    assert b.row * c >= 0;
  }

  lemma Yv12Pair(l: Ycbcr, w: nat, h: nat, c: nat, x: nat, a: Sample, b: Sample)
    requires Planar(l, w, h, c, x)
    requires InPicture(a, w, h) && InPicture(b, w, h) && LockAddress(l, a) == LockAddress(l, b)
    requires a.plane.ChromaCb? || b.plane.ChromaCb? ==> x >= c * (h / 2) || (c == 16 && w < 16 && x % 16 == 8)
    ensures a == b
  {
    if a.plane == b.plane {
      SamePlane(l, w, h, c, x, a, b);
    } else if a.plane.LumaY? {
      LumaBelowChroma(l, w, h, c, x, a, b);
    } else if b.plane.LumaY? {
      LumaBelowChroma(l, w, h, c, x, b, a);
    } else if a.plane.ChromaCr? {
      CrBelowCb(w, h, c, x, a.row, a.col, b.row, b.col);
    } else {
      CrBelowCb(w, h, c, x, b.row, b.col, a.row, a.col);
    }
  }

  lemma CrBelowCb(w: nat, h: nat, c: nat, x: nat, r1: nat, c1: nat, r2: nat, c2: nat)
    requires r1 < h / 2 && c1 < w / 2 <= c && c2 < w / 2
    requires x >= c * (h / 2) || (c == 16 && w < 16 && x % 16 == 8)
    ensures r1 * c + c1 != x + r2 * c + c2
  {
    if x >= c * (h / 2) {
      InRows(c, r1, c1, h / 2);
      assert r2 * c >= 0;
    } else {
      assert r1 * c == 16 * r1 && r2 * c == 16 * r2;
    }
  }

  lemma {:induction false} WrapBy(x: nat, k: nat)
    requires x >= RANGE * k && x - RANGE * k < RANGE
    ensures U32(x) == x - RANGE * k
  {
    if k > 0 {
      WrapBy(x - RANGE, k - 1);
    }
  }

  /** For the narrowest pictures the Cr rows are 16 bytes apart, and only the parity of the
      height decides where the wrapped Cb plane lands. */
  lemma NarrowDistance(w: nat, h: nat)
    requires IsSize(w, h) && 2 <= w < 16
    ensures Align16(w / 2) == 16
    ensures CbDistance(w, h) == 8 * (h % 0x1000_0000)
  {
    Aligned(w, h);
    var k := h / 0x1000_0000;
    WrapBy(16 * h, k);
  }

  lemma SmallMultiple(w: nat, c: nat)
    requires c % 16 == 0 && c < w / 2 + 16 && w >= 16
    ensures c <= w
  {
    var k := c / 16;
    assert c == 16 * k;
  }

  lemma WideChroma(w: nat, h: nat)
    requires IsSize(w, h) && w >= 16
    ensures Align16(w / 2) <= w
  {
    Aligned(w, h);
    SmallMultiple(w, Align16(w / 2));
  }

  lemma HalfRows(c: nat, h: nat)
    requires c % 2 == 0
    ensures Area(c, h) / 2 >= c * (h / 2)
  {
    var k := c / 2;
    assert c * h == 2 * (k * h);
    assert c * (h / 2) == k * (2 * (h / 2));
    MulMono(k, 2 * (h / 2), h);
  }

  /** How far apart the chroma planes are: a whole plane, or an odd number of half rows. */
  ghost predicate CbClear(w: nat, h: nat) {
    var c, x := Align16(w / 2), CbDistance(w, h);
    x >= c * (h / 2) || (c == 16 && w < 16 && x % 16 == 8)
  }

  lemma WideCbClear(w: nat, h: nat)
    requires IsSize(w, h) && w >= 16 && w * h < RANGE
    ensures CbClear(w, h)
  {
    WideChroma(w, h);
    PlaneFits(Align16(w / 2), w, h);
    FittingCbClear(w, h);
  }

  lemma FittingCbClear(w: nat, h: nat)
    requires IsSize(w, h) && U32(Area(Align16(w / 2), h)) == Area(Align16(w / 2), h)
    ensures CbClear(w, h)
  {
    Aligned(w, h);
    FittingDistance(Align16(w / 2), h, CbDistance(w, h));
  }

  lemma FittingDistance(c: nat, h: nat, x: nat)
    requires c % 16 == 0 && x == Area(c, h) / 2
    ensures x >= c * (h / 2)
  {
    HalfRows(c, h);
  }

  lemma PlaneFits(c: nat, w: nat, h: nat)
    requires c <= w && w * h < RANGE
    ensures U32(Area(c, h)) == Area(c, h)
  {
    MulMono(h, c, w);
    assert c * h == h * c && w * h == h * w;
  }

  lemma NarrowCbClear(w: nat, h: nat)
    requires IsSize(w, h) && 2 <= w < 16 && ChromaApart(w, h)
    ensures CbClear(w, h)
  {
    NarrowDistance(w, h);
  }

  lemma Yv12Distance(w: nat, h: nat)
    requires IsSize(w, h) && HasChroma(w, h) && w * h < RANGE && ChromaApart(w, h)
    ensures CbClear(w, h)
  {
    if w >= 16 {
      WideCbClear(w, h);
    } else {
      NarrowCbClear(w, h);
    }
  }

  lemma Yv12Injective(w: nat, h: nat)
    requires IsSize(w, h)
    requires HasChroma(w, h) ==> w * h < RANGE && ChromaApart(w, h)
    ensures Injective(Yv12, w, h)
  {
    Aligned(w, h);
    var l := LockLayout(Yv12, w, h).value;
    if HasChroma(w, h) {
      Yv12Distance(w, h);
    }
    forall a: Sample, b: Sample | InPicture(a, w, h) && InPicture(b, w, h) && LockAddress(l, a) == LockAddress(l, b)
      ensures a == b
    {
      if HasChroma(w, h) {
        Yv12Pair(l, w, h, Align16(w / 2), CbDistance(w, h), a, b);
      } else {
        RowCol(w, a.row, a.col, b.row, b.col);
      }
    }
  }

  lemma Yv12LumaCollides(w: nat, h: nat) returns (a: Sample, b: Sample)
    requires IsSize(w, h) && HasChroma(w, h) && w * h >= RANGE
    ensures Collide(Yv12, w, h, a, b)
  {
    var r, c := RowOf(w, U32(w * h), h);
    a, b := Sample(LumaY, r, c), Sample(ChromaCr, 0, 0);
  }

  lemma Yv12ChromaCollides(w: nat, h: nat) returns (a: Sample, b: Sample)
    requires IsSize(w, h) && HasChroma(w, h) && !ChromaApart(w, h)
    ensures Collide(Yv12, w, h, a, b)
  {
    NarrowDistance(w, h);
    var q := h % 0x1000_0000;
    assert q % 2 == 0 && q < h;
    a, b := Sample(ChromaCr, q / 2, 0), Sample(ChromaCb, 0, 0);
  }

  /** YV12: no two samples share a byte exactly when there is no chroma, or the luma plane is
      smaller than 2^32 bytes and the chroma planes stay apart. */
  lemma Yv12InjectiveIff(w: nat, h: nat)
    requires IsSize(w, h)
    ensures Injective(Yv12, w, h) <==> (HasChroma(w, h) ==> w * h < RANGE && ChromaApart(w, h))
  {
    if HasChroma(w, h) && w * h >= RANGE {
      var a, b := Yv12LumaCollides(w, h);
    } else if HasChroma(w, h) && !ChromaApart(w, h) {
      var a, b := Yv12ChromaCollides(w, h);
    } else {
      Yv12Injective(w, h);
    }
  }
}
