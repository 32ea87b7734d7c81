/** What the rectangles are for: a letterboxed frame is the largest with its own proportions, a cropped
    window the largest with the display's, both centred; and how many bytes a frame takes. */
module FittedFrame {
  import opened FrameGeometry

  // ---------- real quotients as integer bounds ----------

  lemma RatioTimes(n: nat, d: nat)
    requires 0 < d
    ensures Ratio(n, d) * d as real == n as real && 0.0 <= Ratio(n, d) && (0 < n ==> 0.0 < Ratio(n, d))
  {}

  // b / (n / d), rounded down.
  lemma QuotientOfRatio(b: nat, n: nat, d: nat, q: int)
    requires 0 < n && 0 < d && q == (b as real / Ratio(n, d)).Floor
    ensures q * n <= b * d < (q + 1) * n
  {
    hide Ratio;
    RatioTimes(n, d);
    var x := b as real / Ratio(n, d);
    calc {
      x * n as real;
      x * (Ratio(n, d) * d as real);
      { Regroup(x, Ratio(n, d), d as real); }
      b as real * d as real;
      { Exact(b, d); }
      (b * d) as real;
    }
    FloorScaled(x, n, b * d);
  }

  // b * (n / d), rounded down.
  lemma ProductOfRatio(b: nat, n: nat, d: nat, q: int)
    requires 0 < d && q == (b as real * Ratio(n, d)).Floor
    ensures q * d <= b * n < (q + 1) * d
  {
    hide Ratio;
    RatioTimes(n, d);
    var x := b as real * Ratio(n, d);
    calc {
      x * d as real;
      { Regroup(b as real, Ratio(n, d), d as real); }
      b as real * n as real;
      { Exact(b, n); }
      (b * n) as real;
    }
    FloorScaled(x, d, b * n);
  }

  lemma FloorScaled(x: real, n: nat, total: int)
    requires 0 < n && x * n as real == total as real
    ensures x.Floor * n <= total < (x.Floor + 1) * n
  {
    var q := x.Floor;
    assert q as real <= x < (q + 1) as real;
    AtMostTotal(q, x, n, total);
    AboveTotal(q + 1, x, n, total);
  }

  lemma AtMostTotal(q: int, x: real, n: nat, total: int)
    requires q as real <= x && x * n as real == total as real
    ensures q * n <= total
  {
    AtMostReal(q as real, x, n as real);
    Exact(q, n);
  }

  lemma AboveTotal(q: int, x: real, n: nat, total: int)
    requires 0 < n && x < q as real && x * n as real == total as real
    ensures total < q * n
  {
    LessReal(x, q as real, n as real);
    Exact(q, n);
  }

  lemma Regroup(a: real, b: real, c: real)
    ensures a * b * c == a * (b * c)
  {}

  lemma AtMostReal(a: real, b: real, c: real)
    requires a <= b && 0.0 <= c
    ensures a * c <= b * c
  {}

  lemma LessReal(a: real, b: real, c: real)
    requires a < b && 0.0 < c
    ensures a * c < b * c
  {}

  lemma Exact(a: int, b: int)
    ensures a as real * b as real == (a * b) as real
  {}

  lemma Compared(a: nat, b: nat, c: nat, d: nat)
    requires 0 < b && 0 < d
    ensures Ratio(a, b) > Ratio(c, d) <==> a * d > c * b
  {
    var x, y := Ratio(a, b), Ratio(c, d);
    assert x * b as real == a as real && y * d as real == c as real;
    assert x * (b as real * d as real) == a as real * d as real by { Regroup(x, b as real, d as real); }
    assert y * (b as real * d as real) == c as real * b as real by { Swap(y, b as real, d as real); }
    Exact(a, d);
    Exact(c, b);
    Exact(b, d);
    if x > y {
      LessReal(y, x, b as real * d as real);
    } else {
      AtMostReal(x, y, b as real * d as real);
    }
  }

  lemma Swap(y: real, b: real, d: real)
    ensures y * (b * d) == y * d * b
  {}

  // ---------- the destination rectangle ----------

  // Bars of equal width, up to one pixel: the second is never the narrower.
  predicate Centred(start: nat, length: nat, whole: nat) {
    start + length <= whole && start <= whole - length - start <= start + 1
  }

  // A letterboxed frame touches both edges in the tighter direction. In the other it is centred and
  // as long as its proportions allow, rounded down.
  lemma LetterboxFits(dw: nat, dh: nat, sw: nat, sh: nat)
    requires 0 < dh && 0 < sw && 0 < sh
    ensures var r := DstRect(Letterbox, dw, dh, sw, sh);
            if sw * dh > dw * sh then
              r.x == 0 && r.w == dw && Centred(r.y, r.h, dh) && r.h * sw <= dw * sh < (r.h + 1) * sw
            else
              r.y == 0 && r.h == dh && Centred(r.x, r.w, dw) && r.w * sh <= dh * sw < (r.w + 1) * sh
  {
    hide Ratio;
    Compared(sw, sh, dw, dh);
    var r := DstRect(Letterbox, dw, dh, sw, sh);
    if Ratio(sw, sh) > Ratio(dw, dh) {
      QuotientOfRatio(dw, sw, sh, r.h);
    } else {
      ProductOfRatio(dh, sw, sh, r.w);
    }
  }

  // A frame of the display's proportions fills it in every mode, whatever its size.
  lemma SameProportionsFill(mode: ScaleMode, dw: nat, dh: nat, k: nat)
    requires 0 < dw && 0 < dh && 0 < k
    ensures DstRect(mode, dw, dh, k * dw, k * dh) == Rect(0, 0, dw, dh)
  {
    if mode == Letterbox {
      var sw, sh := k * dw, k * dh;
      assert sw * dh == dw * sh;
      LetterboxFits(dw, dh, sw, sh);
      var r := DstRect(mode, dw, dh, sw, sh);
      WidthIs(r.w, dw, sh, dh * sw);
    }
  }

  lemma WidthIs(w: nat, dw: nat, sh: nat, area: nat)
    requires 0 < sh && w * sh <= area < (w + 1) * sh && area == dw * sh
    ensures w == dw
  {
    StepUp(w, dw, sh);
    StepUp(dw, w, sh);
  }

  lemma StepUp(a: int, b: int, c: nat)
    ensures a < b ==> (a + 1) * c <= b * c
  {
    if a < b { assert b * c == (a + 1) * c + (b - a - 1) * c; }
  }

  // Stretched and cropped frames fill the display, and so does a frame without pixels.
  lemma OthersFill(mode: ScaleMode, dw: nat, dh: nat, sw: nat, sh: nat)
    requires 0 < dh && (mode != Letterbox || sw == 0 || sh == 0)
    ensures var r := DstRect(mode, dw, dh, sw, sh); r.x == 0 && r.y == 0 && r.w == dw && r.h == dh
  {}

  // ---------- the source window ----------

  predicate Whole(r: Rect, sw: nat, sh: nat) {
    r.x == 0 && r.y == 0 && r.w == sw && r.h == sh
  }

  // Even windows, centred as far as even corners allow.
  predicate EvenlyCentred(start: nat, length: nat, whole: nat) {
    start % 2 == 0 && length % 2 == 0 && start + length <= whole && start <= whole - length - start <= start + 3
  }

  // The largest even length of which d fit in the total.
  predicate EvenShare(length: nat, d: nat, total: nat) {
    length % 2 == 0 && length * d <= total < (length + 2) * d
  }

  // Only cropping shows less than the whole frame, wherever a window of two by two pixels has the
  // display's proportions. The window takes the frame's even height or width, and in the other
  // direction the display's proportions of it, rounded down to an even number.
  lemma CropKeepsProportions(mode: ScaleMode, dw: nat, dh: nat, sw: nat, sh: nat)
    ensures var r := SrcRect(mode, dw, dh, sw, sh);
            if mode != Crop || sw < 2 || sh < 2 || dw < 2 || dh < 2 then Whole(r, sw, sh)
            else if sw * dh > dw * sh then
              if 2 * dh <= (sh - sh % 2) * dw then
                r.y == 0 && r.h == sh - sh % 2 && EvenlyCentred(r.x, r.w, sw) && EvenShare(r.w, dh, r.h * dw)
              else Whole(r, sw, sh)
            else
              if 2 * dw <= (sw - sw % 2) * dh then
                r.x == 0 && r.w == sw - sw % 2 && EvenlyCentred(r.y, r.h, sh) && EvenShare(r.h, dw, r.w * dh)
              else Whole(r, sw, sh)
  {
    if mode == Crop && 2 <= sw && 2 <= sh && 2 <= dw && 2 <= dh {
      hide Ratio, CropWidth, CropHeight, EvenShare, SrcRect;
      Compared(sw, sh, dw, dh);
      RatioTimes(dw, dh);
      if Ratio(sw, sh) > Ratio(dw, dh) {
        CropsWidth(dw, dh, sw, sh);
        CropWidthIs(sw, sh, dw, dh);
        MiddleOf(sw, CropWidth(sw, sh, Ratio(dw, dh)));
      } else {
        CropsHeight(dw, dh, sw, sh);
        CropHeightIs(sw, sh, dw, dh);
        MiddleOf(sh, CropHeight(sw, sh, Ratio(dw, dh)));
      }
    }
  }

  lemma CropsWidth(dw: nat, dh: nat, sw: nat, sh: nat)
    requires 2 <= sw && 2 <= sh && 2 <= dw && 2 <= dh && 0.0 <= Ratio(dw, dh) && Ratio(sw, sh) > Ratio(dw, dh)
    ensures var w := CropWidth(sw, sh, Ratio(dw, dh));
            SrcRect(Crop, dw, dh, sw, sh) == if 2 <= w then Rect(Even((sw - w) / 2), 0, w, sh - sh % 2) else Rect(0, 0, sw, sh)
  {
    hide Ratio, CropWidth, CropHeight;
  }

  lemma CropsHeight(dw: nat, dh: nat, sw: nat, sh: nat)
    requires 2 <= sw && 2 <= sh && 2 <= dw && 2 <= dh && 0.0 < Ratio(dw, dh) && Ratio(sw, sh) <= Ratio(dw, dh)
    ensures var h := CropHeight(sw, sh, Ratio(dw, dh));
            SrcRect(Crop, dw, dh, sw, sh) == if 2 <= h then Rect(0, Even((sh - h) / 2), sw - sw % 2, h) else Rect(0, 0, sw, sh)
  {
    hide Ratio, CropWidth, CropHeight;
  }

  lemma MiddleOf(whole: nat, length: nat)
    requires length <= whole && length % 2 == 0
    ensures EvenlyCentred(Even((whole - length) / 2), length, whole)
  {}

  lemma CropWidthIs(sw: nat, sh: nat, dw: nat, dh: nat)
    requires 0 < sh && 0 < dh && Ratio(sw, sh) > Ratio(dw, dh)
    ensures 0.0 <= Ratio(dw, dh)
    ensures var w := CropWidth(sw, sh, Ratio(dw, dh));
            EvenShare(w, dh, Even(sh) * dw) && (2 <= w <==> 2 * dh <= Even(sh) * dw)
  {
    hide Ratio;
    RatioTimes(dw, dh);
    var q := (Even(sh) as real * Ratio(dw, dh)).Floor;
    ProductOfRatio(Even(sh), dw, dh, q);
    RoundedToEven(q, dh, Even(sh) * dw);
  }

  lemma CropHeightIs(sw: nat, sh: nat, dw: nat, dh: nat)
    requires 0 < sh && 0 < dw && 0 < dh && Ratio(sw, sh) <= Ratio(dw, dh)
    ensures 0.0 < Ratio(dw, dh)
    ensures var h := CropHeight(sw, sh, Ratio(dw, dh));
            EvenShare(h, dw, Even(sw) * dh) && (2 <= h <==> 2 * dw <= Even(sw) * dh)
  {
    hide Ratio;
    RatioTimes(dw, dh);
    var q := (Even(sw) as real / Ratio(dw, dh)).Floor;
    QuotientOfRatio(Even(sw), dw, dh, q);
    RoundedToEven(q, dw, Even(sw) * dh);
  }

  lemma RoundedToEven(q: int, d: nat, total: nat)
    requires 0 < d && 0 <= q && q * d <= total < (q + 1) * d
    ensures EvenShare(Even(q), d, total) && (2 <= Even(q) <==> 2 * d <= total)
  {
    AtMost(d, Even(q), q);
    AtMost(d, q + 1, Even(q) + 2);
    if 2 <= q { AtMost(d, 2, q); } else { AtMost(d, q + 1, 2); }
  }

  // An RGB frame is copied one to one wherever rectangle and window overlap, and only there.
  lemma CopiedWhereBothAre(d: Rect, r: Rect, i: nat, j: nat)
    ensures var c := CopiedRect(d, r);
            c.x == d.x && c.y == d.y && (i < c.w && j < c.h <==> i < d.w && i < r.w && j < d.h && j < r.h)
  {}

  // ---------- layouts ----------

  // Which frames are accepted, and the exact number of bytes of each format.
  lemma AcceptedIff(f: FourCC, width: int, height: int, given: int)
    ensures var row := width * PixelBytes(f);
            var stride := if given == 0 then row else given;
            var l := VideoLayout(f, width, height, given);
            (l != REJECTED <==>
              && 0 < width && 0 < height && 0 <= given && row <= stride && FrameBytes(f, stride, height) <= 0x7FFF_FFFF
              && f != OtherFourCC
              && (f != BGRA && f != BGRX && f != RGBA && f != RGBX ==> width % 2 == 0)
              && (f == NV12 || f == I420 || f == YV12 ==> height % 2 == 0)
              && stride * height <= 0x7FFF_FFFF)
            && (l != REJECTED ==> l.stride == stride && l.bytes == FrameBytes(f, stride, height))
  {
    hide FrameBytes, ExtraBytes, PixelBytes;
    var row := width * PixelBytes(f);
    var stride := if given == 0 then row else given;
    BytesInPlanes(f, stride, height);
    if 0 < width && 0 < height {
      RowIsPositive(f, width);
      AtLeastOneRow(stride, height);
    }
  }

  lemma BytesInPlanes(f: FourCC, stride: int, height: int)
    ensures FrameBytes(f, stride, height) == stride * height + ExtraBytes(f, stride, height)
  {
    var x, y := stride / 2, height / 2;
    assert 2 * x * y == x * y + x * y;
  }

  lemma RowIsPositive(f: FourCC, width: int)
    requires 0 < width
    ensures 0 < width * PixelBytes(f)
  {}

  lemma AtLeastOneRow(stride: int, height: int)
    requires 0 < height
    ensures 0 <= stride ==> stride <= stride * height
  {
    if 0 <= stride { AtMost(stride, 1, height); }
  }

  // One plane, and for some formats more: half a plane of chroma, two quarters, half an alpha plane,
  // a second plane, or three of them.
  function FrameBytes(f: FourCC, stride: int, height: int): int {
    match f
    case NV12 => stride * height + stride * (height / 2)
    case I420 | YV12 => stride * height + (stride / 2) * (height / 2) + (stride / 2) * (height / 2)
    case UYVA => stride * height + (stride / 2) * height
    case P216 => 2 * (stride * height)
    case PA16 => 3 * (stride * height)
    case _ => stride * height
  }
}