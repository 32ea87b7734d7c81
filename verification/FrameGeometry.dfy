/** Where a frame's bytes lie, which part of it is shown, and where on the display: every read
    and write of the software paths stays inside its buffer. Aspect ratios are reals. */
module FrameGeometry {

  const INT_MAX: int := 0x7FFF_FFFF
  const U32: int := 0x1_0000_0000

  datatype FourCC = UYVY | UYVA | P216 | PA16 | BGRA | BGRX | RGBA | RGBX | NV12 | I420 | YV12 | OtherFourCC

  datatype DisplayFormat = Unsupported | ShowUYVY | ShowBGRX | ShowBGRA | ShowNV12

  function FormatOf(f: FourCC): DisplayFormat {
    match f
    case UYVY => ShowUYVY
    case UYVA => ShowUYVY
    case BGRX => ShowBGRX
    case BGRA => ShowBGRA
    case NV12 => ShowNV12
    case _ => Unsupported
  }

  datatype Layout = Layout(stride: int, bytes: int)

  const REJECTED := Layout(0, 0)

  function PixelBytes(f: FourCC): int {
    match f
    case UYVY | UYVA | P216 | PA16 => 2
    case BGRA | BGRX | RGBA | RGBX => 4
    case _ => 1
  }

  predicate Aligned(f: FourCC, width: int, height: int) {
    match f
    case UYVY | UYVA | P216 | PA16 => width % 2 == 0
    case NV12 | I420 | YV12 => width % 2 == 0 && height % 2 == 0
    case OtherFourCC => false
    case _ => true
  }

  function ExtraBytes(f: FourCC, stride: int, height: int): int {
    match f
    case NV12 => stride * (height / 2)
    case I420 | YV12 => 2 * (stride / 2) * (height / 2)
    case UYVA => (stride / 2) * height
    case P216 => stride * height
    case PA16 => 2 * (stride * height)
    case _ => 0
  }

  // ndi_video_layout(): the stride and byte count of a frame, or the rejected layout.
  function VideoLayout(f: FourCC, width: int, height: int, given: int): Layout {
    if width <= 0 || height <= 0 || given < 0 || !Aligned(f, width, height) then REJECTED
    else
      var row := width * PixelBytes(f);
      if given == 0 && row > INT_MAX then REJECTED
      else
        var stride := if given == 0 then row else given;
        if stride < row || stride * height > INT_MAX then REJECTED
        else
          var bytes := stride * height + ExtraBytes(f, stride, height);
          if bytes > INT_MAX then REJECTED else Layout(stride, bytes)
  }

  datatype ScaleMode = Stretch | Letterbox | Crop
  datatype Rect = Rect(x: nat, y: nat, w: nat, h: nat)

  function Even(n: nat): nat { n - n % 2 }

  function Ratio(a: nat, b: nat): real
    requires 0 < b
  {
    a as real / b as real
  }

  // The destination rectangle on a display of dw x dh.
  function DstRect(mode: ScaleMode, dw: nat, dh: nat, sw: nat, sh: nat): Rect
    requires 0 < dh
  {
    if mode == Stretch || sw == 0 || sh == 0 then Rect(0, 0, dw, dh)
    else if mode == Crop then Rect(0, 0, dw, dh)
    else if Ratio(sw, sh) > Ratio(dw, dh) then
      var h := FloorDiv(dw, Ratio(sw, sh), dh);
      Rect(0, (dh - h) / 2, dw, h)
    else
      var w := FloorMul(dh, Ratio(sw, sh), dw);
      Rect((dw - w) / 2, 0, w, dh)
  }

  // Truncated quotient and product. The bound is what the caller's comparison of ratios gives.
  function FloorDiv(a: nat, r: real, bound: nat): (q: nat)
    requires 0.0 < r && a as real <= bound as real * r
    ensures q <= bound
  {
    QuotientBound(a, r, bound);
    (a as real / r).Floor
  }

  function FloorMul(a: nat, r: real, bound: nat): (p: nat)
    requires 0.0 <= r && a as real * r <= bound as real
    ensures p <= bound
  {
    (a as real * r).Floor
  }

  lemma QuotientBound(a: nat, r: real, bound: nat)
    requires 0.0 < r && a as real <= bound as real * r
    ensures 0.0 <= a as real / r <= bound as real
  {
    assert (a as real / r) * r == a as real;
    Cancel(a as real / r, bound as real, r);
  }

  lemma Cancel(a: real, b: real, r: real)
    requires 0.0 < r && a * r <= b * r
    ensures a <= b
  {}

  lemma CropBound(a: nat, b: nat, r: real)
    requires a <= b && 0.0 <= r
    ensures a as real * r <= b as real * r
  {}

  lemma Cross(a: nat, b: nat, r: real)
    requires 0 < b
    ensures Ratio(a, b) > r ==> b as real * r <= a as real
    ensures Ratio(a, b) <= r ==> a as real <= b as real * r
  {
    assert Ratio(a, b) * b as real == a as real;
  }

  // Widest even window of h rows with the display's ratio, and tallest one of w columns.
  function CropWidth(sw: nat, sh: nat, ar: real): (w: nat)
    requires 0 < sh && 0.0 <= ar && Ratio(sw, sh) > ar
    ensures w <= sw && w % 2 == 0
  {
    assert Even(sh) as real * ar <= sw as real by {
      Cross(sw, sh, ar);
      CropBound(Even(sh), sh, ar);
    }
    Even(FloorMul(Even(sh), ar, sw))
  }

  function CropHeight(sw: nat, sh: nat, ar: real): (h: nat)
    requires 0 < sh && 0.0 < ar && Ratio(sw, sh) <= ar
    ensures h <= sh && h % 2 == 0
  {
    assert Even(sw) as real <= sh as real * ar by { Cross(sw, sh, ar); }
    Even(FloorDiv(Even(sw), ar, sh))
  }

  // The source window: all of the frame unless cropping, then a centred, evenly aligned window.
  function SrcRect(mode: ScaleMode, dw: nat, dh: nat, sw: nat, sh: nat): Rect {
    var full := Rect(0, 0, sw, sh);
    if mode != Crop || sw < 2 || sh < 2 || dw < 2 || dh < 2 then full
    else
      var ar := Ratio(dw, dh);
      var r :=
        if Ratio(sw, sh) > ar then
          var w := CropWidth(sw, sh, ar);
          Rect(Even((sw - w) / 2), 0, w, Even(sh))
        else
          var h := CropHeight(sw, sh, ar);
          Rect(0, Even((sh - h) / 2), Even(sw), h);
      if r.w < 2 || r.h < 2 || r.x + r.w > sw || r.y + r.h > sh then full else r
  }

  lemma DstInsideDisplay(mode: ScaleMode, dw: nat, dh: nat, sw: nat, sh: nat)
    requires 0 < dh
    ensures var r := DstRect(mode, dw, dh, sw, sh); r.x + r.w <= dw && r.y + r.h <= dh
  {}

  // The window lies inside the frame. It keeps even frames even, and its corner is even, so it
  // cuts no chroma sample.
  lemma SrcInsideFrame(mode: ScaleMode, dw: nat, dh: nat, sw: nat, sh: nat)
    ensures var r := SrcRect(mode, dw, dh, sw, sh);
            && r.x + r.w <= sw && r.y + r.h <= sh && r.x % 2 == 0 && r.y % 2 == 0
            && (sw % 2 == 0 ==> r.w % 2 == 0) && (sh % 2 == 0 ==> r.h % 2 == 0)
            && (0 < sw && 0 < sh ==> 0 < r.w && 0 < r.h)
  {}

  // ---------- 16.16 fixed-point sampling ----------

  // (s << 16) / d in 32 bits.
  function StepFor(s: nat, d: nat): nat
    requires 0 < d
  {
    (s * 0x1_0000 % U32) / d
  }

  // The source index of destination index i: the accumulator's upper half.
  function Sample(s: nat, d: nat, i: nat): nat
    requires 0 < d
  {
    i * StepFor(s, d) / 0x1_0000
  }

  // The accumulator never wraps and never leaves the source, for every source size.
  lemma SampleInside(s: nat, d: nat, i: nat)
    requires 0 < s && i < d
    ensures i * StepFor(s, d) < U32 && Sample(s, d, i) < s
  {
    var t := s * 0x1_0000 % U32;
    var step := StepFor(s, d);
    assert d * step <= t <= s * 0x1_0000 && t < U32;
    if step == 0 {
      assert i * step == 0;
    } else {
      Below(i, d, step);
    }
  }

  lemma Below(i: nat, d: nat, step: nat)
    requires i < d && 0 < step
    ensures i * step < d * step
  {}

  lemma SampleIdentity(s: nat, i: nat)
    requires i < s < 0x1_0000
    ensures Sample(s, s, i) == i
  {
    assert StepFor(s, s) == 0x1_0000;
  }

  // Sampling between equal sizes is the identity exactly while the size fits the fixed-point format.
  lemma SampleIdentityIff(s: nat)
    requires 0 < s
    ensures (forall i: nat :: i < s ==> Sample(s, s, i) == i) <==> s < 0x1_0000
  {
    if s < 0x1_0000 {
      forall i: nat | i < s ensures Sample(s, s, i) == i {
        SampleIdentity(s, i);
      }
    } else {
      var t, step := s * 0x1_0000 % U32, StepFor(s, s);
      assert step < 0x1_0000 by { QuotientBelow(t, s); }
      assert (s - 1) * step <= (s - 1) * 0xFFFF by { AtMost(s - 1, step, 0xFFFF); }
      assert Sample(s, s, s - 1) < s - 1;
    }
  }

  lemma QuotientBelow(t: nat, s: nat)
    requires t < U32 && 0x1_0000 <= s
    ensures t / s < 0x1_0000
  {
    var q := t / s;
    assert q * s <= t;
    if 0x1_0000 <= q {
      AtMost(s, 0x1_0000, q);
      assert false;
    }
  }

  lemma AtMost(a: nat, b: nat, c: nat)
    requires b <= c
    ensures a * b <= a * c
  {}

  // ---------- byte addresses ----------

  lemma RowFits(stride: nat, rows: nat, row: nat, end: nat)
    requires row < rows && end <= stride
    ensures row * stride + end <= rows * stride
  {
    assert row * stride + stride == (row + 1) * stride <= rows * stride;
  }

  // First byte of the two-pixel group of UYVY pixel (sx, sy) of window r.
  function UyvyAddress(r: Rect, stride: nat, sx: nat, sy: nat): nat {
    (r.y + sy) * stride + 2 * r.x + 2 * Even(sx)
  }

  function LumaAddress(r: Rect, stride: nat, sx: nat, sy: nat): nat {
    (r.y + sy) * stride + r.x + sx
  }

  // First of the two chroma bytes of NV12 pixel (sx, sy) of window r in a frame of fh rows.
  function ChromaAddress(r: Rect, stride: nat, fh: nat, sx: nat, sy: nat): nat {
    fh * stride + (r.y / 2 + sy / 2) * stride + r.x + Even(sx)
  }

  function BgrxAddress(r: Rect, stride: nat, sx: nat, sy: nat): nat {
    (r.y + sy) * stride + 4 * r.x + 4 * sx
  }

  // Every byte the software paths read of pixel (sx, sy) of the window is part of the frame.
  ghost predicate PixelInside(f: DisplayFormat, l: Layout, r: Rect, fh: nat, sx: nat, sy: nat)
    requires 0 <= l.stride
  {
    match f
    case ShowUYVY => UyvyAddress(r, l.stride, sx, sy) + 4 <= l.bytes
    case ShowBGRX | ShowBGRA => BgrxAddress(r, l.stride, sx, sy) + 4 <= l.bytes
    case ShowNV12 => LumaAddress(r, l.stride, sx, sy) + 1 <= l.bytes && ChromaAddress(r, l.stride, fh, sx, sy) + 2 <= l.bytes
    case Unsupported => true
  }

  lemma AcceptedLayout(f: FourCC, width: int, height: int, given: int)
    requires VideoLayout(f, width, height, given) != REJECTED && FormatOf(f) != Unsupported
    ensures var l := VideoLayout(f, width, height, given);
            && 0 < width && 0 < height && width * PixelBytes(f) <= l.stride
            && (f != NV12 ==> height * l.stride <= l.bytes)
            && (f == NV12 ==> width % 2 == 0 && height % 2 == 0 && height * l.stride + (height / 2) * l.stride == l.bytes)
            && (FormatOf(f) == ShowUYVY ==> width % 2 == 0)
  {
    var stride := if given == 0 then width * PixelBytes(f) else given;
    assert f == UYVA ==> 0 <= ExtraBytes(f, stride, height) by { Product(stride / 2, height); }
    assert stride * height == height * stride;
  }

  lemma Product(a: nat, b: nat)
    ensures 0 <= a * b
  {}

  lemma UyvyInside(r: Rect, stride: nat, fw: nat, fh: nat, sx: nat, sy: nat)
    requires 2 * fw <= stride && fw % 2 == 0 && r.x % 2 == 0 && r.x + r.w <= fw && r.y + r.h <= fh
    requires sx < r.w && sy < r.h
    ensures UyvyAddress(r, stride, sx, sy) + 4 <= fh * stride
  {
    RowFits(stride, fh, r.y + sy, 2 * r.x + 2 * Even(sx) + 4);
  }

  lemma BgrxInside(r: Rect, stride: nat, fw: nat, fh: nat, sx: nat, sy: nat)
    requires 4 * fw <= stride && r.x + r.w <= fw && r.y + r.h <= fh && sx < r.w && sy < r.h
    ensures BgrxAddress(r, stride, sx, sy) + 4 <= fh * stride
  {
    RowFits(stride, fh, r.y + sy, 4 * r.x + 4 * sx + 4);
  }

  lemma Nv12Inside(r: Rect, stride: nat, fw: nat, fh: nat, sx: nat, sy: nat)
    requires fw <= stride && fw % 2 == 0 && fh % 2 == 0 && r.x % 2 == 0 && r.y % 2 == 0
    requires r.x + r.w <= fw && r.y + r.h <= fh && sx < r.w && sy < r.h
    ensures LumaAddress(r, stride, sx, sy) + 1 <= fh * stride
    ensures ChromaAddress(r, stride, fh, sx, sy) + 2 <= fh * stride + (fh / 2) * stride
  {
    RowFits(stride, fh, r.y + sy, r.x + sx + 1);
    RowFits(stride, fh / 2, r.y / 2 + sy / 2, r.x + Even(sx) + 2);
  }

  // For every accepted frame, scale mode and display: whole window rows can be read.
  lemma WindowInsideFrame(f: FourCC, width: nat, height: nat, given: int, mode: ScaleMode, dw: nat, dh: nat, sx: nat, sy: nat)
    requires VideoLayout(f, width, height, given) != REJECTED && FormatOf(f) != Unsupported
    requires sx < SrcRect(mode, dw, dh, width, height).w && sy < SrcRect(mode, dw, dh, width, height).h
    ensures 0 <= VideoLayout(f, width, height, given).stride
    ensures PixelInside(FormatOf(f), VideoLayout(f, width, height, given), SrcRect(mode, dw, dh, width, height), height, sx, sy)
  {
    hide VideoLayout, SrcRect, UyvyAddress, BgrxAddress, LumaAddress, ChromaAddress;
    AcceptedLayout(f, width, height, given);
    SrcInsideFrame(mode, dw, dh, width, height);
    var l, r := VideoLayout(f, width, height, given), SrcRect(mode, dw, dh, width, height);
    match FormatOf(f)
    case ShowUYVY => UyvyInside(r, l.stride, width, height, sx, sy);
    case ShowBGRX | ShowBGRA => BgrxInside(r, l.stride, width, height, sx, sy);
    case ShowNV12 => Nv12Inside(r, l.stride, width, height, sx, sy);
  }

  // RGB frames are copied, not sampled: the smaller of window and rectangle, from their corners.
  function CopiedRect(d: Rect, r: Rect): Rect {
    Rect(d.x, d.y, if d.w < r.w then d.w else r.w, if d.h < r.h then d.h else r.h)
  }

  predicate Copied(f: DisplayFormat) {
    f == ShowBGRX || f == ShowBGRA
  }

  // What the software paths paint of a destination rectangle, and the window index shown there.
  function PaintedRect(f: DisplayFormat, d: Rect, r: Rect): Rect {
    if Copied(f) then CopiedRect(d, r) else d
  }

  function SourceIndex(f: DisplayFormat, s: nat, d: nat, i: nat): nat
    requires 0 < d
  {
    if Copied(f) then i else Sample(s, d, i)
  }

  // The picture stays on the display, and every pixel of it is copied or sampled from bytes of the
  // frame.
  lemma FrameIsPaintedInBounds(f: FourCC, width: nat, height: nat, given: int, mode: ScaleMode, dw: nat, dh: nat, dx: nat, dy: nat)
    requires VideoLayout(f, width, height, given) != REJECTED && FormatOf(f) != Unsupported && 0 < dh
    requires var p := PaintedRect(FormatOf(f), DstRect(mode, dw, dh, width, height), SrcRect(mode, dw, dh, width, height));
             dx < p.w && dy < p.h
    ensures var l, r := VideoLayout(f, width, height, given), SrcRect(mode, dw, dh, width, height);
            var d := DstRect(mode, dw, dh, width, height);
            && d.x + dx < dw && d.y + dy < dh
            && 0 <= l.stride
            && PixelInside(FormatOf(f), l, r, height, SourceIndex(FormatOf(f), r.w, d.w, dx), SourceIndex(FormatOf(f), r.h, d.h, dy))
  {
    hide VideoLayout, SrcRect, DstRect, PixelInside, Sample;
    var r, d := SrcRect(mode, dw, dh, width, height), DstRect(mode, dw, dh, width, height);
    AcceptedLayout(f, width, height, given);
    DstInsideDisplay(mode, dw, dh, width, height);
    SrcInsideFrame(mode, dw, dh, width, height);
    SampleInside(r.w, d.w, dx);
    SampleInside(r.h, d.h, dy);
    WindowInsideFrame(f, width, height, given, mode, dw, dh,
                      SourceIndex(FormatOf(f), r.w, d.w, dx), SourceIndex(FormatOf(f), r.h, d.h, dy));
  }

  // ---------- the native UYVY path ----------

  // What it paints of a destination rectangle: whole pixel pairs from the even column at or before
  // the left edge.
  function NativeRect(d: Rect): Rect {
    Rect(Even(d.x), d.y, 2 * (d.w / 2), d.h)
  }

  predicate InColumns(x: int, d: Rect) {
    d.x <= x < d.x + d.w
  }

  // Every column it paints belongs to the rectangle exactly if the left edge is even, or there is
  // no pair to paint.
  lemma NativeStaysInRectangleIff(d: Rect)
    ensures (forall x :: InColumns(x, NativeRect(d)) ==> InColumns(x, d)) <==> d.x % 2 == 0 || d.w < 2
  {
    if d.x % 2 != 0 && d.w >= 2 {
      assert InColumns(d.x - 1, NativeRect(d)) && !InColumns(d.x - 1, d);
    }
  }

  // It paints every column of the rectangle exactly if both edges are even, or there is none.
  lemma NativeFillsRectangleIff(d: Rect)
    ensures (forall x :: InColumns(x, d) ==> InColumns(x, NativeRect(d))) <==> d.w == 0 || (d.x % 2 == 0 && d.w % 2 == 0)
  {
    if 0 < d.w && (d.x % 2 != 0 || d.w % 2 != 0) {
      assert InColumns(d.x + d.w - 1, d) && !InColumns(d.x + d.w - 1, NativeRect(d));
    }
  }

  // A frame of 720x576, letterboxed on 1920x1080, is painted one column into its left bar.
  lemma NativeLeavesRectangle()
    ensures var d := DstRect(Letterbox, 1920, 1080, 720, 576);
            && d == Rect(285, 0, 1350, 1080) && NativeRect(d) == Rect(284, 0, 1350, 1080)
            && InColumns(284, NativeRect(d)) && !InColumns(284, d)
            && InColumns(1634, d) && !InColumns(1634, NativeRect(d))
  {
    assert Ratio(720, 576) == 1.25;
    assert (1080.0 * 1.25).Floor == 1350;
  }

  // Its clamps never fire, and the pixels of pair p lie on the display.
  lemma NativePairInside(mode: ScaleMode, dw: nat, dh: nat, sw: nat, sh: nat, p: nat)
    requires 0 < sw && 0 < sh && 0 < dh && p < DstRect(mode, dw, dh, sw, sh).w / 2
    ensures var r, d := SrcRect(mode, dw, dh, sw, sh), DstRect(mode, dw, dh, sw, sh);
            && Sample(r.w, d.w, 2 * p) < r.w && Sample(r.w, d.w, 2 * p + 1) < r.w
            && NativeRect(d).x + 2 * p + 1 < dw && 2 * NativeRect(d).x + 4 * p + 4 <= 2 * dw
  {
    hide SrcRect, DstRect, Sample;
    var r, d := SrcRect(mode, dw, dh, sw, sh), DstRect(mode, dw, dh, sw, sh);
    DstInsideDisplay(mode, dw, dh, sw, sh);
    SrcInsideFrame(mode, dw, dh, sw, sh);
    SampleInside(r.w, d.w, 2 * p);
    SampleInside(r.w, d.w, 2 * p + 1);
  }

  // For every accepted UYVY frame, scale mode and display: the rows and pairs it paints are on the
  // display, and all bytes it reads for them are in the frame.
  lemma NativeIsPaintedInBounds(f: FourCC, width: nat, height: nat, given: int, mode: ScaleMode, dw: nat, dh: nat, p: nat, dy: nat)
    requires VideoLayout(f, width, height, given) != REJECTED && FormatOf(f) == ShowUYVY && 0 < dh
    requires p < DstRect(mode, dw, dh, width, height).w / 2 && dy < DstRect(mode, dw, dh, width, height).h
    ensures var l, r := VideoLayout(f, width, height, given), SrcRect(mode, dw, dh, width, height);
            var d := DstRect(mode, dw, dh, width, height);
            && NativeRect(d).x + 2 * p + 1 < dw && d.y + dy < dh
            && 0 <= l.stride
            && PixelInside(ShowUYVY, l, r, height, Sample(r.w, d.w, 2 * p), Sample(r.h, d.h, dy))
            && PixelInside(ShowUYVY, l, r, height, Sample(r.w, d.w, 2 * p + 1), Sample(r.h, d.h, dy))
  {
    hide VideoLayout, SrcRect, DstRect, PixelInside, Sample;
    var r, d := SrcRect(mode, dw, dh, width, height), DstRect(mode, dw, dh, width, height);
    AcceptedLayout(f, width, height, given);
    NativePairInside(mode, dw, dh, width, height, p);
    DstInsideDisplay(mode, dw, dh, width, height);
    SrcInsideFrame(mode, dw, dh, width, height);
    SampleInside(r.h, d.h, dy);
    WindowInsideFrame(f, width, height, given, mode, dw, dh, Sample(r.w, d.w, 2 * p), Sample(r.h, d.h, dy));
    WindowInsideFrame(f, width, height, given, mode, dw, dh, Sample(r.w, d.w, 2 * p + 1), Sample(r.h, d.h, dy));
  }
}
