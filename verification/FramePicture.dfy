/** What the converted rows mean for a frame: a picture of luma and chroma samples, laid out as UYVY or
    NV12, is painted as just these samples, each about where the proportions put it. */
module FramePicture {
  import opened ColourAccuracy
  import opened FrameGeometry
  import opened Numbers
  import opened PixelConvert

  // Luma for every pixel, and chroma for every pair of columns (and for NV12, of rows).
  datatype Samples = Samples(luma: (nat, nat) -> Byte, cb: (nat, nat) -> Byte, cr: (nat, nat) -> Byte)

  // Four bytes for two pixels: Cb, Y, Cr, Y.
  ghost predicate GroupAt(data: seq<Byte>, stride: nat, s: Samples, g: nat, y: nat) {
    var at := y * stride + 4 * g;
    && at + 4 <= |data| && data[at] == s.cb(g, y) && data[at + 2] == s.cr(g, y)
    && data[at + 1] == s.luma(2 * g, y) && data[at + 3] == s.luma(2 * g + 1, y)
  }

  ghost predicate LaidOutUyvy(data: seq<Byte>, stride: nat, w: nat, h: nat, s: Samples) {
    forall g: nat, y: nat :: 2 * g + 1 < w && y < h ==> GroupAt(data, stride, s, g, y)
  }

  // A plane of luma rows, then one of rows of Cb and Cr in turn, one for every two luma rows.
  ghost predicate LumaAt(data: seq<Byte>, stride: nat, s: Samples, x: nat, y: nat) {
    y * stride + x < |data| && data[y * stride + x] == s.luma(x, y)
  }

  ghost predicate ChromaAt(data: seq<Byte>, stride: nat, h: nat, s: Samples, g: nat, t: nat) {
    var at := h * stride + t * stride + 2 * g;
    at + 2 <= |data| && data[at] == s.cb(g, t) && data[at + 1] == s.cr(g, t)
  }

  ghost predicate LaidOutNv12(data: seq<Byte>, stride: nat, w: nat, h: nat, s: Samples) {
    && (forall x: nat, y: nat :: x < w && y < h ==> LumaAt(data, stride, s, x, y))
    && (forall g: nat, t: nat :: 2 * g + 1 < w && 2 * t + 1 < h ==> ChromaAt(data, stride, h, s, g, t))
  }

  // The pixel of the window at (sx, sy) is the conversion of the samples of the frame's pixel there.
  lemma UyvyPixelOfPicture(p: Plane, w: nat, h: nat, s: Samples, sx: nat, sy: nat)
    requires Readable(p) && p.UyvyPlane? && LaidOutUyvy(p.data, p.stride, w, h, s)
    requires p.window.x % 2 == 0 && p.window.x + p.window.w <= w && p.window.y + p.window.h <= h && w % 2 == 0
    requires sx < p.window.w && sy < p.window.h
    ensures var x, y := p.window.x + sx, p.window.y + sy;
            PixelAt(p, sx, sy) == YuvToXrgb(s.luma(x, y), s.cb(x / 2, y), s.cr(x / 2, y), p.colour)
  {
    hide YuvToXrgb, Readable;
    var x, y := p.window.x + sx, p.window.y + sy;
    assert GroupAt(p.data, p.stride, s, x / 2, y);
    assert UyvyAddress(p.window, p.stride, sx, sy) == y * p.stride + 4 * (x / 2);
  }

  lemma Nv12PixelOfPicture(p: Plane, w: nat, h: nat, s: Samples, sx: nat, sy: nat)
    requires Readable(p) && p.Nv12Plane? && p.height == h && LaidOutNv12(p.data, p.stride, w, h, s)
    requires p.window.x % 2 == 0 && p.window.y % 2 == 0 && w % 2 == 0 && h % 2 == 0
    requires p.window.x + p.window.w <= w && p.window.y + p.window.h <= h && sx < p.window.w && sy < p.window.h
    ensures var x, y := p.window.x + sx, p.window.y + sy;
            PixelAt(p, sx, sy) == YuvToXrgb(s.luma(x, y), s.cb(x / 2, y / 2), s.cr(x / 2, y / 2), LEGACY)
  {
    hide YuvToXrgb, Readable, LumaAddress, ChromaAddress;
    var x, y := p.window.x + sx, p.window.y + sy;
    assert LumaAt(p.data, p.stride, s, x, y);
    assert ChromaAt(p.data, p.stride, h, s, x / 2, y / 2);
    Nv12Addresses(p.window, p.stride, h, sx, sy);
  }

  lemma Nv12Addresses(r: Rect, stride: nat, h: nat, sx: nat, sy: nat)
    requires r.x % 2 == 0 && r.y % 2 == 0
    ensures LumaAddress(r, stride, sx, sy) == (r.y + sy) * stride + (r.x + sx)
    ensures ChromaAddress(r, stride, h, sx, sy) == h * stride + ((r.y + sy) / 2) * stride + 2 * ((r.x + sx) / 2)
  {
    assert (r.y + sy) / 2 == r.y / 2 + sy / 2;
  }

  // The pixel shown at column i of d is the one at the proportional place i * s / d, or the one before it.
  lemma SampleIsProportional(s: nat, d: nat, i: nat)
    requires 0 < s < 0x1_0000 && i < d && i <= 0x1_0000
    ensures Sample(s, d, i) * d <= i * s < (Sample(s, d, i) + 2) * d
  {
    var step, k := StepFor(s, d), Sample(s, d, i);
    StepBounds(s, d);
    Between(s, d, i, step, k);
  }

  lemma StepBounds(s: nat, d: nat)
    requires 0 < d && s < 0x1_0000
    ensures StepFor(s, d) * d <= s * 0x1_0000 < (StepFor(s, d) + 1) * d
  {}

  lemma Between(s: nat, d: nat, i: nat, step: nat, k: nat)
    requires 0 < d && i <= 0x1_0000
    requires step * d <= s * 0x1_0000 < (step + 1) * d
    requires k * 0x1_0000 <= i * step < (k + 1) * 0x1_0000
    ensures k * d <= i * s < (k + 2) * d
  {
    calc <= {
      k * d * 0x1_0000;
      { assert k * d * 0x1_0000 == (k * 0x1_0000) * d; Grows(k * 0x1_0000, i * step, d); }
      i * step * d;
      { assert i * step * d == i * (step * d); Grows(step * d, s * 0x1_0000, i); }
      i * (s * 0x1_0000);
    }
    assert i * (s * 0x1_0000) == i * s * 0x1_0000;
    Grows(s * 0x1_0000, (step + 1) * d, i);
    assert i * ((step + 1) * d) == i * step * d + i * d;
    Grows(i * step + 1, (k + 1) * 0x1_0000, d);
    Grows(i, 0x1_0000, d);
    assert (k + 1) * 0x1_0000 * d + 0x1_0000 * d == (k + 2) * d * 0x1_0000;
    assert (i * step + 1) * d == i * step * d + d;
  }

  lemma Grows(a: nat, b: nat, c: nat)
    requires a <= b
    ensures a * c <= b * c && c * a <= c * b
  {}

  // An accepted UYVY frame, in every scale mode and on every display: destination pixel (i, j) is
  // the conversion of the samples of one frame pixel, which lies in the window shown, about where
  // the proportions put it, and has the colour they stand for.
  lemma UyvyFrameIsPainted(f: FourCC, width: nat, height: nat, given: int, mode: ScaleMode, dw: nat, dh: nat,
                           data: seq<Byte>, s: Samples, i: nat, j: nat)
    requires VideoLayout(f, width, height, given) != REJECTED && FormatOf(f) == ShowUYVY && 0 < dh
    requires |data| == VideoLayout(f, width, height, given).bytes && 0 <= VideoLayout(f, width, height, given).stride
    requires LaidOutUyvy(data, VideoLayout(f, width, height, given).stride, width, height, s)
    requires var d := DstRect(mode, dw, dh, width, height); i < d.w && j < d.h
    ensures var stride, r := VideoLayout(f, width, height, given).stride, SrcRect(mode, dw, dh, width, height);
            var d, p := DstRect(mode, dw, dh, width, height), UyvyPlane(data, stride, r, CoefficientsFor(width, height));
            var x, y := r.x + Sample(r.w, d.w, i), r.y + Sample(r.h, d.h, j);
            && Readable(p) && x < r.x + r.w <= width && y < r.y + r.h <= height
            && (width < 0x1_0000 && i < 0x1_0000 ==> (x - r.x) * d.w <= i * r.w < (x - r.x + 2) * d.w)
            && (height < 0x1_0000 && j < 0x1_0000 ==> (y - r.y) * d.h <= j * r.h < (y - r.y + 2) * d.h)
            && Scaled(p, d, i, j) == YuvToXrgb(s.luma(x, y), s.cb(x / 2, y), s.cr(x / 2, y), p.colour)
            && forall c :: StandsFor(SystemOf(p.colour), s.luma(x, y), s.cb(x / 2, y), s.cr(x / 2, y), c) ==>
                 Renders(Scaled(p, d, i, j), c, 1.1)
  {
    hide VideoLayout, SrcRect, DstRect, Readable, LaidOutUyvy, YuvToXrgb, Renders, StandsFor, PixelAt, Sample;
    AcceptedIsReadable(f, width, height, given, mode, dw, dh, data);
    AcceptedLayout(f, width, height, given);
    SrcInsideFrame(mode, dw, dh, width, height);
    SystemBySize(width, height);
    var stride, r := VideoLayout(f, width, height, given).stride, SrcRect(mode, dw, dh, width, height);
    var d, p := DstRect(mode, dw, dh, width, height), UyvyPlane(data, stride, r, CoefficientsFor(width, height));
    SampleInside(r.w, d.w, i);
    SampleInside(r.h, d.h, j);
    if width < 0x1_0000 && i < 0x1_0000 { SampleIsProportional(r.w, d.w, i); }
    if height < 0x1_0000 && j < 0x1_0000 { SampleIsProportional(r.h, d.h, j); }
    UyvyPixelOfPicture(p, width, height, s, Sample(r.w, d.w, i), Sample(r.h, d.h, j));
    var x, y := r.x + Sample(r.w, d.w, i), r.y + Sample(r.h, d.h, j);
    forall c | StandsFor(SystemOf(p.colour), s.luma(x, y), s.cb(x / 2, y), s.cr(x / 2, y), c)
      ensures Renders(Scaled(p, d, i, j), c, 1.1)
    {
      LimitedIsAccurate(s.luma(x, y), s.cb(x / 2, y), s.cr(x / 2, y), p.colour, c);
    }
  }

  // The same for NV12, in full range.
  lemma Nv12FrameIsPainted(width: nat, height: nat, given: int, mode: ScaleMode, dw: nat, dh: nat,
                           data: seq<Byte>, s: Samples, i: nat, j: nat)
    requires VideoLayout(NV12, width, height, given) != REJECTED && 0 < dh
    requires |data| == VideoLayout(NV12, width, height, given).bytes && 0 <= VideoLayout(NV12, width, height, given).stride
    requires LaidOutNv12(data, VideoLayout(NV12, width, height, given).stride, width, height, s)
    requires var d := DstRect(mode, dw, dh, width, height); i < d.w && j < d.h
    ensures var stride, r := VideoLayout(NV12, width, height, given).stride, SrcRect(mode, dw, dh, width, height);
            var d, p := DstRect(mode, dw, dh, width, height), Nv12Plane(data, stride, r, height);
            var x, y := r.x + Sample(r.w, d.w, i), r.y + Sample(r.h, d.h, j);
            && Readable(p) && x < r.x + r.w <= width && y < r.y + r.h <= height
            && Scaled(p, d, i, j) == YuvToXrgb(s.luma(x, y), s.cb(x / 2, y / 2), s.cr(x / 2, y / 2), LEGACY)
            && forall c :: StandsForFull(SYSTEM_601, s.luma(x, y), s.cb(x / 2, y / 2), s.cr(x / 2, y / 2), c) ==>
                 Renders(Scaled(p, d, i, j), c, 1.4)
  {
    hide VideoLayout, SrcRect, DstRect, Readable, LaidOutNv12, YuvToXrgb, Renders, StandsForFull, PixelAt, Sample;
    AcceptedIsReadable(NV12, width, height, given, mode, dw, dh, data);
    AcceptedLayout(NV12, width, height, given);
    SrcInsideFrame(mode, dw, dh, width, height);
    var stride, r := VideoLayout(NV12, width, height, given).stride, SrcRect(mode, dw, dh, width, height);
    var d, p := DstRect(mode, dw, dh, width, height), Nv12Plane(data, stride, r, height);
    SampleInside(r.w, d.w, i);
    SampleInside(r.h, d.h, j);
    Nv12PixelOfPicture(p, width, height, s, Sample(r.w, d.w, i), Sample(r.h, d.h, j));
    var x, y := r.x + Sample(r.w, d.w, i), r.y + Sample(r.h, d.h, j);
    forall c | StandsForFull(SYSTEM_601, s.luma(x, y), s.cb(x / 2, y / 2), s.cr(x / 2, y / 2), c)
      ensures Renders(Scaled(p, d, i, j), c, 1.4)
    {
      FullIsAccurate(s.luma(x, y), s.cb(x / 2, y / 2), s.cr(x / 2, y / 2), c);
    }
  }

  // The bytes the native path writes are those of the pixels of its rectangle, two for each.
  lemma NativeBytesArePixels(d: Rect, b: nat)
    ensures NativeBytes(d).x <= b < NativeBytes(d).x + NativeBytes(d).w <==> InColumns(b / 2, NativeRect(d))
    ensures NativeBytes(d).y == d.y && NativeBytes(d).h == d.h && d.x - 1 <= NativeRect(d).x <= d.x
    ensures d.w - 1 <= NativeRect(d).w <= d.w && NativeRect(d).x % 2 == 0 && NativeRect(d).w % 2 == 0
  {}
}
