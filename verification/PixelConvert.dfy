/** YUV to XRGB conversion and scaling: the plain per-pixel loops and the ARM ones, which work
    on lanes of eight pixels in 16- and 32-bit arithmetic and resample a converted row. */
module PixelConvert {
  import opened FrameGeometry
  import opened Numbers

  datatype Coefficients = Coefficients(y: int, rv: int, gu: int, gv: int, bu: int, limited: bool)

  const LEGACY := Coefficients(256, 359, 88, 183, 453, false)
  const BT601 := Coefficients(298, 409, 100, 208, 516, true)
  const BT709 := Coefficients(298, 459, 55, 136, 541, true)
  const BT2020 := Coefficients(298, 430, 48, 167, 548, true)

  predicate Known(c: Coefficients) {
    c == LEGACY || c == BT601 || c == BT709 || c == BT2020
  }

  function CoefficientsFor(width: nat, height: nat): (c: Coefficients)
    ensures Known(c)
  {
    if width > 1920 || height > 1080 then BT2020
    else if width > 720 || height > 576 then BT709
    else BT601
  }

  function Clamp(n: int): int { if n < 0 then 0 else if n > 255 then 255 else n }

  function Pack(r: int, g: int, b: int): int {
    0xFF00_0000 + r * 0x1_0000 + g * 0x100 + b
  }

  // The plain conversion, from the scaled luma l and the four chroma products. A shift right by
  // eight is a division that rounds down.
  function PlainLimited(l: int, rv: int, gu: int, gv: int, bu: int): (int, int, int) {
    ((l + rv + 128) / 256, (l - gu - gv + 128) / 256, (l + bu + 128) / 256)
  }

  function PlainFull(y: int, rv: int, gu: int, gv: int, bu: int): (int, int, int) {
    (y + rv / 256, y - (gu + gv) / 256, y + bu / 256)
  }

  function YuvToXrgb(y: int, u: int, v: int, c: Coefficients): int {
    var u', v' := u - 128, v - 128;
    var (r, g, b) :=
      if c.limited then PlainLimited(c.y * (y - 16), c.rv * v', c.gu * u', c.gv * v', c.bu * u')
      else PlainFull(y, c.rv * v', c.gu * u', c.gv * v', c.bu * u');
    Pack(Clamp(r), Clamp(g), Clamp(b))
  }

  // ---------- one lane of the vector conversion ----------

  // Two's complement lanes: every result is reduced to 16 or 32 bits.
  function S16(x: int): int { (x + 0x8000) % 0x1_0000 - 0x8000 }
  function S32(x: int): int { (x + 0x8000_0000) % 0x1_0000_0000 - 0x8000_0000 }

  // Shift right by eight, then narrow to 16 bits without saturation.
  function Narrow(x: int): int { S16(x / 256) }

  function Mul(a: int, coefficient: int): int { S32(S16(a) * S16(coefficient)) }

  function VectorLimited(l: int, rv: int, gu: int, gv: int, bu: int): (int, int, int) {
    (Narrow(S32(S32(l + rv) + 128)), Narrow(S32(S32(S32(l - gu) - gv) + 128)), Narrow(S32(S32(l + bu) + 128)))
  }

  function VectorFull(y: int, rv: int, gu: int, gv: int, bu: int): (int, int, int) {
    (S16(y + Narrow(rv)), S16(y - Narrow(S32(gu + gv))), S16(y + Narrow(bu)))
  }

  // Saturating narrowing to unsigned bytes, stored in the order blue, green, red, alpha.
  function Lane(y: Byte, u: Byte, v: Byte, c: Coefficients): int {
    var u', v' := S16(u - 128), S16(v - 128);
    var (r, g, b) :=
      if c.limited then VectorLimited(Mul(y - 16, c.y), Mul(v', c.rv), Mul(u', c.gu), Mul(v', c.gv), Mul(u', c.bu))
      else VectorFull(y, Mul(v', c.rv), Mul(u', c.gu), Mul(v', c.gv), Mul(u', c.bu));
    Pack(Clamp(r), Clamp(g), Clamp(b))
  }

  // The range of one product, and of every partial sum of the conversion.
  ghost predicate IsProduct(x: int) {
    -153600 <= x <= 153600
  }

  ghost predicate Small(x: int) {
    -700000 <= x <= 700000
  }

  lemma SmallFits(x: int)
    requires Small(x)
    ensures S32(x) == x && Narrow(x) == x / 256
  {}

  lemma LumaFits(y: Byte, x: int)
    requires -3000 <= x <= 3000
    ensures S16(y + x) == y + x && S16(y - x) == y - x
  {}

  lemma ProductBound(a: int, k: int)
    requires -256 <= a <= 256 && 0 <= k <= 600
    ensures IsProduct(k * a)
  {
    assert k * -256 <= k * a <= k * 256;
  }

  lemma MulExact(a: int, k: int)
    requires -256 <= a <= 256 && 0 <= k <= 600
    ensures Mul(a, k) == k * a && IsProduct(k * a)
  {
    assert S16(a) == a && S16(k) == k;
    ProductBound(a, k);
    SmallFits(k * a);
    assert a * k == k * a;
  }

  lemma VectorExact(y: Byte, l: int, rv: int, gu: int, gv: int, bu: int)
    requires IsProduct(l) && IsProduct(rv) && IsProduct(gu) && IsProduct(gv) && IsProduct(bu)
    ensures VectorLimited(l, rv, gu, gv, bu) == PlainLimited(l, rv, gu, gv, bu)
    ensures VectorFull(y, rv, gu, gv, bu) == PlainFull(y, rv, gu, gv, bu)
  {
    hide S16, S32, Narrow;
    SmallFits(l + rv);
    SmallFits(l + rv + 128);
    SmallFits(l - gu);
    SmallFits(l - gu - gv);
    SmallFits(l - gu - gv + 128);
    SmallFits(l + bu);
    SmallFits(l + bu + 128);
    SmallFits(rv);
    SmallFits(gu + gv);
    SmallFits(bu);
    LumaFits(y, rv / 256);
    LumaFits(y, (gu + gv) / 256);
    LumaFits(y, bu / 256);
  }

  // No narrowing loses a bit: for all bytes and all coefficient sets in use the lane is exact.
  lemma LaneExact(y: Byte, u: Byte, v: Byte, c: Coefficients)
    requires Known(c)
    ensures Lane(y, u, v, c) == YuvToXrgb(y, u, v, c)
  {
    assert S16(u - 128) == u - 128 && S16(v - 128) == v - 128;
    hide Mul, S16, Clamp, Pack, VectorLimited, VectorFull, PlainLimited, PlainFull;
    MulExact(y - 16, c.y);
    MulExact(v - 128, c.rv);
    MulExact(u - 128, c.gu);
    MulExact(v - 128, c.gv);
    MulExact(u - 128, c.bu);
    VectorExact(y, c.y * (y - 16), c.rv * (v - 128), c.gu * (u - 128), c.gv * (v - 128), c.bu * (u - 128));
  }

  // ---------- rows ----------

  // Pixel x of a UYVY row: bytes U, Y, V, Y for each pair of pixels.
  function UyvyPixel(row: seq<Byte>, x: nat, c: Coefficients): int
    requires 2 * Even(x) + 4 <= |row|
  {
    var pair := 2 * Even(x);
    YuvToXrgb(row[pair + 1 + 2 * (x % 2)], row[pair], row[pair + 2], c)
  }

  // Pixel x of an NV12 row pair: one luma byte a pixel, one U and V byte for each pair.
  function Nv12Pixel(luma: seq<Byte>, chroma: seq<Byte>, x: nat): int
    requires x < |luma| && Even(x) + 2 <= |chroma|
  {
    YuvToXrgb(luma[x], chroma[Even(x)], chroma[Even(x) + 1], LEGACY)
  }

  // Vector k of a load that deals four interleaved bytes to four vectors, or two to two.
  function Deal4(s: seq<Byte>, k: nat): (v: seq<Byte>)
    requires |s| == 32 && k < 4
    ensures |v| == 8
  {
    seq(8, i requires 0 <= i < 8 => s[4 * i + k])
  }

  function Deal2(s: seq<Byte>, k: nat): (v: seq<Byte>)
    requires |s| == 16 && k < 2
    ensures |v| == 8
  {
    seq(8, i requires 0 <= i < 8 => s[2 * i + k])
  }

  // The interleaving of two vectors, as sixteen bytes.
  function Zip(a: seq<Byte>, b: seq<Byte>): (z: seq<Byte>)
    requires |a| == |b| == 8
    ensures |z| == 16
  {
    seq(16, i requires 0 <= i < 16 => if i % 2 == 0 then a[i / 2] else b[i / 2])
  }

  // Eight pixels at dst[at..].
  method StoreEight(y: seq<Byte>, u: seq<Byte>, v: seq<Byte>, dst: array<int>, at: nat, c: Coefficients)
    requires |y| == |u| == |v| == 8 && at + 8 <= dst.Length && Known(c)
    modifies dst
    ensures forall k :: at <= k < at + 8 ==> dst[k] == YuvToXrgb(y[k - at], u[k - at], v[k - at], c)
    ensures forall k :: 0 <= k < at || at + 8 <= k < dst.Length ==> dst[k] == old(dst[k])
  {
    for i := 0 to 8
      invariant forall k :: at <= k < at + i ==> dst[k] == YuvToXrgb(y[k - at], u[k - at], v[k - at], c)
      invariant forall k :: 0 <= k < at || at + i <= k < dst.Length ==> dst[k] == old(dst[k])
    {
      LaneExact(y[i], u[i], v[i], c);
      dst[at + i] := Lane(y[i], u[i], v[i], c);
    }
  }

  // Lane i of the zipped vectors belongs to pixel x + i.
  lemma UyvyLanes(row: seq<Byte>, x: nat, i: nat)
    requires x % 2 == 0 && 2 * x + 32 <= |row| && i < 16
    ensures var b := row[2 * x..2 * x + 32];
            var pair := 2 * Even(x + i);
            && Zip(Deal4(b, 0), Deal4(b, 0))[i] == row[pair]
            && Zip(Deal4(b, 1), Deal4(b, 3))[i] == row[pair + 1 + 2 * ((x + i) % 2)]
            && Zip(Deal4(b, 2), Deal4(b, 2))[i] == row[pair + 2]
  {}

  // One block of sixteen pixels.
  method StoreUyvyBlock(row: seq<Byte>, x: nat, dst: array<int>, at: nat, c: Coefficients)
    requires x % 2 == 0 && 2 * x + 32 <= |row| && at + x + 16 <= dst.Length && Known(c)
    modifies dst
    ensures forall k :: at + x <= k < at + x + 16 ==> dst[k] == UyvyPixel(row, k - at, c)
    ensures forall k :: 0 <= k < at + x || at + x + 16 <= k < dst.Length ==> dst[k] == old(dst[k])
  {
    hide YuvToXrgb, Deal4, Zip;
    var block := row[2 * x..2 * x + 32];
    var y := Zip(Deal4(block, 1), Deal4(block, 3));
    var u := Zip(Deal4(block, 0), Deal4(block, 0));
    var v := Zip(Deal4(block, 2), Deal4(block, 2));
    StoreEight(y[..8], u[..8], v[..8], dst, at + x, c);
    StoreEight(y[8..], u[8..], v[8..], dst, at + x + 8, c);
    forall k | at + x <= k < at + x + 16 ensures dst[k] == UyvyPixel(row, k - at, c) {
      UyvyLanes(row, x, k - at - x);
    }
  }

  // The block of eight pixels, gathered byte by byte.
  method StoreUyvyHalf(row: seq<Byte>, x: nat, dst: array<int>, at: nat, c: Coefficients)
    requires x % 2 == 0 && 2 * x + 16 <= |row| && at + x + 8 <= dst.Length && Known(c)
    modifies dst
    ensures forall k :: at + x <= k < at + x + 8 ==> dst[k] == UyvyPixel(row, k - at, c)
    ensures forall k :: 0 <= k < at + x || at + x + 8 <= k < dst.Length ==> dst[k] == old(dst[k])
  {
    hide YuvToXrgb;
    var p := row[2 * x..2 * x + 16];
    var u := seq(8, i requires 0 <= i < 8 => p[i / 2 * 4]);
    var v := seq(8, i requires 0 <= i < 8 => p[i / 2 * 4 + 2]);
    var y := seq(8, i requires 0 <= i < 8 => p[i / 2 * 4 + 1 + i % 2 * 2]);
    StoreEight(y, u, v, dst, at + x, c);
    forall k | at + x <= k < at + x + 8 ensures dst[k] == UyvyPixel(row, k - at, c) {
      var i := k - at - x;
      assert Even(x + i) == x + i / 2 * 2;
    }
  }

  // Every pixel pair that the first width pixels belong to is whole.
  ghost predicate Covers(row: seq<Byte>, width: nat) {
    2 * width <= |row| && forall x: nat :: x < width ==> 2 * Even(x) + 4 <= |row|
  }

  // neon_uyvy_row_to_xrgb: blocks of sixteen, at most one of eight, then single pixels.
  method NeonUyvyRow(row: seq<Byte>, dst: array<int>, at: nat, width: nat, c: Coefficients)
    requires Covers(row, width) && at + width <= dst.Length && Known(c)
    modifies dst
    ensures forall k :: at <= k < at + width ==> dst[k] == UyvyPixel(row, k - at, c)
    ensures forall k :: 0 <= k < at || at + width <= k < dst.Length ==> dst[k] == old(dst[k])
  {
    hide UyvyPixel, Even;
    var x := 0;
    while x + 16 <= width
      invariant x % 2 == 0 && x <= width
      invariant forall k :: at <= k < at + x ==> dst[k] == UyvyPixel(row, k - at, c)
      invariant forall k :: 0 <= k < at || at + x <= k < dst.Length ==> dst[k] == old(dst[k])
    {
      StoreUyvyBlock(row, x, dst, at, c);
      x := x + 16;
    }
    if x + 8 <= width {
      StoreUyvyHalf(row, x, dst, at, c);
      x := x + 8;
    }
    while x < width
      invariant x <= width
      invariant forall k :: at <= k < at + x ==> dst[k] == UyvyPixel(row, k - at, c)
      invariant forall k :: 0 <= k < at || at + x <= k < dst.Length ==> dst[k] == old(dst[k])
    {
      dst[at + x] := UyvyPixel(row, x, c);
      x := x + 1;
    }
  }

  lemma Nv12Lanes(chroma: seq<Byte>, x: nat, i: nat)
    requires x % 2 == 0 && x + 16 <= |chroma| && i < 16
    ensures var b := chroma[x..x + 16];
            && Zip(Deal2(b, 0), Deal2(b, 0))[i] == chroma[Even(x + i)]
            && Zip(Deal2(b, 1), Deal2(b, 1))[i] == chroma[Even(x + i) + 1]
  {}

  method StoreNv12Block(luma: seq<Byte>, chroma: seq<Byte>, x: nat, dst: array<int>, at: nat)
    requires x % 2 == 0 && x + 16 <= |luma| && x + 16 <= |chroma| && at + x + 16 <= dst.Length
    modifies dst
    ensures forall k :: at + x <= k < at + x + 16 ==> dst[k] == Nv12Pixel(luma, chroma, k - at)
    ensures forall k :: 0 <= k < at + x || at + x + 16 <= k < dst.Length ==> dst[k] == old(dst[k])
  {
    hide YuvToXrgb, Deal2, Zip;
    var block := chroma[x..x + 16];
    var u := Zip(Deal2(block, 0), Deal2(block, 0));
    var v := Zip(Deal2(block, 1), Deal2(block, 1));
    StoreEight(luma[x..x + 8], u[..8], v[..8], dst, at + x, LEGACY);
    StoreEight(luma[x + 8..x + 16], u[8..], v[8..], dst, at + x + 8, LEGACY);
    forall k | at + x <= k < at + x + 16 ensures dst[k] == Nv12Pixel(luma, chroma, k - at) {
      Nv12Lanes(chroma, x, k - at - x);
    }
  }

  method StoreNv12Half(luma: seq<Byte>, chroma: seq<Byte>, x: nat, dst: array<int>, at: nat)
    requires x % 2 == 0 && x + 8 <= |luma| && x + 8 <= |chroma| && at + x + 8 <= dst.Length
    modifies dst
    ensures forall k :: at + x <= k < at + x + 8 ==> dst[k] == Nv12Pixel(luma, chroma, k - at)
    ensures forall k :: 0 <= k < at + x || at + x + 8 <= k < dst.Length ==> dst[k] == old(dst[k])
  {
    hide YuvToXrgb;
    var u := seq(8, i requires 0 <= i < 8 => chroma[Even(x + i)]);
    var v := seq(8, i requires 0 <= i < 8 => chroma[Even(x + i) + 1]);
    StoreEight(luma[x..x + 8], u, v, dst, at + x, LEGACY);
  }

  // The blocks of eight are a loop for NV12.
  method Nv12Halves(luma: seq<Byte>, chroma: seq<Byte>, dst: array<int>, at: nat, start: nat, width: nat) returns (x: nat)
    requires width <= |luma| && Even(width + 1) <= |chroma| && at + width <= dst.Length && start <= width && start % 2 == 0
    modifies dst
    ensures start <= x <= width
    ensures forall k :: at + start <= k < at + x ==> dst[k] == Nv12Pixel(luma, chroma, k - at)
    ensures forall k :: 0 <= k < at + start || at + x <= k < dst.Length ==> dst[k] == old(dst[k])
  {
    hide Nv12Pixel;
    x := start;
    while x + 8 <= width
      invariant x % 2 == 0 && start <= x <= width
      invariant forall k :: at + start <= k < at + x ==> dst[k] == Nv12Pixel(luma, chroma, k - at)
      invariant forall k :: 0 <= k < at + start || at + x <= k < dst.Length ==> dst[k] == old(dst[k])
    {
      StoreNv12Half(luma, chroma, x, dst, at);
      x := x + 8;
    }
  }

  method Nv12Tail(luma: seq<Byte>, chroma: seq<Byte>, dst: array<int>, at: nat, start: nat, width: nat)
    requires width <= |luma| && Even(width + 1) <= |chroma| && at + width <= dst.Length && start <= width
    modifies dst
    ensures forall k :: at + start <= k < at + width ==> dst[k] == Nv12Pixel(luma, chroma, k - at)
    ensures forall k :: 0 <= k < at + start || at + width <= k < dst.Length ==> dst[k] == old(dst[k])
  {
    hide Nv12Pixel;
    for x := start to width
      invariant forall k :: at + start <= k < at + x ==> dst[k] == Nv12Pixel(luma, chroma, k - at)
      invariant forall k :: 0 <= k < at + start || at + x <= k < dst.Length ==> dst[k] == old(dst[k])
    {
      dst[at + x] := Nv12Pixel(luma, chroma, x);
    }
  }

  // neon_nv12_row_to_xrgb: blocks of sixteen, blocks of eight, then single pixels.
  method NeonNv12Row(luma: seq<Byte>, chroma: seq<Byte>, dst: array<int>, at: nat, width: nat)
    requires width <= |luma| && Even(width + 1) <= |chroma| && at + width <= dst.Length
    modifies dst
    ensures forall k :: at <= k < at + width ==> dst[k] == Nv12Pixel(luma, chroma, k - at)
    ensures forall k :: 0 <= k < at || at + width <= k < dst.Length ==> dst[k] == old(dst[k])
  {
    hide Nv12Pixel;
    var x := 0;
    while x + 16 <= width
      invariant x % 2 == 0 && x <= width
      invariant forall k :: at <= k < at + x ==> dst[k] == Nv12Pixel(luma, chroma, k - at)
      invariant forall k :: 0 <= k < at || at + x <= k < dst.Length ==> dst[k] == old(dst[k])
    {
      StoreNv12Block(luma, chroma, x, dst, at);
      x := x + 16;
    }
    x := Nv12Halves(luma, chroma, dst, at, x, width);
    Nv12Tail(luma, chroma, dst, at, x, width);
  }

  // ---------- whole frames ----------

  // The window of a frame that is painted, with the bytes of the whole frame.
  datatype Plane =
    | UyvyPlane(data: seq<Byte>, stride: nat, window: Rect, colour: Coefficients)
    | Nv12Plane(data: seq<Byte>, stride: nat, window: Rect, height: nat)

  // The bytes of pixel (sx, sy) are part of the frame.
  ghost predicate Reads(p: Plane, sx: nat, sy: nat) {
    match p
    case UyvyPlane(data, stride, r, colour) => PixelInside(ShowUYVY, Layout(stride, |data|), r, 0, sx, sy)
    case Nv12Plane(data, stride, r, height) => PixelInside(ShowNV12, Layout(stride, |data|), r, height, sx, sy)
  }

  // What WindowInsideFrame and SrcInsideFrame establish for every accepted frame.
  ghost predicate Readable(p: Plane) {
    && 0 < p.window.w && 0 < p.window.h && p.window.w % 2 == 0
    && (p.UyvyPlane? ==> Known(p.colour))
    && forall sx: nat, sy: nat :: sx < p.window.w && sy < p.window.h ==> Reads(p, sx, sy)
  }

  function PixelAt(p: Plane, sx: nat, sy: nat): int
    requires Readable(p) && sx < p.window.w && sy < p.window.h
  {
    assert Reads(p, sx, sy);
    match p
    case UyvyPlane(data, stride, r, colour) =>
      var at := UyvyAddress(r, stride, sx, sy);
      YuvToXrgb(data[at + 1 + 2 * (sx % 2)], data[at], data[at + 2], colour)
    case Nv12Plane(data, stride, r, height) =>
      var at := ChromaAddress(r, stride, height, sx, sy);
      YuvToXrgb(data[LumaAddress(r, stride, sx, sy)], data[at], data[at + 1], LEGACY)
  }

  // The bytes of one window row.
  lemma UyvyRowBytes(p: Plane, sy: nat, x: nat)
    requires Readable(p) && p.UyvyPlane? && sy < p.window.h && x < p.window.w
    ensures var base := UyvyAddress(p.window, p.stride, 0, sy);
            && base + 2 * p.window.w <= |p.data|
            && Even(x) + 2 <= p.window.w
            && UyvyPixel(p.data[base..base + 2 * p.window.w], x, p.colour) == PixelAt(p, x, sy)
  {
    hide YuvToXrgb;
    assert Reads(p, x, sy) && Reads(p, p.window.w - 1, sy);
    assert UyvyAddress(p.window, p.stride, x, sy) == UyvyAddress(p.window, p.stride, 0, sy) + 2 * Even(x);
  }

  lemma Nv12RowBytes(p: Plane, sy: nat, x: nat)
    requires Readable(p) && p.Nv12Plane? && sy < p.window.h && x < p.window.w
    ensures var luma, chroma := LumaAddress(p.window, p.stride, 0, sy), ChromaAddress(p.window, p.stride, p.height, 0, sy);
            && luma + p.window.w <= |p.data| && chroma + p.window.w <= |p.data|
            && Even(x) + 2 <= p.window.w == Even(p.window.w + 1)
            && Nv12Pixel(p.data[luma..luma + p.window.w], p.data[chroma..chroma + p.window.w], x) == PixelAt(p, x, sy)
  {
    hide YuvToXrgb;
    assert Reads(p, x, sy) && Reads(p, p.window.w - 1, sy);
    assert ChromaAddress(p.window, p.stride, p.height, x, sy) == ChromaAddress(p.window, p.stride, p.height, 0, sy) + Even(x);
    assert LumaAddress(p.window, p.stride, x, sy) == LumaAddress(p.window, p.stride, 0, sy) + x;
  }

  method NeonUyvyWindow(p: Plane, sy: nat, line: array<int>, at: nat)
    requires Readable(p) && p.UyvyPlane? && sy < p.window.h && at + p.window.w <= line.Length
    modifies line
    ensures forall k :: at <= k < at + p.window.w ==> line[k] == PixelAt(p, k - at, sy)
    ensures forall k :: 0 <= k < at || at + p.window.w <= k < line.Length ==> line[k] == old(line[k])
  {
    WindowNotEmpty(p);
    KnownColour(p);
    hide Readable, PixelAt, UyvyPixel, UyvyAddress, Even;
    var w := p.window.w;
    forall x: nat | x < w { UyvyRowBytes(p, sy, x); }
    UyvyRowBytes(p, sy, 0);
    var base := UyvyAddress(p.window, p.stride, 0, sy);
    NeonUyvyRow(p.data[base..base + 2 * w], line, at, w, p.colour);
  }

  method NeonNv12Window(p: Plane, sy: nat, line: array<int>, at: nat)
    requires Readable(p) && p.Nv12Plane? && sy < p.window.h && at + p.window.w <= line.Length
    modifies line
    ensures forall k :: at <= k < at + p.window.w ==> line[k] == PixelAt(p, k - at, sy)
    ensures forall k :: 0 <= k < at || at + p.window.w <= k < line.Length ==> line[k] == old(line[k])
  {
    WindowNotEmpty(p);
    hide Readable, PixelAt, Nv12Pixel, LumaAddress, ChromaAddress, Even;
    var w := p.window.w;
    forall x: nat | x < w { Nv12RowBytes(p, sy, x); }
    Nv12RowBytes(p, sy, 0);
    var luma, chroma := LumaAddress(p.window, p.stride, 0, sy), ChromaAddress(p.window, p.stride, p.height, 0, sy);
    NeonNv12Row(p.data[luma..luma + w], p.data[chroma..chroma + w], line, at, w);
  }

  // Converts window row sy, whole, to line[at..].
  method NeonRow(p: Plane, sy: nat, line: array<int>, at: nat)
    requires Readable(p) && sy < p.window.h && at + p.window.w <= line.Length
    modifies line
    ensures forall k :: at <= k < at + p.window.w ==> line[k] == PixelAt(p, k - at, sy)
    ensures forall k :: 0 <= k < at || at + p.window.w <= k < line.Length ==> line[k] == old(line[k])
  {
    hide Readable, PixelAt;
    if p.UyvyPlane? { NeonUyvyWindow(p, sy, line, at); } else { NeonNv12Window(p, sy, line, at); }
  }

  lemma KnownColour(p: Plane)
    requires Readable(p) && p.UyvyPlane?
    ensures Known(p.colour)
  {}

  // Pixel (i, j) of the destination rectangle: the sampled pixel of the window.
  function Scaled(p: Plane, d: Rect, i: nat, j: nat): int
    requires Readable(p) && i < d.w && j < d.h
  {
    assert Sample(p.window.w, d.w, i) < p.window.w by { SampleInside(p.window.w, d.w, i); }
    assert Sample(p.window.h, d.h, j) < p.window.h by { SampleInside(p.window.h, d.h, j); }
    PixelAt(p, Sample(p.window.w, d.w, i), Sample(p.window.h, d.h, j))
  }

  // The mapped buffer, as its rows.
  ghost predicate Surface(rows: seq<array<int>>, d: Rect) {
    && d.y + d.h <= |rows|
    && (forall r :: 0 <= r < |rows| ==> d.x + d.w <= rows[r].Length)
    && forall r, s :: 0 <= r < s < |rows| ==> rows[r] != rows[s]
  }

  lemma Advance(s: nat, d: nat, i: nat)
    requires 0 < s && i < d
    ensures (i * StepFor(s, d) + StepFor(s, d)) % U32 == (i + 1) * StepFor(s, d) % U32
    ensures i * StepFor(s, d) % U32 == i * StepFor(s, d) && Sample(s, d, i) == i * StepFor(s, d) / 0x1_0000 < s
  {
    SampleInside(s, d, i);
    assert (i + 1) * StepFor(s, d) == i * StepFor(s, d) + StepFor(s, d);
  }

  // The inner loop of the plain path, with its 32-bit accumulator.
  method PlainRow(p: Plane, sy: nat, line: array<int>, d: Rect, ghost j: nat)
    requires Readable(p) && j < d.h && sy == Sample(p.window.h, d.h, j) < p.window.h && d.x + d.w <= line.Length
    modifies line
    ensures forall k :: d.x <= k < d.x + d.w ==> line[k] == Scaled(p, d, k - d.x, j)
    ensures forall k :: 0 <= k < d.x || d.x + d.w <= k < line.Length ==> line[k] == old(line[k])
  {
    hide PixelAt, StepFor, Readable, Sample;
    if d.w == 0 { return; }
    var step := StepFor(p.window.w, d.w);
    var fp := 0;
    for i := 0 to d.w
      invariant fp == i * step % U32
      invariant forall k :: d.x <= k < d.x + i ==> line[k] == Scaled(p, d, k - d.x, j)
      invariant forall k :: 0 <= k < d.x || d.x + i <= k < line.Length ==> line[k] == old(line[k])
    {
      WindowNotEmpty(p);
      Advance(p.window.w, d.w, i);
      line[d.x + i] := PixelAt(p, fp / 0x1_0000, sy);
      fp := (fp + step) % U32;
    }
  }

  lemma WindowNotEmpty(p: Plane)
    requires Readable(p)
    ensures 0 < p.window.w && 0 < p.window.h
  {}

  // The plain path: accumulating rows and columns.
  method PlainBlit(p: Plane, rows: seq<array<int>>, d: Rect)
    requires Readable(p) && Surface(rows, d)
    modifies set a | a in rows
    ensures forall r, k :: d.y <= r < d.y + d.h && d.x <= k < d.x + d.w ==> rows[r][k] == Scaled(p, d, k - d.x, r - d.y)
    ensures forall r, k :: 0 <= r < |rows| && 0 <= k < rows[r].Length && !(d.y <= r < d.y + d.h && d.x <= k < d.x + d.w) ==>
              rows[r][k] == old(rows[r][k])
  {
    if d.w == 0 || d.h == 0 { return; }
    hide Scaled, StepFor, Readable, Sample;
    WindowNotEmpty(p);
    var step := StepFor(p.window.h, d.h);
    var fp := 0;
    for j := 0 to d.h
      invariant fp == j * step % U32
      invariant forall r, k :: d.y <= r < d.y + j && d.x <= k < d.x + d.w ==> rows[r][k] == Scaled(p, d, k - d.x, r - d.y)
      invariant forall r, k :: 0 <= r < |rows| && 0 <= k < rows[r].Length && !(d.y <= r < d.y + j && d.x <= k < d.x + d.w) ==>
                  rows[r][k] == old(rows[r][k])
    {
      Advance(p.window.h, d.h, j);
      PlainRow(p, fp / 0x1_0000, rows[d.y + j], d, j);
      fp := (fp + step) % U32;
    }
  }

  // Picks the destination pixels from a converted source row.
  method Resample(p: Plane, sy: nat, buffer: array<int>, line: array<int>, d: Rect, ghost j: nat)
    requires Readable(p) && j < d.h && sy == Sample(p.window.h, d.h, j) < p.window.h && d.x + d.w <= line.Length
    requires buffer != line && buffer.Length == p.window.w
    requires forall k :: 0 <= k < p.window.w ==> buffer[k] == PixelAt(p, k, sy)
    modifies line
    ensures forall k :: d.x <= k < d.x + d.w ==> line[k] == Scaled(p, d, k - d.x, j)
    ensures forall k :: 0 <= k < d.x || d.x + d.w <= k < line.Length ==> line[k] == old(line[k])
  {
    hide PixelAt, StepFor, Readable, Sample;
    if d.w == 0 { return; }
    WindowNotEmpty(p);
    var step := StepFor(p.window.w, d.w);
    var fp := 0;
    for i := 0 to d.w
      invariant fp == i * step % U32
      invariant forall k :: d.x <= k < d.x + i ==> line[k] == Scaled(p, d, k - d.x, j)
      invariant forall k :: 0 <= k < d.x || d.x + i <= k < line.Length ==> line[k] == old(line[k])
    {
      Advance(p.window.w, d.w, i);
      line[d.x + i] := buffer[fp / 0x1_0000];
      fp := (fp + step) % U32;
    }
  }

  // The scaled row of the ARM path: convert the whole source row, then pick from it.
  method NeonScaledRow(p: Plane, sy: nat, line: array<int>, d: Rect, ghost j: nat)
    requires Readable(p) && j < d.h && sy == Sample(p.window.h, d.h, j) < p.window.h && d.x + d.w <= line.Length
    modifies line
    ensures forall k :: d.x <= k < d.x + d.w ==> line[k] == Scaled(p, d, k - d.x, j)
    ensures forall k :: 0 <= k < d.x || d.x + d.w <= k < line.Length ==> line[k] == old(line[k])
  {
    hide PixelAt, Readable, Sample, Scaled;
    var buffer := new int[p.window.w];
    NeonRow(p, sy, buffer, 0);
    Resample(p, sy, buffer, line, d, j);
  }

  // What the ARM path shows: windows of the destination's size are copied, others sampled.
  function ArmPixel(p: Plane, d: Rect, i: nat, j: nat): int
    requires Readable(p) && i < d.w && j < d.h
  {
    if p.window.w == d.w && p.window.h == d.h then PixelAt(p, i, j) else Scaled(p, d, i, j)
  }

  // The ARM path: rows by multiplication, converted eight pixels at a time.
  method ArmBlit(p: Plane, rows: seq<array<int>>, d: Rect)
    requires Readable(p) && Surface(rows, d)
    modifies set a | a in rows
    ensures forall r, k :: d.y <= r < d.y + d.h && d.x <= k < d.x + d.w ==> rows[r][k] == ArmPixel(p, d, k - d.x, r - d.y)
    ensures forall r, k :: 0 <= r < |rows| && 0 <= k < rows[r].Length && !(d.y <= r < d.y + d.h && d.x <= k < d.x + d.w) ==>
              rows[r][k] == old(rows[r][k])
  {
    if d.w == 0 || d.h == 0 { return; }
    hide Scaled, StepFor, Readable, Sample, PixelAt;
    WindowNotEmpty(p);
    var same := p.window.w == d.w && p.window.h == d.h;
    var step := StepFor(p.window.h, d.h);
    for j := 0 to d.h
      invariant forall r, k :: d.y <= r < d.y + j && d.x <= k < d.x + d.w ==> rows[r][k] == ArmPixel(p, d, k - d.x, r - d.y)
      invariant forall r, k :: 0 <= r < |rows| && 0 <= k < rows[r].Length && !(d.y <= r < d.y + j && d.x <= k < d.x + d.w) ==>
                  rows[r][k] == old(rows[r][k])
    {
      if same {
        NeonRow(p, j, rows[d.y + j], d.x);
      } else {
        Advance(p.window.h, d.h, j);
        NeonScaledRow(p, j * step / 0x1_0000, rows[d.y + j], d, j);
      }
    }
  }

  // The ARM path refines the plain one wherever a copied window fits the fixed-point format.
  lemma ArmMatchesPlain(p: Plane, d: Rect, i: nat, j: nat)
    requires Readable(p) && i < d.w && j < d.h
    requires p.window.w == d.w && p.window.h == d.h ==> d.w < 0x1_0000 && d.h < 0x1_0000
    ensures ArmPixel(p, d, i, j) == Scaled(p, d, i, j)
  {
    if p.window.w == d.w && p.window.h == d.h {
      SampleIdentity(d.w, i);
      SampleIdentity(d.h, j);
    }
  }

  // ---------- the native UYVY plane ----------

  // One of the bytes U, Y and V of window pixel (sx, sy).
  function UyvyByte(p: Plane, sx: nat, sy: nat, lane: nat): Byte
    requires Readable(p) && p.UyvyPlane? && sx < p.window.w && sy < p.window.h && lane < 3
  {
    assert Reads(p, sx, sy);
    p.data[UyvyAddress(p.window, p.stride, sx, sy) + (if lane == 1 then 1 + 2 * (sx % 2) else lane)]
  }

  // Byte b of row j of the native picture: pairs of two sampled pixels, with the first one's chroma.
  function NativeByte(p: Plane, d: Rect, b: nat, j: nat): Byte
    requires Readable(p) && p.UyvyPlane? && b / 4 < d.w / 2 && j < d.h
  {
    var i := if b % 4 == 3 then 2 * (b / 4) + 1 else 2 * (b / 4);
    assert Sample(p.window.w, d.w, i) < p.window.w by { SampleInside(p.window.w, d.w, i); }
    assert Sample(p.window.h, d.h, j) < p.window.h by { SampleInside(p.window.h, d.h, j); }
    UyvyByte(p, Sample(p.window.w, d.w, i), Sample(p.window.h, d.h, j), if b % 4 == 3 then 1 else b % 4)
  }

  // The bytes of a buffer row that the native picture takes.
  function NativeBytes(d: Rect): Rect {
    Rect(2 * NativeRect(d).x, d.y, 2 * NativeRect(d).w, d.h)
  }

  // The inner loop of sw_uyvy_scale, with its accumulator and its clamps.
  method NativeRow(p: Plane, sy: nat, line: array<int>, d: Rect, ghost j: nat)
    requires Readable(p) && p.UyvyPlane? && j < d.h && sy == Sample(p.window.h, d.h, j) < p.window.h
    requires NativeBytes(d).x + NativeBytes(d).w <= line.Length
    modifies line
    ensures forall k :: NativeBytes(d).x <= k < NativeBytes(d).x + NativeBytes(d).w ==>
              line[k] == NativeByte(p, d, k - NativeBytes(d).x, j)
    ensures forall k :: 0 <= k < NativeBytes(d).x || NativeBytes(d).x + NativeBytes(d).w <= k < line.Length ==> line[k] == old(line[k])
  {
    hide UyvyByte, NativeByte, StepFor, Readable, Sample;
    var pairs, at := d.w / 2, NativeBytes(d).x;
    if pairs == 0 { return; }
    WindowNotEmpty(p);
    var step := StepFor(p.window.w, d.w);
    var fp := 0;
    for q := 0 to pairs
      invariant fp == 2 * q * step % U32
      invariant forall k :: at <= k < at + 4 * q ==> line[k] == NativeByte(p, d, k - at, j)
      invariant forall k :: 0 <= k < at || at + 4 * q <= k < line.Length ==> line[k] == old(line[k])
    {
      Advance(p.window.w, d.w, 2 * q);
      Advance(p.window.w, d.w, 2 * q + 1);
      var sx0 := fp / 0x1_0000;
      fp := (fp + step) % U32;
      var sx1 := fp / 0x1_0000;
      fp := (fp + step) % U32;
      sx0 := if sx0 >= p.window.w then p.window.w - 1 else sx0;
      sx1 := if sx1 >= p.window.w then p.window.w - 1 else sx1;
      NativePair(p, d, q, j);
      line[at + 4 * q] := UyvyByte(p, sx0, sy, 0);
      line[at + 4 * q + 1] := UyvyByte(p, sx0, sy, 1);
      line[at + 4 * q + 2] := UyvyByte(p, sx0, sy, 2);
      line[at + 4 * q + 3] := UyvyByte(p, sx1, sy, 1);
    }
  }

  lemma NativePair(p: Plane, d: Rect, q: nat, j: nat)
    requires Readable(p) && p.UyvyPlane? && q < d.w / 2 && j < d.h
    ensures var s0, s1, sy := Sample(p.window.w, d.w, 2 * q), Sample(p.window.w, d.w, 2 * q + 1), Sample(p.window.h, d.h, j);
            && s0 < p.window.w && s1 < p.window.w && sy < p.window.h
            && NativeByte(p, d, 4 * q, j) == UyvyByte(p, s0, sy, 0) && NativeByte(p, d, 4 * q + 1, j) == UyvyByte(p, s0, sy, 1)
            && NativeByte(p, d, 4 * q + 2, j) == UyvyByte(p, s0, sy, 2) && NativeByte(p, d, 4 * q + 3, j) == UyvyByte(p, s1, sy, 1)
  {
    hide UyvyByte, Sample;
    SampleInside(p.window.w, d.w, 2 * q);
    SampleInside(p.window.w, d.w, 2 * q + 1);
    SampleInside(p.window.h, d.h, j);
  }

  // sw_uyvy_scale: paints exactly the pairs of the native rectangle, and nothing beside them.
  method NativeBlit(p: Plane, rows: seq<array<int>>, d: Rect)
    requires Readable(p) && p.UyvyPlane? && Surface(rows, NativeBytes(d))
    modifies set a | a in rows
    ensures var n := NativeBytes(d);
            forall r, k :: n.y <= r < n.y + n.h && n.x <= k < n.x + n.w ==> rows[r][k] == NativeByte(p, d, k - n.x, r - n.y)
    ensures var n := NativeBytes(d);
            forall r, k :: 0 <= r < |rows| && 0 <= k < rows[r].Length && !(n.y <= r < n.y + n.h && n.x <= k < n.x + n.w) ==>
              rows[r][k] == old(rows[r][k])
  {
    if d.w == 0 || d.h == 0 { return; }
    hide NativeByte, StepFor, Readable, Sample;
    WindowNotEmpty(p);
    var n := NativeBytes(d);
    var step := StepFor(p.window.h, d.h);
    var fp := 0;
    for j := 0 to d.h
      invariant fp == j * step % U32
      invariant forall r, k :: n.y <= r < n.y + j && n.x <= k < n.x + n.w ==> rows[r][k] == NativeByte(p, d, k - n.x, r - n.y)
      invariant forall r, k :: 0 <= r < |rows| && 0 <= k < rows[r].Length && !(n.y <= r < n.y + j && n.x <= k < n.x + n.w) ==>
                  rows[r][k] == old(rows[r][k])
    {
      Advance(p.window.h, d.h, j);
      var sy := fp / 0x1_0000;
      sy := if sy >= p.window.h then p.window.h - 1 else sy;
      NativeRow(p, sy, rows[d.y + j], d, j);
      fp := (fp + step) % U32;
    }
  }

  // What a plane that converts like the software shows of a pair: the first pixel is the one the
  // software paths paint; the second has its own luma, and its own colour too if the chroma of both
  // samples is the same.
  lemma NativeShowsSampled(p: Plane, d: Rect, q: nat, j: nat)
    requires Readable(p) && p.UyvyPlane? && q < d.w / 2 && j < d.h
    ensures YuvToXrgb(NativeByte(p, d, 4 * q + 1, j), NativeByte(p, d, 4 * q, j), NativeByte(p, d, 4 * q + 2, j), p.colour)
            == Scaled(p, d, 2 * q, j)
    ensures var s0, s1, sy := Sample(p.window.w, d.w, 2 * q), Sample(p.window.w, d.w, 2 * q + 1), Sample(p.window.h, d.h, j);
            && s0 < p.window.w && s1 < p.window.w && sy < p.window.h
            && NativeByte(p, d, 4 * q + 3, j) == UyvyByte(p, s1, sy, 1)
            && (UyvyByte(p, s0, sy, 0) == UyvyByte(p, s1, sy, 0) && UyvyByte(p, s0, sy, 2) == UyvyByte(p, s1, sy, 2) ==>
                  YuvToXrgb(NativeByte(p, d, 4 * q + 3, j), NativeByte(p, d, 4 * q, j), NativeByte(p, d, 4 * q + 2, j), p.colour)
                  == Scaled(p, d, 2 * q + 1, j))
  {
    hide YuvToXrgb, NativeByte, Sample;
    NativePair(p, d, q, j);
    SampledBytes(p, Sample(p.window.w, d.w, 2 * q), Sample(p.window.h, d.h, j));
    SampledBytes(p, Sample(p.window.w, d.w, 2 * q + 1), Sample(p.window.h, d.h, j));
  }

  lemma SampledBytes(p: Plane, sx: nat, sy: nat)
    requires Readable(p) && p.UyvyPlane? && sx < p.window.w && sy < p.window.h
    ensures PixelAt(p, sx, sy) == YuvToXrgb(UyvyByte(p, sx, sy, 1), UyvyByte(p, sx, sy, 0), UyvyByte(p, sx, sy, 2), p.colour)
  {
    hide YuvToXrgb;
    assert Reads(p, sx, sy);
  }

  // An accepted frame, copied whole, is readable in every scale mode on every display.
  lemma AcceptedIsReadable(f: FourCC, width: nat, height: nat, given: int, mode: ScaleMode, dw: nat, dh: nat, data: seq<Byte>)
    requires VideoLayout(f, width, height, given) != REJECTED && (FormatOf(f) == ShowUYVY || FormatOf(f) == ShowNV12)
    requires |data| == VideoLayout(f, width, height, given).bytes
    ensures 0 <= VideoLayout(f, width, height, given).stride
    ensures var stride, r := VideoLayout(f, width, height, given).stride, SrcRect(mode, dw, dh, width, height);
            if FormatOf(f) == ShowUYVY then Readable(UyvyPlane(data, stride, r, CoefficientsFor(width, height)))
            else Readable(Nv12Plane(data, stride, r, height))
  {
    AcceptedLayout(f, width, height, given);
    SrcInsideFrame(mode, dw, dh, width, height);
    var l, r := VideoLayout(f, width, height, given), SrcRect(mode, dw, dh, width, height);
    var p := if FormatOf(f) == ShowUYVY then UyvyPlane(data, l.stride, r, CoefficientsFor(width, height))
             else Nv12Plane(data, l.stride, r, height);
    hide VideoLayout, SrcRect, CoefficientsFor;
    forall sx: nat, sy: nat | sx < r.w && sy < r.h ensures Reads(p, sx, sy) {
      WindowInsideFrame(f, width, height, given, mode, dw, dh, sx, sy);
      assert l == Layout(l.stride, |data|);
    }
  }
}
