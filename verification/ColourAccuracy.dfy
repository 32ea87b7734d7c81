/** The integer conversion against the definition of Y'CbCr in Recommendations ITU-R BT.601, BT.709
    and BT.2020: every channel is within about one step of the colour that the three bytes stand for. */
module ColourAccuracy {
  import opened Numbers
  import opened PixelConvert

  // What defines one of the systems: the weights of red and blue in the luma.
  datatype System = System(kr: real, kb: real)

  const SYSTEM_601 := System(0.299, 0.114)
  const SYSTEM_709 := System(0.2126, 0.0722)
  const SYSTEM_2020 := System(0.2627, 0.0593)

  datatype Colour = Colour(r: real, g: real, b: real)

  // The luma is the weighted sum of the channels, the chroma the scaled differences from it.
  ghost predicate Encodes(s: System, x: Colour, luma: real, cb: real, cr: real) {
    && luma == s.kr * x.r + (1.0 - s.kr - s.kb) * x.g + s.kb * x.b
    && x.b - luma == 2.0 * (1.0 - s.kb) * cb
    && x.r - luma == 2.0 * (1.0 - s.kr) * cr
  }

  // Bytes in limited range: luma from 16 to 235, chroma from 16 to 240 around 128.
  ghost predicate StandsFor(s: System, y: Byte, u: Byte, v: Byte, x: Colour) {
    Encodes(s, x, 255.0 * (y - 16) as real / 219.0, 255.0 * (u - 128) as real / 224.0, 255.0 * (v - 128) as real / 224.0)
  }

  // Bytes in full range, from 0 to 255.
  ghost predicate StandsForFull(s: System, y: Byte, u: Byte, v: Byte, x: Colour) {
    Encodes(s, x, y as real, (u - 128) as real, (v - 128) as real)
  }

  function SystemOf(c: Coefficients): System {
    if c == BT709 then SYSTEM_709 else if c == BT2020 then SYSTEM_2020 else SYSTEM_601
  }

  // Every triple of bytes stands for a colour, in either range.
  lemma EveryTripleIsAColour(s: System, luma: real, cb: real, cr: real)
    requires s == SYSTEM_601 || s == SYSTEM_709 || s == SYSTEM_2020
    ensures exists x :: Encodes(s, x, luma, cb, cr)
  {
    var r, b := luma + 2.0 * (1.0 - s.kr) * cr, luma + 2.0 * (1.0 - s.kb) * cb;
    var x := Colour(r, (luma - s.kr * r - s.kb * b) / (1.0 - s.kr - s.kb), b);
    if s == SYSTEM_601 {
      assert Encodes(SYSTEM_601, x, luma, cb, cr);
    } else if s == SYSTEM_709 {
      assert Encodes(SYSTEM_709, x, luma, cb, cr);
    } else {
      assert Encodes(SYSTEM_2020, x, luma, cb, cr);
    }
  }

  // A channel that fits a byte is near the true one, cut off at black and white.
  ghost predicate Near(n: int, exact: real, error: real) {
    var cut := if exact < 0.0 then 0.0 else if 255.0 < exact then 255.0 else exact;
    0 <= n <= 255 && cut - error <= n as real <= cut + error
  }

  // The three channels are bytes two, one and zero of a pixel, under an opaque byte three.
  ghost predicate Renders(pixel: int, x: Colour, error: real) {
    && pixel / 0x100_0000 == 0xFF
    && Near(pixel / 0x1_0000 % 0x100, x.r, error)
    && Near(pixel / 0x100 % 0x100, x.g, error)
    && Near(pixel % 0x100, x.b, error)
  }

  lemma ClampNear(n: int, exact: real, error: real)
    requires 0.0 <= error && exact - error <= n as real <= exact + error
    ensures Near(Clamp(n), exact, error)
  {}

  lemma Unpacked(r: int, g: int, b: int)
    requires 0 <= r <= 255 && 0 <= g <= 255 && 0 <= b <= 255
    ensures var p := Pack(r, g, b); p / 0x100_0000 == 0xFF && p / 0x1_0000 % 0x100 == r && p / 0x100 % 0x100 == g && p % 0x100 == b
  {
    LastByte(0x100 * (0x100 * 0xFF + r) + g, b);
    LastByte(0x100 * 0xFF + r, g);
    LastByte(0xFF, r);
    Shifted(Pack(r, g, b));
  }

  lemma LastByte(high: int, low: int)
    requires 0 <= low < 0x100
    ensures (0x100 * high + low) / 0x100 == high && (0x100 * high + low) % 0x100 == low
  {}

  lemma Shifted(p: nat)
    ensures p / 0x1_0000 == p / 0x100 / 0x100 && p / 0x100_0000 == p / 0x100 / 0x100 / 0x100
  {}

  lemma Rounded(t: int)
    ensures t as real / 256.0 - 0.5 <= ((t + 128) / 256) as real <= t as real / 256.0 + 0.5
  {
    assert 256 * ((t + 128) / 256) <= t + 128 < 256 * ((t + 128) / 256) + 256;
  }

  lemma RoundedDown(t: int)
    ensures t as real / 256.0 - 1.0 < (t / 256) as real <= t as real / 256.0
  {
    assert 256 * (t / 256) <= t < 256 * (t / 256) + 256;
  }

  // 256 times a channel, before rounding: the coefficients are within a half of the true ones.
  lemma ScaledError(y: Byte, u: Byte, v: Byte, c: Coefficients, x: Colour)
    requires (c == BT601 || c == BT709 || c == BT2020) && StandsFor(SystemOf(c), y, u, v, x)
    ensures var l := 298 * (y - 16);
            && x.r - 0.6 <= (l + c.rv * (v - 128)) as real / 256.0 <= x.r + 0.6
            && x.g - 0.6 <= (l - c.gu * (u - 128) - c.gv * (v - 128)) as real / 256.0 <= x.g + 0.6
            && x.b - 0.6 <= (l + c.bu * (u - 128)) as real / 256.0 <= x.b + 0.6
  {
    if c == BT601 {
    } else if c == BT709 {
    } else {
    }
  }

  // In limited range every channel is within 1.1 of the colour the bytes stand for.
  lemma LimitedIsAccurate(y: Byte, u: Byte, v: Byte, c: Coefficients, x: Colour)
    requires (c == BT601 || c == BT709 || c == BT2020) && StandsFor(SystemOf(c), y, u, v, x)
    ensures Renders(YuvToXrgb(y, u, v, c), x, 1.1)
  {
    ScaledError(y, u, v, c, x);
    var l, rv, gu, gv, bu := c.y * (y - 16), c.rv * (v - 128), c.gu * (u - 128), c.gv * (v - 128), c.bu * (u - 128);
    hide Clamp, Pack, StandsFor;
    Rounded(l + rv);
    Rounded(l - gu - gv);
    Rounded(l + bu);
    var (r, g, b) := PlainLimited(l, rv, gu, gv, bu);
    ClampNear(r, x.r, 1.1);
    ClampNear(g, x.g, 1.1);
    ClampNear(b, x.b, 1.1);
    ClampedIsByte(r);
    ClampedIsByte(g);
    ClampedIsByte(b);
    Unpacked(Clamp(r), Clamp(g), Clamp(b));
  }

  lemma ClampedIsByte(n: int)
    ensures 0 <= Clamp(n) <= 255
  {}

  // In full range products are rounded down and not to the nearest: within 1.4.
  lemma FullIsAccurate(y: Byte, u: Byte, v: Byte, x: Colour)
    requires StandsForFull(SYSTEM_601, y, u, v, x)
    ensures Renders(YuvToXrgb(y, u, v, LEGACY), x, 1.4)
  {
    hide Clamp, Pack;
    var u', v' := u - 128, v - 128;
    RoundedDown(359 * v');
    RoundedDown(88 * u' + 183 * v');
    RoundedDown(453 * u');
    var (r, g, b) := PlainFull(y, 359 * v', 88 * u', 183 * v', 453 * u');
    ClampNear(r, x.r, 1.4);
    ClampNear(g, x.g, 1.4);
    ClampNear(b, x.b, 1.4);
    ClampedIsByte(r);
    ClampedIsByte(g);
    ClampedIsByte(b);
    Unpacked(Clamp(r), Clamp(g), Clamp(b));
  }

  // Which system a UYVY frame is in goes by its size: up to 720x576, up to 1920x1080, and larger.
  lemma SystemBySize(width: nat, height: nat)
    ensures var c := CoefficientsFor(width, height);
            && c.limited && c.y == 298
            && SystemOf(c) == if width <= 720 && height <= 576 then SYSTEM_601
                              else if width <= 1920 && height <= 1080 then SYSTEM_709 else SYSTEM_2020
  {}
}
