/** Glyph lookup in a format 4 'cmap' subtable (segment mapping to delta values): the
    searchRange/entrySelector/rangeShift search against a linear scan of the segments, and
    the glyph it yields against the one OpenType defines. */
module Cmap {
  import opened Numbers

  // Big-endian 16-bit read.
  function U16(d: seq<Byte>, at: nat): (v: nat)
    requires at + 2 <= |d|
    ensures v < 0x1_0000
  {
    d[at] as int * 256 + d[at + 1] as int
  }

  // The arrays of a subtable at base with n segments: n end codes, one pad word, then n start
  // codes, n deltas and n range offsets.
  ghost predicate Fits(d: seq<Byte>, base: nat) {
    base + 16 <= |d| && base + 16 + 8 * SegCount(d, base) <= |d|
  }

  function SegCount(d: seq<Byte>, base: nat): nat
    requires base + 16 <= |d|
  {
    U16(d, base + 6) / 2
  }

  function EndCode(d: seq<Byte>, base: nat, s: nat): nat
    requires Fits(d, base) && s < SegCount(d, base)
  {
    U16(d, base + 14 + 2 * s)
  }

  function StartCode(d: seq<Byte>, base: nat, s: nat): nat
    requires Fits(d, base) && s < SegCount(d, base)
  {
    U16(d, base + 16 + 2 * SegCount(d, base) + 2 * s)
  }

  // A signed word in the file; only its value modulo 65536 is ever used.
  function IdDelta(d: seq<Byte>, base: nat, s: nat): nat
    requires Fits(d, base) && s < SegCount(d, base)
  {
    U16(d, base + 16 + 4 * SegCount(d, base) + 2 * s)
  }

  function RangeOffset(d: seq<Byte>, base: nat, s: nat): nat
    requires Fits(d, base) && s < SegCount(d, base)
  {
    U16(d, base + 16 + 6 * SegCount(d, base) + 2 * s)
  }

  // Range offsets are relative to the address of the offset word itself.
  function GlyphAddress(d: seq<Byte>, base: nat, s: nat, c: int): int
    requires Fits(d, base) && s < SegCount(d, base)
  {
    base + 16 + 6 * SegCount(d, base) + 2 * s + RangeOffset(d, base, s) + 2 * (c - StartCode(d, base, s))
  }

  // What OpenType requires of the subtable: header words derived from the segment count,
  // increasing end codes closed by 0xFFFF, and glyph addresses inside the data.
  ghost predicate WellFormed(d: seq<Byte>, base: nat) {
    && Fits(d, base)
    && var n, k := SegCount(d, base), U16(d, base + 10);
    && Pow2(k) <= n < 2 * Pow2(k)
    && U16(d, base + 8) / 2 == Pow2(k)
    && U16(d, base + 12) / 2 == n - Pow2(k)
    && (forall s, t :: 0 <= s < t < n ==> EndCode(d, base, s) < EndCode(d, base, t))
    && EndCode(d, base, n - 1) == 0xFFFF
    && forall s :: 0 <= s < n && RangeOffset(d, base, s) != 0 ==>
                     GlyphAddress(d, base, s, EndCode(d, base, s)) + 2 <= |d|
  }

  // s is the segment OpenType selects for c: the first whose end code is not below c.
  ghost predicate Selects(d: seq<Byte>, base: nat, c: int, s: int)
    requires WellFormed(d, base)
  {
    && 0 <= s < SegCount(d, base) && c <= EndCode(d, base, s)
    && forall t :: 0 <= t < s ==> EndCode(d, base, t) < c
  }

  lemma SelectedOnce(d: seq<Byte>, base: nat, c: int, s: int, t: int)
    requires WellFormed(d, base) && Selects(d, base, c, s) && Selects(d, base, c, t)
    ensures s == t
  {}

  // The glyph of c in segment s as the source reads it.
  function GlyphIn(d: seq<Byte>, base: nat, c: int, s: int): int
    requires WellFormed(d, base) && 0 <= s < SegCount(d, base)
  {
    if c < StartCode(d, base, s) || EndCode(d, base, s) < c then 0
    else if RangeOffset(d, base, s) == 0 then (c + IdDelta(d, base, s)) % 0x1_0000
    else U16(d, GlyphAddress(d, base, s, c))
  }

  // The glyph by a linear scan from segment s on.
  function Scan(d: seq<Byte>, base: nat, c: int, s: nat): int
    requires WellFormed(d, base) && s < SegCount(d, base) && c <= 0xFFFF
    decreases SegCount(d, base) - s
  {
    if c <= EndCode(d, base, s) then GlyphIn(d, base, c, s) else Scan(d, base, c, s + 1)
  }

  lemma {:induction false} ScanStopsAtSelected(d: seq<Byte>, base: nat, c: int, s: nat, t: nat)
    requires WellFormed(d, base) && c <= 0xFFFF && Selects(d, base, c, s) && t <= s
    ensures Scan(d, base, c, t) == GlyphIn(d, base, c, s)
    decreases s - t
  {
    if t < s {
      ScanStopsAtSelected(d, base, c, s, t + 1);
    }
  }

  // The selected segment is among the w segments after p.
  ghost predicate Window(d: seq<Byte>, base: nat, c: int, p: int, w: nat)
    requires WellFormed(d, base)
  {
    && -1 <= p < p + w < SegCount(d, base) && c <= EndCode(d, base, p + w)
    && forall t :: 0 <= t <= p ==> EndCode(d, base, t) < c
  }

  // The first comparison, against the end code at rangeShift, leaves a window of a power of two.
  lemma FirstWindow(d: seq<Byte>, base: nat, c: int)
    requires WellFormed(d, base) && c <= 0xFFFF
    ensures var w := Pow2(U16(d, base + 10));
            var shift := SegCount(d, base) - w;
            Window(d, base, c, if EndCode(d, base, shift) <= c then shift - 1 else -1, w)
  {
    var w := Pow2(U16(d, base + 10));
    var shift := SegCount(d, base) - w;
    if EndCode(d, base, shift) <= c {
      forall t | 0 <= t <= shift - 1 ensures EndCode(d, base, t) < c {
        assert EndCode(d, base, t) < EndCode(d, base, shift);
      }
    } else {
      assert shift == w - 1 || EndCode(d, base, shift) < EndCode(d, base, w - 1);
    }
  }

  lemma HalfWindow(d: seq<Byte>, base: nat, c: int, p: int, h: nat)
    requires WellFormed(d, base) && 0 < h && Window(d, base, c, p, 2 * h)
    ensures Window(d, base, c, if EndCode(d, base, p + h) < c then p + h else p, h)
  {
    if EndCode(d, base, p + h) < c {
      forall t | 0 <= t < p + h ensures EndCode(d, base, t) < c {
        assert EndCode(d, base, t) < EndCode(d, base, p + h);
      }
    }
  }

  // One round of the search: the window of Pow2(k) segments after p is halved.
  lemma HalfStep(d: seq<Byte>, base: nat, c: int, p: int, k: nat)
    requires WellFormed(d, base) && 0 < k && Window(d, base, c, p, Pow2(k))
    ensures var h := Pow2(k) / 2;
            && h == Pow2(k - 1) && -1 <= p < p + h < p + 2 * h < SegCount(d, base) && base + 14 + 2 * (p + h) + 2 <= |d|
            && Window(d, base, c, if U16(d, base + 14 + 2 * (p + h)) < c then p + h else p, h)
  {
    hide U16;
    PowIsPositive(k - 1);
    HalfWindow(d, base, c, p, Pow2(k) / 2);
  }

  lemma {:induction false} PowIsPositive(k: nat)
    ensures 0 < Pow2(k)
  {
    if k > 0 { PowIsPositive(k - 1); }
  }

  lemma PowOfNone()
    ensures Pow2(0) == 1
  {}

  lemma WindowOfOne(d: seq<Byte>, base: nat, c: int, p: int)
    requires WellFormed(d, base) && Window(d, base, c, p, 1)
    ensures Selects(d, base, c, p + 1)
  {}

  lemma Header(d: seq<Byte>, base: nat)
    requires WellFormed(d, base)
    ensures base + 16 <= |d| && base + 16 + 8 * SegCount(d, base) <= |d|
    ensures var w := Pow2(U16(d, base + 10));
            U16(d, base + 8) / 2 == w <= SegCount(d, base) && U16(d, base + 12) / 2 == SegCount(d, base) - w
  {}

  // The search, on byte addresses as in the source. Address search is always one segment before
  // the window of searchRange segments that holds the answer.
  method SearchSegments(d: seq<Byte>, base: nat, c: int) returns (item: nat)
    requires WellFormed(d, base) && c <= 0xFFFF
    ensures Selects(d, base, c, item)
  {
    hide WellFormed, Window, Selects, U16, SegCount, Pow2;
    Header(d, base);
    FirstWindow(d, base, c);
    var searchRange := U16(d, base + 8) / 2;
    var entrySelector := U16(d, base + 10);
    var rangeShift := U16(d, base + 12) / 2;
    var endCount := base + 14;
    var search: int := endCount;
    if c >= U16(d, search + rangeShift * 2) {
      search := search + rangeShift * 2;
    }
    search := search - 2;
    ghost var p := (search - endCount) / 2;
    while entrySelector != 0
      invariant search == endCount + 2 * p && searchRange == Pow2(entrySelector)
      invariant -1 <= p < p + searchRange < SegCount(d, base) && Window(d, base, c, p, searchRange)
    {
      HalfStep(d, base, c, p, entrySelector);
      searchRange := searchRange / 2;
      var end := U16(d, search + searchRange * 2);
      if c > end {
        search := search + searchRange * 2;
        p := p + searchRange;
      }
      entrySelector := entrySelector - 1;
    }
    search := search + 2;
    item := (search - endCount) / 2;
    PowOfNone();
    WindowOfOne(d, base, c, p);
  }

  method FindGlyph(d: seq<Byte>, base: nat, c: int) returns (g: int)
    requires WellFormed(d, base)
    ensures g == if c > 0xFFFF then 0 else Scan(d, base, c, 0)
  {
    if c > 0xFFFF {
      return 0;
    }
    var segcount := U16(d, base + 6) / 2;
    var item := SearchSegments(d, base, c);
    ScanStopsAtSelected(d, base, c, item, 0);
    var start := U16(d, base + 14 + segcount * 2 + 2 + 2 * item);
    var last := U16(d, base + 14 + 2 * item);
    if c < start || c > last {
      return 0;
    }
    var offset := U16(d, base + 14 + segcount * 6 + 2 + 2 * item);
    if offset == 0 {
      return (c + U16(d, base + 14 + segcount * 4 + 2 + 2 * item)) % 0x1_0000;
    }
    g := U16(d, offset + (c - start) * 2 + base + 14 + segcount * 6 + 2 + 2 * item);
  }

  lemma GlyphInWords(d: seq<Byte>, base: nat, c: int, s: int)
    requires WellFormed(d, base) && c <= 0xFFFF && Selects(d, base, c, s)
    ensures var n := U16(d, base + 6) / 2;
            && base + 16 + 6 * n + 2 * s + 2 <= |d|
            && var start, delta := U16(d, base + 16 + 2 * n + 2 * s), U16(d, base + 16 + 4 * n + 2 * s);
            var offset := U16(d, base + 16 + 6 * n + 2 * s);
            && (c < start ==> GlyphIn(d, base, c, s) == 0)
            && (start <= c && offset == 0 ==> GlyphIn(d, base, c, s) == (c + delta) % 0x1_0000)
            && (start <= c && offset != 0 ==>
                  && base + 16 + 6 * n + 2 * s + offset + 2 * (c - start) + 2 <= |d|
                  && GlyphIn(d, base, c, s) == U16(d, base + 16 + 6 * n + 2 * s + offset + 2 * (c - start)))
  {
    hide U16, Selects;
    assert c <= EndCode(d, base, s) by { SelectedReaches(d, base, c, s); }
    GlyphAddressInside(d, base, s, c);
  }

  lemma SelectedReaches(d: seq<Byte>, base: nat, c: int, s: int)
    requires WellFormed(d, base) && Selects(d, base, c, s)
    ensures 0 <= s < SegCount(d, base) && c <= EndCode(d, base, s)
  {}

  lemma GlyphAddressInside(d: seq<Byte>, base: nat, s: nat, c: int)
    requires WellFormed(d, base) && s < SegCount(d, base) && c <= EndCode(d, base, s)
    ensures RangeOffset(d, base, s) != 0 ==> GlyphAddress(d, base, s, c) + 2 <= |d|
  {
    assert GlyphAddress(d, base, s, c) <= GlyphAddress(d, base, s, EndCode(d, base, s));
  }

  // The lookup in the words of the table: none outside the segment, the character moved by the
  // signed delta where the range offset is zero, and else the word the offset leads to.
  lemma LookupInWords(d: seq<Byte>, base: nat, c: int, s: int)
    requires WellFormed(d, base) && c <= 0xFFFF && Selects(d, base, c, s)
    ensures var n := U16(d, base + 6) / 2;
            && base + 16 + 6 * n + 2 * s + 2 <= |d|
            && var start, delta := U16(d, base + 16 + 2 * n + 2 * s), U16(d, base + 16 + 4 * n + 2 * s);
            var offset := U16(d, base + 16 + 6 * n + 2 * s);
            && (c < start ==> Scan(d, base, c, 0) == 0)
            && (start <= c && offset == 0 ==> Scan(d, base, c, 0) == (c + delta) % 0x1_0000)
            && (start <= c && offset != 0 ==>
                  && base + 16 + 6 * n + 2 * s + offset + 2 * (c - start) + 2 <= |d|
                  && Scan(d, base, c, 0) == U16(d, base + 16 + 6 * n + 2 * s + offset + 2 * (c - start)))
  {
    hide U16, Selects, GlyphIn, Scan, WellFormed;
    SelectedReaches(d, base, c, s);
    GlyphInWords(d, base, c, s);
    ScanStopsAtSelected(d, base, c, s, 0);
  }

  // The glyph OpenType defines, on the words of the table: idDelta is added to a glyph read through
  // a range offset too, unless that is the missing glyph 0. The source returns the word as read.
  function OpenTypeGlyphIn(d: seq<Byte>, base: nat, c: int, s: int): int
    requires WellFormed(d, base) && 0 <= s < SegCount(d, base)
  {
    var n := U16(d, base + 6) / 2;
    var end, start := U16(d, base + 14 + 2 * s), U16(d, base + 16 + 2 * n + 2 * s);
    var delta, offset := U16(d, base + 16 + 4 * n + 2 * s), U16(d, base + 16 + 6 * n + 2 * s);
    if c < start || end < c then 0
    else if offset == 0 then (c + delta) % 0x1_0000
    else
      assert GlyphAddress(d, base, s, c) == base + 16 + 6 * n + 2 * s + offset + 2 * (c - start);
      assert GlyphAddress(d, base, s, c) <= GlyphAddress(d, base, s, EndCode(d, base, s));
      var g := U16(d, base + 16 + 6 * n + 2 * s + offset + 2 * (c - start));
      if g == 0 then 0 else (g + delta) % 0x1_0000
  }

  // The lookup meets OpenType exactly where no non-zero delta accompanies a range offset that
  // leads to a glyph.
  lemma MatchesOpenType(d: seq<Byte>, base: nat, c: int, s: int)
    requires WellFormed(d, base) && c <= 0xFFFF && Selects(d, base, c, s)
    ensures Scan(d, base, c, 0) == OpenTypeGlyphIn(d, base, c, s) <==>
              (c < StartCode(d, base, s) || RangeOffset(d, base, s) == 0 ||
               IdDelta(d, base, s) == 0 || U16(d, GlyphAddress(d, base, s, c)) == 0)
  {
    hide U16;
    ScanStopsAtSelected(d, base, c, s, 0);
    hide Scan, Selects;
  }

  // The usual ASCII segment, 32 to 126 moved down by 29, and the closing one.
  const ASCII_TABLE: seq<Byte> :=
    [0, 4, 0, 32, 0, 0, 0, 4, 0, 4, 0, 1, 0, 0, 0, 126, 0xFF, 0xFF, 0, 0,
     0, 32, 0xFF, 0xFF, 0xFF, 0xE3, 0, 1, 0, 0, 0, 0]

  lemma AsciiTableHead()
    ensures var d := ASCII_TABLE;
            |d| == 32 && U16(d, 6) == 4 && U16(d, 8) == 4 && U16(d, 10) == 1 && U16(d, 12) == 0 && U16(d, 14) == 126
  {}

  lemma AsciiTableTail()
    ensures var d := ASCII_TABLE;
            && |d| == 32 && U16(d, 16) == 0xFFFF && U16(d, 20) == 32 && U16(d, 22) == 0xFFFF
            && U16(d, 24) == 0xFFE3 && U16(d, 26) == 1 && U16(d, 28) == 0 && U16(d, 30) == 0
  {}

  // Any table of these words.
  ghost predicate AsciiWords(d: seq<Byte>) {
    && |d| == 32 && U16(d, 6) == 4 && U16(d, 8) == 4 && U16(d, 10) == 1 && U16(d, 12) == 0
    && U16(d, 14) == 126 && U16(d, 16) == 0xFFFF && U16(d, 20) == 32 && U16(d, 22) == 0xFFFF
    && U16(d, 24) == 0xFFE3 && U16(d, 26) == 1 && U16(d, 28) == 0 && U16(d, 30) == 0
  }

  lemma AsciiIsWellFormed(d: seq<Byte>)
    requires AsciiWords(d)
    ensures WellFormed(d, 0) && Selects(d, 0, 65, 0) && Selects(d, 0, 31, 0) && Selects(d, 0, 127, 1)
  {
    hide U16;
    assert Pow2(1) == 2 * Pow2(0) == 2;
    assert Fits(d, 0) && SegCount(d, 0) == 2;
    assert EndCode(d, 0, 0) == 126 && EndCode(d, 0, 1) == 0xFFFF;
    assert RangeOffset(d, 0, 0) == 0 && RangeOffset(d, 0, 1) == 0;
  }

  lemma LetterA()
    ensures WellFormed(ASCII_TABLE, 0)
    ensures Scan(ASCII_TABLE, 0, 65, 0) == 36 && OpenTypeGlyphIn(ASCII_TABLE, 0, 65, 0) == 36
    ensures Scan(ASCII_TABLE, 0, 31, 0) == 0 && Scan(ASCII_TABLE, 0, 127, 0) == 0
  {
    hide U16, WellFormed, Scan, OpenTypeGlyphIn;
    AsciiTableHead();
    AsciiTableTail();
    AsciiLookups(ASCII_TABLE);
  }

  lemma AsciiLookups(d: seq<Byte>)
    requires AsciiWords(d)
    ensures WellFormed(d, 0)
    ensures Scan(d, 0, 65, 0) == 36 && OpenTypeGlyphIn(d, 0, 65, 0) == 36
    ensures Scan(d, 0, 31, 0) == 0 && Scan(d, 0, 127, 0) == 0
  {
    hide U16, WellFormed, Selects, Scan;
    AsciiIsWellFormed(d);
    LookupInWords(d, 0, 65, 0);
    LookupInWords(d, 0, 31, 0);
    LookupInWords(d, 0, 127, 1);
  }

  // One segment holding U+FFFF alone, delta 1, and a range offset to the glyph word 5.
  const DELTA_TABLE: seq<Byte> :=
    [0, 4, 0, 26, 0, 0, 0, 2, 0, 2, 0, 0, 0, 0, 0xFF, 0xFF, 0, 0, 0xFF, 0xFF, 0, 1, 0, 2, 0, 5]

  lemma DeltaTableWords()
    ensures var d := DELTA_TABLE;
            && U16(d, 6) == 2 && U16(d, 8) == 2 && U16(d, 10) == 0 && U16(d, 12) == 0
            && U16(d, 14) == 0xFFFF && U16(d, 18) == 0xFFFF && U16(d, 20) == 1 && U16(d, 22) == 2
            && U16(d, 24) == 5
  {}

  lemma DeltaIgnored()
    ensures WellFormed(DELTA_TABLE, 0) && Selects(DELTA_TABLE, 0, 0xFFFF, 0)
    ensures Scan(DELTA_TABLE, 0, 0xFFFF, 0) == 5 && OpenTypeGlyphIn(DELTA_TABLE, 0, 0xFFFF, 0) == 6
  {
    hide U16;
    DeltaTableWords();
    assert |DELTA_TABLE| == 26 && Fits(DELTA_TABLE, 0);
  }
}
