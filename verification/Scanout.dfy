/** What the display paints and shows: frames, splash, black, modesets, and everything that can
    happen between them. Every painting is recorded with the kernel's state at that moment. */
module Scanout {
  import opened FrameGeometry
  import opened ScanoutModel

  // A painting that is committed next: the buffer, the kernel as it was painted, the pixels that
  // are not black afterwards, the text among them with what this frame drew of it, the rectangle of
  // the frame, whether bars must surround it, and whether the plane converts it.
  datatype Paint = Paint(fb: nat, kernel: Kernel, lit: Pixels, text: Pixels, osd: Pixels, rect: Rect, bars: bool, native: bool)

  // What an allocation needed on the way yields.
  datatype Alloc = Refused | Unmapped | Mapped

  // Which conversion a frame takes.
  datatype Path = DirectRgb | Software | NativeFirst

  function Region(p: Pixels, r: Rect): Pixels {
    set x | x in p && Inside(x, r)
  }

  function Outside(p: Pixels, r: Rect): Pixels {
    set x | x in p && !Inside(x, r)
  }

  // A display of some size, with its cache entries.
  predicate Ready(d: Display) {
    InRange(d) && |d.keys| == |d.ring| && 0 < d.width && 0 < d.height
  }

  // ---------- painting ----------

  // The current buffer, replaced when it is missing or of another size.
  function Readied(d: Display, a: Alloc): (e: Display)
    requires Ready(d)
    ensures Ready(e) && e.cur == d.cur && e.mode == d.mode
  {
    var b := d.ring[d.cur];
    if b.fb != 0 && b.width == d.width && b.height == d.height then d
    else
      var e := d.(ring := d.ring[d.cur := NO_BUFFER], kernel := Removed(d.kernel, {b.fb}));
      if a == Refused then e else WithBuffer(e, d.cur, a == Mapped)
  }

  predicate Paintable(d: Display)
    requires Ready(d)
  {
    d.ring[d.cur].fb != 0 && d.ring[d.cur].mapped
  }

  predicate CacheHit(k: FillKey, b: Buffer, mode: ScaleMode, painted: Rect) {
    b.width == k.w && b.height == k.h && mode == k.mode && painted == k.painted
  }

  // The same buffers, whatever is in them.
  predicate SameIds(d: Display, e: Display) {
    && |e.ring| == |d.ring| && |e.native| == |d.native| && |e.keys| == |d.keys|
    && (forall i :: 0 <= i < |d.ring| ==> e.ring[i].fb == d.ring[i].fb)
    && (forall i :: 0 <= i < |d.native| ==> e.native[i].fb == d.native[i].fb)
    && e.cur == d.cur && e.curNative == d.curNative && e.nextFb == d.nextFb && e.kernel == d.kernel
  }

  // fill_bg(): black bars, unless the cache says they are black already.
  function Filled(d: Display, painted: Rect): (e: Display)
    requires Ready(d)
    ensures Ready(e) && e.cur == d.cur && e.mode == d.mode && e.nativeState == d.nativeState && SameIds(d, e)
  {
    var b, k := d.ring[d.cur], d.keys[d.cur];
    if d.mode == Stretch then d.(keys := d.keys[d.cur := k.(w := 0)])
    else if CacheHit(k, b, d.mode, painted) then d
    else d.(ring := d.ring[d.cur := b.(lit := {}, text := {})], keys := d.keys[d.cur := FillKey(b.width, b.height, d.mode, painted)])
  }

  function WithLit(d: Display, lit: Pixels, text: Pixels): (e: Display)
    requires Ready(d)
    ensures Ready(e) && e.cur == d.cur && e.mode == d.mode && e.nativeState == d.nativeState && SameIds(d, e)
  {
    d.(ring := d.ring[d.cur := d.ring[d.cur].(lit := lit, text := text)])
  }

  // The frame into its rectangle, then the on-screen text over everything.
  function Drawn(d: Display, painted: Rect, content: Pixels, osd: Pixels): (e: Display)
    requires Ready(d)
    ensures Ready(e) && e.cur == d.cur && e.mode == d.mode && e.nativeState == d.nativeState && SameIds(d, e)
  {
    var f := Filled(d, painted);
    WithLit(f, Outside(f.ring[f.cur].lit, painted) + Region(content, painted) + osd, f.ring[f.cur].text + osd)
  }

  function RectOf(d: Display, path: Path, fw: nat, fh: nat): Rect
    requires 0 < d.height
  {
    var dr, sr := DstRect(d.mode, d.width, d.height, fw, fh), SrcRect(d.mode, d.width, d.height, fw, fh);
    if path == DirectRgb then CopiedRect(dr, sr) else dr
  }

  function RecordOf(d: Display, osd: Pixels, rect: Rect, bars: bool): Paint
    requires InRange(d)
  {
    Paint(d.ring[d.cur].fb, d.kernel, d.ring[d.cur].lit, d.ring[d.cur].text, osd, rect, bars, false)
  }

  // The XRGB path of show_frame_memory.
  function ShownRgb(d: Display, path: Path, fw: nat, fh: nat, content: Pixels, osd: Pixels,
                    a: Alloc, r: Reply): (s: (Display, seq<Paint>))
    requires Ready(d)
    ensures Ready(s.0)
  {
    var e := Readied(d, a);
    if !Paintable(e) then (e, [])
    else
      var rect := RectOf(e, path, fw, fh);
      var p := Drawn(e, rect, content, osd);
      (Committed(p, false, r), [RecordOf(p, osd, rect, p.mode != Stretch)])
  }

  // The native UYVY buffers, made ready: the colour must match, old buffers of another size go.
  function NativeReadied(d: Display, compatible: bool, n: nat, mapped: bool): (e: Display)
    requires Ready(d)
    ensures Ready(e)
  {
    if d.nativeState == -1 then d
    else if !compatible then d.(nativeState := -1)
    else if d.nativeState == 1 && d.native[0].width == d.width && d.native[0].height == d.height then d
    else
      var e := if d.nativeState == 1 then NativeFreed(d).(nativeState := 0) else d;
      NativeAllocated(e, 0, n, mapped)
  }

  // The plane's scaler overwrites the whole buffer, and paints whole pairs of the rectangle.
  function NativePainted(d: Display, content: Pixels, rect: Rect): (e: Display)
    requires InRange(d)
    ensures e == d.(native := e.native) && |e.native| == |d.native|
  {
    d.(native := d.native[d.curNative := d.native[d.curNative].(lit := Region(content, NativeRect(rect)))])
  }

  // The native commit: a refusal that is not a busy flip gives the path up.
  function NativeCommitted(d: Display, r: Reply): (s: (Display, bool))
    requires Ready(d)
    ensures Ready(s.0)
  {
    var (e, ok) := Commit(d, d.native[d.curNative].fb, r);
    if ok || e.flipPending then (Advanced(e, true, ok), true) else (NativeFreed(e).(nativeState := -1), false)
  }

  // The native attempt: the state, the painting, and whether the frame is dealt with.
  function ShownNative(d: Display, fw: nat, fh: nat, content: Pixels, r: Reply): (s: (Display, seq<Paint>, bool))
    requires Ready(d)
    ensures Ready(s.0)
  {
    var b := d.native[d.curNative];
    if d.nativeState != 1 || !b.mapped || b.fb == 0 then (d, [], false)
    else
      var rect := DstRect(d.mode, d.width, d.height, fw, fh);
      var p := NativePainted(d, content, rect);
      var (e, done) := NativeCommitted(p, r);
      (e, [Paint(b.fb, p.kernel, Region(content, NativeRect(rect)), {}, {}, rect, d.mode != Stretch, true)], done)
  }

  // A splash covers the whole buffer. It is not shown while another thread holds the display.
  function ShownSplash(d: Display, content: Pixels, a: Alloc, r: Reply): (s: (Display, seq<Paint>))
    requires Ready(d)
    ensures Ready(s.0)
  {
    var e := Readied(d, a);
    if !Paintable(e) then (e, [])
    else
      var p := WithLit(e, content, {}).(keys := Forgotten(e.keys));
      (Committed(p, false, r), [RecordOf(p, {}, Rect(0, 0, 0, 0), false)])
  }

  // Black needs no mapping: an unmapped buffer is committed as it is.
  function ShownBlack(d: Display, a: Alloc, r: Reply): (s: (Display, seq<Paint>))
    requires Ready(d)
    ensures Ready(s.0)
  {
    var e := Readied(d, a);
    if e.ring[e.cur].fb == 0 then (e, [])
    else
      var p := (if e.ring[e.cur].mapped then WithLit(e, {}, {}) else e).(keys := Forgotten(e.keys));
      (Committed(p, false, r), if e.ring[e.cur].mapped then [RecordOf(p, {}, Rect(0, 0, 0, 0), true)] else [])
  }

  // The first n buffers of a freed ring, allocated anew.
  function RingAllocated(d: Display, i: nat, n: nat, mapped: bool): (e: Display)
    requires i <= |d.ring|
    ensures |e.ring| == |d.ring| && e == d.(ring := e.ring, nextFb := e.nextFb)
    decreases |d.ring| - i
  {
    if i == |d.ring| || n <= i then d else RingAllocated(WithBuffer(d, i, mapped), i + 1, n, mapped)
  }

  // A modeset: all buffers go, new ones come, and black activates the mode.
  function ModeChanged(d: Display, w: nat, h: nat): Display {
    NativeFreed(RingFreed(d)).(width := w, height := h, nativeState := if d.rotated then -1 else 0,
                               crtcActive := false, keys := Forgotten(d.keys))
  }

  // A mode without pixels is never available.
  function SetModeTo(d: Display, w: nat, h: nat, n: nat, mapped: bool, r: Reply): (s: (Display, seq<Paint>))
    requires Ready(d)
    ensures Ready(s.0)
  {
    if w == 0 || h == 0 then (d, [])
    else
      var e := RingAllocated(ModeChanged(d, w, h), 0, n, mapped);
      if n < |d.ring| then (e, []) else ShownBlack(e, Mapped, r)
  }

  // destroy(), and the display set up again, as after a hotplug.
  function Reopened(d: Display, w: nat, h: nat, n: nat, mapped: bool): (e: Display)
    requires Ready(d)
    ensures Ready(e)
  {
    if w == 0 || h == 0 then d else
    var e := ModeChanged(d, w, h).(cur := 0, curNative := 0, flipPending := false, kernel := Kernel(0, 0, 0));
    RingAllocated(e, 0, n, mapped)
  }

  // ---------- runs ----------

  datatype Event =
    | Frame(path: Path, fw: nat, fh: nat, content: Pixels, osd: Pixels, compatible: bool, natives: nat, a: Alloc, r: Reply, r': Reply)
    | Splash(content: Pixels, a: Alloc, r: Reply)
    | Black(a: Alloc, r: Reply)
    | Mode(w: nat, h: nat, n: nat, mapped: bool, r: Reply)
    | Reopen(w: nat, h: nat, n: nat, mapped: bool)
    | Scale(mode: ScaleMode)
    | Rotate(turned: bool)
    | ResetFlip
    | FlipDone
    | LateEvent

  // The native path comes first; what it does not deal with is converted to XRGB.
  function ShownUyvy(d: Display, fw: nat, fh: nat, content: Pixels, osd: Pixels,
                     compatible: bool, natives: nat, a: Alloc, r: Reply, r': Reply): (s: (Display, seq<Paint>))
    requires Ready(d)
    ensures Ready(s.0)
  {
    var (n, paints, done) := ShownNative(NativeReadied(d, compatible, natives, a == Mapped), fw, fh, content, r);
    if done then (n, paints)
    else
      var (x, more) := ShownRgb(n, Software, fw, fh, content, osd, a, r');
      (x, paints + more)
  }

  function Step(d: Display, e: Event): (s: (Display, seq<Paint>))
    requires Ready(d)
    ensures Ready(s.0)
  {
    match e
    case Frame(path, fw, fh, content, osd, compatible, natives, a, r, r') =>
      if path == NativeFirst then ShownUyvy(d, fw, fh, content, osd, compatible, natives, a, r, r')
      else ShownRgb(d, path, fw, fh, content, osd, a, r)
    case Splash(content, a, r) => ShownSplash(d, content, a, r)
    case Black(a, r) => ShownBlack(d, a, r)
    case Mode(w, h, n, mapped, r) => SetModeTo(d, w, h, n, mapped, r)
    case Reopen(w, h, n, mapped) => (Reopened(d, w, h, n, mapped), [])
    case Scale(mode) => (d.(mode := mode), [])
    case Rotate(turned) =>
      (d.(rotated := turned, rotationDirty := true, keys := Forgotten(d.keys), nativeState := if turned then -1 else 0), [])
    case ResetFlip => (d.(flipPending := false), [])
    case FlipDone => (d.(kernel := Vblank(d.kernel)), [])
    case LateEvent => (d.(kernel := d.kernel.(events := d.kernel.events + 1)), [])
  }

  // ---------- no painting on screen ----------

  // Safety looks at the buffers' ids only.
  lemma SameIdsSafe(d: Display, e: Display)
    requires Safe(d) && SameIds(d, e) && (e.nativeState == 1 ==> d.nativeState == 1)
    ensures Safe(e)
  {
    SameIdsRing(d.ring, e.ring, d.cur, d.kernel);
    if e.nativeState == 1 { SameIdsRing(d.native, e.native, d.curNative, d.kernel); }
  }

  lemma SameIdsRing(r: seq<Buffer>, s: seq<Buffer>, cur: nat, k: Kernel)
    requires RingSafe(r, cur, k) && |s| == |r| && forall i :: 0 <= i < |r| ==> s[i].fb == r[i].fb
    ensures RingSafe(s, cur, k)
  {
    if Holds(r, k.pending) {
      var i :| 0 <= i < |r| && r[i].fb == k.pending;
      assert s[i].fb == k.pending;
    }
  }

  lemma ReadiedSafe(d: Display, a: Alloc)
    requires Ready(d) && Safe(d)
    ensures Safe(Readied(d, a))
  {
    var b := d.ring[d.cur];
    var e := d.(ring := d.ring[d.cur := NO_BUFFER], kernel := Removed(d.kernel, {b.fb}));
    assert e.kernel == d.kernel;
    if Holds(d.ring, d.kernel.pending) {
      var j :| 0 <= j < |d.ring| && d.ring[j].fb == d.kernel.pending;
      assert d.kernel.pending != 0 ==> e.ring[j].fb == d.kernel.pending;
    }
    assert Safe(e);
    WithBufferSafe(e, d.cur, a == Mapped);
  }

  lemma DrawnSafe(d: Display, painted: Rect, content: Pixels, osd: Pixels)
    requires Ready(d) && Safe(d)
    ensures Safe(Drawn(d, painted, content, osd))
    ensures Drawn(d, painted, content, osd).ring[d.cur].fb == d.ring[d.cur].fb
  {
    hide Drawn, Safe;
    SameIdsSafe(d, Drawn(d, painted, content, osd));
  }

  // Nothing that was painted is on screen or queued.
  ghost predicate AllHidden(paints: seq<Paint>) {
    forall i :: 0 <= i < |paints| ==> !Busy(paints[i].fb, paints[i].kernel)
  }

  lemma ShownRgbSafe(d: Display, path: Path, fw: nat, fh: nat, content: Pixels, osd: Pixels, a: Alloc, r: Reply)
    requires Ready(d) && Safe(d)
    ensures var (e, paints) := ShownRgb(d, path, fw, fh, content, osd, a, r); Safe(e) && AllHidden(paints)
  {
    ReadiedSafe(d, a);
    var e := Readied(d, a);
    if Paintable(e) {
      var rect := RectOf(e, path, fw, fh);
      DrawnSafe(e, rect, content, osd);
      CommittedSafe(Drawn(e, rect, content, osd), false, r);
    }
  }

  lemma ShownSplashSafe(d: Display, content: Pixels, a: Alloc, r: Reply)
    requires Ready(d) && Safe(d)
    ensures var (e, paints) := ShownSplash(d, content, a, r); Safe(e) && AllHidden(paints)
  {
    ReadiedSafe(d, a);
    var e := Readied(d, a);
    if Paintable(e) {
      var p := WithLit(e, content, {}).(keys := Forgotten(e.keys));
      SameIdsSafe(e, p);
      CommittedSafe(p, false, r);
    }
  }

  lemma ShownBlackSafe(d: Display, a: Alloc, r: Reply)
    requires Ready(d) && Safe(d)
    ensures var (e, paints) := ShownBlack(d, a, r); Safe(e) && AllHidden(paints)
  {
    ReadiedSafe(d, a);
    var e := Readied(d, a);
    if e.ring[e.cur].fb != 0 {
      var p := (if e.ring[e.cur].mapped then WithLit(e, {}, {}) else e).(keys := Forgotten(e.keys));
      SameIdsSafe(e, p);
      CommittedSafe(p, false, r);
    }
  }

  lemma NativeReadiedSafe(d: Display, compatible: bool, n: nat, mapped: bool)
    requires Ready(d) && Safe(d)
    ensures Safe(NativeReadied(d, compatible, n, mapped))
  {
    SameIdsSafe(d, d.(nativeState := -1));
    NativeFreedSafe(d);
    var f := NativeFreed(d).(nativeState := 0);
    SameIdsSafe(NativeFreed(d), f);
    if d.nativeState == 1 {
      NativeAllocatedSafe(f, 0, n, mapped);
    } else {
      NativeAllocatedSafe(d, 0, n, mapped);
    }
  }

  lemma ShownNativeSafe(d: Display, fw: nat, fh: nat, content: Pixels, r: Reply)
    requires Ready(d) && Safe(d)
    ensures var (e, paints, _) := ShownNative(d, fw, fh, content, r); Safe(e) && AllHidden(paints)
  {
    var b := d.native[d.curNative];
    if d.nativeState == 1 && b.mapped && b.fb != 0 {
      var rect := DstRect(d.mode, d.width, d.height, fw, fh);
      var p := NativePainted(d, content, rect);
      SameIdsSafe(d, p);
      CommittedSafe(p, true, r);
      var (e, ok) := Commit(p, b.fb, r);
      if !ok {
        NativeFreedSafe(e);
        SameIdsSafe(NativeFreed(e), NativeFreed(e).(nativeState := -1));
      }
    }
  }

  lemma {:induction false} RingAllocatedSafe(d: Display, i: nat, n: nat, mapped: bool)
    requires Safe(d) && i <= |d.ring| && forall j :: i <= j < |d.ring| ==> d.ring[j].fb == 0
    ensures Safe(RingAllocated(d, i, n, mapped))
    decreases |d.ring| - i
  {
    if i < |d.ring| && i < n {
      WithBufferSafe(d, i, mapped);
      RingAllocatedSafe(WithBuffer(d, i, mapped), i + 1, n, mapped);
    }
  }

  lemma ModeChangedSafe(d: Display, w: nat, h: nat)
    requires Safe(d)
    ensures Safe(ModeChanged(d, w, h)) && ModeChanged(d, w, h).ring == Emptied(d.ring)
  {
    RingFreedSafe(d);
    NativeFreedSafe(RingFreed(d));
    SameIdsSafe(NativeFreed(RingFreed(d)), ModeChanged(d, w, h));
  }

  lemma ReopenedSafe(d: Display, w: nat, h: nat, n: nat, mapped: bool)
    requires Ready(d) && Safe(d)
    ensures Safe(Reopened(d, w, h, n, mapped))
  {
    ModeChangedSafe(d, w, h);
    var e := ModeChanged(d, w, h).(cur := 0, curNative := 0, flipPending := false, kernel := Kernel(0, 0, 0));
    assert Safe(e);
    RingAllocatedSafe(e, 0, n, mapped);
  }

  lemma SetModeToSafe(d: Display, w: nat, h: nat, n: nat, mapped: bool, r: Reply)
    requires Ready(d) && Safe(d)
    ensures var (e, paints) := SetModeTo(d, w, h, n, mapped, r); Safe(e) && AllHidden(paints)
  {
    ModeChangedSafe(d, w, h);
    RingAllocatedSafe(ModeChanged(d, w, h), 0, n, mapped);
    if w != 0 && h != 0 {
      ShownBlackSafe(RingAllocated(ModeChanged(d, w, h), 0, n, mapped), Mapped, r);
    }
  }

  lemma ShownUyvySafe(d: Display, fw: nat, fh: nat, content: Pixels, osd: Pixels,
                      compatible: bool, natives: nat, a: Alloc, r: Reply, r': Reply)
    requires Ready(d) && Safe(d)
    ensures var (e, paints) := ShownUyvy(d, fw, fh, content, osd, compatible, natives, a, r, r'); Safe(e) && AllHidden(paints)
  {
    hide Safe, NativeReadied, ShownNative, ShownRgb;
    NativeReadiedSafe(d, compatible, natives, a == Mapped);
    var ready := NativeReadied(d, compatible, natives, a == Mapped);
    ShownNativeSafe(ready, fw, fh, content, r);
    ShownRgbSafe(ShownNative(ready, fw, fh, content, r).0, Software, fw, fh, content, osd, a, r');
  }

  // A vertical blank, or an event that arrives late.
  lemma KernelStepSafe(d: Display)
    requires Safe(d)
    ensures Safe(d.(kernel := Vblank(d.kernel))) && Safe(d.(kernel := d.kernel.(events := d.kernel.events + 1)))
  {
    hide RingSafe;
    VblankSafe(d.ring, d.cur, d.kernel, d.kernel.events + 1);
    if d.nativeState == 1 { VblankSafe(d.native, d.curNative, d.kernel, d.kernel.events + 1); }
  }

  // Whatever happens next keeps the display safe, and paints nothing visible.
  lemma StepSafe(d: Display, e: Event)
    requires Ready(d) && Safe(d)
    ensures Safe(Step(d, e).0) && AllHidden(Step(d, e).1)
  {
    hide Safe, ShownRgb, ShownUyvy, ShownSplash, ShownBlack, SetModeTo, Reopened, Vblank, Busy;
    match e
    case Frame(path, fw, fh, content, osd, compatible, natives, a, r, r') =>
      if path == NativeFirst {
        ShownUyvySafe(d, fw, fh, content, osd, compatible, natives, a, r, r');
      } else {
        ShownRgbSafe(d, path, fw, fh, content, osd, a, r);
      }
    case Splash(content, a, r) => ShownSplashSafe(d, content, a, r);
    case Black(a, r) => ShownBlackSafe(d, a, r);
    case Mode(w, h, n, mapped, r) => SetModeToSafe(d, w, h, n, mapped, r);
    case Reopen(w, h, n, mapped) => ReopenedSafe(d, w, h, n, mapped);
    case Scale(mode) => SameIdsSafe(d, d.(mode := mode));
    case Rotate(turned) => SameIdsSafe(d, Step(d, e).0);
    case ResetFlip => SameIdsSafe(d, d.(flipPending := false));
    case FlipDone => KernelStepSafe(d);
    case LateEvent => KernelStepSafe(d);
  }

  function Run(d: Display, events: seq<Event>): (s: (Display, seq<Paint>))
    requires Ready(d)
    ensures Ready(s.0)
    decreases |events|
  {
    if events == [] then (d, [])
    else
      var (e, paints) := Step(d, events[0]);
      var (last, more) := Run(e, events[1..]);
      (last, paints + more)
  }

  // A display just set up: no buffers, nothing on screen.
  function Fresh(n: nat, w: nat, h: nat, mode: ScaleMode): Display {
    Display(seq(n, _ => NO_BUFFER), 0, seq(n, _ => FillKey(0, 0, Stretch, Rect(0, 0, 0, 0))),
            seq(n, _ => NO_BUFFER), 0, 0, w, h, mode, false, false, false, false, 1, Kernel(0, 0, 0))
  }

  lemma FreshIsSafe(n: nat, w: nat, h: nat, mode: ScaleMode)
    requires 3 <= n && 0 < w && 0 < h
    ensures Ready(Fresh(n, w, h, mode)) && Safe(Fresh(n, w, h, mode))
  {}

  lemma {:induction false} RunSafe(d: Display, events: seq<Event>)
    requires Ready(d) && Safe(d)
    ensures Safe(Run(d, events).0) && AllHidden(Run(d, events).1)
    decreases |events|
  {
    if events != [] {
      StepSafe(d, events[0]);
      RunSafe(Step(d, events[0]).0, events[1..]);
    }
  }

  // Triple buffering is safe: over every interleaving of frames on either path, splashes, black,
  // modesets, rotations, hotplugs, dropped and refused flips, late events and forced resets, no
  // buffer is painted while it is on screen or queued.
  lemma NeverPaintsVisible(w: nat, h: nat, mode: ScaleMode, events: seq<Event>)
    requires 0 < w && 0 < h
    ensures Ready(Fresh(3, w, h, mode)) && AllHidden(Run(Fresh(3, w, h, mode), events).1)
  {
    FreshIsSafe(3, w, h, mode);
    RunSafe(Fresh(3, w, h, mode), events);
  }
}
