/** The fill cache agrees with the pixels although it skips most clears: what is lit on a bar of a
    frame converted in software is exactly the text drawn there since the buffer was last cleared. */
module FillCache {
  import opened FrameGeometry
  import opened ScanoutModel
  import opened Scanout

  // The entry of slot i could be hit: the buffer has the size it was cleared at.
  predicate Live(k: FillKey, b: Buffer) {
    0 < k.w && k.w == b.width && k.h == b.height
  }

  // Where an entry could be hit, only text is lit outside its rectangle.
  ghost predicate Agrees(d: Display) {
    && |d.keys| == |d.ring|
    && (forall i :: 0 <= i < |d.ring| && d.ring[i].fb != 0 ==> 0 < d.ring[i].width)
    && forall i :: 0 <= i < |d.ring| && Live(d.keys[i], d.ring[i]) ==>
         Outside(d.ring[i].lit, d.keys[i].painted) == Outside(d.ring[i].text, d.keys[i].painted)
  }

  // What is lit on the bars: the text in the buffer, or beyond what the plane's scaler paints, nothing.
  ghost predicate OnlyTextOnBars(p: Paint) {
    p.bars ==>
      if p.native then Outside(p.lit, NativeRect(p.rect)) == {} else Outside(p.lit, p.rect) == Outside(p.text, p.rect)
  }

  ghost predicate BarsTell(paints: seq<Paint>) {
    forall i :: 0 <= i < |paints| ==> OnlyTextOnBars(paints[i])
  }

  lemma ForgottenAgrees(d: Display, e: Display)
    requires Agrees(d) && e.keys == Forgotten(d.keys) && |e.ring| == |d.ring|
    requires forall i :: 0 <= i < |e.ring| && e.ring[i].fb != 0 ==> 0 < e.ring[i].width
    ensures Agrees(e)
  {}

  lemma CommittedAgrees(d: Display, onNative: bool, r: Reply)
    requires Agrees(d) && InRange(d)
    ensures Agrees(Committed(d, onNative, r))
  {
    hide AtomicCommit, Awaited;
    var (e, ok) := Commit(d, CurrentFb(d, onNative), r);
    if e.keys == Forgotten(d.keys) {
      ForgottenAgrees(d, Committed(d, onNative, r));
    }
  }

  lemma ReadiedAgrees(d: Display, a: Alloc)
    requires Ready(d) && Agrees(d)
    ensures Agrees(Readied(d, a))
  {}

  // One frame keeps the agreement, whether the cache is hit or not, and leaves only text on the bars.
  lemma DrawnAgrees(d: Display, painted: Rect, content: Pixels, osd: Pixels)
    requires Ready(d) && Agrees(d) && Paintable(d)
    ensures var e := Drawn(d, painted, content, osd);
            Agrees(e) && (d.mode != Stretch ==> Outside(e.ring[e.cur].lit, painted) == Outside(e.ring[e.cur].text, painted))
  {
    var e, f := Drawn(d, painted, content, osd), Filled(d, painted);
    var b, k := d.ring[d.cur], d.keys[d.cur];
    assert d.mode != Stretch && CacheHit(k, b, d.mode, painted) ==> Live(k, b);
    var lit, text := f.ring[f.cur].lit, f.ring[f.cur].text;
    assert d.mode != Stretch ==> Outside(lit, painted) == Outside(text, painted);
    assert Outside(e.ring[e.cur].lit, painted) == Outside(lit, painted) + Outside(osd, painted);
    assert Outside(e.ring[e.cur].text, painted) == Outside(text, painted) + Outside(osd, painted);
  }

  // Text drawn on a bar stays there: the next frame without text hits the cache and keeps it.
  lemma TextStaysInBars(d: Display, painted: Rect, content: Pixels, next: Pixels, x: (nat, nat))
    requires Ready(d) && Paintable(d) && d.mode != Stretch && !Inside(x, painted)
    ensures var e := Drawn(d, painted, content, {x});
            x in Outside(Drawn(e, painted, next, {}).ring[d.cur].lit, painted)
  {
    var e := Drawn(d, painted, content, {x});
    assert CacheHit(e.keys[e.cur], e.ring[e.cur], e.mode, painted);
  }

  lemma ShownRgbAgrees(d: Display, path: Path, fw: nat, fh: nat, content: Pixels, osd: Pixels, a: Alloc, r: Reply)
    requires Ready(d) && Agrees(d)
    ensures var (e, paints) := ShownRgb(d, path, fw, fh, content, osd, a, r); Agrees(e) && BarsTell(paints)
  {
    ReadiedAgrees(d, a);
    var e := Readied(d, a);
    if Paintable(e) {
      var rect := RectOf(e, path, fw, fh);
      DrawnAgrees(e, rect, content, osd);
      CommittedAgrees(Drawn(e, rect, content, osd), false, r);
    }
  }

  lemma ShownSplashAgrees(d: Display, content: Pixels, a: Alloc, r: Reply)
    requires Ready(d) && Agrees(d)
    ensures var (e, paints) := ShownSplash(d, content, a, r); Agrees(e) && BarsTell(paints)
  {
    ReadiedAgrees(d, a);
    var e := Readied(d, a);
    if Paintable(e) {
      var p := WithLit(e, content, {}).(keys := Forgotten(e.keys));
      ForgottenAgrees(e, p);
      CommittedAgrees(p, false, r);
    }
  }

  lemma ShownBlackAgrees(d: Display, a: Alloc, r: Reply)
    requires Ready(d) && Agrees(d)
    ensures var (e, paints) := ShownBlack(d, a, r); Agrees(e) && BarsTell(paints)
  {
    ReadiedAgrees(d, a);
    var e := Readied(d, a);
    if e.ring[e.cur].fb != 0 {
      var p := (if e.ring[e.cur].mapped then WithLit(e, {}, {}) else e).(keys := Forgotten(e.keys));
      ForgottenAgrees(e, p);
      CommittedAgrees(p, false, r);
    }
  }

  // The native path leaves the ring alone, and clears its own buffer on every frame.
  lemma NativeReadiedKeeps(d: Display, compatible: bool, natives: nat, mapped: bool)
    requires Ready(d)
    ensures var e := NativeReadied(d, compatible, natives, mapped); e.ring == d.ring && e.keys == d.keys
  {}

  lemma ShownNativeAgrees(d: Display, fw: nat, fh: nat, content: Pixels, r: Reply)
    requires Ready(d) && Agrees(d)
    ensures var (e, paints, _) := ShownNative(d, fw, fh, content, r); Agrees(e) && BarsTell(paints)
  {
    hide Commit, DstRect;
    var (e, paints, _) := ShownNative(d, fw, fh, content, r);
    if e.keys == Forgotten(d.keys) { ForgottenAgrees(d, e); }
  }

  lemma ShownUyvyAgrees(d: Display, fw: nat, fh: nat, content: Pixels, osd: Pixels,
                        compatible: bool, natives: nat, a: Alloc, r: Reply, r': Reply)
    requires Ready(d) && Agrees(d)
    ensures var (e, paints) := ShownUyvy(d, fw, fh, content, osd, compatible, natives, a, r, r'); Agrees(e) && BarsTell(paints)
  {
    hide NativeReadied, ShownNative, ShownRgb;
    var ready := NativeReadied(d, compatible, natives, a == Mapped);
    NativeReadiedKeeps(d, compatible, natives, a == Mapped);
    ShownNativeAgrees(ready, fw, fh, content, r);
    var (n, paints, done) := ShownNative(ready, fw, fh, content, r);
    if !done {
      ShownRgbAgrees(n, Software, fw, fh, content, osd, a, r');
    }
  }

  lemma {:induction false} RingAllocatedAgrees(d: Display, i: nat, n: nat, mapped: bool)
    requires Agrees(d) && i <= |d.ring| && 0 < d.width
    ensures Agrees(RingAllocated(d, i, n, mapped))
    decreases |d.ring| - i
  {
    if i < |d.ring| && i < n {
      RingAllocatedAgrees(WithBuffer(d, i, mapped), i + 1, n, mapped);
    }
  }

  lemma StepAgrees(d: Display, e: Event)
    requires Ready(d) && Agrees(d)
    ensures Agrees(Step(d, e).0) && BarsTell(Step(d, e).1)
  {
    hide ShownRgb, ShownUyvy, ShownSplash, ShownBlack;
    match e
    case Frame(path, fw, fh, content, osd, compatible, natives, a, r, r') =>
      if path == NativeFirst {
        ShownUyvyAgrees(d, fw, fh, content, osd, compatible, natives, a, r, r');
      } else {
        ShownRgbAgrees(d, path, fw, fh, content, osd, a, r);
      }
    case Splash(content, a, r) => ShownSplashAgrees(d, content, a, r);
    case Black(a, r) => ShownBlackAgrees(d, a, r);
    case Mode(w, h, n, mapped, r) =>
      if w != 0 && h != 0 {
        ForgottenAgrees(d, ModeChanged(d, w, h));
        RingAllocatedAgrees(ModeChanged(d, w, h), 0, n, mapped);
        ShownBlackAgrees(RingAllocated(ModeChanged(d, w, h), 0, n, mapped), Mapped, r);
      }
    case Reopen(w, h, n, mapped) =>
      if w != 0 && h != 0 {
        var f := ModeChanged(d, w, h).(cur := 0, curNative := 0, flipPending := false, kernel := Kernel(0, 0, 0));
        ForgottenAgrees(d, f);
        RingAllocatedAgrees(f, 0, n, mapped);
      }
    case Rotate(turned) => ForgottenAgrees(d, Step(d, e).0);
    case _ =>
  }

  lemma {:induction false} RunAgrees(d: Display, events: seq<Event>)
    requires Ready(d) && Agrees(d)
    ensures Agrees(Run(d, events).0) && BarsTell(Run(d, events).1)
    decreases |events|
  {
    if events != [] {
      StepAgrees(d, events[0]);
      RunAgrees(Step(d, events[0]).0, events[1..]);
    }
  }

  // Over every run a letterboxed or cropped frame converted in software is committed with black
  // bars exactly if none of the text drawn into its buffer since the last clear lies on them.
  lemma BarsBlackIff(w: nat, h: nat, mode: ScaleMode, events: seq<Event>)
    requires 0 < w && 0 < h
    ensures var log := Run(Fresh(3, w, h, mode), events).1;
            forall i :: 0 <= i < |log| && log[i].bars && !log[i].native ==>
              (Outside(log[i].lit, log[i].rect) == {} <==> Outside(log[i].text, log[i].rect) == {})
  {
    hide Run;
    FreshAgrees(w, h, mode);
    RunAgrees(Fresh(3, w, h, mode), events);
    var log := Run(Fresh(3, w, h, mode), events).1;
    assert forall i :: 0 <= i < |log| ==> OnlyTextOnBars(log[i]);
  }

  // ---------- text inside the picture ----------

  ghost predicate TextInside(paints: seq<Paint>) {
    forall i :: 0 <= i < |paints| ==> Outside(paints[i].osd, paints[i].rect) == {}
  }

  // Where an entry could be hit, no text lies outside its rectangle.
  ghost predicate TextFits(d: Display) {
    |d.keys| == |d.ring| &&
    forall i :: 0 <= i < |d.ring| && Live(d.keys[i], d.ring[i]) ==> Outside(d.ring[i].text, d.keys[i].painted) == {}
  }

  ghost predicate NoTextOnBars(paints: seq<Paint>) {
    forall i :: 0 <= i < |paints| && paints[i].bars ==> Outside(paints[i].text, paints[i].rect) == {}
  }

  lemma ForgottenFits(d: Display, e: Display)
    requires e.keys == Forgotten(d.keys) && |e.ring| == |d.keys|
    ensures TextFits(e)
  {}

  lemma CommittedFits(d: Display, onNative: bool, r: Reply)
    requires TextFits(d) && InRange(d)
    ensures TextFits(Committed(d, onNative, r))
  {
    hide AtomicCommit, Awaited;
    var (e, ok) := Commit(d, CurrentFb(d, onNative), r);
    if e.keys == Forgotten(d.keys) { ForgottenFits(d, Committed(d, onNative, r)); }
  }

  lemma ReadiedFits(d: Display, a: Alloc)
    requires Ready(d) && TextFits(d)
    ensures TextFits(Readied(d, a))
  {}

  lemma DrawnFits(d: Display, painted: Rect, content: Pixels, osd: Pixels)
    requires Ready(d) && Agrees(d) && Paintable(d) && TextFits(d) && Outside(osd, painted) == {}
    ensures var e := Drawn(d, painted, content, osd);
            TextFits(e) && (d.mode != Stretch ==> Outside(e.ring[e.cur].text, painted) == {})
  {
    var e, f := Drawn(d, painted, content, osd), Filled(d, painted);
    var text := f.ring[f.cur].text;
    assert Outside(e.ring[e.cur].text, painted) == Outside(text, painted) + Outside(osd, painted);
  }

  lemma ShownRgbFits(d: Display, path: Path, fw: nat, fh: nat, content: Pixels, osd: Pixels, a: Alloc, r: Reply)
    requires Ready(d) && Agrees(d) && TextFits(d) && TextInside(ShownRgb(d, path, fw, fh, content, osd, a, r).1)
    ensures var (e, paints) := ShownRgb(d, path, fw, fh, content, osd, a, r); TextFits(e) && NoTextOnBars(paints)
  {
    ReadiedAgrees(d, a);
    ReadiedFits(d, a);
    var e := Readied(d, a);
    if Paintable(e) {
      var rect := RectOf(e, path, fw, fh);
      assert ShownRgb(d, path, fw, fh, content, osd, a, r).1[0].osd == osd;
      hide ShownRgb;
      DrawnFits(e, rect, content, osd);
      CommittedFits(Drawn(e, rect, content, osd), false, r);
    }
  }

  lemma ShownSplashFits(d: Display, content: Pixels, a: Alloc, r: Reply)
    requires Ready(d) && TextFits(d)
    ensures var (e, paints) := ShownSplash(d, content, a, r); TextFits(e) && NoTextOnBars(paints)
  {
    ReadiedFits(d, a);
    var e := Readied(d, a);
    if Paintable(e) {
      var p := WithLit(e, content, {}).(keys := Forgotten(e.keys));
      ForgottenFits(e, p);
      CommittedFits(p, false, r);
    }
  }

  lemma ShownBlackFits(d: Display, a: Alloc, r: Reply)
    requires Ready(d) && TextFits(d)
    ensures var (e, paints) := ShownBlack(d, a, r); TextFits(e) && NoTextOnBars(paints)
  {
    ReadiedFits(d, a);
    var e := Readied(d, a);
    if e.ring[e.cur].fb != 0 {
      var p := (if e.ring[e.cur].mapped then WithLit(e, {}, {}) else e).(keys := Forgotten(e.keys));
      ForgottenFits(e, p);
      CommittedFits(p, false, r);
    }
  }

  lemma ShownNativeFits(d: Display, fw: nat, fh: nat, content: Pixels, r: Reply)
    requires Ready(d) && TextFits(d)
    ensures var (e, paints, _) := ShownNative(d, fw, fh, content, r); TextFits(e) && NoTextOnBars(paints)
  {
    hide Commit, DstRect;
    var (e, paints, _) := ShownNative(d, fw, fh, content, r);
    if e.keys == Forgotten(d.keys) { ForgottenFits(d, e); }
  }

  lemma ShownUyvyFits(d: Display, fw: nat, fh: nat, content: Pixels, osd: Pixels,
                      compatible: bool, natives: nat, a: Alloc, r: Reply, r': Reply)
    requires Ready(d) && Agrees(d) && TextFits(d)
    requires TextInside(ShownUyvy(d, fw, fh, content, osd, compatible, natives, a, r, r').1)
    ensures var (e, paints) := ShownUyvy(d, fw, fh, content, osd, compatible, natives, a, r, r'); TextFits(e) && NoTextOnBars(paints)
  {
    hide NativeReadied, ShownNative, ShownRgb;
    var ready := NativeReadied(d, compatible, natives, a == Mapped);
    NativeReadiedKeeps(d, compatible, natives, a == Mapped);
    ShownNativeAgrees(ready, fw, fh, content, r);
    ShownNativeFits(ready, fw, fh, content, r);
    var (n, paints, done) := ShownNative(ready, fw, fh, content, r);
    if !done {
      var more := ShownRgb(n, Software, fw, fh, content, osd, a, r').1;
      assert forall i :: 0 <= i < |more| ==> more[i] == (paints + more)[|paints| + i];
      ShownRgbFits(n, Software, fw, fh, content, osd, a, r');
    }
  }

  lemma {:induction false} RingAllocatedFits(d: Display, i: nat, n: nat, mapped: bool)
    requires TextFits(d) && i <= |d.ring|
    ensures TextFits(RingAllocated(d, i, n, mapped))
    decreases |d.ring| - i
  {
    if i < |d.ring| && i < n {
      RingAllocatedFits(WithBuffer(d, i, mapped), i + 1, n, mapped);
    }
  }

  lemma StepFits(d: Display, e: Event)
    requires Ready(d) && Agrees(d) && TextFits(d) && TextInside(Step(d, e).1)
    ensures TextFits(Step(d, e).0) && NoTextOnBars(Step(d, e).1)
  {
    hide ShownRgb, ShownUyvy, ShownSplash, ShownBlack;
    match e
    case Frame(path, fw, fh, content, osd, compatible, natives, a, r, r') =>
      if path == NativeFirst {
        ShownUyvyFits(d, fw, fh, content, osd, compatible, natives, a, r, r');
      } else {
        ShownRgbFits(d, path, fw, fh, content, osd, a, r);
      }
    case Splash(content, a, r) => ShownSplashFits(d, content, a, r);
    case Black(a, r) => ShownBlackFits(d, a, r);
    case Mode(w, h, n, mapped, r) =>
      if w != 0 && h != 0 {
        ForgottenFits(d, ModeChanged(d, w, h));
        RingAllocatedFits(ModeChanged(d, w, h), 0, n, mapped);
        ShownBlackFits(RingAllocated(ModeChanged(d, w, h), 0, n, mapped), Mapped, r);
      }
    case Reopen(w, h, n, mapped) =>
      if w != 0 && h != 0 {
        var f := ModeChanged(d, w, h).(cur := 0, curNative := 0, flipPending := false, kernel := Kernel(0, 0, 0));
        ForgottenFits(d, f);
        RingAllocatedFits(f, 0, n, mapped);
      }
    case Rotate(turned) => ForgottenFits(d, Step(d, e).0);
    case _ =>
  }

  lemma InsideParts(a: seq<Paint>, b: seq<Paint>)
    requires TextInside(a + b)
    ensures TextInside(a) && TextInside(b)
  {
    assert forall i :: 0 <= i < |a| ==> a[i] == (a + b)[i];
    assert forall i :: 0 <= i < |b| ==> b[i] == (a + b)[|a| + i];
  }

  lemma {:induction false} RunFits(d: Display, events: seq<Event>)
    requires Ready(d) && Agrees(d) && TextFits(d) && TextInside(Run(d, events).1)
    ensures NoTextOnBars(Run(d, events).1)
    decreases |events|
  {
    hide Agrees, TextFits, TextInside, Step;
    if events != [] {
      var (e, paints) := Step(d, events[0]);
      InsideParts(paints, Run(e, events[1..]).1);
      StepAgrees(d, events[0]);
      StepFits(d, events[0]);
      RunFits(e, events[1..]);
    }
  }

  ghost predicate BarsBlack(p: Paint) {
    p.bars ==> Outside(p.lit, if p.native then NativeRect(p.rect) else p.rect) == {}
  }

  lemma FreshAgrees(w: nat, h: nat, mode: ScaleMode)
    requires 0 < w && 0 < h
    ensures var d := Fresh(3, w, h, mode); Ready(d) && Agrees(d) && TextFits(d)
  {}

  // Over every run in which on-screen text stays inside the pictures, every letterboxed or cropped
  // frame is committed with black around what is painted of it.
  lemma BarsAlwaysBlack(w: nat, h: nat, mode: ScaleMode, events: seq<Event>)
    requires 0 < w && 0 < h
    ensures var log := Run(Fresh(3, w, h, mode), events).1;
            TextInside(log) ==> forall i :: 0 <= i < |log| ==> BarsBlack(log[i])
  {
    hide Run, Agrees, TextFits, TextInside;
    FreshAgrees(w, h, mode);
    RunAgrees(Fresh(3, w, h, mode), events);
    var log := Run(Fresh(3, w, h, mode), events).1;
    assert forall i :: 0 <= i < |log| ==> OnlyTextOnBars(log[i]);
    if TextInside(log) { RunFits(Fresh(3, w, h, mode), events); }
  }

  // ---------- the native path's bars ----------

  // The picture of a native frame is inside its destination rectangle, whatever it shows, exactly
  // if the rectangle's left edge is even or there is nothing to paint.
  lemma NativeBarsBlackIff(rect: Rect)
    ensures (forall content: Pixels :: Outside(Region(content, NativeRect(rect)), rect) == {}) <==>
              rect.x % 2 == 0 || rect.w < 2 || rect.h == 0
  {
    if rect.x % 2 == 0 || rect.w < 2 || rect.h == 0 {
      forall content: Pixels
        ensures Outside(Region(content, NativeRect(rect)), rect) == {}
      {
        forall x | x in Region(content, NativeRect(rect))
          ensures Inside(x, rect)
        {}
      }
    } else {
      var x := (rect.x - 1, rect.y);
      assert x in Outside(Region({x}, NativeRect(rect)), rect);
    }
  }

  // A native frame of 720x576, letterboxed on 1920x1080, lights its left bar.
  lemma NativePictureOnItsBar(d: Display, r: Reply)
    requires Ready(d) && d.mode == Letterbox && d.width == 1920 && d.height == 1080
    requires d.nativeState == 1 && d.native[d.curNative].mapped && d.native[d.curNative].fb != 0
    ensures var paints := ShownNative(d, 720, 576, {(284, 0)}, r).1;
            |paints| == 1 && paints[0].bars && (284, 0) in Outside(paints[0].lit, paints[0].rect)
  {
    hide DstRect, Commit;
    NativeLeavesRectangle();
  }
}
