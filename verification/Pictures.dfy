/** What is on screen, pixel by pixel: what each painting leaves lit in its buffer, when its commit
    goes through, and that the buffer committed is the one painted. */
module Pictures {
  import opened FrameGeometry
  import opened ScanoutModel
  import opened Scanout

  // ---------- pixels ----------

  predicate Within(x: nat, y: nat, r: Rect) {
    r.x <= x < r.x + r.w && r.y <= y < r.y + r.h
  }

  // Inside the rectangle, exactly the pixels of the picture and of the text are lit.
  ghost predicate Shows(lit: Pixels, r: Rect, picture: Pixels, text: Pixels) {
    forall x: nat, y: nat :: Within(x, y, r) ==> ((x, y) in lit <==> (x, y) in picture || (x, y) in text)
  }

  ghost predicate LitAround(lit: Pixels, r: Rect, expected: Pixels) {
    forall x: nat, y: nat :: !Within(x, y, r) ==> ((x, y) in lit <==> (x, y) in expected)
  }

  lemma RegionShows(p: Pixels, r: Rect)
    ensures Shows(Region(p, r), r, p, {}) && LitAround(Region(p, r), r, {})
  {}

  // A frame covers its rectangle and the text lies over everything. Around the rectangle nothing
  // else is lit after a clear; without one, what was lit before stays.
  lemma DrawnShows(d: Display, painted: Rect, content: Pixels, osd: Pixels)
    requires Ready(d)
    ensures var before, b := d.ring[d.cur], Drawn(d, painted, content, osd).ring[d.cur];
            var kept := d.mode == Stretch || CacheHit(d.keys[d.cur], before, d.mode, painted);
            && Shows(b.lit, painted, content, osd)
            && LitAround(b.lit, painted, if kept then before.lit + osd else osd)
            && b.text == (if kept then before.text + osd else osd)
  {}

  // ---------- commits ----------

  // An event is there to be read, or the vertical blank comes while the display waits for it.
  predicate EventComes(k: Kernel, done: bool) {
    0 < k.events || (done && k.pending != 0)
  }

  predicate FlipOver(d: Display, done: bool) {
    d.flipPending ==> EventComes(d.kernel, done)
  }

  predicate QueueEmpty(d: Display, done: bool) {
    d.kernel.pending == 0 || (d.flipPending && done)
  }

  // When a commit goes through, told from the display and the kernel's answers.
  predicate GoesThrough(d: Display, r: Reply) {
    if d.rotated || d.rotationDirty then
      (d.crtcActive ==> FlipOver(d, r.done)) && QueueEmpty(d, r.done) &&
      (r.accepts || (d.rotated && r.badRotation && r.acceptsAgain))
    else if !d.crtcActive then r.modeset
    else FlipOver(d, r.done) && ((QueueEmpty(d, r.done) && r.accepts) || r.modeset)
  }

  lemma WaitingEnds(d: Display, done: bool)
    ensures var e := Awaited(d, done);
            && (e.flipPending <==> d.flipPending && !EventComes(d.kernel, done))
            && (e.kernel.pending == 0 <==> QueueEmpty(d, done))
            && Latest(e.kernel) == Latest(d.kernel)
            && e == d.(kernel := e.kernel, flipPending := e.flipPending)
  {}

  // A commit is accepted exactly then; its buffer is the latest one, else the latest one stays.
  lemma CommitGoesThroughIff(d: Display, fb: nat, r: Reply)
    requires fb != 0
    ensures var (e, ok) := Commit(d, fb, r);
            && (ok <==> GoesThrough(d, r)) && Latest(e.kernel) == (if ok then fb else Latest(d.kernel))
            && (ok ==> e.crtcActive && !e.rotationDirty && (e.flipPending || e.kernel == Kernel(fb, 0, e.kernel.events)))
            && (e.rotated <==> d.rotated && !RotationGivenUp(d, r))
  {
    hide Awaited;
    WaitingEnds(d, r.done);
    if UsesAtomic(d) {
      var (t, first) := AtomicTry(d, fb, r.done, r.accepts);
      WaitingEnds(t.(rotated := false, rotationDirty := true, keys := Forgotten(t.keys)), r.doneAgain);
    }
  }

  // The plane's rotation is reverted by a commit that was tried and refused for it.
  predicate RotationGivenUp(d: Display, r: Reply) {
    (d.crtcActive ==> FlipOver(d, r.done)) && !(QueueEmpty(d, r.done) && r.accepts) && d.rotated && r.badRotation
  }

  // The next vertical blank brings the latest buffer on screen.
  lemma LatestComesOnScreen(k: Kernel)
    ensures Vblank(k).front == Latest(k) && Vblank(k).pending == 0
  {}

  // ---------- frames through XRGB ----------

  predicate Fits(b: Buffer, d: Display) {
    b.fb != 0 && b.width == d.width && b.height == d.height
  }

  // A buffer to paint can be had: the current one, or a new one.
  predicate BufferToHand(d: Display, a: Alloc)
    requires InRange(d)
  {
    if Fits(d.ring[d.cur], d) then d.ring[d.cur].mapped else a == Mapped
  }

  lemma ReadiedFits(d: Display, a: Alloc)
    requires Ready(d) && Safe(d)
    ensures var e := Readied(d, a); var b := e.ring[e.cur];
            && (Paintable(e) <==> BufferToHand(d, a)) && (b.fb != 0 ==> Fits(b, d))
            && (b.fb == 0 <==> !Fits(d.ring[d.cur], d) && a == Refused)
            && e == d.(ring := d.ring[d.cur := b], nextFb := e.nextFb)
            && (forall i :: 0 <= i < |d.native| && d.native[i].fb != 0 ==> d.native[i].fb != b.fb)
            && (b == d.ring[d.cur] || b.lit == {})
  {}

  // The buffer of this painting is the latest one and still holds it.
  ghost predicate OnItsWay(d: Display, p: Paint) {
    p.fb == Latest(d.kernel) && (Holding(d.ring, p) || Holding(d.native, p))
  }

  ghost predicate Holding(ring: seq<Buffer>, p: Paint) {
    exists i :: 0 <= i < |ring| && ring[i].fb == p.fb && ring[i].lit == p.lit
  }

  // A painting shows the frame where the geometry puts it: on the native path as whole pairs with
  // nothing around them, else with the text over it.
  ghost predicate TellsFrame(p: Paint, d: Display, path: Path, fw: nat, fh: nat, content: Pixels, osd: Pixels)
    requires 0 < d.height
  {
    var rect := DstRect(d.mode, d.width, d.height, fw, fh);
    if p.native then
      p.rect == rect && Shows(p.lit, NativeRect(rect), content, {}) && LitAround(p.lit, NativeRect(rect), {})
    else
      && p.rect == (if path == DirectRgb then CopiedRect(rect, SrcRect(d.mode, d.width, d.height, fw, fh)) else rect)
      && Shows(p.lit, p.rect, content, osd)
  }

  // A commit leaves every buffer as it is.
  lemma CommittedIsOnItsWay(d: Display, onNative: bool, r: Reply, p: Paint)
    requires InRange(d) && p.fb == CurrentFb(d, onNative) && p.fb != 0
    requires p.lit == if onNative then d.native[d.curNative].lit else d.ring[d.cur].lit
    ensures var e := Committed(d, onNative, r);
            && Latest(e.kernel) == (if GoesThrough(d, r) then p.fb else Latest(d.kernel))
            && (GoesThrough(d, r) ==> OnItsWay(e, p)) && e.ring == d.ring && e.native == d.native
  {
    hide Commit;
    CommitGoesThroughIff(d, p.fb, r);
  }

  // A frame is painted exactly if a buffer can be had; it is on its way to the screen exactly if
  // the commit goes through, and otherwise what was shown stays.
  lemma RgbFrameIsShown(d: Display, path: Path, fw: nat, fh: nat, content: Pixels, osd: Pixels, a: Alloc, r: Reply)
    requires Ready(d) && Safe(d)
    ensures var (e, paints) := ShownRgb(d, path, fw, fh, content, osd, a, r);
            && |paints| == (if BufferToHand(d, a) then 1 else 0)
            && (forall i :: 0 <= i < |paints| ==>
                 && !paints[i].native && TellsFrame(paints[i], d, path, fw, fh, content, osd)
                 && paints[i].fb == Readied(d, a).ring[d.cur].fb && Fits(Readied(d, a).ring[d.cur], d)
                 && (paints[i].fb == Latest(e.kernel) <==> GoesThrough(d, r)) && (GoesThrough(d, r) ==> OnItsWay(e, paints[i])))
            && (!BufferToHand(d, a) || !GoesThrough(d, r) ==> Latest(e.kernel) == Latest(d.kernel))
  {
    hide Readied, Drawn, Committed, GoesThrough, DstRect, SrcRect, CopiedRect, Shows, BufferToHand, Safe, OnItsWay, Latest;
    ReadiedFits(d, a);
    var e := Readied(d, a);
    if Paintable(e) {
      var rect := RectOf(e, path, fw, fh);
      var p := Drawn(e, rect, content, osd);
      DrawnShows(e, rect, content, osd);
      DrawnKeeps(e, rect, content, osd);
      SameAnswer(d, p, r);
      CommittedIsOnItsWay(p, false, r, RecordOf(p, osd, rect, p.mode != Stretch));
      CurrentIsNotLatest(d, a);
    }
  }

  lemma DrawnKeeps(d: Display, rect: Rect, content: Pixels, osd: Pixels)
    requires Ready(d)
    ensures var e := Drawn(d, rect, content, osd); var b := e.ring[e.cur];
            && e == d.(ring := e.ring, keys := e.keys)
            && e.ring == d.ring[d.cur := d.ring[d.cur].(lit := b.lit, text := b.text)]
  {}

  lemma SameAnswer(d: Display, e: Display, r: Reply)
    requires e == d.(ring := e.ring, keys := e.keys, nextFb := e.nextFb)
    ensures GoesThrough(e, r) == GoesThrough(d, r)
  {}

  // A splash fills the whole buffer and nothing is left of what was there.
  lemma SplashIsShown(d: Display, content: Pixels, a: Alloc, r: Reply)
    requires Ready(d) && Safe(d)
    ensures var (e, paints) := ShownSplash(d, content, a, r);
            && |paints| == (if BufferToHand(d, a) then 1 else 0)
            && (forall i :: 0 <= i < |paints| ==>
                 paints[i].lit == content && paints[i].text == {} && (GoesThrough(d, r) ==> OnItsWay(e, paints[i])))
            && (!BufferToHand(d, a) || !GoesThrough(d, r) ==> Latest(e.kernel) == Latest(d.kernel))
            && (BufferToHand(d, a) ==> NothingCached(e))
  {
    hide Readied, Committed, GoesThrough, BufferToHand, Safe, OnItsWay, Latest;
    ReadiedFits(d, a);
    var e := Readied(d, a);
    if Paintable(e) {
      var p := WithLit(e, content, {}).(keys := Forgotten(e.keys));
      SameAnswer(d, p, r);
      CommittedIsOnItsWay(p, false, r, RecordOf(p, {}, Rect(0, 0, 0, 0), false));
      CommitForgets(p, false, r);
    }
  }

  // No entry of the fill cache can be hit.
  ghost predicate NothingCached(d: Display) {
    forall i :: 0 <= i < |d.keys| ==> d.keys[i].w == 0
  }

  lemma ForgottenCachesNothing(d: Display, keys: seq<FillKey>)
    requires d.keys == Forgotten(keys)
    ensures NothingCached(d)
  {}

  lemma CommitForgets(d: Display, onNative: bool, r: Reply)
    requires InRange(d) && NothingCached(d)
    ensures NothingCached(Committed(d, onNative, r))
  {
    hide AtomicCommit, Awaited;
  }

  // Black is black, and a buffer the CPU cannot reach is committed as the kernel made it.
  lemma BlackIsShown(d: Display, a: Alloc, r: Reply)
    requires Ready(d) && Safe(d)
    ensures var (e, paints) := ShownBlack(d, a, r);
            && |paints| == (if BufferToHand(d, a) then 1 else 0)
            && (forall i :: 0 <= i < |paints| ==>
                 paints[i].lit == {} && paints[i].text == {} && (GoesThrough(d, r) ==> OnItsWay(e, paints[i])))
            && (Fits(d.ring[d.cur], d) || a != Refused ==>
                 NothingCached(e) && (Latest(e.kernel) == Latest(d.kernel) <==> !GoesThrough(d, r)))
  {
    hide Readied, Committed, GoesThrough, Safe, OnItsWay, Latest, NothingCached, Forgotten;
    ReadiedFits(d, a);
    var e := Readied(d, a);
    var b := e.ring[e.cur];
    if b.fb != 0 {
      var p := (if b.mapped then WithLit(e, {}, {}) else e).(keys := Forgotten(e.keys));
      SameAnswer(d, p, r);
      ForgottenCachesNothing(p, e.keys);
      CommittedIsOnItsWay(p, false, r, RecordOf(p, {}, Rect(0, 0, 0, 0), true));
      CommitForgets(p, false, r);
      CurrentIsNotLatest(d, a);
    }
  }

  lemma CurrentIsNotLatest(d: Display, a: Alloc)
    requires Ready(d) && Safe(d)
    ensures var fb := Readied(d, a).ring[d.cur].fb; fb != 0 ==> fb != Latest(d.kernel)
  {}

  // ---------- frames on the native path ----------

  predicate NativeKept(d: Display)
    requires InRange(d)
  {
    d.nativeState == 1 && d.native[0].width == d.width && d.native[0].height == d.height
  }

  ghost predicate AllFit(d: Display, mapped: bool, n: nat) {
    forall i :: 0 <= i < n && i < |d.native| ==>
      Fits(d.native[i], d) && d.native[i].mapped == mapped && d.native[i].lit == {}
  }

  lemma {:induction false} NativeAllocatedMakes(d: Display, i: nat, n: nat, mapped: bool)
    requires i <= |d.native| && i <= n && AllFit(d, mapped, i) && 0 < d.nextFb
    ensures var e := NativeAllocated(d, i, n, mapped);
            if |d.native| <= n then e.nativeState == 1 && e.curNative == 0 && AllFit(e, mapped, |e.native|)
            else e.nativeState == -1
    decreases |d.native| - i
  {
    if i < |d.native| && i < n {
      NativeAllocatedMakes(WithNative(NativeSlotFreed(d, i), i, mapped), i + 1, n, mapped);
    }
  }

  // The native path is taken exactly if it was never given up, the colours match, and its buffers
  // are there or can all be made; buffers made are black and of the display's size.
  lemma NativeIsTakenIff(d: Display, compatible: bool, n: nat, mapped: bool)
    requires Ready(d) && 0 < d.nextFb
    ensures var e := NativeReadied(d, compatible, n, mapped);
            && (e.nativeState == 1 <==> d.nativeState != -1 && compatible && (NativeKept(d) || |d.native| <= n))
            && (e.nativeState == 1 || e.nativeState == -1)
            && (e.nativeState == 1 && !NativeKept(d) ==> e.curNative == 0 && AllFit(e, mapped, |e.native|))
            && (d.nativeState == -1 || !compatible || NativeKept(d) ==> e.native == d.native && e.kernel == d.kernel)
  {
    hide NativeAllocated;
    if d.nativeState != -1 && compatible && !NativeKept(d) {
      NativeAllocatedMakes(if d.nativeState == 1 then NativeFreed(d).(nativeState := 0) else d, 0, n, mapped);
    }
  }

  predicate NativeUsable(d: Display)
    requires InRange(d)
  {
    d.nativeState == 1 && d.native[d.curNative].mapped && d.native[d.curNative].fb != 0
  }

  // A commit that does not go through because an earlier flip is still pending.
  predicate StillBusy(d: Display, r: Reply) {
    if d.rotated || d.rotationDirty then d.crtcActive && !FlipOver(d, r.done)
    else if d.crtcActive then !FlipOver(d, r.done) else d.flipPending && !r.modeset
  }

  lemma RefusedCommit(d: Display, fb: nat, r: Reply)
    requires !GoesThrough(d, r)
    ensures Commit(d, fb, r).0.flipPending <==> StillBusy(d, r)
  {
    hide Awaited;
    WaitingEnds(d, r.done);
    if UsesAtomic(d) {
      var (t, first) := AtomicTry(d, fb, r.done, r.accepts);
      WaitingEnds(t.(rotated := false, rotationDirty := true, keys := Forgotten(t.keys)), r.doneAgain);
    }
  }

  // A native frame is done with if its commit goes through or has to wait; else the path is given up
  // for good and its buffers go.
  lemma NativeFrameIsShown(d: Display, fw: nat, fh: nat, content: Pixels, r: Reply)
    requires Ready(d) && Safe(d)
    ensures var (e, paints, done) := ShownNative(d, fw, fh, content, r);
            && |paints| == (if NativeUsable(d) then 1 else 0)
            && (forall i :: 0 <= i < |paints| ==>
                 && paints[i].native && TellsFrame(paints[i], d, NativeFirst, fw, fh, content, {})
                 && paints[i].fb == d.native[d.curNative].fb
                 && (paints[i].fb == Latest(e.kernel) <==> GoesThrough(d, r))
                 && (GoesThrough(d, r) ==> OnItsWay(e, paints[i])))
            && (done <==> NativeUsable(d) && (GoesThrough(d, r) || StillBusy(d, r)))
            && (done ==> e.nativeState == 1)
            && (!done && NativeUsable(d) ==> e.nativeState == -1 && forall i :: 0 <= i < |e.native| ==> e.native[i].fb == 0)
            && e.ring == d.ring && e.cur == d.cur && e.nextFb == d.nextFb
            && e.width == d.width && e.height == d.height && e.mode == d.mode
  {
    hide Commit, DstRect, NativeRect, GoesThrough, StillBusy, Safe, Region, Shows, LitAround;
    if NativeUsable(d) {
      var b, rect := d.native[d.curNative], DstRect(d.mode, d.width, d.height, fw, fh);
      var p := NativePainted(d, content, rect);
      RegionShows(content, NativeRect(rect));
      NativeAnswer(d, p, r);
      CommitGoesThroughIff(p, b.fb, r);
      NativeIsNotLatest(d);
      if !GoesThrough(p, r) {
        RefusedCommit(p, b.fb, r);
        RemovedIsNotLatest(Commit(p, b.fb, r).0, d.curNative);
      } else {
        CommittedIsOnItsWay(p, true, r, Paint(b.fb, p.kernel, Region(content, NativeRect(rect)), {}, {}, rect, d.mode != Stretch, true));
      }
    }
  }

  lemma NativeAnswer(d: Display, e: Display, r: Reply)
    requires e == d.(native := e.native)
    ensures GoesThrough(e, r) == GoesThrough(d, r) && StillBusy(e, r) == StillBusy(d, r)
  {}

  lemma NativeIsNotLatest(d: Display)
    requires Safe(d) && d.nativeState == 1 && d.native[d.curNative].fb != 0
    ensures d.native[d.curNative].fb != Latest(d.kernel)
  {}

  lemma RemovedIsNotLatest(d: Display, i: nat)
    requires i < |d.native| && d.native[i].fb != 0
    ensures Latest(NativeFreed(d).kernel) != d.native[i].fb
  {
    assert d.native[i].fb in Ids(d.native);
  }

  // ---------- UYVY frames, whichever path they take ----------

  // What may be said of everything a frame painted: the frame is in it, and if its buffer is going
  // to be on screen, it still holds just that.
  ghost predicate ToldAndHeld(paints: seq<Paint>, d: Display, e: Display, path: Path, fw: nat, fh: nat, content: Pixels, osd: Pixels)
    requires 0 < d.height
  {
    forall i :: 0 <= i < |paints| ==>
      && TellsFrame(paints[i], d, path, fw, fh, content, if paints[i].native then {} else osd)
      && (paints[i].fb == Latest(e.kernel) ==> OnItsWay(e, paints[i]))
  }

  // A frame the native path deals with is painted there and nowhere else; any other is converted,
  // if a buffer can be had.
  lemma UyvyFrameIsShown(d: Display, fw: nat, fh: nat, content: Pixels, osd: Pixels,
                         compatible: bool, natives: nat, a: Alloc, r: Reply, r': Reply)
    requires Ready(d) && Safe(d)
    ensures var (e, paints) := ShownUyvy(d, fw, fh, content, osd, compatible, natives, a, r, r');
            var n := NativeReadied(d, compatible, natives, a == Mapped);
            && ToldAndHeld(paints, d, e, NativeFirst, fw, fh, content, osd)
            && (if NativeUsable(n) && (GoesThrough(n, r) || StillBusy(n, r)) then |paints| == 1 && paints[0].native
                else BufferToHand(d, a) ==> paints != [] && !paints[|paints| - 1].native)
  {
    hide NativeReadied, ShownNative, ShownRgb, Safe, GoesThrough, StillBusy, OnItsWay, Shows, LitAround, DstRect, SrcRect, CopiedRect, NativeRect, Latest;
    NativeReadiedSafe(d, compatible, natives, a == Mapped);
    NativeReadiedLeaves(d, compatible, natives, a == Mapped);
    var n := NativeReadied(d, compatible, natives, a == Mapped);
    NativeFrameIsShown(n, fw, fh, content, r);
    ShownNativeSafe(n, fw, fh, content, r);
    var (m, first, done) := ShownNative(n, fw, fh, content, r);
    if !done {
      RgbFrameIsShown(m, Software, fw, fh, content, osd, a, r');
      var (e, second) := ShownRgb(m, Software, fw, fh, content, osd, a, r');
      if NativeUsable(n) { ConvertedElsewhere(n, m, a); }
      assert ToldAndHeld(second, d, e, NativeFirst, fw, fh, content, osd);
      assert first != [] ==> first[0].fb != Latest(m.kernel);
      assert second != [] ==> second[0].fb == Readied(m, a).ring[m.cur].fb;
      assert first != [] ==> first[0].fb != Latest(e.kernel);
      assert ToldAndHeld(first, d, e, NativeFirst, fw, fh, content, osd);
    }
  }

  lemma NativeReadiedLeaves(d: Display, compatible: bool, n: nat, mapped: bool)
    requires Ready(d)
    ensures var e := NativeReadied(d, compatible, n, mapped);
            e.ring == d.ring && e.cur == d.cur && e.width == d.width && e.height == d.height && e.mode == d.mode
  {}

  // The buffer a converted frame goes to is none of the native ones.
  lemma ConvertedElsewhere(n: Display, m: Display, a: Alloc)
    requires Ready(n) && Safe(n) && Ready(m) && m.ring == n.ring && m.cur == n.cur && m.nextFb == n.nextFb
    requires NativeUsable(n)
    ensures Readied(m, a).ring[m.cur].fb != n.native[n.curNative].fb
  {}

  // ---------- modes ----------

  ghost predicate RingFits(d: Display, mapped: bool, n: nat) {
    forall i :: 0 <= i < n && i < |d.ring| ==> Fits(d.ring[i], d) && d.ring[i].mapped == mapped && d.ring[i].lit == {}
  }

  lemma {:induction false} RingAllocatedMakes(d: Display, i: nat, n: nat, mapped: bool)
    requires i <= |d.ring| && i <= n && RingFits(d, mapped, i) && 0 < d.nextFb
    ensures RingFits(RingAllocated(d, i, n, mapped), mapped, n)
    decreases |d.ring| - i
  {
    if i < |d.ring| && i < n {
      RingAllocatedMakes(WithBuffer(d, i, mapped), i + 1, n, mapped);
    }
  }

  // No buffer of either ring is left, on screen, queued or cached.
  lemma TornDown(d: Display, w: nat, h: nat)
    requires |d.keys| == |d.ring|
    ensures var e := ModeChanged(d, w, h);
            && e.width == w && e.height == h && !e.crtcActive && NothingCached(e)
            && e.rotated == d.rotated && e.rotationDirty == d.rotationDirty
            && (if d.rotated then e.nativeState == -1 else e.nativeState == 0)
            && (forall b :: b in e.ring || b in e.native ==> b == NO_BUFFER)
            && (forall b :: b in d.ring || b in d.native ==> !Busy(b.fb, e.kernel))
  {
    forall b | b in d.ring || b in d.native ensures b.fb in Ids(d.ring) || b.fb in Ids(d.native) {
      if b in d.ring { var i :| 0 <= i < |d.ring| && d.ring[i] == b; } else { var i :| 0 <= i < |d.native| && d.native[i] == b; }
    }
  }

  lemma BlackKeeps(d: Display, a: Alloc, r: Reply)
    requires Ready(d) && Safe(d) && RingFits(d, true, |d.ring|)
    ensures var (e, paints) := ShownBlack(d, a, r);
            && e.width == d.width && e.height == d.height && e.nativeState == d.nativeState && e.native == d.native
            && RingFits(e, true, |e.ring|) && |e.ring| == |d.ring|
  {
    hide Safe, GoesThrough, Commit;
    CommitGoesThroughIff(WithLit(d, {}, {}).(keys := Forgotten(d.keys)), d.ring[d.cur].fb, r);
  }

  // A mode with pixels takes effect: the display has its size, nothing of the old one is shown or
  // cached, and with all buffers made, black goes to the screen.
  lemma ModeTakesEffect(d: Display, w: nat, h: nat, n: nat, r: Reply)
    requires Ready(d) && Safe(d)
    ensures var (e, paints) := SetModeTo(d, w, h, n, true, r);
            if w == 0 || h == 0 then e == d && paints == []
            else
              && e.width == w && e.height == h && NothingCached(e) && RingFits(e, true, n)
              && (if d.rotated then e.nativeState == -1 else e.nativeState == 0)
              && (forall b :: b in e.native ==> b == NO_BUFFER)
              && (|d.ring| <= n ==> |paints| == 1 && paints[0].lit == {})
              && (|d.ring| <= n && !d.rotated && !d.rotationDirty && r.modeset ==> OnItsWay(e, paints[0]))
  {
    hide Safe, ShownBlack, RingAllocated, ModeChanged, Latest, OnItsWay;
    if w != 0 && h != 0 {
      var f := ModeChanged(d, w, h);
      TornDown(d, w, h);
      ModeChangedSafe(d, w, h);
      RingAllocatedSafe(f, 0, n, true);
      RingAllocatedMakes(f, 0, n, true);
      var g := RingAllocated(f, 0, n, true);
      if |d.ring| <= n {
        BlackKeeps(g, Mapped, r);
        BlackIsShown(g, Mapped, r);
      }
    }
  }
}