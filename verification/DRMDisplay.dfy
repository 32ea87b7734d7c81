/** The display object itself: the fields its methods update in place, each method proved to be
    the transition of the step protocol. The kernel's answers are parameters; every painting is
    appended to a log. */
module DisplayObject {
  import opened FrameGeometry
  import opened Scanout
  import opened ScanoutModel

  import FillCache
  import Pictures

  // No buffer was painted while visible, and none will be; the cache agrees with the pixels, and
  // the bars of every frame showed nothing but text.
  ghost predicate Sound(s: (Display, seq<Paint>)) {
    Ready(s.0) && Safe(s.0) && FillCache.Agrees(s.0) && AllHidden(s.1) && FillCache.BarsTell(s.1)
  }

  lemma StepSound(d: Display, log: seq<Paint>, e: Event)
    requires Sound((d, log))
    ensures Sound(After(Step(d, e), log))
  {
    StepSafe(d, e);
    FillCache.StepAgrees(d, e);
    hide Step, Safe, FillCache.Agrees;
    LogsSound(log, Step(d, e).1);
  }

  lemma SoundIsReady(s: (Display, seq<Paint>))
    requires Sound(s)
    ensures Ready(s.0) && Safe(s.0)
  {}

  lemma LogsSound(log: seq<Paint>, more: seq<Paint>)
    requires AllHidden(log) && FillCache.BarsTell(log) && AllHidden(more) && FillCache.BarsTell(more)
    ensures AllHidden(log + more) && FillCache.BarsTell(log + more)
  {
    hide Busy, FillCache.OnlyTextOnBars;
  }

  // Whatever a frame paints shows it, and what is going to be on screen still holds it.
  lemma FrameTold(d: Display, path: Path, fw: nat, fh: nat, content: Pixels, osd: Pixels,
                  compatible: bool, natives: nat, a: Alloc, r: Reply, r': Reply)
    requires Ready(d) && Safe(d)
    ensures var (e, paints) := Step(d, Frame(path, fw, fh, content, osd, compatible, natives, a, r, r'));
            Pictures.ToldAndHeld(paints, d, e, path, fw, fh, content, osd)
  {
    hide Safe, ShownUyvy, ShownRgb, Pictures.TellsFrame, Pictures.OnItsWay, Latest, Pictures.GoesThrough;
    if path == NativeFirst {
      Pictures.UyvyFrameIsShown(d, fw, fh, content, osd, compatible, natives, a, r, r');
    } else {
      Pictures.RgbFrameIsShown(d, path, fw, fh, content, osd, a, r);
    }
  }

  class DRMDisplay {
    var ring: seq<Buffer>
    var cur: nat
    var keys: seq<FillKey>
    var native: seq<Buffer>
    var curNative: nat
    var nativeState: int
    var width: nat
    var height: nat
    var mode: ScaleMode
    var crtcActive: bool
    var flipPending: bool
    var rotated: bool
    var rotationDirty: bool
    var nextFb: nat
    var kernel: Kernel
    ghost var paints: seq<Paint>

    function State(): Display
      reads this
    {
      Display(ring, cur, keys, native, curNative, nativeState, width, height, mode,
              crtcActive, flipPending, rotated, rotationDirty, nextFb, kernel)
    }

    ghost predicate Valid()
      reads this
    {
      Sound((State(), paints))
    }

    constructor (w: nat, h: nat, scaling: ScaleMode)
      requires 0 < w && 0 < h
      ensures Valid() && State() == Fresh(3, w, h, scaling) && paints == []
    {
      ring, cur := seq(3, _ => NO_BUFFER), 0;
      keys := seq(3, _ => FillKey(0, 0, Stretch, Rect(0, 0, 0, 0)));
      native, curNative, nativeState := seq(3, _ => NO_BUFFER), 0, 0;
      width, height, mode := w, h, scaling;
      crtcActive, flipPending, rotated, rotationDirty := false, false, false, false;
      nextFb, kernel, paints := 1, Kernel(0, 0, 0), [];
      new;
      FreshIsSafe(3, w, h, scaling);
      FillCache.FreshAgrees(w, h, scaling);
    }

    // ---------- commits ----------

    method WaitForFlip(done: bool)
      modifies this`kernel, this`flipPending
      ensures State() == Awaited(old(State()), done)
      ensures flipPending <==> old(flipPending) && old(kernel).events == 0 && !(done && old(kernel).pending != 0)
    {
      if !flipPending { return; }
      if done { kernel := Vblank(kernel); }
      if kernel.events > 0 {
        kernel := kernel.(events := 0);
        flipPending := false;
      }
    }

    method InvalidateFillCache()
      modifies this`keys
      ensures keys == Forgotten(old(keys))
    {
      var i := 0;
      while i < |keys|
        invariant i <= |keys| == |old(keys)|
        invariant forall j :: 0 <= j < i ==> keys[j] == old(keys)[j].(w := 0, h := 0)
        invariant forall j :: i <= j < |keys| ==> keys[j] == old(keys)[j]
      {
        keys := keys[i := keys[i].(w := 0, h := 0)];
        i := i + 1;
      }
    }

    method AtomicPlaneCommit(fb: nat, done: bool, accepts: bool) returns (ok: bool, refused: bool)
      modifies this`kernel, this`flipPending, this`rotationDirty, this`crtcActive
      ensures (State(), ok) == AtomicTry(old(State()), fb, done, accepts)
      ensures refused == AtomicRefused(old(State()), done, accepts)
    {
      WaitForFlip(done);
      if flipPending && crtcActive { return false, false; }
      flipPending := true;
      if kernel.pending == 0 && accepts {
        kernel := Flipped(kernel, fb, true);
        rotationDirty, crtcActive := false, true;
        return true, false;
      }
      flipPending := false;
      return false, true;
    }

    // A refused rotation is reverted, and the commit tried once more.
    method AtomicCommitFb(fb: nat, r: Reply) returns (ok: bool)
      modifies this`kernel, this`flipPending, this`rotated, this`rotationDirty, this`crtcActive, this`keys
      ensures (State(), ok) == AtomicCommit(old(State()), fb, r)
    {
      hide AtomicTry, AtomicRefused, Forgotten;
      var refused;
      ok, refused := AtomicPlaneCommit(fb, r.done, r.accepts);
      if refused && rotated && r.badRotation {
        rotated, rotationDirty := false, true;
        InvalidateFillCache();
        ok, refused := AtomicPlaneCommit(fb, r.doneAgain, r.acceptsAgain);
      }
    }

    method CommitFb(fb: nat, r: Reply) returns (ok: bool)
      modifies this`kernel, this`flipPending, this`rotated, this`rotationDirty, this`crtcActive, this`keys
      ensures (State(), ok) == Commit(old(State()), fb, r)
      ensures fb != 0 ==> (ok <==> Pictures.GoesThrough(old(State()), r))
      ensures fb != 0 ==> Latest(kernel) == if ok then fb else Latest(old(kernel))
    {
      hide AtomicCommit, Awaited, Pictures.GoesThrough, Latest;
      if fb != 0 { Pictures.CommitGoesThroughIff(State(), fb, r); }
      if rotated || rotationDirty {
        ok := AtomicCommitFb(fb, r);
        return;
      }
      if !crtcActive {
        if !r.modeset { return false; }
        kernel := ModeSet(kernel, fb);
        crtcActive := true;
        return true;
      }
      WaitForFlip(r.done);
      if flipPending { return false; }
      flipPending := true;
      if kernel.pending == 0 && r.accepts {
        kernel := Flipped(kernel, fb, true);
        return true;
      }
      flipPending := false;
      if !r.modeset { return false; }
      kernel := ModeSet(kernel, fb);
      return true;
    }

    // The commit that ends every painting of the ring, and the step to the next buffer.
    method CommitCurrent(r: Reply)
      requires InRange(State())
      modifies this`kernel, this`flipPending, this`rotated, this`rotationDirty, this`crtcActive, this`keys, this`cur
      ensures State() == Committed(old(State()), false, r)
    {
      hide Commit;
      var ok := CommitFb(ring[cur].fb, r);
      if ok { cur := Next(cur, |ring|); }
    }

    // ---------- buffers ----------

    // free_fb on a buffer, then alloc_fb, unless the current one has the display's size.
    method ReadyCurrent(a: Alloc)
      requires Ready(State())
      modifies this`ring, this`kernel, this`nextFb
      ensures State() == Readied(old(State()), a)
    {
      var b := ring[cur];
      if b.fb != 0 && b.width == width && b.height == height { return; }
      kernel := Removed(kernel, {b.fb});
      ring := ring[cur := NO_BUFFER];
      if a == Refused { return; }
      var made := Buffer(nextFb, width, height, a == Mapped, {}, {});
      ring := ring[cur := made];
      nextFb := nextFb + 1;
    }

    method FillBg(painted: Rect)
      requires Ready(State())
      modifies this`ring, this`keys
      ensures State() == Filled(old(State()), painted)
    {
      var b, k := ring[cur], keys[cur];
      if mode == Stretch {
        keys := keys[cur := k.(w := 0)];
        return;
      }
      if b.width == k.w && b.height == k.h && mode == k.mode && painted == k.painted { return; }
      ring := ring[cur := b.(lit := {}, text := {})];
      keys := keys[cur := FillKey(b.width, b.height, mode, painted)];
    }

    method FreeRing()
      modifies this`ring, this`kernel
      ensures State() == RingFreed(old(State()))
    {
      hide PrefixFreed, Removed, Ids, Emptied;
      AllFreed(ring);
      var i := 0;
      while i < |ring|
        invariant i <= |ring| == |old(ring)|
        invariant ring == PrefixFreed(old(ring), i)
        invariant kernel == Removed(old(kernel), Ids(old(ring)[..i]))
      {
        FreeStep(old(ring), old(kernel), i);
        kernel := Removed(kernel, {ring[i].fb});
        ring := ring[i := NO_BUFFER];
        i := i + 1;
      }
    }

    method FreeNative()
      modifies this`native, this`kernel
      ensures State() == NativeFreed(old(State()))
    {
      hide PrefixFreed, Removed, Ids, Emptied;
      AllFreed(native);
      var i := 0;
      while i < |native|
        invariant i <= |native| == |old(native)|
        invariant native == PrefixFreed(old(native), i)
        invariant kernel == Removed(old(kernel), Ids(old(native)[..i]))
      {
        FreeStep(old(native), old(kernel), i);
        kernel := Removed(kernel, {native[i].fb});
        native := native[i := NO_BUFFER];
        i := i + 1;
      }
    }

    method FreeNativeSlot(i: nat)
      requires i < |native|
      modifies this`native, this`kernel
      ensures State() == NativeSlotFreed(old(State()), i) && |native| == old(|native|)
    {
      kernel := Removed(kernel, {native[i].fb});
      native := native[i := NO_BUFFER];
    }

    method FreeNativePrefix(i: nat)
      requires i <= |native|
      modifies this`native, this`kernel
      ensures State() == NativePrefixFreed(old(State()), i)
    {
      var j := 0;
      while j < i
        invariant j <= i <= |native|
        invariant State() == NativePrefixFreed(old(State()), j)
      {
        FreeNativeSlot(j);
        j := j + 1;
      }
    }

    method AllocNativeSlot(i: nat, mapped: bool)
      requires i < |native|
      modifies this`native, this`nextFb
      ensures State() == WithNative(old(State()), i, mapped) && |native| == old(|native|)
    {
      var made := Buffer(nextFb, width, height, mapped, {}, {});
      native := native[i := made];
      nextFb := nextFb + 1;
    }

    // The allocation loop of the native buffers: the first n allocations succeed.
    method AllocNative(n: nat, mapped: bool)
      modifies this`native, this`kernel, this`nextFb, this`nativeState, this`curNative
      ensures State() == NativeAllocated(old(State()), 0, n, mapped)
    {
      hide NativePrefixFreed, NativeSlotFreed, WithNative;
      var i := 0;
      while i < |native|
        invariant i <= |native|
        invariant NativeAllocated(State(), i, n, mapped) == NativeAllocated(old(State()), 0, n, mapped)
      {
        FreeNativeSlot(i);
        if n <= i {
          FreeNativePrefix(i);
          nativeState := -1;
          return;
        }
        AllocNativeSlot(i, mapped);
        i := i + 1;
      }
      nativeState, curNative := 1, 0;
    }

    method ReadyNative(compatible: bool, n: nat, mapped: bool)
      requires Ready(State())
      modifies this`native, this`kernel, this`nextFb, this`nativeState, this`curNative
      ensures State() == NativeReadied(old(State()), compatible, n, mapped)
    {
      hide NativeAllocated;
      if nativeState == -1 { return; }
      if !compatible {
        nativeState := -1;
        return;
      }
      if nativeState == 1 {
        if native[0].width == width && native[0].height == height { return; }
        FreeNative();
        nativeState := 0;
      }
      AllocNative(n, mapped);
    }

    method AllocRing(n: nat, mapped: bool)
      modifies this`ring, this`nextFb
      ensures State() == RingAllocated(old(State()), 0, n, mapped)
    {
      var i := 0;
      while i < |ring| && i < n
        invariant i <= |ring|
        invariant RingAllocated(State(), i, n, mapped) == RingAllocated(old(State()), 0, n, mapped)
      {
        var made := Buffer(nextFb, width, height, mapped, {}, {});
        ring := ring[i := made];
        nextFb := nextFb + 1;
        i := i + 1;
      }
    }

    // ---------- what is shown ----------

    // Bars, the frame, the text.
    method PaintRgb(painted: Rect, content: Pixels, osd: Pixels)
      requires Ready(State())
      modifies this`ring, this`keys
      ensures State() == Drawn(old(State()), painted, content, osd)
      ensures cur == old(cur) < |ring| && Pictures.Shows(ring[cur].lit, painted, content, osd)
    {
      hide Filled, Pictures.Shows;
      Pictures.DrawnShows(State(), painted, content, osd);
      FillBg(painted);
      var kept := Outside(ring[cur].lit, painted);
      ring := ring[cur := ring[cur].(lit := kept + Region(content, painted))];
      ring := ring[cur := ring[cur].(lit := ring[cur].lit + osd, text := ring[cur].text + osd)];
    }

    // The XRGB end of show_frame_memory.
    method ShowRgb(path: Path, fw: nat, fh: nat, content: Pixels, osd: Pixels, a: Alloc, r: Reply)
      requires Ready(State())
      modifies this
      ensures (State(), paints) == After(ShownRgb(old(State()), path, fw, fh, content, osd, a, r), old(paints))
    {
      hide Readied, Drawn, Committed, RectOf, SameIds;
      ReadyCurrent(a);
      if ring[cur].fb == 0 || !ring[cur].mapped { return; }
      var painted := RectOf(State(), path, fw, fh);
      PaintRgb(painted, content, osd);
      paints := paints + [RecordOf(State(), osd, painted, mode != Stretch)];
      CommitCurrent(r);
    }

    // fill_bg_yuv and sw_uyvy_scale: the whole native buffer black, then the frame.
    method PaintNative(content: Pixels, rect: Rect)
      requires InRange(State())
      modifies this`native
      ensures State() == NativePainted(old(State()), content, rect)
    {
      var b := native[curNative];
      native := native[curNative := b.(lit := {})];
      native := native[curNative := b.(lit := Region(content, NativeRect(rect)))];
      assert native == old(native)[curNative := b.(lit := Region(content, NativeRect(rect)))];
    }

    method CommitNative(r: Reply) returns (done: bool)
      requires Ready(State())
      modifies this`kernel, this`flipPending, this`rotated, this`rotationDirty, this`crtcActive, this`keys,
               this`native, this`curNative, this`nativeState
      ensures (State(), done) == NativeCommitted(old(State()), r)
    {
      hide Commit, NativeFreed;
      var ok := CommitFb(native[curNative].fb, r);
      if ok || flipPending {
        if ok { curNative := Next(curNative, |native|); }
        return true;
      }
      FreeNative();
      nativeState := -1;
      return false;
    }

    // The native end of show_frame_memory.
    method ShowNative(fw: nat, fh: nat, content: Pixels, r: Reply) returns (done: bool)
      requires Ready(State())
      modifies this
      ensures ((State(), paints), done) ==
        (var (e, more, d) := ShownNative(old(State()), fw, fh, content, r); (After((e, more), old(paints)), d))
    {
      hide DstRect, NativeRect, NativeCommitted, NativePainted, Region;
      if nativeState != 1 || !native[curNative].mapped || native[curNative].fb == 0 { return false; }
      var fb, rect := native[curNative].fb, DstRect(mode, width, height, fw, fh);
      PaintNative(content, rect);
      paints := paints + [Paint(fb, kernel, Region(content, NativeRect(rect)), {}, {}, rect, mode != Stretch, true)];
      done := CommitNative(r);
    }

    method ShowFrameMemory(path: Path, fw: nat, fh: nat, content: Pixels, osd: Pixels,
                           compatible: bool, natives: nat, a: Alloc, r: Reply, r': Reply)
      requires Valid()
      modifies this
      ensures Valid()
      ensures (State(), paints) ==
        After(Step(old(State()), Frame(path, fw, fh, content, osd, compatible, natives, a, r, r')), old(paints))
      ensures old(paints) <= paints
      ensures forall i :: |old(paints)| <= i < |paints| ==>
        && Pictures.TellsFrame(paints[i], old(State()), path, fw, fh, content, if paints[i].native then {} else osd)
        && (paints[i].fb == Latest(kernel) ==> Pictures.OnItsWay(State(), paints[i]))
      ensures path != NativeFirst && old(Pictures.BufferToHand(State(), a)) ==>
        |paints| == |old(paints)| + 1 &&
        (Pictures.GoesThrough(old(State()), r) ==> Pictures.OnItsWay(State(), paints[|old(paints)|]))
    {
      hide Sound, ShownRgb, ShownUyvy, Pictures.TellsFrame, Pictures.OnItsWay, Latest, Pictures.GoesThrough;
      SoundIsReady((State(), paints));
      if path != NativeFirst { Pictures.RgbFrameIsShown(State(), path, fw, fh, content, osd, a, r); }
      FrameTold(State(), path, fw, fh, content, osd, compatible, natives, a, r, r');
      ShowFrame(path, fw, fh, content, osd, compatible, natives, a, r, r');
    }

    method ShowFrame(path: Path, fw: nat, fh: nat, content: Pixels, osd: Pixels,
                     compatible: bool, natives: nat, a: Alloc, r: Reply, r': Reply)
      requires Valid()
      modifies this
      ensures Valid()
      ensures (State(), paints) ==
        After(Step(old(State()), Frame(path, fw, fh, content, osd, compatible, natives, a, r, r')), old(paints))
    {
      hide Sound, ShownRgb, ShownNative, NativeReadied;
      SoundIsReady((State(), paints));
      StepSound(State(), paints, Frame(path, fw, fh, content, osd, compatible, natives, a, r, r'));
      if path != NativeFirst {
        ShowRgb(path, fw, fh, content, osd, a, r);
        return;
      }
      ReadyNative(compatible, natives, a == Mapped);
      ghost var ready := State();
      var done := ShowNative(fw, fh, content, r);
      if !done {
        ghost var first := ShownNative(ready, fw, fh, content, r);
        ghost var second := ShownRgb(first.0, Software, fw, fh, content, osd, a, r');
        ShowRgb(Software, fw, fh, content, osd, a, r');
        assert old(paints) + first.1 + second.1 == old(paints) + (first.1 + second.1);
      }
    }

    method PaintSplash(content: Pixels, a: Alloc, r: Reply)
      requires Ready(State())
      modifies this
      ensures (State(), paints) == After(ShownSplash(old(State()), content, a, r), old(paints))
    {
      hide Readied, Committed, Forgotten;
      ReadyCurrent(a);
      if ring[cur].fb == 0 || !ring[cur].mapped { return; }
      ring := ring[cur := ring[cur].(lit := content, text := {})];
      paints := paints + [RecordOf(State(), {}, Rect(0, 0, 0, 0), false)];
      InvalidateFillCache();
      CommitCurrent(r);
    }

    method ShowSplash(content: Pixels, a: Alloc, r: Reply)
      requires Valid()
      modifies this
      ensures Valid()
      ensures (State(), paints) == After(ShownSplash(old(State()), content, a, r), old(paints))
      ensures old(Pictures.BufferToHand(State(), a)) ==>
        |paints| == |old(paints)| + 1 && paints[|old(paints)|].lit == content &&
        (Pictures.GoesThrough(old(State()), r) ==> Pictures.OnItsWay(State(), paints[|old(paints)|]))
    {
      hide Sound, ShownSplash, Pictures.OnItsWay, Latest, Pictures.GoesThrough;
      SoundIsReady((State(), paints));
      Pictures.SplashIsShown(State(), content, a, r);
      StepSound(State(), paints, Splash(content, a, r));
      PaintSplash(content, a, r);
    }

    method ShowBlackImpl(a: Alloc, r: Reply)
      requires Ready(State())
      modifies this
      ensures (State(), paints) == After(ShownBlack(old(State()), a, r), old(paints))
    {
      hide Readied, Committed, Forgotten;
      ReadyCurrent(a);
      if ring[cur].fb == 0 { return; }
      if ring[cur].mapped {
        ring := ring[cur := ring[cur].(lit := {}, text := {})];
        paints := paints + [RecordOf(State(), {}, Rect(0, 0, 0, 0), true)];
      }
      InvalidateFillCache();
      CommitCurrent(r);
    }

    method ShowBlack(a: Alloc, r: Reply)
      requires Valid()
      modifies this
      ensures Valid()
      ensures (State(), paints) == After(ShownBlack(old(State()), a, r), old(paints))
      ensures old(Pictures.BufferToHand(State(), a)) ==>
        |paints| == |old(paints)| + 1 && paints[|old(paints)|].lit == {} &&
        (Pictures.GoesThrough(old(State()), r) ==> Pictures.OnItsWay(State(), paints[|old(paints)|]))
    {
      hide Sound, ShownBlack, Pictures.OnItsWay, Latest, Pictures.GoesThrough;
      SoundIsReady((State(), paints));
      Pictures.BlackIsShown(State(), a, r);
      StepSound(State(), paints, Black(a, r));
      ShowBlackImpl(a, r);
    }

    method FreeAll()
      modifies this`ring, this`native, this`kernel
      ensures State() == NativeFreed(RingFreed(old(State())))
    {
      hide RingFreed, NativeFreed;
      FreeRing();
      FreeNative();
    }

    // All buffers go, the new size holds, and nothing is active.
    method TearDown(w: nat, h: nat)
      modifies this
      ensures State() == ModeChanged(old(State()), w, h) && paints == old(paints)
    {
      hide Forgotten, RingFreed, NativeFreed;
      FreeAll();
      width, height := w, h;
      nativeState := if rotated then -1 else 0;
      crtcActive := false;
      InvalidateFillCache();
    }

    method SetMode(w: nat, h: nat, n: nat, mapped: bool, r: Reply)
      requires Valid()
      modifies this
      ensures Valid()
      ensures (State(), paints) == After(SetModeTo(old(State()), w, h, n, mapped, r), old(paints))
      ensures 0 < w && 0 < h && mapped ==> width == w && height == h && Pictures.RingFits(State(), true, n)
    {
      hide Sound, SetModeTo, Pictures.RingFits;
      SoundIsReady((State(), paints));
      StepSound(State(), paints, Mode(w, h, n, mapped, r));
      if mapped { Pictures.ModeTakesEffect(State(), w, h, n, r); }
      ChangeMode(w, h, n, mapped, r);
    }

    method ChangeMode(w: nat, h: nat, n: nat, mapped: bool, r: Reply)
      requires Ready(State())
      modifies this
      ensures (State(), paints) == After(SetModeTo(old(State()), w, h, n, mapped, r), old(paints))
    {
      hide RingAllocated, ShownBlack, After;
      if w == 0 || h == 0 { return; }
      TearDown(w, h);
      AllocRing(n, mapped);
      if n < |ring| { return; }
      ShowBlackImpl(Mapped, r);
    }

    method ResetFlipPending()
      modifies this`flipPending
      ensures State() == old(State()).(flipPending := false)
      ensures old(Valid()) ==> Valid()
    {
      if Valid() { StepSound(State(), paints, ResetFlip); }
      flipPending := false;
    }
  }

  // A transition and what it painted, after an earlier log.
  function After(s: (Display, seq<Paint>), log: seq<Paint>): (a: (Display, seq<Paint>))
    ensures s.1 == [] ==> a == (s.0, log)
  {
    assert s.1 == [] ==> log + s.1 == log;
    (s.0, log + s.1)
  }

  // The first i buffers freed.
  ghost function PrefixFreed(ring: seq<Buffer>, i: nat): (r: seq<Buffer>)
    requires i <= |ring|
    ensures |r| == |ring| && forall j :: i <= j < |ring| ==> r[j] == ring[j]
  {
    Emptied(ring[..i]) + ring[i..]
  }

  lemma FreeStep(ring: seq<Buffer>, k: Kernel, i: nat)
    requires i < |ring|
    ensures PrefixFreed(ring, i)[i := NO_BUFFER] == PrefixFreed(ring, i + 1)
    ensures Removed(Removed(k, Ids(ring[..i])), {ring[i].fb}) == Removed(k, Ids(ring[..i + 1]))
  {
    IdsOfPrefix(ring, i);
  }

  lemma AllFreed(ring: seq<Buffer>)
    ensures PrefixFreed(ring, 0) == ring && PrefixFreed(ring, |ring|) == Emptied(ring)
    ensures forall k :: Removed(k, Ids(ring[..0])) == k
    ensures ring[..|ring|] == ring
  {}

  lemma IdsOfPrefix(ring: seq<Buffer>, i: nat)
    requires i < |ring|
    ensures Ids(ring[..i + 1]) == Ids(ring[..i]) + {ring[i].fb}
  {
    assert ring[..i + 1][i].fb in Ids(ring[..i + 1]);
    forall x | x in Ids(ring[..i])
      ensures x in Ids(ring[..i + 1])
    {
      var j :| 0 <= j < i && ring[j].fb == x;
      assert ring[..i + 1][j].fb == x;
    }
    forall x | x in Ids(ring[..i + 1])
      ensures x in Ids(ring[..i]) + {ring[i].fb}
    {
      var j :| 0 <= j < i + 1 && ring[j].fb == x;
      if j < i { assert ring[..i][j].fb == x; }
    }
  }
}
