/** The display's buffers, flips and fill cache as a step protocol against the kernel. A buffer's
    content is the set of its pixels that are not black; its history is the text drawn into it since
    all of it was last overwritten. */
module ScanoutModel {
  import opened FrameGeometry

  // The kernel's side of the CRTC: the buffer scanned out, the one queued by a flip, and the
  // flip events not yet read. Zero is no buffer.
  datatype Kernel = Kernel(front: nat, pending: nat, events: nat)

  // The assumed rules: a flip is refused while another is pending, a modeset replaces both.
  function Vblank(k: Kernel): Kernel {
    if k.pending == 0 then k else Kernel(k.pending, 0, k.events + 1)
  }

  function Flipped(k: Kernel, fb: nat, accepts: bool): Kernel {
    if k.pending == 0 && accepts then k.(pending := fb) else k
  }

  function ModeSet(k: Kernel, fb: nat): Kernel {
    Kernel(fb, 0, k.events)
  }

  // Removing framebuffers takes them off the screen and out of the queue.
  function Removed(k: Kernel, fbs: set<nat>): Kernel {
    k.(front := if k.front in fbs then 0 else k.front, pending := if k.pending in fbs then 0 else k.pending)
  }

  type Pixels = set<(nat, nat)>

  predicate Inside(p: (nat, nat), r: Rect) {
    r.x <= p.0 < r.x + r.w && r.y <= p.1 < r.y + r.h
  }

  datatype Buffer = Buffer(fb: nat, width: nat, height: nat, mapped: bool, lit: Pixels, text: Pixels)
  const NO_BUFFER := Buffer(0, 0, 0, false, {}, {})

  // One entry of the fill cache: the buffer size, mode and painted rectangle of the last clear.
  datatype FillKey = FillKey(w: nat, h: nat, mode: ScaleMode, painted: Rect)

  datatype Display = Display(
    ring: seq<Buffer>, cur: nat, keys: seq<FillKey>,
    native: seq<Buffer>, curNative: nat, nativeState: int,
    width: nat, height: nat, mode: ScaleMode,
    crtcActive: bool, flipPending: bool, rotated: bool, rotationDirty: bool,
    nextFb: nat, kernel: Kernel)

  // What the kernel answers during one commit. Each poll may see the pending flip complete.
  datatype Reply = Reply(done: bool, accepts: bool, modeset: bool, badRotation: bool, doneAgain: bool, acceptsAgain: bool)

  function Next(i: nat, n: nat): nat {
    if i + 1 < n then i + 1 else 0
  }

  // All but the kernel, the flags and the cached keys.
  predicate SameBuffers(d: Display, e: Display) {
    && e.ring == d.ring && e.cur == d.cur && e.native == d.native && e.curNative == d.curNative
    && e.nativeState == d.nativeState && e.width == d.width && e.height == d.height && e.mode == d.mode
    && e.nextFb == d.nextFb && |e.keys| == |d.keys|
  }

  // ---------- commits ----------

  function Awaited(d: Display, done: bool): (e: Display)
    ensures SameBuffers(d, e) && e.keys == d.keys
  {
    if !d.flipPending then d
    else
      var k := if done then Vblank(d.kernel) else d.kernel;
      if k.events > 0 then d.(kernel := k.(events := 0), flipPending := false) else d.(kernel := k)
  }

  predicate UsesAtomic(d: Display) {
    d.rotated || d.rotationDirty
  }

  function Forgotten(keys: seq<FillKey>): (r: seq<FillKey>)
    ensures |r| == |keys|
  {
    seq(|keys|, i requires 0 <= i < |keys| => keys[i].(w := 0, h := 0))
  }

  // One attempt through the atomic interface: the state after it, and whether it was accepted.
  function AtomicTry(d: Display, fb: nat, done: bool, accepts: bool): (r: (Display, bool))
    ensures SameBuffers(d, r.0) && r.0.keys == d.keys
  {
    var w := Awaited(d, done);
    if w.flipPending && w.crtcActive then (w, false)
    else if w.kernel.pending == 0 && accepts then
      (w.(kernel := Flipped(w.kernel, fb, true), flipPending := true, rotationDirty := false, crtcActive := true), true)
    else (w.(flipPending := false), false)
  }

  predicate AtomicRefused(d: Display, done: bool, accepts: bool) {
    var w := Awaited(d, done);
    !(w.flipPending && w.crtcActive) && !(w.kernel.pending == 0 && accepts)
  }

  // A refused rotation is reverted and the commit tried once more.
  function AtomicCommit(d: Display, fb: nat, r: Reply): (c: (Display, bool))
    ensures SameBuffers(d, c.0) && (c.0.keys == d.keys || c.0.keys == Forgotten(d.keys))
  {
    var (e, ok) := AtomicTry(d, fb, r.done, r.accepts);
    if AtomicRefused(d, r.done, r.accepts) && e.rotated && r.badRotation then
      AtomicTry(e.(rotated := false, rotationDirty := true, keys := Forgotten(e.keys)), fb, r.doneAgain, r.acceptsAgain)
    else (e, ok)
  }

  function Commit(d: Display, fb: nat, r: Reply): (c: (Display, bool))
    ensures SameBuffers(d, c.0) && (c.0.keys == d.keys || c.0.keys == Forgotten(d.keys))
  {
    if UsesAtomic(d) then AtomicCommit(d, fb, r)
    else if !d.crtcActive then
      if r.modeset then (d.(kernel := ModeSet(d.kernel, fb), crtcActive := true), true) else (d, false)
    else
      var w := Awaited(d, r.done);
      if w.flipPending then (w, false)
      else if w.kernel.pending == 0 && r.accepts then (w.(kernel := Flipped(w.kernel, fb, true), flipPending := true), true)
      else if r.modeset then (w.(kernel := ModeSet(w.kernel, fb)), true)
      else (w, false)
  }

  // ---------- safety of one ring of buffers ----------

  // The buffer that will be on screen once everything queued has happened.
  function Latest(k: Kernel): nat {
    if k.pending != 0 then k.pending else k.front
  }

  ghost predicate Distinct(ring: seq<Buffer>) {
    forall i, j :: 0 <= i < j < |ring| ==> ring[i].fb != ring[j].fb || ring[i].fb == 0
  }

  predicate Busy(fb: nat, k: Kernel) {
    fb != 0 && (fb == k.front || fb == k.pending)
  }

  // The buffer painted next is neither on screen nor queued. The one after it is not the latest
  // buffer committed; it may still be on screen only while a buffer of the same ring is queued.
  ghost predicate RingSafe(ring: seq<Buffer>, cur: nat, k: Kernel) {
    && cur < |ring| && Distinct(ring)
    && !Busy(ring[cur].fb, k)
    && var after := ring[Next(cur, |ring|)].fb;
    (after != 0 ==>
       && after != Latest(k)
       && (after == k.front && k.pending != 0 ==> Holds(ring, k.pending)))
  }

  ghost predicate Holds(ring: seq<Buffer>, fb: nat) {
    exists i :: 0 <= i < |ring| && ring[i].fb == fb
  }

  ghost predicate IdsBelow(ring: seq<Buffer>, n: nat) {
    forall i :: 0 <= i < |ring| ==> ring[i].fb < n
  }

  ghost predicate Apart(ring: seq<Buffer>, native: seq<Buffer>) {
    forall i, j :: 0 <= i < |ring| && 0 <= j < |native| ==> ring[i].fb != native[j].fb || ring[i].fb == 0
  }

  predicate InRange(d: Display) {
    d.cur < |d.ring| && d.curNative < |d.native|
  }

  ghost predicate Safe(d: Display) {
    && 3 <= |d.ring| && 3 <= |d.native| && |d.keys| == |d.ring|
    && RingSafe(d.ring, d.cur, d.kernel) && (d.nativeState == 1 ==> RingSafe(d.native, d.curNative, d.kernel))
    && Distinct(d.native) && Apart(d.ring, d.native) && InRange(d)
    && 0 < d.nextFb && IdsBelow(d.ring, d.nextFb) && IdsBelow(d.native, d.nextFb)
    && d.kernel.front < d.nextFb && d.kernel.pending < d.nextFb
  }

  lemma VblankSafe(ring: seq<Buffer>, cur: nat, k: Kernel, events: nat)
    requires RingSafe(ring, cur, k)
    ensures RingSafe(ring, cur, Vblank(k)) && RingSafe(ring, cur, Vblank(k).(events := events))
    ensures RingSafe(ring, cur, k.(events := events))
  {}

  // Committing the current buffer, by flip or by modeset, makes the next one safe to paint.
  // This is where three buffers are needed.
  lemma OwnCommitSafe(ring: seq<Buffer>, cur: nat, k: Kernel)
    requires RingSafe(ring, cur, k) && 3 <= |ring| && ring[cur].fb != 0
    ensures k.pending == 0 ==> RingSafe(ring, Next(cur, |ring|), Flipped(k, ring[cur].fb, true))
    ensures RingSafe(ring, Next(cur, |ring|), ModeSet(k, ring[cur].fb))
  {}

  // Committing a buffer of the other ring keeps this one as it is.
  lemma OtherCommitSafe(ring: seq<Buffer>, cur: nat, k: Kernel, fb: nat)
    requires RingSafe(ring, cur, k) && fb != 0 && forall i :: 0 <= i < |ring| ==> ring[i].fb != fb
    ensures k.pending == 0 ==> RingSafe(ring, cur, Flipped(k, fb, true))
    ensures RingSafe(ring, cur, ModeSet(k, fb))
  {}

  // With two buffers, the second commit would leave the buffer on screen to be painted next.
  lemma TwoBuffersAreNotEnough(ring: seq<Buffer>, k: Kernel)
    requires |ring| == 2 && Distinct(ring) && ring[0].fb != 0
    ensures Busy(ring[0].fb, Flipped(ModeSet(k, ring[0].fb), ring[1].fb, true))
  {}

  function CurrentFb(d: Display, onNative: bool): nat
    requires InRange(d)
  {
    if onNative then d.native[d.curNative].fb else d.ring[d.cur].fb
  }

  // A commit from the ring, or from the native ring while that is in use.
  ghost predicate Commits(d: Display, onNative: bool) {
    InRange(d) && Safe(d) && CurrentFb(d, onNative) != 0 && (onNative ==> d.nativeState == 1)
  }

  function Advanced(d: Display, onNative: bool, ok: bool): Display {
    if !ok then d
    else if onNative then d.(curNative := Next(d.curNative, |d.native|))
    else d.(cur := Next(d.cur, |d.ring|))
  }

  function Committed(d: Display, onNative: bool, r: Reply): Display
    requires InRange(d)
  {
    var (e, ok) := Commit(d, CurrentFb(d, onNative), r);
    Advanced(e, onNative, ok)
  }

  lemma AwaitedSafe(d: Display, done: bool)
    requires Safe(d)
    ensures Safe(Awaited(d, done))
    ensures var e := Awaited(d, done); e == d.(kernel := e.kernel, flipPending := e.flipPending)
  {
    hide RingSafe, Distinct, Apart, IdsBelow;
    VblankSafe(d.ring, d.cur, d.kernel, 0);
    if d.nativeState == 1 { VblankSafe(d.native, d.curNative, d.kernel, 0); }
  }

  // An accepted commit of a current buffer, by flip or by modeset, and the step to the next one.
  lemma AcceptedSafe(d: Display, onNative: bool, modeset: bool)
    requires Commits(d, onNative) && (modeset || d.kernel.pending == 0)
    ensures var fb := CurrentFb(d, onNative);
            var k := if modeset then ModeSet(d.kernel, fb) else Flipped(d.kernel, fb, true);
            Safe(Advanced(d.(kernel := k), onNative, true))
  {
    var fb := CurrentFb(d, onNative);
    if onNative {
      OwnCommitSafe(d.native, d.curNative, d.kernel);
      OtherCommitSafe(d.ring, d.cur, d.kernel, fb);
    } else {
      OwnCommitSafe(d.ring, d.cur, d.kernel);
      if d.nativeState == 1 { OtherCommitSafe(d.native, d.curNative, d.kernel, fb); }
    }
  }

  // Fields the safety of the buffers does not depend on.
  lemma SafeDependsOn(d: Display, e: Display)
    requires Safe(d) && e.ring == d.ring && e.cur == d.cur && e.native == d.native && e.curNative == d.curNative
    requires e.nativeState == 1 ==> d.nativeState == 1
    requires e.nextFb == d.nextFb && e.kernel == d.kernel && |e.keys| == |d.keys|
    ensures Safe(e)
  {}

  lemma AtomicTrySafe(d: Display, onNative: bool, done: bool, accepts: bool)
    requires Commits(d, onNative)
    ensures var (e, ok) := AtomicTry(d, CurrentFb(d, onNative), done, accepts);
            && Safe(Advanced(e, onNative, ok))
            && (!ok ==> Commits(e, onNative) && CurrentFb(e, onNative) == CurrentFb(d, onNative))
  {
    AwaitedSafe(d, done);
    var w := Awaited(d, done);
    var (e, ok) := AtomicTry(d, CurrentFb(d, onNative), done, accepts);
    if ok {
      AcceptedSafe(w, onNative, false);
      SafeDependsOn(Advanced(w.(kernel := e.kernel), onNative, true), Advanced(e, onNative, true));
    } else {
      SafeDependsOn(w, e);
    }
  }

  lemma LegacySafe(d: Display, onNative: bool, r: Reply)
    requires Commits(d, onNative) && !UsesAtomic(d)
    ensures Safe(Committed(d, onNative, r))
  {
    hide Safe;
    var (e, ok) := Commit(d, CurrentFb(d, onNative), r);
    if d.crtcActive {
      AwaitedSafe(d, r.done);
      var w := Awaited(d, r.done);
      if ok {
        AcceptedSafe(w, onNative, !(w.kernel.pending == 0 && r.accepts));
        SafeDependsOn(Advanced(w.(kernel := e.kernel), onNative, true), Advanced(e, onNative, true));
      }
    } else if ok {
      AcceptedSafe(d, onNative, true);
      SafeDependsOn(Advanced(d.(kernel := e.kernel), onNative, true), Advanced(e, onNative, true));
    }
  }

  lemma RefusedIsNotOk(d: Display, fb: nat, done: bool, accepts: bool)
    requires AtomicRefused(d, done, accepts)
    ensures !AtomicTry(d, fb, done, accepts).1
  {}

  lemma AtomicSafe(d: Display, onNative: bool, r: Reply)
    requires Commits(d, onNative) && UsesAtomic(d)
    ensures Safe(Committed(d, onNative, r))
  {
    hide Safe, AtomicTry, AtomicRefused;
    var fb := CurrentFb(d, onNative);
    AtomicTrySafe(d, onNative, r.done, r.accepts);
    var (t, first) := AtomicTry(d, fb, r.done, r.accepts);
    if AtomicRefused(d, r.done, r.accepts) && t.rotated && r.badRotation {
      RefusedIsNotOk(d, fb, r.done, r.accepts);
      var again := t.(rotated := false, rotationDirty := true, keys := Forgotten(t.keys));
      SafeDependsOn(t, again);
      AtomicTrySafe(again, onNative, r.doneAgain, r.acceptsAgain);
    }
  }

  // A commit of the current buffer of either ring, whatever the kernel answers, keeps both safe.
  lemma CommittedSafe(d: Display, onNative: bool, r: Reply)
    requires Commits(d, onNative)
    ensures Safe(Committed(d, onNative, r))
  {
    if UsesAtomic(d) {
      AtomicSafe(d, onNative, r);
    } else {
      LegacySafe(d, onNative, r);
    }
  }

  // ---------- buffers come and go ----------

  function Ids(ring: seq<Buffer>): set<nat> {
    set i | 0 <= i < |ring| :: ring[i].fb
  }

  function Emptied(ring: seq<Buffer>): (r: seq<Buffer>)
    ensures |r| == |ring|
  {
    seq(|ring|, _ => NO_BUFFER)
  }

  // free_fb on every buffer of a ring.
  function NativeFreed(d: Display): Display {
    d.(native := Emptied(d.native), kernel := Removed(d.kernel, Ids(d.native)))
  }

  function RingFreed(d: Display): Display {
    d.(ring := Emptied(d.ring), kernel := Removed(d.kernel, Ids(d.ring)))
  }

  lemma RemovalSafe(ring: seq<Buffer>, cur: nat, k: Kernel, fbs: set<nat>)
    requires RingSafe(ring, cur, k) && forall i :: 0 <= i < |ring| && ring[i].fb != 0 ==> ring[i].fb !in fbs
    ensures RingSafe(ring, cur, Removed(k, fbs))
  {}

  lemma NativeFreedSafe(d: Display)
    requires Safe(d)
    ensures Safe(NativeFreed(d))
  {
    RemovalSafe(d.ring, d.cur, d.kernel, Ids(d.native));
  }

  lemma RingFreedSafe(d: Display)
    requires Safe(d)
    ensures Safe(RingFreed(d))
  {
    if d.nativeState == 1 { RemovalSafe(d.native, d.curNative, d.kernel, Ids(d.ring)); }
  }

  // A new buffer of the display's size: black, with an id never used before.
  function Allocated(d: Display, mapped: bool): Buffer {
    Buffer(d.nextFb, d.width, d.height, mapped, {}, {})
  }

  function WithBuffer(d: Display, i: nat, mapped: bool): Display
    requires i < |d.ring|
  {
    d.(ring := d.ring[i := Allocated(d, mapped)], nextFb := d.nextFb + 1)
  }

  function WithNative(d: Display, i: nat, mapped: bool): Display
    requires i < |d.native|
  {
    d.(native := d.native[i := Allocated(d, mapped)], nextFb := d.nextFb + 1)
  }

  lemma ReplacedSafe(ring: seq<Buffer>, cur: nat, k: Kernel, i: nat, b: Buffer)
    requires RingSafe(ring, cur, k) && i < |ring| && !Busy(ring[i].fb, k)
    requires !Busy(b.fb, k) && b.fb != 0 && forall j :: 0 <= j < |ring| ==> ring[j].fb != b.fb
    ensures RingSafe(ring[i := b], cur, k)
  {
    if k.pending != 0 && Holds(ring, k.pending) {
      var j :| 0 <= j < |ring| && ring[j].fb == k.pending;
      assert ring[i := b][j].fb == k.pending;
    }
  }

  lemma WithBufferSafe(d: Display, i: nat, mapped: bool)
    requires Safe(d) && i < |d.ring| && (d.ring[i].fb == 0 || !Busy(d.ring[i].fb, d.kernel))
    ensures Safe(WithBuffer(d, i, mapped))
  {
    ReplacedSafe(d.ring, d.cur, d.kernel, i, Allocated(d, mapped));
  }

  // free_fb on one native buffer, which may be on screen.
  function NativeSlotFreed(d: Display, i: nat): Display
    requires i < |d.native|
  {
    d.(native := d.native[i := NO_BUFFER], kernel := Removed(d.kernel, {d.native[i].fb}))
  }

  lemma NativeSlotFreedSafe(d: Display, i: nat)
    requires Safe(d) && d.nativeState != 1 && i < |d.native|
    ensures Safe(NativeSlotFreed(d, i))
  {
    RemovalSafe(d.ring, d.cur, d.kernel, {d.native[i].fb});
  }

  lemma WithNativeSafe(d: Display, i: nat, mapped: bool)
    requires Safe(d) && d.nativeState != 1 && i < |d.native|
    ensures Safe(WithNative(d, i, mapped))
  {}

  // The allocation loop of the native buffers from number i on, of which n succeed.
  function NativeAllocated(d: Display, i: nat, n: nat, mapped: bool): (e: Display)
    requires i <= |d.native|
    ensures |e.native| == |d.native| && (e.curNative == d.curNative || e.curNative == 0)
    ensures e == d.(native := e.native, kernel := e.kernel, nextFb := e.nextFb, nativeState := e.nativeState, curNative := e.curNative)
    decreases |d.native| - i
  {
    if i == |d.native| then d.(nativeState := 1, curNative := 0)
    else
      var f := NativeSlotFreed(d, i);
      if i < n then NativeAllocated(WithNative(f, i, mapped), i + 1, n, mapped)
      else NativePrefixFreed(f, i).(nativeState := -1)
  }

  function NativePrefixFreed(d: Display, i: nat): (e: Display)
    requires i <= |d.native|
    ensures |e.native| == |d.native| && e == d.(native := e.native, kernel := e.kernel)
    decreases i
  {
    if i == 0 then d else NativeSlotFreed(NativePrefixFreed(d, i - 1), i - 1)
  }

  lemma {:induction false} NativePrefixFreedSafe(d: Display, i: nat)
    requires Safe(d) && d.nativeState != 1 && i <= |d.native|
    ensures var e := NativePrefixFreed(d, i);
            && Safe(e) && |e.native| == |d.native| && e == d.(native := e.native, kernel := e.kernel)
            && e.kernel.events == d.kernel.events
    decreases i
  {
    hide Safe;
    if i > 0 {
      NativePrefixFreedSafe(d, i - 1);
      NativeSlotFreedSafe(NativePrefixFreed(d, i - 1), i - 1);
    }
  }

  // The first i native buffers are new: not known to the kernel.
  ghost predicate NewPrefix(d: Display, i: int) {
    forall j :: 0 <= j < i && j < |d.native| ==> d.native[j].fb != 0 && !Busy(d.native[j].fb, d.kernel)
  }

  lemma AllNewIsSafe(d: Display)
    requires Safe(d) && d.nativeState != 1 && NewPrefix(d, |d.native|)
    ensures Safe(d.(nativeState := 1, curNative := 0))
  {
    var ring, k := d.native, d.kernel;
    assert !Busy(ring[0].fb, k) && !Busy(ring[1].fb, k);
    assert RingSafe(ring, 0, k);
  }

  lemma NewPrefixGrows(d: Display, i: nat, mapped: bool)
    requires Safe(d) && i < |d.native| && NewPrefix(d, i)
    ensures NewPrefix(WithNative(NativeSlotFreed(d, i), i, mapped), i + 1)
  {}

  lemma {:induction false} NativeAllocatedSafe(d: Display, i: nat, n: nat, mapped: bool)
    requires Safe(d) && d.nativeState != 1 && i <= |d.native| && NewPrefix(d, i)
    ensures Safe(NativeAllocated(d, i, n, mapped))
    decreases |d.native| - i
  {
    hide Safe, NewPrefix;
    if i == |d.native| {
      AllNewIsSafe(d);
    } else {
      var f := NativeSlotFreed(d, i);
      NativeSlotFreedSafe(d, i);
      if i < n {
        WithNativeSafe(f, i, mapped);
        NewPrefixGrows(d, i, mapped);
        NativeAllocatedSafe(WithNative(f, i, mapped), i + 1, n, mapped);
      } else {
        NativePrefixFreedSafe(f, i);
        SafeDependsOn(NativePrefixFreed(f, i), NativePrefixFreed(f, i).(nativeState := -1));
      }
    }
  }
}
