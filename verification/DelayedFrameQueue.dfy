/** The delayed video queue. Each method of the class is proved against a function on values;
    the laws about single calls and about whole runs are lemmas on those functions. Times are
    microseconds, delays milliseconds, measured intervals reals. */
module DelayedFrames {
  import opened VideoBudget
  import opened Wrappers

  datatype Stamped<F> = Stamped(frame: F, enqueuedUs: int)

  datatype Queue<F> = Queue(
    frames: seq<Stamped<F>>, frameBytes: nat, maximum: nat, depth: nat, requested: nat,
    fpsNum: nat, fpsDen: nat, delay: nat, intervalUs: real, lastPush: Option<int>)

  // ---------- what each operation computes ----------

  function FrameInterval<F>(q: Queue<F>): (interval: real)
    requires 0 < q.fpsNum && 0 < q.fpsDen
    ensures 0.0 < interval
  {
    var nominal := 1000000.0 * q.fpsDen as real / q.fpsNum as real;
    if q.intervalUs > 0.0 then MinReal(nominal, q.intervalUs) else nominal
  }

  // update_limit(): how many frames the granted bytes allow.
  function Limited<F>(q: Queue<F>, bytes: nat): Queue<F>
    requires 0 < q.frameBytes
  {
    q.(maximum := 2 + Min(598, bytes / q.frameBytes))
  }

  function DepthFor(maximum: nat, requested: nat, interval: real): int
    requires 0.0 < interval
  {
    Min(maximum, Ceil(requested as real * 1000.0 / interval) + 2)
  }

  function CapFor(maximum: nat, interval: real): int {
    if maximum > 2 then ((maximum - 2) as real * interval / 1000.0).Floor else 0
  }

  function Newest<T>(s: seq<T>, n: nat): seq<T> {
    if |s| <= n then s else s[|s| - n..]
  }

  // resize_delay(): depth and effective delay for an interval; surplus old frames are dropped.
  function Resized<F>(q: Queue<F>, interval: real): Queue<F>
    requires 0.0 < interval
  {
    var depth := Max(0, DepthFor(q.maximum, q.requested, interval));
    q.(depth := depth, delay := Max(0, Min(q.requested, CapFor(q.maximum, interval))),
       frames := Newest(q.frames, depth))
  }

  function Configured<F>(q: Queue<F>, ms: int, fpsNum: int, fpsDen: int): Queue<F> {
    var reset := if q.requested == 0 && ms > 0 then q.(lastPush := None, intervalUs := 0.0) else q;
    reset.(requested := Max(0, Min(ms, 5000)), fpsNum := Max(1, fpsNum), fpsDen := Max(1, fpsDen))
  }

  // set_delay_ms(), given the bytes the allocator grants in the middle of it.
  function DelaySet<F>(q: Queue<F>, ms: int, fpsNum: int, fpsDen: int, bytes: nat): Queue<F>
    requires Valid(q)
  {
    var p := Limited(Configured(q, ms, fpsNum, fpsDen), bytes);
    Resized(p, FrameInterval(p))
  }

  // The interval measured by a push at now, and the interval the queue is then resized for.
  function Measured<F>(q: Queue<F>, now: int): real
    requires q.lastPush.Some?
  {
    var gap := (now - q.lastPush.value) as real;
    if q.intervalUs > 0.0 then 0.9 * q.intervalUs + 0.1 * gap else gap
  }

  predicate Measures<F>(q: Queue<F>, now: int) {
    q.requested > 0 && q.lastPush.Some? && now > q.lastPush.value
  }

  // A push before the frame itself goes in.
  function Prepared<F>(q: Queue<F>, now: int, bytes: nat): Queue<F>
    requires Valid(q)
  {
    if q.requested == 0 then q
    else
      var p := Limited(q, bytes);
      var r := Resized(p, FrameInterval(p));
      var m := if Measures(r, now)
               then Resized(r.(intervalUs := Measured(r, now)), MinReal(Measured(r, now), (now - r.lastPush.value) as real))
               else r;
      m.(lastPush := Some(now))
  }

  function Pushed<F>(q: Queue<F>, frame: F, now: int, bytes: nat): Queue<F>
    requires Valid(q)
  {
    var p := Prepared(q, now, bytes);
    if p.depth == 0 then p
    else p.(frames := (if |p.frames| >= p.depth then p.frames[1..] else p.frames) + [Stamped(frame, now)])
  }

  predicate Kept<F>(q: Queue<F>, now: int, bytes: nat)
    requires Valid(q)
  {
    var p := Prepared(q, now, bytes);
    p.depth != 0 && |p.frames| < p.depth
  }

  predicate Due<F>(q: Queue<F>, now: int) {
    q.frames != [] && (q.delay > 0 ==> q.frames[0].enqueuedUs + q.delay * 1000 <= now)
  }

  function Popped<F>(q: Queue<F>, now: int): Queue<F> {
    if Due(q, now) then q.(frames := q.frames[1..]) else q
  }

  function Cleared<F>(q: Queue<F>): Queue<F> {
    q.(frames := [], lastPush := None, intervalUs := 0.0)
  }

  // ---------- the invariant of one queue ----------

  ghost predicate Valid<F>(q: Queue<F>) {
    && 0 < q.frameBytes && 0 < q.fpsNum && 0 < q.fpsDen && 0.0 <= q.intervalUs && q.requested <= 5000
    && 2 <= q.depth <= q.maximum && |q.frames| <= q.depth
    && (q.requested == 0 ==> q.depth == 2 && q.delay == 0)
  }

  lemma DepthBounds(maximum: nat, requested: nat, interval: real)
    requires 0.0 < interval && 2 <= maximum
    ensures 2 <= DepthFor(maximum, requested, interval) <= maximum
    ensures requested == 0 ==> DepthFor(maximum, requested, interval) == 2
    ensures 0 < requested ==> DepthFor(maximum, requested, interval) >= Min(3, maximum)
    ensures 0 <= CapFor(maximum, interval)
  {}

  lemma DivideByMore(r: real, i: real, j: real)
    requires 0.0 <= r && 0.0 < i <= j
    ensures r / j <= r / i
  {
    var a, b := r / i, r / j;
    assert a * i == r && b * j == r;
    if a < b {
      MultiplyByMore(b, i, j);
      MultiplyMore(i, a, b);
      assert false;
    }
  }

  lemma MultiplyByMore(m: real, i: real, j: real)
    requires 0.0 <= m && i <= j
    ensures m * i <= m * j
  {}

  lemma MultiplyMore(i: real, a: real, b: real)
    requires 0.0 < i && a < b
    ensures a * i < b * i
  {}

  lemma FloorMonotone(a: real, b: real)
    requires a <= b
    ensures a.Floor <= b.Floor
  {}

  lemma Antitone(maximum: nat, requested: nat, i: real, j: real)
    requires 0.0 < i <= j
    ensures DepthFor(maximum, requested, j) <= DepthFor(maximum, requested, i)
    ensures CapFor(maximum, i) <= CapFor(maximum, j)
  {
    DivideByMore(requested as real * 1000.0, i, j);
    if maximum > 2 {
      var m := (maximum - 2) as real;
      MultiplyByMore(m, i, j);
      FloorMonotone(m * i / 1000.0, m * j / 1000.0);
    }
  }

  function Times(n: int, g: real): real {
    n as real * g
  }

  lemma TimesStep(n: int, g: real)
    ensures Times(n + 1, g) == Times(n, g) + g && Times(0, g) == 0.0
  {}

  lemma TimesMonotone(a: int, b: int, g: real, h: real)
    requires 0 <= b <= a && 0.0 <= h <= g
    ensures Times(b, h) <= Times(a, g)
  {
    assert b as real * h <= b as real * g <= a as real * g;
  }

  // The real-time guarantee of a resize: the depth it sets holds at least its effective delay.
  lemma DepthCoversDelay(maximum: nat, requested: nat, interval: real)
    requires 0.0 < interval && 2 <= maximum
    ensures Times(DepthFor(maximum, requested, interval) - 2, interval)
              >= 1000.0 * Min(requested, CapFor(maximum, interval)) as real
  {
    DepthBounds(maximum, requested, interval);
    var d := DepthFor(maximum, requested, interval);
    if d == maximum {
      if maximum > 2 {
        var room := (maximum - 2) as real * interval / 1000.0;
        assert room.Floor as real <= room;
      }
    } else {
      var need := requested as real * 1000.0 / interval;
      assert (d - 2) as real >= need;
      assert (d - 2) as real * interval >= need * interval == requested as real * 1000.0;
    }
  }

  // What a resize decides, as bounds: the depth is the least that holds the requested delay, as far
  // as the limit goes, and the delay the most the limit can hold, as far as it was requested.
  lemma ResizedFits<F>(q: Queue<F>, interval: real)
    requires 0.0 < interval && 2 <= q.maximum
    ensures var r := Resized(q, interval);
            && (r.depth == q.maximum || Times(r.depth - 2, interval) >= 1000.0 * q.requested as real)
            && (q.requested == 0 ==> r.depth == 2)
            && (0 < q.requested ==> Times(r.depth - 3, interval) < 1000.0 * q.requested as real)
    ensures var r := Resized(q, interval);
            && r.delay <= q.requested && 1000.0 * r.delay as real <= Times(q.maximum - 2, interval)
            && (r.delay == q.requested || Times(q.maximum - 2, interval) < 1000.0 * (r.delay + 1) as real)
    ensures var r := Resized(q, interval);
            2 <= r.depth <= q.maximum && |r.frames| <= r.depth && (|q.frames| <= r.depth ==> r.frames == q.frames)
  {
    hide DepthFor, CapFor, Times;
    DepthBounds(q.maximum, q.requested, interval);
    DepthIsLeast(q.maximum, q.requested, interval);
    DelayIsLargest(q.maximum, q.requested, interval);
  }

  lemma DepthIsLeast(maximum: nat, requested: nat, interval: real)
    requires 0.0 < interval && 2 <= maximum
    ensures var d := DepthFor(maximum, requested, interval);
            && (d == maximum || Times(d - 2, interval) >= 1000.0 * requested as real)
            && (0 < requested ==> Times(d - 3, interval) < 1000.0 * requested as real)
  {
    hide Times;
    var d, need := DepthFor(maximum, requested, interval), requested as real * 1000.0 / interval;
    ScaledBack(requested as real * 1000.0, interval);
    if d != maximum { TimesAtLeast(need, d - 2, interval); }
    if 0 < requested {
      assert 0.0 < need;
      TimesBelow(d - 3, need, interval);
    }
  }

  lemma ScaledBack(a: real, g: real)
    requires 0.0 < g
    ensures a / g * g == a
    ensures 0.0 < a ==> 0.0 < a / g
  {}

  lemma TimesAtLeast(a: real, n: int, g: real)
    requires a <= n as real && 0.0 <= g
    ensures a * g <= Times(n, g)
  {
    Scaled(a, n as real, g);
  }

  lemma TimesBelow(n: int, a: real, g: real)
    requires n as real < a && 0.0 < g
    ensures Times(n, g) < a * g
  {
    ScaledStrictly(n as real, a, g);
  }

  lemma Scaled(a: real, b: real, g: real)
    requires a <= b && 0.0 <= g
    ensures a * g <= b * g
  {}

  lemma ScaledStrictly(a: real, b: real, g: real)
    requires a < b && 0.0 < g
    ensures a * g < b * g
  {}

  lemma DelayIsLargest(maximum: nat, requested: nat, interval: real)
    requires 0.0 < interval && 2 <= maximum
    ensures var e := Max(0, Min(requested, CapFor(maximum, interval)));
            && 1000.0 * e as real <= Times(maximum - 2, interval)
            && (e == requested || Times(maximum - 2, interval) < 1000.0 * (e + 1) as real)
  {
    var room := Times(maximum - 2, interval);
    Scaled(0.0, (maximum - 2) as real, interval);
    assert (room / 1000.0).Floor as real <= room / 1000.0 < (room / 1000.0).Floor as real + 1.0;
    assert maximum > 2 ==> CapFor(maximum, interval) == (room / 1000.0).Floor;
    assert maximum == 2 ==> room == 0.0;
  }

  // The interval a queue is sized for is the smaller of the nominal and the measured one.
  lemma FrameIntervalIsSmaller<F>(q: Queue<F>)
    requires 0 < q.fpsNum && 0 < q.fpsDen
    ensures var i := FrameInterval(q);
            && i * q.fpsNum as real <= 1000000.0 * q.fpsDen as real && (q.intervalUs > 0.0 ==> i <= q.intervalUs)
            && (i * q.fpsNum as real == 1000000.0 * q.fpsDen as real || (q.intervalUs > 0.0 && i == q.intervalUs))
  {
    var nominal := 1000000.0 * q.fpsDen as real / q.fpsNum as real;
    assert nominal * q.fpsNum as real == 1000000.0 * q.fpsDen as real;
    if q.intervalUs > 0.0 && q.intervalUs <= nominal { Scaled(q.intervalUs, nominal, q.fpsNum as real); }
  }

  // The limit is the largest number of frames that fits the grant beside two free ones, up to 600.
  lemma LimitIsLargest<F>(q: Queue<F>, bytes: nat)
    requires 0 < q.frameBytes
    ensures var m := Limited(q, bytes).maximum;
            && 2 <= m <= 600 && (m - 2) * q.frameBytes <= bytes && (m == 600 || bytes < (m - 1) * q.frameBytes)
  {
    Quotient(bytes, q.frameBytes);
    var m := Limited(q, bytes).maximum;
    assert m - 2 <= bytes / q.frameBytes;
    AtMost(m - 2, bytes / q.frameBytes, q.frameBytes);
  }

  lemma AtMost(a: nat, b: nat, c: nat)
    requires a <= b
    ensures a * c <= b * c
  {}

  // What a delay change takes over: the request and the rate, each in its range; starting to delay
  // forgets what was measured before.
  lemma DelaySetTakes<F>(q: Queue<F>, ms: int, num: int, den: int, bytes: nat)
    requires Valid(q)
    ensures var r := DelaySet(q, ms, num, den, bytes);
            && r.requested == (if ms <= 0 then 0 else if ms <= 5000 then ms else 5000)
            && r.fpsNum == (if num <= 1 then 1 else num) && r.fpsDen == (if den <= 1 then 1 else den)
            && r.frameBytes == q.frameBytes
            && (if q.requested == 0 && 0 < ms then r.lastPush == None && r.intervalUs == 0.0
                else r.lastPush == q.lastPush && r.intervalUs == q.intervalUs)
  {
    hide DepthFor, CapFor, FrameInterval;
  }

  lemma ResizedIsValid<F>(q: Queue<F>, interval: real)
    requires 0 < q.frameBytes && 0 < q.fpsNum && 0 < q.fpsDen && 0.0 <= q.intervalUs
    requires 0.0 < interval && 2 <= q.maximum && q.requested <= 5000
    ensures Valid(Resized(q, interval))
  {
    DepthBounds(q.maximum, q.requested, interval);
  }

  lemma DelaySetIsValid<F>(q: Queue<F>, ms: int, fpsNum: int, fpsDen: int, bytes: nat)
    requires Valid(q)
    ensures Valid(DelaySet(q, ms, fpsNum, fpsDen, bytes))
  {
    var p := Limited(Configured(q, ms, fpsNum, fpsDen), bytes);
    ResizedIsValid(p, FrameInterval(p));
  }

  lemma PreparedIsValid<F>(q: Queue<F>, now: int, bytes: nat)
    requires Valid(q)
    ensures Valid(Prepared(q, now, bytes))
  {
    if q.requested > 0 {
      var p := Limited(q, bytes);
      ResizedIsValid(p, FrameInterval(p));
      var r := Resized(p, FrameInterval(p));
      if Measures(r, now) {
        ResizedIsValid(r.(intervalUs := Measured(r, now)), MinReal(Measured(r, now), (now - r.lastPush.value) as real));
      }
    }
  }

  lemma PushedIsValid<F>(q: Queue<F>, frame: F, now: int, bytes: nat)
    requires Valid(q)
    ensures Valid(Pushed(q, frame, now, bytes))
  {
    PreparedIsValid(q, now, bytes);
  }

  // A push that measures sizes the queue for the smaller of the last gap and the average: at either
  // the delay is covered, so an early frame makes room at once.
  lemma PushCoversLastGap<F>(q: Queue<F>, frame: F, now: int, bytes: nat)
    requires Valid(q) && q.requested > 0 && q.lastPush.Some? && q.lastPush.value < now
    ensures var r := Pushed(q, frame, now, bytes);
            && r.lastPush == Some(now) && 0.0 < r.intervalUs
            && Times(r.depth - 2, (now - q.lastPush.value) as real) >= 1000.0 * r.delay as real
            && Times(r.depth - 2, r.intervalUs) >= 1000.0 * r.delay as real
  {
    hide DepthFor, CapFor, FrameInterval, Times;
    var gap, max := (now - q.lastPush.value) as real, Limited(q, bytes).maximum;
    var m := Measured(q, now);
    DepthBounds(max, q.requested, MinReal(m, gap));
    DepthCoversDelay(max, q.requested, MinReal(m, gap));
    var r := Pushed(q, frame, now, bytes);
    TimesMonotone(r.depth - 2, r.depth - 2, gap, MinReal(m, gap));
    TimesMonotone(r.depth - 2, r.depth - 2, m, MinReal(m, gap));
  }

  // A push remembers when it came. The interval is measured from two pushes at increasing times, and
  // moves a tenth of the way to each new gap.
  lemma PushMeasures<F>(q: Queue<F>, frame: F, now: int, bytes: nat)
    requires Valid(q) && q.requested > 0
    ensures var r := Pushed(q, frame, now, bytes);
            && r.lastPush == Some(now)
            && (if q.lastPush == None || now <= q.lastPush.value then r.intervalUs == q.intervalUs
                else var gap := (now - q.lastPush.value) as real;
                  if q.intervalUs == 0.0 then r.intervalUs == gap
                  else 10.0 * (r.intervalUs - q.intervalUs) == gap - q.intervalUs)
  {
    hide DepthFor, CapFor, FrameInterval, Newest;
  }

  // A frame is kept exactly if it displaces no other when it goes in.
  lemma KeptIff<F>(q: Queue<F>, frame: F, now: int, bytes: nat)
    requires Valid(q)
    ensures Kept(q, now, bytes) <==> Pushed(q, frame, now, bytes).frames == Prepared(q, now, bytes).frames + [Stamped(frame, now)]
  {
    PreparedIsValid(q, now, bytes);
    hide Prepared, Valid;
    var p := Prepared(q, now, bytes);
    if |p.frames| >= p.depth {
      assert |Pushed(q, frame, now, bytes).frames| == |p.frames|;
    }
  }

  // ---------- which frames a push drops ----------

  // How many of the oldest frames are gone after the push.
  function Lost<F>(q: Queue<F>, frame: F, now: int, bytes: nat): int
    requires Valid(q)
  {
    |q.frames| + 1 - |Pushed(q, frame, now, bytes).frames|
  }

  // The interval the last resize of the push works with.
  function LastInterval<F>(q: Queue<F>, now: int): (interval: real)
    requires Valid(q)
    ensures 0.0 < interval
  {
    if Measures(q, now) then MinReal(Measured(q, now), (now - q.lastPush.value) as real) else FrameInterval(q)
  }

  lemma NewestAll<T>(s: seq<T>)
    ensures Newest(s, |s|) == s
  {}

  lemma NewestTwice<T>(s: seq<T>, a: nat, b: nat)
    ensures Newest(Newest(s, a), b) == Newest(s, Min(a, b))
  {}

  lemma NewestByLength<T>(s: seq<T>, n: nat)
    ensures |Newest(s, n)| == Min(|s|, n) && Newest(s, n) == Newest(s, |Newest(s, n)|)
  {}

  lemma NewestThenPush<T>(s: seq<T>, n: nat, x: T)
    requires n <= |s|
    ensures Newest(s, n) + [x] == Newest(s + [x], n + 1)
    ensures 0 < n ==> Newest(s, n)[1..] == Newest(s, n - 1)
  {}

  lemma PreparedKeepsNewest<F>(q: Queue<F>, now: int, bytes: nat)
    requires Valid(q)
    ensures var p := Prepared(q, now, bytes);
            |p.frames| <= |q.frames| && p.frames == Newest(q.frames, |p.frames|)
  {
    hide DepthFor, CapFor, FrameInterval, Measured, Newest;
    NewestAll(q.frames);
    if q.requested > 0 {
      var r := Resized(Limited(q, bytes), FrameInterval(Limited(q, bytes)));
      var depth := Prepared(q, now, bytes).depth;
      NewestTwice(q.frames, r.depth, depth);
      NewestByLength(q.frames, r.depth);
      NewestByLength(q.frames, Min(r.depth, depth));
    }
  }

  // A queue is always the newest part of what was pushed, in order.
  lemma PushKeepsNewest<F>(q: Queue<F>, frame: F, now: int, bytes: nat)
    requires Valid(q)
    ensures var n := |Pushed(q, frame, now, bytes).frames|;
            1 <= n <= |q.frames| + 1 &&
            Pushed(q, frame, now, bytes).frames == Newest(q.frames + [Stamped(frame, now)], n)
  {
    PreparedIsValid(q, now, bytes);
    var p := Prepared(q, now, bytes);
    PreparedKeepsNewest(q, now, bytes);
    var x := Stamped(frame, now);
    NewestThenPush(q.frames, |p.frames|, x);
    if |p.frames| >= p.depth {
      NewestThenPush(q.frames, |p.frames| - 1, x);
    }
  }

  // Consecutive arrivals, the one at now included, are at least g apart.
  ghost predicate Spaced<F>(frames: seq<Stamped<F>>, now: int, g: real) {
    && (forall k {:trigger frames[k]} :: 0 <= k < |frames| - 1 ==>
          (frames[k + 1].enqueuedUs - frames[k].enqueuedUs) as real >= g)
    && (frames != [] ==> (now - frames[|frames| - 1].enqueuedUs) as real >= g)
  }

  lemma {:induction false} AgeAtLeast<F>(frames: seq<Stamped<F>>, now: int, g: real, k: nat)
    requires Spaced(frames, now, g) && k < |frames|
    ensures (now - frames[k].enqueuedUs) as real >= Times(|frames| - k, g)
    decreases |frames| - k
  {
    hide Times;
    TimesStep(|frames| - (k + 1), g);
    if k < |frames| - 1 {
      AgeAtLeast(frames, now, g, k + 1);
    }
  }

  // After the two resizes a full queue is as long as the final depth; if only the first resize
  // trimmed, the depth it used was the smaller one.
  lemma PushFills<F>(q: Queue<F>, frame: F, now: int, bytes: nat)
    requires Valid(q) && q.requested > 0
    ensures var max, n := Limited(q, bytes).maximum, |Pushed(q, frame, now, bytes).frames|;
            || Lost(q, frame, now, bytes) <= 0
            || n >= DepthFor(max, q.requested, LastInterval(q, now))
            || |q.frames| >= n == DepthFor(max, q.requested, FrameInterval(q)) + 1
    ensures var max := Limited(q, bytes).maximum;
            0 < Lost(q, frame, now, bytes) ==>
              Pushed(q, frame, now, bytes).delay == Min(q.requested, CapFor(max, LastInterval(q, now)))
  {
    PreparedIsValid(q, now, bytes);
    var max := Limited(q, bytes).maximum;
    DepthBounds(max, q.requested, LastInterval(q, now));
    DepthBounds(max, q.requested, FrameInterval(q));
  }

  // The queue after a push that dropped frames is so long that a frame older than all of it,
  // at gaps of at least g, has waited out the effective delay.
  lemma FullQueueCoversDelay<F>(q: Queue<F>, frame: F, now: int, bytes: nat, g: real)
    requires Valid(q) && q.requested > 0 && 0 < Lost(q, frame, now, bytes)
    requires LastInterval(q, now) <= g
    requires FrameInterval(q) <= g || |q.frames| <= 3
    requires Limited(q, bytes).maximum > 2
    ensures Times(|Pushed(q, frame, now, bytes).frames|, g) >= 1000.0 * Pushed(q, frame, now, bytes).delay as real
  {
    hide Times, Pushed, Limited, DepthFor, CapFor, FrameInterval, LastInterval;
    PushFills(q, frame, now, bytes);
    var max, n := Limited(q, bytes).maximum, |Pushed(q, frame, now, bytes).frames|;
    var i1, i2 := FrameInterval(q), LastInterval(q, now);
    var d1, d2 := DepthFor(max, q.requested, i1), DepthFor(max, q.requested, i2);
    DepthBounds(max, q.requested, i1);
    DepthBounds(max, q.requested, i2);
    if n >= d2 {
      DepthCoversDelay(max, q.requested, i2);
      TimesMonotone(n, d2 - 2, g, i2);
    } else {
      if i1 < i2 { Antitone(max, q.requested, i1, i2); }
      Antitone(max, q.requested, i2, i1);
      DepthCoversDelay(max, q.requested, i1);
      TimesMonotone(n, d1 - 2, g, i1);
    }
  }

  lemma NoRoomNoDelay<F>(q: Queue<F>, frame: F, now: int, bytes: nat)
    requires Valid(q) && q.requested > 0 && Limited(q, bytes).maximum <= 2
    ensures Pushed(q, frame, now, bytes).delay == 0
  {}

  // Delay is honoured: when the arrivals held in the queue are at least as far apart as the
  // intervals the push resizes for, every frame it drops was already due.
  lemma PushDropsOnlyDue<F>(q: Queue<F>, frame: F, now: int, bytes: nat, g: real, k: nat)
    requires Valid(q) && q.requested > 0 && 0.0 <= g && Spaced(q.frames, now, g)
    requires LastInterval(q, now) <= g
    requires FrameInterval(q) <= g || |q.frames| <= 3
    ensures k < Lost(q, frame, now, bytes) ==>
              k < |q.frames| && q.frames[k].enqueuedUs + 1000 * Pushed(q, frame, now, bytes).delay <= now
  {
    hide Times, Pushed, Limited, DepthFor, CapFor, FrameInterval, LastInterval;
    if Lost(q, frame, now, bytes) <= k { return; }
    PushKeepsNewest(q, frame, now, bytes);
    PushFills(q, frame, now, bytes);
    AgeAtLeast(q.frames, now, g, k);
    var n := |Pushed(q, frame, now, bytes).frames|;
    if Limited(q, bytes).maximum > 2 {
      FullQueueCoversDelay(q, frame, now, bytes, g);
      TimesMonotone(|q.frames| - k, n, g, g);
    } else {
      NoRoomNoDelay(q, frame, now, bytes);
      TimesStep(0, g);
      TimesMonotone(|q.frames| - k, 0, g, g);
    }
  }

  // What a push is going to drop and the delay it is going to work with, told from the queue, the
  // clock and the grant before the call.
  function WillLose<F>(q: Queue<F>, now: int, bytes: nat): int
    requires Valid(q)
  {
    var max := Limited(q, bytes).maximum;
    Max(0, Max(|q.frames| - DepthFor(max, q.requested, FrameInterval(q)),
               |q.frames| + 1 - DepthFor(max, q.requested, LastInterval(q, now))))
  }

  function WillDelay<F>(q: Queue<F>, now: int, bytes: nat): int
    requires Valid(q)
  {
    Min(q.requested, CapFor(Limited(q, bytes).maximum, LastInterval(q, now)))
  }

  lemma PreparedLength<F>(q: Queue<F>, now: int, bytes: nat)
    requires Valid(q) && q.requested > 0
    ensures var p, max := Prepared(q, now, bytes), Limited(q, bytes).maximum;
            var d1, d2 := DepthFor(max, q.requested, FrameInterval(q)), DepthFor(max, q.requested, LastInterval(q, now));
            && p.depth == d2 && 2 <= d1 && 2 <= d2 && |p.frames| == Min(|q.frames|, Min(d1, d2))
            && p.delay == Max(0, WillDelay(q, now, bytes))
  {
    var max := Limited(q, bytes).maximum;
    DepthBounds(max, q.requested, FrameInterval(q));
    DepthBounds(max, q.requested, LastInterval(q, now));
    hide DepthFor, CapFor, FrameInterval, Measured;
  }

  lemma LossIsForeseen<F>(q: Queue<F>, frame: F, now: int, bytes: nat)
    requires Valid(q) && q.requested > 0
    ensures Lost(q, frame, now, bytes) == WillLose(q, now, bytes)
    ensures Pushed(q, frame, now, bytes).delay == Max(0, WillDelay(q, now, bytes))
  {
    hide Prepared, DepthFor, CapFor, FrameInterval, LastInterval, Limited, WillDelay, Valid;
    PreparedLength(q, now, bytes);
  }

  // Exactly when a push drops nothing before its time: the newest frame it is going to drop has
  // waited the delay it is going to work with.
  lemma DropsOnlyDueIff<F>(q: Queue<F>, frame: F, now: int, bytes: nat)
    requires Valid(q) && q.requested > 0
    requires forall j, k :: 0 <= j < k < |q.frames| ==> q.frames[j].enqueuedUs <= q.frames[k].enqueuedUs
    ensures var lost, delay := Lost(q, frame, now, bytes), Pushed(q, frame, now, bytes).delay;
            var loses, delays := WillLose(q, now, bytes), Max(0, WillDelay(q, now, bytes));
            && 0 <= lost <= |q.frames| && 0 <= loses <= |q.frames|
            && ((forall k :: 0 <= k < lost ==> q.frames[k].enqueuedUs + 1000 * delay <= now) <==>
                (loses == 0 || q.frames[loses - 1].enqueuedUs + 1000 * delays <= now))
  {
    hide Pushed, WillLose, WillDelay;
    PushKeepsNewest(q, frame, now, bytes);
    LossIsForeseen(q, frame, now, bytes);
  }

  // A steady 100 fps stream, delayed by one second, one hundred frames waiting.
  function SteadyStream(): Queue<nat> {
    Queue(seq(100, i => Stamped(i, i * 10000)), 1, 600, 102, 1000, 100, 1, 1000, 10000.0, Some(990000))
  }

  lemma LateFrameNumbers()
    ensures DepthFor(600, 1000, 10000.0) == 102 && DepthFor(600, 1000, 11000.0) == 93
    ensures CapFor(600, 10000.0) == 5980 && CapFor(600, 11000.0) == 6578
    ensures FrameInterval(SteadyStream()) == 10000.0
  {
    assert Ceil(1000000.0 / 10000.0) == 100;
    assert Ceil(1000000.0 / 11000.0) == 91;
  }

  // Not every jitter is tolerated: no gap is below the nominal 10 ms, but one frame arriving
  // 10 ms late raises the average interval, shortens the queue and costs eight frames, the
  // newest of them 60 ms before it is due.
  lemma LateFrameDropsFramesNotDue()
    ensures var q, now := SteadyStream(), 1010000;
            && Valid(q) && Spaced(q.frames, now, 10000.0) && FrameInterval(q) <= 10000.0
            && Lost(q, 100, now, 598) == 8 && Pushed(q, 100, now, 598).delay == 1000
            && q.frames[7].enqueuedUs + 1000 * 1000 == now + 60000
  {
    hide DepthFor, CapFor, FrameInterval;
    LateFrameNumbers();
    var q, now := SteadyStream(), 1010000;
    assert Limited(q, 598) == q && Resized(q, 10000.0) == q;
    assert Measured(q, now) == 11000.0;
  }

  // ---------- the class ----------

  // The ledger after record_held(): the entry of the owner is its real size.
  ghost function Recorded<F>(l: Ledger, owner: nat, q: Queue<F>): Ledger {
    Grant(l, owner, |q.frames| * q.frameBytes, q.requested > 0, None)
  }

  // The ledger a delay change leaves, and the one its limit is computed from.
  ghost function Measuring<F>(l: Ledger, owner: nat, q: Queue<F>, ms: int, available: nat): Ledger {
    Grant(l, owner, |q.frames| * q.frameBytes, ms > 0, Some(available))
  }

  lemma RecordedLast<F>(l: Ledger, owner: nat, p: Queue<F>, q: Queue<F>)
    ensures Recorded(Recorded(l, owner, p), owner, q) == Recorded(l, owner, q)
  {
    assert l.entries[owner := Entry(|p.frames| * p.frameBytes, p.requested > 0)]
                    [owner := Entry(|q.frames| * q.frameBytes, q.requested > 0)]
        == l.entries[owner := Entry(|q.frames| * q.frameBytes, q.requested > 0)];
  }

  class DelayedFrameQueue<F> {
    const owner: nat
    const budget: VideoDelayBudget
    var frames: seq<Stamped<F>>
    var frameBytes: nat
    var maximum: nat
    var depth: nat
    var requested: nat
    var fpsNum: nat
    var fpsDen: nat
    var delay: nat
    var intervalUs: real
    var lastPush: Option<int>

    ghost function State(): Queue<F>
      reads this
    {
      Queue(frames, frameBytes, maximum, depth, requested, fpsNum, fpsDen, delay, intervalUs, lastPush)
    }

    constructor (owner: nat, bytesHint: nat, budget: VideoDelayBudget, available: nat)
      modifies budget
      ensures this.owner == owner && this.budget == budget
      ensures var l := Measuring(old(budget.State()), owner, Opened<F>(bytesHint), 0, available);
              State() == DelaySet(Opened(bytesHint), 0, 60, 1, Portion(l)) && Valid(State()) &&
              budget.State() == Recorded(l, owner, State())
    {
      this.owner, this.budget := owner, budget;
      frames, frameBytes, maximum, depth := [], Max(1, bytesHint), 2, 2;
      requested, fpsNum, fpsDen, delay, intervalUs, lastPush := 0, 60, 1, 0, 0.0, None;
      new;
      SetDelayMs(0, 60, 1, available);
    }

    method RecordHeld()
      modifies budget
      ensures budget.State() == Recorded(old(budget.State()), owner, State())
    {
      var _ := budget.Share(owner, |frames| * frameBytes, requested > 0, None);
    }

    method UpdateLimit(available: Option<nat>)
      requires 0 < frameBytes
      modifies this`maximum, budget
      ensures budget.State() == Grant(old(budget.State()), owner, |frames| * frameBytes, requested > 0, available)
      ensures State() == Limited(old(State()), Portion(budget.State()))
    {
      hide LargestShare, Queued, Workers;
      var bytes := budget.Share(owner, |frames| * frameBytes, requested > 0, available);
      maximum := 2 + Min(598, bytes / frameBytes);
    }

    // The trimming loop of resize_delay().
    method Trim()
      modifies this`frames
      ensures frames == Newest(old(frames), depth)
    {
      ghost var before := frames;
      while |frames| > depth
        invariant |frames| <= |before| && frames == before[|before| - |frames|..]
        invariant |frames| >= Min(depth, |before|)
        decreases |frames|
      {
        frames := frames[1..];
      }
    }

    // Interval zero stands for the current frame interval.
    method ResizeDelay(given: real)
      requires 0 < fpsNum && 0 < fpsDen
      modifies this`depth, this`delay, this`frames, budget
      ensures State() == Resized(old(State()), if given <= 0.0 then FrameInterval(old(State())) else given)
      ensures budget.State() == Recorded(old(budget.State()), owner, State())
    {
      hide DepthFor, CapFor, Newest, Grant;
      var nominal := 1000000.0 * fpsDen as real / fpsNum as real;
      var current := if intervalUs > 0.0 then MinReal(nominal, intervalUs) else nominal;
      var interval := if given <= 0.0 then current else given;
      depth := Max(0, DepthFor(maximum, requested, interval));
      delay := Max(0, Min(requested, CapFor(maximum, interval)));
      Trim();
      RecordHeld();
    }

    method SetDelayMs(ms: int, num: int, den: int, available: nat)
      requires Valid(State())
      modifies this, budget
      ensures var l := Measuring(old(budget.State()), owner, old(State()), ms, available);
              State() == DelaySet(old(State()), ms, num, den, Portion(l)) && Valid(State()) &&
              budget.State() == Recorded(l, owner, State())
    {
      hide Grant, Portion, Resized, FrameInterval;
      ghost var q := State();
      if requested == 0 && ms > 0 {
        lastPush := None;
        intervalUs := 0.0;
      }
      requested := Max(0, Min(ms, 5000));
      fpsNum, fpsDen := Max(1, num), Max(1, den);
      UpdateLimit(Some(available));
      ghost var l := budget.State();
      DelaySetIsValid(q, ms, num, den, Portion(l));
      ResizeDelay(0.0);
    }

    method SetFrameBytesHint(bytes: nat, num: int, den: int, available: nat)
      requires Valid(State())
      modifies this, budget
      ensures if bytes != old(frameBytes) || num != old(fpsNum) || den != old(fpsDen) then
                var q := old(State()).(frameBytes := Max(1, bytes));
                var l := Measuring(old(budget.State()), owner, q, requested, available);
                State() == DelaySet(q, requested, num, den, Portion(l)) && Valid(State()) &&
                budget.State() == Recorded(l, owner, State())
              else State() == old(State()) && budget.State() == old(budget.State())
    {
      if bytes != frameBytes || num != fpsNum || den != fpsDen {
        frameBytes := Max(1, bytes);
        SetDelayMs(requested, num, den, available);
      }
    }

    // The part of a push before the frame goes in: a new limit, and the measured interval.
    method Prepare(now: int)
      requires Valid(State())
      modifies this, budget
      ensures var p := Portion(Recorded(old(budget.State()), owner, old(State())));
              State() == Prepared(old(State()), now, p)
      ensures requested > 0 ==> budget.State() == Recorded(old(budget.State()), owner, State())
      ensures requested == 0 ==> budget.State() == old(budget.State())
    {
      hide Grant, Portion, Resized, Limited, FrameInterval;
      if requested > 0 {
        ghost var l, q := budget.State(), State();
        UpdateLimit(None);
        RecordedLast(l, owner, q, q);
        ghost var p := State();
        ResizeDelay(0.0);
        RecordedLast(l, owner, q, State());
        ghost var r := State();
        if lastPush.Some? && now > lastPush.value {
          var interval := (now - lastPush.value) as real;
          intervalUs := if intervalUs > 0.0 then 0.9 * intervalUs + 0.1 * interval else interval;
          ResizeDelay(MinReal(intervalUs, interval));
          RecordedLast(l, owner, r, State());
        }
        lastPush := Some(now);
      }
    }

    // The pushed frame goes in last; the result says whether the queue had room for it.
    method Push(frame: F, now: int) returns (kept: bool)
      requires Valid(State())
      modifies this, budget
      ensures var p := Portion(Recorded(old(budget.State()), owner, old(State())));
              State() == Pushed(old(State()), frame, now, p) && Valid(State()) &&
              kept == Kept(old(State()), now, p)
      ensures frames != [] && frames[|frames| - 1] == Stamped(frame, now)
      ensures budget.State() == Recorded(old(budget.State()), owner, State())
    {
      hide Grant, Portion, Prepared;
      ghost var l, q := budget.State(), State();
      PreparedIsValid(q, now, Portion(Recorded(l, owner, q)));
      PushedIsValid(q, frame, now, Portion(Recorded(l, owner, q)));
      Prepare(now);
      if depth == 0 {
        return false;
      }
      ghost var p := State();
      kept := true;
      if |frames| >= depth {
        frames := frames[1..];
        kept := false;
      }
      frames := frames + [Stamped(frame, now)];
      RecordHeld();
      RecordedLast(l, owner, p, State());
    }

    // Hands out the oldest frame, never before it has waited the effective delay.
    method PopDue(now: int) returns (out: Option<F>)
      requires Valid(State())
      modifies this, budget
      ensures State() == Popped(old(State()), now) && Valid(State())
      ensures out.Some? <==> old(frames) != [] && (old(delay) == 0 || old(frames)[0].enqueuedUs + 1000 * old(delay) <= now)
      ensures out.Some? ==> out.value == old(frames)[0].frame && frames == old(frames)[1..]
      ensures out.None? ==> frames == old(frames)
      ensures out == if Due(old(State()), now) then Some(old(frames[0].frame)) else None
      ensures budget.State() == if Due(old(State()), now) then Recorded(old(budget.State()), owner, State())
                                else old(budget.State())
    {
      if frames == [] || (delay > 0 && frames[0].enqueuedUs + delay * 1000 > now) {
        return None;
      }
      out := Some(frames[0].frame);
      frames := frames[1..];
      RecordHeld();
    }

    method Clear()
      requires Valid(State())
      modifies this, budget
      ensures State() == Cleared(old(State())) && Valid(State())
      ensures frames == [] && lastPush == None && intervalUs == 0.0
      ensures budget.State() == Recorded(old(budget.State()), owner, State())
    {
      frames, lastPush, intervalUs := [], None, 0.0;
      RecordHeld();
    }

    // Destruction takes the entry out of the ledger.
    method Close()
      modifies budget
      ensures budget.State() == old(budget.State()).(entries := old(budget.State()).entries - {owner})
    {
      budget.Remove(owner);
    }
  }

  // A queue as its constructor finds it, before the first delay change.
  function Opened<F>(bytesHint: nat): Queue<F> {
    Queue([], Max(1, bytesHint), 2, 2, 0, 60, 1, 0, 0.0, None)
  }
}
