/** Laws of one delayed queue over whole runs: what it shows, and what it loses. */
module DelayRuns {
  import opened VideoBudget
  import opened DelayedFrames
  import opened Wrappers

  // ---------- one queue ----------

  // A call on a queue, with the bytes the allocator grants during it.
  datatype Call<F> =
    | SetDelay(ms: int, num: int, den: int, granted: nat)
    | SetHint(bytes: nat, num: int, den: int, granted: nat)
    | Push(frame: F, now: int, granted: nat)
    | Pop(now: int)
    | Clear

  predicate HintChanges<F>(q: Queue<F>, bytes: nat, num: int, den: int) {
    bytes != q.frameBytes || num != q.fpsNum || den != q.fpsDen
  }

  function After<F>(q: Queue<F>, call: Call<F>): Queue<F>
    requires Valid(q)
  {
    match call
    case SetDelay(ms, num, den, granted) => DelaySet(q, ms, num, den, granted)
    case SetHint(bytes, num, den, granted) =>
      if HintChanges(q, bytes, num, den)
      then DelaySet(q.(frameBytes := Max(1, bytes)), q.requested, num, den, granted) else q
    case Push(frame, now, granted) => Pushed(q, frame, now, granted)
    case Pop(now) => Popped(q, now)
    case Clear => Cleared(q)
  }

  lemma AfterIsValid<F>(q: Queue<F>, call: Call<F>)
    requires Valid(q)
    ensures Valid(After(q, call))
  {
    match call
    case SetDelay(ms, num, den, granted) => DelaySetIsValid(q, ms, num, den, granted);
    case SetHint(bytes, num, den, granted) =>
      DelaySetIsValid(q.(frameBytes := Max(1, bytes)), q.requested, num, den, granted);
    case Push(frame, now, granted) => PushedIsValid(q, frame, now, granted);
    case Pop(now) =>
    case Clear =>
  }

  // What happened so far: every frame pushed, and for every frame handed out its number, the
  // time and the effective delay then.
  datatype Shown = Shown(number: nat, at: int, delay: nat)
  datatype History<F> = History(queue: Queue<F>, pushed: seq<Stamped<F>>, shown: seq<Shown>)

  function Oldest<F>(h: History<F>): int {
    |h.pushed| - |h.queue.frames|
  }

  function Extend<F>(h: History<F>, call: Call<F>): History<F>
    requires Valid(h.queue) && 0 <= Oldest(h)
  {
    History(After(h.queue, call),
            if call.Push? then h.pushed + [Stamped(call.frame, call.now)] else h.pushed,
            if call.Pop? && Due(h.queue, call.now)
            then h.shown + [Shown(Oldest(h), call.now, h.queue.delay)] else h.shown)
  }

  ghost predicate IsSuffix<T>(part: seq<T>, s: seq<T>) {
    |part| <= |s| && part == s[|s| - |part|..]
  }

  // The queue holds exactly the newest pushed frames; the frames shown are older, in order,
  // each shown once, and none before its time.
  ghost predicate Faithful<F>(h: History<F>) {
    && Valid(h.queue)
    && IsSuffix(h.queue.frames, h.pushed)
    && ShownWell(h.pushed, h.shown, Oldest(h))
  }

  lemma DelaySetKeepsNewest<F>(q: Queue<F>, ms: int, num: int, den: int, granted: nat)
    requires Valid(q)
    ensures var r := DelaySet(q, ms, num, den, granted); r.frames == Newest(q.frames, r.depth)
  {
    hide DepthFor, CapFor, FrameInterval, Newest;
  }

  lemma NewestIsSuffix<T>(s: seq<T>, n: nat)
    ensures IsSuffix(Newest(s, n), s)
  {}

  lemma PoppedKeepsNewest<F>(q: Queue<F>, now: int)
    ensures Popped(q, now) == q.(frames := Popped(q, now).frames)
    ensures |Popped(q, now).frames| == |q.frames| - (if Due(q, now) then 1 else 0)
    ensures IsSuffix(Popped(q, now).frames, q.frames)
  {}

  // What a call gives the queue.
  function Given<F>(call: Call<F>): seq<Stamped<F>> {
    if call.Push? then [Stamped(call.frame, call.now)] else []
  }

  // Every call leaves a suffix of what the queue held and was given.
  lemma StepKeepsNewest<F>(q: Queue<F>, call: Call<F>)
    requires Valid(q)
    ensures IsSuffix(After(q, call).frames, q.frames + Given(call))
    ensures call.Pop? ==> |After(q, call).frames| == |q.frames| - (if Due(q, call.now) then 1 else 0)
  {
    hide Pushed, DelaySet, Popped, Newest, Valid, Due, IsSuffix;
    assert q.frames + [] == q.frames;
    match call
    case SetDelay(ms, num, den, granted) =>
      DelaySetKeepsNewest(q, ms, num, den, granted);
      NewestIsSuffix(q.frames, After(q, call).depth);
    case SetHint(bytes, num, den, granted) =>
      HintIsValid(q, bytes);
      DelaySetKeepsNewest(q.(frameBytes := Max(1, bytes)), q.requested, num, den, granted);
      NewestIsSuffix(q.frames, After(q, call).depth);
      NewestIsSuffix(q.frames, |q.frames|);
      NewestAll(q.frames);
    case Push(frame, now, granted) =>
      PushKeepsNewest(q, frame, now, granted);
      NewestIsSuffix(q.frames + [Stamped(frame, now)], |After(q, call).frames|);
    case Pop(now) => PoppedKeepsNewest(q, now);
    case Clear => EmptyIsSuffix(q.frames);
  }

  lemma EmptyIsSuffix<T>(s: seq<T>)
    ensures IsSuffix([], s)
  {}

  // A suffix of a suffix, when both were extended alike.
  lemma SuffixOfSuffix<T>(pushed: seq<T>, held: seq<T>, more: seq<T>, left: seq<T>)
    requires IsSuffix(held, pushed) && IsSuffix(left, held + more)
    ensures IsSuffix(left, pushed + more)
  {
    var a, b := |pushed| - |held|, |held + more| - |left|;
    assert held + more == (pushed + more)[a..];
    assert left == (pushed + more)[a..][b..];
    assert (pushed + more)[a..][b..] == (pushed + more)[a + b..];
  }

  lemma SuffixHead<T>(held: seq<T>, pushed: seq<T>)
    requires IsSuffix(held, pushed) && held != []
    ensures held[0] == pushed[|pushed| - |held|]
  {}

  lemma SuffixLength<T>(part: seq<T>, s: seq<T>)
    requires IsSuffix(part, s)
    ensures |part| <= |s|
  {}

  // The frames shown are old ones, in order, each once, and not before their time.
  ghost predicate ShownWell<F>(pushed: seq<Stamped<F>>, shown: seq<Shown>, oldest: int) {
    && oldest <= |pushed|
    && (forall i, j :: 0 <= i < j < |shown| ==> shown[i].number < shown[j].number)
    && forall i :: 0 <= i < |shown| ==>
         && shown[i].number < oldest
         && (shown[i].delay > 0 ==> pushed[shown[i].number].enqueuedUs + shown[i].delay * 1000 <= shown[i].at)
  }

  lemma ShownStays<F>(pushed: seq<Stamped<F>>, shown: seq<Shown>, oldest: int, more: seq<Stamped<F>>, later: int)
    requires ShownWell(pushed, shown, oldest) && oldest <= later <= |pushed + more|
    ensures ShownWell(pushed + more, shown, later)
  {}

  lemma OneMoreShown<F>(pushed: seq<Stamped<F>>, shown: seq<Shown>, oldest: nat, at: int, delay: nat)
    requires ShownWell(pushed, shown, oldest) && oldest < |pushed|
    requires delay > 0 ==> pushed[oldest].enqueuedUs + delay * 1000 <= at
    ensures ShownWell(pushed, shown + [Shown(oldest, at, delay)], oldest + 1)
  {}

  lemma StepIsFaithful<F>(h: History<F>, call: Call<F>)
    requires Faithful(h)
    ensures Faithful(Extend(h, call))
  {
    hide After, Valid, Newest, ShownWell, IsSuffix;
    AfterIsValid(h.queue, call);
    StepKeepsNewest(h.queue, call);
    SuffixLength(h.queue.frames, h.pushed);
    var e, more := Extend(h, call), Given(call);
    assert e.pushed == h.pushed + more;
    SuffixOfSuffix(h.pushed, h.queue.frames, more, e.queue.frames);
    SuffixLength(e.queue.frames, h.queue.frames + more);
    if call.Pop? && Due(h.queue, call.now) {
      SuffixHead(h.queue.frames, h.pushed);
      OneMoreShown(h.pushed, h.shown, Oldest(h), call.now, h.queue.delay);
    } else {
      ShownStays(h.pushed, h.shown, Oldest(h), more, Oldest(e));
    }
  }

  function Replay<F>(h: History<F>, calls: seq<Call<F>>): History<F>
    requires Faithful(h)
    decreases |calls|
  {
    if calls == [] then h
    else
      StepIsFaithful(h, calls[0]);
      Replay(Extend(h, calls[0]), calls[1..])
  }

  // Every run of one queue shows an in-order selection of what was pushed, none twice, none early.
  lemma {:induction false} RunIsFaithful<F>(h: History<F>, calls: seq<Call<F>>)
    requires Faithful(h)
    ensures Faithful(Replay(h, calls))
    decreases |calls|
  {
    if calls != [] {
      StepIsFaithful(h, calls[0]);
      hide Faithful;
      RunIsFaithful(Extend(h, calls[0]), calls[1..]);
    }
  }

  // ---------- a consumer that polls ----------

  // A poll at or after the due time of the oldest frame is given that frame.
  lemma PolledFrameIsShown<F>(h: History<F>, now: int)
    requires Faithful(h) && h.queue.frames != []
    requires h.queue.frames[0].enqueuedUs + 1000 * h.queue.delay <= now
    ensures Faithful(h) && 0 <= Oldest(h)
    ensures var e := Extend(h, Pop(now));
            && e.shown == h.shown + [Shown(Oldest(h), now, h.queue.delay)] && Oldest(e) == Oldest(h) + 1
            && e.pushed == h.pushed && e.queue == h.queue.(frames := h.queue.frames[1..])
  {
    hide Valid, ShownWell;
    SuffixLength(h.queue.frames, h.pushed);
  }

  function Polls<F>(now: int, n: nat): (calls: seq<Call<F>>)
    ensures |calls| == n && forall i :: 0 <= i < n ==> calls[i] == Pop(now)
  {
    seq(n, _ => Pop(now))
  }

  function ShownInTurn(first: nat, at: int, delay: nat, n: nat): (shown: seq<Shown>)
    ensures |shown| == n && forall k :: 0 <= k < n ==> shown[k] == Shown(first + k, at, delay)
  {
    seq(n, (k: nat) => Shown(first + k, at, delay))
  }

  // Polling n times hands out the n oldest frames, if they are due.
  lemma {:induction false} PollsDrainWhatIsDue<F>(h: History<F>, now: int, n: nat)
    requires Faithful(h) && n <= |h.queue.frames|
    requires forall k :: 0 <= k < n ==> h.queue.frames[k].enqueuedUs + 1000 * h.queue.delay <= now
    ensures 0 <= Oldest(h)
    ensures var e := Replay(h, Polls(now, n));
            && e.shown == h.shown + ShownInTurn(Oldest(h), now, h.queue.delay, n)
            && e.queue.frames == h.queue.frames[n..]
    decreases n
  {
    hide Valid, ShownWell, IsSuffix;
    SuffixLength(h.queue.frames, h.pushed);
    if n > 0 {
      PolledFrameIsShown(h, now);
      StepIsFaithful(h, Pop(now));
      var g := Extend(h, Pop(now));
      PollsDrainWhatIsDue(g, now, n - 1);
      assert Polls<F>(now, n)[1..] == Polls<F>(now, n - 1);
      assert Replay(h, Polls(now, n)) == Replay(g, Polls(now, n - 1));
      var first := Shown(Oldest(h), now, h.queue.delay);
      assert ShownInTurn(Oldest(h), now, h.queue.delay, n) == [first] + ShownInTurn(Oldest(g), now, h.queue.delay, n - 1);
    }
  }

  // ---------- a source with a constant frame rate ----------

  // All pushes of the run follow each other at intervals of exactly g.
  ghost predicate Cadence<F>(calls: seq<Call<F>>, g: int, last: Option<int>)
    decreases |calls|
  {
    calls == [] ||
    if calls[0].Push? then (last.Some? ==> calls[0].now == last.value + g) && Cadence(calls[1..], g, Some(calls[0].now))
    else Cadence(calls[1..], g, last)
  }

  // Frame k may go: under the delay in effect after the call, it is due at the call.
  ghost predicate DueAfter<F>(q: Queue<F>, call: Call<F>, k: int)
    requires Valid(q) && call.Push?
  {
    0 <= k < |q.frames| && q.frames[k].enqueuedUs + 1000 * After(q, call).delay <= call.now
  }

  ghost predicate LosesOnlyDue<F>(q: Queue<F>, call: Call<F>)
    requires Valid(q)
  {
    call.Push? ==> forall k :: 0 <= k < Lost(q, call.frame, call.now, call.granted) ==> DueAfter(q, call, k)
  }

  ghost predicate NeverDropsEarly<F>(q: Queue<F>, calls: seq<Call<F>>)
    requires Valid(q)
    decreases |calls|
  {
    calls == [] ||
    (LosesOnlyDue(q, calls[0]) && (AfterIsValid(q, calls[0]); NeverDropsEarly(After(q, calls[0]), calls[1..])))
  }

  // What a constant rate keeps: the measured interval, once there is one, is the rate itself.
  ghost predicate Steady<F>(q: Queue<F>, g: int, last: Option<int>) {
    Valid(q) && 0 < g && EvenlySpaced(q.frames, g, last) && SteadyRate(q, g as real, last)
  }

  predicate SteadyRate<F>(q: Queue<F>, rate: real, last: Option<int>) {
    q.requested > 0 ==>
      && (q.lastPush == None || q.lastPush == last)
      && (q.intervalUs == 0.0 || (q.intervalUs == rate && q.lastPush.Some?))
      && (q.intervalUs == 0.0 ==> |q.frames| <= if q.lastPush == None then 2 else 3)
  }

  function LastAfter<F>(call: Call<F>, last: Option<int>): Option<int> {
    if call.Push? then Some(call.now) else last
  }

  lemma PushedFields<F>(q: Queue<F>, frame: F, now: int, granted: nat)
    requires Valid(q)
    ensures var r := Pushed(q, frame, now, granted);
            && r.requested == q.requested
            && (q.requested > 0 ==>
                  r.lastPush == Some(now) && r.intervalUs == if Measures(q, now) then Measured(q, now) else q.intervalUs)
            && (q.requested == 0 ==> r.delay == 0)
  {}

  lemma DelaySetFields<F>(q: Queue<F>, ms: int, num: int, den: int, granted: nat)
    requires Valid(q)
    ensures var r := DelaySet(q, ms, num, den, granted);
            && (q.requested > 0 && r.requested > 0 ==> r.lastPush == q.lastPush && r.intervalUs == q.intervalUs)
            && (q.requested == 0 && r.requested > 0 ==> r.lastPush == None && r.intervalUs == 0.0)
  {}

  // The exponential average of one value is that value.
  lemma SteadyMeasure<F>(q: Queue<F>, now: int, g: int)
    requires q.lastPush.Some? && now - q.lastPush.value == g && (q.intervalUs == 0.0 || q.intervalUs == g as real)
    ensures Measured(q, now) == g as real
  {}

  ghost predicate EvenlySpaced<F>(frames: seq<Stamped<F>>, g: int, last: Option<int>) {
    && (forall k {:trigger frames[k]} :: 0 <= k < |frames| - 1 ==>
          frames[k + 1].enqueuedUs - frames[k].enqueuedUs == g)
    && (frames != [] ==> last == Some(frames[|frames| - 1].enqueuedUs))
  }

  lemma SuffixEvenlySpaced<F>(s: seq<Stamped<F>>, n: nat, g: int, last: Option<int>)
    requires EvenlySpaced(s, g, last) && n <= |s|
    ensures EvenlySpaced(s[|s| - n..], g, last)
  {
    var t := s[|s| - n..];
    forall k {:trigger t[k]} | 0 <= k < |t| - 1 ensures t[k + 1].enqueuedUs - t[k].enqueuedUs == g {
      assert t[k] == s[|s| - n + k];
    }
  }

  lemma HintIsValid<F>(q: Queue<F>, bytes: nat)
    requires Valid(q)
    ensures Valid(q.(frameBytes := Max(1, bytes)))
  {}

  lemma StepEvenlySpaced<F>(q: Queue<F>, call: Call<F>, g: int, last: Option<int>)
    requires Valid(q) && EvenlySpaced(q.frames, g, last) && (call.Push? && last.Some? ==> call.now == last.value + g)
    ensures EvenlySpaced(After(q, call).frames, g, LastAfter(call, last))
  {
    hide After, Valid, EvenlySpaced;
    StepKeepsNewest(q, call);
    SteadyAppend(q.frames, call, g, last);
    SuffixEvenlySpaced(q.frames + Given(call), |After(q, call).frames|, g, LastAfter(call, last));
  }

  lemma RateAfterDelaySet<F>(q: Queue<F>, rate: real, last: Option<int>, ms: int, num: int, den: int, granted: nat)
    requires Valid(q) && SteadyRate(q, rate, last)
    ensures SteadyRate(DelaySet(q, ms, num, den, granted), rate, last)
  {
    DelaySetFields(q, ms, num, den, granted);
    StepKeepsNewest(q, SetDelay(ms, num, den, granted));
    if q.requested == 0 { ZeroDelayIsShort(q); }
    hide DelaySet, Valid;
  }

  lemma RateAfterPush<F>(q: Queue<F>, g: int, last: Option<int>, frame: F, now: int, granted: nat)
    requires Valid(q) && SteadyRate(q, g as real, last) && (last.Some? ==> now == last.value + g) && 0 < g
    ensures SteadyRate(Pushed(q, frame, now, granted), g as real, Some(now))
  {
    hide Pushed, Valid, Measured;
    PushedFields(q, frame, now, granted);
    PushKeepsNewest(q, frame, now, granted);
    if q.requested > 0 && q.lastPush.Some? { SteadyMeasure(q, now, g); }
    RateIsNotZero(g);
  }

  lemma RateIsNotZero(g: int)
    requires 0 < g
    ensures g as real != 0.0
  {}

  lemma SteadyStep<F>(q: Queue<F>, call: Call<F>, g: int, last: Option<int>)
    requires Steady(q, g, last) && (call.Push? && last.Some? ==> call.now == last.value + g)
    ensures Steady(After(q, call), g, LastAfter(call, last))
  {
    AfterIsValid(q, call);
    StepEvenlySpaced(q, call, g, last);
    hide Pushed, DelaySet, Popped, Valid, EvenlySpaced;
    match call
    case SetDelay(ms, num, den, granted) => RateAfterDelaySet(q, g as real, last, ms, num, den, granted);
    case SetHint(bytes, num, den, granted) =>
      HintIsValid(q, bytes);
      RateAfterDelaySet(q.(frameBytes := Max(1, bytes)), g as real, last, q.requested, num, den, granted);
    case Push(frame, now, granted) => RateAfterPush(q, g, last, frame, now, granted);
    case Pop(now) => PoppedKeepsNewest(q, now);
    case Clear =>
  }

  lemma SteadyAppend<F>(frames: seq<Stamped<F>>, call: Call<F>, g: int, last: Option<int>)
    requires EvenlySpaced(frames, g, last) && (call.Push? && last.Some? ==> call.now == last.value + g)
    ensures EvenlySpaced(frames + Given(call), g, LastAfter(call, last))
  {
    assert frames + [] == frames;
  }

  lemma ZeroDelayIsShort<F>(q: Queue<F>)
    requires Valid(q) && q.requested == 0
    ensures |q.frames| <= 2
  {}

  lemma SteadyPushLosesOnlyDue<F>(q: Queue<F>, call: Call<F>, g: int, last: Option<int>)
    requires Steady(q, g, last) && call.Push? && (last.Some? ==> call.now == last.value + g)
    ensures LosesOnlyDue(q, call)
  {
    forall k | 0 <= k < Lost(q, call.frame, call.now, call.granted) ensures DueAfter(q, call, k) {
      SteadyDropIsDue(q, call, g, last, k);
    }
  }

  lemma SteadyDropIsDue<F>(q: Queue<F>, call: Call<F>, g: int, last: Option<int>, k: nat)
    requires Steady(q, g, last) && call.Push? && (last.Some? ==> call.now == last.value + g)
    requires k < Lost(q, call.frame, call.now, call.granted)
    ensures DueAfter(q, call, k)
  {
    hide Pushed, Times;
    var now, granted := call.now, call.granted;
    assert Spaced(q.frames, now, g as real);
    PushKeepsNewest(q, call.frame, now, granted);
    PushedFields(q, call.frame, now, granted);
    AgeAtLeast(q.frames, now, g as real, k);
    TimesStep(0, g as real);
    TimesMonotone(|q.frames| - k, 0, g as real, g as real);
    if q.requested > 0 {
      if q.lastPush.Some? {
        SteadyMeasure(q, now, g);
        PushDropsOnlyDue(q, call.frame, now, granted, g as real, k);
      } else {
        FewFramesFit(q, call.frame, now, granted);
      }
    }
  }

  lemma FewFramesFit<F>(q: Queue<F>, frame: F, now: int, granted: nat)
    requires Valid(q) && q.requested > 0 && q.lastPush == None && |q.frames| <= 2
    ensures Lost(q, frame, now, granted) <= 0 || Pushed(q, frame, now, granted).delay == 0
  {
    DepthBounds(Limited(q, granted).maximum, q.requested, FrameInterval(q));
  }

  // At a constant frame rate, whatever delay, rate hint or memory grant is set in between, no
  // push of the run drops a frame before it is due.
  lemma {:induction false} ConstantRateNeverDropsEarly<F>(q: Queue<F>, calls: seq<Call<F>>, g: int, last: Option<int>)
    requires Steady(q, g, last) && Cadence(calls, g, last)
    ensures NeverDropsEarly(q, calls)
    decreases |calls|
  {
    if calls != [] {
      if calls[0].Push? {
        SteadyPushLosesOnlyDue(q, calls[0], g, last);
      }
      SteadyStep(q, calls[0], g, last);
      ConstantRateNeverDropsEarly(After(q, calls[0]), calls[1..], g, LastAfter(calls[0], last));
    }
  }

  // A queue as its constructor leaves it is steady at every rate.
  lemma OpenedIsSteady<F>(bytesHint: nat, granted: nat, g: int)
    requires 0 < g
    ensures Valid(Opened<F>(bytesHint)) && Steady(DelaySet(Opened<F>(bytesHint), 0, 60, 1, granted), g, None)
  {
    DelaySetIsValid(Opened<F>(bytesHint), 0, 60, 1, granted);
    DelaySetKeepsNewest(Opened<F>(bytesHint), 0, 60, 1, granted);
  }

  // So a new queue never drops a frame early in a run at a constant rate.
  lemma ConstantRateFromTheStart<F>(bytesHint: nat, granted: nat, calls: seq<Call<F>>, g: int)
    requires 0 < g && Cadence(calls, g, None)
    ensures var q := Opened<F>(bytesHint);
            Valid(q) && Valid(DelaySet(q, 0, 60, 1, granted)) && NeverDropsEarly(DelaySet(q, 0, 60, 1, granted), calls)
  {
    OpenedIsSteady<F>(bytesHint, granted, g);
    ConstantRateNeverDropsEarly(DelaySet(Opened<F>(bytesHint), 0, 60, 1, granted), calls, g, None);
  }
}
