/** Which display mode wins: the policy that follows the source's frame rate until a manual change,
    the canonical key a source is known by, and the bounded wait for the control lock. */
module AutoResolution {
  import opened Wrappers

  // ---------- source keys ----------

  datatype SourceModeKey = SourceModeKey(width: nat, height: nat, rateN: int, rateD: int)

  function Gcd(a: nat, b: nat): (g: nat)
    ensures 0 < a || 0 < b ==> 0 < g
    decreases b
  {
    if b == 0 then a else Gcd(b, a % b)
  }

  function Make(width: nat, height: nat, n: int, d: int): SourceModeKey {
    if n <= 0 || d <= 0 then SourceModeKey(width, height, 0, 0)
    else SourceModeKey(width, height, n / Gcd(n, d), d / Gcd(n, d))
  }

  // Coefficients that make the greatest common divisor from both numbers.
  ghost function Bezout(a: nat, b: nat): (int, int)
    decreases b
  {
    if b == 0 then (1, 0)
    else
      var (x, y) := Bezout(b, a % b);
      (y, x - (a / b) * y)
  }

  lemma {:induction false} BezoutHolds(a: nat, b: nat)
    ensures var (x, y) := Bezout(a, b); a * x + b * y == Gcd(a, b)
    decreases b
  {
    if b != 0 {
      BezoutHolds(b, a % b);
      var (x, y) := Bezout(b, a % b);
      BezoutStep(a, b, a / b, a % b, x, y);
    }
  }

  lemma BezoutStep(a: int, b: int, q: int, r: int, x: int, y: int)
    requires a == b * q + r
    ensures a * y + b * (x - q * y) == b * x + r * y
  {
    calc {
      a * y + b * (x - q * y);
      (b * q + r) * y + b * (x - q * y);
      (b * q) * y + r * y + b * x - b * (q * y);
      b * x + r * y;
    }
  }

  ghost predicate IsMultiple(a: int, g: int) {
    exists u: nat :: a == g * u
  }

  lemma {:induction false} GcdDivides(a: nat, b: nat)
    requires 0 < a || 0 < b
    ensures IsMultiple(a, Gcd(a, b)) && IsMultiple(b, Gcd(a, b))
    decreases b
  {
    hide IsMultiple;
    var g := Gcd(a, b);
    if b == 0 {
      MultipleOfItself(g);
    } else {
      GcdDivides(b, a % b);
      MultipleOfSum(a, b, a / b, a % b, g);
    }
  }

  lemma MultipleOfItself(g: int)
    ensures IsMultiple(g, g) && IsMultiple(0, g)
  {
    assert g == g * 1 && 0 == g * 0;
  }

  lemma MultipleOfSum(a: int, b: int, q: nat, r: int, g: int)
    requires a == b * q + r && IsMultiple(b, g) && IsMultiple(r, g)
    ensures IsMultiple(a, g)
  {
    var u: nat, v: nat :| b == g * u && r == g * v;
    Distributes(g, u, q, v);
    assert a == g * (u * q + v);
  }

  lemma Distributes(g: int, u: nat, q: nat, v: nat)
    ensures g * u * q + g * v == g * (u * q + v) && 0 <= u * q
  {
    assert g * u * q == g * (u * q);
  }

  // The reduced rate: coprime numerator and denominator with the original ones as multiples.
  ghost predicate Reduced(n: int, d: int, g: int, u: int, v: int) {
    0 < g && 0 < u && 0 < v && n == g * u && d == g * v && exists x: int, y: int :: u * x + v * y == 1
  }

  lemma MakeReduces(w: nat, h: nat, n: int, d: int)
    requires 0 < n && 0 < d
    ensures var k := Make(w, h, n, d); Reduced(n, d, Gcd(n, d), k.rateN, k.rateD)
  {
    GcdDivides(n, d);
    var g := Gcd(n, d);
    var u: nat :| n == g * u;
    var v: nat :| d == g * v;
    Quotient(g, u);
    Quotient(g, v);
    BezoutHolds(n, d);
    var (x, y) := Bezout(n, d);
    Cancel(g, u, v, x, y);
  }

  lemma Quotient(g: nat, u: nat)
    requires 0 < g && 0 < g * u
    ensures 0 < u && g * u / g == u
  {
    var p := g * u;
    assert g * (u - p / g) == p - g * (p / g) == p % g;
    SmallMultiple(g, u - p / g);
  }

  lemma AtLeastOnce(g: int, k: int)
    requires 0 < g && 1 <= k
    ensures g <= g * k
  {}

  lemma SmallMultiple(g: int, k: int)
    requires 0 <= g * k < g
    ensures k == 0
  {
    if 0 < k {
      AtLeastOnce(g, k);
    } else if k < 0 {
      AtLeastOnce(g, -k);
    }
  }

  lemma Cancel(g: nat, u: nat, v: nat, x: int, y: int)
    requires 0 < g && g * u * x + g * v * y == g
    ensures u * x + v * y == 1
  {
    assert g * (u * x + v * y) == g * 1;
  }

  // Euclid's lemma: u is coprime to v and divides s times v, so it divides s.
  lemma Divides(u: int, v: int, s: int, t: int, x: int, y: int)
    requires u * x + v * y == 1 && u * t == s * v
    ensures s == u * (s * x + t * y)
  {
    assert s == s * (u * x + v * y);
    assert s * (u * x + v * y) == u * (s * x) + (s * v) * y;
    assert (u * t) * y == u * (t * y);
  }

  lemma MutualDivisors(u: int, s: int, i: int, j: int)
    requires 0 < u && 0 < s && s == u * i && u == s * j
    ensures u == s
  {
    assert 0 < i && 0 < j;
    assert u <= s <= u;
  }

  lemma CrossReduced(n: int, d: int, g: int, u: int, v: int, n': int, d': int, g': int, s: int, t: int)
    requires 0 < g && 0 < g' && n == g * u && d == g * v && n' == g' * s && d' == g' * t
    ensures n * d' == n' * d <==> u * t == s * v
  {
    assert n * d' == (g * g') * (u * t);
    assert n' * d == (g * g') * (s * v);
    if n * d' == n' * d { SameFactor(g * g', u * t, s * v); }
  }

  lemma SameFactor(g: int, a: int, b: int)
    requires 0 < g && g * a == g * b
    ensures a == b
  {}

  // Keys are canonical: equal exactly if the sizes are and the rates are the same fraction.
  lemma KeysEqualIff(w: nat, h: nat, n: int, d: int, w': nat, h': nat, n': int, d': int)
    requires 0 < n && 0 < d && 0 < n' && 0 < d'
    ensures Make(w, h, n, d) == Make(w', h', n', d') <==> w == w' && h == h' && n * d' == n' * d
  {
    var k, k' := Make(w, h, n, d), Make(w', h', n', d');
    MakeReduces(w, h, n, d);
    MakeReduces(w', h', n', d');
    var u, v, s, t := k.rateN, k.rateD, k'.rateN, k'.rateD;
    CrossReduced(n, d, Gcd(n, d), u, v, n', d', Gcd(n', d'), s, t);
    if u * t == s * v {
      CoprimeUnique(u, v, s, t);
    }
  }

  lemma CoprimeUnique(u: int, v: int, s: int, t: int)
    requires 0 < u && 0 < v && 0 < s && 0 < t && u * t == s * v
    requires exists x: int, y: int :: u * x + v * y == 1
    requires exists x: int, y: int :: s * x + t * y == 1
    ensures u == s && v == t
  {
    var x: int, y: int :| u * x + v * y == 1;
    var x': int, y': int :| s * x' + t * y' == 1;
    Divides(u, v, s, t, x, y);
    Divides(s, t, u, v, x', y');
    MutualDivisors(u, s, s * x + t * y, u * x' + v * y');
    SameFactor(u, t, v);
  }

  // A source of unknown rate is never the same as one of a known rate.
  lemma UnknownIsNeverKnown(w: nat, h: nat, n: int, d: int, n': int, d': int)
    requires 0 < n && 0 < d && (n' <= 0 || d' <= 0)
    ensures Make(w, h, n, d) != Make(w, h, n', d')
  {
    MakeReduces(w, h, n, d);
  }

  // ---------- the lock ----------

  datatype ResolutionResult = Applied | Busy | Expired | Failed

  const MILLISECOND: int := 1_000_000
  const SECOND: int := 1_000_000_000
  const PATIENCE: int := 250 * MILLISECOND

  // A deadline of zero is none.
  predicate PastDeadline(deadline: int, now: int) {
    deadline != 0 && now / MILLISECOND >= deadline
  }

  // Deadlines are in milliseconds, the clock in nanoseconds.
  lemma PastDeadlineIff(deadline: int, now: int)
    ensures PastDeadline(deadline, now) <==> deadline != 0 && deadline * 1_000_000 <= now
  {
    assert now / MILLISECOND * 1_000_000 <= now < (now / MILLISECOND + 1) * 1_000_000;
  }

  // One round of the wait: the clock before the attempt, whether the lock was free, the clock with
  // the lock, and the clock after a failed attempt.
  datatype Round = Round(before: int, free: bool, with_: int, after: int)

  // Rounds are at least a millisecond apart, as long as they sleep.
  ghost predicate Sleeps(start: int, rounds: nat -> Round) {
    forall k: nat :: start + k * MILLISECOND <= rounds(k).after
  }

  // Tries until the deadline, for a quarter of a second at most. It never reports Applied without
  // the lock, nor with it past the deadline.
  method LockResolutionControl(deadline: int, start: int, rounds: nat -> Round)
    returns (result: ResolutionResult, locked: bool, tries: nat)
    requires Sleeps(start, rounds)
    ensures locked <==> result == Applied
    ensures tries <= 250
    ensures forall k :: 0 <= k < tries ==>
              !rounds(k).free && !PastDeadline(deadline, rounds(k).before) && rounds(k).after < start + 250_000_000
    ensures match result
            case Applied =>
              && rounds(tries).free && !PastDeadline(deadline, rounds(tries).before)
              && !PastDeadline(deadline, rounds(tries).with_)
            case Expired =>
              || PastDeadline(deadline, rounds(tries).before)
              || (rounds(tries).free && PastDeadline(deadline, rounds(tries).with_))
            case Busy =>
              && !rounds(tries).free && !PastDeadline(deadline, rounds(tries).before)
              && start + 250_000_000 <= rounds(tries).after
            case Failed => false
  {
    tries, locked := 0, false;
    while true
      invariant tries <= 250 && !locked
      invariant forall k :: 0 <= k < tries ==>
                  !rounds(k).free && !PastDeadline(deadline, rounds(k).before) && rounds(k).after < start + PATIENCE
      decreases 250 - tries
    {
      var round := rounds(tries);
      if PastDeadline(deadline, round.before) { return Expired, false, tries; }
      if round.free {
        if !PastDeadline(deadline, round.with_) { return Applied, true, tries; }
        return Expired, false, tries;
      }
      if start + PATIENCE <= round.after { return Busy, false, tries; }
      assert start + tries * MILLISECOND <= round.after;
      tries := tries + 1;
    }
  }

  // ---------- the policy ----------

  datatype Policy = Policy(enabled: bool, matched: Option<SourceModeKey>, failed: Option<SourceModeKey>, retryAfter: int)

  // What had an effect: a modeset attempted for a source, or a change of the policy.
  datatype Entry =
    | Attempted(key: SourceModeKey, now: int, after: int, works: bool)
    | Manual
    | Automatic
    | Reinitialized

  // The steps other threads can see. What the lock, the display and the clock say is part of each.
  datatype Event =
    | SetManual(lock: ResolutionResult, display: ResolutionResult)
    | EnableAuto(lock: ResolutionResult)
    | Reinitialize(changes: bool)
    | MatchSource(free: bool, key: SourceModeKey, now: int, after: int, works: bool)

  // A frame of this source leads to a modeset.
  predicate Attempts(s: Policy, key: SourceModeKey, now: int) {
    s.enabled && s.matched != Some(key) && !(s.failed == Some(key) && now < s.retryAfter)
  }

  function Tried(s: Policy, key: SourceModeKey, after: int, works: bool): Policy {
    if works then s.(matched := Some(key), failed := None)
    else s.(matched := None, failed := Some(key), retryAfter := after + SECOND)
  }

  function Step(s: Policy, e: Event): (Policy, seq<Entry>) {
    match e
    case SetManual(lock, display) =>
      if lock == Applied && display == Applied then (Policy(false, None, None, s.retryAfter), [Manual]) else (s, [])
    case EnableAuto(lock) =>
      if lock == Applied then (Policy(true, None, None, s.retryAfter), [Automatic]) else (s, [])
    case Reinitialize(changes) =>
      if changes then (s.(matched := None, failed := None), [Reinitialized]) else (s, [])
    case MatchSource(free, key, now, after, works) =>
      if free && Attempts(s, key, now) then (Tried(s, key, after, works), [Attempted(key, now, after, works)]) else (s, [])
  }

  function Run(s: Policy, events: seq<Event>): (Policy, seq<Entry>)
    decreases |events|
  {
    if events == [] then (s, [])
    else
      var (t, log) := Step(s, events[0]);
      var (u, more) := Run(t, events[1..]);
      (u, log + more)
  }

  // A frame leads to a modeset exactly if the policy is automatic and the lock free, unless its source
  // is the one matched, or failed less than a second before; what comes of it is remembered.
  lemma TriedExactlyWhenDue(s: Policy, free: bool, key: SourceModeKey, now: int, after: int, works: bool)
    requires s.matched == None || s.failed == None
    ensures var (t, log) := Step(s, MatchSource(free, key, now, after, works));
            var due := s.enabled && free && s.matched != Some(key) && (s.failed != Some(key) || s.retryAfter <= now);
            && (|log| == 1 <==> due) && (log == [] <==> !due) && t.enabled == s.enabled
            && (!due ==> t == s)
            && (due && works ==> t.matched == Some(key) && t.failed == None)
            && (due && !works ==> t.matched == None && t.failed == Some(key) && t.retryAfter == after + 1_000_000_000)
  {}

  // A second after a failure the same source is tried again, a matched one not, and another at once.
  lemma RetriedAfterASecond(s: Policy, key: SourceModeKey, other: SourceModeKey, now: int, after: int, works: bool, later: int, after': int)
    requires s.enabled && s.matched != Some(key) && s.failed == None && other != key
    ensures var t := Step(s, MatchSource(true, key, now, after, works)).0;
            && (Step(t, MatchSource(true, key, later, after', true)).1 != [] <==> !works && after + 1_000_000_000 <= later)
            && Step(t, MatchSource(true, other, later, after', true)).1 != []
  {}

  // The last change of hands was to manual.
  predicate Handed(log: seq<Entry>) {
    log != [] && match log[|log| - 1]
                 case Manual => true
                 case Automatic => false
                 case _ => Handed(log[..|log| - 1])
  }

  // What may directly follow an attempt: never the same source after a success, and after a
  // failure not before a second has passed.
  predicate MayFollow(a: Entry, b: Entry) {
    a.Attempted? && b.Attempted? && a.key == b.key ==> !a.works && a.after + SECOND <= b.now
  }

  ghost predicate WellSpaced(log: seq<Entry>) {
    forall i :: 0 < i < |log| ==> MayFollow(log[i - 1], log[i])
  }

  // No modeset for a source while the policy is in manual hands.
  ghost predicate ManualRespected(log: seq<Entry>) {
    forall i :: 0 <= i < |log| && log[i].Attempted? ==> !Handed(log[..i])
  }

  // How the policy's fields reflect what happened last.
  ghost predicate Reflects(s: Policy, log: seq<Entry>) {
    && (s.matched == None || s.failed == None)
    && (Handed(log) ==> !s.enabled)
    && (log != [] && log[|log| - 1].Attempted? ==>
          var last := log[|log| - 1];
          if last.works then s.matched == Some(last.key) else s.failed == Some(last.key) && s.retryAfter == last.after + SECOND)
  }

  lemma HandedOneMore(log: seq<Entry>, entry: Entry)
    ensures Handed(log + [entry]) == match entry { case Manual => true case Automatic => false case _ => Handed(log) }
  {
    assert (log + [entry])[..|log|] == log;
  }

  lemma FieldsReflect(s: Policy, log: seq<Entry>, e: Event)
    requires Reflects(s, log)
    ensures var (t, more) := Step(s, e); Reflects(t, log + more)
  {
    hide Handed;
    var more := Step(s, e).1;
    if more == [] {
      assert log + more == log;
    } else {
      assert more == [more[0]];
      HandedOneMore(log, more[0]);
    }
  }

  lemma OneMoreSpaced(log: seq<Entry>, entry: Entry)
    requires WellSpaced(log) && (log != [] ==> MayFollow(log[|log| - 1], entry))
    ensures WellSpaced(log + [entry])
  {}

  lemma OneMoreRespected(log: seq<Entry>, entry: Entry)
    requires ManualRespected(log) && (entry.Attempted? ==> !Handed(log))
    ensures ManualRespected(log + [entry])
  {
    var longer := log + [entry];
    forall i | 0 <= i < |longer| && longer[i].Attempted?
      ensures !Handed(longer[..i])
    {
      assert longer[..i] == log[..i];
      assert log[..|log|] == log;
    }
  }

  lemma StepReflects(s: Policy, log: seq<Entry>, e: Event)
    requires Reflects(s, log) && WellSpaced(log) && ManualRespected(log)
    ensures var (t, more) := Step(s, e); Reflects(t, log + more) && WellSpaced(log + more) && ManualRespected(log + more)
  {
    hide WellSpaced, ManualRespected;
    FieldsReflect(s, log, e);
    var more := Step(s, e).1;
    if more == [] {
      assert log + more == log;
    } else {
      OneMoreSpaced(log, more[0]);
      OneMoreRespected(log, more[0]);
      assert more == [more[0]];
    }
  }

  lemma {:induction false} RunReflects(s: Policy, log: seq<Entry>, events: seq<Event>)
    requires Reflects(s, log) && WellSpaced(log) && ManualRespected(log)
    ensures var (t, more) := Run(s, events); Reflects(t, log + more) && WellSpaced(log + more) && ManualRespected(log + more)
    decreases |events|
  {
    hide Reflects, WellSpaced, ManualRespected, Step;
    if events == [] {
      assert log + [] == log;
    } else {
      StepReflects(s, log, events[0]);
      var (t, now) := Step(s, events[0]);
      RunReflects(t, log + now, events[1..]);
      var more := Run(t, events[1..]).1;
      assert log + now + more == log + (now + more);
    }
  }

  // Over every run of manual changes, automatic mode, hotplugs and frames: a matched source is not
  // applied again before another attempt or a reset, an attempt that directly follows a failed one
  // for the same source comes at least a second later, matched and failed are never both set, and
  // after a manual change there is no automatic modeset until automatic mode is enabled again.
  lemma PolicyHolds(enabled: bool, events: seq<Event>)
    ensures var (s, log) := Run(Policy(enabled, None, None, 0), events);
            WellSpaced(log) && ManualRespected(log) && (s.matched == None || s.failed == None) && (Handed(log) ==> !s.enabled)
  {
    RunReflects(Policy(enabled, None, None, 0), [], events);
    var (s, log) := Run(Policy(enabled, None, None, 0), events);
    assert [] + log == log;
  }

  // In terms of positions: between a manual change and any later attempt lies an Automatic.
  lemma {:induction false} HandedUntilAutomatic(log: seq<Entry>, i: nat)
    requires i < |log| && log[i] == Manual && forall k :: i < k < |log| ==> log[k] != Automatic
    ensures Handed(log)
    decreases |log|
  {
    if i < |log| - 1 {
      HandedUntilAutomatic(log[..|log| - 1], i);
    }
  }

  lemma NoModesetInManualHands(enabled: bool, events: seq<Event>, i: nat, j: nat)
    requires var log := Run(Policy(enabled, None, None, 0), events).1; i < j < |log| && log[i] == Manual && log[j].Attempted?
    ensures var log := Run(Policy(enabled, None, None, 0), events).1; exists k :: i < k < j && log[k] == Automatic
  {
    hide Run;
    PolicyHolds(enabled, events);
    var log := Run(Policy(enabled, None, None, 0), events).1;
    if forall k :: i < k < j ==> log[k] != Automatic {
      HandedUntilAutomatic(log[..j], i);
      assert false;
    }
  }

  class AutoResolutionPolicy {
    var enabled: bool
    var matched: Option<SourceModeKey>
    var failed: Option<SourceModeKey>
    var retryAfter: int
    ghost var log: seq<Entry>

    ghost function State(): Policy
      reads this
    {
      Policy(enabled, matched, failed, retryAfter)
    }

    ghost predicate Valid()
      reads this
    {
      Reflects(State(), log) && WellSpaced(log) && ManualRespected(log)
    }

    constructor (automatic: bool)
      ensures Valid() && State() == Policy(automatic, None, None, 0) && log == []
    {
      enabled, matched, failed, retryAfter, log := automatic, None, None, 0, [];
    }

    method SetManual(lock: ResolutionResult, display: ResolutionResult) returns (result: ResolutionResult)
      requires Valid()
      modifies this
      ensures Valid()
      ensures (State(), log) == (Step(old(State()), Event.SetManual(lock, display)).0,
                                 old(log) + Step(old(State()), Event.SetManual(lock, display)).1)
      ensures lock == Applied && display == Applied ==> !enabled && matched == None && failed == None
      ensures lock != Applied || display != Applied ==> State() == old(State())
      ensures result == if lock == Applied then display else lock
    {
      hide Reflects, WellSpaced, ManualRespected;
      StepReflects(State(), log, Event.SetManual(lock, display));
      if lock != Applied || display != Applied {
        assert log + [] == log;
        return if lock != Applied then lock else display;
      }
      enabled, matched, failed := false, None, None;
      log := log + [Manual];
      return Applied;
    }

    method EnableAuto(lock: ResolutionResult) returns (result: ResolutionResult)
      requires Valid()
      modifies this
      ensures Valid()
      ensures (State(), log) == (Step(old(State()), Event.EnableAuto(lock)).0, old(log) + Step(old(State()), Event.EnableAuto(lock)).1)
      ensures lock == Applied ==> enabled && matched == None && failed == None
      ensures lock != Applied ==> State() == old(State())
      ensures result == lock
    {
      hide Reflects, WellSpaced, ManualRespected;
      StepReflects(State(), log, Event.EnableAuto(lock));
      if lock != Applied {
        assert log + [] == log;
        return lock;
      }
      matched, failed, enabled := None, None, true;
      log := log + [Automatic];
      return Applied;
    }

    method Reinitialize(changes: bool) returns (done: bool)
      requires Valid()
      modifies this
      ensures Valid()
      ensures (State(), log) == (Step(old(State()), Event.Reinitialize(changes)).0,
                                 old(log) + Step(old(State()), Event.Reinitialize(changes)).1)
      ensures changes ==> matched == None && failed == None && enabled == old(enabled)
      ensures !changes ==> State() == old(State())
      ensures done == changes
    {
      hide Reflects, WellSpaced, ManualRespected;
      StepReflects(State(), log, Event.Reinitialize(changes));
      if !changes {
        assert log + [] == log;
        return false;
      }
      matched, failed := None, None;
      log := log + [Reinitialized];
      return true;
    }

    method MatchSource(free: bool, key: SourceModeKey, now: int, after: int, works: bool)
      requires Valid()
      modifies this
      ensures Valid()
      ensures (State(), log) == (Step(old(State()), Event.MatchSource(free, key, now, after, works)).0,
                                 old(log) + Step(old(State()), Event.MatchSource(free, key, now, after, works)).1)
      ensures var due := old(enabled) && free && old(matched) != Some(key) && (old(failed) != Some(key) || old(retryAfter) <= now);
              && |log| == |old(log)| + (if due then 1 else 0) && (!due ==> State() == old(State()))
              && (due && works ==> matched == Some(key) && failed == None)
              && (due && !works ==> matched == None && failed == Some(key) && retryAfter == after + 1_000_000_000)
    {
      hide Reflects, WellSpaced, ManualRespected;
      StepReflects(State(), log, Event.MatchSource(free, key, now, after, works));
      assert log + [] == log;
      if !enabled || !free { return; }
      if matched == Some(key) { return; }
      if failed == Some(key) && now < retryAfter { return; }
      log := log + [Attempted(key, now, after, works)];
      if works {
        matched, failed := Some(key), None;
      } else {
        matched, failed, retryAfter := None, Some(key), after + SECOND;
      }
    }
  }
}
