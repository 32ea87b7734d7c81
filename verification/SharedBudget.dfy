/** All queues of the process on one allocator: the ledger agrees with the queues after every
    call of every run, and what the delayed queues hold stays within the budget. */
module SharedBudget {
  import opened VideoBudget
  import opened DelayedFrames
  import opened DelayRuns
  import opened Wrappers

  datatype System<F> = System(ledger: Ledger, queues: map<nat, Queue<F>>)

  // A call on one queue, by its owner number. Measured memory comes with the calls that read it.
  datatype Event<F> =
    | Open(id: nat, hint: nat, available: nat)
    | Close(id: nat)
    | Delay(id: nat, ms: int, num: int, den: int, available: nat)
    | Hint(id: nat, bytes: nat, num: int, den: int, available: nat)
    | Enqueue(id: nat, frame: F, now: int)
    | Dequeue(id: nat, now: int)
    | Drain(id: nat)

  ghost predicate LedgerAgrees<F>(s: System<F>) {
    && s.ledger.entries.Keys == s.queues.Keys
    && forall id :: id in s.queues ==> Valid(s.queues[id]) && s.ledger.entries[id] == EntryOf(s.queues[id])
  }

  function EntryOf<F>(q: Queue<F>): Entry {
    Entry(|q.frames| * q.frameBytes, q.requested > 0)
  }

  // The new delay of queue q on ledger l: what set_delay_ms does to both.
  ghost function Redelayed<F>(s: System<F>, id: nat, q: Queue<F>, ms: int, num: int, den: int, available: nat): System<F>
    requires Valid(q)
  {
    var l := Measuring(s.ledger, id, q, ms, available);
    var r := DelaySet(q, ms, num, den, Portion(l));
    System(Recorded(l, id, r), s.queues[id := r])
  }

  ghost function Replaced<F>(s: System<F>, id: nat, q: Queue<F>): System<F> {
    System(Recorded(s.ledger, id, q), s.queues[id := q])
  }

  ghost function Step<F>(s: System<F>, e: Event<F>): System<F>
    requires LedgerAgrees(s)
  {
    if e.Open? then
      if e.id in s.queues then s
      else Redelayed(s, e.id, Opened(e.hint), 0, 60, 1, e.available)
    else if e.id !in s.queues then s
    else
      var q := s.queues[e.id];
      match e
      case Close(id) => System(s.ledger.(entries := s.ledger.entries - {id}), s.queues - {id})
      case Delay(id, ms, num, den, available) => Redelayed(s, id, q, ms, num, den, available)
      case Hint(id, bytes, num, den, available) =>
        if HintChanges(q, bytes, num, den)
        then Redelayed(s, id, q.(frameBytes := Max(1, bytes)), q.requested, num, den, available) else s
      case Enqueue(id, frame, now) =>
        Replaced(s, id, Pushed(q, frame, now, Portion(Recorded(s.ledger, id, q))))
      case Dequeue(id, now) => if Due(q, now) then Replaced(s, id, Popped(q, now)) else s
      case Drain(id) => Replaced(s, id, Cleared(q))
  }

  // The events that end with a limit computed from the budget and the delayed owners of the
  // state they lead to.
  ghost predicate Refreshes<F>(s: System<F>, e: Event<F>) {
    (e.Open? && e.id !in s.queues) ||
    (e.id in s.queues &&
      (e.Delay? || (e.Enqueue? && s.queues[e.id].requested > 0) ||
       (e.Hint? && HintChanges(s.queues[e.id], e.bytes, e.num, e.den))))
  }

  lemma ReplacedAgrees<F>(s: System<F>, id: nat, q: Queue<F>)
    requires LedgerAgrees(s) && Valid(q)
    ensures LedgerAgrees(Replaced(s, id, q))
  {}

  lemma RedelayedAgrees<F>(s: System<F>, id: nat, q: Queue<F>, ms: int, num: int, den: int, available: nat)
    requires LedgerAgrees(s) && Valid(q)
    ensures LedgerAgrees(Redelayed(s, id, q, ms, num, den, available))
  {
    DelaySetIsValid(q, ms, num, den, Portion(Measuring(s.ledger, id, q, ms, available)));
  }

  // The ledger entry of every live queue is its real size, after every event.
  lemma StepAgrees<F>(s: System<F>, e: Event<F>)
    requires LedgerAgrees(s)
    ensures LedgerAgrees(Step(s, e))
  {
    if e.Open? {
      if e.id !in s.queues {
        RedelayedAgrees(s, e.id, Opened(e.hint), 0, 60, 1, e.available);
      }
    } else if e.id in s.queues {
      var q := s.queues[e.id];
      match e
      case Close(id) =>
      case Delay(id, ms, num, den, available) => RedelayedAgrees(s, id, q, ms, num, den, available);
      case Hint(id, bytes, num, den, available) =>
        HintIsValid(q, bytes);
        RedelayedAgrees(s, id, q.(frameBytes := Max(1, bytes)), q.requested, num, den, available);
      case Enqueue(id, frame, now) =>
        PushedIsValid(q, frame, now, Portion(Recorded(s.ledger, id, q)));
        ReplacedAgrees(s, id, Step(s, e).queues[id]);
      case Dequeue(id, now) => ReplacedAgrees(s, id, Popped(q, now));
      case Drain(id) => ReplacedAgrees(s, id, Cleared(q));
    }
  }

  // ---------- the budget ----------

  // Every owner's portion depends on the budget and the set of delayed owners alone.
  lemma SamePortion(l: Ledger, m: Ledger)
    requires l.budget == m.budget && Delayed(l.entries) == Delayed(m.entries)
    ensures Portion(l) == Portion(m)
  {
    FlagsCount(l.entries.Keys, l.entries);
    FlagsCount(m.entries.Keys, m.entries);
    assert Flagged(l.entries.Keys, l.entries) == Delayed(l.entries);
    assert Flagged(m.entries.Keys, m.entries) == Delayed(m.entries);
  }

  // The queue's frame limit is within its current portion of the budget.
  ghost predicate WithinPortion<F>(s: System<F>, id: nat)
    requires id in s.queues && Valid(s.queues[id])
  {
    s.queues[id].maximum <= 2 + Portion(s.ledger) / s.queues[id].frameBytes
  }

  // A run's state, with the queues that have computed their limit since the budget or the set of
  // delayed owners last changed.
  datatype Tracked<F> = Tracked(system: System<F>, settled: set<nat>)

  ghost predicate Unchanged(l: Ledger, m: Ledger) {
    l.budget == m.budget && Delayed(l.entries) == Delayed(m.entries)
  }

  ghost function Track<F>(t: Tracked<F>, e: Event<F>): Tracked<F>
    requires LedgerAgrees(t.system)
  {
    var next := Step(t.system, e);
    var kept := if Unchanged(t.system.ledger, next.ledger) then t.settled * next.queues.Keys else {};
    Tracked(next, if Refreshes(t.system, e) then kept + {e.id} else kept)
  }

  ghost predicate Accounted<F>(t: Tracked<F>) {
    && LedgerAgrees(t.system)
    && forall id :: id in t.settled ==> id in t.system.queues && WithinPortion(t.system, id)
  }

  lemma RedelayedWithin<F>(s: System<F>, id: nat, q: Queue<F>, ms: int, num: int, den: int, available: nat)
    requires LedgerAgrees(s) && Valid(q)
    ensures LedgerAgrees(Redelayed(s, id, q, ms, num, den, available))
    ensures WithinPortion(Redelayed(s, id, q, ms, num, den, available), id)
  {
    RedelayedAgrees(s, id, q, ms, num, den, available);
    var l := Measuring(s.ledger, id, q, ms, available);
    var next := Redelayed(s, id, q, ms, num, den, available);
    assert Delayed(l.entries) == Delayed(next.ledger.entries);
    SamePortion(l, next.ledger);
  }

  lemma PushWithin<F>(s: System<F>, id: nat, frame: F, now: int)
    requires LedgerAgrees(s) && id in s.queues && s.queues[id].requested > 0
    requires LedgerAgrees(Step(s, Enqueue(id, frame, now)))
    ensures WithinPortion(Step(s, Enqueue(id, frame, now)), id)
  {
    var l := Recorded(s.ledger, id, s.queues[id]);
    var next := Step(s, Enqueue(id, frame, now));
    PushedFields(s.queues[id], frame, now, Portion(l));
    PushedLimit(s.queues[id], frame, now, Portion(l));
    assert Delayed(l.entries) == Delayed(next.ledger.entries);
    SamePortion(l, next.ledger);
  }

  lemma PushedLimit<F>(q: Queue<F>, frame: F, now: int, granted: nat)
    requires Valid(q) && q.requested > 0
    ensures var r := Pushed(q, frame, now, granted);
            r.frameBytes == q.frameBytes && r.maximum == Limited(q, granted).maximum
  {}

  lemma LimitUntouched<F>(s: System<F>, e: Event<F>, id: nat)
    requires LedgerAgrees(s) && id in s.queues && id in Step(s, e).queues && !(Refreshes(s, e) && id == e.id)
    ensures Step(s, e).queues[id].maximum == s.queues[id].maximum
    ensures Step(s, e).queues[id].frameBytes == s.queues[id].frameBytes
  {
    hide Portion, DelaySet, Resized;
  }

  // A queue nobody touched keeps its portion while budget and delayed owners stay.
  lemma OthersKeepPortion<F>(s: System<F>, e: Event<F>, id: nat)
    requires LedgerAgrees(s) && LedgerAgrees(Step(s, e)) && Unchanged(s.ledger, Step(s, e).ledger)
    requires id in s.queues && id in Step(s, e).queues && !(Refreshes(s, e) && id == e.id)
    requires WithinPortion(s, id)
    ensures WithinPortion(Step(s, e), id)
  {
    LimitUntouched(s, e, id);
    SamePortion(s.ledger, Step(s, e).ledger);
    hide Step, Portion, Delayed;
  }

  lemma TrackKeepsAccount<F>(t: Tracked<F>, e: Event<F>)
    requires Accounted(t)
    ensures Accounted(Track(t, e))
  {
    hide Valid, WithinPortion, Portion;
    StepAgrees(t.system, e);
    var s, next := t.system, Track(t, e);
    forall id | id in next.settled ensures id in next.system.queues && WithinPortion(next.system, id) {
      if Refreshes(s, e) && id == e.id {
        RefreshedWithin(s, e);
      } else {
        OthersKeepPortion(s, e, id);
      }
    }
  }

  lemma RefreshedWithin<F>(s: System<F>, e: Event<F>)
    requires LedgerAgrees(s) && LedgerAgrees(Step(s, e)) && Refreshes(s, e)
    ensures e.id in Step(s, e).queues && WithinPortion(Step(s, e), e.id)
  {
    match e
    case Open(id, hint, available) => RedelayedWithin(s, id, Opened(hint), 0, 60, 1, available);
    case Delay(id, ms, num, den, available) => RedelayedWithin(s, id, s.queues[id], ms, num, den, available);
    case Hint(id, bytes, num, den, available) =>
      var q := s.queues[id].(frameBytes := Max(1, bytes));
      RedelayedWithin(s, id, q, q.requested, num, den, available);
    case Enqueue(id, frame, now) => PushWithin(s, id, frame, now);
  }

  lemma Fits(n: nat, d: nat, p: nat)
    requires 0 < d && n <= p / d
    ensures n * d <= p
  {
    assert n * d <= (p / d) * d <= p;
  }

  // Bytes of the frames a queue holds beyond the two it always may.
  ghost function Beyond<F>(s: System<F>): nat -> nat {
    id => if id in s.queues && s.queues[id].requested > 0 && |s.queues[id].frames| > 2
          then (|s.queues[id].frames| - 2) * s.queues[id].frameBytes else 0
  }

  lemma BeyondWithinPortion<F>(s: System<F>, id: nat)
    requires LedgerAgrees(s) && id in s.queues && (s.queues[id].requested > 0 ==> WithinPortion(s, id))
    ensures Beyond(s)(id) <= Portion(s.ledger) * WorkerFlag(s.ledger.entries)(id)
  {
    var q, p := s.queues[id], Portion(s.ledger);
    if q.requested > 0 && |q.frames| > 2 {
      Fits(|q.frames| - 2, q.frameBytes, p);
    }
  }

  // Once every delayed queue has settled, all of them together hold at most the budget beyond two
  // frames each; a queue without delay never holds more than two.
  lemma BudgetHolds<F>(t: Tracked<F>)
    requires Accounted(t)
    requires forall id :: id in t.system.queues && t.system.queues[id].requested > 0 ==> id in t.settled
    ensures Sum(t.system.queues.Keys, Beyond(t.system)) <= t.system.ledger.budget
    ensures forall id :: id in t.system.queues && t.system.queues[id].requested == 0 ==> |t.system.queues[id].frames| <= 2
  {
    hide WorkerFlag, Beyond, Step;
    var s := t.system;
    var entries, p, w := s.ledger.entries, Portion(s.ledger), Workers(s.ledger.entries);
    forall id | id in s.queues.Keys ensures Beyond(s)(id) <= p * WorkerFlag(entries)(id) {
      BeyondWithinPortion(s, id);
    }
    SumScaled(s.queues.Keys, Beyond(s), WorkerFlag(entries), p);
    Fits(p, Max(1, w), s.ledger.budget);
    assert p * w <= p * Max(1, w);
  }

  ghost function TrackAll<F>(t: Tracked<F>, events: seq<Event<F>>): Tracked<F>
    requires Accounted(t)
    decreases |events|
  {
    if events == [] then t
    else
      TrackKeepsAccount(t, events[0]);
      TrackAll(Track(t, events[0]), events[1..])
  }

  ghost function Empty<F>(): Tracked<F> {
    Tracked(System(Ledger(map[], 0), map[]), {})
  }

  lemma {:induction false} RunsKeepAccount<F>(t: Tracked<F>, events: seq<Event<F>>)
    requires Accounted(t)
    ensures Accounted(TrackAll(t, events))
    decreases |events|
  {
    if events != [] {
      TrackKeepsAccount(t, events[0]);
      hide Accounted;
      RunsKeepAccount(Track(t, events[0]), events[1..]);
    }
  }

  // From an empty process, over every run of every number of queues: the ledger always agrees
  // with the queues, and the budget holds whenever all delayed queues have settled.
  lemma EveryRunWithinBudget<F>(events: seq<Event<F>>)
    ensures Accounted(Empty<F>())
    ensures var t := TrackAll(Empty<F>(), events);
            && LedgerAgrees(t.system)
            && ((forall id :: id in t.system.queues && t.system.queues[id].requested > 0 ==> id in t.settled) ==>
                 Sum(t.system.queues.Keys, Beyond(t.system)) <= t.system.ledger.budget)
  {
    RunsKeepAccount(Empty<F>(), events);
    var t := TrackAll(Empty<F>(), events);
    if forall id :: id in t.system.queues && t.system.queues[id].requested > 0 ==> id in t.settled {
      BudgetHolds(t);
    }
  }
}
