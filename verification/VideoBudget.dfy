/** The memory budget that all delayed video queues share: the ledger of what each holds, and
    the allocator class proved against it. */
module VideoBudget {
  import opened Wrappers

  function Min(a: int, b: int): int { if a < b then a else b }
  function Max(a: int, b: int): int { if a < b then b else a }
  function MinReal(a: real, b: real): real { if b < a then b else a }
  function Ceil(x: real): int { -((-x).Floor) }

  // ---------- the shared budget ----------

  const RESERVE: nat := 256 * 1024 * 1024

  datatype Entry = Entry(held: nat, delayed: bool)
  datatype Ledger = Ledger(entries: map<nat, Entry>, budget: nat)

  ghost function Sum(ids: set<nat>, f: nat -> nat): nat {
    if ids == {} then 0 else var k :| k in ids; f(k) + Sum(ids - {k}, f)
  }

  lemma {:induction false} SumPick(ids: set<nat>, f: nat -> nat, k: nat)
    requires k in ids
    ensures Sum(ids, f) == f(k) + Sum(ids - {k}, f)
  {
    var j :| j in ids && Sum(ids, f) == f(j) + Sum(ids - {j}, f);
    if j != k {
      SumPick(ids - {j}, f, k);
      SumPick(ids - {k}, f, j);
      assert ids - {j} - {k} == ids - {k} - {j};
    }
  }

  lemma Distribute(p: int, a: int, b: int)
    ensures p * (a + b) == p * a + p * b
  {}

  lemma {:induction false} SumScaled(ids: set<nat>, f: nat -> nat, g: nat -> nat, p: nat)
    requires forall k :: k in ids ==> f(k) <= p * g(k)
    ensures Sum(ids, f) <= p * Sum(ids, g)
  {
    if ids != {} {
      var k :| k in ids;
      var rest := ids - {k};
      SumPick(ids, f, k);
      SumPick(ids, g, k);
      SumScaled(rest, f, g, p);
      Distribute(p, g(k), Sum(rest, g));
    }
  }

  ghost function HeldBy(entries: map<nat, Entry>): nat -> nat {
    k => if k in entries then entries[k].held else 0
  }

  ghost function WorkerFlag(entries: map<nat, Entry>): nat -> nat {
    k => if k in entries && entries[k].delayed then 1 else 0
  }

  ghost function Queued(entries: map<nat, Entry>): nat {
    Sum(entries.Keys, HeldBy(entries))
  }

  ghost function Workers(entries: map<nat, Entry>): nat {
    Sum(entries.Keys, WorkerFlag(entries))
  }

  ghost function Delayed(entries: map<nat, Entry>): set<nat> {
    set k | k in entries && entries[k].delayed
  }

  // What the queues may hold, given what is free and what they hold already.
  function Remaining(available: nat, queued: nat): nat {
    if available + queued > RESERVE then available + queued - RESERVE else 0
  }

  function Split(budget: nat, workers: nat): nat {
    budget / Max(1, workers)
  }

  // The allocator's share(): record the owner, and re-derive the budget when a measurement of
  // the available memory comes along. Memory the queues already hold counts as available.
  ghost function Grant(l: Ledger, owner: nat, held: nat, delayed: bool, available: Option<nat>): Ledger {
    var entries := l.entries[owner := Entry(held, delayed)];
    Ledger(entries, if available.Some? then Remaining(available.value, Queued(entries)) else l.budget)
  }

  ghost function Portion(l: Ledger): nat {
    Split(l.budget, Workers(l.entries))
  }

  ghost function Flagged(ids: set<nat>, entries: map<nat, Entry>): set<nat> {
    set k | k in ids && k in entries && entries[k].delayed
  }

  lemma {:induction false} FlagsCount(ids: set<nat>, entries: map<nat, Entry>)
    ensures Sum(ids, WorkerFlag(entries)) == |Flagged(ids, entries)|
  {
    if ids != {} {
      var k :| k in ids;
      SumPick(ids, WorkerFlag(entries), k);
      FlagsCount(ids - {k}, entries);
      var rest := Flagged(ids - {k}, entries);
      assert k !in rest;
      assert Flagged(ids, entries) == if k in entries && entries[k].delayed then rest + {k} else rest;
    }
  }

  // What all owners hold is what one holds and what the others hold; nobody holds nothing.
  lemma QueuedIsSum(entries: map<nat, Entry>, k: nat)
    requires k in entries
    ensures Queued(entries) == entries[k].held + Queued(entries - {k}) && Queued(map[]) == 0
  {
    SumPick(entries.Keys, HeldBy(entries), k);
    SameSum(entries.Keys - {k}, HeldBy(entries), HeldBy(entries - {k}));
    assert (entries - {k}).Keys == entries.Keys - {k};
  }

  lemma {:induction false} SameSum(ids: set<nat>, f: nat -> nat, g: nat -> nat)
    requires forall k :: k in ids ==> f(k) == g(k)
    ensures Sum(ids, f) == Sum(ids, g)
  {
    if ids != {} {
      var k :| k in ids;
      SumPick(ids, f, k);
      SumPick(ids, g, k);
      SameSum(ids - {k}, f, g);
    }
  }

  // The largest amount that every one of the workers can have at once; all of it without workers.
  ghost predicate LargestShare(bytes: nat, workers: nat, budget: nat) {
    if workers == 0 then bytes == budget else bytes * workers <= budget < (bytes + 1) * workers
  }

  // The portion is the largest that all delayed owners can have at once.
  lemma PortionIsLargest(l: Ledger)
    ensures LargestShare(Portion(l), |Delayed(l.entries)|, l.budget)
  {
    hide WorkerFlag;
    FlagsCount(l.entries.Keys, l.entries);
    assert Flagged(l.entries.Keys, l.entries) == Delayed(l.entries);
    Quotient(l.budget, Max(1, |Delayed(l.entries)|));
  }

  lemma Quotient(b: nat, w: nat)
    requires 0 < w
    ensures b / w * w <= b < (b / w + 1) * w
  {}

  // The loop over all entries. The order does not matter.
  method Totals(entries: map<nat, Entry>) returns (queued: nat, workers: nat)
    ensures queued == Queued(entries) && workers == Workers(entries)
  {
    queued, workers := 0, 0;
    var rest := entries.Keys;
    ghost var done: set<nat> := {};
    while rest != {}
      invariant done !! rest && done + rest == entries.Keys
      invariant queued == Sum(done, HeldBy(entries)) && workers == Sum(done, WorkerFlag(entries))
      decreases rest
    {
      var k :| k in rest;
      queued := queued + entries[k].held;
      workers := workers + if entries[k].delayed then 1 else 0;
      SumPick(done + {k}, HeldBy(entries), k);
      SumPick(done + {k}, WorkerFlag(entries), k);
      assert done + {k} - {k} == done;
      rest, done := rest - {k}, done + {k};
    }
    assert done == entries.Keys;
  }

  class VideoDelayBudget {
    var entries: map<nat, Entry>
    var budget: nat

    ghost function State(): Ledger
      reads this
    {
      Ledger(entries, budget)
    }

    constructor ()
      ensures State() == Ledger(map[], 0)
    {
      entries, budget := map[], 0;
    }

    method Share(owner: nat, held: nat, delayed: bool, available: Option<nat>) returns (bytes: nat)
      modifies this
      ensures State() == Grant(old(State()), owner, held, delayed, available)
      ensures bytes == Portion(State())
      ensures entries == old(entries)[owner := Entry(held, delayed)]
      ensures available.None? ==> budget == old(budget)
      ensures available.Some? ==>
        (var free := available.value + Queued(entries); if free <= 268435456 then budget == 0 else budget == free - 268435456)
      ensures LargestShare(bytes, |Delayed(entries)|, budget)
    {
      hide Queued, Workers;
      entries := entries[owner := Entry(held, delayed)];
      var queued, workers := Totals(entries);
      if available.Some? { budget := Remaining(available.value, queued); }
      bytes := Split(budget, workers);
      PortionIsLargest(State());
    }

    method Remove(owner: nat)
      modifies this
      ensures State() == Ledger(old(entries) - {owner}, old(budget))
    {
      entries := entries - {owner};
    }
  }
}
