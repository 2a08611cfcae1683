/** The fetch-delay stage: a queue that holds every instruction back for its delay and passes
instructions on in order. */
module FetchDelay {
  import opened Wrappers

  datatype Delayed = Delayed(cyclesLeft: nat, id: nat)

  datatype Arrival = Arrival(id: nat, delay: nat, time: nat)

  /** The queue, and the history that the properties speak of: everything passed on so far,
      the current cycle, the arrivals and the cycles in which instructions were passed on. */
  datatype Stage = Stage(queue: seq<Delayed>, out: seq<nat>, now: nat, arrivals: seq<Arrival>, departures: seq<nat>)

  const EMPTY := Stage([], [], 0, [], [])

  /** What the stage is given: an instruction with its delay, or the start of a cycle; with
      either, how many instructions the next stage takes before it refuses one. */
  datatype Event = Execute(id: nat, delay: nat, accept: nat) | CycleStart(accept: nat)

  predicate FrontIsDue(s: Stage) {
    s.queue != [] && s.queue[0].cyclesLeft == 0
  }

  function PassOne(s: Stage): Stage
    requires s.queue != []
  {
    s.(queue := s.queue[1..], out := s.out + [s.queue[0].id], departures := s.departures + [s.now])
  }

  /** Passes on what is due, in order, as long as the next stage takes it. */
  function Forward(s: Stage, accept: nat): Stage
    decreases accept
  {
    if FrontIsDue(s) && accept > 0 then Forward(PassOne(s), accept - 1) else s
  }

  function Enqueue(s: Stage, id: nat, delay: nat): Stage {
    s.(queue := s.queue + [Delayed(delay, id)], arrivals := s.arrivals + [Arrival(id, delay, s.now)])
  }

  function Tick(s: Stage): Stage {
    s.(now := s.now + 1,
       queue := if s.queue != [] && s.queue[0].cyclesLeft > 0
                then s.queue[0 := s.queue[0].(cyclesLeft := s.queue[0].cyclesLeft - 1)] else s.queue)
  }

  function Step(s: Stage, e: Event): Stage {
    match e
    case Execute(id, delay, accept) => Forward(Enqueue(s, id, delay), accept)
    case CycleStart(accept) => Forward(Tick(s), accept)
  }

  function Run(ev: seq<Event>): Stage {
    if ev == [] then EMPTY else Step(Run(ev[..|ev| - 1]), ev[|ev| - 1])
  }

  // ---------------------------------------------------------------------------
  // Order
  // ---------------------------------------------------------------------------

  /** The instructions given to the stage, in order. */
  function Given(ev: seq<Event>): seq<nat> {
    if ev == [] then [] else
      Given(ev[..|ev| - 1]) + if ev[|ev| - 1].Execute? then [ev[|ev| - 1].id] else []
  }

  /** Passed on and still queued, as one sequence. */
  ghost predicate Conserves(s: Stage, given: seq<nat>) {
    && |s.out| + |s.queue| == |given|
    && (forall i: nat | i < |s.out| :: s.out[i] == given[i])
    && (forall i: nat | i < |s.queue| :: s.queue[i].id == given[|s.out| + i])
  }

  lemma {:induction false} ForwardConserves(s: Stage, accept: nat, given: seq<nat>)
    requires Conserves(s, given)
    ensures Conserves(Forward(s, accept), given)
    decreases accept
  {
    if !FrontIsDue(s) || accept == 0 {
    } else {
      ForwardConserves(PassOne(s), accept - 1, given);
    }
  }

  /** Nothing is lost, duplicated or reordered: what was passed on, followed by what is
      queued, is what was given. */
  lemma {:induction false} InOrder(ev: seq<Event>)
    ensures Conserves(Run(ev), Given(ev))
  {
    if ev == [] {
    } else {
      var s, e := Run(ev[..|ev| - 1]), ev[|ev| - 1];
      InOrder(ev[..|ev| - 1]);
      match e
      case Execute(id, delay, accept) => ForwardConserves(Enqueue(s, id, delay), accept, Given(ev));
      case CycleStart(accept) => ForwardConserves(Tick(s), accept, Given(ev));
    }
  }

  // ---------------------------------------------------------------------------
  // Delay
  // ---------------------------------------------------------------------------

  /** When the `k`-th instruction got to the front: when it arrived, or when the one before
      it was passed on, if that was later. */
  function FrontSince(s: Stage, k: nat): nat
    requires k < |s.arrivals| && k <= |s.departures|
  {
    Max(s.arrivals[k].time, if k == 0 then 0 else s.departures[k - 1])
  }

  /** The queue is the tail of the arrivals, and only its front has been counted down. */
  ghost predicate Aligned(s: Stage) {
    var n := |s.departures|;
    && n + |s.queue| == |s.arrivals|
    && (forall i: nat | i < |s.arrivals| :: s.arrivals[i].time <= s.now)
    && (forall i: nat | i < n :: s.departures[i] <= s.now)
    && (forall k: nat | 0 < k < |s.queue| :: s.queue[k].cyclesLeft == s.arrivals[n + k].delay)
  }

  /** How long the front has been there shows in what is left of its delay. */
  ghost predicate FrontTimed(s: Stage, exact: bool)
    requires Aligned(s)
  {
    s.queue != [] ==>
      var left, end := s.queue[0].cyclesLeft, FrontSince(s, |s.departures|) + s.arrivals[|s.departures|].delay;
      if left > 0 || exact then s.now + left == end else s.now >= end
  }

  ghost predicate ServedOne(s: Stage, i: nat, exact: bool)
    requires i < |s.departures| && i < |s.arrivals|
  {
    var end := FrontSince(s, i) + s.arrivals[i].delay;
    if exact then s.departures[i] == end else s.departures[i] >= end
  }

  /** No instruction left before it had been at the front for its delay; with `exact`, none
      left later either. */
  ghost predicate Served(s: Stage, exact: bool)
    requires Aligned(s)
  {
    forall i: nat {:trigger ServedOne(s, i, exact)} | i < |s.departures| :: ServedOne(s, i, exact)
  }

  ghost predicate Timed(s: Stage, exact: bool) {
    Aligned(s) && FrontTimed(s, exact) && Served(s, exact)
  }

  lemma PassOneKeepsTimed(s: Stage, exact: bool)
    requires Timed(s, exact) && FrontIsDue(s)
    ensures Timed(PassOne(s), exact)
  {
    var s' := PassOne(s);
    assert Aligned(s');
    assert FrontTimed(s', exact);
    forall i: nat | i < |s'.departures| ensures ServedOne(s', i, exact) {
      if i < |s.departures| { assert ServedOne(s, i, exact); }
    }
  }

  lemma {:induction false} ForwardKeepsTimed(s: Stage, accept: nat, exact: bool)
    requires Timed(s, exact)
    ensures Timed(Forward(s, accept), exact)
    decreases accept
  {
    hide Timed;
    if !FrontIsDue(s) || accept == 0 {
    } else {
      PassOneKeepsTimed(s, exact);
      ForwardKeepsTimed(PassOne(s), accept - 1, exact);
    }
  }

  lemma EnqueueKeepsTimed(s: Stage, id: nat, delay: nat, exact: bool)
    requires Timed(s, exact)
    ensures Timed(Enqueue(s, id, delay), exact)
  {
    var s' := Enqueue(s, id, delay);
    assert Aligned(s');
    forall i: nat | i < |s'.departures| ensures ServedOne(s', i, exact) { assert ServedOne(s, i, exact); }
    assert FrontTimed(s', exact);
  }

  lemma TickKeepsTimed(s: Stage, exact: bool)
    requires Timed(s, exact) && (exact ==> !FrontIsDue(s))
    ensures Timed(Tick(s), exact)
  {
    var s' := Tick(s);
    assert Aligned(s');
    forall i: nat | i < |s'.departures| ensures ServedOne(s', i, exact) { assert ServedOne(s, i, exact); }
    assert FrontTimed(s', exact);
  }

  lemma {:induction false} RunKeepsTimed(ev: seq<Event>)
    ensures Timed(Run(ev), false)
  {
    if ev == [] {
    } else {
      var s, e := Run(ev[..|ev| - 1]), ev[|ev| - 1];
      RunKeepsTimed(ev[..|ev| - 1]);
      match e
      case Execute(id, delay, accept) =>
        EnqueueKeepsTimed(s, id, delay, false);
        ForwardKeepsTimed(Enqueue(s, id, delay), accept, false);
      case CycleStart(accept) =>
        TickKeepsTimed(s, false);
        ForwardKeepsTimed(Tick(s), accept, false);
    }
  }

  /** In every run, however ready the next stage is, no instruction leaves before its whole
      delay has been counted down at the front. */
  lemma DelayIsServed(ev: seq<Event>, i: nat)
    requires i < |Run(ev).departures|
    ensures i < |Run(ev).arrivals|
    ensures Run(ev).departures[i] >= FrontSince(Run(ev), i) + Run(ev).arrivals[i].delay
  {
    RunKeepsTimed(ev);
    assert ServedOne(Run(ev), i, false);
  }

  // ---------------------------------------------------------------------------
  // With a next stage that is always ready
  // ---------------------------------------------------------------------------

  /** The next stage never refuses an instruction. */
  predicate AlwaysReady(ev: seq<Event>) {
    forall e | e in ev :: e.accept > |ev|
  }

  lemma {:induction false} ForwardAllDue(s: Stage, accept: nat)
    requires accept >= |s.queue|
    ensures !FrontIsDue(Forward(s, accept)) && |Forward(s, accept).queue| <= |s.queue|
    decreases accept
  {
    if !FrontIsDue(s) {
    } else {
      ForwardAllDue(PassOne(s), accept - 1);
    }
  }

  lemma {:induction false} RunKeepsExact(ev: seq<Event>)
    requires AlwaysReady(ev)
    ensures Timed(Run(ev), true) && !FrontIsDue(Run(ev)) && |Run(ev).queue| <= |ev|
  {
    if ev == [] {
    } else {
      var k := |ev| - 1;
      var s, e := Run(ev[..k]), ev[k];
      forall e | e in ev[..k] ensures e.accept > k { assert e in ev; }
      RunKeepsExact(ev[..k]);
      assert ev[k] in ev;
      match e
      case Execute(id, delay, accept) =>
        EnqueueKeepsTimed(s, id, delay, true);
        ForwardKeepsTimed(Enqueue(s, id, delay), accept, true);
        ForwardAllDue(Enqueue(s, id, delay), accept);
      case CycleStart(accept) =>
        TickKeepsTimed(s, true);
        ForwardKeepsTimed(Tick(s), accept, true);
        ForwardAllDue(Tick(s), accept);
    }
  }

  /** With a next stage that is always ready, every instruction leaves exactly when it has been
      at the front for its delay. */
  lemma DelayIsExact(ev: seq<Event>, i: nat)
    requires AlwaysReady(ev) && i < |Run(ev).departures|
    ensures i < |Run(ev).arrivals|
    ensures Run(ev).departures[i] == FrontSince(Run(ev), i) + Run(ev).arrivals[i].delay
  {
    RunKeepsExact(ev);
    assert ServedOne(Run(ev), i, true);
  }

  // ---------------------------------------------------------------------------
  // Draining
  // ---------------------------------------------------------------------------

  ghost function TotalLeft(q: seq<Delayed>): nat {
    if q == [] then 0 else q[0].cyclesLeft + TotalLeft(q[1..])
  }

  /** `n` cycles in which nothing arrives and the next stage is always ready. */
  ghost function Idle(s: Stage, n: nat): (r: Stage)
  {
    if n == 0 then s else
      var p := Idle(s, n - 1);
      Step(p, CycleStart(|p.queue|))
  }

  lemma {:induction false} ForwardKeepsTotal(s: Stage, accept: nat)
    ensures TotalLeft(Forward(s, accept).queue) == TotalLeft(s.queue)
    decreases accept
  {
    if !FrontIsDue(s) || accept == 0 {
    } else {
      ForwardKeepsTotal(PassOne(s), accept - 1);
    }
  }

  /** One cycle takes one off the total. */
  lemma {:induction false} IdleCountsDown(s: Stage, n: nat)
    requires !FrontIsDue(s) && n <= TotalLeft(s.queue)
    ensures TotalLeft(Idle(s, n).queue) == TotalLeft(s.queue) - n
    ensures !FrontIsDue(Idle(s, n))
  {
    if n == 0 {
    } else {
      IdleCountsDown(s, n - 1);
      var p := Idle(s, n - 1);
      assert p.queue != [];
      assert Tick(p).queue[1..] == p.queue[1..];
      ForwardKeepsTotal(Tick(p), |p.queue|);
      ForwardAllDue(Tick(p), |p.queue|);
    }
  }

  /** The cycle that passes on a front which the next stage had refused counts nothing down. */
  lemma {:induction false} IdleFromDue(s: Stage, n: nat)
    requires FrontIsDue(s)
    ensures var t := Idle(s, 1);
            !FrontIsDue(t) && TotalLeft(t.queue) == TotalLeft(s.queue) && Idle(s, n + 1) == Idle(t, n)
  {
    if n == 0 {
      assert Idle(s, 0) == s;
      ForwardKeepsTotal(Tick(s), |s.queue|);
      ForwardAllDue(Tick(s), |s.queue|);
    } else {
      IdleFromDue(s, n - 1);
    }
  }

  lemma {:induction false} EmptyStays(s: Stage, n: nat)
    requires TotalLeft(s.queue) < n && !FrontIsDue(s)
    ensures Idle(s, n).queue == []
  {
    var p := Idle(s, n - 1);
    if n - 1 == TotalLeft(s.queue) {
      IdleCountsDown(s, n - 1);
    } else {
      EmptyStays(s, n - 1);
    }
    assert Tick(p).queue == [];
  }

  /** With nothing arriving and a next stage that is always ready, the queue of any stage is empty
      after exactly the sum of the remaining delays, and not before; a front that is due already,
      because it was refused, takes one cycle more. */
  lemma DrainsInTotal(s: Stage, n: nat)
    ensures Idle(s, n).queue == [] <==> n >= TotalLeft(s.queue) + if FrontIsDue(s) then 1 else 0
  {
    if !FrontIsDue(s) {
      DrainsFrom(s, n);
    } else if n > 0 {
      IdleFromDue(s, n - 1);
      DrainsFrom(Idle(s, 1), n - 1);
    }
  }

  lemma DrainsFrom(s: Stage, n: nat)
    requires !FrontIsDue(s)
    ensures Idle(s, n).queue == [] <==> n >= TotalLeft(s.queue)
  {
    if n <= TotalLeft(s.queue) {
      IdleCountsDown(s, n);
    } else {
      EmptyStays(s, n);
    }
  }
}
