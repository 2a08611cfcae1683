/** The cache timer: how long an operation waits for its access.  A timer belongs to an
address, so other operations on the address move it. */
module LSUnitTimer {
  import opened Wrappers
  import opened MemoryGroups
  import opened LSUnitSpec
  import opened LSUnitInvariant
  import opened LSUnitSteps
  import opened LSUnitRuns

  predicate Uses(inst: MemInst, addr: nat) { inst.md.Some? && inst.md.value.addr == addr }

  /** The step sets or clears the timer of address `addr`. */
  predicate Touches(s: System, e: Event, addr: nat) {
    match e
    case DispatchE(inst) => Uses(inst, addr)
    case RetireE(i) => i < |s.insts| && Uses(s.insts[i].inst, addr)
    case _ => false
  }

  ghost predicate TouchedAt(cfg: Config, ev: seq<Event>, x: nat, addr: nat) {
    x < |ev| && IsRun(cfg, ev[..x]) && Touches(After(cfg, ev[..x]), ev[x], addr)
  }

  /** The last event of a run that sets or clears the timer of `addr`. */
  ghost function LastTouch(cfg: Config, ev: seq<Event>, addr: nat): (x: Option<nat>)
    requires IsRun(cfg, ev)
    ensures x.Some? ==> x.value < |ev|
  {
    if ev == [] then None else
      var n := |ev| - 1;
      if Touches(After(cfg, ev[..n]), ev[n], addr) then Some(n) else LastTouch(cfg, ev[..n], addr)
  }

  lemma {:induction false} LastTouchIsLast(cfg: Config, ev: seq<Event>, addr: nat)
    requires IsRun(cfg, ev)
    ensures var x := LastTouch(cfg, ev, addr);
            && (x.Some? ==> TouchedAt(cfg, ev, x.value, addr))
            && forall y: nat | TouchedAt(cfg, ev, y, addr) :: x.Some? && y <= x.value
  {
    hide Touches, Step, Enabled, LookupsSucceed;
    if ev == [] {
    } else {
      var n := |ev| - 1;
      LastTouchIsLast(cfg, ev[..n], addr);
      forall y: nat | y < n ensures TouchedAt(cfg, ev, y, addr) == TouchedAt(cfg, ev[..n], y, addr) {
        assert ev[..n][..y] == ev[..y];
      }
    }
  }

  // ---------------------------------------------------------------------------
  // What a timer says
  // ---------------------------------------------------------------------------

  lemma StepMovesTimer(s: System, e: Event, addr: nat)
    requires LookupsSucceed(s, e) && s.u.cfg.hasCache
    ensures var o, o' := s.u.ongoing, Step(s, e).u.ongoing;
            && (!Touches(s, e, addr) ==> (addr in o' <==> addr in o) && (addr in o' ==> o'[addr] == o[addr]))
            && (Touches(s, e, addr) && !e.DispatchE? ==> addr !in o')
            && (Touches(s, e, addr) && e.DispatchE? ==> addr in o' && o'[addr] == s.u.clock + e.inst.latency)
  {
    hide StoreGroups, LoadGroups, IssueOne, ExecuteOne;
  }

  /** The timer of `addr` is set exactly if the last event that touched it was a dispatch, and
      then to the cycle of that dispatch plus the latency of its access. */
  lemma {:induction false} TimerIsOfLastDispatch(cfg: Config, ev: seq<Event>, addr: nat)
    requires IsRun(cfg, ev) && cfg.hasCache
    ensures var x, u := LastTouch(cfg, ev, addr), After(cfg, ev).u;
            && (addr in u.ongoing <==> x.Some? && ev[x.value].DispatchE?)
            && (addr in u.ongoing ==> IsRun(cfg, ev[..x.value])
                                      && u.ongoing[addr] == After(cfg, ev[..x.value]).u.clock + ev[x.value].inst.latency)
  {
    hide Touches, Step, Enabled, LookupsSucceed;
    if ev == [] {
    } else {
      var n := |ev| - 1;
      TimerIsOfLastDispatch(cfg, ev[..n], addr);
      assert ev[..|ev|] == ev;
      Extend(cfg, ev, n);
      ConfigStays(cfg, ev[..n]);
      StepMovesTimer(After(cfg, ev[..n]), ev[n], addr);
      var x := LastTouch(cfg, ev[..n], addr);
      if x.Some? { assert ev[..n][..x.value] == ev[..x.value]; }
    }
  }

  lemma StepKeepsClock(s: System, e: Event)
    requires LookupsSucceed(s, e)
    ensures Step(s, e).u.clock >= s.u.clock
  {
    hide StoreGroups, LoadGroups, IssueOne, ExecuteOne, AddInstruction;
  }

  lemma {:induction false} ClockGrows(cfg: Config, ev: seq<Event>, x: nat)
    requires IsRun(cfg, ev) && x <= |ev|
    ensures IsRun(cfg, ev[..x]) && After(cfg, ev[..x]).u.clock <= After(cfg, ev).u.clock
  {
    hide Step, Enabled, LookupsSucceed;
    PrefixIsRun(cfg, ev, x);
    if x == |ev| {
      assert ev[..x] == ev;
    } else {
      var n := |ev| - 1;
      assert ev[..n][..x] == ev[..x];
      ClockGrows(cfg, ev[..n], x);
      StepKeepsClock(After(cfg, ev[..n]), ev[n]);
    }
  }

  /** Cycles since event `x` of a run. */
  ghost function Since(cfg: Config, ev: seq<Event>, x: nat): int
    requires IsRun(cfg, ev) && x <= |ev|
  {
    PrefixIsRun(cfg, ev, x);
    After(cfg, ev).u.clock - After(cfg, ev[..x]).u.clock
  }

  /** Cycles that the access of the dispatch of event `x` still takes; not positive when it is done. */
  ghost function Left(cfg: Config, ev: seq<Event>, x: nat): int
    requires IsRun(cfg, ev) && x < |ev| && ev[x].DispatchE?
  {
    ev[x].inst.latency - Since(cfg, ev, x)
  }

  /** The exact condition, in every reachable state and for every latency: an operation waits
      for the cache if and only if the last event that touched its address is a dispatch with
      cycles left, as far as an `int` can tell. */
  lemma WaitsForCacheIff(cfg: Config, ev: seq<Event>, inst: MemInst)
    requires IsRun(cfg, ev) && cfg.hasCache && inst.md.Some?
    ensures var x := LastTouch(cfg, ev, inst.md.value.addr);
            After(cfg, ev).u.WaitingForCache(inst) <==> x.Some? && ev[x.value].DispatchE? && ToInt(Left(cfg, ev, x.value)) > 0
  {
    hide ToInt, LastTouch, IsRun, After;
    var x, u := LastTouch(cfg, ev, inst.md.value.addr), After(cfg, ev).u;
    TimerIsOfLastDispatch(cfg, ev, inst.md.value.addr);
    ConfigStays(cfg, ev);
    if x.Some? && ev[x.value].DispatchE? {
      assert u.ongoing[inst.md.value.addr] - u.clock == Left(cfg, ev, x.value);
    }
  }

  /** Accesses and clocks for which the remaining cycles fit an `int`. */
  ghost predicate Short(cfg: Config, ev: seq<Event>)
    requires IsRun(cfg, ev)
  {
    After(cfg, ev).u.clock < 0x8000_0000 && forall e | e in ev && e.DispatchE? :: e.inst.latency < 0x8000_0000
  }

  /** For these an operation waits if and only if the last event that touched its address is a
      dispatch whose access is not done. */
  lemma ShortWaitsIff(cfg: Config, ev: seq<Event>, inst: MemInst)
    requires IsRun(cfg, ev) && cfg.hasCache && inst.md.Some? && Short(cfg, ev)
    ensures var x := LastTouch(cfg, ev, inst.md.value.addr);
            After(cfg, ev).u.WaitingForCache(inst) <==> x.Some? && ev[x.value].DispatchE? && Left(cfg, ev, x.value) > 0
  {
    hide LastTouch, IsRun, After;
    var x := LastTouch(cfg, ev, inst.md.value.addr);
    WaitsForCacheIff(cfg, ev, inst);
    if x.Some? && ev[x.value].DispatchE? {
      ClockGrows(cfg, ev, x.value);
      assert ev[x.value] in ev;
    }
  }

  // ---------------------------------------------------------------------------
  // When an operation issues before its access is done
  // ---------------------------------------------------------------------------

  /** The timer of an unfinished access is overtaken: the last to touch it since was a
      retirement, or the dispatch of an access that is done. */
  ghost predicate Overtaken(cfg: Config, ev: seq<Event>, m: nat, addr: nat)
    requires IsRun(cfg, ev)
  {
    var x := LastTouch(cfg, ev, addr);
    x.Some? && m < x.value && (ev[x.value].DispatchE? ==> Left(cfg, ev, x.value) <= 0)
  }

  /** The exact condition under which an operation may issue before its access is done: its
      group is ready, and its timer has been overtaken. */
  lemma MayIssueEarlyIff(cfg: Config, ev: seq<Event>, m: nat, j: nat)
    requires IsRun(cfg, ev) && cfg.hasCache && Short(cfg, ev)
    requires m < |ev| && ev[m].DispatchE? && ev[m].inst.md.Some? && Left(cfg, ev, m) > 0
    requires IsRun(cfg, ev[..m]) && j == |After(cfg, ev[..m]).insts|
    ensures j < |After(cfg, ev).insts|
    ensures var s := After(cfg, ev);
            Enabled(s, IssueE(j)) <==> && s.insts[j].phase == Dispatched
                                       && s.insts[j].token in s.u.groups && s.u.groups[s.insts[j].token].IsReady()
                                       && Overtaken(cfg, ev, m, ev[m].inst.md.value.addr)
  {
    hide LastTouch, IsRun, After;
    DispatchedAs(cfg, ev, m, j);
    ShortWaitsIff(cfg, ev, ev[m].inst);
    LastTouchIsLast(cfg, ev, ev[m].inst.md.value.addr);
    assert TouchedAt(cfg, ev, m, ev[m].inst.md.value.addr);
  }

  ghost predicate UntouchedBetween(cfg: Config, ev: seq<Event>, m: nat, k: nat, addr: nat)
    requires IsRun(cfg, ev) && k <= |ev|
  {
    forall x: nat {:trigger TouchedAt(cfg, ev, x, addr)} | m < x < k :: !TouchedAt(cfg, ev, x, addr)
  }

  /** So no operation issues before its access is done, unless another one on the address is
      dispatched or retires in between. */
  lemma AccessTakesItsTime(cfg: Config, ev: seq<Event>, m: nat, k: nat)
    requires IsRun(cfg, ev) && m < k < |ev| && IsRun(cfg, ev[..m]) && cfg.hasCache
    requires ev[m].DispatchE? && ev[m].inst.md.Some? && UntouchedBetween(cfg, ev, m, k, ev[m].inst.md.value.addr)
    requires ev[k] == IssueE(|After(cfg, ev[..m]).insts|) && ev[m].inst.latency < 0x8000_0000
    ensures IsRun(cfg, ev[..k]) && After(cfg, ev[..k]).u.clock >= After(cfg, ev[..m]).u.clock + ev[m].inst.latency
  {
    hide LastTouch, IsRun, After;
    var addr, before := ev[m].inst.md.value.addr, ev[..k];
    Extend(cfg, ev, k);
    assert before[..m] == ev[..m];
    DispatchedAs(cfg, before, m, |After(cfg, ev[..m]).insts|);
    LastTouchIsLast(cfg, before, addr);
    assert TouchedAt(cfg, before, m, addr);
    var x := LastTouch(cfg, before, addr).value;
    assert before[..x] == ev[..x];
    assert TouchedAt(cfg, ev, x, addr);
    ClockGrows(cfg, before, m);
    WaitsForCacheIff(cfg, before, ev[m].inst);
  }

  // ---------------------------------------------------------------------------
  // Runs in which an operation issues early
  // ---------------------------------------------------------------------------

  ghost predicate PlainLoadAt(inst: MemInst, addr: nat) {
    inst.mayLoad && !inst.mayStore && !inst.isLoadBarrier && !inst.isStoreBarrier && Uses(inst, addr) && !inst.md.value.isStore
  }

  ghost predicate PlainStoreAt(inst: MemInst, addr: nat) {
    !inst.mayLoad && inst.mayStore && !inst.isLoadBarrier && !inst.isStoreBarrier && Uses(inst, addr)
  }

  /** One operation has been dispatched into the empty unit. */
  ghost predicate First(s: System, cfg: Config, inst: MemInst) {
    && s.u == Dispatch(InitialLSU(cfg), inst).0 && s.insts == [InFlight(inst, 1, Dispatched, false)]
  }

  lemma OneDispatched(cfg: Config, inst: MemInst)
    requires inst.IsMemOp()
    ensures IsRun(cfg, [DispatchE(inst)]) && First(After(cfg, [DispatchE(inst)]), cfg, inst)
  {
    hide Dispatch;
    assert [DispatchE(inst)][..0] == [];
    assert IsRun(cfg, []) && After(cfg, []) == Initial(cfg);
    DispatchToken(cfg, inst);
    assert [] + [InFlight(inst, 1, Dispatched, false)] == [InFlight(inst, 1, Dispatched, false)];
  }

  lemma DispatchToken(cfg: Config, inst: MemInst)
    ensures InitialLSU(cfg).CursorsLive() && InitialLSU(cfg).IdsBelowNext() && Dispatch(InitialLSU(cfg), inst).1 == 1
  {
    hide StoreGroups, LoadGroups;
  }

  /** What a plain load leaves of the empty unit. */
  lemma FirstLoad(cfg: Config, inst: MemInst, addr: nat)
    requires cfg.hasCache && PlainLoadAt(inst, addr)
    ensures InitialLSU(cfg).CursorsLive() && InitialLSU(cfg).IdsBelowNext()
    ensures Dispatch(InitialLSU(cfg), inst).0
         == InitialLSU(cfg).(groups := map[1 := SINGLETON], nextGroupID := 2, curLoad := 1, usedLQ := 1,
                             ongoing := map[addr := inst.latency])
  {
    LinkFromNone(map[1 := SINGLETON], 1, true);
  }

  /** The exact condition for a load alone in the unit: it may issue after `n` cycles if and
      only if its access is done then, or 2^31 or more cycles are left. */
  lemma LoneLoadIssuesIff(cfg: Config, inst: MemInst, addr: nat, n: nat)
    requires cfg.hasCache && PlainLoadAt(inst, addr) && n < 0x8000_0000 && inst.latency < 0x1_0000_0000
    ensures IsRun(cfg, [DispatchE(inst)] + Cycles(n) + [IssueE(0)]) <==> inst.latency <= n || inst.latency - n >= 0x8000_0000
  {
    hide IsRun, After, Step;
    var ev := [DispatchE(inst)] + Cycles(n);
    OneDispatched(cfg, inst);
    FirstLoad(cfg, inst, addr);
    CyclesRun(cfg, [DispatchE(inst)], n);
    assert Enabled(After(cfg, ev), IssueE(0)) <==> !(ToInt(inst.latency - n) > 0);
    if Enabled(After(cfg, ev), IssueE(0)) {
      RunNeverStops(cfg, ev, IssueE(0));
    } else if IsRun(cfg, ev + [IssueE(0)]) {
      assert (ev + [IssueE(0)])[..|ev|] == ev;
      Extend(cfg, ev + [IssueE(0)], |ev|);
      assert false;
    }
  }

  /** A retirement overtakes: a load that retires after a second load of the same address has
      been dispatched clears the timer of the second, which may issue in the same cycle,
      whatever its access costs. */
  lemma RetirementClearsTimer(cfg: Config, first: MemInst, second: MemInst, addr: nat)
    requires cfg.hasCache && PlainLoadAt(first, addr) && PlainLoadAt(second, addr) && cfg.lqSize != 1
    ensures var dispatched := [DispatchE(first)] + Cycles(first.latency) + [IssueE(0), ExecuteE(0), DispatchE(second)];
            && IsRun(cfg, dispatched) && After(cfg, dispatched).u.clock == first.latency
            && IsRun(cfg, dispatched + [RetireE(0), IssueE(1)])
            && After(cfg, dispatched + [RetireE(0), IssueE(1)]).u.clock == first.latency
  {
    hide IsRun, After, Step, Enabled;
    var ev := [DispatchE(first)] + Cycles(first.latency);
    OneDispatched(cfg, first);
    FirstLoad(cfg, first, addr);
    CyclesRun(cfg, [DispatchE(first)], first.latency);
    IssueFirst(After(cfg, ev), cfg, first, addr);
    RunNeverStops(cfg, ev, IssueE(0));
    SecondStates(Step(After(cfg, ev), IssueE(0)), cfg, first, second, addr);
    RunNeverStops(cfg, ev + [IssueE(0)], ExecuteE(0));
    RunNeverStops(cfg, ev + [IssueE(0)] + [ExecuteE(0)], DispatchE(second));
    var dispatched := ev + [IssueE(0)] + [ExecuteE(0)] + [DispatchE(second)];
    RunNeverStops(cfg, dispatched, RetireE(0));
    RunNeverStops(cfg, dispatched + [RetireE(0)], IssueE(1));
    assert dispatched == ev + [IssueE(0), ExecuteE(0), DispatchE(second)];
    assert dispatched + [RetireE(0)] + [IssueE(1)] == dispatched + [RetireE(0), IssueE(1)];
  }

  /** One load, alone in the unit, is waiting to issue or has issued. */
  ghost predicate Alone(s: System, cfg: Config, inst: MemInst, addr: nat, phase: Phase) {
    && s.u.cfg == cfg && s.insts == [InFlight(inst, 1, phase, false)]
    && s.u.groups.Keys == {1} && s.u.groups[1].numInstructions == 1 && s.u.groups[1].numExecuted == 0
    && s.u.groups[1].numExecuting == (if phase == Issued then 1 else 0) && s.u.groups[1].IsReady()
    && (phase == Dispatched ==> s.u.groups[1].dataSucc == s.u.groups[1].orderSucc == [])
    && s.u.curLoad == 1 && s.u.curLoadBarrier == s.u.curStore == s.u.curStoreBarrier == 0 && s.u.nextGroupID == 2
    && s.u.usedLQ == 1 && s.u.usedSQ == 0
    && s.u.ongoing == map[addr := inst.latency] && s.u.clock == inst.latency
  }

  lemma IssueAlone(gs: Groups)
    requires gs.Keys == {1} && gs[1].numInstructions == 1 && gs[1].numExecuting == gs[1].numExecuted == 0 && gs[1].IsReady()
    requires 1 !in gs[1].dataSucc && 1 !in gs[1].orderSucc
    ensures IssueOne(gs, 1).Keys == {1} && IssueOne(gs, 1)[1].numInstructions == 1 && IssueOne(gs, 1)[1].numExecuting == 1
    ensures IssueOne(gs, 1)[1].numExecuted == 0 && IssueOne(gs, 1)[1].IsReady()
  {
    MultisetMember(gs[1].orderSucc, 1);
    MultisetMember(gs[1].dataSucc, 1);
  }

  lemma IssueFirst(s: System, cfg: Config, inst: MemInst, addr: nat)
    requires cfg.hasCache && Uses(inst, addr) && Alone(s, cfg, inst, addr, Dispatched)
    ensures Enabled(s, IssueE(0)) && LookupsSucceed(s, IssueE(0)) && Alone(Step(s, IssueE(0)), cfg, inst, addr, Issued)
  {
    hide IssueOne;
    IssueAlone(s.u.groups);
  }

  lemma SecondStates(s: System, cfg: Config, first: MemInst, second: MemInst, addr: nat)
    requires cfg.hasCache && cfg.lqSize != 1
    requires Alone(s, cfg, first, addr, Issued) && PlainLoadAt(first, addr) && PlainLoadAt(second, addr)
    ensures Enabled(s, ExecuteE(0)) && LookupsSucceed(s, ExecuteE(0))
    ensures var s3 := Step(s, ExecuteE(0));
            && Enabled(s3, DispatchE(second)) && LookupsSucceed(s3, DispatchE(second))
            && var s4 := Step(s3, DispatchE(second));
               && Enabled(s4, RetireE(0)) && LookupsSucceed(s4, RetireE(0)) && s4.u.clock == first.latency
               && var s5 := Step(s4, RetireE(0));
                  && Enabled(s5, IssueE(1)) && LookupsSucceed(s5, IssueE(1)) && Step(s5, IssueE(1)).u.clock == first.latency
  {
    var s3 := Step(s, ExecuteE(0));
    assert s3.u.groups == map[];
    var s4 := Step(s3, DispatchE(second));
    assert s4.u.groups == map[2 := SINGLETON];
  }

  /** A dispatch overtakes: a load whose access takes `load.latency` cycles lets an older store to
      the same address issue after these, which is early if the access of the store takes longer. */
  lemma DispatchShortensTimer(cfg: Config, store: MemInst, load: MemInst, addr: nat)
    requires cfg.hasCache && PlainStoreAt(store, addr) && PlainLoadAt(load, addr)
    ensures var ev := [DispatchE(store), DispatchE(load)] + Cycles(load.latency) + [IssueE(0)];
            IsRun(cfg, ev) && After(cfg, ev).u.clock == load.latency
  {
    hide IsRun, After, Step;
    var ev := [DispatchE(store), DispatchE(load)];
    TwoStates(cfg, store, load, addr);
    TwoEventRun(cfg, DispatchE(store), DispatchE(load));
    CyclesRun(cfg, ev, load.latency);
    var s := After(cfg, ev + Cycles(load.latency));
    assert Enabled(s, IssueE(0));
    RunNeverStops(cfg, ev + Cycles(load.latency), IssueE(0));
    IssueKeepsClock(s);
  }

  lemma IssueKeepsClock(s: System)
    requires LookupsSucceed(s, IssueE(0))
    ensures Step(s, IssueE(0)).u.clock == s.u.clock
  {
  }

  lemma TwoStates(cfg: Config, store: MemInst, load: MemInst, addr: nat)
    requires cfg.hasCache && PlainStoreAt(store, addr) && PlainLoadAt(load, addr)
    ensures Enabled(Initial(cfg), DispatchE(store)) && LookupsSucceed(Initial(cfg), DispatchE(store))
    ensures var s1 := Step(Initial(cfg), DispatchE(store));
            && Enabled(s1, DispatchE(load)) && LookupsSucceed(s1, DispatchE(load))
            && var s2 := Step(s1, DispatchE(load));
               && |s2.insts| == 2 && s2.insts[0] == InFlight(store, 1, Dispatched, false)
               && 1 in s2.u.groups && s2.u.groups[1].IsReady() && s2.u.clock == 0
               && addr in s2.u.ongoing && s2.u.ongoing[addr] == load.latency
  {
    var s1 := Step(Initial(cfg), DispatchE(store));
    LinkFromNone(map[1 := SINGLETON], 1, true);
    LinkFromNone(map[1 := SINGLETON], 1, false);
    assert s1.u.groups == map[1 := SINGLETON];
  }
}
