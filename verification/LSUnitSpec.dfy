/** The load/store unit as a transition system.

`LSU` is the state of the unit itself.  `System` adds what the instructions in flight
carry (token and phase), and a step relation over the unit's five entry points: dispatch,
issue, execute, retire and the cycle event.  The alias answer for a group is an input of
the dispatch, because the ordered container that the unit queries is keyed by a comparison
that is no strict weak order. */
module LSUnitSpec {
  import opened Wrappers
  import opened MemoryGroups

  datatype MemAccess = MemAccess(isStore: bool, addr: nat, size: nat)

  /** A memory instruction as the unit sees it.  `aliased` holds the ids of the groups for
      which the alias query answers yes; `latency` is the cache's answer to the access. */
  datatype MemInst = MemInst(
    mayLoad: bool, mayStore: bool, isLoadBarrier: bool, isStoreBarrier: bool,
    md: Option<MemAccess>, aliased: set<nat>, latency: nat)
  {
    predicate IsMemOp() { mayLoad || mayStore }

    predicate IsStore() {
      if md.Some? then md.value.isStore || mayStore else mayStore
    }
  }

  /** What a 32-bit `int` makes of `x`. */
  function ToInt(x: int): int {
    (x + 0x8000_0000) % 0x1_0000_0000 - 0x8000_0000
  }

  datatype Config = Config(assumeNoAlias: bool, lqSize: nat, sqSize: nat, hasCache: bool)

  datatype LSU = LSU(
    cfg: Config,
    curLoad: nat, curLoadBarrier: nat, curStore: nat, curStoreBarrier: nat,
    groups: Groups, nextGroupID: nat,
    usedLQ: int, usedSQ: int,
    clock: nat, ongoing: map<nat, nat>)
  {
    function LoadDominator(): nat { Max(curLoad, curLoadBarrier) }

    predicate NoAlias(gid: nat, inst: MemInst) {
      if inst.md.Some? then gid !in inst.aliased else cfg.assumeNoAlias
    }

    predicate WaitingForCache(inst: MemInst) {
      inst.md.Some? && cfg.hasCache && inst.md.value.addr in ongoing &&
      ToInt(ongoing[inst.md.value.addr] - clock) > 0
    }

    predicate IsAvailable(inst: MemInst) {
      && !(inst.mayLoad && cfg.lqSize != 0 && cfg.lqSize == usedLQ)
      && !(inst.IsStore() && cfg.sqSize != 0 && cfg.sqSize == usedSQ)
    }

    /** Every cursor is 0 or names a live group. */
    predicate CursorsLive() {
      && (curLoad != 0 ==> curLoad in groups)
      && (curLoadBarrier != 0 ==> curLoadBarrier in groups)
      && (curStore != 0 ==> curStore in groups)
      && (curStoreBarrier != 0 ==> curStoreBarrier in groups)
    }

    predicate IdsBelowNext() {
      1 <= nextGroupID && forall g | g in groups :: 1 <= g < nextGroupID
    }
  }

  function InitialLSU(cfg: Config): LSU {
    LSU(cfg, 0, 0, 0, 0, map[], 1, 0, 0, 0, map[])
  }

  // ---------------------------------------------------------------------------
  // dispatch
  // ---------------------------------------------------------------------------

  /** Cache timer and queue slots, done before the instruction is assigned to a group. */
  function Acquire(u: LSU, inst: MemInst): LSU {
    u.(ongoing := if u.cfg.hasCache && inst.md.Some?
                  then u.ongoing[inst.md.value.addr := u.clock + inst.latency] else u.ongoing,
       usedLQ := u.usedLQ + if inst.mayLoad then 1 else 0,
       usedSQ := u.usedSQ + if inst.IsStore() then 1 else 0)
  }

  function StoreGroups(u: LSU, inst: MemInst): Groups
    requires u.CursorsLive() && u.IdsBelowNext()
  {
    var n := u.nextGroupID;
    var d := u.LoadDominator();
    var gs0 := u.groups[n := SINGLETON];
    var gs1 := Link(gs0, d, n, !u.NoAlias(d, inst));
    var gs2 := Link(gs1, u.curStoreBarrier, n, true);
    Link(gs2, if u.curStore != u.curStoreBarrier then u.curStore else 0, n, !u.NoAlias(u.curStore, inst))
  }

  function DispatchStore(u: LSU, inst: MemInst): LSU
    requires u.CursorsLive() && u.IdsBelowNext()
  {
    var n := u.nextGroupID;
    u.(groups := StoreGroups(u, inst),
       nextGroupID := n + 1,
       curStore := n,
       curStoreBarrier := if inst.isStoreBarrier then n else u.curStoreBarrier,
       curLoad := if inst.mayLoad then n else u.curLoad,
       curLoadBarrier := if inst.mayLoad && inst.isLoadBarrier then n else u.curLoadBarrier)
  }

  predicate NeedsNewLoadGroup(u: LSU, inst: MemInst)
    requires u.CursorsLive()
  {
    var d := u.LoadDominator();
    inst.isLoadBarrier || d == 0 || u.curLoadBarrier == d || d <= u.curStore || u.groups[d].IsExecuting()
  }

  function LoadGroups(u: LSU, inst: MemInst): Groups
    requires u.CursorsLive() && u.IdsBelowNext()
  {
    var n := u.nextGroupID;
    var gs0 := u.groups[n := SINGLETON];
    var gs1 := Link(gs0, if u.NoAlias(u.curStore, inst) then 0 else u.curStore, n, true);
    Link(gs1, if inst.isLoadBarrier then u.LoadDominator() else u.curLoadBarrier, n, true)
  }

  function DispatchNewLoad(u: LSU, inst: MemInst): LSU
    requires u.CursorsLive() && u.IdsBelowNext()
  {
    var n := u.nextGroupID;
    u.(groups := LoadGroups(u, inst),
       nextGroupID := n + 1,
       curLoad := n,
       curLoadBarrier := if inst.isLoadBarrier then n else u.curLoadBarrier)
  }

  function JoinLoad(u: LSU): LSU
    requires u.curLoad in u.groups
  {
    u.(groups := AddInstruction(u.groups, u.curLoad))
  }

  /** The unit after a dispatch, and the token it hands to the instruction. */
  function Dispatch(u: LSU, inst: MemInst): (LSU, nat)
    requires u.CursorsLive() && u.IdsBelowNext()
  {
    var a := Acquire(u, inst);
    if inst.IsStore() then (DispatchStore(a, inst), u.nextGroupID)
    else if NeedsNewLoadGroup(a, inst) then (DispatchNewLoad(a, inst), u.nextGroupID)
    else (JoinLoad(a), u.curLoad)
  }

  // ---------------------------------------------------------------------------
  // the other entry points
  // ---------------------------------------------------------------------------

  function Issue(u: LSU, token: nat): LSU
    requires token in u.groups
  {
    u.(groups := IssueOne(u.groups, token))
  }

  function Execute(u: LSU, token: nat): LSU
    requires token in u.groups
  {
    var gs := ExecuteOne(u.groups, token);
    if token in gs then u.(groups := gs) else
      u.(groups := gs,
         curLoad := if u.curLoad == token then 0 else u.curLoad,
         curStore := if u.curStore == token then 0 else u.curStore,
         curLoadBarrier := if u.curLoadBarrier == token then 0 else u.curLoadBarrier,
         curStoreBarrier := if u.curStoreBarrier == token then 0 else u.curStoreBarrier)
  }

  function Retire(u: LSU, inst: MemInst): LSU {
    u.(ongoing := if u.cfg.hasCache && inst.md.Some? then u.ongoing - {inst.md.value.addr} else u.ongoing,
       usedLQ := u.usedLQ - if inst.mayLoad then 1 else 0,
       usedSQ := u.usedSQ - if inst.IsStore() then 1 else 0)
  }

  function Cycle(u: LSU): LSU { u.(clock := u.clock + 1) }

  // ---------------------------------------------------------------------------
  // Runs
  // ---------------------------------------------------------------------------

  datatype Phase = Dispatched | Issued | Executed

  datatype InFlight = InFlight(inst: MemInst, token: nat, phase: Phase, retired: bool)

  datatype Event = DispatchE(inst: MemInst) | IssueE(i: nat) | ExecuteE(i: nat) | RetireE(i: nat) | CycleE

  /** The unit and the instructions dispatched so far, in dispatch order.  `stores` and
      `barriers` record the ids given to stores and to store barriers. */
  datatype System = System(u: LSU, insts: seq<InFlight>, stores: set<nat>, barriers: set<nat>)

  predicate IsReady(s: System, i: nat)
    requires i < |s.insts|
  {
    var f := s.insts[i];
    f.token in s.u.groups && s.u.groups[f.token].IsReady() && !s.u.WaitingForCache(f.inst)
  }

  /** What the pipeline may do next: it dispatches memory operations when a queue slot is
      available, issues ready instructions, and executes and retires in that order. */
  predicate Enabled(s: System, e: Event) {
    match e
    case DispatchE(inst) => inst.IsMemOp() && s.u.IsAvailable(inst)
    case IssueE(i) => i < |s.insts| && s.insts[i].phase == Dispatched && IsReady(s, i)
    case ExecuteE(i) => i < |s.insts| && s.insts[i].phase == Issued
    case RetireE(i) => i < |s.insts| && s.insts[i].phase == Executed && !s.insts[i].retired
    case CycleE => true
  }

  /** The lookups that the unit guards by assertions: what each entry point dereferences is there. */
  predicate LookupsSucceed(s: System, e: Event) {
    match e
    case DispatchE(_) => s.u.CursorsLive() && s.u.IdsBelowNext()
    case IssueE(i) => i < |s.insts| && s.insts[i].token in s.u.groups
    case ExecuteE(i) => i < |s.insts| && s.insts[i].token in s.u.groups
    case RetireE(i) => i < |s.insts|
    case CycleE => true
  }

  function Step(s: System, e: Event): System
    requires LookupsSucceed(s, e)
  {
    match e
    case DispatchE(inst) =>
      var (u, token) := Dispatch(s.u, inst);
      System(u, s.insts + [InFlight(inst, token, Dispatched, false)],
             if inst.IsStore() then s.stores + {token} else s.stores,
             if inst.IsStore() && inst.isStoreBarrier then s.barriers + {token} else s.barriers)
    case IssueE(i) =>
      s.(u := Issue(s.u, s.insts[i].token), insts := s.insts[i := s.insts[i].(phase := Issued)])
    case ExecuteE(i) =>
      s.(u := Execute(s.u, s.insts[i].token), insts := s.insts[i := s.insts[i].(phase := Executed)])
    case RetireE(i) =>
      s.(u := Retire(s.u, s.insts[i].inst), insts := s.insts[i := s.insts[i].(retired := true)])
    case CycleE => s.(u := Cycle(s.u))
  }
}
