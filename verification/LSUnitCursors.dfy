/** What the cursors and the slot counters mean, in terms of the instructions dispatched. */
module LSUnitCursors {
  import opened MemoryGroups
  import opened LSUnitSpec
  import opened LSUnitInvariant
  import opened LSUnitSteps
  import opened LSUnitRuns
  import opened LSUnitWaits

  /** An instruction takes the part of a store if it may store, or if its metadata says that it does. */
  predicate ActsAsStore(inst: MemInst) {
    inst.mayStore || (inst.md.Some? && inst.md.value.isStore)
  }

  ghost function Loads(): InFlight -> bool { (f: InFlight) => f.inst.mayLoad }

  ghost function LoadBarriers(): InFlight -> bool { (f: InFlight) => f.inst.mayLoad && f.inst.isLoadBarrier }

  ghost function Stores(): InFlight -> bool { (f: InFlight) => ActsAsStore(f.inst) }

  ghost function StoreBarriers(): InFlight -> bool { (f: InFlight) => ActsAsStore(f.inst) && f.inst.isStoreBarrier }

  /** The group of the last instruction of kind `p`; 0 if there is none. */
  ghost function LastOf(insts: seq<InFlight>, p: InFlight -> bool): nat {
    if insts == [] then 0 else
      var f := insts[|insts| - 1];
      if p(f) then f.token else LastOf(insts[..|insts| - 1], p)
  }

  /** A cursor names the group of the last instruction of kind `p` while that group lives. */
  ghost predicate Names(cursor: nat, insts: seq<InFlight>, p: InFlight -> bool, gs: Groups) {
    cursor == if LastOf(insts, p) in gs then LastOf(insts, p) else 0
  }

  ghost predicate CursorsName(s: System) {
    && Names(s.u.curLoad, s.insts, Loads(), s.u.groups)
    && Names(s.u.curLoadBarrier, s.insts, LoadBarriers(), s.u.groups)
    && Names(s.u.curStore, s.insts, Stores(), s.u.groups)
    && Names(s.u.curStoreBarrier, s.insts, StoreBarriers(), s.u.groups)
  }

  lemma {:induction false} LastOfBelow(s: System, p: InFlight -> bool, n: nat)
    requires Inv(s) && n <= |s.insts|
    ensures LastOf(s.insts[..n], p) < s.u.nextGroupID
  {
    if n == 0 {
      assert s.u.IdsBelowNext();
    } else {
      LastOfBelow(s, p, n - 1);
      assert s.insts[..n][..n - 1] == s.insts[..n - 1];
      assert InstOk(s, n - 1);
    }
  }

  lemma {:induction false} LastOfSame(insts: seq<InFlight>, insts': seq<InFlight>, p: InFlight -> bool)
    requires |insts'| == |insts|
    requires forall i: nat | i < |insts| :: insts'[i].token == insts[i].token && p(insts'[i]) == p(insts[i])
    ensures LastOf(insts', p) == LastOf(insts, p)
  {
    if insts == [] {
    } else {
      LastOfSame(insts[..|insts| - 1], insts'[..|insts| - 1], p);
    }
  }

  lemma LastOfAppend(insts: seq<InFlight>, f: InFlight, p: InFlight -> bool)
    ensures LastOf(insts + [f], p) == if p(f) then f.token else LastOf(insts, p)
  {
    assert (insts + [f])[..|insts|] == insts;
  }

  /** A dispatch moves a cursor to the group of the instruction, or leaves it. */
  lemma NamesAfterDispatch(s: System, s': System, cursor: nat, cursor': nat, p: InFlight -> bool)
    requires Inv(s) && Names(cursor, s.insts, p, s.u.groups) && |s'.insts| == |s.insts| + 1
    requires s'.insts == s.insts + [s'.insts[|s.insts|]]
    requires var f := s'.insts[|s.insts|];
             && s'.u.groups.Keys == s.u.groups.Keys + {f.token}
             && (f.token in s.u.groups || f.token == s.u.nextGroupID)
             && cursor' == if p(f) then f.token else cursor
    ensures Names(cursor', s'.insts, p, s'.u.groups)
  {
    LastOfAppend(s.insts, s'.insts[|s.insts|], p);
    assert s.insts[..|s.insts|] == s.insts;
    LastOfBelow(s, p, |s.insts|);
  }

  lemma DispatchMoves(s: System, inst: MemInst)
    requires Inv(s) && inst.IsMemOp()
    ensures LookupsSucceed(s, DispatchE(inst))
    ensures var s' := Step(s, DispatchE(inst));
            && |s'.insts| == |s.insts| + 1
            && var f := s'.insts[|s.insts|];
               && s'.insts == s.insts + [f]
               && s'.u.curLoad == (if Loads()(f) then f.token else s.u.curLoad)
               && s'.u.curLoadBarrier == (if LoadBarriers()(f) then f.token else s.u.curLoadBarrier)
               && s'.u.curStore == (if Stores()(f) then f.token else s.u.curStore)
               && s'.u.curStoreBarrier == (if StoreBarriers()(f) then f.token else s.u.curStoreBarrier)
  {
    hide StoreGroups, LoadGroups, AddInstruction, InstInv, QueueInv, GraphInv;
  }

  lemma DispatchKeepsNames(s: System, inst: MemInst)
    requires Inv(s) && CursorsName(s) && Enabled(s, DispatchE(inst))
    ensures LookupsSucceed(s, DispatchE(inst)) && CursorsName(Step(s, DispatchE(inst)))
  {
    hide Names, Inv, Step, Loads, LoadBarriers, Stores, StoreBarriers;
    DispatchMoves(s, inst);
    var s' := Step(s, DispatchE(inst));
    DispatchKeys(s, inst);
    NamesAfterDispatch(s, s', s.u.curLoad, s'.u.curLoad, Loads());
    NamesAfterDispatch(s, s', s.u.curLoadBarrier, s'.u.curLoadBarrier, LoadBarriers());
    NamesAfterDispatch(s, s', s.u.curStore, s'.u.curStore, Stores());
    NamesAfterDispatch(s, s', s.u.curStoreBarrier, s'.u.curStoreBarrier, StoreBarriers());
  }

  lemma DispatchKeys(s: System, inst: MemInst)
    requires Inv(s) && LookupsSucceed(s, DispatchE(inst))
    ensures var s' := Step(s, DispatchE(inst));
            && |s'.insts| == |s.insts| + 1
            && var f := s'.insts[|s.insts|];
               && f == InFlight(inst, f.token, Dispatched, false)
               && s'.u.groups.Keys == s.u.groups.Keys + {f.token}
               && (f.token in s.u.groups || f.token == s.u.nextGroupID)
  {
    hide Dispatch, InstInv, QueueInv, GraphInv;
    DispatchCounts(s.u, s.stores, inst);
  }

  lemma SameInsts(s: System, s': System)
    requires CursorsName(s) && |s'.insts| == |s.insts|
    requires forall i: nat | i < |s.insts| :: s'.insts[i].token == s.insts[i].token && s'.insts[i].inst == s.insts[i].inst
    ensures LastOf(s'.insts, Loads()) == LastOf(s.insts, Loads())
    ensures LastOf(s'.insts, LoadBarriers()) == LastOf(s.insts, LoadBarriers())
    ensures LastOf(s'.insts, Stores()) == LastOf(s.insts, Stores())
    ensures LastOf(s'.insts, StoreBarriers()) == LastOf(s.insts, StoreBarriers())
  {
    LastOfSame(s.insts, s'.insts, Loads());
    LastOfSame(s.insts, s'.insts, LoadBarriers());
    LastOfSame(s.insts, s'.insts, Stores());
    LastOfSame(s.insts, s'.insts, StoreBarriers());
  }

  lemma StepKeepsNames(s: System, e: Event)
    requires Inv(s) && CursorsName(s) && Enabled(s, e) && LookupsSucceed(s, e)
    ensures CursorsName(Step(s, e))
  {
    hide Inv, IssueOne, ExecuteOne, LastOf;
    if e.DispatchE? {
      DispatchKeepsNames(s, e.inst);
    } else {
      SameInsts(s, Step(s, e));
      if e.IssueE? { IssueMembers(s.u.groups, s.insts[e.i].token); }
      if e.ExecuteE? { ExecuteMembers(s.u.groups, s.insts[e.i].token); }
    }
  }

  /** In every run each cursor names the group of the last instruction of its kind, as long as
      that group lives: the last load, load barrier, store and store barrier. */
  lemma {:induction false} CursorsOfRun(cfg: Config, ev: seq<Event>)
    requires IsRun(cfg, ev)
    ensures CursorsName(After(cfg, ev))
  {
    hide CursorsName, Inv, Step, Enabled, LookupsSucceed;
    if ev == [] {
      NothingNamed(cfg);
    } else {
      CursorsOfRun(cfg, ev[..|ev| - 1]);
      RunKeepsInv(cfg, ev[..|ev| - 1]);
      StepKeepsNames(After(cfg, ev[..|ev| - 1]), ev[|ev| - 1]);
    }
  }

  lemma NothingNamed(cfg: Config)
    ensures CursorsName(Initial(cfg))
  {
  }

  // ---------------------------------------------------------------------------
  // Which group an instruction gets
  // ---------------------------------------------------------------------------

  ghost predicate WaitsToIssue(insts: seq<InFlight>, g: nat) {
    exists i: nat :: i < |insts| && insts[i].token == g && insts[i].phase == Dispatched
  }

  /** A load joins the group of the last load if it is no barrier, that group is younger than the
      last store and the last load barrier that live, and it has an instruction still to be issued. */
  ghost predicate Joins(insts: seq<InFlight>, gs: Groups, inst: MemInst) {
    var last, barrier, store := LastOf(insts, Loads()), LastOf(insts, LoadBarriers()), LastOf(insts, Stores());
    && !ActsAsStore(inst) && !inst.isLoadBarrier && last in gs && WaitsToIssue(insts, last)
    && (store in gs ==> store < last) && (barrier in gs ==> barrier < last)
  }

  /** In every run: a load that meets this gets the group of the last load, and every other
      operation gets a new group. */
  lemma GroupOfDispatched(cfg: Config, ev: seq<Event>, inst: MemInst)
    requires IsRun(cfg, ev) && Enabled(After(cfg, ev), DispatchE(inst))
    ensures IsRun(cfg, ev + [DispatchE(inst)]) && |After(cfg, ev + [DispatchE(inst)]).insts| == |After(cfg, ev).insts| + 1
    ensures var s := After(cfg, ev);
            var token := After(cfg, ev + [DispatchE(inst)]).insts[|s.insts|].token;
            && token == (if Joins(s.insts, s.u.groups, inst) then LastOf(s.insts, Loads()) else s.u.nextGroupID)
            && s.u.nextGroupID !in s.u.groups
  {
    hide CursorsName, Inv, Step, LookupsSucceed, Joins;
    RunKeepsInv(cfg, ev);
    CursorsOfRun(cfg, ev);
    RunNeverStops(cfg, ev, DispatchE(inst));
    DispatchedToken(After(cfg, ev), inst);
  }

  lemma DispatchedToken(s: System, inst: MemInst)
    requires Inv(s) && CursorsName(s) && inst.IsMemOp()
    ensures LookupsSucceed(s, DispatchE(inst)) && s.u.nextGroupID !in s.u.groups
    ensures var s' := Step(s, DispatchE(inst));
            && |s'.insts| == |s.insts| + 1
            && s'.insts[|s.insts|].token
               == if Joins(s.insts, s.u.groups, inst) then LastOf(s.insts, Loads()) else s.u.nextGroupID
  {
    hide StoreGroups, LoadGroups, AddInstruction, InstInv, QueueInv, GraphInv, WaitsToIssue, LastOf;
    var last := LastOf(s.insts, Loads());
    assert s.u.IdsBelowNext();
    if last in s.u.groups { WaitsToIssueIff(s, last); }
  }

  lemma WaitsToIssueIff(s: System, g: nat)
    requires Inv(s) && g in s.u.groups
    ensures WaitsToIssue(s.insts, g) <==> !s.u.groups[g].IsExecuting()
  {
    hide InstInv, QueueInv, GraphInv;
    if !s.u.groups[g].IsExecuting() {
      var m := SomeoneToIssue(s, g);
    }
    if i: nat :| i < |s.insts| && s.insts[i].token == g && s.insts[i].phase == Dispatched {
      DispatchedIsUnissued(s, i);
    }
  }

  // ---------------------------------------------------------------------------
  // When there is room
  // ---------------------------------------------------------------------------

  /** The loads, and the operations acting as stores, that have not retired. */
  ghost function UnretiredLoads(insts: seq<InFlight>): set<nat> {
    set i: nat | i < |insts| && insts[i].inst.mayLoad && !insts[i].retired
  }

  ghost function UnretiredStores(insts: seq<InFlight>): set<nat> {
    set i: nat | i < |insts| && ActsAsStore(insts[i].inst) && !insts[i].retired
  }

  ghost function Places(insts: seq<InFlight>, p: InFlight -> bool): set<nat> {
    set i: nat | i < |insts| && p(insts[i])
  }

  lemma {:induction false} CountIsSize(insts: seq<InFlight>, p: InFlight -> bool)
    ensures Count(insts, p) == |Places(insts, p)|
  {
    if insts == [] {
      assert Places(insts, p) == {};
    } else {
      var n := |insts| - 1;
      CountIsSize(insts[..n], p);
      assert Places(insts, p) == Places(insts[..n], p) + if p(insts[n]) then {n} else {};
    }
  }

  /** In every run: a memory operation can be dispatched exactly if the unretired loads leave
      room for it in a bounded load queue when it loads, and the unretired stores leave room in
      a bounded store queue when it acts as a store. */
  lemma DispatchableIff(cfg: Config, ev: seq<Event>, inst: MemInst)
    requires IsRun(cfg, ev)
    ensures var insts := After(cfg, ev).insts;
            Enabled(After(cfg, ev), DispatchE(inst)) <==>
              && (inst.mayLoad || inst.mayStore)
              && (inst.mayLoad && cfg.lqSize != 0 ==> |UnretiredLoads(insts)| < cfg.lqSize)
              && (ActsAsStore(inst) && cfg.sqSize != 0 ==> |UnretiredStores(insts)| < cfg.sqSize)
  {
    var s := After(cfg, ev);
    RunKeepsInv(cfg, ev);
    ConfigStays(cfg, ev);
    CountIsSize(s.insts, HoldsLoadSlot());
    CountIsSize(s.insts, HoldsStoreSlot());
    assert UnretiredLoads(s.insts) == Places(s.insts, HoldsLoadSlot());
    assert UnretiredStores(s.insts) == Places(s.insts, HoldsStoreSlot());
  }
}
