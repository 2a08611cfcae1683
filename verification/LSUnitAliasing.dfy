/** What the alias answers decide: between the last store and the operation behind it, and
between two operations alone in the unit. */
module LSUnitAliasing {
  import opened MemoryGroups
  import opened LSUnitSpec
  import opened LSUnitInvariant
  import opened LSUnitSteps
  import opened LSUnitRuns
  import opened LSUnitWaits
  import opened LSUnitHeld
  import opened LSUnitCursors

  // ---------------------------------------------------------------------------
  // Behind the last store
  // ---------------------------------------------------------------------------

  /** Instruction `i` is the last one that acts as a store. */
  ghost predicate IsLastStore(insts: seq<InFlight>, i: nat) {
    i < |insts| && ActsAsStore(insts[i].inst) && forall j: nat | i < j < |insts| :: !ActsAsStore(insts[j].inst)
  }

  lemma {:induction false} LastStoreToken(insts: seq<InFlight>, i: nat)
    requires IsLastStore(insts, i)
    ensures LastOf(insts, Stores()) == insts[i].token
  {
    var n := |insts| - 1;
    if i == n {
    } else {
      LastStoreToken(insts[..n], i);
    }
  }

  /** The store cursor names the last store until that has executed. */
  lemma CursorOfLastStore(s: System, i: nat)
    requires Inv(s) && CursorsName(s) && IsLastStore(s.insts, i) && s.insts[i].phase != Executed
    ensures s.u.CursorsLive() && s.u.curStore == s.insts[i].token != 0
  {
    hide InstInv, QueueInv, GraphInv, LastOf, CountsInv, StoresAreYounger;
    LastStoreToken(s.insts, i);
    LiveUntilExecuted(s, i);
  }

  lemma LiveUntilExecuted(s: System, i: nat)
    requires Inv(s) && i < |s.insts| && s.insts[i].phase != Executed
    ensures s.insts[i].token in s.u.groups && s.insts[i].token != 0
  {
    assert InstOk(s, i);
  }

  lemma JoinsIsNoNewGroup(s: System, inst: MemInst)
    requires Inv(s) && CursorsName(s)
    ensures s.u.CursorsLive()
    ensures Joins(s.insts, s.u.groups, inst) <==> !inst.IsStore() && !NeedsNewLoadGroup(s.u, inst)
    ensures Joins(s.insts, s.u.groups, inst) ==> s.u.curLoad == LastOf(s.insts, Loads())
  {
    hide InstInv, QueueInv, GraphInv, WaitsToIssue, LastOf;
    var last := LastOf(s.insts, Loads());
    assert s.u.IdsBelowNext();
    if last in s.u.groups { WaitsToIssueIff(s, last); }
  }

  lemma AliasingIsHeldIff(s: System, inst: MemInst, i: nat)
    requires Inv(s) && CursorsName(s) && IsLastStore(s.insts, i) && s.insts[i].phase != Executed && s.u.CursorsLive()
    requires if inst.md.Some? then s.insts[i].token in inst.aliased else !s.u.cfg.assumeNoAlias
    ensures !HeldAtDispatch(s.u, inst, s.insts[i].token)
       <==> Joins(s.insts, s.u.groups, inst) && !Waits(s.u.groups, s.insts[i].token, LastOf(s.insts, Loads()))
  {
    hide InstInv, QueueInv, GraphInv, LastOf, Joins, CursorsName, IsLastStore, Waits, NeedsNewLoadGroup;
    CursorOfLastStore(s, i);
    JoinsIsNoNewGroup(s, inst);
  }

  /** In every run: an operation that is taken to alias the last store can issue before that
      store has executed if and only if it joins a load group that does not wait for the store:
      joining, it is not checked. */
  lemma AliasingMayPassIff(cfg: Config, ev: seq<Event>, inst: MemInst, i: nat)
    requires IsRun(cfg, ev) && Enabled(After(cfg, ev), DispatchE(inst))
    requires IsLastStore(After(cfg, ev).insts, i) && After(cfg, ev).insts[i].phase != Executed
    requires if inst.md.Some? then After(cfg, ev).insts[i].token in inst.aliased else !cfg.assumeNoAlias
    ensures IsRun(cfg, ev + [DispatchE(inst)])
    ensures MayPass(cfg, ev + [DispatchE(inst)], i, |After(cfg, ev).insts|)
       <==> (var s := After(cfg, ev);
             Joins(s.insts, s.u.groups, inst) && !Waits(s.u.groups, s.insts[i].token, LastOf(s.insts, Loads())))
  {
    hide Waits, MayPass, Step, Enabled, HeldAtDispatch, Joins, LastOf, CursorsName, Inv;
    RunKeepsInv(cfg, ev);
    CursorsOfRun(cfg, ev);
    ConfigStays(cfg, ev);
    DispatchedMayPassIff(cfg, ev, inst, i);
    AliasingIsHeldIff(After(cfg, ev), inst, i);
  }

  /** So in every run one that opens a new group does not issue before that store has executed. */
  lemma AliasingWaitsForStore(cfg: Config, ev: seq<Event>, m: nat, k: nat, i: nat)
    requires IsRun(cfg, ev) && m < k < |ev| && IsRun(cfg, ev[..m]) && ev[m].DispatchE?
    requires var s, inst := After(cfg, ev[..m]), ev[m].inst;
             && IsLastStore(s.insts, i)
             && (if inst.md.Some? then s.insts[i].token in inst.aliased else !cfg.assumeNoAlias)
             && !Joins(s.insts, s.u.groups, inst) && ev[k] == IssueE(|s.insts|)
    ensures ExecuteE(i) in ev[..k]
  {
    hide Waits, Step, Enabled, LookupsSucceed, HeldAtDispatch, Joins, LastOf, CursorsName, Inv;
    var s, inst := After(cfg, ev[..m]), ev[m].inst;
    Extend(cfg, ev, m);
    RunKeepsInv(cfg, ev[..m]);
    CursorsOfRun(cfg, ev[..m]);
    ConfigStays(cfg, ev[..m]);
    if s.insts[i].phase == Executed {
      PhaseHappened(cfg, ev[..m], i);
      assert ev[..k][..m] == ev[..m];
      assert forall e | e in ev[..m] :: e in ev[..k];
    } else {
      DispatchedHere(s, inst);
      CursorOfLastStore(s, i);
      AliasingIsHeldIff(s, inst, i);
      HeldAtDispatchIff(s, inst, s.insts[i].token);
      IssuesAfter(cfg, ev, m + 1, k, i, |s.insts|);
    }
  }

  /** Only the current store is asked about: behind an older store that it aliases and a
      younger one that it does not, a load may issue before either has issued. */
  lemma OlderAliasIsNotChecked(cfg: Config, store: MemInst, second: MemInst, load: MemInst)
    requires PlainAccess(store) && PlainAccess(second) && PlainAccess(load)
    requires store.mayStore && !store.mayLoad && second.mayStore && !second.mayLoad && load.mayLoad && !load.IsStore()
    requires 1 in load.aliased && 2 !in load.aliased && 1 !in second.aliased && !cfg.hasCache && cfg.sqSize != 1
    ensures IsRun(cfg, [DispatchE(store), DispatchE(second), DispatchE(load), IssueE(2)])
  {
    hide Step, Enabled, LookupsSucceed, IsRun, After, Initial;
    var ev := [DispatchE(store), DispatchE(second)];
    OlderAliasStates(cfg, store, second, load);
    TwoEventRun(cfg, DispatchE(store), DispatchE(second));
    RunNeverStops(cfg, ev, DispatchE(load));
    RunNeverStops(cfg, ev + [DispatchE(load)], IssueE(2));
    assert ev + [DispatchE(load)] + [IssueE(2)] == [DispatchE(store), DispatchE(second), DispatchE(load), IssueE(2)];
  }

  lemma OlderAliasStates(cfg: Config, store: MemInst, second: MemInst, load: MemInst)
    requires PlainAccess(store) && PlainAccess(second) && PlainAccess(load)
    requires store.mayStore && !store.mayLoad && second.mayStore && !second.mayLoad && load.mayLoad && !load.IsStore()
    requires 2 !in load.aliased && 1 !in second.aliased && !cfg.hasCache && cfg.sqSize != 1
    ensures var s0 := Initial(cfg);
            && Enabled(s0, DispatchE(store)) && LookupsSucceed(s0, DispatchE(store))
            && var s1 := Step(s0, DispatchE(store));
               && Enabled(s1, DispatchE(second)) && LookupsSucceed(s1, DispatchE(second))
               && var s2 := Step(s1, DispatchE(second));
                  && Enabled(s2, DispatchE(load)) && LookupsSucceed(s2, DispatchE(load))
                  && Enabled(Step(s2, DispatchE(load)), IssueE(2))
  {
    hide Link, AddSuccessor, IssueOne;
    var s1 := Step(Initial(cfg), DispatchE(store));
    LinkFromNone(map[1 := SINGLETON], 1, true);
    LinkFromNone(map[1 := SINGLETON], 1, !s1.u.NoAlias(0, store));
    assert s1.u.groups == map[1 := SINGLETON];
    var gs0 := s1.u.groups[2 := SINGLETON];
    LinkFromNone(gs0, 2, true);
    LinkFromNone(gs0, 2, !s1.u.NoAlias(0, second));
    OrderLink(gs0, 1, 2);
    var s2 := Step(s1, DispatchE(second));
    assert s2.u.groups == Link(gs0, 1, 2, false);
    var gs1 := s2.u.groups[3 := SINGLETON];
    LinkFromNone(gs1, 3, true);
    assert Step(s2, DispatchE(load)).u.groups == gs1;
  }

  /** A load that joins a group is not checked: behind a store and a load that does not alias
      it, a load that does may issue although the store has not even issued. */
  lemma JoiningLoadIsNotChecked(cfg: Config, store: MemInst, first: MemInst, second: MemInst)
    requires PlainAccess(store) && PlainAccess(first) && PlainAccess(second)
    requires store.mayStore && !store.mayLoad && first.mayLoad && second.mayLoad && !first.IsStore() && !second.IsStore()
    requires 1 !in first.aliased && 1 in second.aliased && !cfg.hasCache && cfg.lqSize != 1
    ensures IsRun(cfg, [DispatchE(store), DispatchE(first), DispatchE(second), IssueE(2)])
  {
    hide Step, Enabled, LookupsSucceed, IsRun, After, Initial;
    var ev := [DispatchE(store), DispatchE(first)];
    JoiningStates(cfg, store, first, second);
    TwoEventRun(cfg, DispatchE(store), DispatchE(first));
    RunNeverStops(cfg, ev, DispatchE(second));
    RunNeverStops(cfg, ev + [DispatchE(second)], IssueE(2));
    assert ev + [DispatchE(second)] + [IssueE(2)] == [DispatchE(store), DispatchE(first), DispatchE(second), IssueE(2)];
  }

  predicate PlainAccess(inst: MemInst) { inst.md.Some? && !inst.isLoadBarrier && !inst.isStoreBarrier }

  lemma JoiningStates(cfg: Config, store: MemInst, first: MemInst, second: MemInst)
    requires PlainAccess(store) && PlainAccess(first) && PlainAccess(second)
    requires store.mayStore && !store.mayLoad && first.mayLoad && second.mayLoad && !first.IsStore() && !second.IsStore()
    requires 1 !in first.aliased && !cfg.hasCache && cfg.lqSize != 1
    ensures var s0 := Initial(cfg);
            && Enabled(s0, DispatchE(store)) && LookupsSucceed(s0, DispatchE(store))
            && var s1 := Step(s0, DispatchE(store));
               && Enabled(s1, DispatchE(first)) && LookupsSucceed(s1, DispatchE(first))
               && var s2 := Step(s1, DispatchE(first));
                  && Enabled(s2, DispatchE(second)) && LookupsSucceed(s2, DispatchE(second))
                  && Enabled(Step(s2, DispatchE(second)), IssueE(2))
  {
    var s1 := Step(Initial(cfg), DispatchE(store));
    assert s1.u.groups == map[1 := SINGLETON];
    var s2 := Step(s1, DispatchE(first));
    assert s2.u.groups == map[1 := SINGLETON, 2 := SINGLETON];
    var s3 := Step(s2, DispatchE(second));
    assert s3.u.groups == map[1 := SINGLETON, 2 := SINGLETON.(numInstructions := 2)];
  }

  // ---------------------------------------------------------------------------
  // Two operations alone in the unit
  // ---------------------------------------------------------------------------

  /** What one operation leaves of the empty unit. */
  lemma OneOperation(cfg: Config, first: MemInst)
    requires first.IsMemOp()
    ensures IsRun(cfg, [DispatchE(first)])
    ensures var s := After(cfg, [DispatchE(first)]);
            && s.insts == [InFlight(first, 1, Dispatched, false)]
            && s.u.cfg == cfg && s.u.groups == map[1 := SINGLETON] && s.u.nextGroupID == 2
            && s.u.curLoad == (if first.mayLoad then 1 else 0)
            && s.u.curLoadBarrier == (if first.mayLoad && first.isLoadBarrier then 1 else 0)
            && s.u.curStore == (if ActsAsStore(first) then 1 else 0)
            && s.u.curStoreBarrier == (if ActsAsStore(first) && first.isStoreBarrier then 1 else 0)
            && s.u.usedLQ == (if first.mayLoad then 1 else 0) && s.u.usedSQ == (if ActsAsStore(first) then 1 else 0)
  {
    assert [DispatchE(first)][..0] == [];
    assert IsRun(cfg, []) && After(cfg, []) == Initial(cfg);
    assert [] + [InFlight(first, 1, Dispatched, false)] == [InFlight(first, 1, Dispatched, false)];
    forall isData: bool ensures Link(map[1 := SINGLETON], 0, 1, isData) == map[1 := SINGLETON] {
      LinkFromNone(map[1 := SINGLETON], 1, isData);
    }
  }

  lemma NoneWaits(g: nat, t: nat)
    ensures !Waits(map[1 := SINGLETON], g, t)
  {
  }

  predicate RoomForBoth(cfg: Config, first: MemInst, second: MemInst) {
    && (first.mayLoad && second.mayLoad ==> cfg.lqSize != 1)
    && (ActsAsStore(first) && ActsAsStore(second) ==> cfg.sqSize != 1)
  }

  /** What the second of two operations has to wait for, by what the two are and by the alias
      answer for the first alone: a store waits for a store barrier, and for whatever it is taken
      to alias; a load and a load barrier wait for one another, and a load waits for a store that
      it is taken to alias. */
  predicate MustFollow(cfg: Config, first: MemInst, second: MemInst) {
    var mayAlias := if second.md.Some? then 1 in second.aliased else !cfg.assumeNoAlias;
    if ActsAsStore(second) then
      (ActsAsStore(first) && first.isStoreBarrier) || mayAlias
    else
      (first.mayLoad && (first.isLoadBarrier || second.isLoadBarrier)) || (ActsAsStore(first) && mayAlias)
  }

  lemma TwoDispatched(cfg: Config, first: MemInst, second: MemInst)
    requires first.IsMemOp() && second.IsMemOp() && RoomForBoth(cfg, first, second)
    ensures IsRun(cfg, [DispatchE(first)]) && Enabled(After(cfg, [DispatchE(first)]), DispatchE(second))
    ensures IsRun(cfg, [DispatchE(first), DispatchE(second)])
  {
    hide IsRun, After, Step, LookupsSucceed;
    OneOperation(cfg, first);
    RunNeverStops(cfg, [DispatchE(first)], DispatchE(second));
    assert [DispatchE(first)] + [DispatchE(second)] == [DispatchE(first), DispatchE(second)];
  }

  /** Of two operations alone in the unit, the second can issue before the first has executed
      exactly if it need not follow it. */
  lemma SecondMayPassIff(cfg: Config, first: MemInst, second: MemInst)
    requires first.IsMemOp() && second.IsMemOp() && RoomForBoth(cfg, first, second)
    ensures MayPass(cfg, [DispatchE(first), DispatchE(second)], 0, 1) <==> !MustFollow(cfg, first, second)
  {
    hide IsRun, After, Enabled, Step, MayPass, Waits;
    OneOperation(cfg, first);
    TwoDispatched(cfg, first, second);
    assert [DispatchE(first)] + [DispatchE(second)] == [DispatchE(first), DispatchE(second)];
    DispatchedMayPassIff(cfg, [DispatchE(first)], second, 0);
    forall t: nat ensures !Waits(map[1 := SINGLETON], 1, t) { NoneWaits(1, t); }
  }

  /** And where no cache delays it, it can issue first exactly if it need not follow and is no store. */
  lemma SecondMayIssueFirstIff(cfg: Config, first: MemInst, second: MemInst)
    requires first.IsMemOp() && second.IsMemOp() && RoomForBoth(cfg, first, second) && (cfg.hasCache ==> second.md.None?)
    ensures IsRun(cfg, [DispatchE(first), DispatchE(second), IssueE(1)])
       <==> !ActsAsStore(second) && !MustFollow(cfg, first, second)
  {
    hide IsRun, After, Enabled, Step, MayPass;
    var ev, all := [DispatchE(first), DispatchE(second)], [DispatchE(first), DispatchE(second), IssueE(1)];
    SecondMayPassIff(cfg, first, second);
    TwoDispatched(cfg, first, second);
    if !ActsAsStore(second) && !MustFollow(cfg, first, second) {
      SecondIsReady(cfg, first, second);
      RunNeverStops(cfg, ev, IssueE(1));
      assert ev + [IssueE(1)] == all;
    } else if IsRun(cfg, all) {
      CannotIssueFirst(cfg, first, second);
      assert false;
    }
  }

  /** In particular a load can issue first behind a store exactly if the query answers "no alias", or,
      without access metadata, if no-alias is on. */
  lemma LoadBehindStoreIff(cfg: Config, store: MemInst, load: MemInst)
    requires store.mayStore && !store.mayLoad && load.mayLoad && !load.mayStore
    requires load.md.Some? ==> !load.md.value.isStore && !cfg.hasCache
    ensures IsRun(cfg, [DispatchE(store), DispatchE(load), IssueE(1)])
       <==> if load.md.Some? then 1 !in load.aliased else cfg.assumeNoAlias
  {
    hide IsRun;
    SecondMayIssueFirstIff(cfg, store, load);
  }

  lemma SecondIsReady(cfg: Config, first: MemInst, second: MemInst)
    requires first.IsMemOp() && second.IsMemOp() && RoomForBoth(cfg, first, second) && (cfg.hasCache ==> second.md.None?)
    requires !ActsAsStore(second) && !MustFollow(cfg, first, second)
    ensures IsRun(cfg, [DispatchE(first), DispatchE(second)])
    ensures Enabled(After(cfg, [DispatchE(first), DispatchE(second)]), IssueE(1))
  {
    hide IsRun, After, StoreGroups, AddSuccessor;
    OneOperation(cfg, first);
    TwoDispatched(cfg, first, second);
    assert [DispatchE(first)] + [DispatchE(second)] == [DispatchE(first), DispatchE(second)];
    RunNeverStops(cfg, [DispatchE(first)], DispatchE(second));
    LinkFromNone(map[1 := SINGLETON, 2 := SINGLETON], 2, true);
  }

  lemma CannotIssueFirst(cfg: Config, first: MemInst, second: MemInst)
    requires IsRun(cfg, [DispatchE(first), DispatchE(second), IssueE(1)])
    ensures !second.IsStore() && MayPass(cfg, [DispatchE(first), DispatchE(second)], 0, 1)
  {
    hide Step, Enabled, LookupsSucceed, IsRun, After;
    var ev, all := [DispatchE(first), DispatchE(second)], [DispatchE(first), DispatchE(second), IssueE(1)];
    assert ev + [] + [IssueE(1)] == all;
    assert Passes(cfg, ev, [], 0, 1);
    assert all[..0] == [] && all[..1] == [DispatchE(first)] && all[..2] == ev;
    Extend(cfg, all, 0);
    Extend(cfg, all, 1);
    Extend(cfg, all, 2);
    DispatchedHere(After(cfg, []), first);
    DispatchedHere(After(cfg, [DispatchE(first)]), second);
    NothingYet(cfg);
    if second.IsStore() {
      DispatchedAs(cfg, all, 1, 1);
      StoreIssuesAfterOlder(cfg, all, 2, 0, 1);
      assert false;
    }
  }

  lemma NothingYet(cfg: Config)
    ensures IsRun(cfg, []) && After(cfg, []).insts == []
  {
  }
}
