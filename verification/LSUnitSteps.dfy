/** Every enabled step of the load/store unit keeps its invariant and finds every group it
looks up. */
module LSUnitSteps {
  import opened MemoryGroups
  import opened LSUnitSpec
  import opened LSUnitInvariant

  // ---------------------------------------------------------------------------
  // Counting
  // ---------------------------------------------------------------------------

  lemma CountAppend(insts: seq<InFlight>, f: InFlight, p: InFlight -> bool)
    ensures Count(insts + [f], p) == Count(insts, p) + if p(f) then 1 else 0
  {
    assert (insts + [f])[..|insts|] == insts;
  }

  lemma {:induction false} CountUpdate(insts: seq<InFlight>, i: nat, f: InFlight, p: InFlight -> bool)
    requires i < |insts|
    ensures Count(insts[i := f], p) == Count(insts, p) - (if p(insts[i]) then 1 else 0) + (if p(f) then 1 else 0)
  {
    var n := |insts| - 1;
    if i < n {
      CountUpdate(insts[..n], i, f, p);
      assert insts[i := f][..n] == insts[..n][i := f];
    } else {
      assert insts[i := f][..n] == insts[..n];
    }
  }

  /** What is counted is there, and conversely. */
  lemma {:induction false} CountPositive(insts: seq<InFlight>, p: InFlight -> bool)
    ensures Count(insts, p) > 0 <==> exists i: nat :: i < |insts| && p(insts[i])
  {
    if insts == [] {
    } else {
      var n := |insts| - 1;
      CountPositive(insts[..n], p);
      if i: nat :| i < n && p(insts[..n][i]) { assert p(insts[i]); }
      if i: nat :| i < |insts| && p(insts[i]) { if i < n { assert p(insts[..n][i]); } }
    }
  }

  // ---------------------------------------------------------------------------
  // Lookups
  // ---------------------------------------------------------------------------

  lemma LookupsNeverFail(s: System, e: Event)
    requires Inv(s) && Enabled(s, e)
    ensures LookupsSucceed(s, e)
  {
    if e.IssueE? || e.ExecuteE? { assert InstOk(s, e.i); }
  }

  /** An instruction that is still to be issued sits in a group that is not fully issued. */
  lemma DispatchedIsUnissued(s: System, i: nat)
    requires Inv(s) && i < |s.insts| && s.insts[i].phase == Dispatched
    ensures Unissued(s.u.groups, s.insts[i].token)
  {
    var g := s.insts[i].token;
    assert InstOk(s, i) && GroupCounts(s.u.groups, s.insts, g);
    CountPositive(s.insts, InGroup(g, Dispatched));
  }

  lemma IssuedIsExecuting(s: System, i: nat)
    requires Inv(s) && i < |s.insts| && s.insts[i].phase == Issued
    ensures s.insts[i].token in s.u.groups && s.u.groups[s.insts[i].token].numExecuting > 0
  {
    assert InstOk(s, i) && GroupCounts(s.u.groups, s.insts, s.insts[i].token);
    CountPositive(s.insts, InGroup(s.insts[i].token, Issued));
  }

  // ---------------------------------------------------------------------------
  // dispatch
  // ---------------------------------------------------------------------------

  lemma AcquireKeepsUnit(u: LSU, stores: set<nat>, inst: MemInst)
    requires UnitInv(u, stores)
    ensures UnitInv(Acquire(u, inst), stores)
  {
    var a := Acquire(u, inst);
    assert a.groups == u.groups && a.LoadDominator() == u.LoadDominator();
  }

  lemma DispatchKeepsUnit(u: LSU, stores: set<nat>, inst: MemInst)
    requires UnitInv(u, stores)
    ensures var (u', token) := Dispatch(u, inst);
            UnitInv(u', if inst.IsStore() then stores + {token} else stores)
  {
    var a := Acquire(u, inst);
    AcquireKeepsUnit(u, stores, inst);
    if inst.IsStore() {
      DispatchStoreKeepsUnit(a, stores, inst);
    } else if NeedsNewLoadGroup(a, inst) {
      DispatchNewLoadKeepsUnit(a, stores, inst);
    } else {
      JoinKeepsUnit(a, stores, inst);
    }
  }

  /** The dispatched instruction is counted in its group, and in no other. */
  ghost predicate CountedOnce(gs: Groups, gs': Groups, token: nat) {
    && gs'.Keys == gs.Keys + {token}
    && (forall g | g in gs ::
          && gs'[g].numExecuting == gs[g].numExecuting
          && gs'[g].numExecuted == gs[g].numExecuted
          && gs'[g].numInstructions == gs[g].numInstructions + if g == token then 1 else 0)
    && (token !in gs ==> gs'[token].numExecuting == gs'[token].numExecuted == 0 && gs'[token].numInstructions == 1)
  }

  lemma GrownCounted(u: LSU, gs': Groups)
    requires AllGrown(WithNew(u), gs') && u.nextGroupID !in u.groups
    ensures CountedOnce(u.groups, gs', u.nextGroupID)
  {
    assert Grown(WithNew(u)[u.nextGroupID], gs'[u.nextGroupID]);
    forall g | g in u.groups ensures Grown(u.groups[g], gs'[g]) { assert Grown(WithNew(u)[g], gs'[g]); }
  }

  lemma DispatchCounts(u: LSU, stores: set<nat>, inst: MemInst)
    requires UnitInv(u, stores)
    ensures var (u', token) := Dispatch(u, inst);
            && CountedOnce(u.groups, u'.groups, token)
            && token < u'.nextGroupID
            && u.nextGroupID <= u'.nextGroupID
            && (inst.IsStore() || token !in u.groups ==> token == u.nextGroupID)
  {
    hide StoreGroups, LoadGroups;
    var a := Acquire(u, inst);
    AcquireKeepsUnit(u, stores, inst);
    if inst.IsStore() {
      StoreGroupsOk(a, stores, inst);
      GrownCounted(a, DispatchStore(a, inst).groups);
    } else if NeedsNewLoadGroup(a, inst) {
      LoadGroupsOk(a, stores, inst);
      GrownCounted(a, DispatchNewLoad(a, inst).groups);
    }
  }

  lemma AppendKeepsCounts(s: System, gs': Groups, f: InFlight, g: nat)
    requires InstInv(s) && f.phase == Dispatched && CountedOnce(s.u.groups, gs', f.token)
    requires f.token !in s.u.groups ==> f.token == s.u.nextGroupID
    requires g in gs'
    ensures GroupCounts(gs', s.insts + [f], g)
  {
    CountAppend(s.insts, f, InGroup(g, Dispatched));
    CountAppend(s.insts, f, InGroup(g, Issued));
    CountAppend(s.insts, f, InGroup(g, Executed));
    if g in s.u.groups {
      assert GroupCounts(s.u.groups, s.insts, g);
    } else {
      forall i: nat | i < |s.insts| ensures s.insts[i].token != g { assert InstOk(s, i); }
      CountPositive(s.insts, InGroup(g, Dispatched));
      CountPositive(s.insts, InGroup(g, Issued));
      CountPositive(s.insts, InGroup(g, Executed));
    }
  }

  lemma DispatchKeepsInsts(s: System, inst: MemInst)
    requires Inv(s)
    ensures InstInv(Step(s, DispatchE(inst)))
  {
    var s' := Step(s, DispatchE(inst));
    var (u', token) := Dispatch(s.u, inst);
    DispatchCounts(s.u, s.stores, inst);
    hide Dispatch;
    hide UnitInv;
    hide CountsInv;
    var f := InFlight(inst, token, Dispatched, false);
    assert s'.insts == s.insts + [f];
    forall i: nat | i < |s'.insts| ensures InstOk(s', i) {
      if i < |s.insts| { assert InstOk(s, i); }
    }
    DispatchKeepsCounts(s, inst);
    assert StoresAreYounger(s') by {
      forall i: nat | i < |s.insts| ensures s.insts[i].token < s.u.nextGroupID { assert InstOk(s, i); }
    }
  }

  lemma DispatchKeepsCounts(s: System, inst: MemInst)
    requires Inv(s)
    ensures CountsInv(Step(s, DispatchE(inst)))
  {
    var s' := Step(s, DispatchE(inst));
    DispatchCounts(s.u, s.stores, inst);
    hide Dispatch;
    hide UnitInv;
    var f := InFlight(inst, Dispatch(s.u, inst).1, Dispatched, false);
    forall g | g in s'.u.groups ensures GroupCounts(s'.u.groups, s'.insts, g) {
      AppendKeepsCounts(s, s'.u.groups, f, g);
    }
  }

  lemma DispatchSlots(u: LSU, inst: MemInst)
    requires u.CursorsLive() && u.IdsBelowNext()
    ensures var u' := Dispatch(u, inst).0;
            && u'.cfg == u.cfg
            && u'.usedLQ == u.usedLQ + (if inst.mayLoad then 1 else 0)
            && u'.usedSQ == u.usedSQ + (if inst.IsStore() then 1 else 0)
  {
    hide StoreGroups, LoadGroups, AddInstruction, NeedsNewLoadGroup;
    hide MemInst.IsStore;
  }

  lemma DispatchKeepsQueues(s: System, inst: MemInst)
    requires Inv(s) && s.u.IsAvailable(inst)
    ensures QueueInv(Step(s, DispatchE(inst)))
  {
    hide InstInv, Dispatch;
    DispatchSlots(s.u, inst);
    var s' := Step(s, DispatchE(inst));
    var f := s'.insts[|s.insts|];
    CountAppend(s.insts, f, HoldsLoadSlot());
    CountAppend(s.insts, f, HoldsStoreSlot());
  }

  // ---------------------------------------------------------------------------
  // issue, execute, retire
  // ---------------------------------------------------------------------------

  lemma PhaseKeepsQueues(s: System, s': System, i: nat, to: Phase)
    requires Inv(s) && i < |s.insts|
    requires s'.insts == s.insts[i := s.insts[i].(phase := to)]
    requires s'.u.cfg == s.u.cfg && s'.u.usedLQ == s.u.usedLQ && s'.u.usedSQ == s.u.usedSQ
    ensures QueueInv(s')
  {
    CountUpdate(s.insts, i, s'.insts[i], HoldsLoadSlot());
    CountUpdate(s.insts, i, s'.insts[i], HoldsStoreSlot());
  }

  /** Changing one instruction changes the counts of its group, and of no other. */
  lemma UpdateKeepsCounts(gs: Groups, gs': Groups, insts: seq<InFlight>, i: nat, f: InFlight, h: nat)
    requires i < |insts| && f.token == insts[i].token && h in gs && h in gs' && GroupCounts(gs, insts, h)
    requires var a, b, mine := gs[h], gs'[h], h == f.token;
             var was, now := insts[i].phase, f.phase;
             && b.numInstructions == a.numInstructions
             && b.numExecuting == a.numExecuting + (if mine && now == Issued then 1 else 0)
                                                 - (if mine && was == Issued then 1 else 0)
             && b.numExecuted == a.numExecuted + (if mine && now == Executed then 1 else 0)
                                               - (if mine && was == Executed then 1 else 0)
    ensures GroupCounts(gs', insts[i := f], h)
  {
    CountUpdate(insts, i, f, InGroup(h, Dispatched));
    CountUpdate(insts, i, f, InGroup(h, Issued));
    CountUpdate(insts, i, f, InGroup(h, Executed));
  }

  /** What issuing does to the counters that say how many instructions there are. */
  lemma IssueMembers(gs: Groups, g: nat)
    requires g in gs
    ensures IssueOne(gs, g).Keys == gs.Keys
    ensures forall h | h in gs ::
              var a, b := gs[h], IssueOne(gs, g)[h];
              && b.numInstructions == a.numInstructions && b.numExecuted == a.numExecuted
              && b.numExecuting == a.numExecuting + if h == g then 1 else 0
  {
  }

  lemma ExecuteMembers(gs: Groups, g: nat)
    requires g in gs
    ensures ExecuteOne(gs, g).Keys == if gs[g].numInstructions == gs[g].numExecuted + 1 then gs.Keys - {g} else gs.Keys
    ensures forall h | h in ExecuteOne(gs, g) ::
              && h in gs
              && var a, b, one := gs[h], ExecuteOne(gs, g)[h], if h == g then 1 else 0;
                 && b.numInstructions == a.numInstructions
                 && b.numExecuted == a.numExecuted + one && b.numExecuting == a.numExecuting - one
  {
  }

  lemma IssueKeepsCounts(s: System, i: nat)
    requires Inv(s) && Enabled(s, IssueE(i))
    ensures CountsInv(Step(s, IssueE(i)))
  {
    hide UnitInv, QueueInv, InstsOk, StoresAreYounger, IssueOne, GroupCounts;
    var s' := Step(s, IssueE(i));
    IssueMembers(s.u.groups, s.insts[i].token);
    forall h | h in s'.u.groups ensures GroupCounts(s'.u.groups, s'.insts, h) {
      assert GroupCounts(s.u.groups, s.insts, h);
      UpdateKeepsCounts(s.u.groups, s'.u.groups, s.insts, i, s'.insts[i], h);
    }
  }

  lemma IssueKeepsInsts(s: System, i: nat)
    requires Inv(s) && Enabled(s, IssueE(i))
    ensures InstInv(Step(s, IssueE(i)))
  {
    hide UnitInv, QueueInv, CountsInv, IssueOne;
    IssueKeepsCounts(s, i);
    var s' := Step(s, IssueE(i));
    IssueMembers(s.u.groups, s.insts[i].token);
    forall j: nat | j < |s'.insts| ensures InstOk(s', j) { assert InstOk(s, j); }
  }

  /** A group that leaves the unit leaves with all its instructions executed. */
  lemma LeavesExecuted(s: System, i: nat, j: nat)
    requires Inv(s) && Enabled(s, ExecuteE(i)) && j < |s.insts| && LookupsSucceed(s, ExecuteE(i))
    requires s.insts[j].token == s.insts[i].token && s.insts[i].token !in Step(s, ExecuteE(i)).u.groups
    ensures Step(s, ExecuteE(i)).insts[j].phase == Executed
  {
    var s', g := Step(s, ExecuteE(i)), s.insts[i].token;
    assert GroupCounts(s.u.groups, s.insts, g);
    CountUpdate(s.insts, i, s'.insts[i], InGroup(g, Dispatched));
    CountUpdate(s.insts, i, s'.insts[i], InGroup(g, Issued));
    CountPositive(s'.insts, InGroup(g, Dispatched));
    CountPositive(s'.insts, InGroup(g, Issued));
    assert !InGroup(g, Dispatched)(s'.insts[j]) && !InGroup(g, Issued)(s'.insts[j]);
  }

  lemma ExecuteKeepsCounts(s: System, i: nat)
    requires Inv(s) && Enabled(s, ExecuteE(i)) && LookupsSucceed(s, ExecuteE(i))
    ensures CountsInv(Step(s, ExecuteE(i)))
  {
    hide UnitInv, QueueInv, InstsOk, StoresAreYounger, ExecuteOne, GroupCounts;
    var s' := Step(s, ExecuteE(i));
    ExecuteMembers(s.u.groups, s.insts[i].token);
    forall h | h in s'.u.groups ensures GroupCounts(s'.u.groups, s'.insts, h) {
      assert GroupCounts(s.u.groups, s.insts, h);
      UpdateKeepsCounts(s.u.groups, s'.u.groups, s.insts, i, s'.insts[i], h);
    }
  }

  lemma ExecuteKeepsInsts(s: System, i: nat)
    requires Inv(s) && Enabled(s, ExecuteE(i)) && LookupsSucceed(s, ExecuteE(i))
    ensures InstInv(Step(s, ExecuteE(i)))
  {
    hide UnitInv, CountsInv, ExecuteOne;
    var s', g := Step(s, ExecuteE(i)), s.insts[i].token;
    ExecuteKeys(s.u, g);
    ExecuteKeepsCounts(s, i);
    forall j: nat | j < |s'.insts| ensures InstOk(s', j) {
      assert InstOk(s, j);
      if s.insts[j].token == g && g !in s'.u.groups { LeavesExecuted(s, i, j); }
    }
  }

  lemma RetireKeepsInsts(s: System, i: nat)
    requires InstInv(s) && Enabled(s, RetireE(i))
    ensures InstInv(Step(s, RetireE(i)))
  {
    var s' := Step(s, RetireE(i));
    forall j: nat | j < |s'.insts| ensures InstOk(s', j) { assert InstOk(s, j); }
    forall h | h in s'.u.groups ensures GroupCounts(s'.u.groups, s'.insts, h) {
      assert GroupCounts(s.u.groups, s.insts, h);
      UpdateKeepsCounts(s.u.groups, s'.u.groups, s.insts, i, s'.insts[i], h);
    }
  }

  lemma RetireKeepsQueues(s: System, i: nat)
    requires QueueInv(s) && Enabled(s, RetireE(i))
    ensures QueueInv(Step(s, RetireE(i)))
  {
    var s' := Step(s, RetireE(i));
    CountUpdate(s.insts, i, s'.insts[i], HoldsLoadSlot());
    CountUpdate(s.insts, i, s'.insts[i], HoldsStoreSlot());
  }

  lemma CycleKeepsInv(s: System)
    requires Inv(s)
    ensures Inv(Step(s, CycleE))
  {
    var s' := Step(s, CycleE);
    assert s'.u.LoadDominator() == s.u.LoadDominator();
    forall j: nat | j < |s'.insts| ensures InstOk(s', j) { assert InstOk(s, j); }
    forall h | h in s'.u.groups ensures GroupCounts(s'.u.groups, s'.insts, h) {
      assert GroupCounts(s.u.groups, s.insts, h);
    }
  }

  // ---------------------------------------------------------------------------
  // All steps
  // ---------------------------------------------------------------------------

  function Initial(cfg: Config): System { System(InitialLSU(cfg), [], {}, {}) }

  lemma InitialInv(cfg: Config)
    ensures Inv(Initial(cfg))
  {
  }

  lemma StepKeepsInv(s: System, e: Event)
    requires Inv(s) && Enabled(s, e)
    ensures LookupsSucceed(s, e) && Inv(Step(s, e))
  {
    LookupsNeverFail(s, e);
    match e
    case DispatchE(inst) =>
      DispatchKeepsUnit(s.u, s.stores, inst);
      DispatchKeepsInsts(s, inst);
      DispatchKeepsQueues(s, inst);
    case IssueE(i) =>
      DispatchedIsUnissued(s, i);
      IssueKeepsUnit(s.u, s.stores, s.insts[i].token);
      IssueKeepsInsts(s, i);
      PhaseKeepsQueues(s, Step(s, e), i, Issued);
    case ExecuteE(i) =>
      IssuedIsExecuting(s, i);
      ExecuteKeepsUnit(s.u, s.stores, s.insts[i].token);
      ExecuteKeepsInsts(s, i);
      PhaseKeepsQueues(s, Step(s, e), i, Executed);
    case RetireE(i) =>
      RetireKeepsInsts(s, i);
      RetireKeepsQueues(s, i);
      assert UnitInv(Step(s, e).u, s.stores) by { assert Step(s, e).u.LoadDominator() == s.u.LoadDominator(); }
    case CycleE => CycleKeepsInv(s);
  }
}
