/** Memory operations behind older stores: in which runs they wait for them all. */
module LSUnitStores {
  import opened MemoryGroups
  import opened LSUnitSpec
  import opened LSUnitInvariant
  import opened LSUnitSteps
  import opened LSUnitChains
  import opened LSUnitRuns
  import opened LSUnitWaits
  import opened LSUnitHeld

  // ---------------------------------------------------------------------------
  // Marks that all younger targets wait for
  // ---------------------------------------------------------------------------

  ghost predicate AllWait(gs: Groups, marks: set<nat>, targets: set<nat>) {
    forall m: nat, t: nat {:trigger Waits(gs, m, t)} |
      m in marks && m in gs && t in targets && t in gs && m < t :: Waits(gs, m, t)
  }

  lemma AllWaitStays(s: System, e: Event, marks: set<nat>, targets: set<nat>)
    requires Inv(s) && Enabled(s, e) && LookupsSucceed(s, e) && AllWait(s.u.groups, marks, targets)
    requires forall g | g in marks + targets && g in Step(s, e).u.groups :: g in s.u.groups
    ensures AllWait(Step(s, e).u.groups, marks, targets)
  {
    hide Step, Waits, KeepsHeld, KeepsData, Inv;
    StepKeepsHeld(s, e);
    var gs' := Step(s, e).u.groups;
    forall m: nat, t: nat | m in marks && m in gs' && t in targets && t in gs' && m < t ensures Waits(gs', m, t) {
      assert m in s.u.groups && t in s.u.groups && Waits(s.u.groups, m, t);
      WaitsStaysHere(s, e, m, t);
    }
  }

  /** A newest group that waits for all marks. */
  lemma AllWaitNew(gs: Groups, marks: set<nat>, targets: set<nat>, n: nat, isMark: bool)
    requires AllWait(gs, marks, targets) && (forall t | t in targets :: t < n)
    requires forall m | m in marks && m in gs :: Waits(gs, m, n)
    ensures AllWait(gs, if isMark then marks + {n} else marks, targets + {n})
  {
    hide Waits;
  }

  /** Whoever waits for `b` waits for everything that `b` waits for. */
  lemma HeldThrough(u: LSU, inst: MemInst, m: nat, b: nat)
    requires u.CursorsLive() && GraphInv(u.groups, u.nextGroupID)
    requires Waits(u.groups, m, b) && HeldAtDispatch(u, inst, b)
    ensures HeldAtDispatch(u, inst, m)
  {
    hide Waits;
    var gs, next := u.groups, u.nextGroupID;
    WaitsTrans(gs, next, m, b, u.LoadDominator());
    WaitsTrans(gs, next, m, b, u.curStoreBarrier);
    WaitsTrans(gs, next, m, b, u.curStore);
    WaitsTrans(gs, next, m, b, u.curLoadBarrier);
    WaitsTrans(gs, next, m, b, u.curLoad);
  }

  lemma WaitsTrans(gs: Groups, next: nat, m: nat, b: nat, p: nat)
    requires GraphInv(gs, next) && Waits(gs, m, b)
    ensures Waits(gs, b, p) ==> Waits(gs, m, p)
  {
    if Waits(gs, b, p) {
      var h: nat :| h in gs[m].dataSucc && h <= b && Leads(gs, h, b);
      var x: nat :| x in gs[b].dataSucc && x <= p && Leads(gs, x, p);
      HeldNotReady(gs, next, b, x);
      LeadsAppend(gs, h, b, x);
      LeadsTrans(gs, next, h, x, p);
    }
  }

  lemma {:induction false} LeadsTrans(gs: Groups, next: nat, h: nat, x: nat, p: nat)
    requires GraphInv(gs, next) && h <= x <= p && Leads(gs, h, x) && Leads(gs, x, p)
    ensures Leads(gs, h, p)
    decreases x - h
  {
    if h == x {
    } else {
      var y: nat :| h < y <= x && HoldsBack(gs, h, y) && Leads(gs, y, x);
      LeadsTrans(gs, next, y, x, p);
    }
  }

  /** A live group has an instruction that has not executed. */
  lemma SomeoneUnexecuted(s: System, g: nat) returns (i: nat)
    requires Inv(s) && g in s.u.groups
    ensures i < |s.insts| && s.insts[i].token == g && s.insts[i].phase != Executed
  {
    if s.u.groups[g].IsExecuting() {
      i := SomeoneToExecute(s, g);
    } else {
      i := SomeoneToIssue(s, g);
    }
  }

  // ---------------------------------------------------------------------------
  // Every operation waits for every older store
  // ---------------------------------------------------------------------------

  /** No instruction joins a group that is not younger than a live older store. */
  ghost predicate YoungerThanStores(s: System) {
    forall i: nat, j: nat | i < j < |s.insts| && s.insts[i].inst.IsStore() && s.insts[i].token in s.u.groups ::
      s.insts[i].token < s.insts[j].token
  }

  ghost predicate OnlyStores(s: System) {
    forall j: nat | j < |s.insts| && s.insts[j].token in s.stores :: s.insts[j].inst.IsStore()
  }

  /** Every live group waits for every older live store. */
  ghost predicate StoreOrder(s: System) {
    && AllWait(s.u.groups, s.stores, s.u.groups.Keys)
    && (forall m | m in s.stores && m in s.u.groups :: s.u.curStore != 0 && m <= s.u.curStore)
    && YoungerThanStores(s) && OnlyStores(s)
  }

  /** What makes an instruction wait for the current store: it is taken to alias it, or
      it is linked to a cursor that already waits, or joins a group that does. */
  predicate StoreGuard(u: LSU, inst: MemInst)
    requires u.CursorsLive()
  {
    var c, d := u.curStore, u.LoadDominator();
    || c == 0 || MayAlias(u.cfg, inst, c)
    || (if inst.IsStore() then d > c || u.curStoreBarrier == c
        else NeedsNewLoadGroup(u, inst) ==> (if inst.isLoadBarrier then d else u.curLoadBarrier) >= c)
  }

  /** Once everything waits for the older stores, the guard decides whether the next does. */
  lemma GuardIffHeld(s: System, inst: MemInst)
    requires Inv(s) && BarrierInv(s) && StoreOrder(s) && s.u.curStore != 0
    ensures StoreGuard(s.u, inst) <==> HeldAtDispatch(s.u, inst, s.u.curStore)
  {
    hide Waits, InstInv, QueueInv, GraphInv, YoungerThanStores, OnlyStores;
    var u := s.u;
    var gs, c := u.groups, u.curStore;
    var q := if inst.isLoadBarrier then u.LoadDominator() else u.curLoadBarrier;
    BarrierIsNoYounger(s);
    WaitsUpward(u, s.stores, c, u.LoadDominator());
    WaitsUpward(u, s.stores, c, u.curStoreBarrier);
    WaitsUpward(u, s.stores, c, c);
    WaitsUpward(u, s.stores, c, q);
    WaitsUpward(u, s.stores, c, u.curLoad);
  }

  lemma BarrierIsNoYounger(s: System)
    requires BarrierInv(s) && StoreOrder(s)
    ensures s.u.curStoreBarrier != 0 ==> s.u.curStoreBarrier <= s.u.curStore
  {
  }

  lemma WaitsUpward(u: LSU, stores: set<nat>, c: nat, p: nat)
    requires GraphInv(u.groups, u.nextGroupID) && AllWait(u.groups, stores, u.groups.Keys) && c in stores && c in u.groups
    requires p != 0 ==> p in u.groups
    ensures Waits(u.groups, c, p) <==> c < p
  {
    if Waits(u.groups, c, p) { WaitsNotReady(u.groups, u.nextGroupID, c, p); }
  }

  lemma TokenOfLoad(s: System, inst: MemInst)
    requires Inv(s)
    ensures s.u.CursorsLive() && s.u.IdsBelowNext()
    ensures var token := Dispatch(s.u, inst).1;
            token == s.u.nextGroupID || (!inst.IsStore() && token == s.u.curLoad && token > s.u.curStore)
    ensures forall t | t in s.stores :: t < s.u.nextGroupID
  {
    hide InstInv, QueueInv, GraphInv, StoreGroups, LoadGroups, AddInstruction;
  }

  lemma DispatchKeepsYounger(s: System, inst: MemInst)
    requires Inv(s) && StoreOrder(s) && inst.IsMemOp()
    ensures YoungerThanStores(Step(s, DispatchE(inst))) && OnlyStores(Step(s, DispatchE(inst)))
  {
    hide AllWait, QueueInv, CountsInv, StoresAreYounger, UnitInv, Dispatch;
    TokenOfLoad(s, inst);
    var s' := Step(s, DispatchE(inst));
    DispatchCounts(s.u, s.stores, inst);
    forall i: nat, j: nat | i < j < |s'.insts| && s'.insts[i].inst.IsStore() && s'.insts[i].token in s'.u.groups
      ensures s'.insts[i].token < s'.insts[j].token
    {
      assert InstOk(s, i);
    }
    forall j: nat | j < |s'.insts| && s'.insts[j].token in s'.stores ensures s'.insts[j].inst.IsStore() {
      if j < |s.insts| { assert InstOk(s, j); }
    }
  }

  lemma DispatchKeepsAllWait(s: System, inst: MemInst)
    requires Inv(s) && BarrierInv(s) && StoreOrder(s) && Enabled(s, DispatchE(inst)) && StoreGuard(s.u, inst)
    ensures var s' := Step(s, DispatchE(inst)); AllWait(s'.u.groups, s'.stores, s'.u.groups.Keys)
  {
    hide Dispatch, Waits, StoreGuard, HeldAtDispatch, BarrierInv, InstInv, QueueInv, GraphInv;
    var s' := Step(s, DispatchE(inst));
    DispatchCounts(s.u, s.stores, inst);
    AllWaitStays(s, DispatchE(inst), s.stores, s.u.groups.Keys);
    var token := Dispatch(s.u, inst).1;
    forall m: nat, t: nat | m in s'.stores && m in s'.u.groups && t in s'.u.groups && m < t ensures Waits(s'.u.groups, m, t) {
      if t !in s.u.groups {
        assert t == token && m in s.stores && m in s.u.groups;
        NextWaits(s, inst, m);
        HeldAtDispatchIff(s, inst, m);
      }
    }
  }

  lemma NextWaits(s: System, inst: MemInst, m: nat)
    requires Inv(s) && BarrierInv(s) && StoreOrder(s) && StoreGuard(s.u, inst) && m in s.stores && m in s.u.groups
    ensures HeldAtDispatch(s.u, inst, m)
  {
    hide Waits, HeldAtDispatch, StoreGuard, InstInv, QueueInv, BarrierInv;
    GuardIffHeld(s, inst);
    if m < s.u.curStore {
      assert Waits(s.u.groups, m, s.u.curStore);
      HeldThrough(s.u, inst, m, s.u.curStore);
    }
  }

  lemma DispatchKeepsStoreOrder(s: System, inst: MemInst)
    requires Inv(s) && BarrierInv(s) && StoreOrder(s) && Enabled(s, DispatchE(inst)) && StoreGuard(s.u, inst)
    ensures StoreOrder(Step(s, DispatchE(inst)))
  {
    hide AllWait, YoungerThanStores, OnlyStores, InstInv, QueueInv, StoreGuard;
    DispatchKeepsAllWait(s, inst);
    DispatchKeepsYounger(s, inst);
    DispatchCounts(s.u, s.stores, inst);
  }

  lemma IssueKeepsStoreOrder(s: System, i: nat)
    requires Inv(s) && StoreOrder(s) && Enabled(s, IssueE(i)) && LookupsSucceed(s, IssueE(i))
    ensures StoreOrder(Step(s, IssueE(i)))
  {
    AllWaitStays(s, IssueE(i), s.stores, s.u.groups.Keys);
    hide AllWait, Inv;
  }

  lemma ExecuteKeepsStoreOrder(s: System, i: nat)
    requires Inv(s) && StoreOrder(s) && Enabled(s, ExecuteE(i)) && LookupsSucceed(s, ExecuteE(i))
    ensures StoreOrder(Step(s, ExecuteE(i)))
  {
    hide InstInv, QueueInv, GraphInv, ExecuteOne, Waits;
    var s', g := Step(s, ExecuteE(i)), s.insts[i].token;
    ExecuteKeys(s.u, g);
    AllWaitStays(s, ExecuteE(i), s.stores, s.u.groups.Keys);
    // the current store executes only after all older stores have left
    forall m | m in s.stores && m in s'.u.groups ensures s.u.curStore in s'.u.groups {
      if m < s.u.curStore {
        assert Waits(s.u.groups, m, s.u.curStore);
        MarkLeavesLast(s, i, m, s.u.curStore);
      }
    }
  }

  /** Nothing executes in a group that waits. */
  lemma MarkLeavesLast(s: System, i: nat, m: nat, t: nat)
    requires Inv(s) && Enabled(s, ExecuteE(i)) && LookupsSucceed(s, ExecuteE(i))
    requires Waits(s.u.groups, m, t)
    ensures t in Step(s, ExecuteE(i)).u.groups
  {
    IssuedIsExecuting(s, i);
    ExecuteKeys(s.u, s.insts[i].token);
    WaitsNotReady(s.u.groups, s.u.nextGroupID, m, t);
    assert GroupOk(s.u.groups, s.insts[i].token, s.u.nextGroupID);
  }

  lemma StepKeepsStoreOrder(s: System, e: Event)
    requires Inv(s) && BarrierInv(s) && StoreOrder(s) && Enabled(s, e) && LookupsSucceed(s, e)
    requires e.DispatchE? ==> StoreGuard(s.u, e.inst)
    ensures StoreOrder(Step(s, e))
  {
    match e
    case DispatchE(inst) => DispatchKeepsStoreOrder(s, inst);
    case IssueE(i) => IssueKeepsStoreOrder(s, i);
    case ExecuteE(i) => ExecuteKeepsStoreOrder(s, i);
    case RetireE(i) => hide AllWait, Inv, BarrierInv;
    case CycleE => hide AllWait, Inv, BarrierInv;
  }

  // ---------------------------------------------------------------------------
  // Whole runs
  // ---------------------------------------------------------------------------

  ghost predicate GuardedAt(cfg: Config, ev: seq<Event>, k: nat)
    requires k < |ev|
  {
    && IsRun(cfg, ev[..k]) && After(cfg, ev[..k]).u.CursorsLive()
    && (ev[k].DispatchE? ==> StoreGuard(After(cfg, ev[..k]).u, ev[k].inst))
  }

  /** Every instruction meets the guard when it is dispatched. */
  ghost predicate GuardedStores(cfg: Config, ev: seq<Event>) {
    forall k: nat {:trigger GuardedAt(cfg, ev, k)} | k < |ev| :: GuardedAt(cfg, ev, k)
  }

  lemma {:induction false} RunKeepsStoreOrder(cfg: Config, ev: seq<Event>, k: nat)
    requires IsRun(cfg, ev) && k <= |ev| && forall m: nat {:trigger GuardedAt(cfg, ev, m)} | m < k :: GuardedAt(cfg, ev, m)
    ensures IsRun(cfg, ev[..k]) && StoreOrder(After(cfg, ev[..k]))
  {
    hide StoreOrder, StoreGuard, Step, Enabled, LookupsSucceed, Inv, BarrierInv;
    PrefixIsRun(cfg, ev, k);
    if k == 0 {
      NoStoresYet(cfg);
    } else {
      RunKeepsStoreOrder(cfg, ev, k - 1);
      Extend(cfg, ev, k - 1);
      RunKeepsInv(cfg, ev[..k - 1]);
      assert GuardedAt(cfg, ev, k - 1);
      StepKeepsStoreOrder(After(cfg, ev[..k - 1]), ev[k - 1]);
    }
  }

  lemma NoStoresYet(cfg: Config)
    ensures StoreOrder(Initial(cfg))
  {
  }

  /** The store of index `i` is older than the instruction dispatched as event `k`, and has not executed. */
  ghost predicate OlderStore(cfg: Config, ev: seq<Event>, k: nat, i: nat)
    requires k < |ev|
  {
    && ev[k].DispatchE? && IsRun(cfg, ev[..k])
    && i < |After(cfg, ev[..k]).insts| && After(cfg, ev[..k]).insts[i].inst.IsStore()
    && After(cfg, ev[..k]).insts[i].phase != Executed
  }

  /** No dispatched instruction can, in any continuation, issue before every older store has executed. */
  ghost predicate NonePassesAStore(cfg: Config, ev: seq<Event>) {
    forall k: nat, i: nat {:trigger OlderStore(cfg, ev, k, i)} | k < |ev| && OlderStore(cfg, ev, k, i) ::
      !MayPass(cfg, ev[..k + 1], i, |After(cfg, ev[..k]).insts|)
  }

  /** The exact condition: no instruction of a run can get past an older store if and only if
      each met the guard when it was dispatched. */
  lemma NonePassesAStoreIff(cfg: Config, ev: seq<Event>)
    requires IsRun(cfg, ev)
    ensures NonePassesAStore(cfg, ev) <==> GuardedStores(cfg, ev)
  {
    if GuardedStores(cfg, ev) {
      forall k: nat, i: nat | k < |ev| && OlderStore(cfg, ev, k, i)
        ensures !MayPass(cfg, ev[..k + 1], i, |After(cfg, ev[..k]).insts|)
      {
        GuardedWaits(cfg, ev, k, i);
      }
    }
    if NonePassesAStore(cfg, ev) {
      forall k: nat | k < |ev| ensures GuardedAt(cfg, ev, k) { WaitsMeansGuarded(cfg, ev, k); }
    }
  }

  lemma GuardedWaits(cfg: Config, ev: seq<Event>, k: nat, i: nat)
    requires IsRun(cfg, ev) && GuardedStores(cfg, ev) && k < |ev| && OlderStore(cfg, ev, k, i)
    ensures !MayPass(cfg, ev[..k + 1], i, |After(cfg, ev[..k]).insts|)
  {
    hide StoreOrder, StoreGuard, Step, Enabled, LookupsSucceed, HeldAtDispatch, MayPass;
    var s, inst := After(cfg, ev[..k]), ev[k].inst;
    RunKeepsStoreOrder(cfg, ev, k);
    RunKeepsInv(cfg, ev[..k]);
    Extend(cfg, ev, k);
    assert ev[..k] + [DispatchE(inst)] == ev[..k + 1];
    assert GuardedAt(cfg, ev, k) && InstOk(s, i);
    NextWaits(s, inst, s.insts[i].token);
    DispatchedMayPassIff(cfg, ev[..k], inst, i);
  }

  lemma {:induction false} WaitsMeansGuarded(cfg: Config, ev: seq<Event>, k: nat)
    requires IsRun(cfg, ev) && NonePassesAStore(cfg, ev) && k < |ev|
    ensures GuardedAt(cfg, ev, k)
    decreases k
  {
    hide StoreOrder, StoreGuard, Step, Enabled, LookupsSucceed, HeldAtDispatch, MayPass;
    forall m: nat | m < k ensures GuardedAt(cfg, ev, m) { WaitsMeansGuarded(cfg, ev, m); }
    RunKeepsStoreOrder(cfg, ev, k);
    RunKeepsInv(cfg, ev[..k]);
    Extend(cfg, ev, k);
    var s := After(cfg, ev[..k]);
    CursorsOf(s);
    if ev[k].DispatchE? && s.u.curStore != 0 {
      var inst := ev[k].inst;
      assert ev[..k] + [DispatchE(inst)] == ev[..k + 1];
      var i := SomeoneUnexecuted(s, s.u.curStore);
      CurrentIsAStore(s, i);
      assert OlderStore(cfg, ev, k, i);
      DispatchedMayPassIff(cfg, ev[..k], inst, i);
      GuardIffHeld(s, inst);
    } else if ev[k].DispatchE? {
      NoStoreNoGuard(s.u, ev[k].inst);
    }
  }

  lemma CursorsOf(s: System)
    requires Inv(s)
    ensures s.u.CursorsLive() && (s.u.curStore != 0 ==> s.u.curStore in s.stores)
  {
  }

  lemma NoStoreNoGuard(u: LSU, inst: MemInst)
    requires u.CursorsLive() && u.curStore == 0
    ensures StoreGuard(u, inst)
  {
  }

  lemma CurrentIsAStore(s: System, i: nat)
    requires Inv(s) && StoreOrder(s) && i < |s.insts| && s.u.curStore != 0 && s.insts[i].token == s.u.curStore
    ensures s.insts[i].inst.IsStore()
  {
    hide AllWait;
  }

  /** So in such a run nothing issues before every older store has executed. */
  lemma IssueAfterOlderStores(cfg: Config, ev: seq<Event>, k: nat, i: nat, j: nat)
    requires IsRun(cfg, ev) && GuardedStores(cfg, ev) && k < |ev| && ev[k] == IssueE(j)
    requires j < |After(cfg, ev).insts| && i < j && After(cfg, ev).insts[i].inst.IsStore()
    ensures ExecuteE(i) in ev[..k]
  {
    hide StoreOrder, Step, Enabled, LookupsSucceed;
    RunKeepsStoreOrder(cfg, ev, k);
    RunKeepsInv(cfg, ev[..k]);
    Extend(cfg, ev, k);
    var s := After(cfg, ev[..k]);
    InstsStay(cfg, ev, k, i);
    CanIssue(s, j);
    if s.insts[i].token in s.u.groups {
      YoungerWaits(s, i, j);
      IssuesAfter(cfg, ev, k, k, i, j);
    } else {
      assert InstOk(s, i);
      PhaseHappened(cfg, ev[..k], i);
    }
  }

  lemma CanIssue(s: System, j: nat)
    requires Inv(s) && Enabled(s, IssueE(j))
    ensures j < |s.insts| && s.insts[j].token in s.u.groups
  {
    DispatchedIsUnissued(s, j);
  }

  lemma YoungerWaits(s: System, i: nat, j: nat)
    requires Inv(s) && StoreOrder(s) && i < j < |s.insts| && s.insts[i].inst.IsStore()
    requires s.insts[i].token in s.u.groups && s.insts[j].token in s.u.groups
    ensures WaitsFor(s, i, j)
  {
    assert InstOk(s, i);
  }

  predicate NoMetadata(e: Event) { e.DispatchE? ==> e.inst.md.None? }

  /** Without access metadata and with no-alias off every run is of that kind: loads,
      including those that join an existing load group, wait for all older stores. */
  lemma NoMetadataOrdersAll(cfg: Config, ev: seq<Event>, k: nat, i: nat, j: nat)
    requires IsRun(cfg, ev) && !cfg.assumeNoAlias && (forall e | e in ev :: NoMetadata(e))
    requires k < |ev| && ev[k] == IssueE(j)
    requires j < |After(cfg, ev).insts| && i < j && After(cfg, ev).insts[i].inst.IsStore()
    ensures ExecuteE(i) in ev[..k]
  {
    forall m: nat | m < |ev| ensures GuardedAt(cfg, ev, m) {
      PrefixIsRun(cfg, ev, m);
      ConfigStays(cfg, ev[..m]);
      RunKeepsInv(cfg, ev[..m]);
      CursorsOf(After(cfg, ev[..m]));
      assert NoMetadata(ev[m]);
    }
    IssueAfterOlderStores(cfg, ev, k, i, j);
  }

  ghost predicate PlainStore(inst: MemInst) { inst.mayStore && !inst.mayLoad && inst.md.None? }

  ghost predicate PlainLoad(inst: MemInst) { inst.mayLoad && !inst.mayStore && inst.md.None? }

  lemma OvertakingStates(cfg: Config, store: MemInst, load: MemInst)
    requires cfg.assumeNoAlias && PlainStore(store) && PlainLoad(load)
    ensures var s0 := Initial(cfg);
            && Enabled(s0, DispatchE(store)) && LookupsSucceed(s0, DispatchE(store))
            && var s1 := Step(s0, DispatchE(store));
               && Enabled(s1, DispatchE(load)) && LookupsSucceed(s1, DispatchE(load))
               && Enabled(Step(s1, DispatchE(load)), IssueE(1))
  {
    var s1 := Step(Initial(cfg), DispatchE(store));
    assert s1.u.groups == map[1 := SINGLETON];
    var s2 := Step(s1, DispatchE(load));
    assert s2.u.groups == map[1 := SINGLETON, 2 := SINGLETON];
  }

  /** The condition is needed: with no-alias on, any plain load may issue while the plain
      store before it has not even issued. */
  lemma NoAliasLetsALoadOvertake(cfg: Config, store: MemInst, load: MemInst)
    requires cfg.assumeNoAlias && PlainStore(store) && PlainLoad(load)
    ensures IsRun(cfg, [DispatchE(store), DispatchE(load), IssueE(1)])
  {
    OvertakingStates(cfg, store, load);
    TwoEventRun(cfg, DispatchE(store), DispatchE(load));
    var ev := [DispatchE(store), DispatchE(load)];
    RunNeverStops(cfg, ev, IssueE(1));
    assert ev + [IssueE(1)] == [DispatchE(store), DispatchE(load), IssueE(1)];
  }
}
