/** Loads behind older load barriers: in which runs they wait for them all. */
module LSUnitLoads {
  import opened MemoryGroups
  import opened LSUnitSpec
  import opened LSUnitInvariant
  import opened LSUnitSteps
  import opened LSUnitRuns
  import opened LSUnitWaits
  import opened LSUnitHeld
  import opened LSUnitStores

  predicate IsBarrier(inst: MemInst) { inst.mayLoad && inst.isLoadBarrier }

  ghost function LoadIds(insts: seq<InFlight>): set<nat> {
    set i: nat | i < |insts| && insts[i].inst.mayLoad :: insts[i].token
  }

  ghost function BarrierIds(insts: seq<InFlight>): set<nat> {
    set i: nat | i < |insts| && IsBarrier(insts[i].inst) :: insts[i].token
  }

  lemma IdsAppend(insts: seq<InFlight>, f: InFlight)
    ensures LoadIds(insts + [f]) == if f.inst.mayLoad then LoadIds(insts) + {f.token} else LoadIds(insts)
    ensures BarrierIds(insts + [f]) == if IsBarrier(f.inst) then BarrierIds(insts) + {f.token} else BarrierIds(insts)
  {
    var insts' := insts + [f];
    forall i: nat | i < |insts| ensures insts'[i] == insts[i] {}
    assert insts'[|insts|] == f;
  }

  /** The same instructions in the same groups. */
  ghost predicate SameWho(insts: seq<InFlight>, insts': seq<InFlight>) {
    |insts'| == |insts| && forall i: nat | i < |insts| :: insts'[i].inst == insts[i].inst && insts'[i].token == insts[i].token
  }

  lemma IdsSame(insts: seq<InFlight>, insts': seq<InFlight>)
    requires SameWho(insts, insts')
    ensures LoadIds(insts') == LoadIds(insts) && BarrierIds(insts') == BarrierIds(insts)
  {
    forall t | t in LoadIds(insts) ensures t in LoadIds(insts') {
      var i: nat :| i < |insts| && insts[i].inst.mayLoad && insts[i].token == t;
      assert insts'[i].token == t;
    }
    forall t | t in BarrierIds(insts) ensures t in BarrierIds(insts') {
      var i: nat :| i < |insts| && IsBarrier(insts[i].inst) && insts[i].token == t;
      assert insts'[i].token == t;
    }
    forall t | t in LoadIds(insts') ensures t in LoadIds(insts) {
      var i: nat :| i < |insts| && insts'[i].inst.mayLoad && insts'[i].token == t;
      assert insts[i].token == t;
    }
    forall t | t in BarrierIds(insts') ensures t in BarrierIds(insts) {
      var i: nat :| i < |insts| && IsBarrier(insts'[i].inst) && insts'[i].token == t;
      assert insts[i].token == t;
    }
  }

  // ---------------------------------------------------------------------------
  // Every load waits for every older load barrier
  // ---------------------------------------------------------------------------

  /** No load joins a group that is not younger than a live older barrier. */
  ghost predicate YoungerThanBarriers(gs: Groups, insts: seq<InFlight>) {
    forall i: nat, j: nat | i < j < |insts| && IsBarrier(insts[i].inst) && insts[j].inst.mayLoad && insts[i].token in gs ::
      insts[i].token < insts[j].token
  }

  ghost predicate OnlyBarriers(insts: seq<InFlight>) {
    forall j: nat | j < |insts| && insts[j].token in BarrierIds(insts) :: IsBarrier(insts[j].inst)
  }

  /** The barrier cursor names the youngest live barrier, the load cursor a load. */
  ghost predicate CursorsMark(u: LSU, marks: set<nat>, loads: set<nat>) {
    && (forall m | m in marks && m in u.groups :: u.curLoadBarrier != 0 && m <= u.curLoadBarrier)
    && (u.curLoadBarrier != 0 ==> u.curLoadBarrier in marks)
    && (u.curLoad != 0 ==> u.curLoad in loads)
  }

  /** Every live group with a load waits for every older live barrier. */
  ghost predicate BarrierOrder(s: System) {
    var marks, loads := BarrierIds(s.insts), LoadIds(s.insts);
    && AllWait(s.u.groups, marks, loads) && CursorsMark(s.u, marks, loads)
    && YoungerThanBarriers(s.u.groups, s.insts) && OnlyBarriers(s.insts)
  }

  /** Loads wait for the current barrier by construction.  A store that also loads does if a younger
      load came in between, if it is not answered "no alias" against the last load, or if the
      barrier is the store barrier, or the last store or store barrier already waits for it. */
  ghost predicate BarrierGuard(u: LSU, inst: MemInst)
    requires u.CursorsLive()
  {
    var b, d := u.curLoadBarrier, u.LoadDominator();
    b != 0 && inst.mayLoad && inst.IsStore() ==>
      || b < d || MayAlias(u.cfg, inst, d) || b == u.curStoreBarrier
      || Waits(u.groups, b, u.curStoreBarrier) || Waits(u.groups, b, u.curStore)
  }

  lemma TokenIds(s: System)
    requires Inv(s)
    ensures forall t | t in LoadIds(s.insts) :: t < s.u.nextGroupID
    ensures BarrierIds(s.insts) <= LoadIds(s.insts)
  {
    forall t | t in LoadIds(s.insts) ensures t < s.u.nextGroupID {
      var i: nat :| i < |s.insts| && s.insts[i].inst.mayLoad && s.insts[i].token == t;
      assert InstOk(s, i);
    }
  }

  lemma LoadWaitsUpward(u: LSU, marks: set<nat>, loads: set<nat>, b: nat, p: nat)
    requires GraphInv(u.groups, u.nextGroupID) && AllWait(u.groups, marks, loads) && b in marks && b in u.groups
    requires p != 0 ==> p in u.groups && p in loads
    ensures Waits(u.groups, b, p) <==> b < p
  {
    if Waits(u.groups, b, p) { WaitsNotReady(u.groups, u.nextGroupID, b, p); }
  }

  /** A load always waits for the current barrier, unless it is a store too. */
  lemma LoadIsHeld(s: System, inst: MemInst)
    requires Inv(s) && BarrierOrder(s) && s.u.curLoadBarrier != 0 && !inst.IsStore()
    ensures HeldAtDispatch(s.u, inst, s.u.curLoadBarrier)
  {
    hide Waits, InstInv, QueueInv, GraphInv, YoungerThanBarriers, OnlyBarriers, LoadIds, BarrierIds;
    var u, marks, loads := s.u, BarrierIds(s.insts), LoadIds(s.insts);
    LoadWaitsUpward(u, marks, loads, u.curLoadBarrier, u.curLoad);
  }

  /** Once all loads wait for the older barriers, the guard decides whether the next does. */
  lemma BarrierGuardIffHeld(s: System, inst: MemInst)
    requires Inv(s) && BarrierOrder(s) && s.u.curLoadBarrier != 0 && inst.mayLoad && inst.IsStore()
    ensures BarrierGuard(s.u, inst) <==> HeldAtDispatch(s.u, inst, s.u.curLoadBarrier)
  {
    hide Waits, InstInv, QueueInv, GraphInv, YoungerThanBarriers, OnlyBarriers, LoadIds, BarrierIds;
    TokenIds(s);
    LoadWaitsUpward(s.u, BarrierIds(s.insts), LoadIds(s.insts), s.u.curLoadBarrier, s.u.LoadDominator());
  }

  lemma NextLoadWaits(s: System, inst: MemInst, m: nat)
    requires Inv(s) && BarrierOrder(s) && BarrierGuard(s.u, inst) && inst.mayLoad
    requires m in BarrierIds(s.insts) && m in s.u.groups
    ensures HeldAtDispatch(s.u, inst, m)
  {
    hide Waits, HeldAtDispatch, BarrierGuard, InstInv, QueueInv, LoadIds, BarrierIds, YoungerThanBarriers, OnlyBarriers;
    var b := s.u.curLoadBarrier;
    if inst.IsStore() { BarrierGuardIffHeld(s, inst); } else { LoadIsHeld(s, inst); }
    TokenIds(s);
    if m < b {
      assert Waits(s.u.groups, m, b);
      HeldThrough(s.u, inst, m, b);
    }
  }

  lemma TokenOfDispatch(s: System, inst: MemInst)
    requires Inv(s)
    ensures s.u.CursorsLive() && s.u.IdsBelowNext()
    ensures var token := Dispatch(s.u, inst).1;
            token == s.u.nextGroupID || (!IsBarrier(inst) && token == s.u.curLoad && token > s.u.curLoadBarrier)
  {
    hide InstInv, QueueInv, GraphInv, StoreGroups, LoadGroups, AddInstruction;
  }

  lemma DispatchKeepsTokens(s: System, inst: MemInst)
    requires Inv(s) && BarrierOrder(s) && inst.IsMemOp()
    ensures var s' := Step(s, DispatchE(inst));
            YoungerThanBarriers(s'.u.groups, s'.insts) && OnlyBarriers(s'.insts)
  {
    hide AllWait, LoadIds, BarrierIds, QueueInv, CountsInv, StoresAreYounger, UnitInv, Dispatch;
    TokenOfDispatch(s, inst);
    var s', token := Step(s, DispatchE(inst)), Dispatch(s.u, inst).1;
    DispatchCounts(s.u, s.stores, inst);
    IdsAppend(s.insts, s'.insts[|s.insts|]);
    TokenIds(s);
    BarrierTokens(s.insts);
    forall i: nat, j: nat | && i < j < |s'.insts| && IsBarrier(s'.insts[i].inst) && s'.insts[j].inst.mayLoad
                            && s'.insts[i].token in s'.u.groups
      ensures s'.insts[i].token < s'.insts[j].token
    {
      assert InstOk(s, i);
    }
    forall j: nat | j < |s'.insts| && s'.insts[j].token in BarrierIds(s'.insts) ensures IsBarrier(s'.insts[j].inst) {
      if j < |s.insts| { assert InstOk(s, j); }
    }
  }

  lemma BarrierTokens(insts: seq<InFlight>)
    ensures forall i: nat | i < |insts| && IsBarrier(insts[i].inst) :: insts[i].token in BarrierIds(insts)
  {
  }

  lemma NewLoadWaits(s: System, inst: MemInst, m: nat)
    requires Inv(s) && BarrierOrder(s) && BarrierGuard(s.u, inst) && inst.mayLoad
    requires m in BarrierIds(s.insts) && m in s.u.groups
    ensures Waits(Step(s, DispatchE(inst)).u.groups, m, Dispatch(s.u, inst).1)
  {
    hide Waits, HeldAtDispatch, BarrierOrder, BarrierGuard, BarrierIds, InstInv, QueueInv, GraphInv;
    NextLoadWaits(s, inst, m);
    HeldAtDispatchIff(s, inst, m);
  }

  lemma DispatchKeepsAllLoadsWait(s: System, inst: MemInst)
    requires Inv(s) && BarrierOrder(s) && Enabled(s, DispatchE(inst)) && BarrierGuard(s.u, inst)
    ensures var s' := Step(s, DispatchE(inst)); AllWait(s'.u.groups, BarrierIds(s'.insts), LoadIds(s'.insts))
  {
    hide Waits, AllWait, BarrierGuard, InstInv, QueueInv, GraphInv, LoadIds, BarrierIds, StoreGroups, LoadGroups;
    hide YoungerThanBarriers, OnlyBarriers;
    var s', token := Step(s, DispatchE(inst)), Dispatch(s.u, inst).1;
    var marks, loads := BarrierIds(s.insts), LoadIds(s.insts);
    DispatchCounts(s.u, s.stores, inst);
    IdsAppend(s.insts, s'.insts[|s.insts|]);
    TokenIds(s);
    AllWaitStays(s, DispatchE(inst), marks, loads);
    if inst.mayLoad && token == s.u.nextGroupID {
      forall m | m in marks && m in s'.u.groups ensures Waits(s'.u.groups, m, token) { NewLoadWaits(s, inst, m); }
      AllWaitNew(s'.u.groups, marks, loads, token, IsBarrier(inst));
    } else if inst.mayLoad {
      assert loads + {token} == loads;
    }
  }

  lemma DispatchKeepsCursorsMark(s: System, inst: MemInst)
    requires Inv(s) && BarrierOrder(s) && inst.IsMemOp()
    ensures var s' := Step(s, DispatchE(inst)); CursorsMark(s'.u, BarrierIds(s'.insts), LoadIds(s'.insts))
  {
    hide AllWait, YoungerThanBarriers, OnlyBarriers, InstInv, QueueInv, LoadIds, BarrierIds;
    hide StoreGroups, LoadGroups, AddInstruction;
    DispatchCounts(s.u, s.stores, inst);
    IdsAppend(s.insts, Step(s, DispatchE(inst)).insts[|s.insts|]);
    TokenIds(s);
  }

  lemma DispatchKeepsBarrierOrder(s: System, inst: MemInst)
    requires Inv(s) && BarrierOrder(s) && Enabled(s, DispatchE(inst)) && BarrierGuard(s.u, inst)
    ensures BarrierOrder(Step(s, DispatchE(inst)))
  {
    hide AllWait, CursorsMark, YoungerThanBarriers, OnlyBarriers, Inv, Step, BarrierGuard;
    DispatchKeepsAllLoadsWait(s, inst);
    DispatchKeepsCursorsMark(s, inst);
    DispatchKeepsTokens(s, inst);
  }

  lemma IssueKeepsBarrierOrder(s: System, i: nat)
    requires Inv(s) && BarrierOrder(s) && Enabled(s, IssueE(i)) && LookupsSucceed(s, IssueE(i))
    ensures BarrierOrder(Step(s, IssueE(i)))
  {
    hide AllWait, Inv, LoadIds, BarrierIds, IssueOne;
    var s' := Step(s, IssueE(i));
    IdsSame(s.insts, s'.insts);
    IssueMembers(s.u.groups, s.insts[i].token);
    AllWaitStays(s, IssueE(i), BarrierIds(s.insts), LoadIds(s.insts));
  }

  /** The current barrier executes only after all older ones have left. */
  lemma CurrentBarrierLeavesLast(s: System, i: nat, m: nat)
    requires Inv(s) && BarrierOrder(s) && Enabled(s, ExecuteE(i)) && LookupsSucceed(s, ExecuteE(i))
    requires m in BarrierIds(s.insts) && m in Step(s, ExecuteE(i)).u.groups
    ensures s.u.curLoadBarrier in Step(s, ExecuteE(i)).u.groups
  {
    hide Waits, LoadIds, BarrierIds, InstInv, QueueInv, GraphInv, ExecuteOne;
    ExecuteKeys(s.u, s.insts[i].token);
    TokenIds(s);
    if m < s.u.curLoadBarrier {
      assert Waits(s.u.groups, m, s.u.curLoadBarrier);
      MarkLeavesLast(s, i, m, s.u.curLoadBarrier);
    }
  }

  lemma ExecuteKeepsBarrierOrder(s: System, i: nat)
    requires Inv(s) && BarrierOrder(s) && Enabled(s, ExecuteE(i)) && LookupsSucceed(s, ExecuteE(i))
    ensures BarrierOrder(Step(s, ExecuteE(i)))
  {
    hide InstInv, QueueInv, GraphInv, ExecuteOne, LoadIds, BarrierIds, Waits, AllWait;
    var s', marks := Step(s, ExecuteE(i)), BarrierIds(s.insts);
    ExecuteKeys(s.u, s.insts[i].token);
    IdsSame(s.insts, s'.insts);
    AllWaitStays(s, ExecuteE(i), marks, LoadIds(s.insts));
    forall m | m in marks && m in s'.u.groups ensures s.u.curLoadBarrier in s'.u.groups { CurrentBarrierLeavesLast(s, i, m); }
  }

  lemma RetireKeepsBarrierOrder(s: System, i: nat)
    requires BarrierOrder(s) && Enabled(s, RetireE(i))
    ensures BarrierOrder(Step(s, RetireE(i)))
  {
    hide AllWait, LoadIds, BarrierIds;
    IdsSame(s.insts, Step(s, RetireE(i)).insts);
  }

  lemma StepKeepsBarrierOrder(s: System, e: Event)
    requires Inv(s) && BarrierOrder(s) && Enabled(s, e) && LookupsSucceed(s, e)
    requires e.DispatchE? ==> BarrierGuard(s.u, e.inst)
    ensures BarrierOrder(Step(s, e))
  {
    match e
    case DispatchE(inst) => DispatchKeepsBarrierOrder(s, inst);
    case IssueE(i) => IssueKeepsBarrierOrder(s, i);
    case ExecuteE(i) => ExecuteKeepsBarrierOrder(s, i);
    case RetireE(i) => RetireKeepsBarrierOrder(s, i);
    case CycleE => hide AllWait, Inv;
  }

  // ---------------------------------------------------------------------------
  // Whole runs
  // ---------------------------------------------------------------------------

  ghost predicate GuardedAt(cfg: Config, ev: seq<Event>, k: nat)
    requires k < |ev|
  {
    && IsRun(cfg, ev[..k]) && After(cfg, ev[..k]).u.CursorsLive()
    && (ev[k].DispatchE? ==> BarrierGuard(After(cfg, ev[..k]).u, ev[k].inst))
  }

  /** Every store that also loads meets the guard when it is dispatched. */
  ghost predicate GuardedLoads(cfg: Config, ev: seq<Event>) {
    forall k: nat {:trigger GuardedAt(cfg, ev, k)} | k < |ev| :: GuardedAt(cfg, ev, k)
  }

  lemma {:induction false} RunKeepsBarrierOrder(cfg: Config, ev: seq<Event>, k: nat)
    requires IsRun(cfg, ev) && k <= |ev| && forall m: nat {:trigger GuardedAt(cfg, ev, m)} | m < k :: GuardedAt(cfg, ev, m)
    ensures IsRun(cfg, ev[..k]) && BarrierOrder(After(cfg, ev[..k]))
  {
    hide BarrierOrder, BarrierGuard, Step, Enabled, LookupsSucceed, Inv;
    PrefixIsRun(cfg, ev, k);
    if k == 0 {
      NoBarriersYet(cfg);
    } else {
      RunKeepsBarrierOrder(cfg, ev, k - 1);
      Extend(cfg, ev, k - 1);
      RunKeepsInv(cfg, ev[..k - 1]);
      assert GuardedAt(cfg, ev, k - 1);
      StepKeepsBarrierOrder(After(cfg, ev[..k - 1]), ev[k - 1]);
    }
  }

  lemma NoBarriersYet(cfg: Config)
    ensures BarrierOrder(Initial(cfg))
  {
  }

  /** The load barrier of index `i` is older than the load dispatched as event `k`, and has not executed. */
  ghost predicate OlderBarrier(cfg: Config, ev: seq<Event>, k: nat, i: nat)
    requires k < |ev|
  {
    && ev[k].DispatchE? && ev[k].inst.mayLoad && IsRun(cfg, ev[..k])
    && i < |After(cfg, ev[..k]).insts| && IsBarrier(After(cfg, ev[..k]).insts[i].inst)
    && After(cfg, ev[..k]).insts[i].phase != Executed
  }

  /** No dispatched load can, in any continuation, issue before every older load barrier has executed. */
  ghost predicate NonePassesABarrier(cfg: Config, ev: seq<Event>) {
    forall k: nat, i: nat {:trigger OlderBarrier(cfg, ev, k, i)} | k < |ev| && OlderBarrier(cfg, ev, k, i) ::
      !MayPass(cfg, ev[..k + 1], i, |After(cfg, ev[..k]).insts|)
  }

  /** The exact condition: no load of a run can get past an older load barrier if and only if
      every store that also loads met the guard when it was dispatched. */
  lemma NonePassesABarrierIff(cfg: Config, ev: seq<Event>)
    requires IsRun(cfg, ev)
    ensures NonePassesABarrier(cfg, ev) <==> GuardedLoads(cfg, ev)
  {
    if GuardedLoads(cfg, ev) {
      forall k: nat, i: nat | k < |ev| && OlderBarrier(cfg, ev, k, i)
        ensures !MayPass(cfg, ev[..k + 1], i, |After(cfg, ev[..k]).insts|)
      {
        GuardedWaits(cfg, ev, k, i);
      }
    }
    if NonePassesABarrier(cfg, ev) {
      forall k: nat | k < |ev| ensures GuardedAt(cfg, ev, k) { WaitsMeansGuarded(cfg, ev, k); }
    }
  }

  lemma GuardedWaits(cfg: Config, ev: seq<Event>, k: nat, i: nat)
    requires IsRun(cfg, ev) && GuardedLoads(cfg, ev) && k < |ev| && OlderBarrier(cfg, ev, k, i)
    ensures !MayPass(cfg, ev[..k + 1], i, |After(cfg, ev[..k]).insts|)
  {
    hide BarrierOrder, BarrierGuard, Step, Enabled, LookupsSucceed, HeldAtDispatch, MayPass, BarrierIds;
    var s, inst := After(cfg, ev[..k]), ev[k].inst;
    RunKeepsBarrierOrder(cfg, ev, k);
    RunKeepsInv(cfg, ev[..k]);
    Extend(cfg, ev, k);
    assert ev[..k] + [DispatchE(inst)] == ev[..k + 1];
    assert GuardedAt(cfg, ev, k) && InstOk(s, i);
    BarrierTokens(s.insts);
    NextLoadWaits(s, inst, s.insts[i].token);
    DispatchedMayPassIff(cfg, ev[..k], inst, i);
  }

  lemma {:induction false} WaitsMeansGuarded(cfg: Config, ev: seq<Event>, k: nat)
    requires IsRun(cfg, ev) && NonePassesABarrier(cfg, ev) && k < |ev|
    ensures GuardedAt(cfg, ev, k)
    decreases k
  {
    hide BarrierOrder, Step, Enabled, LookupsSucceed, HeldAtDispatch, MayPass;
    forall m: nat | m < k ensures GuardedAt(cfg, ev, m) { WaitsMeansGuarded(cfg, ev, m); }
    RunKeepsBarrierOrder(cfg, ev, k);
    RunKeepsInv(cfg, ev[..k]);
    Extend(cfg, ev, k);
    var s := After(cfg, ev[..k]);
    BarrierCursor(s);
    if ev[k].DispatchE? && s.u.curLoadBarrier != 0 && ev[k].inst.mayLoad {
      var inst := ev[k].inst;
      assert ev[..k] + [DispatchE(inst)] == ev[..k + 1];
      var i := SomeoneUnexecuted(s, s.u.curLoadBarrier);
      CurrentIsABarrier(s, i);
      assert OlderBarrier(cfg, ev, k, i);
      DispatchedMayPassIff(cfg, ev[..k], inst, i);
      if inst.IsStore() { BarrierGuardIffHeld(s, inst); }
    }
  }

  lemma BarrierCursor(s: System)
    requires Inv(s)
    ensures s.u.CursorsLive()
  {
  }

  lemma CurrentIsABarrier(s: System, i: nat)
    requires BarrierOrder(s) && i < |s.insts| && s.u.curLoadBarrier != 0 && s.insts[i].token == s.u.curLoadBarrier
    ensures IsBarrier(s.insts[i].inst)
  {
    hide AllWait, BarrierIds;
  }

  /** So in such a run no load issues before every older load barrier has executed. */
  lemma LoadIssuesAfterBarriers(cfg: Config, ev: seq<Event>, k: nat, i: nat, j: nat)
    requires IsRun(cfg, ev) && GuardedLoads(cfg, ev) && k < |ev| && ev[k] == IssueE(j)
    requires j < |After(cfg, ev).insts| && i < j
    requires IsBarrier(After(cfg, ev).insts[i].inst) && After(cfg, ev).insts[j].inst.mayLoad
    ensures ExecuteE(i) in ev[..k]
  {
    hide BarrierOrder, Step, Enabled, LookupsSucceed;
    RunKeepsBarrierOrder(cfg, ev, k);
    RunKeepsInv(cfg, ev[..k]);
    Extend(cfg, ev, k);
    var s := After(cfg, ev[..k]);
    CanIssue(s, j);
    InstsStay(cfg, ev, k, i);
    InstsStay(cfg, ev, k, j);
    if s.insts[i].token in s.u.groups {
      YoungerLoadWaits(s, i, j);
      IssuesAfter(cfg, ev, k, k, i, j);
    } else {
      assert InstOk(s, i);
      PhaseHappened(cfg, ev[..k], i);
    }
  }

  lemma YoungerLoadWaits(s: System, i: nat, j: nat)
    requires Inv(s) && BarrierOrder(s) && i < j < |s.insts| && IsBarrier(s.insts[i].inst) && s.insts[j].inst.mayLoad
    requires s.insts[i].token in s.u.groups && s.insts[j].token in s.u.groups
    ensures WaitsFor(s, i, j)
  {
    assert s.insts[i].token in BarrierIds(s.insts) && s.insts[j].token in LoadIds(s.insts);
  }

  /** At event `k` no store that also loads is answered "no alias" against the last load. */
  ghost predicate AnsweredAt(cfg: Config, ev: seq<Event>, k: nat)
    requires k < |ev|
  {
    && IsRun(cfg, ev[..k])
    && (ev[k].DispatchE? && ev[k].inst.mayLoad && ev[k].inst.IsStore() ==>
          var u := After(cfg, ev[..k]).u; MayAlias(cfg, ev[k].inst, u.LoadDominator()))
  }

  /** In particular if none is in the whole run, as without access metadata and with no-alias
      off, no load issues before every older load barrier has executed. */
  lemma AnsweredLoadsWait(cfg: Config, ev: seq<Event>, k: nat, i: nat, j: nat)
    requires IsRun(cfg, ev) && forall m: nat {:trigger AnsweredAt(cfg, ev, m)} | m < |ev| :: AnsweredAt(cfg, ev, m)
    requires k < |ev| && ev[k] == IssueE(j) && j < |After(cfg, ev).insts| && i < j
    requires IsBarrier(After(cfg, ev).insts[i].inst) && After(cfg, ev).insts[j].inst.mayLoad
    ensures ExecuteE(i) in ev[..k]
  {
    forall m: nat | m < |ev| ensures GuardedAt(cfg, ev, m) {
      assert AnsweredAt(cfg, ev, m);
      ConfigStays(cfg, ev[..m]);
      RunKeepsInv(cfg, ev[..m]);
      BarrierCursor(After(cfg, ev[..m]));
    }
    LoadIssuesAfterBarriers(cfg, ev, k, i, j);
  }

  lemma NoMetadataOrdersLoads(cfg: Config, ev: seq<Event>, k: nat, i: nat, j: nat)
    requires IsRun(cfg, ev) && !cfg.assumeNoAlias && (forall e | e in ev :: NoMetadata(e))
    requires k < |ev| && ev[k] == IssueE(j) && j < |After(cfg, ev).insts| && i < j
    requires IsBarrier(After(cfg, ev).insts[i].inst) && After(cfg, ev).insts[j].inst.mayLoad
    ensures ExecuteE(i) in ev[..k]
  {
    forall m: nat | m < |ev| ensures AnsweredAt(cfg, ev, m) {
      PrefixIsRun(cfg, ev, m);
      ConfigStays(cfg, ev[..m]);
      assert NoMetadata(ev[m]);
    }
    AnsweredLoadsWait(cfg, ev, k, i, j);
  }

  /** With room for one load only, no load is dispatched before every older one has retired. */
  lemma OneLoadAtATime(cfg: Config, ev: seq<Event>, inst: MemInst, i: nat)
    requires IsRun(cfg, ev) && cfg.lqSize == 1 && Enabled(After(cfg, ev), DispatchE(inst)) && inst.mayLoad
    requires i < |After(cfg, ev).insts| && After(cfg, ev).insts[i].inst.mayLoad
    ensures After(cfg, ev).insts[i].retired
  {
    RunKeepsInv(cfg, ev);
    ConfigStays(cfg, ev);
    CountPositive(After(cfg, ev).insts, HoldsLoadSlot());
    assert !HoldsLoadSlot()(After(cfg, ev).insts[i]);
  }

  /** The condition is needed: with no-alias on, a store that also loads may issue right after
      an older load barrier has issued, which need not have executed. */
  lemma LoadingStorePassesBarrier(cfg: Config, barrier: MemInst, store: MemInst)
    requires cfg.assumeNoAlias && barrier.md.None? && store.md.None? && cfg.lqSize != 1
    requires IsBarrier(barrier) && !barrier.mayStore && store.mayLoad && store.mayStore
    ensures IsRun(cfg, [DispatchE(barrier), DispatchE(store), IssueE(0), IssueE(1)])
  {
    hide Step, Enabled, LookupsSucceed, IsRun, After, Initial;
    var ev := [DispatchE(barrier), DispatchE(store)];
    PassingStates(cfg, barrier, store);
    TwoEventRun(cfg, DispatchE(barrier), DispatchE(store));
    RunNeverStops(cfg, ev, IssueE(0));
    RunNeverStops(cfg, ev + [IssueE(0)], IssueE(1));
    assert ev + [IssueE(0)] + [IssueE(1)] == [DispatchE(barrier), DispatchE(store), IssueE(0), IssueE(1)];
  }

  /** Issuing the only instruction of a group releases its only order edge. */
  lemma OrderEdgeReleased(gs: Groups, g: nat, h: nat)
    requires g in gs && h in gs && g != h && gs[g] == SINGLETON.(orderSucc := [h])
    requires gs[h].numPredecessors == gs[h].numExecutedPredecessors + 1
    ensures h in IssueOne(gs, g) && IssueOne(gs, g)[h].IsReady()
  {
    MultisetAppend([], h, h);
    assert [] + [h] == [h];
  }

  lemma PassingStates(cfg: Config, barrier: MemInst, store: MemInst)
    requires cfg.assumeNoAlias && barrier.md.None? && store.md.None? && cfg.lqSize != 1
    requires IsBarrier(barrier) && !barrier.mayStore && store.mayLoad && store.mayStore
    ensures var s0 := Initial(cfg);
            && Enabled(s0, DispatchE(barrier)) && LookupsSucceed(s0, DispatchE(barrier))
            && var s1 := Step(s0, DispatchE(barrier));
               && Enabled(s1, DispatchE(store)) && LookupsSucceed(s1, DispatchE(store))
               && var s2 := Step(s1, DispatchE(store));
                  && Enabled(s2, IssueE(0)) && LookupsSucceed(s2, IssueE(0))
                  && Enabled(Step(s2, IssueE(0)), IssueE(1))
  {
    hide Link, IssueOne, AddSuccessor;
    var s1 := Step(Initial(cfg), DispatchE(barrier));
    LinkFromNone(map[1 := SINGLETON], 1, true);
    assert s1.u.groups == map[1 := SINGLETON];
    var gs0 := s1.u.groups[2 := SINGLETON];
    OrderLink(gs0, 1, 2);
    LinkFromNone(Link(gs0, 1, 2, false), 2, true);
    LinkFromNone(Link(gs0, 1, 2, false), 2, false);
    var s2 := Step(s1, DispatchE(store));
    assert s2.u.groups == Link(gs0, 1, 2, false);
    OrderEdgeReleased(s2.u.groups, 1, 2);
    assert Enabled(Step(s2, IssueE(0)), IssueE(1));
  }
}
