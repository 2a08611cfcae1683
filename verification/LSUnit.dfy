/** The load/store unit as an object: every method changes its fields step by step, and is
proved to take exactly the step of the transition system while keeping the invariant. */
module LSUnit {
  import opened Wrappers
  import opened MemoryGroups
  import opened LSUnitSpec
  import opened LSUnitInvariant
  import opened LSUnitSteps

  class MCADLSUnit {
    const cfg: Config
    var currentLoadGroupID: nat
    var currentLoadBarrierGroupID: nat
    var currentStoreGroupID: nat
    var currentStoreBarrierGroupID: nat
    var customGroups: Groups
    var nextCustomGroupID: nat
    var usedLQEntries: int
    var usedSQEntries: int
    var clock: nat
    var ongoingRequests: map<nat, nat>
    ghost var stores: set<nat>  // ids given to stores so far

    ghost function State(): LSU
      reads this
    {
      LSU(cfg, currentLoadGroupID, currentLoadBarrierGroupID, currentStoreGroupID, currentStoreBarrierGroupID,
          customGroups, nextCustomGroupID, usedLQEntries, usedSQEntries, clock, ongoingRequests)
    }

    ghost predicate Valid()
      reads this
    {
      UnitInv(State(), stores)
    }

    constructor (cfg: Config)
      ensures Valid() && State() == InitialLSU(cfg) && stores == {}
    {
      this.cfg := cfg;
      currentLoadGroupID, currentLoadBarrierGroupID := 0, 0;
      currentStoreGroupID, currentStoreBarrierGroupID := 0, 0;
      customGroups, nextCustomGroupID := map[], 1;
      usedLQEntries, usedSQEntries := 0, 0;
      clock, ongoingRequests := 0, map[];
      stores := {};
    }

    method IsAvailable(inst: MemInst) returns (ok: bool)
      ensures ok == State().IsAvailable(inst)
    {
      if inst.mayLoad && cfg.lqSize != 0 && cfg.lqSize == usedLQEntries { return false; }
      if inst.IsStore() && cfg.sqSize != 0 && cfg.sqSize == usedSQEntries { return false; }
      return true;
    }

    predicate NoAlias(gid: nat, inst: MemInst) {
      if inst.md.Some? then gid !in inst.aliased else cfg.assumeNoAlias
    }

    method IsInstOperandWaitingForCache(inst: MemInst) returns (waiting: bool)
      ensures waiting == State().WaitingForCache(inst)
    {
      waiting := false;
      if inst.md.Some? && cfg.hasCache && inst.md.value.addr in ongoingRequests {
        var cyclesLeft := ToInt(ongoingRequests[inst.md.value.addr] - clock);
        waiting := cyclesLeft > 0;
      }
    }

    /** An instruction may issue iff nobody holds its group back and its cache access is done. */
    method IsReady(inst: MemInst, token: nat) returns (ready: bool)
      requires token in customGroups
      ensures ready <==> customGroups[token].IsReady() && !State().WaitingForCache(inst)
    {
      var waiting := IsInstOperandWaitingForCache(inst);
      ready := customGroups[token].IsReady() && !waiting;
    }

    method CreateCustomMemoryGroup() returns (id: nat)
      requires nextCustomGroupID !in customGroups
      modifies `customGroups, `nextCustomGroupID
      ensures id == old(nextCustomGroupID) && nextCustomGroupID == id + 1
      ensures customGroups == old(customGroups)[id := SINGLETON.(numInstructions := 0)]
    {
      customGroups := customGroups[nextCustomGroupID := SINGLETON.(numInstructions := 0)];
      id := nextCustomGroupID;
      nextCustomGroupID := nextCustomGroupID + 1;
    }

    /** Cache timer and queue slots. */
    method Acquire(inst: MemInst)
      modifies `ongoingRequests, `usedLQEntries, `usedSQEntries
      ensures State() == LSUnitSpec.Acquire(old(State()), inst)
    {
      if cfg.hasCache && inst.md.Some? {
        ongoingRequests := ongoingRequests[inst.md.value.addr := clock + inst.latency];
      }
      if inst.mayLoad { usedLQEntries := usedLQEntries + 1; }
      if inst.IsStore() { usedSQEntries := usedSQEntries + 1; }
    }

    /** `addSuccessor` from the group that a cursor names, if it names one. */
    method LinkFrom(p: nat, s: nat, isData: bool)
      requires s in customGroups && (p != 0 ==> p in customGroups && p != s)
      modifies `customGroups
      ensures customGroups == Link(old(customGroups), p, s, isData)
      ensures customGroups.Keys == old(customGroups).Keys
    {
      if p != 0 {
        customGroups := AddSuccessor(customGroups, p, s, isData);
      }
    }

    /** A group for a store, linked from the load, store barrier and store cursors. */
    method NewStoreGroup(inst: MemInst) returns (token: nat)
      requires State().CursorsLive() && State().IdsBelowNext()
      modifies `customGroups, `nextCustomGroupID
      ensures token == old(nextCustomGroupID) && nextCustomGroupID == token + 1
      ensures customGroups == StoreGroups(old(State()), inst)
    {
      hide Link;
      token := CreateCustomMemoryGroup();
      customGroups := AddInstruction(customGroups, token);
      assert customGroups == old(customGroups)[token := SINGLETON];
      hide AddInstruction;
      var immediateLoadDominator := Max(currentLoadGroupID, currentLoadBarrierGroupID);
      LinkFrom(immediateLoadDominator, token, !NoAlias(immediateLoadDominator, inst));
      LinkFrom(currentStoreBarrierGroupID, token, true);
      if currentStoreGroupID != currentStoreBarrierGroupID {
        LinkFrom(currentStoreGroupID, token, !NoAlias(currentStoreGroupID, inst));
      } else {
        LinkFromNone(customGroups, token, !NoAlias(currentStoreGroupID, inst));
      }
    }

    method DispatchAsStore(inst: MemInst) returns (token: nat)
      requires State().CursorsLive() && State().IdsBelowNext()
      modifies this
      ensures State() == DispatchStore(old(State()), inst) && token == old(nextCustomGroupID)
      ensures stores == old(stores)
    {
      token := NewStoreGroup(inst);
      hide StoreGroups;
      currentStoreGroupID := token;
      if inst.isStoreBarrier { currentStoreBarrierGroupID := token; }
      if inst.mayLoad {
        currentLoadGroupID := token;
        if inst.isLoadBarrier { currentLoadBarrierGroupID := token; }
      }
    }

    /** A group for a load, linked from the store cursor and from the load barrier or last load. */
    method NewLoadGroup(inst: MemInst) returns (token: nat)
      requires State().CursorsLive() && State().IdsBelowNext()
      modifies `customGroups, `nextCustomGroupID
      ensures token == old(nextCustomGroupID) && nextCustomGroupID == token + 1
      ensures customGroups == LoadGroups(old(State()), inst)
    {
      hide Link;
      token := CreateCustomMemoryGroup();
      customGroups := AddInstruction(customGroups, token);
      assert customGroups == old(customGroups)[token := SINGLETON];
      hide AddInstruction;
      if !NoAlias(currentStoreGroupID, inst) {
        LinkFrom(currentStoreGroupID, token, true);
      } else {
        LinkFromNone(customGroups, token, true);
      }
      if inst.isLoadBarrier {
        LinkFrom(Max(currentLoadGroupID, currentLoadBarrierGroupID), token, true);
      } else {
        LinkFrom(currentLoadBarrierGroupID, token, true);
      }
    }

    method DispatchAsLoad(inst: MemInst) returns (token: nat)
      requires State().CursorsLive() && State().IdsBelowNext() && !inst.IsStore()
      modifies this
      ensures if NeedsNewLoadGroup(old(State()), inst)
              then State() == DispatchNewLoad(old(State()), inst) && token == old(nextCustomGroupID)
              else State() == JoinLoad(old(State())) && token == old(currentLoadGroupID)
      ensures stores == old(stores)
    {
      hide LoadGroups, AddInstruction;
      var immediateLoadDominator := Max(currentLoadGroupID, currentLoadBarrierGroupID);
      var shouldCreateANewGroup :=
        inst.isLoadBarrier || immediateLoadDominator == 0 ||
        currentLoadBarrierGroupID == immediateLoadDominator ||
        immediateLoadDominator <= currentStoreGroupID ||
        customGroups[immediateLoadDominator].IsExecuting();
      if shouldCreateANewGroup {
        token := NewLoadGroup(inst);
        currentLoadGroupID := token;
        if inst.isLoadBarrier { currentLoadBarrierGroupID := token; }
      } else {
        customGroups := AddInstruction(customGroups, currentLoadGroupID);
        token := currentLoadGroupID;
      }
    }

    method Dispatch(inst: MemInst) returns (token: nat)
      requires Valid() && inst.IsMemOp()
      modifies this
      ensures Valid() && (State(), token) == LSUnitSpec.Dispatch(old(State()), inst)
      ensures stores == if inst.IsStore() then old(stores) + {token} else old(stores)
    {
      DispatchKeepsUnit(State(), stores, inst);
      AcquireKeepsUnit(State(), stores, inst);
      Acquire(inst);
      if inst.IsStore() {
        token := DispatchAsStore(inst);
        stores := stores + {token};
      } else {
        token := DispatchAsLoad(inst);
      }
    }

    method OnInstructionIssued(token: nat)
      requires Valid() && token in customGroups
      requires customGroups[token].IsReady() && !customGroups[token].IsExecuting()
      modifies `customGroups
      ensures Valid() && State() == Issue(old(State()), token)
    {
      IssueKeepsUnit(State(), stores, token);
      customGroups := IssueOne(customGroups, token);
    }

    /** A group leaves with its last instruction, and every cursor that named it is cleared. */
    method OnInstructionExecuted(isMemOp: bool, groupID: nat)
      requires Valid()
      requires isMemOp ==> groupID in customGroups && customGroups[groupID].numExecuting > 0
      modifies this
      ensures Valid() && stores == old(stores)
      ensures State() == if isMemOp then Execute(old(State()), groupID) else old(State())
    {
      if !isMemOp { return; }
      ExecuteKeepsUnit(State(), stores, groupID);
      customGroups := ExecuteOne(customGroups, groupID);
      if !(groupID != 0 && groupID in customGroups) {
        if groupID == currentLoadGroupID { currentLoadGroupID := 0; }
        if groupID == currentStoreGroupID { currentStoreGroupID := 0; }
        if groupID == currentLoadBarrierGroupID { currentLoadBarrierGroupID := 0; }
        if groupID == currentStoreBarrierGroupID { currentStoreBarrierGroupID := 0; }
      }
    }

    method OnInstructionRetired(inst: MemInst)
      requires Valid() && inst.IsMemOp()
      modifies `ongoingRequests, `usedLQEntries, `usedSQEntries
      ensures Valid() && State() == Retire(old(State()), inst)
    {
      if inst.mayLoad { usedLQEntries := usedLQEntries - 1; }
      if inst.IsStore() { usedSQEntries := usedSQEntries - 1; }
      if cfg.hasCache && inst.md.Some? {
        ongoingRequests := ongoingRequests - {inst.md.value.addr};
      }
      assert State().LoadDominator() == old(State()).LoadDominator();
    }

    method CycleEvent()
      requires Valid()
      modifies `clock
      ensures Valid() && State() == Cycle(old(State()))
    {
      clock := clock + 1;
      assert State().LoadDominator() == old(State()).LoadDominator();
    }
  }
}
