/** What an instruction that is being dispatched will have to wait for, from the cursors alone. */
module LSUnitHeld {
  import opened MemoryGroups
  import opened LSUnitSpec
  import opened LSUnitInvariant
  import opened LSUnitRuns
  import opened LSUnitWaits

  ghost predicate HasData(gs: Groups, x: nat, z: nat) {
    x in gs && z in gs[x].dataSucc
  }

  // ---------------------------------------------------------------------------
  // The edges of a new group
  // ---------------------------------------------------------------------------

  /** `gs'` is `gs` and the group `n`, with edges to `n` from the groups in `from`, data edges
      from those in `data`. */
  ghost predicate Adds(gs: Groups, gs': Groups, n: nat, from: set<nat>, data: set<nat>) {
    && (forall x: nat, z: nat {:trigger HoldsBack(gs', x, z)} ::
          HoldsBack(gs', x, z) <==> HoldsBack(gs, x, z) || (z == n && x in from))
    && (forall x: nat, z: nat {:trigger HasData(gs', x, z)} ::
          HasData(gs', x, z) <==> HasData(gs, x, z) || (z == n && x in data))
    && (forall x: nat | x != n :: Unissued(gs', x) == Unissued(gs, x))
    && gs'.Keys == gs.Keys + {n}
  }

  /** The group from which `Link` adds an edge, if it adds one. */
  ghost function Source(gs: Groups, p: nat, isData: bool): set<nat> {
    if p != 0 && p in gs && (isData || !gs[p].IsExecuting()) then {p} else {}
  }

  lemma NewGroupAdds(gs: Groups, n: nat)
    requires n !in gs
    ensures Adds(gs, gs[n := SINGLETON], n, {}, {})
  {
  }

  lemma LinkAdds(gs: Groups, mid: Groups, n: nat, from: set<nat>, data: set<nat>, p: nat, isData: bool)
    requires Adds(gs, mid, n, from, data) && (p != 0 ==> p in gs && p < n)
    ensures Adds(gs, Link(mid, p, n, isData), n, from + Source(gs, p, isData), data + if isData then Source(gs, p, true) else {})
  {
    var gs' := Link(mid, p, n, isData);
    assert p != 0 ==> Unissued(mid, p) == Unissued(gs, p);
    OneLink(mid, p, n, isData);
    forall x: nat, z: nat ensures HoldsBack(gs', x, z) <==> HoldsBack(gs, x, z) || (z == n && x in from + Source(gs, p, isData)) {
      assert HoldsBack(mid, x, z) <==> HoldsBack(gs, x, z) || (z == n && x in from);
    }
    forall x: nat, z: nat
      ensures HasData(gs', x, z) <==> HasData(gs, x, z) || (z == n && x in data + if isData then Source(gs, p, true) else {})
    {
      assert HasData(mid, x, z) <==> HasData(gs, x, z) || (z == n && x in data);
    }
  }

  lemma OneLink(gs: Groups, p: nat, n: nat, isData: bool)
    requires n in gs && (p != 0 ==> p in gs && p != n)
    ensures var gs' := Link(gs, p, n, isData);
            && (forall x: nat, z: nat :: HoldsBack(gs', x, z) <==> HoldsBack(gs, x, z) || (z == n && x in Source(gs, p, isData)))
            && (forall x: nat, z: nat :: HasData(gs', x, z) <==> HasData(gs, x, z) || (z == n && isData && x in Source(gs, p, true)))
            && (forall x: nat :: Unissued(gs', x) == Unissued(gs, x)) && gs'.Keys == gs.Keys
  {
  }

  // ---------------------------------------------------------------------------
  // Who waits through a new group
  // ---------------------------------------------------------------------------

  /** Below the new group, nothing changes. */
  lemma {:induction false} LeadsSame(gs: Groups, gs': Groups, n: nat, from: set<nat>, data: set<nat>, h: nat, t: nat)
    requires Adds(gs, gs', n, from, data) && t < n
    ensures Leads(gs', h, t) <==> Leads(gs, h, t)
    decreases if h < t then t - h else 0
  {
    if h == t {
    } else {
      forall x: nat | h < x <= t ensures HoldsBack(gs', h, x) && Leads(gs', x, t) <==> HoldsBack(gs, h, x) && Leads(gs, x, t) {
        LeadsSame(gs, gs', n, from, data, x, t);
      }
    }
  }

  /** A chain to the new group comes from one of the groups linked to it. */
  lemma {:induction false} LastLink(gs: Groups, gs': Groups, n: nat, from: set<nat>, data: set<nat>, h: nat) returns (p: nat)
    requires Adds(gs, gs', n, from, data) && Leads(gs', h, n) && h < n && forall x: nat :: !HoldsBack(gs, x, n)
    ensures p in from && h <= p < n && Leads(gs', h, p)
    decreases n - h
  {
    var x: nat :| h < x <= n && HoldsBack(gs', h, x) && Leads(gs', x, n);
    if x == n {
      p := h;
    } else {
      p := LastLink(gs, gs', n, from, data, x);
    }
  }

  lemma NewGroupWaitsIff(gs: Groups, gs': Groups, n: nat, from: set<nat>, data: set<nat>, g: nat)
    requires GraphInv(gs, n) && Adds(gs, gs', n, from, data) && data <= from && (forall p | p in from :: p < n) && g in gs
    ensures Waits(gs', g, n) <==> g in data || exists p: nat :: p in from && Waits(gs, g, p)
  {
    NobodyHeldYet(gs, n);
    assert HasData(gs', g, n) <==> HasData(gs, g, n) || g in data;
    if g in data {
      assert Leads(gs', n, n);
    } else if p: nat :| p in from && Waits(gs, g, p) {
      var h: nat :| h in gs[g].dataSucc && h <= p && Leads(gs, h, p);
      LeadsSame(gs, gs', n, from, data, h, p);
      LeadsAppend(gs', h, p, n);
      assert HasData(gs', g, h);
    } else if Waits(gs', g, n) {
      WaitsThrough(gs, gs', n, from, data, g);
    }
  }

  lemma WaitsThrough(gs: Groups, gs': Groups, n: nat, from: set<nat>, data: set<nat>, g: nat)
    requires Adds(gs, gs', n, from, data) && (forall x: nat :: !HoldsBack(gs, x, n) && !HasData(gs, x, n)) && g in gs
    requires Waits(gs', g, n)
    ensures g in data || exists p: nat :: p in from && Waits(gs, g, p)
  {
    var h: nat :| h in gs'[g].dataSucc && h <= n && Leads(gs', h, n);
    assert HasData(gs', g, h);
    if h < n {
      var p := LastLink(gs, gs', n, from, data, h);
      LeadsSame(gs, gs', n, from, data, h, p);
      assert Waits(gs, g, p);
    }
  }

  lemma NobodyHeldYet(gs: Groups, n: nat)
    requires GraphInv(gs, n)
    ensures n !in gs && forall x: nat :: !HoldsBack(gs, x, n) && !HasData(gs, x, n)
  {
    IdsBelow(gs, n);
    forall x: nat ensures !HoldsBack(gs, x, n) && !HasData(gs, x, n) {
      if x in gs { assert GroupOk(gs, x, n); }
    }
  }

  // ---------------------------------------------------------------------------
  // The cursors decide
  // ---------------------------------------------------------------------------

  /** Whether cursor `p` makes the new group wait for `g`: a chain leads to the cursor, or it
      is `g` itself, linked by a data edge. */
  ghost predicate Through(gs: Groups, g: nat, p: nat, isData: bool) {
    Waits(gs, g, p) || (p == g && isData)
  }

  /** Whether an instruction is taken to alias what group `g` accesses: without access metadata
      the option decides, with it the query. */
  predicate MayAlias(cfg: Config, inst: MemInst, g: nat) {
    match inst.md
    case None => !cfg.assumeNoAlias
    case Some(_) => g in inst.aliased
  }

  /** Whether an instruction will have to wait for group `g` once it is dispatched. */
  ghost predicate HeldAtDispatch(u: LSU, inst: MemInst, g: nat)
    requires u.CursorsLive()
  {
    var d := u.LoadDominator();
    if inst.IsStore() then
      || Through(u.groups, g, d, MayAlias(u.cfg, inst, d))
      || Through(u.groups, g, u.curStoreBarrier, true)
      || (u.curStore != u.curStoreBarrier && Through(u.groups, g, u.curStore, MayAlias(u.cfg, inst, u.curStore)))
    else if NeedsNewLoadGroup(u, inst) then
      || (MayAlias(u.cfg, inst, u.curStore) && Through(u.groups, g, u.curStore, true))
      || Through(u.groups, g, if inst.isLoadBarrier then d else u.curLoadBarrier, true)
    else Waits(u.groups, g, u.curLoad)
  }

  /** A cursor through which a group waits is not fully issued, so its edge is recorded. */
  lemma WaitedIsUnissued(gs: Groups, next: nat, g: nat, p: nat)
    requires GraphInv(gs, next)
    ensures Waits(gs, g, p) ==> p in gs && p != 0 && !gs[p].IsExecuting()
  {
    if Waits(gs, g, p) {
      WaitsNotReady(gs, next, g, p);
      assert GroupOk(gs, p, next);
    }
  }

  /** The groups from which a new store group gets an edge, and those from which it gets a data edge. */
  ghost function StoreFrom(u: LSU, inst: MemInst): (set<nat>, set<nat>) {
    var gs, d, b, c := u.groups, u.LoadDominator(), u.curStoreBarrier, u.curStore;
    var isD, isC, c' := !u.NoAlias(d, inst), !u.NoAlias(c, inst), if c != b then c else 0;
    ({} + Source(gs, d, isD) + Source(gs, b, true) + Source(gs, c', isC),
     {} + (if isD then Source(gs, d, true) else {}) + Source(gs, b, true) + if isC then Source(gs, c', true) else {})
  }

  lemma StoreGroupsAdd(u: LSU, stores: set<nat>, inst: MemInst)
    requires GraphInv(u.groups, u.nextGroupID) && CursorInv(u, stores)
    ensures Adds(u.groups, StoreGroups(u, inst), u.nextGroupID, StoreFrom(u, inst).0, StoreFrom(u, inst).1)
  {
    hide HoldsBack, HasData, Link, GraphInv, Adds, Source;
    var gs, n, d, b, c := u.groups, u.nextGroupID, u.LoadDominator(), u.curStoreBarrier, u.curStore;
    NobodyHeldYet(gs, n);
    NewGroupAdds(gs, n);
    var gs0 := gs[n := SINGLETON];
    var isD, isC := !u.NoAlias(d, inst), !u.NoAlias(c, inst);
    LinkAdds(gs, gs0, n, {}, {}, d, isD);
    var from1, data1 := {} + Source(gs, d, isD), {} + if isD then Source(gs, d, true) else {};
    LinkIsHere(gs0, d, n, isD, gs, from1, data1);
    var gs1 := Link(gs0, d, n, isD);
    LinkAdds(gs, gs1, n, from1, data1, b, true);
    var from2, data2 := from1 + Source(gs, b, true), data1 + Source(gs, b, true);
    LinkIsHere(gs1, b, n, true, gs, from2, data2);
    LinkAdds(gs, Link(gs1, b, n, true), n, from2, data2, if c != b then c else 0, isC);
  }

  lemma StoreHeldIff(u: LSU, stores: set<nat>, inst: MemInst, g: nat)
    requires GraphInv(u.groups, u.nextGroupID) && CursorInv(u, stores) && inst.IsStore() && g in u.groups
    ensures Waits(StoreGroups(u, inst), g, u.nextGroupID) <==> HeldAtDispatch(u, inst, g)
  {
    hide HoldsBack, HasData, Link, Waits, GraphInv, Adds, StoreGroups;
    var gs, n := u.groups, u.nextGroupID;
    StoreGroupsAdd(u, stores, inst);
    IdsBelow(gs, n);
    NewGroupWaitsIff(gs, StoreGroups(u, inst), n, StoreFrom(u, inst).0, StoreFrom(u, inst).1, g);
    WaitedIsUnissued(gs, n, g, u.LoadDominator());
    WaitedIsUnissued(gs, n, g, u.curStoreBarrier);
    WaitedIsUnissued(gs, n, g, u.curStore);
  }

  lemma LinkIsHere(gs0: Groups, p: nat, n: nat, isData: bool, gs: Groups, from: set<nat>, data: set<nat>)
    requires n in gs0 && (p != 0 ==> p in gs0 && p != n) && Adds(gs, Link(gs0, p, n, isData), n, from, data)
    ensures Link(gs0, p, n, isData).Keys == gs.Keys + {n}
  {
  }

  lemma LoadHeldIff(u: LSU, stores: set<nat>, inst: MemInst, g: nat)
    requires GraphInv(u.groups, u.nextGroupID) && CursorInv(u, stores) && g in u.groups
    requires !inst.IsStore() && NeedsNewLoadGroup(u, inst)
    ensures Waits(LoadGroups(u, inst), g, u.nextGroupID) <==> HeldAtDispatch(u, inst, g)
  {
    hide HoldsBack, HasData, Link, Waits, GraphInv, Adds;
    var gs, n := u.groups, u.nextGroupID;
    NobodyHeldYet(gs, n);
    NewGroupAdds(gs, n);
    var gs0 := gs[n := SINGLETON];
    var p := if u.NoAlias(u.curStore, inst) then 0 else u.curStore;
    var q := if inst.isLoadBarrier then u.LoadDominator() else u.curLoadBarrier;
    LinkAdds(gs, gs0, n, {}, {}, p, true);
    var from1 := {} + Source(gs, p, true);
    LinkIsHere(gs0, p, n, true, gs, from1, from1);
    var gs1 := Link(gs0, p, n, true);
    LinkAdds(gs, gs1, n, from1, from1, q, true);
    var from2 := from1 + Source(gs, q, true);
    NewGroupWaitsIff(gs, LoadGroups(u, inst), n, from2, from2, g);
    WaitedIsUnissued(gs, n, g, p);
    WaitedIsUnissued(gs, n, g, q);
    WaitedIsUnissued(gs, n, g, u.curStore);
    IdsBelow(gs, n);
  }

  lemma JoinHeldIff(gs: Groups, p: nat, g: nat)
    requires p in gs && !gs[p].IsExecuting() && CountersOk(gs[p])
    ensures Waits(AddInstruction(gs, p), g, p) <==> Waits(gs, g, p)
  {
    var gs' := AddInstruction(gs, p);
    assert Looser(gs, gs') && Looser(gs', gs);
    if Waits(gs', g, p) { WaitsBefore(gs, gs', g, p); }
    if Waits(gs, g, p) { WaitsBefore(gs', gs, g, p); }
  }

  /** The cursors at dispatch decide exactly which groups an instruction waits for. */
  lemma HeldAtDispatchIff(s: System, inst: MemInst, g: nat)
    requires Inv(s) && inst.IsMemOp() && g in s.u.groups
    ensures var s' := Step(s, DispatchE(inst));
            Waits(s'.u.groups, g, s'.insts[|s.insts|].token) <==> HeldAtDispatch(s.u, inst, g)
  {
    hide InstInv, QueueInv, GraphInv, Waits, StoreGroups, LoadGroups, AddInstruction;
    var a := Acquire(s.u, inst);
    assert HeldAtDispatch(a, inst, g) == HeldAtDispatch(s.u, inst, g);
    if inst.IsStore() {
      StoreHeldIff(a, s.stores, inst, g);
    } else if NeedsNewLoadGroup(a, inst) {
      LoadHeldIff(a, s.stores, inst, g);
    } else {
      CountersOf(s.u.groups, s.u.nextGroupID, s.u.curLoad);
      JoinHeldIff(s.u.groups, s.u.curLoad, g);
    }
  }

  /** So they decide, before an instruction is dispatched, whether it can issue before an older
      one has executed. */
  lemma DispatchedMayPassIff(cfg: Config, ev: seq<Event>, inst: MemInst, i: nat)
    requires IsRun(cfg, ev) && Enabled(After(cfg, ev), DispatchE(inst))
    requires i < |After(cfg, ev).insts| && After(cfg, ev).insts[i].phase != Executed
    ensures After(cfg, ev).u.CursorsLive() && IsRun(cfg, ev + [DispatchE(inst)])
    ensures MayPass(cfg, ev + [DispatchE(inst)], i, |After(cfg, ev).insts|)
       <==> !HeldAtDispatch(After(cfg, ev).u, inst, After(cfg, ev).insts[i].token)
  {
    var s := After(cfg, ev);
    RunKeepsInv(cfg, ev);
    RunNeverStops(cfg, ev, DispatchE(inst));
    assert InstOk(s, i);
    HeldAtDispatchIff(s, inst, s.insts[i].token);
    MayPassIff(cfg, ev + [DispatchE(inst)], i, |s.insts|);
  }
}
