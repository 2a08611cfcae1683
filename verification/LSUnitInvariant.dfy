/** What every step of the load/store unit keeps. */
module LSUnitInvariant {
  import opened MemoryGroups
  import opened LSUnitSpec

  // ---------------------------------------------------------------------------
  // Members of a group
  // ---------------------------------------------------------------------------

  /** How many instructions satisfy `p`. */
  ghost function Count(insts: seq<InFlight>, p: InFlight -> bool): nat {
    if insts == [] then 0 else
      Count(insts[..|insts| - 1], p) + if p(insts[|insts| - 1]) then 1 else 0
  }

  ghost function InGroup(g: nat, ph: Phase): InFlight -> bool {
    (f: InFlight) => f.token == g && f.phase == ph
  }

  ghost function HoldsLoadSlot(): InFlight -> bool {
    (f: InFlight) => f.inst.mayLoad && !f.retired
  }

  ghost function HoldsStoreSlot(): InFlight -> bool {
    (f: InFlight) => f.inst.IsStore() && !f.retired
  }

  ghost predicate GroupCounts(gs: Groups, insts: seq<InFlight>, g: nat)
    requires g in gs
  {
    && gs[g].numExecuting == Count(insts, InGroup(g, Issued))
    && gs[g].numExecuted == Count(insts, InGroup(g, Executed))
    && gs[g].numInstructions == Count(insts, InGroup(g, Dispatched)) + gs[g].numExecuting + gs[g].numExecuted
  }

  ghost predicate InstOk(s: System, i: nat)
    requires i < |s.insts|
  {
    var f := s.insts[i];
    && f.token < s.u.nextGroupID
    && (f.token !in s.u.groups ==> f.phase == Executed)
    && (f.retired ==> f.phase == Executed)
    && (f.inst.IsStore() ==> f.token in s.stores)
    && (f.inst.IsStore() && f.inst.isStoreBarrier ==> f.token in s.barriers)
  }

  ghost predicate CountsInv(s: System) {
    forall g {:trigger GroupCounts(s.u.groups, s.insts, g)} | g in s.u.groups :: GroupCounts(s.u.groups, s.insts, g)
  }

  ghost predicate InstsOk(s: System) {
    forall i: nat {:trigger InstOk(s, i)} | i < |s.insts| :: InstOk(s, i)
  }

  /** A store's group is younger than the group of every older instruction. */
  ghost predicate StoresAreYounger(s: System) {
    forall i: nat, j: nat | i < j < |s.insts| && s.insts[j].inst.IsStore() ::
      s.insts[i].token < s.insts[j].token
  }

  ghost predicate InstInv(s: System) {
    CountsInv(s) && InstsOk(s) && StoresAreYounger(s)
  }

  /** Queue slots are neither lost nor leaked, and bounded queues are never overfilled. */
  ghost predicate QueueInv(s: System) {
    && s.u.usedLQ == Count(s.insts, HoldsLoadSlot()) && (s.u.cfg.lqSize != 0 ==> s.u.usedLQ <= s.u.cfg.lqSize)
    && s.u.usedSQ == Count(s.insts, HoldsStoreSlot()) && (s.u.cfg.sqSize != 0 ==> s.u.usedSQ <= s.u.cfg.sqSize)
  }

  // ---------------------------------------------------------------------------
  // Ordering
  // ---------------------------------------------------------------------------

  /** `g` lists `h` as a successor that it still holds back. */
  ghost predicate HoldsBack(gs: Groups, g: nat, h: nat) {
    g in gs && (h in gs[g].dataSucc || (h in gs[g].orderSucc && !gs[g].IsExecuting()))
  }

  /** `g` holds back some group that is younger than `g` but not younger than `t`. */
  ghost predicate Toward(gs: Groups, g: nat, t: nat) {
    exists h: nat :: g < h <= t && HoldsBack(gs, g, h)
  }

  ghost predicate Unissued(gs: Groups, g: nat) {
    g in gs && !gs[g].IsExecuting()
  }

  ghost predicate CursorInv(u: LSU, stores: set<nat>) {
    && u.CursorsLive() && u.IdsBelowNext()
    && (u.curLoad != 0 && u.curLoadBarrier != 0 ==> u.curLoadBarrier <= u.curLoad)
    && (u.curStore != 0 ==> u.curStore in stores)
    && (forall t | t in stores :: t < u.nextGroupID)
  }

  /** A group with an unissued instruction is a cursor or holds back a younger group. */
  ghost predicate ReachesCursor(u: LSU) {
    forall g: nat | Unissued(u.groups, g) ::
      g == u.LoadDominator() || g == u.curStore || Toward(u.groups, g, u.nextGroupID)
  }

  /** A group with an unissued instruction holds back every younger store, step by step. */
  ghost predicate ReachesStores(u: LSU, stores: set<nat>) {
    forall g: nat, t: nat | Unissued(u.groups, g) && t in stores && t in u.groups && g < t ::
      Toward(u.groups, g, t)
  }

  ghost predicate UnitInv(u: LSU, stores: set<nat>) {
    && GraphInv(u.groups, u.nextGroupID)
    && CursorInv(u, stores)
    && ReachesCursor(u)
    && ReachesStores(u, stores)
  }

  ghost predicate Inv(s: System) {
    UnitInv(s.u, s.stores) && InstInv(s) && QueueInv(s)
  }

  // ---------------------------------------------------------------------------
  // A group that is held back step by step is not ready
  // ---------------------------------------------------------------------------

  /** Whoever is held back is live and not ready. */
  lemma HeldNotReady(gs: Groups, next: nat, g: nat, h: nat)
    requires GraphInv(gs, next) && HoldsBack(gs, g, h)
    ensures g < h && h in gs && !gs[h].IsReady() && Unissued(gs, h)
  {
    assert GroupOk(gs, g, next);
    assert GroupOk(gs, h, next);
    if gs[h].IsReady() {
      ReadyHasNoOpenEdge(gs, next, g, h);
      MultisetMember(gs[g].dataSucc, h);
      MultisetMember(gs[g].orderSucc, h);
    }
  }

  /** An unissued group keeps every younger store from being ready. */
  lemma {:induction false} UnissuedBlocksStore(u: LSU, stores: set<nat>, g: nat, t: nat)
    requires UnitInv(u, stores)
    requires Unissued(u.groups, g) && t in stores && t in u.groups && g < t
    ensures !u.groups[t].IsReady()
    decreases t - g
  {
    assert Toward(u.groups, g, t);
    hide ReachesCursor;
    hide CursorInv;
    hide ReachesStores;
    var h: nat :| g < h <= t && HoldsBack(u.groups, g, h);
    HeldNotReady(u.groups, u.nextGroupID, g, h);
    if h == t {
    } else {
      UnissuedBlocksStore(u, stores, h, t);
    }
  }

  // ---------------------------------------------------------------------------
  // Links from the cursors to a new group
  // ---------------------------------------------------------------------------

  /** The same instructions, and the same or more successors. */
  ghost predicate Grown(a: MemoryGroup, b: MemoryGroup) {
    && a.numInstructions == b.numInstructions
    && a.numExecuting == b.numExecuting
    && a.numExecuted == b.numExecuted
    && a.orderSucc <= b.orderSucc
    && a.dataSucc <= b.dataSucc
  }

  ghost predicate AllGrown(gs: Groups, gs': Groups) {
    gs'.Keys == gs.Keys && forall g | g in gs :: Grown(gs[g], gs'[g])
  }

  /** Linking adds an edge unless it would be an order edge from a fully issued group. */
  lemma LinkGrows(gs: Groups, p: nat, s: nat, isData: bool)
    requires s in gs && (p != 0 ==> p in gs && p != s)
    ensures var gs' := Link(gs, p, s, isData);
            && AllGrown(gs, gs')
            && (p != 0 && (isData || !gs[p].IsExecuting()) ==> HoldsBack(gs', p, s))
            && (p != 0 && isData ==> s in gs'[p].dataSucc)
  {
  }

  lemma OrderLink(gs: Groups, p: nat, n: nat)
    requires p in gs && n in gs && p != 0 && p != n && gs[p] == SINGLETON && gs[n] == SINGLETON
    ensures var gs' := Link(gs, p, n, false);
            && gs'.Keys == gs.Keys && gs'[p] == SINGLETON.(orderSucc := [n])
            && gs'[n].numPredecessors == gs'[n].numExecutedPredecessors + 1
  {
    assert [] + [n] == [n];
  }

  lemma LinkFromNone(gs: Groups, s: nat, isData: bool)
    requires s in gs
    ensures Link(gs, 0, s, isData) == gs
  {
  }

  lemma GrownTrans(gs: Groups, mid: Groups, gs': Groups)
    requires AllGrown(gs, mid) && AllGrown(mid, gs')
    ensures AllGrown(gs, gs')
  {
    forall g | g in gs ensures Grown(gs[g], gs'[g]) {
      assert Grown(gs[g], mid[g]) && Grown(mid[g], gs'[g]);
    }
  }

  lemma GrownHolds(gs: Groups, gs': Groups, g: nat, h: nat)
    requires AllGrown(gs, gs') && HoldsBack(gs, g, h)
    ensures HoldsBack(gs', g, h)
  {
    assert Grown(gs[g], gs'[g]);
  }

  lemma GrownData(gs: Groups, gs': Groups, g: nat, h: nat)
    requires AllGrown(gs, gs') && g in gs && h in gs[g].dataSucc
    ensures g in gs' && h in gs'[g].dataSucc
  {
    assert Grown(gs[g], gs'[g]);
  }

  lemma GrownToward(gs: Groups, gs': Groups, g: nat, t: nat, t': nat)
    requires AllGrown(gs, gs') && Toward(gs, g, t) && t <= t'
    ensures Toward(gs', g, t')
  {
    var h: nat :| g < h <= t && HoldsBack(gs, g, h);
    GrownHolds(gs, gs', g, h);
  }

  /** `gs` is `base`, whose newest group is `n`, with some links to `n` added. */
  ghost predicate Linking(base: Groups, gs: Groups, n: nat) {
    && GraphInv(gs, n + 1)
    && AllGrown(base, gs)
    && n in base && base[n].numExecuting == base[n].numExecuted == 0
  }

  /** One more link towards the newest group. */
  lemma LinkStep(base: Groups, gs: Groups, n: nat, p: nat, isData: bool)
    requires Linking(base, gs, n) && (p != 0 ==> p in base && p < n)
    ensures n in gs && (p != 0 ==> p in gs)
    ensures var gs' := Link(gs, p, n, isData);
            && Linking(base, gs', n)
            && AllGrown(gs, gs')
            && (p != 0 && (isData || !base[p].IsExecuting()) ==> HoldsBack(gs', p, n))
            && (p != 0 && isData ==> p in gs' && n in gs'[p].dataSucc)
  {
    assert Grown(base[n], gs[n]) && (p != 0 ==> Grown(base[p], gs[p]));
    LinkKeepsGraph(gs, n + 1, p, n, isData);
    LinkGrows(gs, p, n, isData);
    GrownTrans(base, gs, Link(gs, p, n, isData));
  }

  /** Two links in a row. */
  lemma TwoLinks(base: Groups, n: nat, p: nat, isData: bool, q: nat)
    requires Linking(base, base, n) && (p != 0 ==> p in base && p < n) && (q != 0 ==> q in base && q < n)
    ensures n in base && n in Link(base, p, n, isData) && (q != 0 ==> q in Link(base, p, n, isData))
    ensures var gs := Link(Link(base, p, n, isData), q, n, true);
            && Linking(base, gs, n)
            && (p != 0 && (isData || !base[p].IsExecuting()) ==> HoldsBack(gs, p, n))
            && (p != 0 && isData ==> p in gs && n in gs[p].dataSucc)
            && (q != 0 ==> HoldsBack(gs, q, n) && q in gs && n in gs[q].dataSucc)
  {
    hide Link, Linking;
    LinkStep(base, base, n, p, isData);
    var gs1 := Link(base, p, n, isData);
    LinkStep(base, gs1, n, q, true);
    var gs2 := Link(gs1, q, n, true);
    if p != 0 && (isData || !base[p].IsExecuting()) { GrownHolds(gs1, gs2, p, n); }
    if p != 0 && isData { GrownData(gs1, gs2, p, n); }
  }

  ghost function WithNew(u: LSU): Groups { u.groups[u.nextGroupID := SINGLETON] }

  lemma WithNewLinking(u: LSU)
    requires GraphInv(u.groups, u.nextGroupID)
    ensures Linking(WithNew(u), WithNew(u), u.nextGroupID)
  {
    NewGroupKeepsGraph(u.groups, u.nextGroupID);
  }

  /** A new store is held back by the unissued cursors, and by an aliasing store until it
      has executed. */
  lemma StoreGroupsOk(u: LSU, stores: set<nat>, inst: MemInst)
    requires GraphInv(u.groups, u.nextGroupID) && CursorInv(u, stores)
    ensures var gs, n, d := StoreGroups(u, inst), u.nextGroupID, u.LoadDominator();
            && Linking(WithNew(u), gs, n)
            && (Unissued(u.groups, d) ==> HoldsBack(gs, d, n))
            && (Unissued(u.groups, u.curStore) ==> HoldsBack(gs, u.curStore, n))
            && (u.curStore != 0 && !u.NoAlias(u.curStore, inst) ==> u.curStore in gs && n in gs[u.curStore].dataSucc)
            && (u.curStoreBarrier != 0 ==> u.curStoreBarrier in gs && n in gs[u.curStoreBarrier].dataSucc)
  {
    hide Link, Linking, AllGrown, HoldsBack;
    WithNewLinking(u);
    var n, d := u.nextGroupID, u.LoadDominator();
    var gs0 := WithNew(u);
    TwoLinks(gs0, n, d, !u.NoAlias(d, inst), u.curStoreBarrier);
    var gs2 := Link(Link(gs0, d, n, !u.NoAlias(d, inst)), u.curStoreBarrier, n, true);
    var c := if u.curStore != u.curStoreBarrier then u.curStore else 0;
    LinkStep(gs0, gs2, n, c, !u.NoAlias(u.curStore, inst));
    var gs3 := Link(gs2, c, n, !u.NoAlias(u.curStore, inst));
    if Unissued(u.groups, d) { GrownHolds(gs2, gs3, d, n); }
    if u.curStoreBarrier != 0 {
      GrownHolds(gs2, gs3, u.curStoreBarrier, n);
      GrownData(gs2, gs3, u.curStoreBarrier, n);
    }
  }

  /** A new load is held back by the load barrier, a new load barrier by the last load, and
      both by an aliasing store until it has executed. */
  lemma LoadGroupsOk(u: LSU, stores: set<nat>, inst: MemInst)
    requires GraphInv(u.groups, u.nextGroupID) && CursorInv(u, stores)
    ensures var gs, n := LoadGroups(u, inst), u.nextGroupID;
            && Linking(WithNew(u), gs, n)
            && (var d := if inst.isLoadBarrier then u.LoadDominator() else u.curLoadBarrier;
                d != 0 ==> HoldsBack(gs, d, n) && d in gs && n in gs[d].dataSucc)
            && (u.curStore != 0 && !u.NoAlias(u.curStore, inst) ==> u.curStore in gs && n in gs[u.curStore].dataSucc)
  {
    WithNewLinking(u);
    TwoLinks(WithNew(u), u.nextGroupID, if u.NoAlias(u.curStore, inst) then 0 else u.curStore, true,
             if inst.isLoadBarrier then u.LoadDominator() else u.curLoadBarrier);
  }

  // ---------------------------------------------------------------------------
  // The unit's own steps
  // ---------------------------------------------------------------------------

  /** Everything but the new group was there before, equally far issued. */
  lemma OldUnissued(u: LSU, gs': Groups, g: nat)
    requires AllGrown(WithNew(u), gs') && Unissued(gs', g) && g != u.nextGroupID
    ensures Unissued(u.groups, g)
  {
    assert Grown(WithNew(u)[g], gs'[g]);
  }

  lemma OldToward(u: LSU, gs': Groups, g: nat, t: nat, t': nat)
    requires u.nextGroupID !in u.groups
    requires AllGrown(WithNew(u), gs') && Toward(u.groups, g, t) && t <= t'
    ensures Toward(gs', g, t')
  {
    var h: nat :| g < h <= t && HoldsBack(u.groups, g, h);
    assert HoldsBack(WithNew(u), g, h);
    assert Toward(WithNew(u), g, t);
    GrownToward(WithNew(u), gs', g, t, t');
  }

  /** A step that only creates group n keeps the chains towards the older stores. */
  lemma OldStoresReached(u: LSU, stores: set<nat>, gs': Groups)
    requires UnitInv(u, stores) && AllGrown(WithNew(u), gs')
    ensures forall g: nat, t: nat | Unissued(gs', g) && t in stores && t in gs' && g < t :: Toward(gs', g, t)
  {
    forall g: nat, t: nat | Unissued(gs', g) && t in stores && t in gs' && g < t
      ensures Toward(gs', g, t)
    {
      assert t in WithNew(u) && g in WithNew(u);
      OldUnissued(u, gs', g);
      OldToward(u, gs', g, t, t);
    }
  }

  /** Every unissued group holds back a new store, directly or through a younger group. */
  lemma NewStoreReached(u: LSU, stores: set<nat>, inst: MemInst, g: nat)
    requires UnitInv(u, stores)
    requires g != u.nextGroupID && Unissued(StoreGroups(u, inst), g)
    ensures Toward(StoreGroups(u, inst), g, u.nextGroupID)
  {
    hide StoreGroups;
    var n, gs' := u.nextGroupID, StoreGroups(u, inst);
    StoreGroupsOk(u, stores, inst);
    OldUnissued(u, gs', g);
    if g == u.LoadDominator() || g == u.curStore {
      assert HoldsBack(gs', g, n);
    } else {
      OldToward(u, gs', g, n, n);
    }
  }

  lemma DispatchStoreKeepsUnit(u: LSU, stores: set<nat>, inst: MemInst)
    requires UnitInv(u, stores)
    ensures UnitInv(DispatchStore(u, inst), stores + {u.nextGroupID})
  {
    hide StoreGroups;
    var n, u' := u.nextGroupID, DispatchStore(u, inst);
    var gs' := u'.groups;
    StoreGroupsOk(u, stores, inst);
    OldStoresReached(u, stores, gs');
    forall g: nat | Unissued(gs', g) && g != n ensures Toward(gs', g, n) && Toward(gs', g, n + 1) {
      NewStoreReached(u, stores, inst, g);
      GrownToward(gs', gs', g, n, n + 1);
    }
    assert ReachesStores(u', stores + {n});
    assert ReachesCursor(u');
  }

  lemma DispatchNewLoadKeepsUnit(u: LSU, stores: set<nat>, inst: MemInst)
    requires UnitInv(u, stores) && NeedsNewLoadGroup(u, inst)
    ensures UnitInv(DispatchNewLoad(u, inst), stores)
  {
    var n, u' := u.nextGroupID, DispatchNewLoad(u, inst);
    LoadGroupsOk(u, stores, inst);
    var gs' := u'.groups;
    OldStoresReached(u, stores, gs');
    forall g: nat | Unissued(gs', g) && g != n && g != u.curStore
      ensures Toward(gs', g, n + 1)
    {
      OldUnissued(u, gs', g);
      if g != u.LoadDominator() {
        assert Toward(u.groups, g, n);
        OldToward(u, gs', g, n, n + 1);
      } else if inst.isLoadBarrier || u.curLoadBarrier == g {
        assert HoldsBack(gs', g, n);
      } else {
        assert Toward(u.groups, g, u.curStore);
        OldToward(u, gs', g, u.curStore, n + 1);
      }
    }
    assert ReachesCursor(u');
  }

  /** A step that changes no group id and no successor list, and takes nobody back from
      being fully issued. */
  ghost predicate Quieter(gs: Groups, gs': Groups) {
    && gs'.Keys == gs.Keys
    && forall g | g in gs ::
         && gs'[g].orderSucc == gs[g].orderSucc
         && gs'[g].dataSucc == gs[g].dataSucc
         && (gs[g].IsExecuting() ==> gs'[g].IsExecuting())
  }

  lemma QuieterKeepsChains(u: LSU, stores: set<nat>, gs': Groups)
    requires UnitInv(u, stores) && Quieter(u.groups, gs') && GraphInv(gs', u.nextGroupID)
    ensures UnitInv(u.(groups := gs'), stores)
  {
    var gs, u' := u.groups, u.(groups := gs');
    forall g: nat, t: nat | Unissued(gs', g) && Toward(gs, g, t) ensures Toward(gs', g, t) {
      var h: nat :| g < h <= t && HoldsBack(gs, g, h);
      assert HoldsBack(gs', g, h);
    }
    forall g: nat | Unissued(gs', g)
      ensures g == u.LoadDominator() || g == u.curStore || Toward(gs', g, u.nextGroupID)
    {
      assert Unissued(gs, g);
    }
    assert u'.LoadDominator() == u.LoadDominator();
  }

  lemma JoinKeepsUnit(u: LSU, stores: set<nat>, inst: MemInst)
    requires UnitInv(u, stores) && !inst.IsStore() && !NeedsNewLoadGroup(u, inst)
    ensures UnitInv(JoinLoad(u), stores)
  {
    AddInstructionKeepsGraph(u.groups, u.nextGroupID, u.curLoad);
    QuieterKeepsChains(u, stores, AddInstruction(u.groups, u.curLoad));
  }

  lemma IssueKeepsUnit(u: LSU, stores: set<nat>, g: nat)
    requires UnitInv(u, stores) && g in u.groups && u.groups[g].IsReady() && !u.groups[g].IsExecuting()
    ensures UnitInv(Issue(u, g), stores)
  {
    IssueKeepsGraph(u.groups, u.nextGroupID, g);
    QuieterKeepsChains(u, stores, IssueOne(u.groups, g));
  }

  /** The group that executes an instruction is ready, so nobody held it back. */
  lemma ExecuteKeepsChains(u: LSU, stores: set<nat>, g: nat, x: nat, t: nat)
    requires UnitInv(u, stores) && g in u.groups && u.groups[g].numExecuting > 0
    requires Unissued(ExecuteOne(u.groups, g), x) && Toward(u.groups, x, t)
    ensures Toward(ExecuteOne(u.groups, g), x, t)
  {
    var gs, gs' := u.groups, ExecuteOne(u.groups, g);
    var h: nat :| x < h <= t && HoldsBack(gs, x, h);
    HeldNotReady(gs, u.nextGroupID, x, h);
    assert GroupOk(gs, g, u.nextGroupID);
    assert HoldsBack(gs', x, h);
  }

  lemma ExecuteKeepsUnissued(u: LSU, stores: set<nat>, g: nat, x: nat)
    requires UnitInv(u, stores) && g in u.groups && u.groups[g].numExecuting > 0
    requires Unissued(ExecuteOne(u.groups, g), x)
    ensures Unissued(u.groups, x)
  {
    assert GroupOk(u.groups, g, u.nextGroupID);
  }

  lemma ExecuteKeys(u: LSU, g: nat)
    requires g in u.groups
    ensures ExecuteOne(u.groups, g).Keys == u.groups.Keys || ExecuteOne(u.groups, g).Keys == u.groups.Keys - {g}
  {
  }

  lemma ExecuteKeepsUnit(u: LSU, stores: set<nat>, g: nat)
    requires UnitInv(u, stores) && g in u.groups && u.groups[g].numExecuting > 0
    ensures UnitInv(Execute(u, g), stores)
  {
    hide ExecuteOne;
    var u' := Execute(u, g);
    ExecuteKeepsGraph(u.groups, u.nextGroupID, g);
    ExecuteKeys(u, g);
    forall x: nat | Unissued(u'.groups, x)
      ensures x == u'.LoadDominator() || x == u'.curStore || Toward(u'.groups, x, u'.nextGroupID)
    {
      ExecuteKeepsUnissued(u, stores, g, x);
      if Toward(u.groups, x, u.nextGroupID) { ExecuteKeepsChains(u, stores, g, x, u.nextGroupID); }
    }
    forall x: nat, t: nat | Unissued(u'.groups, x) && t in stores && t in u'.groups && x < t
      ensures Toward(u'.groups, x, t)
    {
      ExecuteKeepsUnissued(u, stores, g, x);
      ExecuteKeepsChains(u, stores, g, x, t);
    }
  }
}
