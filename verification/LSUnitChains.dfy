/** Chains of data edges.

A mark is a group that must execute before any younger target may start: a store barrier before
any younger store.  New groups only get an edge from one cursor, so the older marks reach them
through a chain of marks. */
module LSUnitChains {
  import opened MemoryGroups
  import opened LSUnitSpec
  import opened LSUnitInvariant
  import opened LSUnitSteps

  ghost predicate DataToward(gs: Groups, marks: set<nat>, m: nat, t: nat) {
    m in gs && exists h: nat :: m < h <= t && h in gs[m].dataSucc && (h == t || h in marks)
  }

  /** Live marks are no younger than the cursor, and reach every younger target. */
  ghost predicate Chained(gs: Groups, marks: set<nat>, cursor: nat, target: nat -> bool) {
    && (forall m | m in marks :: target(m))
    && (forall m | m in marks && m in gs :: cursor != 0 && m <= cursor)
    && (cursor != 0 ==> cursor in marks && cursor in gs)
    && (forall m: nat, t: nat {:trigger DataToward(gs, marks, m, t)} |
          m in marks && m in gs && target(t) && t in gs && m < t :: DataToward(gs, marks, m, t))
  }

  /** A live mark keeps every younger target from being ready. */
  lemma {:induction false} MarkBlocks(gs: Groups, next: nat, marks: set<nat>, cursor: nat, target: nat -> bool, m: nat, t: nat)
    requires GraphInv(gs, next) && Chained(gs, marks, cursor, target)
    requires m in marks && m in gs && target(t) && t in gs && m < t
    ensures !gs[t].IsReady()
    decreases t - m
  {
    assert DataToward(gs, marks, m, t);
    var h: nat :| m < h <= t && h in gs[m].dataSucc && (h == t || h in marks);
    HeldNotReady(gs, next, m, h);
    if h == t {
    } else {
      MarkBlocks(gs, next, marks, cursor, target, h, t);
    }
  }

  /** A new group `n` extends every chain, given a data edge from the cursor if it is a target. */
  lemma ChainedNewGroup(base: Groups, gs: Groups, n: nat, marks: set<nat>, cursor: nat, target: nat -> bool,
                        marks': set<nat>, cursor': nat, target': nat -> bool)
    requires n != 0 && n !in base && (forall g | g in base :: g < n) && (forall m | m in marks :: m < n)
    requires Chained(base, marks, cursor, target) && AllGrown(base[n := SINGLETON], gs)
    requires (marks' == marks && cursor' == cursor) || (marks' == marks + {n} && cursor' == n && target'(n))
    requires forall t: nat :: t != n ==> target'(t) == target(t)
    requires target'(n) && cursor != 0 ==> cursor in gs && n in gs[cursor].dataSucc
    ensures Chained(gs, marks', cursor', target')
  {
    assert gs.Keys == base.Keys + {n};
    forall m: nat, t: nat | m in marks' && m in gs && target'(t) && t in gs && m < t
      ensures DataToward(gs, marks', m, t)
    {
      assert m in base && m in marks;
      assert Grown(base[n := SINGLETON][m], gs[m]);
      if t != n {
        assert DataToward(base, marks, m, t);
        var h: nat :| m < h <= t && h in base[m].dataSucc && (h == t || h in marks);
        assert h in gs[m].dataSucc;
      } else if m == cursor {
        assert n in gs[m].dataSucc;
      } else {
        assert DataToward(base, marks, m, cursor);
        var h: nat :| m < h <= cursor && h in base[m].dataSucc && (h == cursor || h in marks);
        assert h in gs[m].dataSucc && h in marks';
      }
    }
  }

  ghost predicate SameData(gs: Groups, gs': Groups) {
    gs'.Keys == gs.Keys && forall g | g in gs :: gs'[g].dataSucc == gs[g].dataSucc
  }

  lemma ChainedSame(gs: Groups, gs': Groups, marks: set<nat>, cursor: nat, target: nat -> bool)
    requires Chained(gs, marks, cursor, target) && SameData(gs, gs')
    ensures Chained(gs', marks, cursor, target)
  {
    forall m: nat, t: nat | m in marks && m in gs' && target(t) && t in gs' && m < t
      ensures DataToward(gs', marks, m, t)
    {
      assert DataToward(gs, marks, m, t);
      var h: nat :| m < h <= t && h in gs[m].dataSucc && (h == t || h in marks);
      assert h in gs'[m].dataSucc;
    }
  }

  ghost function Cleared(cursor: nat, gs: Groups): nat { if cursor in gs then cursor else 0 }

  lemma ChainedExecute(u: LSU, g: nat, marks: set<nat>, cursor: nat, target: nat -> bool)
    requires GraphInv(u.groups, u.nextGroupID) && Chained(u.groups, marks, cursor, target)
    requires g in u.groups && u.groups[g].numExecuting > 0
    ensures Chained(ExecuteOne(u.groups, g), marks, Cleared(cursor, ExecuteOne(u.groups, g)), target)
  {
    var gs, gs' := u.groups, ExecuteOne(u.groups, g);
    ExecuteKeys(u, g);
    assert GroupOk(gs, g, u.nextGroupID) && gs[g].IsReady();
    forall m: nat, t: nat | m in marks && m in gs' && target(t) && t in gs' && m < t
      ensures DataToward(gs', marks, m, t)
    {
      assert DataToward(gs, marks, m, t);
      var h: nat :| m < h <= t && h in gs[m].dataSucc && (h == t || h in marks);
      assert h in gs'[m].dataSucc;
    }
    // the mark under the cursor executes only after all older marks have left
    if m :| m in marks && m in gs' && m < cursor && cursor !in gs' {
      MarkBlocks(gs, u.nextGroupID, marks, cursor, target, m, cursor);
    }
  }

  // ---------------------------------------------------------------------------
  // Store barriers, in every run
  // ---------------------------------------------------------------------------

  ghost function AmongStores(s: System): nat -> bool { (g: nat) => g in s.stores }

  ghost predicate BarrierInv(s: System) {
    && Chained(s.u.groups, s.barriers, s.u.curStoreBarrier, AmongStores(s))
    && s.barriers <= s.stores
  }

  lemma DispatchStoreKeepsBarriers(s: System, inst: MemInst)
    requires Inv(s) && BarrierInv(s) && inst.IsStore()
    ensures BarrierInv(Step(s, DispatchE(inst)))
  {
    hide GroupOk, InstInv, QueueInv, Chained, StoreGroups, ReachesCursor, ReachesStores;
    var s', n, a := Step(s, DispatchE(inst)), s.u.nextGroupID, Acquire(s.u, inst);
    StoreGroupsOk(a, s.stores, inst);
    assert s.barriers <= s.stores;
    ChainedNewGroup(a.groups, s'.u.groups, n, s.barriers, s.u.curStoreBarrier, AmongStores(s),
                    s'.barriers, s'.u.curStoreBarrier, AmongStores(s'));
  }

  lemma DispatchKeepsBarriers(s: System, inst: MemInst)
    requires Inv(s) && BarrierInv(s)
    ensures BarrierInv(Step(s, DispatchE(inst)))
  {
    hide GroupOk, InstInv, LoadGroups;
    var s', n, a := Step(s, DispatchE(inst)), s.u.nextGroupID, Acquire(s.u, inst);
    if inst.IsStore() {
      DispatchStoreKeepsBarriers(s, inst);
    } else if NeedsNewLoadGroup(a, inst) {
      LoadGroupsOk(a, s.stores, inst);
      ChainedNewGroup(a.groups, s'.u.groups, n, s.barriers, s.u.curStoreBarrier, AmongStores(s),
                      s'.barriers, s'.u.curStoreBarrier, AmongStores(s'));
    } else {
      ChainedSame(s.u.groups, s'.u.groups, s.barriers, s.u.curStoreBarrier, AmongStores(s));
      assert forall t: nat :: AmongStores(s')(t) == AmongStores(s)(t);
    }
  }

  lemma StepKeepsBarriers(s: System, e: Event)
    requires Inv(s) && BarrierInv(s) && Enabled(s, e) && LookupsSucceed(s, e)
    ensures BarrierInv(Step(s, e))
  {
    var s' := Step(s, e);
    match e
    case DispatchE(inst) => DispatchKeepsBarriers(s, inst);
    case IssueE(i) =>
      ChainedSame(s.u.groups, s'.u.groups, s.barriers, s.u.curStoreBarrier, AmongStores(s));
      assert AmongStores(s') == AmongStores(s);
    case ExecuteE(i) =>
      IssuedIsExecuting(s, i);
      ChainedExecute(s.u, s.insts[i].token, s.barriers, s.u.curStoreBarrier, AmongStores(s));
      ExecuteKeys(s.u, s.insts[i].token);
      assert s'.u.curStoreBarrier == Cleared(s.u.curStoreBarrier, s'.u.groups);
    case RetireE(i) =>
    case CycleE =>
  }
}
