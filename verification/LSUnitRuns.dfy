/** Whole runs of the load/store unit: what the order of events in any run guarantees. */
module LSUnitRuns {
  import opened MemoryGroups
  import opened LSUnitSpec
  import opened LSUnitInvariant
  import opened LSUnitSteps
  import opened LSUnitChains

  /** `ev` is a sequence of events that the pipeline can produce from an empty unit, and no
      lookup that the unit guards by an assertion has failed on the way. */
  ghost predicate IsRun(cfg: Config, ev: seq<Event>)
    decreases |ev|, 0
  {
    ev == [] ||
    (IsRun(cfg, ev[..|ev| - 1]) &&
     var s, e := After(cfg, ev[..|ev| - 1]), ev[|ev| - 1];
     Enabled(s, e) && LookupsSucceed(s, e))
  }

  /** The state after a run. */
  ghost function After(cfg: Config, ev: seq<Event>): System
    requires IsRun(cfg, ev)
    decreases |ev|, 1
  {
    if ev == [] then Initial(cfg) else Step(After(cfg, ev[..|ev| - 1]), ev[|ev| - 1])
  }

  lemma {:induction false} RunKeepsInv(cfg: Config, ev: seq<Event>)
    requires IsRun(cfg, ev)
    ensures Inv(After(cfg, ev)) && BarrierInv(After(cfg, ev))
  {
    if ev == [] {
      InitialInv(cfg);
    } else {
      var k := |ev| - 1;
      RunKeepsInv(cfg, ev[..k]);
      hide Inv;
      hide BarrierInv;
      StepKeepsInv(After(cfg, ev[..k]), ev[k]);
      StepKeepsBarriers(After(cfg, ev[..k]), ev[k]);
    }
  }

  /** Whatever the pipeline does next, every group that is looked up exists: a run never
      stops at a failing assertion. */
  lemma RunNeverStops(cfg: Config, ev: seq<Event>, e: Event)
    requires IsRun(cfg, ev) && Enabled(After(cfg, ev), e)
    ensures LookupsSucceed(After(cfg, ev), e)
    ensures IsRun(cfg, ev + [e]) && After(cfg, ev + [e]) == Step(After(cfg, ev), e)
  {
    RunKeepsInv(cfg, ev);
    LookupsNeverFail(After(cfg, ev), e);
    assert (ev + [e])[..|ev|] == ev;
  }

  lemma {:induction false} PrefixIsRun(cfg: Config, ev: seq<Event>, k: nat)
    requires IsRun(cfg, ev) && k <= |ev|
    ensures IsRun(cfg, ev[..k])
  {
    if k < |ev| {
      PrefixIsRun(cfg, ev[..|ev| - 1], k);
      assert ev[..|ev| - 1][..k] == ev[..k];
    } else {
      assert ev[..k] == ev;
    }
  }

  /** One more event. */
  lemma Extend(cfg: Config, ev: seq<Event>, k: nat)
    requires IsRun(cfg, ev) && k < |ev|
    ensures IsRun(cfg, ev[..k]) && IsRun(cfg, ev[..k + 1]) && Enabled(After(cfg, ev[..k]), ev[k])
    ensures LookupsSucceed(After(cfg, ev[..k]), ev[k])
    ensures After(cfg, ev[..k + 1]) == Step(After(cfg, ev[..k]), ev[k])
  {
    PrefixIsRun(cfg, ev, k + 1);
    assert ev[..k + 1][..k] == ev[..k];
  }

  // ---------------------------------------------------------------------------
  // Phases are events of the past
  // ---------------------------------------------------------------------------

  lemma {:induction false} PhaseHappened(cfg: Config, ev: seq<Event>, i: nat)
    requires IsRun(cfg, ev) && i < |After(cfg, ev).insts|
    ensures After(cfg, ev).insts[i].phase != Dispatched ==> IssueE(i) in ev
    ensures After(cfg, ev).insts[i].phase == Executed ==> ExecuteE(i) in ev
  {
    if ev == [] {
    } else {
      var k := |ev| - 1;
      assert ev[..|ev|] == ev;
      Extend(cfg, ev, k);
      var s := After(cfg, ev[..k]);
      if i < |s.insts| { PhaseHappened(cfg, ev[..k], i); }
      assert forall e | e in ev[..k] :: e in ev;
      assert ev[k] in ev;
    }
  }

  lemma StepKeepsWho(s: System, e: Event)
    requires LookupsSucceed(s, e) && Enabled(s, e)
    ensures Step(s, e).u.cfg == s.u.cfg && |Step(s, e).insts| >= |s.insts|
    ensures forall i: nat | i < |s.insts| :: Step(s, e).insts[i].inst == s.insts[i].inst
  {
  }

  /** Instructions keep their place, and what they are. */
  lemma {:induction false} InstsStay(cfg: Config, ev: seq<Event>, k: nat, i: nat)
    requires IsRun(cfg, ev) && k <= |ev| && IsRun(cfg, ev[..k]) && i < |After(cfg, ev[..k]).insts|
    ensures i < |After(cfg, ev).insts|
    ensures After(cfg, ev).insts[i].inst == After(cfg, ev[..k]).insts[i].inst
  {
    hide Step;
    if k < |ev| {
      var n := |ev| - 1;
      assert ev[..|ev|] == ev;
      Extend(cfg, ev, n);
      StepKeepsWho(After(cfg, ev[..n]), ev[n]);
      assert ev[..n][..k] == ev[..k];
      InstsStay(cfg, ev[..n], k, i);
    } else {
      assert ev[..k] == ev;
    }
  }

  /** A dispatch appends its instruction. */
  lemma DispatchedHere(s: System, inst: MemInst)
    requires Enabled(s, DispatchE(inst)) && LookupsSucceed(s, DispatchE(inst))
    ensures var s' := Step(s, DispatchE(inst)); |s'.insts| == |s.insts| + 1 && s'.insts[|s.insts|].inst == inst
    ensures forall i: nat | i < |s.insts| :: Step(s, DispatchE(inst)).insts[i] == s.insts[i]
    ensures inst.IsMemOp()
  {
  }

  /** Instruction `j` of the run was dispatched by event `m`. */
  lemma DispatchedAs(cfg: Config, ev: seq<Event>, m: nat, j: nat)
    requires IsRun(cfg, ev) && m < |ev| && ev[m].DispatchE? && IsRun(cfg, ev[..m]) && j == |After(cfg, ev[..m]).insts|
    ensures j < |After(cfg, ev).insts| && After(cfg, ev).insts[j].inst == ev[m].inst
  {
    Extend(cfg, ev, m);
    DispatchedHere(After(cfg, ev[..m]), ev[m].inst);
    InstsStay(cfg, ev, m + 1, j);
  }

  // ---------------------------------------------------------------------------
  // Memory ordering
  // ---------------------------------------------------------------------------

  /** In every run, whatever the alias answers, a store issues only after every older memory
      operation has issued. */
  lemma StoreIssuesAfterOlder(cfg: Config, ev: seq<Event>, k: nat, i: nat, j: nat)
    requires IsRun(cfg, ev) && k < |ev| && ev[k] == IssueE(j)
    requires j < |After(cfg, ev).insts| && After(cfg, ev).insts[j].inst.IsStore() && i < j
    ensures IssueE(i) in ev[..k]
  {
    Extend(cfg, ev, k);
    RunKeepsInv(cfg, ev[..k]);
    var s := After(cfg, ev[..k]);
    InstsStay(cfg, ev, k, j);
    var t := s.insts[j].token;
    assert InstOk(s, i) && InstOk(s, j);
    if s.insts[i].phase == Dispatched {
      DispatchedIsUnissued(s, i);
      UnissuedBlocksStore(s.u, s.stores, s.insts[i].token, t);
      assert false;
    }
    PhaseHappened(cfg, ev[..k], i);
  }

  /** In every run, whatever the alias answers, no store issues before every older store
      barrier has executed. */
  lemma StoreIssuesAfterBarriers(cfg: Config, ev: seq<Event>, k: nat, i: nat, j: nat)
    requires IsRun(cfg, ev) && k < |ev| && ev[k] == IssueE(j)
    requires j < |After(cfg, ev).insts| && After(cfg, ev).insts[j].inst.IsStore() && i < j
    requires After(cfg, ev).insts[i].inst.IsStore() && After(cfg, ev).insts[i].inst.isStoreBarrier
    ensures ExecuteE(i) in ev[..k]
  {
    Extend(cfg, ev, k);
    RunKeepsInv(cfg, ev[..k]);
    var s := After(cfg, ev[..k]);
    InstsStay(cfg, ev, k, i);
    InstsStay(cfg, ev, k, j);
    assert InstOk(s, i) && InstOk(s, j);
    if s.insts[i].token in s.u.groups {
      assert AmongStores(s)(s.insts[j].token);
      MarkBlocks(s.u.groups, s.u.nextGroupID, s.barriers, s.u.curStoreBarrier, AmongStores(s),
                 s.insts[i].token, s.insts[j].token);
      assert false;
    }
    PhaseHappened(cfg, ev[..k], i);
  }

  lemma {:induction false} ConfigStays(cfg: Config, ev: seq<Event>)
    requires IsRun(cfg, ev)
    ensures After(cfg, ev).u.cfg == cfg
  {
    hide Step;
    if ev == [] {
    } else {
      var k := |ev| - 1;
      assert ev[..|ev|] == ev;
      Extend(cfg, ev, k);
      StepKeepsWho(After(cfg, ev[..k]), ev[k]);
      ConfigStays(cfg, ev[..k]);
    }
  }

  lemma TwoEventRun(cfg: Config, d: Event, e: Event)
    requires Enabled(Initial(cfg), d) && LookupsSucceed(Initial(cfg), d)
    requires Enabled(Step(Initial(cfg), d), e) && LookupsSucceed(Step(Initial(cfg), d), e)
    ensures IsRun(cfg, [d, e]) && After(cfg, [d, e]) == Step(Step(Initial(cfg), d), e)
  {
    hide Step;
    hide Enabled;
    hide LookupsSucceed;
    assert [d][..0] == [] && [d, e][..1] == [d];
    assert IsRun(cfg, []) && After(cfg, []) == Initial(cfg);
    assert IsRun(cfg, [d]) && After(cfg, [d]) == Step(Initial(cfg), d);
  }

  // ---------------------------------------------------------------------------
  // The group graph
  // ---------------------------------------------------------------------------

  /** Cursors are 0 or live, edges go from smaller to larger live ids, and the outstanding
      predecessors of a group are the edges that live groups still list. */
  lemma GraphOfRun(cfg: Config, ev: seq<Event>)
    requires IsRun(cfg, ev)
    ensures var u := After(cfg, ev).u;
            && u.CursorsLive()
            && (forall g: nat, h: nat | HoldsBack(u.groups, g, h) :: g < h && h in u.groups)
            && (forall g | g in u.groups ::
                  u.groups[g].numPredecessors - u.groups[g].numExecutedPredecessors
                    == EdgesInto(u.groups, g, false, u.nextGroupID))
  {
    RunKeepsInv(cfg, ev);
    var u := After(cfg, ev).u;
    forall g: nat, h: nat | HoldsBack(u.groups, g, h) ensures g < h && h in u.groups {
      HeldNotReady(u.groups, u.nextGroupID, g, h);
    }
    forall g | g in u.groups ensures PredsOk(u.groups, g, u.nextGroupID) {
      assert GroupOk(u.groups, g, u.nextGroupID);
    }
  }

  lemma {:induction false} OpenEdgeFromSomeone(gs: Groups, s: nat, k: nat) returns (g: nat)
    requires EdgesInto(gs, s, false, k) > 0
    ensures HoldsBack(gs, g, s)
  {
    if EdgesFrom(gs, k - 1, s, false) > 0 {
      g := k - 1;
      MultisetMember(gs[g].dataSucc, s);
      MultisetMember(gs[g].orderSucc, s);
    } else {
      g := OpenEdgeFromSomeone(gs, s, k - 1);
    }
  }

  lemma {:induction false} WaitingEdgeFromUnissued(gs: Groups, s: nat, k: nat) returns (g: nat)
    requires EdgesInto(gs, s, false, k) > EdgesInto(gs, s, true, k)
    ensures HoldsBack(gs, g, s) && Unissued(gs, g)
  {
    if EdgesFrom(gs, k - 1, s, false) > EdgesFrom(gs, k - 1, s, true) {
      g := k - 1;
      MultisetMember(gs[g].dataSucc, s);
      MultisetMember(gs[g].orderSucc, s);
    } else {
      g := WaitingEdgeFromUnissued(gs, s, k - 1);
    }
  }

  lemma {:induction false} StartedAtMostOpen(gs: Groups, s: nat, k: nat, p: nat)
    ensures EdgesInto(gs, s, true, k) <= EdgesInto(gs, s, false, k)
    ensures p < k && Unissued(gs, p) && HoldsBack(gs, p, s) ==> EdgesInto(gs, s, true, k) < EdgesInto(gs, s, false, k)
  {
    if k == 0 {
    } else {
      StartedAtMostOpen(gs, s, k - 1, p);
      if p in gs {
        MultisetMember(gs[p].dataSucc, s);
        MultisetMember(gs[p].orderSucc, s);
      }
    }
  }

  /** What the three status queries mean: a group is ready iff nobody holds it back, and it
      is waiting iff somebody who is not fully issued does. */
  lemma StatusMeansHeldBack(cfg: Config, ev: seq<Event>, g: nat)
    requires IsRun(cfg, ev) && g in After(cfg, ev).u.groups
    ensures var gs := After(cfg, ev).u.groups;
            && (gs[g].IsReady() <==> forall h: nat :: !HoldsBack(gs, h, g))
            && (gs[g].IsWaiting() <==> exists h: nat :: HoldsBack(gs, h, g) && Unissued(gs, h))
            && (gs[g].IsPending() <==> !gs[g].IsReady() && !gs[g].IsWaiting())
  {
    RunKeepsInv(cfg, ev);
    var u := After(cfg, ev).u;
    var gs := u.groups;
    assert GroupOk(gs, g, u.nextGroupID);
    StartedAtMostOpen(gs, g, u.nextGroupID, 0);
    forall h: nat | HoldsBack(gs, h, g) ensures !gs[g].IsReady() && (Unissued(gs, h) ==> gs[g].IsWaiting()) {
      HeldNotReady(gs, u.nextGroupID, h, g);
      assert GroupOk(gs, h, u.nextGroupID);
      StartedAtMostOpen(gs, g, u.nextGroupID, h);
    }
    if !gs[g].IsReady() { var h := OpenEdgeFromSomeone(gs, g, u.nextGroupID); }
    if gs[g].IsWaiting() { var h := WaitingEdgeFromUnissued(gs, g, u.nextGroupID); }
  }

  /** The lowest-numbered live group is always ready. */
  lemma LowestGroupIsReady(s: System, g: nat)
    requires Inv(s) && g in s.u.groups && forall h | h in s.u.groups :: g <= h
    ensures s.u.groups[g].IsReady()
  {
    assert GroupOk(s.u.groups, g, s.u.nextGroupID);
    if !s.u.groups[g].IsReady() {
      var h := OpenEdgeFromSomeone(s.u.groups, g, s.u.nextGroupID);
      HeldNotReady(s.u.groups, s.u.nextGroupID, h, g);
      assert false;
    }
  }

  // ---------------------------------------------------------------------------
  // No deadlock
  // ---------------------------------------------------------------------------

  ghost function Work(insts: seq<InFlight>): nat {
    if insts == [] then 0 else
      Work(insts[..|insts| - 1]) + match insts[|insts| - 1].phase
                                   case Dispatched => 2 case Issued => 1 case Executed => 0
  }

  lemma {:induction false} WorkDecreases(insts: seq<InFlight>, i: nat, to: Phase)
    requires i < |insts|
    requires (insts[i].phase == Dispatched && to == Issued) || (insts[i].phase == Issued && to == Executed)
    ensures Work(insts[i := insts[i].(phase := to)]) == Work(insts) - 1
  {
    var n := |insts| - 1;
    var insts' := insts[i := insts[i].(phase := to)];
    if i < n {
      WorkDecreases(insts[..n], i, to);
      assert insts'[..n] == insts[..n][i := insts[i].(phase := to)];
    } else {
      assert insts'[..n] == insts[..n];
    }
  }

  lemma {:induction false} LowestGroup(gs: Groups, g: nat) returns (low: nat)
    requires g in gs
    ensures low in gs && forall h | h in gs :: low <= h
  {
    if h :| h in gs && h < g {
      low := LowestGroup(gs, h);
    } else {
      low := g;
    }
  }

  function Cycles(n: nat): (ev: seq<Event>)
    ensures |ev| == n && forall e | e in ev :: e == CycleE
  {
    if n == 0 then [] else Cycles(n - 1) + [CycleE]
  }

  /** Waiting `n` cycles changes nothing but the clock. */
  lemma {:induction false} CyclesRun(cfg: Config, ev: seq<Event>, n: nat)
    requires IsRun(cfg, ev)
    ensures IsRun(cfg, ev + Cycles(n))
    ensures After(cfg, ev + Cycles(n)) == After(cfg, ev).(u := After(cfg, ev).u.(clock := After(cfg, ev).u.clock + n))
  {
    hide IsRun, After;
    if n == 0 {
      assert ev + Cycles(0) == ev;
    } else {
      var mid := ev + Cycles(n - 1);
      CyclesRun(cfg, ev, n - 1);
      RunNeverStops(cfg, mid, CycleE);
      assert mid + [CycleE] == ev + Cycles(n);
    }
  }

  lemma Suffix<T>(a: seq<T>, b: seq<T>)
    ensures a <= a + b && (a + b)[|a|..] == b
  {
  }

  /** Every access is done after enough cycles. */
  lemma WaitForCache(cfg: Config, ev: seq<Event>, inst: MemInst) returns (ev': seq<Event>)
    requires IsRun(cfg, ev)
    ensures ev <= ev' && IsRun(cfg, ev') && (forall e | e in ev'[|ev|..] :: e == CycleE)
    ensures var u := After(cfg, ev').u;
            && !u.WaitingForCache(inst) && u.clock >= After(cfg, ev).u.clock
            && After(cfg, ev') == After(cfg, ev).(u := After(cfg, ev).u.(clock := u.clock))
  {
    hide IsRun, After, Step, Enabled, LookupsSucceed;
    var u := After(cfg, ev).u;
    var n: nat := if u.WaitingForCache(inst) then ToInt(u.ongoing[inst.md.value.addr] - u.clock) else 0;
    ev' := ev + Cycles(n);
    CyclesRun(cfg, ev, n);
    Suffix(ev, Cycles(n));
  }

  /** A live group always has an instruction that is executing, or one that is ready but for
      the cache. */
  lemma SomeoneCanMove(s: System) returns (i: nat)
    requires Inv(s) && s.u.groups != map[]
    ensures i < |s.insts| && s.insts[i].phase != Executed && s.insts[i].token in s.u.groups
    ensures s.insts[i].phase == Dispatched ==> s.u.groups[s.insts[i].token].IsReady()
  {
    var g :| g in s.u.groups;
    g := LowestGroup(s.u.groups, g);
    LowestGroupIsReady(s, g);
    assert GroupOk(s.u.groups, g, s.u.nextGroupID) && GroupCounts(s.u.groups, s.insts, g);
    CountPositive(s.insts, InGroup(g, Dispatched));
    CountPositive(s.insts, InGroup(g, Issued));
    i :| i < |s.insts| && (InGroup(g, Dispatched)(s.insts[i]) || InGroup(g, Issued)(s.insts[i]));
  }

  lemma SuffixOfSuffix<T>(a: seq<T>, b: seq<T>, c: seq<T>)
    requires a <= b <= c
    ensures a <= c && c[|a|..] == b[|a|..] + c[|b|..]
  {
    assert c == b + c[|b|..];
  }

  /** Issuing or executing an instruction leaves less work. */
  lemma LessWork(s: System, i: nat)
    requires i < |s.insts| && s.insts[i].phase != Executed && s.insts[i].token in s.u.groups
    ensures var e := if s.insts[i].phase == Issued then ExecuteE(i) else IssueE(i);
            LookupsSucceed(s, e) && Work(Step(s, e).insts) < Work(s.insts)
  {
    hide IssueOne, ExecuteOne;
    WorkDecreases(s.insts, i, if s.insts[i].phase == Issued then Executed else Issued);
  }

  /** From every reachable state with a live group, issuing or executing some instruction is
      possible after enough cycles. */
  lemma Progress(cfg: Config, ev: seq<Event>) returns (ev': seq<Event>)
    requires IsRun(cfg, ev) && After(cfg, ev).u.groups != map[]
    ensures ev <= ev' && IsRun(cfg, ev') && (forall e | e in ev'[|ev|..] :: !e.DispatchE?)
    ensures Work(After(cfg, ev').insts) < Work(After(cfg, ev).insts)
  {
    hide Inv, BarrierInv, IsRun, After, Step, Work;
    var s := After(cfg, ev);
    RunKeepsInv(cfg, ev);
    var i := SomeoneCanMove(s);
    if s.insts[i].phase == Issued {
      ev' := ev + [ExecuteE(i)];
      RunNeverStops(cfg, ev, ExecuteE(i));
      LessWork(s, i);
    } else {
      var mid := WaitForCache(cfg, ev, s.insts[i].inst);
      RunNeverStops(cfg, mid, IssueE(i));
      ev' := mid + [IssueE(i)];
      SuffixOfSuffix(ev, mid, ev');
      LessWork(After(cfg, mid), i);
    }
  }

  /** The unit cannot deadlock: every run can be continued, without dispatching anything
      more, to one in which every group has left the unit. */
  lemma {:induction false} EveryRunCanDrain(cfg: Config, ev: seq<Event>) returns (ev': seq<Event>)
    requires IsRun(cfg, ev)
    ensures ev <= ev' && IsRun(cfg, ev') && (forall e | e in ev'[|ev|..] :: !e.DispatchE?)
    ensures After(cfg, ev').u.groups == map[]
    decreases Work(After(cfg, ev).insts)
  {
    hide IsRun, After, Work;
    if After(cfg, ev).u.groups == map[] {
      ev' := ev;
    } else {
      var mid := Progress(cfg, ev);
      ev' := EveryRunCanDrain(cfg, mid);
      SuffixOfSuffix(ev, mid, ev');
    }
  }

  lemma RetireHere(s: System, i: nat)
    requires i < |s.insts| && Enabled(s, RetireE(i)) && LookupsSucceed(s, RetireE(i))
    ensures var s' := Step(s, RetireE(i));
            s'.u.groups == s.u.groups && s'.insts == s.insts[i := s.insts[i].(retired := true)]
  {
  }

  lemma {:induction false} RetireFrom(cfg: Config, ev: seq<Event>, n: nat) returns (ev': seq<Event>)
    requires IsRun(cfg, ev) && n <= |After(cfg, ev).insts| && After(cfg, ev).u.groups == map[]
    requires forall i: nat | i < |After(cfg, ev).insts| :: After(cfg, ev).insts[i].phase == Executed
    requires forall i: nat | i < n :: After(cfg, ev).insts[i].retired
    ensures ev <= ev' && IsRun(cfg, ev') && (forall e | e in ev'[|ev|..] :: !e.DispatchE?)
    ensures After(cfg, ev').u.groups == map[] && forall f | f in After(cfg, ev').insts :: f.retired
    decreases |After(cfg, ev).insts| - n
  {
    hide IsRun, After, Step;
    var s := After(cfg, ev);
    if n == |s.insts| {
      ev' := ev;
    } else if s.insts[n].retired {
      ev' := RetireFrom(cfg, ev, n + 1);
    } else {
      var mid := ev + [RetireE(n)];
      RunNeverStops(cfg, ev, RetireE(n));
      RetireHere(s, n);
      ev' := RetireFrom(cfg, mid, n + 1);
      SuffixOfSuffix(ev, mid, ev');
    }
  }

  /** And then everything can retire, which leaves both queues empty. */
  lemma EveryRunCanRetire(cfg: Config, ev: seq<Event>) returns (ev': seq<Event>)
    requires IsRun(cfg, ev)
    ensures ev <= ev' && IsRun(cfg, ev') && (forall e | e in ev'[|ev|..] :: !e.DispatchE?)
    ensures var s := After(cfg, ev');
            && s.u.groups == map[] && (forall f | f in s.insts :: f.retired) && s.u.usedLQ == s.u.usedSQ == 0
  {
    hide IsRun, After;
    var mid := EveryRunCanDrain(cfg, ev);
    RunKeepsInv(cfg, mid);
    AllExecuted(After(cfg, mid));
    ev' := RetireFrom(cfg, mid, 0);
    SuffixOfSuffix(ev, mid, ev');
    RunKeepsInv(cfg, ev');
    NoSlotsUsed(After(cfg, ev'));
  }

  lemma AllExecuted(s: System)
    requires Inv(s) && s.u.groups == map[]
    ensures forall i: nat | i < |s.insts| :: s.insts[i].phase == Executed
  {
    forall i: nat | i < |s.insts| ensures s.insts[i].phase == Executed { assert InstOk(s, i); }
  }

  lemma NoSlotsUsed(s: System)
    requires Inv(s) && forall f | f in s.insts :: f.retired
    ensures s.u.usedLQ == s.u.usedSQ == 0
  {
    hide UnitInv, InstInv;
    CountPositive(s.insts, HoldsLoadSlot());
    CountPositive(s.insts, HoldsStoreSlot());
  }
}
