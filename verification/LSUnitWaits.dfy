/** Exactly when an instruction has to wait until another one has executed. */
module LSUnitWaits {
  import opened MemoryGroups
  import opened LSUnitSpec
  import opened LSUnitInvariant
  import opened LSUnitSteps
  import opened LSUnitRuns

  // ---------------------------------------------------------------------------
  // Chains of groups that hold each other back
  // ---------------------------------------------------------------------------

  /** A chain leads from `h` to `t` in which every group holds back the next one. */
  ghost predicate Leads(gs: Groups, h: nat, t: nat)
    decreases if h < t then t - h else 0
  {
    h == t || exists x: nat :: h < x <= t && HoldsBack(gs, h, x) && Leads(gs, x, t)
  }

  /** A data edge of `g` begins a chain to `t`: nothing in `t` is ready before `g` has executed. */
  ghost predicate Waits(gs: Groups, g: nat, t: nat) {
    g in gs && exists h: nat :: h in gs[g].dataSucc && h <= t && Leads(gs, h, t)
  }

  lemma {:induction false} LeadsNotReady(gs: Groups, next: nat, h: nat, t: nat)
    requires GraphInv(gs, next) && Leads(gs, h, t) && h in gs && !gs[h].IsReady()
    ensures t in gs && !gs[t].IsReady()
    decreases if h < t then t - h else 0
  {
    if h == t {
    } else {
      var x: nat :| h < x <= t && HoldsBack(gs, h, x) && Leads(gs, x, t);
      HeldNotReady(gs, next, h, x);
      LeadsNotReady(gs, next, x, t);
    }
  }

  lemma WaitsNotReady(gs: Groups, next: nat, g: nat, t: nat)
    requires GraphInv(gs, next) && Waits(gs, g, t)
    ensures g < t && t in gs && !gs[t].IsReady()
  {
    var h: nat :| h in gs[g].dataSucc && h <= t && Leads(gs, h, t);
    HeldNotReady(gs, next, g, h);
    LeadsNotReady(gs, next, h, t);
  }

  lemma {:induction false} LeadsAppend(gs: Groups, h: nat, p: nat, t: nat)
    requires Leads(gs, h, p) && h <= p < t && HoldsBack(gs, p, t)
    ensures Leads(gs, h, t)
    decreases p - h
  {
    if h != p {
      var x: nat :| h < x <= p && HoldsBack(gs, h, x) && Leads(gs, x, p);
      LeadsAppend(gs, x, p, t);
    } else {
      assert Leads(gs, t, t);
    }
  }

  // ---------------------------------------------------------------------------
  // A chain stays until its head has executed
  // ---------------------------------------------------------------------------

  /** Groups that are not ready hold back whom they held back. */
  ghost predicate KeepsHeld(gs: Groups, gs': Groups) {
    forall x: nat, z: nat {:trigger HoldsBack(gs, x, z)} | HoldsBack(gs, x, z) && !gs[x].IsReady() :: HoldsBack(gs', x, z)
  }

  lemma {:induction false} LeadsStays(gs: Groups, gs': Groups, next: nat, h: nat, t: nat)
    requires GraphInv(gs, next) && KeepsHeld(gs, gs') && Leads(gs, h, t) && h in gs && !gs[h].IsReady()
    ensures Leads(gs', h, t)
    decreases if h < t then t - h else 0
  {
    if h == t {
    } else {
      var x: nat :| h < x <= t && HoldsBack(gs, h, x) && Leads(gs, x, t);
      HeldNotReady(gs, next, h, x);
      LeadsStays(gs, gs', next, x, t);
      assert HoldsBack(gs', h, x);
    }
  }

  lemma WaitsStays(gs: Groups, gs': Groups, next: nat, g: nat, t: nat)
    requires GraphInv(gs, next) && KeepsHeld(gs, gs') && Waits(gs, g, t)
    requires g in gs' && forall h | h in gs[g].dataSucc :: h in gs'[g].dataSucc
    ensures Waits(gs', g, t)
  {
    var h: nat :| h in gs[g].dataSucc && h <= t && Leads(gs, h, t);
    HeldNotReady(gs, next, g, h);
    LeadsStays(gs, gs', next, h, t);
  }

  lemma NewGroupKeepsHeld(u: LSU, gs': Groups)
    requires u.nextGroupID !in u.groups && AllGrown(WithNew(u), gs')
    ensures KeepsHeld(u.groups, gs') && forall g | g in u.groups :: g in gs' && u.groups[g].dataSucc <= gs'[g].dataSucc
  {
    forall g | g in u.groups ensures Grown(u.groups[g], gs'[g]) { assert Grown(WithNew(u)[g], gs'[g]); }
    forall x: nat, z: nat | HoldsBack(u.groups, x, z) ensures HoldsBack(gs', x, z) {
      assert Grown(u.groups[x], gs'[x]);
    }
  }

  ghost predicate KeepsData(gs: Groups, gs': Groups) {
    forall g, h {:trigger h in gs[g].dataSucc} | g in gs && g in gs' && h in gs[g].dataSucc :: h in gs'[g].dataSucc
  }

  lemma DispatchKeepsHeld(s: System, inst: MemInst)
    requires Inv(s)
    ensures var gs' := Step(s, DispatchE(inst)).u.groups; KeepsHeld(s.u.groups, gs') && KeepsData(s.u.groups, gs')
  {
    hide InstInv, QueueInv, GroupOk, StoreGroups, LoadGroups;
    var a, u' := Acquire(s.u, inst), Step(s, DispatchE(inst)).u;
    if inst.IsStore() {
      StoreGroupsOk(a, s.stores, inst);
      NewGroupKeepsHeld(a, u'.groups);
    } else if NeedsNewLoadGroup(a, inst) {
      LoadGroupsOk(a, s.stores, inst);
      NewGroupKeepsHeld(a, u'.groups);
    } else {
      CountersOf(s.u.groups, s.u.nextGroupID, s.u.curLoad);
      JoinKeepsHeld(s.u.groups, s.u.curLoad);
    }
  }

  lemma JoinKeepsHeld(gs: Groups, g: nat)
    requires g in gs && !gs[g].IsExecuting() && CountersOk(gs[g])
    ensures KeepsHeld(gs, AddInstruction(gs, g)) && KeepsData(gs, AddInstruction(gs, g))
  {
  }

  lemma IssueKeepsHeld(gs: Groups, g: nat)
    requires g in gs && gs[g].IsReady()
    ensures KeepsHeld(gs, IssueOne(gs, g)) && KeepsData(gs, IssueOne(gs, g))
  {
  }

  lemma ExecuteKeepsHeld(gs: Groups, g: nat)
    requires g in gs && gs[g].IsReady()
    ensures KeepsHeld(gs, ExecuteOne(gs, g)) && KeepsData(gs, ExecuteOne(gs, g))
  {
  }

  /** A group that issues or executes is ready, so the others hold back whom they held back. */
  lemma StepKeepsHeld(s: System, e: Event)
    requires Inv(s) && Enabled(s, e) && LookupsSucceed(s, e)
    ensures KeepsHeld(s.u.groups, Step(s, e).u.groups) && KeepsData(s.u.groups, Step(s, e).u.groups)
  {
    hide KeepsHeld, KeepsData, IssueOne, ExecuteOne, InstInv, QueueInv;
    match e
    case DispatchE(inst) => DispatchKeepsHeld(s, inst);
    case IssueE(i) => IssueKeepsHeld(s.u.groups, s.insts[i].token);
    case ExecuteE(i) =>
      IssuedIsExecuting(s, i);
      assert GroupOk(s.u.groups, s.insts[i].token, s.u.nextGroupID);
      ExecuteKeepsHeld(s.u.groups, s.insts[i].token);
    case RetireE(i) => NothingChanges(s.u.groups);
    case CycleE => NothingChanges(s.u.groups);
  }

  lemma NothingChanges(gs: Groups)
    ensures KeepsHeld(gs, gs) && KeepsData(gs, gs)
  {
  }

  /** Instruction `j` waits for the group of instruction `i`. */
  ghost predicate WaitsFor(s: System, i: nat, j: nat)
    requires i < |s.insts| && j < |s.insts|
  {
    Waits(s.u.groups, s.insts[i].token, s.insts[j].token)
  }

  lemma StepKeepsWaiting(s: System, e: Event, i: nat, j: nat)
    requires Inv(s) && Enabled(s, e) && LookupsSucceed(s, e)
    requires i < |s.insts| && j < |s.insts| && WaitsFor(s, i, j)
    requires |Step(s, e).insts| >= |s.insts| && Step(s, e).insts[i].phase != Executed
    ensures WaitsFor(Step(s, e), i, j)
  {
    StepKeepsInv(s, e);
    StepKeepsTokens(s, e);
    StepKeepsHeld(s, e);
    assert InstOk(Step(s, e), i);
    hide Step, KeepsHeld, Waits, InstInv;
    WaitsStaysHere(s, e, s.insts[i].token, s.insts[j].token);
  }

  lemma WaitsStaysHere(s: System, e: Event, g: nat, t: nat)
    requires Inv(s) && LookupsSucceed(s, e) && Waits(s.u.groups, g, t) && g in Step(s, e).u.groups
    requires KeepsHeld(s.u.groups, Step(s, e).u.groups) && KeepsData(s.u.groups, Step(s, e).u.groups)
    ensures Waits(Step(s, e).u.groups, g, t)
  {
    hide Step, KeepsHeld;
    WaitsStays(s.u.groups, Step(s, e).u.groups, s.u.nextGroupID, g, t);
  }

  lemma StepKeepsTokens(s: System, e: Event)
    requires LookupsSucceed(s, e) && Enabled(s, e)
    ensures |Step(s, e).insts| >= |s.insts|
    ensures forall i: nat | i < |s.insts| :: Step(s, e).insts[i].token == s.insts[i].token
  {
  }

  /** While `i` has not executed, whoever waits for it goes on waiting. */
  lemma {:induction false} WaitingLasts(cfg: Config, ev: seq<Event>, m: nat, k: nat, i: nat, j: nat)
    requires IsRun(cfg, ev) && m <= k <= |ev| && IsRun(cfg, ev[..m])
    requires i < |After(cfg, ev[..m]).insts| && j < |After(cfg, ev[..m]).insts| && WaitsFor(After(cfg, ev[..m]), i, j)
    requires ExecuteE(i) !in ev[..k]
    ensures IsRun(cfg, ev[..k]) && i < |After(cfg, ev[..k]).insts| && j < |After(cfg, ev[..k]).insts|
    ensures WaitsFor(After(cfg, ev[..k]), i, j)
  {
    hide WaitsFor, Step, Enabled, LookupsSucceed, Inv;
    PrefixIsRun(cfg, ev, k);
    if m == k {
    } else {
      assert forall e | e in ev[..k - 1] :: e in ev[..k];
      WaitingLasts(cfg, ev, m, k - 1, i, j);
      Extend(cfg, ev, k - 1);
      RunKeepsInv(cfg, ev[..k - 1]);
      var s, e := After(cfg, ev[..k - 1]), ev[k - 1];
      StepKeepsTokens(s, e);
      PhaseHappened(cfg, ev[..k], i);
      StepKeepsWaiting(s, e, i, j);
    }
  }

  /** Who waits for `i` at some time of a run issues only after `i` has executed. */
  lemma IssuesAfter(cfg: Config, ev: seq<Event>, m: nat, k: nat, i: nat, j: nat)
    requires IsRun(cfg, ev) && m <= k < |ev| && IsRun(cfg, ev[..m]) && ev[k] == IssueE(j)
    requires i < |After(cfg, ev[..m]).insts| && j < |After(cfg, ev[..m]).insts| && WaitsFor(After(cfg, ev[..m]), i, j)
    ensures ExecuteE(i) in ev[..k]
  {
    if ExecuteE(i) !in ev[..k] {
      WaitingLasts(cfg, ev, m, k, i, j);
      Extend(cfg, ev, k);
      RunKeepsInv(cfg, ev[..k]);
      var s := After(cfg, ev[..k]);
      WaitsNotReady(s.u.groups, s.u.nextGroupID, s.insts[i].token, s.insts[j].token);
      assert false;
    }
  }

  // ---------------------------------------------------------------------------
  // Without a chain there is a way past
  // ---------------------------------------------------------------------------

  /** A ready group at the head of a chain to `t`. */
  lemma {:induction false} ReadyHead(gs: Groups, next: nat, t: nat) returns (a: nat, x: nat)
    requires GraphInv(gs, next) && t in gs && !gs[t].IsReady()
    ensures a < x <= t && HoldsBack(gs, a, x) && Leads(gs, x, t) && gs[a].IsReady()
    decreases t
  {
    assert GroupOk(gs, t, next);
    var g := OpenEdgeFromSomeone(gs, t, next);
    HeldNotReady(gs, next, g, t);
    if gs[g].IsReady() {
      a, x := g, t;
    } else {
      a, x := ReadyHead(gs, next, g);
      LeadsAppend(gs, x, g, t);
    }
  }

  lemma SomeoneToIssue(s: System, g: nat) returns (m: nat)
    requires Inv(s) && Unissued(s.u.groups, g)
    ensures m < |s.insts| && s.insts[m].token == g && s.insts[m].phase == Dispatched
  {
    assert GroupOk(s.u.groups, g, s.u.nextGroupID) && GroupCounts(s.u.groups, s.insts, g);
    CountPositive(s.insts, InGroup(g, Dispatched));
    m :| m < |s.insts| && InGroup(g, Dispatched)(s.insts[m]);
  }

  lemma SomeoneToExecute(s: System, g: nat) returns (m: nat)
    requires Inv(s) && g in s.u.groups && s.u.groups[g].IsExecuting()
    ensures m < |s.insts| && s.insts[m].token == g && s.insts[m].phase == Issued
  {
    assert GroupOk(s.u.groups, g, s.u.nextGroupID) && GroupCounts(s.u.groups, s.insts, g);
    CountPositive(s.insts, InGroup(g, Issued));
    m :| m < |s.insts| && InGroup(g, Issued)(s.insts[m]);
  }

  /** No edge is added, and nobody starts to hold back somebody. */
  ghost predicate Looser(gs: Groups, gs': Groups) {
    && (forall x: nat, z: nat {:trigger HoldsBack(gs', x, z)} | HoldsBack(gs', x, z) :: HoldsBack(gs, x, z))
    && (forall g | g in gs' :: g in gs && gs'[g].dataSucc == gs[g].dataSucc)
  }

  lemma {:induction false} LeadsBefore(gs: Groups, gs': Groups, h: nat, t: nat)
    requires Looser(gs, gs') && Leads(gs', h, t)
    ensures Leads(gs, h, t)
    decreases if h < t then t - h else 0
  {
    if h == t {
    } else {
      var x: nat :| h < x <= t && HoldsBack(gs', h, x) && Leads(gs', x, t);
      LeadsBefore(gs, gs', x, t);
    }
  }

  lemma WaitsBefore(gs: Groups, gs': Groups, g: nat, t: nat)
    requires Looser(gs, gs') && Waits(gs', g, t)
    ensures Waits(gs, g, t)
  {
    var h: nat :| h in gs'[g].dataSucc && h <= t && Leads(gs', h, t);
    LeadsBefore(gs, gs', h, t);
  }

  lemma IssueLoosens(gs: Groups, g: nat)
    requires g in gs
    ensures Looser(gs, IssueOne(gs, g)) || gs[g].IsExecuting()
  {
  }

  lemma ExecuteLoosens(gs: Groups, g: nat)
    requires g in gs && gs[g].IsExecuting() && CountersOk(gs[g])
    ensures Looser(gs, ExecuteOne(gs, g))
  {
  }

  /** `more` continues the run, up to the issue of `j`, without `i` having executed. */
  ghost predicate Passes(cfg: Config, ev: seq<Event>, more: seq<Event>, i: nat, j: nat) {
    IsRun(cfg, ev + more + [IssueE(j)]) && ExecuteE(i) !in more
  }

  /** In some continuation `j` issues before `i` has executed. */
  ghost predicate MayPass(cfg: Config, ev: seq<Event>, i: nat, j: nat) {
    exists more: seq<Event> :: Passes(cfg, ev, more, i, j)
  }

  /** `i` has not executed, `j` has not issued, and `j` need not wait for `i`. */
  ghost predicate Free(s: System, i: nat, j: nat) {
    && i < |s.insts| && j < |s.insts| && s.insts[i].phase != Executed && s.insts[j].phase == Dispatched
    && !WaitsFor(s, i, j)
  }

  /** Issuing instruction `m` once its cache access is done. */
  lemma IssueInTime(cfg: Config, ev: seq<Event>, m: nat) returns (ev': seq<Event>)
    requires IsRun(cfg, ev) && m < |After(cfg, ev).insts| && After(cfg, ev).insts[m].phase == Dispatched
    requires var s := After(cfg, ev); s.insts[m].token in s.u.groups && s.u.groups[s.insts[m].token].IsReady()
    ensures ev <= ev' && IsRun(cfg, ev' + [IssueE(m)]) && IsRun(cfg, ev') && (forall i: nat :: ExecuteE(i) !in ev'[|ev|..])
    ensures var s, s' := After(cfg, ev), After(cfg, ev' + [IssueE(m)]);
            && s'.u.groups == IssueOne(s.u.groups, s.insts[m].token)
            && s'.insts == s.insts[m := s.insts[m].(phase := Issued)]
  {
    hide IsRun, After;
    var s := After(cfg, ev);
    ev' := WaitForCache(cfg, ev, s.insts[m].inst);
    RunNeverStops(cfg, ev', IssueE(m));
  }

  /** One step towards the issue of `j` that does not execute `i`. */
  lemma StepPast(cfg: Config, ev: seq<Event>, i: nat, j: nat) returns (ev': seq<Event>)
    requires IsRun(cfg, ev) && Free(After(cfg, ev), i, j)
    requires var s := After(cfg, ev); s.insts[j].token in s.u.groups && !s.u.groups[s.insts[j].token].IsReady()
    ensures ev <= ev' && IsRun(cfg, ev') && ExecuteE(i) !in ev'[|ev|..]
    ensures Free(After(cfg, ev'), i, j) && Work(After(cfg, ev').insts) < Work(After(cfg, ev).insts)
  {
    hide IsRun, After, Inv, IssueOne, Looser, ExecuteOne;
    var s := After(cfg, ev);
    var gs, t := s.u.groups, s.insts[j].token;
    RunKeepsInv(cfg, ev);
    GraphOf(s);
    var a, x := ReadyHead(gs, s.u.nextGroupID, t);
    if Unissued(gs, a) {
      var m := SomeoneToIssue(s, a);
      var mid := IssueInTime(cfg, ev, m);
      ev' := mid + [IssueE(m)];
      assert ev'[|ev|..] == mid[|ev|..] + [IssueE(m)];
      IssueLoosens(gs, a);
      StillFree(s, After(cfg, ev'), i, j);
      WorkDecreases(s.insts, m, Issued);
    } else {
      assert x in gs[a].dataSucc;
      assert a == s.insts[i].token ==> Waits(gs, a, t);
      var m := SomeoneToExecute(s, a);
      ev' := ev + [ExecuteE(m)];
      RunNeverStops(cfg, ev, ExecuteE(m));
      CountersOf(gs, s.u.nextGroupID, a);
      ExecuteLoosens(gs, a);
      StillFree(s, After(cfg, ev'), i, j);
      WorkDecreases(s.insts, m, Executed);
    }
  }

  lemma GraphOf(s: System)
    requires Inv(s)
    ensures GraphInv(s.u.groups, s.u.nextGroupID)
  {
  }

  lemma CountersOf(gs: Groups, next: nat, g: nat)
    requires GraphInv(gs, next) && g in gs
    ensures CountersOk(gs[g])
  {
    assert GroupOk(gs, g, next);
  }

  lemma StillFree(s: System, s': System, i: nat, j: nat)
    requires Free(s, i, j) && |s'.insts| == |s.insts| && Looser(s.u.groups, s'.u.groups)
    requires s'.insts[i].token == s.insts[i].token && s'.insts[j] == s.insts[j] && s'.insts[i].phase != Executed
    ensures Free(s', i, j)
  {
    if WaitsFor(s', i, j) { WaitsBefore(s.u.groups, s'.u.groups, s.insts[i].token, s.insts[j].token); }
  }

  lemma {:induction false} WayPast(cfg: Config, ev: seq<Event>, i: nat, j: nat) returns (more: seq<Event>)
    requires IsRun(cfg, ev) && Free(After(cfg, ev), i, j)
    ensures Passes(cfg, ev, more, i, j)
    decreases Work(After(cfg, ev).insts)
  {
    hide IsRun, After, Inv, WaitsFor, IssueOne;
    var s := After(cfg, ev);
    RunKeepsInv(cfg, ev);
    DispatchedIsUnissued(s, j);
    if s.u.groups[s.insts[j].token].IsReady() {
      var mid := IssueInTime(cfg, ev, j);
      more := mid[|ev|..];
      assert ev + more == mid;
    } else {
      var mid := StepPast(cfg, ev, i, j);
      var rest := WayPast(cfg, mid, i, j);
      more := mid[|ev|..] + rest;
      assert ExecuteE(i) !in more;
      assert ev + more + [IssueE(j)] == mid + rest + [IssueE(j)];
    }
  }

  /** The exact condition, in every reachable state: `j` can issue before `i` has executed, in
      some continuation of the run, if and only if no data edge of `i`'s group begins a chain
      of groups holding each other back that ends with `j`'s group. */
  lemma MayPassIff(cfg: Config, ev: seq<Event>, i: nat, j: nat)
    requires IsRun(cfg, ev) && i < |After(cfg, ev).insts| && j < |After(cfg, ev).insts|
    requires After(cfg, ev).insts[i].phase != Executed && After(cfg, ev).insts[j].phase == Dispatched
    ensures MayPass(cfg, ev, i, j) <==> !WaitsFor(After(cfg, ev), i, j)
  {
    if !WaitsFor(After(cfg, ev), i, j) {
      var more := WayPast(cfg, ev, i, j);
    } else {
      forall more: seq<Event> ensures !Passes(cfg, ev, more, i, j) { NoWayPast(cfg, ev, more, i, j); }
    }
  }

  lemma NoWayPast(cfg: Config, ev: seq<Event>, more: seq<Event>, i: nat, j: nat)
    requires IsRun(cfg, ev) && i < |After(cfg, ev).insts| && j < |After(cfg, ev).insts|
    requires After(cfg, ev).insts[i].phase != Executed && WaitsFor(After(cfg, ev), i, j)
    ensures !Passes(cfg, ev, more, i, j)
  {
    hide WaitsFor, Step, Enabled, LookupsSucceed;
    var all, k := ev + more + [IssueE(j)], |ev + more|;
    if Passes(cfg, ev, more, i, j) {
      assert all[..|ev|] == ev && all[..k] == ev + more;
      IssuesAfter(cfg, all, |ev|, k, i, j);
      NotExecutedBefore(cfg, ev, i);
    }
  }

  /** What has executed stays executed. */
  lemma {:induction false} NotExecutedBefore(cfg: Config, ev: seq<Event>, i: nat)
    requires IsRun(cfg, ev) && i < |After(cfg, ev).insts| && After(cfg, ev).insts[i].phase != Executed
    ensures ExecuteE(i) !in ev
  {
    if ev == [] {
    } else {
      var k := |ev| - 1;
      assert ev[..|ev|] == ev && ev == ev[..k] + [ev[k]];
      Extend(cfg, ev, k);
      if i < |After(cfg, ev[..k]).insts| {
        NotExecutedBefore(cfg, ev[..k], i);
      } else {
        NotExecutedEarly(cfg, ev[..k], i);
      }
    }
  }

  lemma {:induction false} NotExecutedEarly(cfg: Config, ev: seq<Event>, i: nat)
    requires IsRun(cfg, ev) && i >= |After(cfg, ev).insts|
    ensures ExecuteE(i) !in ev
  {
    if ev == [] {
    } else {
      var k := |ev| - 1;
      assert ev[..|ev|] == ev && ev == ev[..k] + [ev[k]];
      Extend(cfg, ev, k);
      StepKeepsTokens(After(cfg, ev[..k]), ev[k]);
      NotExecutedEarly(cfg, ev[..k], i);
    }
  }
}
