/** Memory groups of the load/store unit and the dependency graph between them.

A group is the unit of memory ordering: it counts its own instructions and its
predecessors, and lists its successors.  The base class of the groups lives in LLVM; the
counters are those the unit prints in its dump, and the operations below are the contract
the unit relies on:

- an order edge is discharged when the predecessor is fully issued, a data edge when the
  predecessor is fully executed;
- an order edge from an already fully issued group is not recorded;
- a group is ready when every recorded predecessor is discharged.
*/
module MemoryGroups {

  datatype MemoryGroup = MemoryGroup(
    numPredecessors: int,
    numExecutingPredecessors: int,
    numExecutedPredecessors: int,
    numInstructions: int,
    numExecuting: int,
    numExecuted: int,
    orderSucc: seq<nat>,
    dataSucc: seq<nat>)
  {
    predicate IsWaiting() {
      numPredecessors > numExecutingPredecessors + numExecutedPredecessors
    }

    predicate IsPending() {
      numExecutingPredecessors != 0 &&
      numExecutedPredecessors + numExecutingPredecessors == numPredecessors
    }

    predicate IsReady() {
      numExecutedPredecessors == numPredecessors
    }

    /** Every instruction of the group that has not executed yet is executing. */
    predicate IsExecuting() {
      numExecuting != 0 && numExecuting == numInstructions - numExecuted
    }

    predicate IsExecuted() {
      numInstructions == numExecuted
    }

    /** Number of edges to `s` that still hold `s` back. */
    function OpenEdges(s: nat): nat {
      multiset(dataSucc)[s] + if IsExecuting() then 0 else multiset(orderSucc)[s]
    }

    /** Number of edges to `s` that `s` counts as coming from an executing predecessor. */
    function StartedEdges(s: nat): nat {
      if IsExecuting() then multiset(dataSucc)[s] else 0
    }
  }

  type Groups = map<nat, MemoryGroup>

  /** A new group holding one instruction. */
  const SINGLETON := MemoryGroup(0, 0, 0, 1, 0, 0, [], [])

  function AddInstruction(gs: Groups, g: nat): Groups
    requires g in gs
  {
    gs[g := gs[g].(numInstructions := gs[g].numInstructions + 1)]
  }

  /** `p.addSuccessor(s, isData)`. */
  function AddSuccessor(gs: Groups, p: nat, s: nat, isData: bool): Groups
    requires p in gs && s in gs && p != s
  {
    var a, b := gs[p], gs[s];
    if !isData && a.IsExecuting() then gs else
      var b' := b.(numPredecessors := b.numPredecessors + 1,
                   numExecutingPredecessors := b.numExecutingPredecessors + if a.IsExecuting() then 1 else 0);
      var a' := if isData then a.(dataSucc := a.dataSucc + [s]) else a.(orderSucc := a.orderSucc + [s]);
      gs[s := b'][p := a']
  }

  /** `addSuccessor` guarded by the test that cursor `p` names a group at all. */
  function Link(gs: Groups, p: nat, s: nat, isData: bool): Groups
    requires s in gs && (p != 0 ==> p in gs && p != s)
  {
    if p == 0 then gs else AddSuccessor(gs, p, s, isData)
  }

  /** What the successors of `a` count once `a` is fully issued: order edges are released,
      data edges now come from an executing group. */
  function NotifyIssued(gs: Groups, a: MemoryGroup): Groups {
    map h | h in gs :: gs[h].(
      numExecutingPredecessors := gs[h].numExecutingPredecessors + multiset(a.dataSucc)[h],
      numExecutedPredecessors := gs[h].numExecutedPredecessors + multiset(a.orderSucc)[h])
  }

  /** What the successors of `a` count once `a` is fully executed. */
  function NotifyExecuted(gs: Groups, a: MemoryGroup): Groups {
    map h | h in gs :: gs[h].(
      numExecutingPredecessors := gs[h].numExecutingPredecessors - multiset(a.dataSucc)[h],
      numExecutedPredecessors := gs[h].numExecutedPredecessors + multiset(a.dataSucc)[h])
  }

  /** One instruction of group `g` is issued. */
  function IssueOne(gs: Groups, g: nat): Groups
    requires g in gs
  {
    var a := gs[g].(numExecuting := gs[g].numExecuting + 1);
    if a.IsExecuting() then NotifyIssued(gs[g := a], a) else gs[g := a]
  }

  /** One instruction of group `g` has executed; the group leaves the unit with its last one. */
  function ExecuteOne(gs: Groups, g: nat): Groups
    requires g in gs
  {
    var a := gs[g].(numExecuting := gs[g].numExecuting - 1, numExecuted := gs[g].numExecuted + 1);
    if a.IsExecuted() then NotifyExecuted(gs - {g}, a) else gs[g := a]
  }

  // ---------------------------------------------------------------------------
  // Edge sums
  // ---------------------------------------------------------------------------

  ghost function EdgesFrom(gs: Groups, g: nat, s: nat, started: bool): nat {
    if g !in gs then 0 else if started then gs[g].StartedEdges(s) else gs[g].OpenEdges(s)
  }

  /** Edges into `s` from all live groups with an id below `k`. */
  ghost function EdgesInto(gs: Groups, s: nat, started: bool, k: nat): nat {
    if k == 0 then 0 else EdgesInto(gs, s, started, k - 1) + EdgesFrom(gs, k - 1, s, started)
  }

  lemma {:induction false} EdgesAgree(gs: Groups, gs': Groups, s: nat, started: bool, k: nat)
    requires forall g: nat | g < k :: EdgesFrom(gs, g, s, started) == EdgesFrom(gs', g, s, started)
    ensures EdgesInto(gs, s, started, k) == EdgesInto(gs', s, started, k)
  {
    if k == 0 {
    } else {
      EdgesAgree(gs, gs', s, started, k - 1);
    }
  }

  /** Changing the edges of one group changes the sum by exactly that difference. */
  lemma {:induction false} EdgesChange(gs: Groups, gs': Groups, s: nat, started: bool, k: nat, p: nat)
    requires p < k
    requires forall g: nat | g < k && g != p :: EdgesFrom(gs, g, s, started) == EdgesFrom(gs', g, s, started)
    ensures EdgesInto(gs', s, started, k) - EdgesFrom(gs', p, s, started)
         == EdgesInto(gs, s, started, k) - EdgesFrom(gs, p, s, started)
  {
    if p == k - 1 {
      EdgesAgree(gs, gs', s, started, k - 1);
    } else {
      EdgesChange(gs, gs', s, started, k - 1, p);
    }
  }

  lemma {:induction false} EdgesZero(gs: Groups, s: nat, started: bool, k: nat)
    requires forall g: nat | g < k :: EdgesFrom(gs, g, s, started) == 0
    ensures EdgesInto(gs, s, started, k) == 0
  {
    if k == 0 {
    } else {
      EdgesZero(gs, s, started, k - 1);
    }
  }

  lemma {:induction false} EdgesAtLeast(gs: Groups, s: nat, started: bool, k: nat, p: nat)
    requires p < k
    ensures EdgesInto(gs, s, started, k) >= EdgesFrom(gs, p, s, started)
  {
    if p == k - 1 {
    } else {
      EdgesAtLeast(gs, s, started, k - 1, p);
    }
  }

  // ---------------------------------------------------------------------------
  // The graph invariant
  // ---------------------------------------------------------------------------

  ghost predicate CountersOk(a: MemoryGroup) {
    && 0 <= a.numExecuted < a.numInstructions
    && 0 <= a.numExecuting <= a.numInstructions - a.numExecuted
    // an instruction only issues from a ready group, and a group never gains predecessors later
    && (a.numExecuting + a.numExecuted > 0 ==> a.IsReady())
  }

  /** Successor lists go from smaller to larger ids, and every successor that will still be
      notified is live: no notification goes to a group that has left the unit. */
  ghost predicate SuccOk(gs: Groups, g: nat, next: nat)
    requires g in gs
  {
    && (forall s | s in gs[g].dataSucc :: g < s && s in gs)
    && (forall s | s in gs[g].orderSucc :: g < s < next && (!gs[g].IsExecuting() ==> s in gs))
  }

  /** The predecessor counters of `s` are the edges that live groups still list. */
  ghost predicate PredsOk(gs: Groups, s: nat, next: nat)
    requires s in gs
  {
    && gs[s].numPredecessors - gs[s].numExecutedPredecessors == EdgesInto(gs, s, false, next)
    && gs[s].numExecutingPredecessors == EdgesInto(gs, s, true, next)
  }

  ghost predicate GroupOk(gs: Groups, g: nat, next: nat)
    requires g in gs
  {
    && 1 <= g < next
    && CountersOk(gs[g])
    && SuccOk(gs, g, next)
    && PredsOk(gs, g, next)
  }

  /** The graph invariant: `next` is the next id to be given out. */
  ghost predicate GraphInv(gs: Groups, next: nat) {
    1 <= next && forall g {:trigger GroupOk(gs, g, next)} | g in gs :: GroupOk(gs, g, next)
  }

  lemma MultisetAppend(q: seq<nat>, x: nat, s: nat)
    ensures multiset(q + [x])[s] == multiset(q)[s] + (if s == x then 1 else 0)
  {
  }

  lemma MultisetMember(q: seq<nat>, s: nat)
    ensures multiset(q)[s] > 0 <==> s in q
  {
  }

  lemma IdsBelow(gs: Groups, next: nat)
    requires GraphInv(gs, next)
    ensures forall g | g in gs :: 1 <= g < next
  {
    forall g | g in gs ensures 1 <= g < next { assert GroupOk(gs, g, next); }
  }

  /** A live group has no open edge to itself, to a smaller group, or to a group that is gone. */
  lemma NoEdgeOutside(gs: Groups, next: nat, g: nat, s: nat)
    requires GraphInv(gs, next)
    requires s !in gs || s <= g
    ensures EdgesFrom(gs, g, s, false) == 0 && EdgesFrom(gs, g, s, true) == 0
  {
    if g in gs {
      assert GroupOk(gs, g, next);
      MultisetMember(gs[g].dataSucc, s);
      MultisetMember(gs[g].orderSucc, s);
    }
  }

  lemma NewGroupEdges(gs: Groups, next: nat, s: nat, started: bool)
    requires GraphInv(gs, next)
    ensures EdgesInto(gs[next := SINGLETON], s, started, next + 1)
         == if s < next then EdgesInto(gs, s, started, next) else 0
  {
    var gs' := gs[next := SINGLETON];
    EdgesAgree(gs', gs, s, started, next);
    if s >= next {
      IdsBelow(gs, next);
      forall g: nat | g < next ensures EdgesFrom(gs, g, s, started) == 0 { NoEdgeOutside(gs, next, g, s); }
      EdgesZero(gs, s, started, next);
    }
  }

  /** A new group with a fresh id. */
  lemma NewGroupKeepsGraph(gs: Groups, next: nat)
    requires GraphInv(gs, next)
    ensures GraphInv(gs[next := SINGLETON], next + 1)
  {
    var gs' := gs[next := SINGLETON];
    forall s | s in gs' ensures GroupOk(gs', s, next + 1) {
      if s != next { assert GroupOk(gs, s, next); }
      NewGroupEdges(gs, next, s, true);
      NewGroupEdges(gs, next, s, false);
    }
  }

  lemma AddInstructionKeepsGraph(gs: Groups, next: nat, g: nat)
    requires GraphInv(gs, next) && g in gs && !gs[g].IsExecuting()
    ensures GraphInv(AddInstruction(gs, g), next)
    ensures !AddInstruction(gs, g)[g].IsExecuting()
  {
    var gs' := AddInstruction(gs, g);
    assert GroupOk(gs, g, next);
    forall s | s in gs' ensures GroupOk(gs', s, next) {
      assert GroupOk(gs, s, next);
      EdgesAgree(gs, gs', s, true, next);
      EdgesAgree(gs, gs', s, false, next);
    }
  }

  lemma LinkEdges(gs: Groups, next: nat, p: nat, s: nat, isData: bool, t: nat, started: bool)
    requires p in gs && s in gs && p < s && p < next
    requires isData || !gs[p].IsExecuting()
    ensures EdgesInto(AddSuccessor(gs, p, s, isData), t, started, next) == EdgesInto(gs, t, started, next)
          + (if t == s && (!started || gs[p].IsExecuting()) then 1 else 0)
  {
    MultisetAppend(gs[p].dataSucc, s, t);
    MultisetAppend(gs[p].orderSucc, s, t);
    EdgesChange(gs, AddSuccessor(gs, p, s, isData), t, started, next, p);
  }

  /** Linking a live group to a larger one that has not started. */
  lemma LinkKeepsGraph(gs: Groups, next: nat, p: nat, s: nat, isData: bool)
    requires GraphInv(gs, next) && s in gs
    requires p != 0 ==> p in gs && p < s
    requires gs[s].numExecuting == gs[s].numExecuted == 0
    ensures GraphInv(Link(gs, p, s, isData), next)
  {
    if p == 0 || (!isData && gs[p].IsExecuting()) { return; }
    var gs' := AddSuccessor(gs, p, s, isData);
    assert GroupOk(gs, p, next) && GroupOk(gs, s, next);
    forall t | t in gs' ensures GroupOk(gs', t, next) {
      assert GroupOk(gs, t, next);
      LinkEdges(gs, next, p, s, isData, t, true);
      LinkEdges(gs, next, p, s, isData, t, false);
    }
  }

  /** A ready group has no open edge into it. */
  lemma ReadyHasNoOpenEdge(gs: Groups, next: nat, g: nat, h: nat)
    requires GraphInv(gs, next) && h in gs && gs[h].IsReady()
    ensures EdgesFrom(gs, g, h, false) == 0
  {
    assert GroupOk(gs, h, next);
    if g < next {
      EdgesAtLeast(gs, h, false, next, g);
    } else {
      IdsBelow(gs, next);
    }
  }

  lemma IssueEdges(gs: Groups, next: nat, g: nat, s: nat)
    requires g in gs && g < next && !gs[g].IsExecuting()
    ensures var a, gs' := gs[g].(numExecuting := gs[g].numExecuting + 1), IssueOne(gs, g);
            && EdgesInto(gs', s, false, next) == EdgesInto(gs, s, false, next)
                                                 - (if a.IsExecuting() then multiset(a.orderSucc)[s] else 0)
            && EdgesInto(gs', s, true, next) == EdgesInto(gs, s, true, next)
                                                 + (if a.IsExecuting() then multiset(a.dataSucc)[s] else 0)
  {
    EdgesChange(gs, IssueOne(gs, g), s, true, next, g);
    EdgesChange(gs, IssueOne(gs, g), s, false, next, g);
  }

  lemma IssueKeepsGraph(gs: Groups, next: nat, g: nat)
    requires GraphInv(gs, next) && g in gs
    requires gs[g].IsReady() && !gs[g].IsExecuting()
    ensures GraphInv(IssueOne(gs, g), next)
  {
    var gs' := IssueOne(gs, g);
    assert GroupOk(gs, g, next);
    NoEdgeOutside(gs, next, g, g);
    forall h | h in gs' ensures GroupOk(gs', h, next) {
      assert GroupOk(gs, h, next);
      IssueEdges(gs, next, g, h);
      if gs[h].IsReady() { ReadyHasNoOpenEdge(gs, next, g, h); }
    }
  }

  lemma ExecuteEdges(gs: Groups, next: nat, g: nat, s: nat)
    requires g in gs && g < next && CountersOk(gs[g]) && gs[g].numExecuting > 0
    ensures var gs' := ExecuteOne(gs, g);
            var d := if g in gs' then 0 else multiset(gs[g].dataSucc)[s];
            && EdgesInto(gs', s, false, next) == EdgesInto(gs, s, false, next) - d
            && EdgesInto(gs', s, true, next) == EdgesInto(gs, s, true, next) - d
  {
    EdgesChange(gs, ExecuteOne(gs, g), s, true, next, g);
    EdgesChange(gs, ExecuteOne(gs, g), s, false, next, g);
  }

  lemma ExecuteKeepsGraph(gs: Groups, next: nat, g: nat)
    requires GraphInv(gs, next) && g in gs && gs[g].numExecuting > 0
    ensures GraphInv(ExecuteOne(gs, g), next)
  {
    var gs' := ExecuteOne(gs, g);
    assert GroupOk(gs, g, next);
    forall h | h in gs' ensures GroupOk(gs', h, next) {
      assert GroupOk(gs, h, next);
      ExecuteEdges(gs, next, g, h);
      ReadyHasNoOpenEdge(gs, next, h, g);
      MultisetMember(gs[h].dataSucc, g);
      MultisetMember(gs[h].orderSucc, g);
      if gs[h].IsReady() { ReadyHasNoOpenEdge(gs, next, g, h); }
    }
  }
}
