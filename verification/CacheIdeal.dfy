/** The cost of every access, from the history of accesses alone.

The reference knows no tables: only how many sets and ways each level has, and which
accesses have reached it. */
module CacheIdeal {
  import opened Wrappers
  import opened CacheSpec
  import opened CacheLRU
  import opened CacheChain

  datatype Level = Level(numSets: nat, numWays: nat, latency: nat)

  datatype Plan = Plan(l1i: Option<Level>, l1d: Option<Level>, shared: seq<Level>, mem: nat)

  /** The line has been used, and fewer than `numWays` others with a congruent line number since. */
  ghost predicate Held(l: Level, tr: seq<nat>, a: nat) {
    l.numSets >= 1 && a in tr && |Rivals(tr, l.numSets, a)| < l.numWays
  }

  /** What a load costs: the latencies down to the first level whose history holds it. */
  ghost function LoadCostOf(ls: seq<Level>, trs: seq<seq<nat>>, mem: nat, a: nat): nat
    requires |trs| == |ls|
  {
    if ls == [] then mem
    else ls[0].latency + if Held(ls[0], trs[0], a) then 0 else LoadCostOf(ls[1..], trs[1..], mem, a)
  }

  /** How the histories go on with a load: the levels below the first holder do not see it. */
  ghost function SeenOf(ls: seq<Level>, trs: seq<seq<nat>>, a: nat): (r: seq<seq<nat>>)
    requires |trs| == |ls|
    ensures |r| == |ls|
  {
    if ls == [] then [] else
      [trs[0] + [a]] + if Held(ls[0], trs[0], a) then trs[1..] else SeenOf(ls[1..], trs[1..], a)
  }

  ghost function StoreCostOf(ls: seq<Level>, mem: nat): nat {
    if ls == [] then mem else ls[0].latency + StoreCostOf(ls[1..], mem)
  }

  ghost predicate Fits(p: Plan, t: Seen) { |t.shared| == |p.shared| }

  ghost function CostOf(p: Plan, t: Seen, x: Access): nat
    requires Fits(p, t)
  {
    match x
    case Fetch(a) => if p.l1i.None? then 0 else LoadCostOf([p.l1i.value] + p.shared, [t.l1i] + t.shared, p.mem, a)
    case Load(a) => if p.l1d.None? then 0 else LoadCostOf([p.l1d.value] + p.shared, [t.l1d] + t.shared, p.mem, a)
    case Store(a) => if p.l1d.None? then 0 else StoreCostOf([p.l1d.value] + p.shared, p.mem)
  }

  ghost function Next(p: Plan, t: Seen, x: Access): (t': Seen)
    requires Fits(p, t)
    ensures Fits(p, t')
  {
    match x
    case Fetch(a) =>
      if p.l1i.None? then t else
        var trs := SeenOf([p.l1i.value] + p.shared, [t.l1i] + t.shared, a);
        t.(l1i := trs[0], shared := trs[1..])
    case Load(a) =>
      if p.l1d.None? then t else
        var trs := SeenOf([p.l1d.value] + p.shared, [t.l1d] + t.shared, a);
        t.(l1d := trs[0], shared := trs[1..])
    case Store(a) =>
      if p.l1d.None? then t else
        var trs := SeenByStore([t.l1d] + t.shared, a);
        t.(l1d := trs[0], shared := trs[1..])
  }

  /** The histories of all levels after some accesses. */
  ghost function History(p: Plan, xs: seq<Access>): (t: Seen)
    ensures Fits(p, t)
  {
    if xs == [] then Unseen(|p.shared|) else Next(p, History(p, xs[..|xs| - 1]), xs[|xs| - 1])
  }

  // ---------------------------------------------------------------------------
  // The tables agree
  // ---------------------------------------------------------------------------

  ghost function LevelOf(c: Cache): Level { Level(c.numSets, c.numWays, c.latency) }

  ghost function LevelsOf(cs: seq<Cache>): (ls: seq<Level>)
    ensures |ls| == |cs| && forall i: nat | i < |cs| :: ls[i] == LevelOf(cs[i])
  {
    seq(|cs|, i requires 0 <= i < |cs| => LevelOf(cs[i]))
  }

  ghost function PlanOf(h: Hierarchy): Plan {
    Plan(if h.l1i.Some? then Some(LevelOf(h.l1i.value)) else None, if h.l1d.Some? then Some(LevelOf(h.l1d.value)) else None,
         LevelsOf(h.shared), h.mem)
  }

  lemma FirstIsHeldIff(c: Cache, tr: seq<nat>, a: nat)
    requires CacheInv(c, tr) && a != 0
    ensures Hit(c, a) <==> Held(LevelOf(c), tr, a)
  {
    hide Rivals, Hit;
    HitIffHeld(c, tr, a);
  }

  /** A load costs, and is seen, as the histories say; no level changes its shape. */
  lemma {:induction false} LoadAgrees(cs: seq<Cache>, trs: seq<seq<nat>>, mem: nat, a: nat, bound: nat)
    requires AllWellFormed(cs) && AllLRU(cs, trs, bound) && a != 0
    ensures LoadChain(cs, mem, a).1 == LoadCostOf(LevelsOf(cs), trs, mem, a)
    ensures SeenByLoad(cs, trs, a) == SeenOf(LevelsOf(cs), trs, a)
    ensures LevelsOf(LoadChain(cs, mem, a).0) == LevelsOf(cs)
  {
    hide CacheInv, WellFormed, Hit, Held, Touch;
    if cs == [] {
    } else {
      FirstIsHeldIff(cs[0], trs[0], a);
      assert LevelsOf(cs)[1..] == LevelsOf(cs[1..]);
      if !Hit(cs[0], a) { LoadAgrees(cs[1..], trs[1..], mem, a, bound); }
      var cs' := LoadChain(cs, mem, a).0;
      forall i: nat | i < |cs| ensures LevelOf(cs'[i]) == LevelOf(cs[i]) {
        if i > 0 && !Hit(cs[0], a) { assert LevelsOf(LoadChain(cs[1..], mem, a).0)[i - 1] == LevelsOf(cs[1..])[i - 1]; }
      }
    }
  }

  lemma {:induction false} StoreAgrees(cs: seq<Cache>, mem: nat, a: nat)
    requires AllWellFormed(cs)
    ensures StoreChain(cs, mem, a).1 == StoreCostOf(LevelsOf(cs), mem)
    ensures LevelsOf(StoreChain(cs, mem, a).0) == LevelsOf(cs)
  {
    hide WellFormed, Touch;
    if cs == [] {
    } else {
      StoreAgrees(cs[1..], mem, a);
      assert LevelsOf(cs)[1..] == LevelsOf(cs[1..]);
      var cs' := StoreChain(cs, mem, a).0;
      forall i: nat | i < |cs| ensures LevelOf(cs'[i]) == LevelOf(cs[i]) {
        if i > 0 { assert LevelsOf(StoreChain(cs[1..], mem, a).0)[i - 1] == LevelsOf(cs[1..])[i - 1]; }
      }
    }
  }

  lemma FirstAndRest(c: Cache, cs: seq<Cache>)
    ensures LevelsOf([c] + cs) == [LevelOf(c)] + LevelsOf(cs)
  {
  }

  lemma SameLevels(cs: seq<Cache>, c: Cache, shared: seq<Cache>)
    requires cs != [] && LevelsOf(cs) == LevelsOf([c] + shared)
    ensures LevelOf(cs[0]) == LevelOf(c) && LevelsOf(cs[1..]) == LevelsOf(shared)
  {
    assert LevelsOf(cs)[1..] == LevelsOf(cs[1..]) && LevelsOf([c] + shared)[1..] == LevelsOf(shared);
    FirstAndRest(c, shared);
  }

  /** A load through first-level cache `c`. */
  lemma LoadThrough(c: Cache, shared: seq<Cache>, tr: seq<nat>, trs: seq<seq<nat>>, mem: nat, a: nat, bound: nat)
    requires WellFormed(c) && AllWellFormed(shared) && a != 0
    requires CacheInv(c, tr) && |tr| <= bound && AllLRU(shared, trs, bound)
    ensures AllWellFormed([c] + shared)
    ensures var (cs, cost) := LoadChain([c] + shared, mem, a);
            && cost == LoadCostOf([LevelOf(c)] + LevelsOf(shared), [tr] + trs, mem, a)
            && LevelOf(cs[0]) == LevelOf(c) && LevelsOf(cs[1..]) == LevelsOf(shared)
    ensures SeenByLoad([c] + shared, [tr] + trs, a) == SeenOf([LevelOf(c)] + LevelsOf(shared), [tr] + trs, a)
  {
    hide CacheInv, WellFormed, LoadChain, SeenByLoad, SeenOf, LoadCostOf;
    LoadAgrees([c] + shared, [tr] + trs, mem, a, bound);
    FirstAndRest(c, shared);
    SameLevels(LoadChain([c] + shared, mem, a).0, c, shared);
  }

  lemma StoreThrough(c: Cache, shared: seq<Cache>, mem: nat, a: nat)
    requires WellFormed(c) && AllWellFormed(shared)
    ensures AllWellFormed([c] + shared)
    ensures var (cs, cost) := StoreChain([c] + shared, mem, a);
            && cost == StoreCostOf([LevelOf(c)] + LevelsOf(shared), mem)
            && LevelOf(cs[0]) == LevelOf(c) && LevelsOf(cs[1..]) == LevelsOf(shared)
  {
    hide WellFormed, StoreChain, StoreCostOf;
    StoreAgrees([c] + shared, mem, a);
    FirstAndRest(c, shared);
    SameLevels(StoreChain([c] + shared, mem, a).0, c, shared);
  }

  lemma PerformAgrees(h: Hierarchy, t: Seen, x: Access, bound: nat)
    requires HierarchyOk(h) && LeastRecentlyUsed(h, t, bound) && x.a != 0
    ensures Perform(h, x).1 == CostOf(PlanOf(h), t, x)
    ensures SeenAfter(h, t, x) == Next(PlanOf(h), t, x)
    ensures PlanOf(Perform(h, x).0) == PlanOf(h)
  {
    hide CacheInv, WellFormed, AllWellFormed, AllLRU, LevelOf, LevelsOf;
    hide LoadChain, StoreChain, SeenByLoad, SeenByStore, SeenOf, LoadCostOf, StoreCostOf;
    SharedHistories(h, t, bound);
    match x
    case Fetch(a) =>
      if h.l1i.Some? { LoadThrough(h.l1i.value, h.shared, t.l1i, t.shared, h.mem, a, bound); }
    case Load(a) =>
      if h.l1d.Some? { LoadThrough(h.l1d.value, h.shared, t.l1d, t.shared, h.mem, a, bound); }
    case Store(a) =>
      if h.l1d.Some? { StoreThrough(h.l1d.value, h.shared, h.mem, a); }
  }

  lemma SharedHistories(h: Hierarchy, t: Seen, bound: nat)
    requires LeastRecentlyUsed(h, t, bound)
    ensures |t.shared| == |h.shared| == |PlanOf(h).shared|
  {
  }

  lemma {:induction false} HistoryAgrees(h: Hierarchy, xs: seq<Access>)
    requires HierarchyOk(h) && LeastRecentlyUsed(h, Unseen(|h.shared|), 0)
    requires |xs| < STAMP_RANGE && forall x | x in xs :: x.a != 0 && Aligned(x.a)
    ensures PlanOf(RunAll(h, xs)) == PlanOf(h) && SeenInRun(h, xs) == History(PlanOf(h), xs)
  {
    hide HierarchyOk, LeastRecentlyUsed, Perform, SeenAfter, Next, PlanOf, Unseen;
    if xs == [] {
      SharedHistories(h, Unseen(|h.shared|), 0);
    } else {
      var k := |xs| - 1;
      assert xs[k] in xs;
      HistoryAgrees(h, xs[..k]);
      RunKeepsLRU(h, xs[..k]);
      PerformAgrees(RunAll(h, xs[..k]), SeenInRun(h, xs[..k]), xs[k], k);
    }
  }

  /** In any interleaving of fetches, loads and stores of line addresses, every access costs
      exactly what the history of the accesses before it says. */
  lemma CostIsOfHistory(h: Hierarchy, xs: seq<Access>, x: Access)
    requires HierarchyOk(h) && LeastRecentlyUsed(h, Unseen(|h.shared|), 0) && x.a != 0
    requires |xs| < STAMP_RANGE && forall y | y in xs :: y.a != 0 && Aligned(y.a)
    ensures Perform(RunAll(h, xs), x).1 == CostOf(PlanOf(h), History(PlanOf(h), xs), x)
  {
    hide *;
    RunKeepsLRU(h, xs);
    HistoryAgrees(h, xs);
    PerformAgrees(RunAll(h, xs), SeenInRun(h, xs), x, |xs|);
  }
}
