/** Levels of cache in front of a memory, and hierarchies in which an instruction and a data
cache share their lower levels. */
module CacheChain {
  import opened Wrappers
  import opened CacheSpec
  import opened CacheLRU

  predicate AllWellFormed(cs: seq<Cache>) {
    forall i | 0 <= i < |cs| :: WellFormed(cs[i])
  }

  /** A load goes down to the first level that holds the line; every level on the way takes
      the line in.  Yields the levels afterwards and the cost. */
  function LoadChain(cs: seq<Cache>, mem: nat, a: nat): (r: (seq<Cache>, nat))
    requires AllWellFormed(cs)
    ensures |r.0| == |cs| && AllWellFormed(r.0)
    ensures forall i | 0 <= i < |cs| :: r.0[i].latency == cs[i].latency
  {
    if cs == [] then ([], mem)
    else if Hit(cs[0], a) then ([Touch(cs[0], a)] + cs[1..], cs[0].latency)
    else
      var (rest, cost) := LoadChain(cs[1..], mem, a);
      ([Touch(cs[0], a)] + rest, cs[0].latency + cost)
  }

  /** A store writes through all levels. */
  function StoreChain(cs: seq<Cache>, mem: nat, a: nat): (r: (seq<Cache>, nat))
    requires AllWellFormed(cs)
    ensures |r.0| == |cs| && AllWellFormed(r.0)
    ensures forall i | 0 <= i < |cs| :: r.0[i].latency == cs[i].latency
  {
    if cs == [] then ([], mem)
    else
      var (rest, cost) := StoreChain(cs[1..], mem, a);
      ([Touch(cs[0], a)] + rest, cs[0].latency + cost)
  }

  // ---------------------------------------------------------------------------
  // Cost and residency
  // ---------------------------------------------------------------------------

  ghost function TotalLatency(cs: seq<Cache>): nat {
    if cs == [] then 0 else cs[0].latency + TotalLatency(cs[1..])
  }

  /** `d` is the first level that holds `a`, or the memory. */
  ghost predicate FirstHolder(cs: seq<Cache>, a: nat, d: nat)
    requires AllWellFormed(cs)
  {
    && d <= |cs|
    && (forall i: nat | i < d :: !Hit(cs[i], a))
    && (d < |cs| ==> Hit(cs[d], a))
  }

  lemma FirstHolderBelow(cs: seq<Cache>, a: nat, d: nat)
    requires AllWellFormed(cs) && FirstHolder(cs, a, d) && d > 0
    ensures AllWellFormed(cs[1..]) && FirstHolder(cs[1..], a, d - 1) && !Hit(cs[0], a)
  {
    hide WellFormed;
    hide Hit;
    forall i: nat | i < d - 1 ensures !Hit(cs[1..][i], a) { assert !Hit(cs[i + 1], a); }
  }

  /** A load costs the latencies down to the first level that holds the line, plus the
      memory's if none does. */
  lemma {:induction false} LoadCost(cs: seq<Cache>, mem: nat, a: nat, d: nat)
    requires AllWellFormed(cs) && FirstHolder(cs, a, d)
    ensures LoadChain(cs, mem, a).1 == if d < |cs| then TotalLatency(cs[..d + 1]) else TotalLatency(cs) + mem
  {
    hide WellFormed;
    hide Hit;
    hide Touch;
    if d > 0 {
      FirstHolderBelow(cs, a, d);
      LoadCost(cs[1..], mem, a, d - 1);
      if d < |cs| { assert cs[..d + 1][1..] == cs[1..][..d]; }
    } else if cs != [] {
      assert cs[..1][1..] == [];
    }
  }

  lemma LoadAtMemory(mem: nat, a: nat)
    ensures LoadChain([], mem, a) == ([], mem)
  {
  }

  lemma LoadUnfold(cs: seq<Cache>, mem: nat, a: nat)
    requires AllWellFormed(cs) && cs != []
    ensures LoadChain(cs, mem, a).0
         == [Touch(cs[0], a)] + if Hit(cs[0], a) then cs[1..] else LoadChain(cs[1..], mem, a).0
    ensures LoadChain(cs, mem, a).1 == cs[0].latency + if Hit(cs[0], a) then 0 else LoadChain(cs[1..], mem, a).1
  {
    hide WellFormed, Hit, Touch;
  }

  /** After a load, the line is resident in every level visited, and the levels below are
      as before. */
  lemma {:induction false} LoadLeavesLine(cs: seq<Cache>, mem: nat, a: nat, d: nat)
    requires AllWellFormed(cs) && FirstHolder(cs, a, d)
    ensures forall i: nat | i < |cs| && i <= d :: Hit(LoadChain(cs, mem, a).0[i], LineOf(a))
    ensures forall i: nat | d < i < |cs| :: LoadChain(cs, mem, a).0[i] == cs[i]
  {
    hide WellFormed, Hit, Touch, LineOf, LoadChain;
    if cs == [] {
    } else {
      var r := LoadChain(cs, mem, a).0;
      LoadUnfold(cs, mem, a);
      ReloadHitsIffAligned(cs[0], a);
      if d > 0 {
        FirstHolderBelow(cs, a, d);
        hide FirstHolder;
        LoadLeavesLine(cs[1..], mem, a, d - 1);
        forall i: nat | i < |cs| && i <= d ensures Hit(r[i], LineOf(a)) {
          if i > 0 { assert r[i] == LoadChain(cs[1..], mem, a).0[i - 1]; }
        }
        forall i: nat | d < i < |cs| ensures r[i] == cs[i] {
          assert r[i] == LoadChain(cs[1..], mem, a).0[i - 1] == cs[1..][i - 1];
        }
      }
    }
  }

  /** A store costs the latencies of all levels and of the memory, and leaves the line in every level. */
  lemma {:induction false} StoreCost(cs: seq<Cache>, mem: nat, a: nat)
    requires AllWellFormed(cs)
    ensures StoreChain(cs, mem, a).1 == TotalLatency(cs) + mem
    ensures forall i: nat | i < |cs| :: Hit(StoreChain(cs, mem, a).0[i], LineOf(a))
  {
    if cs == [] {
    } else {
      ReloadHitsIffAligned(cs[0], a);
      StoreCost(cs[1..], mem, a);
    }
  }

  /** Repeating a load or store of a line address as a load costs one first-level latency. */
  lemma ReloadCost(cs: seq<Cache>, mem: nat, a: nat)
    requires AllWellFormed(cs) && cs != [] && Aligned(a)
    ensures LoadChain(LoadChain(cs, mem, a).0, mem, a).1 == cs[0].latency
    ensures LoadChain(StoreChain(cs, mem, a).0, mem, a).1 == cs[0].latency
  {
    ReloadHitsIffAligned(cs[0], a);
  }

  /** An address inside a line never hits: such a load always costs every level and the memory. */
  lemma {:induction false} UnalignedAlwaysMisses(cs: seq<Cache>, mem: nat, a: nat)
    requires AllWellFormed(cs) && !Aligned(a)
    ensures LoadChain(cs, mem, a).1 == TotalLatency(cs) + mem
  {
    if cs == [] {
    } else {
      HitsAreAligned(cs[0], a);
      UnalignedAlwaysMisses(cs[1..], mem, a);
    }
  }

  lemma {:induction false} LatenciesStay(cs: seq<Cache>, ds: seq<Cache>)
    requires |ds| == |cs| && forall i | 0 <= i < |cs| :: ds[i].latency == cs[i].latency
    ensures TotalLatency(ds) == TotalLatency(cs)
  {
    if cs == [] {
    } else {
      LatenciesStay(cs[1..], ds[1..]);
    }
  }

  /** A load right after a load or store of the same address, inside a line or not, takes some
      time if the first level does, and never more than the access before it; after a store of
      a line address it takes less if there is anything behind the first level. */
  lemma RepeatCost(cs: seq<Cache>, mem: nat, a: nat)
    requires AllWellFormed(cs) && cs != []
    ensures cs[0].latency <= LoadChain(LoadChain(cs, mem, a).0, mem, a).1 <= LoadChain(cs, mem, a).1
    ensures cs[0].latency <= LoadChain(StoreChain(cs, mem, a).0, mem, a).1 <= StoreChain(cs, mem, a).1
    ensures Aligned(a) && TotalLatency(cs[1..]) + mem > 0 ==>
              LoadChain(StoreChain(cs, mem, a).0, mem, a).1 < StoreChain(cs, mem, a).1
  {
    var ls, ss := LoadChain(cs, mem, a).0, StoreChain(cs, mem, a).0;
    StoreCost(cs, mem, a);
    if Aligned(a) {
      ReloadCost(cs, mem, a);
    } else {
      UnalignedAlwaysMisses(cs, mem, a);
      UnalignedAlwaysMisses(ls, mem, a);
      UnalignedAlwaysMisses(ss, mem, a);
      LatenciesStay(cs, ls);
      LatenciesStay(cs, ss);
    }
  }

  // ---------------------------------------------------------------------------
  // Instruction and data cache over shared levels
  // ---------------------------------------------------------------------------

  datatype Hierarchy = Hierarchy(l1i: Option<Cache>, l1d: Option<Cache>, shared: seq<Cache>, mem: nat)

  datatype Access = Fetch(a: nat) | Load(a: nat) | Store(a: nat)

  predicate HierarchyOk(h: Hierarchy) {
    && (h.l1i.Some? ==> WellFormed(h.l1i.value))
    && (h.l1d.Some? ==> WellFormed(h.l1d.value))
    && AllWellFormed(h.shared)
  }

  /** One access; without the first-level cache it goes through, it is not simulated. */
  function Perform(h: Hierarchy, x: Access): (r: (Hierarchy, nat))
    requires HierarchyOk(h)
    ensures HierarchyOk(r.0)
  {
    match x
    case Fetch(a) =>
      if h.l1i.None? then (h, 0) else
        var (cs, cost) := LoadChain([h.l1i.value] + h.shared, h.mem, a);
        (h.(l1i := Some(cs[0]), shared := cs[1..]), cost)
    case Load(a) =>
      if h.l1d.None? then (h, 0) else
        var (cs, cost) := LoadChain([h.l1d.value] + h.shared, h.mem, a);
        (h.(l1d := Some(cs[0]), shared := cs[1..]), cost)
    case Store(a) =>
      if h.l1d.None? then (h, 0) else
        var (cs, cost) := StoreChain([h.l1d.value] + h.shared, h.mem, a);
        (h.(l1d := Some(cs[0]), shared := cs[1..]), cost)
  }

  function RunAll(h: Hierarchy, xs: seq<Access>): (r: Hierarchy)
    requires HierarchyOk(h)
    ensures HierarchyOk(r)
  {
    if xs == [] then h else Perform(RunAll(h, xs[..|xs| - 1]), xs[|xs| - 1]).0
  }

  /** The accesses that each level gets to see: those that missed above it, and all stores. */
  datatype Seen = Seen(l1i: seq<nat>, l1d: seq<nat>, shared: seq<seq<nat>>)

  ghost function SeenByLoad(cs: seq<Cache>, trs: seq<seq<nat>>, a: nat): (r: seq<seq<nat>>)
    requires AllWellFormed(cs) && |trs| == |cs|
    ensures |r| == |cs|
  {
    if cs == [] then [] else
      [trs[0] + [a]] + if Hit(cs[0], a) then trs[1..] else SeenByLoad(cs[1..], trs[1..], a)
  }

  ghost function SeenByStore(trs: seq<seq<nat>>, a: nat): (r: seq<seq<nat>>)
    ensures |r| == |trs|
  {
    seq(|trs|, i requires 0 <= i < |trs| => trs[i] + [a])
  }

  ghost predicate AllLRU(cs: seq<Cache>, trs: seq<seq<nat>>, bound: nat) {
    |trs| == |cs| && forall i | 0 <= i < |cs| :: CacheInv(cs[i], trs[i]) && |trs[i]| <= bound
  }

  /** Before the first access, with `n` shared levels. */
  ghost function Unseen(n: nat): Seen {
    Seen([], [], seq(n, i => []))
  }

  ghost predicate LeastRecentlyUsed(h: Hierarchy, t: Seen, bound: nat) {
    && (h.l1i.Some? ==> CacheInv(h.l1i.value, t.l1i) && |t.l1i| <= bound)
    && (h.l1d.Some? ==> CacheInv(h.l1d.value, t.l1d) && |t.l1d| <= bound)
    && AllLRU(h.shared, t.shared, bound)
  }

  ghost function SeenAfter(h: Hierarchy, t: Seen, x: Access): Seen
    requires HierarchyOk(h) && |t.shared| == |h.shared|
  {
    match x
    case Fetch(a) =>
      if h.l1i.None? then t else
        var trs := SeenByLoad([h.l1i.value] + h.shared, [t.l1i] + t.shared, a);
        t.(l1i := trs[0], shared := trs[1..])
    case Load(a) =>
      if h.l1d.None? then t else
        var trs := SeenByLoad([h.l1d.value] + h.shared, [t.l1d] + t.shared, a);
        t.(l1d := trs[0], shared := trs[1..])
    case Store(a) =>
      if h.l1d.None? then t else
        var trs := SeenByStore([t.l1d] + t.shared, a);
        t.(l1d := trs[0], shared := trs[1..])
  }

  lemma OneMoreLevel(c: Cache, tr: seq<nat>, cs: seq<Cache>, trs: seq<seq<nat>>, bound: nat)
    ensures AllLRU([c] + cs, [tr] + trs, bound) <==> CacheInv(c, tr) && |tr| <= bound && AllLRU(cs, trs, bound)
  {
    hide CacheInv;
    if AllLRU([c] + cs, [tr] + trs, bound) {
      assert ([c] + cs)[0] == c && ([tr] + trs)[0] == tr;
      forall i | 0 <= i < |cs| ensures CacheInv(cs[i], trs[i]) && |trs[i]| <= bound {
        assert ([c] + cs)[i + 1] == cs[i] && ([tr] + trs)[i + 1] == trs[i];
      }
    }
  }

  lemma FirstLevel(cs: seq<Cache>, trs: seq<seq<nat>>, bound: nat)
    requires cs != [] && AllLRU(cs, trs, bound)
    ensures trs != [] && CacheInv(cs[0], trs[0]) && |trs[0]| <= bound && AllLRU(cs[1..], trs[1..], bound)
  {
    hide CacheInv;
  }

  lemma LooserBound(cs: seq<Cache>, trs: seq<seq<nat>>, bound: nat)
    requires AllLRU(cs, trs, bound)
    ensures AllLRU(cs, trs, bound + 1)
  {
    hide CacheInv;
  }

  lemma {:induction false} LoadKeepsLRU(cs: seq<Cache>, trs: seq<seq<nat>>, mem: nat, a: nat, bound: nat)
    requires AllWellFormed(cs) && AllLRU(cs, trs, bound)
    requires a != 0 && Aligned(a) && bound + 1 < STAMP_RANGE
    ensures AllLRU(LoadChain(cs, mem, a).0, SeenByLoad(cs, trs, a), bound + 1)
  {
    if cs == [] {
    } else {
      hide CacheInv, WellFormed, Hit, Touch, LoadChain, AllLRU;
      FirstLevel(cs, trs, bound);
      TouchKeepsInv(cs[0], trs[0], a);
      LoadUnfold(cs, mem, a);
      if Hit(cs[0], a) {
        LooserBound(cs[1..], trs[1..], bound);
        OneMoreLevel(Touch(cs[0], a), trs[0] + [a], cs[1..], trs[1..], bound + 1);
      } else {
        LoadKeepsLRU(cs[1..], trs[1..], mem, a, bound);
        OneMoreLevel(Touch(cs[0], a), trs[0] + [a], LoadChain(cs[1..], mem, a).0, SeenByLoad(cs[1..], trs[1..], a), bound + 1);
      }
    }
  }

  lemma StoreUnfold(cs: seq<Cache>, trs: seq<seq<nat>>, mem: nat, a: nat)
    requires AllWellFormed(cs) && cs != [] && trs != []
    ensures StoreChain(cs, mem, a).0 == [Touch(cs[0], a)] + StoreChain(cs[1..], mem, a).0
    ensures SeenByStore(trs, a) == [trs[0] + [a]] + SeenByStore(trs[1..], a)
  {
    hide WellFormed, Touch;
  }

  lemma {:induction false} StoreKeepsLRU(cs: seq<Cache>, trs: seq<seq<nat>>, mem: nat, a: nat, bound: nat)
    requires AllWellFormed(cs) && AllLRU(cs, trs, bound)
    requires a != 0 && Aligned(a) && bound + 1 < STAMP_RANGE
    ensures AllLRU(StoreChain(cs, mem, a).0, SeenByStore(trs, a), bound + 1)
  {
    if cs == [] {
    } else {
      hide CacheInv, WellFormed, Hit, Touch, AllLRU, SeenByStore, StoreChain;
      FirstLevel(cs, trs, bound);
      TouchKeepsInv(cs[0], trs[0], a);
      StoreKeepsLRU(cs[1..], trs[1..], mem, a, bound);
      StoreUnfold(cs, trs, mem, a);
      OneMoreLevel(Touch(cs[0], a), trs[0] + [a], StoreChain(cs[1..], mem, a).0, SeenByStore(trs[1..], a), bound + 1);
    }
  }

  /** An access through first-level cache `c`. */
  lemma LoadThroughKeepsLRU(c: Cache, tr: seq<nat>, cs: seq<Cache>, trs: seq<seq<nat>>, mem: nat, a: nat, bound: nat)
    requires WellFormed(c) && AllWellFormed(cs) && CacheInv(c, tr) && |tr| <= bound && AllLRU(cs, trs, bound)
    requires a != 0 && Aligned(a) && bound + 1 < STAMP_RANGE
    ensures AllWellFormed([c] + cs)
    ensures var ds, seen := LoadChain([c] + cs, mem, a).0, SeenByLoad([c] + cs, [tr] + trs, a);
            CacheInv(ds[0], seen[0]) && |seen[0]| <= bound + 1 && AllLRU(ds[1..], seen[1..], bound + 1)
  {
    hide CacheInv, WellFormed, LoadChain, SeenByLoad, AllLRU;
    SameLength(cs, trs, bound);
    OneMoreLevel(c, tr, cs, trs, bound);
    LoadKeepsLRU([c] + cs, [tr] + trs, mem, a, bound);
    FirstLevel(LoadChain([c] + cs, mem, a).0, SeenByLoad([c] + cs, [tr] + trs, a), bound + 1);
  }

  lemma StoreThroughKeepsLRU(c: Cache, tr: seq<nat>, cs: seq<Cache>, trs: seq<seq<nat>>, mem: nat, a: nat, bound: nat)
    requires WellFormed(c) && AllWellFormed(cs) && CacheInv(c, tr) && |tr| <= bound && AllLRU(cs, trs, bound)
    requires a != 0 && Aligned(a) && bound + 1 < STAMP_RANGE
    ensures AllWellFormed([c] + cs)
    ensures var ds, seen := StoreChain([c] + cs, mem, a).0, SeenByStore([tr] + trs, a);
            CacheInv(ds[0], seen[0]) && |seen[0]| <= bound + 1 && AllLRU(ds[1..], seen[1..], bound + 1)
  {
    hide CacheInv, WellFormed, StoreChain, SeenByStore, AllLRU;
    OneMoreLevel(c, tr, cs, trs, bound);
    StoreKeepsLRU([c] + cs, [tr] + trs, mem, a, bound);
    FirstLevel(StoreChain([c] + cs, mem, a).0, SeenByStore([tr] + trs, a), bound + 1);
  }

  lemma LooserHistory(h: Hierarchy, t: Seen, bound: nat)
    requires LeastRecentlyUsed(h, t, bound)
    ensures LeastRecentlyUsed(h, t, bound + 1) && |t.shared| == |h.shared|
  {
    hide CacheInv, AllLRU;
    SameLength(h.shared, t.shared, bound);
    LooserBound(h.shared, t.shared, bound);
  }

  lemma SameLength(cs: seq<Cache>, trs: seq<seq<nat>>, bound: nat)
    requires AllLRU(cs, trs, bound)
    ensures |trs| == |cs|
  {
  }

  /** An access keeps every level, shared ones included, a least-recently-used cache of
      exactly the accesses that have reached it. */
  lemma PerformKeepsLRU(h: Hierarchy, t: Seen, x: Access, bound: nat)
    requires HierarchyOk(h) && LeastRecentlyUsed(h, t, bound)
    requires x.a != 0 && Aligned(x.a) && bound + 1 < STAMP_RANGE
    ensures LeastRecentlyUsed(Perform(h, x).0, SeenAfter(h, t, x), bound + 1)
  {
    hide CacheInv, WellFormed, AllWellFormed, AllLRU, LoadChain, StoreChain, SeenByLoad, SeenByStore;
    LooserHistory(h, t, bound);
    match x
    case Fetch(a) =>
      if h.l1i.Some? { LoadThroughKeepsLRU(h.l1i.value, t.l1i, h.shared, t.shared, h.mem, a, bound); }
    case Load(a) =>
      if h.l1d.Some? { LoadThroughKeepsLRU(h.l1d.value, t.l1d, h.shared, t.shared, h.mem, a, bound); }
    case Store(a) =>
      if h.l1d.Some? { StoreThroughKeepsLRU(h.l1d.value, t.l1d, h.shared, t.shared, h.mem, a, bound); }
  }

  ghost function SeenInRun(h: Hierarchy, xs: seq<Access>): (t: Seen)
    requires HierarchyOk(h)
    ensures |t.shared| == |RunAll(h, xs).shared|
  {
    if xs == [] then Unseen(|h.shared|)
    else SeenAfter(RunAll(h, xs[..|xs| - 1]), SeenInRun(h, xs[..|xs| - 1]), xs[|xs| - 1])
  }

  /** In any interleaving of fetches, loads and stores, every level is a least-recently-used
      cache of exactly the accesses that reach it. */
  lemma {:induction false} RunKeepsLRU(h: Hierarchy, xs: seq<Access>)
    requires HierarchyOk(h) && LeastRecentlyUsed(h, Unseen(|h.shared|), 0)
    requires |xs| < STAMP_RANGE && forall x | x in xs :: x.a != 0 && Aligned(x.a)
    ensures LeastRecentlyUsed(RunAll(h, xs), SeenInRun(h, xs), |xs|)
  {
    if xs == [] {
    } else {
      var k := |xs| - 1;
      assert xs[k] in xs;
      RunKeepsLRU(h, xs[..k]);
      PerformKeepsLRU(RunAll(h, xs[..k]), SeenInRun(h, xs[..k]), xs[k], k);
    }
  }
}
