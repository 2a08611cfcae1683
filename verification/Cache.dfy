/** Cache units as linked objects, and how a hierarchy is built from them. */
module CacheUnits {
  import opened Nonlinear
  import opened Wrappers
  import opened CacheSpec
  import opened CacheLRU
  import opened CacheChain

  /** A cache unit in front of `nextLevel`, or of a memory with a fixed latency. */
  class CacheUnit {
    const numSets: nat
    const numWays: nat
    const latency: nat
    const nextLevel: CacheUnit?
    const memoryLatency: nat  // of the memory behind the last level
    var table: seq<seq<CacheEntry>>
    var nextFree: seq<nat>
    var localClock: nat
    var numLoadMisses: nat
    ghost const below: seq<CacheUnit>  // the levels behind this one

    /** The levels behind a unit are the ones its next-level references lead to, all different. */
    ghost predicate Linked()
      decreases |below|
    {
      && (nextLevel == null <==> below == [])
      && (nextLevel != null ==>
            && below == [nextLevel] + nextLevel.below
            && memoryLatency == nextLevel.memoryLatency
            && nextLevel.Linked())
      && this !in below
    }

    ghost function State(): Cache
      reads this
    {
      Cache(numSets, numWays, latency, table, nextFree, localClock)
    }

    /** The states of this level and the levels behind it. */
    ghost function Levels(): seq<Cache>
      reads this, below
    {
      [State()] + States(below)
    }

    ghost predicate Valid()
      reads this, below
    {
      Linked() && AllWellFormed(Levels())
    }

    constructor (size: nat, numWays: nat, nextLevel: CacheUnit?, memoryLatency: nat, latency: nat)
      requires size % LINE_SIZE == 0 && numWays >= 1
      requires nextLevel != null ==> nextLevel.Linked() && nextLevel.memoryLatency == memoryLatency
      ensures Linked() && fresh(this)
      ensures State() == Empty(size / LINE_SIZE / numWays, numWays, latency)
      // a unit can be accessed if it and the levels behind it have sets
      ensures Valid() <==> size / LINE_SIZE / numWays >= 1 && (nextLevel != null ==> nextLevel.Valid())
      ensures this.memoryLatency == memoryLatency && this.nextLevel == nextLevel
      ensures below == if nextLevel == null then [] else [nextLevel] + nextLevel.below
    {
      this.numSets, this.numWays, this.latency := size / LINE_SIZE / numWays, numWays, latency;
      this.nextLevel, this.memoryLatency := nextLevel, memoryLatency;
      table := seq(size / LINE_SIZE / numWays, (s: nat) => seq(numWays, (w: nat) => CacheEntry(0, 0)));
      nextFree := seq(size / LINE_SIZE / numWays, (s: nat) => 0);
      localClock, numLoadMisses := 0, 0;
      below := if nextLevel == null then [] else [nextLevel] + nextLevel.below;
      new;
      assert State() == Empty(size / LINE_SIZE / numWays, numWays, latency);
      if nextLevel != null {
        assert below[1..] == nextLevel.below;
        assert States(below) == nextLevel.Levels();
      }
      FirstWellFormed(State(), States(below));
    }

    /** Scans the set for the address; yields the number of ways if it is not there. */
    method GetEntry(a: nat) returns (way: nat)
      requires WellFormed(State())
      ensures way == WayOf(table[SetOf(a, numSets)], a)
    {
      var ways := table[SetOf(a, numSets)];
      way := 0;
      while way < |ways|
        invariant way <= |ways|
        invariant WayOf(ways, a) == way + WayOf(ways[way..], a)
      {
        if ways[way].addr == a { return; }
        way := way + 1;
      }
    }

    /** A free way of the set, or the one with the smallest time stamp. */
    method EvictEntry(a: nat) returns (way: nat)
      requires WellFormed(State())
      modifies `nextFree
      ensures var s, free := SetOf(a, numSets), old(nextFree);
              && way == (if free[s] < numWays then free[s] else LeastRecentWay(table[s]))
              && nextFree == free[s := if free[s] < numWays then free[s] + 1 else free[s]]
    {
      var setIndex := SetOf(a, numSets);
      if nextFree[setIndex] < numWays {
        way := nextFree[setIndex];
        nextFree := nextFree[setIndex := nextFree[setIndex] + 1];
        return;
      }
      var ways := table[setIndex];
      way := 0;
      var leastRecentTime := ways[0].lastAccess;
      var i := 1;
      while i < |ways|
        invariant 1 <= i <= |ways|
        invariant way == LeastRecentWay(ways[..i]) && leastRecentTime == ways[way].lastAccess
      {
        assert ways[..i + 1][..i] == ways[..i];
        if ways[i].lastAccess <= leastRecentTime {
          way := i;
          leastRecentTime := ways[i].lastAccess;
        }
        i := i + 1;
      }
      assert ways[..i] == ways;
    }

    lemma ValidParts()
      requires Valid()
      ensures WellFormed(State()) && AllWellFormed(States(below))
      ensures Levels()[0] == State() && Levels()[1..] == States(below)
      ensures nextLevel != null ==> nextLevel.Valid() && States(below) == nextLevel.Levels()
    {
      assert Levels()[0] == State() && Levels()[1..] == States(below);
      if nextLevel != null { assert below[1..] == nextLevel.below; }
    }

    lemma ValidFromParts()
      requires Linked() && WellFormed(State()) && AllWellFormed(States(below))
      ensures Valid()
    {
    }

    /** The part that loads and stores share: find the line or make room for it, and stamp it. */
    method Access(a: nat) returns (hit: bool)
      requires WellFormed(State())
      modifies this`table, this`nextFree, this`localClock
      ensures hit == Hit(old(State()), a) && State() == Touch(old(State()), a)
    {
      hide WayOf, LeastRecentWay, SetOf, LineOf;
      localClock := localClock + 1;
      var setIndex := SetOf(a, numSets);
      var way := GetEntry(a);
      hit := way < numWays;
      if !hit {
        way := EvictEntry(a);
        table := table[setIndex := table[setIndex][way := table[setIndex][way].(addr := LineOf(a))]];
      }
      table := table[setIndex := table[setIndex][way := table[setIndex][way].(lastAccess := localClock % STAMP_RANGE)]];
      ghost var (ways, free) := TouchWays(old(table)[setIndex], old(nextFree)[setIndex], a, localClock % STAMP_RANGE);
      assert table[setIndex] == ways;
      assert table == old(table)[setIndex := ways];
      assert nextFree == old(nextFree)[setIndex := free];
    }

    /** A load costs what the chain of levels says, and changes every level as it says. */
    method Load(a: nat) returns (cost: nat)
      requires Valid()
      modifies this, below
      ensures Valid()
      ensures (Levels(), cost) == LoadChain(old(Levels()), memoryLatency, a)
      ensures numLoadMisses == old(numLoadMisses) + if Hit(old(State()), a) then 0 else 1
      decreases |below|
    {
      hide WellFormed, Hit, Touch, LoadChain, AllWellFormed;
      cost := latency;
      ValidParts();
      LoadUnfold(Levels(), memoryLatency, a);
      LoadAtMemory(memoryLatency, a);
      var hit := Access(a);
      if !hit {
        var rest := memoryLatency;
        if nextLevel != null {
          rest := nextLevel.Load(a);
        }
        cost := cost + rest;
        numLoadMisses := numLoadMisses + 1;
      }
      ValidFromParts();
    }

    /** A store is written through: it reaches every level and the memory. */
    method Store(a: nat) returns (cost: nat)
      requires Valid()
      modifies this, below
      ensures Valid() && numLoadMisses == old(numLoadMisses)
      ensures (Levels(), cost) == StoreChain(old(Levels()), memoryLatency, a)
      decreases |below|
    {
      hide WellFormed;
      hide Hit;
      hide Touch;
      ValidParts();
      var hit := Access(a);
      var rest := memoryLatency;
      if nextLevel != null {
        ValidParts();
        rest := nextLevel.Store(a);
      }
      cost := latency + rest;
      ValidFromParts();
    }
  }

  lemma FirstWellFormed(c: Cache, cs: seq<Cache>)
    ensures AllWellFormed([c] + cs) <==> WellFormed(c) && AllWellFormed(cs)
  {
    hide WellFormed;
    assert forall i: nat | i < |cs| :: ([c] + cs)[i + 1] == cs[i];
    if AllWellFormed([c] + cs) {
      assert ([c] + cs)[0] == c;
      forall i | 0 <= i < |cs| ensures WellFormed(cs[i]) { assert WellFormed(([c] + cs)[i + 1]); }
    }
  }

  ghost function States(us: seq<CacheUnit>): (r: seq<Cache>)
    reads us
    ensures |r| == |us|
  {
    if us == [] then [] else [us[0].State()] + States(us[1..])
  }

  // ---------------------------------------------------------------------------
  // Building a hierarchy
  // ---------------------------------------------------------------------------

  datatype Geometry = Geometry(size: nat, numWays: nat, latency: nat)

  /** What building a unit demands: the constructor divides by the number of ways. */
  predicate Buildable(g: Geometry) {
    g.size % LINE_SIZE == 0 && g.numWays >= 1
  }

  /** A unit without a set can be built, but every access to it divides by zero. */
  predicate HasSets(g: Geometry) {
    Buildable(g) && g.size / LINE_SIZE / g.numWays >= 1
  }

  function NewLevel(g: Geometry): (c: Cache)
    requires Buildable(g)
    ensures WellFormed(c) <==> HasSets(g)
  {
    Empty(g.size / LINE_SIZE / g.numWays, g.numWays, g.latency)
  }

  /** Which parts are simulated, and how large they are. */
  datatype CacheOptions = CacheOptions(
    l1i: bool, l1d: bool, l2: bool, l3: bool,
    l1iGeometry: Geometry, l1dGeometry: Geometry, l2Geometry: Geometry, l3Geometry: Geometry,
    memoryLatency: nat)
  {
    predicate Ok() {
      && (l1i ==> Buildable(l1iGeometry)) && (l1d ==> Buildable(l1dGeometry))
      && (l2 ==> Buildable(l2Geometry)) && (l3 ==> Buildable(l3Geometry))
    }

    predicate AllHaveSets() {
      && (l1i ==> HasSets(l1iGeometry)) && (l1d ==> HasSets(l1dGeometry))
      && (l2 ==> HasSets(l2Geometry)) && (l3 ==> HasSets(l3Geometry))
    }
  }

  /** What is to be built: both first-level caches, if enabled, in front of the enabled shared levels. */
  ghost function Built(o: CacheOptions): (h: Hierarchy)
    requires o.Ok()
    ensures o.AllHaveSets() ==> HierarchyOk(h)
  {
    Hierarchy(if o.l1i then Some(NewLevel(o.l1iGeometry)) else None,
              if o.l1d then Some(NewLevel(o.l1dGeometry)) else None,
              (if o.l2 then [NewLevel(o.l2Geometry)] else []) + (if o.l3 then [NewLevel(o.l3Geometry)] else []),
              o.memoryLatency)
  }

  /** Everything that can be built starts as a least-recently-used hierarchy of no accesses,
      so after any run every level holds exactly the most recently used lines it has seen. */
  lemma BuiltRunIsLRU(o: CacheOptions, xs: seq<Access>)
    requires o.Ok() && o.AllHaveSets()
    requires |xs| < STAMP_RANGE && forall x | x in xs :: x.a != 0 && Aligned(x.a)
    ensures LeastRecentlyUsed(RunAll(Built(o), xs), SeenInRun(Built(o), xs), |xs|)
  {
    hide *;
    BuiltIsLRU(o);
    RunKeepsLRU(Built(o), xs);
  }

  lemma BuiltIsLRU(o: CacheOptions)
    requires o.Ok() && o.AllHaveSets()
    ensures LeastRecentlyUsed(Built(o), Unseen(|Built(o).shared|), 0)
  {
    hide CacheInv, NewLevel, Buildable, HasSets, WellFormed;
    if o.l1i { NewLevelIsLRU(o.l1iGeometry); }
    if o.l1d { NewLevelIsLRU(o.l1dGeometry); }
    if o.l2 { NewLevelIsLRU(o.l2Geometry); }
    if o.l3 { NewLevelIsLRU(o.l3Geometry); }
  }

  lemma NewLevelIsLRU(g: Geometry)
    requires HasSets(g)
    ensures CacheInv(NewLevel(g), [])
  {
    EmptyInv(g.size / LINE_SIZE / g.numWays, g.numWays, g.latency);
  }

  /** What is built holds as many lines as fit: never more bytes than its size, and with one more
      set it would exceed it. */
  lemma LevelFits(g: Geometry)
    requires Buildable(g)
    ensures var c := NewLevel(g);
            && c.numWays == g.numWays && c.latency == g.latency
            && c.numSets * g.numWays * 64 <= g.size < (c.numSets + 1) * g.numWays * 64
  {
    var lines, n := g.size / 64, NewLevel(g).numSets;
    MulDivLe(lines, g.numWays);
    MulDivLe(g.size, 64);
    Distrib(n, 1, g.numWays);
  }

  /** A first load of a line costs every enabled level and the memory.  After a fetch of the line it
      costs, behind the data cache, only the first enabled level that both share: level 2, or else
      level 3, or else the memory. */
  lemma FirstLoadCosts(o: CacheOptions, a: nat)
    requires o.Ok() && o.AllHaveSets() && o.l1d && a != 0 && Aligned(a)
    ensures var l2, l3 := if o.l2 then o.l2Geometry.latency else 0, if o.l3 then o.l3Geometry.latency else 0;
            && Perform(Built(o), Load(a)).1 == o.l1dGeometry.latency + l2 + l3 + o.memoryLatency
            && (o.l1i ==> Perform(Built(o), Fetch(a)).1 == o.l1iGeometry.latency + l2 + l3 + o.memoryLatency)
            && (o.l1i ==> Perform(Perform(Built(o), Fetch(a)).0, Load(a)).1
                          == o.l1dGeometry.latency + if o.l2 then l2 else if o.l3 then l3 else o.memoryLatency)
  {
    hide NewLevel, WellFormed, Hit, Touch, LoadChain;
    var l1d, shared := NewLevel(o.l1dGeometry), Built(o).shared;
    if o.l2 { NewMisses(o.l2Geometry, a); }
    if o.l3 { NewMisses(o.l3Geometry, a); }
    NewMisses(o.l1dGeometry, a);
    SharedCost(o, a);
    LoadUnfold([l1d] + shared, o.memoryLatency, a);
    if o.l1i {
      var l1i := NewLevel(o.l1iGeometry);
      NewMisses(o.l1iGeometry, a);
      LoadUnfold([l1i] + shared, o.memoryLatency, a);
      var shared' := LoadChain(shared, o.memoryLatency, a).0;
      assert Perform(Built(o), Fetch(a)).0.shared == shared';
      LoadUnfold([l1d] + shared', o.memoryLatency, a);
    }
  }

  /** A new level holds no line. */
  lemma NewMisses(g: Geometry, a: nat)
    requires HasSets(g) && a != 0
    ensures WellFormed(NewLevel(g)) && NewLevel(g).latency == g.latency && !Hit(NewLevel(g), a)
  {
    hide SetOf;
    var c := NewLevel(g);
    assert WellFormed(c);
    var ways := c.table[SetOf(a, c.numSets)];
    assert forall i: nat | i < |ways| :: ways[i].addr == 0;
  }

  /** The shared levels cost all of them when they are new, and the first of them afterwards. */
  lemma SharedCost(o: CacheOptions, a: nat)
    requires o.Ok() && o.AllHaveSets() && a != 0 && Aligned(a)
    ensures AllWellFormed(Built(o).shared)
    ensures var l2, l3 := if o.l2 then o.l2Geometry.latency else 0, if o.l3 then o.l3Geometry.latency else 0;
            var (shared, cost) := LoadChain(Built(o).shared, o.memoryLatency, a);
            && cost == l2 + l3 + o.memoryLatency
            && LoadChain(shared, o.memoryLatency, a).1 == if o.l2 then l2 else if o.l3 then l3 else o.memoryLatency
  {
    hide NewLevel, WellFormed, Hit, Touch, LoadChain;
    var cs, mem := Built(o).shared, o.memoryLatency;
    LoadAtMemory(mem, a);
    if o.l2 { NewMisses(o.l2Geometry, a); }
    if o.l3 { NewMisses(o.l3Geometry, a); }
    if cs != [] {
      LoadUnfold(cs, mem, a);
      ReloadCost(cs, mem, a);
      if |cs| == 2 {
        LoadUnfold(cs[1..], mem, a);
        assert cs[1..][1..] == [];
      } else {
        assert cs[1..] == [];
      }
    }
  }

  /** The levels from a unit on; none without a unit. */
  ghost function LevelsFrom(u: CacheUnit?): seq<Cache>
    reads if u == null then {} else {u} + set b | b in u.below
  {
    if u == null then [] else u.Levels()
  }

  /** The shared levels that are enabled, the lowest first. */
  method BuildShared(o: CacheOptions) returns (top: CacheUnit?)
    requires o.Ok()
    ensures top != null ==> top.Linked() && fresh(top) && fresh(top.below) && top.memoryLatency == o.memoryLatency
    ensures LevelsFrom(top) == Built(o).shared
    ensures top != null && o.AllHaveSets() ==> top.Valid()
  {
    hide NewLevel, Empty, WellFormed, AllWellFormed;
    var mem := o.memoryLatency;
    top := null;
    if o.l3 {
      top := new CacheUnit(o.l3Geometry.size, o.l3Geometry.numWays, null, mem, o.l3Geometry.latency);
      NewLevelIs(o.l3Geometry);
    }
    if o.l2 {
      top := new CacheUnit(o.l2Geometry.size, o.l2Geometry.numWays, top, mem, o.l2Geometry.latency);
      NewLevelIs(o.l2Geometry);
    }
  }

  lemma NewLevelIs(g: Geometry)
    requires Buildable(g)
    ensures NewLevel(g) == Empty(g.size / LINE_SIZE / g.numWays, g.numWays, g.latency)
  {
  }

  method BuildCache(o: CacheOptions) returns (l1i: CacheUnit?, l1d: CacheUnit?)
    requires o.Ok()
    ensures (l1i != null <==> o.l1i) && (l1d != null <==> o.l1d)
    ensures l1i != null ==> l1i.Linked() && fresh(l1i) && l1i.memoryLatency == o.memoryLatency
                            && l1i.Levels() == [Built(o).l1i.value] + Built(o).shared
    ensures l1d != null ==> l1d.Linked() && fresh(l1d) && l1d.memoryLatency == o.memoryLatency
                            && l1d.Levels() == [Built(o).l1d.value] + Built(o).shared
    // they can be accessed if every enabled level has sets
    ensures o.AllHaveSets() ==> (l1i != null ==> l1i.Valid()) && (l1d != null ==> l1d.Valid())
    // the levels behind the first ones are the same objects
    ensures l1i != null && l1d != null ==> l1i != l1d && l1i.below == l1d.below && l1i !in l1d.below && l1d !in l1i.below
  {
    hide NewLevel, Empty, WellFormed, AllWellFormed;
    l1i, l1d := null, null;
    var top := BuildShared(o);
    if o.l1i {
      l1i := new CacheUnit(o.l1iGeometry.size, o.l1iGeometry.numWays, top, o.memoryLatency, o.l1iGeometry.latency);
      NewLevelIs(o.l1iGeometry);
    }
    if o.l1d {
      l1d := new CacheUnit(o.l1dGeometry.size, o.l1dGeometry.numWays, top, o.memoryLatency, o.l1dGeometry.latency);
      NewLevelIs(o.l1dGeometry);
    }
  }

  /** An instruction and a data cache built over the same lower levels. */
  ghost predicate Shares(l1i: CacheUnit, l1d: CacheUnit)
    reads l1i, l1i.below, l1d, l1d.below
  {
    && l1i.Valid() && l1d.Valid() && l1i.below == l1d.below && l1i.memoryLatency == l1d.memoryLatency
    && l1i != l1d && l1i !in l1d.below && l1d !in l1i.below
  }

  ghost function Shared(l1i: CacheUnit, l1d: CacheUnit): Hierarchy
    reads l1i, l1i.below, l1d
  {
    Hierarchy(Some(l1i.State()), Some(l1d.State()), States(l1i.below), l1i.memoryLatency)
  }

  /** An access through unit `first`; the other first-level unit keeps its own table. */
  method AccessThrough(first: CacheUnit, other: CacheUnit, a: nat, isStore: bool) returns (cost: nat)
    requires Shares(first, other)
    modifies first, first.below
    ensures Shares(first, other) && other.State() == old(other.State())
    ensures AllWellFormed(old(first.Levels()))
    ensures (first.Levels(), cost) == if isStore then StoreChain(old(first.Levels()), first.memoryLatency, a)
                                      else LoadChain(old(first.Levels()), first.memoryLatency, a)
    ensures first.Levels() == [first.State()] + States(first.below)
  {
    hide WellFormed, Touch, Hit, LoadChain, StoreChain, States;
    first.ValidParts();
    other.ValidParts();
    if isStore {
      cost := first.Store(a);
    } else {
      cost := first.Load(a);
    }
    first.ValidParts();
    other.ValidFromParts();
  }

  /** The fetch stage loads through the instruction cache, the load/store unit loads and
      stores through the data cache; what one does to the shared levels, the other sees. */
  method PerformOn(l1i: CacheUnit, l1d: CacheUnit, x: Access) returns (cost: nat)
    requires Shares(l1i, l1d)
    modifies l1i, l1d, l1i.below, l1d.below
    ensures Shares(l1i, l1d)
    ensures HierarchyOk(old(Shared(l1i, l1d))) && (Shared(l1i, l1d), cost) == Perform(old(Shared(l1i, l1d)), x)
  {
    hide WellFormed, AllWellFormed, LoadChain, StoreChain, States;
    l1i.ValidParts();
    l1d.ValidParts();
    match x {
      case Fetch(a) => cost := AccessThrough(l1i, l1d, a, false);
      case Load(a) => cost := AccessThrough(l1d, l1i, a, false);
      case Store(a) => cost := AccessThrough(l1d, l1i, a, true);
    }
  }
}
