/** The time-stamped table is a least-recently-used cache. */
module CacheLRU {
  import opened CacheSpec
  import opened Recency

  /** The addresses whose line number leaves remainder `s`: they compete for the ways of set `s`. */
  ghost function InSet(numSets: nat, s: nat): nat -> bool
    requires numSets >= 1
  {
    (a: nat) => (a / 64) % numSets == s
  }

  /** The lines with a congruent line number that have been used since `a` was. */
  ghost function Rivals(tr: seq<nat>, numSets: nat, a: nat): set<nat>
    requires numSets >= 1
  {
    Newer(tr, InSet(numSets, (a / 64) % numSets), a)
  }

  /** Nonzero line addresses, and few enough that no time stamp wraps around. */
  predicate GoodTrace(tr: seq<nat>) {
    |tr| < 0x1_0000_0000 && forall a | a in tr :: a != 0 && Aligned(a)
  }

  /** The first `free` ways hold exactly the lines `rs`, each once. */
  ghost predicate Holds(ways: seq<CacheEntry>, free: nat, rs: set<nat>) {
    && free == |rs| && free <= |ways|
    && (forall i: nat | i < free :: ways[i].addr in rs)
    && Distinct(ways, free)
    && AllThere(ways, free, rs)
  }

  ghost predicate Distinct(ways: seq<CacheEntry>, free: nat)
    requires free <= |ways|
  {
    forall i: nat, j: nat | i < j < free :: ways[i].addr != ways[j].addr
  }

  ghost predicate AllThere(ways: seq<CacheEntry>, free: nat, rs: set<nat>)
    requires free <= |ways|
  {
    forall k | k in rs :: exists i: nat :: i < free && ways[i].addr == k
  }

  /** Every way in use is stamped with the last use of its line; the others hold address 0. */
  ghost predicate Stamped(ways: seq<CacheEntry>, free: nat, tr: seq<nat>) {
    && free <= |ways|
    && (forall i: nat | i < free :: ways[i].lastAccess == LastUse(tr, ways[i].addr) + 1)
    && (forall i: nat | free <= i < |ways| :: ways[i].addr == 0)
  }

  /** The ways of one set hold exactly the resident lines. */
  ghost predicate SetInv(ways: seq<CacheEntry>, free: nat, tr: seq<nat>, among: nat -> bool) {
    Holds(ways, free, Residents(tr, among, |ways|)) && Stamped(ways, free, tr)
  }

  ghost predicate CacheInv(c: Cache, tr: seq<nat>) {
    && WellFormed(c) && c.clock == |tr|
    && forall s: nat {:trigger SetInv(c.table[s], c.nextFree[s], tr, InSet(c.numSets, s))} | s < c.numSets ::
         SetInv(c.table[s], c.nextFree[s], tr, InSet(c.numSets, s))
  }

  // ---------------------------------------------------------------------------
  // One set
  // ---------------------------------------------------------------------------

  lemma FoundIffResident(ways: seq<CacheEntry>, free: nat, tr: seq<nat>, among: nat -> bool, x: nat)
    requires SetInv(ways, free, tr, among) && x != 0
    ensures WayOf(ways, x) < |ways| <==> IsResident(tr, among, |ways|, x)
    ensures WayOf(ways, x) < |ways| ==> WayOf(ways, x) < free
  {
    if IsResident(tr, among, |ways|, x) {
      assert x in Residents(tr, among, |ways|);
      var i: nat :| i < free && ways[i].addr == x;
    }
  }

  lemma HoldsSame(ways: seq<CacheEntry>, free: nat, rs: set<nat>, w: nat, e: CacheEntry)
    requires Holds(ways, free, rs) && w < free && e.addr == ways[w].addr
    ensures Holds(ways[w := e], free, rs)
  {
    var ways' := ways[w := e];
    forall k | k in rs ensures exists i: nat :: i < free && ways'[i].addr == k {
      var i: nat :| i < free && ways[i].addr == k;
      assert ways'[i].addr == k;
    }
  }

  lemma HoldsOneMore(ways: seq<CacheEntry>, free: nat, rs: set<nat>, e: CacheEntry)
    requires Holds(ways, free, rs) && free < |ways| && e.addr !in rs
    ensures Holds(ways[free := e], free + 1, rs + {e.addr})
  {
    var ways' := ways[free := e];
    forall k | k in rs + {e.addr} ensures exists i: nat :: i < free + 1 && ways'[i].addr == k {
      if k == e.addr {
        assert ways'[free].addr == k;
      } else {
        var i: nat :| i < free && ways[i].addr == k;
        assert ways'[i].addr == k;
      }
    }
  }

  lemma SwapSize(rs: set<nat>, a: nat, b: nat)
    requires a in rs && b !in rs
    ensures |rs - {a} + {b}| == |rs|
  {
    assert |rs - {a}| == |rs| - 1;
  }

  lemma DistinctReplaced(ways: seq<CacheEntry>, free: nat, w: nat, e: CacheEntry)
    requires w < free <= |ways| && Distinct(ways, free) && forall i: nat | i < free :: ways[i].addr != e.addr
    ensures Distinct(ways[w := e], free)
    ensures forall i: nat | i < free && i != w :: ways[i].addr != ways[w].addr
  {
  }

  lemma AllThereReplaced(ways: seq<CacheEntry>, free: nat, rs: set<nat>, w: nat, e: CacheEntry)
    requires w < free <= |ways| && AllThere(ways, free, rs)
    ensures AllThere(ways[w := e], free, rs - {ways[w].addr} + {e.addr})
  {
    var ways' := ways[w := e];
    forall k | k in rs - {ways[w].addr} + {e.addr} ensures exists i: nat :: i < free && ways'[i].addr == k {
      if k == e.addr {
        assert ways'[w].addr == k;
      } else {
        var i: nat :| i < free && ways[i].addr == k;
        assert ways'[i].addr == k;
      }
    }
  }

  lemma HoldsReplaced(ways: seq<CacheEntry>, free: nat, rs: set<nat>, w: nat, e: CacheEntry)
    requires Holds(ways, free, rs) && w < free && e.addr !in rs
    ensures Holds(ways[w := e], free, rs - {ways[w].addr} + {e.addr})
  {
    hide Distinct, AllThere;
    SwapSize(rs, ways[w].addr, e.addr);
    DistinctReplaced(ways, free, w, e);
    AllThereReplaced(ways, free, rs, w, e);
  }

  /** An access writes its own stamp into one way and leaves the others right. */
  lemma StampedAppend(ways: seq<CacheEntry>, free: nat, tr: seq<nat>, x: nat, w: nat)
    requires Stamped(ways, free, tr) && w < |ways| && w <= free
    requires forall i: nat | i < free && i != w :: ways[i].addr != x
    ensures Stamped(ways[w := CacheEntry(x, |tr| + 1)], if w == free then free + 1 else free, tr + [x])
  {
    LastUseAppend(tr, x, x);
    forall i: nat | i < free && i != w ensures LastUse(tr + [x], ways[i].addr) == LastUse(tr, ways[i].addr) {
      LastUseAppend(tr, x, ways[i].addr);
    }
  }

  lemma SetOther(ways: seq<CacheEntry>, free: nat, tr: seq<nat>, among: nat -> bool, x: nat)
    requires SetInv(ways, free, tr, among) && !among(x)
    ensures SetInv(ways, free, tr + [x], among)
  {
    OtherKeepsResidents(tr, among, |ways|, x);
    forall i: nat | i < free ensures LastUse(tr + [x], ways[i].addr) == LastUse(tr, ways[i].addr) {
      assert ways[i].addr in Residents(tr, among, |ways|);
      LastUseAppend(tr, x, ways[i].addr);
    }
  }

  lemma SetHit(ways: seq<CacheEntry>, free: nat, tr: seq<nat>, among: nat -> bool, x: nat)
    requires SetInv(ways, free, tr, among) && x != 0 && WayOf(ways, x) < |ways|
    ensures SetInv(ways[WayOf(ways, x) := CacheEntry(x, |tr| + 1)], free, tr + [x], among)
  {
    var w := WayOf(ways, x);
    FoundIffResident(ways, free, tr, among, x);
    HitKeepsResidents(tr, among, |ways|, x);
    StampedAppend(ways, free, tr, x, w);
    HoldsSame(ways, free, Residents(tr, among, |ways|), w, CacheEntry(x, |tr| + 1));
  }

  lemma SetFill(ways: seq<CacheEntry>, free: nat, tr: seq<nat>, among: nat -> bool, x: nat)
    requires SetInv(ways, free, tr, among) && x != 0 && among(x) && WayOf(ways, x) == |ways| && free < |ways|
    ensures SetInv(ways[free := CacheEntry(x, |tr| + 1)], free + 1, tr + [x], among)
  {
    FoundIffResident(ways, free, tr, among, x);
    MissFills(tr, among, |ways|, x);
    StampedAppend(ways, free, tr, x, free);
    HoldsOneMore(ways, free, Residents(tr, among, |ways|), CacheEntry(x, |tr| + 1));
  }

  /** The smallest time stamp belongs to the least recently used line. */
  lemma LeastRecentIsOldest(ways: seq<CacheEntry>, tr: seq<nat>, among: nat -> bool)
    requires ways != [] && SetInv(ways, |ways|, tr, among)
    ensures IsOldest(tr, among, |ways|, ways[LeastRecentWay(ways)].addr)
  {
    var w := LeastRecentWay(ways);
    forall k | k in Residents(tr, among, |ways|) ensures LastUse(tr, ways[w].addr) <= LastUse(tr, k) {
      var i: nat :| i < |ways| && ways[i].addr == k;
    }
  }

  lemma SetEvict(ways: seq<CacheEntry>, tr: seq<nat>, among: nat -> bool, x: nat)
    requires ways != [] && SetInv(ways, |ways|, tr, among)
    requires x != 0 && among(x) && WayOf(ways, x) == |ways|
    ensures SetInv(ways[LeastRecentWay(ways) := CacheEntry(x, |tr| + 1)], |ways|, tr + [x], among)
  {
    var w, n := LeastRecentWay(ways), |ways|;
    FoundIffResident(ways, n, tr, among, x);
    LeastRecentIsOldest(ways, tr, among);
    MissEvicts(tr, among, n, x, ways[w].addr);
    StampedAppend(ways, n, tr, x, w);
    HoldsReplaced(ways, n, Residents(tr, among, n), w, CacheEntry(x, |tr| + 1));
  }

  // ---------------------------------------------------------------------------
  // The whole cache
  // ---------------------------------------------------------------------------

  lemma EmptyInv(numSets: nat, numWays: nat, latency: nat)
    requires numSets >= 1 && numWays >= 1
    ensures CacheInv(Empty(numSets, numWays, latency), [])
  {
    var c := Empty(numSets, numWays, latency);
    forall s: nat | s < c.numSets ensures SetInv(c.table[s], c.nextFree[s], [], InSet(c.numSets, s)) {
      assert Residents<nat>([], InSet(c.numSets, s), |c.table[s]|) == {};
    }
  }

  /** What an access does to its own set. */
  lemma TouchWaysKeepsInv(ways: seq<CacheEntry>, free: nat, tr: seq<nat>, among: nat -> bool, x: nat)
    requires ways != [] && SetInv(ways, free, tr, among) && among(x) && x != 0 && Aligned(x)
    ensures var (ways', free') := TouchWays(ways, free, x, |tr| + 1); SetInv(ways', free', tr + [x], among)
  {
    assert LineOf(x) == x;
    hide SetInv;
    if WayOf(ways, x) < |ways| {
      SetHit(ways, free, tr, among, x);
    } else if free < |ways| {
      SetFill(ways, free, tr, among, x);
    } else {
      SetEvict(ways, tr, among, x);
    }
  }

  /** An access changes its own set only. */
  lemma TouchedSet(c: Cache, x: nat, s: nat)
    requires WellFormed(c) && s < c.numSets
    ensures |c.table| == |c.nextFree| == |Touch(c, x).table| == |Touch(c, x).nextFree| == c.numSets
    ensures c.table[s] != [] && c.nextFree[s] <= |c.table[s]|
    ensures var c' := Touch(c, x);
            (c'.table[s], c'.nextFree[s]) == if s != SetOf(x, c.numSets) then (c.table[s], c.nextFree[s])
                                             else TouchWays(c.table[s], c.nextFree[s], x, (c.clock + 1) % STAMP_RANGE)
  {
  }

  lemma TouchKeepsSet(c: Cache, tr: seq<nat>, x: nat, s: nat)
    requires CacheInv(c, tr) && x != 0 && Aligned(x) && |tr| + 1 < STAMP_RANGE && s < c.numSets
    ensures SetInv(Touch(c, x).table[s], Touch(c, x).nextFree[s], tr + [x], InSet(c.numSets, s))
  {
    hide SetInv;
    hide TouchWays;
    hide Touch;
    hide SetOf;
    hide WellFormed;
    TouchedSet(c, x, s);
    assert SetInv(c.table[s], c.nextFree[s], tr, InSet(c.numSets, s));
    SetIndex(x, c.numSets);
    if s != SetOf(x, c.numSets) {
      SetOther(c.table[s], c.nextFree[s], tr, InSet(c.numSets, s), x);
    } else {
      TouchWaysKeepsInv(c.table[s], c.nextFree[s], tr, InSet(c.numSets, s), x);
    }
  }

  lemma TouchKeepsInv(c: Cache, tr: seq<nat>, x: nat)
    requires CacheInv(c, tr) && x != 0 && Aligned(x) && |tr| + 1 < STAMP_RANGE
    ensures CacheInv(Touch(c, x), tr + [x])
  {
    hide SetInv;
    var c' := Touch(c, x);
    forall s: nat | s < c'.numSets ensures SetInv(c'.table[s], c'.nextFree[s], tr + [x], InSet(c'.numSets, s)) {
      TouchKeepsSet(c, tr, x, s);
    }
  }

  lemma {:induction false} ReplayKeepsInv(numSets: nat, numWays: nat, latency: nat, tr: seq<nat>)
    requires numSets >= 1 && numWays >= 1 && GoodTrace(tr)
    ensures CacheInv(Replay(Empty(numSets, numWays, latency), tr), tr)
  {
    if tr == [] {
      EmptyInv(numSets, numWays, latency);
    } else {
      var k := |tr| - 1;
      assert tr[k] in tr && GoodTrace(tr[..k]);
      ReplayKeepsInv(numSets, numWays, latency, tr[..k]);
      TouchKeepsInv(Replay(Empty(numSets, numWays, latency), tr[..k]), tr[..k], tr[k]);
      assert tr[..k] + [tr[k]] == tr;
    }
  }

  /** After any trace of nonzero line addresses, an access hits iff its line has been used and
      fewer than `numWays` other lines with a congruent line number have been used since. */
  lemma HitIffRecentlyUsed(numSets: nat, numWays: nat, latency: nat, tr: seq<nat>, a: nat)
    requires numSets >= 1 && numWays >= 1 && GoodTrace(tr) && a != 0 && Aligned(a)
    ensures Hit(Replay(Empty(numSets, numWays, latency), tr), a) <==>
              a in tr && |Rivals(tr, numSets, a)| < numWays
  {
    hide Rivals, Hit, WellFormed;
    var c := Replay(Empty(numSets, numWays, latency), tr);
    ReplayKeepsInv(numSets, numWays, latency, tr);
    HitIffHeld(c, tr, a);
    assert c.numSets == numSets && c.numWays == numWays;
  }

  lemma HitIffHeld(c: Cache, tr: seq<nat>, a: nat)
    requires CacheInv(c, tr) && a != 0
    ensures Hit(c, a) <==> a in tr && |Rivals(tr, c.numSets, a)| < c.numWays
  {
    hide SetOf, IsResident, Rivals;
    var s := SetOf(a, c.numSets);
    SetIndex(a, c.numSets);
    assert SetInv(c.table[s], c.nextFree[s], tr, InSet(c.numSets, s));
    FoundIffResident(c.table[s], c.nextFree[s], tr, InSet(c.numSets, s), a);
    ResidentIff(tr, c.numSets, s, c.numWays, a);
  }

  /** Stack inclusion: of two caches with equally many sets, fed with the same trace, the one
      with more ways holds everything the other holds. */
  lemma MoreWaysIncludeFewer(numSets: nat, n: nat, m: nat, lat: nat, lat': nat, tr: seq<nat>, a: nat)
    requires numSets >= 1 && 1 <= n <= m && GoodTrace(tr) && a != 0 && Aligned(a)
    requires Hit(Replay(Empty(numSets, n, lat), tr), a)
    ensures Hit(Replay(Empty(numSets, m, lat'), tr), a)
  {
    hide Rivals, Hit;
    HitIffRecentlyUsed(numSets, n, lat, tr, a);
    HitIffRecentlyUsed(numSets, m, lat', tr, a);
  }

  /** Misses among the accesses of `tr` that are loads. */
  ghost function LoadMisses(c: Cache, tr: seq<nat>, isLoad: seq<bool>): nat
    requires WellFormed(c) && |isLoad| == |tr|
  {
    if tr == [] then 0 else
      var k := |tr| - 1;
      LoadMisses(c, tr[..k], isLoad[..k]) + if isLoad[k] && !Hit(Replay(c, tr[..k]), tr[k]) then 1 else 0
  }

  /** Load misses never increase with associativity. */
  lemma {:induction false} MoreWaysMissLess(numSets: nat, n: nat, m: nat, lat: nat, lat': nat, tr: seq<nat>, isLoad: seq<bool>)
    requires numSets >= 1 && 1 <= n <= m && GoodTrace(tr) && |isLoad| == |tr|
    ensures LoadMisses(Empty(numSets, m, lat'), tr, isLoad) <= LoadMisses(Empty(numSets, n, lat), tr, isLoad)
  {
    if tr == [] {
    } else {
      var k := |tr| - 1;
      MoreWaysMissLess(numSets, n, m, lat, lat', tr[..k], isLoad[..k]);
      if Hit(Replay(Empty(numSets, n, lat), tr[..k]), tr[k]) {
        MoreWaysIncludeFewer(numSets, n, m, lat, lat', tr[..k], tr[k]);
      }
    }
  }

  /** The ways in use of a set hold exactly the lines of that set that have been used and have fewer
      than `numWays` others of it used since, each once. */
  lemma HeldOnce(numSets: nat, numWays: nat, latency: nat, tr: seq<nat>, s: nat, a: nat)
    requires numSets >= 1 && numWays >= 1 && GoodTrace(tr) && s < numSets
    ensures var c := Replay(Empty(numSets, numWays, latency), tr);
            && (forall i: nat, j: nat | i < j < c.nextFree[s] :: c.table[s][i].addr != c.table[s][j].addr)
            && ((exists i: nat :: i < c.nextFree[s] && c.table[s][i].addr == a)
                <==> a in tr && (a / 64) % numSets == s && |Rivals(tr, numSets, a)| < numWays)
            && c.nextFree[s] == |Residents(tr, InSet(numSets, s), numWays)|
  {
    hide Residents, Rivals, IsResident;
    ReplayKeepsInv(numSets, numWays, latency, tr);
    var c := Replay(Empty(numSets, numWays, latency), tr);
    assert SetInv(c.table[s], c.nextFree[s], tr, InSet(c.numSets, s));
    HeldIffResident(c.table[s], c.nextFree[s], tr, InSet(numSets, s), a);
    ResidentIff(tr, numSets, s, numWays, a);
  }

  lemma ResidentIff(tr: seq<nat>, numSets: nat, s: nat, n: nat, a: nat)
    requires numSets >= 1
    ensures IsResident(tr, InSet(numSets, s), n, a) <==> a in tr && (a / 64) % numSets == s && |Rivals(tr, numSets, a)| < n
  {
    hide Newer;
  }

  lemma HeldIffResident(ways: seq<CacheEntry>, free: nat, tr: seq<nat>, among: nat -> bool, a: nat)
    requires SetInv(ways, free, tr, among)
    ensures (exists i: nat :: i < free && ways[i].addr == a) <==> IsResident(tr, among, |ways|, a)
  {
    assert a in Residents(tr, among, |ways|) <==> IsResident(tr, among, |ways|, a);
  }

  // ---------------------------------------------------------------------------
  // When the stamps wrap around
  // ---------------------------------------------------------------------------

  /** Time stamps have 32 bits.  The access after 2^32 - 1 others is stamped 0, so the line it uses,
      the most recently used one, is the next of its set to be evicted. */
  lemma StampsWrap(numSets: nat, numWays: nat, latency: nat, tr: seq<nat>, x: nat, y: nat)
    requires numSets >= 1 && numWays >= 1 && GoodTrace(tr) && |tr| == 0xFFFF_FFFF
    requires x != 0 && Aligned(x) && y != 0 && Aligned(y) && (y / 64) % numSets == (x / 64) % numSets
    requires var c := Replay(Empty(numSets, numWays, latency), tr);
             Hit(c, x) && !Hit(c, y) && c.nextFree[SetOf(x, numSets)] == numWays
    ensures !Hit(Replay(Empty(numSets, numWays, latency), tr + [x, y]), x)
  {
    hide Replay, SetOf, Touch, CacheInv, Hit, WellFormed;
    var e := Empty(numSets, numWays, latency);
    ReplayKeepsInv(numSets, numWays, latency, tr);
    ReplayMore(e, tr, x);
    ReplayMore(e, tr + [x], y);
    assert tr + [x] + [y] == tr + [x, y];
    SetIndex(x, numSets);
    SetIndex(y, numSets);
    WrapStep(Replay(e, tr), tr, x, y);
  }

  lemma WrapStep(c: Cache, tr: seq<nat>, x: nat, y: nat)
    requires CacheInv(c, tr) && |tr| == 0xFFFF_FFFF && Aligned(x) && Aligned(y)
    requires SetOf(x, c.numSets) == SetOf(y, c.numSets)
    requires Hit(c, x) && !Hit(c, y) && c.nextFree[SetOf(x, c.numSets)] == c.numWays
    ensures !Hit(Touch(Touch(c, x), y), x)
  {
    hide WayOf, LeastRecentWay, SetOf, TouchWays, SetInv, Touch, InSet;
    var s := SetOf(x, c.numSets);
    assert SetInv(c.table[s], c.nextFree[s], tr, InSet(c.numSets, s));
    TouchedSet(c, x, s);
    TouchedSet(Touch(c, x), y, s);
    ClockAfter(c, x);
    EvictsZero(c.table[s], tr, InSet(c.numSets, s), x, y);
  }

  lemma ClockAfter(c: Cache, x: nat)
    requires WellFormed(c)
    ensures Touch(c, x).clock == c.clock + 1
  {
    hide TouchWays;
  }

  lemma ReplayMore(c: Cache, tr: seq<nat>, x: nat)
    requires WellFormed(c)
    ensures Replay(c, tr + [x]) == Touch(Replay(c, tr), x)
  {
    hide Touch, WellFormed;
    assert (tr + [x])[..|tr|] == tr;
  }

  lemma StampsPositive(ways: seq<CacheEntry>, tr: seq<nat>, among: nat -> bool)
    requires SetInv(ways, |ways|, tr, among)
    ensures Distinct(ways, |ways|) && forall i: nat | i < |ways| :: ways[i].lastAccess > 0
  {
    forall i: nat | i < |ways| ensures ways[i].lastAccess > 0 { assert ways[i].addr in Residents(tr, among, |ways|); }
  }

  /** A full set in which the line of `x` is stamped 0: it makes room for `y`. */
  lemma EvictsZero(ways: seq<CacheEntry>, tr: seq<nat>, among: nat -> bool, x: nat, y: nat)
    requires ways != [] && SetInv(ways, |ways|, tr, among) && Aligned(x) && Aligned(y)
    requires WayOf(ways, x) < |ways| == WayOf(ways, y)
    ensures var (ways1, free1) := TouchWays(ways, |ways|, x, 0);
            free1 == |ways| && WayOf(TouchWays(ways1, |ways|, y, 1).0, x) == |ways|
  {
    hide SetInv, WayOf, LeastRecentWay;
    StampsPositive(ways, tr, among);
    var w, ways1 := WayOf(ways, x), TouchWays(ways, |ways|, x, 0).0;
    assert ways1 == ways[w := CacheEntry(x, 0)];
    assert forall i: nat | i < |ways| :: ways1[i].addr == ways[i].addr;
    assert WayOf(ways1, y) == |ways|;
    var v := LeastRecentWay(ways1);
    assert ways1[v].lastAccess <= ways1[w].lastAccess;
    assert v == w;
    var ways2 := TouchWays(ways1, |ways|, y, 1).0;
    assert ways2 == ways1[w := CacheEntry(LineOf(y), 1)];
  }

  // ---------------------------------------------------------------------------
  // Any address
  // ---------------------------------------------------------------------------

  lemma HitsAreAligned(c: Cache, a: nat)
    requires WellFormed(c)
    ensures Hit(c, a) ==> Aligned(a)
  {
    var ways := c.table[SetOf(a, c.numSets)];
    var w := WayOf(ways, a);
    if w < |ways| { assert Aligned(ways[w].addr); }
  }

  /** An access leaves its line resident; so accessing the same address again hits iff the
      address is itself the start of a line, because lookup compares the raw address. */
  lemma ReloadHitsIffAligned(c: Cache, a: nat)
    requires WellFormed(c)
    ensures Hit(Touch(c, a), LineOf(a))
    ensures Hit(Touch(c, a), a) <==> Aligned(a)
  {
    var c', s := Touch(c, a), SetOf(a, c.numSets);
    var ways, ways' := c.table[s], c'.table[s];
    assert SetOf(LineOf(a), c.numSets) == s;
    var w: nat := if WayOf(ways, a) < |ways| then WayOf(ways, a)
                  else if c.nextFree[s] < |ways| then c.nextFree[s] else LeastRecentWay(ways);
    if WayOf(ways, a) < |ways| { assert Aligned(ways[w].addr); }
    assert ways'[w].addr == LineOf(a);
    assert w < |ways'|;
    HitsAreAligned(c', a);
  }
}
