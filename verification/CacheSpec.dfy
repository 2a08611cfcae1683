/** One level of the cache as a value: a set-associative table of time-stamped line
addresses, a fill pointer per set, and the access that changes it. */
module CacheSpec {
  import opened Nonlinear

  const LINE_SIZE: nat := 64
  const STAMP_RANGE: nat := 0x1_0000_0000  // time stamps are stored in 32 bits

  datatype CacheEntry = CacheEntry(addr: nat, lastAccess: nat)

  datatype Cache = Cache(
    numSets: nat, numWays: nat, latency: nat,
    table: seq<seq<CacheEntry>>, nextFree: seq<nat>, clock: nat)

  /** The line-aligned address. */
  function LineOf(a: nat): (r: nat)
    ensures r % LINE_SIZE == 0 && r <= a < r + LINE_SIZE
  {
    a - a % LINE_SIZE
  }

  predicate Aligned(a: nat) { a % LINE_SIZE == 0 }

  function SetOf(a: nat, numSets: nat): (s: nat)
    requires numSets >= 1
    ensures s < numSets
  {
    (LineOf(a) / LINE_SIZE) % numSets
  }

  /** The set of an address is its line number modulo the number of sets. */
  lemma SetIndex(a: nat, numSets: nat)
    requires numSets >= 1
    ensures SetOf(a, numSets) == (a / 64) % numSets
  {
    assert LineOf(a) / LINE_SIZE == a / LINE_SIZE;
  }

  /** So two addresses compete exactly if their line numbers are congruent. */
  lemma ShareSetIff(a: nat, b: nat, numSets: nat)
    requires numSets >= 1
    ensures SetOf(a, numSets) == SetOf(b, numSets) <==> (a / 64 - b / 64) % numSets == 0
  {
    hide SetOf;
    SetIndex(a, numSets);
    SetIndex(b, numSets);
    CongruentIff(a / 64, b / 64, numSets);
  }

  lemma CongruentIff(x: nat, y: nat, n: nat)
    requires n >= 1
    ensures x % n == y % n <==> (x - y) % n == 0
  {
    var d := (x - y) / n;
    assert y == n * (y / n) + y % n && x - y == n * d + (x - y) % n;
    if (x - y) % n == 0 {
      Distrib(y / n, d, n);
      DivModUnique(x, n, y / n + d, y % n);
    } else if x % n == y % n {
      assert x == n * (x / n) + x % n;
      Distrib(x / n, -(y / n), n);
      DivModUnique(x - y, n, x / n - y / n, 0);
    }
  }

  /** A cache that has been built: the shape of its table, and only line addresses in it. */
  predicate WellFormed(c: Cache) {
    && c.numSets >= 1 && c.numWays >= 1
    && |c.table| == c.numSets && |c.nextFree| == c.numSets
    && (forall s | 0 <= s < c.numSets :: |c.table[s]| == c.numWays && c.nextFree[s] <= c.numWays)
    && (forall s, w | 0 <= s < c.numSets && 0 <= w < c.numWays :: Aligned(c.table[s][w].addr))
  }

  /** A new cache: every entry holds address 0.  A cache without a set cannot be accessed. */
  function Empty(numSets: nat, numWays: nat, latency: nat): (c: Cache)
    ensures WellFormed(c) <==> numSets >= 1 && numWays >= 1
  {
    Cache(numSets, numWays, latency,
          seq(numSets, (s: nat) => seq(numWays, (w: nat) => CacheEntry(0, 0))), seq(numSets, (s: nat) => 0), 0)
  }

  /** First way that holds `a`, or the number of ways. */
  function WayOf(ways: seq<CacheEntry>, a: nat): (w: nat)
    ensures w <= |ways|
    ensures w < |ways| ==> ways[w].addr == a
    ensures forall i: nat | i < w :: ways[i].addr != a
  {
    if ways == [] then 0 else if ways[0].addr == a then 0 else 1 + WayOf(ways[1..], a)
  }

  /** The way with the smallest time stamp, the last one if there are several. */
  function LeastRecentWay(ways: seq<CacheEntry>): (w: nat)
    requires ways != []
    ensures w < |ways|
    ensures forall i: nat | i < |ways| :: ways[w].lastAccess <= ways[i].lastAccess
    ensures forall i: nat | w < i < |ways| :: ways[w].lastAccess < ways[i].lastAccess
  {
    var n := |ways| - 1;
    if n == 0 then 0 else
      var m := LeastRecentWay(ways[..n]);
      if ways[n].lastAccess <= ways[m].lastAccess then n else m
  }

  predicate Hit(c: Cache, a: nat)
    requires WellFormed(c)
  {
    WayOf(c.table[SetOf(a, c.numSets)], a) < c.numWays
  }

  /** An access to `a` within its set, at time `stamp`: the line is found, or goes to a free
      way, or replaces the least recently used one. */
  function TouchWays(ways: seq<CacheEntry>, free: nat, a: nat, stamp: nat): (r: (seq<CacheEntry>, nat))
    requires ways != [] && free <= |ways|
    ensures |r.0| == |ways| && r.1 <= |ways|
  {
    var w := WayOf(ways, a);
    if w < |ways| then (ways[w := CacheEntry(ways[w].addr, stamp)], free)
    else if free < |ways| then (ways[free := CacheEntry(LineOf(a), stamp)], free + 1)
    else (ways[LeastRecentWay(ways) := CacheEntry(LineOf(a), stamp)], free)
  }

  /** One load or store of address `a`, as far as this level is concerned. */
  function Touch(c: Cache, a: nat): (c': Cache)
    requires WellFormed(c)
    ensures WellFormed(c') && c'.numSets == c.numSets && c'.numWays == c.numWays && c'.latency == c.latency
  {
    var s := SetOf(a, c.numSets);
    var (ways, free) := TouchWays(c.table[s], c.nextFree[s], a, (c.clock + 1) % STAMP_RANGE);
    c.(clock := c.clock + 1, table := c.table[s := ways], nextFree := c.nextFree[s := free])
  }

  function Replay(c: Cache, tr: seq<nat>): (c': Cache)
    requires WellFormed(c)
    ensures WellFormed(c') && c'.numSets == c.numSets && c'.numWays == c.numWays && c'.latency == c.latency
  {
    if tr == [] then c else Touch(Replay(c, tr[..|tr| - 1]), tr[|tr| - 1])
  }
}
