/** The naive branch predictor: a table of last directions with least-recently-used
replacement, checked against the history of branches alone. */
module BranchPredictor {
  import opened Recency

  datatype Direction = TAKEN | NOT_TAKEN

  datatype Branch = Branch(addr: nat, size: nat)

  /** The order of the table's keys, and the equality that a lookup derives from it. */
  predicate Less(a: Branch, b: Branch) { a.addr + a.size < b.addr }

  predicate SameKey(a: Branch, b: Branch) { !Less(a, b) && !Less(b, a) }

  /** No two branches touch each other, so that lookups do not confuse them. */
  ghost predicate Separated(bs: set<Branch>) {
    forall a, b | a in bs && b in bs && SameKey(a, b) :: a == b
  }

  /** Address `x` is in the branch, or right behind it. */
  predicate Reaches(a: Branch, x: nat) { a.addr <= x <= a.addr + a.size }

  /** A lookup confuses two branches exactly if they touch: some address is in, or right behind, both. */
  lemma ConfusedIffTouching(a: Branch, b: Branch)
    ensures SameKey(a, b) <==> exists x: nat :: Reaches(a, x) && Reaches(b, x)
  {
    if SameKey(a, b) {
      var x := if a.addr < b.addr then b.addr else a.addr;
      assert Reaches(a, x) && Reaches(b, x);
    }
  }

  /** That is no equivalence: of three branches in a row, the middle one is confused with both others. */
  lemma TouchingIsNotTransitive(a: Branch, b: Branch, c: Branch)
    requires a.addr + a.size == b.addr && b.addr + b.size == c.addr && b.size > 0
    ensures SameKey(a, b) && SameKey(b, c) && !SameKey(a, c)
  {
    ConfusedIffTouching(a, b);
    ConfusedIffTouching(b, c);
  }

  datatype HistoryEntry = HistoryEntry(lastDirection: Direction, lastUse: nat)

  type History = map<Branch, HistoryEntry>

  // ---------------------------------------------------------------------------
  // The two operations
  // ---------------------------------------------------------------------------

  function Predicted(m: History, a: Branch): Direction {
    if a in m then m[a].lastDirection else NOT_TAKEN
  }

  /** The table after a prediction at time `now`. */
  function AfterPredict(m: History, a: Branch, now: nat): History {
    if a in m then m[a := m[a].(lastUse := now)] else m
  }

  ghost predicate LeastUsed(m: History, k: Branch) {
    k in m && forall x | x in m :: m[k].lastUse <= m[x].lastUse
  }

  /** `m'` may be the table after recording a direction at time `now`. */
  ghost predicate Recorded(m: History, m': History, capacity: nat, a: Branch, d: Direction, now: nat) {
    var m1 := m[a := HistoryEntry(d, now)];
    if |m1| < capacity then m' == m1 else exists k :: LeastUsed(m1, k) && m' == m1 - {k}
  }

  class NaiveBranchPredictorUnit {
    const mispredictionPenalty: nat
    const historyCapacity: nat
    var nAccesses: nat
    var branchHistory: History

    /** The access counter starts with whatever value it happens to have. */
    constructor (mispredictionPenalty: nat, branchHistoryTableSize: nat, initialAccesses: nat)
      ensures this.mispredictionPenalty == mispredictionPenalty && historyCapacity == branchHistoryTableSize
      ensures nAccesses == initialAccesses && branchHistory == map[]
    {
      this.mispredictionPenalty, this.historyCapacity := mispredictionPenalty, branchHistoryTableSize;
      nAccesses, branchHistory := initialAccesses, map[];
    }

    method Find(a: Branch) returns (found: bool)
      requires Separated(branchHistory.Keys + {a})
      ensures found <==> a in branchHistory
    {
      found := exists k | k in branchHistory.Keys :: SameKey(k, a);
      assert SameKey(a, a);
    }

    method RecordTakenBranch(a: Branch, d: Direction)
      requires Separated(branchHistory.Keys + {a})
      modifies `branchHistory
      ensures Recorded(old(branchHistory), branchHistory, historyCapacity, a, d, nAccesses)
    {
      branchHistory := branchHistory[a := HistoryEntry(d, nAccesses)];
      if |branchHistory| >= historyCapacity {
        var rest := branchHistory.Keys;
        var min := a;
        while rest != {}
          invariant rest <= branchHistory.Keys && min in branchHistory
          invariant forall k | k in branchHistory.Keys - rest :: branchHistory[min].lastUse <= branchHistory[k].lastUse
          decreases rest
        {
          var it :| it in rest;
          if branchHistory[it].lastUse < branchHistory[min].lastUse { min := it; }
          rest := rest - {it};
        }
        assert LeastUsed(branchHistory, min);
        branchHistory := branchHistory - {min};
      }
    }

    method PredictBranch(a: Branch) returns (d: Direction)
      requires Separated(branchHistory.Keys + {a})
      modifies `nAccesses, `branchHistory
      ensures nAccesses == old(nAccesses) + 1
      ensures d == Predicted(old(branchHistory), a)
      ensures branchHistory == AfterPredict(old(branchHistory), a, nAccesses)
    {
      nAccesses := nAccesses + 1;
      var found := Find(a);
      if found {
        branchHistory := branchHistory[a := branchHistory[a].(lastUse := nAccesses)];
        return branchHistory[a].lastDirection;
      }
      return NOT_TAKEN;
    }
  }

  // ---------------------------------------------------------------------------
  // The reference: the history of uses
  // ---------------------------------------------------------------------------

  /** What the fetch stage does with a branch: it predicts, and with the next instruction it
      records the direction taken, unless that instruction's address is unknown. */
  datatype Event = Resolved(b: Branch, d: Direction) | Unresolved(b: Branch)

  ghost function Everyone(): Branch -> bool { (b: Branch) => true }

  /** The reference table: the last uses of branches, one fewer than the table has places. */
  ghost function Places(capacity: nat): nat { if capacity == 0 then 0 else capacity - 1 }

  datatype Use = Use(b: Branch, d: Direction)

  ghost function Branches(us: seq<Use>): (bs: seq<Branch>)
    ensures |bs| == |us|
    ensures forall i | 0 <= i < |us| :: bs[i] == us[i].b
  {
    seq(|us|, i requires 0 <= i < |us| => us[i].b)
  }

  ghost predicate Known(us: seq<Use>, capacity: nat, b: Branch) {
    IsResident(Branches(us), Everyone(), Places(capacity), b)
  }

  ghost function LastDirection(us: seq<Use>, b: Branch): Direction
    requires b in Branches(us)
  {
    us[LastUse(Branches(us), b)].d
  }

  /** One event, seen by the reference. */
  ghost function Used(capacity: nat, us: seq<Use>, e: Event): seq<Use> {
    match e
    case Resolved(b, d) => us + [Use(b, d)]
    case Unresolved(b) => if Known(us, capacity, b) then us + [Use(b, LastDirection(us, b))] else us
  }

  /** The uses that count: every resolved branch, and an unresolved one if it was known. */
  ghost function Uses(capacity: nat, ev: seq<Event>): seq<Use> {
    if ev == [] then [] else
      Used(capacity, Uses(capacity, ev[..|ev| - 1]), ev[|ev| - 1])
  }

  // ---------------------------------------------------------------------------
  // The table agrees with the reference
  // ---------------------------------------------------------------------------

  /** The table holds the known branches with their last directions, and its time stamps
      are ordered like their last uses. */
  ghost predicate Agrees(m: History, now: nat, us: seq<Use>, capacity: nat) {
    var bs := Branches(us);
    && m.Keys == Residents(bs, Everyone(), Places(capacity))
    && (forall b | b in m :: m[b].lastDirection == LastDirection(us, b) && m[b].lastUse <= now)
    && (forall a, b | a in m && b in m && LastUse(bs, a) < LastUse(bs, b) :: m[a].lastUse < m[b].lastUse)
  }

  lemma BranchesAppend(us: seq<Use>, u: Use)
    ensures Branches(us + [u]) == Branches(us) + [u.b]
  {
  }

  lemma LastDirectionAppend(us: seq<Use>, u: Use, b: Branch)
    requires b == u.b || b in Branches(us)
    ensures b in Branches(us + [u])
    ensures LastDirection(us + [u], b) == if b == u.b then u.d else LastDirection(us, b)
  {
    BranchesAppend(us, u);
    LastUseAppend(Branches(us), u.b, b);
  }

  /** Stamping one branch as the newest keeps the agreement. */
  lemma StampKeepsOrder(m: History, m': History, now: nat, us: seq<Use>, u: Use, capacity: nat)
    requires Agrees(m, now, us, capacity)
    requires m'.Keys == Residents(Branches(us + [u]), Everyone(), Places(capacity))
    requires forall b | b in m' && b != u.b :: b in m && m'[b] == m[b]
    requires u.b in m' ==> m'[u.b] == HistoryEntry(u.d, now + 1)
    ensures Agrees(m', now + 1, us + [u], capacity)
  {
    hide LastUse, LastDirection, Residents;
    var bs' := Branches(us + [u]);
    ResidentsAreUsed(Branches(us), Places(capacity));
    ResidentsAreUsed(bs', Places(capacity));
    BranchesAppend(us, u);
    forall b | b in m' ensures m'[b].lastDirection == LastDirection(us + [u], b) && m'[b].lastUse <= now + 1 {
      LastDirectionAppend(us, u, b);
    }
    forall a, b | a in m' && b in m' && LastUse(bs', a) < LastUse(bs', b) ensures m'[a].lastUse < m'[b].lastUse {
      LastUsesAppend(us, u, a, b);
    }
  }

  lemma ResidentsAreUsed(bs: seq<Branch>, n: nat)
    ensures forall b | b in Residents(bs, Everyone(), n) :: b in bs
  {
  }

  lemma LastUsesAppend(us: seq<Use>, u: Use, a: Branch, b: Branch)
    requires LastUse(Branches(us + [u]), a) < LastUse(Branches(us + [u]), b)
    requires (a == u.b || a in Branches(us)) && (b == u.b || b in Branches(us))
    ensures a != u.b
    ensures b != u.b ==> LastUse(Branches(us), a) < LastUse(Branches(us), b)
  {
    BranchesAppend(us, u);
    LastUseAppend(Branches(us), u.b, a);
    LastUseAppend(Branches(us), u.b, b);
  }

  /** The branch with the smallest stamp is the least recently used one. */
  lemma LeastUsedIsOldest(m: History, now: nat, us: seq<Use>, capacity: nat, k: Branch)
    requires Agrees(m, now, us, capacity) && LeastUsed(m, k)
    ensures IsOldest(Branches(us), Everyone(), Places(capacity), k)
  {
  }

  lemma ResidentsBounded(bs: seq<Branch>, n: nat)
    ensures |Residents(bs, Everyone(), n)| <= n
  {
    var rs := Residents(bs, Everyone(), n);
    if rs != {} {
      var o := OldestExists(bs, n, rs);
      OldestRank(bs, Everyone(), n, o);
    }
  }

  lemma OldestExists(bs: seq<Branch>, n: nat, rs: set<Branch>) returns (o: Branch)
    requires rs != {}
    ensures o in rs && forall k | k in rs :: LastUse(bs, o) <= LastUse(bs, k)
    decreases |rs|
  {
    o :| o in rs;
    if rs != {o} {
      assert rs - {o} != {};
      var p := OldestExists(bs, n, rs - {o});
      if LastUse(bs, p) < LastUse(bs, o) { o := p; }
    }
  }

  lemma AgreesKeys(m: History, now: nat, us: seq<Use>, capacity: nat)
    requires Agrees(m, now, us, capacity)
    ensures m.Keys == Residents(Branches(us), Everyone(), Places(capacity))
  {
  }

  lemma PredictStamps(m: History, a: Branch, now: nat)
    requires a in m
    ensures var m' := AfterPredict(m, a, now);
            && m'.Keys == m.Keys && m'[a] == HistoryEntry(m[a].lastDirection, now)
            && forall b | b in m && b != a :: m'[b] == m[b]
  {
  }

  lemma PredictKnown(m: History, now: nat, us: seq<Use>, capacity: nat, a: Branch)
    requires Agrees(m, now, us, capacity) && a in m
    ensures Agrees(AfterPredict(m, a, now + 1), now + 1, us + [Use(a, m[a].lastDirection)], capacity)
  {
    hide Agrees, Residents, IsResident, AfterPredict, LastUse;
    var u := Use(a, m[a].lastDirection);
    AgreesKeys(m, now, us, capacity);
    PredictStamps(m, a, now + 1);
    ResidentMeans(Branches(us), Places(capacity), a);
    BranchesAppend(us, u);
    HitKeepsResidents(Branches(us), Everyone(), Places(capacity), a);
    StampKeepsOrder(m, AfterPredict(m, a, now + 1), now, us, u, capacity);
  }

  /** How recording changes the keys, `n` being the number of places. */
  lemma RecordedCases(m: History, m': History, capacity: nat, a: Branch, d: Direction, now: nat)
    requires Recorded(m, m', capacity, a, d, now)
    ensures a in m && |m.Keys| <= Places(capacity) ==> m'.Keys == m.Keys
    ensures a !in m && |m.Keys| < Places(capacity) ==> m'.Keys == m.Keys + {a}
    ensures a !in m && |m.Keys| == Places(capacity) ==>
              exists k :: LeastUsed(m[a := HistoryEntry(d, now)], k) && m'.Keys == m.Keys + {a} - {k}
  {
    hide LeastUsed;
    var m1 := m[a := HistoryEntry(d, now)];
    KeysWith(m, a, HistoryEntry(d, now));
    if m' != m1 {
      var k :| LeastUsed(m1, k) && m' == m1 - {k};
      KeysWithout(m1, k);
    }
  }

  lemma KeysWith<K, V>(m: map<K, V>, a: K, v: V)
    ensures m[a := v].Keys == m.Keys + {a} && |m[a := v]| == if a in m then |m.Keys| else |m.Keys| + 1
    ensures a in m ==> m.Keys + {a} == m.Keys
  {
    assert |m[a := v]| == |m[a := v].Keys| && m[a := v].Keys == m.Keys + {a};
    if a in m { assert m.Keys + {a} == m.Keys; }
  }

  lemma KeysWithout<K, V>(m: map<K, V>, k: K)
    ensures (m - {k}).Keys == m.Keys - {k}
  {
  }

  /** The branch that leaves is the least recently used one. */
  lemma EvictedIsOldest(m: History, now: nat, us: seq<Use>, capacity: nat, a: Branch, d: Direction, k: Branch)
    requires Agrees(m, now, us, capacity) && a !in m && m != map[]
    requires LeastUsed(m[a := HistoryEntry(d, now + 1)], k)
    ensures IsOldest(Branches(us), Everyone(), Places(capacity), k) && k != a
  {
    EvictedIsOld(m, now, a, d, k);
    LeastUsedIsOldest(m, now, us, capacity, k);
  }

  /** Recording a branch leaves exactly the branches that are known after one more use. */
  lemma RecordedKeys(m: History, m': History, now: nat, us: seq<Use>, capacity: nat, a: Branch, d: Direction)
    requires Agrees(m, now, us, capacity)
    requires Recorded(m, m', capacity, a, d, now + 1)
    ensures m'.Keys == Residents(Branches(us) + [a], Everyone(), Places(capacity))
  {
    var bs, n, rs := Branches(us), Places(capacity), m.Keys;
    assert rs == Residents(bs, Everyone(), n);
    hide Agrees;
    hide LeastUsed;
    hide Residents;
    hide IsResident;
    hide IsOldest;
    RecordedCases(m, m', capacity, a, d, now + 1);
    hide Recorded;
    ResidentsBounded(bs, n);
    ResidentMeans(bs, n, a);
    hide Places;
    if a in rs {
      HitKeepsResidents(bs, Everyone(), n, a);
    } else if |rs| < n {
      MissFills(bs, Everyone(), n, a);
    } else {
      var k :| LeastUsed(m[a := HistoryEntry(d, now + 1)], k) && m'.Keys == rs + {a} - {k};
      if n == 0 {
        NoPlaces(bs + [a]);
        assert k in m[a := HistoryEntry(d, now + 1)] by { LeastUsedIsThere(m[a := HistoryEntry(d, now + 1)], k); }
      } else {
        EvictedIsOldest(m, now, us, capacity, a, d, k);
        MissEvicts(bs, Everyone(), n, a, k);
        SwapInSet(rs, a, k);
      }
    }
  }

  lemma SwapInSet(rs: set<Branch>, a: Branch, k: Branch)
    requires a != k
    ensures rs + {a} - {k} == rs - {k} + {a}
  {
  }

  lemma LeastUsedIsThere(m: History, k: Branch)
    requires LeastUsed(m, k)
    ensures k in m
  {
  }

  lemma ResidentMeans(bs: seq<Branch>, n: nat, a: Branch)
    ensures a in Residents(bs, Everyone(), n) <==> IsResident(bs, Everyone(), n, a)
  {
  }

  lemma NoPlaces(bs: seq<Branch>)
    ensures Residents(bs, Everyone(), 0) == {}
  {
  }

  /** Recording overwrites what the prediction stamped. */
  lemma RecordedAnyway(m: History, m': History, capacity: nat, a: Branch, d: Direction, now: nat)
    requires Recorded(AfterPredict(m, a, now), m', capacity, a, d, now)
    ensures Recorded(m, m', capacity, a, d, now)
    ensures forall b | b in m' && b != a :: b in m && m'[b] == m[b]
    ensures a in m' ==> m'[a] == HistoryEntry(d, now)
  {
    hide LeastUsed;
    assert AfterPredict(m, a, now)[a := HistoryEntry(d, now)] == m[a := HistoryEntry(d, now)];
  }

  /** Predicting and then recording a branch is one use of it. */
  lemma PredictThenRecord(m: History, m': History, now: nat, us: seq<Use>, capacity: nat, a: Branch, d: Direction)
    requires Agrees(m, now, us, capacity)
    requires Recorded(AfterPredict(m, a, now + 1), m', capacity, a, d, now + 1)
    ensures Agrees(m', now + 1, us + [Use(a, d)], capacity)
  {
    hide Agrees, Recorded, AfterPredict;
    RecordedAnyway(m, m', capacity, a, d, now + 1);
    RecordedKeys(m, m', now, us, capacity, a, d);
    BranchesAppend(us, Use(a, d));
    StampKeepsOrder(m, m', now, us, Use(a, d), capacity);
  }

  lemma EvictedIsOld(m: History, now: nat, a: Branch, d: Direction, k: Branch)
    requires m != map[] && a !in m && (forall b | b in m :: m[b].lastUse <= now)
    requires LeastUsed(m[a := HistoryEntry(d, now + 1)], k)
    ensures k in m && LeastUsed(m, k)
  {
    var m1 := m[a := HistoryEntry(d, now + 1)];
    var b :| b in m.Keys;
    assert m1[b].lastUse <= now;
    assert forall x | x in m :: m1[x] == m[x];
  }

  // ---------------------------------------------------------------------------
  // Whole runs
  // ---------------------------------------------------------------------------

  ghost predicate StepTo(capacity: nat, p: History, e: Event, m: History, now: nat) {
    var q := AfterPredict(p, e.b, now);
    match e
    case Resolved(b, d) => Recorded(q, m, capacity, b, d, now)
    case Unresolved(_) => m == q
  }

  /** `ms` are tables that the events may lead through, the counter having started at `start`. */
  ghost predicate IsRun(capacity: nat, start: nat, ev: seq<Event>, ms: seq<History>) {
    && |ms| == |ev| + 1 && ms[0] == map[]
    && forall i: nat {:trigger ev[i]} | i < |ev| :: StepTo(capacity, ms[i], ev[i], ms[i + 1], start + i + 1)
  }

  lemma StepAgrees(p: History, e: Event, m: History, now: nat, us: seq<Use>, capacity: nat)
    requires Agrees(p, now, us, capacity) && StepTo(capacity, p, e, m, now + 1)
    ensures Agrees(m, now + 1, Used(capacity, us, e), capacity)
  {
    match e
    case Resolved(b, d) =>
      hide Agrees;
      hide Recorded;
      PredictThenRecord(p, m, now, us, capacity, b, d);
    case Unresolved(b) =>
      ResidentMeans(Branches(us), Places(capacity), b);
      if b in p { PredictKnown(p, now, us, capacity, b); }
  }

  lemma UsesOfPrefix(capacity: nat, ev: seq<Event>, k: nat)
    requires k < |ev|
    ensures Uses(capacity, ev[..k + 1]) == Used(capacity, Uses(capacity, ev[..k]), ev[k])
  {
    assert ev[..k + 1][..k] == ev[..k];
  }

  lemma {:induction false} RunAgrees(capacity: nat, start: nat, ev: seq<Event>, ms: seq<History>, k: nat)
    requires IsRun(capacity, start, ev, ms) && k <= |ev|
    ensures Agrees(ms[k], start + k, Uses(capacity, ev[..k]), capacity)
  {
    hide Agrees;
    hide StepTo;
    hide Used;
    if k == 0 {
      NoUses(start, capacity);
    } else {
      var j := k - 1;
      RunAgrees(capacity, start, ev, ms, j);
      assert StepTo(capacity, ms[j], ev[j], ms[j + 1], start + j + 1);
      UsesOfPrefix(capacity, ev, j);
      StepAgrees(ms[j], ev[j], ms[j + 1], start + j, Uses(capacity, ev[..j]), capacity);
    }
  }

  lemma NoUses(start: nat, capacity: nat)
    ensures Agrees(map[], start, [], capacity)
  {
    assert Residents<Branch>([], Everyone(), Places(capacity)) == {};
  }

  /** In every run the predictor answers a branch's last direction if fewer than
      `capacity - 1` other branches have been used since, and "not taken" otherwise. */
  lemma PredictionIsLastDirection(capacity: nat, start: nat, ev: seq<Event>, ms: seq<History>, b: Branch)
    requires IsRun(capacity, start, ev, ms)
    ensures var us := Uses(capacity, ev);
            Predicted(ms[|ev|], b) == if Known(us, capacity, b) then LastDirection(us, b) else NOT_TAKEN
    ensures |ms[|ev|]| <= Places(capacity)
  {
    RunAgrees(capacity, start, ev, ms, |ev|);
    assert ev[..|ev|] == ev;
    ResidentsBounded(Branches(Uses(capacity, ev)), Places(capacity));
    assert |ms[|ev|]| == |ms[|ev|].Keys|;
  }
}
