/** Which executed instructions belong to the regions of interest, by their addresses alone, and an
automaton that decides it one instruction at a time. */
module RegionSpec {
  import opened Wrappers

  datatype Region = Region(description: string, startAddr: nat, endAddr: nat)

  type Regions = map<nat, Region>  // by start address

  type Addrs = seq<Option<nat>>  // of instructions, relative to the code's start, and unknown below it

  // ---------------------------------------------------------------------------
  // The reference
  // ---------------------------------------------------------------------------

  /** No instruction from `i` up to `k` is at the end address of `r`. */
  ghost predicate NoEnd(r: Region, addrs: Addrs, i: nat, k: nat)
    requires i <= k <= |addrs|
  {
    forall j: nat | i <= j < k :: addrs[j] != Some(r.endAddr)
  }

  /** Instruction `i` starts the region that the table has at its address, as none is open. */
  ghost predicate Starts(rs: Regions, cur: Option<Region>, addrs: Addrs, i: nat)
    requires i < |addrs|
    ensures Starts(rs, cur, addrs, i) ==> addrs[i].Some? && addrs[i].value in rs
    decreases i, 1
  {
    addrs[i].Some? && addrs[i].value in rs && !SomeOpen(rs, cur, addrs, i)
  }

  /** Before instruction `k` some region is open: one was carried in, or an instruction before `k`
      started one, and none since then, that one included, is at its end address. */
  ghost predicate SomeOpen(rs: Regions, cur: Option<Region>, addrs: Addrs, k: nat)
    requires k <= |addrs|
    decreases k, 0
  {
    || (cur.Some? && NoEnd(cur.value, addrs, 0, k))
    || exists i: nat :: i < k && Starts(rs, cur, addrs, i) && NoEnd(rs[addrs[i].value], addrs, i, k)
  }

  /** And that region is `r`. */
  ghost predicate IsOpen(rs: Regions, cur: Option<Region>, addrs: Addrs, k: nat, r: Region)
    requires k <= |addrs|
  {
    || (cur == Some(r) && NoEnd(r, addrs, 0, k))
    || exists i: nat :: i < k && Starts(rs, cur, addrs, i) && rs[addrs[i].value] == r && NoEnd(r, addrs, i, k)
  }

  /** Instruction `k` belongs to region `r`. */
  ghost predicate Inside(rs: Regions, cur: Option<Region>, addrs: Addrs, k: nat, r: Region)
    requires k < |addrs|
  {
    IsOpen(rs, cur, addrs, k, r) || (Starts(rs, cur, addrs, k) && rs[addrs[k].value] == r)
  }

  /** An instruction of the trace, and the region that ends with it. */
  datatype Kept = Kept(inst: nat, endOf: Option<Region>)

  /** Instruction `k` belongs to a region, which ends with it if it is at the region's end address. */
  ghost predicate IsKept(rs: Regions, cur: Option<Region>, addrs: Addrs, k: nat, endOf: Option<Region>)
    requires k < |addrs|
  {
    exists r: Region :: Inside(rs, cur, addrs, k, r) && endOf == if addrs[k] == Some(r.endAddr) then Some(r) else None
  }

  /** What is kept of the `n` instructions from `lo` on. */
  ghost function KeptOn(rs: Regions, cur: Option<Region>, addrs: Addrs, lo: nat, n: nat): (kept: seq<Kept>)
    requires lo + n <= |addrs|
  {
    if n == 0 then [] else
      var k := lo + n - 1;
      KeptOn(rs, cur, addrs, lo, n - 1)
      + if exists e: Option<Region> :: IsKept(rs, cur, addrs, k, e)
        then (var e: Option<Region> :| IsKept(rs, cur, addrs, k, e); [Kept(n - 1, e)]) else []
  }

  /** No region starts among these instructions behind the end of another one. */
  ghost predicate NoSecondRegion(rs: Regions, cur: Option<Region>, addrs: Addrs, lo: nat, n: nat)
    requires lo + n <= |addrs|
  {
    forall p: nat, q: nat, r: Region {:trigger IsKept(rs, cur, addrs, p, Some(r)), addrs[q]} |
      lo <= p < q < lo + n && IsKept(rs, cur, addrs, p, Some(r)) :: !(addrs[q].Some? && addrs[q].value in rs)
  }

  // ---------------------------------------------------------------------------
  // The automaton
  // ---------------------------------------------------------------------------

  /** A region is active while it is open; an instruction that starts one makes it active. */
  function Active(rs: Regions, cur: Option<Region>, addr: Option<nat>): Option<Region> {
    if cur.Some? then cur
    else if addr.Some? && addr.value in rs then Some(rs[addr.value]) else None
  }

  predicate EndsAt(active: Option<Region>, addr: Option<nat>) {
    active.Some? && addr.Some? && active.value.endAddr == addr.value
  }

  function Next(rs: Regions, cur: Option<Region>, addr: Option<nat>): Option<Region> {
    var active := Active(rs, cur, addr);
    if EndsAt(active, addr) then None else active
  }

  /** What the automaton keeps of instruction `i` alone. */
  function KeptHere(rs: Regions, cur: Option<Region>, addr: Option<nat>, i: nat): seq<Kept> {
    var active := Active(rs, cur, addr);
    if active.None? then [] else [Kept(i, if EndsAt(active, addr) then active else None)]
  }

  /** What the automaton keeps of the instructions from index `i` on. */
  function KeptFrom(rs: Regions, cur: Option<Region>, addrs: Addrs, i: nat): seq<Kept>
    requires i <= |addrs|
    decreases |addrs| - i
  {
    if i == |addrs| then [] else
      KeptHere(rs, cur, addrs[i], i) + KeptFrom(rs, Next(rs, cur, addrs[i]), addrs, i + 1)
  }

  /** The active region after the instructions from index `i` on. */
  function StateFrom(rs: Regions, cur: Option<Region>, addrs: Addrs, i: nat): Option<Region>
    requires i <= |addrs|
    decreases |addrs| - i
  {
    if i == |addrs| then cur else StateFrom(rs, Next(rs, cur, addrs[i]), addrs, i + 1)
  }

  // ---------------------------------------------------------------------------
  // They agree
  // ---------------------------------------------------------------------------

  /** The active region before instruction `k`. */
  function StateAt(rs: Regions, cur: Option<Region>, addrs: Addrs, k: nat): Option<Region>
    requires k <= |addrs|
  {
    if k == 0 then cur else Next(rs, StateAt(rs, cur, addrs, k - 1), addrs[k - 1])
  }

  /** A region is open behind an instruction that belongs to it, unless that is its last. */
  lemma OpenStep(rs: Regions, cur: Option<Region>, addrs: Addrs, k: nat, r: Region)
    requires k < |addrs|
    ensures IsOpen(rs, cur, addrs, k + 1, r) <==> Inside(rs, cur, addrs, k, r) && addrs[k] != Some(r.endAddr)
  {
    hide Starts;
    if i: nat :| i < k && Starts(rs, cur, addrs, i) && rs[addrs[i].value] == r && NoEnd(r, addrs, i, k) {
      assert addrs[k] != Some(r.endAddr) ==> NoEnd(r, addrs, i, k + 1);
    }
    if Starts(rs, cur, addrs, k) && rs[addrs[k].value] == r {
      assert addrs[k] != Some(r.endAddr) ==> NoEnd(r, addrs, k, k + 1);
    }
    if i: nat :| i < k + 1 && Starts(rs, cur, addrs, i) && rs[addrs[i].value] == r && NoEnd(r, addrs, i, k + 1) {
      if i < k { assert NoEnd(r, addrs, i, k); }
    }
  }

  lemma SomeOpenIff(rs: Regions, cur: Option<Region>, addrs: Addrs, k: nat)
    requires k <= |addrs|
    ensures SomeOpen(rs, cur, addrs, k) <==> exists r: Region :: IsOpen(rs, cur, addrs, k, r)
  {
    hide Starts, NoEnd;
    if cur.Some? && NoEnd(cur.value, addrs, 0, k) { assert IsOpen(rs, cur, addrs, k, cur.value); }
    if i: nat :| i < k && Starts(rs, cur, addrs, i) && NoEnd(rs[addrs[i].value], addrs, i, k) {
      assert IsOpen(rs, cur, addrs, k, rs[addrs[i].value]);
    }
  }

  /** The automaton's active region is the open one. */
  lemma {:induction false} OpenIffActive(rs: Regions, cur: Option<Region>, addrs: Addrs, k: nat, r: Region)
    requires k <= |addrs|
    ensures IsOpen(rs, cur, addrs, k, r) <==> StateAt(rs, cur, addrs, k) == Some(r)
    decreases k, 0
  {
    if k == 0 {
    } else {
      hide IsOpen, Inside;
      OpenStep(rs, cur, addrs, k - 1, r);
      InsideIffActive(rs, cur, addrs, k - 1, r);
    }
  }

  lemma {:induction false} InsideIffActive(rs: Regions, cur: Option<Region>, addrs: Addrs, k: nat, r: Region)
    requires k < |addrs|
    ensures Inside(rs, cur, addrs, k, r) <==> Active(rs, StateAt(rs, cur, addrs, k), addrs[k]) == Some(r)
    decreases k, 1
  {
    hide IsOpen, SomeOpen, StateAt;
    var state := StateAt(rs, cur, addrs, k);
    forall q: Region ensures IsOpen(rs, cur, addrs, k, q) <==> state == Some(q) { OpenIffActive(rs, cur, addrs, k, q); }
    SomeOpenIff(rs, cur, addrs, k);
    if state.Some? { assert IsOpen(rs, cur, addrs, k, state.value); }
  }

  /** So at most one region is open, and an instruction is kept as the automaton says. */
  lemma KeptIffActive(rs: Regions, cur: Option<Region>, addrs: Addrs, k: nat, e: Option<Region>)
    requires k < |addrs|
    ensures var active := Active(rs, StateAt(rs, cur, addrs, k), addrs[k]);
            IsKept(rs, cur, addrs, k, e) <==> active.Some? && e == if EndsAt(active, addrs[k]) then active else None
  {
    hide Inside, StateAt;
    var active := Active(rs, StateAt(rs, cur, addrs, k), addrs[k]);
    forall r: Region ensures Inside(rs, cur, addrs, k, r) <==> active == Some(r) { InsideIffActive(rs, cur, addrs, k, r); }
    if active.Some? { assert Inside(rs, cur, addrs, k, active.value); }
  }

  /** What is kept, one instruction at a time. */
  lemma KeptOnStep(rs: Regions, cur: Option<Region>, addrs: Addrs, lo: nat, n: nat)
    requires n > 0 && lo + n <= |addrs|
    ensures var k := lo + n - 1;
            KeptOn(rs, cur, addrs, lo, n)
              == KeptOn(rs, cur, addrs, lo, n - 1) + KeptHere(rs, StateAt(rs, cur, addrs, k), addrs[k], n - 1)
  {
    hide IsKept, StateAt, Active, EndsAt;
    var k := lo + n - 1;
    var active := Active(rs, StateAt(rs, cur, addrs, k), addrs[k]);
    forall e: Option<Region>
      ensures IsKept(rs, cur, addrs, k, e) <==> active.Some? && e == if EndsAt(active, addrs[k]) then active else None
    {
      KeptIffActive(rs, cur, addrs, k, e);
    }
    if active.Some? { assert IsKept(rs, cur, addrs, k, if EndsAt(active, addrs[k]) then active else None); }
  }

  /** What is kept is in the trace, at its place, and nothing else is. */
  lemma {:induction false} KeptIsThere(rs: Regions, cur: Option<Region>, addrs: Addrs, lo: nat, n: nat, i: nat,
                                           e: Option<Region>)
    requires lo + n <= |addrs| && i < n && IsKept(rs, cur, addrs, lo + i, e)
    ensures Kept(i, e) in KeptOn(rs, cur, addrs, lo, n)
  {
    hide KeptOn, IsKept, StateAt;
    KeptOnStep(rs, cur, addrs, lo, n);
    if i == n - 1 {
      KeptIffActive(rs, cur, addrs, lo + i, e);
    } else {
      KeptIsThere(rs, cur, addrs, lo, n - 1, i, e);
    }
  }

  lemma {:induction false} OnlyKeptIsThere(rs: Regions, cur: Option<Region>, addrs: Addrs, lo: nat, n: nat, x: Kept)
    requires lo + n <= |addrs| && x in KeptOn(rs, cur, addrs, lo, n)
    ensures x.inst < n && IsKept(rs, cur, addrs, lo + x.inst, x.endOf)
  {
    hide IsKept;
    if x in KeptOn(rs, cur, addrs, lo, n - 1) {
      OnlyKeptIsThere(rs, cur, addrs, lo, n - 1, x);
    }
  }

  lemma FromUnfold(rs: Regions, cur: Option<Region>, addrs: Addrs, i: nat)
    requires i < |addrs|
    ensures var next := Next(rs, cur, addrs[i]);
            KeptFrom(rs, cur, addrs, i) == KeptHere(rs, cur, addrs[i], i) + KeptFrom(rs, next, addrs, i + 1)
  {
    hide KeptHere, Next;
  }

  /** The automaton on the rest of the instructions goes on where the reference stands. */
  lemma {:induction false} KeptSoFar(rs: Regions, cur: Option<Region>, addrs: Addrs, i: nat)
    requires i <= |addrs|
    ensures KeptFrom(rs, cur, addrs, 0) == KeptOn(rs, cur, addrs, 0, i) + KeptFrom(rs, StateAt(rs, cur, addrs, i), addrs, i)
  {
    if i == 0 {
      assert [] + KeptFrom(rs, cur, addrs, 0) == KeptFrom(rs, cur, addrs, 0);
    } else {
      hide KeptOn, KeptHere, Next, KeptFrom, StateFrom;
      var state := StateAt(rs, cur, addrs, i - 1);
      KeptSoFar(rs, cur, addrs, i - 1);
      KeptOnStep(rs, cur, addrs, 0, i);
      FromUnfold(rs, state, addrs, i - 1);
      ConcatAssoc(KeptOn(rs, cur, addrs, 0, i - 1), KeptHere(rs, state, addrs[i - 1], i - 1),
                  KeptFrom(rs, StateAt(rs, cur, addrs, i), addrs, i));
    }
  }

  lemma {:induction false} StateSoFar(rs: Regions, cur: Option<Region>, addrs: Addrs, i: nat)
    requires i <= |addrs|
    ensures StateFrom(rs, cur, addrs, 0) == StateFrom(rs, StateAt(rs, cur, addrs, i), addrs, i)
  {
    if i == 0 {
    } else {
      StateSoFar(rs, cur, addrs, i - 1);
    }
  }

  /** On a block, the automaton keeps what belongs to the regions, and carries the open one on. */
  lemma AutomatonKeeps(rs: Regions, cur: Option<Region>, addrs: Addrs)
    ensures KeptFrom(rs, cur, addrs, 0) == KeptOn(rs, cur, addrs, 0, |addrs|)
    ensures StateFrom(rs, cur, addrs, 0) == StateAt(rs, cur, addrs, |addrs|)
  {
    hide KeptOn, StateAt;
    KeptSoFar(rs, cur, addrs, |addrs|);
    StateSoFar(rs, cur, addrs, |addrs|);
  }

  // ---------------------------------------------------------------------------
  // A block as a part of the stream
  // ---------------------------------------------------------------------------

  lemma {:induction false} StateOfStream(rs: Regions, cur: Option<Region>, before: Addrs, addrs: Addrs, i: nat)
    requires i <= |addrs|
    ensures StateAt(rs, cur, before + addrs, |before| + i) == StateAt(rs, StateAt(rs, cur, before, |before|), addrs, i)
  {
    if i == 0 {
      StateOfPrefix(rs, cur, before, addrs, |before|);
    } else {
      StateOfStream(rs, cur, before, addrs, i - 1);
    }
  }

  lemma {:induction false} StateOfPrefix(rs: Regions, cur: Option<Region>, before: Addrs, addrs: Addrs, k: nat)
    requires k <= |before|
    ensures StateAt(rs, cur, before + addrs, k) == StateAt(rs, cur, before, k)
  {
    if k == 0 {
    } else {
      StateOfPrefix(rs, cur, before, addrs, k - 1);
    }
  }

  /** What is kept of a block is the same by itself, with the open region carried in, as in the stream. */
  lemma {:induction false} KeptOfStream(rs: Regions, cur: Option<Region>, before: Addrs, addrs: Addrs, n: nat)
    requires n <= |addrs|
    ensures KeptOn(rs, cur, before + addrs, |before|, n)
         == KeptOn(rs, StateAt(rs, cur, before, |before|), addrs, 0, n)
  {
    if n == 0 {
    } else {
      hide KeptOn, StateAt, KeptHere;
      KeptOfStream(rs, cur, before, addrs, n - 1);
      StateOfStream(rs, cur, before, addrs, n - 1);
      assert (before + addrs)[|before| + n - 1] == addrs[n - 1];
      KeptOnStep(rs, cur, before + addrs, |before|, n);
      KeptOnStep(rs, StateAt(rs, cur, before, |before|), addrs, 0, n);
    }
  }

  lemma SecondOfStream(rs: Regions, cur: Option<Region>, before: Addrs, addrs: Addrs)
    ensures NoSecondRegion(rs, cur, before + addrs, |before|, |addrs|)
       <==> NoSecondRegion(rs, StateAt(rs, cur, before, |before|), addrs, 0, |addrs|)
  {
    hide IsKept, StateAt;
    var all, state, n := before + addrs, StateAt(rs, cur, before, |before|), |before|;
    forall p: nat, e: Option<Region> | p < |addrs|
      ensures IsKept(rs, cur, all, n + p, e) <==> IsKept(rs, state, addrs, p, e)
    {
      StateOfStream(rs, cur, before, addrs, p);
      KeptIffActive(rs, cur, all, n + p, e);
      KeptIffActive(rs, state, addrs, p, e);
    }
    if NoSecondRegion(rs, cur, all, n, |addrs|) {
      forall p: nat, q: nat, r: Region | p < q < |addrs| && IsKept(rs, state, addrs, p, Some(r))
        ensures !(addrs[q].Some? && addrs[q].value in rs)
      {
        assert IsKept(rs, cur, all, n + p, Some(r)) && all[n + q] == addrs[q];
      }
    }
    if NoSecondRegion(rs, state, addrs, 0, |addrs|) {
      forall p: nat, q: nat, r: Region | n <= p < q < n + |addrs| && IsKept(rs, cur, all, p, Some(r))
        ensures !(all[q].Some? && all[q].value in rs)
      {
        assert IsKept(rs, state, addrs, p - n, Some(r)) && all[q] == addrs[q - n];
      }
    }
  }
}
