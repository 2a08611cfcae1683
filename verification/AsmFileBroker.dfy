/** Handing out the instructions of the assembly code regions in batches. */
module RegionBatches {
  import opened Wrappers
  import opened CodeRegionSpec

  /** An instruction to be handed out, its region, and whether it is the region's last. */
  datatype Item = Item(inst: Inst, region: nat, last: bool)

  predicate Inside(rs: seq<Region>, r: nat, i: nat) {
    r <= |rs| && (r < |rs| ==> i <= |rs[r].insts|)
  }

  function Tail(insts: seq<Inst>, r: nat, i: nat): (t: seq<Item>)
    requires i <= |insts|
    ensures |t| == |insts| - i
    ensures forall k: nat | k < |t| :: t[k] == Item(insts[i + k], r, i + k + 1 == |insts|)
  {
    seq(|insts| - i, k requires 0 <= k < |insts| - i => Item(insts[i + k], r, i + k + 1 == |insts|))
  }

  function FlatFrom(rs: seq<Region>, r: nat): seq<Item>
    requires r <= |rs|
    decreases |rs| - r
  {
    if r == |rs| then [] else Tail(rs[r].insts, r, 0) + FlatFrom(rs, r + 1)
  }

  /** What is still to be handed out from instruction `i` of region `r` on. */
  function Flat(rs: seq<Region>, r: nat, i: nat): seq<Item>
    requires Inside(rs, r, i)
  {
    if r == |rs| then [] else Tail(rs[r].insts, r, i) + FlatFrom(rs, r + 1)
  }

  lemma FlatSkips(rs: seq<Region>, r: nat, i: nat)
    requires Inside(rs, r, i) && r < |rs| && i == |rs[r].insts|
    ensures Flat(rs, r, i) == FlatFrom(rs, r + 1)
    ensures if r + 1 < |rs| then Flat(rs, r, i) == Flat(rs, r + 1, 0) else Flat(rs, r, i) == []
  {
  }

  lemma FlatAtEnd(rs: seq<Region>, r: nat, i: nat)
    requires Inside(rs, r, i)
    ensures r == |rs| ==> Flat(rs, r, i) == []
  {
  }

  lemma TailSteps(insts: seq<Inst>, r: nat, i: nat)
    requires i < |insts|
    ensures Tail(insts, r, i) == [Item(insts[i], r, i + 1 == |insts|)] + Tail(insts, r, i + 1)
  {
  }

  lemma FlatSteps(rs: seq<Region>, r: nat, i: nat)
    requires Inside(rs, r, i) && r < |rs| && i < |rs[r].insts|
    ensures Flat(rs, r, i) == [Item(rs[r].insts[i], r, i + 1 == |rs[r].insts|)] + Flat(rs, r, i + 1)
  {
    hide Tail, FlatFrom;
    var insts := rs[r].insts;
    TailSteps(insts, r, i);
    ConcatAssoc([Item(insts[i], r, i + 1 == |insts|)], Tail(insts, r, i + 1), FlatFrom(rs, r + 1));
  }

  /** The size of the next batch: up to the end of the region, and at most `max`. */
  function BatchSize(w: seq<Item>, max: nat): (n: nat)
    ensures n <= |w| && n <= max
    ensures w != [] && max > 0 ==> n > 0
    ensures forall k: nat | k + 1 < n :: !w[k].last
    ensures n < |w| && n < max ==> n > 0 && w[n - 1].last
  {
    if w == [] || max == 0 then 0 else if w[0].last then 1 else 1 + BatchSize(w[1..], max - 1)
  }

  lemma DropOne(w: seq<Item>, i: nat)
    requires i < |w|
    ensures w[i..][0] == w[i] && w[i..][1..] == w[i + 1..]
  {
  }

  lemma NoLastBefore(w: seq<Item>, n: nat, m: nat)
    requires n <= |w| && m <= |w| && forall k: nat | k + 1 < n :: !w[k].last
    ensures 0 < m < n ==> !w[m - 1].last
  {
  }

  lemma BatchSizeIs(w: seq<Item>, max: nat, n: nat)
    requires n <= |w| && n <= max && forall k: nat | k + 1 < n :: !w[k].last
    requires n < |w| && n < max ==> n > 0 && w[n - 1].last
    ensures n == BatchSize(w, max)
  {
    hide BatchSize;
    NoLastBefore(w, n, BatchSize(w, max));
    NoLastBefore(w, BatchSize(w, max), n);
  }

  /** The batches that follow one another, with the sizes asked for, until all is handed out. */
  function Batches(w: seq<Item>, sizes: seq<nat>): seq<seq<Item>> {
    if w == [] || sizes == [] then [] else
      var n := BatchSize(w, sizes[0]);
      [w[..n]] + Batches(w[n..], sizes[1..])
  }

  function Join(bs: seq<seq<Item>>): seq<Item> {
    if bs == [] then [] else bs[0] + Join(bs[1..])
  }

  /** Regions of the items that are the last of their region. */
  function Ends(w: seq<Item>): seq<nat> {
    if w == [] then [] else (if w[0].last then [w[0].region] else []) + Ends(w[1..])
  }

  predicate RaisesEnd(b: seq<Item>) {
    b != [] && b[|b| - 1].last
  }

  /** Regions of the batches that come with the end flag. */
  function EndFlags(bs: seq<seq<Item>>): seq<nat> {
    if bs == [] then [] else
      (if RaisesEnd(bs[0]) then [bs[0][|bs[0]| - 1].region] else []) + EndFlags(bs[1..])
  }

  function NonEmptyFrom(rs: seq<Region>, r: nat): seq<nat>
    requires r <= |rs|
    decreases |rs| - r
  {
    if r == |rs| then [] else (if rs[r].insts == [] then [] else [r]) + NonEmptyFrom(rs, r + 1)
  }

  /** Between neighbours the region changes exactly behind a last instruction. */
  ghost predicate InRegions(w: seq<Item>) {
    forall k: nat | k + 1 < |w| :: !w[k].last ==> w[k + 1].region == w[k].region
  }

  predicate OneRegion(b: seq<Item>) {
    forall k: nat | k < |b| :: b[k].region == b[0].region
  }

  lemma {:induction false} FlatInRegions(rs: seq<Region>, r: nat)
    requires r <= |rs|
    ensures InRegions(FlatFrom(rs, r))
    decreases |rs| - r
  {
    if r == |rs| {
    } else {
      FlatInRegions(rs, r + 1);
      JoinInRegions(Tail(rs[r].insts, r, 0), FlatFrom(rs, r + 1));
    }
  }

  lemma JoinInRegions(a: seq<Item>, b: seq<Item>)
    requires InRegions(a) && InRegions(b) && (a != [] ==> a[|a| - 1].last)
    ensures InRegions(a + b)
  {
    var w := a + b;
    forall k: nat | k + 1 < |w| && !w[k].last ensures w[k + 1].region == w[k].region {
      if k + 1 < |a| { assert a[k + 1].region == a[k].region; }
      if k >= |a| { assert b[k - |a| + 1].region == b[k - |a|].region; }
    }
  }

  lemma {:induction false} FlatEnds(rs: seq<Region>, r: nat)
    requires r <= |rs|
    ensures Ends(FlatFrom(rs, r)) == NonEmptyFrom(rs, r)
    decreases |rs| - r
  {
    hide Tail;
    if r == |rs| {
    } else {
      var t := Tail(rs[r].insts, r, 0);
      FlatEnds(rs, r + 1);
      EndsAppend(t, FlatFrom(rs, r + 1));
      if t != [] { EndsOfBatch(t); }
    }
  }

  lemma EndsUnfold(w: seq<Item>)
    requires w != []
    ensures Ends(w) == (if w[0].last then [w[0].region] else []) + Ends(w[1..])
  {
  }

  lemma {:induction false} EndsAppend(a: seq<Item>, b: seq<Item>)
    ensures Ends(a + b) == Ends(a) + Ends(b)
  {
    hide Ends;
    if a == [] {
      NoEnds();
      assert a + b == b;
    } else {
      EndsAppend(a[1..], b);
      EndsUnfold(a);
      EndsUnfold(a + b);
      assert (a + b)[1..] == a[1..] + b;
    }
  }

  /** A batch has at most one last instruction, at its end, so it lies in one region. */
  lemma {:induction false} EndsOfBatch(b: seq<Item>)
    requires InRegions(b) && b != [] && forall k: nat | k + 1 < |b| :: !b[k].last
    ensures OneRegion(b) && Ends(b) == if RaisesEnd(b) then [b[|b| - 1].region] else []
  {
    if |b| == 1 {
    } else {
      EndsOfBatch(b[1..]);
      assert b[1..][0].region == b[0].region;
      forall k: nat | k < |b| ensures b[k].region == b[0].region {
        if k > 0 { assert b[1..][k - 1].region == b[1].region; }
      }
    }
  }

  ghost predicate AllInOneRegion(bs: seq<seq<Item>>) {
    forall b | b in bs :: b != [] && OneRegion(b)
  }

  lemma BatchesUnfold(w: seq<Item>, sizes: seq<nat>)
    requires w != [] && sizes != []
    ensures var n := BatchSize(w, sizes[0]); Batches(w, sizes) == [w[..n]] + Batches(w[n..], sizes[1..])
  {
  }

  lemma OneBatchMore(a: seq<Item>, bs: seq<seq<Item>>)
    requires a != [] && OneRegion(a) && AllInOneRegion(bs)
    ensures Join([a] + bs) == a + Join(bs) && AllInOneRegion([a] + bs)
    ensures EndFlags([a] + bs) == (if RaisesEnd(a) then [a[|a| - 1].region] else []) + EndFlags(bs)
  {
    hide RaisesEnd, OneRegion, AllInOneRegion;
    HeadAndTail(a, bs);
    AllWithOneMore(a, bs);
  }

  lemma AllWithOneMore(a: seq<Item>, bs: seq<seq<Item>>)
    requires a != [] && OneRegion(a) && AllInOneRegion(bs)
    ensures AllInOneRegion([a] + bs)
  {
    hide OneRegion;
  }

  /** What the first batch takes. */
  lemma FirstBatch(w: seq<Item>, max: nat)
    requires InRegions(w) && w != [] && max > 0
    ensures var n := BatchSize(w, max);
            && n > 0 && w == w[..n] + w[n..] && InRegions(w[n..]) && OneRegion(w[..n])
            && Ends(w) == (if RaisesEnd(w[..n]) then [w[n - 1].region] else []) + Ends(w[n..])
  {
    hide BatchSize, Ends, OneRegion, RaisesEnd, InRegions;
    var n := BatchSize(w, max);
    PartsInRegions(w, n);
    EndsOfBatch(w[..n]);
    EndsAppend(w[..n], w[n..]);
    assert w == w[..n] + w[n..];
  }

  lemma {:induction false} BatchesRejoin(w: seq<Item>, sizes: seq<nat>)
    requires InRegions(w) && |sizes| >= |w| && forall n | n in sizes :: n > 0
    ensures Join(Batches(w, sizes)) == w && EndFlags(Batches(w, sizes)) == Ends(w)
    ensures AllInOneRegion(Batches(w, sizes))
    decreases |sizes|
  {
    if w == [] {
      NoEnds();
    } else {
      hide Batches, Join, EndFlags, Ends, AllInOneRegion, OneRegion, RaisesEnd, InRegions, BatchSize;
      assert sizes[0] in sizes && forall x | x in sizes[1..] :: x in sizes;
      var n := BatchSize(w, sizes[0]);
      FirstBatch(w, sizes[0]);
      BatchesRejoin(w[n..], sizes[1..]);
      BatchesUnfold(w, sizes);
      OneBatchMore(w[..n], Batches(w[n..], sizes[1..]));
    }
  }

  lemma NoEnds()
    ensures Ends([]) == []
  {
  }

  lemma PartsInRegions(w: seq<Item>, n: nat)
    requires InRegions(w) && n <= |w|
    ensures InRegions(w[..n]) && InRegions(w[n..])
  {
    forall k: nat | k + 1 < |w| - n && !w[n..][k].last ensures w[n..][k + 1].region == w[n..][k].region {
      assert w[(n + k) + 1].region == w[n + k].region;
    }
  }

  /** Whatever positive sizes are asked for, the batches put together are the instructions of
      all regions in order, none lies in two regions, and the end flag is raised exactly once
      for each region that is not empty, in order. */
  lemma RegionsAreHandedOut(rs: seq<Region>, sizes: seq<nat>)
    requires |sizes| >= |FlatFrom(rs, 0)| && forall n | n in sizes :: n > 0
    ensures var bs := Batches(FlatFrom(rs, 0), sizes);
            && Join(bs) == FlatFrom(rs, 0)
            && EndFlags(bs) == NonEmptyFrom(rs, 0)
            && AllInOneRegion(bs)
  {
    hide *;
    FlatInRegions(rs, 0);
    FlatEnds(rs, 0);
    BatchesRejoin(FlatFrom(rs, 0), sizes);
  }

  /** The instructions handed out are the contents of the regions, one behind the other. */
  function Contents(rs: seq<Region>, r: nat): seq<Inst>
    requires r <= |rs|
    decreases |rs| - r
  {
    if r == |rs| then [] else rs[r].insts + Contents(rs, r + 1)
  }

  function Insts(w: seq<Item>): (r: seq<Inst>)
    ensures |r| == |w| && forall k: nat | k < |w| :: r[k] == w[k].inst
  {
    if w == [] then [] else [w[0].inst] + Insts(w[1..])
  }

  lemma {:induction false} InstsAppend(a: seq<Item>, b: seq<Item>)
    ensures Insts(a + b) == Insts(a) + Insts(b)
  {
    hide Insts;
  }

  lemma {:induction false} FlatIsContents(rs: seq<Region>, r: nat)
    requires r <= |rs|
    ensures Insts(FlatFrom(rs, r)) == Contents(rs, r)
    decreases |rs| - r
  {
    hide Insts, Tail;
    if r == |rs| {
    } else {
      FlatIsContents(rs, r + 1);
      InstsAppend(Tail(rs[r].insts, r, 0), FlatFrom(rs, r + 1));
      assert Insts(Tail(rs[r].insts, r, 0)) == rs[r].insts;
    }
  }
}

module AsmFileBrokers {
  import opened Wrappers
  import opened CodeRegionSpec
  import opened RegionBatches

  class AsmFileBroker {
    const source: Option<seq<Region>>  // what parsing yields, or nothing if it fails
    var isInvalid: bool
    var regions: Option<seq<Region>>
    var iterRegion: nat
    var curInstIdx: nat

    ghost predicate Valid()
      reads this
    {
      && (isInvalid ==> source.None?)
      && (regions.Some? ==> regions == source && !isInvalid && Inside(regions.value, iterRegion, curInstIdx))
      && (regions.None? ==> curInstIdx == 0)
    }

    /** What is still to be handed out. */
    ghost function Rest(): seq<Item>
      reads this
      requires Valid()
    {
      if source.None? then []
      else if regions.None? then FlatFrom(source.value, 0)
      else Flat(regions.value, iterRegion, curInstIdx)
    }

    constructor (source: Option<seq<Region>>)
      ensures Valid() && this.source == source
      ensures Rest() == if source.None? then [] else FlatFrom(source.value, 0)
    {
      this.source, isInvalid, regions, iterRegion, curInstIdx := source, false, None, 0, 0;
    }

    method ParseIfNeeded() returns (ok: bool)
      requires Valid()
      modifies this
      ensures Valid() && Rest() == old(Rest()) && ok == source.Some? == regions.Some?
      ensures old(regions).Some? ==> regions == old(regions) && iterRegion == old(iterRegion) && curInstIdx == old(curInstIdx)
    {
      if !isInvalid && regions.None? {
        if source.None? {
          isInvalid := true;
        } else {
          regions := source;
          iterRegion := 0;
        }
      }
      ok := !isInvalid;
    }

    /** The instruction that was handed out last, if any, is `item`. */
    ghost predicate JustBehind(item: Item)
      reads this
    {
      && regions.Some? && iterRegion < |regions.value| && iterRegion == item.region
      && (curInstIdx >= |regions.value[iterRegion].insts| <==> item.last)
    }

    /** More of the current region's instructions are left. */
    ghost predicate InsideRegion()
      reads this
    {
      regions.Some? && iterRegion < |regions.value| && curInstIdx < |regions.value[iterRegion].insts|
    }

    method FetchOne() returns (mci: Option<Inst>)
      requires Valid()
      modifies this
      ensures old(InsideRegion()) ==> mci.Some? && iterRegion == old(iterRegion) && regions == old(regions)
      ensures Valid()
      ensures mci.None? <==> old(Rest()) == []
      ensures mci.None? ==> Rest() == []
      ensures mci.Some? ==> mci.value == old(Rest())[0].inst && Rest() == old(Rest())[1..] && JustBehind(old(Rest())[0])
    {
      hide Flat, FlatFrom;
      ghost var w := Rest();
      var ok := ParseIfNeeded();
      if !ok { return None; }
      FlatAtEnd(regions.value, iterRegion, curInstIdx);
      if iterRegion == |regions.value| { return None; }
      var rs := regions.value;
      while curInstIdx >= |rs[iterRegion].insts|
        invariant Valid() && regions == Some(rs) && iterRegion < |rs| && Rest() == w
        invariant old(InsideRegion()) ==> iterRegion == old(iterRegion) && curInstIdx == old(curInstIdx)
        decreases |rs| - iterRegion
      {
        // switch to the next region if there is one
        FlatSkips(rs, iterRegion, curInstIdx);
        iterRegion := iterRegion + 1;
        if iterRegion == |rs| {
          FlatAtEnd(rs, iterRegion, curInstIdx);
          return None;
        }
        curInstIdx := 0;
      }
      FlatSteps(rs, iterRegion, curInstIdx);
      mci := Some(rs[iterRegion].insts[curInstIdx]);
      curInstIdx := curInstIdx + 1;
    }

    /** Fills the buffer without regard to regions; -1 only when nothing is left. */
    method Fetch(mcis: array<Inst>, size: int) returns (n: int)
      requires Valid() && size <= mcis.Length
      modifies this, mcis
      ensures Valid()
      ensures var w, max := old(Rest()), if size < 0 then mcis.Length else size;
              && n == (if max > 0 && w == [] then -1 else Min(max, |w|))
              && (forall k: nat | k < n :: mcis[k] == w[k].inst)
              && (forall k: nat | k < mcis.Length && k >= n :: mcis[k] == old(mcis[k]))
              && Rest() == w[if n < 0 then 0 else n..]
    {
      hide Rest, Flat, FlatFrom, BatchSize;
      ghost var w := Rest();
      var maxLen := if size < 0 then mcis.Length else size;
      var i := 0;
      while i < maxLen
        invariant Valid() && i <= maxLen && i <= |w| && Rest() == w[i..]
        invariant forall k: nat | k < i :: mcis[k] == w[k].inst
        invariant forall k: nat | i <= k < mcis.Length :: mcis[k] == old(mcis[k])
      {
        var mci := FetchOne();
        if mci.None? {
          // end of the stream
          if i == 0 { return -1; } else { break; }
        }
        DropOne(w, i);
        mcis[i] := mci.value;
        i := i + 1;
      }
      n := i;
    }

    /** The next batch, whether a region ends with it, and the description of its region; -1
        only when nothing is left. */
    method FetchRegion(mcis: array<Inst>, size: int) returns (n: int, endOfRegion: bool, description: string)
      requires Valid() && size <= mcis.Length
      modifies this, mcis
      ensures Valid()
      ensures var w, max := old(Rest()), if size < 0 then mcis.Length else size;
              && n == (if max > 0 && w == [] then -1 else BatchSize(w, max))
              && (forall k: nat | k < n :: mcis[k] == w[k].inst)
              && (forall k: nat | k < mcis.Length && k >= n :: mcis[k] == old(mcis[k]))
              && Rest() == w[if n < 0 then 0 else n..]
              && endOfRegion == (n == -1 || RaisesEnd(w[..if n < 0 then 0 else n]))
              && (n > 0 ==> && source.Some? && w[n - 1].region < |source.value|
                            && description == source.value[w[n - 1].region].description)
              && (n <= 0 ==> description == "")
    {
      hide Rest, Flat, FlatFrom, BatchSize;
      ghost var w := Rest();
      var maxLen := if size < 0 then mcis.Length else size;
      var i, numInsts := 0, 0;
      endOfRegion, description := false, "";
      while i < maxLen
        invariant Valid() && i <= maxLen && i <= |w| && Rest() == w[i..]
        invariant forall k: nat | k < i :: mcis[k] == w[k].inst
        invariant forall k: nat | i <= k < mcis.Length :: mcis[k] == old(mcis[k])
        invariant !endOfRegion && forall k: nat | k < i :: !w[k].last
        invariant i == 0 ==> numInsts == 0 && description == ""
        invariant i > 0 ==> && JustBehind(w[i - 1]) && !w[i - 1].last
                            && numInsts == |regions.value[iterRegion].insts| > 0
                            && description == regions.value[iterRegion].description
      {
        var mci := FetchOne();
        if mci.None? {
          // end of the stream
          if i == 0 { return -1, true, description; }
          endOfRegion := true;
          break;
        }
        DropOne(w, i);
        mcis[i] := mci.value;
        if numInsts == 0 {
          numInsts := |regions.value[iterRegion].insts|;
          description := regions.value[iterRegion].description;
        }
        if curInstIdx >= numInsts {
          // the next instruction is in a different region
          endOfRegion := true;
          i := i + 1;
          break;
        }
        i := i + 1;
      }
      BatchSizeIs(w, maxLen, i);
      n := i;
    }
  }
}
