/** Trimming executed blocks to the regions of interest: the block-at-a-time scan, and what it keeps. */
module RegionTrim {
  import opened Wrappers
  import opened RegionSpec
  import opened TraceQueue

  // ---------------------------------------------------------------------------
  // The scan
  // ---------------------------------------------------------------------------

  /** First instruction from `i` on that starts a region, or the number of instructions. */
  function FirstStart(rs: Regions, addrs: Addrs, i: nat): (k: nat)
    requires i <= |addrs|
    ensures i <= k <= |addrs|
    ensures forall j: nat | i <= j < k :: !(addrs[j].Some? && addrs[j].value in rs)
    ensures k < |addrs| ==> addrs[k].Some? && addrs[k].value in rs
    decreases |addrs| - i
  {
    if i == |addrs| || Active(rs, None, addrs[i]).Some? then i else FirstStart(rs, addrs, i + 1)
  }

  /** First instruction from `i` on at the end address of `r`, or the number of instructions. */
  function FirstEnd(r: Region, addrs: Addrs, i: nat): (k: nat)
    requires i <= |addrs|
    ensures i <= k <= |addrs|
    ensures forall j: nat | i <= j < k :: addrs[j] != Some(r.endAddr)
    ensures k < |addrs| ==> addrs[k] == Some(r.endAddr)
    decreases |addrs| - i
  {
    if i == |addrs| || EndsAt(Some(r), addrs[i]) then i else FirstEnd(r, addrs, i + 1)
  }

  /** The bounds of the slice, the region that ends with it, and the region active afterwards. */
  datatype Trim = Trim(begin: nat, end: nat, region: Option<Region>, cur: Option<Region>)

  function ScanEnd(r: Region, addrs: Addrs, begin: nat): Trim
    requires begin <= |addrs|
  {
    var j := FirstEnd(r, addrs, begin);
    if j < |addrs| then Trim(begin, j + 1, Some(r), None) else Trim(begin, OPEN_END, None, Some(r))
  }

  function Scan(rs: Regions, cur: Option<Region>, addrs: Addrs): (t: Trim)
    ensures |addrs| < OPEN_END ==> t.begin == t.end || t.begin <= Min(|addrs|, t.end)
  {
    if cur.Some? then ScanEnd(cur.value, addrs, 0) else
      var i := FirstStart(rs, addrs, 0);
      if i == |addrs| then Trim(OPEN_END, OPEN_END, None, None)
      else ScanEnd(Active(rs, None, addrs[i]).value, addrs, i)
  }

  /** The instructions of the slice that the scan yields; an empty slice is not enqueued. */
  function Sliced(t: Trim, n: nat): seq<Kept>
    requires t.begin == t.end || t.begin <= Min(n, t.end)
  {
    if t.begin == t.end then [] else SlicedFrom(t, n, t.begin)
  }

  function SlicedFrom(t: Trim, n: nat, i: nat): seq<Kept>
    requires i <= Min(n, t.end)
    decreases Min(n, t.end) - i
  {
    if i == Min(n, t.end) then [] else
      [Kept(i, if i + 1 == t.end then t.region else None)] + SlicedFrom(t, n, i + 1)
  }

  // ---------------------------------------------------------------------------
  // Agreement on one block
  // ---------------------------------------------------------------------------

  /** Nothing is kept while no region starts. */
  lemma {:induction false} NothingKept(rs: Regions, addrs: Addrs, i: nat)
    requires i <= |addrs|
    ensures (forall j: nat | i <= j < |addrs| :: Active(rs, None, addrs[j]).None?) <==> KeptFrom(rs, None, addrs, i) == []
    ensures KeptFrom(rs, None, addrs, i) == [] ==> StateFrom(rs, None, addrs, i) == None
    decreases |addrs| - i
  {
    if i == |addrs| {
    } else {
      NothingKept(rs, addrs, i + 1);
    }
  }

  lemma {:induction false} SkipToStart(rs: Regions, addrs: Addrs, i: nat)
    requires i <= |addrs|
    ensures var k := FirstStart(rs, addrs, i);
            && KeptFrom(rs, None, addrs, i) == KeptFrom(rs, None, addrs, k)
            && StateFrom(rs, None, addrs, i) == StateFrom(rs, None, addrs, k)
    decreases |addrs| - i
  {
    if i == |addrs| || Active(rs, None, addrs[i]).Some? {
    } else {
      SkipToStart(rs, addrs, i + 1);
    }
  }

  /** From an instruction at which region `r` is active, the automaton keeps everything up to
      the region's end, and then goes on with no region active. */
  lemma {:induction false} KeepToEnd(rs: Regions, r: Region, cur: Option<Region>, addrs: Addrs, i: nat)
    requires i < |addrs| && |addrs| < OPEN_END && Active(rs, cur, addrs[i]) == Some(r)
    ensures var j, t := FirstEnd(r, addrs, i), ScanEnd(r, addrs, i);
            && (j == |addrs| ==> KeptFrom(rs, cur, addrs, i) == SlicedFrom(t, |addrs|, i)
                                 && StateFrom(rs, cur, addrs, i) == Some(r))
            && (j < |addrs| ==> KeptFrom(rs, cur, addrs, i) == SlicedFrom(t, |addrs|, i) + KeptFrom(rs, None, addrs, j + 1)
                                && StateFrom(rs, cur, addrs, i) == StateFrom(rs, None, addrs, j + 1))
    decreases |addrs| - i
  {
    hide KeptFrom, StateFrom, SlicedFrom;
    var t, n := ScanEnd(r, addrs, i), |addrs|;
    KeptStep(rs, r, cur, addrs, i);
    SlicedStep(t, n, i);
    if EndsAt(Some(r), addrs[i]) {
      assert t.end == i + 1;
    } else if i + 1 < n {
      KeepToEnd(rs, r, Some(r), addrs, i + 1);
      SameSlice(t, ScanEnd(r, addrs, i + 1), n, i + 1);
    } else {
      assert FirstEnd(r, addrs, i) == n;
    }
  }

  lemma KeptStep(rs: Regions, r: Region, cur: Option<Region>, addrs: Addrs, i: nat)
    requires i < |addrs| && Active(rs, cur, addrs[i]) == Some(r)
    ensures var ends := EndsAt(Some(r), addrs[i]);
            var next := if ends then None else Some(r);
            && KeptFrom(rs, cur, addrs, i)
               == [Kept(i, if ends then Some(r) else None)] + KeptFrom(rs, next, addrs, i + 1)
            && StateFrom(rs, cur, addrs, i) == StateFrom(rs, next, addrs, i + 1)
            && (i + 1 == |addrs| ==> KeptFrom(rs, next, addrs, i + 1) == [] && StateFrom(rs, next, addrs, i + 1) == next)
  {
  }

  lemma SlicedStep(t: Trim, n: nat, i: nat)
    requires i < Min(n, t.end)
    ensures SlicedFrom(t, n, i) == [Kept(i, if i + 1 == t.end then t.region else None)] + SlicedFrom(t, n, i + 1)
    ensures i + 1 == Min(n, t.end) ==> SlicedFrom(t, n, i + 1) == []
  {
  }

  lemma {:induction false} SameSlice(t: Trim, u: Trim, n: nat, i: nat)
    requires t.end == u.end && t.region == u.region && i <= Min(n, t.end)
    ensures SlicedFrom(t, n, i) == SlicedFrom(u, n, i)
    decreases Min(n, t.end) - i
  {
    if i == Min(n, t.end) {
    } else {
      SameSlice(t, u, n, i + 1);
    }
  }

  /** No region starts in the block behind the slice. */
  ghost predicate NothingBehind(t: Trim, rs: Regions, addrs: Addrs) {
    t.region.Some? ==> forall j: nat | t.end <= j < |addrs| :: !(addrs[j].Some? && addrs[j].value in rs)
  }

  /** The scan from an instruction at which region `r` is active. */
  lemma ScanEndAgreesIff(rs: Regions, r: Region, cur: Option<Region>, addrs: Addrs, i: nat)
    requires i < |addrs| < OPEN_END && Active(rs, cur, addrs[i]) == Some(r)
    ensures var t := ScanEnd(r, addrs, i);
            && t.begin == i < t.end && (t.region.Some? ==> t.end <= |addrs|)
            && SlicedFrom(t, |addrs|, i) <= KeptFrom(rs, cur, addrs, i)
            && (SlicedFrom(t, |addrs|, i) == KeptFrom(rs, cur, addrs, i) <==> NothingBehind(t, rs, addrs))
            && (NothingBehind(t, rs, addrs) ==> t.cur == StateFrom(rs, cur, addrs, i))
  {
    hide KeptFrom, StateFrom, SlicedFrom;
    var t := ScanEnd(r, addrs, i);
    KeepToEnd(rs, r, cur, addrs, i);
    if t.region.Some? {
      NothingKept(rs, addrs, t.end);
      NoSuffix(SlicedFrom(t, |addrs|, i), KeptFrom(rs, None, addrs, t.end));
    }
  }

  /** The scan keeps a part of what the automaton keeps, and all of it if and only if no region
      starts behind the slice; then both carry the same region to the next block. */
  lemma AutomatonAgreesIff(rs: Regions, cur: Option<Region>, addrs: Addrs)
    requires |addrs| < OPEN_END
    ensures var t := Scan(rs, cur, addrs);
            && (t.region.Some? ==> t.begin < t.end <= |addrs|)
            && Sliced(t, |addrs|) <= KeptFrom(rs, cur, addrs, 0)
            && (Sliced(t, |addrs|) == KeptFrom(rs, cur, addrs, 0) <==> NothingBehind(t, rs, addrs))
            && (NothingBehind(t, rs, addrs) ==> t.cur == StateFrom(rs, cur, addrs, 0))
  {
    hide KeptFrom, StateFrom, SlicedFrom, NothingBehind, ScanEnd;
    NothingLeft(rs, cur, addrs);
    if cur.None? {
      var i := FirstStart(rs, addrs, 0);
      SkipToStart(rs, addrs, 0);
      if i < |addrs| {
        ScanEndAgreesIff(rs, Active(rs, cur, addrs[i]).value, cur, addrs, i);
      } else {
        NothingScanned(rs, cur, addrs);
      }
    } else if addrs == [] {
      NothingScanned(rs, cur, addrs);
    } else {
      ScanEndAgreesIff(rs, cur.value, cur, addrs, 0);
    }
  }

  /** An end that the slice reports is at its last instruction. */
  lemma {:induction false} SlicedEnd(t: Trim, n: nat, i: nat, x: Kept)
    requires i <= Min(n, t.end) && x in SlicedFrom(t, n, i) && x.endOf.Some?
    ensures x == Kept(t.end - 1, t.region)
    decreases Min(n, t.end) - i
  {
    if i < Min(n, t.end) && x != Kept(i, if i + 1 == t.end then t.region else None) {
      SlicedEnd(t, n, i + 1, x);
    }
  }

  lemma {:induction false} SlicedLast(t: Trim, n: nat, i: nat)
    requires i < t.end <= n
    ensures Kept(t.end - 1, t.region) in SlicedFrom(t, n, i)
    decreases t.end - i
  {
    if i + 1 == t.end {
    } else {
      SlicedLast(t, n, i + 1);
    }
  }

  /** In terms of the addresses: a region starts behind the slice exactly if one starts in the
      block behind the end of another. */
  lemma NothingBehindIff(rs: Regions, cur: Option<Region>, addrs: Addrs)
    requires |addrs| < OPEN_END
    ensures NothingBehind(Scan(rs, cur, addrs), rs, addrs) <==> NoSecondRegion(rs, cur, addrs, 0, |addrs|)
  {
    hide Scan, KeptFrom, SlicedFrom, IsKept, KeptOn;
    var t, n := Scan(rs, cur, addrs), |addrs|;
    AutomatonAgreesIff(rs, cur, addrs);
    AutomatonKeeps(rs, cur, addrs);
    if NothingBehind(t, rs, addrs) {
      forall p: nat, q: nat, r: Region | p < q < n && IsKept(rs, cur, addrs, p, Some(r))
        ensures !(addrs[q].Some? && addrs[q].value in rs)
      {
        KeptIsThere(rs, cur, addrs, 0, n, p, Some(r));
        SlicedEnd(t, n, t.begin, Kept(p, Some(r)));
      }
    }
    if NoSecondRegion(rs, cur, addrs, 0, n) && t.region.Some? {
      SlicedLast(t, n, t.begin);
      OnlyKeptIsThere(rs, cur, addrs, 0, n, Kept(t.end - 1, t.region));
      assert IsKept(rs, cur, addrs, t.end - 1, Some(t.region.value));
    }
  }

  /** The scan keeps exactly the instructions that belong to a region if and only if no second
      region starts in the block; and then it carries the open region to the next block. */
  lemma ScanAgreesIff(rs: Regions, cur: Option<Region>, addrs: Addrs)
    requires |addrs| < OPEN_END
    ensures var t := Scan(rs, cur, addrs);
            && (t.region.Some? ==> t.begin < t.end <= |addrs|)
            && (Sliced(t, |addrs|) == KeptOn(rs, cur, addrs, 0, |addrs|) <==> NoSecondRegion(rs, cur, addrs, 0, |addrs|))
            && (NoSecondRegion(rs, cur, addrs, 0, |addrs|) ==>
                  forall r: Region :: t.cur == Some(r) <==> IsOpen(rs, cur, addrs, |addrs|, r))
  {
    hide Scan, KeptFrom, StateFrom, Sliced, KeptOn, IsOpen, NoSecondRegion, NothingBehind;
    AutomatonAgreesIff(rs, cur, addrs);
    AutomatonKeeps(rs, cur, addrs);
    NothingBehindIff(rs, cur, addrs);
    forall r: Region ensures StateFrom(rs, cur, addrs, 0) == Some(r) <==> IsOpen(rs, cur, addrs, |addrs|, r) {
      OpenIffActive(rs, cur, addrs, |addrs|, r);
    }
  }

  lemma NothingScanned(rs: Regions, cur: Option<Region>, addrs: Addrs)
    requires |addrs| < OPEN_END && if cur.Some? then addrs == [] else FirstStart(rs, addrs, 0) == |addrs|
    ensures var t := Scan(rs, cur, addrs);
            t.region.None? && Sliced(t, |addrs|) == [] && t.cur == cur && NothingBehind(t, rs, addrs)
  {
  }

  lemma NothingLeft(rs: Regions, cur: Option<Region>, addrs: Addrs)
    ensures KeptFrom(rs, cur, addrs, |addrs|) == [] && StateFrom(rs, cur, addrs, |addrs|) == cur
  {
  }

  lemma NoSuffix<T>(a: seq<T>, b: seq<T>)
    ensures a == a + b <==> b == []
  {
    assert |a + b| == |a| + |b|;
    if b == [] { assert a + [] == a; }
  }

  // ---------------------------------------------------------------------------
  // Agreement over all executed blocks
  // ---------------------------------------------------------------------------

  /** The addresses of all executed blocks, as one stream. */
  function Stream(blocks: seq<Addrs>): Addrs {
    if blocks == [] then [] else Stream(blocks[..|blocks| - 1]) + blocks[|blocks| - 1]
  }

  /** What belongs to the regions in the stream, each block's share by itself. */
  ghost function KeptInRun(rs: Regions, blocks: seq<Addrs>): (kept: seq<seq<Kept>>)
    ensures |kept| == |blocks|
  {
    if blocks == [] then [] else
      var n := |blocks| - 1;
      KeptInRun(rs, blocks[..n]) + [KeptOn(rs, None, Stream(blocks), |Stream(blocks[..n])|, |blocks[n]|)]
  }

  /** No executed block enters a second region. */
  ghost predicate OneRegionEach(rs: Regions, blocks: seq<Addrs>) {
    blocks == [] ||
    var n := |blocks| - 1;
    && OneRegionEach(rs, blocks[..n])
    && NoSecondRegion(rs, None, Stream(blocks), |Stream(blocks[..n])|, |blocks[n]|)
  }

  /** The region that the scan carries out of the blocks executed so far. */
  function CarriedAfter(rs: Regions, blocks: seq<Addrs>): Option<Region> {
    if blocks == [] then None else
      var n := |blocks| - 1;
      Scan(rs, CarriedAfter(rs, blocks[..n]), blocks[n]).cur
  }

  /** What the scan slices out of the blocks executed so far. */
  function SlicedInRun(rs: Regions, blocks: seq<Addrs>): (kept: seq<seq<Kept>>)
    requires forall b | b in blocks :: |b| < OPEN_END
    ensures |kept| == |blocks|
  {
    if blocks == [] then [] else
      var n := |blocks| - 1;
      SlicedInRun(rs, blocks[..n]) + [Sliced(Scan(rs, CarriedAfter(rs, blocks[..n]), blocks[n]), |blocks[n]|)]
  }

  /** The region that the automaton carries out of them. */
  ghost function ActiveAfter(rs: Regions, blocks: seq<Addrs>): Option<Region> {
    StateAt(rs, None, Stream(blocks), |Stream(blocks)|)
  }

  lemma StreamUnfold(rs: Regions, blocks: seq<Addrs>)
    requires blocks != []
    ensures var n := |blocks| - 1;
            var before := Stream(blocks[..n]);
            && Stream(blocks) == before + blocks[n]
            && KeptInRun(rs, blocks)
               == KeptInRun(rs, blocks[..n]) + [KeptOn(rs, None, before + blocks[n], |before|, |blocks[n]|)]
            && (OneRegionEach(rs, blocks) <==>
                  OneRegionEach(rs, blocks[..n]) && NoSecondRegion(rs, None, before + blocks[n], |before|, |blocks[n]|))
  {
    hide KeptOn, NoSecondRegion;
  }

  /** The last block, by itself. */
  lemma LastBlock(rs: Regions, blocks: seq<Addrs>)
    requires blocks != []
    ensures var n := |blocks| - 1;
            var cur := ActiveAfter(rs, blocks[..n]);
            && KeptInRun(rs, blocks) == KeptInRun(rs, blocks[..n]) + [KeptOn(rs, cur, blocks[n], 0, |blocks[n]|)]
            && (OneRegionEach(rs, blocks) <==>
                  OneRegionEach(rs, blocks[..n]) && NoSecondRegion(rs, cur, blocks[n], 0, |blocks[n]|))
            && ActiveAfter(rs, blocks) == StateAt(rs, cur, blocks[n], |blocks[n]|)
  {
    hide KeptOn, NoSecondRegion, StateAt, Stream, KeptInRun, OneRegionEach;
    var n := |blocks| - 1;
    StreamUnfold(rs, blocks);
    KeptOfStream(rs, None, Stream(blocks[..n]), blocks[n], |blocks[n]|);
    SecondOfStream(rs, None, Stream(blocks[..n]), blocks[n]);
    StateOfStream(rs, None, Stream(blocks[..n]), blocks[n], |blocks[n]|);
  }

  lemma RunUnfold(rs: Regions, blocks: seq<Addrs>)
    requires blocks != [] && forall b | b in blocks :: |b| < OPEN_END
    ensures var n := |blocks| - 1;
            var t := Scan(rs, CarriedAfter(rs, blocks[..n]), blocks[n]);
            && (forall b | b in blocks[..n] :: |b| < OPEN_END) && |blocks[n]| < OPEN_END
            && SlicedInRun(rs, blocks) == SlicedInRun(rs, blocks[..n]) + [Sliced(t, |blocks[n]|)]
            && CarriedAfter(rs, blocks) == t.cur
  {
    hide Scan, Sliced;
  }

  /** Where a block's share is what the scan slices, the carried region is the automaton's. */
  lemma SameCarried(rs: Regions, cur: Option<Region>, addrs: Addrs)
    requires |addrs| < OPEN_END && NoSecondRegion(rs, cur, addrs, 0, |addrs|)
    ensures Scan(rs, cur, addrs).cur == StateAt(rs, cur, addrs, |addrs|)
  {
    hide Scan, IsOpen, NoSecondRegion, StateAt, Sliced, KeptOn;
    ScanAgreesIff(rs, cur, addrs);
    var a, b := Scan(rs, cur, addrs).cur, StateAt(rs, cur, addrs, |addrs|);
    forall r: Region ensures a == Some(r) <==> b == Some(r) { OpenIffActive(rs, cur, addrs, |addrs|, r); }
    if a.Some? { assert a == Some(a.value); } else if b.Some? { assert b == Some(b.value); }
  }

  /** The slices of all executed blocks are exactly the instructions of the stream that belong to
      a region if and only if no block enters a second region. */
  lemma {:induction false} RunAgreesIff(rs: Regions, blocks: seq<Addrs>)
    requires forall b | b in blocks :: |b| < OPEN_END
    ensures SlicedInRun(rs, blocks) == KeptInRun(rs, blocks) <==> OneRegionEach(rs, blocks)
    ensures OneRegionEach(rs, blocks) ==> CarriedAfter(rs, blocks) == ActiveAfter(rs, blocks)
  {
    if blocks == [] {
    } else {
      hide Scan, Sliced, KeptOn, StateAt, NoSecondRegion, IsOpen;
      hide SlicedInRun, KeptInRun, OneRegionEach, CarriedAfter, ActiveAfter;
      var n := |blocks| - 1;
      RunUnfold(rs, blocks);
      LastBlock(rs, blocks);
      RunAgreesIff(rs, blocks[..n]);
      ScanAgreesIff(rs, CarriedAfter(rs, blocks[..n]), blocks[n]);
      if OneRegionEach(rs, blocks) { SameCarried(rs, CarriedAfter(rs, blocks[..n]), blocks[n]); }
      SameEnds(SlicedInRun(rs, blocks[..n]), Sliced(Scan(rs, CarriedAfter(rs, blocks[..n]), blocks[n]), |blocks[n]|),
               KeptInRun(rs, blocks[..n]), KeptOn(rs, ActiveAfter(rs, blocks[..n]), blocks[n], 0, |blocks[n]|));
    }
  }

  lemma SameEnds<T>(a: seq<T>, x: T, b: seq<T>, y: T)
    requires |a| == |b|
    ensures a + [x] == b + [y] <==> a == b && x == y
  {
    if a + [x] == b + [y] {
      assert a == (a + [x])[..|a|] == (b + [y])[..|b|] == b;
      assert x == (a + [x])[|a|] == (b + [y])[|b|] == y;
    }
  }

  // ---------------------------------------------------------------------------
  // From a trim to an enqueued slice
  // ---------------------------------------------------------------------------

  function DescriptionOf(r: Option<Region>): Option<string> {
    if r.None? then None else Some(r.value.description)
  }

  /** The slice that is enqueued for a trim that is not empty. */
  function SliceOf<A>(block: nat, t: Trim, accesses: seq<Entry<A>>): Slice<A> {
    Slice(block, t.begin, t.end, DescriptionOf(t.region), accesses)
  }

  lemma TrimGivesOkSlice<A>(rs: Regions, cur: Option<Region>, addrs: Addrs, sizes: seq<nat>, block: nat, accesses: seq<Entry<A>>)
    requires block < |sizes| && sizes[block] == |addrs| < OPEN_END
    requires var t := Scan(rs, cur, addrs); t.begin != t.end && Sorted(accesses) && forall e | e in accesses :: e.inst >= t.begin
    ensures SliceOk(sizes, SliceOf(block, Scan(rs, cur, addrs), accesses))
  {
    ScanAgreesIff(rs, cur, addrs);
  }

  /** The enqueued slice stands for the kept instructions, and reports the region's end with
      the same one. */
  lemma {:induction false} SliceItemsAreKept<A>(sizes: seq<nat>, block: nat, t: Trim, accesses: seq<Entry<A>>, i: nat, k: nat)
    requires block < |sizes| && i <= Min(sizes[block], t.end)
    requires t.region.Some? ==> t.end <= sizes[block]
    ensures |ItemsFrom(sizes, SliceOf(block, t, accesses), i)| == |SlicedFrom(t, sizes[block], i)|
    ensures k < |SlicedFrom(t, sizes[block], i)| ==>
              var item, kept := ItemsFrom(sizes, SliceOf(block, t, accesses), i)[k], SlicedFrom(t, sizes[block], i)[k];
              item.block == block && item.inst == kept.inst && item.endOf == DescriptionOf(kept.endOf)
    decreases Min(sizes[block], t.end) - i
  {
    if i == Min(sizes[block], t.end) {
    } else {
      SliceItemsAreKept(sizes, block, t, accesses, i + 1, if k > 0 then k - 1 else 0);
    }
  }

  // ---------------------------------------------------------------------------
  // The broker's side
  // ---------------------------------------------------------------------------

  /** Addresses of a block's instructions relative to the code's start, from their offsets. */
  function Addresses(codeStart: nat, vAddr: nat, offsets: seq<nat>): (r: Addrs)
    ensures |r| == |offsets|
    ensures forall i | 0 <= i < |offsets| ::
              r[i] == if vAddr >= codeStart then Some(vAddr - codeStart + offsets[i]) else None
  {
    seq(|offsets|, i requires 0 <= i < |offsets| => if vAddr >= codeStart then Some(vAddr - codeStart + offsets[i]) else None)
  }

  class BlockTrimmer {
    const regions: Regions
    const codeStartAddress: nat
    var curBinRegion: Option<Region>

    constructor (regions: Regions, codeStartAddress: nat)
      ensures this.regions == regions && this.codeStartAddress == codeStartAddress && curBinRegion == None
    {
      this.regions, this.codeStartAddress, curBinRegion := regions, codeStartAddress, None;
    }

    /** Watches for the first instruction that starts a region. */
    method FindStart(vAddr: nat, vAddrOffsets: seq<nat>) returns (i: nat)
      requires vAddr >= codeStartAddress && curBinRegion == None
      modifies `curBinRegion
      ensures i == FirstStart(regions, Addresses(codeStartAddress, vAddr, vAddrOffsets), 0) <= |vAddrOffsets|
      ensures forall j: nat | j < i :: vAddr - codeStartAddress + vAddrOffsets[j] !in regions
      ensures if i == |vAddrOffsets| then curBinRegion == None
              else var addr := vAddr - codeStartAddress + vAddrOffsets[i]; addr in regions && curBinRegion == Some(regions[addr])
    {
      ghost var addrs := Addresses(codeStartAddress, vAddr, vAddrOffsets);
      var va := vAddr - codeStartAddress;
      i := 0;
      while i < |vAddrOffsets|
        invariant i <= |vAddrOffsets| && curBinRegion == None
        invariant FirstStart(regions, addrs, i) == FirstStart(regions, addrs, 0)
      {
        if va + vAddrOffsets[i] in regions {
          curBinRegion := Some(regions[va + vAddrOffsets[i]]);
          break;
        }
        i := i + 1;
      }
    }

    /** Watches for the first instruction at the region's end address. */
    method FindEnd(r: Region, vAddr: nat, vAddrOffsets: seq<nat>, start: nat) returns (i: nat)
      requires vAddr >= codeStartAddress && start <= |vAddrOffsets|
      ensures i == FirstEnd(r, Addresses(codeStartAddress, vAddr, vAddrOffsets), start) && start <= i <= |vAddrOffsets|
      ensures forall j: nat | start <= j < i :: vAddr - codeStartAddress + vAddrOffsets[j] != r.endAddr
      ensures i < |vAddrOffsets| ==> vAddr - codeStartAddress + vAddrOffsets[i] == r.endAddr
    {
      ghost var addrs := Addresses(codeStartAddress, vAddr, vAddrOffsets);
      var va := vAddr - codeStartAddress;
      i := start;
      while i < |vAddrOffsets|
        invariant start <= i <= |vAddrOffsets|
        invariant FirstEnd(r, addrs, i) == FirstEnd(r, addrs, start)
      {
        if r.endAddr == va + vAddrOffsets[i] { break; }
        i := i + 1;
      }
    }

    /** The scan of an executed block in trimming mode, on the stored one-byte offsets. */
    method HandleBinaryRegions(vAddr: nat, vAddrOffsets: seq<nat>)
      returns (beginIdx: nat, endIdx: nat, region: Option<Region>)
      modifies `curBinRegion
      ensures Trim(beginIdx, endIdx, region, curBinRegion)
           == Scan(regions, old(curBinRegion), Addresses(codeStartAddress, vAddr, vAddrOffsets))
    {
      beginIdx, endIdx, region := 0, OPEN_END, None;
      ghost var addrs := Addresses(codeStartAddress, vAddr, vAddrOffsets);
      var i, s := 0, |vAddrOffsets|;
      if curBinRegion.None? {
        // only the instructions of a region are of interest
        beginIdx := endIdx;
        if vAddr >= codeStartAddress {
          i := FindStart(vAddr, vAddrOffsets);
          if i != s { beginIdx := i; }
        } else {
          NoStartBelow(regions, addrs, 0);
        }
      }
      if curBinRegion.Some? && vAddr >= codeStartAddress {
        i := FindEnd(curBinRegion.value, vAddr, vAddrOffsets, i);
        if i != s {
          endIdx := i + 1;
          region := curBinRegion;
          curBinRegion := None;
        }
      } else if curBinRegion.Some? {
        NoEndBelow(curBinRegion.value, addrs, 0);
      }
    }
  }

  lemma {:induction false} NoStartBelow(rs: Regions, addrs: Addrs, i: nat)
    requires i <= |addrs| && forall j: nat | j < |addrs| :: addrs[j] == None
    ensures FirstStart(rs, addrs, i) == |addrs|
    decreases |addrs| - i
  {
    if i == |addrs| {
    } else {
      NoStartBelow(rs, addrs, i + 1);
    }
  }

  lemma {:induction false} NoEndBelow(r: Region, addrs: Addrs, i: nat)
    requires i <= |addrs| && forall j: nat | j < |addrs| :: addrs[j] == None
    ensures FirstEnd(r, addrs, i) == |addrs|
    decreases |addrs| - i
  {
    if i == |addrs| {
    } else {
      NoEndBelow(r, addrs, i + 1);
    }
  }

  /** The scan sees the true addresses of a block if and only if all its instructions begin in
      its first 256 bytes, or it lies below the code, where no addresses are known. */
  lemma AddressesAreTrueIff(codeStart: nat, vAddr: nat, places: seq<nat>, offsets: seq<nat>)
    requires |places| == |offsets| && forall k: nat | k < |places| :: offsets[k] == places[k] % 256
    ensures Addresses(codeStart, vAddr, offsets) == Addresses(codeStart, vAddr, places)
       <==> vAddr < codeStart || forall k: nat | k < |places| :: places[k] < 256
  {
    var a, b := Addresses(codeStart, vAddr, offsets), Addresses(codeStart, vAddr, places);
    if a == b && vAddr >= codeStart {
      forall k: nat | k < |places| ensures places[k] < 256 { assert a[k] == b[k]; }
    } else if vAddr < codeStart || forall k: nat | k < |places| :: places[k] < 256 {
      assert forall k: nat | k < |places| :: a[k] == b[k];
    }
  }
}
