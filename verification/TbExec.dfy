/** What the broker does with a message about an executed block: trim it, collect its memory
accesses, and enqueue the slice. */
module TbExec {
  import opened Wrappers
  import opened TraceQueue
  import opened AccessChains
  import opened RegionSpec
  import opened RegionTrim
  import TB = TranslationBlocks
  import TraceBroker

  /** A translated block, as it is needed here, and the raw instructions it was translated from. */
  datatype Block = Block(raws: seq<TB.Raw>, vAddr: nat, vAddrOffsets: seq<nat>, skewIndicies: map<nat, nat>)

  datatype Message = EndSignal | Executed(index: nat, accesses: seq<Reported>)

  function SkewOf(b: Block): nat -> nat { (r: nat) => TB.Lookup(b.skewIndicies, r) }

  /** What translating a block leaves. */
  ghost predicate Translated(b: Block) {
    && TB.MapOk(b.raws, b.skewIndicies)
    && |b.vAddrOffsets| == TB.Before(b.raws, |b.raws|)
    && forall k: nat | k < |b.vAddrOffsets| :: b.vAddrOffsets[k] == TB.AllPlaces(b.raws, |b.raws|)[k] % 256
  }

  /** Translates a block that is executed for the first time. */
  method Translate(raws: seq<TB.Raw>, pc: nat) returns (b: Block)
    ensures Translated(b) && b.raws == raws && b.vAddr == pc
  {
    var tb := new TB.TranslationBlock(raws, pc);
    tb.Disassemble();
    b := Block(raws, pc, tb.vAddrOffsets, tb.skewIndicies);
  }

  /** The blocks are those whose sizes the broker knows, and each fits the 16-bit indices. */
  ghost predicate BlocksOk(blocks: seq<Block>, sizes: seq<nat>) {
    && |blocks| == |sizes|
    && forall k: nat | k < |blocks| :: Translated(blocks[k]) && |blocks[k].vAddrOffsets| == sizes[k] < 0xffff
  }

  /** Accesses of raw instructions of the block, reported in the order of these. */
  ghost predicate ReportOk(b: Block, rs: seq<Reported>) {
    && (forall k: nat | k < |rs| :: rs[k].raw < |b.raws|)
    && (forall i: nat, j: nat | i < j < |rs| :: rs[i].raw <= rs[j].raw)
  }

  /** Then they are in the order of machine instructions, as the chain has to be. */
  lemma ReportIsInOrder(b: Block, rs: seq<Reported>)
    requires Translated(b) && ReportOk(b, rs)
    ensures InOrder(rs, SkewOf(b))
  {
    forall i: nat, j: nat | i < j < |rs| ensures SkewOf(b)(rs[i].raw) <= SkewOf(b)(rs[j].raw) {
      TB.LookupIncreases(b.raws, b.skewIndicies, rs[i].raw, rs[j].raw);
    }
  }

  /** The trim of a block: by the regions, or all of it if there are none. */
  function TrimOf(trimming: bool, rs: Regions, cur: Option<Region>, codeStart: nat, b: Block): Trim {
    if trimming then Scan(rs, cur, Addresses(codeStart, b.vAddr, b.vAddrOffsets)) else Trim(0, OPEN_END, None, cur)
  }

  /** The slice that a message leads to, if it leads to one. */
  function SliceFor(t: Trim, index: nat, b: Block, withAccesses: bool, rs: seq<Reported>): Option<Slice<Bundle>> {
    if t.begin == t.end then None
    else Some(SliceOf(index, t, if withAccesses then ChainOf(rs, SkewOf(b), t.begin, t.end) else []))
  }

  /** The translated blocks, and how the broker is set up. */
  datatype Setup = Setup(blocks: seq<Block>, trimming: bool, regions: Regions, codeStart: nat, withAccesses: bool)

  /** The message says that a known block has been executed. */
  predicate Runs(st: Setup, m: Message) {
    m.Executed? && m.index < |st.blocks|
  }

  function TrimFor(st: Setup, cur: Option<Region>, m: Message): Trim
    requires Runs(st, m)
  {
    TrimOf(st.trimming, st.regions, cur, st.codeStart, st.blocks[m.index])
  }

  function SliceOfMessage(st: Setup, cur: Option<Region>, m: Message): Option<Slice<Bundle>>
    requires Runs(st, m)
  {
    SliceFor(TrimFor(st, cur, m), m.index, st.blocks[m.index], st.withAccesses, m.accesses)
  }

  /** What a message means to the queue. */
  function MessageStep(st: Setup, cur: Option<Region>, m: Message): (step: seq<TraceBroker.Event<Bundle>>)
    ensures |step| <= 1
  {
    if m.EndSignal? then [TraceBroker.EndOfStream]
    else if !Runs(st, m) then []
    else
      var s := SliceOfMessage(st, cur, m);
      if s.Some? then [TraceBroker.Enqueue(s.value)] else []
  }

  lemma SliceForIsOk(trimming: bool, rs: Regions, cur: Option<Region>, codeStart: nat, blocks: seq<Block>, sizes: seq<nat>,
                     index: nat, withAccesses: bool, accesses: seq<Reported>)
    requires BlocksOk(blocks, sizes) && index < |blocks|
    ensures var s := SliceFor(TrimOf(trimming, rs, cur, codeStart, blocks[index]), index, blocks[index], withAccesses, accesses);
            s.Some? ==> && s.value.block < |sizes| && s.value.begin <= s.value.end
                        && (InOrder(accesses, SkewOf(blocks[index])) ==> SliceOk(sizes, s.value))
  {
    hide Scan, ChainOf, InOrder, Translated;
    var b := blocks[index];
    var t := TrimOf(trimming, rs, cur, codeStart, b);
    assert sizes[index] == |b.vAddrOffsets| < OPEN_END;
    hide BlocksOk;
    var chain := if withAccesses then ChainOf(accesses, SkewOf(b), t.begin, t.end) else [];
    if trimming && t.begin != t.end {
      TrimGivesOkSlice<Bundle>(rs, cur, Addresses(codeStart, b.vAddr, b.vAddrOffsets), sizes, index, []);
    }
    if InOrder(accesses, SkewOf(b)) {
      ChainIsSorted(accesses, SkewOf(b), t.begin, t.end);
      if trimming && t.begin != t.end {
        TrimGivesOkSlice(rs, cur, Addresses(codeStart, b.vAddr, b.vAddrOffsets), sizes, index, chain);
      }
    }
  }

  /** Handles one message. */
  method TbExec(trimmer: BlockTrimmer, broker: TraceBroker.QemuBroker<Bundle>, blocks: seq<Block>,
                trimming: bool, enableMemAccessMD: bool, m: Message)
    requires Readable(broker.sizes, broker.tbQueue) && BlocksOk(blocks, broker.sizes)
    modifies trimmer`curBinRegion, broker`tbQueue, broker`isEndOfStream
    ensures Readable(broker.sizes, broker.tbQueue)
    // with accesses in the order of machine instructions a queue in order stays in order
    ensures old(broker.Valid()) && (m.Executed? && m.index < |blocks| ==> InOrder(m.accesses, SkewOf(blocks[m.index])))
            ==> broker.Valid()
    ensures m.EndSignal? ==> broker.isEndOfStream && broker.tbQueue == old(broker.tbQueue)
                             && trimmer.curBinRegion == old(trimmer.curBinRegion)
    // an unknown block is reported and skipped
    ensures m.Executed? && m.index >= |blocks| ==>
              broker.tbQueue == old(broker.tbQueue) && trimmer.curBinRegion == old(trimmer.curBinRegion)
    ensures m.Executed? ==> broker.isEndOfStream == old(broker.isEndOfStream)
    ensures m.Executed? && m.index < |blocks| ==>
              var t := TrimOf(trimming, trimmer.regions, old(trimmer.curBinRegion), trimmer.codeStartAddress, blocks[m.index]);
              var s := SliceFor(t, m.index, blocks[m.index], enableMemAccessMD, m.accesses);
              && trimmer.curBinRegion == t.cur
              && broker.tbQueue == old(broker.tbQueue) + (if s.Some? then [s.value] else [])
    // in other words, it takes the step that the message means
    ensures var st := Setup(blocks, trimming, trimmer.regions, trimmer.codeStartAddress, enableMemAccessMD);
            var step := MessageStep(st, old(trimmer.curBinRegion), m);
            && broker.tbQueue == old(broker.tbQueue) + (if step != [] && step[0].Enqueue? then [step[0].s] else [])
            && broker.isEndOfStream == (old(broker.isEndOfStream) || step == [TraceBroker.EndOfStream])
  {
    hide Scan, ChainOf, InOrder, SliceOk, QueueOk, Translated;
    if m.EndSignal? {
      broker.isEndOfStream := true;
      return;
    }
    if m.index >= |blocks| { return; }
    var b := blocks[m.index];
    var beginIdx, endIdx, region := 0, OPEN_END, None;
    if trimming {
      beginIdx, endIdx, region := trimmer.HandleBinaryRegions(b.vAddr, b.vAddrOffsets);
    }
    if beginIdx == endIdx { return; }
    var memAccesses: Chain := [];
    if enableMemAccessMD {
      memAccesses := BuildChain(m.accesses, SkewOf(b), beginIdx, endIdx);
    }
    SliceForIsOk(trimming, trimmer.regions, old(trimmer.curBinRegion), trimmer.codeStartAddress, blocks, broker.sizes,
                 m.index, enableMemAccessMD, m.accesses);
    var description := DescriptionOf(region);
    broker.EnqueueSlice(Slice(m.index, beginIdx, endIdx, description, memAccesses));
  }
}
