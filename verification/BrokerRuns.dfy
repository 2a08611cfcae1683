/** The broker from the messages it receives to the batches it delivers. */
module BrokerRuns {
  import opened Wrappers
  import opened TraceQueue
  import opened AccessChains
  import opened RegionSpec
  import opened RegionTrim
  import opened TbExec
  import TB = TranslationBlocks
  import B = TraceBroker

  datatype Event = Receive(m: Message) | Fetch(room: nat)

  function SizesOf(blocks: seq<Block>): (r: seq<nat>)
    ensures |r| == |blocks| && forall k: nat | k < |blocks| :: r[k] == |blocks[k].vAddrOffsets|
  {
    seq(|blocks|, k requires 0 <= k < |blocks| => |blocks[k].vAddrOffsets|)
  }

  /** The region that is active after some events. */
  function Cur(st: Setup, evs: seq<Event>): Option<Region> {
    if evs == [] then None else
      var k := |evs| - 1;
      if evs[k].Receive? && Runs(st, evs[k].m) then TrimFor(st, Cur(st, evs[..k]), evs[k].m).cur else Cur(st, evs[..k])
  }

  /** What an event means to the queue. */
  function StepOf(st: Setup, cur: Option<Region>, e: Event): seq<B.Event<Bundle>> {
    match e
    case Fetch(room) => [B.Event.Fetch(room)]
    case Receive(m) => MessageStep(st, cur, m)
  }

  function Steps(st: Setup, evs: seq<Event>): seq<B.Event<Bundle>> {
    if evs == [] then [] else
      var k := |evs| - 1;
      Steps(st, evs[..k]) + StepOf(st, Cur(st, evs[..k]), evs[k])
  }

  ghost predicate MessageOk(st: Setup, m: Message) {
    Runs(st, m) ==> InOrder(m.accesses, SkewOf(st.blocks[m.index]))
  }

  /** Messages with accesses in order, and fetches, in any interleaving in which no slice is
      cut behind the end of its block. */
  ghost predicate IsRun(st: Setup, evs: seq<Event>) {
    && BlocksOk(st.blocks, SizesOf(st.blocks))
    && (forall e | e in evs && e.Receive? :: MessageOk(st, e.m))
    && B.IsRun(SizesOf(st.blocks), Steps(st, evs))
  }

  lemma StepIsRun(st: Setup, evs: seq<Event>)
    requires IsRun(st, evs) && evs != []
    ensures var k := |evs| - 1; IsRun(st, evs[..k]) && (evs[k].Receive? ==> MessageOk(st, evs[k].m))
    ensures |StepOf(st, Cur(st, evs[..|evs| - 1]), evs[|evs| - 1])| <= 1
  {
    hide B.IsRun, B.Enabled, SliceFor, TrimOf, BlocksOk, MessageOk;
    var k := |evs| - 1;
    assert evs[k] in evs && forall e | e in evs[..k] :: e in evs;
    var a, b := Steps(st, evs[..k]), StepOf(st, Cur(st, evs[..k]), evs[k]);
    ShorterRun(SizesOf(st.blocks), a, b);
  }

  lemma ShorterRun(sizes: seq<nat>, a: seq<B.Event<Bundle>>, b: seq<B.Event<Bundle>>)
    requires B.IsRun(sizes, a + b) && |b| <= 1
    ensures B.IsRun(sizes, a)
  {
    if b == [] { assert a + b == a; } else { assert (a + b)[..|a|] == a; }
  }

  /** Whatever is reported, what a message leads to can be enqueued. */
  lemma MessagesAreAccepted(st: Setup, evs: seq<Event>, m: Message)
    requires IsRun(st, evs) && MessageOk(st, m)
    ensures IsRun(st, evs + [Receive(m)])
  {
    hide B.Enabled, SliceFor, TrimOf, SliceOk, Stop;
    var sizes, cur, evs' := SizesOf(st.blocks), Cur(st, evs), evs + [Receive(m)];
    assert evs'[..|evs|] == evs;
    B.RunConserves(sizes, Steps(st, evs));
    if Runs(st, m) && SliceOfMessage(st, cur, m).Some? {
      SliceForIsOk(st.trimming, st.regions, cur, st.codeStart, st.blocks, sizes, m.index, st.withAccesses, m.accesses);
      MayEnqueue(sizes, Steps(st, evs), SliceOfMessage(st, cur, m).value);
    } else if m.EndSignal? {
      MayEnd(sizes, Steps(st, evs));
    } else {
      assert Steps(st, evs') == Steps(st, evs);
    }
  }

  lemma MayEnqueue(sizes: seq<nat>, ev: seq<B.Event<Bundle>>, s: Slice<Bundle>)
    requires B.IsRun(sizes, ev) && SliceOk(sizes, s)
    ensures B.IsRun(sizes, ev + [B.Enqueue(s)])
  {
    B.RunConserves(sizes, ev);
    assert (ev + [B.Enqueue(s)])[..|ev|] == ev;
  }

  lemma MayEnd(sizes: seq<nat>, ev: seq<B.Event<Bundle>>)
    requires B.IsRun(sizes, ev)
    ensures B.IsRun(sizes, ev + [B.EndOfStream])
  {
    B.RunConserves(sizes, ev);
    assert (ev + [B.EndOfStream])[..|ev|] == ev;
  }

  // ---------------------------------------------------------------------------
  // Accesses
  // ---------------------------------------------------------------------------

  /** A single access, and the block and machine instruction that it is attached to. */
  datatype Placed = Placed(block: nat, inst: nat, access: Access)

  function Put(block: nat, xs: seq<(nat, Access)>): (r: seq<Placed>)
    ensures |r| == |xs| && forall k: nat | k < |xs| :: r[k] == Placed(block, xs[k].0, xs[k].1)
  {
    seq(|xs|, k requires 0 <= k < |xs| => Placed(block, xs[k].0, xs[k].1))
  }

  /** The single accesses of filed bundles. */
  function Spread(es: seq<(nat, Entry<Bundle>)>): seq<Placed> {
    if es == [] then [] else
      Put(es[0].0, AccessChains.Tagged(es[0].1.inst, AccessesOf(es[0].1.access))) + Spread(es[1..])
  }

  lemma {:induction false} SpreadAppend(a: seq<(nat, Entry<Bundle>)>, b: seq<(nat, Entry<Bundle>)>)
    ensures Spread(a + b) == Spread(a) + Spread(b)
  {
    if a == [] {
      assert a + b == b;
    } else {
      SpreadAppend(a[1..], b);
      assert (a + b)[1..] == a[1..] + b && (a + b)[0] == a[0];
    }
  }

  lemma SpreadOne(block: nat, e: Entry<Bundle>)
    ensures Spread([(block, e)]) == Put(block, AccessChains.Tagged(e.inst, AccessesOf(e.access))) != []
  {
    assert [(block, e)][1..] == [];
  }

  lemma {:induction false} SpreadIsExpanded(block: nat, chain: Chain)
    ensures Spread(TraceQueue.Tagged(block, chain)) == Put(block, Expanded(chain))
  {
    hide Spread, Put;
    if chain == [] {
      SpreadNothing(block);
    } else {
      var n := |chain| - 1;
      SpreadIsExpanded(block, chain[..n]);
      assert TraceQueue.Tagged(block, chain) == TraceQueue.Tagged(block, chain[..n]) + [(block, chain[n])];
      SpreadAppend(TraceQueue.Tagged(block, chain[..n]), [(block, chain[n])]);
      SpreadOne(block, chain[n]);
    }
  }

  lemma SpreadNothing(block: nat)
    ensures Spread(TraceQueue.Tagged(block, [])) == [] == Put(block, Expanded([]))
  {
  }

  /** The accesses of a message that lie within the bounds of the slice it leads to. */
  function RetainedOf(st: Setup, cur: Option<Region>, e: Event): seq<Placed> {
    if e.Receive? && e.m.Executed? && e.m.index < |st.blocks| && st.withAccesses then
      var t := TrimFor(st, cur, e.m);
      if t.begin == t.end then [] else Put(e.m.index, Retained(e.m.accesses, SkewOf(st.blocks[e.m.index]), t.begin, t.end))
    else []
  }

  function AllRetained(st: Setup, evs: seq<Event>): seq<Placed> {
    if evs == [] then [] else
      var k := |evs| - 1;
      AllRetained(st, evs[..k]) + RetainedOf(st, Cur(st, evs[..k]), evs[k])
  }

  /** Every reported access within the bounds of its slice is of an instruction of its block. */
  ghost predicate InBlock(st: Setup, cur: Option<Region>, e: Event) {
    e.Receive? && Runs(st, e.m) && SliceOfMessage(st, cur, e.m).Some? && st.withAccesses ==>
      var b, t := st.blocks[e.m.index], TrimFor(st, cur, e.m);
      forall k: nat | k < |e.m.accesses| && t.begin <= SkewOf(b)(e.m.accesses[k].raw) < t.end ::
        SkewOf(b)(e.m.accesses[k].raw) < |b.vAddrOffsets|
  }

  ghost predicate AllInBlock(st: Setup, evs: seq<Event>) {
    evs == [] || (AllInBlock(st, evs[..|evs| - 1]) && InBlock(st, Cur(st, evs[..|evs| - 1]), evs[|evs| - 1]))
  }

  /** The filed accesses, one by one. */
  ghost function FiledAccesses(st: Setup, evs: seq<Event>): seq<Placed>
    requires IsRun(st, evs)
  {
    Spread(B.Filed(SizesOf(st.blocks), Steps(st, evs)))
  }

  lemma {:induction false} ChainBelowIff(rs: seq<Reported>, skew: nat -> nat, begin: nat, end: nat, stop: nat)
    ensures (forall e | e in ChainOf(rs, skew, begin, end) :: e.inst < stop)
       <==> forall k: nat | k < |rs| && begin <= skew(rs[k].raw) < end :: skew(rs[k].raw) < stop
  {
    if rs == [] {
    } else {
      var n := |rs| - 1;
      ChainBelowIff(rs[..n], skew, begin, end, stop);
      assert forall k: nat | k < n :: rs[..n][k] == rs[k];
      if begin <= skew(rs[n].raw) < end {
        AddBelowIff(ChainOf(rs[..n], skew, begin, end), skew(rs[n].raw), rs[n].access, stop);
      }
    }
  }

  lemma AddBelowIff(chain: Chain, i: nat, a: Access, stop: nat)
    ensures (forall e | e in AddAccess(chain, i, a) :: e.inst < stop) <==> (forall e | e in chain :: e.inst < stop) && i < stop
  {
    var chain', n := AddAccess(chain, i, a), |chain|;
    assert chain' != [] && chain'[|chain'| - 1].inst == i && chain'[|chain'| - 1] in chain';
    assert forall k: nat | k < n :: k < |chain'| && chain'[k].inst == chain[k].inst && chain'[k] in chain';
    if (forall e | e in chain' :: e.inst < stop) {
      forall e | e in chain ensures e.inst < stop {
        var k: nat :| k < n && chain[k] == e;
        assert chain'[k].inst == e.inst;
      }
    }
    if (forall e | e in chain :: e.inst < stop) && i < stop {
      forall e | e in chain' ensures e.inst < stop {
        var k: nat :| k < |chain'| && chain'[k] == e;
        if k < n { assert chain[k] in chain; }
      }
    }
  }

  lemma {:induction false} SpreadLonger(block: nat, es: Chain, k: nat)
    requires k <= |es|
    ensures |Spread(TraceQueue.Tagged(block, es[..k]))| <= |Spread(TraceQueue.Tagged(block, es))|
    ensures |Spread(TraceQueue.Tagged(block, es[..k]))| == |Spread(TraceQueue.Tagged(block, es))| <==> k == |es|
    decreases |es| - k
  {
    hide Spread;
    if k < |es| {
      SpreadLonger(block, es, k + 1);
      assert TraceQueue.Tagged(block, es[..k + 1]) == TraceQueue.Tagged(block, es[..k]) + [(block, es[k])];
      SpreadAppend(TraceQueue.Tagged(block, es[..k]), [(block, es[k])]);
      SpreadOne(block, es[k]);
    } else {
      assert es[..k] == es;
    }
  }

  /** What a message files of the accesses it reports. */
  ghost function FiledOf(sizes: seq<nat>, step: seq<B.Event<Bundle>>): seq<(nat, Entry<Bundle>)>
    requires step != [] && step[0].Enqueue? ==> step[0].s.block < |sizes|
  {
    if step == [] || !step[0].Enqueue? then [] else
      var x := step[0].s;
      TraceQueue.Tagged(x.block, Below(x.accesses, Stop(sizes, x)))
  }

  /** A message files what it retains, if and only if that lies in the block. */
  lemma MessageFilesIff(st: Setup, cur: Option<Region>, e: Event)
    requires BlocksOk(st.blocks, SizesOf(st.blocks)) && (e.Receive? ==> MessageOk(st, e.m))
    ensures StepOf(st, cur, e) != [] && StepOf(st, cur, e)[0].Enqueue? ==> StepOf(st, cur, e)[0].s.block < |st.blocks|
    ensures var filed, retained := Spread(FiledOf(SizesOf(st.blocks), StepOf(st, cur, e))), RetainedOf(st, cur, e);
            |filed| <= |retained| && (filed == retained <==> InBlock(st, cur, e))
  {
    hide Spread, Sorted, LowerBound, Below, ChainOf, Retained, Put, Expanded, Scan, SliceOk, TrimOf, BlocksOk, InOrder;
    if e.Receive? && Runs(st, e.m) && SliceOfMessage(st, cur, e.m).Some? {
      var b, t, sizes := st.blocks[e.m.index], TrimFor(st, cur, e.m), SizesOf(st.blocks);
      var x := SliceOfMessage(st, cur, e.m).value;
      SliceForIsOk(st.trimming, st.regions, cur, st.codeStart, st.blocks, sizes, e.m.index, st.withAccesses, e.m.accesses);
      ChainFiledIff(sizes, x);
      SpreadIsExpanded(x.block, x.accesses);
      if st.withAccesses {
        ChainKeepsAccesses(e.m.accesses, SkewOf(b), t.begin, t.end);
        ChainBelowIff(e.m.accesses, SkewOf(b), t.begin, t.end, Stop(sizes, x));
      } else {
        SpreadNothing(x.block);
      }
    } else {
      SpreadNothing(0);
    }
  }

  /** The accesses of a chain that a slice carries are all of them if and only if each belongs
      to an instruction of the slice. */
  lemma ChainFiledIff(sizes: seq<nat>, x: Slice<Bundle>)
    requires SliceOk(sizes, x)
    ensures var filed, all := Spread(TraceQueue.Tagged(x.block, Below(x.accesses, Stop(sizes, x)))),
                              Spread(TraceQueue.Tagged(x.block, x.accesses));
            |filed| <= |all| && (filed == all <==> forall e | e in x.accesses :: e.inst < Stop(sizes, x))
  {
    hide Spread, Sorted;
    var k := LowerBound(x.accesses, Stop(sizes, x));
    BelowIsAllIff(x.accesses, Stop(sizes, x));
    SpreadLonger(x.block, x.accesses, k);
    if k == |x.accesses| { assert x.accesses[..k] == x.accesses; }
  }

  lemma FiledStep(sizes: seq<nat>, a: seq<B.Event<Bundle>>, step: seq<B.Event<Bundle>>)
    requires B.IsRun(sizes, a) && B.IsRun(sizes, a + step) && |step| <= 1
    requires step != [] && step[0].Enqueue? ==> step[0].s.block < |sizes|
    ensures B.Filed(sizes, a + step) == B.Filed(sizes, a) + FiledOf(sizes, step)
  {
    hide B.Enabled;
    if step == [] {
      assert a + step == a;
    } else {
      assert step == [step[0]] && (a + step)[..|a|] == a && (a + step)[|a|] == step[0];
    }
  }

  /** What is filed is what is retained if and only if every retained access is of an
      instruction of its block. */
  lemma {:induction false} FiledIsRetainedIff(st: Setup, evs: seq<Event>)
    requires IsRun(st, evs)
    ensures |FiledAccesses(st, evs)| <= |AllRetained(st, evs)|
    ensures FiledAccesses(st, evs) == AllRetained(st, evs) <==> AllInBlock(st, evs)
  {
    hide B.IsRun, B.Filed, Spread, InBlock, FiledOf, RetainedOf, StepOf, BlocksOk, MessageOk;
    if evs == [] {
      NothingFiled(SizesOf(st.blocks));
    } else {
      var k := |evs| - 1;
      var cur, sizes := Cur(st, evs[..k]), SizesOf(st.blocks);
      StepIsRun(st, evs);
      FiledIsRetainedIff(st, evs[..k]);
      MessageFilesIff(st, cur, evs[k]);
      var step := StepOf(st, cur, evs[k]);
      FiledStep(sizes, Steps(st, evs[..k]), step);
      SpreadAppend(B.Filed(sizes, Steps(st, evs[..k])), FiledOf(sizes, step));
      B.SameParts(FiledAccesses(st, evs[..k]), Spread(FiledOf(sizes, step)),
                  AllRetained(st, evs[..k]), RetainedOf(st, cur, evs[k]));
    }
  }

  lemma NothingFiled(sizes: seq<nat>)
    ensures B.IsRun<Bundle>(sizes, []) && Spread(B.Filed(sizes, [])) == []
  {
  }

  /** In every run the accesses of what was delivered, followed by those of what is queued, are
      the retained accesses of all messages, each attached to the instruction that its index
      leads to, if and only if every such index lies in its block. */
  lemma AccessesReachIff(st: Setup, evs: seq<Event>)
    requires IsRun(st, evs)
    ensures QueueOk(SizesOf(st.blocks), B.After(SizesOf(st.blocks), Steps(st, evs)).queue)
    ensures (var s := B.After(SizesOf(st.blocks), Steps(st, evs));
             Spread(Carried(B.Delivered(s.answers))) + Spread(Carried(Content(SizesOf(st.blocks), s.queue))))
              == AllRetained(st, evs)
       <==> AllInBlock(st, evs)
  {
    hide B.IsRun, B.After, B.Filed, B.Delivered, Spread, Carried, Content, AllInBlock, AllRetained, Steps;
    var sizes := SizesOf(st.blocks);
    B.AccessesConserved(sizes, Steps(st, evs));
    var s := B.After(sizes, Steps(st, evs));
    SpreadAppend(Carried(B.Delivered(s.answers)), Carried(Content(sizes, s.queue)));
    FiledIsRetainedIff(st, evs);
  }

  // ---------------------------------------------------------------------------
  // Raw instructions
  // ---------------------------------------------------------------------------

  /** Every retained access is attached to the first machine instruction of its raw one. */
  ghost predicate LeadsHome(st: Setup, cur: Option<Region>, e: Event) {
    e.Receive? && Runs(st, e.m) && SliceOfMessage(st, cur, e.m).Some? && st.withAccesses ==>
      var b, t := st.blocks[e.m.index], TrimFor(st, cur, e.m);
      forall k: nat | k < |e.m.accesses| && t.begin <= SkewOf(b)(e.m.accesses[k].raw) < t.end ::
        TB.IsFirstOf(b.raws, e.m.accesses[k].raw, SkewOf(b)(e.m.accesses[k].raw))
  }

  ghost predicate AllLeadHome(st: Setup, evs: seq<Event>) {
    evs == [] || (AllLeadHome(st, evs[..|evs| - 1]) && LeadsHome(st, Cur(st, evs[..|evs| - 1]), evs[|evs| - 1]))
  }

  /** Every retained access is reported by a raw instruction of the block that decodes, like
      all before it. */
  ghost predicate Decodes(st: Setup, cur: Option<Region>, e: Event) {
    e.Receive? && Runs(st, e.m) && SliceOfMessage(st, cur, e.m).Some? && st.withAccesses ==>
      var b, t := st.blocks[e.m.index], TrimFor(st, cur, e.m);
      forall k: nat | k < |e.m.accesses| && t.begin <= SkewOf(b)(e.m.accesses[k].raw) < t.end ::
        DecodesUpTo(b.raws, e.m.accesses[k].raw)
  }

  ghost predicate DecodesUpTo(raws: seq<TB.Raw>, r: nat) {
    r < |raws| && forall q: nat | q <= r :: TB.Decoded(raws[q]) >= 1
  }

  ghost predicate AllDecode(st: Setup, evs: seq<Event>) {
    evs == [] || (AllDecode(st, evs[..|evs| - 1]) && Decodes(st, Cur(st, evs[..|evs| - 1]), evs[|evs| - 1]))
  }

  lemma LeadsHomeIff(st: Setup, cur: Option<Region>, e: Event)
    requires BlocksOk(st.blocks, SizesOf(st.blocks))
    ensures LeadsHome(st, cur, e) <==> Decodes(st, cur, e)
    ensures Decodes(st, cur, e) ==> InBlock(st, cur, e)
  {
    hide TrimOf, TB.IsFirstOf, TB.MapOk, DecodesUpTo, TB.Before;
    if e.Receive? && Runs(st, e.m) {
      var b := st.blocks[e.m.index];
      forall k: nat | k < |e.m.accesses|
        ensures TB.IsFirstOf(b.raws, e.m.accesses[k].raw, SkewOf(b)(e.m.accesses[k].raw))
           <==> DecodesUpTo(b.raws, e.m.accesses[k].raw)
        ensures DecodesUpTo(b.raws, e.m.accesses[k].raw) ==> SkewOf(b)(e.m.accesses[k].raw) < |b.vAddrOffsets|
      {
        HomeOne(b, e.m.accesses[k].raw);
      }
    }
  }

  lemma HomeOne(b: Block, r: nat)
    requires Translated(b)
    ensures TB.IsFirstOf(b.raws, r, SkewOf(b)(r)) <==> DecodesUpTo(b.raws, r)
    ensures DecodesUpTo(b.raws, r) ==> SkewOf(b)(r) < |b.vAddrOffsets|
  {
    TB.LeadsToFirstIff(b.raws, b.skewIndicies, r);
    if DecodesUpTo(b.raws, r) { TB.LeadsIntoBlock(b.raws, b.skewIndicies, r); }
  }

  /** In every run each retained access is attached to the first machine instruction of the raw
      one that reported it, if and only if all raw instructions up to these are there and
      decode; and then all of them are conserved. */
  lemma {:induction false} AccessesLeadHomeIff(st: Setup, evs: seq<Event>)
    requires IsRun(st, evs)
    ensures AllLeadHome(st, evs) <==> AllDecode(st, evs)
    ensures AllDecode(st, evs) ==> AllInBlock(st, evs)
  {
    hide B.IsRun, LeadsHome, Decodes, InBlock, BlocksOk, Steps, Cur;
    if evs == [] {
    } else {
      var k := |evs| - 1;
      StepIsRun(st, evs);
      AccessesLeadHomeIff(st, evs[..k]);
      LeadsHomeIff(st, Cur(st, evs[..k]), evs[k]);
    }
  }

  // ---------------------------------------------------------------------------
  // Regions
  // ---------------------------------------------------------------------------

  /** An instruction of the trace, and the region that ends with it. */
  datatype Traced = Traced(block: nat, inst: nat, endOf: Option<string>)

  function TraceOf(items: seq<Item<Bundle>>): (r: seq<Traced>)
    ensures |r| == |items|
    ensures forall k: nat | k < |items| :: r[k] == Traced(items[k].block, items[k].inst, items[k].endOf)
  {
    seq(|items|, k requires 0 <= k < |items| => Traced(items[k].block, items[k].inst, items[k].endOf))
  }

  function TraceOfKept(block: nat, kept: seq<Kept>): (r: seq<Traced>)
    ensures |r| == |kept|
    ensures forall k: nat | k < |kept| ::
              r[k].block == block && r[k].inst == kept[k].inst &&
              r[k].endOf == if kept[k].endOf.Some? then Some(kept[k].endOf.value.description) else None
  {
    seq(|kept|, k requires 0 <= k < |kept| => Traced(block, kept[k].inst, DescriptionOf(kept[k].endOf)))
  }

  /** The known blocks that the messages say to have been executed, in order. */
  function Executed(st: Setup, evs: seq<Event>): (r: seq<nat>)
    ensures forall k: nat | k < |r| :: r[k] < |st.blocks|
  {
    if evs == [] then [] else
      var k := |evs| - 1;
      var e := evs[k];
      Executed(st, evs[..k]) + if e.Receive? && e.m.Executed? && e.m.index < |st.blocks| then [e.m.index] else []
  }

  function AddressesOf(st: Setup, i: nat): Addrs
    requires i < |st.blocks|
  {
    Addresses(st.codeStart, st.blocks[i].vAddr, st.blocks[i].vAddrOffsets)
  }

  /** The addresses of their instructions. */
  function ExecutedAddresses(st: Setup, ids: seq<nat>): (r: seq<Addrs>)
    requires forall k: nat | k < |ids| :: ids[k] < |st.blocks|
    ensures |r| == |ids|
  {
    if ids == [] then [] else
      var n := |ids| - 1;
      ExecutedAddresses(st, ids[..n]) + [AddressesOf(st, ids[n])]
  }

  /** The kept instructions of blocks, one block after the other. */
  function Trace(ids: seq<nat>, kept: seq<seq<Kept>>): seq<Traced>
    requires |ids| == |kept|
  {
    if ids == [] then [] else
      var n := |ids| - 1;
      Trace(ids[..n], kept[..n]) + TraceOfKept(ids[n], kept[n])
  }

  /** What an event appends to the trace. */
  ghost function EnqueuedBy(sizes: seq<nat>, step: seq<B.Event<Bundle>>): seq<Traced>
    requires step != [] && step[0].Enqueue? ==> SliceOk(sizes, step[0].s)
  {
    if step == [] || !step[0].Enqueue? then [] else TraceOf(Items(sizes, step[0].s))
  }

  /** A message appends what the scan slices out of the block. */
  lemma MessageTrace(st: Setup, cur: Option<Region>, m: Message)
    requires BlocksOk(st.blocks, SizesOf(st.blocks)) && MessageOk(st, m) && Runs(st, m) && st.trimming
    ensures var step := StepOf(st, cur, Receive(m)); step != [] && step[0].Enqueue? ==> SliceOk(SizesOf(st.blocks), step[0].s)
    ensures var t, n := Scan(st.regions, cur, AddressesOf(st, m.index)), |st.blocks[m.index].vAddrOffsets|;
            && n < OPEN_END
            && EnqueuedBy(SizesOf(st.blocks), StepOf(st, cur, Receive(m))) == TraceOfKept(m.index, Sliced(t, n))
  {
    hide Scan, ChainOf, Sorted, SliceOk, TraceOf, TraceOfKept;
    var sizes, b := SizesOf(st.blocks), st.blocks[m.index];
    var t := Scan(st.regions, cur, AddressesOf(st, m.index));
    ScanAgreesIff(st.regions, cur, AddressesOf(st, m.index));
    SliceForIsOk(st.trimming, st.regions, cur, st.codeStart, st.blocks, sizes, m.index, st.withAccesses, m.accesses);
    if t.begin == t.end {
      NoTrace(m.index);
    } else {
      SliceTrace(sizes, m.index, t, SliceOfMessage(st, cur, m).value.accesses);
    }
  }

  lemma NoTrace(block: nat)
    ensures TraceOfKept(block, []) == []
  {
  }

  lemma SliceTrace(sizes: seq<nat>, block: nat, t: Trim, accesses: Chain)
    requires block < |sizes| && t.begin <= Min(sizes[block], t.end) && t.begin != t.end
    requires t.region.Some? ==> t.end <= sizes[block]
    requires SliceOk(sizes, SliceOf(block, t, accesses))
    ensures TraceOf(Items(sizes, SliceOf(block, t, accesses))) == TraceOfKept(block, Sliced(t, sizes[block]))
  {
    hide SliceOk;
    var a, b := Items(sizes, SliceOf(block, t, accesses)), SlicedFrom(t, sizes[block], t.begin);
    SliceItemsAreKept(sizes, block, t, accesses, t.begin, 0);
    forall k: nat | k < |a| ensures TraceOf(a)[k] == TraceOfKept(block, b)[k] {
      SliceItemsAreKept(sizes, block, t, accesses, t.begin, k);
    }
  }

  lemma EnqueuedStep(sizes: seq<nat>, a: seq<B.Event<Bundle>>, step: seq<B.Event<Bundle>>)
    requires B.IsRun(sizes, a) && B.IsRun(sizes, a + step) && |step| <= 1
    ensures step != [] && step[0].Enqueue? ==> SliceOk(sizes, step[0].s)
    ensures TraceOf(B.After(sizes, a + step).enqueued) == TraceOf(B.After(sizes, a).enqueued) + EnqueuedBy(sizes, step)
  {
    hide Select, Content, Items, Cuttable, SliceOk, QueueOk;
    if step == [] {
      assert a + step == a;
    } else {
      assert step == [step[0]] && (a + step)[..|a|] == a && (a + step)[|a|] == step[0];
    }
  }

  lemma TraceAppend(ids: seq<nat>, kept: seq<seq<Kept>>, i: nat, x: seq<Kept>)
    requires |ids| == |kept|
    ensures Trace(ids + [i], kept + [x]) == Trace(ids, kept) + TraceOfKept(i, x)
  {
    assert (ids + [i])[..|ids|] == ids && (kept + [x])[..|ids|] == kept;
  }

  /** In trimming mode, what is enqueued over all messages is what the scan slices out of the
      executed blocks, and the region that the scan carries is carried from message to message. */
  lemma {:induction false} EnqueuedIsSliced(st: Setup, evs: seq<Event>)
    requires IsRun(st, evs) && st.trimming
    ensures SlicedTrace(st, evs)
  {
    hide B.IsRun, B.After, StepOf, TraceOf, Scan, Sliced, BlocksOk, MessageOk, SlicedTrace;
    if evs == [] {
      NothingTraced(st);
    } else {
      var k := |evs| - 1;
      var cur, e, sizes := Cur(st, evs[..k]), evs[k], SizesOf(st.blocks);
      StepIsRun(st, evs);
      EnqueuedIsSliced(st, evs[..k]);
      assert evs == evs[..k] + [e];
      EnqueuedStep(sizes, Steps(st, evs[..k]), StepOf(st, cur, e));
      if e.Receive? && Runs(st, e.m) {
        MessageTrace(st, cur, e.m);
        SlicedTraceGrows(st, evs[..k], e);
      } else {
        NothingEnqueued(st, cur, e);
        SlicedTraceStays(st, evs[..k], e);
      }
    }
  }

  /** What is enqueued is what the scan slices out of the executed blocks. */
  ghost predicate SlicedTrace(st: Setup, evs: seq<Event>)
    requires IsRun(st, evs)
  {
    var addrs := ExecutedAddresses(st, Executed(st, evs));
    && (forall b | b in addrs :: |b| < OPEN_END)
    && CarriedAfter(st.regions, addrs) == Cur(st, evs)
    && TraceOf(B.After(SizesOf(st.blocks), Steps(st, evs)).enqueued) == Trace(Executed(st, evs), SlicedInRun(st.regions, addrs))
  }

  /** One more event: which block it executes, and the region that is active then. */
  lemma ExecutedStep(st: Setup, evs: seq<Event>, e: Event)
    ensures Executed(st, evs + [e])
         == if e.Receive? && Runs(st, e.m) then Executed(st, evs) + [e.m.index] else Executed(st, evs)
    ensures Cur(st, evs + [e]) == if e.Receive? && Runs(st, e.m) then TrimFor(st, Cur(st, evs), e.m).cur else Cur(st, evs)
  {
    hide TrimFor;
    assert (evs + [e])[..|evs|] == evs && (evs + [e])[|evs|] == e;
  }

  lemma AddressesStep(st: Setup, ids: seq<nat>, i: nat)
    requires i < |st.blocks| && forall k: nat | k < |ids| :: ids[k] < |st.blocks|
    ensures forall k: nat | k < |ids + [i]| :: (ids + [i])[k] < |st.blocks|
    ensures ExecutedAddresses(st, ids + [i]) == ExecutedAddresses(st, ids) + [AddressesOf(st, i)]
  {
    hide AddressesOf;
    assert (ids + [i])[..|ids|] == ids && (ids + [i])[|ids|] == i;
  }

  lemma SlicedTraceGrows(st: Setup, evs: seq<Event>, e: Event)
    requires IsRun(st, evs) && IsRun(st, evs + [e]) && SlicedTrace(st, evs) && st.trimming && e.Receive? && Runs(st, e.m)
    requires var sizes, addrs := SizesOf(st.blocks), AddressesOf(st, e.m.index);
             && |addrs| < OPEN_END
             && TraceOf(B.After(sizes, Steps(st, evs + [e])).enqueued)
                == TraceOf(B.After(sizes, Steps(st, evs)).enqueued)
                   + TraceOfKept(e.m.index, Sliced(Scan(st.regions, Cur(st, evs), addrs), |addrs|))
    ensures SlicedTrace(st, evs + [e])
  {
    hide B.IsRun, B.After, StepOf, TraceOf, Scan, Sliced, BlocksOk, MessageOk, Steps, TraceOfKept;
    hide Executed, ExecutedAddresses, Cur, Trace, SlicedInRun, CarriedAfter, Addresses;
    var i, ids := e.m.index, Executed(st, evs);
    var before := ExecutedAddresses(st, ids);
    ExecutedStep(st, evs, e);
    AddressesStep(st, ids, i);
    SlicedAppend(st.regions, before, AddressesOf(st, i));
    TraceAppend(ids, SlicedInRun(st.regions, before), i,
                Sliced(Scan(st.regions, Cur(st, evs), AddressesOf(st, i)), |AddressesOf(st, i)|));
  }

  lemma SlicedTraceStays(st: Setup, evs: seq<Event>, e: Event)
    requires IsRun(st, evs) && IsRun(st, evs + [e]) && SlicedTrace(st, evs) && !(e.Receive? && Runs(st, e.m))
    requires var sizes := SizesOf(st.blocks);
             TraceOf(B.After(sizes, Steps(st, evs + [e])).enqueued) == TraceOf(B.After(sizes, Steps(st, evs)).enqueued)
    ensures SlicedTrace(st, evs + [e])
  {
    hide B.IsRun, B.After, StepOf, TraceOf, Scan, Sliced, BlocksOk, MessageOk, Steps, Executed, ExecutedAddresses, Cur, Trace;
    ExecutedStep(st, evs, e);
  }

  lemma NothingTraced(st: Setup)
    requires IsRun(st, [])
    ensures SlicedTrace(st, [])
  {
  }

  lemma NothingEnqueued(st: Setup, cur: Option<Region>, e: Event)
    requires !(e.Receive? && Runs(st, e.m))
    ensures StepOf(st, cur, e) == [] || !StepOf(st, cur, e)[0].Enqueue?
    ensures EnqueuedBy(SizesOf(st.blocks), StepOf(st, cur, e)) == []
  {
  }

  lemma SlicedAppend(rs: Regions, blocks: seq<Addrs>, addrs: Addrs)
    requires (forall b | b in blocks :: |b| < OPEN_END) && |addrs| < OPEN_END
    ensures (forall b | b in blocks + [addrs] :: |b| < OPEN_END)
    ensures SlicedInRun(rs, blocks + [addrs])
         == SlicedInRun(rs, blocks) + [Sliced(Scan(rs, CarriedAfter(rs, blocks), addrs), |addrs|)]
    ensures CarriedAfter(rs, blocks + [addrs]) == Scan(rs, CarriedAfter(rs, blocks), addrs).cur
  {
    hide Scan, Sliced;
    assert (blocks + [addrs])[..|blocks|] == blocks;
  }

  /** So in trimming mode what is enqueued is exactly what belongs to a region in the stream of the
      executed addresses, from a region's start through its end, across blocks and messages, provided
      that no block enters a second region; what is delivered is a prefix of that. */
  lemma DeliveredIsKept(st: Setup, evs: seq<Event>)
    requires IsRun(st, evs) && st.trimming && OneRegionEach(st.regions, ExecutedAddresses(st, Executed(st, evs)))
    ensures var s, ids := B.After(SizesOf(st.blocks), Steps(st, evs)), Executed(st, evs);
            && TraceOf(s.enqueued) == Trace(ids, KeptInRun(st.regions, ExecutedAddresses(st, ids)))
            && TraceOf(B.Delivered(s.answers)) <= TraceOf(s.enqueued)
  {
    hide B.IsRun, B.After, OneRegionEach, TraceOf, Trace;
    EnqueuedIsSliced(st, evs);
    RunAgreesIff(st.regions, ExecutedAddresses(st, Executed(st, evs)));
    B.DeliveredIsPrefix(SizesOf(st.blocks), Steps(st, evs));
    var s := B.After(SizesOf(st.blocks), Steps(st, evs));
    TracePrefix(B.Delivered(s.answers), s.enqueued);
  }

  // ---------------------------------------------------------------------------
  // Without regions
  // ---------------------------------------------------------------------------

  /** All instructions of a block, in order; no region ends with any of them. */
  function WholeBlock(block: nat, n: nat): (r: seq<Traced>)
    ensures |r| == n && forall k: nat | k < n :: r[k] == Traced(block, k, None)
  {
    seq(n, k requires 0 <= k < n => Traced(block, k, None))
  }

  /** All instructions of the executed blocks, one block after the other. */
  function AllInstructions(st: Setup, ids: seq<nat>): seq<Traced>
    requires forall k: nat | k < |ids| :: ids[k] < |st.blocks|
  {
    if ids == [] then [] else
      var n := |ids| - 1;
      AllInstructions(st, ids[..n]) + WholeBlock(ids[n], |st.blocks[ids[n]].vAddrOffsets|)
  }

  lemma {:induction false} WholeSlice(t: Trim, n: nat, i: nat, k: nat)
    requires i <= n < t.end && t.region.None?
    ensures |SlicedFrom(t, n, i)| == n - i && (k < n - i ==> SlicedFrom(t, n, i)[k] == Kept(i + k, None))
    decreases n - i
  {
    if i == n {
    } else {
      WholeSlice(t, n, i + 1, if k > 0 then k - 1 else 0);
    }
  }

  /** Without trimming, a message appends all instructions of its block. */
  lemma MessageWhole(st: Setup, cur: Option<Region>, m: Message)
    requires BlocksOk(st.blocks, SizesOf(st.blocks)) && MessageOk(st, m) && Runs(st, m) && !st.trimming
    ensures var step := StepOf(st, cur, Receive(m)); step != [] && step[0].Enqueue? ==> SliceOk(SizesOf(st.blocks), step[0].s)
    ensures EnqueuedBy(SizesOf(st.blocks), StepOf(st, cur, Receive(m))) == WholeBlock(m.index, |st.blocks[m.index].vAddrOffsets|)
  {
    hide ChainOf, Sorted, SliceOk, TraceOf, TraceOfKept, Scan;
    var sizes, n := SizesOf(st.blocks), |st.blocks[m.index].vAddrOffsets|;
    var t := Trim(0, OPEN_END, None, cur);
    SliceForIsOk(st.trimming, st.regions, cur, st.codeStart, st.blocks, sizes, m.index, st.withAccesses, m.accesses);
    SliceTrace(sizes, m.index, t, SliceOfMessage(st, cur, m).value.accesses);
    var kept := Sliced(t, n);
    forall k: nat | k < n ensures |kept| == n && kept[k] == Kept(k, None) { WholeSlice(t, n, 0, k); }
    WholeSlice(t, n, 0, 0);
    WholeTrace(m.index, kept, n);
  }

  lemma WholeTrace(block: nat, kept: seq<Kept>, n: nat)
    requires |kept| == n && forall k: nat | k < n :: kept[k] == Kept(k, None)
    ensures TraceOfKept(block, kept) == WholeBlock(block, n)
  {
  }

  lemma AllAppend(st: Setup, ids: seq<nat>, i: nat)
    requires i < |st.blocks| && forall k: nat | k < |ids| :: ids[k] < |st.blocks|
    ensures forall k: nat | k < |ids + [i]| :: (ids + [i])[k] < |st.blocks|
    ensures AllInstructions(st, ids + [i]) == AllInstructions(st, ids) + WholeBlock(i, |st.blocks[i].vAddrOffsets|)
  {
    assert (ids + [i])[..|ids|] == ids && (ids + [i])[|ids|] == i;
  }

  /** Without trimming, what is enqueued is every instruction of every executed block, in order, and
      no region ends; what is delivered is a prefix of that. */
  lemma {:induction false} EnqueuedIsAll(st: Setup, evs: seq<Event>)
    requires IsRun(st, evs) && !st.trimming
    ensures var s := B.After(SizesOf(st.blocks), Steps(st, evs));
            && TraceOf(s.enqueued) == AllInstructions(st, Executed(st, evs))
            && TraceOf(B.Delivered(s.answers)) <= TraceOf(s.enqueued)
  {
    hide B.IsRun, B.After, StepOf, TraceOf, BlocksOk, MessageOk, EnqueuedBy, Steps, Executed, AllInstructions, Cur;
    var sizes := SizesOf(st.blocks);
    B.DeliveredIsPrefix(sizes, Steps(st, evs));
    TracePrefix(B.Delivered(B.After(sizes, Steps(st, evs)).answers), B.After(sizes, Steps(st, evs)).enqueued);
    if evs == [] {
      NothingExecuted(st);
    } else {
      var k := |evs| - 1;
      var cur, e := Cur(st, evs[..k]), evs[k];
      StepIsRun(st, evs);
      EnqueuedIsAll(st, evs[..k]);
      assert evs == evs[..k] + [e];
      StepsStep(st, evs[..k], e);
      EnqueuedStep(sizes, Steps(st, evs[..k]), StepOf(st, cur, e));
      ExecutedStep(st, evs[..k], e);
      if e.Receive? && Runs(st, e.m) {
        MessageWhole(st, cur, e.m);
        AllAppend(st, Executed(st, evs[..k]), e.m.index);
      } else {
        NothingEnqueued(st, cur, e);
      }
    }
  }

  lemma StepsStep(st: Setup, evs: seq<Event>, e: Event)
    ensures Steps(st, evs + [e]) == Steps(st, evs) + StepOf(st, Cur(st, evs), e)
  {
    hide StepOf;
    assert (evs + [e])[..|evs|] == evs && (evs + [e])[|evs|] == e;
  }

  lemma NothingExecuted(st: Setup)
    requires IsRun(st, [])
    ensures Executed(st, []) == [] && TraceOf(B.After(SizesOf(st.blocks), Steps(st, [])).enqueued) == AllInstructions(st, [])
  {
  }

  // ---------------------------------------------------------------------------
  // The end of the stream
  // ---------------------------------------------------------------------------

  lemma EndStep(sizes: seq<nat>, a: seq<B.Event<Bundle>>, step: seq<B.Event<Bundle>>)
    requires B.IsRun(sizes, a) && B.IsRun(sizes, a + step) && |step| <= 1
    ensures B.After(sizes, a + step).eos <==> B.After(sizes, a).eos || step == [B.EndOfStream]
  {
    hide Select, Content, Items, Cuttable, SliceOk, QueueOk;
    if step == [] {
      assert a + step == a;
    } else {
      assert step == [step[0]] && (a + step)[..|a|] == a && (a + step)[|a|] == step[0];
    }
  }

  /** The stream has ended exactly if an end signal has been received. */
  lemma {:induction false} EndedIff(st: Setup, evs: seq<Event>)
    requires IsRun(st, evs)
    ensures B.After(SizesOf(st.blocks), Steps(st, evs)).eos <==> Receive(EndSignal) in evs
  {
    hide B.IsRun, B.After, BlocksOk, MessageOk, SliceOfMessage;
    if evs == [] {
      NotEnded(st);
    } else {
      var k := |evs| - 1;
      StepIsRun(st, evs);
      EndedIff(st, evs[..k]);
      EndStep(SizesOf(st.blocks), Steps(st, evs[..k]), StepOf(st, Cur(st, evs[..k]), evs[k]));
      assert evs == evs[..k] + [evs[k]];
    }
  }

  lemma NotEnded(st: Setup)
    requires IsRun(st, [])
    ensures !B.After(SizesOf(st.blocks), Steps(st, [])).eos
  {
  }

  /** A fetch that answers "no more" has been preceded by an end signal, and by the delivery of all
      that was enqueued. */
  lemma NoMoreAfterEnd(st: Setup, evs: seq<Event>, room: nat)
    requires IsRun(st, evs) && IsRun(st, evs + [Fetch(room)])
    requires var sizes := SizesOf(st.blocks);
             B.After(sizes, Steps(st, evs + [Fetch(room)])).answers == B.After(sizes, Steps(st, evs)).answers + [B.NoMore]
    ensures Receive(EndSignal) in evs
    ensures var s := B.After(SizesOf(st.blocks), Steps(st, evs)); B.Delivered(s.answers) == s.enqueued
  {
    hide B.Step, B.Enabled, B.Delivered, BlocksOk, MessageOk;
    var sizes, a := SizesOf(st.blocks), Steps(st, evs);
    StepsStep(st, evs, Fetch(room));
    var all := a + [B.Event.Fetch(room)];
    assert all[..|a|] == a && all[|a|] == B.Event.Fetch(room);
    EndedIff(st, evs);
    B.NoMoreMeansAllDelivered(sizes, a, room);
  }

  // ---------------------------------------------------------------------------
  // True addresses
  // ---------------------------------------------------------------------------

  ghost function TrueAddressesOf(st: Setup, i: nat): (r: Addrs)
    requires i < |st.blocks|
  {
    var b := st.blocks[i];
    Addresses(st.codeStart, b.vAddr, TB.AllPlaces(b.raws, |b.raws|))
  }

  /** The true addresses of the instructions of executed blocks. */
  ghost function TrueAddresses(st: Setup, ids: seq<nat>): (r: seq<Addrs>)
    requires forall k: nat | k < |ids| :: ids[k] < |st.blocks|
    ensures |r| == |ids|
  {
    if ids == [] then [] else
      var n := |ids| - 1;
      TrueAddresses(st, ids[..n]) + [TrueAddressesOf(st, ids[n])]
  }

  /** All instructions of the block begin in its first 256 bytes, or it lies below the code. */
  ghost predicate OffsetsFit(st: Setup, i: nat)
    requires i < |st.blocks|
  {
    var places := TB.AllPlaces(st.blocks[i].raws, |st.blocks[i].raws|);
    st.blocks[i].vAddr < st.codeStart || forall k: nat | k < |places| :: places[k] < 256
  }

  lemma BlockAddressesAreTrueIff(st: Setup, i: nat)
    requires BlocksOk(st.blocks, SizesOf(st.blocks)) && i < |st.blocks|
    ensures AddressesOf(st, i) == TrueAddressesOf(st, i) <==> OffsetsFit(st, i)
  {
    var b := st.blocks[i];
    var places := TB.AllPlaces(b.raws, |b.raws|);
    assert Translated(b);
    AddressesAreTrueIff(st.codeStart, b.vAddr, places, b.vAddrOffsets);
  }

  /** The scan sees the true addresses of all executed blocks if and only if the offsets of each fit. */
  lemma {:induction false} TrueAddressesIff(st: Setup, ids: seq<nat>)
    requires BlocksOk(st.blocks, SizesOf(st.blocks)) && forall k: nat | k < |ids| :: ids[k] < |st.blocks|
    ensures ExecutedAddresses(st, ids) == TrueAddresses(st, ids) <==> forall i | i in ids :: OffsetsFit(st, i)
  {
    hide AddressesOf, TrueAddressesOf, OffsetsFit, BlocksOk;
    if ids == [] {
    } else {
      var n := |ids| - 1;
      TrueAddressesIff(st, ids[..n]);
      BlockAddressesAreTrueIff(st, ids[n]);
      SameEnds(ExecutedAddresses(st, ids[..n]), AddressesOf(st, ids[n]),
               TrueAddresses(st, ids[..n]), TrueAddressesOf(st, ids[n]));
      assert ids == ids[..n] + [ids[n]];
    }
  }

  /** So where the offsets fit, that is so of the true addresses. */
  lemma DeliveredIsTrue(st: Setup, evs: seq<Event>)
    requires IsRun(st, evs) && st.trimming && forall i | i in Executed(st, evs) :: OffsetsFit(st, i)
    requires OneRegionEach(st.regions, TrueAddresses(st, Executed(st, evs)))
    ensures var s, ids := B.After(SizesOf(st.blocks), Steps(st, evs)), Executed(st, evs);
            && TraceOf(s.enqueued) == Trace(ids, KeptInRun(st.regions, TrueAddresses(st, ids)))
            && TraceOf(B.Delivered(s.answers)) <= TraceOf(s.enqueued)
  {
    hide B.IsRun, B.After, OneRegionEach, TraceOf, Trace, BlocksOk, OffsetsFit, ExecutedAddresses, TrueAddresses;
    TrueAddressesIff(st, Executed(st, evs));
    DeliveredIsKept(st, evs);
  }

  lemma TracePrefix(a: seq<Item<Bundle>>, b: seq<Item<Bundle>>)
    requires a <= b
    ensures TraceOf(a) <= TraceOf(b)
  {
  }
}
