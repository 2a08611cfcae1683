/** The broker as an object and in whole runs: a thread enqueues slices, another fetches
batches; each critical section is one step. */
module TraceBroker {
  import opened Wrappers
  import opened Nonlinear
  import opened TraceQueue

  // ---------------------------------------------------------------------------
  // Runs
  // ---------------------------------------------------------------------------

  datatype Event<A> = Enqueue(s: Slice<A>) | EndOfStream | Fetch(room: nat)

  /** The answer to a fetch: a batch and the region that ends with it, or "no more". */
  datatype Answer<A> = Batch(items: seq<Item<A>>, endOf: Option<string>) | NoMore

  datatype State<A> = State(queue: seq<Slice<A>>, eos: bool, enqueued: seq<Item<A>>, answers: seq<Answer<A>>)

  ghost function Delivered<A>(answers: seq<Answer<A>>): seq<Item<A>> {
    if answers == [] then [] else
      Delivered(answers[..|answers| - 1]) +
      match answers[|answers| - 1] case Batch(items, _) => items case NoMore => []
  }

  /** A fetch waits until there is something in the queue or the stream has ended.  Slices are
      in order, and no slice is cut behind the end of its block. */
  ghost predicate Enabled<A>(sizes: seq<nat>, s: State<A>, e: Event<A>) {
    && QueueOk(sizes, s.queue) && Readable(sizes, s.queue)
    && match e
       case Enqueue(x) => SliceOk(sizes, x)
       case EndOfStream => true
       case Fetch(room) => room > 0 && (s.queue != [] || s.eos) && Cuttable(sizes, s.queue, room)
  }

  ghost function Step<A>(sizes: seq<nat>, s: State<A>, e: Event<A>): State<A>
    requires Enabled(sizes, s, e)
  {
    match e
    case Enqueue(x) => s.(queue := s.queue + [x], enqueued := s.enqueued + Items(sizes, x))
    case EndOfStream => s.(eos := true)
    case Fetch(room) =>
      if s.queue == [] then s.(answers := s.answers + [NoMore]) else
        var (taken, rest) := Select(sizes, s.queue, room);
        SelectKeepsContent(sizes, s.queue, room);
        s.(queue := rest, answers := s.answers + [Batch(Content(sizes, taken), LastRegion(taken))])
  }

  ghost predicate IsRun<A>(sizes: seq<nat>, ev: seq<Event<A>>)
    decreases |ev|, 0
  {
    ev == [] || (IsRun(sizes, ev[..|ev| - 1]) && Enabled(sizes, After(sizes, ev[..|ev| - 1]), ev[|ev| - 1]))
  }

  ghost function After<A>(sizes: seq<nat>, ev: seq<Event<A>>): State<A>
    requires IsRun(sizes, ev)
    decreases |ev|, 1
  {
    if ev == [] then State([], false, [], []) else Step(sizes, After(sizes, ev[..|ev| - 1]), ev[|ev| - 1])
  }

  ghost predicate AnswerOk<A>(a: Answer<A>) {
    a.Batch? ==> EndsOnlyAtLast(a.items, a.endOf)
  }

  /** Delivered so far, followed by what the queue stands for, is what was enqueued. */
  ghost predicate Conserves<A>(sizes: seq<nat>, s: State<A>) {
    && QueueOk(sizes, s.queue)
    && Delivered(s.answers) + Content(sizes, s.queue) == s.enqueued
  }

  lemma DeliveredAppend<A>(answers: seq<Answer<A>>, a: Answer<A>)
    ensures Delivered(answers + [a]) == Delivered(answers) + if a.Batch? then a.items else []
  {
    assert (answers + [a])[..|answers|] == answers;
  }

  lemma EnqueueConserves<A>(sizes: seq<nat>, s: State<A>, x: Slice<A>)
    requires Enabled(sizes, s, Enqueue(x)) && Conserves(sizes, s)
    ensures Conserves(sizes, Step(sizes, s, Enqueue(x)))
  {
    hide SliceOk;
    hide Items;
    OneAlone(sizes, x);
    ContentAppend(sizes, s.queue, [x]);
  }

  lemma FetchConserves<A>(sizes: seq<nat>, s: State<A>, room: nat)
    requires Enabled(sizes, s, Fetch(room)) && Conserves(sizes, s)
    ensures Conserves(sizes, Step(sizes, s, Fetch(room)))
  {
    hide SliceOk;
    hide Items;
    hide Select;
    hide Cuttable;
    hide LastRegion;
    if s.queue == [] {
      DeliveredAppend(s.answers, NoMore);
    } else {
      var (taken, rest) := Select(sizes, s.queue, room);
      SelectKeepsContent(sizes, s.queue, room);
      hide Content;
      DeliveredAppend(s.answers, Batch(Content(sizes, taken), LastRegion(taken)));
    }
  }

  /** Every reachable queue is in order: the conditions of a run only restrict what is
      enqueued and how large the batches are. */
  lemma {:induction false} RunConserves<A>(sizes: seq<nat>, ev: seq<Event<A>>)
    requires IsRun(sizes, ev)
    ensures Conserves(sizes, After(sizes, ev)) && Readable(sizes, After(sizes, ev).queue)
  {
    if ev == [] {
    } else {
      var k := |ev| - 1;
      RunConserves(sizes, ev[..k]);
      match ev[k]
      case Enqueue(x) => EnqueueConserves(sizes, After(sizes, ev[..k]), x);
      case EndOfStream =>
      case Fetch(room) => FetchConserves(sizes, After(sizes, ev[..k]), room);
    }
    OkIsReadable(sizes, After(sizes, ev).queue);
  }

  /** In every interleaving of enqueueing and fetching, the batches delivered so far are a
      prefix of the enqueued slices, in order, each instruction with its own access. */
  lemma DeliveredIsPrefix<A>(sizes: seq<nat>, ev: seq<Event<A>>)
    requires IsRun(sizes, ev)
    ensures Delivered(After(sizes, ev).answers) <= After(sizes, ev).enqueued
    ensures Carried(Delivered(After(sizes, ev).answers)) <= Filed(sizes, ev)
  {
    RunConserves(sizes, ev);
    AccessesConserved(sizes, ev);
  }

  // ---------------------------------------------------------------------------
  // Accesses
  // ---------------------------------------------------------------------------

  /** The entries of all enqueued chains, each with its block. */
  ghost function AllFiled<A>(ev: seq<Event<A>>): seq<(nat, Entry<A>)> {
    if ev == [] then [] else
      AllFiled(ev[..|ev| - 1]) +
      if ev[|ev| - 1].Enqueue? then Tagged(ev[|ev| - 1].s.block, ev[|ev| - 1].s.accesses) else []
  }

  /** Those that belong to an instruction of their slice. */
  ghost function Filed<A>(sizes: seq<nat>, ev: seq<Event<A>>): seq<(nat, Entry<A>)>
    requires IsRun(sizes, ev)
  {
    if ev == [] then [] else
      Filed(sizes, ev[..|ev| - 1]) + match ev[|ev| - 1]
                                     case Enqueue(x) => Tagged(x.block, Below(x.accesses, Stop(sizes, x)))
                                     case _ => []
  }

  /** Every entry of the slice belongs to an instruction of its block. */
  ghost predicate AllInBlock<A>(sizes: seq<nat>, x: Slice<A>)
    requires x.block < |sizes|
  {
    forall e | e in x.accesses :: e.inst < Stop(sizes, x)
  }

  ghost predicate SlicesInBlock<A>(sizes: seq<nat>, ev: seq<Event<A>>) {
    forall e | e in ev && e.Enqueue? :: e.s.block < |sizes| && AllInBlock(sizes, e.s)
  }

  /** In every interleaving the accesses of what was delivered, followed by those of what is
      queued, are the filed ones: none is lost, duplicated or moved to another instruction. */
  lemma {:induction false} AccessesConserved<A>(sizes: seq<nat>, ev: seq<Event<A>>)
    requires IsRun(sizes, ev)
    ensures QueueOk(sizes, After(sizes, ev).queue)
    ensures Carried(Delivered(After(sizes, ev).answers)) + Carried(Content(sizes, After(sizes, ev).queue)) == Filed(sizes, ev)
  {
    hide Carried, Delivered, Content, Filed;
    RunConserves(sizes, ev);
    EnqueuedCarries(sizes, ev);
    CarriedAppend(Delivered(After(sizes, ev).answers), Content(sizes, After(sizes, ev).queue));
  }

  lemma {:induction false} EnqueuedCarries<A>(sizes: seq<nat>, ev: seq<Event<A>>)
    requires IsRun(sizes, ev)
    ensures Carried(After(sizes, ev).enqueued) == Filed(sizes, ev)
  {
    hide Carried, Select, Items, Content, SliceOk, Cuttable;
    if ev == [] {
      NothingCarried<A>();
    } else {
      var k := |ev| - 1;
      EnqueuedCarries(sizes, ev[..k]);
      if ev[k].Enqueue? {
        ItemsCarry(sizes, ev[k].s);
        CarriedAppend(After(sizes, ev[..k]).enqueued, Items(sizes, ev[k].s));
      }
    }
  }

  /** The filed entries are all entries if and only if every entry that was enqueued belongs to
      an instruction of its block. */
  lemma {:induction false} AllAreFiledIff<A>(sizes: seq<nat>, ev: seq<Event<A>>)
    requires IsRun(sizes, ev)
    ensures |Filed(sizes, ev)| <= |AllFiled(ev)|
    ensures Filed(sizes, ev) == AllFiled(ev) <==> SlicesInBlock(sizes, ev)
  {
    if ev == [] {
    } else {
      hide Below, Tagged, AllInBlock, Enabled, After, Filed, AllFiled, SlicesInBlock;
      var k := |ev| - 1;
      AllAreFiledIff(sizes, ev[..k]);
      OneMoreFiled(sizes, ev);
      if ev[k].Enqueue? {
        SliceIsFiledIff(sizes, After(sizes, ev[..k]), ev[k].s);
        SameParts(Filed(sizes, ev[..k]), Tagged(ev[k].s.block, Below(ev[k].s.accesses, Stop(sizes, ev[k].s))),
                  AllFiled(ev[..k]), Tagged(ev[k].s.block, ev[k].s.accesses));
      }
    }
  }

  /** What the last event of a run adds to both sides. */
  lemma OneMoreFiled<A>(sizes: seq<nat>, ev: seq<Event<A>>)
    requires IsRun(sizes, ev) && ev != []
    ensures var k := |ev| - 1;
            if ev[k].Enqueue? then
              var x := ev[k].s;
              && x.block < |sizes|
              && Filed(sizes, ev) == Filed(sizes, ev[..k]) + Tagged(x.block, Below(x.accesses, Stop(sizes, x)))
              && AllFiled(ev) == AllFiled(ev[..k]) + Tagged(x.block, x.accesses)
              && (SlicesInBlock(sizes, ev) <==> SlicesInBlock(sizes, ev[..k]) && AllInBlock(sizes, x))
            else
              && Filed(sizes, ev) == Filed(sizes, ev[..k]) && AllFiled(ev) == AllFiled(ev[..k])
              && (SlicesInBlock(sizes, ev) <==> SlicesInBlock(sizes, ev[..k]))
  {
    hide Below, Tagged, AllInBlock, Select, Items, Content, Cuttable, After;
    var k := |ev| - 1;
    assert forall e | e in ev :: e in ev[..k] || e == ev[k];
    assert ev[k] in ev && forall e | e in ev[..k] :: e in ev;
  }

  lemma SliceIsFiledIff<A>(sizes: seq<nat>, s: State<A>, x: Slice<A>)
    requires Enabled(sizes, s, Enqueue(x))
    ensures x.block < |sizes|
    ensures Tagged(x.block, Below(x.accesses, Stop(sizes, x))) == Tagged(x.block, x.accesses) <==> AllInBlock(sizes, x)
  {
    hide Below;
    BelowIsAllIff(x.accesses, Stop(sizes, x));
  }

  lemma SameParts<T>(a: seq<T>, a': seq<T>, b: seq<T>, b': seq<T>)
    requires |a| <= |b| && |a'| <= |b'|
    ensures a + a' == b + b' <==> a == b && a' == b'
  {
    if a + a' == b + b' {
      assert |a + a'| == |b + b'|;
      assert (a + a')[..|a|] == a && (b + b')[..|b|] == b && (a + a')[|a|..] == a' && (b + b')[|b|..] == b';
    }
  }

  /** "No more" is answered only when the stream has ended and everything enqueued so far
      has been delivered. */
  lemma NoMoreMeansAllDelivered<A>(sizes: seq<nat>, ev: seq<Event<A>>, room: nat)
    requires IsRun(sizes, ev) && Enabled(sizes, After(sizes, ev), Fetch(room))
    requires Step(sizes, After(sizes, ev), Fetch(room)).answers == After(sizes, ev).answers + [NoMore]
    ensures After(sizes, ev).eos && Delivered(After(sizes, ev).answers) == After(sizes, ev).enqueued
  {
    RunConserves(sizes, ev);
    var s := After(sizes, ev);
    assert Step(sizes, s, Fetch(room)).answers[|s.answers|] == NoMore;
  }

  /** No batch goes past the end of a region, and the end is reported exactly with the
      region's last instruction. */
  lemma {:induction false} AnswersOk<A>(sizes: seq<nat>, ev: seq<Event<A>>, i: nat)
    requires IsRun(sizes, ev) && i < |After(sizes, ev).answers|
    ensures AnswerOk(After(sizes, ev).answers[i])
  {
    if ev == [] {
    } else {
      var k := |ev| - 1;
      var s := After(sizes, ev[..k]);
      if i < |s.answers| {
        AnswersOk(sizes, ev[..k], i);
      } else if s.queue != [] {
        SelectStopsAtRegionEnd(sizes, s.queue, ev[k].room);
      }
    }
  }

  // ---------------------------------------------------------------------------
  // When cutting is safe
  // ---------------------------------------------------------------------------

  /** Closed within its block, or open from the first instruction of a block of at most `n`. */
  predicate Simple<A>(sizes: seq<nat>, s: Slice<A>, n: nat)
    requires s.block < |sizes|
  {
    s.end <= sizes[s.block] || (s.end == OPEN_END && s.begin == 0 && sizes[s.block] <= n)
  }

  /** As `Simple`, but an open slice may have been cut before. */
  predicate AlmostSimple<A>(sizes: seq<nat>, s: Slice<A>, n: nat)
    requires s.block < |sizes|
  {
    s.end <= sizes[s.block] || (s.end == OPEN_END && sizes[s.block] <= n)
  }

  ghost predicate AllSimple<A>(sizes: seq<nat>, q: seq<Slice<A>>, n: nat)
    requires Readable(sizes, q)
  {
    q == [] || (Simple(sizes, q[0], n) && AllSimple(sizes, q[1..], n))
  }

  /** The front may be what is left of a cut slice. */
  ghost predicate QueueSimple<A>(sizes: seq<nat>, q: seq<Slice<A>>, n: nat)
    requires Readable(sizes, q)
  {
    q == [] || (AlmostSimple(sizes, q[0], n) && AllSimple(sizes, q[1..], n))
  }

  lemma {:induction false} SimpleCuttable<A>(sizes: seq<nat>, q: seq<Slice<A>>, n: nat, room: nat)
    requires QueueOk(sizes, q) && Readable(sizes, q) && AllSimple(sizes, q, n)
    ensures Cuttable(sizes, q, room)
    ensures Readable(sizes, Select(sizes, q, room).1) && QueueSimple(sizes, Select(sizes, q, room).1, n)
  {
    if room == 0 || q == [] {
    } else {
      SelectUnfold(sizes, q, room);
      if UseOfFirst(sizes, q, room).GoesOn? {
        SimpleCuttable(sizes, q[1..], n, room - SliceLen(sizes, q[0]));
      } else {
        HeadAndTail(CutParts(q[0], room).1, q[1..]);
      }
    }
  }

  /** A queue whose front may have been cut, and batches at least as large as the blocks. */
  lemma QueueSimpleCuttable<A>(sizes: seq<nat>, q: seq<Slice<A>>, n: nat, room: nat)
    requires QueueOk(sizes, q) && Readable(sizes, q) && QueueSimple(sizes, q, n) && n <= room
    ensures Cuttable(sizes, q, room)
    ensures Readable(sizes, Select(sizes, q, room).1) && QueueSimple(sizes, Select(sizes, q, room).1, n)
  {
    if room > 0 && q != [] {
      SelectUnfold(sizes, q, room);
      if UseOfFirst(sizes, q, room).GoesOn? {
        SimpleCuttable(sizes, q[1..], n, room - SliceLen(sizes, q[0]));
      } else {
        HeadAndTail(CutParts(q[0], room).1, q[1..]);
      }
    }
  }

  /** Simple slices only, and batches at least as large as the blocks of open ones. */
  predicate SimpleEvent<A>(sizes: seq<nat>, n: nat, e: Event<A>)
  {
    match e
    case Enqueue(x) => x.block < |sizes| && Simple(sizes, x, n)
    case EndOfStream => true
    case Fetch(room) => n <= room
  }

  lemma {:induction false} AllSimpleAppend<A>(sizes: seq<nat>, q: seq<Slice<A>>, x: Slice<A>, n: nat)
    requires Readable(sizes, q) && AllSimple(sizes, q, n) && x.block < |sizes| && x.begin <= x.end && Simple(sizes, x, n)
    ensures Readable(sizes, q + [x]) && AllSimple(sizes, q + [x], n)
  {
    if q == [] {
      assert [] + [x] == [x];
      HeadAndTail<Slice<A>>(x, []);
    } else {
      AllSimpleAppend(sizes, q[1..], x, n);
      assert (q + [x])[1..] == q[1..] + [x];
    }
  }

  lemma QueueSimpleAppend<A>(sizes: seq<nat>, q: seq<Slice<A>>, x: Slice<A>, n: nat)
    requires Readable(sizes, q) && QueueSimple(sizes, q, n) && x.block < |sizes| && x.begin <= x.end && Simple(sizes, x, n)
    ensures Readable(sizes, q + [x]) && QueueSimple(sizes, q + [x], n)
  {
    if q == [] {
      assert [] + [x] == [x];
      HeadAndTail<Slice<A>>(x, []);
    } else {
      AllSimpleAppend(sizes, q[1..], x, n);
      assert (q + [x])[1..] == q[1..] + [x];
    }
  }

  lemma SimpleStep<A>(sizes: seq<nat>, s: State<A>, e: Event<A>, n: nat)
    requires Enabled(sizes, s, e) && QueueSimple(sizes, s.queue, n) && SimpleEvent(sizes, n, e)
    ensures Readable(sizes, Step(sizes, s, e).queue) && QueueSimple(sizes, Step(sizes, s, e).queue, n)
  {
    hide QueueOk, Readable, QueueSimple, Select, Cuttable, Simple, Content, Items;
    match e
    case Enqueue(x) => QueueSimpleAppend(sizes, s.queue, x, n);
    case EndOfStream =>
    case Fetch(room) => QueueSimpleCuttable(sizes, s.queue, n, room);
  }

  lemma {:induction false} SimpleRunQueue<A>(sizes: seq<nat>, ev: seq<Event<A>>, n: nat)
    requires IsRun(sizes, ev) && forall e | e in ev :: SimpleEvent(sizes, n, e)
    ensures Readable(sizes, After(sizes, ev).queue) && QueueSimple(sizes, After(sizes, ev).queue, n)
  {
    hide SimpleEvent, Enabled, Step;
    if ev == [] {
    } else {
      var k := |ev| - 1;
      assert ev[k] in ev && forall e | e in ev[..k] :: e in ev;
      SimpleRunQueue(sizes, ev[..k], n);
      SimpleStep(sizes, After(sizes, ev[..k]), ev[k], n);
    }
  }

  /** With simple slices and such batches, every fetch that finds something is safe. */
  lemma SimpleFetchIsSafe<A>(sizes: seq<nat>, ev: seq<Event<A>>, n: nat, room: nat)
    requires IsRun(sizes, ev) && (forall e | e in ev :: SimpleEvent(sizes, n, e)) && n <= room && room > 0
    requires After(sizes, ev).queue != [] || After(sizes, ev).eos
    ensures IsRun(sizes, ev + [Fetch(room)])
  {
    SimpleRunQueue(sizes, ev, n);
    RunConserves(sizes, ev);
    QueueSimpleCuttable(sizes, After(sizes, ev).queue, n, room);
    assert (ev + [Fetch(room)])[..|ev|] == ev;
  }

  ghost function Fetches<A>(room: nat, m: nat): seq<Event<A>> {
    if m == 0 then [] else Fetches(room, m - 1) + [Fetch(room)]
  }

  /** Fetching an open slice of a block longer than the batch moves its start by one batch. */
  lemma OpenSliceStep<A>(sizes: seq<nat>, s: Slice<A>, room: nat)
    requires SliceOk(sizes, s) && s.end == OPEN_END && 0 < room < sizes[s.block]
    ensures Cuttable(sizes, [s], room) <==> s.begin + room <= sizes[s.block] || s.begin + room >= OPEN_END
    ensures s.begin + room < OPEN_END ==> Select(sizes, [s], room) == ([CutParts(s, room).0], [CutParts(s, room).1])
    ensures CutParts(s, room).1.begin == s.begin + room && CutParts(s, room).1.end == s.end
  {
    hide LowerBound;
    SelectUnfold(sizes, [s], room);
    assert [s][1..] == [] && [CutParts(s, room).1] + [] == [CutParts(s, room).1];
  }

  /** The run in which an open slice is enqueued and fetched batch by batch, as long as the
      batches lie in its block. */
  lemma {:induction false} OpenSliceRun<A>(sizes: seq<nat>, s: Slice<A>, room: nat, m: nat, p: nat) returns (rest: Slice<A>)
    requires SliceOk(sizes, s) && s.end == OPEN_END && 0 < room < sizes[s.block]
    requires p == m * room && s.begin + p <= sizes[s.block] && s.begin + p < OPEN_END
    ensures IsRun(sizes, [Enqueue(s)] + Fetches(room, m))
    ensures After(sizes, [Enqueue(s)] + Fetches(room, m)).queue == [rest]
    ensures rest.block == s.block && rest.begin == s.begin + p && rest.end == OPEN_END && SliceOk(sizes, rest)
  {
    hide Select, Cuttable, SliceOk, CutParts, IsRun, After;
    if m == 0 {
      assert [Enqueue(s)] + Fetches(room, 0) == [Enqueue(s)];
      EnqueueFirst(sizes, s);
      rest := s;
    } else {
      Distrib(m - 1, 1, room);
      var before := OpenSliceRun(sizes, s, room, m - 1, p - room);
      var ev := [Enqueue(s)] + Fetches(room, m - 1);
      assert [Enqueue(s)] + Fetches(room, m) == ev + [Fetch(room)];
      OpenSliceStep(sizes, before, room);
      CutLeavesOk(sizes, before, room);
      FetchAlone(sizes, ev, before, room);
      rest := CutParts(before, room).1;
    }
  }

  lemma EnqueueFirst<A>(sizes: seq<nat>, s: Slice<A>)
    requires SliceOk(sizes, s)
    ensures IsRun(sizes, [Enqueue(s)]) && After(sizes, [Enqueue(s)]).queue == [s]
  {
    hide SliceOk;
    assert [Enqueue(s)][..0] == [];
    assert IsRun<A>(sizes, []) && After<A>(sizes, []).queue == [];
  }

  /** A fetch from a queue of one slice. */
  lemma FetchAlone<A>(sizes: seq<nat>, ev: seq<Event<A>>, s: Slice<A>, room: nat)
    requires IsRun(sizes, ev) && After(sizes, ev).queue == [s] && SliceOk(sizes, s) && room > 0
    ensures Readable(sizes, [s]) && (IsRun(sizes, ev + [Fetch(room)]) <==> Cuttable(sizes, [s], room))
    ensures IsRun(sizes, ev + [Fetch(room)]) ==> After(sizes, ev + [Fetch(room)]).queue == Select(sizes, [s], room).1
  {
    hide Select, Cuttable, SliceOk;
    OneAlone(sizes, s);
    OkIsReadable(sizes, [s]);
    assert (ev + [Fetch(room)])[..|ev|] == ev;
  }

  lemma OpenSliceBounds<A>(sizes: seq<nat>, s: Slice<A>)
    requires SliceOk(sizes, s)
    ensures s.block < |sizes| && s.begin <= sizes[s.block] <= OPEN_END
  {
  }

  lemma CutLeavesOk<A>(sizes: seq<nat>, s: Slice<A>, room: nat)
    requires SliceOk(sizes, s) && s.end == OPEN_END && 0 < room < sizes[s.block]
    requires s.begin + room <= sizes[s.block] && s.begin + room < OPEN_END
    ensures SliceOk(sizes, CutParts(s, room).1) && CutParts(s, room).1.block == s.block
  {
    CutKeepsOk(sizes, s, room);
  }

  /** The next fetch cuts the slice behind the end of the block, unless that lies behind every
      index that a slice can have. */
  lemma OverrunIff<A>(sizes: seq<nat>, s: Slice<A>, room: nat, m: nat, p: nat)
    requires SliceOk(sizes, s) && s.end == OPEN_END && 0 < room < sizes[s.block] && p == m * room
    requires s.begin + p <= Min(sizes[s.block], OPEN_END - 1) < s.begin + p + room
    ensures IsRun(sizes, [Enqueue(s)] + Fetches(room, m))
    ensures IsRun(sizes, [Enqueue(s)] + Fetches(room, m) + [Fetch(room)]) <==> s.begin + p + room >= OPEN_END
  {
    hide SliceOk, Cuttable, IsRun, After, Fetches;
    OpenSliceBounds(sizes, s);
    var rest := OpenSliceRun(sizes, s, room, m, p);
    OpenSliceStep(sizes, rest, room);
    FetchAlone(sizes, [Enqueue(s)] + Fetches(room, m), rest, room);
  }

  /** So the condition on open slices is exact: every open slice of a block longer than the
      batches is fetched batch by batch until less than one batch is left of the block, and
      then, but for blocks that reach the last index, comes the fetch that overruns it. */
  lemma OpenSliceOverruns<A>(sizes: seq<nat>, s: Slice<A>, room: nat) returns (m: nat, p: nat)
    requires SliceOk(sizes, s) && s.end == 0xffff && 0 < room < sizes[s.block] && s.begin < 0xffff
    ensures p == m * room && s.begin + p <= sizes[s.block]
    ensures IsRun(sizes, [Enqueue(s)] + Fetches(room, m))
    ensures !IsRun(sizes, [Enqueue(s)] + Fetches(room, m) + [Fetch(room)]) <==> s.begin + p + room < 0xffff
    ensures sizes[s.block] + room < 0xffff ==> !IsRun(sizes, [Enqueue(s)] + Fetches(room, m) + [Fetch(room)])
  {
    hide SliceOk, IsRun, Fetches;
    OpenSliceBounds(sizes, s);
    m, p := WholeBatches(Min(sizes[s.block], OPEN_END - 1) - s.begin, room);
    OverrunIff(sizes, s, room, m, p);
  }

  lemma WholeBatches(n: nat, room: nat) returns (m: nat, p: nat)
    requires room > 0
    ensures p == m * room && p <= n < p + room
  {
    m, p := n / room, (n / room) * room;
    MulDivLe(n, room);
  }

  // ---------------------------------------------------------------------------
  // The broker
  // ---------------------------------------------------------------------------

  /** An instruction of a translated block. */
  datatype Inst = Inst(block: nat, inst: nat)

  /** The accesses filed under the first `n` tokens, with the instructions filed under them. */
  function ByToken<A>(insts: map<nat, Inst>, accesses: map<nat, A>, n: nat): seq<(nat, Entry<A>)>
    requires forall k: nat | k < n :: k in insts
  {
    if n == 0 then [] else
      ByToken(insts, accesses, n - 1) +
      if n - 1 in accesses then [(insts[n - 1].block, Entry(insts[n - 1].inst, accesses[n - 1]))] else []
  }

  lemma {:induction false} ByTokenIsCarried<A>(insts: map<nat, Inst>, accesses: map<nat, A>, items: seq<Item<A>>, n: nat)
    requires n <= |items|
    requires forall k: nat | k < |items| :: k in insts && insts[k] == Inst(items[k].block, items[k].inst)
    requires forall k: nat | k < |items| :: k in accesses <==> items[k].access.Some?
    requires forall k: nat | k < |items| && k in accesses :: accesses[k] == items[k].access.value
    ensures ByToken(insts, accesses, n) == Carried(items[..n])
  {
    if n == 0 {
      NothingCarried<A>();
    } else {
      hide Carried;
      ByTokenIsCarried(insts, accesses, items, n - 1);
      assert items[..n] == items[..n - 1] + [items[n - 1]] && [items[n - 1]] + [] == [items[n - 1]];
      CarriedAppend(items[..n - 1], [items[n - 1]]);
      CarriedOne(items[n - 1], []);
      NothingCarried<A>();
    }
  }

  /** What is filed under each token: the instruction delivered with it, and its access. */
  ghost predicate ByTokenOk<A>(insts: map<nat, Inst>, accesses: map<nat, A>, items: seq<Item<A>>) {
    && (forall k: nat :: k in insts <==> k < |items|)
    && (forall k: nat | k < |items| :: insts[k] == Inst(items[k].block, items[k].inst))
    && (forall k: nat :: k in accesses <==> k < |items| && items[k].access.Some?)
    && (forall k: nat | k in accesses :: accesses[k] == items[k].access.value)
  }

  lemma TokenOneMore<A>(insts: map<nat, Inst>, accesses: map<nat, A>, items: seq<Item<A>>, item: Item<A>)
    requires ByTokenOk(insts, accesses, items)
    ensures ByTokenOk(insts[|items| := Inst(item.block, item.inst)],
                  if item.access.Some? then accesses[|items| := item.access.value] else accesses, items + [item])
  {
  }

  /** Batch position `k` holds the delivered instruction number `base + k`, and knows its token. */
  ghost predicate InBatch<A>(mcis: seq<Inst>, tokens: map<nat, nat>, items: seq<Item<A>>, base: nat, count: nat) {
    && count <= |mcis| && base + count <= |items|
    && forall k: nat | k < count ::
         mcis[k] == Inst(items[base + k].block, items[base + k].inst) && k in tokens && tokens[k] == base + k
  }

  lemma InBatchOneMore<A>(mcis: seq<Inst>, tokens: map<nat, nat>, items: seq<Item<A>>, base: nat, count: nat, item: Item<A>)
    requires InBatch(mcis, tokens, items, base, count) && |items| == base + count && count < |mcis|
    ensures InBatch(mcis[count := Inst(item.block, item.inst)], tokens[count := |items|], items + [item], base, count + 1)
  {
  }

  /** With room for `s` more, what is selected and what the rest of the queue yields make up the
      selection from the queue `start`; with `done` nothing more is taken. */
  ghost predicate SelectedSoFar<A>(sizes: seq<nat>, start: seq<Slice<A>>, room: nat,
                                   selected: seq<Slice<A>>, q: seq<Slice<A>>, s: nat, done: bool)
    requires Readable(sizes, start) && Readable(sizes, q)
  {
    var (more, rest) := if done then ([], q) else Select(sizes, q, s);
    (selected + more, rest) == Select(sizes, start, room)
  }

  lemma NoneSelectedYet<A>(sizes: seq<nat>, q: seq<Slice<A>>, room: nat)
    requires Readable(sizes, q)
    ensures SelectedSoFar(sizes, q, room, [], q, room, false)
  {
    hide Select;
    assert [] + Select(sizes, q, room).0 == Select(sizes, q, room).0;
  }

  lemma AllSelected<A>(sizes: seq<nat>, start: seq<Slice<A>>, room: nat,
                       selected: seq<Slice<A>>, q: seq<Slice<A>>, s: nat, done: bool)
    requires Readable(sizes, start) && Readable(sizes, q) && SelectedSoFar(sizes, start, room, selected, q, s, done)
    requires s == 0 || q == [] || done
    ensures (selected, q) == Select(sizes, start, room)
  {
    hide Select;
    if !done { NothingSelected(sizes, q, s); }
    assert selected + [] == selected;
  }

  /** One slice further. */
  lemma SelectStep<A>(sizes: seq<nat>, start: seq<Slice<A>>, room: nat, selected: seq<Slice<A>>, q: seq<Slice<A>>, s: nat)
    requires Readable(sizes, start) && Readable(sizes, q) && SelectedSoFar(sizes, start, room, selected, q, s, false)
    requires s > 0 && q != []
    ensures q[0].block < |sizes| && q[0].begin <= q[0].end && Readable(sizes, q[1..])
    ensures var (taken, rest) := CutParts(q[0], s);
            && taken.region.None? && Readable(sizes, [rest] + q[1..]) <== UseOfFirst(sizes, q, s).Cuts?
    ensures match UseOfFirst(sizes, q, s)
            case Cuts => var (taken, rest) := CutParts(q[0], s);
                         SelectedSoFar(sizes, start, room, selected + [taken], [rest] + q[1..], 0, false)
            case Ends => SelectedSoFar(sizes, start, room, selected + [q[0]], q[1..], s - SliceLen(sizes, q[0]), true)
            case GoesOn => SelectedSoFar(sizes, start, room, selected + [q[0]], q[1..], s - SliceLen(sizes, q[0]), false)
  {
    SelectUnfold(sizes, q, s);
    match UseOfFirst(sizes, q, s)
    case Cuts =>
      var (taken, rest) := CutParts(q[0], s);
      CutBounds(sizes, q[0], s);
      HeadAndTail(rest, q[1..]);
      hide Select;
      NothingSelected(sizes, [rest] + q[1..], 0);
      assert selected + [taken] + [] == selected + [taken];
    case Ends =>
      hide Select;
      assert selected + [q[0]] + [] == selected + [q[0]];
    case GoesOn =>
      hide Select;
      ConcatAssoc(selected, [q[0]], Select(sizes, q[1..], s - SliceLen(sizes, q[0])).0);
  }

  /** Entry `m` is the first of the chain that belongs to instruction `i` or a later one. */
  ghost predicate ChainAt<A>(es: seq<Entry<A>>, m: nat, i: nat) {
    m <= |es| && (forall k: nat | k < m :: es[k].inst < i) && (m < |es| ==> es[m].inst >= i)
  }

  function AccessAt<A>(es: seq<Entry<A>>, m: nat, i: nat): Option<A> {
    if m < |es| && es[m].inst == i then Some(es[m].access) else None
  }

  lemma ChainGoesOn<A>(es: seq<Entry<A>>, m: nat, i: nat)
    requires Sorted(es) && ChainAt(es, m, i)
    ensures AccessOf(es, i) == AccessAt(es, m, i)
    ensures ChainAt(es, if AccessAt(es, m, i).Some? then m + 1 else m, i + 1)
  {
    AccessWalk(es, m, i);
  }

  /** A walk through a slice has come to instruction `i` and to entry `m` of the chain; what it
      has added to `before`, and what is still to come, are the items of the slice. */
  ghost predicate WalkedTo<A>(sizes: seq<nat>, s: Slice<A>, before: seq<Item<A>>, items: seq<Item<A>>, i: nat, m: nat)
    requires SliceOk(sizes, s)
  {
    && s.begin <= i <= Stop(sizes, s) && ChainAt(s.accesses, m, i)
    && items + ItemsFrom(sizes, s, i) == before + Items(sizes, s)
  }

  lemma WalkStarts<A>(sizes: seq<nat>, s: Slice<A>, before: seq<Item<A>>)
    requires SliceOk(sizes, s)
    ensures WalkedTo(sizes, s, before, before, s.begin, 0)
  {
    if s.accesses != [] { assert s.accesses[0] in s.accesses; }
  }

  lemma WalkGoesOn<A>(sizes: seq<nat>, s: Slice<A>, before: seq<Item<A>>, items: seq<Item<A>>, i: nat, m: nat)
    requires SliceOk(sizes, s) && WalkedTo(sizes, s, before, items, i, m) && i < Stop(sizes, s)
    ensures var access := AccessAt(s.accesses, m, i);
            WalkedTo(sizes, s, before, items + [Item(s.block, i, access, if i + 1 == Stop(sizes, s) then s.region else None)],
                     i + 1, if access.Some? then m + 1 else m)
  {
    hide ItemsFrom, AccessOf, AccessAt, ChainAt, Sorted, Items;
    ChainGoesOn(s.accesses, m, i);
    ItemsUnfold(sizes, s, i);
    ConcatAssoc(items, [Item(s.block, i, AccessOf(s.accesses, i), if i + 1 == Stop(sizes, s) then s.region else None)],
                ItemsFrom(sizes, s, i + 1));
  }

  lemma WalkEnds<A>(sizes: seq<nat>, s: Slice<A>, before: seq<Item<A>>, items: seq<Item<A>>, m: nat)
    requires SliceOk(sizes, s) && WalkedTo(sizes, s, before, items, Stop(sizes, s), m)
    ensures items == before + Items(sizes, s)
  {
    assert items + [] == items;
  }

  class QemuBroker<A> {
    const sizes: seq<nat>  // numbers of instructions of the translated blocks
    var tbQueue: seq<Slice<A>>
    var isEndOfStream: bool
    var totalNumTraces: nat
    var instAddrs: map<nat, Inst>      // metadata by token: which instruction
    var memAccesses: map<nat, A>       // metadata by token: its memory access
    var indexMap: map<nat, nat>        // position in the last batch -> token
    ghost var delivered: seq<Item<A>>

    /** The token of a delivered instruction is its position in the trace, and its metadata
        is filed under that token. */
    ghost predicate Valid()
      reads this
    {
      && QueueOk(sizes, tbQueue) && Readable(sizes, tbQueue)
      && MetadataOk()
    }

    ghost predicate MetadataOk()
      reads `totalNumTraces, `instAddrs, `memAccesses, `delivered
    {
      totalNumTraces == |delivered| && ByTokenOk(instAddrs, memAccesses, delivered)
    }

    constructor (sizes: seq<nat>)
      ensures Valid() && this.sizes == sizes && tbQueue == [] && !isEndOfStream && delivered == []
    {
      this.sizes := sizes;
      tbQueue, isEndOfStream, totalNumTraces := [], false, 0;
      instAddrs, memAccesses, indexMap, delivered := map[], map[], map[], [];
    }

    method EnqueueSlice(s: Slice<A>)
      requires Readable(sizes, tbQueue) && Readable(sizes, [s])
      modifies `tbQueue
      ensures tbQueue == old(tbQueue) + [s] && Readable(sizes, tbQueue)
      // a queue in order stays in order
      ensures QueueOk(sizes, old(tbQueue)) && SliceOk(sizes, s) ==> QueueOk(sizes, tbQueue)
    {
      hide SliceOk;
      if QueueOk(sizes, tbQueue) && SliceOk(sizes, s) {
        OneAlone(sizes, s);
        ContentAppend(sizes, tbQueue, [s]);
      }
      ReadableAppend(sizes, tbQueue, [s]);
      tbQueue := tbQueue + [s];
    }

    /** Takes slices until the batch is full or a region ends. */
    method SelectSlices(room: nat) returns (selected: seq<Slice<A>>)
      requires Readable(sizes, tbQueue)
      modifies `tbQueue
      ensures (selected, tbQueue) == Select(sizes, old(tbQueue), room) && Readable(sizes, tbQueue)
    {
      hide Select, Cuttable, CutParts, Readable, SelectedSoFar;
      var s := room;
      var endOfRegion := false;
      selected := [];
      NoneSelectedYet(sizes, tbQueue, room);
      while s > 0 && tbQueue != [] && !endOfRegion
        invariant Readable(sizes, tbQueue)
        invariant SelectedSoFar(sizes, old(tbQueue), room, selected, tbQueue, s, endOfRegion)
        decreases !endOfRegion, |tbQueue|, s
      {
        SelectStep(sizes, old(tbQueue), room, selected, tbQueue, s);
        var cur := tbQueue[0];
        var sliceLen := SliceLen(sizes, cur);
        if sliceLen > s {
          var (taken, rest) := CutParts(cur, s);
          selected := selected + [taken];
          tbQueue := [rest] + tbQueue[1..];
          s := 0;
        } else {
          selected := selected + [cur];
          tbQueue := tbQueue[1..];
          s := s - sliceLen;
        }
        endOfRegion := selected[|selected| - 1].region.Some?;
      }
      AllSelected(sizes, old(tbQueue), room, selected, tbQueue, s, endOfRegion);
    }

    /** Delivers one instruction: into the batch, and its metadata under the next token. */
    method DeliverOne(mcis: array<Inst>, instIdx: nat, block: nat, inst: nat, access: Option<A>, ghost endOf: Option<string>)
      requires MetadataOk() && instIdx < mcis.Length
      modifies mcis, `totalNumTraces, `instAddrs, `memAccesses, `indexMap, `delivered
      ensures MetadataOk() && delivered == old(delivered) + [Item(block, inst, access, endOf)]
      ensures indexMap == old(indexMap)[instIdx := old(totalNumTraces)]
      ensures mcis[..] == old(mcis[..])[instIdx := Inst(block, inst)]
    {
      hide ByTokenOk;
      TokenOneMore(instAddrs, memAccesses, delivered, Item(block, inst, access, endOf));
      mcis[instIdx] := Inst(block, inst);
      var metadataIdx := totalNumTraces;
      indexMap := indexMap[instIdx := metadataIdx];
      instAddrs := instAddrs[metadataIdx := Inst(block, inst)];
      if access.Some? {
        memAccesses := memAccesses[indexMap[instIdx] := access.value];
      }
      totalNumTraces := totalNumTraces + 1;
      delivered := delivered + [Item(block, inst, access, endOf)];
    }

    /** Each access stands under the token of the instruction that carries it, and under no other. */
    lemma TokensCarry()
      requires MetadataOk()
      ensures ByToken(instAddrs, memAccesses, totalNumTraces) == Carried(delivered)
    {
      ByTokenIsCarried(instAddrs, memAccesses, delivered, |delivered|);
      assert delivered[..|delivered|] == delivered;
    }

    ghost predicate BatchOk(mcis: seq<Inst>, base: nat, count: nat)
      reads `delivered, `indexMap
    {
      InBatch(mcis, indexMap, delivered, base, count)
    }

    /** Delivers a slice: walks the instructions and the access chain in step. */
    method DeliverSlice(s: Slice<A>, mcis: array<Inst>, start: nat, ghost base: nat) returns (next: nat)
      requires MetadataOk() && SliceOk(sizes, s)
      requires start + |Items(sizes, s)| <= mcis.Length
      requires |delivered| == base + start && BatchOk(mcis[..], base, start)
      modifies mcis, `totalNumTraces, `instAddrs, `memAccesses, `indexMap, `delivered
      ensures MetadataOk() && delivered == old(delivered) + Items(sizes, s)
      ensures next == start + |Items(sizes, s)| && BatchOk(mcis[..], base, next)
    {
      hide ByTokenOk, InBatch, Items, ItemsFrom, WalkedTo;
      var maIdx := 0;
      next := start;
      var end := Min(sizes[s.block], s.end);
      var i := s.begin;
      WalkStarts(sizes, s, delivered);
      ItemsFit(sizes, s);
      while i != end
        invariant s.begin <= i <= end && next == start + (i - s.begin)
        invariant WalkedTo(sizes, s, old(delivered), delivered, i, maIdx)
        invariant MetadataOk() && |delivered| == base + next && BatchOk(mcis[..], base, next)
        decreases end - i
      {
        ghost var endOf := if i + 1 == end then s.region else None;
        WalkGoesOn(sizes, s, old(delivered), delivered, i, maIdx);
        var access := None;
        if maIdx < |s.accesses| && s.accesses[maIdx].inst == i {
          access := Some(s.accesses[maIdx].access);
          maIdx := maIdx + 1;
        }
        InBatchOneMore(mcis[..], indexMap, delivered, base, next, Item(s.block, i, access, endOf));
        DeliverOne(mcis, next, s.block, i, access, endOf);
        i := i + 1;
        next := next + 1;
      }
      WalkEnds(sizes, s, old(delivered), delivered, maIdx);
    }

    /** The number of instructions asked for: all that fit if the size is negative or too large. */
    static function Room(capacity: nat, size: int): nat {
      if size < 0 || size > capacity then capacity else size
    }

    /** Delivers all slices of a batch, one after the other. */
    method DeliverAll(selected: seq<Slice<A>>, mcis: array<Inst>) returns (count: nat)
      requires MetadataOk() && QueueOk(sizes, selected) && |Content(sizes, selected)| <= mcis.Length
      modifies mcis, `totalNumTraces, `instAddrs, `memAccesses, `indexMap, `delivered
      ensures MetadataOk() && delivered == old(delivered) + Content(sizes, selected)
      ensures count == |Content(sizes, selected)| && BatchOk(mcis[..], |old(delivered)|, count)
    {
      hide SliceOk, Items, ByTokenOk;
      count := 0;
      var k := 0;
      assert selected[0..] == selected;
      while k < |selected|
        invariant k <= |selected| && QueueOk(sizes, selected[k..]) && MetadataOk()
        invariant count + |Content(sizes, selected[k..])| <= mcis.Length
        invariant |delivered| == |old(delivered)| + count && BatchOk(mcis[..], |old(delivered)|, count)
        invariant delivered + Content(sizes, selected[k..]) == old(delivered) + Content(sizes, selected)
      {
        ghost var before, tail := delivered, selected[k..];
        assert tail[0] == selected[k] && tail[1..] == selected[k + 1..];
        count := DeliverSlice(selected[k], mcis, count, |old(delivered)|);
        assert before + Content(sizes, tail) == before + Items(sizes, selected[k]) + Content(sizes, selected[k + 1..]);
        k := k + 1;
      }
      assert selected[k..] == [];
      assert delivered + [] == delivered;
    }

    /** One fetch: answers -1 if nothing is left, otherwise delivers the selected slices.
        Blocking until there is something to answer is a precondition; the other is that the
        selected slices lie in their blocks, as they do if the whole queue does. */
    method FetchRegion(mcis: array<Inst>, size: int) returns (count: int, isEnd: bool, description: string)
      requires MetadataOk() && Readable(sizes, tbQueue) && (tbQueue != [] || isEndOfStream)
      requires QueueOk(sizes, Select(sizes, tbQueue, Room(mcis.Length, size)).0)
      modifies mcis, `tbQueue, `totalNumTraces, `instAddrs, `memAccesses, `indexMap, `delivered
      ensures MetadataOk() && Readable(sizes, tbQueue)
      // a queue in order stays in order unless a slice had to be cut behind the end of its block
      ensures old(Valid()) ==>
                (Valid() <==>
                  size == 0 || Cuttable(sizes, old(tbQueue), if 0 <= size <= mcis.Length then size else mcis.Length))
      ensures size == 0 ==> count == 0 && !isEnd && tbQueue == old(tbQueue) && delivered == old(delivered)
      ensures size != 0 && old(tbQueue) == [] ==>
                count == -1 && isEnd && description == "" && tbQueue == [] && delivered == old(delivered)
      ensures size != 0 && old(tbQueue) != [] ==>
                var (taken, rest) := Select(sizes, old(tbQueue), if 0 <= size <= mcis.Length then size else mcis.Length);
                && QueueOk(sizes, taken) && tbQueue == rest
                && delivered == old(delivered) + Content(sizes, taken)
                && count == |Content(sizes, taken)| && BatchOk(mcis[..], |old(delivered)|, count)
                && (if isEnd then Some(description) else None) == LastRegion(taken)
    {
      if size == 0 { return 0, false, ""; }
      if tbQueue == [] { return -1, true, ""; }
      var room := Room(mcis.Length, size);
      SelectedFit(sizes, tbQueue, room);
      if Valid() { SelectKeepsContent(sizes, tbQueue, room); }
      hide Select;
      hide Cuttable;
      hide Content;
      var selected := SelectSlices(room);
      count := DeliverAll(selected, mcis);
      isEnd, description := false, "";
      if selected != [] && selected[|selected| - 1].region.Some? {
        isEnd, description := true, selected[|selected| - 1].region.value;
      }
    }

  }

  lemma {:induction false} ReadableAppend<A>(sizes: seq<nat>, q: seq<Slice<A>>, r: seq<Slice<A>>)
    requires Readable(sizes, q) && Readable(sizes, r)
    ensures Readable(sizes, q + r)
  {
    if q == [] {
      assert q + r == r;
    } else {
      ReadableAppend(sizes, q[1..], r);
      assert (q + r)[1..] == q[1..] + r;
    }
  }

  lemma CutBounds<A>(sizes: seq<nat>, s: Slice<A>, room: nat)
    requires s.block < |sizes| && s.begin <= s.end && 0 < room < SliceLen(sizes, s)
    ensures var (taken, rest) := CutParts(s, room);
            rest.block == s.block && rest.begin <= rest.end && taken.region.None?
  {
  }
}
