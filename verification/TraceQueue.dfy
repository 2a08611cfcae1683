/** The broker's queue of block slices: cutting slices to the size of a batch, and delivering
their instructions in order with the metadata that belongs to them. */
module TraceQueue {
  import opened Wrappers

  const OPEN_END: nat := 0xffff  // the end index of a slice that goes to the end of its block

  /** A memory access descriptor and the instruction of the block it belongs to. */
  datatype Entry<A> = Entry(inst: nat, access: A)

  /** Instructions `begin` to `end` of a block; `region` describes the region that ends with
      the slice, if one does. */
  datatype Slice<A> = Slice(block: nat, begin: nat, end: nat, region: Option<string>, accesses: seq<Entry<A>>)

  /** One delivered instruction: where it comes from, its memory access, and the region that
      ends with it. */
  datatype Item<A> = Item(block: nat, inst: nat, access: Option<A>, endOf: Option<string>)

  ghost predicate Sorted<A>(es: seq<Entry<A>>) {
    forall i: nat, j: nat | i < j < |es| :: es[i].inst < es[j].inst
  }

  function AccessOf<A>(es: seq<Entry<A>>, i: nat): Option<A> {
    if es == [] then None else if es[0].inst == i then Some(es[0].access) else AccessOf(es[1..], i)
  }

  /** First entry that belongs to instruction `p` or a later one. */
  function LowerBound<A>(es: seq<Entry<A>>, p: nat): (k: nat)
    ensures k <= |es|
    ensures forall i: nat | i < k :: es[i].inst < p
    ensures k < |es| ==> es[k].inst >= p
  {
    if es == [] || es[0].inst >= p then 0 else 1 + LowerBound(es[1..], p)
  }

  /** `sizes` are the numbers of instructions of the translated blocks. */
  function Stop<A>(sizes: seq<nat>, s: Slice<A>): nat
    requires s.block < |sizes|
  {
    Min(sizes[s.block], s.end)
  }

  /** Accesses in order, of instructions from `begin` on. */
  ghost predicate AccessesOk<A>(es: seq<Entry<A>>, begin: nat) {
    Sorted(es) && forall e | e in es :: e.inst >= begin
  }

  /** A slice that lies in its block; one that ends a region is closed and not empty. */
  ghost predicate SliceOk<A>(sizes: seq<nat>, s: Slice<A>) {
    && s.block < |sizes| && sizes[s.block] <= OPEN_END
    && s.begin <= Stop(sizes, s)
    && AccessesOk(s.accesses, s.begin)
    && (s.region.Some? ==> s.begin < s.end <= sizes[s.block])
  }

  ghost predicate QueueOk<A>(sizes: seq<nat>, q: seq<Slice<A>>) {
    q == [] || (SliceOk(sizes, q[0]) && QueueOk(sizes, q[1..]))
  }

  /** The instructions of a slice from index `i` on. */
  function ItemsFrom<A>(sizes: seq<nat>, s: Slice<A>, i: nat): (r: seq<Item<A>>)
    requires s.block < |sizes| && i <= Stop(sizes, s)
    ensures |r| == Stop(sizes, s) - i
    decreases Stop(sizes, s) - i
  {
    if i == Stop(sizes, s) then [] else
      [Item(s.block, i, AccessOf(s.accesses, i), if i + 1 == Stop(sizes, s) then s.region else None)]
      + ItemsFrom(sizes, s, i + 1)
  }

  ghost function Items<A>(sizes: seq<nat>, s: Slice<A>): seq<Item<A>>
    requires SliceOk(sizes, s)
  {
    ItemsFrom(sizes, s, s.begin)
  }

  /** The instructions that a queue of slices stands for. */
  ghost function Content<A>(sizes: seq<nat>, q: seq<Slice<A>>): seq<Item<A>>
    requires QueueOk(sizes, q)
  {
    if q == [] then [] else Items(sizes, q[0]) + Content(sizes, q[1..])
  }

  lemma ItemsUnfold<A>(sizes: seq<nat>, s: Slice<A>, i: nat)
    requires s.block < |sizes| && i <= Stop(sizes, s)
    ensures ItemsFrom(sizes, s, i) ==
            if i == Stop(sizes, s) then []
            else [Item(s.block, i, AccessOf(s.accesses, i), if i + 1 == Stop(sizes, s) then s.region else None)]
                 + ItemsFrom(sizes, s, i + 1)
  {
  }

  lemma OneSlice<A>(sizes: seq<nat>, s: Slice<A>, q: seq<Slice<A>>)
    requires SliceOk(sizes, s) && QueueOk(sizes, q)
    ensures QueueOk(sizes, [s] + q) && Content(sizes, [s] + q) == Items(sizes, s) + Content(sizes, q)
  {
    hide SliceOk, Items;
    HeadAndTail(s, q);
  }

  lemma FirstSlice<A>(sizes: seq<nat>, q: seq<Slice<A>>)
    requires QueueOk(sizes, q) && q != []
    ensures q[0].block < |sizes| && q[0].begin <= q[0].end
    ensures SliceOk(sizes, q[0]) && QueueOk(sizes, q[1..]) && Content(sizes, q) == Items(sizes, q[0]) + Content(sizes, q[1..])
  {
  }

  lemma EmptyQueue<A>(sizes: seq<nat>)
    ensures QueueOk<A>(sizes, []) && Content<A>(sizes, []) == []
  {
  }

  lemma {:induction false} ContentAppend<A>(sizes: seq<nat>, p: seq<Slice<A>>, q: seq<Slice<A>>)
    requires QueueOk(sizes, p) && QueueOk(sizes, q)
    ensures QueueOk(sizes, p + q) && Content(sizes, p + q) == Content(sizes, p) + Content(sizes, q)
  {
    hide SliceOk, Items, QueueOk, Content;
    if p == [] {
      EmptyQueue<A>(sizes);
      assert p + q == q && [] + Content(sizes, q) == Content(sizes, q);
    } else {
      FirstSlice(sizes, p);
      ContentAppend(sizes, p[1..], q);
      OneSlice(sizes, p[0], p[1..] + q);
      assert p + q == [p[0]] + (p[1..] + q);
      ConcatAssoc(Items(sizes, p[0]), Content(sizes, p[1..]), Content(sizes, q));
    }
  }

  // ---------------------------------------------------------------------------
  // Splitting
  // ---------------------------------------------------------------------------

  /** The part of a slice before instruction `p`, and the part from `p` on; the accesses are
      divided accordingly. */
  function Split<A>(s: Slice<A>, p: nat): (Slice<A>, Slice<A>) {
    var k := LowerBound(s.accesses, p);
    (s.(end := p, accesses := s.accesses[..k]), s.(begin := p, accesses := s.accesses[k..]))
  }

  lemma {:induction false} AccessOfParts<A>(es: seq<Entry<A>>, p: nat, i: nat)
    requires Sorted(es)
    ensures AccessOf(es, i) == if i < p then AccessOf(es[..LowerBound(es, p)], i) else AccessOf(es[LowerBound(es, p)..], i)
  {
    var k := LowerBound(es, p);
    if es == [] || es[0].inst >= p {
      assert es[0..] == es && es[..0] == [];
      if i < p { NoAccessBefore(es, i); }
    } else {
      assert Sorted(es[1..]);
      AccessOfParts(es[1..], p, i);
      assert es[..k][1..] == es[1..][..k - 1];
      assert es[k..] == es[1..][k - 1..];
    }
  }

  lemma {:induction false} NoAccessBefore<A>(es: seq<Entry<A>>, i: nat)
    requires forall e | e in es :: e.inst > i
    ensures AccessOf(es, i).None?
  {
    if es == [] {
    } else {
      assert es[0] in es;
      NoAccessBefore(es[1..], i);
    }
  }

  lemma {:induction false} ItemsCut<A>(sizes: seq<nat>, s: Slice<A>, p: nat, i: nat)
    requires SliceOk(sizes, s) && s.begin <= i <= p < Stop(sizes, s)
    ensures var (a, b) := Split(s, p);
            ItemsFrom(sizes, s, i) == ItemsFrom(sizes, a.(region := None), i) + ItemsFrom(sizes, b, p)
    decreases p - i
  {
    hide ItemsFrom, AccessOf, LowerBound;
    var (a, b) := Split(s, p);
    var front := a.(region := None);
    ItemsUnfold(sizes, front, i);
    if i == p {
      ItemsTail(sizes, s, p, p);
      assert [] + ItemsFrom(sizes, b, p) == ItemsFrom(sizes, b, p);
    } else {
      ItemsUnfold(sizes, s, i);
      AccessOfParts(s.accesses, p, i);
      ItemsCut(sizes, s, p, i + 1);
      ConcatAssoc([Item(s.block, i, AccessOf(s.accesses, i), None)], ItemsFrom(sizes, front, i + 1), ItemsFrom(sizes, b, p));
    }
  }

  lemma {:induction false} ItemsTail<A>(sizes: seq<nat>, s: Slice<A>, p: nat, i: nat)
    requires SliceOk(sizes, s) && s.begin <= p <= i <= Stop(sizes, s)
    ensures ItemsFrom(sizes, s, i) == ItemsFrom(sizes, Split(s, p).1, i)
    decreases Stop(sizes, s) - i
  {
    hide ItemsFrom, AccessOf, LowerBound;
    ItemsUnfold(sizes, s, i);
    ItemsUnfold(sizes, Split(s, p).1, i);
    if i == Stop(sizes, s) {
    } else {
      AccessOfParts(s.accesses, p, i);
      ItemsTail(sizes, s, p, i + 1);
    }
  }

  // ---------------------------------------------------------------------------
  // Selecting the slices of a batch
  // ---------------------------------------------------------------------------

  /** The length that a fetch assumes for a slice. */
  function SliceLen<A>(sizes: seq<nat>, s: Slice<A>): nat
    requires s.block < |sizes| && s.begin <= s.end
  {
    Min(sizes[s.block], s.end - s.begin)
  }

  /** Slices whose block and bounds the fetch may look at. */
  ghost predicate Readable<A>(sizes: seq<nat>, q: seq<Slice<A>>) {
    q == [] || (q[0].block < |sizes| && q[0].begin <= q[0].end && Readable(sizes, q[1..]))
  }

  /** Takes slices from the front until `room` instructions are found or a region ends; the
      last one is cut if it is too long. */
  function Select<A>(sizes: seq<nat>, q: seq<Slice<A>>, room: nat): (r: (seq<Slice<A>>, seq<Slice<A>>))
    requires Readable(sizes, q)
  {
    if room == 0 || q == [] then ([], q)
    else
      var cur := q[0];
      if SliceLen(sizes, cur) > room then
        var (taken, rest) := Split(cur, cur.begin + room);
        ([taken.(region := None)], [rest] + q[1..])
      else if cur.region.Some? then ([cur], q[1..])
      else
        var (taken, rest) := Select(sizes, q[1..], room - SliceLen(sizes, cur));
        ([cur] + taken, rest)
  }

  /** No slice is cut behind the end of its block. */
  predicate Cuttable<A>(sizes: seq<nat>, q: seq<Slice<A>>, room: nat)
    requires Readable(sizes, q)
  {
    room == 0 || q == [] ||
    (var cur := q[0];
     if SliceLen(sizes, cur) > room then cur.begin + room <= sizes[cur.block]
     else cur.region.Some? || Cuttable(sizes, q[1..], room - SliceLen(sizes, cur)))
  }

  lemma {:induction false} OkIsReadable<A>(sizes: seq<nat>, q: seq<Slice<A>>)
    requires QueueOk(sizes, q)
    ensures Readable(sizes, q)
  {
    if q == [] {
    } else {
      OkIsReadable(sizes, q[1..]);
    }
  }

  lemma SplitAccesses<A>(es: seq<Entry<A>>, begin: nat, p: nat)
    requires AccessesOk(es, begin)
    ensures var k := LowerBound(es, p); AccessesOk(es[..k], begin) && AccessesOk(es[k..], p)
  {
    var k := LowerBound(es, p);
    forall e | e in es[k..] ensures e.inst >= p {
      var i: nat :| i < |es[k..]| && es[k..][i] == e;
      assert es[k + i] == e;
      if i > 0 { assert es[k].inst < es[k + i].inst; }
    }
  }

  /** The accesses are divided between the parts: none is lost or copied, and each goes with its instruction. */
  lemma SplitDivides<A>(s: Slice<A>, p: nat)
    requires Sorted(s.accesses)
    ensures var (a, b) := Split(s, p);
            && a.accesses + b.accesses == s.accesses
            && (forall e | e in a.accesses :: e.inst < p) && (forall e | e in b.accesses :: e.inst >= p)
  {
    SplitAccesses(s.accesses, 0, p);
  }

  /** A cut within the block leaves two slices in order; a cut behind the end of the block
      leaves one that starts behind it. */
  lemma CutKeepsOk<A>(sizes: seq<nat>, s: Slice<A>, room: nat)
    requires SliceOk(sizes, s) && 0 < room < SliceLen(sizes, s)
    ensures var (taken, rest) := Split(s, s.begin + room);
            && SliceOk(sizes, taken.(region := None))
            && (SliceOk(sizes, rest) <==> s.begin + room <= sizes[s.block])
  {
    hide AccessesOk, LowerBound;
    SplitAccesses(s.accesses, s.begin, s.begin + room);
  }

  /** The two parts of a slice in order stand for the same instructions. */
  lemma CutKeepsItems<A>(sizes: seq<nat>, s: Slice<A>, room: nat)
    requires SliceOk(sizes, s) && 0 < room < SliceLen(sizes, s)
    requires s.begin + room <= sizes[s.block]
    ensures var (taken, rest) := Split(s, s.begin + room);
            && SliceOk(sizes, taken.(region := None)) && SliceOk(sizes, rest)
            && Items(sizes, taken.(region := None)) + Items(sizes, rest) == Items(sizes, s)
  {
    hide AccessesOk, ItemsFrom, LowerBound;
    var p := s.begin + room;
    CutKeepsOk(sizes, s, room);
    ItemsUnfold(sizes, Split(s, p).1, p);
    if p < Stop(sizes, s) {
      ItemsCut(sizes, s, p, s.begin);
    } else {
      // an open slice cut exactly at the end of its block
      ItemsCutAtEnd(sizes, s, p, s.begin);
      assert Items(sizes, s) + [] == Items(sizes, s);
    }
  }

  lemma {:induction false} ItemsCutAtEnd<A>(sizes: seq<nat>, s: Slice<A>, p: nat, i: nat)
    requires SliceOk(sizes, s) && s.region.None? && s.begin <= i <= p == Stop(sizes, s)
    ensures ItemsFrom(sizes, s, i) == ItemsFrom(sizes, Split(s, p).0.(region := None), i)
    decreases p - i
  {
    hide ItemsFrom, AccessOf, LowerBound;
    ItemsUnfold(sizes, s, i);
    ItemsUnfold(sizes, Split(s, p).0.(region := None), i);
    if i == p {
    } else {
      AccessOfParts(s.accesses, p, i);
      ItemsCutAtEnd(sizes, s, p, i + 1);
    }
  }

  /** Number of instructions in the selected slices. */
  ghost function Length<A>(sizes: seq<nat>, q: seq<Slice<A>>): nat
    requires QueueOk(sizes, q)
  {
    |Content(sizes, q)|
  }

  /** The three ways in which `Select` uses the first slice. */
  datatype Use = Cuts | Ends | GoesOn

  function UseOfFirst<A>(sizes: seq<nat>, q: seq<Slice<A>>, room: nat): Use
    requires Readable(sizes, q) && q != []
  {
    if SliceLen(sizes, q[0]) > room then Cuts else if q[0].region.Some? then Ends else GoesOn
  }

  lemma OneAlone<A>(sizes: seq<nat>, s: Slice<A>)
    requires SliceOk(sizes, s)
    ensures QueueOk(sizes, [s]) && Content(sizes, [s]) == Items(sizes, s)
  {
    hide SliceOk, Items;
    assert [s][1..] == [];
    assert Content(sizes, [s]) == Items(sizes, s) + [];
  }

  lemma ItemsFit<A>(sizes: seq<nat>, s: Slice<A>)
    requires SliceOk(sizes, s)
    ensures |Items(sizes, s)| == Stop(sizes, s) - s.begin && |Items(sizes, s)| <= SliceLen(sizes, s)
  {
  }

  /** A cut slice, as two slices. */
  function CutParts<A>(s: Slice<A>, room: nat): (Slice<A>, Slice<A>) {
    var (taken, rest) := Split(s, s.begin + room);
    (taken.(region := None), rest)
  }

  /** `Select` and `Cuttable`, one slice at a time. */
  lemma SelectUnfold<A>(sizes: seq<nat>, q: seq<Slice<A>>, room: nat)
    requires Readable(sizes, q) && room > 0 && q != []
    ensures Readable(sizes, q[1..])
    ensures match UseOfFirst(sizes, q, room)
            case Cuts =>
              && Select(sizes, q, room) == ([CutParts(q[0], room).0], [CutParts(q[0], room).1] + q[1..])
              && (Cuttable(sizes, q, room) <==> q[0].begin + room <= sizes[q[0].block])
            case Ends => Select(sizes, q, room) == ([q[0]], q[1..]) && Cuttable(sizes, q, room)
            case GoesOn =>
              var n := room - SliceLen(sizes, q[0]);
              && Select(sizes, q, room) == ([q[0]] + Select(sizes, q[1..], n).0, Select(sizes, q[1..], n).1)
              && Cuttable(sizes, q, room) == Cuttable(sizes, q[1..], n)
  {
  }

  lemma NothingSelected<A>(sizes: seq<nat>, q: seq<Slice<A>>, room: nat)
    requires Readable(sizes, q) && (room == 0 || q == [])
    ensures Select(sizes, q, room) == ([], q) && Cuttable(sizes, q, room)
    ensures QueueOk<A>(sizes, []) && Content<A>(sizes, []) == []
  {
  }

  lemma CutPartsKeepContent<A>(sizes: seq<nat>, s: Slice<A>, q: seq<Slice<A>>, room: nat)
    requires SliceOk(sizes, s) && QueueOk(sizes, q) && 0 < room < SliceLen(sizes, s)
    ensures var (taken, rest) := CutParts(s, room);
            && QueueOk(sizes, [taken]) && |Content(sizes, [taken])| <= room
            && (QueueOk(sizes, [rest] + q) <==> s.begin + room <= sizes[s.block])
            && (QueueOk(sizes, [rest] + q) ==>
                  Content(sizes, [taken]) + Content(sizes, [rest] + q) == Items(sizes, s) + Content(sizes, q))
  {
    hide AccessesOk, ItemsFrom, Items, LowerBound;
    var (taken, rest) := CutParts(s, room);
    CutKeepsOk(sizes, s, room);
    assert Stop(sizes, taken) - taken.begin <= room;
    ItemsFit(sizes, taken);
    if s.begin + room <= sizes[s.block] { CutKeepsItems(sizes, s, room); }
    OneAlone(sizes, taken);
    if SliceOk(sizes, rest) {
      OneSlice(sizes, rest, q);
    } else {
      assert ([rest] + q)[0] == rest;
    }
  }

  /** What is selected and what is left stand for the same instructions as before, and the
      selected ones fit into the batch; the queue stays in order exactly if no slice is cut
      behind the end of its block. */
  lemma {:induction false} SelectKeepsContent<A>(sizes: seq<nat>, q: seq<Slice<A>>, room: nat)
    requires QueueOk(sizes, q)
    ensures Readable(sizes, q)
    ensures var (taken, rest) := Select(sizes, q, room);
            && QueueOk(sizes, taken) && |Content(sizes, taken)| <= room
            && (QueueOk(sizes, rest) <==> Cuttable(sizes, q, room))
            && (QueueOk(sizes, rest) ==> Content(sizes, taken) + Content(sizes, rest) == Content(sizes, q))
  {
    hide Select, Cuttable, SliceOk, QueueOk, Items, Content, CutParts, Readable;
    OkIsReadable(sizes, q);
    if room == 0 || q == [] {
      NothingSelected(sizes, q, room);
    } else {
      var cur := q[0];
      FirstSlice(sizes, q);
      SelectUnfold(sizes, q, room);
      ItemsFit(sizes, cur);
      match UseOfFirst(sizes, q, room)
      case Cuts => CutPartsKeepContent(sizes, cur, q[1..], room);
      case Ends => OneAlone(sizes, cur);
      case GoesOn =>
        var n := room - SliceLen(sizes, cur);
        SelectKeepsContent(sizes, q[1..], n);
        OneSlice(sizes, cur, Select(sizes, q[1..], n).0);
    }
  }

  /** Whatever else is queued, selected slices that lie in their blocks fit into the batch. */
  lemma {:induction false} SelectedFit<A>(sizes: seq<nat>, q: seq<Slice<A>>, room: nat)
    requires Readable(sizes, q) && QueueOk(sizes, Select(sizes, q, room).0)
    ensures |Content(sizes, Select(sizes, q, room).0)| <= room
  {
    hide Select, Cuttable, SliceOk, QueueOk, Items, Content, Readable;
    if room == 0 || q == [] {
      NothingSelected(sizes, q, room);
    } else {
      var taken := Select(sizes, q, room).0;
      SelectUnfold(sizes, q, room);
      FirstSlice(sizes, taken);
      ItemsFit(sizes, taken[0]);
      match UseOfFirst(sizes, q, room)
      case Cuts => OneAlone(sizes, taken[0]);
      case Ends => OneAlone(sizes, taken[0]);
      case GoesOn =>
        assert taken[1..] == Select(sizes, q[1..], room - SliceLen(sizes, q[0])).0;
        SelectedFit(sizes, q[1..], room - SliceLen(sizes, q[0]));
    }
  }

  /** The instructions that a fetch assumes in the first `k` slices: of each as many as its bounds
      allow, but no more than its block has. */
  function Assumed<A>(sizes: seq<nat>, q: seq<Slice<A>>, k: nat): nat
    requires Readable(sizes, q) && k <= |q|
    decreases k
  {
    if k == 0 then 0
    else Min(sizes[q[0].block], q[0].end - q[0].begin) + Assumed(sizes, q[1..], k - 1)
  }

  /** A fetch takes `k` slices: they are assumed to be the first with enough instructions for the
      batch, or the last ends a region and none before it does, or there are no more.  The last is
      cut if there are too many, so that exactly as many as asked for are assumed; and what is not
      taken stays in the queue. */
  ghost predicate Takes<A>(sizes: seq<nat>, q: seq<Slice<A>>, room: nat, k: nat)
    requires Readable(sizes, q)
  {
    && 0 < k <= |q| && Assumed(sizes, q, k - 1) < room && (forall j: nat | j < k - 1 :: q[j].region.None?)
    && if Assumed(sizes, q, k) > room then
         var (taken, rest) := CutParts(q[k - 1], room - Assumed(sizes, q, k - 1));
         Select(sizes, q, room) == (q[..k - 1] + [taken], [rest] + q[k..])
       else
         && Select(sizes, q, room) == (q[..k], q[k..])
         && (k == |q| || Assumed(sizes, q, k) == room || q[k - 1].region.Some?)
  }

  lemma AssumedUnfold<A>(sizes: seq<nat>, q: seq<Slice<A>>, k: nat)
    requires Readable(sizes, q) && k < |q|
    ensures q[0].block < |sizes| && q[0].begin <= q[0].end && Readable(sizes, q[1..])
    ensures Assumed(sizes, q, k + 1) == Min(sizes[q[0].block], q[0].end - q[0].begin) + Assumed(sizes, q[1..], k)
    ensures Assumed(sizes, q, 0) == 0 == Assumed(sizes, q[1..], 0)
  {
  }

  lemma {:induction false} SelectTakes<A>(sizes: seq<nat>, q: seq<Slice<A>>, room: nat) returns (k: nat)
    requires Readable(sizes, q) && room > 0 && q != []
    ensures Takes(sizes, q, room, k)
  {
    hide Select, Assumed, CutParts, Readable, Cuttable;
    AssumedUnfold(sizes, q, 0);
    SelectUnfold(sizes, q, room);
    k := 1;
    var n := SliceLen(sizes, q[0]);
    assert q[..1] == [q[0]] && q[..0] == [];
    match UseOfFirst(sizes, q, room)
    case Cuts => assert [] + [CutParts(q[0], room).0] == [CutParts(q[0], room).0];
    case Ends =>
    case GoesOn =>
      if n == room || q[1..] == [] {
        NothingSelected(sizes, q[1..], room - n);
        assert [q[0]] + [] == [q[0]];
      } else {
        var m := SelectTakes(sizes, q[1..], room - n);
        k := m + 1;
        AssumedUnfold(sizes, q, m);
        AssumedUnfold(sizes, q, m - 1);
        OneMoreTaken(q, m);
        ConcatAssoc([q[0]], q[1..][..m - 1], [CutParts(q[m], room - n - Assumed(sizes, q[1..], m - 1)).0]);
      }
  }

  lemma OneMoreTaken<A>(q: seq<Slice<A>>, m: nat)
    requires 0 < m < |q|
    ensures q[..m + 1] == [q[0]] + q[1..][..m] && q[..m] == [q[0]] + q[1..][..m - 1]
    ensures q[m + 1..] == q[1..][m..] && q[m] == q[1..][m - 1]
    ensures forall j: nat | 0 < j < |q| :: q[j] == q[1..][j - 1]
  {
    assert q == [q[0]] + q[1..];
    assert q[..m + 1] == [q[0]] + q[1..][..m];
    assert q[..m] == [q[0]] + q[1..][..m - 1];
    assert q[m + 1..] == q[1..][m..];
  }

  // ---------------------------------------------------------------------------
  // Region ends
  // ---------------------------------------------------------------------------

  /** No region ends before the last of the items, and `flag` says whether one ends with it. */
  ghost predicate EndsOnlyAtLast<A>(items: seq<Item<A>>, flag: Option<string>) {
    && (forall i: nat | i + 1 < |items| :: items[i].endOf.None?)
    && (flag == if items == [] then None else items[|items| - 1].endOf)
  }

  function LastRegion<A>(taken: seq<Slice<A>>): Option<string> {
    if taken == [] then None else taken[|taken| - 1].region
  }

  lemma {:induction false} ItemsEnd<A>(sizes: seq<nat>, s: Slice<A>, i: nat)
    requires s.block < |sizes| && i <= Stop(sizes, s)
    ensures var r := ItemsFrom(sizes, s, i);
            && (forall k: nat | k + 1 < |r| :: r[k].endOf.None?)
            && (r != [] ==> r[|r| - 1].endOf == s.region)
    decreases Stop(sizes, s) - i
  {
    if i == Stop(sizes, s) {
    } else {
      ItemsEnd(sizes, s, i + 1);
    }
  }

  lemma {:induction false} EndsConcat<A>(a: seq<Item<A>>, b: seq<Item<A>>, flag: Option<string>)
    requires EndsOnlyAtLast(a, None) && EndsOnlyAtLast(b, flag)
    ensures EndsOnlyAtLast(a + b, flag)
  {
  }

  lemma NoItems<A>()
    ensures EndsOnlyAtLast<A>([], None)
  {
  }

  lemma ItemsEndOnlyAtLast<A>(sizes: seq<nat>, s: Slice<A>)
    requires SliceOk(sizes, s)
    ensures EndsOnlyAtLast(Items(sizes, s), s.region)
  {
    ItemsEnd(sizes, s, s.begin);
  }

  /** A batch never goes past the end of a region, and the end is reported exactly with the
      region's last instruction. */
  lemma {:induction false} SelectStopsAtRegionEnd<A>(sizes: seq<nat>, q: seq<Slice<A>>, room: nat)
    requires QueueOk(sizes, q)
    ensures Readable(sizes, q)
    ensures var taken := Select(sizes, q, room).0;
            QueueOk(sizes, taken) && EndsOnlyAtLast(Content(sizes, taken), LastRegion(taken))
  {
    hide EndsOnlyAtLast, Select, Cuttable, SliceOk, QueueOk, Items, Content, Readable;
    OkIsReadable(sizes, q);
    if room == 0 || q == [] {
      NothingSelected(sizes, q, room);
      NoItems<A>();
    } else {
      var cur := q[0];
      FirstSlice(sizes, q);
      ItemsEndOnlyAtLast(sizes, cur);
      SelectUnfold(sizes, q, room);
      match UseOfFirst(sizes, q, room)
      case Cuts =>
        CutKeepsOk(sizes, cur, room);
        var taken := CutParts(cur, room).0;
        ItemsEndOnlyAtLast(sizes, taken);
        OneAlone(sizes, taken);
      case Ends => OneAlone(sizes, cur);
      case GoesOn =>
        var n := room - SliceLen(sizes, cur);
        SelectStopsAtRegionEnd(sizes, q[1..], n);
        var taken := Select(sizes, q[1..], n).0;
        OneSlice(sizes, cur, taken);
        if taken == [] { assert [cur] + taken == [cur]; }
        EndsConcat(Items(sizes, cur), Content(sizes, taken), LastRegion(taken));
    }
  }

  // ---------------------------------------------------------------------------
  // Accesses
  // ---------------------------------------------------------------------------

  /** Where a walk through a sorted chain stands when it comes to instruction `i`. */
  lemma {:induction false} AccessWalk<A>(es: seq<Entry<A>>, m: nat, i: nat)
    requires Sorted(es) && m <= |es|
    requires forall k: nat | k < m :: es[k].inst < i
    requires m < |es| ==> es[m].inst >= i
    ensures AccessOf(es, i) == if m < |es| && es[m].inst == i then Some(es[m].access) else None
    ensures m + 1 < |es| ==> es[m + 1].inst >= i + 1
  {
    if m > 0 {
      assert forall k: nat | k < m - 1 :: es[1..][k] == es[k + 1];
      AccessWalk(es[1..], m - 1, i);
    } else if es != [] && es[0].inst > i {
      forall e | e in es ensures e.inst > i {
        var k: nat :| k < |es| && es[k] == e;
      }
      NoAccessBefore(es, i);
    }
  }

  /** The accesses that items carry, each with the block and the instruction that got it. */
  function Carried<A>(items: seq<Item<A>>): seq<(nat, Entry<A>)> {
    if items == [] then [] else
      (if items[0].access.Some? then [(items[0].block, Entry(items[0].inst, items[0].access.value))] else [])
      + Carried(items[1..])
  }

  lemma {:induction false} CarriedAppend<A>(a: seq<Item<A>>, b: seq<Item<A>>)
    ensures Carried(a + b) == Carried(a) + Carried(b)
  {
    hide Carried;
    NothingCarried<A>();
    if a == [] {
      assert a + b == b;
    } else {
      var x, rest := a[0], a[1..];
      CarriedAppend(rest, b);
      CarriedOne(x, rest);
      CarriedOne(x, rest + b);
      assert a == [x] + rest && a + b == [x] + (rest + b);
      if x.access.Some? { ConcatAssoc([(x.block, Entry(x.inst, x.access.value))], Carried(rest), Carried(b)); }
    }
  }

  function Tagged<A>(block: nat, es: seq<Entry<A>>): (r: seq<(nat, Entry<A>)>)
    ensures |r| == |es|
    ensures forall k: nat | k < |es| :: r[k] == (block, es[k])
  {
    seq(|es|, k requires 0 <= k < |es| => (block, es[k]))
  }

  /** The entries of a chain that belong to instructions below `stop`. */
  function Below<A>(es: seq<Entry<A>>, stop: nat): (r: seq<Entry<A>>)
    ensures r <= es
  {
    es[..LowerBound(es, stop)]
  }

  lemma BelowIsAllIff<A>(es: seq<Entry<A>>, stop: nat)
    requires Sorted(es)
    ensures |Below(es, stop)| == |es| <==> forall e | e in es :: e.inst < stop
  {
    var k := LowerBound(es, stop);
    if k < |es| { assert es[k] in es; }
  }

  /** The instructions of a slice get exactly the accesses of its chain, in order, except those
      of instructions behind the end of the slice or of its block. */
  lemma ItemsCarry<A>(sizes: seq<nat>, s: Slice<A>)
    requires SliceOk(sizes, s)
    ensures Carried(Items(sizes, s)) == Tagged(s.block, Below(s.accesses, Stop(sizes, s)))
  {
    hide Sorted;
    forall k: nat | k < |s.accesses| ensures s.accesses[k].inst >= s.begin { assert s.accesses[k] in s.accesses; }
    ItemsCarryFrom(sizes, s, s.begin, 0);
    assert s.accesses[0..LowerBound(s.accesses, Stop(sizes, s))] == Below(s.accesses, Stop(sizes, s));
  }

  lemma {:induction false} ItemsCarryFrom<A>(sizes: seq<nat>, s: Slice<A>, i: nat, m: nat)
    requires SliceOk(sizes, s) && s.begin <= i <= Stop(sizes, s) && m <= |s.accesses|
    requires forall k: nat | k < m :: s.accesses[k].inst < i
    requires m < |s.accesses| ==> s.accesses[m].inst >= i
    ensures m <= LowerBound(s.accesses, Stop(sizes, s))
    ensures Carried(ItemsFrom(sizes, s, i)) == Tagged(s.block, s.accesses[m..LowerBound(s.accesses, Stop(sizes, s))])
    decreases Stop(sizes, s) - i
  {
    hide Sorted, LowerBound, Carried, ItemsFrom, Tagged, AccessOf;
    var es, stop := s.accesses, Stop(sizes, s);
    BelowBound(es, stop, m);
    ItemsUnfold(sizes, s, i);
    if i == stop {
      NothingCarried<A>();
      assert Tagged(s.block, es[m..m]) == [];
    } else {
      AccessWalk(es, m, i);
      CarriedOne(Item(s.block, i, AccessOf(es, i), if i + 1 == stop then s.region else None), ItemsFrom(sizes, s, i + 1));
      if m < |es| && es[m].inst == i {
        ItemsCarryFrom(sizes, s, i + 1, m + 1);
        TaggedOne(s.block, es, m, LowerBound(es, stop));
      } else {
        ItemsCarryFrom(sizes, s, i + 1, m);
      }
    }
  }

  lemma TaggedOne<A>(block: nat, es: seq<Entry<A>>, m: nat, n: nat)
    requires m < n <= |es|
    ensures Tagged(block, es[m..n]) == [(block, Entry(es[m].inst, es[m].access))] + Tagged(block, es[m + 1..n])
  {
  }

  lemma BelowBound<A>(es: seq<Entry<A>>, stop: nat, m: nat)
    requires m <= |es| && forall k: nat | k < m :: es[k].inst < stop
    ensures m <= LowerBound(es, stop)
    ensures m < |es| && es[m].inst >= stop ==> m == LowerBound(es, stop)
  {
  }

  lemma NothingCarried<A>()
    ensures Carried<A>([]) == []
  {
  }

  lemma CarriedOne<A>(item: Item<A>, rest: seq<Item<A>>)
    ensures Carried([item] + rest)
         == if item.access.Some? then [(item.block, Entry(item.inst, item.access.value))] + Carried(rest) else Carried(rest)
  {
    HeadAndTail(item, rest);
    assert [] + Carried(rest) == Carried(rest);
  }
}
