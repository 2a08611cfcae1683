/** Memory access descriptors: bundles of the accesses of one instruction, and the chain that
an executed block gets. */
module AccessChains {
  import opened TraceQueue

  datatype Access = Access(isStore: bool, addr: nat, size: nat)

  /** A first access, further ones of the same instruction, and the range meant to cover them. */
  datatype Bundle = Bundle(first: Access, rest: seq<Access>, extendedAddr: nat, extendedSize: nat)

  function Single(a: Access): Bundle { Bundle(a, [], a.addr, a.size) }

  function AppendTo(b: Bundle, a: Access): Bundle {
    var start := if a.addr < b.extendedAddr then a.addr else b.extendedAddr;
    var end := a.addr + a.size;
    b.(rest := b.rest + [a],
       extendedAddr := start,
       extendedSize := if end > start + b.extendedSize then end - start else b.extendedSize)
  }

  function AccessesOf(b: Bundle): seq<Access> { [b.first] + b.rest }

  predicate Covers(b: Bundle, a: nat, size: nat) {
    b.extendedAddr <= a && a + size <= b.extendedAddr + b.extendedSize
  }

  /** Appending always covers the new access.  It still covers what was covered before exactly
      unless the new access starts below the old range and also ends below its end: then the
      start moves down but the size does not grow enough. */
  lemma AppendCoversIff(b: Bundle, a: Access)
    ensures Covers(AppendTo(b, a), a.addr, a.size)
    ensures Covers(AppendTo(b, a), b.extendedAddr, b.extendedSize) <==>
              !(a.addr < b.extendedAddr && a.addr + a.size < b.extendedAddr + b.extendedSize)
  {
    if a.addr < b.extendedAddr && a.addr + a.size < b.extendedAddr + b.extendedSize {
      assert AppendTo(b, a).extendedAddr == a.addr;
    }
  }

  /** What becomes of a first access with others appended one by one. */
  function Bundled(first: Access, rest: seq<Access>): (b: Bundle)
    ensures b.first == first && b.rest == rest
  {
    if rest == [] then Single(first) else
      var n := |rest| - 1;
      assert rest[..n] + [rest[n]] == rest;
      AppendTo(Bundled(first, rest[..n]), rest[n])
  }

  function EndOf(a: Access): nat { a.addr + a.size }

  ghost predicate CoversAll(b: Bundle) {
    forall a | a in AccessesOf(b) :: Covers(b, a.addr, a.size)
  }

  /** `a` starts below all earlier accesses and ends below the end of one of them. */
  ghost predicate StartsAndEndsLower(before: seq<Access>, a: Access) {
    (forall p | p in before :: a.addr < p.addr) && exists p :: p in before && EndOf(a) < EndOf(p)
  }

  /** The stored range is the smallest that covers all accesses. */
  ghost predicate IsHull(b: Bundle) {
    && CoversAll(b)
    && (exists p :: p in AccessesOf(b) && p.addr == b.extendedAddr)
    && (exists p :: p in AccessesOf(b) && EndOf(p) == b.extendedAddr + b.extendedSize)
  }

  lemma HullStep(b: Bundle, a: Access)
    requires IsHull(b)
    ensures StartsAndEndsLower(AccessesOf(b), a) <==> a.addr < b.extendedAddr && EndOf(a) < b.extendedAddr + b.extendedSize
    ensures StartsAndEndsLower(AccessesOf(b), a) ==> !CoversAll(AppendTo(b, a))
    ensures !StartsAndEndsLower(AccessesOf(b), a) ==> IsHull(AppendTo(b, a))
  {
    var b' := AppendTo(b, a);
    var low :| low in AccessesOf(b) && low.addr == b.extendedAddr;
    var high :| high in AccessesOf(b) && EndOf(high) == b.extendedAddr + b.extendedSize;
    assert AccessesOf(b') == AccessesOf(b) + [a];
    assert low in AccessesOf(b') && high in AccessesOf(b') && a in AccessesOf(b');
    if a.addr < b.extendedAddr && EndOf(a) < b.extendedAddr + b.extendedSize {
      assert !Covers(b', high.addr, high.size);
    } else {
      forall p | p in AccessesOf(b') ensures Covers(b', p.addr, p.size) {
        if p in AccessesOf(b) { assert Covers(b, p.addr, p.size); }
      }
    }
  }

  ghost predicate AlwaysCovers(first: Access, rest: seq<Access>) {
    CoversAll(Bundled(first, rest)) && (rest != [] ==> AlwaysCovers(first, rest[..|rest| - 1]))
  }

  ghost predicate NoneLower(first: Access, rest: seq<Access>) {
    rest == [] ||
    (NoneLower(first, rest[..|rest| - 1]) && !StartsAndEndsLower([first] + rest[..|rest| - 1], rest[|rest| - 1]))
  }

  /** The stored range of a bundle covers all its accesses after every append if and only if no
      access starts below all before it and ends below one of them; and then it is the
      smallest range that does. */
  lemma {:induction false} AlwaysCoversIff(first: Access, rest: seq<Access>)
    ensures AlwaysCovers(first, rest) <==> NoneLower(first, rest)
    ensures NoneLower(first, rest) ==> IsHull(Bundled(first, rest))
  {
    hide IsHull, CoversAll, StartsAndEndsLower, AppendTo;
    if rest == [] {
      SingleIsHull(first);
    } else {
      var n := |rest| - 1;
      AlwaysCoversIff(first, rest[..n]);
      if NoneLower(first, rest[..n]) {
        HullStep(Bundled(first, rest[..n]), rest[n]);
        HullCovers(Bundled(first, rest));
      }
    }
  }

  lemma SingleIsHull(first: Access)
    ensures IsHull(Single(first)) && CoversAll(Single(first))
  {
    assert first in AccessesOf(Single(first));
  }

  lemma HullCovers(b: Bundle)
    ensures IsHull(b) ==> CoversAll(b)
  {
  }

  // ---------------------------------------------------------------------------
  // The chain of a block
  // ---------------------------------------------------------------------------

  /** An access as it is reported: which raw instruction did it. */
  datatype Reported = Reported(raw: nat, access: Access)

  type Chain = seq<Entry<Bundle>>

  /** One more access, of instruction `i`: merged with the last entry if that belongs to the
      same instruction. */
  function AddAccess(chain: Chain, i: nat, a: Access): Chain {
    var n := |chain|;
    if n > 0 && chain[n - 1].inst == i
    then chain[n - 1 := chain[n - 1].(access := AppendTo(chain[n - 1].access, a))]
    else chain + [Entry(i, Single(a))]
  }

  /** The accesses that lie in a slice, with the index of their instruction in the block. */
  function Retained(rs: seq<Reported>, skew: nat -> nat, begin: nat, end: nat): seq<(nat, Access)> {
    if rs == [] then [] else
      var r := rs[|rs| - 1];
      Retained(rs[..|rs| - 1], skew, begin, end) +
      if begin <= skew(r.raw) < end then [(skew(r.raw), r.access)] else []
  }

  /** Tags every access of a bundle with its instruction. */
  function Tagged(i: nat, accs: seq<Access>): (r: seq<(nat, Access)>)
    ensures |r| == |accs|
    ensures forall k | 0 <= k < |accs| :: r[k] == (i, accs[k])
  {
    seq(|accs|, k requires 0 <= k < |accs| => (i, accs[k]))
  }

  /** All accesses of a chain, one by one. */
  function Expanded(chain: Chain): seq<(nat, Access)> {
    if chain == [] then [] else
      var e := chain[|chain| - 1];
      Expanded(chain[..|chain| - 1]) + Tagged(e.inst, AccessesOf(e.access))
  }

  lemma ExpandedAdd(chain: Chain, i: nat, a: Access)
    ensures Expanded(AddAccess(chain, i, a)) == Expanded(chain) + [(i, a)]
  {
    var n := |chain|;
    if n > 0 && chain[n - 1].inst == i {
      var b := chain[n - 1].access;
      var chain' := AddAccess(chain, i, a);
      assert chain'[..n - 1] == chain[..n - 1];
      assert AccessesOf(AppendTo(b, a)) == AccessesOf(b) + [a];
      assert Tagged(i, AccessesOf(b) + [a]) == Tagged(i, AccessesOf(b)) + [(i, a)];
    } else {
      var chain' := chain + [Entry(i, Single(a))];
      assert chain'[..n] == chain;
      assert Tagged(i, AccessesOf(Single(a))) == [(i, a)];
    }
  }

  /** The chain of the first reported accesses. */
  function ChainOf(rs: seq<Reported>, skew: nat -> nat, begin: nat, end: nat): Chain {
    if rs == [] then [] else
      var r, chain := rs[|rs| - 1], ChainOf(rs[..|rs| - 1], skew, begin, end);
      if begin <= skew(r.raw) < end then AddAccess(chain, skew(r.raw), r.access) else chain
  }

  /** No access inside the slice is lost, none outside gets in, and none changes instruction or order. */
  lemma {:induction false} ChainKeepsAccesses(rs: seq<Reported>, skew: nat -> nat, begin: nat, end: nat)
    ensures Expanded(ChainOf(rs, skew, begin, end)) == Retained(rs, skew, begin, end)
  {
    if rs == [] {
    } else {
      var k := |rs| - 1;
      ChainKeepsAccesses(rs[..k], skew, begin, end);
      if begin <= skew(rs[k].raw) < end {
        ExpandedAdd(ChainOf(rs[..k], skew, begin, end), skew(rs[k].raw), rs[k].access);
      }
    }
  }

  ghost predicate InOrder(rs: seq<Reported>, skew: nat -> nat) {
    forall i: nat, j: nat | i < j < |rs| :: skew(rs[i].raw) <= skew(rs[j].raw)
  }

  /** If the accesses are reported in instruction order, the chain is sorted, one entry an
      instruction, within the slice: what delivery relies on. */
  lemma {:induction false} ChainIsSorted(rs: seq<Reported>, skew: nat -> nat, begin: nat, end: nat)
    requires InOrder(rs, skew)
    ensures Sorted(ChainOf(rs, skew, begin, end))
    ensures forall e | e in ChainOf(rs, skew, begin, end) :: begin <= e.inst < end
    ensures rs != [] ==> forall e | e in ChainOf(rs, skew, begin, end) :: e.inst <= skew(rs[|rs| - 1].raw)
  {
    if rs == [] {
    } else {
      var k := |rs| - 1;
      ChainIsSorted(rs[..k], skew, begin, end);
      var chain, i := ChainOf(rs[..k], skew, begin, end), skew(rs[k].raw);
      forall e | e in chain ensures e.inst <= i {
        if k > 0 { assert skew(rs[k - 1].raw) <= skew(rs[k].raw); }
      }
      if begin <= i < end {
        var chain' := AddAccess(chain, i, rs[k].access);
        assert ChainOf(rs, skew, begin, end) == chain';
        AddKeepsSorted(chain, i, rs[k].access, begin, end);
      }
    } 
  }

  lemma AddKeepsSorted(chain: Chain, i: nat, a: Access, begin: nat, end: nat)
    requires Sorted(chain) && begin <= i < end
    requires forall e | e in chain :: begin <= e.inst < end && e.inst <= i
    ensures Sorted(AddAccess(chain, i, a))
    ensures forall e | e in AddAccess(chain, i, a) :: begin <= e.inst < end && e.inst <= i
  {
    var n := |chain|;
    if n > 0 && chain[n - 1].inst != i {
      forall k: nat | k < n ensures chain[k].inst < i {
        assert chain[k] in chain && chain[n - 1] in chain;
        if k < n - 1 { assert chain[k].inst < chain[n - 1].inst; }
      }
    }
    var chain' := AddAccess(chain, i, a);
    forall e | e in chain' ensures begin <= e.inst < end && e.inst <= i {
      var k: nat :| k < |chain'| && chain'[k] == e;
      if k < n { assert chain[k] in chain; }
    }
  }

  /** Every entry of the chain of a block is a bundle built by appending. */
  lemma {:induction false} ChainIsBundled(rs: seq<Reported>, skew: nat -> nat, begin: nat, end: nat)
    ensures forall e | e in ChainOf(rs, skew, begin, end) :: e.access == Bundled(e.access.first, e.access.rest)
  {
    if rs == [] {
    } else {
      var k := |rs| - 1;
      ChainIsBundled(rs[..k], skew, begin, end);
      AddKeepsBundled(ChainOf(rs[..k], skew, begin, end), skew(rs[k].raw), rs[k].access);
    }
  }

  lemma AddKeepsBundled(chain: Chain, i: nat, a: Access)
    requires forall e | e in chain :: e.access == Bundled(e.access.first, e.access.rest)
    ensures forall e | e in AddAccess(chain, i, a) :: e.access == Bundled(e.access.first, e.access.rest)
  {
    var n := |chain|;
    if n > 0 && chain[n - 1].inst == i {
      var b := chain[n - 1].access;
      assert chain[n - 1] in chain && (b.rest + [a])[..|b.rest|] == b.rest;
      assert AppendTo(b, a) == Bundled(b.first, b.rest + [a]);
      forall e | e in AddAccess(chain, i, a) ensures e.access == Bundled(e.access.first, e.access.rest) {
        assert e in chain || e.access == AppendTo(b, a);
      }
    } else {
      assert Single(a) == Bundled(a, []);
    }
  }

  /** The loop over the reported accesses of an executed block. */
  method BuildChain(rs: seq<Reported>, skew: nat -> nat, begin: nat, end: nat) returns (memAccesses: Chain)
    ensures memAccesses == ChainOf(rs, skew, begin, end)
  {
    memAccesses := [];
    var k := 0;
    while k < |rs|
      invariant k <= |rs| && memAccesses == ChainOf(rs[..k], skew, begin, end)
    {
      var instIdx := skew(rs[k].raw);
      assert rs[..k + 1][..k] == rs[..k];
      if instIdx < begin || instIdx >= end {
        k := k + 1;
        continue;
      }
      var n := |memAccesses|;
      if n > 0 && memAccesses[n - 1].inst == instIdx {
        memAccesses := memAccesses[n - 1 := memAccesses[n - 1].(access := AppendTo(memAccesses[n - 1].access, rs[k].access))];
      } else {
        memAccesses := memAccesses + [Entry(instIdx, Single(rs[k].access))];
      }
      k := k + 1;
    }
    assert rs[..k] == rs;
  }
}
