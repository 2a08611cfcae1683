/** Translation blocks: raw instructions, the machine instructions they decode to, and the
index map between the two. */
module TranslationBlocks {

  /** A raw instruction of `length` bytes; `decode` has the decoder's answer at each byte
      offset: the size of the machine instruction found there, if any. */
  datatype Raw = Raw(length: nat, decode: map<nat, nat>)

  function SizeAt(raw: Raw, index: nat): (n: nat)
    requires index in raw.decode
    ensures n >= 1
  {
    if raw.decode[index] == 0 then 1 else raw.decode[index]
  }

  /** The sizes of the machine instructions found from byte `index` on; a size of 0 counts as
      1, and decoding stops at the first failure. */
  function SizesFrom(raw: Raw, index: nat): seq<nat>
    decreases raw.length - index
  {
    if index >= raw.length || index !in raw.decode then [] else
      [SizeAt(raw, index)] + SizesFrom(raw, index + SizeAt(raw, index))
  }

  function Decoded(raw: Raw): nat { |SizesFrom(raw, 0)| }

  /** Machine instructions before raw instruction `r`. */
  function Before(raws: seq<Raw>, r: nat): nat
    requires r <= |raws|
  {
    if r == 0 then 0 else Before(raws, r - 1) + Decoded(raws[r - 1])
  }

  /** Raw instructions before `r` that decode to nothing. */
  function Undecoded(raws: seq<Raw>, r: nat): nat
    requires r <= |raws|
  {
    if r == 0 then 0 else Undecoded(raws, r - 1) + if Decoded(raws[r - 1]) == 0 then 1 else 0
  }

  /** How an index of a raw instruction is translated. */
  function Lookup(skew: map<nat, nat>, r: nat): nat {
    if r in skew then skew[r] else r
  }

  /** Every raw index is sent to the number of machine instructions before it, plus one for each
      raw instruction before it that did not decode; other indices are left as they are. */
  ghost predicate MapOk(raws: seq<Raw>, skew: map<nat, nat>) {
    && (forall r | r in skew :: r < |raws|)
    && (forall r: nat {:trigger Lookup(skew, r)} | r < |raws| :: Lookup(skew, r) == Before(raws, r) + Undecoded(raws, r))
  }

  /** Bytes before raw instruction `r`. */
  function Offset(raws: seq<Raw>, r: nat): nat
    requires r <= |raws|
  {
    if r == 0 then 0 else Offset(raws, r - 1) + raws[r - 1].length
  }

  /** Byte offsets of machine instructions of the given sizes. */
  function Places(start: nat, sizes: seq<nat>): (r: seq<nat>)
    ensures |r| == |sizes|
    decreases |sizes|
  {
    if sizes == [] then [] else [start] + Places(start + sizes[0], sizes[1..])
  }

  /** The byte offsets of the machine instructions of the first `r` raw ones. */
  function AllPlaces(raws: seq<Raw>, r: nat): (p: seq<nat>)
    requires r <= |raws|
    ensures |p| == Before(raws, r)
  {
    if r == 0 then [] else AllPlaces(raws, r - 1) + Places(Offset(raws, r - 1), SizesFrom(raws[r - 1], 0))
  }

  function AllSizes(raws: seq<Raw>, r: nat): (p: seq<nat>)
    requires r <= |raws|
    ensures |p| == Before(raws, r)
  {
    if r == 0 then [] else AllSizes(raws, r - 1) + SizesFrom(raws[r - 1], 0)
  }

  // ---------------------------------------------------------------------------
  // Where the machine instructions are
  // ---------------------------------------------------------------------------

  /** What decoding finds from byte `index` on: it begins there, each machine instruction lies right
      behind the one before it and has the size that the decoder gives, 1 if that is 0, and it goes
      on until the bytes end or do not decode. */
  lemma {:induction false} TilesFrom(raw: Raw, offset: nat, index: nat, k: nat)
    ensures var sizes, ps := SizesFrom(raw, index), Places(offset + index, SizesFrom(raw, index));
            && (sizes != [] ==> ps[0] == offset + index)
            && (k < |sizes| ==>
                  && ps[k] >= offset && ps[k] - offset < raw.length && ps[k] - offset in raw.decode
                  && sizes[k] == if raw.decode[ps[k] - offset] == 0 then 1 else raw.decode[ps[k] - offset])
            && (k + 1 < |sizes| ==> ps[k + 1] == ps[k] + sizes[k])
            && (var end := if sizes == [] then index else ps[|ps| - 1] + sizes[|ps| - 1] - offset;
                end >= raw.length || end !in raw.decode)
    decreases raw.length - index
  {
    hide SizesFrom, Places;
    if index >= raw.length || index !in raw.decode {
      TilesEnd(raw, offset, index);
    } else {
      TilesUnfold(raw, offset, index);
      TilesFrom(raw, offset, index + SizeAt(raw, index), if k > 0 then k - 1 else 0);
    }
  }

  lemma TilesEnd(raw: Raw, offset: nat, index: nat)
    requires index >= raw.length || index !in raw.decode
    ensures SizesFrom(raw, index) == Places(offset + index, SizesFrom(raw, index)) == []
  {
  }

  lemma TilesUnfold(raw: Raw, offset: nat, index: nat)
    requires index < raw.length && index in raw.decode
    ensures var next := index + SizeAt(raw, index);
            && SizesFrom(raw, index) == [SizeAt(raw, index)] + SizesFrom(raw, next)
            && Places(offset + index, SizesFrom(raw, index)) == [offset + index] + Places(offset + next, SizesFrom(raw, next))
  {
    assert SizesFrom(raw, index)[1..] == SizesFrom(raw, index + SizeAt(raw, index));
  }

  /** Machine instruction `k` of raw instruction `r` comes behind those of the raw ones before it. */
  lemma {:induction false} PlacedAt(raws: seq<Raw>, n: nat, r: nat, k: nat)
    requires r < n <= |raws| && k < Decoded(raws[r])
    ensures Before(raws, r) + k < Before(raws, n)
    ensures AllPlaces(raws, n)[Before(raws, r) + k] == Places(Offset(raws, r), SizesFrom(raws[r], 0))[k]
    ensures AllSizes(raws, n)[Before(raws, r) + k] == SizesFrom(raws[r], 0)[k]
  {
    hide SizesFrom, Places;
    if r == n - 1 {
    } else {
      PlacedAt(raws, n - 1, r, k);
    }
  }

  /** So in a translated block: the machine instructions of raw instruction `r` begin where the bytes
      of the raw ones before it end, and tile its bytes as far as these decode. */
  lemma DecodedWhere(raws: seq<Raw>, r: nat, k: nat)
    requires r < |raws| && k < Decoded(raws[r])
    ensures Before(raws, r) + k < Before(raws, |raws|)
    ensures var i, places, sizes, decode := Before(raws, r) + k, AllPlaces(raws, |raws|), AllSizes(raws, |raws|), raws[r].decode;
            && (k == 0 ==> places[i] == Offset(raws, r))
            && (k > 0 ==> places[i] == places[i - 1] + sizes[i - 1])
            && Offset(raws, r) <= places[i] < Offset(raws, r) + raws[r].length
            && var at := places[i] - Offset(raws, r);
               && at in decode && sizes[i] == (if decode[at] == 0 then 1 else decode[at])
               && (k + 1 == Decoded(raws[r]) ==> at + sizes[i] >= raws[r].length || at + sizes[i] !in decode)
  {
    hide SizesFrom, Places, AllPlaces, AllSizes, Before;
    PlacedAt(raws, |raws|, r, k);
    TilesFrom(raws[r], Offset(raws, r), 0, k);
    if k > 0 {
      PlacedAt(raws, |raws|, r, k - 1);
      TilesFrom(raws[r], Offset(raws, r), 0, k - 1);
    }
  }

  class TranslationBlock {
    const raws: seq<Raw>
    const vAddr: nat
    var skewIndicies: map<nat, nat>
    var mcInstAddrs: seq<nat>
    var mcInstSizes: seq<nat>
    var vAddrOffsets: seq<nat>
    ghost var places: seq<nat>  // byte offsets of the machine instructions

    /** Addresses are exact, offsets are stored in one byte. */
    ghost predicate Consistent()
      reads `places, `mcInstAddrs, `mcInstSizes, `vAddrOffsets
    {
      && |places| == |mcInstAddrs| == |vAddrOffsets| == |mcInstSizes|
      && forall k: nat | k < |places| ::
           mcInstAddrs[k] == vAddr + places[k] && vAddrOffsets[k] == places[k] % 256
    }

    constructor (raws: seq<Raw>, vAddr: nat)
      ensures this.raws == raws && this.vAddr == vAddr && Consistent()
      ensures skewIndicies == map[] && places == mcInstSizes == []
    {
      this.raws, this.vAddr := raws, vAddr;
      skewIndicies, mcInstAddrs, mcInstSizes, vAddrOffsets, places := map[], [], [], [], [];
    }

    method AddMCInst(place: nat, size: nat)
      requires Consistent()
      modifies `mcInstAddrs, `mcInstSizes, `vAddrOffsets, `places
      ensures Consistent() && places == old(places) + [place] && mcInstSizes == old(mcInstSizes) + [size]
    {
      mcInstAddrs := mcInstAddrs + [vAddr + place];
      mcInstSizes := mcInstSizes + [size];
      vAddrOffsets := vAddrOffsets + [place % 256];
      places := places + [place];
    }

    /** Decodes one raw instruction at its place; yields how many machine instructions it gave. */
    method DisassembleRaw(raw: Raw, offset: nat) returns (numMCInsts: nat)
      requires Consistent()
      modifies `mcInstAddrs, `mcInstSizes, `vAddrOffsets, `places
      ensures Consistent() && numMCInsts == Decoded(raw)
      ensures mcInstSizes == old(mcInstSizes) + SizesFrom(raw, 0)
      ensures places == old(places) + Places(offset, SizesFrom(raw, 0))
    {
      var index := 0;
      numMCInsts := 0;
      ghost var sizes, ps: seq<nat> := [], [];
      DecodeStart(raw, offset);
      hide Consistent;
      hide DecodedSoFar;
      while index < raw.length
        invariant Consistent() && DecodedSoFar(raw, offset, index, sizes, ps) && |sizes| == numMCInsts
        invariant mcInstSizes == old(mcInstSizes) + sizes && places == old(places) + ps
        decreases raw.length - index
      {
        if index !in raw.decode { break; }
        var size := raw.decode[index];
        if size == 0 { size := 1; }
        DecodeStep(raw, offset, index, sizes, ps);
        AddMCInst(offset + index, size);
        sizes, ps := sizes + [size], ps + [offset + index];
        numMCInsts := numMCInsts + 1;
        index := index + size;
      }
      DecodeStop(raw, offset, index, sizes, ps);
    }

    /** The index map sends every raw index to the number of machine instructions before it,
        plus one for each raw instruction before it that did not decode. */
    method Disassemble()
      requires skewIndicies == map[] && places == mcInstSizes == [] && Consistent()
      modifies this
      ensures Consistent() && MapOk(raws, skewIndicies)
      ensures mcInstSizes == AllSizes(raws, |raws|) && places == AllPlaces(raws, |raws|)
    {
      hide Consistent, SizesFrom, Places, Decoded, MapOk, MapSoFar, Before, Undecoded, Offset, AllSizes, AllPlaces;
      var rawInstIdx := 0;
      var skewIdxOffset := 0;
      var offset := 0;
      NothingMapped(raws);
      while rawInstIdx < |raws|
        invariant rawInstIdx <= |raws| && offset == Offset(raws, rawInstIdx)
        invariant rawInstIdx + skewIdxOffset == Before(raws, rawInstIdx) + Undecoded(raws, rawInstIdx)
        invariant MapSoFar(raws, skewIndicies, rawInstIdx)
        invariant Consistent() && mcInstSizes == AllSizes(raws, rawInstIdx) && places == AllPlaces(raws, rawInstIdx)
      {
        MapStep(raws, skewIndicies, rawInstIdx, skewIdxOffset);
        OneRawMore(raws, rawInstIdx);
        if skewIdxOffset > 0 {
          skewIndicies := skewIndicies[rawInstIdx := rawInstIdx + skewIdxOffset];
        }
        var numMCInsts := DisassembleRaw(raws[rawInstIdx], offset);
        if numMCInsts > 1 {
          skewIdxOffset := skewIdxOffset + (numMCInsts - 1);
        }
        offset := offset + raws[rawInstIdx].length;
        rawInstIdx := rawInstIdx + 1;
      }
      MapIsOk(raws, skewIndicies);
    }
  }

  /** The first `n` raw indices are translated as in the end. */
  ghost predicate MapSoFar(raws: seq<Raw>, skew: map<nat, nat>, n: nat)
    requires n <= |raws|
  {
    && (forall r | r in skew :: r < n)
    && (forall r: nat {:trigger Lookup(skew, r)} | r < n :: Lookup(skew, r) == Before(raws, r) + Undecoded(raws, r))
  }

  lemma NothingMapped(raws: seq<Raw>)
    ensures MapSoFar(raws, map[], 0)
    ensures Offset(raws, 0) == Before(raws, 0) == Undecoded(raws, 0) == 0 && AllSizes(raws, 0) == AllPlaces(raws, 0) == []
  {
  }

  lemma OneRawMore(raws: seq<Raw>, n: nat)
    requires n < |raws|
    ensures Offset(raws, n + 1) == Offset(raws, n) + raws[n].length
    ensures Before(raws, n + 1) == Before(raws, n) + Decoded(raws[n])
    ensures Undecoded(raws, n + 1) == Undecoded(raws, n) + if Decoded(raws[n]) == 0 then 1 else 0
    ensures AllSizes(raws, n + 1) == AllSizes(raws, n) + SizesFrom(raws[n], 0)
    ensures AllPlaces(raws, n + 1) == AllPlaces(raws, n) + Places(Offset(raws, n), SizesFrom(raws[n], 0))
  {
  }

  lemma MapStep(raws: seq<Raw>, skew: map<nat, nat>, n: nat, offset: nat)
    requires n < |raws| && MapSoFar(raws, skew, n) && n + offset == Before(raws, n) + Undecoded(raws, n)
    ensures MapSoFar(raws, if offset > 0 then skew[n := n + offset] else skew, n + 1)
  {
    hide Before, Undecoded;
    var skew' := if offset > 0 then skew[n := n + offset] else skew;
    forall r: nat | r < n + 1 ensures Lookup(skew', r) == Before(raws, r) + Undecoded(raws, r) {
      if r < n { assert Lookup(skew', r) == Lookup(skew, r); }
    }
  }

  lemma MapIsOk(raws: seq<Raw>, skew: map<nat, nat>)
    requires MapSoFar(raws, skew, |raws|)
    ensures MapOk(raws, skew)
  {
  }

  /** `sizes` at `ps` are what was decoded before byte `index`. */
  ghost predicate DecodedSoFar(raw: Raw, offset: nat, index: nat, sizes: seq<nat>, ps: seq<nat>) {
    && sizes + SizesFrom(raw, index) == SizesFrom(raw, 0)
    && ps + Places(offset + index, SizesFrom(raw, index)) == Places(offset, SizesFrom(raw, 0))
    && |sizes| == |ps|
  }

  lemma DecodeStart(raw: Raw, offset: nat)
    ensures DecodedSoFar(raw, offset, 0, [], [])
  {
    assert [] + SizesFrom(raw, 0) == SizesFrom(raw, 0);
    assert [] + Places(offset, SizesFrom(raw, 0)) == Places(offset, SizesFrom(raw, 0));
  }

  lemma DecodeStop(raw: Raw, offset: nat, index: nat, sizes: seq<nat>, ps: seq<nat>)
    requires DecodedSoFar(raw, offset, index, sizes, ps) && (index >= raw.length || index !in raw.decode)
    ensures sizes == SizesFrom(raw, 0) && ps == Places(offset, SizesFrom(raw, 0)) && |sizes| == Decoded(raw)
  {
    assert sizes + [] == sizes && ps + [] == ps;
  }

  /** One machine instruction further. */
  lemma DecodeStep(raw: Raw, offset: nat, index: nat, sizes: seq<nat>, ps: seq<nat>)
    requires DecodedSoFar(raw, offset, index, sizes, ps) && index < raw.length && index in raw.decode
    ensures DecodedSoFar(raw, offset, index + SizeAt(raw, index), sizes + [SizeAt(raw, index)], ps + [offset + index])
  {
    var size := SizeAt(raw, index);
    var rest := SizesFrom(raw, index + size);
    var places := Places(offset + index + size, rest);
    assert SizesFrom(raw, index) == [size] + rest && ([size] + rest)[1..] == rest;
    assert sizes + ([size] + rest) == (sizes + [size]) + rest;
    assert ps + ([offset + index] + places) == (ps + [offset + index]) + places;
  }

  lemma {:induction false} UndecodedZero(raws: seq<Raw>, r: nat)
    requires r <= |raws|
    ensures Undecoded(raws, r) == 0 <==> forall k: nat | k < r :: Decoded(raws[k]) >= 1
  {
    if r == 0 {
    } else {
      UndecodedZero(raws, r - 1);
    }
  }

  /** The index map is right for a raw instruction exactly if every one before it decodes to
      at least one machine instruction. */
  lemma IndexMapIsRightIff(raws: seq<Raw>, skew: map<nat, nat>, r: nat)
    requires MapOk(raws, skew) && r < |raws|
    ensures Lookup(skew, r) == Before(raws, r) <==> forall k: nat | k < r :: Decoded(raws[k]) >= 1
  {
    UndecodedZero(raws, r);
  }

  /** Different raw instructions have different places, in order. */
  lemma {:induction false} BeforeIncreases(raws: seq<Raw>, q: nat, r: nat)
    requires q <= r <= |raws|
    ensures Before(raws, q) <= Before(raws, r)
    ensures q < r && Decoded(raws[q]) >= 1 ==> Before(raws, q) < Before(raws, r)
    decreases r - q
  {
    if q == r {
    } else {
      BeforeIncreases(raws, q, r - 1);
    }
  }

  /** Machine instruction `i` is the first of those that raw instruction `r` decodes to. */
  predicate IsFirstOf(raws: seq<Raw>, r: nat, i: nat) {
    r < |raws| && i == Before(raws, r) < Before(raws, r + 1)
  }

  /** An index leads to the first machine instruction of its raw instruction if and only if it
      is the index of one, and that and all before it decode. */
  lemma LeadsToFirstIff(raws: seq<Raw>, skew: map<nat, nat>, r: nat)
    requires MapOk(raws, skew)
    ensures IsFirstOf(raws, r, Lookup(skew, r)) <==> r < |raws| && forall k: nat | k <= r :: Decoded(raws[k]) >= 1
  {
    if r < |raws| { UndecodedZero(raws, r + 1); }
  }

  /** So where everything decodes, no index leads out of the block. */
  lemma LeadsIntoBlock(raws: seq<Raw>, skew: map<nat, nat>, r: nat)
    requires MapOk(raws, skew) && r < |raws| && forall k: nat | k <= r :: Decoded(raws[k]) >= 1
    ensures Lookup(skew, r) == Before(raws, r) < Before(raws, |raws|)
  {
    hide Before, Decoded, Undecoded, Lookup;
    LeadsToFirstIff(raws, skew, r);
    BeforeIncreases(raws, r + 1, |raws|);
  }

  /** The order of raw instructions is kept, whether they decode or not. */
  lemma {:induction false} LookupIncreases(raws: seq<Raw>, skew: map<nat, nat>, q: nat, r: nat)
    requires MapOk(raws, skew) && q <= r < |raws|
    ensures Lookup(skew, q) <= Lookup(skew, r) && (q < r ==> Lookup(skew, q) < Lookup(skew, r))
    decreases r - q
  {
    if q == r {
    } else {
      LookupIncreases(raws, skew, q, r - 1);
    }
  }
}
