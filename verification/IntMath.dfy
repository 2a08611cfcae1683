/** Integer helpers: logarithms and rounding by bit masks, and wide multiplication by halves.

Machine words are numbers below a power of two; shifting right by `k` divides by `Pow2(k)`,
and bitwise "and" is defined bit by bit. */
module IntMath {
  import opened Nonlinear

  function Pow2(k: nat): (r: nat)
    ensures r >= 1
  {
    if k == 0 then 1 else 2 * Pow2(k - 1)
  }

  /** Bitwise "and" of two words. */
  function BitAnd(x: nat, y: nat): nat {
    if x == 0 || y == 0 then 0 else
      2 * BitAnd(x / 2, y / 2) + if x % 2 == 1 && y % 2 == 1 then 1 else 0
  }

  predicate Bit(x: nat, k: nat) {
    if k == 0 then x % 2 == 1 else Bit(x / 2, k - 1)
  }

  /** A bit is set in the result exactly if it is set in both words. */
  lemma {:induction false} AndBits(x: nat, y: nat, k: nat)
    ensures Bit(BitAnd(x, y), k) <==> Bit(x, k) && Bit(y, k)
  {
    if x == 0 || y == 0 {
      NoBits(k);
    } else if k > 0 {
      AndBits(x / 2, y / 2, k - 1);
      assert BitAnd(x, y) / 2 == BitAnd(x / 2, y / 2);
    }
  }

  lemma {:induction false} NoBits(k: nat)
    ensures !Bit(0, k)
  {
    if k == 0 {
    } else {
      NoBits(k - 1);
    }
  }

  // ---------------------------------------------------------------------------
  // Masks
  // ---------------------------------------------------------------------------

  lemma {:induction false} Pow2Add(j: nat, k: nat)
    ensures Pow2(j + k) == Pow2(j) * Pow2(k)
  {
    if j == 0 {
    } else {
      Pow2Add(j - 1, k);
      MulSwap(2, Pow2(k), Pow2(j - 1));
      MulSwap(2, Pow2(j - 1), Pow2(k));
    }
  }

  lemma {:induction false} Pow2Monotone(j: nat, k: nat)
    requires j < k
    ensures 2 * Pow2(j) <= Pow2(k)
  {
    if j + 1 == k {
    } else {
      Pow2Monotone(j, k - 1);
    }
  }

  /** The lowest `k` bits. */
  ghost function Low(x: nat, k: nat): nat {
    if k == 0 then 0 else 2 * Low(x / 2, k - 1) + x % 2
  }

  /** They are the remainder of the division by `Pow2(k)`. */
  lemma {:induction false} LowIsMod(x: nat, k: nat)
    ensures Low(x, k) == x % Pow2(k)
  {
    if k == 0 {
    } else {
      LowIsMod(x / 2, k - 1);
      LowBitAndRest(x, Pow2(k - 1));
    }
  }

  lemma LowBitAndRest(x: nat, p: nat)
    requires p > 0
    ensures 2 * ((x / 2) % p) + x % 2 == x % (2 * p)
  {
    var q, r := (x / 2) / p, (x / 2) % p;
    MulDivLe(x / 2, p);
    MulSwap(2, q, p);
    DivModUnique(x, 2 * p, q, 2 * r + x % 2);
  }

  lemma {:induction false} AndSelf(x: nat)
    ensures BitAnd(x, x) == x
  {
    if x == 0 {
    } else {
      AndSelf(x / 2);
    }
  }

  lemma {:induction false} LowSmall(x: nat, k: nat)
    requires x < Pow2(k)
    ensures Low(x, k) == x
  {
    if k == 0 {
    } else {
      LowSmall(x / 2, k - 1);
    }
  }

  lemma AndUnfold(x: nat, y: nat)
    ensures BitAnd(x, y) == if x == 0 || y == 0 then 0
                            else 2 * BitAnd(x / 2, y / 2) + if x % 2 == 1 && y % 2 == 1 then 1 else 0
  {
  }

  lemma LowUnfold(x: nat, k: nat)
    ensures Low(x, k) == if k == 0 then 0 else 2 * Low(x / 2, k - 1) + x % 2
  {
  }

  /** A mask with ones in the places `k` to `w`, shifted right by one. */
  lemma MaskHalves(k: nat, w: nat)
    requires k < w
    ensures Pow2(k) < Pow2(w) == 2 * Pow2(w - 1)
    ensures k > 0 ==> Pow2(w) - Pow2(k) == 2 * (Pow2(w - 1) - Pow2(k - 1)) > 0
    ensures k == 0 ==> Pow2(w) - Pow2(k) == 2 * (Pow2(w - 1) - 1) + 1
  {
    Pow2Monotone(k, w);
  }

  /** Masking with ones in the places `k` to `w` clears the lower places. */
  lemma {:induction false} AndHigh(x: nat, k: nat, w: nat)
    requires x < Pow2(w) && k <= w
    ensures Pow2(k) <= Pow2(w) && BitAnd(x, Pow2(w) - Pow2(k)) == x - Low(x, k)
  {
    hide BitAnd, Low, Pow2;
    if k < w { MaskHalves(k, w); }
    LowUnfold(x, k);
    AndUnfold(x, Pow2(w) - Pow2(k));
    if k == w || x == 0 {
      LowSmall(x, k);
    } else {
      AndHigh(x / 2, if k > 0 then k - 1 else 0, w - 1);
      LowUnfold(x / 2, 0);
      if k == 0 { PowZero(); }
    }
  }

  lemma PowZero()
    ensures Pow2(0) == 1
  {
  }

  // ---------------------------------------------------------------------------
  // Logarithms
  // ---------------------------------------------------------------------------

  /** `y` bits have been found below what is left of `x`, which has fewer than `2 * s` bits. */
  ghost predicate Narrowed(x: nat, ux: nat, y: nat, bits: nat) {
    1 <= ux < Pow2(bits) && InCell(x, ux, Pow2(y))
  }

  /** `x` divided by `py` is `ux`. */
  ghost predicate InCell(x: nat, ux: nat, py: nat) {
    ux * py <= x < (ux + 1) * py
  }

  lemma NarrowUp(x: nat, ux: nat, py: nat, ps: nat, q: nat, r: nat)
    requires ux == q * ps + r && r < ps && q > 0 && ux < ps * ps
    requires InCell(x, ux, py)
    ensures q < ps && InCell(x, q, py * ps)
  {
    if q >= ps { MulLe(ps, q, ps); }
    MulLe(q * ps, ux, py);
    MulSwap(q, ps, py);
    Distrib(q, 1, ps);
    MulLe(ux + 1, (q + 1) * ps, py);
    MulSwap(q + 1, ps, py);
  }

  /** The mask for the upper half of `2 * s` bits. */
  function UpperHalf(s: nat): nat {
    if s > 0 then Pow2Monotone(s, 2 * s); Pow2(2 * s) - Pow2(s) else 0
  }

  function ShiftRight(x: nat, s: nat): nat {
    QuotientNat(x, Pow2(s));
    x / Pow2(s)
  }

  /** One step of the search: is the upper half of the remaining bits empty? */
  lemma NarrowStep(x: nat, ux: nat, y: nat, s: nat)
    requires Narrowed(x, ux, y, 2 * s)
    ensures var up := BitAnd(ux, UpperHalf(s)) != 0;
            Narrowed(x, if up then ShiftRight(ux, s) else ux, if up then y + s else y, s)
  {
    AndHigh(ux, s, 2 * s);
    LowIsMod(ux, s);
    Pow2Add(s, s);
    Pow2Add(y, s);
    NarrowArithmetic(x, ux, Pow2(y), Pow2(s));
  }

  lemma NarrowArithmetic(x: nat, ux: nat, py: nat, ps: nat)
    requires ps > 0 && 1 <= ux < ps * ps && InCell(x, ux, py)
    ensures ux - ux % ps == 0 ==> ux < ps
    ensures ux - ux % ps != 0 ==> 1 <= ux / ps < ps && InCell(x, ux / ps, py * ps)
  {
    hide InCell;
    if ux < ps {
      DivModUnique(ux, ps, 0, ux);
    } else {
      LargeQuotient(ux, ps);
      NarrowUp(x, ux, py, ps, ux / ps, ux % ps);
    }
  }

  lemma LargeQuotient(ux: nat, ps: nat)
    requires ux >= ps > 0
    ensures ux == (ux / ps) * ps + ux % ps && ux % ps < ps && ux / ps >= 1 && ux - ux % ps != 0
  {
    MulDivLe(ux, ps);
    if ux / ps <= 0 { MulLe(ux / ps, 0, ps); }
  }

  lemma PowerValues()
    ensures Pow2(1) == 2 && Pow2(2) == 4 && Pow2(4) == 0x10 && Pow2(8) == 0x100
    ensures Pow2(16) == 0x1_0000 && Pow2(32) == 0x1_0000_0000 && Pow2(64) == 0x1_0000_0000_0000_0000
  {
    hide Pow2;
    SmallPowers();
    Pow2Double(4, 0x10);
    Pow2Double(8, 0x100);
    Pow2Double(16, 0x1_0000);
    Pow2Double(32, 0x1_0000_0000);
  }

  lemma SmallPowers()
    ensures Pow2(1) == 2 && Pow2(2) == 4 && Pow2(4) == 0x10
  {
  }

  lemma Pow2Double(k: nat, p: nat)
    requires Pow2(k) == p
    ensures Pow2(2 * k) == p * p
  {
    Pow2Add(k, k);
  }

  /** If any bit under the mask for the upper half is set, count the lower half and shift. */
  method NarrowBy(ghost x: nat, ux: nat, y: nat, mask: nat, s: nat) returns (ux': nat, y': nat)
    requires Narrowed(x, ux, y, 2 * s) && mask == UpperHalf(s)
    ensures Narrowed(x, ux', y', s)
  {
    NarrowStep(x, ux, y, s);
    ux', y' := ux, y;
    if BitAnd(ux, mask) != 0 {
      y' := y' + s;
      ux' := ShiftRight(ux', s);
    }
  }

  lemma NarrowedToOne(x: nat, ux: nat, y: nat)
    requires Narrowed(x, ux, y, 1)
    ensures Pow2(y) <= x < Pow2(y + 1)
  {
    assert ux == 1;
  }

  lemma AllOfTheWord(x: nat, size: nat)
    requires 0 < x < Pow2(8 * size)
    ensures Narrowed(x, x, 0, 8 * size)
  {
  }

  lemma HalfMasks()
    ensures UpperHalf(1) == 0x2 && UpperHalf(2) == 0xc && UpperHalf(4) == 0xf0 && UpperHalf(8) == 0xff00
    ensures UpperHalf(16) == 0xffff0000 && UpperHalf(32) == 0xffffffff00000000
  {
    hide Pow2;
    PowerValues();
  }

  /** The position of the highest bit of a positive word of `size` bytes. */
  method FloorLog2(x: nat, size: nat) returns (y: nat)
    requires size in {1, 2, 4, 8} && 0 < x < Pow2(8 * size)
    ensures Pow2(y) <= x < Pow2(y + 1)
  {
    hide *;
    var ux := x;
    y := 0;
    AllOfTheWord(x, size);
    HalfMasks();
    if size >= 8 { ux, y := NarrowBy(x, ux, y, 0xffffffff00000000, 32); }
    if size >= 4 { ux, y := NarrowBy(x, ux, y, 0x00000000ffff0000, 16); }
    if size >= 2 { ux, y := NarrowBy(x, ux, y, 0x000000000000ff00, 8); }
    ux, y := NarrowBy(x, ux, y, 0x00000000000000f0, 4);
    ux, y := NarrowBy(x, ux, y, 0x000000000000000c, 2);
    NarrowStep(x, ux, y, 1);
    if BitAnd(ux, 0x0000000000000002) != 0 {
      NarrowedToOne(x, ShiftRight(ux, 1), y + 1);
      y := y + 1;
    } else {
      NarrowedToOne(x, ux, y);
    }
  }

  /** The least exponent whose power covers a positive word. */
  method CeilLog2(n: nat, size: nat) returns (y: nat)
    requires size in {1, 2, 4, 8} && 0 < n < Pow2(8 * size)
    ensures n <= Pow2(y) && forall k: nat | k < y :: Pow2(k) < n
  {
    if n == 1 { return 0; }
    y := FloorLog2(n - 1, size);
    y := y + 1;
    forall k: nat | k < y ensures Pow2(k) < n {
      if k < y - 1 { Pow2Monotone(k, y - 1); }
    }
  }

  // ---------------------------------------------------------------------------
  // Powers of two and rounding
  // ---------------------------------------------------------------------------

  predicate IsPowerOf2(n: nat) {
    n != 0 && BitAnd(n, n - 1) == 0
  }

  lemma {:induction false} PowIsPower(k: nat)
    ensures IsPowerOf2(Pow2(k))
  {
    if k == 0 {
    } else {
      PowIsPower(k - 1);
      var n := Pow2(k);
      assert n / 2 == Pow2(k - 1) && (n - 1) / 2 == Pow2(k - 1) - 1;
    }
  }

  lemma {:induction false} PowerIsPow(n: nat) returns (k: nat)
    requires IsPowerOf2(n)
    ensures n == Pow2(k)
  {
    if n == 1 {
      k := 0;
    } else if n % 2 == 1 {
      assert (n - 1) / 2 == n / 2;
      AndSelf(n / 2);
      assert false;
    } else {
      assert (n - 1) / 2 == n / 2 - 1;
      k := PowerIsPow(n / 2);
      k := k + 1;
    }
  }

  /** The bit trick finds exactly the powers of two. */
  lemma IsPowerOf2Iff(n: nat)
    ensures IsPowerOf2(n) <==> exists k: nat :: n == Pow2(k)
  {
    if IsPowerOf2(n) {
      var k := PowerIsPow(n);
    }
    if k: nat :| n == Pow2(k) { PowIsPower(k); }
  }

  /** Rounding in words of `w` bits: the mask is `align - 1`, its complement has ones above. */
  function RoundUp(val: nat, align: nat, w: nat): nat
    requires IsPowerOf2(align) && align < Pow2(w)
  {
    var mask := align - 1;
    BitAnd((val + mask) % Pow2(w), Pow2(w) - 1 - mask)
  }

  function RoundDown(val: nat, align: nat, w: nat): nat
    requires IsPowerOf2(align) && align < Pow2(w)
  {
    var mask := align - 1;
    BitAnd(val, Pow2(w) - 1 - mask)
  }

  lemma MaskIsMod(v: nat, align: nat, w: nat)
    requires IsPowerOf2(align) && align < Pow2(w) && v < Pow2(w)
    ensures BitAnd(v, Pow2(w) - 1 - (align - 1)) == v - v % align
  {
    IsPowerOf2Iff(align);
    var k: nat :| align == Pow2(k);
    if k > w { Pow2Monotone(w, k); }
    AndHigh(v, k, w);
    LowIsMod(v, k);
  }

  /** Different multiples are at least `align` apart. */
  lemma MultipleGap(m: nat, r: nat, align: nat)
    requires align > 0 && m % align == 0 && r % align == 0 && m < r
    ensures m + align <= r
  {
    var p, q := m / align, r / align;
    if p >= q { MulLe(q, p, align); }
    MulLt(p, q, align);
  }

  lemma RoundedIsMultiple(v: nat, align: nat)
    requires align > 0
    ensures v - v % align >= 0 && (v - v % align) % align == 0
  {
    MulLe(0, v / align, align);
    DivModUnique(v - v % align, align, v / align, 0);
  }

  /** The nearest multiple below. */
  lemma RoundDownIsNearest(val: nat, align: nat, w: nat)
    requires IsPowerOf2(align) && align < Pow2(w) && val < Pow2(w)
    ensures var r := RoundDown(val, align, w);
            r % align == 0 && r <= val && forall m: nat | m % align == 0 && m <= val :: m <= r
  {
    MaskIsMod(val, align, w);
    RoundedIsMultiple(val, align);
    var r := RoundDown(val, align, w);
    assert r == val - val % align;
    hide *;
    forall m: nat | m % align == 0 && m <= val ensures m <= r {
      if m > r { MultipleGap(r, m, align); }
    }
  }

  /** The result is the nearest multiple above exactly when one fits: it is at least `val`
      iff adding the mask does not wrap around, and then no smaller multiple is. */
  lemma RoundUpIsNearestIff(val: nat, align: nat, w: nat)
    requires IsPowerOf2(align) && align < Pow2(w) && val < Pow2(w)
    ensures var r := RoundUp(val, align, w);
            && (r >= val <==> val + (align - 1) < Pow2(w))
            && (r >= val ==> r % align == 0 && forall m: nat | m % align == 0 && m >= val :: r <= m)
  {
    var v, r := (val + (align - 1)) % Pow2(w), RoundUp(val, align, w);
    SumWraps(val, align, Pow2(w));
    MaskIsMod(v, align, w);
    assert r == v - v % align;
    hide *;
    RoundedIsMultiple(v, align);
    if val + (align - 1) < Pow2(w) { NearestAbove(val, align, r); }
  }

  lemma SumWraps(val: nat, align: nat, p: nat)
    requires 0 < align < p && val < p
    ensures var s := val + (align - 1); s % p == if s < p then s else s - p
  {
    var s := val + (align - 1);
    if s < p { DivModUnique(s, p, 0, s); } else { DivModUnique(s, p, 1, s - p); }
  }

  lemma NearestAbove(val: nat, align: nat, r: nat)
    requires align > 0 && r % align == 0 && r < val + align
    ensures forall m: nat | m % align == 0 && m >= val :: r <= m
  {
    forall m: nat | m % align == 0 && m >= val ensures r <= m {
      if r > m { MultipleGap(m, r, align); }
    }
  }

  // ---------------------------------------------------------------------------
  // Wide multiplication
  // ---------------------------------------------------------------------------

  const HALF: nat := 0x1_0000_0000
  const WORD: nat := 0x1_0000_0000_0000_0000
  const SQUARE: nat := 0xffff_fffe_0000_0001  // the largest product of two halves

  /** 64-bit operations that do not wrap around. */
  function Add64(x: nat, y: nat): nat
    requires x + y < WORD
  {
    x + y
  }

  function Mul64(x: nat, y: nat): nat
    requires x * y < WORD
  {
    x * y
  }

  lemma HalvesFit(x: nat, y: nat)
    requires x < HALF && y < HALF
    ensures 0 <= x * y <= SQUARE
  {
    MulLe(x, HALF - 1, y);
    MulLe(0, x, y);
  }

  /** Multiplication by halves, with the carries that the code collects. */
  lemma ProductByHalves(hi: nat, lo: nat, hi': nat, lo': nat)
    requires hi < HALF && lo < HALF && hi' < HALF && lo' < HALF
    ensures var s := lo * lo' / HALF + hi * lo' + lo * hi';
            (hi * HALF + lo) * (hi' * HALF + lo') / WORD == hi * hi' + s / HALF
  {
    var low, cross1, cross2, high := lo * lo', hi * lo', lo * hi', hi * hi';
    HalvesFit(lo, lo');
    HalvesFit(hi, lo');
    HalvesFit(lo, hi');
    HalvesFit(hi, hi');
    ExpandHalves(hi, lo, hi', lo');
    var s := low / HALF + cross1 + cross2;
    DivModUnique((hi * HALF + lo) * (hi' * HALF + lo'), WORD, high + s / HALF, s % HALF * HALF + low % HALF);
  }

  lemma ExpandHalves(hi: nat, lo: nat, hi': nat, lo': nat)
    ensures (hi * HALF + lo) * (hi' * HALF + lo')
         == hi * hi' * WORD + (hi * lo' + lo * hi') * HALF + lo * lo'
  {
    var b := hi' * HALF + lo';
    Distrib(hi * HALF, lo, b);
    MulSwap(hi, HALF, b);
    assert hi * HALF * b == hi * b * HALF;
    assert hi * b == hi * hi' * HALF + hi * lo';
    assert lo * b == lo * hi' * HALF + lo * lo';
  }

  /** The sum of three words and its halves, without the wide sum. */
  lemma CarryByHalves(x: nat, y: nat, z: nat)
    ensures (x + y + z) / 2 == x / 2 + y / 2 + z / 2 + (x % 2 + y % 2 + z % 2) / 2
    ensures (x + y + z) / HALF == ((x + y + z) / 2) / 0x8000_0000
  {
  }

  /** No sum on the way to the carry wraps around. */
  lemma CarryFits(x: nat, y: nat, z: nat, top: nat)
    requires x < HALF && y <= SQUARE && z <= SQUARE && top <= SQUARE
    ensures x / 2 + y / 2 + z / 2 + (x % 2 + y % 2 + z % 2) / 2 < WORD && top + (x + y + z) / HALF < WORD
  {
  }

  lemma QuotientFits(ab: nat)
    requires ab <= SQUARE
    ensures ab / HALF < HALF && ab / HALF % HALF == ab / HALF
  {
  }

  /** The exact 128-bit product of two 64-bit words, in two words; no intermediate sum or
      product wraps around. */
  method MulUnsignedManual(va: nat, vb: nat) returns (high: nat, low: nat)
    requires va < WORD && vb < WORD
    ensures high < WORD && low < WORD && high * WORD + low == va * vb
  {
    MulLe(0, va, vb);
    low := va * vb % WORD;
    var hiA, loA := va / HALF, va % HALF;
    var hiB, loB := vb / HALF, vb % HALF;
    high := HighWord(hiA, loA, hiB, loB);
    assert va * vb == (hiA * HALF + loA) * (hiB * HALF + loB);
  }

  /** The high word, from the four products of halves. */
  method HighWord(hiA: nat, loA: nat, hiB: nat, loB: nat) returns (high: nat)
    requires hiA < HALF && loA < HALF && hiB < HALF && loB < HALF
    ensures high < WORD && high == (hiA * HALF + loA) * (hiB * HALF + loB) / WORD
  {
    HalvesFit(loA, loB);
    HalvesFit(hiA, loB);
    HalvesFit(loA, hiB);
    HalvesFit(hiA, hiB);
    ProductByHalves(hiA, loA, hiB, loB);
    var ab, cross1, cross2, top := Mul64(loA, loB), Mul64(hiA, loB), Mul64(loA, hiB), Mul64(hiA, hiB);
    high := CarryOut(ab, cross1, cross2, top);
  }

  /** Adds up the carries between the places, by halves so that no sum wraps around. */
  method CarryOut(ab: nat, cross1: nat, cross2: nat, top: nat) returns (high: nat)
    requires ab <= SQUARE && cross1 <= SQUARE && cross2 <= SQUARE && top <= SQUARE
    ensures high < WORD && high == top + (ab / HALF + cross1 + cross2) / HALF
  {
    QuotientFits(ab);
    CarryByHalves(ab / HALF, cross1, cross2);
    CarryFits(ab / HALF, cross1, cross2, top);
    var c1 := ab / HALF % HALF;
    var c2 := Add64(Add64(c1 / 2, cross1 / 2), cross2 / 2);
    c2 := Add64(c2, (c1 % 2 + cross1 % 2 + cross2 % 2) / 2);
    c2 := c2 / 0x8000_0000;
    high := Add64(top, c2);
  }

  const SIGNED_MIN: int := -0x8000_0000_0000_0000
  const SIGNED_MAX: int := 0x7fff_ffff_ffff_ffff

  predicate IsSigned64(x: int) { SIGNED_MIN <= x <= SIGNED_MAX }

  /** Conversions between signed and unsigned words. */
  function ToUnsigned(x: int): (u: nat)
    requires IsSigned64(x)
    ensures u < WORD && (u == x || u == x + WORD)
  {
    if x < 0 then x + WORD else x
  }

  function ToSigned(u: nat): (x: int)
    requires u < WORD
    ensures IsSigned64(x) && (x == u || x == u - WORD)
  {
    if u <= SIGNED_MAX then u else u - WORD
  }

  /** Subtraction that may wrap around. */
  function Sub64(x: nat, y: nat): (r: nat)
    requires x < WORD && y < WORD
    ensures r < WORD && (r == x - y || r == x - y + WORD)
  {
    if x >= y then x - y else x - y + WORD
  }

  lemma SignedBound(x: int, y: int)
    requires IsSigned64(x) && IsSigned64(y)
    ensures SIGNED_MIN * WORD <= x * y < (SIGNED_MAX + 1) * WORD
  {
    var m := -SIGNED_MIN;
    if y >= 0 {
      MulLe(x, m, y);
      MulLe(-m, x, y);
    } else {
      MulLe(x, m, -y);
      MulLe(-m, x, -y);
    }
  }

  /** How the unsigned product relates to the signed one. */
  lemma SignedProduct(a: int, b: int, high: int, low: int)
    requires IsSigned64(a) && IsSigned64(b)
    requires high * WORD + low == ToUnsigned(a) * ToUnsigned(b)
    ensures var q := high - (if a < 0 then b else 0) - (if b < 0 then a else 0) - (if a < 0 && b < 0 then WORD else 0);
            q * WORD + low == a * b
  {
    var sa, sb := if a < 0 then 1 else 0, if b < 0 then 1 else 0;
    assert ToUnsigned(a) == a + sa * WORD && ToUnsigned(b) == b + sb * WORD;
    assert (a + sa * WORD) * (b + sb * WORD) == a * b + a * (sb * WORD) + (sa * WORD) * b + (sa * WORD) * (sb * WORD);
  }

  lemma QuotientInRange(q: int, low: int, p: int)
    requires q * WORD + low == p && 0 <= low < WORD
    requires SIGNED_MIN * WORD <= p < (SIGNED_MAX + 1) * WORD
    ensures IsSigned64(q)
  {
  }

  /** The exact signed 128-bit product: the signed high word, and the low word read as unsigned. */
  method MulSignedManual(a: int, b: int) returns (high: int, low: int)
    requires IsSigned64(a) && IsSigned64(b)
    ensures IsSigned64(high) && IsSigned64(low)
    ensures high * WORD + ToUnsigned(low) == a * b
  {
    var uHigh, uLow := MulUnsignedManual(ToUnsigned(a), ToUnsigned(b));
    SignedProduct(a, b, uHigh, uLow);
    SignedBound(a, b);
    ghost var q := uHigh - (if a < 0 then b else 0) - (if b < 0 then a else 0) - (if a < 0 && b < 0 then WORD else 0);
    QuotientInRange(q, uLow, a * b);
    if a < 0 { uHigh := Sub64(uHigh, ToUnsigned(b)); }
    if b < 0 { uHigh := Sub64(uHigh, ToUnsigned(a)); }
    high := ToSigned(uHigh);
    low := ToSigned(uLow);
    assert high == q;
  }
}
