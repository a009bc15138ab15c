/** The 1-bit Hamming code written next to each sector of a flash page. */
module Hamming {
  import opened Bytes
  import opened BitArith

  /** A sector of 2^size bytes. */
  predicate IsSector(buf: seq<byte>, size: nat) {
    size <= 13 && |buf| == Pow2(size)
  }

  // ----- The code as a sum of positions -----

  /** Bit b of byte number i of a sector has position 8 * i + b.  The code adds up
      (exclusive or) the positions of all bits set, each one turned by flip. */
  function ByteCode(x: byte, base: nat, flip: nat, m: nat): nat {
    if m == 0 then 0 else Xor(ByteCode(x, base, flip, m - 1), if Bit(x, m - 1) then Xor(base + m - 1, flip) else 0)
  }

  function Code(buf: seq<byte>, flip: nat, n: nat): nat
    requires n <= |buf|
  {
    if n == 0 then 0 else Xor(Code(buf, flip, n - 1), ByteCode(buf[n - 1], 8 * (n - 1), flip, 8))
  }

  /** The two halves: positions, and positions complemented in 3 + size bits. */
  function Odd(buf: seq<byte>): nat { Code(buf, 0, |buf|) }

  function Ones(size: nat): nat { Pow2(3 + size) - 1 }

  function Even(buf: seq<byte>, size: nat): nat { Code(buf, Ones(size), |buf|) }

  // ----- Its bits -----

  /** Whether an odd number of the first m bits of x is set and has a position
      whose bit k is want. */
  predicate ByteRow(x: byte, base: nat, k: nat, want: bool, m: nat) {
    m > 0 && (ByteRow(x, base, k, want, m - 1) != (Bit(x, m - 1) && Bit(base + m - 1, k) == want))
  }

  predicate Rows(buf: seq<byte>, k: nat, want: bool, n: nat)
    requires n <= |buf|
  {
    n > 0 && (Rows(buf, k, want, n - 1) != ByteRow(buf[n - 1], 8 * (n - 1), k, want, 8))
  }

  lemma {:induction false} ByteCodeBit(x: byte, base: nat, flip: nat, k: nat, m: nat)
    ensures Bit(ByteCode(x, base, flip, m), k) <==> ByteRow(x, base, k, !Bit(flip, k), m)
    decreases m
  {
    if m == 0 {
      BitOfZero(k);
    } else {
      ByteCodeBit(x, base, flip, k, m - 1);
      BitXor(ByteCode(x, base, flip, m - 1), if Bit(x, m - 1) then Xor(base + m - 1, flip) else 0, k);
      BitXor(base + m - 1, flip, k);
      BitOfZero(k);
    }
  }

  /** Bit k of the code is a parity over the positions with bit k set (or clear). */
  lemma {:induction false} CodeBit(buf: seq<byte>, flip: nat, k: nat, n: nat)
    requires n <= |buf|
    ensures Bit(Code(buf, flip, n), k) <==> Rows(buf, k, !Bit(flip, k), n)
    decreases n
  {
    if n == 0 {
      BitOfZero(k);
    } else {
      CodeBit(buf, flip, k, n - 1);
      ByteCodeBit(buf[n - 1], 8 * (n - 1), flip, k, 8);
      BitXor(Code(buf, flip, n - 1), ByteCode(buf[n - 1], 8 * (n - 1), flip, 8), k);
    }
  }

  lemma {:induction false} ByteCodeBound(x: byte, base: nat, flip: nat, m: nat, w: nat)
    requires base + m <= Pow2(w) && flip < Pow2(w)
    ensures ByteCode(x, base, flip, m) < Pow2(w)
    decreases m
  {
    if m > 0 {
      ByteCodeBound(x, base, flip, m - 1, w);
      XorBound(base + m - 1, flip, w);
      XorBound(ByteCode(x, base, flip, m - 1), if Bit(x, m - 1) then Xor(base + m - 1, flip) else 0, w);
    }
  }

  lemma {:induction false} CodeBound(buf: seq<byte>, flip: nat, n: nat, w: nat)
    requires n <= |buf| && 8 * n <= Pow2(w) && flip < Pow2(w)
    ensures Code(buf, flip, n) < Pow2(w)
    decreases n
  {
    if n > 0 {
      CodeBound(buf, flip, n - 1, w);
      ByteCodeBound(buf[n - 1], 8 * (n - 1), flip, 8, w);
      XorBound(Code(buf, flip, n - 1), ByteCode(buf[n - 1], 8 * (n - 1), flip, 8), w);
    }
  }

  // ----- Parities of bytes -----

  /** The parity of the bits of x below m that are also set in mask. */
  predicate MaskedParity(x: nat, mask: nat, m: nat) {
    m > 0 && (MaskedParity(x, mask, m - 1) != (Bit(x, m - 1) && Bit(mask, m - 1)))
  }

  lemma {:induction false} MaskedParityShift(x: nat, mask: nat, m: nat)
    ensures MaskedParity(x, mask, m + 1) <==> ((x % 2 == 1 && mask % 2 == 1) != MaskedParity(x / 2, mask / 2, m))
    decreases m
  {
    if m > 0 {
      MaskedParityShift(x, mask, m - 1);
    }
  }

  lemma {:induction false} MaskedParityIsParity(x: nat, mask: nat, m: nat)
    requires x < Pow2(m)
    ensures MaskedParity(x, mask, m) <==> Parity(And(x, mask))
    decreases m
  {
    if m > 0 {
      MaskedParityShift(x, mask, m - 1);
      MaskedParityIsParity(x / 2, mask / 2, m - 1);
      assert And(x, mask) / 2 == And(x / 2, mask / 2);
    }
  }

  // ----- From positions to masks and rows -----

  const EVEN_WHOLE: nat := 0xff
  const EVEN_HALF: nat := 0x0f
  const ODD_HALF: nat := 0xf0
  const EVEN_FOURTH: nat := 0x33
  const ODD_FOURTH: nat := 0xcc
  const EVEN_EIGHTH: nat := 0x55
  const ODD_EIGHTH: nat := 0xaa

  /** The mask that selects the bits of a byte whose number has bit k equal to want. */
  function Mask(k: nat, want: bool): nat
    requires k < 3
  {
    if k == 0 then (if want then ODD_EIGHTH else EVEN_EIGHTH)
    else if k == 1 then (if want then ODD_FOURTH else EVEN_FOURTH)
    else (if want then ODD_HALF else EVEN_HALF)
  }

  lemma MaskBits(k: nat, want: bool, b: nat)
    requires k < 3 && b < 8
    ensures Bit(Mask(k, want), b) <==> Bit(b, k) == want
  {
    hide Bit;
    SmallBits(Mask(k, want), b);
    SmallBits(b, k);
    if k == 0 {
      MaskEighth(want, b);
    } else if k == 1 {
      MaskFourth(want, b);
    } else {
      MaskHalf(want, b);
    }
  }

  /** Bit b of x, for the eight bits of a byte. */
  predicate ByteBit(x: nat, b: nat) {
    if b == 0 then x % 2 == 1 else if b == 1 then x / 2 % 2 == 1 else if b == 2 then x / 4 % 2 == 1
    else if b == 3 then x / 8 % 2 == 1 else if b == 4 then x / 16 % 2 == 1 else if b == 5 then x / 32 % 2 == 1
    else if b == 6 then x / 64 % 2 == 1 else x / 128 % 2 == 1
  }

  lemma MaskEighth(want: bool, b: nat)
    requires b < 8
    ensures ByteBit(Mask(0, want), b) <==> ByteBit(b, 0) == want
  {
  }

  lemma MaskFourth(want: bool, b: nat)
    requires b < 8
    ensures ByteBit(Mask(1, want), b) <==> ByteBit(b, 1) == want
  {
  }

  lemma MaskHalf(want: bool, b: nat)
    requires b < 8
    ensures ByteBit(Mask(2, want), b) <==> ByteBit(b, 2) == want
  {
  }

  lemma SmallBits(x: nat, b: nat)
    requires x < 256 && b < 8
    ensures Bit(x, b) == ByteBit(x, b)
  {
    BitHalf(x, b);
    assert x / 2 / 2 == x / 4 && x / 4 / 2 == x / 8 && x / 8 / 2 == x / 16 && x / 16 / 2 == x / 32 &&
           x / 32 / 2 == x / 64 && x / 64 / 2 == x / 128;
    if b > 0 { BitHalf(x / 2, b - 1); }
    if b > 1 { BitHalf(x / 4, b - 2); }
    if b > 2 { BitHalf(x / 8, b - 3); }
    if b > 3 { BitHalf(x / 16, b - 4); }
    if b > 4 { BitHalf(x / 32, b - 5); }
    if b > 5 { BitHalf(x / 64, b - 6); }
  }

  lemma BitHalf(x: nat, b: nat)
    ensures Bit(x, b) == if b == 0 then x % 2 == 1 else Bit(x / 2, b - 1)
  {
  }

  /** The low three bits of a position are the bit's number, the others the byte's. */
  lemma PositionBits(i: nat, b: nat, k: nat)
    requires b < 8
    ensures k < 3 ==> (Bit(8 * i + b, k) <==> Bit(b, k))
    ensures k >= 3 ==> (Bit(8 * i + b, k) <==> Bit(i, k - 3))
  {
    var p := 8 * i + b;
    assert p / 2 == 4 * i + b / 2 && p / 2 / 2 == 2 * i + b / 2 / 2 && p / 2 / 2 / 2 == i;
    BitHalf(p, k);
    BitHalf(b, k);
    if k > 0 {
      BitHalf(p / 2, k - 1);
      BitHalf(b / 2, k - 1);
    }
    if k > 1 {
      BitHalf(p / 2 / 2, k - 2);
      BitHalf(b / 2 / 2, k - 2);
    }
  }

  lemma {:induction false} LowRow(x: byte, i: nat, k: nat, want: bool, m: nat)
    requires k < 3 && m <= 8
    ensures ByteRow(x, 8 * i, k, want, m) <==> MaskedParity(x, Mask(k, want), m)
    decreases m
  {
    if m > 0 {
      LowRow(x, i, k, want, m - 1);
      PositionBits(i, m - 1, k);
      MaskBits(k, want, m - 1);
    }
  }

  lemma {:induction false} HighRow(x: byte, i: nat, k: nat, want: bool, m: nat)
    requires k >= 3 && m <= 8
    ensures ByteRow(x, 8 * i, k, want, m) <==> (Bit(i, k - 3) == want && MaskedParity(x, EVEN_WHOLE, m))
    decreases m
  {
    if m > 0 {
      HighRow(x, i, k, want, m - 1);
      PositionBits(i, m - 1, k);
      BitOfOnes(8, m - 1);
      assert Pow2(8) - 1 == EVEN_WHOLE by { assert Pow2(4) == 16; assert Pow2(8) == 256; }
    }
  }

  /** The exclusive or of the first n bytes. */
  function XorAll(buf: seq<byte>, n: nat): nat
    requires n <= |buf|
  {
    if n == 0 then 0 else Xor(XorAll(buf, n - 1), buf[n - 1])
  }

  /** For the low bits the code may add up the bytes first. */
  lemma {:induction false} LowRows(buf: seq<byte>, k: nat, want: bool, n: nat)
    requires n <= |buf| && k < 3
    ensures Rows(buf, k, want, n) <==> Parity(And(XorAll(buf, n), Mask(k, want)))
    decreases n
  {
    if n > 0 {
      LowRows(buf, k, want, n - 1);
      var x := buf[n - 1];
      LowRow(x, n - 1, k, want, 8);
      assert x < Pow2(8) by { assert Pow2(4) == 16; assert Pow2(8) == 256; }
      MaskedParityIsParity(x, Mask(k, want), 8);
      AndXor(XorAll(buf, n - 1), x, Mask(k, want));
      ParityXor(And(XorAll(buf, n - 1), Mask(k, want)), And(x, Mask(k, want)));
    }
  }

  /** Whether an odd number of the first n entries is 1 among those whose index
      has bit t equal to want. */
  predicate RowParity(bp: seq<nat>, t: nat, want: bool, n: nat)
    requires n <= |bp|
  {
    n > 0 && (RowParity(bp, t, want, n - 1) != (Bit(n - 1, t) == want && bp[n - 1] == 1))
  }

  /** For the other bits the code adds up the parities of whole bytes. */
  lemma {:induction false} HighRows(buf: seq<byte>, bp: seq<nat>, k: nat, want: bool, n: nat)
    requires n <= |buf| == |bp| && k >= 3
    requires forall i :: 0 <= i < |buf| ==> bp[i] == if Parity(And(buf[i], EVEN_WHOLE)) then 1 else 0
    ensures Rows(buf, k, want, n) <==> RowParity(bp, k - 3, want, n)
    decreases n
  {
    if n > 0 {
      HighRows(buf, bp, k, want, n - 1);
      var x := buf[n - 1];
      HighRow(x, n - 1, k, want, 8);
      assert x < Pow2(8) by { assert Pow2(4) == 16; assert Pow2(8) == 256; }
      MaskedParityIsParity(x, EVEN_WHOLE, 8);
    }
  }

  // ----- The algorithm -----

  /** The parity of the bits of val that mask selects, by shifting both eight times. */
  method CalcBitwiseParity(val: nat, mask: nat) returns (r: nat)
    requires val < 256
    ensures r == if Parity(And(val, mask)) then 1 else 0
  {
    var v: nat, byteMask: nat, result: nat := val, mask, 0;
    assert Pow2(4) == 16 && Pow2(8) == 256;
    for i := 0 to 8
      invariant result <= 1 && v < Pow2(8 - i)
      invariant (result == 1) != Parity(And(v, byteMask)) <==> Parity(And(val, mask))
    {
      assert And(v, byteMask) / 2 == And(v / 2, byteMask / 2);
      if byteMask % 2 != 0 {
        result := if result == v % 2 then 0 else 1;
      }
      byteMask := byteMask / 2;
      v := v / 2;
    }
    r := result;
  }

  /** Within a stretch of 2^(t+1) indices the second half has bit t set. */
  lemma {:induction false} StretchBit(q: nat, t: nat, r: nat)
    requires r < Pow2(t + 1)
    ensures Bit(Span(q, Pow2(t + 1)) + r, t) <==> Pow2(t) <= r
    decreases t
  {
    if t == 0 {
      SpanTwice(q, 1);
      assert Pow2(1) == 2 && Pow2(0) == 1;
    } else {
      SpanTwice(q, Pow2(t));
      StretchBit(q, t - 1, r / 2);
      assert (Span(q, Pow2(t + 1)) + r) / 2 == Span(q, Pow2(t)) + r / 2;
    }
  }

  lemma {:induction false} SpanTwice(q: nat, m: nat)
    ensures Span(q, 2 * m) == 2 * Span(q, m)
  {
    if q > 0 {
      SpanTwice(q - 1, m);
    }
  }

  /** A power of two is a whole number of stretches. */
  lemma {:induction false} WholeStretches(t: nat, size: nat)
    requires t <= size
    ensures Span(Pow2(size - t), Pow2(t)) == Pow2(size)
    decreases t
  {
    if t == 0 {
      SpanIsProduct(Pow2(size), 1);
    } else {
      WholeStretches(t - 1, size - 1);
      SpanTwice(Pow2(size - t), Pow2(t - 1));
    }
  }

  lemma {:induction false} SkipRow(bp: seq<nat>, t: nat, want: bool, lo: nat, hi: nat)
    requires lo <= hi <= |bp| && forall i: nat :: lo <= i < hi ==> Bit(i, t) != want
    ensures RowParity(bp, t, want, hi) == RowParity(bp, t, want, lo)
    decreases hi
  {
    if lo < hi {
      SkipRow(bp, t, want, lo, hi - 1);
    }
  }

  lemma StretchSkips(bp: seq<nat>, t: nat, even: bool, q: nat)
    requires Span(q + 1, Pow2(t + 1)) <= |bp|
    ensures var lo := Span(q, Pow2(t + 1));
      if even then RowParity(bp, t, false, lo + Pow2(t + 1)) == RowParity(bp, t, false, lo + Pow2(t))
      else RowParity(bp, t, true, lo + Pow2(t)) == RowParity(bp, t, true, lo)
  {
    var lo := Span(q, Pow2(t + 1));
    if even {
      forall i: nat | lo + Pow2(t) <= i < lo + Pow2(t + 1) ensures Bit(i, t) {
        StretchBit(q, t, i - lo);
      }
      SkipRow(bp, t, false, lo + Pow2(t), lo + Pow2(t + 1));
    } else {
      forall i: nat | lo <= i < lo + Pow2(t) ensures !Bit(i, t) {
        StretchBit(q, t, i - lo);
      }
      SkipRow(bp, t, true, lo, lo + Pow2(t));
    }
  }

  /** Adds one chunk: the half of stretch q that is selected. */
  method AddChunk(bp: array<nat>, even: bool, chunkSize: nat, i: nat, before: nat, ghost t: nat, ghost q: nat)
    returns (result: nat)
    requires chunkSize == Pow2(t) && i == Span(q, Pow2(t + 1)) + (if even then 0 else chunkSize) &&
             Span(q + 1, Pow2(t + 1)) <= bp.Length
    requires forall k :: 0 <= k < bp.Length ==> bp[k] <= 1
    requires before == if RowParity(bp[..], t, !even, i) then 1 else 0
    ensures result == if RowParity(bp[..], t, !even, i + chunkSize) then 1 else 0
  {
    result := before;
    ghost var s := bp[..];
    for j := 0 to chunkSize
      invariant result == if RowParity(s, t, !even, i + j) then 1 else 0
    {
      StretchBit(q, t, i + j - Span(q, Pow2(t + 1)));
      assert s[i + j] == bp[i + j];
      result := if result == bp[i + j] then 0 else 1;
    }
  }

  /** Where the parity stands after q stretches: the unselected half adds nothing. */
  lemma StretchDone(s: seq<nat>, t: nat, even: bool, q: nat, size: nat)
    requires |s| == Pow2(size) && t < size && q <= Pow2(size - t - 1)
    ensures var lo := Span(q, Pow2(t + 1)); lo <= |s| && (q == Pow2(size - t - 1) ==> lo == |s|)
    ensures var lo := Span(q, Pow2(t + 1));
      q < Pow2(size - t - 1) ==>
        lo + Pow2(t + 1) <= |s|
        && (if even then RowParity(s, t, false, lo + Pow2(t + 1)) == RowParity(s, t, false, lo + Pow2(t))
            else RowParity(s, t, true, lo + Pow2(t)) == RowParity(s, t, true, lo))
  {
    WholeStretches(t + 1, size);
    SpanMonotone(q, Pow2(size - t - 1), Pow2(t + 1));
    if q < Pow2(size - t - 1) {
      SpanMonotone(q + 1, Pow2(size - t - 1), Pow2(t + 1));
      StretchSkips(s, t, even, q);
    }
  }

  /** The parity of every other chunk of the byte parities. */
  method CalcRowParityBits(bp: array<nat>, even: bool, chunkSize: nat, ghost t: nat, ghost size: nat) returns (r: nat)
    requires bp.Length == Pow2(size) && t < size && chunkSize == Pow2(t)
    requires forall i :: 0 <= i < bp.Length ==> bp[i] <= 1
    ensures r == if RowParity(bp[..], t, !even, bp.Length) then 1 else 0
  {
    hide Bit, RowParity;
    ghost var q, s := 0, bp[..];
    NoRows(s, t, !even);
    r := 0;
    var i := if even then 0 else chunkSize;
    StretchDone(s, t, even, 0, size);
    while i < bp.Length
      invariant q <= Pow2(size - t - 1) && i == Span(q, Pow2(t + 1)) + (if even then 0 else chunkSize) &&
                Span(q, Pow2(t + 1)) <= |s|
      invariant q == Pow2(size - t - 1) ==> Span(q, Pow2(t + 1)) == |s|
      invariant r == if RowParity(s, t, !even, Span(q, Pow2(t + 1))) then 1 else 0
      decreases Pow2(size - t - 1) - q
    {
      StretchDone(s, t, even, q, size);
      r := AddChunk(bp, even, chunkSize, i, r, t, q);
      q := q + 1;
      i := i + 2 * chunkSize;
      StretchDone(s, t, even, q, size);
    }
    StretchDone(s, t, even, q, size);
  }

  lemma NoRows(s: seq<nat>, t: nat, want: bool)
    ensures !RowParity(s, t, want, 0)
  {
  }

  // ----- The number of rows -----

  function L1(n: nat): nat { if n < 2 then 0 else 1 }
  function L2(n: nat): nat { if n < 4 then L1(n) else 2 + L1(n / 4) }
  function L4(n: nat): nat { if n < 16 then L2(n) else 4 + L2(n / 16) }
  function L8(n: nat): nat { if n < 256 then L4(n) else 8 + L4(n / 256) }
  function Log2(n: nat): nat { if n < 65536 then L8(n) else 16 + L8(n / 65536) }

  predicate IsLog(n: nat, a: nat) { Pow2(a) <= n < Pow2(a + 1) }

  lemma LogStep(n: nat, m: nat, d: nat, s: nat, a: nat)
    requires d == Pow2(s) && IsLog(m, a) && m * d <= n < m * d + d
    ensures IsLog(n, s + a)
  {
    hide Pow2;
    Pow2Add(s, a);
    Pow2Add(s, a + 1);
    Between(Pow2(a), Pow2(a + 1), m, d, n);
  }

  lemma Between(lo: nat, hi: nat, m: nat, d: nat, n: nat)
    requires lo <= m < hi && m * d <= n < m * d + d
    ensures d * lo <= n < d * hi
  {
    MulMonotone(lo, m, d);
    MulMonotone(m + 1, hi, d);
    assert (m + 1) * d == m * d + d;
  }

  /** The macro computes the integer logarithm of any 32-bit number. */
  lemma Log2IsLog(n: nat)
    requires 0 < n < 0x1_0000_0000
    ensures IsLog(n, Log2(n))
  {
    assert Pow2(2) == 4 && Pow2(4) == 16 && Pow2(8) == 256 && Pow2(12) == 4096 && Pow2(16) == 65536;
    if n < 65536 {
      L8IsLog(n);
    } else {
      L8IsLog(n / 65536);
      LogStep(n, n / 65536, 65536, 16, L8(n / 65536));
    }
  }

  lemma L8IsLog(n: nat)
    requires 0 < n < 65536
    ensures IsLog(n, L8(n))
  {
    assert Pow2(4) == 16 && Pow2(8) == 256;
    if n < 256 {
      L4IsLog(n);
    } else {
      L4IsLog(n / 256);
      LogStep(n, n / 256, 256, 8, L4(n / 256));
    }
  }

  lemma L4IsLog(n: nat)
    requires 0 < n < 256
    ensures IsLog(n, L4(n))
  {
    assert Pow2(4) == 16;
    if n < 16 {
      L2IsLog(n);
    } else {
      L2IsLog(n / 16);
      LogStep(n, n / 16, 16, 4, L2(n / 16));
    }
  }

  lemma L2IsLog(n: nat)
    requires 0 < n < 16
    ensures IsLog(n, L2(n))
  {
    assert Pow2(0) == 1 && Pow2(1) == 2 && Pow2(2) == 4 && Pow2(3) == 8 && Pow2(4) == 16;
  }

  lemma Log2OfPow2(size: nat)
    requires size <= 13
    ensures Log2(Pow2(size)) == size
  {
    Pow2Grows(size, 13);
    assert Pow2(5) == 32 && Pow2(9) == 512 && Pow2(13) == 8192;
    Log2IsLog(Pow2(size));
    var a := Log2(Pow2(size));
    if a < size {
      Pow2Grows(a + 1, size);
    } else if size < a {
      Pow2Grows(size + 1, a);
    }
  }

  // ----- The whole code -----

  /** The low m bits of a half are right, and the others are clear. */
  ghost predicate HalfSoFar(half: nat, buf: seq<byte>, want: bool, m: nat) {
    half < Pow2(m) && forall k: nat :: k < m ==> (Bit(half, k) <==> Rows(buf, k, want, |buf|))
  }

  /** Three parities put together. */
  lemma ThreeBits(a: nat, b: nat, c: nat)
    requires a <= 1 && b <= 1 && c <= 1
    ensures Or(Or(a * 4, b * 2), c) == 4 * a + 2 * b + c
  {
    OrTable();
    hide Or;
  }

  lemma OrTable()
    ensures Or(0, 0) == 0 && Or(0, 2) == 2 && Or(4, 0) == 4 && Or(4, 2) == 6
    ensures Or(0, 1) == 1 && Or(2, 0) == 2 && Or(2, 1) == 3 && Or(4, 1) == 5 && Or(6, 0) == 6 && Or(6, 1) == 7
  {
    assert Or(0, 0) == 0;
    assert Or(1, 0) == 1 && Or(0, 1) == 1;
    assert Or(2, 0) == 2 && Or(0, 2) == 2 && Or(3, 0) == 3 && Or(2, 1) == 3;
  }

  lemma ThreeRows(half: nat, buf: seq<byte>, want: bool, a: nat, b: nat, c: nat)
    requires a <= 1 && b <= 1 && c <= 1 && half == 4 * a + 2 * b + c
    requires (a == 1 <==> Rows(buf, 2, want, |buf|)) && (b == 1 <==> Rows(buf, 1, want, |buf|)) &&
             (c == 1 <==> Rows(buf, 0, want, |buf|))
    ensures HalfSoFar(half, buf, want, 3)
  {
    hide Rows;
    SmallBits(half, 0);
    SmallBits(half, 1);
    SmallBits(half, 2);
    assert Pow2(3) == 8;
  }

  /** The low three bits come from the exclusive or of all bytes. */
  method LowHalf(buf: seq<byte>, bits: nat, even: bool) returns (half: nat)
    requires bits == XorAll(buf, |buf|) && bits < 256
    ensures HalfSoFar(half, buf, !even, 3)
  {
    var a := CalcBitwiseParity(bits, if even then EVEN_HALF else ODD_HALF);
    var b := CalcBitwiseParity(bits, if even then EVEN_FOURTH else ODD_FOURTH);
    var c := CalcBitwiseParity(bits, if even then EVEN_EIGHTH else ODD_EIGHTH);
    half := Or(Or(a * 4, b * 2), c);
    ThreeBits(a, b, c);
    LowRows(buf, 0, !even, |buf|);
    LowRows(buf, 1, !even, |buf|);
    LowRows(buf, 2, !even, |buf|);
    hide Or, Rows, Parity, And, HalfSoFar, XorAll;
    ThreeRows(half, buf, !even, a, b, c);
  }

  /** Row parities are added one bit at a time. */
  lemma HalfStep(half: nat, buf: seq<byte>, want: bool, m: nat, val: nat)
    requires HalfSoFar(half, buf, want, m) && val == if Rows(buf, m, want, |buf|) then 1 else 0
    ensures HalfSoFar(Or(half, val * Pow2(m)), buf, want, m + 1)
  {
    var h := Or(half, val * Pow2(m));
    OrBound(half, val * Pow2(m), m + 1);
    forall k: nat | k < m + 1 ensures Bit(h, k) <==> Rows(buf, k, want, |buf|) {
      BitOr(half, val * Pow2(m), k);
      BitOfPow2(m, k);
      BitOfZero(k);
      if k == m {
        BitAbove(half, m, m);
      }
    }
  }

  /** A half that has all its bits right is the sum of positions. */
  lemma HalfDone(half: nat, buf: seq<byte>, size: nat, want: bool)
    requires IsSector(buf, size) && HalfSoFar(half, buf, want, 3 + size)
    ensures half == if want then Odd(buf) else Even(buf, size)
  {
    var w := 3 + size;
    var flip := if want then 0 else Ones(size);
    assert Pow2(w) == 8 * Pow2(size) by {
      assert Pow2(w) == 2 * Pow2(w - 1) && Pow2(w - 1) == 2 * Pow2(w - 2) && Pow2(w - 2) == 2 * Pow2(w - 3);
    }
    CodeBound(buf, flip, |buf|, w);
    forall k: nat | k < w ensures Bit(half, k) <==> Bit(Code(buf, flip, |buf|), k) {
      CodeBit(buf, flip, k, |buf|);
      BitOfZero(k);
      BitOfOnes(w, k);
    }
    SameBits(half, Code(buf, flip, |buf|), w);
  }

  method XorBytes(buf: seq<byte>) returns (bits: nat)
    ensures bits == XorAll(buf, |buf|) && bits < 256
  {
    bits := 0;
    assert Pow2(4) == 16 && Pow2(8) == 256;
    for i := 0 to |buf|
      invariant bits == XorAll(buf, i) && bits < Pow2(8)
    {
      XorBound(bits, buf[i], 8);
      bits := Xor(bits, buf[i]);
    }
  }

  method ByteParities(buf: seq<byte>) returns (bp: array<nat>)
    ensures fresh(bp) && bp.Length == |buf|
    ensures forall i :: 0 <= i < |buf| ==> bp[i] == if Parity(And(buf[i], EVEN_WHOLE)) then 1 else 0
  {
    bp := new nat[|buf|];
    for i := 0 to |buf|
      invariant forall k :: 0 <= k < i ==> bp[k] == if Parity(And(buf[k], EVEN_WHOLE)) then 1 else 0
    {
      bp[i] := CalcBitwiseParity(buf[i], EVEN_WHOLE);
    }
  }

  /** The code of a sector: the odd half in the upper 16 bits, the even half below. */
  method NandCalculateEcc(buf: seq<byte>, ghost size: nat) returns (odd: nat, even: nat)
    requires IsSector(buf, size)
    ensures odd == Odd(buf) < 0x1_0000 && even == Even(buf, size) < 0x1_0000
  {
    var bits := XorBytes(buf);
    even := LowHalf(buf, bits, true);
    odd := LowHalf(buf, bits, false);
    var bp := ByteParities(buf);
    Log2OfPow2(size);
    var rows := Log2(|buf|);
    var i := 0;
    while i < rows
      invariant 0 <= i <= rows
      invariant forall k :: 0 <= k < |buf| ==> bp[k] == if Parity(And(buf[k], EVEN_WHOLE)) then 1 else 0
      invariant HalfSoFar(even, buf, false, 3 + i) && HalfSoFar(odd, buf, true, 3 + i)
    {
      hide HalfSoFar, Log2, Rows, RowParity, Pow2, Or;
      var val := CalcRowParityBits(bp, true, Pow2(i), i, size);
      HighRows(buf, bp[..], 3 + i, false, |buf|);
      HalfStep(even, buf, false, 3 + i, val);
      even := Or(even, val * Pow2(3 + i));
      val := CalcRowParityBits(bp, false, Pow2(i), i, size);
      HighRows(buf, bp[..], 3 + i, true, |buf|);
      HalfStep(odd, buf, true, 3 + i, val);
      odd := Or(odd, val * Pow2(3 + i));
      i := i + 1;
    }
    HalfDone(even, buf, size, false);
    HalfDone(odd, buf, size, true);
    Pow2Grows(3 + size, 16);
    assert Pow2(4) == 16 && Pow2(8) == 256 && Pow2(12) == 4096 && Pow2(16) == 65536;
  }
}
