/** What the Hamming code is good for: locating one wrong bit, noticing two. */
module HammingProps {
  import opened Bytes
  import opened BitArith
  import opened Hamming

  lemma ByteWidth()
    ensures Pow2(8) == 256
  {
    assert Pow2(4) == 16;
  }

  /** The exclusive or of two bytes, and of two sectors byte by byte. */
  function XorByte(x: byte, y: byte): byte {
    ByteWidth();
    XorBound(x, y, 8);
    Xor(x, y)
  }

  function XorSector(a: seq<byte>, b: seq<byte>): (r: seq<byte>)
    requires |a| == |b|
    ensures |r| == |a|
  {
    seq(|a|, i requires 0 <= i < |a| => XorByte(a[i], b[i]))
  }

  lemma {:induction false} ByteCodeLinear(x: byte, y: byte, base: nat, flip: nat, m: nat)
    ensures ByteCode(XorByte(x, y), base, flip, m) == Xor(ByteCode(x, base, flip, m), ByteCode(y, base, flip, m))
    decreases m
  {
    if m == 0 {
      XorAssoc(0, 0, 0);
    } else {
      ByteCodeLinear(x, y, base, flip, m - 1);
      BitXor(x, y, m - 1);
      var p := Xor(base + m - 1, flip);
      var u, v := if Bit(x, m - 1) then p else 0, if Bit(y, m - 1) then p else 0;
      XorAssoc(p, p, 0);
      XorAssoc(0, p, 0);
      XorExchange(ByteCode(x, base, flip, m - 1), ByteCode(y, base, flip, m - 1), u, v);
    }
  }

  /** The code is linear: the code of a sum is the sum of the codes. */
  lemma {:induction false} CodeLinear(a: seq<byte>, b: seq<byte>, flip: nat, n: nat)
    requires n <= |a| == |b|
    ensures Code(XorSector(a, b), flip, n) == Xor(Code(a, flip, n), Code(b, flip, n))
    decreases n
  {
    if n == 0 {
      XorAssoc(0, 0, 0);
    } else {
      CodeLinear(a, b, flip, n - 1);
      ByteCodeLinear(a[n - 1], b[n - 1], 8 * (n - 1), flip, 8);
      XorExchange(Code(a, flip, n - 1), Code(b, flip, n - 1),
                  ByteCode(a[n - 1], 8 * (n - 1), flip, 8), ByteCode(b[n - 1], 8 * (n - 1), flip, 8));
    }
  }

  /** A sector with one bit set. */
  function OneBit(b: nat): byte
    requires b < 8
  {
    ByteWidth();
    Pow2Grows(b, 7);
    Pow2(b)
  }

  function UnitSector(n: nat, i: nat, b: nat): (r: seq<byte>)
    requires i < n && b < 8
    ensures |r| == n
  {
    seq(n, k => if k == i then OneBit(b) else 0)
  }

  lemma {:induction false} ByteCodeUnit(b: nat, base: nat, flip: nat, m: nat)
    requires b < 8
    ensures ByteCode(OneBit(b), base, flip, m) == if b < m then Xor(base + b, flip) else 0
    decreases m
  {
    if m > 0 {
      ByteCodeUnit(b, base, flip, m - 1);
      BitOfPow2(b, m - 1);
      XorAssoc(Xor(base + b, flip), 0, 0);
      XorAssoc(0, Xor(base + b, flip), 0);
    }
  }

  lemma {:induction false} ByteCodeZero(base: nat, flip: nat, m: nat)
    ensures ByteCode(0, base, flip, m) == 0
    decreases m
  {
    if m > 0 {
      ByteCodeZero(base, flip, m - 1);
      BitOfZero(m - 1);
      XorAssoc(0, 0, 0);
    }
  }

  /** The code of one set bit is its position, turned by flip. */
  lemma {:induction false} CodeUnit(len: nat, i: nat, b: nat, flip: nat, n: nat)
    requires i < len && b < 8 && n <= len
    ensures Code(UnitSector(len, i, b), flip, n) == if i < n then Xor(8 * i + b, flip) else 0
    decreases n
  {
    if n > 0 {
      CodeUnit(len, i, b, flip, n - 1);
      ByteCodeUnit(b, 8 * i, flip, 8);
      ByteCodeZero(8 * (n - 1), flip, 8);
      XorAssoc(Xor(8 * i + b, flip), 0, 0);
      XorAssoc(0, Xor(8 * i + b, flip), 0);
    }
  }

  /** A sector read back with bit b of byte i wrong. */
  function Flip(buf: seq<byte>, i: nat, b: nat): (r: seq<byte>)
    requires i < |buf| && b < 8
    ensures |r| == |buf|
  {
    XorSector(buf, UnitSector(|buf|, i, b))
  }

  /** Flipping changes that bit and nothing else. */
  lemma FlipBits(buf: seq<byte>, i: nat, b: nat, j: nat, c: nat)
    requires i < |buf| && b < 8 && j < |buf|
    ensures Bit(Flip(buf, i, b)[j], c) <==> (Bit(buf[j], c) != (i == j && b == c))
  {
    BitXor(buf[j], UnitSector(|buf|, i, b)[j], c);
    BitOfPow2(b, c);
    BitOfZero(c);
  }

  lemma FlipTwice(buf: seq<byte>, i: nat, b: nat)
    requires i < |buf| && b < 8
    ensures Flip(Flip(buf, i, b), i, b) == buf
  {
    var u := UnitSector(|buf|, i, b);
    forall k | 0 <= k < |buf| ensures Flip(Flip(buf, i, b), i, b)[k] == buf[k] {
      XorAssoc(buf[k], u[k], u[k]);
      XorAssoc(u[k], u[k], 0);
      XorAssoc(buf[k], 0, 0);
    }
  }

  lemma CodeFlip(buf: seq<byte>, i: nat, b: nat, flip: nat)
    requires i < |buf| && b < 8
    ensures Code(Flip(buf, i, b), flip, |buf|) == Xor(Code(buf, flip, |buf|), Xor(8 * i + b, flip))
  {
    CodeLinear(buf, UnitSector(|buf|, i, b), flip, |buf|);
    CodeUnit(|buf|, i, b, flip, |buf|);
  }

  lemma PositionFits(size: nat, i: nat, b: nat)
    requires i < Pow2(size) && b < 8
    ensures 8 * i + b < Pow2(3 + size)
  {
    assert Pow2(3 + size) == 2 * Pow2(2 + size) && Pow2(2 + size) == 2 * Pow2(1 + size) &&
           Pow2(1 + size) == 2 * Pow2(size);
  }

  /** One wrong bit changes the odd half by exactly its position and the even half
      by the complement of it. */
  lemma SingleError(buf: seq<byte>, size: nat, i: nat, b: nat)
    requires IsSector(buf, size) && i < |buf| && b < 8
    ensures Xor(Odd(buf), Odd(Flip(buf, i, b))) == 8 * i + b
    ensures Xor(Even(buf, size), Even(Flip(buf, i, b), size)) == Ones(size) - (8 * i + b)
  {
    var p := 8 * i + b;
    PositionFits(size, i, b);
    Turned(p, size);
    hide Xor, Code, Flip, Ones, Pow2;
    CodeFlip(buf, i, b, 0);
    CodeFlip(buf, i, b, Ones(size));
    Cancel(Odd(buf), p);
    Cancel(Even(buf, size), Ones(size) - p);
  }

  lemma Turned(p: nat, size: nat)
    requires p < Pow2(3 + size)
    ensures Xor(p, 0) == p && p <= Ones(size) && Xor(p, Ones(size)) == Ones(size) - p
  {
    XorAssoc(p, 0, 0);
    XorOnes(p, 3 + size);
  }

  lemma Cancel(a: nat, d: nat)
    ensures Xor(a, Xor(a, d)) == d
  {
    XorAssoc(a, a, d);
    XorAssoc(0, d, 0);
    XorAssoc(d, 0, 0);
  }

  /** Two positions, both turned by flip, differ by what the positions differ by. */
  lemma TurnedPair(a: nat, p: nat, q: nat, flip: nat)
    ensures Xor(a, Xor(Xor(a, Xor(p, flip)), Xor(q, flip))) == Xor(p, q)
  {
    var u, v := Xor(p, flip), Xor(q, flip);
    assert Xor(u, v) == Xor(p, q) by {
      XorExchange(p, flip, q, flip);
      XorAssoc(flip, flip, 0);
      XorAssoc(Xor(p, q), 0, 0);
    }
    assert Xor(Xor(a, u), v) == Xor(a, Xor(u, v)) by { XorAssoc(a, u, v); }
    Cancel(a, Xor(u, v));
  }

  lemma Different(p: nat, q: nat)
    requires p != q
    ensures Xor(p, q) != 0
  {
    Cancel(p, q);
    XorAssoc(p, 0, 0);
  }

  lemma CodeTwoFlips(buf: seq<byte>, i: nat, b: nat, j: nat, c: nat, flip: nat)
    requires i < |buf| && j < |buf| && b < 8 && c < 8
    ensures Xor(Code(buf, flip, |buf|), Code(Flip(Flip(buf, i, b), j, c), flip, |buf|)) == Xor(8 * i + b, 8 * j + c)
  {
    CodeFlip(buf, i, b, flip);
    CodeFlip(Flip(buf, i, b), j, c, flip);
    TurnedPair(Code(buf, flip, |buf|), 8 * i + b, 8 * j + c, flip);
  }

  /** Two wrong bits change both halves by the same, which is not nothing. */
  lemma DoubleError(buf: seq<byte>, size: nat, i: nat, b: nat, j: nat, c: nat)
    requires IsSector(buf, size) && i < |buf| && j < |buf| && b < 8 && c < 8 && (i != j || b != c)
    ensures var read := Flip(Flip(buf, i, b), j, c);
      var d := Xor(Odd(buf), Odd(read));
      d == Xor(8 * i + b, 8 * j + c) && d != 0 && Xor(Even(buf, size), Even(read, size)) == d
  {
    CodeTwoFlips(buf, i, b, j, c, 0);
    CodeTwoFlips(buf, i, b, j, c, Ones(size));
    Different(8 * i + b, 8 * j + c);
  }

  // ----- Reading back -----

  datatype Diagnosis = Clean | OneWrong(position: nat) | TwoWrong

  /** What the difference between the stored and the recomputed code says. */
  function Diagnose(odd: nat, even: nat, size: nat): Diagnosis {
    if odd == 0 && even == 0 then Clean
    else if odd + even == Ones(size) then OneWrong(odd)
    else TwoWrong
  }

  function DiagnoseRead(buf: seq<byte>, read: seq<byte>, size: nat): Diagnosis {
    Diagnose(Xor(Odd(buf), Odd(read)), Xor(Even(buf, size), Even(read, size)), size)
  }

  lemma ReadClean(buf: seq<byte>, size: nat)
    ensures DiagnoseRead(buf, buf, size) == Clean
  {
    XorAssoc(Odd(buf), Odd(buf), 0);
    XorAssoc(Even(buf, size), 0, 0);
  }

  /** One wrong bit is located, and can be put right. */
  lemma ReadOneWrong(buf: seq<byte>, size: nat, i: nat, b: nat)
    requires IsSector(buf, size) && i < |buf| && b < 8
    ensures var read := Flip(buf, i, b);
      DiagnoseRead(buf, read, size) == OneWrong(8 * i + b) && Flip(read, (8 * i + b) / 8, (8 * i + b) % 8) == buf
  {
    SingleError(buf, size, i, b);
    FlipTwice(buf, i, b);
    OnesPositive(size);
  }

  lemma OnesPositive(size: nat)
    ensures Ones(size) >= 7 && Ones(size) % 2 == 1
  {
    assert Pow2(3 + size) == 2 * Pow2(2 + size) && Pow2(2 + size) == 2 * Pow2(1 + size) &&
           Pow2(1 + size) == 2 * Pow2(size);
  }

  /** Two wrong bits are never taken for none or for one. */
  lemma ReadTwoWrong(buf: seq<byte>, size: nat, i: nat, b: nat, j: nat, c: nat)
    requires IsSector(buf, size) && i < |buf| && j < |buf| && b < 8 && c < 8 && (i != j || b != c)
    ensures DiagnoseRead(buf, Flip(Flip(buf, i, b), j, c), size) == TwoWrong
  {
    DoubleError(buf, size, i, b, j, c);
    OnesPositive(size);
  }
}
