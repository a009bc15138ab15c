/** The three bytes of a sector's code that go to the spare area of the page. */
module EccSector {
  import opened Bytes
  import opened BitArith
  import opened Hamming
  import opened HammingProps

  /** The bytes of the code, as kept: the last one holds the high byte of the even
      half and, four bits up, the high byte of the odd half, cut to a byte. */
  function Packed(odd: nat, even: nat): seq<byte> {
    [even % 256, odd % 256, Or(even / 256, 16 * (odd / 256)) % 256]
  }

  function Unpacked(code: seq<byte>): (nat, nat)
    requires |code| == 3
  {
    var low: int, high: int, both: int := code[0], code[1], code[2];
    (high + 256 * (both / 16), low + 256 * (both % 16))
  }

  /** Both halves of a code, and its three bytes. */
  method Store(sector: seq<byte>, ghost size: nat) returns (code: seq<byte>)
    requires IsSector(sector, size)
    ensures code == Packed(Odd(sector), Even(sector, size))
  {
    var odd, even := NandCalculateEcc(sector, size);
    code := [even % 256, odd % 256, Or(even / 256, 16 * (odd / 256)) % 256];
  }

  lemma OrUnfold(a: nat, b: nat)
    ensures Or(a, b) == 2 * Or(a / 2, b / 2) + if a % 2 == 1 || b % 2 == 1 then 1 else 0
  {
  }

  lemma OrShift(a: nat, b: nat)
    ensures Or(a, 2 * b) == 2 * Or(a / 2, b) + a % 2
  {
  }

  lemma OrNibbles(a: nat, b: nat)
    requires a < 16
    ensures Or(a, 16 * b) == a + 16 * b
  {
    OrNone(b);
    hide Or;
    OrShift(a, 8 * b);
    OrShift(a / 2, 4 * b);
    OrShift(a / 2 / 2, 2 * b);
    OrShift(a / 2 / 2 / 2, b);
    assert a / 2 / 2 / 2 / 2 == 0;
  }

  lemma {:induction false} OrNone(b: nat)
    ensures Or(0, b) == b
  {
    if b > 0 {
      OrNone(b / 2);
    }
  }

  /** Halves of up to twelve bits survive the packing. */
  lemma PackedTwelve(odd: nat, even: nat)
    requires odd < 4096 && even < 4096
    ensures Unpacked(Packed(odd, even)) == (odd, even)
  {
    hide Or;
    OrNibbles(even / 256, odd / 256);
    Nibbles(even / 256, odd / 256);
  }

  lemma Nibbles(low: nat, high: nat)
    requires low < 16 && high < 16
    ensures (low + 16 * high) % 256 == low + 16 * high && (low + 16 * high) / 16 == high &&
            (low + 16 * high) % 16 == low
  {
  }

  lemma Narrow(sector: seq<byte>, size: nat)
    requires IsSector(sector, size) && size <= 9
    ensures Odd(sector) < 4096 && Even(sector, size) < 4096
  {
    assert Pow2(3 + size) == 8 * Pow2(size) by {
      assert Pow2(3) == 8;
      Pow2Add(3, size);
    }
    CodeBound(sector, 0, |sector|, 3 + size);
    CodeBound(sector, Ones(size), |sector|, 3 + size);
    Pow2Grows(3 + size, 12);
    assert Pow2(12) == 4096 by {
      assert Pow2(6) == 64;
      Pow2Add(6, 6);
    }
  }

  function Blank(size: nat): seq<byte> {
    seq(Pow2(size), _ => 0)
  }

  lemma {:induction false} BlankCode(size: nat, flip: nat, n: nat)
    requires n <= Pow2(size)
    ensures Code(Blank(size), flip, n) == 0
    decreases n
  {
    if n > 0 {
      BlankCode(size, flip, n - 1);
      ByteCodeZero(8 * (n - 1), flip, 8);
      XorAssoc(0, 0, 0);
    }
  }

  /** A sector with its first bit and the first bit of byte i set. */
  function TwoBits(size: nat, i: nat): (r: seq<byte>)
    requires i < Pow2(size)
    ensures |r| == Pow2(size)
  {
    Flip(Flip(Blank(size), 0, 0), i, 0)
  }

  lemma TwoBitsCode(size: nat, i: nat, flip: nat)
    requires i < Pow2(size)
    ensures Code(TwoBits(size, i), flip, Pow2(size)) == 8 * i
  {
    hide Xor, Code;
    CodeTwoFlips(Blank(size), 0, 0, i, 0, flip);
    BlankCode(size, flip, Pow2(size));
    XorZero(8 * i);
    XorZero(Code(TwoBits(size, i), flip, Pow2(size)));
  }

  lemma XorZero(a: nat)
    ensures Xor(0, a) == a
  {
    XorAssoc(0, a, 0);
    XorAssoc(a, 0, 0);
  }

  /** Whether the three bytes give back the code of every sector of this size. */
  ghost predicate Lossless(size: nat) {
    forall sector: seq<byte> | IsSector(sector, size) ::
      Unpacked(Packed(Odd(sector), Even(sector, size))) == (Odd(sector), Even(sector, size))
  }

  lemma OrSeventeen()
    ensures Or(17, 272) == 273
  {
    hide Or;
    OrNone(8);
    OrUnfold(1, 17);
    OrShift(2, 17);
    OrShift(4, 34);
    OrShift(8, 68);
    OrShift(17, 136);
  }

  lemma SameThreeBytes()
    ensures Packed(256, 256) == Packed(4352, 4352)
  {
    hide Or;
    OrNibbles(1, 1);
    OrSeventeen();
  }

  /** They do exactly for sectors of up to 512 bytes. */
  lemma LosslessIff(size: nat)
    requires size <= 13
    ensures Lossless(size) <==> size <= 9
  {
    if size <= 9 {
      forall sector: seq<byte> | IsSector(sector, size)
        ensures Unpacked(Packed(Odd(sector), Even(sector, size))) == (Odd(sector), Even(sector, size))
      {
        Narrow(sector, size);
        PackedTwelve(Odd(sector), Even(sector, size));
      }
    } else {
      assert Pow2(10) == 1024 by {
        assert Pow2(5) == 32;
        Pow2Add(5, 5);
      }
      Pow2Grows(10, size);
      TwoBitsCode(size, 32, 0);
      TwoBitsCode(size, 544, 0);
      TwoBitsCode(size, 32, Ones(size));
      TwoBitsCode(size, 544, Ones(size));
      SameThreeBytes();
      assert IsSector(TwoBits(size, 32), size) && IsSector(TwoBits(size, 544), size);
    }
  }
}
