/** Bits of natural numbers and the bitwise operations on them. */
module BitArith {
  function Pow2(k: nat): (r: nat)
    ensures r > 0
  {
    if k == 0 then 1 else 2 * Pow2(k - 1)
  }

  predicate Bit(n: nat, k: nat) {
    if k == 0 then n % 2 == 1 else Bit(n / 2, k - 1)
  }

  function Xor(a: nat, b: nat): nat
    decreases a + b
  {
    if a == 0 && b == 0 then 0 else 2 * Xor(a / 2, b / 2) + if a % 2 != b % 2 then 1 else 0
  }

  function Or(a: nat, b: nat): nat
    decreases a + b
  {
    if a == 0 && b == 0 then 0 else 2 * Or(a / 2, b / 2) + if a % 2 == 1 || b % 2 == 1 then 1 else 0
  }

  function And(a: nat, b: nat): nat
    decreases a
  {
    if a == 0 then 0 else 2 * And(a / 2, b / 2) + if a % 2 == 1 && b % 2 == 1 then 1 else 0
  }

  /** Whether an odd number of bits is set. */
  predicate Parity(x: nat) {
    if x == 0 then false else (x % 2 == 1) != Parity(x / 2)
  }

  lemma {:induction false} BitXor(a: nat, b: nat, k: nat)
    ensures Bit(Xor(a, b), k) <==> (Bit(a, k) != Bit(b, k))
    decreases k
  {
    if k > 0 {
      BitXor(a / 2, b / 2, k - 1);
      assert Xor(a, b) / 2 == Xor(a / 2, b / 2);
    }
  }

  lemma {:induction false} BitOr(a: nat, b: nat, k: nat)
    ensures Bit(Or(a, b), k) <==> (Bit(a, k) || Bit(b, k))
    decreases k
  {
    OrHalf(a, b);
    if k > 0 {
      hide Or;
      BitOr(a / 2, b / 2, k - 1);
    }
  }

  lemma OrHalf(a: nat, b: nat)
    ensures Or(a, b) / 2 == Or(a / 2, b / 2)
    ensures Or(a, b) % 2 == 1 <==> a % 2 == 1 || b % 2 == 1
  {
    var rest := Or(a / 2, b / 2);
    assert Or(a, b) == 2 * rest + if a % 2 == 1 || b % 2 == 1 then 1 else 0;
    hide Or;
  }

  /** Numbers below 2^w have no bits from w on. */
  lemma {:induction false} BitAbove(n: nat, w: nat, k: nat)
    requires n < Pow2(w) && w <= k
    ensures !Bit(n, k)
    decreases k
  {
    if w == 0 {
      if k > 0 {
        BitAbove(n / 2, 0, k - 1);
      }
    } else {
      BitAbove(n / 2, w - 1, k - 1);
    }
  }

  /** A number is its bits. */
  lemma {:induction false} SameBits(a: nat, b: nat, w: nat)
    requires a < Pow2(w) && b < Pow2(w) && forall k: nat :: k < w ==> (Bit(a, k) <==> Bit(b, k))
    ensures a == b
    decreases w
  {
    if w > 0 {
      assert Bit(a, 0) <==> Bit(b, 0);
      forall k: nat | k < w - 1 ensures Bit(a / 2, k) <==> Bit(b / 2, k) {
        assert Bit(a, k + 1) <==> Bit(b, k + 1);
      }
      SameBits(a / 2, b / 2, w - 1);
    }
  }

  lemma {:induction false} XorBound(a: nat, b: nat, w: nat)
    requires a < Pow2(w) && b < Pow2(w)
    ensures Xor(a, b) < Pow2(w)
    decreases w
  {
    if w > 0 {
      XorBound(a / 2, b / 2, w - 1);
    }
  }

  lemma {:induction false} OrBound(a: nat, b: nat, w: nat)
    requires a < Pow2(w) && b < Pow2(w)
    ensures Or(a, b) < Pow2(w)
    decreases w
  {
    if w > 0 {
      OrBound(a / 2, b / 2, w - 1);
    }
  }

  lemma {:induction false} Pow2Grows(a: nat, b: nat)
    requires a <= b
    ensures Pow2(a) <= Pow2(b)
    decreases b
  {
    if a < b {
      Pow2Grows(a, b - 1);
    }
  }

  lemma {:induction false} Pow2Add(a: nat, b: nat)
    ensures Pow2(a + b) == Pow2(a) * Pow2(b)
    decreases b
  {
    if b > 0 {
      Pow2Add(a, b - 1);
    }
  }

  /** A bit put at place s. */
  lemma {:induction false} BitOfPow2(s: nat, k: nat)
    ensures Bit(Pow2(s), k) <==> s == k
    decreases k
  {
    if k > 0 && s > 0 {
      BitOfPow2(s - 1, k - 1);
      assert Pow2(s) / 2 == Pow2(s - 1);
    } else if k > 0 {
      BitOfZero(k - 1);
      assert 1 / 2 == 0;
    }
  }

  lemma {:induction false} BitOfZero(k: nat)
    ensures !Bit(0, k)
    decreases k
  {
    if k > 0 {
      BitOfZero(k - 1);
    }
  }

  /** Exclusive or is commutative, associative and undoes itself. */
  lemma {:induction false} XorLaws(a: nat, b: nat, c: nat, w: nat)
    requires a < Pow2(w) && b < Pow2(w) && c < Pow2(w)
    ensures Xor(a, b) == Xor(b, a) && Xor(Xor(a, b), c) == Xor(a, Xor(b, c))
    ensures Xor(a, 0) == a && Xor(a, a) == 0
    decreases w
  {
    if w > 0 {
      XorLaws(a / 2, b / 2, c / 2, w - 1);
      assert Xor(a, b) / 2 == Xor(a / 2, b / 2) && Xor(b, c) / 2 == Xor(b / 2, c / 2);
    }
  }

  lemma XorAssoc(a: nat, b: nat, c: nat)
    ensures Xor(Xor(a, b), c) == Xor(a, Xor(b, c)) && Xor(a, b) == Xor(b, a)
    ensures Xor(a, 0) == a && Xor(a, a) == 0
  {
    Width(a + b + c);
    XorLaws(a, b, c, a + b + c);
  }

  /** The four-term rearrangement that makes exclusive-or sums linear. */
  lemma XorExchange(a: nat, b: nat, c: nat, d: nat)
    ensures Xor(Xor(a, b), Xor(c, d)) == Xor(Xor(a, c), Xor(b, d))
  {
    XorAssoc(a, b, Xor(c, d));
    XorAssoc(b, c, d);
    XorAssoc(c, b, d);
    XorAssoc(a, c, Xor(b, d));
  }

  /** Every number has some width. */
  lemma {:induction false} Width(n: nat)
    ensures n < Pow2(n)
  {
    if n > 0 {
      Width(n - 1);
    }
  }

  lemma {:induction false} ParityXor(a: nat, b: nat)
    ensures Parity(Xor(a, b)) <==> (Parity(a) != Parity(b))
    decreases a + b
  {
    if a != 0 || b != 0 {
      ParityXor(a / 2, b / 2);
      assert Xor(a, b) / 2 == Xor(a / 2, b / 2);
    }
  }

  lemma {:induction false} AndXor(a: nat, b: nat, m: nat)
    ensures And(Xor(a, b), m) == Xor(And(a, m), And(b, m))
    decreases a + b
  {
    if a != 0 || b != 0 {
      AndXor(a / 2, b / 2, m / 2);
      assert Xor(a, b) / 2 == Xor(a / 2, b / 2);
      assert And(a, m) / 2 == And(a / 2, m / 2) && And(b, m) / 2 == And(b / 2, m / 2);
    }
  }

  /** The complement in w bits is the exclusive or with w ones. */
  lemma {:induction false} XorOnes(a: nat, w: nat)
    requires a < Pow2(w)
    ensures Xor(a, Pow2(w) - 1) == Pow2(w) - 1 - a
    decreases w
  {
    if w > 0 {
      var m := Pow2(w - 1);
      XorOnes(a / 2, w - 1);
      assert (2 * m - 1) / 2 == m - 1 && (2 * m - 1) % 2 == 1;
      assert Xor(a, 2 * m - 1) == 2 * Xor(a / 2, m - 1) + if a % 2 != 1 then 1 else 0;
      assert a == 2 * (a / 2) + a % 2;
    }
  }

  lemma {:induction false} BitOfOnes(w: nat, k: nat)
    ensures Bit(Pow2(w) - 1, k) <==> k < w
    decreases k
  {
    if w == 0 {
      BitOfZero(k);
    } else if k > 0 {
      BitOfOnes(w - 1, k - 1);
      assert (Pow2(w) - 1) / 2 == Pow2(w - 1) - 1;
    }
  }
}
