/** Numbers in hexadecimal fields. */
module Hex {
  import opened Bytes

  const SPACE: byte := 32
  const TWO64: nat := 0x1_0000_0000_0000_0000

  predicate IsDigit(c: byte) { 48 <= c <= 57 || 65 <= c <= 70 || 97 <= c <= 102 }

  function DigitValue(c: byte): (d: nat)
    requires IsDigit(c)
    ensures d < 16
  {
    if c <= 57 then c - 48 else if c <= 70 then c - 55 else c - 87
  }

  /** A hexadecimal digit, capital or small. */
  predicate Hexadecimal(c: byte) { 97 <= c <= 102 || 65 <= c <= 70 || 48 <= c <= 57 }

  ghost predicate AllDigits(s: seq<byte>) { forall i :: 0 <= i < |s| ==> Hexadecimal(s[i]) }

  /** What a digit is worth: a to f, A to F and 0 to 9. */
  function Worth(c: byte): nat {
    if 97 <= c <= 102 then 10 + (c - 97) else if 65 <= c <= 70 then 10 + (c - 65)
    else if 48 <= c <= 57 then c - 48 else 0
  }

  /** Most significant digit first. */
  function Value(s: seq<byte>): nat
    requires AllDigits(s)
  {
    if s == [] then 0 else 16 * Value(s[..|s| - 1]) + Worth(s[|s| - 1])
  }

  /** A field that spells v. */
  ghost predicate Spells(field: seq<byte>, v: nat) { AllDigits(field) && Value(field) == v }

  /** The byte at i, or the string's terminator. */
  function At(s: seq<byte>, i: nat): byte { if i < |s| then s[i] else 0 }

  lemma ValueSnoc(s: seq<byte>, c: byte)
    requires AllDigits(s) && IsDigit(c)
    ensures AllDigits(s + [c]) && Value(s + [c]) == 16 * Value(s) + DigitValue(c)
  {
    assert DigitValue(c) == Worth(c);
    assert (s + [c])[..|s|] == s;
  }

  /** The first byte of the field that is not a blank. */
  method SkipBlanks(s: seq<byte>, digs: nat) returns (i: nat)
    requires digs <= |s|
    ensures i <= digs && (i < digs ==> s[i] != 32)
    ensures forall k :: 0 <= k < i ==> s[k] == 32
  {
    i := 0;
    while At(s, i) == SPACE
      invariant i <= digs && forall k :: 0 <= k < i ==> s[k] == SPACE
      decreases digs - i
    {
      if i == digs {
        break;
      }
      i := i + 1;
    }
  }

  /** What the digits from skip on are worth in a 64-bit word: those up to the end of
      the field or a NUL; another character stops the reading one place on. */
  ghost predicate Reads(s: seq<byte>, digs: nat, skip: nat, n: nat, value: nat) {
    && skip + n <= digs <= |s|
    && AllDigits(s[skip..skip + n])
    && (skip + n < digs ==> !Hexadecimal(s[skip + n]))
    && value == ((if skip + n == digs || s[skip + n] == 0 then 1 else 16) * Value(s[skip..skip + n]))
                % 0x1_0000_0000_0000_0000
  }

  method ReadDigits(s: seq<byte>, digs: nat, skip: nat) returns (value: nat, n: nat)
    requires skip <= digs <= |s|
    ensures Reads(s, digs, skip, n, value)
  {
    value, n := 0, 0;
    assert s[skip..skip + 0] == [] && Value([]) == 0 && AllDigits([]);
    if skip == digs || s[skip] == 0 {
      return;
    }
    hide Value, DigitValue, AllDigits;
    while IsDigit(s[skip + n])
      invariant skip + n < digs && s[skip + n] != 0
      invariant AllDigits(s[skip..skip + n]) && value == (16 * Value(s[skip..skip + n])) % TWO64
      decreases digs - n
    {
      ValueNext(s, skip, n);
      ShiftAdd(Value(s[skip..skip + n]), DigitValue(s[skip + n]));
      value := (value + DigitValue(s[skip + n])) % TWO64;
      n := n + 1;
      if skip + n == digs || s[skip + n] == 0 {
        return;
      }
      ShiftAdd(Value(s[skip..skip + n]), 0);
      value := (16 * value) % TWO64;
    }
  }

  /** A shift by four bits loses what does not fit, and adding a digit nothing more. */
  lemma ShiftAdd(v: nat, d: nat)
    ensures ((16 * v) % TWO64 + d) % TWO64 == (16 * v + d) % TWO64
    ensures (16 * (v % TWO64)) % TWO64 == (16 * v) % TWO64
  {
    assert v == TWO64 * (v / TWO64) + v % TWO64;
    Wraps(16 * (v % TWO64), 16 * (v / TWO64));
    var w := 16 * v;
    assert w == TWO64 * (w / TWO64) + w % TWO64;
    Wraps(w % TWO64 + d, w / TWO64);
  }

  lemma Wraps(x: nat, k: nat)
    ensures (x + TWO64 * k) % TWO64 == x % TWO64
  {
  }

  lemma ValueNext(s: seq<byte>, skip: nat, n: nat)
    requires skip + n < |s| && AllDigits(s[skip..skip + n]) && IsDigit(s[skip + n])
    ensures AllDigits(s[skip..skip + n + 1]) &&
            Value(s[skip..skip + n + 1]) == 16 * Value(s[skip..skip + n]) + DigitValue(s[skip + n])
  {
    assert s[skip..skip + n + 1] == s[skip..skip + n] + [s[skip + n]];
    ValueSnoc(s[skip..skip + n], s[skip + n]);
  }

  lemma {:induction false} ValueBelow(s: seq<byte>)
    requires AllDigits(s)
    ensures Value(s) < Power(|s|)
  {
    if s != [] {
      ValueBelow(s[..|s| - 1]);
    }
  }

  lemma {:induction false} PowerGrows(m: nat, n: nat)
    requires m <= n
    ensures Power(m) <= Power(n)
    decreases n
  {
    if m < n {
      PowerGrows(m, n - 1);
    }
  }

  lemma Power16()
    ensures Power(16) == TWO64
  {
    assert Power(4) == 0x1_0000 && Power(8) == 0x1_0000_0000 && Power(12) == 0x1_0000_0000_0000;
  }

  /** from_ascii in base 16. */
  method FromAscii(s: seq<byte>, digs: nat) returns (value: nat, ghost skip: nat, ghost n: nat)
    requires digs <= |s|
    ensures forall k :: 0 <= k < skip ==> k < |s| && s[k] == 32
    ensures skip < digs ==> s[skip] != 32
    ensures Reads(s, digs, skip, n, value)
    ensures AllDigits(s[..digs]) ==>
      value == Value(s[..digs]) % 0x1_0000_0000_0000_0000 && (digs <= 16 ==> value == Value(s[..digs]))
  {
    var i := SkipBlanks(s, digs);
    value, n := ReadDigits(s, digs, i);
    skip := i;
    if AllDigits(s[..digs]) {
      forall k | 0 <= k < digs ensures IsDigit(s[k]) {
        assert s[..digs][k] == s[k];
      }
      assert digs > 0 ==> IsDigit(s[0]);
      assert skip == 0 && n == digs;
      assert s[0..digs] == s[..digs];
      if digs <= 16 {
        ValueBelow(s[..digs]);
        PowerGrows(digs, 16);
        Power16();
      }
    }
  }

  // ----- Writing -----

  function Digit(d: nat): (c: byte)
    requires d < 16
    ensures IsDigit(c) && DigitValue(c) == d
  {
    if d < 10 then 48 + d else 55 + d
  }

  /** v as n digits. */
  function Print(v: nat, n: nat): (s: seq<byte>)
    ensures |s| == n && AllDigits(s)
  {
    if n == 0 then [] else Print(v / 16, n - 1) + [Digit(v % 16)]
  }

  function Power(n: nat): nat { if n == 0 then 1 else 16 * Power(n - 1) }

  /** What is written reads back. */
  lemma {:induction false} PrintSpells(v: nat, n: nat)
    requires v < Power(n)
    ensures Spells(Print(v, n), v)
  {
    if n > 0 {
      PrintSpells(v / 16, n - 1);
      ValueSnoc(Print(v / 16, n - 1), Digit(v % 16));
    }
  }
}
