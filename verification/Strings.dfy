/** C strings: searching, splitting, comparing, and reading decimal numbers. */
module Strings {
  /** The first position of c, or the end of the string. */
  function IndexOf(s: string, c: char): (k: nat)
    ensures k <= |s| && (k < |s| ==> s[k] == c) && c !in s[..k]
  {
    if s == [] || s[0] == c then 0
    else
      var k := IndexOf(s[1..], c);
      assert s[..k + 1] == [s[0]] + s[1..][..k];
      k + 1
  }

  /** strchr, from a position on. */
  method Find(s: string, c: char, from: nat) returns (k: nat)
    requires from <= |s|
    ensures from <= k <= |s| && k - from == IndexOf(s[from..], c)
  {
    k := from;
    while k < |s| && s[k] != c
      invariant from <= k <= |s| && k - from + IndexOf(s[k..], c) == IndexOf(s[from..], c)
    {
      assert s[k..][1..] == s[k + 1..];
      k := k + 1;
    }
    assert k == |s| ==> s[k..] == [];
  }

  lemma {:induction false} IndexUnique(s: string, c: char, k: nat)
    requires k <= |s| && c !in s[..k] && (k < |s| ==> s[k] == c)
    ensures IndexOf(s, c) == k
  {
    if k > 0 {
      assert s[0] == s[..k][0];
      assert s[1..][..k - 1] == s[1..k];
      IndexUnique(s[1..], c, k - 1);
    }
  }

  /** The parts between separators; there is always at least one. */
  function Split(s: string, c: char): (parts: seq<string>)
    ensures parts != []
    decreases |s|
  {
    var k := IndexOf(s, c);
    if k == |s| then [s] else [s[..k]] + Split(s[k + 1..], c)
  }

  // ----- Order -----

  /** -1, 0 or 1 as a is below, equal to or above b. */
  function Cmp(a: int, b: int): (r: int)
    ensures -1 <= r <= 1
  {
    if a < b then -1 else if a > b then 1 else 0
  }

  /** Byte by byte; of a string and one that continues it, the shorter is below. */
  function Lex(a: string, b: string): (r: int)
    ensures -1 <= r <= 1
  {
    if a == [] && b == [] then 0
    else if a == [] then -1
    else if b == [] then 1
    else if a[0] != b[0] then Cmp(a[0] as int, b[0] as int)
    else Lex(a[1..], b[1..])
  }

  lemma {:induction false} LexOrder(a: string, b: string, c: string)
    ensures Lex(b, a) == -Lex(a, b)
    ensures Lex(a, b) == 0 <==> a == b
    ensures Lex(a, b) <= 0 && Lex(b, c) <= 0 ==> Lex(a, c) <= 0
  {
    if a != [] && b != [] {
      LexOrder(a[1..], b[1..], if c == [] then [] else c[1..]);
    }
  }

  /** strncmp over the common length, then the lengths. */
  method CompareBytes(a: string, b: string) returns (r: int)
    ensures r == Lex(a, b)
  {
    var i := 0;
    assert a[0..] == a && b[0..] == b;
    while i < |a| && i < |b|
      invariant i <= |a| && i <= |b| && Lex(a, b) == Lex(a[i..], b[i..])
    {
      if a[i] != b[i] {
        return Cmp(a[i] as int, b[i] as int);
      }
      assert a[i..][1..] == a[i + 1..] && b[i..][1..] == b[i + 1..];
      i := i + 1;
    }
    r := Cmp(|a|, |b|);
  }

  // ----- Numbers -----

  predicate IsDigit(c: char) { '0' <= c <= '9' }

  predicate IsSpace(c: char) { c == ' ' || '\t' <= c <= '\r' }

  ghost predicate AllDigits(s: string) { forall i :: 0 <= i < |s| ==> IsDigit(s[i]) }

  function Decimal(s: string): nat {
    if s == [] then 0 else 10 * Decimal(s[..|s| - 1]) + (if IsDigit(s[|s| - 1]) then s[|s| - 1] as int - 48 else 0)
  }

  function Spaces(s: string): (n: nat)
    ensures n <= |s|
  {
    if s == [] || !IsSpace(s[0]) then 0 else 1 + Spaces(s[1..])
  }

  function Run(s: string): (n: nat)
    ensures n <= |s|
  {
    if s == [] || !IsDigit(s[0]) then 0 else 1 + Run(s[1..])
  }

  const LONG_MAX: int := 0x7fff_ffff_ffff_ffff
  const INT_MAX: int := 0x7fff_ffff

  function Clamp(v: int): int {
    if v > LONG_MAX then LONG_MAX else if v < -LONG_MAX - 1 then -LONG_MAX - 1 else v
  }

  /** A long assigned to a 32-bit int. */
  function ToInt(v: int): (r: int)
    ensures -INT_MAX - 1 <= r <= INT_MAX
    ensures -INT_MAX - 1 <= v <= INT_MAX ==> r == v
  {
    (v + INT_MAX + 1) % 0x1_0000_0000 - INT_MAX - 1
  }

  /** Whether a minus sign comes first, and where the digits should start. */
  function Sign(s: string): (r: (bool, nat))
    ensures r.1 <= |s|
  {
    var a := Spaces(s);
    if a < |s| && (s[a] == '-' || s[a] == '+') then (s[a] == '-', a + 1) else (false, a)
  }

  /** strtol in base 10: the value, and the position behind it; the start if there
      is no number. */
  function Strtol(s: string): (r: (int, nat))
    ensures r.1 <= |s|
  {
    var b := Sign(s).1;
    var n := Run(s[b..]);
    var v: int := Decimal(s[b..b + n]);
    if n == 0 then (0, 0) else (Clamp(if Sign(s).0 then -v else v), b + n)
  }

  lemma {:induction false} SpacesStop(s: string, t: string, c: char)
    requires !IsSpace(c)
    ensures Spaces(s + [c] + t) == Spaces(s)
  {
    if s != [] && IsSpace(s[0]) {
      SpacesStop(s[1..], t, c);
      assert (s + [c] + t)[1..] == s[1..] + [c] + t;
    }
  }

  lemma {:induction false} RunStop(s: string, t: string, c: char)
    requires !IsDigit(c)
    ensures Run(s + [c] + t) == Run(s)
  {
    if s != [] && IsDigit(s[0]) {
      RunStop(s[1..], t, c);
      assert (s + [c] + t)[1..] == s[1..] + [c] + t;
    }
  }

  lemma SignStops(s: string, t: string)
    ensures Sign(s + ['.'] + t) == Sign(s)
  {
    hide Spaces;
    SpacesStop(s, t, '.');
  }

  /** A number does not reach past a separator. */
  lemma StrtolStops(s: string, t: string)
    ensures Strtol(s + ['.'] + t) == Strtol(s)
  {
    hide Sign, Run, Decimal, Clamp;
    var u := s + ['.'] + t;
    SignStops(s, t);
    var b := Sign(s).1;
    assert u[b..] == s[b..] + ['.'] + t;
    RunStop(s[b..], t, '.');
    assert u[b..b + Run(s[b..])] == s[b..b + Run(s[b..])];
  }

  lemma {:induction false} RunAll(s: string)
    ensures Run(s) == |s| <==> AllDigits(s)
  {
    if s != [] {
      RunAll(s[1..]);
      if AllDigits(s) {
        assert forall i :: 0 <= i < |s[1..]| ==> s[1..][i] == s[i + 1];
      } else if IsDigit(s[0]) {
        var i :| 0 <= i < |s| && !IsDigit(s[i]);
        assert s[1..][i - 1] == s[i];
      }
    }
  }

  lemma {:induction false} SpacesPass(blanks: string, s: string)
    requires forall i :: 0 <= i < |blanks| ==> blanks[i] as int in {9, 10, 11, 12, 13, 32}
    requires s != "" && s[0] as int !in {9, 10, 11, 12, 13, 32}
    ensures Spaces(blanks + s) == |blanks|
  {
    if blanks == "" {
      assert blanks + s == s;
    } else {
      SpacesPass(blanks[1..], s);
      assert (blanks + s)[1..] == blanks[1..] + s;
    }
  }

  lemma {:induction false} RunPasses(digits: string, rest: string)
    requires AllDigits(digits) && (rest != "" ==> !IsDigit(rest[0]))
    ensures Run(digits + rest) == |digits|
  {
    if digits == "" {
      assert digits + rest == rest;
    } else {
      RunPasses(digits[1..], rest);
      assert (digits + rest)[1..] == digits[1..] + rest;
    }
  }

  lemma {:induction false} SignIs(blanks: string, sign: string, t: string)
    requires forall i :: 0 <= i < |blanks| ==> blanks[i] as int in {9, 10, 11, 12, 13, 32}
    requires sign == "" || sign == "-" || sign == "+"
    requires t != "" && IsDigit(t[0])
    ensures Sign(blanks + (sign + t)) == (sign == "-", |blanks| + |sign|)
  {
    var u := sign + t;
    assert u[0] == if sign == "" then t[0] else sign[0];
    SpacesPass(blanks, u);
    assert (blanks + u)[|blanks|] == u[0];
    hide Spaces;
  }

  lemma {:induction false} Third(a: string, b: string, c: string, d: string)
    ensures (a + (b + (c + d)))[|a| + |b|..] == c + d
    ensures (a + (b + (c + d)))[|a| + |b|..|a| + |b| + |c|] == c
  {
  }

  lemma {:induction false} Reads(s: string, minus: bool, b: nat, n: nat)
    requires b <= |s| && Sign(s) == (minus, b) && Run(s[b..]) == n > 0
    ensures b + n <= |s|
    ensures var d: int := Decimal(s[b..b + n]);
      var v := if minus then -d else d;
      Strtol(s) == (if v > 0x7fff_ffff_ffff_ffff then 0x7fff_ffff_ffff_ffff
                    else if v < -0x8000_0000_0000_0000 then -0x8000_0000_0000_0000 else v, b + n)
  {
    hide Decimal, Sign, Run;
  }

  /** What strtol makes of blanks, a sign, digits and more: the number, or the largest or
      least one that 64 bits hold, and the place behind the digits. */
  lemma {:induction false} StrtolIs(blanks: string, sign: string, digits: string, rest: string)
    requires forall i :: 0 <= i < |blanks| ==> blanks[i] as int in {9, 10, 11, 12, 13, 32}
    requires (sign == "" || sign == "-" || sign == "+") && digits != "" && AllDigits(digits)
    requires rest != "" ==> !('0' <= rest[0] <= '9')
    ensures var d: int := Decimal(digits);
      var v := if sign == "-" then -d else d;
      Strtol(blanks + (sign + (digits + rest)))
      == (if v > 0x7fff_ffff_ffff_ffff then 0x7fff_ffff_ffff_ffff
          else if v < -0x8000_0000_0000_0000 then -0x8000_0000_0000_0000 else v,
          |blanks| + |sign| + |digits|)
  {
    var s, b := blanks + (sign + (digits + rest)), |blanks| + |sign|;
    assert b + |digits| <= |s| && Sign(s) == (sign == "-", b) && Run(s[b..]) == |digits| &&
           s[b..b + |digits|] == digits by {
      assert IsDigit(digits[0]);
      RunPasses(digits, rest);
      hide *;
      SignIs(blanks, sign, digits + rest);
      Third(blanks, sign, digits, rest);
    }
    hide *;
    Reads(s, sign == "-", b, |digits|);
  }

  // ----- Printing -----

  function Digit(d: nat): (c: char)
    requires d < 10
    ensures IsDigit(c) && c as int - 48 == d
  {
    (48 + d) as char
  }

  /** A natural number in decimal. */
  function Print(n: nat): (s: string)
    ensures s != []
  {
    if n < 10 then [Digit(n)] else Print(n / 10) + [Digit(n % 10)]
  }

  lemma {:induction false} PrintReads(n: nat)
    ensures AllDigits(Print(n)) && Decimal(Print(n)) == n
  {
    if n < 10 {
      assert Print(n)[..0] == [];
    } else {
      PrintReads(n / 10);
      var s := Print(n / 10);
      assert (s + [Digit(n % 10)])[..|s|] == s;
    }
  }

  function PrintInt(v: int): string { if v < 0 then ['-'] + Print(-v) else Print(v) }
}
