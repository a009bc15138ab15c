/** Byte strings and the few facts about sequences and rounding that several models share. */
module Bytes {
  type byte = b: int | 0 <= b < 0x100

  const CR: byte := 13
  const LF: byte := 10

  /** The bytes of a text. */
  function Ascii(s: string): (b: seq<byte>)
    requires forall i :: 0 <= i < |s| ==> s[i] as int < 0x80
    ensures |b| == |s| && forall i :: 0 <= i < |s| ==> b[i] == s[i] as int
  {
    seq(|s|, i requires 0 <= i < |s| => s[i] as int)
  }

  function Min(a: int, b: int): int { if a < b then a else b }

  /** A C string: what comes before the first NUL. */
  function CString<T(==)>(s: seq<T>, nul: T): seq<T> {
    if s == [] || s[0] == nul then [] else [s[0]] + CString(s[1..], nul)
  }

  /** A C string ends before the first NUL, wherever that is. */
  lemma {:induction false} CStringEnds<T>(s: seq<T>, nul: T, n: nat)
    requires n < |s| && s[n] == nul
    ensures |CString(s, nul)| <= n && nul !in CString(s, nul)
  {
    if s[0] != nul {
      CStringEnds(s[1..], nul, n - 1);
    }
  }

  lemma {:induction false} CStringOf<T>(name: seq<T>, nul: T, rest: seq<T>)
    requires nul !in name
    ensures CString(name + [nul] + rest, nul) == name
  {
    var s := name + [nul] + rest;
    if name != [] {
      CStringOf(name[1..], nul, rest);
      assert s[1..] == name[1..] + [nul] + rest;
    }
  }

  /** The fragments of a stream, joined in order. */
  function Concat<T>(parts: seq<seq<T>>): seq<T> {
    if parts == [] then [] else parts[0] + Concat(parts[1..])
  }

  lemma {:induction false} ConcatSnoc<T>(parts: seq<seq<T>>, last: seq<T>)
    ensures Concat(parts + [last]) == Concat(parts) + last
  {
    if parts == [] {
      assert parts + [last] == [last];
      assert [last][1..] == [];
      assert Concat([last][1..]) == [];
    } else {
      ConcatSnoc(parts[1..], last);
      assert (parts + [last])[1..] == parts[1..] + [last];
    }
  }

  lemma {:induction false} ConcatTake<T>(parts: seq<seq<T>>, k: nat)
    requires k < |parts|
    ensures Concat(parts[..k + 1]) == Concat(parts[..k]) + parts[k]
  {
    assert parts[..k + 1] == parts[..k] + [parts[k]];
    ConcatSnoc(parts[..k], parts[k]);
  }

  /** The fragments up to and including the k-th make up a front of the whole. */
  lemma {:induction false} ConcatPrefixLength<T>(parts: seq<seq<T>>, k: nat)
    requires k < |parts|
    ensures Concat(parts[..k + 1]) == Concat(parts[..k]) + parts[k]
    ensures |Concat(parts[..k])| + |parts[k]| <= |Concat(parts)|
  {
    ConcatTake(parts, k);
    ConcatAppend(parts[..k + 1], parts[k + 1..]);
    assert parts == parts[..k + 1] + parts[k + 1..];
  }

  lemma {:induction false} ConcatAppend<T>(a: seq<seq<T>>, b: seq<seq<T>>)
    ensures Concat(a + b) == Concat(a) + Concat(b)
  {
    if a == [] {
      assert a + b == b;
    } else {
      ConcatAppend(a[1..], b);
      assert (a + b)[1..] == a[1..] + b && (a + b)[0] == a[0];
      assert Concat(a + b) == a[0] + (Concat(a[1..]) + Concat(b));
    }
  }

  /** The length of k pieces of length len: k * len, by repeated addition. */
  function Span(k: nat, len: nat): nat {
    if k == 0 then 0 else Span(k - 1, len) + len
  }

  lemma {:induction false} SpanIsProduct(k: nat, len: nat)
    ensures Span(k, len) == k * len
  {
    if k > 0 {
      SpanIsProduct(k - 1, len);
      assert k * len == (k - 1) * len + len;
    }
  }

  lemma {:induction false} SpanAdd(a: nat, b: nat, len: nat)
    ensures Span(a + b, len) == Span(a, len) + Span(b, len)
  {
    if b > 0 {
      SpanAdd(a, b - 1, len);
    }
  }

  lemma {:induction false} SpanMonotone(a: nat, b: nat, len: nat)
    requires a <= b
    ensures Span(a, len) <= Span(b, len)
    ensures a < b ==> Span(a, len) + len <= Span(b, len)
  {
    SpanAdd(a, b - a, len);
  }

  /** How much is missing from n to the next multiple of s. */
  function PadLen(n: nat, s: nat): nat
    requires 0 < s
  {
    if n == 0 then 0 else if n <= s then s - n else PadLen(n - s, s)
  }

  /** The padded length is a multiple of s, the least one that n fits in. */
  lemma {:induction false} PadLenIsLeast(n: nat, s: nat) returns (k: nat)
    requires 0 < s
    ensures n + PadLen(n, s) == Span(k, s) && PadLen(n, s) < s
    ensures forall m: nat :: n <= Span(m, s) ==> k <= m
  {
    if n == 0 {
      k := 0;
    } else if n <= s {
      k := 1;
      assert Span(0, s) == 0;
    } else {
      var j := PadLenIsLeast(n - s, s);
      k := j + 1;
      forall m: nat | n <= Span(m, s) ensures k <= m {
        assert m > 0 && n - s <= Span(m - 1, s);
      }
    }
  }

  /** Whole multiples in front do not change what is missing. */
  lemma {:induction false} PadLenShift(k: nat, n: nat, s: nat)
    requires 0 < s
    ensures PadLen(Span(k, s) + n, s) == PadLen(n, s)
  {
    if k > 0 {
      PadLenShift(k - 1, n, s);
      if n == 0 && k == 1 {
        assert Span(1, s) == s;
      }
    }
  }

  /** Rounding up by division reaches exactly the padded length. */
  lemma RoundUpIsPadded(n: nat, s: nat)
    requires 0 < s
    ensures ((n + s - 1) / s) * s == n + PadLen(n, s)
  {
    var q, r := (n + s - 1) / s, (n + s - 1) % s;
    assert n + s - 1 == q * s + r;
    SpanIsProduct(q, s);
    var k := PadLenIsLeast(n, s);
    assert k <= q;
    if k < q {
      SpanMonotone(k, q, s);
    }
  }

  lemma DivExact(k: nat, m: nat)
    requires 0 < m
    ensures Span(k, m) / m == k
  {
    SpanIsProduct(k, m);
    DivOfProduct(k, m);
  }

  /** The whole pieces found in what is left between two marks. */
  lemma WholePieces(done: nat, left: nat, total: nat, len: nat)
    requires 0 < len && Span(done, len) + left <= Span(total, len)
    ensures (left / len) * len == Span(left / len, len)
    ensures done + left / len <= total
    ensures Span(done + left / len, len) <= Span(done, len) + left < Span(done + left / len, len) + len
  {
    var n := left / len;
    assert left == n * len + left % len;
    SpanIsProduct(n, len);
    SpanAdd(done, n, len);
    if done + n > total {
      SpanMonotone(total, done + n, len);
    }
  }

  lemma MulAtLeast(a: nat, m: nat)
    requires 0 < a
    ensures m <= a * m
  {
    assert a * m == m + (a - 1) * m;
  }

  lemma MulMonotone(a: nat, b: nat, m: nat)
    requires a <= b
    ensures a * m <= b * m
  {
    assert b * m == a * m + (b - a) * m;
  }

  lemma DivOfProduct(k: nat, m: nat)
    requires 0 < m
    ensures (k * m) / m == k
  {
    var q, r := (k * m) / m, (k * m) % m;
    assert (k - q) * m == r;
    if k > q {
      MulAtLeast(k - q, m);
    }
  }
}
