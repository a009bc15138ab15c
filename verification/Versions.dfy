/** Comparing the versions of artifacts. */
module Versions {
  import opened Strings
  import opened Semver
  import opened SemverText
  import S = StringSplit
  import opened Wrappers

  const ULONG_MAX: nat := 0xffff_ffff_ffff_ffff
  const TWO64: nat := 0x1_0000_0000_0000_0000

  predicate Accepted(c: char) { IsDigit(c) || c == '.' }

  ghost predicate OnlyNumbers(s: string) { forall i :: 0 <= i < |s| ==> Accepted(s[i]) }

  /** strtoul on digits. */
  function Strtoul(s: string): nat { if Decimal(s) > ULONG_MAX then ULONG_MAX else Decimal(s) }

  // ----- Numbered versions -----

  function NumField(tokens: seq<string>, i: nat): nat { if i < |tokens| then Strtoul(tokens[i]) else 0 }

  /** The first four numbers, with zeros for those that are missing. */
  function Four(s: string): (f: seq<nat>)
    ensures |f| == 4
  {
    var t := S.Tokens(s, '.');
    [NumField(t, 0), NumField(t, 1), NumField(t, 2), NumField(t, 3)]
  }

  ghost predicate Small(f: seq<nat>) { forall i :: 0 <= i < |f| ==> f[i] <= 0xffff }

  ghost predicate Numbered(s: string) { OnlyNumbers(s) && Small(Four(s)) }

  function Pack(f: seq<nat>): nat
    requires |f| == 4
  {
    0x1_0000_0000_0000 * f[0] + 0x1_0000_0000 * f[1] + 0x1_0000 * f[2] + f[3]
  }

  function LexNumbers(f: seq<nat>, g: seq<nat>): (r: int)
    ensures -1 <= r <= 1
  {
    if f == [] && g == [] then 0
    else if f == [] then -1
    else if g == [] then 1
    else if f[0] != g[0] then Cmp(f[0], g[0])
    else LexNumbers(f[1..], g[1..])
  }

  lemma PackFits(f: seq<nat>)
    requires |f| == 4 && Small(f)
    ensures Pack(f) < TWO64
  {
  }

  /** The packed numbers are ordered as the four fields are. */
  lemma PackOrder(f: seq<nat>, g: seq<nat>)
    requires |f| == 4 && |g| == 4 && Small(f) && Small(g)
    ensures Cmp(Pack(f), Pack(g)) == LexNumbers(f, g)
  {
    assert LexNumbers(f, g) == (if f[0] != g[0] then Cmp(f[0], g[0]) else LexNumbers(f[1..], g[1..]));
    assert LexNumbers(f[1..], g[1..])
        == (if f[1] != g[1] then Cmp(f[1], g[1]) else LexNumbers(f[1..][1..], g[1..][1..]));
    assert f[1..][1..] == f[2..] && g[1..][1..] == g[2..];
    assert LexNumbers(f[2..], g[2..])
        == (if f[2] != g[2] then Cmp(f[2], g[2]) else LexNumbers(f[2..][1..], g[2..][1..]));
    assert f[2..][1..] == f[3..] && g[2..][1..] == g[3..];
    assert LexNumbers(f[3..], g[3..]) == Cmp(f[3], g[3]) by {
      assert f[3..][1..] == [] && g[3..][1..] == [];
    }
    hide LexNumbers;
    FourWay(f[0], f[1], f[2], f[3], g[0], g[1], g[2], g[3]);
  }

  lemma FourWay(a: nat, b: nat, c: nat, d: nat, a': nat, b': nat, c': nat, d': nat)
    requires a <= 0xffff && b <= 0xffff && c <= 0xffff && d <= 0xffff
    requires a' <= 0xffff && b' <= 0xffff && c' <= 0xffff && d' <= 0xffff
    ensures Cmp(0x1_0000_0000_0000 * a + 0x1_0000_0000 * b + 0x1_0000 * c + d,
                0x1_0000_0000_0000 * a' + 0x1_0000_0000 * b' + 0x1_0000 * c' + d')
         == if a != a' then Cmp(a, a') else if b != b' then Cmp(b, b') else if c != c' then Cmp(c, c') else Cmp(d, d')
  {
  }

  /** A shift by sixteen bits in a 64-bit word. */
  function Shl16(v: nat): nat { 0x1_0000 * v % TWO64 }

  /** The fields read so far, the last one lowest. */
  function Partial(f: seq<nat>, n: nat): nat
    requires |f| == 4 && n <= 4
  {
    if n == 0 then 0
    else if n == 1 then f[0]
    else if n == 2 then 0x1_0000 * f[0] + f[1]
    else if n == 3 then 0x1_0000_0000 * f[0] + 0x1_0000 * f[1] + f[2]
    else Pack(f)
  }

  lemma PartialNext(f: seq<nat>, n: nat)
    requires |f| == 4 && n < 4 && Small(f[..n + 1])
    ensures Shl16(Partial(f, n)) + f[n] == Partial(f, n + 1)
  {
    assert forall i :: 0 <= i <= n ==> f[..n + 1][i] == f[i];
  }

  lemma PartialLast(f: seq<nat>, n: nat)
    requires |f| == 4 && n <= 4 && Small(f) && forall i :: n <= i < 4 ==> f[i] == 0
    ensures n == 4 ==> Partial(f, n) == Pack(f)
    ensures n == 3 ==> Shl16(Partial(f, n)) == Pack(f)
    ensures n == 2 ==> Shl16(Shl16(Partial(f, n))) == Pack(f)
    ensures n == 1 ==> Shl16(Shl16(Shl16(Partial(f, n)))) == Pack(f)
    ensures n == 0 ==> Pack(f) == 0
  {
  }

  lemma SmallNext(f: seq<nat>, n: nat)
    requires n < |f|
    ensures Small(f[..n + 1]) <==> Small(f[..n]) && f[n] <= 0xffff
    ensures f[n] > 0xffff ==> !Small(f)
  {
    assert f[..n + 1] == f[..n] + [f[n]];
    if Small(f[..n + 1]) {
      assert f[..n + 1][n] == f[n];
      assert forall i :: 0 <= i < n ==> f[..n][i] == f[..n + 1][i];
    }
  }

  /** The first four fields in sixteen bits each. */
  method VersionToNumber(s: string) returns (r: Option<nat>)
    ensures r == if Small(Four(s)) then Some(Pack(Four(s))) else None
  {
    var ver, n := S.Run(s, '.');
    var version, count := 0, 0;
    ghost var f, t := Four(s), S.Tokens(s, '.');
    assert forall i :: 0 <= i < 4 ==> f[i] == NumField(t, i);
    hide Four, S.Tokens, Strtoul, Partial, Shl16, Small;
    assert Partial(f, 0) == 0 && Small(f[..0]) by { Nothing(f); }
    while count < n && count < 4
      invariant count <= 4 && count <= n && ver[..n] == t
      invariant version == Partial(f, count) && Small(f[..count])
    {
      assert t[count] == ver[count];
      var fld := Strtoul(ver[count]);
      SmallNext(f, count);
      if fld > 0xffff {
        return None;
      }
      PartialNext(f, count);
      version := Shl16(version) + fld;
      count := count + 1;
    }
    Filled(f, count);
    PartialLast(f, count);
    if count > 0 {
      version := match count
        case 1 => Shl16(Shl16(Shl16(version)))
        case 2 => Shl16(Shl16(version))
        case 3 => Shl16(version)
        case _ => version;
    }
    r := Some(version);
  }

  lemma Nothing(f: seq<nat>)
    requires |f| == 4
    ensures Partial(f, 0) == 0 && Small(f[..0])
  {
  }

  lemma Filled(f: seq<nat>, n: nat)
    requires |f| == 4 && n <= 4 && Small(f[..n]) && forall i :: n <= i < 4 ==> f[i] == 0
    ensures Small(f)
  {
    assert forall i :: 0 <= i < n ==> f[..n][i] == f[i];
  }

  method IsNumberedVersion(s: string) returns (r: Option<nat>)
    ensures r.Some? <==> Numbered(s)
    ensures r.Some? ==> r.value == Pack(Four(s)) < 0x1_0000_0000_0000_0000
  {
    for i := 0 to |s|
      invariant forall j :: 0 <= j < i ==> Accepted(s[j])
    {
      if !Accepted(s[i]) {
        return None;
      }
    }
    hide Four, Pack, Small;
    r := VersionToNumber(s);
    if r.Some? {
      PackFits(Four(s));
    }
  }

  // ----- Any two versions -----

  datatype Kind = OldStyle | Semantic | Text

  ghost function KindOf(s: string): Kind {
    if Numbered(s) then OldStyle else if Parse(s).Some? then Semantic else Text
  }

  /** Old-style versions by their fields, versions that both parse as semantic ones
      by those, and others as text. */
  ghost function CompareVersions(l: string, r: string): int {
    if Numbered(l) && Numbered(r) then LexNumbers(Four(l), Four(r))
    else if Parse(l).Some? && Parse(r).Some? then Compare(Parse(l).value, Parse(r).value)
    else Lex(l, r)
  }

  method CompareTwo(l: string, r: string) returns (c: int)
    ensures c == CompareVersions(l, r)
  {
    hide Numbered, Parse, Pack, Four, LexNumbers;
    var left := IsNumberedVersion(l);
    if left.Some? {
      var right := IsNumberedVersion(r);
      if right.Some? {
        NumberedOrder(l, r);
        return if left.value < right.value then -1 else if left.value > right.value then 1 else 0;
      }
    }
    var x := SemverParse(l);
    if x.Some? {
      var y := SemverParse(r);
      if y.Some? {
        hide ComparePre;
        c := CompareVersion(x.value, y.value);
        if c == 0 {
          c := ComparePrerelease(x.value.prerelease, y.value.prerelease);
        }
        return;
      }
    }
    c := CompareBytes(l, r);
  }

  lemma NumberedOrder(l: string, r: string)
    requires Numbered(l) && Numbered(r)
    ensures Cmp(Pack(Four(l)), Pack(Four(r))) == LexNumbers(Four(l), Four(r))
  {
    PackOrder(Four(l), Four(r));
  }

  lemma {:induction false} LexNumbersOrder(f: seq<nat>, g: seq<nat>, h: seq<nat>)
    ensures LexNumbers(g, f) == -LexNumbers(f, g)
    ensures LexNumbers(f, g) == 0 <==> f == g
    ensures LexNumbers(f, g) <= 0 && LexNumbers(g, h) <= 0 ==> LexNumbers(f, h) <= 0
  {
    if f != [] && g != [] {
      LexNumbersOrder(f[1..], g[1..], if h == [] then [] else h[1..]);
    }
  }

  /** Among versions of one kind the comparison is a total preorder. */
  lemma SameKindOrder(a: string, b: string, c: string)
    requires KindOf(a) == KindOf(b) == KindOf(c)
    ensures CompareVersions(a, a) == 0
    ensures CompareVersions(b, a) == -CompareVersions(a, b)
    ensures CompareVersions(a, b) <= 0 && CompareVersions(b, c) <= 0 ==> CompareVersions(a, c) <= 0
  {
    hide Numbered, Parse, Four, LexNumbers, Lex, Compare;
    match KindOf(a) {
      case OldStyle =>
        LexNumbersOrder(Four(a), Four(b), Four(c));
        LexNumbersOrder(Four(a), Four(a), Four(a));
      case Semantic => CompareOrder(Parse(a).value, Parse(b).value, Parse(c).value);
      case Text =>
        LexOrder(a, b, c);
        LexOrder(a, a, a);
    }
  }
}
