/** Semantic versions: comparing. */
module Semver {
  import opened Strings
  import opened Wrappers

  datatype Version = Version(major: int, minor: int, patch: int, prerelease: Option<string>, metadata: Option<string>)

  // ----- Identifiers -----

  /** The reader stops at the end of it; an empty identifier is read as zero. */
  predicate IsNumber(id: string) { Strtol(id).1 == |id| }

  function Number(id: string): int { ToInt(Strtol(id).0) }

  /** Numbers by value and below all other identifiers, those by their bytes. */
  function CompareIds(a: string, b: string): (r: int)
    ensures -1 <= r <= 1
  {
    if IsNumber(a) && !IsNumber(b) then -1
    else if !IsNumber(a) && IsNumber(b) then 1
    else if IsNumber(a) then Cmp(Number(a), Number(b))
    else Lex(a, b)
  }

  /** Identifier by identifier; of a list and one that continues it, the shorter is
      below. */
  function CompareLists(p: seq<string>, q: seq<string>): (r: int)
    ensures -1 <= r <= 1
  {
    if p == [] && q == [] then 0
    else if p == [] then -1
    else if q == [] then 1
    else if CompareIds(p[0], q[0]) != 0 then CompareIds(p[0], q[0])
    else CompareLists(p[1..], q[1..])
  }

  lemma CompareIdsOrder(a: string, b: string, c: string)
    ensures CompareIds(b, a) == -CompareIds(a, b)
    ensures CompareIds(a, a) == 0
    ensures CompareIds(a, b) <= 0 && CompareIds(b, c) <= 0 ==> CompareIds(a, c) <= 0
    ensures CompareIds(a, b) == 0 ==> CompareIds(a, c) == CompareIds(b, c)
  {
    hide Lex, Strtol, ToInt;
    LexOrder(a, b, c);
    LexOrder(b, a, c);
    LexOrder(a, a, a);
  }

  lemma {:induction false} CompareListsOrder(p: seq<string>, q: seq<string>, r: seq<string>)
    ensures CompareLists(q, p) == -CompareLists(p, q)
    ensures CompareLists(p, p) == 0
    ensures CompareLists(p, q) <= 0 && CompareLists(q, r) <= 0 ==> CompareLists(p, r) <= 0
    decreases |p|
  {
    hide CompareIds;
    if p != [] {
      var q0, q1 := if q == [] then "" else q[0], if q == [] then [] else q[1..];
      var r0, r1 := if r == [] then "" else r[0], if r == [] then [] else r[1..];
      CompareListsOrder(p[1..], q1, r1);
      CompareIdsOrder(p[0], q0, r0);
      CompareIdsOrder(q0, r0, p[0]);
      CompareIdsOrder(p[0], r0, q0);
    }
  }

  // ----- The prerelease -----

  /** Absent is above present. */
  function ComparePre(x: Option<string>, y: Option<string>): (r: int)
    ensures -1 <= r <= 1
  {
    if x.None? && y.None? then 0
    else if y.None? then -1
    else if x.None? then 1
    else CompareLists(Split(x.value, '.'), Split(y.value, '.'))
  }

  /** The number an identifier starts with, read in place: up to the separator. */
  lemma InPlace(s: string, from: nat, k: nat)
    requires from <= |s| && k <= |s| - from && (k < |s| - from ==> s[from + k] == '.')
    ensures Strtol(s[from..]) == Strtol(s[from..from + k])
  {
    hide Strtol, IndexOf;
    var rest := s[from..];
    if k < |rest| {
      assert rest == rest[..k] + ['.'] + rest[k + 1..];
      StrtolStops(rest[..k], rest[k + 1..]);
    } else {
      assert rest[..k] == rest;
    }
    assert rest[..k] == s[from..from + k];
  }

  /** The walk along both strings is the comparison of the lists they spell. */
  method ComparePrerelease(x: Option<string>, y: Option<string>) returns (r: int)
    ensures r == ComparePre(x, y)
  {
    if x.None? && y.None? {
      return 0;
    }
    if y.None? {
      return -1;
    }
    if x.None? {
      return 1;
    }
    r := Walk(x.value, y.value);
  }

  /** One identifier against another, where they lie. */
  method CompareHere(x: string, i: nat, xp: nat, y: string, j: nat, yp: nat) returns (r: int)
    requires i <= xp <= |x| && xp - i == IndexOf(x[i..], '.')
    requires j <= yp <= |y| && yp - j == IndexOf(y[j..], '.')
    ensures r == CompareIds(x[i..xp], y[j..yp])
  {
    hide Strtol, IndexOf, Lex;
    InPlace(x, i, xp - i);
    InPlace(y, j, yp - j);
    var xn, yn := Strtol(x[i..]), Strtol(y[j..]);
    var xnum, ynum := ToInt(xn.0), ToInt(yn.0);
    var xisnum, yisnum := i + xn.1 == xp, j + yn.1 == yp;
    if xisnum && !yisnum {
      return -1;
    }
    if !xisnum && yisnum {
      return 1;
    }
    if xisnum && yisnum {
      return if xnum != ynum then (if xnum < ynum then -1 else 1) else 0;
    }
    r := CompareBytes(x[i..xp], y[j..yp]);
  }

  lemma SplitHere(s: string, i: nat, p: nat)
    requires i <= p <= |s| && p - i == IndexOf(s[i..], '.')
    ensures Split(s[i..], '.')[0] == s[i..p]
    ensures if p == |s| then Split(s[i..], '.')[1..] == [] else Split(s[i..], '.')[1..] == Split(s[p + 1..], '.')
  {
    var rest := s[i..];
    var k := p - i;
    assert rest[..k] == s[i..p];
    if k < |rest| {
      assert rest[k + 1..] == s[p + 1..];
    } else {
      assert rest == s[i..p];
    }
  }

  method Walk(x: string, y: string) returns (r: int)
    ensures r == CompareLists(Split(x, '.'), Split(y, '.'))
  {
    hide CompareIds, IndexOf, Split;
    var i, j := 0, 0;
    assert x[0..] == x && y[0..] == y;
    while true
      invariant i <= |x| && j <= |y|
      invariant CompareLists(Split(x, '.'), Split(y, '.')) == CompareLists(Split(x[i..], '.'), Split(y[j..], '.'))
      decreases |x| - i
    {
      var xp := Find(x, '.', i);
      var yp := Find(y, '.', j);
      SplitHere(x, i, xp);
      SplitHere(y, j, yp);
      r := CompareHere(x, i, xp, y, j, yp);
      if r != 0 {
        return;
      }
      if xp == |x| && yp == |y| {
        break;
      }
      if xp == |x| {
        return -1;
      }
      if yp == |y| {
        return 1;
      }
      i, j := xp + 1, yp + 1;
    }
  }

  // ----- Versions -----

  function CompareVersion(x: Version, y: Version): (r: int)
    ensures -1 <= r <= 1
  {
    if x.major != y.major then Cmp(x.major, y.major)
    else if x.minor != y.minor then Cmp(x.minor, y.minor)
    else Cmp(x.patch, y.patch)
  }

  function Compare(x: Version, y: Version): (r: int)
    ensures -1 <= r <= 1
  {
    if CompareVersion(x, y) != 0 then CompareVersion(x, y) else ComparePre(x.prerelease, y.prerelease)
  }

  /** Versions are totally preordered; only the metadata does not count. */
  lemma CompareOrder(x: Version, y: Version, z: Version)
    ensures Compare(y, x) == -Compare(x, y)
    ensures Compare(x, x) == 0
    ensures Compare(x, y) <= 0 && Compare(y, z) <= 0 ==> Compare(x, z) <= 0
    ensures Compare(x, y.(metadata := z.metadata)) == Compare(x, y)
  {
    ComparePreOrder(x.prerelease, y.prerelease, z.prerelease);
    hide ComparePre;
  }

  lemma ComparePreOrder(x: Option<string>, y: Option<string>, z: Option<string>)
    ensures ComparePre(y, x) == -ComparePre(x, y)
    ensures ComparePre(x, x) == 0
    ensures ComparePre(x, y) <= 0 && ComparePre(y, z) <= 0 ==> ComparePre(x, z) <= 0
  {
    hide CompareLists;
    var p := if x.None? then [] else Split(x.value, '.');
    var q := if y.None? then [] else Split(y.value, '.');
    var r := if z.None? then [] else Split(z.value, '.');
    CompareListsOrder(p, q, r);
  }
}
