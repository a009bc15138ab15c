/** Rendering a version and parsing it back. */
module SemverRoundTrip {
  import opened Strings
  import opened Semver
  import opened SemverText
  import opened Wrappers

  ghost predicate IsInt(v: int) { -INT_MAX - 1 <= v <= INT_MAX }

  /** Letters, digits, dots, hyphens and plus signs. */
  ghost predicate Allowed(s: string) {
    forall i :: 0 <= i < |s| ==>
      '0' <= s[i] <= '9' || 'a' <= s[i] <= 'z' || 'A' <= s[i] <= 'Z' || s[i] == '.' || s[i] == '-' || s[i] == '+'
  }

  lemma AllowedIs(s: string)
    ensures Allowed(s) <==> ValidChars(s)
  {
  }

  /** The versions that come back. */
  ghost predicate Renderable(v: Version) {
    && v.major >= 0 && v.minor >= 0 && v.patch >= 0
    && (v.prerelease.Some? ==> Allowed(v.prerelease.value) && '+' !in v.prerelease.value)
    && (v.metadata.Some? ==> Allowed(v.metadata.value))
    && |Render(v)| <= 255
  }

  // ----- Cutting and splitting -----

  lemma CutThere(p: string, sep: char, t: string)
    requires sep !in p
    ensures Cut(p + [sep] + t, sep) == (p, Some(t))
  {
    var s := p + [sep] + t;
    assert s[..|p|] == p;
    IndexUnique(s, sep, |p|);
    assert s[|p| + 1..] == t;
  }

  lemma CutNowhere(p: string, sep: char)
    requires sep !in p
    ensures Cut(p, sep) == (p, None)
  {
    assert p[..|p|] == p;
    IndexUnique(p, sep, |p|);
  }

  lemma CutClean(s: string, sep: char)
    ensures sep !in Cut(s, sep).0
    ensures s == Cut(s, sep).0 + Tail(sep, Cut(s, sep).1)
  {
    var k := IndexOf(s, sep);
    assert s[..|s|] == s;
    if k < |s| {
      assert s == s[..k] + ([sep] + s[k + 1..]);
    }
  }

  lemma SplitThere(p: string, t: string)
    requires '.' !in p
    ensures Split(p + "." + t, '.') == [p] + Split(t, '.')
  {
    var s := p + "." + t;
    assert s[..|p|] == p;
    IndexUnique(s, '.', |p|);
    assert s[|p| + 1..] == t;
  }

  lemma SplitNowhere(p: string)
    requires '.' !in p
    ensures Split(p, '.') == [p]
  {
    assert p[..|p|] == p;
    IndexUnique(p, '.', |p|);
  }

  // ----- Printed numbers -----

  /** Digits only. */
  lemma Plain(n: nat)
    ensures '.' !in Print(n) && '-' !in Print(n) && '+' !in Print(n) && ValidChars(Print(n))
  {
    PrintReads(n);
  }

  lemma ValidJoin(a: string, b: string)
    ensures ValidChars(a + b) <==> ValidChars(a) && ValidChars(b)
  {
    if ValidChars(a + b) {
      assert forall i :: 0 <= i < |a| ==> (a + b)[i] == a[i];
      assert forall i :: 0 <= i < |b| ==> (a + b)[|a| + i] == b[i];
    }
  }

  lemma DigitsNumber(s: string)
    requires s != "" && AllDigits(s) && Decimal(s) <= INT_MAX
    ensures IsNumber(s) && Number(s) == Decimal(s)
  {
    RunAll(s);
    assert IsDigit(s[0]);
    assert Sign(s) == (false, 0);
    assert s[0..] == s && s[0..|s|] == s;
  }

  /** A printed int reads as itself, and nothing as zero. */
  lemma PrintedNumber(n: nat)
    requires n <= INT_MAX
    ensures IsNumber(Print(n)) && Number(Print(n)) == n
  {
    PrintReads(n);
    DigitsNumber(Print(n));
  }

  lemma EmptyNumber()
    ensures IsNumber("") && Number("") == 0
  {
  }

  // ----- What comes back -----

  lemma SplitThree(a: string, b: string, c: string)
    requires '.' !in a && '.' !in b && '.' !in c
    ensures Split(a + "." + (b + "." + c), '.') == [a, b, c]
  {
    SplitThere(a, b + "." + c);
    SplitThere(b, c);
    SplitNowhere(c);
    hide Split;
  }

  lemma ThreeFields(a: string, b: string, c: string)
    requires '.' !in a && '.' !in b && '.' !in c && IsNumber(a) && IsNumber(b) && IsNumber(c)
    ensures Numbers(Split(a + "." + (b + "." + c), '.'), 4)
    ensures Fields(a + "." + (b + "." + c)) == (Number(a), Number(b), Number(c))
  {
    hide Split, IsNumber, Number;
    SplitThree(a, b, c);
    var parts := [a, b, c];
    assert Numbers(parts, 4);
    assert Field(parts, 0) == Number(a) && Field(parts, 1) == Number(b) && Field(parts, 2) == Number(c);
  }

  lemma CoreFields(v: Version)
    requires 0 <= v.major <= INT_MAX && 0 <= v.minor <= INT_MAX && 0 <= v.patch <= INT_MAX
    ensures Numbers(Split(Core(v), '.'), 4) && Fields(Core(v)) == (v.major, v.minor, v.patch)
  {
    hide Print, IsNumber, Number, Fields, Numbers, Split, ValidChars;
    PrintedNumber(v.major);
    PrintedNumber(v.minor);
    PrintedNumber(v.patch);
    Plain(v.major);
    Plain(v.minor);
    Plain(v.patch);
    ThreeFields(Print(v.major), Print(v.minor), Print(v.patch));
  }

  lemma CorePlain(v: Version)
    requires v.major >= 0 && v.minor >= 0 && v.patch >= 0
    ensures '-' !in Core(v) && '+' !in Core(v) && ValidChars(Core(v))
  {
    hide Print, ValidChars;
    Plain(v.major);
    Plain(v.minor);
    Plain(v.patch);
    var a, b, c := Print(v.major), Print(v.minor), Print(v.patch);
    Dot();
    ValidJoin(b, ".");
    ValidJoin(b + ".", c);
    ValidJoin(a, ".");
    ValidJoin(a + ".", b + "." + c);
  }

  lemma Dot()
    ensures ValidChars(".")
  {
  }

  lemma CutTail(p: string, sep: char, part: Option<string>)
    requires sep !in p
    ensures Cut(p + Tail(sep, part), sep) == (p, part)
  {
    if part.None? {
      assert p + "" == p;
      CutNowhere(p, sep);
    } else {
      assert p + ([sep] + part.value) == p + [sep] + part.value;
      CutThere(p, sep, part.value);
    }
  }

  lemma ValidTail(sep: char, part: Option<string>)
    requires sep == '-' || sep == '+'
    ensures ValidChars(Tail(sep, part)) <==> part.None? || Allowed(part.value)
  {
    if part.Some? {
      AllowedIs(part.value);
    }
    if part.Some? {
      ValidJoin([sep], part.value);
    }
  }

  lemma ParseRendered(v: Version)
    requires IsInt(v.major) && IsInt(v.minor) && IsInt(v.patch) && Renderable(v)
    ensures Parse(Render(v)) == Some(v)
  {
    hide Core, Cut, Fields, Numbers, Split, ValidChars, Allowed;
    var front := Core(v) + Tail('-', v.prerelease);
    CoreFields(v);
    CorePlain(v);
    ValidTail('-', v.prerelease);
    ValidTail('+', v.metadata);
    ValidJoin(Core(v), Tail('-', v.prerelease));
    ValidJoin(front, Tail('+', v.metadata));
    CutTail(front, '+', v.metadata);
    CutTail(Core(v), '-', v.prerelease);
  }

  /** A minus sign in front of a field cuts the version short there. */
  lemma Negative(v: Version, front: string, rest: string)
    requires Render(v) == front + "-" + rest && '-' !in front && '+' !in front
    requires Parse(Render(v)).Some?
    ensures var w := Parse(Render(v)).value; (w.major, w.minor, w.patch) == Fields(front)
  {
    hide Fields, Numbers, Split, Core;
    var s := front + "-" + rest;
    var meta := Cut(s, '+');
    CutClean(s, '+');
    var k := |meta.0|;
    FrontKept(front, rest);
    CutThere(front, '-', meta.0[|front| + 1..]);
  }

  lemma FrontKept(front: string, rest: string)
    requires '+' !in front
    ensures var m := Cut(front + "-" + rest, '+').0;
      |front| < |m| && m == front + "-" + m[|front| + 1..]
  {
    var s := front + "-" + rest;
    var k := IndexOf(s, '+');
    assert forall i :: 0 <= i <= |front| ==> s[i] != '+';
    assert k > |front|;
    assert s[..|s|] == s;
  }

  function Behind(v: Version): string { Tail('-', v.prerelease) + Tail('+', v.metadata) }

  lemma NegativeMajor(v: Version)
    requires v.major < 0 && Parse(Render(v)).Some?
    ensures Parse(Render(v)).value.major == 0
  {
    hide Print, IsNumber, Number, Split;
    var rest := Print(-v.major) + "." + (PrintInt(v.minor) + "." + PrintInt(v.patch)) + Behind(v);
    assert Render(v) == "" + "-" + rest;
    hide Parse, Render;
    Negative(v, "", rest);
    SplitNowhere("");
    EmptyNumber();
  }

  lemma NegativeMinor(v: Version)
    requires v.major >= 0 && v.minor < 0 && Parse(Render(v)).Some?
    ensures Parse(Render(v)).value.minor == 0
  {
    hide Print, Parse, IsNumber, Number, Split;
    var a := Print(v.major);
    Plain(v.major);
    var rest := Print(-v.minor) + "." + PrintInt(v.patch) + Behind(v);
    assert Render(v) == (a + ".") + "-" + rest;
    hide Render;
    Negative(v, a + ".", rest);
    assert a + "." == a + "." + "";
    SplitThere(a, "");
    SplitNowhere("");
    EmptyNumber();
    assert ([a] + [""])[1] == "";
  }

  lemma NegativePatch(v: Version)
    requires v.major >= 0 && v.minor >= 0 && v.patch < 0 && Parse(Render(v)).Some?
    ensures Parse(Render(v)).value.patch == 0
  {
    hide Print, Parse, IsNumber, Number, Split;
    var a, b := Print(v.major), Print(v.minor);
    Plain(v.major);
    Plain(v.minor);
    var front, rest := a + "." + (b + "." + ""), Print(-v.patch) + Behind(v);
    assert Render(v) == front + "-" + rest;
    hide Render;
    Negative(v, front, rest);
    SplitThree(a, b, "");
    EmptyNumber();
    assert [a, b, ""][2] == "";
  }

  lemma OnlyRenderable(v: Version)
    requires Parse(Render(v)) == Some(v)
    ensures Renderable(v)
  {
    hide Cut, Fields, Numbers, Split, ValidChars, Core;
    var s := Render(v);
    ValidJoin(Core(v) + Tail('-', v.prerelease), Tail('+', v.metadata));
    ValidJoin(Core(v), Tail('-', v.prerelease));
    ValidTail('-', v.prerelease);
    ValidTail('+', v.metadata);
    CutClean(s, '+');
    CutClean(Cut(s, '+').0, '-');
    if v.major < 0 {
      NegativeMajor(v);
    } else if v.minor < 0 {
      NegativeMinor(v);
    } else if v.patch < 0 {
      NegativePatch(v);
    }
  }

  /** All five components come back from the rendering of exactly these versions. */
  lemma RoundTrip(v: Version)
    requires IsInt(v.major) && IsInt(v.minor) && IsInt(v.patch)
    ensures Parse(Render(v)) == Some(v) <==> Renderable(v)
  {
    hide Parse, Render, Renderable;
    if Renderable(v) {
      ParseRendered(v);
    }
    if Parse(Render(v)) == Some(v) {
      OnlyRenderable(v);
    }
  }
}
