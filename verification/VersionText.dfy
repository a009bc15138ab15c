/** Comparing versions that were written out. */
module VersionText {
  import opened Strings
  import opened Semver
  import opened SemverText
  import opened SemverProps
  import opened SemverRoundTrip
  import opened Versions
  import opened VersionKinds
  import opened Wrappers
  import S = StringSplit

  // ----- Numbers joined by dots -----

  function Joined(f: seq<nat>): string
    requires f != []
  {
    if |f| == 1 then Print(f[0]) else Print(f[0]) + "." + Joined(f[1..])
  }

  function Printed(f: seq<nat>): seq<string> { if f == [] then [] else [Print(f[0])] + Printed(f[1..]) }

  lemma {:induction false} JoinedTokens(f: seq<nat>)
    requires f != []
    ensures S.Tokens(Joined(f), '.') == Printed(f) && OnlyNumbers(Joined(f))
    decreases |f|
  {
    var a := Print(f[0]);
    Plain(f[0]);
    PrintReads(f[0]);
    hide Print, Split;
    if |f| == 1 {
      SplitNowhere(a);
      OneToken(a);
      assert f[1..] == [] && [a] + [] == [a];
    } else {
      JoinedTokens(f[1..]);
      SplitThere(a, Joined(f[1..]));
      assert ([a] + Split(Joined(f[1..]), '.'))[1..] == Split(Joined(f[1..]), '.');
    }
  }

  lemma {:induction false} PrintedAt(f: seq<nat>, i: nat)
    requires i < |f|
    ensures |Printed(f)| == |f| && Printed(f)[i] == Print(f[i])
  {
    hide Print;
    if i > 0 {
      PrintedAt(f[1..], i - 1);
    } else if |f| > 1 {
      PrintedAt(f[1..], 0);
    }
  }

  lemma FieldPrinted(f: seq<nat>, i: nat)
    requires f != [] && i < 4 && (i < |f| ==> f[i] <= 0xffff_ffff)
    ensures NumField(S.Tokens(Joined(f), '.'), i) == if i < |f| then f[i] else 0
  {
    JoinedTokens(f);
    hide S.Tokens, Joined, Print;
    PrintedAt(f, if i < |f| then i else 0);
    if i < |f| {
      PrintReads(f[i]);
    }
  }

  function At(f: seq<nat>, i: nat): nat { if i < |f| then f[i] else 0 }

  /** Up to four numbers, as the fields of the text. */
  lemma JoinedFour(f: seq<nat>)
    requires 0 < |f| <= 4 && forall i :: 0 <= i < |f| ==> f[i] <= 0xffff_ffff
    ensures Four(Joined(f)) == [At(f, 0), At(f, 1), At(f, 2), At(f, 3)] && OnlyNumbers(Joined(f))
  {
    JoinedTokens(f);
    hide Joined, S.Tokens, NumField;
    FieldPrinted(f, 0);
    FieldPrinted(f, 1);
    FieldPrinted(f, 2);
    FieldPrinted(f, 3);
  }

  /** The first number that differs decides. */
  ghost predicate Sooner(f: seq<nat>, g: seq<nat>)
    requires |f| == 4 && |g| == 4
  {
    exists k :: 0 <= k < 4 && f[..k] == g[..k] && f[k] < g[k]
  }

  lemma {:induction false} LexMeans(f: seq<nat>, g: seq<nat>)
    requires |f| == |g|
    ensures LexNumbers(f, g) == -1 <==> exists k :: 0 <= k < |f| && f[..k] == g[..k] && f[k] < g[k]
    ensures LexNumbers(f, g) == 0 <==> f == g
    decreases |f|
  {
    if f != [] {
      LexMeans(f[1..], g[1..]);
      if f[0] != g[0] {
        assert f[0] < g[0] ==> f[..0] == g[..0];
        assert forall k :: 0 < k < |f| ==> f[..k][0] == f[0] && g[..k][0] == g[0];
      } else {
        if LexNumbers(f, g) == -1 {
          var k :| 0 <= k < |f[1..]| && f[1..][..k] == g[1..][..k] && f[1..][k] < g[1..][k];
          assert f[..k + 1] == [f[0]] + f[1..][..k] && g[..k + 1] == [g[0]] + g[1..][..k];
        }
        if k :| 0 <= k < |f| && f[..k] == g[..k] && f[k] < g[k] {
          assert k > 0 && f[1..][..k - 1] == f[..k][1..] && g[1..][..k - 1] == g[..k][1..];
          assert f[1..][k - 1] < g[1..][k - 1];
        }
        assert f == [f[0]] + f[1..] && g == [g[0]] + g[1..];
      }
    }
  }

  /** Versions of four numbers are ordered by the first number that differs. */
  lemma NumbersOrder(f: seq<nat>, g: seq<nat>)
    requires |f| == 4 && |g| == 4 && Small(f) && Small(g)
    ensures CompareVersions(Joined(f), Joined(g)) == -1 <==> Sooner(f, g)
    ensures CompareVersions(Joined(f), Joined(g)) == 0 <==> f == g
  {
    JoinedFour(f);
    JoinedFour(g);
    assert Four(Joined(f)) == f && Four(Joined(g)) == g;
    assert Numbered(Joined(f)) && Numbered(Joined(g));
    hide Joined, Four, Numbered, LexNumbers;
    LexMeans(f, g);
  }

  // ----- Rendered versions -----

  lemma SoonerThree(a: nat, b: nat, c: nat, x: nat, y: nat, z: nat)
    ensures Sooner([a, b, c, 0], [x, y, z, 0]) <==> a < x || (a == x && b < y) || (a == x && b == y && c < z)
  {
    var f, g := [a, b, c, 0], [x, y, z, 0];
    assert f[..0] == g[..0] && (a == x ==> f[..1] == g[..1]) && (a == x && b == y ==> f[..2] == g[..2]);
    if k :| 0 <= k < 4 && f[..k] == g[..k] && f[k] < g[k] {
      assert k > 0 ==> f[..k][0] == a && g[..k][0] == x;
      assert k > 1 ==> f[..k][1] == b && g[..k][1] == y;
    }
  }

  /** What an old-style version is that was written as a semantic one. */
  lemma RenderedNumbers(v: Version)
    requires 0 <= v.major <= INT_MAX && 0 <= v.minor <= INT_MAX && 0 <= v.patch <= INT_MAX
    requires Numbered(Render(v))
    ensures v.prerelease.None? && v.metadata.None? && Four(Render(v)) == [v.major, v.minor, v.patch, 0]
  {
    var c, f := Core(v), [v.major, v.minor, v.patch];
    assert Joined(f) == c by {
      assert Joined([v.patch]) == Print(v.patch);
      assert [v.minor, v.patch][1..] == [v.patch] && f[1..] == [v.minor, v.patch];
      assert Joined([v.minor, v.patch]) == Print(v.minor) + "." + Print(v.patch);
    }
    hide Print, S.Tokens, Four, Joined;
    NoTail(c, v.prerelease, v.metadata);
    JoinedFour(f);
    assert c + "" + "" == c;
  }

  lemma NoTail(c: string, pre: Option<string>, meta: Option<string>)
    ensures OnlyNumbers(c + Tail('-', pre) + Tail('+', meta)) ==> pre.None? && meta.None?
  {
    var s := c + Tail('-', pre) + Tail('+', meta);
    if pre.Some? || meta.Some? {
      assert s[|c|] == (if pre.Some? then '-' else '+') && !Accepted(s[|c|]);
    }
  }

  lemma NotNegative(v: Version)
    requires Renderable(v)
    ensures v.major >= 0 && v.minor >= 0 && v.patch >= 0
  {
  }

  /** Versions that were rendered compare as section 11 of Semantic Versioning 2.0.0 says. */
  lemma RenderedOrder(x: Version, y: Version)
    requires IsInt(x.major) && IsInt(x.minor) && IsInt(x.patch) && Renderable(x) && Orderly(x)
    requires IsInt(y.major) && IsInt(y.minor) && IsInt(y.patch) && Renderable(y) && Orderly(y)
    ensures CompareVersions(Render(x), Render(y)) == -1 <==> Precedes(x, y)
  {
    hide Render, Parse, Numbered, Four, LexNumbers, Orderly, Compare, Renderable, StandardLists;
    ParseRendered(x);
    ParseRendered(y);
    VersionsAgree(x, y);
    if Numbered(Render(x)) && Numbered(Render(y)) {
      assert x.major >= 0 && x.minor >= 0 && x.patch >= 0 by { NotNegative(x); }
      assert y.major >= 0 && y.minor >= 0 && y.patch >= 0 by { NotNegative(y); }
      RenderedNumbers(x);
      RenderedNumbers(y);
      LexMeans(Four(Render(x)), Four(Render(y)));
      SoonerThree(x.major, x.minor, x.patch, y.major, y.minor, y.patch);
    }
  }
}
