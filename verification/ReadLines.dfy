/** Turning the output of a process into notified lines. */
module ReadLines {
  import opened Bytes
  import opened Strings
  import S = StringSplit

  const NEWLINE := '\n'

  function Kept(c: char): string { if c == '\n' then "" else [c] }

  /** The text without its line ends. */
  function Strip(s: string): string { if s == "" then "" else Kept(s[0]) + Strip(s[1..]) }

  /** The text with an at sign in place of each NUL. */
  function Masked(s: string): (r: string)
    ensures |r| == |s|
  {
    seq(|s|, i requires 0 <= i < |s| => if s[i] == '\0' then '@' else s[i])
  }

  lemma {:induction false} StripAppend(a: string, b: string)
    ensures Strip(a + b) == Strip(a) + Strip(b)
  {
    if a == "" {
      assert a + b == b;
    } else {
      hide Kept;
      StripAppend(a[1..], b);
      assert (a + b)[1..] == a[1..] + b && (a + b)[0] == a[0];
      StripCons(a);
      StripCons(a + b);
      hide Strip;
      Regroup(Kept(a[0]), Strip(a[1..]), Strip(b));
    }
  }

  lemma StripCons(s: string)
    requires s != ""
    ensures Strip(s) == Kept(s[0]) + Strip(s[1..])
  {
  }

  lemma Regroup(a: string, b: string, c: string)
    ensures (a + b) + c == a + (b + c)
  {
  }

  lemma {:induction false} StripPlain(s: string)
    requires NEWLINE !in s
    ensures Strip(s) == s
  {
    if s != "" {
      StripPlain(s[1..]);
    }
  }

  function Opt(s: string): seq<string> { if s == "" then [] else [s] }

  function Later(s: string, k: nat): seq<string> { if k < |s| then S.Tokens(s[k + 1..], NEWLINE) else [] }

  lemma SplitStep(s: string)
    ensures S.Tokens(s, NEWLINE) == Opt(s[..IndexOf(s, NEWLINE)]) + Later(s, IndexOf(s, NEWLINE))
  {
    var k := IndexOf(s, NEWLINE);
    if k < |s| {
      assert Split(s, NEWLINE)[1..] == Split(s[k + 1..], NEWLINE);
    } else {
      assert s[..k] == s && [s][1..] == [];
      assert S.NonEmpty([s]) == Opt(s) + S.NonEmpty([]);
    }
  }

  lemma ConcatOpt(s: string, rest: seq<string>)
    ensures Concat(Opt(s) + rest) == s + Concat(rest)
  {
    if s == "" {
      assert Opt(s) + rest == rest;
    } else {
      assert (Opt(s) + rest)[1..] == rest;
    }
  }

  lemma StripEnd(s: string)
    requires s != "" && s[0] == NEWLINE
    ensures Strip(s) == Strip(s[1..])
  {
    assert Kept(NEWLINE) + Strip(s[1..]) == Strip(s[1..]);
  }

  lemma StripAt(s: string, k: nat)
    requires k <= |s| && NEWLINE !in s[..k] && (k < |s| ==> s[k] == NEWLINE)
    ensures k < |s| ==> Strip(s) == s[..k] + Strip(s[k + 1..])
    ensures k == |s| ==> Strip(s) == s[..k]
  {
    hide Strip;
    StripPlain(s[..k]);
    if k < |s| {
      assert s == s[..k] + s[k..] && s[k..][1..] == s[k + 1..];
      StripAppend(s[..k], s[k..]);
      StripEnd(s[k..]);
    } else {
      assert s[..k] == s;
    }
  }

  /** The tokens make up the text without its line ends. */
  lemma {:induction false} TokensStrip(s: string)
    ensures Concat(S.Tokens(s, NEWLINE)) == Strip(s)
    decreases |s|
  {
    var k := IndexOf(s, NEWLINE);
    hide S.Tokens, IndexOf, Strip, Concat, Opt;
    SplitStep(s);
    StripAt(s, k);
    ConcatOpt(s[..k], Later(s, k));
    if k < |s| {
      TokensStrip(s[k + 1..]);
    } else {
      NoTokens(s[..k]);
    }
  }

  lemma NoTokens(s: string)
    ensures s + Concat([]) == s
  {
  }

  ghost predicate Ended(u: string) { u == "" || u[|u| - 1] == NEWLINE }

  /** A line end separates for good. */
  lemma {:induction false} TokensAppend(u: string, x: string)
    requires Ended(u)
    ensures S.Tokens(u + x, NEWLINE) == S.Tokens(u, NEWLINE) + S.Tokens(x, NEWLINE)
    decreases |u|
  {
    if u == "" {
      assert u + x == x;
      S.SplitEmpty(NEWLINE);
    } else {
      var k := FirstEnd(u);
      TokensAppend(u[k + 1..], x);
      hide S.Tokens, IndexOf, Opt;
      SameEnd(u, x, k);
      SplitStep(u);
      SplitStep(u + x);
      Associate(Opt(u[..k]), S.Tokens(u[k + 1..], NEWLINE), S.Tokens(x, NEWLINE));
    }
  }

  lemma SameEnd(u: string, x: string, k: nat)
    requires k < |u| && u[k] == NEWLINE && NEWLINE !in u[..k]
    ensures IndexOf(u + x, NEWLINE) == k && (u + x)[..k] == u[..k] && (u + x)[k + 1..] == u[k + 1..] + x
  {
    hide IndexOf;
    assert (u + x)[..k] == u[..k] && (u + x)[k + 1..] == u[k + 1..] + x;
    IndexUnique(u + x, NEWLINE, k);
  }

  lemma Associate(a: seq<string>, b: seq<string>, c: seq<string>)
    ensures (a + b) + c == a + (b + c)
  {
  }

  lemma FirstEnd(u: string) returns (k: nat)
    requires u != "" && Ended(u)
    ensures k < |u| && k == IndexOf(u, NEWLINE) && u[k] == NEWLINE && NEWLINE !in u[..k] && Ended(u[k + 1..])
  {
    k := IndexOf(u, NEWLINE);
    assert u[..|u|] == u;
  }

  /** An open line is the last token, and the rest ends in a line end. */
  lemma {:induction false} OpenLine(s: string) returns (v: string)
    requires s != "" && s[|s| - 1] != NEWLINE
    ensures var t := S.Tokens(s, NEWLINE);
      && t != [] && s == v + t[|t| - 1] && NEWLINE !in t[|t| - 1] && Ended(v) && S.Tokens(v, NEWLINE) == t[..|t| - 1]
    decreases |s|
  {
    var k := IndexOf(s, NEWLINE);
    hide S.Tokens, IndexOf;
    SplitStep(s);
    S.SplitEmpty(NEWLINE);
    if k == |s| {
      v := "";
      assert s[..k] == s && Opt(s) + [] == [s] && [s][..0] == [] && s == "" + s;
    } else {
      var rest := s[k + 1..];
      assert rest != "" && rest[|rest| - 1] == s[|s| - 1];
      var w := OpenLine(rest);
      v := OpenStep(s, k, w);
    }
  }

  lemma OpenStep(s: string, k: nat, w: string) returns (v: string)
    requires k < |s| && s[k] == NEWLINE && NEWLINE !in s[..k]
    requires S.Tokens(s, NEWLINE) == Opt(s[..k]) + S.Tokens(s[k + 1..], NEWLINE)
    requires var r := S.Tokens(s[k + 1..], NEWLINE);
      r != [] && s[k + 1..] == w + r[|r| - 1] && Ended(w) && S.Tokens(w, NEWLINE) == r[..|r| - 1]
    ensures var t := S.Tokens(s, NEWLINE);
      t != [] && s == v + t[|t| - 1] &&
      t[|t| - 1] == S.Tokens(s[k + 1..], NEWLINE)[|S.Tokens(s[k + 1..], NEWLINE)| - 1] &&
      Ended(v) && S.Tokens(v, NEWLINE) == t[..|t| - 1]
  {
    hide S.Tokens, IndexOf, Opt;
    var front := s[..k] + [NEWLINE];
    v := front + w;
    assert s == front + s[k + 1..];
    TokensAppend(front, w);
    assert front[..k] == s[..k] && front[k + 1..] == "";
    IndexUnique(front, NEWLINE, k);
    SplitStep(front);
    S.SplitEmpty(NEWLINE);
  }

  // ----- The reader -----

  /** Nothing is lost or invented: what was sent and what is left make up the text
      without its line ends. */
  ghost predicate Told(text: string, sent: seq<string>, left: string) {
    Concat(sent) + left == Strip(text) && NEWLINE !in left
  }

  /** What was sent are the whole lines so far, what is left is the open one. */
  ghost predicate WholeLines(text: string, sent: seq<string>, left: string) {
    exists u :: text == u + left && Ended(u) && sent == S.Tokens(u, NEWLINE)
  }

  lemma ToldMore(text: string, sent: seq<string>, left: string, chunk: string)
    requires Told(text, sent, left)
    ensures Strip(text + chunk) == Concat(sent) + Strip(left + chunk)
  {
    hide Strip, Concat;
    StripAppend(text, chunk);
    StripAppend(left, chunk);
    StripPlain(left);
  }

  lemma SendOpen(text: string, sent: seq<string>, left: string, chunk: string, v: string, x: string)
    requires Told(text, sent, left) && left + chunk == v + x && NEWLINE !in x
    ensures Told(text + chunk, sent + S.Tokens(v, NEWLINE), x)
  {
    var t := S.Tokens(v, NEWLINE);
    hide Strip, Concat, S.Tokens;
    ToldMore(text, sent, left, chunk);
    StripAppend(v, x);
    StripPlain(x);
    TokensStrip(v);
    ConcatAppend(sent, t);
    assert Concat(sent) + (Concat(t) + x) == (Concat(sent) + Concat(t)) + x;
  }

  lemma WholeOpen(text: string, sent: seq<string>, left: string, chunk: string, v: string, x: string)
    requires WholeLines(text, sent, left) && left + chunk == v + x && Ended(v)
    ensures WholeLines(text + chunk, sent + S.Tokens(v, NEWLINE), x)
  {
    hide S.Tokens;
    var u :| text == u + left && Ended(u) && sent == S.Tokens(u, NEWLINE);
    var u' := u + v;
    TokensAppend(u, v);
    assert text + chunk == u + (left + chunk);
    assert text + chunk == u' + x && Ended(u');
  }

  /** How a buffer is divided: v is sent, x is kept. */
  ghost predicate Divided(buf: string, size: nat, lines: seq<string>, v: string, x: string, cut: bool) {
    && buf == v + x && lines == S.Tokens(v, NEWLINE) && NEWLINE !in x
    && |x| + 2 <= size
    && (!cut ==> Ended(v))
    && (cut ==> |buf| == size - 1 && |lines| == 1 && x == "")
  }

  /** Splits a buffer into lines to send and the open line to keep. */
  method Divide(buf: string, size: nat) returns (lines: seq<string>, left: string, ghost v: string, ghost cut: bool)
    requires 0 < |buf| < size
    ensures Divided(buf, size, lines, v, left, cut)
    ensures lines + Opt(left) == S.Tokens(buf, NEWLINE)
    ensures left == "" <==> buf[|buf| - 1] == NEWLINE || (|buf| == size - 1 && |S.Tokens(buf, NEWLINE)| == 1)
  {
    var n := |buf|;
    var printLast := buf[n - 1] == NEWLINE;
    var result, nlines := S.Run(buf, NEWLINE);
    lines := result[..nlines];
    if !printLast {
      v := OpenLine(buf);
      assert nlines > 1 ==> v != "" by { S.SplitEmpty(NEWLINE); }
    }
    hide S.Tokens;
    cut := false;
    if n >= size - 1 && nlines == 1 {
      cut := !printLast;
      printLast := true;
    }
    if !printLast {
      left := lines[nlines - 1];
      lines := lines[..nlines - 1];
    } else {
      left, v := "", buf;
      assert buf == buf + "";
    }
  }

  lemma Advance(text: string, sent: seq<string>, left: string, chunk: string, size: nat, lines: seq<string>, v: string,
                x: string, cut: bool)
    requires Told(text, sent, left) && Divided(left + chunk, size, lines, v, x, cut)
    ensures Told(text + chunk, sent + lines, x)
    ensures !cut && WholeLines(text, sent, left) ==> WholeLines(text + chunk, sent + lines, x)
  {
    hide Told, WholeLines, S.Tokens;
    SendOpen(text, sent, left, chunk, v, x);
    if !cut && WholeLines(text, sent, left) {
      WholeOpen(text, sent, left, chunk, v, x);
    }
  }

  class LineReader {
    const size: nat
    var left: string
    ghost var text: string
    ghost var sent: seq<string>
    ghost var forced: bool

    constructor (size: nat)
      requires size >= 2
      ensures Valid() && this.size == size && left == "" && text == "" && sent == [] && !forced
    {
      this.size, left, text, sent, forced := size, "", "", [], false;
      new;
      S.SplitEmpty(NEWLINE);
      assert "" == "" + "" && Ended("");
    }

    /** There is always room for another byte and the terminator. */
    ghost predicate Valid()
      reads this
    {
      && |left| + 2 <= size
      && Told(text, sent, left)
      && (!forced ==> WholeLines(text, sent, left))
    }

    method MaskNuls(chunk: string) returns (s: string)
      ensures s == Masked(chunk)
    {
      s := "";
      for i := 0 to |chunk|
        invariant s == Masked(chunk)[..i]
      {
        s := s + [if chunk[i] != '\0' then chunk[i] else '@'];
      }
    }

    /** One read of a chunk that fits the free space.  A full buffer that holds a
        single line is sent although the line is still open. */
    method Notify(chunk: string) returns (lines: seq<string>, n: int)
      requires Valid() && 0 < |chunk| <= size - |left| - 1
      modifies this
      ensures Valid()
      ensures text == old(text) + Masked(chunk) && sent == old(sent) + lines
      ensures forced ==> old(forced) || (|old(left) + chunk| == size - 1 && |lines| == 1)
      ensures n == |old(left) + chunk| - |left|
    {
      var s := MaskNuls(chunk);
      assert |s| == |chunk|;
      hide Told, WholeLines, Masked, Divided;
      ghost var v, cut;
      var keep;
      lines, keep, v, cut := Divide(left + s, size);
      assert |keep| + 2 <= size && (cut ==> |left + s| == size - 1 && |lines| == 1) by {
        Bounds(left + s, size, lines, v, keep, cut);
      }
      Advance(text, sent, left, s, size, lines, v, keep, cut);
      n := |left + s| - |keep|;
      text, sent, forced, left := text + s, sent + lines, forced || cut, keep;
    }
  }

  lemma Bounds(buf: string, size: nat, lines: seq<string>, v: string, x: string, cut: bool)
    requires Divided(buf, size, lines, v, x, cut)
    ensures |x| + 2 <= size && (cut ==> |buf| == size - 1 && |lines| == 1)
  {
  }
}
