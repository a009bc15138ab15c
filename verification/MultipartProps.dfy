/** What the multipart parser guarantees about whole bodies. */
module MultipartProps {
  import opened Bytes
  import opened MultipartSpec
  import opened Multipart

  // ----- Fragmentation -----

  /** A caller that hands over fragments until one is not fully accepted. */
  function RunFragments(boundary: seq<byte>, m: Control, parts: seq<seq<byte>>): (o: Outcome)
    requires ValidControl(boundary, m)
    ensures ValidControl(boundary, o.end)
    decreases |parts|
  {
    if parts == [] then Outcome(m, [], 0)
    else
      var o := Run(boundary, m, parts[0]);
      if o.left > 0 then o.(left := o.left + |Concat(parts[1..])|)
      else
        var p := RunFragments(boundary, o.end, parts[1..]);
        Outcome(p.end, o.tokens + p.tokens, p.left)
  }

  /** Such a caller gets the same however the body is cut. */
  lemma {:induction false} FragmentsJoin(boundary: seq<byte>, m: Control, parts: seq<seq<byte>>)
    requires ValidControl(boundary, m)
    ensures RunFragments(boundary, m, parts) == Run(boundary, m, Concat(parts))
    decreases |parts|
  {
    hide Next, ValidControl;
    if parts != [] {
      RunAppend(boundary, m, parts[0], Concat(parts[1..]));
      hide Run;
      var o := Run(boundary, m, parts[0]);
      if o.left == 0 {
        FragmentsJoin(boundary, o.end, parts[1..]);
      }
    }
  }

  /** Feeds a parser the fragments of a body, stopping at the first one it does not accept. */
  method Feed(p: Parser, parts: seq<seq<byte>>) returns (accepted: bool)
    requires p.Valid()
    modifies p, p.lookbehind
    ensures Granted(p.reply, |old(p.events)|, p.events) ==> var o := Run(p.boundary, old(p.Ctl()), Concat(parts));
      p.Ctl() == o.end && Tokens(p.events) == Tokens(old(p.events)) + o.tokens && (accepted <==> o.left == 0)
    ensures old(p.events) <= p.events
  {
    hide Run, ValidControl, Tokens, Held;
    FragmentsJoin(p.boundary, p.Ctl(), parts);
    ghost var total := RunFragments(p.boundary, p.Ctl(), parts);
    var k := 0;
    assert parts[0..] == parts;
    while k < |parts|
      invariant 0 <= k <= |parts| && p.Valid() && old(p.events) <= p.events &&
                Granted(p.reply, |old(p.events)|, p.events)
      invariant var o := RunFragments(p.boundary, p.Ctl(), parts[k..]);
        total == Outcome(o.end, total.tokens, o.left) &&
        Tokens(old(p.events)) + total.tokens == Tokens(p.events) + o.tokens
    {
      label Before:
      ghost var e, m := p.events, p.Ctl();
      var n := p.Execute(parts[k]);
      GrantedTrans(p.reply, |old(p.events)|, e, p.events);
      assert parts[k..][1..] == parts[k + 1..];
      ghost var o := Run(p.boundary, m, parts[k]);
      if n < |parts[k]| {
        return false;
      }
      RegroupTokens(Tokens(e), o.tokens, RunFragments(p.boundary, p.Ctl(), parts[k + 1..]).tokens);
      k := k + 1;
    }
    assert parts[k..] == [];
    accepted := true;
  }

  /** A caller that ignores how much was accepted and goes on with the next fragment. */
  function RunHeedless(boundary: seq<byte>, m: Control, parts: seq<seq<byte>>): (o: Outcome)
    requires ValidControl(boundary, m)
    ensures ValidControl(boundary, o.end)
    decreases |parts|
  {
    if parts == [] then Outcome(m, [], 0)
    else
      var o := Run(boundary, m, parts[0]);
      var p := RunHeedless(boundary, o.end, parts[1..]);
      Outcome(p.end, o.tokens + p.tokens, o.left + p.left)
  }

  /** Behind the first byte refused, nothing is accepted in the state reached. */
  predicate StaysRefused(boundary: seq<byte>, m: Control, s: seq<byte>)
    requires ValidControl(boundary, m)
  {
    var o := Run(boundary, m, s);
    forall j :: |s| - o.left < j < |s| ==> Next(boundary, o.end, s[j]).Reject?
  }

  ghost predicate CutDoesNotMatter(boundary: seq<byte>, m: Control, s: seq<byte>)
    requires ValidControl(boundary, m)
  {
    forall parts: seq<seq<byte>> :: Concat(parts) == s ==> RunHeedless(boundary, m, parts) == Run(boundary, m, s)
  }

  /** A state that refused a byte does not change by refusing more. */
  predicate Settled(boundary: seq<byte>, m: Control)
    requires ValidControl(boundary, m)
  {
    forall c: byte :: Next(boundary, m, c).Reject? ==> Next(boundary, m, c).next == m
  }

  lemma RefusedSettles(boundary: seq<byte>, m: Control, c: byte)
    requires ValidControl(boundary, m) && Next(boundary, m, c).Reject?
    ensures var n := Next(boundary, m, c).next; ValidControl(boundary, n) && Settled(boundary, n)
  {
  }

  lemma {:induction false} RunSettles(boundary: seq<byte>, m: Control, s: seq<byte>)
    requires ValidControl(boundary, m) && Run(boundary, m, s).left > 0
    ensures Settled(boundary, Run(boundary, m, s).end)
    decreases |s|
  {
    hide Next, ValidControl, Settled;
    NextValid(boundary, m, s[0]);
    if Next(boundary, m, s[0]).Reject? {
      RefusedSettles(boundary, m, s[0]);
    } else {
      RunSettles(boundary, Next(boundary, m, s[0]).next, s[1..]);
    }
  }

  ghost predicate AllRefused(boundary: seq<byte>, m: Control, s: seq<byte>)
    requires ValidControl(boundary, m)
  {
    forall i :: 0 <= i < |s| ==> Next(boundary, m, s[i]).Reject?
  }

  lemma {:induction false} HeedlessRefused(boundary: seq<byte>, m: Control, parts: seq<seq<byte>>)
    requires ValidControl(boundary, m) && Settled(boundary, m) && AllRefused(boundary, m, Concat(parts))
    ensures RunHeedless(boundary, m, parts) == Outcome(m, [], |Concat(parts)|)
    decreases |parts|
  {
    hide Next, ValidControl;
    if parts != [] {
      var s := Concat(parts);
      assert s == parts[0] + Concat(parts[1..]);
      assert forall i :: 0 <= i < |parts[0]| ==> s[i] == parts[0][i];
      assert forall i :: 0 <= i < |Concat(parts[1..])| ==> s[|parts[0]| + i] == Concat(parts[1..])[i];
      assert Run(boundary, m, parts[0]) == Outcome(m, [], |parts[0]|);
      HeedlessRefused(boundary, m, parts[1..]);
    }
  }

  lemma {:induction false} HeedlessOnRefused(boundary: seq<byte>, m: Control, parts: seq<seq<byte>>)
    requires ValidControl(boundary, m) && StaysRefused(boundary, m, Concat(parts))
    ensures RunHeedless(boundary, m, parts) == Run(boundary, m, Concat(parts))
    decreases |parts|
  {
    hide Next, ValidControl;
    if parts != [] {
      var a, b := parts[0], Concat(parts[1..]);
      var o := Run(boundary, m, a);
      RunAppend(boundary, m, a, b);
      hide Run;
      assert forall i :: 0 <= i < |b| ==> (a + b)[|a| + i] == b[i];
      if o.left == 0 {
        assert StaysRefused(boundary, o.end, b);
        HeedlessOnRefused(boundary, o.end, parts[1..]);
      } else {
        RunSettles(boundary, m, a);
        HeedlessRefused(boundary, o.end, parts[1..]);
        assert o.tokens + [] == o.tokens;
      }
    }
  }

  /** A cut right before an accepted byte leaves fewer bytes unread. */
  lemma CutMatters(boundary: seq<byte>, m: Control, s: seq<byte>, j: nat)
    requires ValidControl(boundary, m) && |s| - Run(boundary, m, s).left < j < |s|
    requires Next(boundary, Run(boundary, m, s).end, s[j]).Accept?
    ensures Concat([s[..j], s[j..]]) == s
    ensures RunHeedless(boundary, m, [s[..j], s[j..]]).left < Run(boundary, m, s).left
  {
    hide Next, ValidControl;
    var a, b := s[..j], s[j..];
    var none: seq<seq<byte>> := [];
    assert [a, b][1..] == [b] && [b][1..] == none && b + Concat(none) == b;
    assert Concat([b]) == b && Concat([a, b]) == a + b == s;
    RunAppend(boundary, m, a, b);
    var o := Run(boundary, m, a);
    assert o.left > 0 && o.end == Run(boundary, m, s).end;
    NextValid(boundary, o.end, b[0]);
    assert Run(boundary, o.end, b).left < |b|;
    assert RunHeedless(boundary, o.end, [b]).left == Run(boundary, o.end, b).left;
  }

  /** Ignoring the result is harmless exactly for the bodies of which, once refused,
      nothing more is accepted; among them all that are accepted in one piece... */
  lemma HeedlessIff(boundary: seq<byte>, m: Control, s: seq<byte>)
    requires ValidControl(boundary, m)
    ensures CutDoesNotMatter(boundary, m, s) <==> StaysRefused(boundary, m, s)
    ensures Run(boundary, m, s).left == 0 ==> CutDoesNotMatter(boundary, m, s)
  {
    hide Run, RunHeedless, Next, ValidControl, Concat;
    if StaysRefused(boundary, m, s) {
      forall parts: seq<seq<byte>> | Concat(parts) == s ensures RunHeedless(boundary, m, parts) == Run(boundary, m, s) {
        HeedlessOnRefused(boundary, m, parts);
      }
    } else {
      var j :| |s| - Run(boundary, m, s).left < j < |s| && !Next(boundary, Run(boundary, m, s).end, s[j]).Reject?;
      CutMatters(boundary, m, s, j);
    }
  }

  /** ...but what is reported of a malformed body depends on how it is cut:
      boundary "b", body "bX" CR LF, whole and cut before the line end. */
  lemma HeedlessOnMalformed()
    ensures var m, a, b: seq<byte> := Control(Start, 0), [98, 88], [CR, LF];
      ValidControl([98], m) && RunHeedless([98], m, [a + b]).tokens == [] &&
      RunHeedless([98], m, [a, b]).tokens == [PartBegin]
  {
    var m, a, b: seq<byte> := Control(Start, 0), [98, 88], [CR, LF];
    var m1 := Control(StartBoundary, 1);
    assert Next([98], m, 98) == Accept(m1, []);
    assert Next([98], m1, 88) == Reject(m1);
    assert a[1..] == [88] && (a + b)[1..] == [88, CR, LF];
    assert Run([98], m1, [88]) == Outcome(m1, [], 1);
    assert Run([98], m1, [88, CR, LF]) == Outcome(m1, [], 3);
    assert Run([98], m, a) == Outcome(m1, [], 1);
    assert Run([98], m, a + b) == Outcome(m1, [], 3);
    assert b[1..] == [LF] && [LF][1..] == [];
    var m2, m3 := Control(StartBoundary, 2), Control(HeaderFieldStart, 0);
    assert Next([98], m1, CR) == Accept(m2, []) && Next([98], m2, LF) == Accept(m3, [PartBegin]);
    assert Run([98], m3, []) == Outcome(m3, [], 0);
    assert Run([98], m2, [LF]) == Outcome(m3, [PartBegin], 0);
    assert Run([98], m1, b) == Outcome(m3, [PartBegin], 0);
    assert [a + b][1..] == [] && [a, b][1..] == [b] && [b][1..] == [];
    assert RunHeedless([98], m1, []) == Outcome(m1, [], 0);
    assert RunHeedless([98], m3, []) == Outcome(m3, [], 0);
    assert RunHeedless([98], m1, [b]) == Outcome(m3, [PartBegin], 0);
  }

  // ----- The order of notifications -----

  /** Where a body stands as far as its notifications tell. */
  datatype Phase = Before | Headers | InPart | Between | After | Wrong

  function Follow(p: Phase, t: Token): Phase {
    match (p, t)
    case (Before, PartBegin) => Headers
    case (Headers, HeadersComplete) => InPart
    case (InPart, Byte(_)) => InPart
    case (InPart, PartEnd) => Between
    case (Between, PartBegin) => Headers
    case (Between, BodyEnd) => After
    case _ => Wrong
  }

  function FollowAll(p: Phase, ts: seq<Token>): Phase
    decreases |ts|
  {
    if ts == [] then p else FollowAll(Follow(p, ts[0]), ts[1..])
  }

  function PhaseOf(s: State): Phase {
    match s
    case Start | StartBoundary => Before
    case HeaderFieldStart | HeaderField | HeadersAlmostDone
       | HeaderValueStart | HeaderValue | HeaderValueAlmostDone | PartDataStart => Headers
    case PartData | PartDataAlmostBoundary | PartDataBoundary => InPart
    case PartDataAlmostEnd | PartDataEnd | PartDataFinalHyphen => Between
    case End => After
  }

  lemma {:induction false} FollowAppend(p: Phase, a: seq<Token>, b: seq<Token>)
    ensures FollowAll(p, a + b) == FollowAll(FollowAll(p, a), b)
    decreases |a|
  {
    if a == [] {
      assert a + b == b;
    } else {
      FollowAppend(Follow(p, a[0]), a[1..], b);
      assert (a + b)[1..] == a[1..] + b;
    }
  }

  lemma {:induction false} FollowData(s: seq<byte>)
    ensures FollowAll(InPart, AsData(s)) == InPart
    decreases |s|
  {
    if s != [] {
      FollowData(s[1..]);
      assert AsData(s)[1..] == AsData(s[1..]);
    }
  }

  lemma FollowOne(p: Phase, t: Token)
    ensures FollowAll(p, [t]) == Follow(p, t)
  {
    assert [t][1..] == [];
  }

  lemma PhaseInData(index: nat, c: byte)
    ensures FollowAll(InPart, InData(index, c).tokens) == InPart == PhaseOf(InData(index, c).next.state)
  {
    FollowOne(InPart, Byte(c));
  }

  lemma PhaseStep(boundary: seq<byte>, m: Control, c: byte)
    requires ValidControl(boundary, m) && Next(boundary, m, c).Accept?
    ensures FollowAll(PhaseOf(m.state), Next(boundary, m, c).tokens) == PhaseOf(Next(boundary, m, c).next.state)
  {
    if m.state in {PartDataStart, PartData, PartDataAlmostBoundary, PartDataBoundary} {
      PhaseInPart(boundary, m, c);
    } else if m.state in {HeaderFieldStart, HeaderField} {
      PhaseHeader(boundary, m, c);
    } else if m.state in {Start, StartBoundary} {
      FollowOne(Before, PartBegin);
      FollowNone(Before);
      hide FollowAll;
    } else {
      PhaseTail(boundary, m, c);
    }
  }

  lemma PhaseHeader(boundary: seq<byte>, m: Control, c: byte)
    requires ValidControl(boundary, m) && m.state in {HeaderFieldStart, HeaderField} && Next(boundary, m, c).Accept?
    ensures FollowAll(PhaseOf(m.state), Next(boundary, m, c).tokens) == PhaseOf(Next(boundary, m, c).next.state)
  {
    var d := InData(m.index, c);
    PhaseInData(m.index, c);
    FollowNone(Headers);
    FollowOne(Headers, HeadersComplete);
    FollowAppend(Headers, [HeadersComplete], d.tokens);
    hide FollowAll;
  }

  lemma PhaseTail(boundary: seq<byte>, m: Control, c: byte)
    requires ValidControl(boundary, m) && Next(boundary, m, c).Accept?
    requires m.state in {HeadersAlmostDone, HeaderValueStart, HeaderValue, HeaderValueAlmostDone, PartDataAlmostEnd,
                         PartDataEnd, PartDataFinalHyphen, End}
    ensures FollowAll(PhaseOf(m.state), Next(boundary, m, c).tokens) == PhaseOf(Next(boundary, m, c).next.state)
  {
    FollowOne(Between, PartBegin);
    FollowOne(Between, BodyEnd);
    FollowNone(PhaseOf(m.state));
    hide FollowAll;
  }

  lemma FollowNone(p: Phase)
    ensures FollowAll(p, []) == p
  {
  }

  lemma PhaseInPart(boundary: seq<byte>, m: Control, c: byte)
    requires ValidControl(boundary, m) && m.state in {PartDataStart, PartData, PartDataAlmostBoundary, PartDataBoundary}
    requires Next(boundary, m, c).Accept?
    ensures FollowAll(PhaseOf(m.state), Next(boundary, m, c).tokens) == PhaseOf(Next(boundary, m, c).next.state)
  {
    var d := InData(m.index, c);
    PhaseInData(m.index, c);
    FollowNone(InPart);
    FollowOne(InPart, PartEnd);
    if m.state == PartDataStart {
      FollowOne(Headers, HeadersComplete);
      FollowAppend(Headers, [HeadersComplete], d.tokens);
    } else if m.state == PartDataAlmostBoundary {
      FollowOne(InPart, Byte(CR));
      FollowAppend(InPart, [Byte(CR)], d.tokens);
    } else if m.state == PartDataBoundary {
      var held := [CR, LF] + boundary[..m.index];
      FollowData(held);
      FollowAppend(InPart, AsData(held), d.tokens);
    }
    hide FollowAll, AsData;
  }

  /** The notifications always follow the grammar of parts, whatever the input is. */
  lemma {:induction false} RunFollowsGrammar(boundary: seq<byte>, m: Control, s: seq<byte>)
    requires ValidControl(boundary, m)
    ensures var o := Run(boundary, m, s);
      FollowAll(PhaseOf(m.state), o.tokens) == PhaseOf(o.end.state) && PhaseOf(o.end.state) != Wrong
    decreases |s|
  {
    if s != [] {
      var v := Next(boundary, m, s[0]);
      if v.Accept? {
        RunStep(boundary, m, s);
        PhaseStep(boundary, m, s[0]);
        RunFollowsGrammar(boundary, v.next, s[1..]);
        hide Next, Run, Follow;
        FollowAppend(PhaseOf(m.state), v.tokens, Run(boundary, v.next, s[1..]).tokens);
      }
    }
  }

  // ----- Finding the delimiter -----

  /** What ends part data: the boundary at the start of a line. */
  function Delimiter(boundary: seq<byte>): seq<byte> { [CR, LF] + boundary }

  predicate EndsWith(w: seq<byte>, d: seq<byte>) {
    |d| <= |w| && w[|w| - |d|..] == d
  }

  /** No delimiter ends anywhere in w. */
  predicate Free(w: seq<byte>, d: seq<byte>) {
    forall i :: 0 <= i <= |w| ==> !EndsWith(w[..i], d)
  }

  /** After part data w without delimiter: what is withheld is the longest tail of
      w that could start a delimiter, and all before it was delivered. */
  ghost predicate Searching(boundary: seq<byte>, w: seq<byte>, m: Control, tokens: seq<Token>) {
    && ValidControl(boundary, m) && m.state in {PartData, PartDataAlmostBoundary, PartDataBoundary}
    && var h := |Held(boundary, m)|;
       && EndsWith(w, Held(boundary, m)) && tokens == AsData(w[..|w| - h])
       && forall j :: 0 < j < |Delimiter(boundary)| && EndsWith(w, Delimiter(boundary)[..j]) ==> j == h
  }

  /** A tail of w + [c] that starts a delimiter extends a tail of w, or is c alone. */
  lemma TailStep(boundary: seq<byte>, w: seq<byte>, c: byte, j: nat)
    requires CR !in boundary && 0 < j <= |Delimiter(boundary)|
    ensures EndsWith(w + [c], Delimiter(boundary)[..j]) <==>
      c == Delimiter(boundary)[j - 1] && (j == 1 || EndsWith(w, Delimiter(boundary)[..j - 1]))
    ensures Delimiter(boundary)[j - 1] == CR <==> j == 1
  {
    var d := Delimiter(boundary);
    assert d[..j] == d[..j - 1] + [d[j - 1]];
    if j <= |w| + 1 {
      assert (w + [c])[|w| + 1 - j..] == w[|w| + 1 - j..] + [c];
    }
    if j > 2 {
      assert d[j - 1] == boundary[j - 3];
    }
  }

  /** The withheld bytes always are a start of the delimiter. */
  lemma HeldIsStart(boundary: seq<byte>, m: Control)
    requires ValidControl(boundary, m)
    ensures |Held(boundary, m)| < |Delimiter(boundary)| &&
            Held(boundary, m) == Delimiter(boundary)[..|Held(boundary, m)|]
  {
    var d := Delimiter(boundary);
    if m.state == PartDataBoundary {
      assert d[..2 + m.index] == [CR, LF] + boundary[..m.index];
    }
  }

  /** Which byte would continue the match. */
  lemma Continues(boundary: seq<byte>, m: Control, c: byte)
    requires ValidControl(boundary, m) && m.state in {PartDataAlmostBoundary, PartDataBoundary}
    ensures var h := |Held(boundary, m)|; var d := Delimiter(boundary); var v := Next(boundary, m, c);
      && 0 < h && v.Accept?
      && (c == d[h] && h + 1 < |d| ==>
          v.tokens == [] && v.next.state == PartDataBoundary && Held(boundary, v.next) == d[..h + 1])
      && (c == d[h] && h + 1 == |d| ==> v == Accept(Control(PartDataAlmostEnd, |boundary|), [PartEnd]))
      && (c != d[h] ==> v == Prepend(AsData(Held(boundary, m)), InData(m.index, c)))
  {
    var d := Delimiter(boundary);
    if m.state == PartDataBoundary {
      assert d[2 + m.index] == boundary[m.index];
      assert d[..3 + m.index] == [CR, LF] + boundary[..m.index + 1];
    } else {
      assert AsData([CR]) == [Byte(CR)];
      assert d[..2] == [CR, LF] + boundary[..0];
    }
  }

  lemma HeldAfterData(boundary: seq<byte>, index: nat, c: byte)
    requires 0 < |boundary|
    ensures var n := InData(index, c).next;
            ValidControl(boundary, n) && Held(boundary, n) == if c == CR then [CR] else []
  {
  }

  /** A byte that does not continue a match is data, or starts a new match. */
  lemma SearchData(boundary: seq<byte>, w: seq<byte>, c: byte, index: nat)
    requires 0 < |boundary| && CR !in boundary
    requires forall j :: 1 < j < |Delimiter(boundary)| ==> !EndsWith(w + [c], Delimiter(boundary)[..j])
    ensures Searching(boundary, w + [c], InData(index, c).next, AsData(w) + InData(index, c).tokens)
  {
    HeldAfterData(boundary, index, c);
    TailStep(boundary, w, c, 1);
    assert c != CR ==> AsData(w + [c]) == AsData(w) + [Byte(c)];
    assert (w + [c])[..|w|] == w && (w + [c])[..|w| + 1] == w + [c];
  }

  /** A byte that continues a match is withheld. */
  lemma SearchMatch(boundary: seq<byte>, w: seq<byte>, m: Control, tokens: seq<Token>, c: byte)
    requires CR !in boundary && Searching(boundary, w, m, tokens) && m.state != PartData
    requires c == Delimiter(boundary)[|Held(boundary, m)|] && |Held(boundary, m)| + 1 < |Delimiter(boundary)|
    ensures Next(boundary, m, c).Accept? &&
            Searching(boundary, w + [c], Next(boundary, m, c).next, tokens + Next(boundary, m, c).tokens)
  {
    var d, h := Delimiter(boundary), |Held(boundary, m)|;
    HeldIsStart(boundary, m);
    Continues(boundary, m, c);
    NextValid(boundary, m, c);
    TailStep(boundary, w, c, h + 1);
    forall j | 0 < j < |d| && EndsWith(w + [c], d[..j]) ensures j == h + 1 {
      TailStep(boundary, w, c, j);
    }
    assert (w + [c])[..|w| - h] == w[..|w| - h];
  }

  /** The search goes on as long as no delimiter is complete. */
  lemma SearchStep(boundary: seq<byte>, w: seq<byte>, m: Control, tokens: seq<Token>, c: byte)
    requires CR !in boundary && Searching(boundary, w, m, tokens) && !EndsWith(w + [c], Delimiter(boundary))
    ensures Next(boundary, m, c).Accept? &&
            Searching(boundary, w + [c], Next(boundary, m, c).next, tokens + Next(boundary, m, c).tokens)
  {
    var d, h := Delimiter(boundary), |Held(boundary, m)|;
    HeldIsStart(boundary, m);
    TailStep(boundary, w, c, h + 1);
    assert d[..|d|] == d;
    if m.state != PartData && c == d[h] {
      SearchMatch(boundary, w, m, tokens, c);
    } else {
      SearchMiss(boundary, w, m, tokens, c);
    }
  }

  lemma SearchMiss(boundary: seq<byte>, w: seq<byte>, m: Control, tokens: seq<Token>, c: byte)
    requires CR !in boundary && Searching(boundary, w, m, tokens)
    requires |Held(boundary, m)| < |Delimiter(boundary)| &&
             (m.state == PartData || c != Delimiter(boundary)[|Held(boundary, m)|])
    ensures Next(boundary, m, c).Accept? &&
            Searching(boundary, w + [c], Next(boundary, m, c).next, tokens + Next(boundary, m, c).tokens)
  {
    var held := Held(boundary, m);
    MissEnds(boundary, w, m, tokens, c);
    MissNext(boundary, w, m, tokens, c);
    hide *;
    SearchData(boundary, w, c, m.index);
    RegroupTokens(tokens, AsData(held), InData(m.index, c).tokens);
  }

  /** No longer tail than the new byte can start a delimiter... */
  lemma MissEnds(boundary: seq<byte>, w: seq<byte>, m: Control, tokens: seq<Token>, c: byte)
    requires CR !in boundary && Searching(boundary, w, m, tokens)
    requires |Held(boundary, m)| < |Delimiter(boundary)| &&
             (m.state == PartData || c != Delimiter(boundary)[|Held(boundary, m)|])
    ensures forall j :: 1 < j < |Delimiter(boundary)| ==> !EndsWith(w + [c], Delimiter(boundary)[..j])
  {
    var d := Delimiter(boundary);
    forall j | 1 < j < |d| ensures !EndsWith(w + [c], d[..j]) {
      TailStep(boundary, w, c, j);
    }
  }

  /** ...and what was withheld is data. */
  lemma MissNext(boundary: seq<byte>, w: seq<byte>, m: Control, tokens: seq<Token>, c: byte)
    requires CR !in boundary && Searching(boundary, w, m, tokens)
    requires |Held(boundary, m)| < |Delimiter(boundary)| &&
             (m.state == PartData || c != Delimiter(boundary)[|Held(boundary, m)|])
    ensures 0 < |boundary| && AsData(w) == tokens + AsData(Held(boundary, m))
    ensures Next(boundary, m, c) == Prepend(AsData(Held(boundary, m)), InData(m.index, c))
         == Accept(InData(m.index, c).next, AsData(Held(boundary, m)) + InData(m.index, c).tokens)
  {
    var held := Held(boundary, m);
    if m.state == PartData {
      assert AsData(held) == [] && [] + InData(m.index, c).tokens == InData(m.index, c).tokens;
      assert Next(boundary, m, c) == InData(m.index, c);
    } else {
      hide Next, Delimiter, AsData;
      Continues(boundary, m, c);
    }
    hide Next, Held, Delimiter, AsData, InData, ValidControl;
    AsDataSplit(w, |w| - |held|);
  }

  lemma AsDataSplit(w: seq<byte>, k: nat)
    requires k <= |w|
    ensures AsData(w) == AsData(w[..k]) + AsData(w[k..])
  {
  }

  /** A complete delimiter ends the part; all data before it was delivered. */
  lemma SearchFound(boundary: seq<byte>, w: seq<byte>, m: Control, tokens: seq<Token>, c: byte)
    requires CR !in boundary && Searching(boundary, w, m, tokens) && EndsWith(w + [c], Delimiter(boundary))
    ensures Next(boundary, m, c) == Accept(Control(PartDataAlmostEnd, |boundary|), [PartEnd])
    ensures tokens == AsData((w + [c])[..|w| + 1 - |Delimiter(boundary)|])
  {
    var d := Delimiter(boundary);
    assert d[..|d|] == d;
    TailStep(boundary, w, c, |d|);
    Continues(boundary, m, c);
    assert (w + [c])[..|w| + 1 - |d|] == w[..|w| - (|d| - 1)];
  }

  /** Part data without delimiter is delivered except for what is withheld. */
  lemma {:induction false} SearchRun(boundary: seq<byte>, index: nat, w: seq<byte>)
    requires 0 < |boundary| && CR !in boundary && Free(w, Delimiter(boundary))
    ensures var o := Run(boundary, Control(PartData, index), w); o.left == 0 && Searching(boundary, w, o.end, o.tokens)
    decreases |w|
  {
    var m := Control(PartData, index);
    if w == [] {
      assert AsData([]) == [];
      assert forall j :: 0 < j < |Delimiter(boundary)| ==> |Delimiter(boundary)[..j]| == j;
    } else {
      var front, c := w[..|w| - 1], w[|w| - 1];
      assert forall i :: 0 <= i <= |front| ==> front[..i] == w[..i];
      SearchRun(boundary, index, front);
      assert w == front + [c] && w[..|w|] == w;
      var o := Run(boundary, m, front);
      hide *;
      SearchStep(boundary, front, o.end, o.tokens, c);
      SearchingValid(boundary, front, o.end, o.tokens);
      RunSnoc(boundary, m, front, c);
    }
  }

  lemma SearchingValid(boundary: seq<byte>, w: seq<byte>, m: Control, tokens: seq<Token>)
    requires Searching(boundary, w, m, tokens)
    ensures ValidControl(boundary, m)
  {
  }

  /** One more byte that is accepted. */
  lemma RunSnoc(boundary: seq<byte>, m: Control, front: seq<byte>, c: byte)
    requires ValidControl(boundary, m)
    requires var o := Run(boundary, m, front);
             o.left == 0 && ValidControl(boundary, o.end) && Next(boundary, o.end, c).Accept?
    ensures var o := Run(boundary, m, front);
      var v := Next(boundary, o.end, c);
      Run(boundary, m, front + [c]) == Outcome(v.next, o.tokens + v.tokens, 0)
  {
    hide Next, ValidControl;
    var o := Run(boundary, m, front);
    RunAppend(boundary, m, front, [c]);
    RunStep(boundary, o.end, [c]);
    RunNothing(boundary, Next(boundary, o.end, c).next);
    hide Run;
  }

  lemma RunNothing(boundary: seq<byte>, m: Control)
    requires ValidControl(boundary, m)
    ensures forall t: seq<Token> :: t + Run(boundary, m, []).tokens == t
    ensures Run(boundary, m, []) == Outcome(m, [], 0)
  {
  }

  /** The data of a part is exactly what precedes the first delimiter. */
  lemma PartDataExact(boundary: seq<byte>, index: nat, data: seq<byte>)
    requires 0 < |boundary| && CR !in boundary && CleanData(boundary, data)
    ensures Run(boundary, Control(PartData, index), data + Delimiter(boundary))
      == Outcome(Control(PartDataAlmostEnd, |boundary|), AsData(data) + [PartEnd], 0)
  {
    var d := Delimiter(boundary);
    var all := data + d;
    var front, c := all[..|all| - 1], all[|all| - 1];
    assert forall i :: 0 <= i <= |front| ==> front[..i] == all[..i];
    assert all == front + [c] && all[|data|..] == d && all[..|data|] == data;
    var m := Control(PartData, index);
    SearchRun(boundary, index, front);
    assert EndsWith(front + [c], d) && ValidControl(boundary, m);
    hide *;
    var o := Run(boundary, m, front);
    SearchFound(boundary, front, o.end, o.tokens, c);
    SearchingValid(boundary, front, o.end, o.tokens);
    RunSnoc(boundary, m, front, c);
  }

  /** The first delimiter in data followed by a delimiter is that last one. */
  predicate CleanData(boundary: seq<byte>, data: seq<byte>) {
    var all := data + Delimiter(boundary);
    forall i :: 0 <= i < |all| ==> !EndsWith(all[..i], Delimiter(boundary))
  }
}
