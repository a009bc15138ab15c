/** What any input means, read by recursive descent with the bytes written out: the
    state machine tells the same parts and stops at the same byte. */
module MultipartGrammar {
  import opened Bytes
  import opened MultipartSpec
  import opened Multipart
  import opened MultipartProps
  import opened MultipartBody

  /** What is told of an input, and how much of it is left where it is malformed. */
  datatype Reading = Reading(tokens: seq<Token>, left: nat)

  function Told(t: seq<Token>, r: Reading): Reading { r.(tokens := t + r.tokens) }

  /** How many bytes of s are as they should be. */
  function Matched(line: seq<byte>, s: seq<byte>): (n: nat)
    ensures n <= |line| && n <= |s| && line[..n] == s[..n] && (n < |line| && n < |s| ==> line[n] != s[n])
  {
    if line == [] || s == [] || line[0] != s[0] then 0 else 1 + Matched(line[1..], s[1..])
  }

  /** The length of a header name: letters and hyphens. */
  function NameLength(t: seq<byte>): (n: nat)
    ensures n <= |t| && (forall i :: 0 <= i < n ==> t[i] == 45 || 65 <= t[i] <= 90 || 97 <= t[i] <= 122)
    ensures n < |t| ==> !(t[n] == 45 || 65 <= t[n] <= 90 || 97 <= t[n] <= 122)
  {
    if t == [] || !(t[0] == 45 || 65 <= t[0] <= 90 || 97 <= t[0] <= 122) then 0 else 1 + NameLength(t[1..])
  }

  /** The first carriage return, or the end. */
  function LineEnd(t: seq<byte>): (n: nat)
    ensures n <= |t| && 13 !in t[..n] && (n < |t| ==> t[n] == 13)
  {
    if t == [] || t[0] == 13 then 0 else 1 + LineEnd(t[1..])
  }

  /** Where d first ends in w, or one more than the length of w. */
  function FirstEnd(d: seq<byte>, w: seq<byte>, i: nat): (e: nat)
    requires i <= |w| + 1
    ensures i <= e <= |w| + 1 && (e <= |w| ==> EndsWith(w[..e], d)) && forall j :: i <= j < e ==> !EndsWith(w[..j], d)
    decreases |w| + 1 - i
  {
    if i == |w| + 1 || EndsWith(w[..i], d) then i else FirstEnd(d, w, i + 1)
  }

  /** The longest tail of w, shorter than d, with which d starts. */
  function Tail(d: seq<byte>, w: seq<byte>, j: nat): (h: nat)
    requires j < |d|
    ensures h <= j && EndsWith(w, d[..h]) && forall i :: h < i <= j ==> !EndsWith(w, d[..i])
  {
    if j == 0 || EndsWith(w, d[..j]) then j else Tail(d, w, j - 1)
  }

  /** A line end, at place p. */
  predicate LineFeed(t: seq<byte>, p: nat) { p + 1 < |t| && t[p + 1] == 10 }

  function ReadBody(b: seq<byte>, s: seq<byte>): Reading {
    var line := b + [13, 10];
    var n := Matched(line, s);
    if n < |line| then Reading([], |s| - n) else Told([PartBegin], ReadHeaders(b, s[n..]))
  }

  /** Header lines. */
  function ReadHeaders(b: seq<byte>, t: seq<byte>): Reading
    decreases |t|, 3
  {
    ReadField(b, t[NameLength(t)..])
  }

  /** Behind a header name: an empty line ends the headers, and so does a byte that
      cannot be part of a name. */
  function ReadField(b: seq<byte>, t: seq<byte>): Reading
    decreases |t|, 2
  {
    if t == [] then Reading([], 0)
    else if t[0] == 13 then if LineFeed(t, 0) then ReadPart(b, t[2..]) else Reading([], |t| - 1)
    else if t[0] == 58 then ReadValue(b, t[1..])
    else ReadPart(b, t)
  }

  /** A header value, and the lines after it. */
  function ReadValue(b: seq<byte>, t: seq<byte>): Reading
    decreases |t|, 0
  {
    var p := LineEnd(t);
    if p == |t| then Reading([], 0)
    else if LineFeed(t, p) then ReadHeaders(b, t[p + 2..]) else Reading([], |t| - p - 1)
  }

  function ReadPart(b: seq<byte>, t: seq<byte>): Reading
    decreases |t|, 1
  {
    if t == [] then Reading([], 0) else Told([HeadersComplete], ReadData(b, t))
  }

  /** Data up to the first boundary at the start of a line. */
  function ReadData(b: seq<byte>, t: seq<byte>): Reading
    decreases |t|, 0
  {
    var d := [13, 10] + b;
    var e := FirstEnd(d, t, 0);
    if e > |t| then Reading(AsData(t[..|t| - Tail(d, t, |d| - 1)]), 0)
    else Told(AsData(t[..e - |d|]) + [PartEnd], ReadTail(b, t[e..]))
  }

  /** Behind a boundary: two hyphens end the body, a line end starts the next part. */
  function ReadTail(b: seq<byte>, u: seq<byte>): Reading
    decreases |u|, 4
  {
    if u == [] then Reading([], 0)
    else if u[0] == 45 then
      if |u| == 1 then Reading([], 0) else if u[1] == 45 then Reading([BodyEnd], 0) else Reading([], |u| - 1)
    else if u[0] == 13 then
      if LineFeed(u, 0) then Told([PartBegin], ReadHeaders(b, u[2..])) else Reading([], |u| - 1)
    else Reading([], |u|)
  }

  // ----- The state machine means the same -----

  predicate Means(b: seq<byte>, m: Control, s: seq<byte>, r: Reading) {
    ValidControl(b, m) && Run(b, m, s).tokens == r.tokens && Run(b, m, s).left == r.left
  }

  lemma MeansNothing(b: seq<byte>, m: Control)
    requires ValidControl(b, m)
    ensures Means(b, m, [], Reading([], 0))
  {
  }

  lemma MeansRefused(b: seq<byte>, m: Control, s: seq<byte>)
    requires ValidControl(b, m) && s != [] && Next(b, m, s[0]).Reject?
    ensures Means(b, m, s, Reading([], |s|))
  {
    hide Next;
  }

  lemma MeansThen(b: seq<byte>, m: Control, front: seq<byte>, n: Control, t: seq<Token>, rest: seq<byte>, r: Reading,
                  s: seq<byte>)
    requires Leads(b, m, front, n, t) && Means(b, n, rest, r) && s == front + rest
    ensures Means(b, m, s, Told(t, r))
  {
    hide Next, ValidControl;
    RunAppend(b, m, front, rest);
  }

  /** The same without anything told. */
  lemma MeansOn(b: seq<byte>, m: Control, front: seq<byte>, n: Control, rest: seq<byte>, r: Reading, s: seq<byte>)
    requires Leads(b, m, front, n, []) && Means(b, n, rest, r) && s == front + rest
    ensures Means(b, m, s, r)
  {
    hide Leads, Means;
    MeansThen(b, m, front, n, [], rest, r, s);
    assert [] + r.tokens == r.tokens;
  }

  lemma MeansAgain(b: seq<byte>, m: Control, n: Control, t: seq<Token>, s: seq<byte>, r: Reading)
    requires ValidControl(b, m) && s != [] && Means(b, n, s, r)
    requires Next(b, n, s[0]).Accept? && Next(b, m, s[0]) == Prepend(t, Next(b, n, s[0]))
    ensures Means(b, m, s, Told(t, r))
  {
    hide Next, ValidControl;
    RunAgain(b, m, n, t, s);
  }

  // ----- Data -----

  lemma TailIs(b: seq<byte>, w: seq<byte>, m: Control, tokens: seq<Token>)
    requires Searching(b, w, m, tokens)
    ensures tokens == AsData(w[..|w| - Tail(Delimiter(b), w, |b| + 1)])
  {
    var d, h := Delimiter(b), |Held(b, m)|;
    HeldIsStart(b, m);
    var j := Tail(d, w, |d| - 1);
    hide Held, Delimiter, Tail;
    assert j == h;
  }

  lemma OpenDataMeans(b: seq<byte>, i: nat, t: seq<byte>)
    requires 0 < |b| && 13 !in b && Free(t, [13, 10] + b)
    ensures var d := [13, 10] + b; Means(b, Control(PartData, i), t, Reading(AsData(t[..|t| - Tail(d, t, |d| - 1)]), 0))
  {
    var m := Control(PartData, i);
    hide *;
    DelimiterIs(b, m);
    SearchRun(b, i, t);
    var o := Run(b, m, t);
    TailIs(b, t, o.end, o.tokens);
    MeansIs(b, m, t, Reading(o.tokens, 0));
  }

  lemma DelimiterIs(b: seq<byte>, m: Control)
    requires 0 < |b| && m.state == PartData
    ensures Delimiter(b) == [13, 10] + b && CR == 13 && ValidControl(b, m)
  {
  }

  lemma MeansIs(b: seq<byte>, m: Control, s: seq<byte>, r: Reading)
    requires ValidControl(b, m) && Run(b, m, s).tokens == r.tokens && Run(b, m, s).left == r.left
    ensures Means(b, m, s, r)
  {
    hide Run;
  }

  lemma DataMeans(b: seq<byte>, i: nat, t: seq<byte>)
    requires 0 < |b| && 13 !in b
    ensures Means(b, Control(PartData, i), t, ReadData(b, t))
    decreases |t|, 1
  {
    var d := [13, 10] + b;
    var e := FirstEnd(d, t, 0);
    if e > |t| {
      OpenDataMeans(b, i, t);
    } else {
      var data := t[..e - |d|];
      ClosedData(b, t, e);
      PartDataExact(b, i, data);
      TailMeans(b, |b|, t[e..]);
      hide Run, FirstEnd, ReadTail;
      assert Leads(b, Control(PartData, i), t[..e], Control(PartDataAlmostEnd, |b|), AsData(data) + [PartEnd]);
      hide Leads, Means;
      MeansThen(b, Control(PartData, i), t[..e], Control(PartDataAlmostEnd, |b|), AsData(data) + [PartEnd], t[e..],
                ReadTail(b, t[e..]), t);
    }
  }

  lemma ClosedData(b: seq<byte>, t: seq<byte>, e: nat)
    requires e <= |t| && e == FirstEnd([13, 10] + b, t, 0)
    ensures |b| + 2 <= e && t[..e] == t[..e - |b| - 2] + Delimiter(b) && CleanData(b, t[..e - |b| - 2])
  {
    var d := Delimiter(b);
    assert t[..e] == t[..e - |d|] + d;
    assert forall i :: 0 <= i < e ==> t[..e][..i] == t[..i];
  }

  lemma TailMeans(b: seq<byte>, i: nat, u: seq<byte>)
    requires 0 < |b| && 13 !in b
    ensures Means(b, Control(PartDataAlmostEnd, i), u, ReadTail(b, u))
    decreases |u|, 0
  {
    var m := Control(PartDataAlmostEnd, i);
    if u == [] {
      MeansNothing(b, m);
    } else if u[0] == 45 {
      HyphenMeans(b, i, u);
    } else if u[0] == 13 {
      var n, k := Control(PartDataEnd, i), Control(HeaderFieldStart, i);
      if LineFeed(u, 0) {
        LeadsTwo(b, m, 13, n, 10, k, [PartBegin]);
        HeadersMean(b, i, u[2..]);
        MeansThen(b, m, [13, 10], k, [PartBegin], u[2..], ReadHeaders(b, u[2..]), u);
      } else {
        LeadsOne(b, m, 13, n, []);
        RefusedOrEnd(b, n, u[1..]);
        MeansOn(b, m, [13], n, u[1..], Reading([], |u| - 1), u);
      }
    } else {
      MeansRefused(b, m, u);
    }
  }

  /** What must be a certain byte is not. */
  lemma RefusedOrEnd(b: seq<byte>, m: Control, s: seq<byte>)
    requires ValidControl(b, m) && (s != [] ==> Next(b, m, s[0]).Reject?)
    ensures Means(b, m, s, Reading([], |s|))
  {
    hide Next;
  }

  lemma HyphenMeans(b: seq<byte>, i: nat, u: seq<byte>)
    requires 0 < |b| && u != [] && u[0] == 45
    ensures Means(b, Control(PartDataAlmostEnd, i), u, ReadTail(b, u))
  {
    var m, n, k := Control(PartDataAlmostEnd, i), Control(PartDataFinalHyphen, i), Control(End, i);
    LeadsOne(b, m, 45, n, []);
    if |u| > 1 && u[1] == 45 {
      LeadsTwo(b, m, 45, n, 45, k, [BodyEnd]);
      EndMeans(b, i, u[2..]);
      MeansThen(b, m, [45, 45], k, [BodyEnd], u[2..], Reading([], 0), u);
    } else {
      RefusedOrEnd(b, n, u[1..]);
      MeansOn(b, m, [45], n, u[1..], Reading([], |u| - 1), u);
    }
  }

  lemma {:induction false} EndMeans(b: seq<byte>, i: nat, u: seq<byte>)
    requires 0 < |b|
    ensures Means(b, Control(End, i), u, Reading([], 0))
    decreases |u|
  {
    if u != [] {
      EndMeans(b, i, u[1..]);
    }
  }

  // ----- Headers -----

  lemma PartMeans(b: seq<byte>, i: nat, t: seq<byte>)
    requires 0 < |b| && 13 !in b
    ensures Means(b, Control(PartDataStart, i), t, ReadPart(b, t))
    decreases |t|, 2
  {
    if t == [] {
      MeansNothing(b, Control(PartDataStart, i));
    } else {
      DataMeans(b, i, t);
      MeansAgain(b, Control(PartDataStart, i), Control(PartData, i), [HeadersComplete], t, ReadData(b, t));
    }
  }

  lemma {:induction false} OpenValueMeans(b: seq<byte>, m: Control, value: seq<byte>)
    requires 0 < |b| && 13 !in value && m.state in {HeaderValueStart, HeaderValue}
    ensures Means(b, m, value, Reading([], 0))
    decreases |value|
  {
    if value != [] {
      OpenValueMeans(b, Next(b, m, value[0]).next, value[1..]);
    }
  }

  lemma ValueMeans(b: seq<byte>, i: nat, t: seq<byte>)
    requires 0 < |b| && 13 !in b
    ensures Means(b, Control(HeaderValueStart, i), t, ReadValue(b, t))
    decreases |t|, 0
  {
    var p := LineEnd(t);
    if p == |t| {
      assert t[..p] == t;
      OpenValueMeans(b, Control(HeaderValueStart, i), t);
    } else {
      if LineFeed(t, p) {
        HeadersMean(b, i, t[p + 2..]);
      }
      LineEndMeans(b, i, t, p);
    }
  }

  lemma LineFeedNext(b: seq<byte>, i: nat, c: byte)
    requires 0 < |b|
    ensures var line := Control(HeaderValueAlmostDone, i);
      ValidControl(b, line) &&
      Next(b, line, c) == if c == 10 then Accept(Control(HeaderFieldStart, i), []) else Reject(line)
  {
  }

  /** Behind the carriage return of a header line. */
  lemma FeedMeans(b: seq<byte>, i: nat, u: seq<byte>)
    requires 0 < |b|
    requires u != [] && u[0] == 10 ==> Means(b, Control(HeaderFieldStart, i), u[1..], ReadHeaders(b, u[1..]))
    ensures Means(b, Control(HeaderValueAlmostDone, i), u,
                  if u != [] && u[0] == 10 then ReadHeaders(b, u[1..]) else Reading([], |u|))
  {
    var line, next := Control(HeaderValueAlmostDone, i), Control(HeaderFieldStart, i);
    hide Leads, Means, Run, ReadHeaders, Next, ValidControl;
    LineFeedNext(b, i, if u == [] then 0 else u[0]);
    if u != [] && u[0] == 10 {
      LeadsOne(b, line, 10, next, []);
      MeansOn(b, line, [10], next, u[1..], ReadHeaders(b, u[1..]), u);
    } else {
      RefusedOrEnd(b, line, u);
    }
  }

  /** The end of a header line. */
  lemma LineEndMeans(b: seq<byte>, i: nat, t: seq<byte>, p: nat)
    requires 0 < |b| && p < |t| && t[p] == 13 && 13 !in t[..p]
    requires LineFeed(t, p) ==> Means(b, Control(HeaderFieldStart, i), t[p + 2..], ReadHeaders(b, t[p + 2..]))
    ensures Means(b, Control(HeaderValueStart, i), t,
                  if LineFeed(t, p) then ReadHeaders(b, t[p + 2..]) else Reading([], |t| - p - 1))
  {
    var m, line, u := Control(HeaderValueStart, i), Control(HeaderValueAlmostDone, i), t[p + 1..];
    hide Leads, Means, ReadHeaders;
    assert u != [] ==> u[1..] == t[p + 2..] && u[0] == t[p + 1];
    FeedMeans(b, i, u);
    ValueLineLeads(b, i, t[..p]);
    MeansOn(b, m, t[..p] + [13], line, u,
            if u != [] && u[0] == 10 then ReadHeaders(b, u[1..]) else Reading([], |u|), t);
  }

  /** Behind a header name. */
  lemma FieldMeans(b: seq<byte>, i: nat, t: seq<byte>)
    requires 0 < |b| && 13 !in b && NameLength(t) == 0
    ensures Means(b, Control(HeaderField, i), t, ReadField(b, t))
    decreases |t|, 3
  {
    var m := Control(HeaderField, i);
    if t == [] {
      MeansNothing(b, m);
    } else if t[0] == 13 {
      if LineFeed(t, 0) {
        PartMeans(b, i, t[2..]);
      }
      BlankLineMeans(b, i, t);
    } else if t[0] == 58 {
      ValueMeans(b, i, t[1..]);
      ColonMeans(b, i, t);
    } else {
      DataMeans(b, i, t);
      hide Run;
      MeansAgain(b, m, Control(PartData, i), [HeadersComplete], t, ReadData(b, t));
    }
  }

  lemma BlankLineMeans(b: seq<byte>, i: nat, t: seq<byte>)
    requires 0 < |b| && t != [] && t[0] == 13
    requires LineFeed(t, 0) ==> Means(b, Control(PartDataStart, i), t[2..], ReadPart(b, t[2..]))
    ensures Means(b, Control(HeaderField, i), t, ReadField(b, t))
  {
    var m, n := Control(HeaderField, i), Control(HeadersAlmostDone, i);
    hide Leads, Means, Run, ReadPart;
    if LineFeed(t, 0) {
      LeadsTwo(b, m, 13, n, 10, Control(PartDataStart, i), []);
      MeansOn(b, m, [13, 10], Control(PartDataStart, i), t[2..], ReadPart(b, t[2..]), t);
    } else {
      LeadsOne(b, m, 13, n, []);
      RefusedOrEnd(b, n, t[1..]);
      MeansOn(b, m, [13], n, t[1..], Reading([], |t| - 1), t);
    }
  }

  lemma ColonMeans(b: seq<byte>, i: nat, t: seq<byte>)
    requires 0 < |b| && t != [] && t[0] == 58 && Means(b, Control(HeaderValueStart, i), t[1..], ReadValue(b, t[1..]))
    ensures Means(b, Control(HeaderField, i), t, ReadField(b, t))
  {
    var m := Control(HeaderField, i);
    hide Leads, Means, Run, ReadValue;
    LeadsOne(b, m, 58, Control(HeaderValueStart, i), []);
    MeansOn(b, m, [58], Control(HeaderValueStart, i), t[1..], ReadValue(b, t[1..]), t);
  }

  lemma HeadersMean(b: seq<byte>, i: nat, t: seq<byte>)
    requires 0 < |b| && 13 !in b
    ensures Means(b, Control(HeaderFieldStart, i), t, ReadHeaders(b, t))
    decreases |t|, 4
  {
    var f, n := Control(HeaderField, i), NameLength(t);
    NameOver(t);
    FieldMeans(b, i, t[n..]);
    NamePassed(b, i, t);
  }

  lemma NamePassed(b: seq<byte>, i: nat, t: seq<byte>)
    requires 0 < |b|
    requires var n := NameLength(t); Means(b, Control(HeaderField, i), t[n..], ReadField(b, t[n..]))
    ensures Means(b, Control(HeaderFieldStart, i), t, ReadHeaders(b, t))
  {
    var f, n := Control(HeaderField, i), NameLength(t);
    NameLeads(b, i, t[..n]);
    hide Leads, Means, Run, ReadField, NameLength;
    MeansOn(b, f, t[..n], f, t[n..], ReadField(b, t[n..]), t);
    StartOfField(b, i, t, ReadHeaders(b, t));
  }

  lemma StartOfField(b: seq<byte>, i: nat, t: seq<byte>, r: Reading)
    requires Means(b, Control(HeaderField, i), t, r)
    ensures Means(b, Control(HeaderFieldStart, i), t, r)
  {
    assert t != [] ==> Next(b, Control(HeaderFieldStart, i), t[0]) == Next(b, Control(HeaderField, i), t[0]);
    hide Next;
  }

  lemma NameOver(t: seq<byte>)
    ensures NameLength(t[NameLength(t)..]) == 0
  {
  }

  // ----- The whole body -----

  lemma {:induction false} LineMeans(b: seq<byte>, k: nat, s: seq<byte>)
    requires 0 < |b| && 13 !in b && k <= |b| + 1
    ensures var line := (b + [13, 10])[k..];
      var n := Matched(line, s);
      Means(b, Control(StartBoundary, k), s,
            if n < |line| then Reading([], |s| - n) else Told([PartBegin], ReadHeaders(b, s[n..])))
    decreases |s|
  {
    var m, all := Control(StartBoundary, k), b + [13, 10];
    var line := all[k..];
    if s == [] {
      MeansNothing(b, m);
    } else if s[0] != all[k] {
      MeansRefused(b, m, s);
    } else if k == |b| + 1 {
      assert line == [10] && line[1..] == [] && Matched([], s[1..]) == 0;
      LeadsOne(b, m, 10, Control(HeaderFieldStart, 0), [PartBegin]);
      HeadersMean(b, 0, s[1..]);
      MeansThen(b, m, [10], Control(HeaderFieldStart, 0), [PartBegin], s[1..], ReadHeaders(b, s[1..]), s);
    } else {
      assert line[1..] == all[k + 1..] && line[0] == all[k];
      var n := Matched(line[1..], s[1..]);
      assert Matched(line, s) == 1 + n && s[1..][n..] == s[1 + n..];
      LeadsOne(b, m, s[0], Control(StartBoundary, k + 1), []);
      LineMeans(b, k + 1, s[1..]);
      var r := if n < |line[1..]| then Reading([], |s[1..]| - n) else Told([PartBegin], ReadHeaders(b, s[1..][n..]));
      MeansOn(b, m, [s[0]], Control(StartBoundary, k + 1), s[1..], r, s);
    }
  }

  /** Every input, well formed or not, is read as the grammar says: the same parts are
      told, and as much is left where it is malformed. */
  lemma RunMeans(b: seq<byte>, s: seq<byte>)
    requires 0 < |b| && 13 !in b
    ensures var o := Run(b, Control(Start, 0), s); o.tokens == ReadBody(b, s).tokens && o.left == ReadBody(b, s).left
  {
    LineMeans(b, 0, s);
    assert (b + [13, 10])[0..] == b + [13, 10];
    assert s != [] ==> Next(b, Control(Start, 0), s[0]) == Next(b, Control(StartBoundary, 0), s[0]);
    hide Next;
  }

  /** However an input arrives, a fresh parser whose callbacks succeed tells what the
      grammar says, and accepts the input exactly if nothing of it is malformed. */
  method ReadFragments(boundary: seq<byte>, fragments: seq<seq<byte>>) returns (events: seq<Event>, accepted: bool)
    requires 0 < |boundary| && 13 !in boundary
    ensures Tokens(events) == ReadBody(boundary, Concat(fragments)).tokens
    ensures accepted <==> ReadBody(boundary, Concat(fragments)).left == 0
  {
    RunMeans(boundary, Concat(fragments));
    var p := new Parser(boundary, _ => true);
    accepted := Feed(p, fragments);
    events := p.events;
  }
}
