/** What a multipart/byteranges body means, one byte at a time: the states of the
    parser and the notifications each byte gives rise to. */
module MultipartSpec {
  import opened Bytes

  datatype State =
    | Start | StartBoundary
    | HeaderFieldStart | HeaderField | HeadersAlmostDone
    | HeaderValueStart | HeaderValue | HeaderValueAlmostDone
    | PartDataStart | PartData | PartDataAlmostBoundary | PartDataBoundary
    | PartDataAlmostEnd | PartDataEnd | PartDataFinalHyphen | End

  /** Notifications, with part data taken byte by byte so that it does not matter
      in which portions it was delivered. */
  datatype Token = Byte(b: byte) | PartBegin | HeadersComplete | PartEnd | BodyEnd

  datatype Control = Control(state: State, index: nat)

  datatype Verdict = Accept(next: Control, tokens: seq<Token>) | Reject(next: Control)

  const HYPHEN: byte := 45
  const COLON: byte := 58
  const SPACE: byte := 32

  predicate IsNameChar(c: byte) {
    c == HYPHEN || 65 <= c <= 90 || 97 <= c <= 122
  }

  function AsData(s: seq<byte>): (t: seq<Token>)
    ensures |t| == |s| && forall i :: 0 <= i < |s| ==> t[i] == Byte(s[i])
  {
    seq(|s|, i requires 0 <= i < |s| => Byte(s[i]))
  }

  /** A byte of part data: it is data unless it may start a delimiter. */
  function InData(index: nat, c: byte): Verdict {
    if c == CR then Accept(Control(PartDataAlmostBoundary, index), [])
    else Accept(Control(PartData, index), [Byte(c)])
  }

  function Prepend(t: seq<Token>, v: Verdict): Verdict {
    if v.Accept? then Accept(v.next, t + v.tokens) else v
  }

  predicate ValidControl(boundary: seq<byte>, m: Control) {
    && 0 < |boundary|
    && (m.state == StartBoundary ==> m.index <= |boundary| + 1)
    && (m.state == PartDataBoundary ==> m.index < |boundary|)
  }

  /** The first line: the boundary followed by CR LF. */
  function NextStart(boundary: seq<byte>, index: nat, c: byte): Verdict
    requires index <= |boundary| + 1
  {
    var here := Control(StartBoundary, index);
    if index == |boundary| then
      if c == CR then Accept(Control(StartBoundary, index + 1), []) else Reject(here)
    else if index == |boundary| + 1 then
      if c == LF then Accept(Control(HeaderFieldStart, 0), [PartBegin]) else Reject(here)
    else
      if c == boundary[index] then Accept(Control(StartBoundary, index + 1), []) else Reject(here)
  }

  function NextHeader(m: Control, c: byte): Verdict
    requires m.state in {HeaderFieldStart, HeaderField, HeadersAlmostDone, HeaderValueStart, HeaderValue,
                         HeaderValueAlmostDone}
  {
    match m.state
    case HeadersAlmostDone => if c == LF then Accept(m.(state := PartDataStart), []) else Reject(m)
    case HeaderValueAlmostDone => if c == LF then Accept(m.(state := HeaderFieldStart), []) else Reject(m)
    case HeaderValueStart =>
      if c == SPACE then Accept(m, [])
      else Accept(m.(state := if c == CR then HeaderValueAlmostDone else HeaderValue), [])
    case HeaderValue => Accept(m.(state := if c == CR then HeaderValueAlmostDone else HeaderValue), [])
    case _ =>
      if c == CR then Accept(m.(state := HeadersAlmostDone), [])
      else if c == COLON then Accept(m.(state := HeaderValueStart), [])
      else if IsNameChar(c) then Accept(m.(state := HeaderField), [])
      else Prepend([HeadersComplete], InData(m.index, c))
  }

  function NextData(boundary: seq<byte>, m: Control, c: byte): Verdict
    requires ValidControl(boundary, m) && m.state in {PartDataStart, PartData, PartDataAlmostBoundary, PartDataBoundary}
  {
    match m.state
    case PartDataStart => Prepend([HeadersComplete], InData(m.index, c))
    case PartData => InData(m.index, c)
    case PartDataAlmostBoundary =>
      if c == LF then Accept(Control(PartDataBoundary, 0), [])
      else Prepend([Byte(CR)], InData(m.index, c))
    case PartDataBoundary =>
      if c != boundary[m.index] then Prepend(AsData([CR, LF] + boundary[..m.index]), InData(m.index, c))
      else if m.index + 1 == |boundary| then Accept(Control(PartDataAlmostEnd, m.index + 1), [PartEnd])
      else Accept(Control(PartDataBoundary, m.index + 1), [])
  }

  function NextTail(m: Control, c: byte): Verdict
    requires m.state in {PartDataAlmostEnd, PartDataEnd, PartDataFinalHyphen, End}
  {
    match m.state
    case PartDataAlmostEnd =>
      if c == HYPHEN then Accept(m.(state := PartDataFinalHyphen), [])
      else if c == CR then Accept(m.(state := PartDataEnd), []) else Reject(m)
    case PartDataFinalHyphen => if c == HYPHEN then Accept(m.(state := End), [BodyEnd]) else Reject(m)
    case PartDataEnd => if c == LF then Accept(m.(state := HeaderFieldStart), [PartBegin]) else Reject(m)
    case End => Accept(m, [])
  }

  /** What one byte does. */
  function Next(boundary: seq<byte>, m: Control, c: byte): Verdict
    requires ValidControl(boundary, m)
  {
    match m.state
    case Start => NextStart(boundary, 0, c)
    case StartBoundary => NextStart(boundary, m.index, c)
    case HeaderFieldStart | HeaderField | HeadersAlmostDone
       | HeaderValueStart | HeaderValue | HeaderValueAlmostDone => NextHeader(m, c)
    case PartDataStart | PartData | PartDataAlmostBoundary | PartDataBoundary => NextData(boundary, m, c)
    case _ => NextTail(m, c)
  }

  lemma NextValid(boundary: seq<byte>, m: Control, c: byte)
    requires ValidControl(boundary, m)
    ensures ValidControl(boundary, Next(boundary, m, c).next)
  {
  }

  /** The result of a run: where it stopped, what was notified, and how many
      bytes were left because the body was malformed. */
  datatype Outcome = Outcome(end: Control, tokens: seq<Token>, left: nat)

  function Run(boundary: seq<byte>, m: Control, s: seq<byte>): (o: Outcome)
    requires ValidControl(boundary, m)
    ensures ValidControl(boundary, o.end) && o.left <= |s|
    decreases |s|
  {
    if s == [] then Outcome(m, [], 0)
    else
      NextValid(boundary, m, s[0]);
      var v := Next(boundary, m, s[0]);
      if v.Reject? then Outcome(v.next, [], |s|)
      else
        var o := Run(boundary, v.next, s[1..]);
        o.(tokens := v.tokens + o.tokens)
  }

  /** Running on two pieces one after the other is running on the whole, unless
      the first piece is malformed. */
  lemma {:induction false} RunAppend(boundary: seq<byte>, m: Control, a: seq<byte>, b: seq<byte>)
    requires ValidControl(boundary, m)
    ensures var o := Run(boundary, m, a);
      if o.left > 0 then Run(boundary, m, a + b) == o.(left := o.left + |b|)
      else var p := Run(boundary, o.end, b); Run(boundary, m, a + b) == Outcome(p.end, o.tokens + p.tokens, p.left)
    decreases |a|
  {
    hide Next, ValidControl;
    if a == [] {
      assert a + b == b;
    } else {
      NextValid(boundary, m, a[0]);
      var v := Next(boundary, m, a[0]);
      assert (a + b)[1..] == a[1..] + b;
      if v.Accept? {
        RunAppend(boundary, v.next, a[1..], b);
        var o := Run(boundary, v.next, a[1..]);
        assert v.tokens + (o.tokens + Run(boundary, o.end, b).tokens)
            == (v.tokens + o.tokens) + Run(boundary, o.end, b).tokens;
      }
    }
  }

  lemma RunStep(boundary: seq<byte>, m: Control, s: seq<byte>)
    requires ValidControl(boundary, m) && s != [] && Next(boundary, m, s[0]).Accept?
    ensures var v := Next(boundary, m, s[0]);
      ValidControl(boundary, v.next) && var o := Run(boundary, v.next, s[1..]);
      Run(boundary, m, s) == Outcome(o.end, v.tokens + o.tokens, o.left)
  {
    NextValid(boundary, m, s[0]);
    hide Next, ValidControl;
  }

  lemma RegroupTokens(a: seq<Token>, b: seq<Token>, c: seq<Token>)
    ensures (a + b) + c == a + (b + c)
  {
  }

  /** A byte looked at again in another state, after some tokens. */
  lemma RunAgain(boundary: seq<byte>, m: Control, m1: Control, held: seq<Token>, s: seq<byte>)
    requires ValidControl(boundary, m) && ValidControl(boundary, m1) && s != []
    requires Next(boundary, m1, s[0]).Accept? && Next(boundary, m, s[0]) == Prepend(held, Next(boundary, m1, s[0]))
    ensures var o := Run(boundary, m1, s); Run(boundary, m, s) == Outcome(o.end, held + o.tokens, o.left)
  {
    RunStep(boundary, m, s);
    RunStep(boundary, m1, s);
    hide Next, ValidControl, Run;
    var w := Next(boundary, m1, s[0]);
    RegroupTokens(held, w.tokens, Run(boundary, w.next, s[1..]).tokens);
  }
}
