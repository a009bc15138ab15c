/** A download as the handler sees it: the answers of one request, from the header
    to the end of the transfer. */
module DeltaSession {
  import opened Bytes
  import opened MultipartSpec
  import opened DeltaSpec

  datatype AnswerKind = HeaderAnswer | DataAnswer | CompletedAnswer | ErrorAnswer

  datatype RangeType = NoneRange | SingleRange | MultipartRange(boundary: seq<byte>)

  /** A packet from the downloader; range is what its header text announces, if anything. */
  datatype Answer = Answer(kind: AnswerKind, data: seq<byte>, range: RangeType)

  /** No answer from a up to b is an error. */
  predicate NoError(answers: seq<Answer>, a: nat, b: nat)
    requires b <= |answers|
  {
    forall i :: a <= i < b ==> answers[i].kind != ErrorAnswer
  }

  /** The transfer that ends before answer p was completed. */
  predicate CompletedAt(answers: seq<Answer>, p: nat) {
    0 < p <= |answers| && answers[p - 1].kind == CompletedAnswer
  }

  /** The same byte, or a capital and its small letter. */
  predicate SameLetter(a: byte, b: byte) {
    a == b || (97 <= a <= 122 && b == a - 32) || (97 <= b <= 122 && a == b - 32)
  }

  /** The boundary stands at offset i of the packet, ignoring case. */
  ghost predicate BoundaryAt(packet: seq<byte>, boundary: seq<byte>, i: nat) {
    i + |boundary| <= |packet| && forall j :: 0 <= j < |boundary| ==> SameLetter(packet[i + j], boundary[j])
  }

  datatype DwlState =
    NotRunning | WaitingForHeaders | WaitingForBoundary | WaitingForFirstData | WaitingForData | EndTransfer

  function DwlRank(s: DwlState): nat {
    match s
    case EndTransfer => 0
    case WaitingForData => 1
    case WaitingForFirstData => 2
    case WaitingForBoundary => 3
    case WaitingForHeaders => 4
    case NotRunning => 5
  }

  // ----- Errors stay -----

  lemma {:induction false} OnTokensAppend(w: World, source: nat -> Attempt, h: Hand, a: seq<Token>, b: seq<Token>)
    requires Shape(w, h)
    ensures OnTokens(w, source, h, a + b) == OnTokens(w, source, OnTokens(w, source, h, a), b)
    decreases |a|
  {
    if a == [] {
      assert a + b == b;
    } else {
      OnTokenShape(w, source, h, a[0]);
      OnTokensAppend(w, source, OnToken(w, source, h, a[0]), a[1..], b);
      assert (a + b)[1..] == a[1..] + b;
    }
  }

  lemma {:induction false} Sticky(w: World, source: nat -> Attempt, h: Hand, ts: seq<Token>)
    requires Shape(w, h)
    ensures h.failed ==> OnTokens(w, source, h, ts).failed
    ensures h.overrun ==> OnTokens(w, source, h, ts).overrun
    decreases |ts|
  {
    if ts != [] {
      OnTokenShape(w, source, h, ts[0]);
      StickyToken(w, source, h, ts[0]);
      Sticky(w, source, OnToken(w, source, h, ts[0]), ts[1..]);
    }
  }

  lemma StickyToken(w: World, source: nat -> Attempt, h: Hand, t: Token)
    requires Shape(w, h)
    ensures h.failed ==> OnToken(w, source, h, t).failed
    ensures h.overrun ==> OnToken(w, source, h, t).overrun
  {
    if t == PartEnd {
      StickyCopy(w, source, h.(ready := false, buffer := []));
    }
  }

  lemma {:induction false} StickyCopy(w: World, source: nat -> Attempt, h: Hand)
    requires h.chunk <= |w.chunks|
    ensures CopyExisting(w, source, h).0.failed == h.failed && CopyExisting(w, source, h).0.overrun == h.overrun
    decreases |w.chunks| - h.chunk
  {
    if h.chunk < |w.chunks| && w.chunks[h.chunk].valid {
      var c := w.chunks[h.chunk].content;
      if c == [] {
        StickyCopy(w, source, h.(chunk := h.chunk + 1));
      } else if source(h.clock).SrcOk? {
        StickyCopy(w, source, h.(chunk := h.chunk + 1, out := h.out + c, clock := h.clock + 1));
      }
    }
  }

  lemma {:induction false} OnTokensData(w: World, source: nat -> Attempt, h: Hand, data: seq<byte>)
    requires Shape(w, h)
    ensures OnTokens(w, source, h, AsData(data)) == OnBytes(w, h, data)
    decreases |data|
  {
    if data != [] {
      OnTokensData(w, source, OnByte(w, h, data[0]), data[1..]);
      assert AsData(data)[1..] == AsData(data[1..]);
    }
  }

  lemma OnTokensOne(w: World, source: nat -> Attempt, h: Hand, t: Token)
    requires Shape(w, h)
    ensures OnTokens(w, source, h, [t]) == OnToken(w, source, h, t)
  {
    OnTokenShape(w, source, h, t);
    assert [t][1..] == [];
  }

  lemma StickyBytes(w: World, source: nat -> Attempt, h: Hand, data: seq<byte>)
    requires Shape(w, h)
    ensures h.failed ==> OnBytes(w, h, data).failed
    ensures h.overrun ==> OnBytes(w, h, data).overrun
  {
    OnTokensData(w, source, h, data);
    Sticky(w, source, h, AsData(data));
  }

  // ----- One request -----

  /** The answer to a request: the number of header lines, what they announce, what
      the first packet holds before the body, and the packets of the body. */
  datatype Session = Session(headers: nat, range: RangeType, junk: seq<byte>, packets: seq<seq<byte>>) {
    function Length(): nat { headers + |packets| + 1 }

    /** Only a body with a boundary may have something before it. */
    predicate WellFormed() {
      0 < |packets| && match range
        case NoneRange => false
        case SingleRange => junk == []
        case MultipartRange(boundary) => boundary != []
    }
  }

  ghost predicate FirstBoundary(packet: seq<byte>, boundary: seq<byte>, at: nat) {
    at < |packet| && BoundaryAt(packet, boundary, at) && forall i: nat :: i < at ==> !BoundaryAt(packet, boundary, i)
  }

  /** What n answers from p on announce: the last announcement counts. */
  function Announced(answers: seq<Answer>, p: nat, n: nat): RangeType
    requires p + n <= |answers|
  {
    if n == 0 then NoneRange
    else if answers[p + n - 1].range != NoneRange then answers[p + n - 1].range
    else Announced(answers, p, n - 1)
  }

  function Raw(s: Session, j: nat): seq<byte>
    requires j < |s.packets|
  {
    if j == 0 then s.junk + s.packets[0] else s.packets[j]
  }

  /** The downloader sends header lines, packets and end of transfer from answer p on. */
  ghost predicate Sends(answers: seq<Answer>, p: nat, s: Session) {
    && s.WellFormed() && p + s.Length() <= |answers|
    && (forall i :: p <= i < p + s.headers ==> answers[i].kind == HeaderAnswer)
    && Announced(answers, p, s.headers) == s.range
    && (forall j :: 0 <= j < |s.packets| ==> IsData(answers, p, s, j))
    && answers[p + s.headers + |s.packets|].kind == CompletedAnswer
    && (s.range.MultipartRange? ==> FirstBoundary(s.junk + s.packets[0], s.range.boundary, |s.junk|))
  }

  predicate IsData(answers: seq<Answer>, p: nat, s: Session, j: nat)
    requires 0 <= j < |s.packets| && p + s.Length() <= |answers|
  {
    answers[p + s.headers + j].kind == DataAnswer && answers[p + s.headers + j].data == Raw(s, j)
  }

  /** What the parser makes of the first j packets. */
  ghost function Fed(s: Session, j: nat): Outcome
    requires s.WellFormed() && s.range.MultipartRange? && j <= |s.packets|
  {
    Run(s.range.boundary, Control(Start, 0), Concat(s.packets[..j]))
  }

  /** The notifications of the first j packets; a single range does without the parser. */
  ghost function Heard(s: Session, j: nat): seq<Token>
    requires s.WellFormed() && j <= |s.packets|
  {
    if s.range.MultipartRange? then Fed(s, j).tokens
    else if j == 0 then [] else [HeadersComplete] + AsData(Concat(s.packets[..j]))
  }

  ghost function Result(w: World, source: nat -> Attempt, h: Hand, s: Session, j: nat): Hand
    requires Shape(w, h) && s.WellFormed() && j <= |s.packets|
  {
    OnTokens(w, source, h, Heard(s, j))
  }

  /** No buffer is ready. */
  function Idle(h: Hand): Hand { h.(ready := false, buffer := []) }

  /** After the transfer.  A parser has already told the end of the last range. */
  ghost function Final(w: World, source: nat -> Attempt, h: Hand, s: Session): Hand
    requires Shape(w, h) && s.WellFormed()
  {
    Idle(OnEnd(w, source, s.range, Result(w, source, h, s, |s.packets|)))
  }

  function OnEnd(w: World, source: nat -> Attempt, range: RangeType, h: Hand): Hand
    requires Shape(w, h)
  {
    if range == SingleRange then OnToken(w, source, h, PartEnd) else h
  }

  /** The body is accepted to its end, and every chunk in it is right. */
  ghost predicate Fine(w: World, source: nat -> Attempt, h: Hand, s: Session) {
    && Shape(w, h) && s.WellFormed()
    && (s.range.MultipartRange? ==> Fed(s, |s.packets|).left == 0)
    && var r := Result(w, source, h, s, |s.packets|); !r.failed && !r.overrun
  }

  /** The body is accepted to its end, and has no data behind the last chunk. */
  ghost predicate Fit(w: World, source: nat -> Attempt, h: Hand, s: Session) {
    && Shape(w, h) && s.WellFormed()
    && (s.range.MultipartRange? ==> Fed(s, |s.packets|).left == 0)
    && !Result(w, source, h, s, |s.packets|).overrun
  }

  lemma FineFits(w: World, source: nat -> Attempt, h: Hand, s: Session)
    ensures Fine(w, source, h, s) ==> Fit(w, source, h, s)
  {
  }

  lemma StartValid(boundary: seq<byte>)
    requires boundary != []
    ensures ValidControl(boundary, Control(Start, 0))
  {
  }

  lemma Parts(s: Session, j: nat)
    requires j <= |s.packets|
    ensures Concat(s.packets) == Concat(s.packets[..j]) + Concat(s.packets[j..])
  {
    ConcatAppend(s.packets[..j], s.packets[j..]);
    assert s.packets == s.packets[..j] + s.packets[j..];
  }

  lemma NeverStuck(s: Session, j: nat)
    requires s.WellFormed() && s.range.MultipartRange? && j <= |s.packets| && Fed(s, |s.packets|).left == 0
    ensures Fed(s, j).left == 0
  {
    StartValid(s.range.boundary);
    Parts(s, j);
    assert s.packets[..|s.packets|] == s.packets;
    RunAppend(s.range.boundary, Control(Start, 0), Concat(s.packets[..j]), Concat(s.packets[j..]));
  }

  /** What is heard of some packets is heard first. */
  lemma HeardPart(s: Session, j: nat) returns (rest: seq<Token>)
    requires s.WellFormed() && j <= |s.packets| && (s.range.MultipartRange? ==> Fed(s, |s.packets|).left == 0)
    ensures Heard(s, |s.packets|) == Heard(s, j) + rest
  {
    var a, b := Concat(s.packets[..j]), Concat(s.packets[j..]);
    Parts(s, j);
    assert s.packets[..|s.packets|] == s.packets;
    if s.range.MultipartRange? {
      StartValid(s.range.boundary);
      NeverStuck(s, j);
      RunAppend(s.range.boundary, Control(Start, 0), a, b);
      rest := Run(s.range.boundary, Fed(s, j).end, b).tokens;
    } else if j == 0 {
      rest := Heard(s, |s.packets|);
      assert [] + rest == rest;
    } else {
      rest := AsData(b);
      DataAfter(a, b);
    }
  }

  lemma DataAfter(a: seq<byte>, b: seq<byte>)
    ensures [HeadersComplete] + AsData(a + b) == ([HeadersComplete] + AsData(a)) + AsData(b)
  {
  }

  lemma NeverFails(w: World, source: nat -> Attempt, h: Hand, s: Session, j: nat)
    requires Fit(w, source, h, s) && j <= |s.packets|
    ensures !Result(w, source, h, s, j).overrun
    ensures Fine(w, source, h, s) ==> !Result(w, source, h, s, j).failed
  {
    var rest := HeardPart(s, j);
    OnTokensAppend(w, source, h, Heard(s, j), rest);
    Sticky(w, source, Result(w, source, h, s, j), rest);
  }

  /** Packet by packet the parser goes on. */
  lemma FedNext(w: World, source: nat -> Attempt, h: Hand, s: Session, j: nat)
    requires Fit(w, source, h, s) && s.range.MultipartRange? && j < |s.packets|
    ensures ValidControl(s.range.boundary, Fed(s, j).end)
    ensures var o := Run(s.range.boundary, Fed(s, j).end, s.packets[j]);
      && Fed(s, j + 1).end == o.end
      && Result(w, source, h, s, j + 1) == OnTokens(w, source, Result(w, source, h, s, j), o.tokens)
  {
    var m := Control(Start, 0);
    StartValid(s.range.boundary);
    NeverStuck(s, j);
    NeverStuck(s, j + 1);
    ConcatTake(s.packets, j);
    RunAppend(s.range.boundary, m, Concat(s.packets[..j]), s.packets[j]);
    OnTokensAppend(w, source, h, Fed(s, j).tokens, Run(s.range.boundary, Fed(s, j).end, s.packets[j]).tokens);
  }

  /** Where the data of a packet without a parser starts. */
  function Opened(w: World, source: nat -> Attempt, first: bool, h: Hand): (r: Hand)
    requires Shape(w, h)
    ensures Shape(w, r)
  {
    if first then OnToken(w, source, h, HeadersComplete) else h
  }

  lemma SingleNext(w: World, source: nat -> Attempt, h: Hand, s: Session, j: nat)
    requires Fit(w, source, h, s) && s.range == SingleRange && j < |s.packets|
    ensures Result(w, source, h, s, j + 1)
         == OnBytes(w, Opened(w, source, j == 0, Result(w, source, h, s, j)), s.packets[j])
  {
    var data := AsData(s.packets[j]);
    ConcatTake(s.packets, j);
    if j == 0 {
      assert s.packets[..0] == [] && Concat(s.packets[..0]) == [] && [] + s.packets[0] == s.packets[0];
      OnTokensAppend(w, source, h, [HeadersComplete], data);
      OnTokensOne(w, source, h, HeadersComplete);
      OnTokensData(w, source, OnToken(w, source, h, HeadersComplete), s.packets[j]);
    } else {
      DataAfter(Concat(s.packets[..j]), s.packets[j]);
      OnTokensAppend(w, source, h, Heard(s, j), data);
      OnTokensData(w, source, Result(w, source, h, s, j), s.packets[j]);
    }
  }

  // ----- The steps of the download -----

  /** What asking for ranges and waiting for data does, from one state to the next. */
  ghost predicate Asked(possible: bool, answers: seq<Answer>, st: DwlState, pos: nat, range: RangeType,
                        packet: seq<byte>, st': DwlState, pos': nat, range': RangeType, packet': seq<byte>,
                        control': Control, ok: bool)
  {
    match st
    case NotRunning => ok == possible && st' == WaitingForHeaders && pos' == pos && range' == NoneRange
    case WaitingForHeaders =>
      pos < |answers| && answers[pos].kind != ErrorAnswer ==>
        && ok && pos' == pos + 1 && packet' == answers[pos].data
        && range' == (if answers[pos].kind == HeaderAnswer && answers[pos].range != NoneRange then answers[pos].range
                      else range)
        && st' == (if answers[pos].kind == DataAnswer then WaitingForBoundary else WaitingForHeaders)
    case WaitingForBoundary =>
      (match range
        case NoneRange => !ok
        case SingleRange => ok && st' == WaitingForFirstData && pos' == pos && range' == range && packet' == packet
        case MultipartRange(boundary) => boundary != [] ==>
          forall at: nat | FirstBoundary(packet, boundary, at) ::
            ok && st' == WaitingForFirstData && pos' == pos && range' == range && packet' == packet[at..] &&
            control' == Control(Start, 0))
    case _ => true
  }

  predicate Proper(range: RangeType, control: Control) {
    range.MultipartRange? ==> ValidControl(range.boundary, control)
  }

  /** What passing data on does.  A packet with a wrong chunk is refused, or leaves an error behind. */
  ghost predicate Passed(w: World, source: nat -> Attempt, answers: seq<Answer>, range: RangeType, st: DwlState,
                         pos: nat, packet: seq<byte>, control: Control, view: Hand, st': DwlState, pos': nat,
                         control': Control, view': Hand, ok: bool)
  {
    Proper(range, control) && Shape(w, view) ==>
      match st
      case WaitingForFirstData => Took(w, source, range, true, packet, control, view, st', control', view', ok) &&
          pos' == pos
      case WaitingForData =>
        pos < |answers| && answers[pos].kind != ErrorAnswer ==>
          && pos' == pos + 1
          && (if answers[pos].kind == CompletedAnswer then ok && st' == EndTransfer && view' == view
              else Took(w, source, range, false, answers[pos].data, control, view, st', control', view', ok))
      case _ => true
  }

  ghost predicate Took(w: World, source: nat -> Attempt, range: RangeType, first: bool, packet: seq<byte>,
                       control: Control, view: Hand, st': DwlState, control': Control, view': Hand, ok: bool)
    requires Proper(range, control) && Shape(w, view)
  {
    if range.MultipartRange? then
      var o := Run(range.boundary, control, packet);
      var r := OnTokens(w, source, view, o.tokens);
      && (!r.failed && !r.overrun ==> ok && st' == WaitingForData && control' == o.end && view' == r)
      && (r.failed && !r.overrun ==> !ok || view'.failed)
    else
      var r := OnBytes(w, Opened(w, source, first, view), packet);
      && (!r.failed && !r.overrun ==> ok && st' == WaitingForData && view' == r)
      && (r.failed && !r.overrun ==> !ok || view'.failed)
  }

  /** After j packets of the body. */
  ghost predicate Stands(w: World, source: nat -> Attempt, h: Hand, s: Session, j: nat, control: Control, view: Hand)
    requires Fit(w, source, h, s) && j <= |s.packets|
  {
    (s.range.MultipartRange? ==> control == Fed(s, j).end) && view == Result(w, source, h, s, j)
  }

  /** Where the download of a session stands. */
  ghost predicate Phase(w: World, source: nat -> Attempt, answers: seq<Answer>, p0: nat, s: Session, h: Hand,
                        st: DwlState, pos: nat, range: RangeType, packet: seq<byte>, control: Control, view: Hand)
  {
    && Fit(w, source, h, s) && Sends(answers, p0, s)
    && match st
       case NotRunning => pos == p0 && view == h
       case WaitingForHeaders => p0 <= pos <= p0 + s.headers && view == h && range == Announced(answers, p0, pos - p0)
       case WaitingForBoundary => pos == p0 + s.headers + 1 && range == s.range && packet == s.junk + s.packets[0] &&
           view == h
       case WaitingForFirstData => pos == p0 + s.headers + 1 && range == s.range && packet == s.packets[0] &&
           Stands(w, source, h, s, 0, control, view)
       case WaitingForData =>
         && p0 + s.headers < pos <= p0 + s.headers + |s.packets| && range == s.range
         && Stands(w, source, h, s, pos - p0 - s.headers, control, view)
       case EndTransfer => pos == p0 + s.Length() && range == s.range && view == Result(w, source, h, s, |s.packets|)
  }

  lemma PhaseAsked(w: World, source: nat -> Attempt, answers: seq<Answer>, p0: nat, s: Session, h: Hand, possible: bool,
                   st: DwlState, pos: nat, range: RangeType, packet: seq<byte>, control: Control, view: Hand,
                   st': DwlState, pos': nat, range': RangeType, packet': seq<byte>, control': Control, ok: bool)
    requires Phase(w, source, answers, p0, s, h, st, pos, range, packet, control, view)
    requires st in {NotRunning, WaitingForHeaders, WaitingForBoundary}
    requires Asked(possible, answers, st, pos, range, packet, st', pos', range', packet', control', ok)
    ensures (possible ==> ok) && Phase(w, source, answers, p0, s, h, st', pos', range', packet', control', view)
  {
    assert s.WellFormed() by { PhaseFit(w, source, h, s); }
    hide Fit, Sends, Stands, Result, Fed, FirstBoundary, Announced;
    if st == WaitingForBoundary {
      hide Asked;
      FedNothing(w, source, h, s);
      BoundaryAsked(answers, possible, p0, s, pos, packet, st', pos', range', packet', control', ok);
      hide Phase;
      PhaseFirst(w, source, answers, p0, s, h, pos, packet', control');
    } else if st == WaitingForHeaders {
      HeadersNext(answers, p0, s, pos);
    } else {
      HeadersStart(answers, p0, s);
    }
  }

  lemma HeadersStart(answers: seq<Answer>, p0: nat, s: Session)
    requires Sends(answers, p0, s)
    ensures p0 + s.headers <= |answers| && Announced(answers, p0, 0) == NoneRange
  {
  }

  /** What follows a header line: another one, or the first data. */
  lemma HeadersNext(answers: seq<Answer>, p0: nat, s: Session, pos: nat)
    requires s.WellFormed() && Sends(answers, p0, s) && p0 <= pos <= p0 + s.headers
    ensures pos < |answers|
    ensures pos < p0 + s.headers ==>
      && answers[pos].kind == HeaderAnswer
      && Announced(answers, p0, pos + 1 - p0)
        == (if answers[pos].range != NoneRange then answers[pos].range else Announced(answers, p0, pos - p0))
    ensures pos == p0 + s.headers ==>
      && answers[pos].kind == DataAnswer && answers[pos].data == s.junk + s.packets[0]
      && Announced(answers, p0, pos - p0) == s.range
  {
    assert IsData(answers, p0, s, 0);
    hide FirstBoundary;
  }

  lemma BoundaryAsked(answers: seq<Answer>, possible: bool, p0: nat, s: Session, pos: nat, packet: seq<byte>,
                      st': DwlState, pos': nat, range': RangeType, packet': seq<byte>, control': Control, ok: bool)
    requires s.WellFormed() && Sends(answers, p0, s) && packet == s.junk + s.packets[0]
    requires Asked(possible, answers, WaitingForBoundary, pos, s.range, packet, st', pos', range', packet', control',
                   ok)
    ensures ok && st' == WaitingForFirstData && pos' == pos && range' == s.range && packet' == s.packets[0]
    ensures s.range.MultipartRange? ==> control' == Control(Start, 0)
  {
    BoundaryLeft(s, packet);
    assert s.range.MultipartRange? ==> FirstBoundary(packet, s.range.boundary, |s.junk|);
    hide Sends, FirstBoundary;
  }

  lemma PhaseFirst(w: World, source: nat -> Attempt, answers: seq<Answer>, p0: nat, s: Session, h: Hand, pos: nat,
                   packet: seq<byte>, control: Control)
    requires Fit(w, source, h, s) && Sends(answers, p0, s) && s.WellFormed() && pos == p0 + s.headers + 1
    requires Stands(w, source, h, s, 0, Control(Start, 0), h) && packet == s.packets[0]
    requires s.range.MultipartRange? ==> control == Control(Start, 0)
    ensures Phase(w, source, answers, p0, s, h, WaitingForFirstData, pos, s.range, packet, control, h)
  {
    hide Fit, Sends, Result, Fed;
  }

  lemma BoundaryLeft(s: Session, packet: seq<byte>)
    requires s.WellFormed() && packet == s.junk + s.packets[0]
    ensures packet[|s.junk|..] == s.packets[0] && (s.range == SingleRange ==> packet == s.packets[0])
  {
  }

  lemma PhasePassed(w: World, source: nat -> Attempt, answers: seq<Answer>, p0: nat, s: Session, h: Hand, st: DwlState,
                    pos: nat, range: RangeType, packet: seq<byte>, control: Control, view: Hand, st': DwlState,
                    pos': nat, packet': seq<byte>, control': Control, view': Hand, ok: bool)
    requires Phase(w, source, answers, p0, s, h, st, pos, range, packet, control, view)
    requires st in {WaitingForFirstData, WaitingForData}
    requires Passed(w, source, answers, range, st, pos, packet, control, view, st', pos', control', view', ok)
    ensures ok ==> view'.failed || Phase(w, source, answers, p0, s, h, st', pos', range, packet', control', view')
    ensures Fine(w, source, h, s) ==>
      ok && !view'.failed && Phase(w, source, answers, p0, s, h, st', pos', range, packet', control', view')
  {
    hide *;
    var j := PhaseStands(w, source, answers, p0, s, h, st, pos, range, packet, control, view);
    PassedTook(w, source, answers, range, st, pos, packet, control, view, st', pos', control', view', ok);
    if st == WaitingForData && j == |s.packets| {
      Completed(answers, p0, s);
      PhaseOver(w, source, answers, p0, s, h, control, view, packet', control');
      StandsSound(w, source, h, s, j, control, view);
    } else {
      if st == WaitingForData {
        Arrived(answers, p0, s, j);
      }
      PhaseTook(w, source, h, s, j, control, view, st', control', view', ok);
      if ok && !view'.failed {
        PhaseData(w, source, answers, p0, s, h, j + 1, packet', control', view');
      }
    }
  }

  lemma PassedTook(w: World, source: nat -> Attempt, answers: seq<Answer>, range: RangeType, st: DwlState, pos: nat,
                   packet: seq<byte>, control: Control, view: Hand, st': DwlState, pos': nat, control': Control,
                   view': Hand, ok: bool)
    requires Passed(w, source, answers, range, st, pos, packet, control, view, st', pos', control', view', ok)
    requires Proper(range, control) && Shape(w, view)
    ensures st == WaitingForFirstData ==>
            Took(w, source, range, true, packet, control, view, st', control', view', ok) && pos' == pos
    ensures st == WaitingForData && pos < |answers| && answers[pos].kind == CompletedAnswer ==>
      pos' == pos + 1 && ok && st' == EndTransfer && view' == view
    ensures st == WaitingForData && pos < |answers| && answers[pos].kind == DataAnswer ==>
      pos' == pos + 1 && Took(w, source, range, false, answers[pos].data, control, view, st', control', view', ok)
  {
    hide Took, Proper, Shape;
  }

  /** Where a download that waits for data stands in the body. */
  lemma PhaseStands(w: World, source: nat -> Attempt, answers: seq<Answer>, p0: nat, s: Session, h: Hand, st: DwlState,
                    pos: nat, range: RangeType, packet: seq<byte>, control: Control, view: Hand)
    returns (j: nat)
    requires Phase(w, source, answers, p0, s, h, st, pos, range, packet, control, view)
    requires st in {WaitingForFirstData, WaitingForData}
    ensures Fit(w, source, h, s) && Sends(answers, p0, s) && range == s.range
    ensures j <= |s.packets| && Stands(w, source, h, s, j, control, view) && Proper(s.range, control) && Shape(w, view)
    ensures if st == WaitingForData then 0 < j && pos == p0 + s.headers + j
            else j == 0 < |s.packets| && pos == p0 + s.headers + 1 && packet == s.packets[0]
  {
    hide Fit, Sends, Stands, Proper, Shape;
    assert s.WellFormed() by { PhaseFit(w, source, h, s); }
    j := if st == WaitingForFirstData then 0 else pos - p0 - s.headers;
    StandsProper(w, source, h, s, j, control, view);
  }

  lemma PhaseFit(w: World, source: nat -> Attempt, h: Hand, s: Session)
    requires Fit(w, source, h, s)
    ensures s.WellFormed()
  {
  }

  lemma Arrived(answers: seq<Answer>, p0: nat, s: Session, j: nat)
    requires Sends(answers, p0, s) && 0 < j < |s.packets|
    ensures p0 + s.headers + j < |answers| && answers[p0 + s.headers + j].kind == DataAnswer &&
            answers[p0 + s.headers + j].data == s.packets[j]
  {
    assert IsData(answers, p0, s, j);
  }

  lemma Completed(answers: seq<Answer>, p0: nat, s: Session)
    requires Sends(answers, p0, s)
    ensures p0 + s.Length() == p0 + s.headers + |s.packets| + 1 <= |answers| &&
            answers[p0 + s.headers + |s.packets|].kind == CompletedAnswer
  {
  }

  lemma PhaseData(w: World, source: nat -> Attempt, answers: seq<Answer>, p0: nat, s: Session, h: Hand, j: nat,
                  packet: seq<byte>, control: Control, view: Hand)
    requires Fit(w, source, h, s) && Sends(answers, p0, s) && 0 < j <= |s.packets| &&
             Stands(w, source, h, s, j, control, view)
    ensures Phase(w, source, answers, p0, s, h, WaitingForData, p0 + s.headers + j, s.range, packet, control, view)
  {
    hide Fit, Sends, Stands;
  }

  lemma PhaseOver(w: World, source: nat -> Attempt, answers: seq<Answer>, p0: nat, s: Session, h: Hand,
                  control: Control, view: Hand, packet': seq<byte>, control': Control)
    requires Fit(w, source, h, s) && Sends(answers, p0, s) && Stands(w, source, h, s, |s.packets|, control, view)
    ensures Phase(w, source, answers, p0, s, h, EndTransfer, p0 + s.Length(), s.range, packet', control', view)
  {
  }

  lemma StandsProper(w: World, source: nat -> Attempt, h: Hand, s: Session, j: nat, control: Control, view: Hand)
    requires Fit(w, source, h, s) && j <= |s.packets| && Stands(w, source, h, s, j, control, view)
    ensures Proper(s.range, control) && Shape(w, view)
  {
    if s.range.MultipartRange? {
      StartValid(s.range.boundary);
    }
  }

  lemma StandsSound(w: World, source: nat -> Attempt, h: Hand, s: Session, j: nat, control: Control, view: Hand)
    requires Fit(w, source, h, s) && j <= |s.packets| && Stands(w, source, h, s, j, control, view)
    ensures Fine(w, source, h, s) ==> !view.failed
  {
    NeverFails(w, source, h, s, j);
  }

  /** A packet of the body, taken. */
  lemma PhaseTook(w: World, source: nat -> Attempt, h: Hand, s: Session, j: nat, control: Control, view: Hand,
                  st': DwlState, control': Control, view': Hand, ok: bool)
    requires Fit(w, source, h, s) && j < |s.packets| && Stands(w, source, h, s, j, control, view)
    requires Proper(s.range, control) && Shape(w, view)
    requires Took(w, source, s.range, j == 0, s.packets[j], control, view, st', control', view', ok)
    ensures ok ==> view'.failed || (st' == WaitingForData && Stands(w, source, h, s, j + 1, control', view'))
    ensures Fine(w, source, h, s) ==> ok && !view'.failed
  {
    NeverFails(w, source, h, s, j + 1);
    if s.range.MultipartRange? {
      FedNext(w, source, h, s, j);
    } else {
      SingleNext(w, source, h, s, j);
    }
    hide Fine, Fit, Fed, Result, Run, OnTokens;
  }

  lemma PhaseEnds(w: World, source: nat -> Attempt, answers: seq<Answer>, p0: nat, s: Session, h: Hand, pos: nat,
                  range: RangeType, packet: seq<byte>, control: Control, view: Hand)
    requires Phase(w, source, answers, p0, s, h, EndTransfer, pos, range, packet, control, view)
    ensures Shape(w, view) && pos == p0 + s.Length() && s.WellFormed() && Shape(w, h)
    ensures Idle(OnEnd(w, source, range, view)) == Final(w, source, h, s)
    ensures Final(w, source, h, s).failed == view.failed
    ensures !view.failed <==> Fine(w, source, h, s)
  {
    StickyCopy(w, source, Idle(view));
  }

  lemma FedNothing(w: World, source: nat -> Attempt, h: Hand, s: Session)
    requires Fit(w, source, h, s)
    ensures Stands(w, source, h, s, 0, Control(Start, 0), h)
  {
    assert s.packets[..0] == [];
    if s.range.MultipartRange? {
      StartValid(s.range.boundary);
    }
  }

  // ----- All requests -----

  /** Working through the chunks, every copy from the source succeeds and every
      request is answered with a session that brings the handler forward. */
  ghost predicate Served(w: World, source: nat -> Attempt, answers: seq<Answer>, p: nat, h: Hand,
                         sessions: seq<Session>)
    requires Shape(w, h)
    decreases |w.chunks| - h.chunk
  {
    if h.chunk == |w.chunks| then true
    else if w.chunks[h.chunk].valid then
      var (r, ok) := CopyExisting(w, source, h);
      ok && r.chunk > h.chunk && Shape(w, r) && Served(w, source, answers, p, r, sessions)
    else
      && sessions != [] && Sends(answers, p, sessions[0]) && Fine(w, source, h, sessions[0])
      && var r := Final(w, source, h, sessions[0]);
         Shape(w, r) && h.chunk < r.chunk <= |w.chunks| &&
         Served(w, source, answers, p + sessions[0].Length(), r, sessions[1..])
  }

  /** Where the handler stands when everything is done. */
  ghost function Ending(w: World, source: nat -> Attempt, answers: seq<Answer>, p: nat, h: Hand,
                        sessions: seq<Session>): Hand
    requires Shape(w, h) && Served(w, source, answers, p, h, sessions)
    decreases |w.chunks| - h.chunk
  {
    if h.chunk == |w.chunks| then h
    else if w.chunks[h.chunk].valid then Ending(w, source, answers, p, CopyExisting(w, source, h).0, sessions)
    else Ending(w, source, answers, p + sessions[0].Length(), Final(w, source, h, sessions[0]), sessions[1..])
  }

  lemma ServedNext(w: World, source: nat -> Attempt, answers: seq<Answer>, p: nat, h: Hand, sessions: seq<Session>)
    requires Shape(w, h) && h.chunk < |w.chunks| && Served(w, source, answers, p, h, sessions)
    ensures w.chunks[h.chunk].valid ==>
      var (r, ok) := CopyExisting(w, source, h);
      && ok && Shape(w, r) && Served(w, source, answers, p, r, sessions)
      && Ending(w, source, answers, p, h, sessions) == Ending(w, source, answers, p, r, sessions)
    ensures !w.chunks[h.chunk].valid ==>
      && sessions != [] && Sends(answers, p, sessions[0]) && Fine(w, source, h, sessions[0])
      && var r := Final(w, source, h, sessions[0]);
         && Shape(w, r) && Served(w, source, answers, p + sessions[0].Length(), r, sessions[1..])
         && Ending(w, source, answers, p, h, sessions)
           == Ending(w, source, answers, p + sessions[0].Length(), r, sessions[1..])
  {
  }

  /** Working through the chunks, a copy from the source fails, a request is answered
      with a wrong chunk, or not at all. */
  ghost predicate Doomed(w: World, source: nat -> Attempt, answers: seq<Answer>, p: nat, h: Hand,
                         sessions: seq<Session>)
    requires Shape(w, h)
    decreases |sessions|, |w.chunks| - h.chunk
  {
    if h.chunk == |w.chunks| then false
    else if w.chunks[h.chunk].valid then
      var (r, ok) := CopyExisting(w, source, h);
      !ok || (r.chunk > h.chunk && Shape(w, r) && Doomed(w, source, answers, p, r, sessions))
    else if p >= |answers| then true
    else
      && sessions != [] && Sends(answers, p, sessions[0]) && Fit(w, source, h, sessions[0])
      && (Fine(w, source, h, sessions[0]) ==>
            var r := Final(w, source, h, sessions[0]);
            Shape(w, r) && Doomed(w, source, answers, p + sessions[0].Length(), r, sessions[1..]))
  }

  lemma DoomedNext(w: World, source: nat -> Attempt, answers: seq<Answer>, p: nat, h: Hand, sessions: seq<Session>)
    requires Shape(w, h) && h.chunk < |w.chunks| && Doomed(w, source, answers, p, h, sessions)
    ensures w.chunks[h.chunk].valid ==>
      var (r, ok) := CopyExisting(w, source, h);
      ok ==> Shape(w, r) && Doomed(w, source, answers, p, r, sessions)
    ensures !w.chunks[h.chunk].valid && p < |answers| ==>
      && sessions != [] && Sends(answers, p, sessions[0]) && Fit(w, source, h, sessions[0])
      && (Fine(w, source, h, sessions[0]) ==>
            var r := Final(w, source, h, sessions[0]);
            Shape(w, r) && Doomed(w, source, answers, p + sessions[0].Length(), r, sessions[1..]))
  {
  }
}
