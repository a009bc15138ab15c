/** The incremental multipart parser: an object fed with arbitrary fragments of a
    body, which reports what it finds through callbacks. */
module Multipart {
  import opened Bytes
  import opened MultipartSpec

  /** Notifications other than data. */
  type Notice = t: Token | !t.Byte? witness PartBegin

  datatype Event = Field(text: seq<byte>) | Value(text: seq<byte>) | Data(bytes: seq<byte>) | Note(token: Notice)

  function EventTokens(e: Event): seq<Token> {
    match e
    case Data(bytes) => AsData(bytes)
    case Note(token) => [token]
    case _ => []
  }

  /** What a log of callbacks says about the body.  Header text does not count. */
  function Tokens(events: seq<Event>): seq<Token> {
    if events == [] then [] else Tokens(events[..|events| - 1]) + EventTokens(events[|events| - 1])
  }

  lemma TokensSnoc(events: seq<Event>, e: Event)
    ensures Tokens(events + [e]) == Tokens(events) + EventTokens(e)
  {
    assert (events + [e])[..|events|] == events;
  }

  /** All callbacks of the log from number a on returned success. */
  ghost predicate Granted(reply: seq<Event> -> bool, a: nat, log: seq<Event>) {
    forall k: nat :: a < k <= |log| ==> reply(log[..k])
  }

  lemma GrantedTrans(reply: seq<Event> -> bool, a: nat, e: seq<Event>, e1: seq<Event>)
    requires e <= e1 && a <= |e| && Granted(reply, a, e)
    ensures Granted(reply, a, e1) <==> Granted(reply, |e|, e1)
  {
    forall k: nat | a < k <= |e| ensures e1[..k] == e[..k] {
    }
  }

  datatype Turn = Consumed | Again | Malformed | Refused

  /** Bytes withheld from the part data because they may belong to a delimiter. */
  function Held(boundary: seq<byte>, m: Control): seq<byte>
    requires ValidControl(boundary, m)
  {
    if m.state == PartDataAlmostBoundary then [CR]
    else if m.state == PartDataBoundary then [CR, LF] + boundary[..m.index]
    else []
  }

  /** Part data of the current call not delivered yet. */
  function Pending(state: State, buf: seq<byte>, mark: nat, i: nat): seq<byte> {
    if state == PartData && mark <= i < |buf| then buf[mark..i] else []
  }

  /** States in which a byte may be looked at twice. */
  function Rank(state: State): nat {
    if state in {HeaderFieldStart, HeaderField, PartDataAlmostBoundary, PartDataBoundary} then 1 else 0
  }

  /** One turn of the parser loop, seen from outside: m, e, p are the control
      state, the callback log and the pending data before and after. */
  ghost predicate TurnOk(boundary: seq<byte>, reply: seq<Event> -> bool, c: byte, t: Turn, m0: Control, e0: seq<Event>,
                         p0: seq<byte>, m1: Control, e1: seq<Event>, p1: seq<byte>)
    requires ValidControl(boundary, m0)
  {
    var v := Next(boundary, m0, c);
    && e0 <= e1
    && match t
       case Consumed =>
         && Granted(reply, |e0|, e1) && ValidControl(boundary, m1)
         && v.Accept? && v.next == m1 && Tokens(e1) + AsData(p1) == Tokens(e0) + AsData(p0) + v.tokens
       case Again =>
         && Granted(reply, |e0|, e1) && ValidControl(boundary, m1) && Rank(m1.state) < Rank(m0.state)
         && v.Accept? && v == Prepend(AsData(Held(boundary, m0)), Next(boundary, m1, c))
         && Tokens(e1) + AsData(p1) == Tokens(e0) + AsData(p0) + AsData(Held(boundary, m0))
       case Malformed => e1 == e0 && ValidControl(boundary, m1) && v == Reject(m1) && p0 == []
       case Refused => !Granted(reply, |e0|, e1) && v.Accept? && Tokens(e1) <= Tokens(e0) + AsData(p0) + v.tokens
  }

  /** A byte that changes the state only. */
  lemma SilentTurn(boundary: seq<byte>, reply: seq<Event> -> bool, c: byte, m0: Control, m1: Control, e: seq<Event>,
                   p: seq<byte>)
    requires ValidControl(boundary, m0) && Next(boundary, m0, c) == Accept(m1, [])
    ensures TurnOk(boundary, reply, c, Consumed, m0, e, p, m1, e, p)
  {
    NextValid(boundary, m0, c);
  }

  /** A byte that leads to one callback, which tells about all pending data. */
  lemma SpokenTurn(boundary: seq<byte>, reply: seq<Event> -> bool, c: byte, m0: Control, m1: Control, e0: seq<Event>,
                   e: Event, p: seq<byte>)
    requires ValidControl(boundary, m0) && Next(boundary, m0, c).Accept? && Next(boundary, m0, c).next == m1
    requires reply(e0 + [e]) && EventTokens(e) == AsData(p) + Next(boundary, m0, c).tokens
    ensures TurnOk(boundary, reply, c, Consumed, m0, e0, p, m1, e0 + [e], [])
  {
    NextValid(boundary, m0, c);
    TokensSnoc(e0, e);
    GrantedOne(reply, e0, e);
    assert AsData([]) == [];
    hide Next, Tokens, EventTokens, ValidControl, AsData;
    Spoken(Tokens(e0), AsData(p), Next(boundary, m0, c).tokens);
  }

  lemma Spoken(a: seq<Token>, p: seq<Token>, v: seq<Token>)
    ensures (a + (p + v)) + [] == a + p + v
  {
  }

  /** A callback that fails ends the call; what it told about was due. */
  lemma RefusedTurn(boundary: seq<byte>, reply: seq<Event> -> bool, c: byte, m0: Control, m1: Control, e0: seq<Event>,
                    e: Event, p: seq<byte>, p1: seq<byte>)
    requires ValidControl(boundary, m0) && Next(boundary, m0, c).Accept?
    requires !reply(e0 + [e]) && EventTokens(e) <= AsData(p) + Next(boundary, m0, c).tokens
    ensures TurnOk(boundary, reply, c, Refused, m0, e0, p, m1, e0 + [e], p1)
  {
    TokensSnoc(e0, e);
    GrantedOne(reply, e0, e);
    hide Next, Tokens, EventTokens, ValidControl;
    assert Tokens(e0) + (AsData(p) + Next(boundary, m0, c).tokens)
        == Tokens(e0) + AsData(p) + Next(boundary, m0, c).tokens;
  }

  /** A byte of part data that is not delivered yet. */
  lemma PendingTurn(boundary: seq<byte>, reply: seq<Event> -> bool, c: byte, m: Control, e: seq<Event>, p: seq<byte>)
    requires ValidControl(boundary, m) && Next(boundary, m, c) == Accept(m, [Byte(c)])
    ensures TurnOk(boundary, reply, c, Consumed, m, e, p, m, e, p + [c])
  {
    assert AsData(p + [c]) == AsData(p) + [Byte(c)];
  }

  /** A byte that shows that the bytes withheld are part data after all: they are
      delivered and the byte is looked at again. */
  lemma ReleaseTurn(boundary: seq<byte>, reply: seq<Event> -> bool, c: byte, m0: Control, m1: Control, e0: seq<Event>)
    requires ValidControl(boundary, m0) && m0.state in {PartDataAlmostBoundary, PartDataBoundary} &&
             m1 == m0.(state := PartData)
    requires Next(boundary, m0, c) == Prepend(AsData(Held(boundary, m0)), Next(boundary, m1, c))
    requires reply(e0 + [Data(Held(boundary, m0))])
    ensures TurnOk(boundary, reply, c, Again, m0, e0, [], m1, e0 + [Data(Held(boundary, m0))], [])
  {
    assert ValidControl(boundary, m1) && Next(boundary, m1, c).Accept? && Rank(m1.state) < Rank(m0.state);
    TokensSnoc(e0, Data(Held(boundary, m0)));
    assert EventTokens(Data(Held(boundary, m0))) == AsData(Held(boundary, m0)) && AsData([]) == [];
    GrantedOne(reply, e0, Data(Held(boundary, m0)));
    hide Next, Tokens, Held, AsData, EventTokens, ValidControl, Rank, Granted;
    NoData(Tokens(e0), AsData(Held(boundary, m0)));
  }

  lemma GrantedOne(reply: seq<Event> -> bool, log: seq<Event>, e: Event)
    ensures Granted(reply, |log|, log + [e]) <==> reply(log + [e])
  {
    assert (log + [e])[..|log| + 1] == log + [e];
  }

  lemma NoData(a: seq<Token>, d: seq<Token>)
    ensures (a + d) + [] == a + [] + d
  {
  }

  /** A byte that cannot be part of a header name: part data starts with it. */
  lemma HeaderEndTurn(boundary: seq<byte>, reply: seq<Event> -> bool, c: byte, m0: Control, m1: Control, e: seq<Event>)
    requires ValidControl(boundary, m0) && m0.state in {HeaderFieldStart, HeaderField} &&
             m1 == m0.(state := PartDataStart)
    requires c != CR && c != COLON && !IsNameChar(c)
    ensures TurnOk(boundary, reply, c, Again, m0, e, [], m1, e, [])
  {
    assert Next(boundary, m0, c) == Next(boundary, m1, c);
    assert AsData(Held(boundary, m0)) == [];
  }

  /** The first byte of part data, after the notification that the headers are complete. */
  lemma AfterHeaders(boundary: seq<byte>, reply: seq<Event> -> bool, c: byte, t: Turn, m0: Control, e0: seq<Event>,
                     m1: Control, e1: seq<Event>, p1: seq<byte>)
    requires ValidControl(boundary, m0) && m0.state == PartDataStart && reply(e0 + [Note(HeadersComplete)]) &&
             t in {Consumed, Refused}
    requires TurnOk(boundary, reply, c, t, m0.(state := PartData), e0 + [Note(HeadersComplete)], [], m1, e1, p1)
    ensures TurnOk(boundary, reply, c, t, m0, e0, [], m1, e1, p1)
  {
    TokensSnoc(e0, Note(HeadersComplete));
    var v := Next(boundary, m0.(state := PartData), c);
    assert Next(boundary, m0, c) == Prepend([HeadersComplete], v);
    assert AsData([]) == [];
    hide Next, Tokens, ValidControl, AsData;
    Complete(Tokens(e0), v.tokens);
    GrantedOne(reply, e0, Note(HeadersComplete));
    GrantedTrans(reply, |e0|, e0 + [Note(HeadersComplete)], e1);
    hide Granted;
  }

  lemma Complete(a: seq<Token>, v: seq<Token>)
    ensures (a + [HeadersComplete]) + [] + v == a + [] + ([HeadersComplete] + v)
  {
  }

  lemma MalformedTurn(boundary: seq<byte>, reply: seq<Event> -> bool, c: byte, m0: Control, m1: Control, e: seq<Event>)
    requires ValidControl(boundary, m0) && Next(boundary, m0, c) == Reject(m1)
    ensures TurnOk(boundary, reply, c, Malformed, m0, e, [], m1, e, [])
  {
    NextValid(boundary, m0, c);
  }

  /** Outside the data state nothing is pending. */
  lemma NoPending(boundary: seq<byte>, reply: seq<Event> -> bool, c: byte, t: Turn, m0: Control, e0: seq<Event>,
                  m1: Control, e1: seq<Event>, p1: seq<byte>)
    requires ValidControl(boundary, m0) && TurnOk(boundary, reply, c, t, m0, e0, [], m1, e1, [])
    requires t == Refused || p1 == []
    ensures TurnOk(boundary, reply, c, t, m0, e0, [], m1, e1, p1)
  {
  }

  /** What was reported, what is pending and what the rest of the fragment will
      give add up to what the whole fragment gives. */
  ghost predicate OnTrack(boundary: seq<byte>, reply: seq<Event> -> bool, e0: seq<Event>, total: Outcome, m: Control,
                          e: seq<Event>, p: seq<byte>, rest: seq<byte>) {
    && ValidControl(boundary, m) && e0 <= e && Granted(reply, |e0|, e)
    && var o := Run(boundary, m, rest);
       Tokens(e) + AsData(p) + o.tokens == Tokens(e0) + total.tokens && o.end == total.end && o.left == total.left
  }

  lemma StartTrack(boundary: seq<byte>, reply: seq<Event> -> bool, m: Control, e: seq<Event>, buf: seq<byte>)
    requires ValidControl(boundary, m)
    ensures OnTrack(boundary, reply, e, Run(boundary, m, buf), m, e, [], buf[0..])
  {
    assert buf[0..] == buf && AsData([]) == [];
  }

  lemma EndTrack(boundary: seq<byte>, reply: seq<Event> -> bool, e0: seq<Event>, total: Outcome, m: Control,
                 e: seq<Event>, rest: seq<byte>)
    requires OnTrack(boundary, reply, e0, total, m, e, [], rest) && rest == []
    ensures m == total.end && total.left == 0 && Tokens(e) == Tokens(e0) + total.tokens && e0 <= e &&
            Granted(reply, |e0|, e)
  {
    assert AsData([]) == [];
  }

  lemma Track(boundary: seq<byte>, reply: seq<Event> -> bool, e0: seq<Event>, total: Outcome, t: Turn, m: Control,
              e: seq<Event>, p: seq<byte>, rest: seq<byte>, m1: Control, e1: seq<Event>, p1: seq<byte>)
    requires rest != [] && OnTrack(boundary, reply, e0, total, m, e, p, rest)
    requires TurnOk(boundary, reply, rest[0], t, m, e, p, m1, e1, p1)
    ensures e0 <= e1
    ensures t == Consumed ==> OnTrack(boundary, reply, e0, total, m1, e1, p1, rest[1..])
    ensures t == Again ==> OnTrack(boundary, reply, e0, total, m1, e1, p1, rest) && Rank(m1.state) < Rank(m.state)
    ensures t == Malformed ==>
            total.left == |rest| && m1 == total.end && Tokens(e1) == Tokens(e0) + total.tokens &&
            Granted(reply, |e0|, e1)
    ensures t == Refused ==> !Granted(reply, |e0|, e1) && Tokens(e1) <= Tokens(e0) + total.tokens
  {
    GrantedTrans(reply, |e0|, e, e1);
    match t
    case Consumed => TrackConsumed(boundary, reply, e0, total, m, e, p, rest, m1, e1, p1);
    case Again => TrackAgain(boundary, reply, e0, total, m, e, p, rest, m1, e1, p1);
    case Malformed => assert AsData([]) == [];
    case Refused => TrackRefused(boundary, reply, e0, total, m, e, p, rest, m1, e1, p1);
  }

  lemma Regroup(a: seq<Token>, b: seq<Token>, c: seq<Token>, d: seq<Token>)
    ensures a + b + (c + d) == (a + b + c) + d
    ensures a + b + c <= a + b + (c + d)
  {
  }

  lemma TrackConsumed(boundary: seq<byte>, reply: seq<Event> -> bool, e0: seq<Event>, total: Outcome, m: Control,
                      e: seq<Event>, p: seq<byte>, rest: seq<byte>, m1: Control, e1: seq<Event>, p1: seq<byte>)
    requires rest != [] && OnTrack(boundary, reply, e0, total, m, e, p, rest)
    requires TurnOk(boundary, reply, rest[0], Consumed, m, e, p, m1, e1, p1)
    ensures OnTrack(boundary, reply, e0, total, m1, e1, p1, rest[1..])
  {
    GrantedTrans(reply, |e0|, e, e1);
    hide Next, Tokens, ValidControl;
    var v, o := Next(boundary, m, rest[0]), Run(boundary, m1, rest[1..]);
    assert Run(boundary, m, rest).tokens == v.tokens + o.tokens;
    Regroup(Tokens(e), AsData(p), v.tokens, o.tokens);
  }

  lemma TrackAgain(boundary: seq<byte>, reply: seq<Event> -> bool, e0: seq<Event>, total: Outcome, m: Control,
                   e: seq<Event>, p: seq<byte>, rest: seq<byte>, m1: Control, e1: seq<Event>, p1: seq<byte>)
    requires rest != [] && OnTrack(boundary, reply, e0, total, m, e, p, rest)
    requires TurnOk(boundary, reply, rest[0], Again, m, e, p, m1, e1, p1)
    ensures OnTrack(boundary, reply, e0, total, m1, e1, p1, rest)
  {
    GrantedTrans(reply, |e0|, e, e1);
    var held, o := AsData(Held(boundary, m)), Run(boundary, m1, rest);
    RunAgain(boundary, m, m1, held, rest);
    hide Next, Tokens, ValidControl, Held, Run;
    Regroup(Tokens(e), AsData(p), held, o.tokens);
  }

  lemma TrackRefused(boundary: seq<byte>, reply: seq<Event> -> bool, e0: seq<Event>, total: Outcome, m: Control,
                     e: seq<Event>, p: seq<byte>, rest: seq<byte>, m1: Control, e1: seq<Event>, p1: seq<byte>)
    requires rest != [] && OnTrack(boundary, reply, e0, total, m, e, p, rest)
    requires TurnOk(boundary, reply, rest[0], Refused, m, e, p, m1, e1, p1)
    ensures !Granted(reply, |e0|, e1) && Tokens(e1) <= Tokens(e0) + total.tokens
  {
    GrantedTrans(reply, |e0|, e, e1);
    NextValid(boundary, m, rest[0]);
    hide Next, Tokens, ValidControl;
    var v := Next(boundary, m, rest[0]);
    var o := Run(boundary, v.next, rest[1..]);
    assert Run(boundary, m, rest).tokens == v.tokens + o.tokens;
    hide Run;
    Regroup(Tokens(e), AsData(p), v.tokens, o.tokens);
  }

  /** A fragment was parsed as specified: n bytes accepted, m1 reached, e1 reported. */
  predicate Parsed(boundary: seq<byte>, m0: Control, e0: seq<Event>, buf: seq<byte>, n: nat, m1: Control,
                   e1: seq<Event>)
    requires ValidControl(boundary, m0)
  {
    var o := Run(boundary, m0, buf);
    n == |buf| - o.left && m1 == o.end && Tokens(e1) == Tokens(e0) + o.tokens
  }

  class Parser {
    const boundary: seq<byte>
    /** What a callback returns, given all callbacks so far, itself the last: true for success. */
    const reply: seq<Event> -> bool
    const lookbehind: array<byte>
    var state: State
    var index: nat
    var events: seq<Event>

    ghost function Ctl(): Control
      reads this
    {
      Control(state, index)
    }

    /** The lookbehind buffer repeats the bytes that matched so far. */
    ghost predicate Valid()
      reads this, lookbehind
    {
      && ValidControl(boundary, Ctl()) && lookbehind.Length == |boundary| + 8
      && (state == PartDataAlmostBoundary || state == PartDataBoundary ==>
          lookbehind[..|Held(boundary, Ctl())|] == Held(boundary, Ctl()))
    }

    /** The end of a part was notified and refused; then the index is out of range. */
    ghost predicate EndRefused()
      reads this
    {
      events != [] && events[|events| - 1] == Note(PartEnd) && !reply(events)
    }

    constructor (boundary: seq<byte>, reply: seq<Event> -> bool)
      requires 0 < |boundary|
      ensures Valid() && this.boundary == boundary && this.reply == reply
      ensures Ctl() == Control(Start, 0) && events == [] && fresh(lookbehind)
    {
      this.boundary, this.reply := boundary, reply;
      lookbehind := new byte[|boundary| + 8];
      state, index, events := Start, 0, [];
    }

    /** Takes up a body where it was left. */
    constructor Resume(boundary: seq<byte>, reply: seq<Event> -> bool, control: Control)
      requires ValidControl(boundary, control)
      ensures Valid() && this.boundary == boundary && this.reply == reply
      ensures Ctl() == control && events == [] && fresh(lookbehind)
    {
      this.boundary, this.reply := boundary, reply;
      var held := Held(boundary, control);
      lookbehind := new byte[|boundary| + 8](i requires 0 <= i => if i < |held| then held[i] else 0);
      state, index, events := control.state, control.index, [];
    }

    method Call(e: Event) returns (ok: bool)
      modifies this`events
      ensures events == old(events) + [e] && ok == reply(events)
    {
      events := events + [e];
      ok := reply(events);
    }

    method TurnStart(c: byte) returns (t: Turn)
      requires Valid() && state in {Start, StartBoundary}
      modifies this
      ensures Valid() && (t != Refused ==> state != PartData)
      ensures TurnOk(boundary, reply, c, t, old(Ctl()), old(events), [], Ctl(), events, [])
    {
      hide TurnOk;
      if state == Start {
        index, state := 0, StartBoundary;
      }
      t := Consumed;
      if index == |boundary| {
        if c != CR {
          MalformedTurn(boundary, reply, c, old(Ctl()), Ctl(), events);
          return Malformed;
        }
        index := index + 1;
      } else if index == |boundary| + 1 {
        if c != LF {
          MalformedTurn(boundary, reply, c, old(Ctl()), Ctl(), events);
          return Malformed;
        }
        index := 0;
        var ok := Call(Note(PartBegin));
        if ok {
          state := HeaderFieldStart;
        }
        if !ok {
          RefusedTurn(boundary, reply, c, old(Ctl()), Ctl(), old(events), Note(PartBegin), [], []);
          return Refused;
        }
        SpokenTurn(boundary, reply, c, old(Ctl()), Ctl(), old(events), Note(PartBegin), []);
        return Consumed;
      } else {
        if c != boundary[index] {
          MalformedTurn(boundary, reply, c, old(Ctl()), Ctl(), events);
          return Malformed;
        }
        index := index + 1;
      }
      SilentTurn(boundary, reply, c, old(Ctl()), Ctl(), events, []);
    }

    method TurnTail(c: byte) returns (t: Turn)
      requires Valid() && state in {PartDataAlmostEnd, PartDataEnd, PartDataFinalHyphen, End}
      modifies this
      ensures Valid() && (t != Refused ==> state != PartData)
      ensures TurnOk(boundary, reply, c, t, old(Ctl()), old(events), [], Ctl(), events, [])
    {
      hide TurnOk;
      t := Consumed;
      if state == PartDataAlmostEnd && (c == HYPHEN || c == CR) {
        state := if c == HYPHEN then PartDataFinalHyphen else PartDataEnd;
      } else if state == PartDataFinalHyphen && c == HYPHEN {
        var ok := Call(Note(BodyEnd));
        if ok {
          state := End;
        }
        if !ok {
          RefusedTurn(boundary, reply, c, old(Ctl()), Ctl(), old(events), Note(BodyEnd), [], []);
          return Refused;
        }
        SpokenTurn(boundary, reply, c, old(Ctl()), Ctl(), old(events), Note(BodyEnd), []);
        return Consumed;
      } else if state == PartDataEnd && c == LF {
        state := HeaderFieldStart;
        var ok := Call(Note(PartBegin));
        if !ok {
          RefusedTurn(boundary, reply, c, old(Ctl()), Ctl(), old(events), Note(PartBegin), [], []);
          return Refused;
        }
        SpokenTurn(boundary, reply, c, old(Ctl()), Ctl(), old(events), Note(PartBegin), []);
        return Consumed;
      } else if state != End {
        MalformedTurn(boundary, reply, c, old(Ctl()), Ctl(), events);
        return Malformed;
      }
      SilentTurn(boundary, reply, c, old(Ctl()), Ctl(), events, []);
    }

    /** A byte of part data; buf[mark..i] has not been delivered yet. */
    method TurnInData(buf: seq<byte>, i: nat, mark: nat) returns (t: Turn)
      requires Valid() && mark <= i < |buf| && state == PartData
      modifies this, lookbehind
      ensures t in {Consumed, Refused} && Valid()
      ensures TurnOk(boundary, reply, buf[i], t, old(Ctl()), old(events), buf[mark..i], Ctl(), events,
                     Pending(state, buf, mark, i + 1))
    {
      hide TurnOk;
      var c := buf[i];
      if c == CR {
        var ok := Call(Data(buf[mark..i]));
        if ok {
          state := PartDataAlmostBoundary;
          lookbehind[0] := CR;
        }
        if !ok {
          RefusedTurn(boundary, reply, c, old(Ctl()), Ctl(), old(events), Data(buf[mark..i]), buf[mark..i],
                      Pending(state, buf, mark, i + 1));
          return Refused;
        }
        SpokenTurn(boundary, reply, c, old(Ctl()), Ctl(), old(events), Data(buf[mark..i]), buf[mark..i]);
        return Consumed;
      }
      if i == |buf| - 1 {
        var ok := Call(Data(buf[mark..i + 1]));
        assert AsData(buf[mark..i + 1]) == AsData(buf[mark..i]) + [Byte(c)];
        if !ok {
          RefusedTurn(boundary, reply, c, old(Ctl()), Ctl(), old(events), Data(buf[mark..i + 1]), buf[mark..i],
                      Pending(state, buf, mark, i + 1));
          return Refused;
        }
        SpokenTurn(boundary, reply, c, old(Ctl()), Ctl(), old(events), Data(buf[mark..i + 1]), buf[mark..i]);
        return Consumed;
      }
      PendingTurn(boundary, reply, c, Ctl(), events, buf[mark..i]);
      assert buf[mark..i + 1] == buf[mark..i] + [c];
      t := Consumed;
    }

    /** The first byte after the headers. */
    method TurnDataStart(buf: seq<byte>, i: nat) returns (t: Turn)
      requires Valid() && i < |buf| && state == PartDataStart
      modifies this, lookbehind
      ensures t in {Consumed, Refused} && Valid()
      ensures TurnOk(boundary, reply, buf[i], t, old(Ctl()), old(events), [], Ctl(), events,
                     Pending(state, buf, i, i + 1))
    {
      hide TurnOk;
      var ok := Call(Note(HeadersComplete));
      if !ok {
        RefusedTurn(boundary, reply, buf[i], old(Ctl()), Ctl(), old(events), Note(HeadersComplete), [],
                    Pending(state, buf, i, i + 1));
        return Refused;
      }
      state := PartData;
      assert buf[i..i] == [];
      t := TurnInData(buf, i, i);
      AfterHeaders(boundary, reply, buf[i], t, old(Ctl()), old(events), Ctl(), events, Pending(state, buf, i, i + 1));
    }

    /** A byte while a delimiter may be under way. */
    method TurnDelimiter(c: byte) returns (t: Turn)
      requires Valid() && state in {PartDataAlmostBoundary, PartDataBoundary}
      modifies this, lookbehind
      ensures t != Malformed && (Valid() || (t == Refused && EndRefused()))
      ensures t == Consumed ==> state != PartData
      ensures TurnOk(boundary, reply, c, t, old(Ctl()), old(events), [], Ctl(), events, [])
    {
      hide TurnOk;
      if state == PartDataAlmostBoundary && c == LF {
        state, index := PartDataBoundary, 0;
        lookbehind[1] := LF;
        assert lookbehind[..2] == [CR, LF];
        SilentTurn(boundary, reply, c, old(Ctl()), Ctl(), events, []);
        return Consumed;
      }
      if state == PartDataBoundary && boundary[index] == c {
        ghost var held := Held(boundary, Ctl());
        lookbehind[2 + index] := c;
        assert lookbehind[..2 + index] == held;
        assert lookbehind[..3 + index] == held + [c];
        assert boundary[..index + 1] == boundary[..index] + [c];
        index := index + 1;
        if index < |boundary| {
          SilentTurn(boundary, reply, c, old(Ctl()), Ctl(), events, []);
          return Consumed;
        }
        var ok := Call(Note(PartEnd));
        if !ok {
          RefusedTurn(boundary, reply, c, old(Ctl()), Ctl(), old(events), Note(PartEnd), [], []);
          return Refused;
        }
        state := PartDataAlmostEnd;
        SpokenTurn(boundary, reply, c, old(Ctl()), Ctl(), old(events), Note(PartEnd), []);
        return Consumed;
      }
      t := Release(c);
    }

    /** Delivers the bytes withheld, which turned out to be part data. */
    method Release(c: byte) returns (t: Turn)
      requires Valid() && state in {PartDataAlmostBoundary, PartDataBoundary}
      requires if state == PartDataAlmostBoundary then c != LF else c != boundary[index]
      modifies this
      ensures t in {Again, Refused} && Valid() && (t == Again ==> state == PartData)
      ensures TurnOk(boundary, reply, c, t, old(Ctl()), old(events), [], Ctl(), events, [])
    {
      hide TurnOk;
      ghost var held := Held(boundary, Ctl());
      var e := Data(lookbehind[..if state == PartDataAlmostBoundary then 1 else 2 + index]);
      assert e == Data(held);
      assert Next(boundary, Ctl(), c) == Prepend(AsData(held), Next(boundary, Ctl().(state := PartData), c));
      var ok := Call(e);
      if !ok {
        RefusedTurn(boundary, reply, c, old(Ctl()), Ctl(), old(events), e, [], []);
        return Refused;
      }
      state := PartData;
      ReleaseTurn(boundary, reply, c, old(Ctl()), Ctl(), old(events));
      t := Again;
    }

    /** A byte of a header name; buf[mark..i] is the part of the name seen in this call. */
    method TurnField(buf: seq<byte>, i: nat, mark: nat) returns (t: Turn)
      requires Valid() && mark <= i < |buf| && state in {HeaderFieldStart, HeaderField}
      modifies this
      ensures Valid() && (t != Refused ==> state != PartData)
      ensures TurnOk(boundary, reply, buf[i], t, old(Ctl()), old(events), [], Ctl(), events, [])
    {
      hide TurnOk;
      var c := buf[i];
      state := HeaderField;
      if c == CR {
        state := HeadersAlmostDone;
      } else if c == COLON {
        var ok := Call(Field(buf[mark..i]));
        if !ok {
          RefusedTurn(boundary, reply, c, old(Ctl()), Ctl(), old(events), Field(buf[mark..i]), [], []);
          return Refused;
        }
        state := HeaderValueStart;
        SpokenTurn(boundary, reply, c, old(Ctl()), Ctl(), old(events), Field(buf[mark..i]), []);
        return Consumed;
      } else if !IsNameChar(c) {
        state := PartDataStart;
        HeaderEndTurn(boundary, reply, c, old(Ctl()), Ctl(), events);
        return Again;
      } else if i == |buf| - 1 {
        var ok := Call(Field(buf[mark..i + 1]));
        if !ok {
          RefusedTurn(boundary, reply, c, old(Ctl()), Ctl(), old(events), Field(buf[mark..i + 1]), [], []);
          return Refused;
        }
        SpokenTurn(boundary, reply, c, old(Ctl()), Ctl(), old(events), Field(buf[mark..i + 1]), []);
        return Consumed;
      }
      SilentTurn(boundary, reply, c, old(Ctl()), Ctl(), events, []);
      t := Consumed;
    }

    /** A byte of a header value, or of a line end among the headers. */
    method TurnValue(buf: seq<byte>, i: nat, mark: nat) returns (t: Turn)
      requires Valid() && mark <= i < |buf| &&
               state in {HeadersAlmostDone, HeaderValueStart, HeaderValue, HeaderValueAlmostDone}
      modifies this
      ensures t != Again && Valid() && (t != Refused ==> state != PartData)
      ensures TurnOk(boundary, reply, buf[i], t, old(Ctl()), old(events), [], Ctl(), events, [])
    {
      hide TurnOk;
      var c := buf[i];
      t := Consumed;
      if state == HeadersAlmostDone || state == HeaderValueAlmostDone {
        if c != LF {
          MalformedTurn(boundary, reply, c, old(Ctl()), Ctl(), events);
          return Malformed;
        }
        state := if state == HeadersAlmostDone then PartDataStart else HeaderFieldStart;
      } else if state == HeaderValueStart && c == SPACE {
      } else {
        state := HeaderValue;
        if c == CR || i == |buf| - 1 {
          var e := Value(buf[mark..if c == CR then i else i + 1]);
          var ok := Call(e);
          if !ok {
            RefusedTurn(boundary, reply, c, old(Ctl()), Ctl(), old(events), e, [], []);
            return Refused;
          }
          state := if c == CR then HeaderValueAlmostDone else HeaderValue;
          SpokenTurn(boundary, reply, c, old(Ctl()), Ctl(), old(events), e, []);
          return Consumed;
        }
      }
      SilentTurn(boundary, reply, c, old(Ctl()), Ctl(), events, []);
    }

    /** One turn of the loop: looks at byte i in the current state. */
    method TakeTurn(buf: seq<byte>, i: nat, mark: nat) returns (t: Turn, newMark: nat)
      requires Valid() && mark <= i < |buf|
      modifies this, lookbehind
      ensures newMark <= i && (Valid() || (t == Refused && EndRefused()))
      ensures TurnOk(boundary, reply, buf[i], t, old(Ctl()), old(events), Pending(old(state), buf, mark, i),
                     Ctl(), events, Pending(state, buf, newMark, if t == Again then i else i + 1))
    {
      hide TurnOk, ValidControl, Held;
      newMark := mark;
      if state == PartDataStart {
        newMark := i;
        t := TurnDataStart(buf, i);
      } else if state == PartData {
        t := TurnInData(buf, i, mark);
      } else if state in {PartDataAlmostBoundary, PartDataBoundary} {
        newMark := i;
        t := TurnDelimiter(buf[i]);
        assert buf[i..i] == [];
        NoPending(boundary, reply, buf[i], t, old(Ctl()), old(events), Ctl(), events,
                  Pending(state, buf, newMark, if t == Again then i else i + 1));
      } else {
        t, newMark := TakeOther(buf, i, mark);
      }
    }

    /** A turn outside the data of a part. */
    method TakeOther(buf: seq<byte>, i: nat, mark: nat) returns (t: Turn, newMark: nat)
      requires Valid() && mark <= i < |buf| &&
               state !in {PartDataStart, PartData, PartDataAlmostBoundary, PartDataBoundary}
      modifies this, lookbehind
      ensures newMark <= i && Valid()
      ensures TurnOk(boundary, reply, buf[i], t, old(Ctl()), old(events), [],
                     Ctl(), events, Pending(state, buf, newMark, if t == Again then i else i + 1))
    {
      hide TurnOk, ValidControl, Held;
      newMark := mark;
      if state == HeaderFieldStart || state == HeaderValueStart {
        newMark := i;
      }
      if state in {Start, StartBoundary} {
        t := TurnStart(buf[i]);
      } else if state in {HeaderFieldStart, HeaderField} {
        t := TurnField(buf, i, newMark);
      } else if state in {HeadersAlmostDone, HeaderValueStart, HeaderValue, HeaderValueAlmostDone} {
        t := TurnValue(buf, i, newMark);
      } else {
        t := TurnTail(buf[i]);
      }
      NoPending(boundary, reply, buf[i], t, old(Ctl()), old(events), Ctl(), events,
                Pending(state, buf, newMark, if t == Again then i else i + 1));
    }

    /** Parses a fragment.  Returns how many bytes were accepted. */
    method Execute(buf: seq<byte>) returns (n: nat)
      requires Valid()
      modifies this, lookbehind
      ensures n <= |buf| && old(events) <= events
      // If every callback succeeds the fragment is parsed as specified...
      ensures Granted(reply, |old(events)|, events) ==>
              Valid() && Parsed(boundary, old(Ctl()), old(events), buf, n, Ctl(), events)
      // ...and otherwise it stops short, and nothing is reported that was not due.
      ensures !Granted(reply, |old(events)|, events) ==> n < |buf| && (Valid() || EndRefused())
      ensures Tokens(events) <= Tokens(old(events)) + Run(boundary, old(Ctl()), buf).tokens
    {
      hide TurnOk, OnTrack, ValidControl, Tokens;
      var i: nat, mark: nat := 0, 0;
      ghost var total := Run(boundary, Ctl(), buf);
      StartTrack(boundary, reply, Ctl(), events, buf);
      while i < |buf|
        invariant Valid() && mark <= i <= |buf|
        invariant OnTrack(boundary, reply, old(events), total, Ctl(), events, Pending(state, buf, mark, i), buf[i..])
        decreases |buf| - i, Rank(state)
      {
        ghost var m, e, p := Ctl(), events, Pending(state, buf, mark, i);
        var t, newMark := TakeTurn(buf, i, mark);
        mark := newMark;
        Track(boundary, reply, old(events), total, t, m, e, p, buf[i..], Ctl(), events,
              Pending(state, buf, mark, if t == Again then i else i + 1));
        if t == Malformed || t == Refused {
          return i;
        }
        if t == Consumed {
          assert buf[i + 1..] == buf[i..][1..];
          i := i + 1;
        }
      }
      assert buf[i..] == [] && Pending(state, buf, mark, i) == [];
      EndTrack(boundary, reply, old(events), total, Ctl(), events, []);
      n := |buf|;
    }
  }
}
