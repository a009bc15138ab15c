/** The delta handler: an object fed by the multipart parser's callbacks, and the
    state machine that downloads what the device does not have. */
module Delta {
  import opened Bytes
  import opened MultipartSpec
  import M = Multipart
  import opened DeltaSpec
  import opened DeltaSession

  // ----- Data in portions -----

  /** A chunk without compressed bytes is passed over when more data comes. */
  lemma PassEmpty(w: World, h: Hand, data: seq<byte>)
    requires Shape(w, h) && h.ready && !h.failed && data != [] && w.chunks[h.chunk].comp == []
    ensures var g := h.(chunk := h.chunk + 1, ready := h.chunk + 1 < |w.chunks|, buffer := []);
      Shape(w, g) && OnBytes(w, h, data) == OnBytes(w, g, data)
  {
    var g := h.(chunk := h.chunk + 1, ready := h.chunk + 1 < |w.chunks|, buffer := []);
    assert SkipEmpty(w, h.chunk) == SkipEmpty(w, h.chunk + 1);
    assert OnByte(w, h, data[0]) == OnByte(w, g, data[0]);
  }

  /** Bytes that do not complete the chunk are buffered... */
  lemma {:induction false} FillSome(w: World, h: Hand, taken: seq<byte>, rest: seq<byte>)
    requires Shape(w, h) && h.ready && !h.failed && |h.buffer| + |taken| < |w.chunks[h.chunk].comp|
    ensures OnBytes(w, h, taken + rest) == OnBytes(w, h.(buffer := h.buffer + taken), rest)
    decreases |taken|
  {
    if taken == [] {
      assert taken + rest == rest && h.buffer + taken == h.buffer;
    } else {
      var g := h.(buffer := h.buffer + [taken[0]]);
      assert OnByte(w, h, taken[0]) == g;
      FillSome(w, g, taken[1..], rest);
      assert (taken + rest)[1..] == taken[1..] + rest;
      assert g.buffer + taken[1..] == h.buffer + taken;
    }
  }

  /** ...and the one that completes it has it checked and written. */
  lemma FillAll(w: World, h: Hand, taken: seq<byte>, rest: seq<byte>)
    requires Shape(w, h) && h.ready && !h.failed && taken != [] && |h.buffer| + |taken| == |w.chunks[h.chunk].comp|
    ensures Shape(w, Complete(w, h, h.buffer + taken)) &&
            OnBytes(w, h, taken + rest) == OnBytes(w, Complete(w, h, h.buffer + taken), rest)
  {
    var front, last := taken[..|taken| - 1], taken[|taken| - 1];
    var g := h.(buffer := h.buffer + front);
    FillSome(w, h, front, [last] + rest);
    assert taken + rest == front + ([last] + rest);
    assert g.buffer + [last] == h.buffer + taken;
    assert OnByte(w, g, last) == Complete(w, g, h.buffer + taken) == Complete(w, h, h.buffer + taken);
    assert ([last] + rest)[1..] == rest;
  }

  function Lower(b: byte): byte { if 65 <= b <= 90 then b + 32 else b }

  /** The front of s is the boundary, in lower case. */
  predicate StartsWith(s: seq<byte>, boundary: seq<byte>) {
    |boundary| <= |s| && forall j :: 0 <= j < |boundary| ==> Lower(s[j]) == Lower(boundary[j])
  }

  lemma LowerMeans(packet: seq<byte>, boundary: seq<byte>, i: nat)
    requires i <= |packet|
    ensures StartsWith(packet[i..], boundary) <==> BoundaryAt(packet, boundary, i)
  {
    if |boundary| <= |packet| - i {
      forall j | 0 <= j < |boundary|
        ensures packet[i..][j] == packet[i + j]
        ensures Lower(packet[i + j]) == Lower(boundary[j]) <==> SameLetter(packet[i + j], boundary[j])
      {
      }
    }
  }

  /** Where the boundary first shows up in a packet. */
  method SearchBoundary(packet: seq<byte>, boundary: seq<byte>) returns (found: bool, at: nat)
    ensures found ==> BoundaryAt(packet, boundary, at) && at < |packet|
    ensures forall i: nat :: i < (if found then at else |packet|) ==> !BoundaryAt(packet, boundary, i)
  {
    at := 0;
    while at < |packet|
      invariant at <= |packet|
      invariant forall i: nat :: i < at ==> !BoundaryAt(packet, boundary, i)
    {
      LowerMeans(packet, boundary, at);
      if StartsWith(packet[at..], boundary) {
        return true, at;
      }
      at := at + 1;
    }
    found := false;
  }

  // ----- What the parser is told -----

  /** Whether a callback succeeds. */
  function Accepts(w: World, h: Hand, e: M.Event): bool
    requires Shape(w, h)
  {
    if e.Data? then !OnBytes(w, h, e.bytes).failed
    else e == M.Note(HeadersComplete) ==> h.chunk < |w.chunks|
  }

  /** The answer to the last of some callbacks, the first of which found the handler in
      state h. */
  function Reply(w: World, source: nat -> Attempt, h: Hand): seq<M.Event> -> bool {
    log => log == [] || !Shape(w, h) || Accepts(w, OnTokens(w, source, h, M.Tokens(log[..|log| - 1])), log[|log| - 1])
  }

  lemma OnEvent(w: World, source: nat -> Attempt, h: Hand, e: M.Event)
    requires Shape(w, h)
    ensures OnTokens(w, source, h, M.EventTokens(e)) ==
      if e.Data? then OnBytes(w, h, e.bytes) else if e.Note? then OnToken(w, source, h, e.token) else h
  {
    match e
    case Data(bytes) => OnTokensData(w, source, h, bytes);
    case Note(token) => OnTokensOne(w, source, h, token);
    case _ =>
  }

  lemma NotAccepted(w: World, source: nat -> Attempt, h: Hand, e: M.Event)
    requires Shape(w, h) && !Accepts(w, h, e)
    ensures var r := OnTokens(w, source, h, M.EventTokens(e)); r.failed || r.overrun
  {
    OnEvent(w, source, h, e);
  }

  lemma {:induction false} TokensPart(log: seq<M.Event>, k: nat) returns (rest: seq<Token>)
    requires k <= |log|
    ensures M.Tokens(log) == M.Tokens(log[..k]) + rest
    decreases |log| - k
  {
    hide *;
    if k == |log| {
      rest := [];
      assert log[..k] == log && M.Tokens(log) == M.Tokens(log) + [];
    } else {
      var later := TokensPart(log, k + 1);
      assert log[..k + 1] == log[..k] + [log[k]];
      M.TokensSnoc(log[..k], log[k]);
      rest := M.EventTokens(log[k]) + later;
      Regrouped(M.Tokens(log[..k]), M.EventTokens(log[k]), later);
    }
  }

  /** A refused callback leaves an error behind, whatever was to follow. */
  lemma RefusedShows(w: World, source: nat -> Attempt, h: Hand, log: seq<M.Event>, more: seq<Token>)
    requires Shape(w, h) && !M.Granted(Reply(w, source, h), 0, log)
    ensures var r := OnTokens(w, source, h, M.Tokens(log) + more); r.failed || r.overrun
  {
    hide *;
    var k := RefusedOne(w, source, h, log);
    var front, e := log[..k - 1], log[k - 1];
    assert log[..k] == front + [e];
    var g := OnTokens(w, source, h, M.Tokens(front));
    NotAccepted(w, source, g, e);
    M.TokensSnoc(front, e);
    OnTokensAppend(w, source, h, M.Tokens(front), M.EventTokens(e));
    var rest := TokensPart(log, k);
    var bad := OnTokens(w, source, h, M.Tokens(log[..k]));
    OnTokensAppend(w, source, h, M.Tokens(log[..k]), rest + more);
    Regrouped(M.Tokens(log[..k]), rest, more);
    Sticky(w, source, bad, rest + more);
  }

  lemma RefusedOne(w: World, source: nat -> Attempt, h: Hand, log: seq<M.Event>) returns (k: nat)
    requires Shape(w, h) && !M.Granted(Reply(w, source, h), 0, log)
    ensures 0 < k <= |log| && !Accepts(w, OnTokens(w, source, h, M.Tokens(log[..k - 1])), log[k - 1])
  {
    hide OnTokens, M.Tokens, Accepts;
    k :| 0 < k <= |log| && !Reply(w, source, h)(log[..k]);
    assert log[..k][..k - 1] == log[..k - 1] && log[..k][k - 1] == log[k - 1];
  }

  lemma Regrouped(a: seq<Token>, b: seq<Token>, c: seq<Token>)
    ensures (a + b) + c == a + (b + c)
  {
  }

  class DeltaHandler {
    const w: World
    /** The outcome of the t-th copy from the source. */
    const source: nat -> Attempt
    /** What the downloader sends, and whether the n-th request can be made. */
    const answers: seq<Answer>
    const trigger: nat -> bool
    var requests: nat
    var position: nat
    var chunk: nat
    var ready: bool
    var chunkSize: nat
    var buffer: seq<byte>
    var out: seq<byte>
    var errorInParser: bool
    var clock: nat
    var dwlstate: DwlState
    var rangeType: RangeType
    var packet: seq<byte>
    var control: Control
    /** What the program does not keep track of. */
    var leaked: nat
    var overrun: bool

    function View(): Hand
      reads this
    {
      Hand(chunk, ready, buffer, out, errorInParser, clock, leaked, overrun)
    }

    ghost predicate Valid()
      reads this
    {
      && Shape(w, View()) && position <= |answers|
      && (ready ==> chunkSize == |w.chunks[chunk].comp|)
    }

    constructor (w: World, source: nat -> Attempt, answers: seq<Answer>, trigger: nat -> bool)
      ensures this.w == w && this.source == source && this.answers == answers && this.trigger == trigger
      ensures Valid() && View() == Hand(0, false, [], [], false, 0, 0, false) && dwlstate == NotRunning && position == 0
    {
      this.w, this.source, this.answers, this.trigger := w, source, answers, trigger;
      position, requests, chunk, ready, chunkSize, buffer := 0, 0, 0, false, 0, [];
      out, errorInParser, clock, dwlstate := [], false, 0, NotRunning;
      rangeType, packet, control, leaked, overrun := NoneRange, [], Control(Start, 0), 0, false;
    }

    /** The buffer holds a whole chunk: writes it if its digest is right and goes
        on to the next chunk. */
    method CopyChunk(buf: seq<byte>) returns (ok: bool)
      requires Valid() && ready && !errorInParser && |buf| == chunkSize
      modifies this`out, this`errorInParser, this`chunk, this`ready, this`buffer, this`chunkSize
      ensures Valid() && ok == !errorInParser
      ensures old(chunkSize) > 0 ==> View() == Complete(w, old(View()), buf)
      ensures old(chunkSize) == 0 ==>
              View() == old(View()).(chunk := old(chunk) + 1, ready := old(chunk) + 1 < |w.chunks|, buffer := [])
    {
      ok := true;
      if chunkSize != 0 {
        var copy := w.unzip(buf);
        var expected := w.digest(w.chunks[chunk].comp);
        out := out + copy.written;
        ok := copy.ok && (expected == 0 || w.digest(buf) == expected);
      }
      buffer := [];
      if !ok {
        errorInParser, ready := true, false;
        return;
      }
      chunk := chunk + 1;
      ready := chunk < |w.chunks|;
      if ready {
        chunkSize := |w.chunks[chunk].comp|;
      }
    }

    /** Part data from the parser, or from a single-range answer. */
    method NetworkProcessData(data: seq<byte>) returns (ok: bool)
      requires Valid()
      modifies this`out, this`errorInParser, this`chunk, this`ready, this`buffer, this`chunkSize, this`overrun
      ensures Valid() && View() == OnBytes(w, old(View()), data) && ok == !errorInParser
    {
      if errorInParser {
        FailedStays(w, View(), data);
        return false;
      }
      var rest := data;
      while |rest| > 0
        invariant Valid() && !errorInParser && OnBytes(w, View(), rest) == OnBytes(w, old(View()), data)
        decreases |rest|, |w.chunks| - chunk
      {
        if !ready {
          overrun := true;
          NoRoom(w, View(), rest);
          return true;
        }
        ghost var h, more := View(), rest;
        var missing := chunkSize - |buffer|;
        var n := if |rest| < missing then |rest| else missing;
        var buf := buffer + rest[..n];
        rest := rest[n..];
        assert more == more[..n] + rest;
        if |buf| < chunkSize {
          buffer := buf;
          FillSome(w, h, more[..n], rest);
        } else {
          if chunkSize == 0 {
            PassEmpty(w, h, more);
          } else {
            FillAll(w, h, more[..n], rest);
          }
          ok := CopyChunk(buf);
          if !ok {
            FailedStays(w, View(), rest);
            return false;
          }
        }
      }
      ok := true;
    }

    /** The headers of a part are complete: a buffer for the current chunk is needed. */
    method MultipartDataComplete() returns (ok: bool)
      requires Valid()
      modifies this`ready, this`buffer, this`chunkSize, this`overrun
      ensures Valid() && View() == OnToken(w, source, old(View()), HeadersComplete) && ok == (chunk < |w.chunks|)
    {
      ok := chunk < |w.chunks|;
      overrun := overrun || !ok;
      ready, buffer := ok, [];
      if ok {
        chunkSize := |w.chunks[chunk].comp|;
      }
    }

    /** Copies chunks from the source until one must be downloaded. */
    method CopyExistingChunks() returns (ok: bool)
      requires Valid() && !ready
      modifies this`chunk, this`out, this`clock
      ensures Valid() && (View(), ok) == CopyExisting(w, source, old(View()))
    {
      while chunk < |w.chunks| && w.chunks[chunk].valid
        invariant Valid() && !ready && CopyExisting(w, source, View()) == CopyExisting(w, source, old(View()))
        decreases |w.chunks| - chunk
      {
        var content := w.chunks[chunk].content;
        if content == [] {
          chunk := chunk + 1;
        } else {
          var attempt := source(clock);
          clock := clock + 1;
          match attempt {
            case SrcFail(written) =>
              out := out + written;
              return false;
            case SrcOk =>
              out := out + content;
              chunk := chunk + 1;
          }
        }
      }
      ok := true;
    }

    /** A range is complete: chunks up to the next range come from the source. */
    method MultipartDataEnd()
      requires Valid()
      modifies this`ready, this`buffer, this`chunk, this`out, this`clock, this`leaked
      ensures Valid() && View() == OnRangeEnd(w, source, old(View()))
    {
      ready, buffer := false, [];
      ghost var h := View();
      var ok := CopyExistingChunks();
      if !ok {
        leaked := leaked + LastWritten(source, clock);
        CopyExistingShape(w, source, h);
      }
    }

    /** What every step keeps: see Inv, and no leak from a source that fails only as a whole. */
    ghost predicate Good()
      reads this
    {
      Valid() && w.Sound() && Inv(w, View()) && (Whole(source) ==> leaked == 0)
    }

    /** One callback of the parser. */
    method Callback(e: M.Event) returns (ok: bool)
      requires Good()
      modifies this`out, this`errorInParser, this`chunk, this`ready, this`buffer, this`chunkSize, this`clock,
               this`leaked, this`overrun
      ensures Good() && View() == OnTokens(w, source, old(View()), M.EventTokens(e))
      ensures ok == Accepts(w, old(View()), e)
      ensures old(errorInParser) ==> errorInParser
    {
      ghost var h := View();
      OnTokensKeep(w, source, h, M.EventTokens(e));
      OnEvent(w, source, h, e);
      if Whole(source) {
        WholeTokens(w, source, h, M.EventTokens(e));
      }
      hide Inv, OnByte, OnBytes, OnTokens, World.Sound, Whole;
      ok := true;
      if e.Data? {
        ok := NetworkProcessData(e.bytes);
      } else if e == M.Note(HeadersComplete) {
        ok := MultipartDataComplete();
      } else if e == M.Note(PartEnd) {
        MultipartDataEnd();
      }
    }

    /** The callbacks of one call of the parser, in order. */
    method Callbacks(log: seq<M.Event>)
      requires Good()
      modifies this`out, this`errorInParser, this`chunk, this`ready, this`buffer, this`chunkSize, this`clock,
               this`leaked, this`overrun
      ensures Good() && (old(errorInParser) ==> errorInParser)
      ensures View() == OnTokens(w, source, old(View()), M.Tokens(log))
    {
      hide Inv, Shape, OnToken, World.Sound, Whole;
      var k := 0;
      assert log[..0] == [];
      while k < |log|
        invariant 0 <= k <= |log| && Good() && (old(errorInParser) ==> errorInParser)
        invariant Shape(w, old(View())) && View() == OnTokens(w, source, old(View()), M.Tokens(log[..k]))
      {
        ghost var h := View();
        var ok := Callback(log[k]);
        assert log[..k + 1] == log[..k] + [log[k]];
        M.TokensSnoc(log[..k], log[k]);
        OnTokensAppend(w, source, old(View()), M.Tokens(log[..k]), M.EventTokens(log[k]));
        // This is what the parser was told.
        assert ok == Reply(w, source, old(View()))(log[..k + 1]) by {
          assert log[..k + 1][..k] == log[..k];
        }
        k := k + 1;
      }
      assert log[..k] == log;
    }

    /** One call of the parser, for the packet in hand; it goes on where it stopped. */
    method ExecuteParser()
      requires Good() && rangeType.MultipartRange? && ValidControl(rangeType.boundary, control)
      modifies this`out, this`errorInParser, this`chunk, this`ready, this`buffer, this`chunkSize, this`clock,
               this`leaked, this`overrun, this`control
      ensures Good() && (old(errorInParser) ==> errorInParser) && ValidControl(rangeType.boundary, control)
      ensures var o := Run(rangeType.boundary, old(control), packet);
        && (!errorInParser && !overrun ==> View() == OnTokens(w, source, old(View()), o.tokens) && control == o.end)
        && var r := OnTokens(w, source, old(View()), o.tokens);
           (!r.failed && !r.overrun ==> View() == r && control == o.end) && (overrun ==> r.overrun)
    {
      hide Run, Inv, OnTokens, World.Sound, Whole, ValidControl, M.Tokens;
      var log;
      log, control := ParsePacket(w, source, View(), rangeType.boundary, control, packet);
      StickyPart(w, source, View(), M.Tokens(log), Run(rangeType.boundary, old(control), packet).tokens);
      Callbacks(log);
    }

    /** Hands a packet on: directly for a single range, through the parser otherwise. */
    method FillBuffersList() returns (ok: bool)
      requires Good() && (rangeType.MultipartRange? ==> ValidControl(rangeType.boundary, control))
      modifies this`out, this`errorInParser, this`chunk, this`ready, this`buffer, this`chunkSize, this`clock,
               this`leaked, this`overrun, this`control
      ensures Good() && (old(errorInParser) ==> errorInParser)
      ensures rangeType.MultipartRange? ==>
        var o := Run(rangeType.boundary, old(control), packet);
        && ok && ValidControl(rangeType.boundary, control)
        && (!errorInParser && !overrun ==> View() == OnTokens(w, source, old(View()), o.tokens) && control == o.end)
        && var r := OnTokens(w, source, old(View()), o.tokens);
           (!r.failed && !r.overrun ==> View() == r && control == o.end) && (overrun ==> r.overrun)
      ensures !rangeType.MultipartRange? ==> View() == OnBytes(w, old(View()), packet) && ok == !errorInParser
    {
      if rangeType.MultipartRange? {
        hide Run, Inv, OnTokens, World.Sound, Whole, ValidControl, Shape;
        ExecuteParser();
        return true;
      }
      OnBytesKeep(w, View(), packet);
      hide Inv, World.Sound, OnBytes, Whole;
      ok := NetworkProcessData(packet);
    }

    /** Reads the next packet; an error or the end of the packets is a failure. */
    method ReadPackage() returns (ok: bool, answer: Answer)
      requires position <= |answers|
      modifies this`position, this`packet
      ensures old(position) <= position <= |answers|
      ensures ok <==> old(position) < |answers| && answers[old(position)].kind != ErrorAnswer
      ensures ok ==>
              position == old(position) + 1 && answer == answers[old(position)] && packet == answer.data &&
              answer.kind != ErrorAnswer
    {
      if position == |answers| {
        return false, Answer(ErrorAnswer, [], NoneRange);
      }
      answer := answers[position];
      position := position + 1;
      ok := answer.kind != ErrorAnswer;
      packet := answer.data;
    }

    /** The parser, when there is one, is in a proper state. */
    ghost predicate ParserReady()
      reads this
    {
      dwlstate in {WaitingForFirstData, WaitingForData, EndTransfer} ==>
        rangeType != NoneRange && (rangeType.MultipartRange? ==> ValidControl(rangeType.boundary, control))
    }

    /** The packet in hand must hold the start of the body; the parser is set up for it. */
    method SetUpParser() returns (ok: bool)
      requires Good() && dwlstate == WaitingForBoundary
      modifies this`packet, this`control, this`dwlstate
      ensures Good() && (ok ==> dwlstate == WaitingForFirstData && ParserReady())
      ensures ok && rangeType.MultipartRange? ==> control == Control(Start, 0)
      ensures rangeType == NoneRange ==> !ok
      ensures rangeType == SingleRange ==> ok && packet == old(packet)
      ensures rangeType.MultipartRange? && rangeType.boundary != [] ==>
        forall at: nat | FirstBoundary(old(packet), rangeType.boundary, at) :: ok && packet == old(packet)[at..]
    {
      if rangeType == NoneRange {
        return false;
      }
      if rangeType.MultipartRange? {
        var found, at := SearchBoundary(packet, rangeType.boundary);
        if !found || rangeType.boundary == [] {
          return false;
        }
        packet := packet[at..];
        control := Control(Start, 0);
      }
      dwlstate := WaitingForFirstData;
      ok := true;
    }

    /** The buffer of a chunk that was not completed is never looked at again. */
    method Abandon()
      requires Good()
      modifies this`ready, this`buffer
      ensures Good() && !ready && View() == Idle(old(View()))
    {
      ready, buffer := false, [];
    }

    /** Asking for ranges and waiting for the answer's first data. */
    method RequestStep() returns (ok: bool)
      requires Good() && dwlstate in {NotRunning, WaitingForHeaders, WaitingForBoundary}
      modifies this`requests, this`rangeType, this`dwlstate, this`position, this`packet, this`control
      ensures Good() && old(position) <= position
      ensures ok ==> ParserReady() && (position > old(position) || DwlRank(dwlstate) < DwlRank(old(dwlstate)))
      ensures ok && position == old(position) && old(dwlstate) != WaitingForBoundary ==> dwlstate == WaitingForHeaders
      ensures ok ==> position <= |answers| && NoError(answers, old(position), position) && dwlstate != EndTransfer
      ensures requests == old(requests) + if old(dwlstate) == NotRunning then 1 else 0
      ensures Asked(trigger(old(requests)), answers, old(dwlstate), old(position), old(rangeType), old(packet),
                    dwlstate, position, rangeType, packet, control, ok)
    {
      hide Inv, Shape, World.Sound;
      if dwlstate == NotRunning {
        ok := trigger(requests);
        requests := requests + 1;
        rangeType, dwlstate := NoneRange, WaitingForHeaders;
      } else if dwlstate == WaitingForHeaders {
        var answer;
        ok, answer := ReadPackage();
        if ok && answer.kind == HeaderAnswer && answer.range != NoneRange {
          rangeType := answer.range;
        }
        if ok && answer.kind == DataAnswer {
          dwlstate := WaitingForBoundary;
        }
      } else {
        ok := SetUpParser();
      }
    }

    /** Passing on data until the transfer is over. */
    method DataStep() returns (ok: bool)
      requires Good() && ParserReady() && dwlstate in {WaitingForFirstData, WaitingForData}
      modifies this`out, this`errorInParser, this`chunk, this`ready, this`buffer, this`chunkSize, this`clock,
               this`leaked, this`overrun, this`control, this`position, this`packet, this`dwlstate
      ensures Good() && old(position) <= position && (old(errorInParser) ==> errorInParser)
      ensures ok ==> position <= |answers| && NoError(answers, old(position), position)
      ensures ok && dwlstate == EndTransfer ==> old(position) < position && CompletedAt(answers, position)
      ensures ok ==> ParserReady() && (position > old(position) || DwlRank(dwlstate) < DwlRank(old(dwlstate)))
      ensures Passed(w, source, answers, rangeType, old(dwlstate), old(position), old(packet), old(control),
                     old(View()), dwlstate, position, control, View(), ok)
    {
      hide Inv, Shape, World.Sound, Run, OnToken, OnBytes, OnTokens;
      if dwlstate == WaitingForFirstData {
        if rangeType == SingleRange {
          OnEvent(w, source, View(), M.Note(HeadersComplete));
          ok := Callback(M.Note(HeadersComplete));
          if !ok {
            NotAccepted(w, source, old(View()), M.Note(HeadersComplete));
            StickyBytes(w, source, View(), packet);
            return;
          }
        }
        ok := FillBuffersList();
        dwlstate := WaitingForData;
      } else {
        var answer;
        ok, answer := ReadPackage();
        if ok && answer.kind == CompletedAnswer {
          dwlstate := EndTransfer;
        } else if ok {
          ok := FillBuffersList();
        }
      }
    }

    /** The transfer is over. */
    method EndStep() returns (ok: bool)
      requires Good() && dwlstate == EndTransfer
      modifies this
      ensures Good() && old(position) == position && dwlstate == NotRunning && !ready && (ok <==> !errorInParser)
      ensures View() == Idle(OnEnd(w, source, old(rangeType), old(View()))) && (old(errorInParser) ==> errorInParser)
    {
      hide Inv, Shape, World.Sound, OnToken;
      if rangeType == SingleRange {
        OnEvent(w, source, View(), M.Note(PartEnd));
        var callback := Callback(M.Note(PartEnd));
      }
      Abandon();
      dwlstate := NotRunning;
      ok := !errorInParser;
    }

    /** Any request can be made. */
    ghost predicate Willing() {
      forall n: nat :: trigger(n)
    }

    ghost predicate InPhase(p0: nat, s: Session, h: Hand)
      reads this
    {
      Phase(w, source, answers, p0, s, h, dwlstate, position, rangeType, packet, control, View())
    }

    /** One turn of the download's state machine.  A session that fits is followed until
        an error shows. */
    method NetworkStep(ghost fit: bool, ghost p0: nat, ghost s: Session, ghost h: Hand) returns (ok: bool, done: bool)
      requires Good() && ParserReady() && (fit ==> errorInParser || InPhase(p0, s, h))
      modifies this
      ensures Good() && old(position) <= position && done == (old(dwlstate) == EndTransfer)
      ensures ok ==> position <= |answers| && NoError(answers, old(position), position)
      ensures ok && !done && dwlstate == EndTransfer ==> old(position) < position && CompletedAt(answers, position)
      ensures ok && !done ==> ParserReady() && (position > old(position) || DwlRank(dwlstate) < DwlRank(old(dwlstate)))
      ensures ok && !done && position == old(position) && old(dwlstate) in {NotRunning, WaitingForHeaders} ==>
              dwlstate == WaitingForHeaders
      ensures ok && done ==> !errorInParser && dwlstate == NotRunning && !ready && position == old(position)
      ensures fit && ok && !done ==> errorInParser || InPhase(p0, s, h)
      ensures fit && ok && done ==>
        Fine(w, source, h, s) && position == p0 + s.Length() && View() == Final(w, source, h, s)
      ensures fit && Willing() && Fine(w, source, h, s) && !old(errorInParser) ==> ok && !errorInParser
    {
      hide Inv, Shape, World.Sound, Phase, Result, Final, Fine, OnEnd, Idle, Asked, Passed;
      ghost var st, pos, range, pk, ctl, view := dwlstate, position, rangeType, packet, control, View();
      ghost var possible, good := trigger(requests), fit && !errorInParser;
      done := dwlstate == EndTransfer;
      if dwlstate in {NotRunning, WaitingForHeaders, WaitingForBoundary} {
        ok := RequestStep();
        if good {
          PhaseAsked(w, source, answers, p0, s, h, possible, st, pos, range, pk, ctl, view, dwlstate, position,
                     rangeType, packet, control, ok);
        }
      } else if done {
        if good {
          PhaseEnds(w, source, answers, p0, s, h, pos, range, pk, ctl, view);
        }
        ok := EndStep();
      } else {
        ok := DataStep();
        if good {
          PhasePassed(w, source, answers, p0, s, h, st, pos, range, pk, ctl, view, dwlstate, position, packet, control,
                      View(), ok);
        }
      }
    }

    /** Downloads a set of ranges starting with the current chunk.  If the request is
        answered with a session that fits, it succeeds if and only if every chunk is
        right, provided that the request can be made.  Whatever the answers are, it
        succeeds only with a transfer that was completed, without an error. */
    method CopyNetworkChunks(ghost s: Session) returns (ok: bool)
      requires Good() && !errorInParser && dwlstate == NotRunning
      modifies this
      ensures Good() && old(position) <= position
      ensures ok ==> !errorInParser && dwlstate == NotRunning && !ready && position > old(position)
      ensures ok ==> CompletedAt(answers, position) && NoError(answers, old(position), position)
      ensures Willing() && Sends(answers, old(position), s) && Fine(w, source, old(View()), s) ==> ok
      ensures Sends(answers, old(position), s) && Fit(w, source, old(View()), s) && ok ==>
        && Fine(w, source, old(View()), s)
        && position == old(position) + s.Length() && View() == Final(w, source, old(View()), s)
    {
      ghost var p0, h := position, View();
      ghost var fit := Sends(answers, p0, s) && Fit(w, source, h, s);
      ghost var sure := fit && Willing() && Fine(w, source, h, s);
      assert fit ==> InPhase(p0, s, h);
      assert Willing() && Sends(answers, p0, s) && Fine(w, source, h, s) ==> sure;
      Bounded();
      hide DeltaHandler.Good, DeltaHandler.InPhase, DeltaHandler.Willing, Sends, Fine, Fit, Final;
      var done := false;
      while !done
        invariant Good() && ParserReady() && old(position) <= position
        invariant position == old(position) ==> dwlstate in {NotRunning, WaitingForHeaders} && !done
        invariant done ==> !errorInParser && dwlstate == NotRunning && !ready
        invariant sure ==> !errorInParser
        invariant fit && !done ==> errorInParser || InPhase(p0, s, h)
        invariant fit && done ==>
          Fine(w, source, h, s) && position == p0 + s.Length() && View() == Final(w, source, h, s)
        invariant position <= |answers| && NoError(answers, old(position), position)
        invariant done || dwlstate == EndTransfer ==> CompletedAt(answers, position)
        decreases !done, |answers| - position, DwlRank(dwlstate)
      {
        ok, done := NetworkStep(fit, p0, s, h);
        if !ok {
          return false;
        }
        Bounded();
      }
      ok := true;
    }

    lemma Bounded()
      requires Good()
      ensures position <= |answers| && Shape(w, View()) && chunk <= |w.chunks|
    {
    }

    /** Between two steps of the main loop. */
    ghost predicate AtRest()
      reads this
    {
      Good() && !errorInParser && dwlstate == NotRunning && !ready
    }

    method SourceStep() returns (ok: bool)
      requires AtRest() && chunk < |w.chunks| && w.chunks[chunk].valid
      modifies this`chunk, this`out, this`clock
      ensures (View(), ok) == CopyExisting(w, source, old(View()))
      ensures ok ==> AtRest() && chunk > old(chunk)
    {
      ghost var h := View();
      CopyExistingKeeps(w, source, h);
      CopyExistingShape(w, source, h);
      hide World.Sound, World.Target, Inv, Whole;
      ok := CopyExistingChunks();
      if ok {
        CopyExistingMoves(w, source, h);
      }
    }

    /** The session s answers the next request, and what is left serves the others. */
    ghost predicate Serves(s: Session, left: seq<Session>, end: Hand)
      reads this
    {
      && Shape(w, View()) && Willing() && Sends(answers, position, s) && Fine(w, source, View(), s)
      && var r := Final(w, source, View(), s);
         && Shape(w, r) && Served(w, source, answers, position + s.Length(), r, left)
         && end == Ending(w, source, answers, position + s.Length(), r, left)
    }

    /** These sessions serve everything that is left to do, and lead to this end. */
    ghost predicate ServedOn(sessions: seq<Session>, end: Hand)
      reads this
    {
      && Shape(w, View()) && Willing() && Served(w, source, answers, position, View(), sessions)
      && end == Ending(w, source, answers, position, View(), sessions)
    }

    /** There are no answers left, or the session s answers the next request, and that or
        what is left goes wrong. */
    ghost predicate Dooms(s: Session, left: seq<Session>)
      reads this
    {
      Shape(w, View()) && position < |answers| ==>
      && Sends(answers, position, s) && Fit(w, source, View(), s)
      && (Fine(w, source, View(), s) ==>
            var r := Final(w, source, View(), s);
            Shape(w, r) && Doomed(w, source, answers, position + s.Length(), r, left))
    }

    /** With these sessions something goes wrong. */
    ghost predicate DoomedOn(sessions: seq<Session>)
      reads this
    {
      Shape(w, View()) && Doomed(w, source, answers, position, View(), sessions)
    }

    method NetworkPart(ghost good: bool, ghost bad: bool, ghost s: Session, ghost left: seq<Session>, ghost end: Hand)
      returns (ok: bool)
      requires Good() && !errorInParser && dwlstate == NotRunning
      requires (good ==> Serves(s, left, end)) && (bad ==> Dooms(s, left))
      modifies this
      ensures ok ==> Good() && !errorInParser && dwlstate == NotRunning && !ready && position > old(position)
      ensures ok ==> position <= |answers| && NoError(answers, old(position), position)
      ensures (good ==> ok && ServedOn(left, end)) && (bad && ok ==> DoomedOn(left))
    {
      hide DeltaHandler.Good, DeltaHandler.Willing, Sends, Fine, Fit, Final, Served, Doomed, Ending, Shape, Inv;
      FineFits(w, source, View(), s);
      Bounded();
      ok := CopyNetworkChunks(s);
      Bounded();
    }

    lemma NextServed(sessions: seq<Session>, end: Hand)
      requires ServedOn(sessions, end) && chunk < |w.chunks| && !w.chunks[chunk].valid
      ensures sessions != [] && Serves(sessions[0], sessions[1..], end)
    {
      hide Fine, Final, Sends, Served, Ending, DeltaHandler.Willing, CopyExisting;
      ServedNext(w, source, answers, position, View(), sessions);
    }

    lemma NextDoomed(sessions: seq<Session>, s: Session, left: seq<Session>)
      requires DoomedOn(sessions) && chunk < |w.chunks| && !w.chunks[chunk].valid
      requires sessions != [] ==> s == sessions[0] && left == sessions[1..]
      ensures Dooms(s, left)
    {
      hide Fine, Fit, Final, Sends, Doomed, CopyExisting;
      DoomedNext(w, source, answers, position, View(), sessions);
    }

    method SourcePart(ghost good: bool, ghost bad: bool, ghost sessions: seq<Session>, ghost end: Hand)
      returns (ok: bool)
      requires AtRest() && chunk < |w.chunks| && w.chunks[chunk].valid
      requires (good ==> ServedOn(sessions, end)) && (bad ==> DoomedOn(sessions))
      modifies this`chunk, this`out, this`clock
      ensures ok ==> AtRest() && chunk > old(chunk)
      ensures (good ==> ok && ServedOn(sessions, end)) && (bad && ok ==> DoomedOn(sessions))
    {
      if good {
        ServedNext(w, source, answers, position, View(), sessions);
      }
      if bad {
        DoomedNext(w, source, answers, position, View(), sessions);
      }
      hide DeltaHandler.AtRest, DeltaHandler.Willing, Served, Doomed, Ending, CopyExisting, Shape;
      ok := SourceStep();
    }

    /** The chunks from the current one on come from the source or the network. */
    method ChunkStep(ghost good: bool, ghost bad: bool, ghost sessions: seq<Session>, ghost end: Hand)
      returns (ok: bool, ghost left: seq<Session>)
      requires AtRest() && chunk < |w.chunks| && (good ==> ServedOn(sessions, end)) && (bad ==> DoomedOn(sessions))
      modifies this
      ensures ok ==> AtRest() && (position > old(position) || (position == old(position) && chunk > old(chunk)))
      ensures ok ==> position <= |answers| && NoError(answers, old(position), position)
      ensures (good ==> ok && ServedOn(left, end)) && (bad && ok ==> DoomedOn(left))
    {
      hide DeltaHandler.Good, DeltaHandler.Serves, DeltaHandler.ServedOn, DeltaHandler.Dooms, DeltaHandler.DoomedOn;
      left := sessions;
      if w.chunks[chunk].valid {
        Bounded();
        ok := SourcePart(good, bad, sessions, end);
      } else {
        ghost var s := Session(0, NoneRange, [], []);
        if good {
          NextServed(sessions, end);
        }
        if sessions != [] {
          s, left := sessions[0], sessions[1..];
        }
        if bad {
          NextDoomed(sessions, s, left);
        }
        ok := NetworkPart(good, bad, s, left, end);
      }
    }

    /** Works through all chunks.  On success the output is the new image, if no copy
        from the source fails after having written something.  It succeeds, with the end
        that the sessions lead to, if every request is served, and fails if one of them
        is answered with a wrong chunk or not at all, or if an error is among the answers
        it took. */
    method InstallDelta(ghost sessions: seq<Session>) returns (ok: bool)
      requires AtRest() && chunk == 0
      modifies this
      ensures ok ==> |out| == |w.Target(|w.chunks|)| + leaked && (leaked == 0 ==> out == w.Target(|w.chunks|))
      ensures ok && Whole(source) ==> out == w.Target(|w.chunks|)
      ensures Willing() && Served(w, source, answers, old(position), old(View()), sessions) ==>
        ok && View() == Ending(w, source, answers, old(position), old(View()), sessions)
      ensures Doomed(w, source, answers, old(position), old(View()), sessions) ==> !ok
      ensures ok ==> old(position) <= position <= |answers| && NoError(answers, old(position), position)
    {
      hide World.Sound, World.Target, Inv, Shape, Served, Ending, Doomed, Whole, DeltaHandler.Willing;
      ghost var good, left := Willing() && Served(w, source, answers, position, View(), sessions), sessions;
      ghost var bad := Doomed(w, source, answers, position, View(), sessions);
      ghost var end := if good then Ending(w, source, answers, position, View(), sessions) else View();
      Bounded();
      hide DeltaHandler.ServedOn, DeltaHandler.DoomedOn;
      assert (good ==> ServedOn(left, end)) && (bad ==> DoomedOn(left)) by { Begun(good, bad, left, end); }
      while chunk < |w.chunks|
        invariant AtRest() && chunk <= |w.chunks| && (good ==> ServedOn(left, end)) && (bad ==> DoomedOn(left))
        invariant old(position) <= position <= |answers| && NoError(answers, old(position), position)
        decreases |answers| - position, |w.chunks| - chunk
      {
        ok, left := ChunkStep(good, bad, left, end);
        if !ok {
          return false;
        }
        Bounded();
      }
      Finished(good, bad, left, end);
      ok := true;
    }

    lemma Begun(good: bool, bad: bool, sessions: seq<Session>, end: Hand)
      requires Shape(w, View())
      requires good ==> Willing() && Served(w, source, answers, position, View(), sessions)
      requires good ==> end == Ending(w, source, answers, position, View(), sessions)
      requires bad ==> Doomed(w, source, answers, position, View(), sessions)
      ensures (good ==> ServedOn(sessions, end)) && (bad ==> DoomedOn(sessions))
    {
      hide Shape, Served, Ending, Doomed, DeltaHandler.Willing;
    }

    /** All chunks are done. */
    lemma Finished(good: bool, bad: bool, left: seq<Session>, end: Hand)
      requires AtRest() && chunk == |w.chunks| && (good ==> ServedOn(left, end)) && (bad ==> DoomedOn(left))
      ensures |out| == |w.Target(|w.chunks|)| + leaked && (leaked == 0 ==> out == w.Target(|w.chunks|))
      ensures Whole(source) ==> leaked == 0
      ensures (good ==> View() == end) && !bad
    {
      hide World.Sound, World.Target, Whole, DeltaHandler.Willing;
    }
  }

  lemma StickyPart(w: World, source: nat -> Attempt, h: Hand, told: seq<Token>, due: seq<Token>)
    requires Shape(w, h) && told <= due
    ensures OnTokens(w, source, h, told).overrun ==> OnTokens(w, source, h, due).overrun
  {
    var rest := due[|told|..];
    assert due == told + rest;
    hide OnTokens;
    OnTokensAppend(w, source, h, told, rest);
    Sticky(w, source, OnTokens(w, source, h, told), rest);
  }

  lemma RefusedAnyway(w: World, source: nat -> Attempt, h: Hand, log: seq<M.Event>, due: seq<Token>)
    requires Shape(w, h) && !M.Granted(Reply(w, source, h), 0, log) && M.Tokens(log) <= due
    ensures var r := OnTokens(w, source, h, M.Tokens(log)); r.failed || r.overrun
    ensures var r := OnTokens(w, source, h, due); r.failed || r.overrun
  {
    hide *;
    var more := due[|M.Tokens(log)|..];
    RefusedShows(w, source, h, log, more);
    RefusedShows(w, source, h, log, []);
    assert due == M.Tokens(log) + more && M.Tokens(log) + [] == M.Tokens(log);
  }

  /** One call of the parser, which goes on where it stopped, with the answers that the
      handler in state h gives.  Unless one of them is a refusal, and an error then
      shows, everything is notified. */
  method ParsePacket(w: World, source: nat -> Attempt, h: Hand, boundary: seq<byte>, control: Control,
                     packet: seq<byte>)
    returns (log: seq<M.Event>, next: Control)
    requires Shape(w, h) && ValidControl(boundary, control)
    ensures ValidControl(boundary, next)
    ensures var o := Run(boundary, control, packet);
      M.Tokens(log) <= o.tokens &&
      (Clean(OnTokens(w, source, h, M.Tokens(log))) || Clean(OnTokens(w, source, h, o.tokens)) ==>
        M.Tokens(log) == o.tokens && next == o.end)
  {
    ghost var o := Run(boundary, control, packet);
    hide Run, OnTokens, ValidControl, M.Tokens, Shape, Reply, M.Granted;
    var parser := new M.Parser.Resume(boundary, Reply(w, source, h), control);
    var n := parser.Execute(packet);
    ParserStays(w, source, h, parser.events);
    log, next := parser.events, Control(parser.state, parser.index);
    assert M.Tokens([]) + o.tokens == o.tokens by { NoTokens(o.tokens); }
    if !M.Granted(parser.reply, 0, log) {
      RefusedAnyway(w, source, h, log, o.tokens);
    }
  }

  predicate Clean(h: Hand) { !h.failed && !h.overrun }

  lemma NoTokens(ts: seq<Token>)
    ensures M.Tokens([]) + ts == ts
  {
  }

  /** The end of a part is never refused. */
  lemma ParserStays(w: World, source: nat -> Attempt, h: Hand, log: seq<M.Event>)
    ensures log != [] && log[|log| - 1] == M.Note(PartEnd) ==> Reply(w, source, h)(log)
  {
  }

  lemma {:induction false} CopyExistingMoves(w: World, source: nat -> Attempt, h: Hand)
    requires h.chunk < |w.chunks| && w.chunks[h.chunk].valid && CopyExisting(w, source, h).1
    ensures CopyExisting(w, source, h).0.chunk > h.chunk
    decreases |w.chunks| - h.chunk
  {
    var c := w.chunks[h.chunk].content;
    var g := if c == [] then h.(chunk := h.chunk + 1)
        else h.(chunk := h.chunk + 1, out := h.out + c, clock := h.clock + 1);
    if g.chunk < |w.chunks| && w.chunks[g.chunk].valid {
      CopyExistingMoves(w, source, g);
    }
  }

  lemma {:induction false} OnBytesKeep(w: World, h: Hand, data: seq<byte>)
    requires w.Sound() && Inv(w, h)
    ensures Inv(w, OnBytes(w, h, data)) && OnBytes(w, h, data).leaked == h.leaked
    ensures h.failed ==> OnBytes(w, h, data).failed
    decreases |data|
  {
    if data != [] {
      OnByteKeeps(w, h, data[0]);
      OnBytesKeep(w, OnByte(w, h, data[0]), data[1..]);
    }
  }

  /** After an error nothing more is taken. */
  lemma {:induction false} FailedStays(w: World, h: Hand, data: seq<byte>)
    requires Shape(w, h) && h.failed
    ensures OnBytes(w, h, data) == h
    decreases |data|
  {
    if data != [] {
      FailedStays(w, h, data[1..]);
    }
  }

  /** Data for which there is no chunk is dropped. */
  lemma {:induction false} NoRoom(w: World, h: Hand, data: seq<byte>)
    requires Shape(w, h) && !h.failed && !h.ready && h.overrun
    ensures OnBytes(w, h, data) == h
    ensures data != [] ==> OnBytes(w, h.(overrun := false), data) == h
    decreases |data|
  {
    if data != [] {
      NoRoom(w, h, data[1..]);
    }
  }
}
