/** Chunks to download that have no bytes: when the bytes a server is asked for do not
    bring the handler to the next request. */
module DeltaGap {
  import opened Bytes
  import opened MultipartSpec
  import opened MultipartBody
  import opened DeltaSpec
  import opened DeltaSession
  import opened DeltaRequest
  import opened Ranges
  import opened Delta
  import opened DeltaProps

  // ----- Bytes taken -----

  lemma {:induction false} VoidBytes(w: World, a: nat, b: nat)
    requires a <= b <= |w.chunks|
    ensures RangeBytes(w, a, b) == [] <==> Void(w, a, b)
    decreases b
  {
    if a < b {
      VoidBytes(w, a, b - 1);
      assert Void(w, a, b) <==> Void(w, a, b - 1) && w.chunks[b - 1].comp == [];
    }
  }

  lemma {:induction false} SkipsVoid(w: World, k: nat)
    requires k <= |w.chunks|
    ensures Void(w, k, SkipEmpty(w, k))
    decreases |w.chunks| - k
  {
    if k < |w.chunks| && w.chunks[k].comp == [] {
      SkipsVoid(w, k + 1);
    }
  }

  /** As many bytes are in the chunks passed and in the buffer as were taken, unless
      something went wrong. */
  ghost predicate Taken(w: World, h: Hand, n: nat, r: Hand)
    requires h.chunk <= |w.chunks| && r.chunk <= |w.chunks|
  {
    r.failed || r.overrun ||
    (h.chunk <= r.chunk && |RangeBytes(w, h.chunk, r.chunk)| + |r.buffer| == |h.buffer| + n)
  }

  lemma OnByteTaken(w: World, h: Hand, b: byte)
    requires Shape(w, h)
    ensures Shape(w, OnByte(w, h, b)) && Taken(w, h, 1, OnByte(w, h, b))
  {
    if !h.failed && h.ready {
      var k := if h.buffer == [] then SkipEmpty(w, h.chunk) else h.chunk;
      SkipsVoid(w, h.chunk);
      VoidBytes(w, h.chunk, k);
      assert k < |w.chunks| ==> RangeBytes(w, h.chunk, k + 1) == RangeBytes(w, h.chunk, k) + w.chunks[k].comp;
      hide RangeBytes, SkipEmpty, Void;
    }
  }

  lemma {:induction false} OnBytesTaken(w: World, h: Hand, data: seq<byte>)
    requires Shape(w, h)
    ensures Taken(w, h, |data|, OnBytes(w, h, data))
    decreases |data|
  {
    if data == [] {
      assert RangeBytes(w, h.chunk, h.chunk) == [];
    } else {
      var g := OnByte(w, h, data[0]);
      OnByteTaken(w, h, data[0]);
      OnBytesTaken(w, g, data[1..]);
      StickyBytes(w, _ => SrcOk, g, data[1..]);
      var r := OnBytes(w, g, data[1..]);
      if h.chunk <= g.chunk <= r.chunk {
        RangeBytesSplit(w, h.chunk, g.chunk, r.chunk);
      }
      hide RangeBytes, OnByte, Shape;
    }
  }

  /** Copying from the source stops at a chunk to download. */
  lemma {:induction false} CopyStops(w: World, source: nat -> Attempt, h: Hand, e: nat)
    requires h.chunk < e <= |w.chunks| && !w.chunks[e - 1].valid
    ensures CopyExisting(w, source, h).0.chunk < e
    decreases |w.chunks| - h.chunk
  {
    if w.chunks[h.chunk].valid {
      var c := w.chunks[h.chunk].content;
      if c == [] {
        CopyStops(w, source, h.(chunk := h.chunk + 1), e);
      } else if source(h.clock).SrcOk? {
        CopyStops(w, source, h.(chunk := h.chunk + 1, out := h.out + c, clock := h.clock + 1), e);
      }
    }
  }

  // ----- Staying behind -----

  /** Something went wrong, or chunk e - 1 has not been reached. */
  predicate Behind(h: Hand, e: nat) {
    h.failed || h.overrun || h.chunk < e
  }

  lemma PartIs(w: World, source: nat -> Attempt, h: Hand, data: seq<byte>)
    requires Shape(w, h) && h.chunk < |w.chunks|
    ensures var h2 := OnBytes(w, h.(ready := true, buffer := []), data);
      OnTokens(w, source, h, PartOf(data)) == OnToken(w, source, h2, PartEnd)
  {
    var h1 := h.(ready := true, buffer := []);
    assert OnToken(w, source, h, HeadersComplete) == h1;
    hide OnToken, OnTokens, OnBytes;
    OnTokensAppend(w, source, h, [HeadersComplete], AsData(data) + [PartEnd]);
    OnTokensOne(w, source, h, HeadersComplete);
    OnTokensAppend(w, source, h1, AsData(data), [PartEnd]);
    OnTokensData(w, source, h1, data);
    OnTokensOne(w, source, OnBytes(w, h1, data), PartEnd);
  }

  lemma EndBehind(w: World, source: nat -> Attempt, h: Hand, e: nat)
    requires Shape(w, h) && e <= |w.chunks| && 0 < e && !w.chunks[e - 1].valid && Behind(h, e)
    ensures Behind(OnToken(w, source, h, PartEnd), e)
  {
    EndKeeps(w, source, h);
    if h.chunk < e {
      CopyStops(w, source, h.(ready := false, buffer := []), e);
    }
  }

  /** A range has fewer bytes than there are from a chunk before it to its end, if there
      are bytes in between. */
  lemma FewerBytes(w: World, a: nat, b: nat, c: nat, e: nat, r: nat)
    requires a <= b <= c <= e <= r <= |w.chunks| && !Void(w, b, c)
    ensures |RangeBytes(w, c, e)| < |RangeBytes(w, a, r)|
  {
    VoidBytes(w, b, c);
    hide RangeBytes, Void;
    RangeBytesSplit(w, a, e, r);
    RangeBytesSplit(w, a, c, e);
    RangeBytesSplit(w, a, b, c);
  }

  lemma BytesBehind(w: World, h: Hand, b: nat, c: nat, e: nat, data: seq<byte>)
    requires Shape(w, h) && h.ready && h.buffer == [] && h.chunk < b <= c < e <= |w.chunks| && !Void(w, b, c)
    requires |data| == |RangeBytes(w, c, e)|
    ensures Behind(OnBytes(w, h, data), e)
  {
    OnBytesTaken(w, h, data);
    var r := OnBytes(w, h, data);
    hide OnBytes, RangeBytes, Void;
    if e <= r.chunk {
      FewerBytes(w, h.chunk, b, c, e, r.chunk);
    }
  }

  /** Who is behind stays behind. */
  lemma PartBehind(w: World, source: nat -> Attempt, h: Hand, b: nat, c: nat, e: nat, data: seq<byte>)
    requires Shape(w, h) && Behind(h, b) && b <= c < e <= |w.chunks| && !Void(w, b, c) && !w.chunks[e - 1].valid
    requires |data| == |RangeBytes(w, c, e)|
    ensures Behind(OnTokens(w, source, h, PartOf(data)), e)
  {
    hide RangeBytes, OnTokens, OnBytes, OnToken, Void;
    if h.failed || h.overrun {
      Sticky(w, source, h, PartOf(data));
    } else {
      var h1 := h.(ready := true, buffer := []);
      PartIs(w, source, h, data);
      BytesBehind(w, h1, b, c, e, data);
      EndBehind(w, source, OnBytes(w, h1, data), e);
    }
  }

  function LastEnd(b: nat, rs: seq<Range>): nat { if rs == [] then b else rs[|rs| - 1].end }

  lemma LastEndTail(b: nat, rs: seq<Range>)
    requires rs != []
    ensures LastEnd(b, rs) == LastEnd(rs[0].end, rs[1..]) == rs[|rs| - 1].end
  {
  }

  lemma FirstIsRun(w: World, rs: seq<Range>)
    requires Ordered(w, rs) && rs != []
    ensures rs[0].first < rs[0].end <= |w.chunks| && !w.chunks[rs[0].end - 1].valid
    ensures |rs| > 1 ==> rs[0].end <= rs[1].first <= |w.chunks|
  {
    assert IsRun(w, rs[0]);
    assert |rs| > 1 ==> rs[1].first == NextMissing(w, rs[0].end);
  }

  lemma {:induction false} PartsBehind(w: World, source: nat -> Attempt, h: Hand, b: nat, rs: seq<Range>,
                                       ps: seq<Part>)
    requires Shape(w, h) && Behind(h, b) && b <= |w.chunks| && Ordered(w, rs) && Carries(w, ps, rs)
    requires rs != [] ==> b <= rs[0].first && rs[0].first <= |w.chunks| && !Void(w, b, rs[0].first)
    ensures Behind(OnTokens(w, source, h, PartTokens(ps)), LastEnd(b, rs))
    decreases |rs|
  {
    if rs == [] {
      assert PartTokens(ps) == [];
    } else {
      hide *;
      CarriesStep(w, ps, rs);
      OrderedTail(w, rs);
      FirstIsRun(w, rs);
      LastEndTail(b, rs);
      FirstPart(w, source, h, ps);
      PartBehind(w, source, h, b, rs[0].first, rs[0].end, ps[0].data);
      PartsBehind(w, source, OnTokens(w, source, h, PartOf(ps[0].data)), rs[0].end, rs[1..], ps[1..]);
    }
  }

  /** A range that ends with a chunk without bytes is not completed. */
  lemma PartFalls(w: World, source: nat -> Attempt, h: Hand, a: nat, b: nat)
    requires w.Sound() && At(w, h, a) && Shape(w, h) && a < b <= |w.chunks|
    requires !w.chunks[b - 1].valid && w.chunks[b - 1].comp == []
    ensures Behind(OnTokens(w, source, h, PartOf(RangeBytes(w, a, b))), b)
  {
    var h1, data := h.(ready := true, buffer := []), RangeBytes(w, a, b);
    hide World.Sound, World.Target, OnTokens, OnBytes, OnToken, RangeBytes;
    PartIs(w, source, h, data);
    var j := RangeArrives(w, h1, a, b);
    EndBehind(w, source, OnBytes(w, h1, data), b);
  }

  lemma {:induction false} PartsFall(w: World, source: nat -> Attempt, h: Hand, k: nat, rs: seq<Range>, ps: seq<Part>)
    requires w.Sound() && Reliable(source) && At(w, h, k) && Shape(w, h) && Ordered(w, rs) && Carries(w, ps, rs)
    requires rs != [] && rs[0].first == k && !Full(w, rs)
    ensures Behind(OnTokens(w, source, h, PartTokens(ps)), rs[|rs| - 1].end)
    decreases |rs|
  {
    assert IsRun(w, rs[0]);
    hide World.Sound, World.Target, Reliable, At, Shape, Ordered, Carries, OnTokens, PartTokens, Full, RangeBytes, Void;
    FullTail(w, rs);
    OrderedTail(w, rs);
    CarriesStep(w, ps, rs);
    if w.chunks[rs[0].end - 1].comp == [] {
      PartFalls(w, source, h, k, rs[0].end);
      FirstPart(w, source, h, ps);
      PartsBehind(w, source, OnTokens(w, source, h, PartOf(ps[0].data)), rs[0].end, rs[1..], ps[1..]);
    } else {
      assert |rs| > 1 by { NoneFull(w); }
      var g := PartsStep(w, source, h, k, rs, ps);
      PartsFall(w, source, g, NextMissing(w, rs[0].end), rs[1..], ps[1..]);
    }
  }

  lemma NoneFull(w: World)
    ensures Full(w, [])
  {
  }

  // ----- One answer -----

  lemma LastEmpty(w: World, rs: seq<Range>)
    requires Ordered(w, rs) && |rs| == 1 && !Full(w, rs)
    ensures rs[0].first < rs[0].end <= |w.chunks|
    ensures !w.chunks[rs[0].end - 1].valid && w.chunks[rs[0].end - 1].comp == []
  {
    assert IsRun(w, rs[0]);
  }

  lemma SomeRange(file: seq<byte>, range: RangeType, items: seq<Item>, ps: seq<Part>, body: seq<byte>)
    requires Bears(file, range, items, ps, body)
    ensures range == SingleRange || range.MultipartRange?
  {
    hide Slice, GoodPart, EncodeBody;
  }

  lemma AnswerFalls(w: World, source: nat -> Attempt, site: Site, h: Hand, k: nat, s: Session, rs: seq<Range>,
                    ps: seq<Part>)
    requires w.Sound() && Reliable(source) && Hosts(w, site) && At(w, h, k) && Shape(w, h) && s.WellFormed()
    requires Within(w, rs) && Ordered(w, rs) && rs != [] && rs[0].first == k && k <= |w.chunks| && !Full(w, rs)
    requires Bears(site.file, s.range, ByteRanges(w, site.header, rs), ps, Concat(s.packets))
    ensures Fine(w, source, h, s) ==> Final(w, source, h, s).chunk < rs[|rs| - 1].end
  {
    hide *;
    SomeRange(site.file, s.range, ByteRanges(w, site.header, rs), ps, Concat(s.packets));
    if s.range == SingleRange {
      RangeHeard(w, site, s, k, rs, ps);
      LastEmpty(w, rs);
      PartFalls(w, source, h, k, rs[0].end);
      RangeFinal(w, source, h, s, RangeBytes(w, k, rs[0].end));
      BehindFinal(w, source, h, s, OnTokens(w, source, h, PartOf(RangeBytes(w, k, rs[0].end))), rs[0].end);
    } else {
      PartsHeard(w, site, s, rs, ps);
      PartsFall(w, source, h, k, rs, ps);
      PartsFinal(w, source, h, s, ps);
      BehindFinal(w, source, h, s, OnTokens(w, source, h, PartTokens(ps)), rs[|rs| - 1].end);
    }
  }

  lemma BehindFinal(w: World, source: nat -> Attempt, h: Hand, s: Session, g: Hand, e: nat)
    requires Shape(w, h) && s.WellFormed() && Behind(g, e) && Final(w, source, h, s) == Idle(g)
    requires Fine(w, source, h, s) <==> !g.failed && !g.overrun
    ensures Fine(w, source, h, s) ==> Final(w, source, h, s).chunk < e
  {
    hide Fine, Final;
  }

  /** The bytes asked for bring the handler to the chunk of the next request exactly if
      every range asked for ends with a chunk that has bytes. */
  lemma DeliveryIff(w: World, source: nat -> Attempt, site: Site, answers: seq<Answer>, p: nat, h: Hand, k: nat,
                    d: Delivery)
    requires w.Sound() && Reliable(source) && Hosts(w, site) && At(w, h, k) && Shape(w, h)
    requires k < |w.chunks| && !w.chunks[k].valid && Delivers(w, site, answers, p, k, d)
    ensures d.session.WellFormed()
    ensures Fine(w, source, h, d.session) && At(w, Final(w, source, h, d.session), Following(w, site, k)) <==>
      Full(w, Runs(w, k, site.limit))
  {
    var rs := Runs(w, k, site.limit);
    RunsStart(w, k, site.limit);
    assert d.session.WellFormed();
    hide World.Sound, Full, Reliable, Hosts, Shape, Sends, Bears, Ordered, Runs, Fine, Final;
    if Full(w, rs) {
      DeliveryArrives(w, source, site, answers, p, h, k, d);
    } else {
      AnswerFalls(w, source, site, h, k, d.session, rs, d.ps);
    }
  }

  // ----- A whole update -----

  /** Every answer is right and brings the handler to the chunk of the next request. */
  ghost predicate Smooth(w: World, source: nat -> Attempt, site: Site, h: Hand, k: nat, ds: seq<Delivery>)
    requires k <= |w.chunks|
    decreases |ds|
  {
    k == |w.chunks| || (
      && ds != [] && Fine(w, source, h, ds[0].session)
      && var r, next := Final(w, source, h, ds[0].session), Following(w, site, k);
         At(w, r, next) && Smooth(w, source, site, r, next, ds[1..]))
  }

  /** From an honest server all answers do so exactly if everything asked for ends with bytes. */
  lemma {:induction false} HonestIff(w: World, source: nat -> Attempt, site: Site, answers: seq<Answer>, p: nat,
                                     h: Hand, k: nat, ds: seq<Delivery>)
    requires w.Sound() && Reliable(source) && Hosts(w, site) && At(w, h, k) && Shape(w, h)
    requires NextMissing(w, k) == k && Honest(w, site, answers, p, k, ds)
    ensures Smooth(w, source, site, h, k, ds) <==> Answerable(w, site.limit, k)
    decreases |ds|
  {
    if k < |w.chunks| {
      HonestFirst(w, site, answers, p, k, ds);
      RunsStart(w, k, site.limit);
      var d, next := ds[0], Following(w, site, k);
      AnswerableIs(w, site, k);
      hide World.Sound, World.Target, Reliable, Hosts, Shape, Honest, Fine, Final, Full, Runs, Answerable, Delivers;
      DeliveryIff(w, source, site, answers, p, h, k, d);
      if Full(w, Runs(w, k, site.limit)) {
        FinalIdle(w, source, h, d.session, next);
        HonestIff(w, source, site, answers, p + d.session.Length(), Final(w, source, h, d.session), next, ds[1..]);
      }
    }
  }

  lemma AnswerableIs(w: World, site: Site, k: nat)
    requires k < |w.chunks| && k < Following(w, site, k)
    ensures Answerable(w, site.limit, k) <==>
      Full(w, Runs(w, k, site.limit)) && Answerable(w, site.limit, Following(w, site, k))
  {
  }

  // ----- One request for everything -----

  /** The first request asks for everything, as without a limit or with few ranges. */
  predicate AtOnce(w: World, limit: int) {
    var k := NextMissing(w, 0); Reach(w, k, k, limit) == |w.chunks|
  }

  lemma NoLimit(w: World, limit: int)
    requires limit < 0
    ensures AtOnce(w, limit)
  {
  }

  /** A chunk with bytes follows that must be downloaded too, with nothing in between. */
  ghost predicate LedOn(w: World, i: nat) {
    exists m: nat :: i < m < |w.chunks| && !w.chunks[m].valid && w.chunks[m].comp != [] && Void(w, i, m)
  }

  /** Every chunk to download without bytes leads on to one with bytes. */
  ghost predicate Askable(w: World) {
    forall i: nat :: i < |w.chunks| && !w.chunks[i].valid && w.chunks[i].comp == [] ==> LedOn(w, i)
  }

  /** In a run that ends with bytes every chunk without bytes leads on. */
  lemma RunLeads(w: World, r: Range, i: nat)
    requires r.first <= i < r.end <= |w.chunks| && IsRun(w, r) && w.chunks[r.end - 1].comp != []
    requires w.chunks[i].comp == []
    ensures LedOn(w, i)
  {
    var m := SkipEmpty(w, i);
    SkipsVoid(w, i);
    assert i < m && m < r.end;
  }

  /** A run that ends without bytes does not lead on. */
  lemma RunEnds(w: World, rs: seq<Range>, j: nat, k: nat)
    requires k <= |w.chunks| && Spans(w, k, |w.chunks|, rs) && j < |rs|
    ensures rs[j].end <= |w.chunks| && 0 < rs[j].end && !w.chunks[rs[j].end - 1].valid && !LedOn(w, rs[j].end - 1)
  {
    assert IsRun(w, rs[j]);
    var e := rs[j].end;
    forall m: nat | e <= m < |w.chunks| && !w.chunks[m].valid ensures !Void(w, e, m) {
      assert NextMissing(w, e) <= m;
      assert j + 1 < |rs| ==> rs[j + 1].first == NextMissing(w, rs[j].end);
    }
  }

  lemma HeldLeads(w: World, rs: seq<Range>, i: nat)
    requires i < |w.chunks| && Held(w, i, rs) && Ordered(w, rs) && Full(w, rs) && w.chunks[i].comp == []
    ensures LedOn(w, i)
  {
    var j :| 0 <= j < |rs| && rs[j].first <= i < rs[j].end;
    hide LedOn, Held, Void, NextMissing;
    RunLeads(w, rs[j], i);
  }

  lemma FullAskable(w: World, k: nat, rs: seq<Range>)
    requires k == NextMissing(w, 0) && rs == RunsTo(w, k, |w.chunks|)
    ensures Full(w, rs) <==> Askable(w)
  {
    RunsSpan(w, k, |w.chunks|);
    hide RunsTo, NextMissing, Ordered, Held, LedOn, Spans;
    assert Ordered(w, rs) by { SpansOrdered(w, k, rs); }
    if Full(w, rs) {
      forall i: nat | i < |w.chunks| && !w.chunks[i].valid && w.chunks[i].comp == [] ensures LedOn(w, i) {
        RunsHold(w, k, |w.chunks|, i);
        HeldLeads(w, rs, i);
      }
    }
    if Askable(w) {
      forall j | 0 <= j < |rs| ensures 0 < rs[j].end <= |w.chunks| && w.chunks[rs[j].end - 1].comp != [] {
        RunEnds(w, rs, j, k);
      }
    }
  }

  lemma SpansOrdered(w: World, k: nat, rs: seq<Range>)
    requires k <= |w.chunks| && Spans(w, k, |w.chunks|, rs)
    ensures Ordered(w, rs) && (rs != [] ==> |w.chunks| <= NextMissing(w, rs[|rs| - 1].end))
  {
    hide Ordered, NextMissing;
  }

  lemma AllRuns(w: World, k: nat, limit: int)
    requires k == NextMissing(w, 0) < |w.chunks| && AtOnce(w, limit)
    ensures Runs(w, k, limit) == RunsTo(w, k, |w.chunks|) && After(w, k, Runs(w, k, limit)) == |w.chunks|
  {
    RunsSpan(w, k, |w.chunks|);
    RunsStart(w, k, limit);
    hide RunsTo, Spans, Ordered, Reach, NextMissing;
    SpansOrdered(w, k, Runs(w, k, limit));
  }

  /** If everything is asked for at once the condition is about the chunks alone. */
  lemma AskableIff(w: World, limit: int)
    requires AtOnce(w, limit)
    ensures Answerable(w, limit, NextMissing(w, 0)) <==> Askable(w)
  {
    var k := NextMissing(w, 0);
    FullAskable(w, k, RunsTo(w, k, |w.chunks|));
    if k < |w.chunks| {
      AllRuns(w, k, limit);
      hide Runs, RunsTo, Full, Askable, NextMissing;
    } else {
      assert Full(w, RunsTo(w, k, |w.chunks|));
    }
  }

  // ----- Served by one answer -----

  /** Without another answer the handler gets no further than a chunk to download. */
  lemma {:induction false} NotServed(w: World, source: nat -> Attempt, answers: seq<Answer>, p: nat, h: Hand, e: nat)
    requires Shape(w, h) && h.chunk < e <= |w.chunks| && !w.chunks[e - 1].valid
    ensures !Served(w, source, answers, p, h, [])
    decreases |w.chunks| - h.chunk
  {
    if w.chunks[h.chunk].valid {
      CopyStops(w, source, h, e);
      var (r, ok) := CopyExisting(w, source, h);
      hide CopyExisting;
      if r.chunk > h.chunk && Shape(w, r) {
        NotServed(w, source, answers, p, r, e);
      }
    }
  }

  lemma ServedOnce(w: World, source: nat -> Attempt, answers: seq<Answer>, p: nat, h: Hand, s: Session)
    requires Shape(w, h) && h.chunk < |w.chunks| && !w.chunks[h.chunk].valid && Sends(answers, p, s) &&
             s.WellFormed()
    ensures Served(w, source, answers, p, h, [s]) ==>
      Fine(w, source, h, s) &&
      var r := Final(w, source, h, s); Shape(w, r) && Served(w, source, answers, p + s.Length(), r, [])
    ensures Fine(w, source, h, s) && Shape(w, Final(w, source, h, s)) && Final(w, source, h, s).chunk == |w.chunks| ==>
      Served(w, source, answers, p, h, [s])
  {
    hide Fine, Final, Sends, Shape;
    assert [s][1..] == [];
    if Fine(w, source, h, s) && Shape(w, Final(w, source, h, s)) && Final(w, source, h, s).chunk == |w.chunks| {
      assert Served(w, source, answers, p + s.Length(), Final(w, source, h, s), []);
    }
  }

  lemma DeliversIs(w: World, site: Site, answers: seq<Answer>, p: nat, h: Hand, k: nat, d: Delivery)
    requires k < |w.chunks| && !w.chunks[k].valid && At(w, h, k) && Delivers(w, site, answers, p, k, d)
    ensures h.chunk == k && !h.overrun && Sends(answers, p, d.session) && d.session.WellFormed()
    ensures var rs := Runs(w, k, site.limit);
      && rs != [] && Ordered(w, rs) && rs[0].first == k && 0 < rs[|rs| - 1].end <= |w.chunks|
      && !w.chunks[rs[|rs| - 1].end - 1].valid
      && Bears(site.file, d.session.range, ByteRanges(w, site.header, rs), d.ps, Concat(d.session.packets))
  {
    RunsStart(w, k, site.limit);
    var rs := Runs(w, k, site.limit);
    assert IsRun(w, rs[|rs| - 1]);
    hide Ordered, Runs, Bears, IsRun;
  }

  /** One honest answer serves the whole update exactly if chunks without bytes lead on. */
  lemma OneAnswerIff(w: World, source: nat -> Attempt, site: Site, answers: seq<Answer>, p: nat, h: Hand, d: Delivery)
    requires w.Sound() && Reliable(source) && Hosts(w, site) && AtOnce(w, site.limit) && Shape(w, h)
    requires var k := NextMissing(w, 0); k < |w.chunks| && At(w, h, k) && Delivers(w, site, answers, p, k, d)
    ensures Served(w, source, answers, p, h, [d.session]) <==> Askable(w)
  {
    hide *;
    var k, s := NextMissing(w, 0), d.session;
    var rs := Runs(w, k, site.limit);
    DeliversIs(w, site, answers, p, h, k, d);
    AllRuns(w, k, site.limit);
    FullAskable(w, k, rs);
    ServedOnce(w, source, answers, p, h, s);
    if Full(w, rs) {
      ArrivesLast(w, source, site, answers, p, h, k, d);
    } else {
      AnswerFalls(w, source, site, h, k, s, rs, d.ps);
      if Served(w, source, answers, p, h, [s]) {
        NotServed(w, source, answers, p + s.Length(), Final(w, source, h, s), rs[|rs| - 1].end);
      }
    }
  }

  lemma ArrivesLast(w: World, source: nat -> Attempt, site: Site, answers: seq<Answer>, p: nat, h: Hand, k: nat,
                    d: Delivery)
    requires w.Sound() && Reliable(source) && Hosts(w, site) && At(w, h, k) && Shape(w, h)
    requires k < |w.chunks| && !w.chunks[k].valid && Delivers(w, site, answers, p, k, d)
    requires Full(w, Runs(w, k, site.limit)) && After(w, k, Runs(w, k, site.limit)) == |w.chunks|
    ensures Fine(w, source, h, d.session)
    ensures var r := Final(w, source, h, d.session); Shape(w, r) && r.chunk == |w.chunks|
  {
    hide World.Sound, World.Target, Reliable, Hosts, Sends, Bears, Fine, Final, Runs, Full, Shape, After, At, Delivers;
    DeliversIs(w, site, answers, p, h, k, d);
    DeliveryArrives(w, source, site, answers, p, h, k, d);
    FinalIdle(w, source, h, d.session, |w.chunks|);
  }

  // ----- No data behind the last chunk -----

  /** A failed handler takes nothing more. */
  lemma {:induction false} FailedBytes(w: World, h: Hand, data: seq<byte>)
    requires Shape(w, h) && h.failed
    ensures OnBytes(w, h, data) == h
    decreases |data|
  {
    if data != [] {
      FailedBytes(w, h, data[1..]);
    }
  }

  /** The handler is not past chunk e, and before it if it failed. */
  predicate UpTo(h: Hand, e: nat) {
    !h.overrun && h.chunk <= e && (h.failed ==> h.chunk < e)
  }

  /** There is room for n more bytes up to chunk e. */
  predicate Room(w: World, h: Hand, e: nat, n: nat)
    requires e <= |w.chunks|
  {
    UpTo(h, e) && (!h.failed ==> |h.buffer| + n <= |RangeBytes(w, h.chunk, e)| && (n > 0 ==> h.ready))
  }

  lemma OnByteRoom(w: World, h: Hand, e: nat, n: nat, b: byte)
    requires Shape(w, h) && e <= |w.chunks| && 0 < n && Room(w, h, e, n) && !h.failed
    ensures Room(w, OnByte(w, h, b), e, n - 1)
  {
    var g := OnByte(w, h, b);
    var k := if h.buffer == [] then SkipEmpty(w, h.chunk) else h.chunk;
    SkipsVoid(w, h.chunk);
    VoidBytes(w, h.chunk, e);
    assert k < e;
    OnByteTaken(w, h, b);
    assert !g.overrun && k <= g.chunk <= k + 1 && (g.failed ==> g.chunk == k);
    hide RangeBytes, SkipEmpty, Void, OnByte;
    RangeBytesSplit(w, h.chunk, g.chunk, e);
    NoBytes(w, e);
  }

  lemma NoBytes(w: World, e: nat)
    requires e <= |w.chunks|
    ensures RangeBytes(w, e, e) == []
  {
  }

  lemma {:induction false} OnBytesRoom(w: World, h: Hand, e: nat, data: seq<byte>)
    requires Shape(w, h) && e <= |w.chunks| && Room(w, h, e, |data|)
    ensures UpTo(OnBytes(w, h, data), e)
    decreases |data|
  {
    if h.failed {
      FailedBytes(w, h, data);
    } else if data != [] {
      OnByteTaken(w, h, data[0]);
      hide RangeBytes, OnByte;
      OnByteRoom(w, h, e, |data|, data[0]);
      OnBytesRoom(w, OnByte(w, h, data[0]), e, data[1..]);
    }
  }

  lemma {:induction false} CopyUpTo(w: World, source: nat -> Attempt, h: Hand, m: nat)
    requires h.chunk <= m <= |w.chunks| && (m < |w.chunks| ==> !w.chunks[m].valid)
    ensures CopyExisting(w, source, h).0.chunk <= m
    decreases |w.chunks| - h.chunk
  {
    if h.chunk < |w.chunks| && w.chunks[h.chunk].valid {
      var c := w.chunks[h.chunk].content;
      if c == [] {
        CopyUpTo(w, source, h.(chunk := h.chunk + 1), m);
      } else if source(h.clock).SrcOk? {
        CopyUpTo(w, source, h.(chunk := h.chunk + 1, out := h.out + c, clock := h.clock + 1), m);
      }
    }
  }

  lemma EndRoom(w: World, source: nat -> Attempt, h: Hand, e: nat)
    requires Shape(w, h) && e <= |w.chunks| && UpTo(h, e)
    ensures var r := OnToken(w, source, h, PartEnd); !r.overrun && r.chunk <= NextMissing(w, e)
  {
    EndKeeps(w, source, h);
    CopyUpTo(w, source, h.(ready := false, buffer := []), NextMissing(w, e));
  }

  lemma PartRoom(w: World, source: nat -> Attempt, h: Hand, c: nat, e: nat, data: seq<byte>)
    requires Shape(w, h) && !h.overrun && h.chunk <= c < e <= |w.chunks| && |data| == |RangeBytes(w, c, e)|
    ensures var r := OnTokens(w, source, h, PartOf(data)); !r.overrun && r.chunk <= NextMissing(w, e)
  {
    var h1 := h.(ready := true, buffer := []);
    hide RangeBytes, OnTokens, OnBytes, OnToken, NextMissing;
    PartIs(w, source, h, data);
    RangeBytesSplit(w, h.chunk, c, e);
    OnBytesRoom(w, h1, e, data);
    EndRoom(w, source, OnBytes(w, h1, data), e);
  }

  lemma {:induction false} PartsRoom(w: World, source: nat -> Attempt, h: Hand, rs: seq<Range>, ps: seq<Part>)
    requires Shape(w, h) && !h.overrun && Ordered(w, rs) && Carries(w, ps, rs) && (rs != [] ==> h.chunk <= rs[0].first)
    ensures !OnTokens(w, source, h, PartTokens(ps)).overrun
    decreases |rs|
  {
    if rs == [] {
      assert PartTokens(ps) == [];
    } else {
      hide *;
      CarriesStep(w, ps, rs);
      OrderedTail(w, rs);
      FirstPart(w, source, h, ps);
      PartRoom(w, source, h, rs[0].first, rs[0].end, ps[0].data);
      PartsRoom(w, source, OnTokens(w, source, h, PartOf(ps[0].data)), rs[1..], ps[1..]);
    }
  }

  /** The bytes asked for always fit, right or wrong. */
  lemma AnswerFits(w: World, source: nat -> Attempt, site: Site, h: Hand, k: nat, s: Session, rs: seq<Range>,
                   ps: seq<Part>)
    requires Hosts(w, site) && Shape(w, h) && h.chunk == k && !h.overrun && s.WellFormed()
    requires Within(w, rs) && Ordered(w, rs) && rs != [] && rs[0].first == k && k <= |w.chunks|
    requires Bears(site.file, s.range, ByteRanges(w, site.header, rs), ps, Concat(s.packets))
    ensures Fit(w, source, h, s)
  {
    hide *;
    SomeRange(site.file, s.range, ByteRanges(w, site.header, rs), ps, Concat(s.packets));
    if s.range == SingleRange {
      RangeHeard(w, site, s, k, rs, ps);
      RangeRoom(w, source, h, rs[0].end, s);
    } else {
      PartsHeard(w, site, s, rs, ps);
      PartsRoom(w, source, h, rs, ps);
      PartsFit(w, source, h, s, ps);
    }
  }

  lemma RangeRoom(w: World, source: nat -> Attempt, h: Hand, e: nat, s: Session)
    requires Shape(w, h) && !h.overrun && h.chunk < e <= |w.chunks| && s.WellFormed() && s.range == SingleRange
    requires Heard(s, |s.packets|) == [HeadersComplete] + AsData(RangeBytes(w, h.chunk, e))
    ensures Fit(w, source, h, s)
  {
    var data := RangeBytes(w, h.chunk, e);
    hide RangeBytes, OnTokens, NextMissing, Heard;
    PartRoom(w, source, h, h.chunk, e, data);
    var ts := [HeadersComplete] + AsData(data);
    assert PartOf(data) == ts + [PartEnd];
    OnTokensAppend(w, source, h, ts, [PartEnd]);
    Sticky(w, source, OnTokens(w, source, h, ts), [PartEnd]);
  }

  lemma PartsFit(w: World, source: nat -> Attempt, h: Hand, s: Session, ps: seq<Part>)
    requires Shape(w, h) && s.WellFormed() && s.range.MultipartRange?
    requires Fed(s, |s.packets|).left == 0 && Heard(s, |s.packets|) == [PartBegin] + PartTokens(ps)
    requires !OnTokens(w, source, h, PartTokens(ps)).overrun
    ensures Fit(w, source, h, s)
  {
    hide Fed, Heard, OnTokens, PartTokens, Shape;
    OnTokensAppend(w, source, h, [PartBegin], PartTokens(ps));
    IdleTokens(w, source, h);
  }

  // ----- Installed at once -----

  /** Without further answers the handler gets no further than a chunk to download. */
  lemma {:induction false} NoAnswers(w: World, source: nat -> Attempt, answers: seq<Answer>, p: nat, h: Hand, e: nat)
    requires Shape(w, h) && !h.ready && h.chunk < e <= |w.chunks| && !w.chunks[e - 1].valid && |answers| <= p
    ensures Doomed(w, source, answers, p, h, [])
    decreases |w.chunks| - h.chunk
  {
    if w.chunks[h.chunk].valid {
      CopyStops(w, source, h, e);
      CopyExistingShape(w, source, h);
      var (r, ok) := CopyExisting(w, source, h);
      if ok {
        CopyExistingMoves(w, source, h);
        hide CopyExisting;
        NoAnswers(w, source, answers, p, r, e);
      }
    }
  }

  lemma DoomedOnce(w: World, source: nat -> Attempt, answers: seq<Answer>, p: nat, h: Hand, s: Session, e: nat)
    requires Shape(w, h) && h.chunk < |w.chunks| && !w.chunks[h.chunk].valid && Sends(answers, p, s)
    requires Fit(w, source, h, s) && s.WellFormed() && p + s.Length() == |answers|
    requires e <= |w.chunks| && 0 < e && !w.chunks[e - 1].valid
    requires Fine(w, source, h, s) ==> Final(w, source, h, s).chunk < e
    ensures Doomed(w, source, answers, p, h, [s])
  {
    hide Fine, Fit, Sends;
    assert [s][1..] == [];
    if Fine(w, source, h, s) {
      FinalShape(w, source, h, s);
      NoAnswers(w, source, answers, p + s.Length(), Final(w, source, h, s), e);
    }
  }

  lemma FinalShape(w: World, source: nat -> Attempt, h: Hand, s: Session)
    requires Shape(w, h) && s.WellFormed()
    ensures var r := Final(w, source, h, s); Shape(w, r) && !r.ready
  {
    hide OnTokens, Heard;
    OnTokenShape(w, source, Result(w, source, h, s, |s.packets|), PartEnd);
  }

  /** If there are no other answers the update is served or it is doomed. */
  lemma OnlyAnswer(w: World, source: nat -> Attempt, site: Site, answers: seq<Answer>, p: nat, h: Hand, d: Delivery)
    requires w.Sound() && Reliable(source) && Hosts(w, site) && AtOnce(w, site.limit) && Shape(w, h)
    requires var k := NextMissing(w, 0); k < |w.chunks| && At(w, h, k) && Delivers(w, site, answers, p, k, d)
    requires p + d.session.Length() == |answers|
    ensures if Askable(w) then Served(w, source, answers, p, h, [d.session])
            else Doomed(w, source, answers, p, h, [d.session])
  {
    hide *;
    OneAnswerIff(w, source, site, answers, p, h, d);
    if !Askable(w) {
      var k, s := NextMissing(w, 0), d.session;
      var rs := Runs(w, k, site.limit);
      DeliversIs(w, site, answers, p, h, k, d);
      AllRuns(w, k, site.limit);
      FullAskable(w, k, rs);
      AnswerFalls(w, source, site, h, k, s, rs, d.ps);
      AnswerFits(w, source, site, h, k, s, rs, d.ps);
      DoomedOnce(w, source, answers, p, h, s, rs[|rs| - 1].end);
    }
  }

  /** The chunks before the first one to download are copied first. */
  lemma FromStart(w: World, source: nat -> Attempt, answers: seq<Answer>, sessions: seq<Session>) returns (h: Hand)
    requires Reliable(source)
    ensures Shape(w, INITIAL) && Shape(w, h) && At(w, h, NextMissing(w, 0))
    ensures Served(w, source, answers, 0, h, sessions) ==> Served(w, source, answers, 0, INITIAL, sessions)
    ensures Doomed(w, source, answers, 0, h, sessions) ==> Doomed(w, source, answers, 0, INITIAL, sessions)
  {
    h := CopyExisting(w, source, INITIAL).0;
    InitialRight(w);
    CopyArrives(w, source, INITIAL, 0);
    CopyExistingShape(w, source, INITIAL);
    if |w.chunks| > 0 && w.chunks[0].valid {
      CopyExistingMoves(w, source, INITIAL);
      hide CopyExisting, World.Target, Reliable;
    }
  }

  /** A server that sends all the bytes asked for, and nothing else: the update succeeds
      exactly if every chunk to download without bytes leads on to one with bytes. */
  method InstallAtOnce(w: World, source: nat -> Attempt, answers: seq<Answer>, ghost site: Site, ghost d: Delivery)
    returns (ok: bool, image: seq<byte>)
    requires w.Sound() && Reliable(source) && Hosts(w, site) && AtOnce(w, site.limit) && NextMissing(w, 0) < |w.chunks|
    requires Delivers(w, site, answers, 0, NextMissing(w, 0), d) && |answers| == d.session.Length()
    ensures ok <==> Askable(w)
    ensures ok ==> image == w.Target(|w.chunks|)
  {
    InitialRight(w);
    hide World.Sound, World.Target, Inv, Shape, Served, Doomed, Askable, Hosts, Delivers, Reliable, At, NextMissing,
         AtOnce;
    ghost var h := FromStart(w, source, answers, [d.session]);
    OnlyAnswer(w, source, site, answers, 0, h, d);
    var handler := new DeltaHandler(w, source, answers, _ => true);
    assert handler.Willing();
    ok := handler.InstallDelta([d.session]);
    image := handler.out;
    assert Whole(source) by { ReliableWhole(source); }
  }

  // ----- A failing image -----

  /** The second chunk must be downloaded but has no bytes; the third is on the device. */
  function GapWorld(): World {
    World([Chunk([1], [1], false), Chunk([], [], false), Chunk([2], [2], true), Chunk([3], [3], false)],
          ByteDigest, b => Copied(b, true))
  }

  function GapSite(): Site { Site(1, [0, 1, 2, 3], -1) }

  function GapParts(): (ps: seq<Part>)
    ensures ps != []
  {
    [Part([], [1]), Part([], [3])]
  }

  lemma GapSound()
    ensures GapWorld().Sound()
  {
    var w := GapWorld();
    forall i | 0 <= i < |w.chunks| ensures w.SoundChunk(w.chunks[i]) {
      if i != 1 {
        ByteChunk(w, w.chunks[i]);
      }
    }
  }

  lemma GapNotAskable()
    ensures !Askable(GapWorld())
  {
    var w := GapWorld();
    assert !LedOn(w, 1) by {
      forall m: nat | 1 < m < 4 && !w.chunks[m].valid ensures !Void(w, 1, m) {
        assert m == 3 && w.chunks[2].comp != [];
      }
    }
  }

  lemma GapOffsets()
    ensures Offset(GapWorld(), 1, 0) == 1 && Offset(GapWorld(), 1, 1) == 2 && Offset(GapWorld(), 1, 2) == 2
    ensures Offset(GapWorld(), 1, 3) == 3 && Offset(GapWorld(), 1, 4) == 4
  {
  }

  lemma GapHosted()
    ensures Hosts(GapWorld(), GapSite())
  {
    var w := GapWorld();
    GapOffsets();
    hide Offset;
    assert RangeBytes(w, 0, 0) == [] && RangeBytes(w, 0, 1) == [1] && RangeBytes(w, 0, 2) == [1];
    assert RangeBytes(w, 0, 3) == [1, 2] && RangeBytes(w, 0, 4) == [1, 2, 3];
  }

  lemma GapRuns()
    ensures Runs(GapWorld(), 0, -1) == [Range(0, 2), Range(3, 4)]
  {
    var w := GapWorld();
    var one, two := [Range(0, 1)], [Range(0, 2)];
    assert Extended(w, [], 0) == one && Extended(w, one, 1) == two;
    assert w.chunks[2].comp != [] && !Void(w, 2, 3) && Extended(w, two, 3) == [Range(0, 2), Range(3, 4)];
    hide Extended;
    assert RunsTo(w, 0, 0) == [] && RunsTo(w, 0, 1) == one && RunsTo(w, 0, 2) == two && RunsTo(w, 0, 3) == two;
    assert Reach(w, 0, 0, -1) == 4;
  }

  lemma GapRequest()
    ensures Request(GapWorld(), GapSite(), 0) == [Item(1, 1), Item(3, 3)]
    ensures Slice(GapSite().file, Item(1, 1)) == [1] && Slice(GapSite().file, Item(3, 3)) == [3]
  {
    GapRuns();
    GapOffsets();
    hide Runs, Offset;
  }

  /** The server sends what it is asked for. */
  lemma GapDelivered()
    ensures var ps := GapParts();
            Delivers(GapWorld(), GapSite(), BodyAnswers(ps), 0, 0, Delivery(BodySession(ps), ps))
  {
    GapRequest();
    BodySends(GapParts());
    PlainGood(BOUNDARY, [1]);
    PlainGood(BOUNDARY, [3]);
    hide Request, Sends, Slice, GoodPart, EncodeBody, Concat;
  }

  lemma GapFirst(source: nat -> Attempt)
    ensures OnToken(GapWorld(), source, INITIAL, HeadersComplete) == INITIAL.(ready := true)
    ensures OnByte(GapWorld(), INITIAL.(ready := true), 1) == Hand(1, true, [], [1], false, 0, 0, false)
    ensures OnToken(GapWorld(), source, Hand(1, true, [], [1], false, 0, 0, false), PartEnd)
         == Hand(1, false, [], [1], false, 0, 0, false)
  {
    assert [] + [1] == [1];
  }

  /** The byte of the fourth chunk is taken for the third. */
  lemma GapSecond(source: nat -> Attempt)
    ensures OnToken(GapWorld(), source, Hand(1, false, [], [1], false, 0, 0, false), HeadersComplete)
         == Hand(1, true, [], [1], false, 0, 0, false)
    ensures var r := OnByte(GapWorld(), Hand(1, true, [], [1], false, 0, 0, false), 3); r.failed && !r.overrun
  {
    var w := GapWorld();
    assert SkipEmpty(w, 2) == 2 && SkipEmpty(w, 1) == 2 && [] + [3] == [3];
  }

  lemma OnePart(w: World, source: nat -> Attempt, h: Hand, h1: Hand, b: byte)
    requires Shape(w, h) && Shape(w, h1) && OnToken(w, source, h, HeadersComplete) == h1
    ensures Shape(w, OnByte(w, h1, b))
    ensures OnTokens(w, source, h, PartOf([b])) == OnToken(w, source, OnByte(w, h1, b), PartEnd)
  {
    OnTokenShape(w, source, h1, Byte(b));
    hide OnTokens, OnByte;
    assert OnToken(w, source, h1, Byte(b)) == OnByte(w, h1, b) && AsData([b]) == [Byte(b)];
    OnTokensOne(w, source, h, HeadersComplete);
    OnTokensOne(w, source, h1, Byte(b));
    OnTokensOne(w, source, OnByte(w, h1, b), PartEnd);
    OnTokensAppend(w, source, h, [HeadersComplete], AsData([b]) + [PartEnd]);
    OnTokensAppend(w, source, h1, AsData([b]), [PartEnd]);
  }

  lemma GapSpoilt(source: nat -> Attempt)
    ensures var r := OnTokens(GapWorld(), source, INITIAL, PartTokens(GapParts())); r.failed && !r.overrun
  {
    var w, ps := GapWorld(), GapParts();
    GapFirst(source);
    GapSecond(source);
    var h1, h2, h3 := INITIAL.(ready := true), Hand(1, true, [], [1], false, 0, 0, false),
        Hand(1, false, [], [1], false, 0, 0, false);
    hide OnByte, OnToken, OnTokens, PartTokens, PartOf;
    OnePart(w, source, INITIAL, h1, 1);
    FirstPart(w, source, INITIAL, ps);
    assert ps[1..][0] == ps[1];
    OnePart(w, source, h3, h2, 3);
    FirstPart(w, source, h3, ps[1..]);
    EndKeeps(w, source, OnByte(w, h2, 3));
    assert ps[1..][1..] == [] && PartTokens([]) == [] by { NoParts(); }
    NoTokens(w, source, OnToken(w, source, OnByte(w, h2, 3), PartEnd));
  }

  lemma NoParts()
    ensures PartTokens([]) == []
  {
  }

  lemma NoTokens(w: World, source: nat -> Attempt, h: Hand)
    requires Shape(w, h)
    ensures OnTokens(w, source, h, []) == h
  {
  }

  lemma GapDoomed(source: nat -> Attempt)
    ensures Shape(GapWorld(), INITIAL)
    ensures Doomed(GapWorld(), source, BodyAnswers(GapParts()), 0, INITIAL, [BodySession(GapParts())])
  {
    var w, s, ps := GapWorld(), BodySession(GapParts()), GapParts();
    PlainGood(BOUNDARY, [1]);
    PlainGood(BOUNDARY, [3]);
    hide GoodPart, PartTokens, OnTokens, Fed, Heard, Sends, EncodeBody;
    BodySends(ps);
    BodyHears(ps);
    GapSpoilt(source);
    OnTokensAppend(w, source, INITIAL, [PartBegin], PartTokens(ps));
    IdleTokens(w, source, INITIAL);
  }

  /** The image is sound, the server sends just what it is asked for, and the update fails. */
  method GapFails(source: nat -> Attempt) returns (ok: bool)
    ensures GapWorld().Sound() && !Askable(GapWorld()) && Hosts(GapWorld(), GapSite())
    ensures NextMissing(GapWorld(), 0) == 0 && AtOnce(GapWorld(), GapSite().limit)
    ensures var ps := GapParts();
            Delivers(GapWorld(), GapSite(), BodyAnswers(ps), 0, 0, Delivery(BodySession(ps), ps))
    ensures !ok
  {
    NoLimit(GapWorld(), GapSite().limit);
    GapSound();
    GapNotAskable();
    GapHosted();
    GapDelivered();
    GapDoomed(source);
    InitialRight(GapWorld());
    hide World.Sound, World.Target, Inv, Shape, Doomed, Askable, Hosts, Delivers;
    var d := new DeltaHandler(GapWorld(), source, BodyAnswers(GapParts()), _ => true);
    ok := d.InstallDelta([BodySession(GapParts())]);
  }
}
