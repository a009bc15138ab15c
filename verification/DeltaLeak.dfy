/** Which sources make a delta update go wrong unnoticed: those that may fail after
    having written something, and no others. */
module DeltaLeak {
  import opened Bytes
  import opened MultipartSpec
  import opened MultipartBody
  import opened DeltaSpec
  import opened DeltaSession
  import opened Delta
  import opened DeltaProps

  // ----- An example -----

  /** The first copy from the source fails after writing a byte; later ones succeed. */
  function LeakSource(): nat -> Attempt {
    t => if t == 0 then SrcFail([7]) else SrcOk
  }

  /** The download delivers the first chunk; the copy at the end of the range fails... */
  lemma LeakDownload()
    ensures var w, source := TwoChunks(), LeakSource();
      OnEnd(w, source, SingleRange, OnTokens(w, source, INITIAL, [HeadersComplete, Byte(1)]))
        == Hand(1, false, [], [1, 7], false, 1, 1, false)
  {
    var w, source := TwoChunks(), LeakSource();
    var h1, h2, h3 := INITIAL.(ready := true), Hand(1, true, [], [1], false, 0, 0, false),
        Hand(1, false, [], [1, 7], false, 1, 1, false);
    assert [] + [1] == [1] && [1] + [7] == [1, 7];
    assert OnByte(w, h1, 1) == h2;
    assert CopyExisting(w, source, h2.(ready := false)) == (h3.(leaked := 0), false);
    assert OnToken(w, source, h2, PartEnd) == h3;
    assert OnToken(w, source, INITIAL, HeadersComplete) == h1 && OnToken(w, source, h1, Byte(1)) == h2;
    hide OnByte, OnToken, CopyExisting;
    OnTokensOne(w, source, h1, Byte(1));
    OnTokensOne(w, source, INITIAL, HeadersComplete);
    OnTokensAppend(w, source, INITIAL, [HeadersComplete], [Byte(1)]);
    assert [HeadersComplete] + [Byte(1)] == [HeadersComplete, Byte(1)];
  }

  /** ...and then the main loop copies the second chunk again. */
  lemma LeakCopy()
    ensures CopyExisting(TwoChunks(), LeakSource(), Hand(1, false, [], [1, 7], false, 1, 1, false))
         == (Hand(2, false, [], [1, 7, 2], false, 2, 1, false), true)
  {
    var w, source := TwoChunks(), LeakSource();
    var h, r := Hand(1, false, [], [1, 7], false, 1, 1, false), Hand(2, false, [], [1, 7, 2], false, 2, 1, false);
    assert [1, 7] + [2] == [1, 7, 2];
    assert CopyExisting(w, source, r) == (r, true);
  }

  lemma LeakServed()
    ensures var w, source, s := TwoChunks(), LeakSource(), ExampleDelivery().session;
      && Served(w, source, ExampleAnswers(), 0, INITIAL, [s])
      && Ending(w, source, ExampleAnswers(), 0, INITIAL, [s]) == Hand(2, false, [], [1, 7, 2], false, 2, 1, false)
  {
    var w, source, answers, s := TwoChunks(), LeakSource(), ExampleAnswers(), ExampleDelivery().session;
    var h1, h2 := Hand(1, false, [], [1, 7], false, 1, 1, false), Hand(2, false, [], [1, 7, 2], false, 2, 1, false);
    LeakDownload();
    LeakCopy();
    ExampleSends();
    assert Heard(s, 1) == [HeadersComplete, Byte(1)] by {
      assert s.packets[..1] == s.packets && [HeadersComplete] + AsData([1]) == [HeadersComplete, Byte(1)];
    }
    var r := OnTokens(w, source, INITIAL, [HeadersComplete, Byte(1)]);
    assert !r.failed && !r.overrun by {
      if r.failed || r.overrun {
        StickyToken(w, source, r, PartEnd);
      }
    }
    hide Sends, OnTokens, OnToken, Heard, CopyExisting, OnEnd;
    assert Result(w, source, INITIAL, s, 1) == r && Final(w, source, INITIAL, s) == h1;
    assert [s][1..] == [];
    assert Served(w, source, answers, 4, h2, []) && Ending(w, source, answers, 4, h2, []) == h2;
    assert Served(w, source, answers, 4, h1, []) && Ending(w, source, answers, 4, h1, []) == h2;
  }

  /** Every step reports success, and the image is wrong. */
  method UnnoticedFailure() returns (ok: bool, image: seq<byte>)
    ensures TwoChunks().Sound() && TwoChunks().Target(2) == [1, 2]
    ensures ok && image == [1, 7, 2]
  {
    var w := TwoChunks();
    TwoChunksSound();
    InitialRight(w);
    hide World.Sound, World.Target, Inv, Shape, Served, Ending;
    LeakServed();
    var d := new DeltaHandler(w, LeakSource(), ExampleAnswers(), _ => true);
    assert d.Willing();
    ok := d.InstallDelta([ExampleDelivery().session]);
    image := d.out;
  }

  // ----- Any source that may fail after having written something -----

  /** n chunks, all alike; all but the first are on the device. */
  function Alike(n: nat): World {
    World(seq(n, i => Chunk([1], [1], i > 0)), ByteDigest, b => Copied(b, true))
  }

  lemma AlikeSound(n: nat)
    ensures Alike(n).Sound() && |Alike(n).chunks| == n && (n > 0 ==> !Alike(n).chunks[0].valid)
  {
    var w := Alike(n);
    forall i | 0 <= i < n ensures w.SoundChunk(w.chunks[i]) {
      ByteChunk(w, w.chunks[i]);
    }
  }

  function Ones(m: nat): (s: seq<byte>)
    ensures |s| == m && forall i :: 0 <= i < m ==> s[i] == 1
  {
    seq(m, _ => 1)
  }

  /** Copy number t is the first to fail after having written something. */
  predicate FirstPartial(source: nat -> Attempt, t: nat) {
    && source(t).SrcFail? && source(t).written != []
    && forall u: nat :: u < t && source(u).SrcFail? ==> source(u).written == []
  }

  /** The parts that follow one at whose end chunk c is copied at time t: failed copies
      are repeated at the end of empty parts until the one that leaves something
      behind, and then the rest is delivered. */
  function Retry(source: nat -> Attempt, c: nat, t: nat, last: nat): (ps: seq<Part>)
    requires c <= t + 1 && t <= last
    ensures ps != []
    decreases last - t
  {
    if t == last then [Part([], Ones(last + 2 - c))]
    else if source(t).SrcOk? then Retry(source, c + 1, t + 1, last)
    else [Part([], [])] + Retry(source, c, t + 1, last)
  }

  lemma {:induction false} RetryGood(source: nat -> Attempt, c: nat, t: nat, last: nat)
    requires c <= t + 1 && t <= last
    ensures forall i :: 0 <= i < |Retry(source, c, t, last)| ==> GoodPart(BOUNDARY, Retry(source, c, t, last)[i])
    decreases last - t
  {
    if t == last {
      PlainGood(BOUNDARY, Ones(last + 2 - c));
    } else if source(t).SrcOk? {
      RetryGood(source, c + 1, t + 1, last);
    } else {
      PlainGood(BOUNDARY, []);
      RetryGood(source, c, t + 1, last);
    }
  }

  /** The handler has everything up to its chunk, which is one on the device. */
  predicate Going(h: Hand, last: nat) {
    Shape(Alike(last + 2), h) && 1 <= h.chunk <= h.clock + 1 && h.clock <= last && !h.failed && !h.overrun
  }

  lemma {:induction false} OnesArrive(n: nat, h: Hand, m: nat)
    requires Shape(Alike(n), h) && h.chunk + m == n && (m > 0 ==> h.ready) && h.buffer == [] && !h.failed && !h.overrun
    ensures var r := OnBytes(Alike(n), h, Ones(m)); r.chunk == n && !r.failed && !r.overrun && r.leaked == h.leaked
    decreases m
  {
    if m > 0 {
      var w := Alike(n);
      assert Ones(m)[1..] == Ones(m - 1) && Ones(m)[0] == 1;
      var g := OnByte(w, h, 1);
      assert g == h.(chunk := h.chunk + 1, ready := h.chunk + 1 < n, buffer := [], out := h.out + [1]);
      OnesArrive(n, g, m - 1);
    }
  }

  /** The last part. */
  lemma RestArrives(source: nat -> Attempt, h: Hand, n: nat)
    requires Shape(Alike(n), h) && h.chunk < n && !h.failed && !h.overrun
    ensures var r := OnTokens(Alike(n), source, h, PartTokens([Part([], Ones(n - h.chunk))]));
      r.chunk == n && !r.failed && !r.overrun && r.leaked == h.leaked
  {
    var w, data, ps := Alike(n), Ones(n - h.chunk), [Part([], Ones(n - h.chunk))];
    var h1 := h.(ready := true, buffer := []);
    FirstPart(w, source, h, ps);
    assert ps[1..] == [] && PartTokens([]) == [];
    OnTokensAppend(w, source, h, [HeadersComplete], AsData(data) + [PartEnd]);
    OnTokensOne(w, source, h, HeadersComplete);
    OnTokensAppend(w, source, h1, AsData(data), [PartEnd]);
    OnTokensData(w, source, h1, data);
    OnesArrive(n, h1, n - h.chunk);
    OnTokensOne(w, source, OnBytes(w, h1, data), PartEnd);
  }

  /** An empty part only has the copy at its end. */
  lemma EmptyPart(w: World, source: nat -> Attempt, h: Hand, ps: seq<Part>)
    requires Shape(w, h) && h.chunk < |w.chunks| && !h.overrun
    ensures var g := h.(ready := true, buffer := []);
      && Shape(w, g) && Shape(w, OnToken(w, source, g, PartEnd))
      && (ps != [] ==>
          OnTokens(w, source, h, PartTokens([Part([], [])] + ps))
            == OnTokens(w, source, OnToken(w, source, g, PartEnd), PartTokens(ps)))
  {
    var g, all := h.(ready := true, buffer := []), [Part([], [])] + ps;
    OnTokenShape(w, source, g, PartEnd);
    if ps != [] {
      FirstPart(w, source, h, all);
      assert all[1..] == ps && all[0].data == [];
      assert AsData([]) + [PartEnd] == [PartEnd];
      OnTokensAppend(w, source, h, [HeadersComplete], [PartEnd]);
      OnTokensOne(w, source, h, HeadersComplete);
      OnTokensOne(w, source, g, PartEnd);
    }
  }

  /** One copy attempt at the end of a part. */
  lemma OneAttempt(source: nat -> Attempt, h: Hand, last: nat)
    requires Going(h, last)
    ensures var w := Alike(last + 2);
      && (source(h.clock).SrcOk? ==>
          OnToken(w, source, h, PartEnd)
            == OnToken(w, source,
                       h.(chunk := h.chunk + 1, ready := false, buffer := [], out := h.out + [1], clock := h.clock + 1),
                       PartEnd))
      && (source(h.clock).SrcFail? ==>
          OnToken(w, source, h, PartEnd)
            == h.(ready := false, buffer := [], out := h.out + source(h.clock).written, clock := h.clock + 1,
                                              leaked := h.leaked + |source(h.clock).written|))
  {
    var w := Alike(last + 2);
    assert w.chunks[h.chunk] == Chunk([1], [1], true);
  }

  /** In the end something has leaked, and nothing failed. */
  lemma {:induction false} RetryLeaks(source: nat -> Attempt, h: Hand, last: nat)
    requires FirstPartial(source, last) && Going(h, last)
    ensures var w := Alike(last + 2);
      Shape(w, OnToken(w, source, h, PartEnd)) &&
      var r := OnTokens(w, source, OnToken(w, source, h, PartEnd), PartTokens(Retry(source, h.chunk, h.clock, last)));
      r.chunk == last + 2 && !r.failed && !r.overrun && r.leaked > 0
    decreases last - h.clock
  {
    hide *;
    var w := Alike(last + 2);
    GoingNow(source, h, last);
    OnTokenShape(w, source, h, PartEnd);
    OneAttempt(source, h, last);
    RetryIs(source, h.chunk, h.clock, last);
    var g := OnToken(w, source, h, PartEnd);
    if h.clock == last {
      RestArrives(source, g, last + 2);
    } else if source(h.clock).SrcOk? {
      var next := h.(chunk := h.chunk + 1, ready := false, buffer := [], out := h.out + [1], clock := h.clock + 1);
      GoingOn(h, next, last);
      RetryLeaks(source, next, last);
    } else {
      GoingOn(h, g.(ready := true, buffer := []), last);
      EmptyPart(w, source, g, Retry(source, h.chunk, h.clock + 1, last));
      RetryLeaks(source, g.(ready := true, buffer := []), last);
    }
  }

  lemma GoingNow(source: nat -> Attempt, h: Hand, last: nat)
    requires FirstPartial(source, last) && Going(h, last)
    ensures Shape(Alike(last + 2), h) && 1 <= h.chunk <= h.clock + 1 && h.clock <= last && !h.failed && !h.overrun
    ensures |Alike(last + 2).chunks| == last + 2
    ensures if h.clock == last then source(last).SrcFail? && source(last).written != []
            else source(h.clock).SrcFail? ==> source(h.clock).written == []
  {
  }

  lemma GoingOn(h: Hand, next: Hand, last: nat)
    requires Going(h, last) && h.clock < last && next.clock == h.clock + 1 && h.chunk <= next.chunk <= h.chunk + 1
    requires next.buffer == [] && !next.failed && !next.overrun
    ensures Going(next, last)
  {
  }

  lemma RetryIs(source: nat -> Attempt, c: nat, t: nat, last: nat)
    requires c <= t + 1 && t <= last
    ensures Retry(source, c, t, last) ==
      if t == last then [Part([], Ones(last + 2 - c))]
      else if source(t).SrcOk? then Retry(source, c + 1, t + 1, last)
      else [Part([], [])] + Retry(source, c, t + 1, last)
  {
  }

  function SpoilParts(source: nat -> Attempt, last: nat): (ps: seq<Part>)
    ensures ps != []
  {
    [Part([], [1])] + Retry(source, 1, 0, last)
  }

  lemma SpoilHeard(source: nat -> Attempt, last: nat)
    ensures var s, ps := BodySession(SpoilParts(source, last)), SpoilParts(source, last);
      Fed(s, 1).left == 0 && Heard(s, 1) == [PartBegin] + PartTokens(ps)
  {
    PlainGood(BOUNDARY, [1]);
    RetryGood(source, 1, 0, last);
    hide GoodPart, PartTokens, Fed, Heard;
    BodyHears(SpoilParts(source, last));
  }

  lemma SpoilArrives(source: nat -> Attempt, last: nat)
    requires FirstPartial(source, last)
    ensures var w := Alike(last + 2);
      var r := OnTokens(w, source, INITIAL, [PartBegin] + PartTokens(SpoilParts(source, last)));
      r.chunk == last + 2 && !r.failed && !r.overrun && r.leaked > 0
  {
    var w, ps := Alike(last + 2), SpoilParts(source, last);
    var h1, h2 := INITIAL.(ready := true), Hand(1, true, [], [1], false, 0, 0, false);
    assert OnByte(w, h1, 1) == h2 by { assert [] + [1] == [1]; }
    assert OnToken(w, source, INITIAL, PartBegin) == INITIAL && OnToken(w, source, INITIAL, HeadersComplete) == h1;
    assert OnToken(w, source, h1, Byte(1)) == h2;
    hide OnByte, OnToken, OnTokens, PartTokens, FirstPartial, Retry;
    IdleTokens(w, source, INITIAL);
    OnTokensAppend(w, source, INITIAL, [PartBegin], PartTokens(ps));
    FirstPart(w, source, INITIAL, ps);
    assert ps[1..] == Retry(source, 1, 0, last) && AsData([1]) == [Byte(1)];
    OnTokensAppend(w, source, INITIAL, [HeadersComplete], AsData([1]) + [PartEnd]);
    OnTokensOne(w, source, INITIAL, HeadersComplete);
    OnTokensAppend(w, source, h1, AsData([1]), [PartEnd]);
    OnTokensOne(w, source, h1, Byte(1));
    OnTokensOne(w, source, h2, PartEnd);
    RetryLeaks(source, h2, last);
  }

  lemma SpoilServed(source: nat -> Attempt, last: nat)
    requires FirstPartial(source, last)
    ensures var w, ps := Alike(last + 2), SpoilParts(source, last);
      var answers, sessions := BodyAnswers(ps), [BodySession(ps)];
      && w.Sound() && |w.chunks| == last + 2 && Shape(w, INITIAL) && Served(w, source, answers, 0, INITIAL, sessions)
      && Ending(w, source, answers, 0, INITIAL, sessions).out != w.Target(last + 2)
  {
    var w, answers, s := Alike(last + 2), BodyAnswers(SpoilParts(source, last)), BodySession(SpoilParts(source, last));
    AlikeSound(last + 2);
    assert s.WellFormed();
    hide *;
    InitialRight(w);
    BodySends(SpoilParts(source, last));
    SpoilEnds(source, last);
    OneSession(w, source, answers, s, last + 2);
  }

  lemma SpoilEnds(source: nat -> Attempt, last: nat)
    requires FirstPartial(source, last)
    ensures var w, s := Alike(last + 2), BodySession(SpoilParts(source, last));
      && Shape(w, INITIAL) && Fine(w, source, INITIAL, s)
      && var r := Final(w, source, INITIAL, s); r.chunk == last + 2 && !r.ready && r.out != w.Target(last + 2)
  {
    var w, s := Alike(last + 2), BodySession(SpoilParts(source, last));
    assert s.WellFormed() && |s.packets| == 1 && s.range.MultipartRange?;
    hide *;
    AlikeSound(last + 2);
    InitialRight(w);
    SpoilHeard(source, last);
    SpoilArrives(source, last);
    EndsLeaked(w, source, s, [PartBegin] + PartTokens(SpoilParts(source, last)));
  }

  lemma EndsLeaked(w: World, source: nat -> Attempt, s: Session, ts: seq<Token>)
    requires w.Sound() && Inv(w, INITIAL) && Shape(w, INITIAL)
    requires s.WellFormed() && s.range.MultipartRange? && |s.packets| == 1 && Fed(s, 1).left == 0 && Heard(s, 1) == ts
    requires var r := OnTokens(w, source, INITIAL, ts); r.chunk == |w.chunks| && !r.failed && !r.overrun && r.leaked > 0
    ensures Fine(w, source, INITIAL, s)
    ensures var r := Final(w, source, INITIAL, s); r.chunk == |w.chunks| && !r.ready && r.out != w.Target(|w.chunks|)
  {
    OnTokensKeep(w, source, INITIAL, ts);
    hide OnTokens, Heard, Fed, World.Sound, World.Target;
    assert Final(w, source, INITIAL, s) == Idle(OnTokens(w, source, INITIAL, ts));
  }

  /** One request, and everything is done. */
  lemma OneSession(w: World, source: nat -> Attempt, answers: seq<Answer>, s: Session, n: nat)
    requires |w.chunks| == n > 0 && !w.chunks[0].valid && Shape(w, INITIAL) && s.WellFormed()
    requires Sends(answers, 0, s) && Fine(w, source, INITIAL, s)
    requires Final(w, source, INITIAL, s).chunk == n && !Final(w, source, INITIAL, s).ready
    ensures Served(w, source, answers, 0, INITIAL, [s]) &&
            Ending(w, source, answers, 0, INITIAL, [s]) == Final(w, source, INITIAL, s)
  {
    hide Sends, Fine, Final;
    var r := Final(w, source, INITIAL, s);
    assert [s][1..] == [];
    assert Served(w, source, answers, s.Length(), r, []) && Ending(w, source, answers, s.Length(), r, []) == r;
  }

  method FindFirst(source: nat -> Attempt, ghost t: nat) returns (last: nat)
    requires source(t).SrcFail? && source(t).written != []
    ensures FirstPartial(source, last)
  {
    last := 0;
    while !(source(last).SrcFail? && source(last).written != [])
      invariant last <= t && forall u: nat :: u < last && source(u).SrcFail? ==> source(u).written == []
      decreases t - last
    {
      last := last + 1;
    }
  }

  /** For every such source there are an image and answers of a server for which every
      step reports success and the image is wrong. */
  method InstallSpoiled(source: nat -> Attempt, ghost t: nat) returns (w: World, ok: bool, image: seq<byte>)
    requires source(t).SrcFail? && source(t).written != []
    ensures w.Sound() && ok && image != w.Target(|w.chunks|)
  {
    var last := FindFirst(source, t);
    w := Alike(last + 2);
    SpoilServed(source, last);
    InitialRight(w);
    hide World.Sound, World.Target, Inv, Shape, Served, Ending, FirstPartial;
    var d := new DeltaHandler(w, source, BodyAnswers(SpoilParts(source, last)), _ => true);
    assert d.Willing();
    ok := d.InstallDelta([BodySession(SpoilParts(source, last))]);
    image := d.out;
  }

  // ----- The condition -----

  /** A request keeps what is written right, if it is answered well. */
  lemma FinalKeeps(w: World, source: nat -> Attempt, h: Hand, s: Session)
    requires w.Sound() && Whole(source) && Inv(w, h) && h.leaked == 0 && Fine(w, source, h, s)
    ensures var r := Final(w, source, h, s); Inv(w, r) && !r.failed && r.leaked == 0
  {
    var r := Result(w, source, h, s, |s.packets|);
    OnTokensKeep(w, source, h, Heard(s, |s.packets|));
    WholeTokens(w, source, h, Heard(s, |s.packets|));
    hide Heard, OnTokens, World.Sound, World.Target, Whole;
    if s.range == SingleRange {
      OnTokenKeeps(w, source, r, PartEnd);
      WholeToken(w, source, r, PartEnd);
      StickyCopy(w, source, Idle(r));
    }
  }

  lemma {:induction false} EndingKeeps(w: World, source: nat -> Attempt, answers: seq<Answer>, p: nat, h: Hand,
                                       sessions: seq<Session>)
    requires w.Sound() && Whole(source) && Inv(w, h) && !h.failed && !h.ready && h.leaked == 0
    requires Served(w, source, answers, p, h, sessions)
    ensures Ending(w, source, answers, p, h, sessions).out == w.Target(|w.chunks|)
    decreases |w.chunks| - h.chunk
  {
    hide World.Sound, World.Target, Whole, Sends, Fine, Final;
    if h.chunk < |w.chunks| {
      ServedNext(w, source, answers, p, h, sessions);
      if w.chunks[h.chunk].valid {
        CopyExistingKeeps(w, source, h);
        CopyExistingShape(w, source, h);
        CopyExistingMoves(w, source, h);
        EndingKeeps(w, source, answers, p, CopyExisting(w, source, h).0, sessions);
      } else {
        FinalKeeps(w, source, h, sessions[0]);
        NotReady(w, source, h, sessions[0]);
        EndingKeeps(w, source, answers, p + sessions[0].Length(), Final(w, source, h, sessions[0]), sessions[1..]);
      }
    }
  }

  lemma NotReady(w: World, source: nat -> Attempt, h: Hand, s: Session)
    requires Fine(w, source, h, s)
    ensures !Final(w, source, h, s).ready
  {
    hide Result, OnEnd;
  }

  /** With this source every update that is served gives the right image. */
  ghost predicate Harmless(source: nat -> Attempt) {
    forall w: World, answers: seq<Answer>, sessions: seq<Session> ::
      w.Sound() && Served(w, source, answers, 0, INITIAL, sessions) ==>
        Ending(w, source, answers, 0, INITIAL, sessions).out == w.Target(|w.chunks|)
  }

  /** A source is harmless exactly if no copy from it fails after having written something. */
  lemma HarmlessIff(source: nat -> Attempt)
    ensures Harmless(source) <==> Whole(source)
  {
    hide World.Sound, World.Target, Served, Ending, Inv;
    if Whole(source) {
      forall w: World, answers: seq<Answer>, sessions: seq<Session>
        | w.Sound() && Served(w, source, answers, 0, INITIAL, sessions)
        ensures Ending(w, source, answers, 0, INITIAL, sessions).out == w.Target(|w.chunks|)
      {
        InitialRight(w);
        EndingKeeps(w, source, answers, 0, INITIAL, sessions);
      }
    } else {
      var t: nat :| source(t).SrcFail? && source(t).written != [];
      var last := LeastPartial(source, t);
      SpoilServed(source, last);
      assert !Harmless(source);
    }
  }

  lemma {:induction false} LeastPartial(source: nat -> Attempt, t: nat) returns (last: nat)
    requires source(t).SrcFail? && source(t).written != []
    ensures FirstPartial(source, last)
    decreases t
  {
    if u: nat :| u < t && source(u).SrcFail? && source(u).written != [] {
      last := LeastPartial(source, u);
    } else {
      last := t;
    }
  }
}
