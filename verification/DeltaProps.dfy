/** When a delta update succeeds. */
module DeltaProps {
  import opened Bytes
  import opened MultipartSpec
  import opened MultipartBody
  import opened DeltaSpec
  import opened DeltaSession
  import opened DeltaRequest
  import opened Ranges
  import opened Delta

  const INITIAL := Hand(0, false, [], [], false, 0, 0, false)

  // ----- A small image -----

  /** Two chunks, of which the second is on the device. */
  function TwoChunks(): World {
    World([Chunk([1], [1], false), Chunk([2], [2], true)], ByteDigest, b => Copied(b, true))
  }

  function ByteDigest(b: seq<byte>): nat {
    if |b| == 1 then b[0] as int + 1 else 1
  }

  lemma TwoChunksSound()
    ensures TwoChunks().Sound() && TwoChunks().Target(2) == [1, 2] && Inv(TwoChunks(), INITIAL)
  {
    var w := TwoChunks();
    forall i | 0 <= i < 2 ensures w.SoundChunk(w.chunks[i]) {
      ByteChunk(w, w.chunks[i]);
    }
    assert w.Target(0) == [] && w.Target(1) == [1];
  }

  lemma ByteChunk(w: World, c: Chunk)
    requires w.digest == ByteDigest && |c.comp| == 1 && w.unzip(c.comp) == Copied(c.content, true)
    ensures w.SoundChunk(c)
  {
    forall b: seq<byte> | |b| == |c.comp| && w.digest(b) == w.digest(c.comp) ensures b == c.comp {
      assert b == [b[0]] && c.comp == [c.comp[0]];
    }
  }

  // ----- The file on the server -----

  /** The compressed bytes of chunks a to b. */
  function RangeBytes(w: World, a: nat, b: nat): seq<byte>
    requires a <= b <= |w.chunks|
  {
    if a == b then [] else RangeBytes(w, a, b - 1) + w.chunks[b - 1].comp
  }

  lemma {:induction false} RangeBytesSplit(w: World, a: nat, m: nat, b: nat)
    requires a <= m <= b <= |w.chunks|
    ensures RangeBytes(w, a, b) == RangeBytes(w, a, m) + RangeBytes(w, m, b)
    decreases b - m
  {
    if m == b {
      assert RangeBytes(w, a, b) + [] == RangeBytes(w, a, b);
    } else {
      RangeBytesSplit(w, a, m, b - 1);
    }
  }

  lemma {:induction false} RangeBytesLength(w: World, header: nat, a: nat, b: nat)
    requires a <= b <= |w.chunks|
    ensures |RangeBytes(w, a, b)| == Offset(w, header, b) - Offset(w, header, a)
    decreases b - a
  {
    if a < b {
      RangeBytesLength(w, header, a, b - 1);
    }
  }

  /** A file on a server, and how many ranges may be asked for at once. */
  datatype Site = Site(header: nat, file: seq<byte>, limit: int)

  /** The file holds the chunks, one after the other, behind a header. */
  predicate Hosts(w: World, site: Site) {
    && 0 < site.header && Offset(w, site.header, |w.chunks|) <= |site.file|
    && site.file[site.header..Offset(w, site.header, |w.chunks|)] == RangeBytes(w, 0, |w.chunks|)
  }

  /** The bytes of the file that an item of a request names. */
  function Slice(file: seq<byte>, r: Item): seq<byte> {
    if r.start <= r.end < |file| then file[r.start..r.end + 1] else []
  }

  lemma Cut(file: seq<byte>, lo: nat, hi: nat, x: seq<byte>, y: seq<byte>, z: seq<byte>)
    requires lo <= hi <= |file| && file[lo..hi] == x + (y + z)
    ensures lo + |x| + |y| <= hi && file[lo + |x|..lo + |x| + |y|] == y
  {
    var cut := file[lo..hi];
    assert |cut| == hi - lo && cut[|x|..|x| + |y|] == y;
    assert forall i :: 0 <= i < |y| ==> file[lo + |x| + i] == cut[|x| + i] == y[i];
  }

  lemma FileSlice(w: World, site: Site, r: Range)
    requires Hosts(w, site) && r.first <= r.end <= |w.chunks|
    ensures Slice(site.file, ByteRange(w, site.header, r)) == RangeBytes(w, r.first, r.end)
  {
    var n := |w.chunks|;
    var x, y, z := RangeBytes(w, 0, r.first), RangeBytes(w, r.first, r.end), RangeBytes(w, r.end, n);
    assert Offset(w, site.header, 0) == site.header;
    OffsetMonotone(w, site.header, 0, n);
    hide RangeBytes, Offset;
    RangeBytesSplit(w, 0, r.first, n);
    RangeBytesSplit(w, r.first, r.end, n);
    RangeBytesLength(w, site.header, 0, r.first);
    RangeBytesLength(w, site.header, r.first, r.end);
    Cut(site.file, site.header, Offset(w, site.header, n), x, y, z);
  }

  // ----- What the handler makes of it -----

  lemma {:induction false} OnBytesAppend(w: World, h: Hand, a: seq<byte>, b: seq<byte>)
    requires Shape(w, h)
    ensures OnBytes(w, h, a + b) == OnBytes(w, OnBytes(w, h, a), b)
    decreases |a|
  {
    if a == [] {
      assert a + b == b;
    } else {
      OnBytesAppend(w, OnByte(w, h, a[0]), a[1..], b);
      assert (a + b)[1..] == a[1..] + b;
    }
  }

  /** The handler is at chunk k with everything before it written. */
  predicate At(w: World, h: Hand, k: nat) {
    k <= |w.chunks| && h.chunk == k && h.buffer == [] && h.out == w.Target(k) && !h.failed && !h.overrun &&
    h.leaked == 0
  }

  lemma CompleteRight(w: World, h: Hand)
    requires w.Sound() && h.chunk < |w.chunks| && w.chunks[h.chunk].comp != []
    ensures Complete(w, h, w.chunks[h.chunk].comp)
      == h.(chunk := h.chunk + 1, ready := h.chunk + 1 < |w.chunks|, buffer := [],
            out := h.out + w.chunks[h.chunk].content)
  {
    assert w.SoundChunk(w.chunks[h.chunk]);
  }

  lemma ChunkArrives(w: World, h: Hand, k: nat)
    requires w.Sound() && k < |w.chunks| && w.chunks[k].comp != [] && At(w, h, k) && h.ready && Shape(w, h)
    ensures var r := OnBytes(w, h, w.chunks[k].comp);
            At(w, r, k + 1) && r.ready == (k + 1 < |w.chunks|) && r.clock == h.clock
  {
    var c := w.chunks[k].comp;
    CompleteRight(w, h);
    FillAll(w, h, c, []);
    hide World.Sound, OnByte, Complete;
    assert c + [] == c && [] + c == c;
  }

  /** Chunks without bytes are passed over when the next chunk arrives. */
  lemma {:induction false} ChunkArrivesFrom(w: World, h: Hand, j: nat, k: nat)
    requires w.Sound() && j <= k < |w.chunks| && Void(w, j, k) && w.chunks[k].comp != [] && At(w, h, j) && h.ready &&
             Shape(w, h)
    ensures var r := OnBytes(w, h, w.chunks[k].comp); At(w, r, k + 1) && r.ready == (k + 1 < |w.chunks|)
    decreases k - j
  {
    hide OnByte, OnBytes;
    if j == k {
      ChunkArrives(w, h, k);
    } else {
      EmptyContent(w, j);
      hide World.Sound, World.Target;
      PassEmpty(w, h, w.chunks[k].comp);
      ChunkArrivesFrom(w, h.(chunk := j + 1, ready := j + 1 < |w.chunks|, buffer := []), j + 1, k);
    }
  }

  /** The bytes of a range complete its chunks, up to the last that has any. */
  lemma {:induction false} RangeArrives(w: World, h: Hand, a: nat, b: nat) returns (j: nat)
    requires w.Sound() && a <= b <= |w.chunks| && a < |w.chunks| && At(w, h, a) && h.ready && Shape(w, h)
    ensures a <= j <= b && Void(w, j, b) && (a < b ==> (j == b <==> w.chunks[b - 1].comp != []))
    ensures var r := OnBytes(w, h, RangeBytes(w, a, b)); At(w, r, j) && r.ready == (j < |w.chunks|)
    decreases b - a
  {
    hide World.Sound, World.Target, OnByte;
    j := a;
    if a < b {
      var comp := w.chunks[b - 1].comp;
      j := RangeArrives(w, h, a, b - 1);
      OnBytesAppend(w, h, RangeBytes(w, a, b - 1), comp);
      if comp != [] {
        ChunkArrivesFrom(w, OnBytes(w, h, RangeBytes(w, a, b - 1)), j, b - 1);
        j := b;
      }
    }
  }

  /** From a reliable source all chunks up to the next missing one are copied. */
  lemma {:induction false} CopyArrives(w: World, source: nat -> Attempt, h: Hand, k: nat)
    requires Reliable(source) && At(w, h, k)
    ensures var (r, ok) := CopyExisting(w, source, h); ok && At(w, r, NextMissing(w, k)) && r.ready == h.ready
    decreases |w.chunks| - k
  {
    if k < |w.chunks| && w.chunks[k].valid {
      var c := w.chunks[k].content;
      assert w.Target(k + 1) == w.Target(k) + c && (c == [] ==> w.Target(k + 1) == w.Target(k));
      hide World.Target;
      if c == [] {
        CopyArrives(w, source, h.(chunk := k + 1), k + 1);
      } else {
        assert source(h.clock).SrcOk?;
        hide Reliable;
        CopyArrives(w, source, h.(chunk := k + 1, out := h.out + c, clock := h.clock + 1), k + 1);
      }
    }
  }

  /** What is notified of a part. */
  function PartOf(data: seq<byte>): seq<Token> { [HeadersComplete] + (AsData(data) + [PartEnd]) }

  /** One part: its chunks, and then those from the source. */
  lemma PartArrives(w: World, source: nat -> Attempt, h: Hand, a: nat, b: nat)
    requires w.Sound() && Reliable(source) && a < b <= |w.chunks| && w.chunks[b - 1].comp != [] && At(w, h, a) &&
             Shape(w, h)
    ensures var r := OnTokens(w, source, h, PartOf(RangeBytes(w, a, b)));
            At(w, r, NextMissing(w, b)) && Shape(w, r)
  {
    var data := RangeBytes(w, a, b);
    var h1 := h.(ready := true, buffer := []);
    OnTokensAppend(w, source, h, [HeadersComplete], AsData(data) + [PartEnd]);
    OnTokensOne(w, source, h, HeadersComplete);
    OnTokensAppend(w, source, h1, AsData(data), [PartEnd]);
    OnTokensData(w, source, h1, data);
    var j := RangeArrives(w, h1, a, b);
    var h2 := OnBytes(w, h1, data);
    OnTokensOne(w, source, h2, PartEnd);
    CopyArrives(w, source, h2.(ready := false, buffer := []), b);
  }

  // ----- A whole answer -----

  /** Every range ends with a chunk that has bytes. */
  predicate Full(w: World, rs: seq<Range>) {
    forall j :: 0 <= j < |rs| ==> 0 < rs[j].end <= |w.chunks| && w.chunks[rs[j].end - 1].comp != []
  }

  /** Where the next request starts after these ranges. */
  function After(w: World, k: nat, rs: seq<Range>): (r: nat)
    requires k <= |w.chunks| && Within(w, rs)
    ensures r <= |w.chunks|
  {
    if rs == [] then k else NextMissing(w, rs[|rs| - 1].end)
  }

  /** A request starts with the current chunk, and what is asked for moves on. */
  lemma RunsStart(w: World, k: nat, limit: int)
    requires k < |w.chunks| && !w.chunks[k].valid
    ensures var rs := Runs(w, k, limit); rs != [] && Ordered(w, rs) && rs[0].first == k && k < After(w, k, rs)
  {
    var i := Reach(w, k, k, limit);
    var rs := RunsTo(w, k, i);
    RunsSpan(w, k, i);
    hide Reach, RunsTo;
    FirstBehind(w, rs);
    assert IsRun(w, rs[|rs| - 1]);
  }

  lemma OrderedTail(w: World, rs: seq<Range>)
    requires Ordered(w, rs) && rs != []
    ensures rs[0].first < rs[0].end <= |w.chunks| && Ordered(w, rs[1..])
    ensures |rs| > 1 ==> rs[1].first == NextMissing(w, rs[0].end) && !Void(w, rs[0].end, rs[1].first)
  {
    assert IsRun(w, rs[0]);
    hide IsRun, Void, NextMissing;
  }

  /** The parts of a well-formed answer carry the bytes of the ranges, one after the other. */
  predicate Carries(w: World, ps: seq<Part>, rs: seq<Range>) {
    Within(w, rs) && |ps| == |rs| && forall i :: 0 <= i < |rs| ==> ps[i].data == RangeBytes(w, rs[i].first, rs[i].end)
  }

  lemma IdleTokens(w: World, source: nat -> Attempt, h: Hand)
    requires Shape(w, h)
    ensures OnTokens(w, source, h, [PartBegin]) == h && OnTokens(w, source, h, [BodyEnd]) == h
  {
    OnTokensOne(w, source, h, PartBegin);
    OnTokensOne(w, source, h, BodyEnd);
  }

  /** The first part is handled, and then the others. */
  lemma FirstPart(w: World, source: nat -> Attempt, h: Hand, ps: seq<Part>)
    requires Shape(w, h) && ps != []
    ensures var g := OnTokens(w, source, h, PartOf(ps[0].data));
      OnTokens(w, source, h, PartTokens(ps)) == OnTokens(w, source, g, PartTokens(ps[1..]))
  {
    hide OnToken;
    var t := PartOf(ps[0].data);
    var g := OnTokens(w, source, h, t);
    IdleTokens(w, source, g);
    if |ps| == 1 {
      OnTokensAppend(w, source, h, t, [BodyEnd]);
      assert PartTokens(ps[1..]) == [];
    } else {
      OnTokensAppend(w, source, h, t, [PartBegin] + PartTokens(ps[1..]));
      OnTokensAppend(w, source, g, [PartBegin], PartTokens(ps[1..]));
    }
  }

  lemma CarriesStep(w: World, ps: seq<Part>, rs: seq<Range>)
    requires Carries(w, ps, rs) && rs != []
    ensures ps != [] && rs[0].first <= rs[0].end <= |w.chunks| && ps[0].data == RangeBytes(w, rs[0].first, rs[0].end)
    ensures Carries(w, ps[1..], rs[1..])
  {
    hide RangeBytes;
  }

  lemma PartsStep(w: World, source: nat -> Attempt, h: Hand, k: nat, rs: seq<Range>, ps: seq<Part>) returns (g: Hand)
    requires w.Sound() && Reliable(source) && At(w, h, k) && Shape(w, h) && Ordered(w, rs) && Carries(w, ps, rs)
    requires rs != [] && rs[0].first == k && rs[0].end <= |w.chunks| && w.chunks[rs[0].end - 1].comp != []
    ensures Shape(w, g) && At(w, g, NextMissing(w, rs[0].end)) && Carries(w, ps[1..], rs[1..])
    ensures OnTokens(w, source, h, PartTokens(ps)) == OnTokens(w, source, g, PartTokens(ps[1..]))
  {
    hide *;
    CarriesStep(w, ps, rs);
    OrderedTail(w, rs);
    PartArrives(w, source, h, k, rs[0].end);
    FirstPart(w, source, h, ps);
    g := OnTokens(w, source, h, PartOf(ps[0].data));
  }

  lemma AfterStep(w: World, k: nat, rs: seq<Range>)
    requires Ordered(w, rs) && rs != [] && k <= |w.chunks|
    ensures rs[0].end <= |w.chunks| && Within(w, rs[1..])
    ensures After(w, k, rs) == After(w, NextMissing(w, rs[0].end), rs[1..])
  {
    hide NextMissing;
  }

  lemma FullTail(w: World, rs: seq<Range>)
    requires rs != []
    ensures Full(w, rs) <==> 0 < rs[0].end <= |w.chunks| && w.chunks[rs[0].end - 1].comp != [] && Full(w, rs[1..])
  {
    if Full(w, rs[1..]) {
      assert forall j :: 0 < j < |rs| ==> rs[j] == rs[1..][j - 1];
    }
  }

  lemma {:induction false} PartsArrive(w: World, source: nat -> Attempt, h: Hand, k: nat, rs: seq<Range>, ps: seq<Part>)
    requires w.Sound() && Reliable(source) && At(w, h, k) && Shape(w, h) && Ordered(w, rs) && Carries(w, ps, rs)
    requires Full(w, rs) && (rs != [] ==> rs[0].first == k)
    ensures At(w, OnTokens(w, source, h, PartTokens(ps)), After(w, k, rs))
    decreases |rs|
  {
    if rs == [] {
      assert PartTokens(ps) == [];
    } else {
      assert k <= |w.chunks|;
      hide *;
      FullTail(w, rs);
      OrderedTail(w, rs);
      var g := PartsStep(w, source, h, k, rs, ps);
      AfterStep(w, k, rs);
      PartsArrive(w, source, g, NextMissing(w, rs[0].end), rs[1..], ps[1..]);
    }
  }

  // ----- An honest server -----

  /** What answers one request: a download, and the parts in its body, if it has parts. */
  datatype Delivery = Delivery(session: Session, ps: seq<Part>)

  /** The byte ranges asked for when chunk k is the first one missing. */
  function Request(w: World, site: Site, k: nat): seq<Item>
    requires k <= |w.chunks|
  {
    ByteRanges(w, site.header, Runs(w, k, site.limit))
  }

  ghost predicate Delivers(w: World, site: Site, answers: seq<Answer>, p: nat, k: nat, d: Delivery)
    requires k <= |w.chunks|
  {
    Sends(answers, p, d.session) &&
    Bears(site.file, d.session.range, Request(w, site, k), d.ps, Concat(d.session.packets))
  }

  /** The body holds the ranges: a single one as it is, or each in a part of its own. */
  ghost predicate Bears(file: seq<byte>, range: RangeType, items: seq<Item>, ps: seq<Part>, body: seq<byte>) {
    match range
    case NoneRange => false
    case SingleRange => |items| == 1 && body == Slice(file, items[0])
    case MultipartRange(boundary) =>
      && boundary != [] && CR !in boundary && ps != [] && (forall i :: 0 <= i < |ps| ==> GoodPart(boundary, ps[i]))
      && |ps| == |items| && (forall i :: 0 <= i < |ps| ==> ps[i].data == Slice(file, items[i]))
      && body == EncodeBody(boundary, ps)
  }

  function Following(w: World, site: Site, k: nat): nat
    requires k <= |w.chunks|
  {
    After(w, k, Runs(w, k, site.limit))
  }

  /** Everything asked for in the requests from chunk k on ends with bytes. */
  predicate Answerable(w: World, limit: int, k: nat)
    requires k <= |w.chunks|
    decreases |w.chunks| - k
  {
    k == |w.chunks| || (
      && Full(w, Runs(w, k, limit)) && k < After(w, k, Runs(w, k, limit))
      && Answerable(w, limit, After(w, k, Runs(w, k, limit))))
  }

  /** Every request, from chunk k on, is answered with the bytes asked for. */
  ghost predicate Honest(w: World, site: Site, answers: seq<Answer>, p: nat, k: nat, ds: seq<Delivery>)
    requires k <= |w.chunks|
    decreases |ds|
  {
    if k == |w.chunks| then true
    else
      && ds != [] && Delivers(w, site, answers, p, k, ds[0])
      && Honest(w, site, answers, p + ds[0].session.Length(), Following(w, site, k), ds[1..])
  }

  function Sessions(ds: seq<Delivery>): seq<Session> {
    if ds == [] then [] else [ds[0].session] + Sessions(ds[1..])
  }

  lemma {:induction false} NextMissingOnce(w: World, k: nat)
    requires k <= |w.chunks|
    ensures NextMissing(w, NextMissing(w, k)) == NextMissing(w, k)
    decreases |w.chunks| - k
  {
    if k < |w.chunks| && w.chunks[k].valid {
      NextMissingOnce(w, k + 1);
    }
  }

  lemma PartsCarry(w: World, site: Site, rs: seq<Range>, ps: seq<Part>)
    requires Hosts(w, site) && Within(w, rs)
    requires var items := ByteRanges(w, site.header, rs);
             |ps| == |items| && (forall i :: 0 <= i < |ps| ==> ps[i].data == Slice(site.file, items[i]))
    ensures Carries(w, ps, rs)
  {
    hide Hosts, Slice, RangeBytes, ByteRange;
    forall i | 0 <= i < |rs| ensures ps[i].data == RangeBytes(w, rs[i].first, rs[i].end) {
      FileSlice(w, site, rs[i]);
    }
  }

  /** What is heard of a body are its parts. */
  lemma BodyHeard(s: Session, ps: seq<Part>)
    requires s.WellFormed() && s.range.MultipartRange? && CR !in s.range.boundary
    requires ps != [] && forall i :: 0 <= i < |ps| ==> GoodPart(s.range.boundary, ps[i])
    requires Concat(s.packets) == EncodeBody(s.range.boundary, ps)
    ensures Fed(s, |s.packets|).left == 0 && Heard(s, |s.packets|) == [PartBegin] + PartTokens(ps)
  {
    hide Run, GoodPart, EncodeBody, PartTokens, Concat;
    BodyRoundTrip(s.range.boundary, ps);
    assert s.packets[..|s.packets|] == s.packets;
  }

  lemma PartsHeard(w: World, site: Site, s: Session, rs: seq<Range>, ps: seq<Part>)
    requires Hosts(w, site) && Within(w, rs) && s.WellFormed() && s.range.MultipartRange?
    requires Bears(site.file, s.range, ByteRanges(w, site.header, rs), ps, Concat(s.packets))
    ensures Fed(s, |s.packets|).left == 0 && Heard(s, |s.packets|) == [PartBegin] + PartTokens(ps) && Carries(w, ps, rs)
  {
    hide Run, GoodPart, EncodeBody, Carries, PartTokens, Concat, Hosts, Slice;
    PartsCarry(w, site, rs, ps);
    BodyHeard(s, ps);
  }

  /** What an answer in parts comes to. */
  lemma PartsFinal(w: World, source: nat -> Attempt, h: Hand, s: Session, ps: seq<Part>)
    requires Shape(w, h) && s.WellFormed() && s.range.MultipartRange?
    requires Fed(s, |s.packets|).left == 0 && Heard(s, |s.packets|) == [PartBegin] + PartTokens(ps)
    ensures var g := OnTokens(w, source, h, PartTokens(ps));
      Final(w, source, h, s) == Idle(g) && (Fine(w, source, h, s) <==> !g.failed && !g.overrun)
  {
    hide Fed, Heard, OnTokens, PartTokens, Shape;
    OnTokensAppend(w, source, h, [PartBegin], PartTokens(ps));
    IdleTokens(w, source, h);
  }

  /** What a single range comes to. */
  lemma RangeFinal(w: World, source: nat -> Attempt, h: Hand, s: Session, data: seq<byte>)
    requires Shape(w, h) && s.WellFormed() && s.range == SingleRange
    requires Heard(s, |s.packets|) == [HeadersComplete] + AsData(data)
    ensures var g := OnTokens(w, source, h, PartOf(data));
      Final(w, source, h, s) == Idle(g) && (Fine(w, source, h, s) <==> !g.failed && !g.overrun)
  {
    hide Fed, Heard, OnTokens, OnToken, Shape;
    var ts := [HeadersComplete] + AsData(data);
    var g := OnTokens(w, source, h, ts);
    OnTokensAppend(w, source, h, ts, [PartEnd]);
    OnTokensOne(w, source, g, PartEnd);
    assert ts + [PartEnd] == PartOf(data);
    EndKeeps(w, source, g);
  }

  lemma EndKeeps(w: World, source: nat -> Attempt, h: Hand)
    requires Shape(w, h)
    ensures OnToken(w, source, h, PartEnd).failed == h.failed && OnToken(w, source, h, PartEnd).overrun == h.overrun
  {
    StickyCopy(w, source, h.(ready := false, buffer := []));
  }

  lemma PartsDelivered(w: World, source: nat -> Attempt, site: Site, h: Hand, k: nat, s: Session, rs: seq<Range>,
                       ps: seq<Part>)
    requires w.Sound() && Reliable(source) && Hosts(w, site) && At(w, h, k) && Shape(w, h) && s.WellFormed() &&
             s.range.MultipartRange?
    requires Ordered(w, rs) && rs != [] && rs[0].first == k && Full(w, rs) &&
             Bears(site.file, s.range, ByteRanges(w, site.header, rs), ps, Concat(s.packets))
    ensures Fine(w, source, h, s) && At(w, Final(w, source, h, s), After(w, k, rs))
  {
    assert Within(w, rs);
    hide Bears, Hosts, World.Sound, World.Target, Ordered, Full, Carries, OnTokens, Shape, Reliable, PartTokens,
         Concat, After, Fine, Final, Fed, Heard;
    PartsHeard(w, site, s, rs, ps);
    PartsArrive(w, source, h, k, rs, ps);
    PartsFinal(w, source, h, s, ps);
  }

  lemma RangeHeard(w: World, site: Site, s: Session, k: nat, rs: seq<Range>, ps: seq<Part>)
    requires Hosts(w, site) && s.WellFormed() && s.range == SingleRange && k <= |w.chunks|
    requires Ordered(w, rs) && rs != [] && rs[0].first == k
    requires Bears(site.file, s.range, ByteRanges(w, site.header, rs), ps, Concat(s.packets))
    ensures |rs| == 1 && k < rs[0].end <= |w.chunks| && After(w, k, rs) == NextMissing(w, rs[0].end)
    ensures Heard(s, |s.packets|) == [HeadersComplete] + AsData(RangeBytes(w, k, rs[0].end))
  {
    assert IsRun(w, rs[0]);
    FileSlice(w, site, rs[0]);
    assert s.packets[..|s.packets|] == s.packets;
  }

  lemma RangeDelivered(w: World, source: nat -> Attempt, site: Site, h: Hand, k: nat, s: Session, rs: seq<Range>,
                       ps: seq<Part>)
    requires w.Sound() && Reliable(source) && Hosts(w, site) && At(w, h, k) && Shape(w, h) && s.WellFormed() &&
             s.range == SingleRange
    requires Ordered(w, rs) && rs != [] && rs[0].first == k && Full(w, rs) &&
             Bears(site.file, s.range, ByteRanges(w, site.header, rs), ps, Concat(s.packets))
    ensures Fine(w, source, h, s) && At(w, Final(w, source, h, s), After(w, k, rs))
  {
    assert w.chunks[rs[0].end - 1].comp != [];
    assert Within(w, rs);
    hide Bears, Hosts, World.Sound, World.Target, Ordered, Full, RangeBytes, OnTokens, Shape, Reliable,
         Concat, After, Fine, Final, Heard, ByteRanges;
    RangeHeard(w, site, s, k, rs, ps);
    PartArrives(w, source, h, k, rs[0].end);
    RangeFinal(w, source, h, s, RangeBytes(w, k, rs[0].end));
  }

  /** One delivery brings the handler to the chunk of the next request. */
  lemma DeliveryArrives(w: World, source: nat -> Attempt, site: Site, answers: seq<Answer>, p: nat, h: Hand, k: nat,
                        d: Delivery)
    requires w.Sound() && Reliable(source) && Hosts(w, site) && At(w, h, k) && Shape(w, h)
    requires k < |w.chunks| && !w.chunks[k].valid && Delivers(w, site, answers, p, k, d)
    requires Full(w, Runs(w, k, site.limit))
    ensures Fine(w, source, h, d.session) && At(w, Final(w, source, h, d.session), Following(w, site, k)) &&
            k < Following(w, site, k)
  {
    assert d.session.WellFormed();
    var rs := Runs(w, k, site.limit);
    RunsStart(w, k, site.limit);
    hide World.Sound, Full, Reliable, Hosts, At, Shape, Sends, Bears, Ordered, Runs, Fine, Final;
    if d.session.range == SingleRange {
      RangeDelivered(w, source, site, h, k, d.session, rs, d.ps);
    } else {
      PartsDelivered(w, source, site, h, k, d.session, rs, d.ps);
    }
  }

  lemma {:induction false} HonestServed(w: World, source: nat -> Attempt, site: Site, answers: seq<Answer>, p: nat,
                                        h: Hand, k: nat, ds: seq<Delivery>)
    requires w.Sound() && Reliable(source) && Hosts(w, site) && At(w, h, k) && Shape(w, h) && !h.ready
    requires Answerable(w, site.limit, NextMissing(w, k)) && Honest(w, site, answers, p, NextMissing(w, k), ds)
    ensures Served(w, source, answers, p, h, Sessions(ds))
    decreases |w.chunks| - k, 1
  {
    hide World.Sound, World.Target, Reliable, Fine, Sends, Final, Delivers, Hosts, Answerable;
    if k < |w.chunks| {
      if w.chunks[k].valid {
        CopyArrives(w, source, h, k);
        NextMissingOnce(w, k);
        HonestServed(w, source, site, answers, p, CopyExisting(w, source, h).0, NextMissing(w, k), ds);
      } else {
        ServeOne(w, source, site, answers, p, h, k, ds);
      }
    }
  }

  lemma ServeOne(w: World, source: nat -> Attempt, site: Site, answers: seq<Answer>, p: nat, h: Hand, k: nat,
                 ds: seq<Delivery>)
    requires w.Sound() && Reliable(source) && Hosts(w, site) && At(w, h, k) && Shape(w, h)
    requires k < |w.chunks| && !w.chunks[k].valid && Honest(w, site, answers, p, k, ds)
    requires Answerable(w, site.limit, k)
    ensures Served(w, source, answers, p, h, Sessions(ds))
    decreases |w.chunks| - k, 0
  {
    HonestFirst(w, site, answers, p, k, ds);
    AnswerableFirst(w, site, k);
    var d := ds[0];
    hide *;
    DeliveryArrives(w, source, site, answers, p, h, k, d);
    var r := Final(w, source, h, d.session);
    FinalIdle(w, source, h, d.session, Following(w, site, k));
    HonestServed(w, source, site, answers, p + d.session.Length(), r, Following(w, site, k), ds[1..]);
    ServedFirst(w, source, answers, p, h, k, ds, Following(w, site, k));
  }

  lemma AnswerableFirst(w: World, site: Site, k: nat)
    requires k < |w.chunks| && Answerable(w, site.limit, k)
    ensures Full(w, Runs(w, k, site.limit)) && Answerable(w, site.limit, Following(w, site, k))
  {
  }

  /** The request for chunk k is answered first. */
  lemma HonestFirst(w: World, site: Site, answers: seq<Answer>, p: nat, k: nat, ds: seq<Delivery>)
    requires k < |w.chunks| && !w.chunks[k].valid && Honest(w, site, answers, p, k, ds)
    ensures ds != [] && Delivers(w, site, answers, p, k, ds[0])
    ensures var d, next := ds[0], Following(w, site, k);
      && d.session.WellFormed() && Sends(answers, p, d.session) && next <= |w.chunks| && NextMissing(w, next) == next
      && Honest(w, site, answers, p + d.session.Length(), next, ds[1..])
  {
    var rs := Runs(w, k, site.limit);
    RunsStart(w, k, site.limit);
    NextMissingOnce(w, rs[|rs| - 1].end);
  }

  lemma FinalIdle(w: World, source: nat -> Attempt, h: Hand, s: Session, k: nat)
    requires Shape(w, h) && s.WellFormed() && At(w, Final(w, source, h, s), k)
    ensures var r := Final(w, source, h, s); !r.ready && r.chunk == k && Shape(w, r)
  {
    hide Result, OnEnd;
  }

  lemma ServedFirst(w: World, source: nat -> Attempt, answers: seq<Answer>, p: nat, h: Hand, k: nat, ds: seq<Delivery>,
                    k': nat)
    requires Shape(w, h) && At(w, h, k) && k < |w.chunks| && !w.chunks[k].valid && ds != []
    requires Sends(answers, p, ds[0].session) && Fine(w, source, h, ds[0].session)
    requires var r := Final(w, source, h, ds[0].session);
      Shape(w, r) && r.chunk == k' > k && Served(w, source, answers, p + ds[0].session.Length(), r, Sessions(ds[1..]))
    ensures Served(w, source, answers, p, h, Sessions(ds))
  {
    hide Fine, Sends, Final;
    assert Sessions(ds) != [] && Sessions(ds)[0] == ds[0].session && Sessions(ds)[1..] == Sessions(ds[1..]);
  }

  /** Such a server exists: the image of two chunks above, of which one is fetched. */
  function ExampleSite(): Site { Site(1, [0, 1, 2], -1) }

  function ExampleAnswers(): seq<Answer> {
    [Answer(HeaderAnswer, [], NoneRange), Answer(HeaderAnswer, [], SingleRange), Answer(DataAnswer, [1], NoneRange),
     Answer(CompletedAnswer, [], NoneRange)]
  }

  function ExampleDelivery(): Delivery { Delivery(Session(2, SingleRange, [], [[1]]), []) }

  lemma ExampleRuns()
    ensures Runs(TwoChunks(), 0, -1) == [Range(0, 1)] && NextMissing(TwoChunks(), 1) == 2
  {
    var w := TwoChunks();
    assert NextMissing(w, 2) == 2 && Reach(w, 0, 2, -1) == 2 && Reach(w, 0, 1, -1) == 2;
    assert RunsTo(w, 0, 0) == [] && RunsTo(w, 0, 1) == Extended(w, [], 0) == [Range(0, 1)];
  }

  lemma ExampleFile()
    ensures Answerable(TwoChunks(), ExampleSite().limit, 0) && Hosts(TwoChunks(), ExampleSite())
    ensures Request(TwoChunks(), ExampleSite(), 0) == [Item(1, 1)] && Following(TwoChunks(), ExampleSite(), 0) == 2
  {
    var w := TwoChunks();
    ExampleRuns();
    hide Runs;
    assert Offset(w, 1, 0) == 1 && Offset(w, 1, 1) == 2 && Offset(w, 1, 2) == 3;
    assert RangeBytes(w, 0, 0) == [] && RangeBytes(w, 0, 1) == [1] && RangeBytes(w, 0, 2) == [1, 2];
    assert [0, 1, 2][1..3] == [1, 2];
    assert Answerable(w, -1, 2);
  }

  lemma ExampleSends()
    ensures Sends(ExampleAnswers(), 0, ExampleDelivery().session)
    ensures Bears([0, 1, 2], SingleRange, [Item(1, 1)], [], Concat([[1]]))
  {
    var answers := ExampleAnswers();
    assert Announced(answers, 0, 2) == SingleRange;
    assert [] + [1] == [1] && IsData(answers, 0, ExampleDelivery().session, 0);
    assert [0, 1, 2][1..2] == [1];
    assert [[1]][1..] == [] && Concat([[1]]) == [1] + Concat([]);
  }

  lemma ServerExists()
    ensures TwoChunks().Sound() && Answerable(TwoChunks(), ExampleSite().limit, 0) && Hosts(TwoChunks(), ExampleSite())
    ensures NextMissing(TwoChunks(), 0) == 0 &&
            Honest(TwoChunks(), ExampleSite(), ExampleAnswers(), 0, 0, [ExampleDelivery()])
  {
    TwoChunksSound();
    ExampleFile();
    ExampleSends();
    hide Sends, Bears, Request, Following, Hosts, Answerable, World.Sound;
    assert Honest(TwoChunks(), ExampleSite(), ExampleAnswers(), 4, 2, []);
  }

  // ----- An answer in one packet -----

  const BOUNDARY: seq<byte> := [98]

  function BodySession(ps: seq<Part>): Session
    requires ps != []
  {
    Session(1, MultipartRange(BOUNDARY), [], [EncodeBody(BOUNDARY, ps)])
  }

  function BodyAnswers(ps: seq<Part>): seq<Answer>
    requires ps != []
  {
    [Answer(HeaderAnswer, [], MultipartRange(BOUNDARY)), Answer(DataAnswer, EncodeBody(BOUNDARY, ps), NoneRange),
     Answer(CompletedAnswer, [], NoneRange)]
  }

  lemma BodySends(ps: seq<Part>)
    requires ps != []
    ensures Sends(BodyAnswers(ps), 0, BodySession(ps)) && Concat(BodySession(ps).packets) == EncodeBody(BOUNDARY, ps)
  {
    var answers, s := BodyAnswers(ps), BodySession(ps);
    var body := s.packets[0];
    assert body[0] == 98 && [] + body == body;
    assert Announced(answers, 0, 0) == NoneRange && Announced(answers, 0, 1) == s.range;
    assert IsData(answers, 0, s, 0);
    assert s.packets[1..] == [] && body + Concat([]) == body;
  }

  lemma BodyIs(ps: seq<Part>)
    requires ps != []
    ensures var s := BodySession(ps); s.WellFormed() && s.range == MultipartRange(BOUNDARY) && |s.packets| == 1
    ensures CR !in BOUNDARY
  {
    hide EncodeBody;
  }

  lemma BodyHears(ps: seq<Part>)
    requires ps != [] && forall i :: 0 <= i < |ps| ==> GoodPart(BOUNDARY, ps[i])
    ensures var s := BodySession(ps); Fed(s, 1).left == 0 && Heard(s, 1) == [PartBegin] + PartTokens(ps)
  {
    hide *;
    BodyIs(ps);
    BodySends(ps);
    BodyHeard(BodySession(ps), ps);
  }

  lemma InitialRight(w: World)
    ensures Inv(w, INITIAL) && Shape(w, INITIAL) && At(w, INITIAL, 0)
  {
  }

  /** From a source that can be read and a server that sends the bytes it is asked
      for, cut into packets anywhere, the new image is installed, and it is right. */
  method InstallFromServer(w: World, source: nat -> Attempt, answers: seq<Answer>, ghost site: Site,
                           ghost ds: seq<Delivery>)
    returns (ok: bool, image: seq<byte>)
    requires w.Sound() && Reliable(source) && Hosts(w, site) &&
             Answerable(w, site.limit, NextMissing(w, 0)) && Honest(w, site, answers, 0, NextMissing(w, 0), ds)
    ensures ok && image == w.Target(|w.chunks|)
  {
    InitialRight(w);
    hide World.Sound, Served, Honest, Reliable, Inv, Shape, At, World.Target, Answerable, Hosts;
    var d := new DeltaHandler(w, source, answers, _ => true);
    assert d.Willing();
    HonestServed(w, source, site, answers, 0, INITIAL, 0, ds);
    ok := d.InstallDelta(Sessions(ds));
    image := d.out;
    assert Whole(source) by { ReliableWhole(source); }
  }

  lemma ReliableWhole(source: nat -> Attempt)
    requires Reliable(source)
    ensures Whole(source)
  {
  }
}
