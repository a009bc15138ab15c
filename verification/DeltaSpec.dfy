/** Reassembling an image from chunks found on the device and chunks downloaded:
    what each notification of the download does, and what is always true. */
module DeltaSpec {
  import opened Bytes
  import opened MultipartSpec

  /** A chunk of the new image: its compressed bytes on the server, its content,
      and whether the running software has the same content somewhere. */
  datatype Chunk = Chunk(comp: seq<byte>, content: seq<byte>, valid: bool)

  /** What a copy operation wrote, and whether it succeeded. */
  datatype Copied = Copied(written: seq<byte>, ok: bool)

  /** The outcome of one attempt to copy a chunk from the source. */
  datatype Attempt = SrcOk | SrcFail(written: seq<byte>)

  /** The index of the image, the digest function and the decompressor.  A zero
      digest is not checked. */
  datatype World = World(chunks: seq<Chunk>, digest: seq<byte> -> nat, unzip: seq<byte> -> Copied) {
    /** Decompressing a chunk gives its content, and no other bytes of the same
        length have its digest. */
    ghost predicate Sound() {
      forall i :: 0 <= i < |chunks| ==> SoundChunk(chunks[i])
    }

    ghost predicate SoundChunk(c: Chunk) {
      && (c.comp == [] ==> c.content == [])
      && (c.comp != [] ==> unzip(c.comp) == Copied(c.content, true))
      && digest(c.comp) != 0
      && forall b: seq<byte> :: |b| == |c.comp| && digest(b) == digest(c.comp) ==> b == c.comp
    }

    /** The first n chunks of the image. */
    function Target(n: nat): seq<byte>
      requires n <= |chunks|
    {
      if n == 0 then [] else Target(n - 1) + chunks[n - 1].content
    }
  }

  /** The handler's state: the chunk being worked on, the buffer for it (if one
      is ready), the bytes written so far.  leaked counts the bytes of failed
      source copies whose failure was ignored; overrun says that data came when
      no chunk was left to put it in. */
  datatype Hand = Hand(chunk: nat, ready: bool, buffer: seq<byte>, out: seq<byte>, failed: bool,
                       clock: nat, leaked: nat, overrun: bool)

  predicate Shape(w: World, h: Hand) {
    && h.chunk <= |w.chunks|
    && (h.ready ==> h.chunk < |w.chunks| && (h.buffer == [] || |h.buffer| < |w.chunks[h.chunk].comp|))
  }

  /** As long as no error is recorded, exactly the chunks before the current one
      have been written, apart from what leaked. */
  predicate Tally(w: World, h: Hand)
    requires h.chunk <= |w.chunks|
  {
    && |h.out| == |w.Target(h.chunk)| + h.leaked
    && (h.leaked == 0 ==> h.out == w.Target(h.chunk))
  }

  predicate Inv(w: World, h: Hand) {
    Shape(w, h) && (!h.failed ==> Tally(w, h))
  }

  // ----- Downloaded data -----

  function SkipEmpty(w: World, k: nat): (r: nat)
    requires k <= |w.chunks|
    ensures k <= r <= |w.chunks| && (r < |w.chunks| ==> w.chunks[r].comp != [])
    decreases |w.chunks| - k
  {
    if k < |w.chunks| && w.chunks[k].comp == [] then SkipEmpty(w, k + 1) else k
  }

  /** A chunk is complete: decompress it, check its digest, go on to the next one. */
  function Complete(w: World, h: Hand, buf: seq<byte>): Hand
    requires h.chunk < |w.chunks|
  {
    var c := w.unzip(buf);
    var expected := w.digest(w.chunks[h.chunk].comp);
    if c.ok && (expected == 0 || w.digest(buf) == expected) then
      h.(chunk := h.chunk + 1, ready := h.chunk + 1 < |w.chunks|, buffer := [], out := h.out + c.written)
    else
      h.(ready := false, buffer := [], out := h.out + c.written, failed := true)
  }

  /** One byte of part data. */
  function OnByte(w: World, h: Hand, b: byte): Hand
    requires Shape(w, h)
  {
    if h.failed then h
    else if !h.ready then h.(overrun := true)
    else
      var k := if h.buffer == [] then SkipEmpty(w, h.chunk) else h.chunk;
      if k == |w.chunks| then h.(chunk := k, ready := false, buffer := [], overrun := true)
      else
        var buf := h.buffer + [b];
        if |buf| < |w.chunks[k].comp| then h.(chunk := k, buffer := buf) else Complete(w, h.(chunk := k), buf)
  }

  function OnBytes(w: World, h: Hand, data: seq<byte>): (r: Hand)
    requires Shape(w, h)
    ensures Shape(w, r)
    decreases |data|
  {
    if data == [] then h else OnBytes(w, OnByte(w, h, data[0]), data[1..])
  }

  // ----- Chunks from the source -----

  /** Copies chunks from the source up to the next one that must be downloaded. */
  function CopyExisting(w: World, source: nat -> Attempt, h: Hand): (Hand, bool)
    requires h.chunk <= |w.chunks|
    decreases |w.chunks| - h.chunk
  {
    if h.chunk == |w.chunks| || !w.chunks[h.chunk].valid then (h, true)
    else
      var c := w.chunks[h.chunk].content;
      if c == [] then CopyExisting(w, source, h.(chunk := h.chunk + 1))
      else match source(h.clock)
        case SrcOk => CopyExisting(w, source, h.(chunk := h.chunk + 1, out := h.out + c, clock := h.clock + 1))
        case SrcFail(written) => (h.(out := h.out + written, clock := h.clock + 1), false)
  }

  /** The end of a range: whether the copy from the source succeeded is not looked at. */
  function OnRangeEnd(w: World, source: nat -> Attempt, h: Hand): Hand
    requires h.chunk <= |w.chunks|
  {
    var (r, ok) := CopyExisting(w, source, h.(ready := false, buffer := []));
    if ok then r else r.(leaked := r.leaked + LastWritten(source, r.clock))
  }

  /** What the failed attempt before time t wrote. */
  function LastWritten(source: nat -> Attempt, t: nat): nat {
    if t == 0 || source(t - 1).SrcOk? then 0 else |source(t - 1).written|
  }

  function OnToken(w: World, source: nat -> Attempt, h: Hand, t: Token): Hand
    requires Shape(w, h)
  {
    match t
    case HeadersComplete =>
      h.(ready := h.chunk < |w.chunks|, buffer := [], overrun := h.overrun || h.chunk == |w.chunks|)
    case Byte(b) => OnByte(w, h, b)
    case PartEnd => OnRangeEnd(w, source, h)
    case PartBegin => h
    case BodyEnd => h
  }

  function OnTokens(w: World, source: nat -> Attempt, h: Hand, ts: seq<Token>): (r: Hand)
    requires Shape(w, h)
    ensures Shape(w, r)
    decreases |ts|
  {
    if ts == [] then h
    else
      OnTokenShape(w, source, h, ts[0]);
      OnTokens(w, source, OnToken(w, source, h, ts[0]), ts[1..])
  }

  lemma {:induction false} CopyExistingShape(w: World, source: nat -> Attempt, h: Hand)
    requires h.chunk <= |w.chunks| && !h.ready
    ensures var r := CopyExisting(w, source, h).0;
            Shape(w, r) && !r.ready && r.failed == h.failed && r.leaked == h.leaked && r.overrun == h.overrun
    decreases |w.chunks| - h.chunk
  {
    if h.chunk < |w.chunks| && w.chunks[h.chunk].valid {
      var c := w.chunks[h.chunk].content;
      if c == [] {
        CopyExistingShape(w, source, h.(chunk := h.chunk + 1));
      } else if source(h.clock).SrcOk? {
        CopyExistingShape(w, source, h.(chunk := h.chunk + 1, out := h.out + c, clock := h.clock + 1));
      }
    }
  }

  lemma OnTokenShape(w: World, source: nat -> Attempt, h: Hand, t: Token)
    requires Shape(w, h)
    ensures Shape(w, OnToken(w, source, h, t))
  {
    if t == PartEnd {
      CopyExistingShape(w, source, h.(ready := false, buffer := []));
    }
  }

  // ----- What is always true -----

  lemma EmptyContent(w: World, k: nat)
    requires w.Sound() && k < |w.chunks| && w.chunks[k].comp == []
    ensures w.Target(k + 1) == w.Target(k)
  {
    assert w.SoundChunk(w.chunks[k]);
    assert w.Target(k) + [] == w.Target(k);
  }

  /** Chunks without compressed bytes have no content. */
  lemma {:induction false} SkipEmptyTarget(w: World, k: nat)
    requires w.Sound() && k <= |w.chunks|
    ensures w.Target(SkipEmpty(w, k)) == w.Target(k)
    decreases |w.chunks| - k
  {
    hide World.Sound, World.Target;
    if k < |w.chunks| && w.chunks[k].comp == [] {
      SkipEmptyTarget(w, k + 1);
      EmptyContent(w, k);
    }
  }

  /** The chunk pointer only moves past a chunk whose digest was right. */
  lemma CompleteKeeps(w: World, h: Hand, buf: seq<byte>)
    requires w.Sound() && h.chunk < |w.chunks| && |buf| == |w.chunks[h.chunk].comp| > 0 && !h.failed && Tally(w, h)
    ensures Inv(w, Complete(w, h, buf))
  {
    assert w.SoundChunk(w.chunks[h.chunk]);
  }

  lemma OnByteKeeps(w: World, h: Hand, b: byte)
    requires w.Sound() && Inv(w, h)
    ensures Inv(w, OnByte(w, h, b))
  {
    if !h.failed && h.ready {
      var k := if h.buffer == [] then SkipEmpty(w, h.chunk) else h.chunk;
      SkipEmptyTarget(w, h.chunk);
      if k < |w.chunks| && |h.buffer| + 1 >= |w.chunks[k].comp| {
        CompleteKeeps(w, h.(chunk := k), h.buffer + [b]);
      }
    }
  }

  /** A copy from the source adds whole chunks, or fails after writing something. */
  lemma {:induction false} CopyExistingKeeps(w: World, source: nat -> Attempt, h: Hand)
    requires Inv(w, h) && !h.ready
    ensures var (r, ok) := CopyExisting(w, source, h);
      if ok then Inv(w, r)
      else !h.failed ==> Inv(w, r.(leaked := r.leaked + LastWritten(source, r.clock)))
    decreases |w.chunks| - h.chunk
  {
    if h.chunk < |w.chunks| && w.chunks[h.chunk].valid {
      var c := w.chunks[h.chunk].content;
      if c == [] {
        CopyExistingKeeps(w, source, h.(chunk := h.chunk + 1));
      } else if source(h.clock).SrcOk? {
        CopyExistingKeeps(w, source, h.(chunk := h.chunk + 1, out := h.out + c, clock := h.clock + 1));
      }
    }
  }

  lemma OnTokenKeeps(w: World, source: nat -> Attempt, h: Hand, t: Token)
    requires w.Sound() && Inv(w, h)
    ensures Inv(w, OnToken(w, source, h, t))
    ensures h.failed ==> OnToken(w, source, h, t).failed
  {
    OnTokenShape(w, source, h, t);
    match t
    case Byte(b) => OnByteKeeps(w, h, b);
    case PartEnd =>
      var g := h.(ready := false, buffer := []);
      CopyExistingKeeps(w, source, g);
      CopyExistingShape(w, source, g);
    case _ =>
  }

  /** Whatever the server sends, in whatever portions. */
  lemma {:induction false} OnTokensKeep(w: World, source: nat -> Attempt, h: Hand, ts: seq<Token>)
    requires w.Sound() && Inv(w, h)
    ensures Inv(w, OnTokens(w, source, h, ts))
    ensures h.failed ==> OnTokens(w, source, h, ts).failed
    decreases |ts|
  {
    if ts != [] {
      OnTokenKeeps(w, source, h, ts[0]);
      OnTokensKeep(w, source, OnToken(w, source, h, ts[0]), ts[1..]);
    }
  }

  /** Every copy from the source succeeds. */
  ghost predicate Reliable(source: nat -> Attempt) {
    forall t: nat :: source(t).SrcOk?
  }

  /** A copy from the source that fails has written nothing. */
  ghost predicate Whole(source: nat -> Attempt) {
    forall t: nat :: source(t).SrcFail? ==> source(t).written == []
  }

  /** From such a source nothing leaks. */
  lemma WholeToken(w: World, source: nat -> Attempt, h: Hand, t: Token)
    requires Shape(w, h) && Whole(source)
    ensures OnToken(w, source, h, t).leaked == h.leaked
  {
    if t == PartEnd {
      CopyExistingShape(w, source, h.(ready := false, buffer := []));
    }
  }

  lemma {:induction false} WholeTokens(w: World, source: nat -> Attempt, h: Hand, ts: seq<Token>)
    requires Shape(w, h) && Whole(source)
    ensures OnTokens(w, source, h, ts).leaked == h.leaked
    decreases |ts|
  {
    if ts != [] {
      hide Whole, OnToken;
      OnTokenShape(w, source, h, ts[0]);
      WholeToken(w, source, h, ts[0]);
      WholeTokens(w, source, OnToken(w, source, h, ts[0]), ts[1..]);
    }
  }
}
