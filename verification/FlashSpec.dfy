/** What a raw flash device stores and what a reader that skips unusable blocks gets back. */
module FlashSpec {
  import opened Bytes

  const EMPTY: byte := 0xFF

  /** Erased flash reads as a run of empty bytes. */
  function Blank(n: nat): (s: seq<byte>)
    ensures |s| == n
    ensures forall i :: 0 <= i < n ==> s[i] == EMPTY
  {
    seq(n, _ => EMPTY)
  }

  /** Device geometry and the way the image is laid out on it.  In OOB mode
      the image carries, after each page of data, that page's out-of-band bytes. */
  datatype Geometry = Geometry(minIo: nat, oobSize: nat, pagesPerBlock: nat, isNand: bool, writeOob: bool) {
    predicate Valid() {
      0 < minIo && 0 < pagesPerBlock && (writeOob ==> isNand && 0 < oobSize)
    }
    function PageLen(): nat { minIo + if writeOob then oobSize else 0 }
    function BlockLen(): nat { Span(pagesPerBlock, PageLen()) }
    function EbSize(): nat { Span(pagesPerBlock, minIo) }
  }

  datatype Page = Page(data: seq<byte>, oob: seq<byte>)

  /** virgin[k] holds while page k has not been programmed since the last erase. */
  datatype Block = Block(pages: seq<Page>, virgin: seq<bool>, bad: bool)

  predicate PageOk(g: Geometry, p: Page) {
    |p.data| == g.minIo && (g.writeOob ==> |p.oob| == g.oobSize)
  }

  predicate PagesOk(g: Geometry, pages: seq<Page>) {
    forall k :: 0 <= k < |pages| ==> PageOk(g, pages[k])
  }

  predicate BlockOk(g: Geometry, b: Block) {
    |b.pages| == |b.virgin| == g.pagesPerBlock && PagesOk(g, b.pages)
  }

  function PageBytes(g: Geometry, p: Page): seq<byte> {
    p.data + if g.writeOob then p.oob else []
  }

  function PagesBytes(g: Geometry, pages: seq<Page>): seq<byte> {
    if pages == [] then []
    else PagesBytes(g, pages[..|pages| - 1]) + PageBytes(g, pages[|pages| - 1])
  }

  predicate BlocksOk(g: Geometry, blocks: seq<Block>) {
    g.Valid() && forall i :: 0 <= i < |blocks| ==> BlockOk(g, blocks[i])
  }

  /** Everything a reader gets from blocks lo..hi when it skips the blocks in skip. */
  function ReadBlocks(g: Geometry, blocks: seq<Block>, skip: set<nat>, lo: nat, hi: nat): seq<byte>
    requires hi <= |blocks|
    decreases hi
  {
    if hi <= lo then []
    else ReadBlocks(g, blocks, skip, lo, hi - 1)
         + if hi - 1 in skip then [] else PagesBytes(g, blocks[hi - 1].pages)
  }

  /** How many of the blocks lo..hi are not in skip. */
  function Kept(skip: set<nat>, lo: nat, hi: nat): nat
    decreases hi
  {
    if hi <= lo then 0 else Kept(skip, lo, hi - 1) + if hi - 1 in skip then 0 else 1
  }

  /** Of the blocks lo..hi, exactly the bad ones are skipped. */
  predicate SkipsBad(blocks: seq<Block>, skip: set<nat>, lo: nat, hi: nat)
    requires hi <= |blocks|
  {
    forall i: nat :: lo <= i < hi ==> (i in skip <==> blocks[i].bad)
  }

  /** The image followed by empty bytes up to a whole number of pages. */
  function PadToPage(g: Geometry, image: seq<byte>): seq<byte>
    requires g.Valid()
  {
    image + Blank(PadLen(|image|, g.PageLen()))
  }

  predicate BlankFrom(g: Geometry, b: Block, k: nat)
    requires BlockOk(g, b)
  {
    forall i :: k <= i < g.pagesPerBlock ==>
      PageBytes(g, b.pages[i]) == Blank(g.PageLen()) && (g.isNand ==> b.virgin[i])
  }

  /** Only blocks lo..hi may have changed, and no bad mark was removed. */
  predicate Within(b0: seq<Block>, b1: seq<Block>, lo: nat, hi: nat) {
    && |b0| == |b1|
    && (forall i :: 0 <= i < |b0| && (i < lo || hi <= i) ==> b1[i] == b0[i])
    && (forall i :: 0 <= i < |b0| && b0[i].bad ==> b1[i].bad)
  }

  predicate SameMarks(b0: seq<Block>, b1: seq<Block>) {
    |b0| == |b1| && forall i :: 0 <= i < |b0| ==> b1[i].bad == b0[i].bad
  }

  lemma WithinTrans(b0: seq<Block>, b1: seq<Block>, b2: seq<Block>, lo: nat, hi: nat, lo': nat, hi': nat, top: nat)
    requires Within(b0, b1, lo, hi) && Within(b1, b2, lo', hi')
    requires lo <= lo' && hi <= top && (hi' <= top || |b0| <= top)
    ensures Within(b0, b2, lo, top)
  {
  }

  lemma SameMarksTrans(b0: seq<Block>, b1: seq<Block>, b2: seq<Block>)
    requires SameMarks(b0, b1) && SameMarks(b1, b2)
    ensures SameMarks(b0, b2)
  {
  }

  /** Changing blocks from hi on does not change what is read below hi. */
  lemma ReadBelow(g: Geometry, b0: seq<Block>, b1: seq<Block>, skip: set<nat>, lo: nat, hi: nat, top: nat)
    requires hi <= |b0| && Within(b0, b1, hi, top)
    ensures ReadBlocks(g, b1, skip, lo, hi) == ReadBlocks(g, b0, skip, lo, hi)
    ensures SkipsBad(b0, skip, lo, hi) ==> SkipsBad(b1, skip, lo, hi)
  {
    ReadBlocksFrame(g, b1, b0, skip, skip, lo, hi);
  }

  /** Block eb holds the first k pages of buf and is blank after them. */
  predicate Holds(g: Geometry, blocks: seq<Block>, eb: nat, k: nat, buf: seq<byte>)
    requires BlocksOk(g, blocks)
  {
    && eb < |blocks| && k <= g.pagesPerBlock && Span(k, g.PageLen()) <= |buf|
    && PagesBytes(g, blocks[eb].pages[..k]) == buf[..Span(k, g.PageLen())]
    && BlankFrom(g, blocks[eb], k)
  }

  /** The block still holds the front of a buffer that grows at the end. */
  lemma HoldsGrown(g: Geometry, blocks: seq<Block>, eb: nat, k: nat, buf: seq<byte>, grown: seq<byte>)
    requires BlocksOk(g, blocks) && Holds(g, blocks, eb, k, buf) && buf <= grown
    ensures Holds(g, blocks, eb, k, grown)
  {
    assert buf[..Span(k, g.PageLen())] == grown[..Span(k, g.PageLen())];
  }

  /** Taking in bytes, and padding, only appends; what is padded is whole pages. */
  lemma Grown(g: Geometry, buf: seq<byte>, taken: seq<byte>)
    requires g.Valid()
    ensures buf <= buf + taken && buf <= PadToPage(g, buf + taken) && WholePages(g, |PadToPage(g, buf + taken)|)
  {
    PadIdempotent(g, buf + taken);
  }

  /** bytes are the n pages of buf after the first k. */
  predicate Slice(g: Geometry, buf: seq<byte>, k: nat, n: nat, bytes: seq<byte>) {
    Span(k, g.PageLen()) <= Span(k + n, g.PageLen()) <= |buf| &&
    bytes == buf[Span(k, g.PageLen())..Span(k + n, g.PageLen())]
  }

  /** Programming the next n pages of the buffer extends what the block holds. */
  lemma HoldsProgrammed(g: Geometry, b0: seq<Block>, b1: seq<Block>, eb: nat, k: nat, pages: seq<Page>, buf: seq<byte>)
    requires BlocksOk(g, b0) && BlocksOk(g, b1) && |b0| == |b1| && Holds(g, b0, eb, k, buf)
    requires k + |pages| <= g.pagesPerBlock && Slice(g, buf, k, |pages|, PagesBytes(g, pages))
    requires b1[eb].pages == b0[eb].pages[..k] + pages + b0[eb].pages[k + |pages|..]
    requires BlankFrom(g, b1[eb], k + |pages|)
    ensures Holds(g, b1, eb, k + |pages|, buf)
  {
    hide PagesBytes, Span, BlankFrom, PageOk;
    var n := k + |pages|;
    PagesBytesAppend(g, b0[eb].pages[..k], pages);
    assert b1[eb].pages[..n] == b0[eb].pages[..k] + pages;
    assert buf[..Span(n, g.PageLen())] == buf[..Span(k, g.PageLen())] + buf[Span(k, g.PageLen())..Span(n, g.PageLen())];
  }

  /** Pages of empty bytes need not be programmed: blank pages hold them already. */
  lemma HoldsUnprogrammed(g: Geometry, blocks: seq<Block>, eb: nat, k: nat, n: nat, buf: seq<byte>, bytes: seq<byte>)
    requires BlocksOk(g, blocks) && Holds(g, blocks, eb, k, buf)
    requires k + n <= g.pagesPerBlock && Slice(g, buf, k, n, bytes) && bytes == Blank(|bytes|)
    ensures Holds(g, blocks, eb, k + n, buf)
  {
    hide PagesBytes;
    var pages := blocks[eb].pages;
    SpanAdd(k, n, g.PageLen());
    PagesBytesBlank(g, pages[k..k + n]);
    PagesBytesAppend(g, pages[..k], pages[k..k + n]);
    assert pages[..k + n] == pages[..k] + pages[k..k + n];
    var a, b := Span(k, g.PageLen()), Span(k + n, g.PageLen());
    assert buf[..b] == buf[..a] + buf[a..b];
  }

  /** Completing a block moves its buffer into flash. */
  lemma BlockCompleted(g: Geometry, blocks: seq<Block>, skip: set<nat>, start: nat, eb: nat, buf: seq<byte>)
    requires BlocksOk(g, blocks) && start <= eb && Holds(g, blocks, eb, g.pagesPerBlock, buf) && |buf| <= g.BlockLen()
    ensures ReadBlocks(g, blocks, skip - {eb}, start, eb + 1) + [] == ReadBlocks(g, blocks, skip, start, eb) + buf
  {
    HoldsAll(g, blocks, eb, buf);
    ReadBlocksStep(g, blocks, skip, start, eb);
  }

  /** Past a good block the blocks given up are still those marked bad. */
  lemma SkipsGood(blocks: seq<Block>, given: set<nat>, start: nat, eb: nat)
    requires eb < |blocks|
    ensures SkipsBad(blocks, given, start, eb) && !blocks[eb].bad ==> SkipsBad(blocks, given - {eb}, start, eb + 1)
  {
  }

  /** The bytes of pages that are programmed together. */
  lemma PagesLen(g: Geometry, pages: nat)
    requires 0 < pages && g.Valid() && (g.isNand ==> pages <= 1)
    ensures Span(pages, g.minIo) + (if g.writeOob then g.oobSize else 0) == Span(pages, g.PageLen())
    ensures 0 < Span(pages, g.minIo)
  {
    assert Span(1, g.PageLen()) == g.PageLen() && Span(1, g.minIo) == g.minIo;
    SpanMonotone(1, pages, g.minIo);
  }

  /** Changes up to block e and in the block after it, if that was entered. */
  lemma WithinOn(b0: seq<Block>, b1: seq<Block>, b2: seq<Block>, lo: nat, mid: nat, eb: nat)
    requires lo <= mid <= eb && Within(b0, b1, lo, mid + 1) && Within(b1, b2, mid, mid + 1)
    ensures Within(b0, b2, lo, eb + 1)
    ensures SameMarks(b0, b1) && SameMarks(b1, b2) ==> SameMarks(b0, b2)
  {
  }

  lemma OneChanged(b0: seq<Block>, b1: seq<Block>, eb: nat)
    requires eb < |b0| && Within(b0, b1, eb, eb + 1) && b1[eb].bad == b0[eb].bad
    ensures SameMarks(b0, b1)
  {
  }

  lemma MarksStay(b0: seq<Block>, b1: seq<Block>, eb: nat)
    requires SameMarks(b0, b1)
    ensures |b0| == |b1| && (eb < |b0| ==> b1[eb].bad == b0[eb].bad)
  {
  }

  lemma HoldsBlank(g: Geometry, blocks: seq<Block>, eb: nat, k: nat, buf: seq<byte>)
    requires g.Valid() && BlocksOk(g, blocks) && Holds(g, blocks, eb, k, buf)
    ensures eb < |blocks| && BlankFrom(g, blocks[eb], k)
  {
  }

  lemma WithinSame(blocks: seq<Block>, lo: nat, hi: nat)
    ensures Within(blocks, blocks, lo, hi) && SameMarks(blocks, blocks)
  {
  }

  /** Pages counted by their bytes: equal lengths mean equal counts. */
  lemma SpanInjective(a: nat, b: nat, len: nat)
    requires 0 < len && Span(a, len) == Span(b, len)
    ensures a == b
  {
    if a < b {
      SpanMonotone(a, b, len);
    } else if b < a {
      SpanMonotone(b, a, len);
    }
  }

  /** A block whose pages are all programmed holds exactly its buffer. */
  lemma HoldsAll(g: Geometry, blocks: seq<Block>, eb: nat, buf: seq<byte>)
    requires BlocksOk(g, blocks) && Holds(g, blocks, eb, g.pagesPerBlock, buf) && |buf| <= g.BlockLen()
    ensures PagesBytes(g, blocks[eb].pages) == buf
  {
    assert blocks[eb].pages[..g.pagesPerBlock] == blocks[eb].pages;
    assert buf[..g.BlockLen()] == buf;
  }

  lemma {:induction false} PagesBytesLength(g: Geometry, pages: seq<Page>)
    requires PagesOk(g, pages)
    ensures |PagesBytes(g, pages)| == Span(|pages|, g.PageLen())
  {
    if pages != [] {
      PagesBytesLength(g, pages[..|pages| - 1]);
    }
  }

  lemma {:induction false} PagesBytesAppend(g: Geometry, a: seq<Page>, b: seq<Page>)
    ensures PagesBytes(g, a + b) == PagesBytes(g, a) + PagesBytes(g, b)
  {
    if b == [] {
      assert a + b == a;
    } else {
      var b' := b[..|b| - 1];
      PagesBytesAppend(g, a, b');
      assert (a + b)[..|a + b| - 1] == a + b' && (a + b)[|a + b| - 1] == b[|b| - 1];
      hide PageBytes;
    }
  }

  /** Blank pages read as blank bytes... */
  lemma {:induction false} PagesBytesBlank(g: Geometry, pages: seq<Page>)
    requires forall k :: 0 <= k < |pages| ==> PageBytes(g, pages[k]) == Blank(g.PageLen())
    ensures PagesBytes(g, pages) == Blank(Span(|pages|, g.PageLen()))
  {
    if pages != [] {
      PagesBytesBlank(g, pages[..|pages| - 1]);
    }
  }

  /** ...and bytes that read blank come from blank pages. */
  lemma {:induction false} BlankPagesBytes(g: Geometry, pages: seq<Page>, k: nat)
    requires PagesOk(g, pages)
    requires forall i :: 0 <= i < |PagesBytes(g, pages)| ==> PagesBytes(g, pages)[i] == EMPTY
    requires k < |pages|
    ensures PageBytes(g, pages[k]) == Blank(g.PageLen())
  {
    var front := pages[..|pages| - 1];
    var all, head, last := PagesBytes(g, pages), PagesBytes(g, front), PageBytes(g, pages[|pages| - 1]);
    assert all == head + last;
    if k < |pages| - 1 {
      assert forall i :: 0 <= i < |head| ==> head[i] == all[i];
      BlankPagesBytes(g, front, k);
    } else {
      assert forall i :: 0 <= i < |last| ==> last[i] == all[|head| + i];
    }
  }

  lemma {:induction false} AllBlank(g: Geometry, pages: seq<Page>)
    requires PagesOk(g, pages) && forall k :: 0 <= k < |pages| ==> PageBytes(g, pages[k]) == Blank(g.PageLen())
    ensures |PagesBytes(g, pages)| == Span(|pages|, g.PageLen())
    ensures forall i :: 0 <= i < |PagesBytes(g, pages)| ==> PagesBytes(g, pages)[i] == EMPTY
  {
    if pages != [] {
      AllBlank(g, pages[..|pages| - 1]);
    }
  }

  /** A read depends only on the blocks read and on which of them are skipped. */
  lemma {:induction false} ReadBlocksFrame(g: Geometry, b1: seq<Block>, b2: seq<Block>, s1: set<nat>, s2: set<nat>,
                                           lo: nat, hi: nat)
    requires hi <= |b1| && hi <= |b2|
    requires forall i: nat :: lo <= i < hi ==> b1[i].pages == b2[i].pages && (i in s1 <==> i in s2)
    ensures ReadBlocks(g, b1, s1, lo, hi) == ReadBlocks(g, b2, s2, lo, hi)
    ensures Kept(s1, lo, hi) == Kept(s2, lo, hi)
    decreases hi
  {
    if lo < hi {
      ReadBlocksFrame(g, b1, b2, s1, s2, lo, hi - 1);
    }
  }

  /** A block that is given up adds nothing; one that is kept adds its pages. */
  lemma ReadBlocksStep(g: Geometry, blocks: seq<Block>, skip: set<nat>, lo: nat, hi: nat)
    requires lo <= hi < |blocks|
    ensures ReadBlocks(g, blocks, skip + {hi}, lo, hi + 1) == ReadBlocks(g, blocks, skip, lo, hi)
    ensures ReadBlocks(g, blocks, skip - {hi}, lo, hi + 1)
         == ReadBlocks(g, blocks, skip, lo, hi) + PagesBytes(g, blocks[hi].pages)
  {
    ReadBlocksFrame(g, blocks, blocks, skip, skip + {hi}, lo, hi);
    ReadBlocksFrame(g, blocks, blocks, skip, skip - {hi}, lo, hi);
  }

  lemma {:induction false} ReadBlocksLength(g: Geometry, blocks: seq<Block>, skip: set<nat>, lo: nat, hi: nat)
    requires hi <= |blocks|
    requires BlocksOk(g, blocks)
    ensures |ReadBlocks(g, blocks, skip, lo, hi)| == Span(Kept(skip, lo, hi), g.BlockLen())
    decreases hi
  {
    if lo < hi {
      ReadBlocksLength(g, blocks, skip, lo, hi - 1);
      PagesBytesLength(g, blocks[hi - 1].pages);
      hide PagesBytes, BlocksOk;
    }
  }

  /** Reading further only appends. */
  lemma {:induction false} ReadBlocksPrefix(g: Geometry, blocks: seq<Block>, skip: set<nat>, lo: nat, mid: nat, hi: nat)
    requires lo <= mid <= hi <= |blocks|
    ensures ReadBlocks(g, blocks, skip, lo, mid) <= ReadBlocks(g, blocks, skip, lo, hi)
    ensures Kept(skip, lo, mid) <= Kept(skip, lo, hi)
    decreases hi
  {
    hide PagesBytes;
    if mid < hi {
      ReadBlocksPrefix(g, blocks, skip, lo, mid, hi - 1);
      assert ReadBlocks(g, blocks, skip, lo, hi - 1) <= ReadBlocks(g, blocks, skip, lo, hi);
    }
  }

  /** Padding a stream whose front fills whole pages pads its tail only. */
  lemma PadTail(g: Geometry, front: seq<byte>, tail: seq<byte>, n: nat)
    requires g.Valid() && |front| == Span(n, g.PageLen())
    ensures PadToPage(g, front + tail) == front + PadToPage(g, tail)
  {
    PadLenShift(n, |tail|, g.PageLen());
  }

  /** Padding twice is padding once. */
  lemma PadIdempotent(g: Geometry, s: seq<byte>)
    requires g.Valid()
    ensures PadToPage(g, PadToPage(g, s)) == PadToPage(g, s)
    ensures WholePages(g, |PadToPage(g, s)|)
  {
    var n := PadLenIsLeast(|s|, g.PageLen());
    PadLenShift(n, 0, g.PageLen());
  }

  /** What is expected to be stored once the bytes received so far are in, with left more to come. */
  function ExpectedBytes(g: Geometry, received: seq<byte>, left: nat): seq<byte>
    requires g.Valid()
  {
    if left == 0 then PadToPage(g, received) else received
  }

  /** Taking in bytes, and padding the buffer once the last has come, keeps
      stored + buffer as expected. */
  lemma IntakeConserves(g: Geometry, stored: seq<byte>, n: nat, buffer: seq<byte>, received: seq<byte>, left: nat,
                        taken: seq<byte>)
    requires g.Valid() && |stored| == Span(n, g.BlockLen()) && |taken| <= left
    requires stored + buffer == ExpectedBytes(g, received, left)
    ensures var b := buffer + taken;
      stored + (if left == |taken| then PadToPage(g, b) else b) == ExpectedBytes(g, received + taken, left - |taken|)
  {
    assert stored + (buffer + taken) == (stored + buffer) + taken;
    if left == |taken| {
      if left == 0 {
        assert taken == [] && received + taken == received && buffer + taken == buffer;
        PadIdempotent(g, received);
      }
      BlocksAreWholePages(g, n);
      PadTail(g, stored, buffer + taken, Pages(g, n));
    }
  }

  ghost predicate WholePages(g: Geometry, len: nat) {
    exists k: nat :: len == Span(k, g.PageLen())
  }

  /** There are that many whole pages in a buffer of length len after the first done pages. */
  predicate Ready(g: Geometry, done: nat, pages: nat, len: nat)
    requires g.Valid()
  {
    && done + pages <= g.pagesPerBlock && Span(done + pages, g.PageLen()) <= len
    && (pages == 0 ==> len < Span(done, g.PageLen()) + g.PageLen())
  }

  /** When no page is ready the buffer is not full, and a padded buffer is done with. */
  lemma NothingReady(g: Geometry, done: nat, len: nat)
    requires g.Valid() && done < g.pagesPerBlock && Ready(g, done, 0, len)
    ensures len < g.BlockLen()
    ensures WholePages(g, len) ==> len == Span(done, g.PageLen())
  {
    SpanMonotone(done, g.pagesPerBlock, g.PageLen());
    if WholePages(g, len) {
      var k: nat :| len == Span(k, g.PageLen());
      if k < done {
        SpanMonotone(k, done, g.PageLen());
      } else if done < k {
        SpanMonotone(done, k, g.PageLen());
      }
    }
  }

  function Pages(g: Geometry, blocks: nat): nat {
    if blocks == 0 then 0 else Pages(g, blocks - 1) + g.pagesPerBlock
  }

  lemma {:induction false} BlocksAreWholePages(g: Geometry, n: nat)
    ensures Span(n, g.BlockLen()) == Span(Pages(g, n), g.PageLen())
  {
    if n > 0 {
      BlocksAreWholePages(g, n - 1);
      SpanAdd(Pages(g, n - 1), g.pagesPerBlock, g.PageLen());
    }
  }

  /** A padded buffer that fitted its block still does. */
  lemma PadFits(g: Geometry, buffer: seq<byte>)
    requires g.Valid() && |buffer| <= g.BlockLen()
    ensures |PadToPage(g, buffer)| <= g.BlockLen()
  {
    var k := PadLenIsLeast(|buffer|, g.PageLen());
    SpanMonotone(k, g.pagesPerBlock, g.PageLen());
  }

  /** Not even all the blocks that are not skipped could hold that many bytes. */
  predicate TooSmall(g: Geometry, blocks: nat, skip: set<nat>, start: nat, bytes: nat) {
    Span(Kept(skip, start, blocks), g.BlockLen()) < bytes
  }

  /** With every block used up and bytes still in hand, the image is too large. */
  lemma OutOfBlocks(g: Geometry, blocks: seq<Block>, skip: set<nat>, start: nat, buffer: seq<byte>, received: seq<byte>,
                    left: nat, more: nat)
    requires BlocksOk(g, blocks) && more <= left && (0 < |buffer| || 0 < more)
    requires ReadBlocks(g, blocks, skip, start, |blocks|) + buffer == ExpectedBytes(g, received, left)
    ensures TooSmall(g, |blocks|, skip, start, |received| + more)
  {
    var n := Kept(skip, start, |blocks|);
    ReadBlocksLength(g, blocks, skip, start, |blocks|);
    if left == 0 && |received| <= Span(n, g.BlockLen()) {
      PaddedFits(g, received, n);
    }
  }

  /** An image that fits in n blocks fits when padded. */
  lemma PaddedFits(g: Geometry, image: seq<byte>, n: nat)
    requires g.Valid()
    ensures |image| <= Span(n, g.BlockLen()) <==> |PadToPage(g, image)| <= Span(n, g.BlockLen())
  {
    BlocksAreWholePages(g, n);
    if |image| <= Span(n, g.BlockLen()) {
      var k := PadLenIsLeast(|image|, g.PageLen());
      SpanMonotone(k, Pages(g, n), g.PageLen());
    }
  }

  lemma HoldsNothing(g: Geometry, blocks: seq<Block>, eb: nat, buf: seq<byte>)
    requires BlocksOk(g, blocks) && eb < |blocks| && BlankFrom(g, blocks[eb], 0)
    ensures Holds(g, blocks, eb, 0, buf)
  {
    assert blocks[eb].pages[..0] == [];
  }

  /** The blocks of lo..hi that are not marked bad. */
  function CountGood(blocks: seq<Block>, lo: nat, hi: nat): nat
    requires hi <= |blocks|
    decreases hi
  {
    if hi <= lo then 0 else CountGood(blocks, lo, hi - 1) + if blocks[hi - 1].bad then 0 else 1
  }

  lemma {:induction false} KeptIsGood(b0: seq<Block>, b1: seq<Block>, skip: set<nat>, lo: nat, hi: nat)
    requires hi <= |b0| && SameMarks(b0, b1) && SkipsBad(b1, skip, lo, hi)
    ensures Kept(skip, lo, hi) == CountGood(b0, lo, hi)
    decreases hi
  {
    if lo < hi {
      KeptIsGood(b0, b1, skip, lo, hi - 1);
    }
  }

  lemma {:induction false} CountGoodBounds(blocks: seq<Block>, lo: nat, mid: nat, hi: nat)
    requires lo <= mid <= hi <= |blocks|
    ensures CountGood(blocks, lo, mid) <= CountGood(blocks, lo, hi) <= CountGood(blocks, lo, mid) + (hi - mid)
    decreases hi
  {
    if mid < hi {
      CountGoodBounds(blocks, lo, mid, hi - 1);
    }
  }

  lemma GoodAtMost(blocks: seq<Block>, lo: nat, hi: nat, len: nat)
    requires lo <= hi <= |blocks|
    ensures Span(CountGood(blocks, lo, hi), len) <= Span(hi - lo, len)
  {
    CountGoodBounds(blocks, lo, lo, hi);
    SpanMonotone(CountGood(blocks, lo, hi), hi - lo, len);
  }

  /** An image whose pages outnumber the device's pages after start does not fit there. */
  lemma BeyondDevice(g: Geometry, image: seq<byte>, blocks: nat, pages: nat)
    requires g.Valid() && |PadToPage(g, image)| == Span(pages, g.PageLen())
    ensures Span(pages, g.minIo) > Span(blocks, g.EbSize()) <==> Span(blocks, g.BlockLen()) < |image|
  {
    BlocksAreWholePages(g, blocks);
    BlocksAreWholePages(g.(writeOob := false), blocks);
    var n := Pages(g, blocks);
    SamePages(g, g.(writeOob := false), blocks);
    PaddedFits(g, image, blocks);
    if pages <= n {
      SpanMonotone(pages, n, g.minIo);
      SpanMonotone(pages, n, g.PageLen());
    } else {
      SpanMonotone(n, pages, g.PageLen());
      SpanMonotone(n, pages, g.minIo);
    }
  }

  lemma {:induction false} SamePages(g: Geometry, h: Geometry, blocks: nat)
    requires g.pagesPerBlock == h.pagesPerBlock
    ensures Pages(g, blocks) == Pages(h, blocks)
  {
    if blocks > 0 {
      SamePages(g, h, blocks - 1);
    }
  }

  /** The blocks a reader skips once writing has stopped at page k of block eb. */
  function FinalSkip(blocks: seq<Block>, given: set<nat>, start: nat, eb: nat, k: nat): set<nat> {
    set i: nat | start <= i < |blocks| &&
      if i < eb then i in given else if i == eb && k > 0 then false else blocks[i].bad
  }

  lemma FinalSkipsBad(blocks: seq<Block>, given: set<nat>, start: nat, eb: nat, k: nat)
    requires eb <= |blocks| && SkipsBad(blocks, given, start, eb) && (k > 0 ==> eb < |blocks| && !blocks[eb].bad)
    ensures SkipsBad(blocks, FinalSkip(blocks, given, start, eb, k), start, |blocks|)
  {
  }

  /** An image that can be read back from the good blocks did fit in them. */
  lemma FitsInGood(g: Geometry, b0: seq<Block>, b1: seq<Block>, skip: set<nat>, start: nat, image: seq<byte>)
    requires BlocksOk(g, b1) && SameMarks(b0, b1) && SkipsBad(b1, skip, start, |b1|)
    requires PadToPage(g, image) <= ReadBlocks(g, b1, skip, start, |b1|)
    ensures |image| <= Span(CountGood(b0, start, |b0|), g.BlockLen())
  {
    KeptIsGood(b0, b1, skip, start, |b0|);
    ReadBlocksLength(g, b1, skip, start, |b1|);
    PaddedFits(g, image, CountGood(b0, start, |b0|));
  }

  /** Once nothing is pending, a reader gets back everything that was received. */
  lemma ReadBack(g: Geometry, blocks: seq<Block>, given: set<nat>, start: nat, eb: nat, k: nat, buf: seq<byte>,
                 all: seq<byte>)
    requires BlocksOk(g, blocks) && start <= eb <= |blocks|
    requires |buf| == Span(k, g.PageLen()) && (k > 0 ==> Holds(g, blocks, eb, k, buf))
    requires ReadBlocks(g, blocks, given, start, eb) + buf == all
    ensures all <= ReadBlocks(g, blocks, FinalSkip(blocks, given, start, eb, k), start, |blocks|)
  {
    var skip := FinalSkip(blocks, given, start, eb, k);
    SkipsAlike(g, blocks, given, start, eb, k);
    if k == 0 {
      assert buf == [];
      hide *;
      ReadBlocksPrefix(g, blocks, skip, start, eb, |blocks|);
      PrefixChain(ReadBlocks(g, blocks, skip, start, eb), buf, [], ReadBlocks(g, blocks, skip, start, |blocks|));
    } else {
      assert eb < |blocks|;
      hide *;
      HoldsPrefix(g, blocks, eb, k, buf);
      ReadOn(g, blocks, skip, start, eb, buf);
    }
  }

  lemma ReadOn(g: Geometry, blocks: seq<Block>, skip: set<nat>, start: nat, eb: nat, buf: seq<byte>)
    requires start <= eb < |blocks| && eb !in skip && buf <= PagesBytes(g, blocks[eb].pages)
    ensures ReadBlocks(g, blocks, skip, start, eb) + buf <= ReadBlocks(g, blocks, skip, start, |blocks|)
  {
    hide *;
    assert skip - {eb} == skip;
    ReadBlocksStep(g, blocks, skip, start, eb);
    ReadBlocksPrefix(g, blocks, skip, start, eb + 1, |blocks|);
    PrefixChain(ReadBlocks(g, blocks, skip, start, eb), buf, PagesBytes(g, blocks[eb].pages),
                ReadBlocks(g, blocks, skip, start, |blocks|));
  }

  lemma PrefixChain(a: seq<byte>, b: seq<byte>, c: seq<byte>, whole: seq<byte>)
    requires b <= c && a + c <= whole
    ensures a + b <= whole
  {
  }

  lemma SkipsAlike(g: Geometry, blocks: seq<Block>, given: set<nat>, start: nat, eb: nat, k: nat)
    requires start <= eb <= |blocks|
    ensures var skip := FinalSkip(blocks, given, start, eb, k);
      ReadBlocks(g, blocks, given, start, eb) == ReadBlocks(g, blocks, skip, start, eb) && (k > 0 ==> eb !in skip)
  {
    hide ReadBlocks;
    ReadBlocksFrame(g, blocks, blocks, given, FinalSkip(blocks, given, start, eb, k), start, eb);
  }

  lemma HoldsPrefix(g: Geometry, blocks: seq<Block>, eb: nat, k: nat, buf: seq<byte>)
    requires BlocksOk(g, blocks) && Holds(g, blocks, eb, k, buf) && |buf| == Span(k, g.PageLen())
    ensures buf <= PagesBytes(g, blocks[eb].pages)
  {
    var pages := blocks[eb].pages;
    PagesBytesAppend(g, pages[..k], pages[k..]);
    assert pages == pages[..k] + pages[k..];
    assert buf[..Span(k, g.PageLen())] == buf;
  }

  // ----- What the writer keeps -----

  /** Flash up to block eb, followed by the buffer, is what was received.  Block eb,
      once opened, holds the pages programmed so far.  With working bad-block marks,
      the blocks given up are those marked bad. */
  ghost predicate Stored(g: Geometry, blocks: seq<Block>, given: set<nat>, start: nat, eb: nat, page: nat,
                         buffer: seq<byte>, received: seq<byte>, left: nat, marks: bool, checkBad: bool)
  {
    && g.Valid() && BlocksOk(g, blocks) && start <= eb <= |blocks|
    && ReadBlocks(g, blocks, given, start, eb) + buffer == ExpectedBytes(g, received, left)
    && (page > 0 ==> Holds(g, blocks, eb, page, buffer))
    && (marks ==> checkBad && SkipsBad(blocks, given, start, eb))
    && (marks && page > 0 ==> !blocks[eb].bad)
  }

  lemma StoredOpen(g: Geometry, blocks: seq<Block>, given: set<nat>, start: nat, eb: nat, page: nat, buffer: seq<byte>,
                   received: seq<byte>, left: nat, marks: bool, checkBad: bool)
    requires g.Valid() && BlocksOk(g, blocks) && start <= eb < |blocks|
    requires ReadBlocks(g, blocks, given, start, eb) + buffer == ExpectedBytes(g, received, left)
    requires Holds(g, blocks, eb, page, buffer)
    requires marks ==> checkBad && SkipsBad(blocks, given, start, eb) && !blocks[eb].bad
    ensures Stored(g, blocks, given, start, eb, page, buffer, received, left, marks, checkBad)
  {
  }

  lemma StoredNext(g: Geometry, blocks: seq<Block>, given: set<nat>, start: nat, eb: nat, buffer: seq<byte>,
                   received: seq<byte>, left: nat, marks: bool, checkBad: bool)
    requires Stored(g, blocks, given, start, eb, g.pagesPerBlock, buffer, received, left, marks, checkBad) &&
             |buffer| <= g.BlockLen()
    ensures eb < |blocks| && Stored(g, blocks, given - {eb}, start, eb + 1, 0, [], received, left, marks, checkBad)
  {
    assert Holds(g, blocks, eb, g.pagesPerBlock, buffer);
    assert eb < |blocks|;
    hide ReadBlocks, BlocksOk, Holds, ExpectedBytes, SkipsBad;
    BlockCompleted(g, blocks, given, start, eb, buffer);
    SkipsGood(blocks, given, start, eb);
  }

  lemma StoredSkip(g: Geometry, blocks: seq<Block>, given: set<nat>, start: nat, eb: nat, buffer: seq<byte>,
                   received: seq<byte>, left: nat, marks: bool, checkBad: bool)
    requires Stored(g, blocks, given, start, eb, 0, buffer, received, left, marks, checkBad)
    requires eb < |blocks| && (marks ==> blocks[eb].bad)
    ensures Stored(g, blocks, given + {eb}, start, eb + 1, 0, buffer, received, left, marks, checkBad)
  {
    hide ReadBlocks, BlocksOk, Holds, ExpectedBytes;
    ReadBlocksStep(g, blocks, given, start, eb);
  }

  lemma StoredMore(g: Geometry, blocks: seq<Block>, given: set<nat>, start: nat, eb: nat, page: nat, buffer: seq<byte>,
                   received: seq<byte>, left: nat, marks: bool, checkBad: bool, taken: seq<byte>)
    requires Stored(g, blocks, given, start, eb, page, buffer, received, left, marks, checkBad) && |taken| <= left
    ensures var b := if left == |taken| then PadToPage(g, buffer + taken) else buffer + taken;
      Stored(g, blocks, given, start, eb, page, b, received + taken, left - |taken|, marks, checkBad)
  {
    var b := if left == |taken| then PadToPage(g, buffer + taken) else buffer + taken;
    assert page > 0 ==> Holds(g, blocks, eb, page, buffer);
    hide ReadBlocks, BlocksOk, Holds, ExpectedBytes, SkipsBad, PadToPage;
    ReadBlocksLength(g, blocks, given, start, eb);
    IntakeConserves(g, ReadBlocks(g, blocks, given, start, eb), Kept(given, start, eb), buffer, received, left, taken);
    Grown(g, buffer, taken);
    if page > 0 {
      HoldsGrown(g, blocks, eb, page, buffer, b);
    }
  }
}
