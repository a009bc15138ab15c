/** The bad-block-aware flash writer: a push-style writer that buffers one erase
    block, programs it page by page, skips unusable blocks, and on a failed write
    retires the block and writes the whole buffer again elsewhere. */
module Flash {
  import opened Bytes
  import opened FlashSpec

  datatype Errno = OK | EIO | NotSupported | EOther(code: int)

  datatype Op = IsBadOp | IsLockedOp | UnlockOp | ReadOp | EraseOp | WriteOp | MarkBadOp

  /** Answers after which the writer goes on: an I/O error of a write or an erase makes it
      give up the block, and a driver may do without marks and locks. */
  predicate Tolerable(op: Op, e: Errno) {
    || e == OK
    || (e == EIO && op in {WriteOp, EraseOp})
    || (e == NotSupported && op in {IsBadOp, MarkBadOp, IsLockedOp, UnlockOp})
  }

  /** The first answer that is not tolerable, if there was one. */
  function Noted(trouble: Errno, op: Op, e: Errno): Errno {
    if trouble == OK && !Tolerable(op, e) then e else trouble
  }

  /** An MTD device.  outcome(op, t) is what the driver reports for an operation
      issued at time t, so a device ranges over every pattern of faults. */
  class Mtd {
    const g: Geometry
    const outcome: (Op, nat) -> Errno
    const lockBit: nat -> bool
    /** What a failed program or erase leaves in a page. */
    const debris: (nat, nat) -> Page
    var blocks: seq<Block>
    var clock: nat
    ghost var trouble: Errno
    /** The blocks of which the driver said that they are not locked, or which it unlocked. */
    ghost var open: set<nat>

    constructor (g: Geometry, outcome: (Op, nat) -> Errno, lockBit: nat -> bool, debris: (nat, nat) -> Page,
                 blocks: seq<Block>)
      ensures this.g == g && this.outcome == outcome && this.lockBit == lockBit && this.debris == debris
      ensures this.blocks == blocks && clock == 0 && trouble == OK && open == {}
    {
      this.g, this.outcome, this.lockBit, this.debris := g, outcome, lockBit, debris;
      this.blocks, clock, trouble, open := blocks, 0, OK, {};
    }

    /** A driver that leaves pages as pages and can erase. */
    ghost predicate Sound() {
      && g.Valid()
      && (forall t: nat, k: nat :: PageOk(g, debris(t, k)))
      && (forall t: nat :: outcome(EraseOp, t) != NotSupported)
    }

    ghost predicate MarksSupported() {
      forall t: nat :: outcome(IsBadOp, t) != NotSupported && outcome(MarkBadOp, t) != NotSupported
    }

    /** Nothing worse happens than an I/O error of a write or an erase. */
    ghost predicate Bearable() {
      forall op: Op, t: nat :: Tolerable(op, outcome(op, t))
    }

    /** No operation ever fails; a driver may do without locks. */
    ghost predicate Quiet() {
      forall op: Op, t: nat :: outcome(op, t) == OK ||
             ((op == IsLockedOp || op == UnlockOp) && outcome(op, t) == NotSupported)
    }

    method IsBad(eb: nat) returns (e: Errno, bad: bool)
      requires Sound() && BlocksOk(g, blocks) && eb < |blocks|
      modifies this`clock, this`trouble
      ensures e == outcome(IsBadOp, old(clock))
      ensures bad <==> e == OK && blocks[eb].bad
      ensures trouble == Noted(old(trouble), IsBadOp, e)
      ensures clock == old(clock) + 1
    {
      e := outcome(IsBadOp, clock);
      clock, trouble := clock + 1, Noted(trouble, IsBadOp, e);
      bad := e == OK && blocks[eb].bad;
    }

    method IsLocked(eb: nat) returns (e: Errno, locked: bool)
      requires Sound() && BlocksOk(g, blocks) && eb < |blocks|
      modifies this`clock, this`trouble, this`open
      ensures e == outcome(IsLockedOp, old(clock)) && locked == lockBit(old(clock)) && clock == old(clock) + 1
      ensures trouble == Noted(old(trouble), IsLockedOp, e)
      ensures open == old(open) + if e == OK && !locked then {eb} else {}
    {
      e, locked := outcome(IsLockedOp, clock), lockBit(clock);
      clock, trouble := clock + 1, Noted(trouble, IsLockedOp, e);
      open := open + if e == OK && !locked then {eb} else {};
    }

    method Unlock(eb: nat) returns (e: Errno)
      requires Sound() && BlocksOk(g, blocks) && eb < |blocks|
      modifies this`clock, this`trouble, this`open
      ensures e == outcome(UnlockOp, old(clock)) && clock == old(clock) + 1
      ensures trouble == Noted(old(trouble), UnlockOp, e)
      ensures open == old(open) + if e == OK then {eb} else {}
    {
      e := outcome(UnlockOp, clock);
      clock, trouble := clock + 1, Noted(trouble, UnlockOp, e);
      open := open + if e == OK then {eb} else {};
    }

    method Read(eb: nat) returns (e: Errno, data: seq<byte>)
      requires Sound() && BlocksOk(g, blocks) && eb < |blocks| && !g.writeOob
      modifies this`clock, this`trouble
      ensures e == outcome(ReadOp, old(clock))
      ensures e == OK ==> data == PagesBytes(g, blocks[eb].pages)
      ensures trouble == Noted(old(trouble), ReadOp, e)
      ensures clock == old(clock) + 1
    {
      e := outcome(ReadOp, clock);
      data := PagesBytes(g, blocks[eb].pages);
      clock, trouble := clock + 1, Noted(trouble, ReadOp, e);
    }

    /** A successful erase leaves every page blank; a failed one leaves debris. */
    method Erase(eb: nat) returns (e: Errno)
      requires Sound() && BlocksOk(g, blocks) && eb < |blocks|
      modifies this
      ensures BlocksOk(g, blocks) && e == outcome(EraseOp, old(clock))
      ensures Within(old(blocks), blocks, eb, eb + 1) && blocks[eb].bad == old(blocks)[eb].bad
      ensures e == OK ==> BlankFrom(g, blocks[eb], 0)
      ensures trouble == Noted(old(trouble), EraseOp, e)
      ensures clock == old(clock) + 1 && open == old(open)
    {
      e := outcome(EraseOp, clock);
      var n := g.pagesPerBlock;
      if e == OK {
        var page := Page(Blank(g.minIo), Blank(g.oobSize));
        assert PageBytes(g, page) == Blank(g.PageLen());
        blocks := blocks[eb := Block(seq(n, _ => page), seq(n, _ => true), blocks[eb].bad)];
      } else if e != NotSupported {
        var d, t := debris, clock;
        blocks := blocks[eb := Block(seq(n, k => if 0 <= k then d(t, k) else Page([], [])), seq(n, _ => false),
                                     blocks[eb].bad)];
      }
      clock, trouble := clock + 1, Noted(trouble, EraseOp, e);
    }

    method MarkBad(eb: nat) returns (e: Errno)
      requires Sound() && BlocksOk(g, blocks) && eb < |blocks|
      modifies this
      ensures BlocksOk(g, blocks) && e == outcome(MarkBadOp, old(clock))
      ensures Within(old(blocks), blocks, eb, eb + 1)
      ensures blocks[eb] == old(blocks)[eb].(bad := old(blocks)[eb].bad || e == OK)
      ensures trouble == Noted(old(trouble), MarkBadOp, e)
      ensures clock == old(clock) + 1 && open == old(open)
    {
      e := outcome(MarkBadOp, clock);
      if e == OK {
        blocks := blocks[eb := blocks[eb].(bad := true)];
      }
      clock, trouble := clock + 1, Noted(trouble, MarkBadOp, e);
    }

    /** Programs consecutive pages from page k on.  The precondition is the
        write-once rule: the target must be blank and, on NAND, not programmed
        since its last erase. */
    method Write(eb: nat, k: nat, pages: seq<Page>) returns (e: Errno)
      requires Sound() && BlocksOk(g, blocks) && eb < |blocks|
      requires 0 < |pages| && k + |pages| <= g.pagesPerBlock
      requires PagesOk(g, pages)
      requires BlankFrom(g, blocks[eb], k)
      modifies this
      ensures BlocksOk(g, blocks) && e == outcome(WriteOp, old(clock))
      ensures Within(old(blocks), blocks, eb, eb + 1) && blocks[eb].bad == old(blocks)[eb].bad
      ensures e == OK ==>
        && blocks[eb].pages == old(blocks)[eb].pages[..k] + pages + old(blocks)[eb].pages[k + |pages|..]
        && BlankFrom(g, blocks[eb], k + |pages|)
      ensures trouble == Noted(old(trouble), WriteOp, e)
      ensures clock == old(clock) + 1 && open == old(open)
    {
      e := outcome(WriteOp, clock);
      var b, n := blocks[eb], |pages|;
      var used := b.virgin[..k] + seq(n, _ => false) + b.virgin[k + n..];
      if e == OK {
        blocks := blocks[eb := Block(b.pages[..k] + pages + b.pages[k + n..], used, b.bad)];
      } else {
        var d, t := debris, clock;
        var wreck := seq(n, j => if 0 <= j then d(t, j) else Page([], []));
        blocks := blocks[eb := Block(b.pages[..k] + wreck + b.pages[k + n..], used, b.bad)];
      }
      clock, trouble := clock + 1, Noted(trouble, WriteOp, e);
    }
  }

  /** The bytes of whole pages, as the pages that the driver is handed. */
  function SplitPages(g: Geometry, bytes: seq<byte>): (pages: seq<Page>)
    requires g.Valid()
    decreases |bytes|
  {
    if |bytes| < g.PageLen() then []
    else [Page(bytes[..g.minIo], bytes[g.minIo..g.PageLen()])] + SplitPages(g, bytes[g.PageLen()..])
  }

  lemma PrependPage(g: Geometry, bytes: seq<byte>, page: Page, rest: seq<Page>)
    requires g.Valid() && g.PageLen() <= |bytes|
    requires page == Page(bytes[..g.minIo], bytes[g.minIo..g.PageLen()])
    requires PagesBytes(g, rest) == bytes[g.PageLen()..]
    ensures PagesBytes(g, [page] + rest) == bytes && PageOk(g, page)
  {
    PagesBytesAppend(g, [page], rest);
    assert [page][..0] == [];
    assert PagesBytes(g, [page]) == PageBytes(g, page) == bytes[..g.PageLen()];
  }

  /** Splitting into pages loses nothing. */
  lemma {:induction false} SplitPagesJoin(g: Geometry, bytes: seq<byte>, n: nat)
    requires g.Valid() && |bytes| == Span(n, g.PageLen())
    ensures |SplitPages(g, bytes)| == n
    ensures PagesOk(g, SplitPages(g, bytes))
    ensures PagesBytes(g, SplitPages(g, bytes)) == bytes
    decreases n
  {
    if n > 0 {
      SplitPagesJoin(g, bytes[g.PageLen()..], n - 1);
      SplitOne(g, bytes);
    }
  }

  lemma SplitOne(g: Geometry, bytes: seq<byte>)
    requires g.Valid() && g.PageLen() <= |bytes|
    requires PagesOk(g, SplitPages(g, bytes[g.PageLen()..]))
    requires PagesBytes(g, SplitPages(g, bytes[g.PageLen()..])) == bytes[g.PageLen()..]
    ensures |SplitPages(g, bytes)| == 1 + |SplitPages(g, bytes[g.PageLen()..])|
    ensures PagesOk(g, SplitPages(g, bytes))
    ensures PagesBytes(g, SplitPages(g, bytes)) == bytes
  {
    var page := Page(bytes[..g.minIo], bytes[g.minIo..g.PageLen()]);
    PrependPage(g, bytes, page, SplitPages(g, bytes[g.PageLen()..]));
  }

  /** Whether a buffer holds only the given byte, by comparing it with itself shifted by one. */
  method BufferCheckPattern(buffer: seq<byte>, pattern: byte) returns (r: bool)
    ensures r <==> 0 < |buffer| && forall i :: 0 <= i < |buffer| ==> buffer[i] == pattern
  {
    if |buffer| == 0 || buffer[0] != pattern {
      return false;
    }
    if |buffer| == 1 {
      return true;
    }
    r := buffer[..|buffer| - 1] == buffer[1..];
    if r {
      ShiftEqualIsConstant(buffer);
    }
  }

  lemma {:induction false} ShiftEqualIsConstant(s: seq<byte>)
    requires 0 < |s| && s[..|s| - 1] == s[1..]
    ensures forall i :: 0 <= i < |s| ==> s[i] == s[0]
  {
    var k := 1;
    while k < |s|
      invariant 1 <= k <= |s|
      invariant forall i :: 0 <= i < k ==> s[i] == s[0]
    {
      assert s[1..][k - 1] == s[..|s| - 1][k - 1];
      k := k + 1;
    }
  }

  /** NOR only: whether the block is blank as it stands. */
  method AlreadyEmpty(dev: Mtd, eb: nat) returns (e: Errno, empty: bool)
    requires dev.Sound() && BlocksOk(dev.g, dev.blocks) && eb < |dev.blocks| && !dev.g.isNand
    modifies dev`clock, dev`trouble
    ensures e == dev.outcome(ReadOp, old(dev.clock)) && dev.trouble == Noted(old(dev.trouble), ReadOp, e)
    ensures e == OK ==> (empty <==> BlankFrom(dev.g, dev.blocks[eb], 0))
  {
    var data;
    e, data := dev.Read(eb);
    if e != OK {
      return e, false;
    }
    empty := BufferCheckPattern(data, EMPTY);
    if empty {
      forall k | 0 <= k < dev.g.pagesPerBlock
        ensures PageBytes(dev.g, dev.blocks[eb].pages[k]) == Blank(dev.g.PageLen())
      {
        BlankPagesBytes(dev.g, dev.blocks[eb].pages, k);
      }
    } else if BlankFrom(dev.g, dev.blocks[eb], 0) {
      AllBlank(dev.g, dev.blocks[eb].pages);
    }
  }

  datatype Search = Found | Skip | Failed(e: Errno)

  datatype Step = Progress | Wait | Stop(ret: Ret)

  datatype Ret = Done | ENOSPC | Fatal(e: Errno)

  function Blamed(s: Search): Errno { if s.Failed? then s.e else OK }

  /** A call fails with the first intolerable answer of the driver, and for no other reason. */
  ghost predicate Reported(trouble: Errno, r: Ret) {
    trouble == (if r.Fatal? then r.e else OK) && (r.Fatal? ==> r.e != OK)
  }

  class FlashWriter {
    const g: Geometry
    const dev: Mtd
    const start: nat
    const ebEnd: nat
    const filebuf: array<byte>
    var imglen: int
    var filebufLen: nat
    var writebufOffset: nat
    var eb: nat
    var checkBad: bool
    var checkLocked: bool
    var doUnlock: bool
    /** The image bytes accepted so far, the buffer's contents, the index of the next page to program,
        and the blocks given up since the start. */
    ghost var received: seq<byte>
    ghost var buffer: seq<byte>
    ghost var page: nat
    ghost var abandoned: set<nat>

    /** The fields are in range and fit together. */
    ghost predicate Shape()
      reads this, dev
    {
      && dev.g == g && dev.Sound() && BlocksOk(g, dev.blocks) && |dev.blocks| == ebEnd
      && start <= eb <= ebEnd
      && filebuf.Length == g.BlockLen() && filebufLen == |buffer| <= g.BlockLen()
      && 0 <= imglen
      && page < g.pagesPerBlock && writebufOffset == Span(page, g.minIo) && Span(page, g.PageLen()) <= filebufLen
    }

    ghost predicate Valid()
      reads this, dev, filebuf
    {
      && Shape() && filebuf[..filebufLen] == buffer
      && Stored(g, dev.blocks, abandoned, start, eb, page, buffer, received, imglen, dev.MarksSupported(), checkBad)
    }

    constructor (dev: Mtd, start: nat, imglen: nat)
      requires dev.Sound() && BlocksOk(dev.g, dev.blocks) && start <= |dev.blocks|
      ensures Valid() && fresh(filebuf)
      ensures this.dev == dev && this.g == dev.g && this.start == start && this.ebEnd == |dev.blocks|
      ensures this.imglen == imglen && received == [] && buffer == [] && eb == start && filebufLen == 0 && page == 0 &&
              abandoned == {}
    {
      this.dev, this.g, this.start, this.ebEnd := dev, dev.g, start, |dev.blocks|;
      this.imglen, filebufLen, writebufOffset, eb := imglen, 0, 0, start;
      checkBad, checkLocked, doUnlock := true, true, false;
      filebuf := new byte[dev.g.BlockLen()];
      received, buffer, page, abandoned := [], [], 0, {};
    }

    method MarkBadBlock() returns (e: Errno)
      requires Shape() && eb < ebEnd && dev.trouble == OK
      modifies dev
      ensures dev.trouble == e && (dev.Bearable() ==> e == OK)
      ensures Shape() && Within(old(dev.blocks), dev.blocks, eb, eb + 1)
      ensures var told, was := dev.outcome(MarkBadOp, old(dev.clock)), old(dev.blocks)[eb];
        e == (if told == NotSupported then OK else told) && dev.blocks[eb] == was.(bad := was.bad || told == OK)
      ensures e == OK && dev.MarksSupported() ==> dev.blocks[eb].bad
      ensures dev.open == old(dev.open)
    {
      e := dev.MarkBad(eb);
      if e == NotSupported {
        e := OK;
      }
    }

    /** Whether the current block is to be unlocked: as the driver says, always if it
        cannot say, or as it was before. */
    ghost predicate WantsUnlock()
      reads this, dev`clock
    {
      if !checkLocked then doUnlock
      else dev.outcome(IsLockedOp, dev.clock) == NotSupported
           || (dev.outcome(IsLockedOp, dev.clock) == OK && dev.lockBit(dev.clock))
    }

    /** The driver's answer to unlocking, which follows the question if there is one. */
    ghost function UnlockAnswer(): Errno
      reads this, dev`clock
    {
      dev.outcome(UnlockOp, if checkLocked then dev.clock + 1 else dev.clock)
    }

    /** The current block is not locked, as far as the driver can tell. */
    ghost predicate Unlocked()
      reads this, dev`open
    {
      eb in dev.open || (!checkLocked && !doUnlock)
    }

    /** Asks the driver whether the current block is locked; one that cannot say is not asked again. */
    method AskLocked() returns (e: Errno)
      requires Shape() && eb < ebEnd && dev.trouble == OK
      modifies dev`clock, dev`trouble, dev`open, this`checkLocked, this`doUnlock
      ensures Shape() && dev.trouble == e && (dev.Bearable() ==> e == OK)
      ensures e == if old(checkLocked) && dev.outcome(IsLockedOp, old(dev.clock)) != NotSupported
                   then dev.outcome(IsLockedOp, old(dev.clock)) else OK
      ensures dev.clock == old(dev.clock) + if old(checkLocked) then 1 else 0
      ensures e == OK ==> doUnlock == old(WantsUnlock()) && (checkLocked && !doUnlock ==> eb in dev.open)
      ensures e == OK ==> (checkLocked <==> old(checkLocked) && dev.outcome(IsLockedOp, old(dev.clock)) == OK)
    {
      hide BlocksOk, Span, Mtd.Sound, Geometry.BlockLen;
      e := OK;
      if checkLocked {
        var locked;
        e, locked := dev.IsLocked(eb);
        if e == NotSupported {
          checkLocked, doUnlock, e := false, true, OK;
        } else if e == OK {
          doUnlock := locked;
        }
      }
    }

    /** Unlocks the current block if the device asks for it; only the lock flags change.
        The driver is not asked again for what it does not support. */
    method UnlockIfNeeded() returns (r: Search)
      requires Shape() && eb < ebEnd && dev.trouble == OK
      modifies dev`clock, dev`trouble, dev`open, this`checkLocked, this`doUnlock
      ensures dev.trouble == Blamed(r) && (r.Failed? ==> r.e != OK) && (dev.Bearable() ==> !r.Failed?)
      ensures Shape() && !r.Skip?
      ensures r.Found? ==> Unlocked()
      ensures r.Found? ==> doUnlock == old(WantsUnlock() && UnlockAnswer() == OK)
      ensures r.Found? ==>
        checkLocked
          == old(checkLocked && dev.outcome(IsLockedOp, dev.clock) == OK && (WantsUnlock() ==> UnlockAnswer() == OK))
      ensures r.Failed? <==>
        || old(checkLocked && dev.outcome(IsLockedOp, dev.clock) !in {OK, NotSupported})
        || old(WantsUnlock() && UnlockAnswer() !in {OK, NotSupported})
    {
      hide BlocksOk, Span, Mtd.Sound, Geometry.BlockLen;
      var asked := AskLocked();
      if asked != OK {
        return Failed(asked);
      }
      if doUnlock {
        var e := dev.Unlock(eb);
        if e == NotSupported {
          checkLocked, doUnlock := false, false;
        } else if e != OK {
          return Failed(e);
        }
      }
      r := Found;
    }

    /** Erases the current block, or marks it bad if that fails with an I/O error. */
    method EraseOrRetire() returns (r: Search)
      requires Shape() && eb < ebEnd && dev.trouble == OK
      modifies dev
      ensures dev.trouble == Blamed(r) && (r.Failed? ==> r.e != OK) && (dev.Bearable() ==> !r.Failed?)
      ensures r.Found? <==> dev.outcome(EraseOp, old(dev.clock)) == OK
      ensures r.Skip? ==> dev.outcome(EraseOp, old(dev.clock)) == EIO
      ensures Shape() && Within(old(dev.blocks), dev.blocks, eb, eb + 1)
      ensures r.Found? ==> BlankFrom(g, dev.blocks[eb], 0) && dev.blocks[eb].bad == old(dev.blocks)[eb].bad
      ensures r.Skip? && dev.MarksSupported() ==> dev.blocks[eb].bad
      ensures dev.Quiet() ==> r.Found?
      ensures dev.open == old(dev.open)
    {
      var e := dev.Erase(eb);
      if e == EIO {
        e := MarkBadBlock();
        r := if e == OK then Skip else Failed(e);
      } else {
        r := if e == OK then Found else Failed(e);
      }
    }

    /** The driver is asked whether the current block is bad, and says so. */
    ghost predicate CalledBad()
      reads this, dev`clock, dev`blocks
      requires eb < |dev.blocks|
    {
      checkBad && dev.outcome(IsBadOp, dev.clock) == OK && dev.blocks[eb].bad
    }

    /** Skips a block that is marked bad; a driver without marks is asked only once. */
    method CheckBadBlock() returns (r: Search)
      requires Shape() && eb < ebEnd && dev.trouble == OK
      modifies dev`clock, dev`trouble, this`checkBad
      ensures dev.trouble == Blamed(r) && (r.Failed? ==> r.e != OK) && (dev.Bearable() ==> !r.Failed?)
      ensures Shape() && (r.Skip? <==> old(CalledBad()))
      ensures r.Failed? <==> old(checkBad) && dev.outcome(IsBadOp, old(dev.clock)) !in {OK, NotSupported}
      ensures checkBad <==> old(checkBad) && dev.outcome(IsBadOp, old(dev.clock)) != NotSupported
    {
      r := Found;
      if checkBad {
        var e, bad := dev.IsBad(eb);
        if bad {
          return Skip;
        }
        if e == NotSupported {
          checkBad := false;
        } else if e != OK {
          return Failed(e);
        }
      }
    }

    /** Found means the current block is blank and ready; Skip means it cannot be used. */
    method ProcessNewEraseBlock() returns (r: Search)
      requires Shape() && eb < ebEnd && page == 0 && dev.trouble == OK
      modifies dev, this`checkBad, this`checkLocked, this`doUnlock
      ensures dev.trouble == Blamed(r) && (r.Failed? ==> r.e != OK) && (dev.Bearable() ==> !r.Failed?)
      ensures Shape() && Within(old(dev.blocks), dev.blocks, eb, eb + 1)
      ensures r.Found? ==> BlankFrom(g, dev.blocks[eb], 0) && Unlocked()
      ensures !g.isNand && BlankFrom(g, old(dev.blocks)[eb], 0) ==> dev.blocks == old(dev.blocks)
      ensures checkBad <==> old(checkBad) && dev.outcome(IsBadOp, old(dev.clock)) != NotSupported
      ensures old(CalledBad()) ==> r.Skip?
      ensures dev.MarksSupported() && old(checkBad) ==>
              checkBad && (r.Found? ==> !dev.blocks[eb].bad) && (r.Skip? ==> dev.blocks[eb].bad)
      ensures dev.Quiet() ==> !r.Failed? && SameMarks(old(dev.blocks), dev.blocks)
    {
      hide BlankFrom, PagesBytes, Span, Within, SameMarks, BlocksOk, Mtd.Sound, Geometry.BlockLen;
      WithinSame(dev.blocks, eb, eb + 1);
      r := CheckBadBlock();
      if !r.Found? {
        return;
      }
      r := UnlockIfNeeded();
      if r.Failed? {
        return;
      }
      r := EraseUnlessEmpty();
    }

    /** Erases the current block, unless it is a block of a NOR device that is blank already. */
    method EraseUnlessEmpty() returns (r: Search)
      requires Shape() && eb < ebEnd && dev.trouble == OK
      modifies dev
      ensures dev.trouble == Blamed(r) && (r.Failed? ==> r.e != OK) && (dev.Bearable() ==> !r.Failed?)
      ensures Shape() && Within(old(dev.blocks), dev.blocks, eb, eb + 1) && dev.open == old(dev.open)
      ensures r.Found? ==> BlankFrom(g, dev.blocks[eb], 0) && dev.blocks[eb].bad == old(dev.blocks)[eb].bad
      ensures !g.isNand && BlankFrom(g, old(dev.blocks)[eb], 0) ==> dev.blocks == old(dev.blocks)
      ensures r.Skip? && dev.MarksSupported() ==> dev.blocks[eb].bad
      ensures dev.Quiet() ==> r.Found? && SameMarks(old(dev.blocks), dev.blocks)
    {
      hide BlankFrom, PagesBytes, Span, Within, SameMarks, BlocksOk, Mtd.Sound, Geometry.BlockLen;
      WithinSame(dev.blocks, eb, eb + 1);
      if !g.isNand {
        var e, empty := AlreadyEmpty(dev, eb);
        if e != OK {
          return Failed(e);
        }
        if empty {
          return Found;
        }
      }
      r := EraseOrRetire();
      if r.Found? {
        OneChanged(old(dev.blocks), dev.blocks, eb);
      }
    }

    /** Tries the current block, and gives it up if it cannot be used. */
    method TryBlock() returns (s: Search)
      requires Valid() && page == 0 && eb < ebEnd && dev.trouble == OK
      modifies dev, this`eb, this`checkBad, this`checkLocked, this`doUnlock, this`abandoned
      ensures Valid() && eb == if s.Skip? then old(eb) + 1 else old(eb)
      ensures dev.trouble == Blamed(s) && (s.Failed? ==> s.e != OK) && (dev.Bearable() ==> !s.Failed?)
      ensures s.Found? ==>
              Unlocked() && Holds(g, dev.blocks, eb, 0, buffer) && (dev.MarksSupported() ==> !dev.blocks[eb].bad)
      ensures Within(old(dev.blocks), dev.blocks, old(eb), old(eb) + 1)
      ensures dev.Quiet() ==> !s.Failed? && SameMarks(old(dev.blocks), dev.blocks)
    {
      hide Holds, ExpectedBytes, ReadBlocks, SkipsBad, Within, SameMarks;
      s := ProcessNewEraseBlock();
      ReadBelow(g, old(dev.blocks), dev.blocks, abandoned, start, eb, eb + 1);
      if s.Found? {
        HoldsNothing(g, dev.blocks, eb, buffer);
      } else if s.Skip? {
        GiveUp();
      }
    }

    /** Moves on to the first usable block, giving up the unusable ones on the way. */
    method PrepareNewEraseBlock() returns (r: Ret)
      requires Valid() && page == 0 && dev.trouble == OK
      modifies dev, this`eb, this`checkBad, this`checkLocked, this`doUnlock, this`abandoned
      ensures Valid() && Reported(dev.trouble, r) && (dev.Bearable() ==> !r.Fatal?)
      ensures r == Done ==> Holds(g, dev.blocks, eb, 0, buffer) && (dev.MarksSupported() ==> !dev.blocks[eb].bad)
      ensures r == ENOSPC ==> eb == ebEnd
      ensures old(eb) <= eb && Within(old(dev.blocks), dev.blocks, old(eb), eb + 1)
      ensures dev.Quiet() ==> !r.Fatal? && SameMarks(old(dev.blocks), dev.blocks)
    {
      while eb < ebEnd
        invariant Valid() && old(eb) <= eb && dev.trouble == OK
        invariant Within(old(dev.blocks), dev.blocks, old(eb), eb)
        invariant dev.Quiet() ==> SameMarks(old(dev.blocks), dev.blocks)
      {
        hide Holds, ExpectedBytes, ReadBlocks, SkipsBad, Within, SameMarks;
        label Before:
        ghost var e := eb;
        var s := TryBlock();
        WithinTrans(old(dev.blocks), old@Before(dev.blocks), dev.blocks, old(eb), e, e, e + 1, e + 1);
        if dev.Quiet() {
          SameMarksTrans(old(dev.blocks), old@Before(dev.blocks), dev.blocks);
        }
        if s.Failed? {
          return Fatal(s.e);
        } else if s.Found? {
          return Done;
        }
      }
      r := ENOSPC;
    }

    /** Retires the current block; the bytes stored so far and the buffer stand. */
    method GiveUp()
      requires Shape() && eb < ebEnd && page == 0
      requires filebuf[..filebufLen] == buffer &&
               ReadBlocks(g, dev.blocks, abandoned, start, eb) + buffer == ExpectedBytes(g, received, imglen)
      requires dev.MarksSupported() ==> checkBad && SkipsBad(dev.blocks, abandoned, start, eb) && dev.blocks[eb].bad
      modifies this`eb, this`abandoned
      ensures Valid() && eb == old(eb) + 1 && abandoned == old(abandoned) + {old(eb)}
    {
      StoredSkip(g, dev.blocks, abandoned, start, eb, buffer, received, imglen, dev.MarksSupported(), checkBad);
      hide Stored, ReadBlocks, BlocksOk, ExpectedBytes, SkipsBad, Mtd.Sound, Mtd.MarksSupported;
      abandoned := abandoned + {eb};
      eb := eb + 1;
    }

    /** Copies input into the buffer at offset at. */
    method BufferCopy(at: nat, src: seq<byte>)
      requires at + |src| <= filebuf.Length
      modifies filebuf
      ensures filebuf[..at + |src|] == old(filebuf[..at]) + src
    {
      forall i | 0 <= i < |src| {
        filebuf[at + i] := src[i];
      }
    }

    /** The offset in the buffer of the next page to program. */
    method FilebufOffset() returns (offset: nat)
      requires Shape()
      ensures offset == Span(page, g.PageLen())
    {
      SpanIsProduct(page, g.PageLen());
      DivExact(page, g.minIo);
      offset := (writebufOffset / g.minIo) * g.PageLen();
    }

    /** Moves as much input into the buffer as fits. */
    method TakeInput(input: seq<byte>) returns (rest: seq<byte>, ghost taken: seq<byte>)
      requires Shape() && filebuf[..filebufLen] == buffer && |input| <= imglen
      modifies this`imglen, this`filebufLen, this`received, this`buffer, filebuf
      ensures Shape() && filebuf[..filebufLen] == buffer
      ensures input == taken + rest && (rest == [] || filebufLen == g.BlockLen())
      ensures buffer == old(buffer) + taken && received == old(received) + taken && imglen == old(imglen) - |taken|
    {
      var room := g.BlockLen() - filebufLen;
      var take := if |input| > room then room else |input|;
      taken := input[..take];
      BufferCopy(filebufLen, input[..take]);
      filebufLen := filebufLen + take;
      buffer := buffer + taken;
      received := received + taken;
      imglen := imglen - take;
      rest := input[take..];
    }

    /** Fills the last page of the buffer with empty bytes. */
    method PadBuffer()
      requires Shape() && filebuf[..filebufLen] == buffer
      modifies this`filebufLen, this`buffer, filebuf
      ensures Shape() && filebuf[..filebufLen] == buffer && buffer == PadToPage(g, old(buffer))
    {
      RoundUpIsPadded(filebufLen, g.PageLen());
      PadFits(g, buffer);
      var len := ((filebufLen + g.PageLen() - 1) / g.PageLen()) * g.PageLen();
      BufferCopy(filebufLen, Blank(len - filebufLen));
      buffer := PadToPage(g, buffer);
      filebufLen := len;
    }

    /** Reads input into the buffer, and pads the buffer once the image is complete. */
    method Intake(input: seq<byte>) returns (rest: seq<byte>, ghost taken: seq<byte>)
      requires Shape() && filebuf[..filebufLen] == buffer && |input| <= imglen
      modifies this`imglen, this`filebufLen, this`received, this`buffer, filebuf
      ensures Shape() && filebuf[..filebufLen] == buffer && input == taken + rest
      ensures received == old(received) + taken && imglen == old(imglen) - |taken|
      ensures buffer == if imglen == 0 then PadToPage(g, old(buffer) + taken) else old(buffer) + taken
      ensures rest == [] || |buffer| == g.BlockLen()
    {
      hide PadToPage;
      rest, taken := TakeInput(input);
      if imglen == 0 {
        PadBuffer();
      }
    }

    method Load(input: seq<byte>) returns (rest: seq<byte>)
      requires Valid() && |input| <= imglen
      modifies this`imglen, this`filebufLen, this`received, this`buffer, filebuf
      ensures Valid() && |rest| <= imglen && |received| + imglen == |old(received)| + old(imglen)
      ensures received + rest == old(received) + input
      ensures rest == [] || |buffer| == g.BlockLen()
      ensures imglen == 0 ==> WholePages(g, |buffer|)
    {
      ghost var taken;
      hide Stored, PadToPage, BlocksOk, WholePages, Span, Mtd.MarksSupported;
      rest, taken := Intake(input);
      StoredMore(g, dev.blocks, abandoned, start, eb, page, old(buffer), old(received), old(imglen),
                 dev.MarksSupported(), checkBad, taken);
      Grown(g, old(buffer), taken);
      assert received + rest == old(received) + (taken + rest);
    }

    /** Says how much data can be programmed from the next page on.  With nothing
        to program, all input has been taken and the writer waits for the next call. */
    method ReadData(input: seq<byte>) returns (rest: seq<byte>, toWrite: nat, ghost pages: nat)
      requires Valid() && |input| <= imglen
      modifies this`imglen, this`filebufLen, this`received, this`buffer, filebuf
      ensures Valid() && |rest| <= imglen && |received| + imglen == |old(received)| + old(imglen)
      ensures received + rest == old(received) + input
      ensures toWrite == Span(pages, g.minIo) && Ready(g, page, pages, |buffer|) && (g.isNand ==> pages <= 1)
      ensures pages > 0 ==> 0 < |buffer| && 0 < toWrite
      ensures pages == 0 ==> rest == [] && (imglen == 0 ==> |buffer| == Span(page, g.PageLen()))
    {
      rest := Load(input);
      var offset := FilebufOffset();
      toWrite, pages := PagesReady(g, page, offset, filebufLen);
      if pages == 0 {
        NothingReady(g, page, |buffer|);
      }
    }

    /** The bytes of the next pages: data, followed in OOB mode by the page's OOB bytes. */
    method NextBytes(toWrite: nat, ghost pages: nat) returns (wbuf: seq<byte>)
      requires Shape() && filebuf[..filebufLen] == buffer
      requires 0 < pages && toWrite == Span(pages, g.minIo) && Ready(g, page, pages, |buffer|) &&
               (g.isNand ==> pages <= 1)
      ensures |wbuf| == Span(pages, g.PageLen()) && 0 < toWrite <= |wbuf| && (g.writeOob || |wbuf| == toWrite)
      ensures Slice(g, buffer, page, pages, wbuf)
    {
      assert g.Valid();
      hide BlocksOk, Mtd.Sound;
      var offset := FilebufOffset();
      var len := toWrite + if g.writeOob then g.oobSize else 0;
      SpanAdd(page, pages, g.PageLen());
      PagesLen(g, pages);
      hide Span;
      wbuf := filebuf[offset..offset + len];
      assert filebuf[..filebufLen][offset..offset + len] == wbuf;
    }

    /** Programs the next pages of the buffer into the current block, unless they are empty. */
    method ProgramPages(toWrite: nat, ghost pages: nat) returns (e: Errno)
      requires Shape() && filebuf[..filebufLen] == buffer && Holds(g, dev.blocks, eb, page, buffer)
      requires dev.trouble == OK
      requires 0 < pages && toWrite == Span(pages, g.minIo) && Ready(g, page, pages, |buffer|) &&
               (g.isNand ==> pages <= 1)
      requires page + pages <= g.pagesPerBlock
      modifies dev
      ensures Shape() && Within(old(dev.blocks), dev.blocks, eb, eb + 1) && SameMarks(old(dev.blocks), dev.blocks)
      ensures e == OK ==> Holds(g, dev.blocks, eb, page + pages, buffer)
      ensures dev.trouble == (if e == EIO then OK else e) && (dev.Bearable() ==> e in {OK, EIO})
      ensures dev.Quiet() ==> e == OK
    {
      hide Holds, Ready, BlocksOk, Slice, Within, SameMarks, Mtd.Sound, Mtd.MarksSupported, Mtd.Quiet, Mtd.Bearable;
      PagesFit(pages);
      var wbuf := NextBytes(toWrite, pages);
      DivExact(page, g.minIo);
      e := ProgramBlock(dev, eb, writebufOffset / g.minIo, wbuf, toWrite, pages, buffer);
      MarksStay(old(dev.blocks), dev.blocks, eb);
    }

    /** Accounts for pages just programmed, and leaves the block once it is complete. */
    method Advance(toWrite: nat, ghost pages: nat)
      requires Shape() && filebuf[..filebufLen] == buffer
      requires ReadBlocks(g, dev.blocks, abandoned, start, eb) + buffer == ExpectedBytes(g, received, imglen)
      requires toWrite == Span(pages, g.minIo) && Ready(g, page, pages, |buffer|)
      requires Holds(g, dev.blocks, eb, page + pages, buffer)
      requires dev.MarksSupported() ==> checkBad && SkipsBad(dev.blocks, abandoned, start, eb) && !dev.blocks[eb].bad
      modifies this`writebufOffset, this`eb, this`filebufLen, this`page, this`buffer, this`abandoned
      ensures Valid()
      ensures (eb == old(eb) && page == old(page) + pages) || (eb == old(eb) + 1 && page == 0)
    {
      hide Stored, ReadBlocks, Holds, BlocksOk, ExpectedBytes, SkipsBad, Mtd.Sound, Mtd.MarksSupported;
      ShapeFacts();
      HoldsBlank(g, dev.blocks, eb, page + pages, buffer);
      StoredOpen(g, dev.blocks, abandoned, start, eb, page + pages, buffer, received, imglen, dev.MarksSupported(),
                 checkBad);
      SpanAdd(page, pages, g.minIo);
      if writebufOffset + toWrite == g.EbSize() {
        SpanInjective(page + pages, g.pagesPerBlock, g.minIo);
        FinishBlock();
      } else {
        page, writebufOffset := page + pages, writebufOffset + toWrite;
      }
    }

    /** Leaves a complete block: its bytes are in flash now. */
    method FinishBlock()
      requires Shape() && filebuf[..filebufLen] == buffer
      requires Stored(g, dev.blocks, abandoned, start, eb, g.pagesPerBlock, buffer, received, imglen,
                      dev.MarksSupported(), checkBad)
      modifies this`writebufOffset, this`eb, this`filebufLen, this`page, this`buffer, this`abandoned
      ensures Valid() && eb == old(eb) + 1 && page == 0
    {
      hide Stored, BlocksOk, Span, Mtd.Sound, Mtd.MarksSupported;
      StoredNext(g, dev.blocks, abandoned, start, eb, buffer, received, imglen, dev.MarksSupported(), checkBad);
      ShapeFacts();
      abandoned, eb, page, writebufOffset, filebufLen, buffer := abandoned - {eb}, eb + 1, 0, 0, 0, [];
    }

    /** Gives up the current block after a failed write; the buffer is written again elsewhere. */
    method RetireBlock() returns (e: Errno)
      requires Shape() && filebuf[..filebufLen] == buffer && eb < ebEnd && dev.trouble == OK
      requires ReadBlocks(g, dev.blocks, abandoned, start, eb) + buffer == ExpectedBytes(g, received, imglen)
      requires dev.MarksSupported() ==> checkBad && SkipsBad(dev.blocks, abandoned, start, eb)
      modifies dev, this`eb, this`abandoned, this`page, this`writebufOffset
      ensures e == OK ==> Valid() && eb == old(eb) + 1 && page == 0
      ensures old(eb) <= eb && BlocksOk(g, dev.blocks) && Within(old(dev.blocks), dev.blocks, old(eb), old(eb) + 1)
      ensures dev.trouble == e && (dev.Bearable() ==> e == OK)
    {
      hide ReadBlocks, ExpectedBytes, BlocksOk, Within, Mtd.Sound, Mtd.MarksSupported, Mtd.Quiet;
      var s := EraseOrMark();
      if s != OK {
        return s;
      }
      ReadBelow(g, old(dev.blocks), dev.blocks, abandoned, start, eb, eb + 1);
      page, writebufOffset := 0, 0;
      GiveUp();
      e := OK;
    }

    /** Erases the current block, whether that works or not, and marks it bad. */
    method EraseOrMark() returns (e: Errno)
      requires Shape() && eb < ebEnd && dev.trouble == OK
      modifies dev
      ensures dev.trouble == e && (dev.Bearable() ==> e == OK)
      ensures Shape() && Within(old(dev.blocks), dev.blocks, eb, eb + 1)
      ensures dev.outcome(EraseOp, old(dev.clock)) == OK ==> BlankFrom(g, dev.blocks[eb], 0)
      ensures e == OK ==> dev.outcome(EraseOp, old(dev.clock)) in {OK, EIO}
      ensures e == OK && dev.MarksSupported() ==> dev.blocks[eb].bad
    {
      e := dev.Erase(eb);
      if e != OK && e != EIO {
        return;
      }
      e := MarkBadBlock();
    }

    /** Programs pages into the current block.  The blocks before it, and hence
        all that was stored before, stay as they are. */
    method TryPages(toWrite: nat, ghost pages: nat) returns (e: Errno)
      requires Valid() && Holds(g, dev.blocks, eb, page, buffer) && (dev.MarksSupported() ==> !dev.blocks[eb].bad)
      requires dev.trouble == OK
      requires 0 < pages && toWrite == Span(pages, g.minIo) && Ready(g, page, pages, |buffer|) &&
               (g.isNand ==> pages <= 1)
      modifies dev
      ensures Shape() && eb < ebEnd
      ensures ReadBlocks(g, dev.blocks, abandoned, start, eb) + buffer == ExpectedBytes(g, received, imglen)
      ensures dev.MarksSupported() ==> checkBad && SkipsBad(dev.blocks, abandoned, start, eb) && !dev.blocks[eb].bad
      ensures e == OK ==> Holds(g, dev.blocks, eb, page + pages, buffer)
      ensures Within(old(dev.blocks), dev.blocks, eb, eb + 1) && SameMarks(old(dev.blocks), dev.blocks)
      ensures dev.trouble == (if e == EIO then OK else e) && (dev.Bearable() ==> e in {OK, EIO})
      ensures dev.Quiet() ==> e == OK
    {
      hide ReadBlocks, Holds, ExpectedBytes, Ready, SkipsBad, Within, BlocksOk, SameMarks, Mtd.Sound,
           Mtd.MarksSupported, Mtd.Quiet, Mtd.Bearable;
      PagesFit(pages);
      e := ProgramPages(toWrite, pages);
      MarksStay(old(dev.blocks), dev.blocks, eb);
      ReadBelow(g, old(dev.blocks), dev.blocks, abandoned, start, eb, eb + 1);
    }

    /** Programs pages into the current block and moves on, or retires the block. */
    method WritePages(toWrite: nat, ghost pages: nat) returns (e: Errno)
      requires Valid() && Holds(g, dev.blocks, eb, page, buffer) && (dev.MarksSupported() ==> !dev.blocks[eb].bad)
      requires dev.trouble == OK
      requires 0 < pages && toWrite == Span(pages, g.minIo) && Ready(g, page, pages, |buffer|) &&
               (g.isNand ==> pages <= 1)
      modifies dev, this`writebufOffset, this`eb, this`filebufLen, this`page, this`buffer, this`abandoned
      ensures e == OK ==> Valid() && (eb > old(eb) || (eb == old(eb) && page > old(page)))
      ensures old(eb) <= eb && BlocksOk(g, dev.blocks) && Within(old(dev.blocks), dev.blocks, old(eb), old(eb) + 1)
      ensures dev.trouble == e && (dev.Bearable() ==> e == OK)
      ensures dev.Quiet() ==> e == OK && SameMarks(old(dev.blocks), dev.blocks)
    {
      hide ReadBlocks, Holds, BlocksOk, ExpectedBytes, Ready, SkipsBad, Within, SameMarks;
      e := TryPages(toWrite, pages);
      if e == OK {
        Advance(toWrite, pages);
      } else if e == EIO {
        label Failed:
        e := RetireBlock();
        WithinTrans(old(dev.blocks), old@Failed(dev.blocks), dev.blocks, old(eb), old(eb) + 1, old(eb), old(eb) + 1,
                    old(eb) + 1);
      }
    }

    /** One turn of the write loop. */
    method WriteStep(input: seq<byte>) returns (rest: seq<byte>, s: Step)
      requires Valid() && |input| <= imglen && (0 < |input| || Span(page, g.PageLen()) < |buffer|)
      requires dev.trouble == OK
      modifies this, dev, filebuf
      ensures !s.Stop? ==> Valid() && |rest| <= imglen && |received| + imglen == |old(received)| + old(imglen)
      ensures !s.Stop? ==> received + rest == old(received) + input
      ensures s.Wait? ==>
              rest == [] && Ready(g, page, 0, |buffer|) && (imglen == 0 ==> |buffer| == Span(page, g.PageLen()))
      ensures s.Progress? ==> eb > old(eb) || (eb == old(eb) && page > old(page))
      ensures old(eb) == ebEnd ==> s == Stop(ENOSPC) && rest == input
      ensures s == Stop(ENOSPC) ==> TooSmall(g, ebEnd, abandoned, start, |old(received)| + |input|)
      ensures s == Stop(ENOSPC) && dev.MarksSupported() ==>
              |dev.blocks| == ebEnd && SkipsBad(dev.blocks, abandoned, start, ebEnd)
      ensures s != Stop(Done) && Reported(dev.trouble, if s.Stop? then s.ret else Done)
      ensures dev.Bearable() && s.Stop? ==> s.ret == ENOSPC
      ensures old(eb) <= eb && BlocksOk(g, dev.blocks) && Within(old(dev.blocks), dev.blocks, old(eb), eb + 1)
      ensures dev.Quiet() ==> SameMarks(old(dev.blocks), dev.blocks) && (s.Stop? ==> s.ret == ENOSPC)
    {
      Facts();
      hide FlashWriter.Valid, Holds, BlocksOk, Ready, SkipsBad, Within, SameMarks, Span, TooSmall, Mtd.MarksSupported,
           Mtd.Quiet;
      WithinSame(dev.blocks, eb, eb + 1);
      if eb == ebEnd {
        Exhausted(|input|);
        return input, Stop(ENOSPC);
      }
      var toWrite;
      ghost var pages;
      rest, toWrite, pages := ReadData(input);
      Facts();
      if toWrite == 0 {
        return rest, Wait;
      }
      s := StoreStep(rest, toWrite, pages);
    }

    /** Opens a block if need be and programs the pages that are ready. */
    method StoreStep(rest: seq<byte>, toWrite: nat, ghost pages: nat) returns (s: Step)
      requires Valid() && |rest| <= imglen && 0 < |buffer| && dev.trouble == OK
      requires 0 < pages && toWrite == Span(pages, g.minIo) && Ready(g, page, pages, |buffer|) &&
               (g.isNand ==> pages <= 1)
      modifies dev, this`writebufOffset, this`eb, this`filebufLen, this`page, this`buffer, this`abandoned,
               this`checkBad, this`checkLocked, this`doUnlock
      ensures !s.Stop? ==> s.Progress? && Valid() && (eb > old(eb) || (eb == old(eb) && page > old(page)))
      ensures s == Stop(ENOSPC) ==> TooSmall(g, ebEnd, abandoned, start, |received| + |rest|)
      ensures s == Stop(ENOSPC) && dev.MarksSupported() ==>
              |dev.blocks| == ebEnd && SkipsBad(dev.blocks, abandoned, start, ebEnd)
      ensures s != Stop(Done) && Reported(dev.trouble, if s.Stop? then s.ret else Done)
      ensures dev.Bearable() && s.Stop? ==> s.ret == ENOSPC
      ensures old(eb) <= eb && BlocksOk(g, dev.blocks) && Within(old(dev.blocks), dev.blocks, old(eb), eb + 1)
      ensures dev.Quiet() ==> SameMarks(old(dev.blocks), dev.blocks) && (s.Stop? ==> s.ret == ENOSPC)
    {
      hide FlashWriter.Valid, Holds, BlocksOk, Ready, SkipsBad, Within, SameMarks, Span, TooSmall, Mtd.MarksSupported,
           Mtd.Quiet;
      var r := OpenBlock(|rest|);
      if r != Done {
        return Stop(r);
      }
      label Opened:
      var e := WritePages(toWrite, pages);
      WithinOn(old(dev.blocks), old@Opened(dev.blocks), dev.blocks, old(eb), old@Opened(eb), eb);
      s := if e == OK then Progress else Stop(Fatal(e));
    }

    /** Makes sure that a block is open. */
    method OpenBlock(more: nat) returns (r: Ret)
      requires Valid() && more <= imglen && 0 < |buffer| && dev.trouble == OK
      modifies dev, this`eb, this`checkBad, this`checkLocked, this`doUnlock, this`abandoned
      ensures r == Done ==>
              Valid() && Holds(g, dev.blocks, eb, page, buffer) && (dev.MarksSupported() ==> !dev.blocks[eb].bad)
      ensures r == ENOSPC ==> TooSmall(g, ebEnd, abandoned, start, |received| + more)
      ensures r == ENOSPC && dev.MarksSupported() ==>
              |dev.blocks| == ebEnd && SkipsBad(dev.blocks, abandoned, start, ebEnd)
      ensures old(eb) <= eb && BlocksOk(g, dev.blocks) && Within(old(dev.blocks), dev.blocks, old(eb), eb + 1)
      ensures page > 0 ==> eb == old(eb)
      ensures Reported(dev.trouble, r) && (dev.Bearable() ==> !r.Fatal?)
      ensures dev.Quiet() ==> SameMarks(old(dev.blocks), dev.blocks) && !r.Fatal?
    {
      Facts();
      hide FlashWriter.Valid, Holds, BlocksOk, SkipsBad, Within, SameMarks, TooSmall, Mtd.MarksSupported, Mtd.Quiet;
      r := Done;
      if writebufOffset == 0 {
        r := PrepareNewEraseBlock();
        Facts();
        if r == ENOSPC {
          Exhausted(more);
        }
      } else {
        WithinSame(dev.blocks, eb, eb + 1);
      }
    }

    lemma ShapeFacts()
      requires Shape()
      ensures g.Valid() && dev.g == g && 0 < g.pagesPerBlock && Span(0, g.minIo) == 0 && Span(0, g.PageLen()) == 0
    {
    }

    lemma PagesFit(pages: nat)
      requires Shape() && Holds(g, dev.blocks, eb, page, buffer) && Ready(g, page, pages, |buffer|)
      ensures g.Valid() && eb < ebEnd && page + pages <= g.pagesPerBlock
    {
    }

    lemma Facts()
      requires Valid()
      ensures BlocksOk(g, dev.blocks) && eb <= ebEnd && (writebufOffset == 0 <==> page == 0)
      ensures page > 0 ==> Holds(g, dev.blocks, eb, page, buffer) && (dev.MarksSupported() ==> !dev.blocks[eb].bad)
    {
      assert Span(0, g.minIo) == 0 && Span(1, g.minIo) == g.minIo;
      if page > 0 {
        SpanMonotone(1, page, g.minIo);
      }
    }

    lemma Exhausted(more: nat)
      requires Valid() && eb == ebEnd && more <= imglen && (0 < |buffer| || 0 < more)
      ensures TooSmall(g, ebEnd, abandoned, start, |received| + more)
      ensures dev.MarksSupported() ==> |dev.blocks| == ebEnd && SkipsBad(dev.blocks, abandoned, start, ebEnd)
    {
      OutOfBlocks(g, dev.blocks, abandoned, start, buffer, received, imglen, more);
    }

    method HasPendingData() returns (pending: bool)
      requires Shape()
      ensures pending <==> Span(page, g.PageLen()) < |buffer|
    {
      var offset := FilebufOffset();
      pending := offset < filebufLen;
    }

    /** Writes as much as possible now and keeps less than a page for later. */
    method FlashWrite(buf: seq<byte>) returns (r: Ret)
      requires Valid() && |buf| <= imglen && dev.trouble == OK
      modifies this, dev, filebuf
      ensures r == Done ==> Valid() && received == old(received) + buf && imglen == old(imglen) - |buf|
      ensures r == Done ==>
              |buffer| < Span(page, g.PageLen()) + g.PageLen() && (imglen == 0 ==> |buffer| == Span(page, g.PageLen()))
      ensures r == ENOSPC ==> TooSmall(g, ebEnd, abandoned, start, |old(received)| + |buf|)
      ensures r == ENOSPC && dev.MarksSupported() ==>
              |dev.blocks| == ebEnd && SkipsBad(dev.blocks, abandoned, start, ebEnd)
      ensures old(eb) <= eb && BlocksOk(g, dev.blocks) && Within(old(dev.blocks), dev.blocks, old(eb), ebEnd)
      ensures Reported(dev.trouble, r) && (dev.Bearable() ==> !r.Fatal?)
      ensures dev.Quiet() ==> SameMarks(old(dev.blocks), dev.blocks) && !r.Fatal?
    {
      hide ReadBlocks, Holds, BlocksOk, ExpectedBytes, Kept, SkipsBad, Within, SameMarks, TooSmall, Mtd.Sound,
           Mtd.MarksSupported, Mtd.Quiet, Mtd.Bearable;
      WithinSame(dev.blocks, eb, ebEnd);
      var rest := buf;
      var pending := HasPendingData();
      while |rest| > 0 || pending
        invariant Valid() && |rest| <= imglen && |received| + imglen == |old(received)| + old(imglen)
        invariant received + rest == old(received) + buf
        invariant (pending <==> Span(page, g.PageLen()) < |buffer|) && dev.trouble == OK
        invariant old(eb) <= eb && Within(old(dev.blocks), dev.blocks, old(eb), ebEnd)
        invariant dev.Quiet() ==> SameMarks(old(dev.blocks), dev.blocks)
        decreases ebEnd - eb, g.pagesPerBlock - page
      {
        label Before:
        var s;
        rest, s := WriteStep(rest);
        WithinTrans(old(dev.blocks), old@Before(dev.blocks), dev.blocks, old(eb), ebEnd, old@Before(eb), eb + 1, ebEnd);
        if dev.Quiet() {
          SameMarksTrans(old(dev.blocks), old@Before(dev.blocks), dev.blocks);
        }
        if s.Stop? {
          return s.ret;
        }
        if s.Wait? {
          break;
        }
        pending := HasPendingData();
      }
      r := Done;
    }
  }

  /** Programs n pages into block eb from page k on, unless they are empty. */
  method ProgramBlock(dev: Mtd, eb: nat, k: nat, wbuf: seq<byte>, toWrite: nat, ghost n: nat, ghost buf: seq<byte>)
    returns (e: Errno)
    requires dev.Sound() && BlocksOk(dev.g, dev.blocks) && Holds(dev.g, dev.blocks, eb, k, buf)
    requires 0 < n && k + n <= dev.g.pagesPerBlock && |wbuf| == Span(n, dev.g.PageLen()) &&
             Slice(dev.g, buf, k, n, wbuf)
    requires 0 < toWrite <= |wbuf| && (dev.g.writeOob || |wbuf| == toWrite) && dev.trouble == OK
    modifies dev
    ensures dev.trouble == (if e == EIO then OK else e) && (dev.Bearable() ==> e in {OK, EIO})
    ensures BlocksOk(dev.g, dev.blocks) && Within(old(dev.blocks), dev.blocks, eb, eb + 1)
    ensures SameMarks(old(dev.blocks), dev.blocks)
    ensures e == OK ==> Holds(dev.g, dev.blocks, eb, k + n, buf)
    ensures wbuf == Blank(|wbuf|) ==> e == OK && dev.blocks == old(dev.blocks) && dev.clock == old(dev.clock)
    ensures dev.Quiet() ==> e == OK
  {
    hide Holds, PagesBytes, Span, PagesOk, BlankFrom, Within, SameMarks;
    HoldsBlank(dev.g, dev.blocks, eb, k, buf);
    WithinSame(dev.blocks, eb, eb + 1);
    var empty := PagesEmpty(dev.g, wbuf, toWrite);
    if empty {
      HoldsUnprogrammed(dev.g, dev.blocks, eb, k, n, buf, wbuf);
      return OK;
    }
    SplitPagesJoin(dev.g, wbuf, n);
    var pages := SplitPages(dev.g, wbuf);
    e := dev.Write(eb, k, pages);
    assert SameMarks(old(dev.blocks), dev.blocks) by { OneChanged(old(dev.blocks), dev.blocks, eb); }
    if e == OK {
      HoldsProgrammed(dev.g, old(dev.blocks), dev.blocks, eb, k, pages, buf);
    }
  }

  /** Whether the data and, in OOB mode, the OOB bytes hold nothing but empty bytes. */
  method PagesEmpty(g: Geometry, wbuf: seq<byte>, toWrite: nat) returns (empty: bool)
    requires 0 < toWrite <= |wbuf| && (g.writeOob || |wbuf| == toWrite)
    ensures empty <==> wbuf == Blank(|wbuf|)
  {
    empty := BufferCheckPattern(wbuf[..toWrite], EMPTY);
    assert wbuf == wbuf[..toWrite] + wbuf[toWrite..];
    if empty && g.writeOob && toWrite < |wbuf| {
      empty := BufferCheckPattern(wbuf[toWrite..], EMPTY);
    }
  }

  /** How many pages can be programmed now: at most one on NAND, all the whole
      ones on NOR. */
  method PagesReady(g: Geometry, ghost done: nat, offset: nat, len: nat) returns (toWrite: nat, ghost pages: nat)
    requires g.Valid() && offset == Span(done, g.PageLen()) <= len <= g.BlockLen()
    ensures toWrite == Span(pages, g.minIo) && Ready(g, done, pages, len) && (g.isNand ==> pages <= 1)
    ensures g.isNand ==> toWrite == if offset + g.PageLen() <= len then g.minIo else 0
    ensures !g.isNand ==> toWrite <= len - offset < toWrite + g.minIo
  {
    var available := len - offset;
    if g.isNand {
      if available < g.PageLen() {
        NoPage(g, done, len);
        return 0, 0;
      }
      hide Span, Ready;
      OnePage(g, done, available);
      return g.minIo, 1;
    }
    AllPages(g, done, available);
    hide Span, Ready;
    pages := available / g.PageLen();
    toWrite := (available / g.minIo) * g.minIo;
  }

  lemma NoPage(g: Geometry, done: nat, len: nat)
    requires g.Valid() && Span(done, g.PageLen()) <= len <= g.BlockLen() && len < Span(done, g.PageLen()) + g.PageLen()
    ensures Ready(g, done, 0, len)
  {
    if done > g.pagesPerBlock {
      SpanMonotone(g.pagesPerBlock, done, g.PageLen());
    }
  }

  lemma OnePage(g: Geometry, done: nat, available: nat)
    requires g.Valid() && g.PageLen() <= available && Span(done, g.PageLen()) + available <= g.BlockLen()
    ensures Ready(g, done, 1, Span(done, g.PageLen()) + available) && Span(1, g.minIo) == g.minIo
  {
    assert Span(1, g.minIo) == g.minIo && Span(1, g.PageLen()) == g.PageLen();
    SpanAdd(done, 1, g.PageLen());
    if done >= g.pagesPerBlock {
      SpanMonotone(g.pagesPerBlock, done, g.PageLen());
    }
    hide Span;
  }

  lemma AllPages(g: Geometry, done: nat, available: nat)
    requires g.Valid() && Span(done, g.PageLen()) + available <= g.BlockLen()
    ensures var pages := available / g.PageLen();
      Ready(g, done, pages, Span(done, g.PageLen()) + available) && pages * g.PageLen() == Span(pages, g.PageLen())
  {
    hide Span;
    WholePieces(done, available, g.pagesPerBlock, g.PageLen());
  }

  /** Installs an image that arrives in fragments, from block start on, and
      returns what the first failing call reported.  skip is the set of blocks a
      reader has to skip. */
  method WriteImage(dev: Mtd, start: nat, image: seq<byte>, fragments: seq<seq<byte>>)
    returns (r: Ret, ghost skip: set<nat>)
    requires dev.Sound() && BlocksOk(dev.g, dev.blocks) && start <= |dev.blocks|
    requires Concat(fragments) == image
    modifies dev
    ensures BlocksOk(dev.g, dev.blocks) && Within(old(dev.blocks), dev.blocks, start, |dev.blocks|)
    // What was written can be read back...
    ensures r == Done ==> PadToPage(dev.g, image) <= ReadBlocks(dev.g, dev.blocks, skip, start, |dev.blocks|)
    // ...by skipping exactly the blocks marked bad, if the device can mark them.
    ensures r == Done && dev.MarksSupported() ==> SkipsBad(dev.blocks, skip, start, |dev.blocks|)
    // It fails with the first answer of the driver that is not tolerable, and otherwise only if the good
    // blocks are too few: those that are left, and without faults those that there were.
    ensures Reported(dev.trouble, r) && (dev.Bearable() ==> !r.Fatal?)
    ensures r == ENOSPC && dev.MarksSupported() ==>
            Span(CountGood(dev.blocks, start, |dev.blocks|), dev.g.BlockLen()) < |image|
    // An image larger than the device is refused before anything is touched.
    ensures Span(|old(dev.blocks)| - start, dev.g.BlockLen()) < |image| ==> r == ENOSPC && dev.blocks == old(dev.blocks)
    ensures dev.Quiet() ==>
            !r.Fatal? &&
            (r == ENOSPC <==> Span(CountGood(old(dev.blocks), start, |old(dev.blocks)|), dev.g.BlockLen()) < |image|)
  {
    dev.trouble := OK;
    skip := FinalSkip(dev.blocks, {}, start, start, 0);
    if |image| == 0 {
      return Done, skip;
    }
    var tooLarge := ExceedsDevice(dev, start, image);
    if tooLarge {
      GoodAtMost(dev.blocks, start, |dev.blocks|, dev.g.BlockLen());
      return ENOSPC, skip;
    }
    var w := new FlashWriter(dev, start, |image|);
    r := WriteAll(w, image, fragments);
    skip := FinalSkip(dev.blocks, w.abandoned, start, w.eb, w.page);
    if dev.MarksSupported() && r == Done {
      FinalSkipsBad(dev.blocks, w.abandoned, start, w.eb, w.page);
    }
    if r == Done {
      ReadBack(dev.g, dev.blocks, w.abandoned, start, w.eb, w.page, w.buffer, PadToPage(dev.g, image));
    }
    if dev.MarksSupported() && r == ENOSPC {
      KeptIsGood(dev.blocks, dev.blocks, w.abandoned, start, |dev.blocks|);
    }
    if dev.Quiet() {
      if r == Done {
        FitsInGood(dev.g, old(dev.blocks), dev.blocks, skip, start, image);
      } else {
        KeptIsGood(old(dev.blocks), dev.blocks, w.abandoned, start, |dev.blocks|);
      }
    }
  }

  /** Hands the fragments to the writer one after the other. */
  method WriteAll(w: FlashWriter, image: seq<byte>, fragments: seq<seq<byte>>) returns (r: Ret)
    requires w.Valid() && w.received == [] && 0 < w.imglen == |image| && w.eb == w.start && Concat(fragments) == image
    requires w.dev.trouble == OK
    modifies w, w.dev, w.filebuf
    ensures r == Done ==> w.Valid() && w.received == image && w.imglen == 0 && |w.buffer| == Span(w.page, w.g.PageLen())
    ensures r == ENOSPC ==> TooSmall(w.g, w.ebEnd, w.abandoned, w.start, |image|)
    ensures r == ENOSPC && w.dev.MarksSupported() ==>
            |w.dev.blocks| == w.ebEnd && SkipsBad(w.dev.blocks, w.abandoned, w.start, w.ebEnd)
    ensures BlocksOk(w.g, w.dev.blocks) && Within(old(w.dev.blocks), w.dev.blocks, w.start, w.ebEnd)
    ensures Reported(w.dev.trouble, r) && (w.dev.Bearable() ==> !r.Fatal?)
    ensures w.dev.Quiet() ==> SameMarks(old(w.dev.blocks), w.dev.blocks) && !r.Fatal?
  {
    var k := 0;
    assert w.start <= w.eb && BlocksOk(w.g, w.dev.blocks);
    WithinSame(w.dev.blocks, w.start, w.ebEnd);
    hide FlashWriter.Valid, BlocksOk, SkipsBad, Within, SameMarks, Concat, Span, Kept, Mtd.Quiet, Mtd.MarksSupported;
    while k < |fragments|
      invariant 0 <= k <= |fragments| && w.Valid() && w.received == Concat(fragments[..k]) &&
                |w.received| + w.imglen == |image|
      invariant w.imglen == 0 ==> |w.buffer| == Span(w.page, w.g.PageLen())
      invariant w.start <= w.eb && BlocksOk(w.g, w.dev.blocks) && w.dev.trouble == OK
      invariant Within(old(w.dev.blocks), w.dev.blocks, w.start, w.ebEnd)
      invariant w.dev.Quiet() ==> SameMarks(old(w.dev.blocks), w.dev.blocks)
    {
      ConcatPrefixLength(fragments, k);
      label Before:
      r := w.FlashWrite(fragments[k]);
      WithinTrans(old(w.dev.blocks), old@Before(w.dev.blocks), w.dev.blocks, w.start, w.ebEnd, old@Before(w.eb),
                  w.ebEnd, w.ebEnd);
      if w.dev.Quiet() {
        SameMarksTrans(old(w.dev.blocks), old@Before(w.dev.blocks), w.dev.blocks);
      }
      if r != Done {
        return;
      }
      k := k + 1;
    }
    assert fragments[..k] == fragments;
    r := Done;
  }

  /** The size check made before anything is written. */
  method ExceedsDevice(dev: Mtd, start: nat, image: seq<byte>) returns (tooLarge: bool)
    requires dev.g.Valid() && start <= |dev.blocks|
    ensures tooLarge <==> Span(|dev.blocks| - start, dev.g.BlockLen()) < |image|
  {
    var g := dev.g;
    var dataLen := |image|;
    ghost var pages := PadLenIsLeast(|image|, g.PageLen());
    if g.writeOob {
      RoundUpIsPadded(|image|, g.PageLen());
      var n := (|image| + g.PageLen() - 1) / g.PageLen();
      SpanIsProduct(n, g.PageLen());
      SpanInjective(n, pages, g.PageLen());
      SpanIsProduct(n, g.minIo);
      dataLen := n * g.minIo;
    }
    tooLarge := dataLen > Span(|dev.blocks| - start, g.EbSize());
    if g.writeOob {
      BeyondDevice(g, image, |dev.blocks| - start, pages);
    }
  }
}
