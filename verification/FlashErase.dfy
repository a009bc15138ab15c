/** Erasing a stretch of a flash device, with good blocks taken in place of bad ones. */
module FlashErase {
  import opened Bytes
  import opened FlashSpec
  import opened Flash

  /** Every block of lo..hi reads blank, except those skipped as bad and those that stayed locked. */
  predicate Erased(g: Geometry, blocks: seq<Block>, skipped: set<nat>, stuck: set<nat>, lo: nat, hi: nat)
    requires BlocksOk(g, blocks) && hi <= |blocks|
  {
    forall i: nat :: lo <= i < hi && i !in skipped && i !in stuck ==> BlankFrom(g, blocks[i], 0)
  }

  /** A skipped block moves the end by one, until the end of the device. */
  predicate EndMoves(skipped: set<nat>, n: nat, first: nat, requested: nat, eb: nat, ebEnd: nat)
    requires first <= eb <= n
  {
    ebEnd == Min(n, first + requested + (eb - first - Kept(skipped, first, eb)))
  }

  /** At the end as many good blocks were visited as asked for, or all there are. */
  lemma VisitedGood(blocks: seq<Block>, skipped: set<nat>, first: nat, requested: nat, ebEnd: nat)
    requires first <= ebEnd <= |blocks| && EndMoves(skipped, |blocks|, first, requested, ebEnd, ebEnd)
    requires SkipsBad(blocks, skipped, first, ebEnd)
    ensures CountGood(blocks, first, ebEnd) == Min(requested, CountGood(blocks, first, |blocks|))
  {
    KeptIsGood(blocks, blocks, skipped, first, ebEnd);
    CountGoodBounds(blocks, first, ebEnd, |blocks|);
  }

  /** The end can move as long as it is below the end of the device; the offset is
      computed in 32-bit arithmetic, so on a device of 4 GiB or more it always can. */
  method EndCanMove(ebEnd: nat, n: nat, ebSize: nat) returns (r: bool)
    requires 0 < ebSize && ebEnd <= n
    ensures r <==> ebEnd < n || Span(n, ebSize) >= 0x1_0000_0000
  {
    SpanIsProduct(ebEnd, ebSize);
    SpanMonotone(ebEnd, n, ebSize);
    r := (ebEnd * ebSize) % 0x1_0000_0000 < Span(n, ebSize);
  }

  /** Blocks from eb on do not count for what comes before. */
  lemma {:induction false} KeptBelow(s: set<nat>, t: set<nat>, lo: nat, hi: nat)
    requires forall i: nat :: i < hi ==> (i in s <==> i in t)
    ensures Kept(s, lo, hi) == Kept(t, lo, hi)
    decreases hi
  {
    if lo < hi {
      KeptBelow(s, t, lo, hi - 1);
    }
  }

  lemma EndMovesStep(was: set<nat>, skip: bool, n: nat, first: nat, requested: nat, eb: nat, ebEnd: nat)
    requires first <= eb < ebEnd <= n && EndMoves(was, n, first, requested, eb, ebEnd) &&
             (forall i :: i in was ==> i < eb)
    ensures EndMoves(if skip then was + {eb} else was, n, first, requested, eb + 1,
                     if skip && ebEnd < n then ebEnd + 1 else ebEnd)
  {
    KeptBelow(was, was + {eb}, first, eb);
  }

  lemma ErasedStep(g: Geometry, b0: seq<Block>, b1: seq<Block>, skipped: set<nat>, stuck: set<nat>, lo: nat, hi: nat,
                   skipped': set<nat>, stuck': set<nat>)
    requires BlocksOk(g, b0) && BlocksOk(g, b1) && hi < |b0| && Within(b0, b1, hi, hi + 1)
    requires Erased(g, b0, skipped, stuck, lo, hi) && skipped <= skipped' && stuck <= stuck'
    requires hi in skipped' || hi in stuck' || BlankFrom(g, b1[hi], 0)
    ensures Erased(g, b1, skipped', stuck', lo, hi + 1)
  {
  }

  /** A byte range start..end covers blocks first..last: first is the block of
      start, and last is the least block boundary that end does not exceed. */
  predicate Covers(ebSize: nat, start: nat, end: nat, first: nat, last: nat) {
    && Span(first, ebSize) <= start < Span(first + 1, ebSize)
    && end <= Span(last, ebSize) < end + ebSize
  }

  /** The block numbers of a byte range, computed by division of 32-bit numbers.  They
      cover the range exactly if its end is below 4 GiB. */
  method BlockRange(start: nat, size: nat, ebSize: nat) returns (first: nat, last: nat)
    requires 0 < ebSize < 0x8000_0000
    ensures Covers(ebSize, start, start + size, first, last) <==> start + size < 0x1_0000_0000
  {
    var from, end := start % 0x1_0000_0000, (start + size) % 0x1_0000_0000;
    first, last := from / ebSize, end / ebSize;
    Division(from, ebSize);
    Division(end, ebSize);
    if end % ebSize != 0 {
      last := last + 1;
    }
    hide Span;
    assert Span(last, ebSize) < end + ebSize;
  }

  lemma Division(x: nat, m: nat)
    requires 0 < m
    ensures x == Span(x / m, m) + x % m && x % m < m
  {
    SpanIsProduct(x / m, m);
  }

  lemma InOrder(first: nat, last: nat, n: nat, ebSize: nat, start: nat, end: nat)
    requires 0 < ebSize && Covers(ebSize, start, end, first, last) && start <= end <= Span(n, ebSize)
    ensures first <= last <= n
  {
    if last < first {
      SpanMonotone(last, first, ebSize);
    }
    if n < last {
      SpanMonotone(n, last, ebSize);
    }
  }

  lemma {:induction false} CountGoodSame(b0: seq<Block>, b1: seq<Block>, lo: nat, hi: nat)
    requires hi <= |b0| && SameMarks(b0, b1)
    ensures CountGood(b0, lo, hi) == CountGood(b1, lo, hi)
    decreases hi
  {
    if lo < hi {
      CountGoodSame(b0, b1, lo, hi - 1);
    }
  }

  datatype Visit = Bad | Blanked | Stuck | Broken(e: Errno)

  /** Unlocking a locked block never fails. */
  ghost predicate Unlocks(dev: Mtd) {
    forall t: nat :: dev.outcome(UnlockOp, t) in {OK, NotSupported}
  }

  /** Apart from locks the driver never fails; it may do without bad-block marks. */
  ghost predicate Erases(dev: Mtd) {
    forall t: nat ::
      dev.outcome(IsBadOp, t) in {OK, NotSupported} && dev.outcome(ReadOp, t) == OK && dev.outcome(EraseOp, t) == OK
  }

  /** A block that the driver, asked at time t, calls locked and then does not unlock. */
  ghost predicate StaysLocked(dev: Mtd, t: nat) {
    dev.outcome(IsLockedOp, t) == OK && dev.lockBit(t) && dev.outcome(UnlockOp, t + 1) !in {OK, NotSupported}
  }

  /** Unlocks and erases one block unless it is known as bad; a block that cannot be
      unlocked is left as it is, and so is a blank block of a NOR device.  A driver
      without bad-block marks is not asked again. */
  method EraseOne(dev: Mtd, eb: nat, checkBad: bool) returns (v: Visit, check: bool)
    requires dev.Sound() && BlocksOk(dev.g, dev.blocks) && eb < |dev.blocks|
    modifies dev
    ensures BlocksOk(dev.g, dev.blocks) && SameMarks(old(dev.blocks), dev.blocks)
    ensures Within(old(dev.blocks), dev.blocks, eb, eb + 1)
    ensures v.Bad? <==> checkBad && dev.outcome(IsBadOp, old(dev.clock)) == OK && old(dev.blocks)[eb].bad
    ensures check <==> checkBad && dev.outcome(IsBadOp, old(dev.clock)) != NotSupported
    ensures dev.MarksSupported() ==> check == checkBad
    ensures checkBad && dev.MarksSupported() && (v.Blanked? || v.Stuck?) ==> !old(dev.blocks)[eb].bad
    ensures v.Stuck? <==>
      && !v.Bad? && (checkBad ==> dev.outcome(IsBadOp, old(dev.clock)) in {OK, NotSupported})
      && StaysLocked(dev, old(dev.clock) + if checkBad then 1 else 0)
    ensures v.Stuck? ==> !Unlocks(dev) && dev.blocks == old(dev.blocks)
    ensures !dev.g.isNand && BlankFrom(dev.g, old(dev.blocks)[eb], 0) ==> dev.blocks == old(dev.blocks)
    ensures v.Blanked? ==> BlankFrom(dev.g, dev.blocks[eb], 0)
    ensures v.Broken? ==> v.e != OK
    ensures Erases(dev) ==> !v.Broken?
  {
    hide BlankFrom, Within, SameMarks, BlocksOk, Mtd.Sound;
    WithinSame(dev.blocks, eb, eb + 1);
    check := checkBad;
    if checkBad {
      var e, bad := dev.IsBad(eb);
      if bad {
        return Bad, check;
      }
      if e == NotSupported {
        check := false;
      } else if e != OK {
        return Broken(e), check;
      }
    }
    var e, locked := dev.IsLocked(eb);
    if e == OK && locked {
      e := dev.Unlock(eb);
      if e != OK && e != NotSupported {
        return Stuck, check;
      }
    }
    if !dev.g.isNand {
      var empty;
      e, empty := AlreadyEmpty(dev, eb);
      if e != OK {
        return Broken(e), check;
      }
      if empty {
        return Blanked, check;
      }
    }
    e := dev.Erase(eb);
    OneChanged(old(dev.blocks), dev.blocks, eb);
    v := if e == OK then Blanked else Broken(e);
  }

  /** Blocks lo..hi are told apart as far as the driver can: those skipped are marked
      bad and, if it supports marks, no bad one is missed; those stuck could not be
      unlocked. */
  ghost predicate ToldApart(dev: Mtd, blocks: seq<Block>, skipped: set<nat>, stuck: set<nat>, lo: nat, hi: nat)
    requires hi <= |blocks|
  {
    && (forall i :: i in skipped ==> lo <= i < hi && blocks[i].bad)
    && (forall i :: i in stuck ==> lo <= i < hi && i !in skipped)
    && (dev.MarksSupported() ==> SkipsBad(blocks, skipped, lo, hi))
    && (Unlocks(dev) ==> stuck == {})
  }

  lemma ToldApartStep(dev: Mtd, blocks: seq<Block>, skipped: set<nat>, stuck: set<nat>, lo: nat, hi: nat, v: Visit)
    requires hi < |blocks| && lo <= hi && ToldApart(dev, blocks, skipped, stuck, lo, hi)
    requires v.Bad? ==> blocks[hi].bad
    requires dev.MarksSupported() && (v.Blanked? || v.Stuck?) ==> !blocks[hi].bad
    requires v.Stuck? ==> !Unlocks(dev)
    ensures !v.Broken? ==>
      ToldApart(dev, blocks, if v.Bad? then skipped + {hi} else skipped,
                if v.Stuck? then stuck + {hi} else stuck, lo, hi + 1)
  {
    hide Unlocks, Mtd.MarksSupported;
  }

  /** Visits blocks from first on, up to last or further for each block skipped as bad.
      ebEnd is one past the last block visited, stuck the blocks that stayed locked. */
  method EraseBlocks(dev: Mtd, first: nat, last: nat)
    returns (e: Errno, ebEnd: nat, ghost skipped: set<nat>, ghost stuck: set<nat>)
    requires dev.Sound() && BlocksOk(dev.g, dev.blocks)
    requires Span(|dev.blocks|, dev.g.EbSize()) < 0x1_0000_0000 && first <= last <= |dev.blocks|
    modifies dev
    ensures first <= ebEnd <= |dev.blocks| && BlocksOk(dev.g, dev.blocks)
    ensures Within(old(dev.blocks), dev.blocks, first, ebEnd) && SameMarks(old(dev.blocks), dev.blocks)
    ensures e == OK ==> Erased(dev.g, dev.blocks, skipped, stuck, first, ebEnd)
    ensures e == OK ==> ToldApart(dev, old(dev.blocks), skipped, stuck, first, ebEnd)
    ensures e == OK ==> EndMoves(skipped, |dev.blocks|, first, last - first, ebEnd, ebEnd)
    ensures Erases(dev) ==> e == OK
  {
    hide Span, Kept, BlocksOk, BlankFrom, EndMoves, Within, Erased, ToldApart, Unlocks, Erases, StaysLocked, SameMarks,
         Mtd.Sound, Mtd.MarksSupported;
    var n, ebSize := |dev.blocks|, dev.g.EbSize();
    NothingVisited(dev, dev.blocks, first, last);
    ebEnd, skipped, stuck := last, {}, {};
    var eb, checkBad := first, true;
    while eb < ebEnd
      invariant first <= eb <= ebEnd <= n == |dev.blocks| && BlocksOk(dev.g, dev.blocks)
      invariant EndMoves(skipped, n, first, last - first, eb, ebEnd)
      invariant Within(old(dev.blocks), dev.blocks, first, eb) && SameMarks(old(dev.blocks), dev.blocks)
      invariant Erased(dev.g, dev.blocks, skipped, stuck, first, eb)
      invariant ToldApart(dev, old(dev.blocks), skipped, stuck, first, eb)
      invariant dev.MarksSupported() ==> checkBad
      decreases n - eb
    {
      label Before:
      ghost var was, held := skipped, stuck;
      var v;
      v, checkBad := EraseOne(dev, eb, checkBad);
      OneVisited(old(dev.blocks), old@Before(dev.blocks), dev.blocks, first, eb);
      if v.Broken? {
        return v.e, eb + 1, skipped, stuck;
      }
      Earlier(dev, old(dev.blocks), was, held, first, eb);
      EndMovesStep(was, v.Bad?, n, first, last - first, eb, ebEnd);
      ToldApartStep(dev, old(dev.blocks), was, held, first, eb, v);
      if v.Bad? {
        var can := EndCanMove(ebEnd, n, ebSize);
        if can {
          ebEnd := ebEnd + 1;
        }
        skipped := skipped + {eb};
      } else if v.Stuck? {
        stuck := stuck + {eb};
      }
      ErasedStep(dev.g, old@Before(dev.blocks), dev.blocks, was, held, first, eb, skipped, stuck);
      eb := eb + 1;
    }
    e := OK;
  }

  lemma NothingVisited(dev: Mtd, blocks: seq<Block>, first: nat, last: nat)
    requires dev.Sound() && BlocksOk(dev.g, blocks) && first <= last <= |blocks|
    ensures 0 < dev.g.EbSize() && EndMoves({}, |blocks|, first, last - first, first, last)
    ensures Within(blocks, blocks, first, first) && SameMarks(blocks, blocks)
    ensures Erased(dev.g, blocks, {}, {}, first, first) && ToldApart(dev, blocks, {}, {}, first, first)
  {
  }

  lemma OneVisited(b0: seq<Block>, b1: seq<Block>, b2: seq<Block>, first: nat, eb: nat)
    requires first <= eb < |b1| && Within(b0, b1, first, eb) && SameMarks(b0, b1)
    requires Within(b1, b2, eb, eb + 1) && SameMarks(b1, b2)
    ensures |b0| == |b1| == |b2| && b1[eb].bad == b0[eb].bad
    ensures Within(b0, b2, first, eb + 1) && SameMarks(b0, b2)
  {
  }

  lemma Earlier(dev: Mtd, blocks: seq<Block>, skipped: set<nat>, stuck: set<nat>, lo: nat, hi: nat)
    requires hi <= |blocks| && ToldApart(dev, blocks, skipped, stuck, lo, hi)
    ensures forall i :: i in skipped ==> i < hi
  {
  }

  lemma WholeDevice(ebSize: nat, n: nat, first: nat, last: nat)
    requires 0 < ebSize && Covers(ebSize, 0, Span(n, ebSize), first, last) && last <= n
    ensures first == 0 && last == n
  {
    if last < n {
      SpanMonotone(last, n, ebSize);
    }
  }

  /** Erases a byte range of the device, or all of the device for size 0. */
  method EraseSector(dev: Mtd, start: nat, size: nat)
    returns (e: Errno, ghost first: nat, ghost last: nat, ebEnd: nat, ghost skipped: set<nat>, ghost stuck: set<nat>)
    requires dev.Sound() && BlocksOk(dev.g, dev.blocks)
    requires Span(|dev.blocks|, dev.g.EbSize()) < 0x1_0000_0000 && dev.g.EbSize() < 0x8000_0000
    requires start + (if size == 0 then Span(|dev.blocks|, dev.g.EbSize()) else size)
             <= Span(|dev.blocks|, dev.g.EbSize())
    modifies dev
    ensures size == 0 ==> first == 0 && last == |dev.blocks|
    ensures size != 0 ==> Covers(dev.g.EbSize(), start, start + size, first, last)
    ensures first <= last && first <= ebEnd <= |dev.blocks| == |old(dev.blocks)| && BlocksOk(dev.g, dev.blocks)
    ensures Within(old(dev.blocks), dev.blocks, first, ebEnd) && SameMarks(old(dev.blocks), dev.blocks)
    // All blocks visited are blank but those skipped, which are marked bad, and those that could not be unlocked...
    ensures e == OK ==> Erased(dev.g, dev.blocks, skipped, stuck, first, ebEnd)
    ensures e == OK ==> ToldApart(dev, old(dev.blocks), skipped, stuck, first, ebEnd)
    // ...and the end has moved by one for each block skipped.
    ensures e == OK ==> EndMoves(skipped, |dev.blocks|, first, last - first, ebEnd, ebEnd)
    ensures e == OK && dev.MarksSupported() ==>
      CountGood(dev.blocks, first, ebEnd) == Min(last - first, CountGood(dev.blocks, first, |dev.blocks|))
    // Locks do not make it fail.
    ensures Erases(dev) ==> e == OK
    ensures Erases(dev) && Unlocks(dev) ==> stuck == {}
  {
    var bytes := if size == 0 then Span(|dev.blocks|, dev.g.EbSize()) else size;
    var lo, hi := BlockRange(start, bytes, dev.g.EbSize());
    InOrder(lo, hi, |dev.blocks|, dev.g.EbSize(), start, start + bytes);
    first, last := lo, hi;
    if size == 0 {
      WholeDevice(dev.g.EbSize(), |dev.blocks|, lo, hi);
    }
    e, ebEnd, skipped, stuck := EraseBlocks(dev, lo, hi);
    if e == OK && dev.MarksSupported() {
      VisitedGood(old(dev.blocks), skipped, first, last - first, ebEnd);
      CountGoodSame(old(dev.blocks), dev.blocks, first, ebEnd);
      CountGoodSame(old(dev.blocks), dev.blocks, first, |dev.blocks|);
    }
  }
}
