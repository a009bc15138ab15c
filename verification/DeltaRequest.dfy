/** Which bytes of the image on the server are asked for. */
module DeltaRequest {
  import opened DeltaSpec
  import opened Ranges

  /** Chunks first to end, without end. */
  datatype Range = Range(first: nat, end: nat)

  /** The first chunk from k on that must be downloaded. */
  function NextMissing(w: World, k: nat): (r: nat)
    requires k <= |w.chunks|
    ensures k <= r <= |w.chunks| && (r < |w.chunks| ==> !w.chunks[r].valid)
    ensures forall i :: k <= i < r ==> w.chunks[i].valid
    decreases |w.chunks| - k
  {
    if k < |w.chunks| && w.chunks[k].valid then NextMissing(w, k + 1) else k
  }

  /** Chunks a to b have no compressed bytes. */
  predicate Void(w: World, a: nat, b: nat)
    requires b <= |w.chunks|
  {
    forall i :: a <= i < b ==> w.chunks[i].comp == []
  }

  predicate Within(w: World, rs: seq<Range>) {
    forall i :: 0 <= i < |rs| ==> rs[i].first <= rs[i].end <= |w.chunks|
  }

  // ----- Runs of chunks -----

  /** A chunk to download extends the last run if nothing is in between; chunks without
      bytes do not interrupt it. */
  function Extended(w: World, rs: seq<Range>, i: nat): (r: seq<Range>)
    requires Within(w, rs) && i < |w.chunks| && (rs != [] ==> rs[|rs| - 1].end <= i)
    ensures Within(w, r) && r != [] && r[|r| - 1].end == i + 1
  {
    if rs != [] && Void(w, rs[|rs| - 1].end, i) then rs[..|rs| - 1] + [Range(rs[|rs| - 1].first, i + 1)]
    else rs + [Range(i, i + 1)]
  }

  /** The runs of chunks to download from chunk k up to chunk i. */
  function RunsTo(w: World, k: nat, i: nat): (rs: seq<Range>)
    requires i <= |w.chunks|
    ensures Within(w, rs) && (rs != [] ==> rs[|rs| - 1].end <= i)
    decreases i
  {
    if i <= k then []
    else if w.chunks[i - 1].valid then RunsTo(w, k, i - 1)
    else Extended(w, RunsTo(w, k, i - 1), i - 1)
  }

  /** The last byte before chunk i, if there is one from chunk k on, must be downloaded. */
  predicate Joined(w: World, k: nat, i: nat)
    requires i <= |w.chunks|
  {
    exists j :: k <= j < i && !w.chunks[j].valid && w.chunks[j].comp != [] && Void(w, j + 1, i)
  }

  /** How many ranges the code counts up to chunk i: one for each chunk to download that
      is not right behind downloaded bytes.  For chunks without bytes that is too many. */
  function Count(w: World, k: nat, i: nat): nat
    requires i <= |w.chunks|
    decreases i
  {
    if i <= k then 0 else Count(w, k, i - 1) + (if w.chunks[i - 1].valid || Joined(w, k, i - 1) then 0 else 1)
  }

  /** Where collecting from chunk k on stops, having come to chunk i: at the end, or right
      behind the chunk with which the count reaches the limit.  A negative limit is none. */
  function Reach(w: World, k: nat, i: nat, limit: int): (r: nat)
    requires k <= i <= |w.chunks|
    ensures i <= r <= |w.chunks| && (i < |w.chunks| ==> i < r)
    ensures r < |w.chunks| ==> limit >= 0 && !w.chunks[r - 1].valid && Count(w, k, r) >= limit
    ensures forall j :: i < j < r && !w.chunks[j - 1].valid ==> limit < 0 || Count(w, k, j) < limit
    decreases |w.chunks| - i
  {
    if i == |w.chunks| then i
    else if !w.chunks[i].valid && limit >= 0 && Count(w, k, i + 1) >= limit then i + 1
    else Reach(w, k, i + 1, limit)
  }

  /** The runs asked for in one request. */
  function Runs(w: World, k: nat, limit: int): (rs: seq<Range>)
    requires k <= |w.chunks|
    ensures Within(w, rs)
  {
    RunsTo(w, k, Reach(w, k, k, limit))
  }

  /** Where chunk k starts in the file; the chunks follow a header. */
  function Offset(w: World, header: nat, k: nat): (o: nat)
    requires k <= |w.chunks|
    ensures header <= o
  {
    if k == 0 then header else Offset(w, header, k - 1) + |w.chunks[k - 1].comp|
  }

  function ByteRange(w: World, header: nat, r: Range): Item
    requires r.first <= r.end <= |w.chunks|
  {
    Item(Offset(w, header, r.first), Offset(w, header, r.end) - 1)
  }

  function ByteRanges(w: World, header: nat, rs: seq<Range>): seq<Item>
    requires Within(w, rs)
  {
    seq(|rs|, i requires 0 <= i < |rs| => ByteRange(w, header, rs[i]))
  }

  lemma {:induction false} OffsetMonotone(w: World, header: nat, a: nat, b: nat)
    requires a <= b <= |w.chunks|
    ensures Offset(w, header, a) <= Offset(w, header, b)
    ensures Offset(w, header, a) == Offset(w, header, b) <==> Void(w, a, b)
    decreases b - a
  {
    if a < b {
      OffsetMonotone(w, header, a, b - 1);
      assert Void(w, a, b) <==> Void(w, a, b - 1) && w.chunks[b - 1].comp == [];
    }
  }

  // ----- What runs are like -----

  /** A run starts and ends with chunks to download, and has no other bytes. */
  predicate IsRun(w: World, r: Range)
    requires r.first <= r.end <= |w.chunks|
  {
    && r.first < r.end && !w.chunks[r.first].valid && !w.chunks[r.end - 1].valid
    && forall i :: r.first <= i < r.end && w.chunks[i].valid ==> w.chunks[i].comp == []
  }

  /** Runs in order, with bytes from the source between them. */
  predicate Ordered(w: World, rs: seq<Range>) {
    && Within(w, rs) && (forall j :: 0 <= j < |rs| ==> IsRun(w, rs[j]))
    && forall j :: 0 < j < |rs| ==> rs[j].first == NextMissing(w, rs[j - 1].end) && !Void(w, rs[j - 1].end, rs[j].first)
  }

  /** The runs start with the first chunk to download and leave none out. */
  predicate Spans(w: World, k: nat, i: nat, rs: seq<Range>)
    requires k <= i <= |w.chunks|
  {
    Ordered(w, rs) &&
    if rs == [] then NextMissing(w, k) >= i
    else rs[0].first == NextMissing(w, k) && rs[|rs| - 1].end <= i <= NextMissing(w, rs[|rs| - 1].end)
  }

  lemma {:induction false} NextIs(w: World, k: nat, i: nat)
    requires k <= i < |w.chunks| && i <= NextMissing(w, k)
    ensures w.chunks[i].valid ==> i + 1 <= NextMissing(w, k)
    ensures !w.chunks[i].valid ==> NextMissing(w, k) == i
  {
  }

  lemma OneMore(w: World, rs: seq<Range>, r: Range)
    requires Ordered(w, rs) && r.first <= r.end <= |w.chunks| && IsRun(w, r)
    requires rs != [] ==> r.first == NextMissing(w, rs[|rs| - 1].end) && !Void(w, rs[|rs| - 1].end, r.first)
    ensures Ordered(w, rs + [r])
  {
    hide NextMissing, Void, IsRun;
  }

  lemma OneLonger(w: World, rs: seq<Range>, i: nat)
    requires Ordered(w, rs) && rs != [] && rs[|rs| - 1].end <= i < |w.chunks|
    requires !w.chunks[i].valid && Void(w, rs[|rs| - 1].end, i)
    ensures Ordered(w, rs[..|rs| - 1] + [Range(rs[|rs| - 1].first, i + 1)])
  {
    var f := rs[|rs| - 1].first;
    assert IsRun(w, rs[|rs| - 1]);
    assert IsRun(w, Range(f, i + 1));
    hide NextMissing, Void, IsRun;
    assert Ordered(w, rs[..|rs| - 1]);
    OneMore(w, rs[..|rs| - 1], Range(f, i + 1));
  }

  lemma OneRun(w: World, i: nat)
    requires i < |w.chunks| && !w.chunks[i].valid
    ensures IsRun(w, Range(i, i + 1))
  {
  }

  lemma ExtendedSpans(w: World, k: nat, i: nat, rs: seq<Range>)
    requires k <= i < |w.chunks| && Spans(w, k, i, rs) && !w.chunks[i].valid
    ensures Spans(w, k, i + 1, Extended(w, rs, i))
  {
    hide Ordered, Void, NextMissing, IsRun;
    OneRun(w, i);
    NextIs(w, if rs == [] then k else rs[|rs| - 1].end, i);
    if rs != [] && Void(w, rs[|rs| - 1].end, i) {
      OneLonger(w, rs, i);
    } else {
      OneMore(w, rs, Range(i, i + 1));
    }
  }

  lemma SkippedSpans(w: World, k: nat, i: nat, rs: seq<Range>)
    requires k <= i < |w.chunks| && Spans(w, k, i, rs) && w.chunks[i].valid
    ensures Spans(w, k, i + 1, rs)
  {
    hide Ordered, NextMissing;
    if rs == [] {
      NextIs(w, k, i);
    } else {
      NextIs(w, rs[|rs| - 1].end, i);
    }
  }

  lemma {:induction false} RunsSpan(w: World, k: nat, i: nat)
    requires k <= i <= |w.chunks|
    ensures Spans(w, k, i, RunsTo(w, k, i))
    decreases i
  {
    if k < i {
      hide Spans, Extended;
      RunsSpan(w, k, i - 1);
      if w.chunks[i - 1].valid {
        SkippedSpans(w, k, i - 1, RunsTo(w, k, i - 1));
      } else {
        ExtendedSpans(w, k, i - 1, RunsTo(w, k, i - 1));
      }
    }
  }

  /** Every chunk to download is part of a run.  Between it and a later run are bytes. */
  predicate Held(w: World, m: nat, rs: seq<Range>) {
    Within(w, rs) && exists j ::
      0 <= j < |rs| && rs[j].first <= m < rs[j].end && (j == |rs| - 1 || !Void(w, m + 1, rs[|rs| - 1].first))
  }

  lemma ExtendedHolds(w: World, m: nat, i: nat, rs: seq<Range>)
    requires m < i < |w.chunks| && Held(w, m, rs) && rs[|rs| - 1].end <= i && Ordered(w, rs)
    ensures Held(w, m, Extended(w, rs, i))
  {
    var j :| 0 <= j < |rs| && rs[j].first <= m < rs[j].end && (j == |rs| - 1 || !Void(w, m + 1, rs[|rs| - 1].first));
    var all := Extended(w, rs, i);
    assert rs[|rs| - 1].first <= rs[|rs| - 1].end;
    assert all[j].first == rs[j].first && rs[j].end <= all[j].end;
    hide Ordered;
    assert j == |all| - 1 || !Void(w, m + 1, all[|all| - 1].first);
  }

  lemma LastHolds(w: World, m: nat, rs: seq<Range>)
    requires m < |w.chunks| && Ordered(w, rs) && (rs != [] ==> rs[|rs| - 1].end <= m)
    ensures Held(w, m, Extended(w, rs, m))
  {
    assert rs != [] ==> IsRun(w, rs[|rs| - 1]);
    var all := Extended(w, rs, m);
    assert all[|all| - 1].first <= m < all[|all| - 1].end;
  }

  lemma {:induction false} RunsHold(w: World, k: nat, i: nat, m: nat)
    requires k <= m < i <= |w.chunks| && !w.chunks[m].valid
    ensures Held(w, m, RunsTo(w, k, i))
    decreases i
  {
    hide Held, Ordered, Extended, NextMissing;
    RunsSpan(w, k, i - 1);
    if m == i - 1 {
      LastHolds(w, m, RunsTo(w, k, m));
    } else {
      RunsHold(w, k, i - 1, m);
      if !w.chunks[i - 1].valid {
        ExtendedHolds(w, m, i - 1, RunsTo(w, k, i - 1));
      }
    }
  }

  // ----- Collecting the ranges -----

  /** The list holds the closed runs and the open one, from f up to e. */
  ghost predicate Holds(w: World, header: nat, items: seq<Item>, done: seq<Range>, f: nat, e: nat) {
    && f < e <= |w.chunks| && Within(w, done + [Range(f, e)]) && items == ByteRanges(w, header, done + [Range(f, e)])
    && Normal(items)
  }

  lemma AddFirst(w: World, header: nat, i: nat)
    requires 0 < header && i < |w.chunks|
    ensures var r := ByteRange(w, header, Range(i, i + 1));
      r.Ok() && Holds(w, header, [r], [], i, i + 1) && Merged(Placed([], r.start, r.end)) == [r]
  {
    var r := ByteRange(w, header, Range(i, i + 1));
    assert [] + [Range(i, i + 1)] == [Range(i, i + 1)];
    assert ByteRanges(w, header, [Range(i, i + 1)]) == [r];
    assert Placed([], r.start, r.end) == [r];
  }

  lemma ByteRangesMore(w: World, header: nat, rs: seq<Range>, r: Range)
    requires Within(w, rs) && r.first <= r.end <= |w.chunks|
    ensures Within(w, rs + [r]) &&
            ByteRanges(w, header, rs + [r]) == ByteRanges(w, header, rs) + [ByteRange(w, header, r)]
  {
  }

  /** Bytes right behind the last range extend it; otherwise they are another one. */
  lemma AppendedIs(pre: seq<Item>, a: Item, b: Item)
    requires a.end <= b.end && a.end <= b.start - 1
    ensures Appended(pre + [a], b) == if a.end == b.start - 1 then pre + [Item(a.start, b.end)] else pre + [a] + [b]
  {
  }

  lemma WithinFront(w: World, rs: seq<Range>, r: Range)
    requires Within(w, rs + [r])
    ensures Within(w, rs)
  {
    assert forall k :: 0 <= k < |rs| ==> (rs + [r])[k] == rs[k];
  }

  /** A chunk right behind the open run extends it; otherwise it starts another one. */
  lemma AddNext(w: World, header: nat, items: seq<Item>, done: seq<Range>, f: nat, e: nat, i: nat)
    requires 0 < header && Holds(w, header, items, done, f, e) && e <= i < |w.chunks|
    ensures var r := ByteRange(w, header, Range(i, i + 1));
      && r.Ok() && (Starts(items, r.start) <==> Void(w, f, i))
      && var added := Merged(Placed(items, r.start, r.end));
         if Void(w, e, i) then Holds(w, header, added, done, f, i + 1)
            else Holds(w, header, added, done + [Range(f, e)], i, i + 1)
  {
    hide Placed, Merged, Appended, Within, ByteRanges, Void, Normal, Offset, Starts;
    var r, a := ByteRange(w, header, Range(i, i + 1)), ByteRange(w, header, Range(f, e));
    WithinFront(w, done, Range(f, e));
    ByteRangesMore(w, header, done, Range(f, e));
    Increasing(w, header, f, e, i);
    var pre := ByteRanges(w, header, done);
    assert items == pre + [a] && items[|items| - 1] == a;
    AddRight(items, r.start, r.end);
    ByteRangesMore(w, header, done, Range(f, i + 1));
    ByteRangesMore(w, header, done + [Range(f, e)], Range(i, i + 1));
    if a.start < r.start {
      Behind(items, r.start);
      PlacedLast(items, r.start, r.end);
      MergedLast(items, r);
      AppendedIs(pre, a, r);
    } else {
      OnLast(pre, a, r.end);
      StartsLast(items, r.start);
    }
  }

  lemma NormalLonger(pre: seq<Item>, a: Item, end: int)
    requires Normal(pre + [a]) && a.end <= end
    ensures Normal(pre + [Item(a.start, end)]) && forall i :: 0 <= i < |pre| ==> pre[i].start < a.start
  {
    var all, b := pre + [a], pre + [Item(a.start, end)];
    assert all[|pre|] == a && a.Ok() && b[|pre|].Ok();
    forall i | 0 <= i < |pre| ensures b[i] == all[i] == pre[i] && pre[i].Ok() && pre[i].end + 1 < a.start {
    }
    assert forall i, j :: 0 <= i < j < |b| ==> all[i].end + 1 < all[j].start && b[i] == all[i];
  }

  lemma OnLast(pre: seq<Item>, a: Item, end: int)
    requires Normal(pre + [a]) && a.end <= end
    ensures Merged(Placed(pre + [a], a.start, end)) == pre + [Item(a.start, end)]
  {
    NormalLonger(pre, a, end);
    hide Normal, Placed, Merged;
    PlacedOnLast(pre, a, end);
    MergedSame(pre + [Item(a.start, end)]);
  }

  lemma Increasing(w: World, header: nat, f: nat, e: nat, i: nat)
    requires 0 < header && f < e <= i < |w.chunks|
    ensures var r, a := ByteRange(w, header, Range(i, i + 1)), ByteRange(w, header, Range(f, e));
      && a.start <= r.start && a.end <= r.end && a.end <= r.start - 1 && r.Ok() &&
         (a.end == r.start - 1 <==> Void(w, e, i))
      && (a.start == r.start <==> Void(w, f, i)) && (a.start == r.start ==> Void(w, e, i))
  {
    OffsetMonotone(w, header, f, e);
    OffsetMonotone(w, header, f, i);
    OffsetMonotone(w, header, e, i);
  }

  lemma StartsLast(items: seq<Item>, start: nat)
    requires items != [] && items[|items| - 1].start == start
    ensures Starts(items, start)
  {
  }

  lemma Behind(items: seq<Item>, start: nat)
    requires Normal(items) && items != [] && items[|items| - 1].start < start
    ensures !Starts(items, start) && forall i :: 0 <= i < |items| ==> items[i].start < start
  {
  }

  /** The last chunk with bytes. */
  lemma {:induction false} LastBytes(w: World, a: nat, b: nat) returns (j: nat)
    requires a <= b <= |w.chunks| && !Void(w, a, b)
    ensures a <= j < b && w.chunks[j].comp != [] && Void(w, j + 1, b)
    decreases b
  {
    if w.chunks[b - 1].comp != [] {
      j := b - 1;
    } else {
      j := LastBytes(w, a, b - 1);
    }
  }

  /** Chunk i is right behind downloaded bytes if it extends a run that has some. */
  lemma JoinedIff(w: World, k: nat, i: nat)
    requires k <= i < |w.chunks|
    ensures var rs := RunsTo(w, k, i);
      Joined(w, k, i) <==> rs != [] && Void(w, rs[|rs| - 1].end, i) && !Void(w, rs[|rs| - 1].first, i)
  {
    var rs := RunsTo(w, k, i);
    RunsSpan(w, k, i);
    hide RunsTo, NextMissing;
    if Joined(w, k, i) {
      var j :| k <= j < i && !w.chunks[j].valid && w.chunks[j].comp != [] && Void(w, j + 1, i);
      RunsHold(w, k, i, j);
      JoinsLast(w, i, j, rs);
    }
    if rs != [] && Void(w, rs[|rs| - 1].end, i) && !Void(w, rs[|rs| - 1].first, i) {
      var j := LastBytes(w, rs[|rs| - 1].first, i);
      FirstBehind(w, rs);
      assert IsRun(w, rs[|rs| - 1]);
    }
  }

  lemma JoinsLast(w: World, i: nat, j: nat, rs: seq<Range>)
    requires i < |w.chunks| && Ordered(w, rs) && Held(w, j, rs) && rs[|rs| - 1].end <= i && j < i
    requires w.chunks[j].comp != [] && Void(w, j + 1, i)
    ensures rs != [] && Void(w, rs[|rs| - 1].end, i) && !Void(w, rs[|rs| - 1].first, i)
  {
    assert rs[|rs| - 1].first <= rs[|rs| - 1].end;
    hide Ordered;
  }

  lemma {:induction false} FirstBehind(w: World, rs: seq<Range>)
    requires Ordered(w, rs) && rs != []
    ensures rs[0].first <= rs[|rs| - 1].first
    decreases |rs|
  {
    if |rs| > 1 {
      FirstBehind(w, rs[..|rs| - 1]);
      assert rs[|rs| - 2].first <= rs[|rs| - 2].end <= rs[|rs| - 1].first;
    }
  }

  /** The list and the count when the chunks from k up to i have been looked at. */
  ghost predicate Collected(w: World, header: nat, k: nat, i: nat, items: seq<Item>, count: int)
    requires i <= |w.chunks|
  {
    items == ByteRanges(w, header, RunsTo(w, k, i)) && Normal(items) && count == Count(w, k, i)
  }

  /** A list with at least one run, taken apart. */
  lemma LastRun(w: World, header: nat, items: seq<Item>, rs: seq<Range>)
    requires Ordered(w, rs) && rs != [] && items == ByteRanges(w, header, rs) && Normal(items)
    ensures var n := |rs| - 1;
      rs == rs[..n] + [Range(rs[n].first, rs[n].end)] && Holds(w, header, items, rs[..n], rs[n].first, rs[n].end)
  {
    assert IsRun(w, rs[|rs| - 1]);
  }

  lemma HoldsAll(w: World, header: nat, items: seq<Item>, done: seq<Range>, f: nat, e: nat)
    requires Holds(w, header, items, done, f, e)
    ensures var rs := done + [Range(f, e)];
            Within(w, rs) && items == ByteRanges(w, header, rs) && Normal(items) && |items| == |done| + 1
  {
  }

  /** A chunk to download extends the last range or is another one. */
  lemma CollectNext(w: World, header: nat, k: nat, i: nat, items: seq<Item>, count: int, added: seq<Item>, count': int)
    requires 0 < header && k <= i < |w.chunks| && !w.chunks[i].valid && Collected(w, header, k, i, items, count)
    requires var r := ByteRange(w, header, Range(i, i + 1));
      && added == Merged(Placed(items, r.start, r.end))
      && count' - |added| == count - |items| + (if Starts(items, r.start) then 1 else 0)
    ensures Collected(w, header, k, i + 1, added, count')
  {
    var rs := RunsTo(w, k, i);
    RunsSpan(w, k, i);
    JoinedIff(w, k, i);
    assert Count(w, k, i + 1) == Count(w, k, i) + if Joined(w, k, i) then 0 else 1;
    assert RunsTo(w, k, i + 1) == Extended(w, rs, i);
    hide Joined, Count, RunsTo, Merged, Placed, ByteRange, Normal, Ordered;
    if rs == [] {
      assert items == [];
      AddFirst(w, header, i);
      assert !Starts([], ByteRange(w, header, Range(i, i + 1)).start);
      HoldsAll(w, header, added, [], i, i + 1);
      assert [] + [Range(i, i + 1)] == [Range(i, i + 1)];
    } else {
      hide Starts;
      CollectMore(w, header, i, items, rs, added);
    }
  }

  lemma CollectMore(w: World, header: nat, i: nat, items: seq<Item>, rs: seq<Range>, added: seq<Item>)
    requires 0 < header && i < |w.chunks| && Ordered(w, rs) && rs != [] && rs[|rs| - 1].end <= i
    requires items == ByteRanges(w, header, rs) && Normal(items)
    requires var r := ByteRange(w, header, Range(i, i + 1)); added == Merged(Placed(items, r.start, r.end))
    ensures added == ByteRanges(w, header, Extended(w, rs, i)) && Normal(added)
    ensures var r := ByteRange(w, header, Range(i, i + 1)); Starts(items, r.start) <==> Void(w, rs[|rs| - 1].first, i)
    ensures |added| == if Void(w, rs[|rs| - 1].end, i) then |items| else |items| + 1
  {
    var n := |rs| - 1;
    var done, f, e := rs[..n], rs[n].first, rs[n].end;
    LastRun(w, header, items, rs);
    hide Ordered, Merged, Placed, ByteRange, Normal, Starts, Holds, Void;
    HoldsAll(w, header, items, done, f, e);
    AddNext(w, header, items, done, f, e, i);
    if Void(w, e, i) {
      HoldsAll(w, header, added, done, f, i + 1);
    } else {
      HoldsAll(w, header, added, done + [Range(f, e)], i, i + 1);
    }
  }

  // ----- The request -----

  /** Byte x belongs to a chunk from first on, before upto, that must be downloaded. */
  ghost predicate Wanted(w: World, header: nat, first: nat, upto: nat, x: nat)
    requires upto <= |w.chunks|
  {
    exists j: nat :: first <= j < upto && !w.chunks[j].valid && InChunk(w, header, j, x)
  }

  predicate InChunk(w: World, header: nat, j: nat, x: nat)
    requires j < |w.chunks|
  {
    Offset(w, header, j) <= x < Offset(w, header, j + 1)
  }

  ghost predicate Exact(w: World, header: nat, first: nat, upto: nat, items: seq<Item>)
    requires upto <= |w.chunks|
  {
    forall x: nat :: Covers(items, x) <==> Wanted(w, header, first, upto, x)
  }

  lemma ExactNext(w: World, header: nat, first: nat, i: nat, items: seq<Item>, added: seq<Item>)
    requires first <= i < |w.chunks| && Exact(w, header, first, i, items)
    requires if w.chunks[i].valid then added == items
             else forall x: nat :: Covers(added, x) <==> Covers(items, x) || InChunk(w, header, i, x)
    ensures Exact(w, header, first, i + 1, added)
  {
    hide Covers, InChunk;
    forall x: nat ensures Covers(added, x) <==> Wanted(w, header, first, i + 1, x) {
      if Wanted(w, header, first, i, x) {
        var j: nat :| first <= j < i && !w.chunks[j].valid && InChunk(w, header, j, x);
        assert j < i + 1;
      }
    }
  }

  /** Asks for the bytes of a chunk. */
  method AddChunk(range: RangeList, w: World, header: nat, i: nat)
    requires 0 < header && i < |w.chunks| && Normal(range.items)
    modifies range
    ensures Normal(range.items)
    ensures forall x: nat :: Covers(range.items, x) <==> old(Covers(range.items, x)) || InChunk(w, header, i, x)
    ensures var r := ByteRange(w, header, Range(i, i + 1));
      && range.items == Merged(Placed(old(range.items), r.start, r.end))
      && range.count - |range.items|
        == old(range.count - |range.items|) + (if Starts(old(range.items), r.start) then 1 else 0)
  {
    hide Covers, Normal, Merged, Placed, Starts;
    range.Add(Offset(w, header, i), Offset(w, header, i) + |w.chunks[i].comp| - 1);
  }

  /** The ranges of a request, from chunk first on: those of the runs up to where the
      count reaches the limit.  They do not touch, and cover exactly the bytes of the
      chunks to download that were looked at. */
  method MissingRange(w: World, header: nat, first: nat, limit: int) returns (items: seq<Item>, ghost upto: nat)
    requires 0 < header && first <= |w.chunks|
    ensures upto == Reach(w, first, first, limit)
    ensures items == ByteRanges(w, header, Runs(w, first, limit))
    ensures Normal(items) && Exact(w, header, first, upto, items)
  {
    var range := new RangeList();
    upto := first;
    assert Collected(w, header, first, first, [], 0) && Exact(w, header, first, first, []);
    hide Normal, Collected, Merged, Placed, Starts, ByteRange, Exact, Covers, InChunk, Count, RunsTo;
    for i := first to |w.chunks|
      invariant upto == i && Reach(w, first, i, limit) == Reach(w, first, first, limit)
      invariant Normal(range.items) && Exact(w, header, first, i, range.items)
      invariant Collected(w, header, first, i, range.items, range.count)
    {
      ghost var was, count := range.items, range.count;
      upto := i + 1;
      if w.chunks[i].valid {
        ExactNext(w, header, first, i, was, was);
        CollectSkip(w, header, first, i, was, count);
        continue;
      }
      AddChunk(range, w, header, i);
      ExactNext(w, header, first, i, was, range.items);
      CollectNext(w, header, first, i, was, count, range.items, range.count);
      CollectedIs(w, header, first, i + 1, range.items, range.count);
      if limit >= 0 && range.count >= limit {
        return range.items, upto;
      }
    }
    items := range.items;
    CollectedIs(w, header, first, |w.chunks|, items, range.count);
  }

  lemma CollectSkip(w: World, header: nat, k: nat, i: nat, items: seq<Item>, count: int)
    requires i < |w.chunks| && w.chunks[i].valid && Collected(w, header, k, i, items, count)
    ensures Collected(w, header, k, i + 1, items, count)
  {
  }

  lemma CollectedIs(w: World, header: nat, k: nat, i: nat, items: seq<Item>, count: int)
    requires i <= |w.chunks| && Collected(w, header, k, i, items, count)
    ensures items == ByteRanges(w, header, RunsTo(w, k, i)) && count == Count(w, k, i)
  {
  }

  // ----- A limit reached early -----

  /** A chunk without bytes before one with a byte; another one to download later. */
  function EarlyWorld(): World {
    World([Chunk([], [], false), Chunk([1], [1], false), Chunk([2], [2], true), Chunk([3], [3], false)],
          _ => 1, b => Copied(b, true))
  }

  /** Two ranges are allowed and two are missing, but only one is asked for. */
  lemma LimitEarly()
    ensures Runs(EarlyWorld(), 0, 2) == [Range(0, 2)] && Runs(EarlyWorld(), 0, -1) == [Range(0, 2), Range(3, 4)]
  {
    var w := EarlyWorld();
    EarlyRuns();
    EarlyCount();
    hide RunsTo, Count;
    assert Reach(w, 0, 2, 2) > 1 && Reach(w, 0, 1, 2) == 2 && Reach(w, 0, 0, 2) == 2;
    assert Reach(w, 0, 4, -1) == 4 && Reach(w, 0, 3, -1) == 4 && Reach(w, 0, 2, -1) == 4 && Reach(w, 0, 1, -1) == 4;
  }

  lemma EarlyRuns()
    ensures RunsTo(EarlyWorld(), 0, 2) == [Range(0, 2)] && RunsTo(EarlyWorld(), 0, 4) == [Range(0, 2), Range(3, 4)]
  {
    var w := EarlyWorld();
    var one, two := [Range(0, 1)], [Range(0, 2)];
    assert Extended(w, [], 0) == one && Extended(w, one, 1) == two;
    assert w.chunks[2].comp != [] && !Void(w, 2, 3) && Extended(w, two, 3) == [Range(0, 2), Range(3, 4)];
    hide Extended;
    assert RunsTo(w, 0, 0) == [] && RunsTo(w, 0, 1) == one && RunsTo(w, 0, 2) == two && RunsTo(w, 0, 3) == two;
  }

  lemma EarlyCount()
    ensures Count(EarlyWorld(), 0, 1) == 1 && Count(EarlyWorld(), 0, 2) == 2
  {
    var w := EarlyWorld();
    assert Count(w, 0, 0) == 0 && !Joined(w, 0, 0) && !Joined(w, 0, 1);
  }
}
