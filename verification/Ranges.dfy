/** The list of byte ranges of a request. */
module Ranges {
  /** The bytes from start to end, both included; none if end is start - 1. */
  datatype Item = Item(start: nat, end: int) {
    predicate Ok() { 0 <= end && start <= end + 1 }
  }

  predicate Sorted(items: seq<Item>) {
    && (forall i :: 0 <= i < |items| ==> items[i].Ok())
    && forall i, j :: 0 <= i < j < |items| ==> items[i].start < items[j].start
  }

  /** Sorted, and no two ranges overlap or touch. */
  predicate Normal(items: seq<Item>) {
    && (forall i :: 0 <= i < |items| ==> items[i].Ok())
    && forall i, j :: 0 <= i < j < |items| ==> items[i].end + 1 < items[j].start
  }

  /** Byte x is asked for. */
  ghost predicate Covers(items: seq<Item>, x: nat) {
    exists i :: 0 <= i < |items| && items[i].start <= x <= items[i].end
  }

  function Longer(a: Item, end: int): Item { if a.end < end then a.(end := end) else a }

  /** Neighbours that overlap or touch, joined. */
  function Merged(items: seq<Item>): seq<Item>
    decreases |items|
  {
    if |items| <= 1 then items
    else if items[0].end >= items[1].start - 1 then Merged([Longer(items[0], items[1].end)] + items[2..])
    else [items[0]] + Merged(items[1..])
  }

  /** The list with a range put in its place. */
  function Placed(items: seq<Item>, start: nat, end: int): seq<Item> {
    if items == [] || start < items[0].start then [Item(start, end)] + items
    else if start == items[0].start then [Longer(items[0], end)] + items[1..]
    else [items[0]] + Placed(items[1..], start, end)
  }

  predicate Starts(items: seq<Item>, start: nat) {
    exists i :: 0 <= i < |items| && items[i].start == start
  }

  lemma {:induction false} PlacedSorted(items: seq<Item>, start: nat, end: int)
    requires Sorted(items) && Item(start, end).Ok()
    ensures var r := Placed(items, start, end);
      Sorted(r) && r != [] && r[0].start >= (if items == [] || start < items[0].start then start else items[0].start)
    decreases |items|
  {
    if items != [] && start > items[0].start {
      PlacedSorted(items[1..], start, end);
      SortedCons(items[0], Placed(items[1..], start, end));
    }
  }

  lemma SortedCons(a: Item, items: seq<Item>)
    requires a.Ok() && Sorted(items) && (items != [] ==> a.start < items[0].start)
    ensures Sorted([a] + items)
  {
  }

  lemma {:induction false} PlacedCount(items: seq<Item>, start: nat, end: int)
    requires Sorted(items)
    ensures |Placed(items, start, end)| == |items| + (if Starts(items, start) then 0 else 1)
    decreases |items|
  {
    if items != [] && start > items[0].start {
      PlacedCount(items[1..], start, end);
      if Starts(items, start) {
        var i :| 0 <= i < |items| && items[i].start == start;
        assert items[1..][i - 1] == items[i];
      }
    }
  }

  lemma {:induction false} PlacedCovers(items: seq<Item>, start: nat, end: int, x: nat)
    ensures Covers(Placed(items, start, end), x) <==> Covers(items, x) || start <= x <= end
    decreases |items|
  {
    hide Covers;
    if items != [] {
      assert items == [items[0]] + items[1..];
      ConsCovers(items[0], items[1..], x);
    }
    if items == [] || start < items[0].start {
      ConsCovers(Item(start, end), items, x);
    } else if start == items[0].start {
      ConsCovers(Longer(items[0], end), items[1..], x);
    } else {
      PlacedCovers(items[1..], start, end, x);
      ConsCovers(items[0], Placed(items[1..], start, end), x);
    }
  }

  lemma JoinedSorted(items: seq<Item>)
    requires Sorted(items) && |items| > 1
    ensures Sorted([Longer(items[0], items[1].end)] + items[2..]) && Sorted(items[1..])
  {
  }

  /** Merging leaves no two ranges that overlap or touch... */
  lemma {:induction false} MergedNormal(items: seq<Item>)
    requires Sorted(items)
    ensures Normal(Merged(items))
    ensures items != [] ==> Merged(items) != [] && Merged(items)[0].start == items[0].start
    decreases |items|
  {
    if |items| > 1 {
      JoinedSorted(items);
      if items[0].end >= items[1].start - 1 {
        MergedNormal([Longer(items[0], items[1].end)] + items[2..]);
      } else {
        MergedNormal(items[1..]);
        var r := Merged(items[1..]);
        assert forall j :: 0 <= j < |r| ==> items[0].end + 1 < r[j].start by {
          forall j | 0 < j < |r| ensures items[0].end + 1 < r[j].start {
            assert r[0].Ok() && r[0].end + 1 < r[j].start;
          }
        }
      }
    }
  }

  lemma JoinedCovers(items: seq<Item>, x: nat)
    requires Sorted(items) && |items| > 1 && items[0].end >= items[1].start - 1
    ensures Covers([Longer(items[0], items[1].end)] + items[2..], x) <==> Covers(items, x)
  {
    var r := [Longer(items[0], items[1].end)] + items[2..];
    if Covers(items, x) {
      var i :| 0 <= i < |items| && items[i].start <= x <= items[i].end;
      assert if i < 2 then r[0].start <= x <= r[0].end else r[i - 1] == items[i];
    }
    if Covers(r, x) {
      var i :| 0 <= i < |r| && r[i].start <= x <= r[i].end;
      if i > 0 {
        assert items[i + 1] == r[i];
      } else {
        assert items[0].start <= x <= items[0].end || items[1].start <= x <= items[1].end;
      }
    }
  }

  lemma ConsCovers(a: Item, items: seq<Item>, x: nat)
    ensures Covers([a] + items, x) <==> a.start <= x <= a.end || Covers(items, x)
  {
    var r := [a] + items;
    if Covers(items, x) {
      var i :| 0 <= i < |items| && items[i].start <= x <= items[i].end;
      assert r[i + 1] == items[i];
    }
    if Covers(r, x) {
      var i :| 0 <= i < |r| && r[i].start <= x <= r[i].end;
      assert i > 0 ==> items[i - 1] == r[i];
    }
    assert r[0] == a;
  }

  /** ...and asks for the same bytes. */
  lemma {:induction false} MergedCovers(items: seq<Item>, x: nat)
    requires Sorted(items)
    ensures Covers(Merged(items), x) <==> Covers(items, x)
    decreases |items|
  {
    hide Covers, Sorted, Longer;
    if |items| > 1 {
      JoinedSorted(items);
      if items[0].end >= items[1].start - 1 {
        JoinedCovers(items, x);
        MergedCovers([Longer(items[0], items[1].end)] + items[2..], x);
      } else {
        MergedCovers(items[1..], x);
        ConsCovers(items[0], items[1..], x);
        ConsCovers(items[0], Merged(items[1..]), x);
        assert items == [items[0]] + items[1..];
      }
    }
  }

  lemma {:induction false} PlacedLast(items: seq<Item>, start: nat, end: int)
    requires forall i :: 0 <= i < |items| ==> items[i].start < start
    ensures Placed(items, start, end) == items + [Item(start, end)]
    decreases |items|
  {
    if items != [] {
      PlacedLast(items[1..], start, end);
      assert items == [items[0]] + items[1..];
    }
  }

  /** A range that starts like the last one lengthens it. */
  lemma {:induction false} PlacedOnLast(items: seq<Item>, a: Item, end: int)
    requires forall i :: 0 <= i < |items| ==> items[i].start < a.start
    ensures Placed(items + [a], a.start, end) == items + [Longer(a, end)]
    decreases |items|
  {
    var all := items + [a];
    if items == [] {
      assert all[1..] == [];
    } else {
      assert all[1..] == items[1..] + [a];
      PlacedOnLast(items[1..], a, end);
    }
  }

  lemma {:induction false} MergedSame(items: seq<Item>)
    requires Normal(items)
    ensures Merged(items) == items
    decreases |items|
  {
    if |items| > 1 {
      assert items[0].end + 1 < items[1].start;
      hide Merged;
      MergedStep(items);
      hide Normal;
      assert Normal(items[1..]) by { NormalTail(items); }
      MergedSame(items[1..]);
    }
  }

  lemma MergedStep(items: seq<Item>)
    requires |items| > 1 && items[0].end + 1 < items[1].start
    ensures Merged(items) == [items[0]] + Merged(items[1..])
  {
  }

  lemma NormalTail(items: seq<Item>)
    requires Normal(items) && items != []
    ensures Normal(items[1..])
  {
  }

  /** A range behind all others is joined with the last one or stays apart. */
  lemma {:induction false} MergedLast(items: seq<Item>, b: Item)
    requires Normal(items) && b.Ok() && (items != [] ==> items[|items| - 1].start < b.start)
    ensures Merged(items + [b]) == Appended(items, b)
    decreases |items|
  {
    var all := items + [b];
    if |items| == 1 {
      assert all[2..] == [] && all[1..] == [b];
      assert [Longer(items[0], b.end)] + [] == [Longer(items[0], b.end)];
    } else if |items| > 1 {
      assert all[1..] == items[1..] + [b];
      MergedLast(items[1..], b);
    }
  }

  function Appended(items: seq<Item>, b: Item): seq<Item> {
    if items == [] then [b]
    else
      var n := |items| - 1;
      if items[n].end >= b.start - 1 then items[n := Longer(items[n], b.end)] else items + [b]
  }

  lemma PlacedFurther(items: seq<Item>, p: nat, start: nat, end: int)
    requires p < |items| && start > items[p].start
    ensures items[..p] + Placed(items[p..], start, end) == items[..p + 1] + Placed(items[p + 1..], start, end)
  {
    assert items[p..][1..] == items[p + 1..] && items[..p] + [items[p]] == items[..p + 1];
    assert Placed(items[p..], start, end) == [items[p]] + Placed(items[p + 1..], start, end);
  }

  lemma PlacedHere(items: seq<Item>, p: nat, start: nat, end: int)
    requires p <= |items| && (p < |items| ==> start <= items[p].start)
    ensures items[..p] + Placed(items[p..], start, end)
      == if p < |items| && start == items[p].start then items[p := Longer(items[p], end)]
        else items[..p] + ([Item(start, end)] + items[p..])
  {
    if p < |items| && start == items[p].start {
      assert items[p..][1..] == items[p + 1..];
      assert items[p := Longer(items[p], end)] == items[..p] + ([Longer(items[p], end)] + items[p + 1..]);
    }
  }

  class RangeList {
    var items: seq<Item>
    var count: int

    constructor ()
      ensures items == [] && count == 0
    {
      items, count := [], 0;
    }

    /** Joins neighbours in one pass over the list. */
    method MergeCombined()
      requires Sorted(items)
      modifies this
      ensures items == Merged(old(items)) && count - |items| == old(count - |items|)
    {
      var i := 0;
      assert items[..0] + Merged(items[0..]) == Merged(items) by { assert items[0..] == items; }
      while i < |items|
        invariant i <= |items| && items[..i] + Merged(items[i..]) == Merged(old(items))
        invariant count - |items| == old(count - |items|)
        decreases |items| - i
      {
        if i + 1 < |items| && items[i].end >= items[i + 1].start - 1 {
          ghost var was := items;
          items, count := items[..i] + [Longer(items[i], items[i + 1].end)] + items[i + 2..], count - 1;
          assert was[i..][2..] == was[i + 2..] && items[..i] == was[..i];
          assert items[i..] == [Longer(was[i], was[i + 1].end)] + was[i..][2..];
        } else {
          assert items[i..][1..] == items[i + 1..] && items[..i] + [items[i]] == items[..i + 1];
          if i + 1 == |items| {
            assert Merged(items[i..]) == items[i..] == [items[i]] && Merged(items[i + 1..]) == [];
          } else {
            assert items[..i] + ([items[i]] + Merged(items[i + 1..])) == items[..i + 1] + Merged(items[i + 1..]);
          }
          i := i + 1;
        }
      }
      assert items[..i] == items && items[i..] == [];
    }

    /** Looks for the place of a range and puts it there; the count grows in any case. */
    method Insert(start: nat, end: int)
      modifies this
      ensures items == Placed(old(items), start, end) && count == old(count) + 1
    {
      var p := 0;
      ghost var was := items;
      assert items[0..] == items && [] + Placed(items, start, end) == Placed(items, start, end);
      hide Placed;
      while p < |items| && start > items[p].start
        invariant p <= |items| && items == was && count == old(count)
        invariant items[..p] + Placed(items[p..], start, end) == Placed(items, start, end)
      {
        PlacedFurther(items, p, start, end);
        p := p + 1;
      }
      PlacedHere(items, p, start, end);
      count := count + 1;
      if p < |items| && start == items[p].start {
        items := items[p := Longer(items[p], end)];
      } else {
        items := items[..p] + ([Item(start, end)] + items[p..]);
      }
    }

    /** Adds a range.  The list stays normal and asks for the new bytes besides the
        old ones; a range that starts like one of the list is counted twice. */
    method Add(start: nat, end: int)
      requires Normal(items) && Item(start, end).Ok()
      modifies this
      ensures Normal(items) && items == Merged(Placed(old(items), start, end))
      ensures forall x: nat :: Covers(items, x) <==> old(Covers(items, x)) || start <= x <= end
      ensures count - |items| == old(count - |items|) + (if Starts(old(items), start) then 1 else 0)
    {
      AddRight(items, start, end);
      hide Placed, Covers, Merged, Sorted, Normal, Starts;
      Insert(start, end);
      MergeCombined();
    }
  }

  lemma AddRight(items: seq<Item>, start: nat, end: int)
    requires Normal(items) && Item(start, end).Ok()
    ensures Sorted(Placed(items, start, end)) && Normal(Merged(Placed(items, start, end)))
    ensures |Placed(items, start, end)| == |items| + (if Starts(items, start) then 0 else 1)
    ensures forall x: nat :: Covers(Merged(Placed(items, start, end)), x) <==> Covers(items, x) || start <= x <= end
  {
    assert Sorted(items);
    hide Placed, Covers, Merged, Sorted, Normal, Starts;
    PlacedSorted(items, start, end);
    PlacedCount(items, start, end);
    MergedNormal(Placed(items, start, end));
    forall x: nat ensures Covers(Merged(Placed(items, start, end)), x) <==> Covers(items, x) || start <= x <= end {
      PlacedCovers(items, start, end, x);
      MergedCovers(Placed(items, start, end), x);
    }
  }
}
