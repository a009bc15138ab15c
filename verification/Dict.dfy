/** The dictionary behind the boot environment: a list of entries, each with a list
    of values, newest first. */
module Dict {
  import opened Wrappers

  datatype Entry = Entry(key: string, values: seq<string>)

  ghost predicate Unique(es: seq<Entry>) {
    && (forall i :: 0 <= i < |es| ==> es[i].values != [])
    && forall i, j :: 0 <= i < j < |es| ==> es[i].key != es[j].key
  }

  /** What the list stands for. */
  function ToMap(es: seq<Entry>): map<string, seq<string>> {
    if es == [] then map[] else ToMap(es[1..])[es[0].key := es[0].values]
  }

  lemma {:induction false} InMap(es: seq<Entry>, key: string)
    ensures key in ToMap(es) <==> exists i :: 0 <= i < |es| && es[i].key == key
  {
    if es != [] {
      InMap(es[1..], key);
      if key in ToMap(es) && key != es[0].key {
        var i :| 0 <= i < |es[1..]| && es[1..][i].key == key;
        assert es[i + 1].key == key;
      }
      if j :| 0 <= j < |es| && es[j].key == key {
        assert j > 0 ==> es[1..][j - 1].key == key;
      }
    }
  }

  lemma {:induction false} MapAt(es: seq<Entry>, i: nat)
    requires Unique(es) && i < |es|
    ensures es[i].key in ToMap(es) && ToMap(es)[es[i].key] == es[i].values
  {
    if i > 0 {
      assert forall k :: 0 <= k < |es[1..]| ==> es[1..][k] == es[k + 1];
      MapAt(es[1..], i - 1);
    }
  }

  /** The list without the entry of a key. */
  function Without(es: seq<Entry>, key: string): seq<Entry> {
    if es == [] then [] else (if es[0].key == key then [] else [es[0]]) + Without(es[1..], key)
  }

  lemma {:induction false} WithoutNothing(es: seq<Entry>, key: string)
    requires forall i :: 0 <= i < |es| ==> es[i].key != key
    ensures Without(es, key) == es
  {
    if es != [] {
      WithoutNothing(es[1..], key);
    }
  }

  lemma {:induction false} WithoutOne(es: seq<Entry>, i: nat)
    requires Unique(es) && i < |es|
    ensures es[..i] + es[i + 1..] == Without(es, es[i].key)
  {
    if i == 0 {
      WithoutNothing(es[1..], es[0].key);
    } else {
      assert forall k :: 0 <= k < |es[1..]| ==> es[1..][k] == es[k + 1];
      WithoutOne(es[1..], i - 1);
      assert es[..i] + es[i + 1..] == [es[0]] + (es[1..][..i - 1] + es[1..][i..]);
    }
  }

  lemma {:induction false} WithoutElements(es: seq<Entry>, key: string, e: Entry)
    ensures e in Without(es, key) <==> e in es && e.key != key
  {
    if es != [] {
      WithoutElements(es[1..], key, e);
    }
  }

  lemma {:induction false} WithoutMap(es: seq<Entry>, key: string)
    requires Unique(es)
    ensures Unique(Without(es, key)) && ToMap(Without(es, key)) == ToMap(es) - {key}
  {
    if es != [] {
      assert forall k :: 0 <= k < |es[1..]| ==> es[1..][k] == es[k + 1];
      WithoutMap(es[1..], key);
      InMap(es[1..], es[0].key);
      assert es[0].key !in ToMap(es[1..]);
      hide Unique;
      var rest := Without(es[1..], key);
      if es[0].key == key {
        assert Without(es, key) == rest;
      } else {
        assert Without(es, key) == [es[0]] + rest;
        UniqueCons(es[0], rest);
      }
    }
  }

  lemma UniqueCons(e: Entry, es: seq<Entry>)
    requires Unique(es) && e.values != [] && e.key !in ToMap(es)
    ensures Unique([e] + es) && ToMap([e] + es) == ToMap(es)[e.key := e.values]
  {
    InMap(es, e.key);
    assert ([e] + es)[1..] == es;
  }

  class Dictionary {
    var entries: seq<Entry>

    constructor ()
      ensures entries == []
    {
      entries := [];
    }

    ghost predicate Valid()
      reads this
    {
      Unique(entries)
    }

    ghost function View(): map<string, seq<string>>
      reads this
    {
      ToMap(entries)
    }

    /** The entry of a key, or the length of the list. */
    method GetEntry(key: string) returns (i: nat)
      requires Valid()
      ensures i <= |entries| && (i < |entries| ==> entries[i].key == key)
      ensures i < |entries| <==> key in View()
      ensures i < |entries| ==> View()[key] == entries[i].values
    {
      InMap(entries, key);
      i := 0;
      while i < |entries|
        invariant i <= |entries| && forall j :: 0 <= j < i ==> entries[j].key != key
      {
        if entries[i].key == key {
          MapAt(entries, i);
          return;
        }
        i := i + 1;
      }
    }

    method GetValue(key: string) returns (value: Option<string>)
      requires Valid()
      ensures value == if key in View() && View()[key] != [] then Some(View()[key][0]) else None
    {
      var i := GetEntry(key);
      value := if i < |entries| then Some(entries[i].values[0]) else None;
    }

    method Remove(key: string)
      requires Valid()
      modifies this
      ensures Valid() && View() == old(View()) - {key}
      ensures entries == Without(old(entries), key)
    {
      var i := GetEntry(key);
      WithoutMap(entries, key);
      InMap(entries, key);
      if i == |entries| {
        WithoutNothing(entries, key);
      } else {
        WithoutOne(entries, i);
        entries := entries[..i] + entries[i + 1..];
      }
    }

    /** The key gets this value and no other; its entry moves to the front. */
    method SetValue(key: string, value: string)
      requires Valid()
      modifies this
      ensures Valid() && View() == old(View())[key := [value]]
      ensures entries == [Entry(key, [value])] + Without(old(entries), key)
    {
      Remove(key);
      UniqueCons(Entry(key, [value]), entries);
      entries := [Entry(key, [value])] + entries;
    }

    /** The key gets one more value, ahead of those it has. */
    method InsertValue(key: string, value: string)
      requires Valid()
      modifies this
      ensures Valid()
      ensures View() == old(View())[key := [value] + if key in old(View()) then old(View())[key] else []]
    {
      var i := GetEntry(key);
      if i == |entries| {
        assert [value] + [] == [value];
        UniqueCons(Entry(key, [value]), entries);
        entries := [Entry(key, [value])] + entries;
      } else {
        MapUpdate(entries, i, [value] + entries[i].values);
        entries := entries[i := entries[i].(values := [value] + entries[i].values)];
      }
    }
  }

  lemma {:induction false} MapUpdate(es: seq<Entry>, i: nat, values: seq<string>)
    requires Unique(es) && i < |es| && values != []
    ensures var es2 := es[i := es[i].(values := values)];
      Unique(es2) && ToMap(es2) == ToMap(es)[es[i].key := values]
  {
    var es' := es[i := es[i].(values := values)];
    if i == 0 {
      assert es'[1..] == es[1..];
    } else {
      assert forall k :: 0 <= k < |es[1..]| ==> es[1..][k] == es[k + 1];
      MapUpdate(es[1..], i - 1, values);
      assert es'[1..] == es[1..][i - 1 := es[1..][i - 1].(values := values)];
    }
  }
}
