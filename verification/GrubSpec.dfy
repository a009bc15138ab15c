/** The block in which the boot loader keeps its variables. */
module GrubSpec {
  import opened Dict

  const GRUBENV_SIZE: nat := 1024
  const REMARK: string := " GRUB Environment Block"
  const HEADER: string := "#" + REMARK + "\n"

  /** A variable that a line can hold. */
  ghost predicate Clean(e: Entry) {
    && |e.values| == 1
    && e.key != "" && e.key[0] != '#' && '=' !in e.key && '\n' !in e.key && '\0' !in e.key
    && '\n' !in e.values[0] && '\0' !in e.values[0]
  }

  ghost predicate Good(es: seq<Entry>) {
    Unique(es) && forall i :: 0 <= i < |es| ==> Clean(es[i])
  }

  function Value(e: Entry): string { if e.values == [] then "" else e.values[0] }

  function Line(e: Entry): string { e.key + "=" + Value(e) + "\n" }

  function Lines(es: seq<Entry>): string { if es == [] then "" else Line(es[0]) + Lines(es[1..]) }

  function Fill(n: nat): string { seq(n, _ => '#') }

  function Size(es: seq<Entry>): nat { |HEADER| + |Lines(es)| }

  /** The block: a comment, a line per variable, and number signs up to its size. */
  function Format(es: seq<Entry>): (s: string)
    requires Size(es) <= 1024
    ensures |s| == 1024
  {
    HEADER + Lines(es) + Fill(GRUBENV_SIZE - Size(es))
  }

  lemma HeaderIs()
    ensures |HEADER| == 25 && HEADER[..24] == "# GRUB Environment Block" && HEADER[24] == '\n'
  {
  }

  /** The block in plain numbers: 25 characters of remark, the lines, and number signs up to 1024. */
  lemma FormatIs(es: seq<Entry>)
    ensures Size(es) == 25 + |Lines(es)|
    ensures Size(es) <= 1024 ==>
      var s := Format(es);
      && |s| == 1024 && s[..24] == "# GRUB Environment Block" && s[24] == '\n'
      && s[25..Size(es)] == Lines(es) && forall i :: Size(es) <= i < 1024 ==> s[i] == '#'
  {
    HeaderIs();
    hide HEADER, Lines;
    if Size(es) <= 1024 {
      var s := Format(es);
      assert s[..24] == HEADER[..24];
    }
  }

  function Reverse(es: seq<Entry>): seq<Entry> {
    if es == [] then [] else Reverse(es[1..]) + [es[0]]
  }

  lemma {:induction false} ReverseSnoc(es: seq<Entry>, e: Entry)
    ensures Reverse(es + [e]) == [e] + Reverse(es)
  {
    if es == [] {
      assert Reverse([e]) == Reverse([e][1..]) + [e];
      assert es + [e] == [e];
    } else {
      ReverseSnoc(es[1..], e);
      assert (es + [e])[1..] == es[1..] + [e];
    }
  }

  lemma {:induction false} ReverseElements(es: seq<Entry>, e: Entry)
    ensures e in Reverse(es) <==> e in es
  {
    if es != [] {
      ReverseElements(es[1..], e);
    }
  }

  lemma {:induction false} LinesSnoc(es: seq<Entry>, e: Entry)
    ensures Lines(es + [e]) == Lines(es) + Line(e)
  {
    if es == [] {
      assert es + [e] == [e] && [e][1..] == [];
      assert Lines([e]) == Line(e) + Lines([]);
    } else {
      LinesSnoc(es[1..], e);
      assert (es + [e])[1..] == es[1..] + [e];
      assert (es + [e])[0] == es[0];
    }
  }

  /** Neither the order of the variables nor a missing one needs more room. */
  lemma {:induction false} ReverseSize(es: seq<Entry>)
    ensures Size(Reverse(es)) == Size(es)
  {
    hide Line;
    if es != [] {
      ReverseSize(es[1..]);
      LinesSnoc(Reverse(es[1..]), es[0]);
    }
  }

  lemma {:induction false} WithoutSize(es: seq<Entry>, key: string)
    ensures Size(Without(es, key)) <= Size(es)
  {
    hide Line;
    if es != [] {
      WithoutSize(es[1..], key);
      if es[0].key != key {
        assert Without(es, key)[1..] == Without(es[1..], key);
      } else {
        assert Without(es, key) == Without(es[1..], key);
      }
    }
  }

  /** The map is the same read from either end. */
  lemma {:induction false} ReverseMap(es: seq<Entry>)
    requires Good(es)
    ensures Good(Reverse(es)) && ToMap(Reverse(es)) == ToMap(es)
    decreases |es|
  {
    if es != [] {
      var n := |es| - 1;
      var init, last := es[..n], es[n];
      assert es == init + [last];
      assert forall i :: 0 <= i < n ==> init[i] == es[i];
      ReverseSnoc(init, last);
      ReverseMap(init);
      InMap(init, last.key);
      assert last.key !in ToMap(init);
      assert Clean(last);
      ConsGood(last, Reverse(init));
      SnocMap(init, last);
    }
  }

  lemma ConsGood(e: Entry, es: seq<Entry>)
    requires Good(es) && Clean(e) && e.key !in ToMap(es)
    ensures Good([e] + es) && ToMap([e] + es) == ToMap(es)[e.key := e.values]
  {
    UniqueCons(e, es);
    hide Unique;
    assert forall i :: 1 <= i < |[e] + es| ==> ([e] + es)[i] == es[i - 1];
  }

  lemma {:induction false} SnocMap(es: seq<Entry>, e: Entry)
    requires e.key !in ToMap(es)
    ensures ToMap(es + [e]) == ToMap(es)[e.key := e.values]
  {
    if es == [] {
      assert es + [e] == [e] && [e][1..] == [];
    } else {
      SnocMap(es[1..], e);
      assert (es + [e])[1..] == es[1..] + [e];
      assert (es + [e])[0] == es[0];
    }
  }

  lemma SetGood(es: seq<Entry>, e: Entry)
    requires Good(es) && Clean(e)
    ensures Good([e] + Without(es, e.key)) && ToMap([e] + Without(es, e.key)) == ToMap(es)[e.key := e.values]
  {
    WithoutGood(es, e.key);
    WithoutMap(es, e.key);
    ConsGood(e, Without(es, e.key));
  }

  lemma WithoutGood(es: seq<Entry>, key: string)
    requires Good(es)
    ensures Good(Without(es, key))
  {
    WithoutMap(es, key);
    hide Unique;
    forall i | 0 <= i < |Without(es, key)| ensures Clean(Without(es, key)[i]) {
      WithoutElements(es, key, Without(es, key)[i]);
    }
  }
}
