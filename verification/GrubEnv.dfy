/** Opening, writing and changing the boot environment. */
module GrubEnv {
  import opened Dict
  import opened GrubSpec
  import opened Grub
  import opened Wrappers

  // ----- Opening -----

  /** What lies ahead of the cursor after i variables of a block. */
  function Ahead(es: seq<Entry>, i: nat, n: nat): string
    requires i <= |es|
  {
    Lines(es[i..]) + (Fill(n) + "\0")
  }

  /** The cursor stands behind i variables, and those are loaded. */
  ghost predicate Loaded(buf: string, entry: nat, front: string, es: seq<Entry>, i: nat, n: nat, entries: seq<Entry>) {
    && i <= |es| && entry == |front| && buf == front + Ahead(es, i, n)
    && entries == Reverse(es[..i])
  }

  lemma AheadTurn(front: string, es: seq<Entry>, i: nat, n: nat)
    requires Good(es) && i <= |es|
    ensures i < |es| ==>
            TurnAt(front + Ahead(es, i, n), |front|)
              == Turn(Variable(es[i].key, es[i].values[0]), Behind(front, es[i]) + Ahead(es, i + 1, n),
                      |Behind(front, es[i])|)
    ensures i == |es| && n > 0 ==> TurnAt(front + Ahead(es, i, n), |front|).found == Stop
    ensures i == |es| && n == 0 ==> (front + Ahead(es, i, n))[|front|] == '\0'
  {
    hide TurnAt;
    if i < |es| {
      var t := Ahead(es, i + 1, n);
      assert es[i..][0] == es[i] && es[i..][1..] == es[i + 1..];
      assert Ahead(es, i, n) == Line(es[i]) + t;
      LineTurn(front, es[i], t);
    } else {
      assert es[i..] == [] && Lines([]) == "";
      assert Ahead(es, i, n) == Fill(n) + "\0";
      if n > 0 {
        FillTurn(front, n);
      }
    }
  }

  lemma {:induction false} ReversePart(es: seq<Entry>, i: nat)
    requires Good(es) && i < |es|
    ensures Reverse(es[..i + 1]) == [es[i]] + Reverse(es[..i])
    ensures Without(Reverse(es[..i]), es[i].key) == Reverse(es[..i])
  {
    assert es[..i + 1] == es[..i] + [es[i]];
    ReverseSnoc(es[..i], es[i]);
    forall k | 0 <= k < |Reverse(es[..i])| ensures Reverse(es[..i])[k].key != es[i].key {
      ReverseElements(es[..i], Reverse(es[..i])[k]);
    }
    WithoutNothing(Reverse(es[..i]), es[i].key);
  }

  /** Where the loop stands: in front of the remark, or behind i variables. */
  ghost predicate Stage(buf: string, entry: nat, front: string, es: seq<Entry>, i: int, n: nat, entries: seq<Entry>) {
    if i < 0 then entry == 0 && buf == HEADER + Lines(es) + Fill(n) + "\0" && entries == []
    else Loaded(buf, entry, front, es, i, n, entries)
  }

  lemma Join(a: string, b: string, c: string, d: string)
    ensures a + b + c + d == a + (b + (c + d)) && a + b + c + d == "" + (a + b + c + d)
  {
  }

  lemma Remark(es: seq<Entry>, n: nat)
    ensures HEADER + Lines(es) + Fill(n) + "\0" == "" + ("#" + REMARK + "\n" + Ahead(es, 0, n))
    ensures Loaded(HEADER + Lines(es) + Fill(n) + "\0", |HEADER|, HEADER, es, 0, n, [])
  {
    assert es[0..] == es && es[..0] == [];
    Join(HEADER, Lines(es), Fill(n), "\0");
    Join("#", REMARK, "\n", Ahead(es, 0, n));
  }

  lemma HeaderTurn(es: seq<Entry>, n: nat)
    ensures var block := HEADER + Lines(es) + Fill(n) + "\0";
      && block != "" && block[0] != '\0'
      && TurnAt(block, 0) == Turn(Skip, block, |HEADER|)
  {
    hide TurnAt, Ahead, Lines, Fill;
    Remark(es, n);
    CommentTurn("", REMARK, Ahead(es, 0, n));
  }

  lemma StageTurn(buf: string, entry: nat, front: string, es: seq<Entry>, i: int, n: nat, entries: seq<Entry>)
    requires Good(es) && Stage(buf, entry, front, es, i, n, entries) && entry < |buf|
    ensures i < 0 ==>
            TurnAt(buf, entry).found == Skip && Stage(buf, |HEADER|, HEADER, es, 0, n, entries) &&
            TurnAt(buf, entry) == Turn(Skip, buf, |HEADER|)
    ensures 0 <= i < |es| ==> es[i].key != "" && TurnAt(buf, entry).found == Variable(es[i].key, es[i].values[0])
    ensures 0 <= i < |es| ==>
            Stage(TurnAt(buf, entry).buf, TurnAt(buf, entry).next, Behind(front, es[i]), es, i + 1, n,
                  [es[i]] + Without(entries, es[i].key))
    ensures 0 <= i < |es| ==> Entry(es[i].key, [es[i].values[0]]) == es[i]
    ensures i >= |es| && buf[entry] != '\0' ==> TurnAt(buf, entry).found == Stop
  {
    hide TurnAt, Behind, Ahead, Lines, Fill, Reverse, Without, Unique;
    if i < 0 {
      HeaderTurn(es, n);
      Remark(es, n);
    } else if i < |es| {
      AheadTurn(front, es, i, n);
      ReversePart(es, i);
      assert Clean(es[i]);
    } else {
      AheadTurn(front, es, i, n);
    }
  }

  lemma FirstChar(front: string, e: Entry, a: string, b: string)
    requires e.key != ""
    ensures |front| < |front + ((Line(e) + a) + b)| && (front + ((Line(e) + a) + b))[|front|] == e.key[0]
  {
  }

  /** The loop goes on until all variables are loaded. */
  lemma StageGoesOn(buf: string, entry: nat, front: string, es: seq<Entry>, i: int, n: nat, entries: seq<Entry>)
    requires Good(es) && Stage(buf, entry, front, es, i, n, entries)
    ensures i < |es| ==> entry < |buf| && buf[entry] != '\0'
    ensures i >= |es| ==> entries == Reverse(es)
  {
    if i < 0 {
      HeaderTurn(es, n);
    } else if i < |es| {
      assert es[i..][0] == es[i] && Clean(es[i]);
      FirstChar(front, es[i], Lines(es[i..][1..]), Fill(n) + "\0");
    } else {
      assert es[..i] == es;
    }
  }

  /** The loop over the lines of the block. */
  method Load(block: string, dict: Dictionary, ghost es: seq<Entry>, ghost n: nat)
    requires dict.entries == []
    modifies dict
    ensures dict.Valid()
    ensures Good(es) && block == HEADER + Lines(es) + Fill(n) + "\0" ==> dict.entries == Reverse(es)
  {
    ghost var good := Good(es) && block == HEADER + Lines(es) + Fill(n) + "\0";
    var buf := block;
    var entry: nat := 0;
    ghost var front, i := "", -1;
    assert good ==> Stage(buf, entry, front, es, i, n, dict.entries);
    hide TurnAt, Good, Stage, Without;
    while entry < |buf| && buf[entry] != '\0'
      invariant entry <= |buf| && dict.Valid()
      invariant good ==> Stage(buf, entry, front, es, i, n, dict.entries)
      decreases |buf| - entry
    {
      if good {
        StageTurn(buf, entry, front, es, i, n, dict.entries);
        StageGoesOn(buf, entry, front, es, i, n, dict.entries);
      }
      var r := TakeTurn(buf, entry);
      if r.found.Stop? {
        break;
      }
      if r.found.Variable? && r.found.key != "" {
        dict.SetValue(r.found.key, r.found.value);
      }
      if good {
        front, i := if i < 0 then HEADER else Behind(front, es[i]), i + 1;
      }
      buf, entry := r.buf, r.next;
    }
    if good {
      StageGoesOn(buf, entry, front, es, i, n, dict.entries);
    }
  }

  // ----- Writing -----

  /** The length of the formatted variables and the remark. */
  method UpdateSize(dict: Dictionary) returns (size: nat)
    requires dict.Valid()
    ensures size == Size(dict.entries)
  {
    size := 0;
    var es := dict.entries;
    assert es[..0] == [];
    for i := 0 to |es|
      invariant size == |Lines(es[..i])|
    {
      LinesSnoc(es[..i], es[i]);
      assert es[..i + 1] == es[..i] + [es[i]];
      size := size + |es[i].key| + |es[i].values[0]| + 2;
    }
    assert es[..|es|] == es;
    size := size + |HEADER|;
  }

  lemma {:induction false} LinesPart(es: seq<Entry>, i: nat)
    requires i < |es|
    ensures Lines(es[..i + 1]) == Lines(es[..i]) + Line(es[i]) && |Lines(es[..i + 1])| <= |Lines(es)|
    decreases |es| - i
  {
    assert es[..i + 1] == es[..i] + [es[i]];
    LinesSnoc(es[..i], es[i]);
    if i + 1 < |es| {
      LinesPart(es, i + 1);
    } else {
      assert es[..i + 1] == es;
    }
  }

  /** strncpy and strncat: a text behind what the buffer holds, and a terminator. */
  method Append(buf: array<char>, at: nat, text: string) returns (reach: nat)
    requires at + |text| < buf.Length
    modifies buf
    ensures buf[..at + |text|] == old(buf[..at]) + text && buf[at + |text|] == '\0' && reach == at + |text| + 1
  {
    forall i | 0 <= i < |text| {
      buf[at + i] := text[i];
    }
    buf[at + |text|] := '\0';
    reach := at + |text| + 1;
  }

  /** The remark and the lines, with a terminator. */
  method WriteLines(buf: array<char>, es: seq<Entry>) returns (n: nat, reach: nat)
    requires (forall i :: 0 <= i < |es| ==> es[i].values != []) && Size(es) < buf.Length
    modifies buf
    ensures n == Size(es) && buf[..n] == HEADER + Lines(es) && reach == n + 1
  {
    hide HEADER, Line;
    n := |HEADER|;
    reach := Append(buf, 0, HEADER);
    assert es[..0] == [] && HEADER + "" == HEADER && buf[..n] == HEADER;
    for i := 0 to |es|
      invariant n == |HEADER| + |Lines(es[..i])| <= Size(es) && buf[..n] == HEADER + Lines(es[..i]) && reach == n + 1
    {
      LinesPart(es, i);
      LineIs(es[i]);
      hide Lines;
      var line := es[i].key + "=" + es[i].values[0] + "\n";
      reach := Append(buf, n, line);
      n := n + |line|;
      assert (HEADER + Lines(es[..i])) + line == HEADER + (Lines(es[..i]) + line);
    }
    assert es[..|es|] == es;
  }

  lemma LineIs(e: Entry)
    requires e.values != []
    ensures Line(e) == e.key + "=" + e.values[0] + "\n"
  {
  }

  /** memset: number signs up to the size of the block. */
  method FillUp(buf: array<char>, n: nat)
    requires n <= GRUBENV_SIZE < buf.Length
    modifies buf
    ensures buf[..GRUBENV_SIZE] == old(buf[..n]) + Fill(GRUBENV_SIZE - n)
    ensures buf[GRUBENV_SIZE..] == old(buf[GRUBENV_SIZE..])
  {
    forall i | n <= i < GRUBENV_SIZE {
      buf[i] := '#';
    }
  }

  /** The block of a dictionary, unless it is too long.  It is put together in a buffer
      of its size, which is shown with one more byte: reach tells how many bytes are
      written to. */
  method MakeBlock(dict: Dictionary) returns (ret: int, block: string, reach: nat)
    requires dict.Valid()
    ensures ret == (if Size(dict.entries) <= 1024 then 0 else -1)
    ensures ret == 0 ==> block == Format(dict.entries)
    ensures ret == 0 ==> reach == if Size(dict.entries) == 1024 then 1025 else 1024
  {
    block, reach := "", 0;
    var size := UpdateSize(dict);
    if size > GRUBENV_SIZE {
      return -1, block, reach;
    }
    hide Lines, Fill;
    var buf := new char[GRUBENV_SIZE + 1];
    var n;
    n, reach := WriteLines(buf, dict.entries);
    FillUp(buf, size);
    reach := if reach < GRUBENV_SIZE then GRUBENV_SIZE else reach;
    block := buf[..GRUBENV_SIZE];
    ret := 0;
  }

  // ----- The file -----

  class Environment {
    var file: string

    constructor (file: string)
      ensures this.file == file
    {
      this.file := file;
    }

    /** The file holds these variables, in this order. */
    ghost predicate Holds(es: seq<Entry>)
      reads this
    {
      Good(es) && Size(es) <= 1024 && file == Format(es)
    }

    /** Loads the variables; they come out in reverse. */
    method Open(ghost es: seq<Entry>) returns (ret: int, dict: Dictionary)
      ensures fresh(dict) && dict.Valid()
      ensures ret == if |file| == 1024 && file[..24] == "# GRUB Environment Block" then 0 else -1
      ensures Holds(es) ==> ret == 0 && dict.entries == Reverse(es) && Good(dict.entries) && dict.View() == ToMap(es)
    {
      HeaderIs();
      hide HEADER;
      dict := new Dictionary();
      if |file| != GRUBENV_SIZE || file[..|HEADER| - 1] != HEADER[..|HEADER| - 1] {
        if Holds(es) {
          Prefix(es);
        }
        return -1, dict;
      }
      if Holds(es) {
        ReverseMap(es);
      }
      ghost var n := if Size(es) <= GRUBENV_SIZE then GRUBENV_SIZE - Size(es) else 0;
      hide Good, Unique, Reverse, Lines;
      Load(file + "\0", dict, es, n);
      ret := 0;
    }

    /** Replaces the file, unless the variables do not fit. */
    method Write(dict: Dictionary) returns (ret: int)
      requires dict.Valid()
      modifies this
      ensures ret == (if Size(dict.entries) <= 1024 then 0 else -1)
      ensures ret == 0 ==> file == Format(dict.entries)
      ensures ret != 0 ==> file == old(file)
    {
      var block, reach;
      ret, block, reach := MakeBlock(dict);
      if ret == 0 {
        file := block;
      }
    }

    /** Setting a variable sets it in the map the file stands for, and nothing else;
        if there is no room the file stays as it is. */
    method Set(name: string, value: string, ghost es: seq<Entry>) returns (ret: int, ghost after: seq<Entry>)
      requires Holds(es) && Clean(Entry(name, [value]))
      modifies this
      ensures ToMap(after) == ToMap(es)[name := [value]]
      ensures ret == 0 <==> Size(after) <= 1024
      ensures if ret == 0 then Holds(after) else file == old(file)
    {
      var dict;
      ret, dict := Open(es);
      SetGood(dict.entries, Entry(name, [value]));
      hide Good, Unique, Clean, Size;
      dict.SetValue(name, value);
      after := dict.entries;
      ret := Write(dict);
    }

    /** Removing a variable removes it from the map; the others always fit. */
    method Unset(name: string, ghost es: seq<Entry>) returns (ret: int, ghost after: seq<Entry>)
      requires Holds(es)
      modifies this
      ensures ToMap(after) == ToMap(es) - {name} && ret == 0 && Holds(after)
    {
      var dict;
      ret, dict := Open(es);
      WithoutGood(dict.entries, name);
      ReverseSize(es);
      WithoutSize(dict.entries, name);
      hide Good, Unique, Clean, Size;
      dict.Remove(name);
      after := dict.entries;
      ret := Write(dict);
    }

    method Get(name: string, ghost es: seq<Entry>) returns (value: Option<string>)
      requires Holds(es)
      ensures value == if name in ToMap(es) && ToMap(es)[name] != [] then Some(ToMap(es)[name][0]) else None
    {
      var ret, dict := Open(es);
      hide Good, Unique, Clean;
      value := dict.GetValue(name);
    }

    /** Applying a printed script overrides exactly the variables to which it gives
        a value. */
    method ApplyList(script: string, ghost es: seq<Entry>, ghost ds: seq<Entry>)
      returns (ret: int, ghost after: seq<Entry>)
      requires Holds(es) && Good(ds) && Printed(ds) && script == Lines(ds)
      modifies this
      ensures ToMap(after) == Override(ToMap(es), ds)
      ensures ret == 0 <==> Size(after) <= 1024
      ensures if ret == 0 then Holds(after) else file == old(file)
    {
      var dict;
      ret, dict := Open(es);
      hide Good, Unique, Clean, Size, Override, Printed;
      ParseScript(dict, script, ds);
      after := dict.entries;
      ret := Write(dict);
    }
  }

  lemma Prefix(es: seq<Entry>)
    requires Size(es) <= 1024
    ensures Format(es)[..|HEADER| - 1] == HEADER[..|HEADER| - 1]
  {
  }

  // ----- Scripts -----

  const MAX_LINE: nat := 1024

  function Cut(line: string): string { if |line| < MAX_LINE then line else line[..MAX_LINE - 1] }

  /** Lines of which at most 1023 characters are kept. */
  function Clipped(es: seq<Entry>): string {
    if es == [] then "" else (if |Line(es[0])| > 1023 then Line(es[0])[..1023] else Line(es[0])) + Clipped(es[1..])
  }

  ghost predicate Fits(es: seq<Entry>) { forall i :: 0 <= i < |es| ==> |Line(es[i])| < 1024 }

  lemma {:induction false} ClippedSnoc(es: seq<Entry>, e: Entry)
    ensures Clipped(es + [e]) == Clipped(es) + Cut(Line(e))
  {
    hide Line;
    if es == [] {
      assert es + [e] == [e] && [e][1..] == [] && Clipped([e]) == Cut(Line(e)) + Clipped([]);
    } else {
      ClippedSnoc(es[1..], e);
      assert (es + [e])[1..] == es[1..] + [e];
    }
  }

  lemma {:induction false} ClippedFits(es: seq<Entry>)
    requires Fits(es)
    ensures Clipped(es) == Lines(es)
  {
    if es != [] {
      ClippedFits(es[1..]);
    }
  }

  /** A line per variable, each within the buffer it is formatted in. */
  method PrepareVarScript(dict: Dictionary) returns (script: string)
    requires dict.Valid()
    ensures script == Clipped(dict.entries)
    ensures Fits(dict.entries) ==> script == Lines(dict.entries)
  {
    script := "";
    var es := dict.entries;
    assert es[..0] == [];
    for i := 0 to |es|
      invariant script == Clipped(es[..i])
    {
      ClippedSnoc(es[..i], es[i]);
      assert es[..i + 1] == es[..i] + [es[i]];
      script := script + Cut(es[i].key + "=" + es[i].values[0] + "\n");
    }
    assert es[..|es|] == es;
    if Fits(es) {
      ClippedFits(es);
    }
  }

  /** Values that the reader of the script does not cut. */
  ghost predicate Printed(ds: seq<Entry>) { forall i :: 0 <= i < |ds| ==> '\t' !in Value(ds[i]) }

  /** The part of s before the first of two characters. */
  function Before(s: string, c: char, d: char): (n: nat)
    ensures n <= |s|
  {
    if s == "" || s[0] == c || s[0] == d then 0 else 1 + Before(s[1..], c, d)
  }

  /** strtok: skips separators, takes up to the next, and goes on behind it. */
  function Leading(s: string, c: char, d: char): (n: nat)
    ensures n <= |s|
  {
    if s != "" && (s[0] == c || s[0] == d) then 1 + Leading(s[1..], c, d) else 0
  }

  function Token(s: string, c: char, d: char): (Option<string>, string) {
    var t := s[Leading(s, c, d)..];
    var n := Before(t, c, d);
    if t == "" then (None, "") else (Some(t[..n]), if n < |t| then t[n + 1..] else "")
  }

  lemma {:induction false} BeforeThere(a: string, x: char, t: string, c: char, d: char)
    requires c !in a && d !in a && (x == c || x == d)
    ensures Before(a + [x] + t, c, d) == |a|
  {
    if a != "" {
      BeforeThere(a[1..], x, t, c, d);
      assert (a + [x] + t)[1..] == a[1..] + [x] + t;
    }
  }

  lemma TokenThere(a: string, x: char, t: string, c: char, d: char)
    requires a != "" && c !in a && d !in a && (x == c || x == d)
    ensures Token(a + [x] + t, c, d) == (Some(a), t)
  {
    var s := a + [x] + t;
    assert s[0] == a[0] && Leading(s, c, d) == 0 && s[0..] == s;
    BeforeThere(a, x, t, c, d);
    assert s[..|a|] == a && s[|a| + 1..] == t;
  }

  lemma LinePair(e: Entry)
    requires Clean(e) && '\t' !in e.values[0]
    ensures Token(Line(e), '=', '=') == (Some(e.key), e.values[0] + "\n")
    ensures Token(e.values[0] + "\n", '\t', '\n').0 == if e.values[0] == "" then None else Some(e.values[0])
  {
    var key, value := e.key, e.values[0];
    assert Line(e) == key + ['='] + (value + "\n");
    TokenThere(key, '=', value + "\n", '=', '=');
    if value != "" {
      assert value + "\n" == value + ['\n'] + "";
      TokenThere(value, '\n', "", '\t', '\n');
    }
  }

  function Override(m: map<string, seq<string>>, ds: seq<Entry>): map<string, seq<string>> {
    if ds == [] then m
    else
      var e, rest := ds[|ds| - 1], Override(m, ds[..|ds| - 1]);
      if Value(e) == "" then rest else rest[e.key := e.values]
  }

  /** Exactly the keys with a value change, each to that value. */
  lemma {:induction false} OverrideMeans(m: map<string, seq<string>>, ds: seq<Entry>, key: string)
    requires Unique(ds)
    ensures (forall i :: 0 <= i < |ds| && ds[i].key == key ==> Value(ds[i]) == "") ==>
      (key in Override(m, ds) <==> key in m) && (key in m ==> Override(m, ds)[key] == m[key])
    ensures forall i :: 0 <= i < |ds| && ds[i].key == key && Value(ds[i]) != "" ==>
            key in Override(m, ds) && Override(m, ds)[key] == ds[i].values
    decreases |ds|
  {
    if ds != [] {
      var init, last := ds[..|ds| - 1], ds[|ds| - 1];
      assert forall i :: 0 <= i < |init| ==> init[i] == ds[i];
      OverrideMeans(m, init, key);
    }
  }

  /** getline: up to and with the end of the line. */
  method GetLine(script: string, pos: nat) returns (line: string, next: nat)
    requires pos < |script|
    ensures pos < next <= |script| && line == script[pos..next]
    ensures next - pos
         == (if Before(script[pos..], '\n', '\n') < |script| - pos then Before(script[pos..], '\n', '\n') + 1
             else |script| - pos)
  {
    next := pos;
    while next < |script| && script[next] != '\n'
      invariant pos <= next <= |script|
      invariant Before(script[pos..], '\n', '\n') == next - pos + Before(script[next..], '\n', '\n')
    {
      assert script[next..][1..] == script[next + 1..];
      next := next + 1;
    }
    if next < |script| {
      next := next + 1;
    }
    line := script[pos..next];
  }

  lemma LineHere(e: Entry, t: string)
    requires Clean(e)
    ensures Before(Line(e) + t, '\n', '\n') == |Line(e)| - 1
  {
    var a := e.key + "=" + e.values[0];
    BeforeThere(a, '\n', t, '\n', '\n');
    assert Line(e) + t == a + ['\n'] + t;
  }

  /** i lines of the script are applied. */
  ghost predicate Applied(rest: string, ds: seq<Entry>, i: nat, m: map<string, seq<string>>, entries: seq<Entry>) {
    i <= |ds| && rest == Lines(ds[i..]) && Good(entries) && ToMap(entries) == Override(m, ds[..i])
  }

  lemma NextLine(rest: string, ds: seq<Entry>, i: nat, m: map<string, seq<string>>, entries: seq<Entry>)
    requires Good(ds) && Printed(ds) && Applied(rest, ds, i, m, entries) && rest != ""
    ensures i < |ds| && Clean(ds[i]) && '\t' !in ds[i].values[0] && Entry(ds[i].key, [ds[i].values[0]]) == ds[i]
    ensures rest == Line(ds[i]) + Lines(ds[i + 1..]) && Before(rest, '\n', '\n') == |Line(ds[i])| - 1
  {
    assert ds[|ds|..] == [];
    if i < |ds| {
      assert ds[i..][0] == ds[i] && ds[i..][1..] == ds[i + 1..];
      assert Clean(ds[i]) && Value(ds[i]) == ds[i].values[0];
      LineHere(ds[i], Lines(ds[i + 1..]));
    }
  }

  lemma LineApplied(rest: string, ds: seq<Entry>, i: nat, m: map<string, seq<string>>, entries: seq<Entry>)
    requires Applied(rest, ds, i, m, entries) && i < |ds| && Clean(ds[i])
    ensures var entries' := if ds[i].values[0] == "" then entries else [ds[i]] + Without(entries, ds[i].key);
      Applied(Lines(ds[i + 1..]), ds, i + 1, m, entries')
  {
    assert ds[..i + 1][..i] == ds[..i] && ds[..i + 1][i] == ds[i];
    if ds[i].values[0] != "" {
      SetGood(entries, ds[i]);
    }
  }

  method ParseScript(dict: Dictionary, script: string, ghost ds: seq<Entry>)
    requires dict.Valid()
    modifies dict
    ensures dict.Valid()
    ensures Good(ds) && Printed(ds) && script == Lines(ds) && Good(old(dict.entries)) ==>
      Good(dict.entries) && dict.View() == Override(old(dict.View()), ds)
  {
    ghost var good, m, i := Good(ds) && Printed(ds) && script == Lines(ds) && Good(dict.entries), dict.View(), 0;
    var pos := 0;
    assert ds[0..] == ds && ds[..0] == [] && ds[..|ds|] == ds && script[0..] == script;
    assert good ==> Applied(script[pos..], ds, i, m, dict.entries);
    hide Good, Unique, Clean, Applied, Printed, Lines, Override, Before, Leading, Token, Line, Without;
    while pos < |script|
      invariant pos <= |script| && dict.Valid()
      invariant good ==> Applied(script[pos..], ds, i, m, dict.entries)
    {
      if good {
        NextLine(script[pos..], ds, i, m, dict.entries);
        LineApplied(script[pos..], ds, i, m, dict.entries);
      }
      var line, next := GetLine(script, pos);
      if good {
        SameLine(script, pos, next, Line(ds[i]), Lines(ds[i + 1..]));
      }
      ApplyLine(dict, line, if good then ds[i] else Entry("", []));
      pos, i := next, i + 1;
    }
    if good {
      AllApplied(script[pos..], ds, i, m, dict.entries);
    }
  }

  /** One line of a script. */
  method ApplyLine(dict: Dictionary, line: string, ghost e: Entry)
    requires dict.Valid()
    modifies dict
    ensures dict.Valid()
    ensures Clean(e) && '\t' !in e.values[0] && line == Line(e) ==>
      dict.entries == if e.values[0] == "" then old(dict.entries)
        else [Entry(e.key, [e.values[0]])] + Without(old(dict.entries), e.key)
  {
    if Clean(e) && '\t' !in e.values[0] {
      LinePair(e);
    }
    hide Clean, Unique, Token, Line, Without;
    var key := Token(line, '=', '=');
    var value := Token(key.1, '\t', '\n');
    if value.0.Some? && key.0.Some? {
      dict.SetValue(key.0.value, value.0.value);
    }
  }

  lemma SameLine(script: string, pos: nat, next: nat, line: string, rest: string)
    requires pos <= next <= |script| && script[pos..] == line + rest && next - pos == |line|
    ensures script[pos..next] == line && script[next..] == rest
  {
    Cutting(script, pos, next);
  }

  lemma Cutting(script: string, pos: nat, next: nat)
    requires pos <= next <= |script|
    ensures script[pos..] == script[pos..next] + script[next..]
  {
  }

  lemma SomeLine(ds: seq<Entry>)
    ensures ds != [] ==> Lines(ds) != ""
  {
    if ds != [] {
      assert |Lines(ds)| >= |Line(ds[0])| >= 2;
    }
  }

  lemma AllApplied(rest: string, ds: seq<Entry>, i: nat, m: map<string, seq<string>>, entries: seq<Entry>)
    requires Applied(rest, ds, i, m, entries) && rest == ""
    ensures Good(entries) && ToMap(entries) == Override(m, ds)
  {
    SomeLine(ds[i..]);
    assert ds[..|ds|] == ds;
  }
}
