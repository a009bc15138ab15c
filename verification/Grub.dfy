/** The boot environment in a file. */
module Grub {
  import opened Bytes
  import opened Dict
  import opened GrubSpec

  // ----- Reading the block -----

  /** strchr: the first c before the end of the string, or that end. */
  function Chr(buf: string, c: char, from: nat): (k: nat)
    requires from <= |buf|
    ensures from <= k <= |buf|
    decreases |buf| - from
  {
    if from == |buf| || buf[from] == c || buf[from] == '\0' then from else Chr(buf, c, from + 1)
  }

  method StrChr(buf: string, c: char, from: nat) returns (k: nat)
    requires from <= |buf|
    ensures k == Chr(buf, c, from)
  {
    k := from;
    while k < |buf| && buf[k] != c && buf[k] != '\0'
      invariant from <= k <= |buf| && Chr(buf, c, k) == Chr(buf, c, from)
    {
      k := k + 1;
    }
  }

  /** Past text that holds neither c nor the end of the string. */
  lemma {:induction false} ChrPast(front: string, a: string, x: char, t: string, c: char)
    requires c !in a && '\0' !in a && (x == c || x == '\0')
    ensures Chr(front + (a + [x] + t), c, |front|) == |front| + |a|
    ensures (front + (a + [x] + t))[|front| + |a|] == x
    decreases |a|
  {
    var buf := front + (a + [x] + t);
    if a != "" {
      assert buf == (front + [a[0]]) + (a[1..] + [x] + t);
      ChrPast(front + [a[0]], a[1..], x, t, c);
      assert buf[|front|] == a[0];
    }
  }

  datatype Found = Stop | Skip | Variable(key: string, value: string)

  datatype Turn = Turn(found: Found, buf: string, next: nat)

  /** One turn of the loop over the lines.  The separators become NULs in place. */
  function TurnAt(buf: string, entry: nat): (r: Turn)
    requires entry < |buf|
    ensures |r.buf| == |buf| && r.next <= |buf| && (!r.found.Stop? ==> r.next > entry)
  {
    var newline := Chr(buf, '\n', entry);
    if newline == |buf| || buf[newline] != '\n' then Turn(Stop, buf, entry)
    else if buf[entry] == '#' then Turn(Skip, buf, newline + 1)
    else
      var equals := Chr(buf, '=', entry);
      if equals == |buf| || buf[equals] != '=' then Turn(Skip, buf, newline + 1)
      else
        var torn := buf[equals := '\0'][newline := '\0'];
        Turn(Variable(CString(torn[entry..], '\0'), CString(torn[equals + 1..], '\0')), torn, newline + 1)
  }

  method TakeTurn(buf: string, entry: nat) returns (r: Turn)
    requires entry < |buf|
    ensures r == TurnAt(buf, entry)
    ensures r.next <= |r.buf| == |buf| && (!r.found.Stop? ==> r.next > entry)
  {
    hide Chr, CString;
    var newline := StrChr(buf, '\n', entry);
    if newline == |buf| || buf[newline] != '\n' {
      return Turn(Stop, buf, entry);
    }
    if buf[entry] == '#' {
      return Turn(Skip, buf, newline + 1);
    }
    var equals := StrChr(buf, '=', entry);
    if equals == |buf| || buf[equals] != '=' {
      return Turn(Skip, buf, newline + 1);
    }
    var torn := buf[equals := '\0'][newline := '\0'];
    r := Turn(Variable(CString(torn[entry..], '\0'), CString(torn[equals + 1..], '\0')), torn, newline + 1);
  }

  lemma Overwrite(a: string, x: char, b: string, y: char)
    ensures (a + [x] + b)[|a| := y] == a + [y] + b
  {
  }

  lemma Four(front: string, key: string, value: string, t: string, x: char, y: char)
    ensures front + (key + [x] + value + [y] + t) == (front + key) + [x] + (value + [y] + t)
    ensures front + (key + [x] + value + [y] + t) == (front + key + [x] + value) + [y] + t
  {
  }

  lemma Tear(front: string, key: string, value: string, t: string)
    ensures var buf := front + (key + "=" + value + "\n" + t);
      var equals, newline := |front| + |key|, |front| + |key| + 1 + |value|;
      newline < |buf| && buf[equals := '\0'][newline := '\0'] == front + (key + "\0" + value + "\0" + t)
  {
    Four(front, key, value, t, '=', '\n');
    Overwrite(front + key, '=', value + "\n" + t, '\0');
    Four(front, key, value, t, '\0', '\n');
    Overwrite(front + key + "\0" + value, '\n', t, '\0');
    Four(front, key, value, t, '\0', '\0');
  }

  lemma Pieces(front: string, key: string, value: string, t: string)
    requires '\0' !in key && '\0' !in value
    ensures var torn := front + (key + "\0" + value + "\0" + t);
      CString(torn[|front|..], '\0') == key && CString(torn[|front| + |key| + 1..], '\0') == value
  {
    hide CString;
    var torn := front + (key + "\0" + value + "\0" + t);
    assert torn[|front|..] == key + "\0" + (value + "\0" + t);
    CStringOf(key, '\0', value + "\0" + t);
    assert torn[|front| + |key| + 1..] == value + "\0" + t;
    CStringOf(value, '\0', t);
  }

  lemma KeyTurn(front: string, key: string, value: string, t: string)
    requires key != "" && key[0] != '#' && '=' !in key && '\n' !in key && '\0' !in key && '\n' !in value &&
             '\0' !in value
    ensures TurnAt(front + (key + "=" + value + "\n" + t), |front|)
         == Turn(Variable(key, value), front + (key + "\0" + value + "\0" + t), |front| + |key| + 1 + |value| + 1)
  {
    hide Chr, CString;
    var buf := front + (key + "=" + value + "\n" + t);
    assert buf[|front|] == key[0];
    ChrPast(front, key, '=', value + "\n" + t, '=');
    ChrPast(front, key + "=" + value, '\n', t, '\n');
    assert key + "=" + (value + "\n" + t) == key + "=" + value + "\n" + t;
    Tear(front, key, value, t);
    Pieces(front, key, value, t);
  }

  /** What is in front of the rest of the block once the line is read. */
  function Behind(front: string, e: Entry): string { front + (e.key + "\0" + Value(e) + "\0") }

  /** The line of a variable falls into its key and its value. */
  lemma LineTurn(front: string, e: Entry, t: string)
    requires Clean(e)
    ensures |Behind(front, e)| == |front| + |Line(e)|
    ensures TurnAt(front + (Line(e) + t), |front|)
         == Turn(Variable(e.key, e.values[0]), Behind(front, e) + t, |Behind(front, e)|)
  {
    hide TurnAt;
    var key, value := e.key, e.values[0];
    KeyTurn(front, key, value, t);
    assert front + (key + "\0" + value + "\0" + t) == Behind(front, e) + t;
  }

  lemma CommentTurn(front: string, a: string, t: string)
    requires '\n' !in a && '\0' !in a
    ensures TurnAt(front + ("#" + a + "\n" + t), |front|) == Turn(Skip, front + ("#" + a + "\n" + t), |front| + |a| + 2)
  {
    var buf := front + ("#" + a + "\n" + t);
    ChrPast(front, "#" + a, '\n', t, '\n');
    assert buf[|front|] == '#';
  }

  lemma FillTurn(front: string, n: nat)
    requires n > 0
    ensures TurnAt(front + (Fill(n) + "\0"), |front|).found == Stop
  {
    var buf := front + (Fill(n) + "\0");
    ChrPast(front, Fill(n), '\0', "", '\n');
    assert Fill(n) + "\0" + "" == Fill(n) + "\0";
  }
}
