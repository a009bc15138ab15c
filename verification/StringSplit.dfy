/** string_split: the tokens of a string, in an array counted beforehand. */
module StringSplit {
  import opened Strings

  function NonEmpty(parts: seq<string>): seq<string> {
    if parts == [] then [] else (if parts[0] == "" then [] else [parts[0]]) + NonEmpty(parts[1..])
  }

  /** The parts between separators that are not empty. */
  function Tokens(s: string, d: char): seq<string> { NonEmpty(Split(s, d)) }

  function Count(s: string, d: char): nat {
    if s == "" then 0 else (if s[0] == d then 1 else 0) + Count(s[1..], d)
  }

  /** The separators, one more for a token behind the last of them, and one for the
      end mark. */
  function Slots(s: string, d: char): nat {
    Count(s, d) + (if s != "" && s[|s| - 1] == d then 0 else 1) + 1
  }

  lemma {:induction false} CountSkip(s: string, d: char, k: nat)
    requires k <= |s| && d !in s[..k]
    ensures Count(s[k..], d) == Count(s, d)
  {
    if k > 0 {
      assert s[..k][0] == s[0];
      assert s[1..][..k - 1] == s[1..k] && s[1..][k - 1..] == s[k..];
      CountSkip(s[1..], d, k - 1);
    } else {
      assert s[0..] == s;
    }
  }

  /** There is always room for the tokens and the end mark. */
  lemma {:induction false} TokensFit(s: string, d: char)
    ensures |Tokens(s, d)| < Slots(s, d)
    decreases |s|
  {
    var k := IndexOf(s, d);
    CountSkip(s, d, k);
    if k == |s| {
      assert s[k..] == "";
      assert NonEmpty([s]) == (if s == "" then [] else [s]) + NonEmpty([]);
    } else {
      var rest := s[k + 1..];
      assert s[k..][1..] == rest;
      TokensFit(rest, d);
      assert Split(s, d)[0] == s[..k] && Split(s, d)[1..] == Split(rest, d);
      if rest == "" {
        SplitEmpty(d);
        assert s[|s| - 1] == d;
      } else {
        assert rest[|rest| - 1] == s[|s| - 1];
      }
    }
  }

  lemma SplitEmpty(d: char)
    ensures Tokens("", d) == []
  {
    assert Split("", d) == [""];
    assert [""][1..] == [];
  }

  // ----- The loops -----

  /** How many elements to make room for. */
  method CountElements(s: string, d: char) returns (count: nat)
    ensures count == Slots(s, d)
  {
    count := 0;
    var last := -1;
    var i := 0;
    assert s[0..] == s;
    while i < |s|
      invariant i <= |s| && count + Count(s[i..], d) == Count(s, d)
      invariant last < i && (last >= 0 ==> s[last] == d) && (i > 0 && s[i - 1] == d ==> last == i - 1)
    {
      assert s[i..][1..] == s[i + 1..];
      if s[i] == d {
        count, last := count + 1, i;
      }
      i := i + 1;
    }
    if last == -1 || last < |s| - 1 {
      count := count + 1;
    }
    count := count + 1;
  }

  /** strtok: skips separators, then takes up to the next one. */
  method NextToken(s: string, d: char, from: nat) returns (found: bool, start: nat, end: nat)
    requires from <= |s|
    ensures from <= start <= end <= |s|
    ensures !found ==> Tokens(s[from..], d) == []
    ensures found ==>
            start < end && Tokens(s[from..], d) == [s[start..end]] + Tokens(if end < |s| then s[end + 1..] else "", d)
  {
    start := from;
    hide Tokens, IndexOf;
    while start < |s| && s[start] == d
      invariant from <= start <= |s| && Tokens(s[from..], d) == Tokens(s[start..], d)
    {
      SkipSeparator(s[start..], d);
      assert s[start..][1..] == s[start + 1..];
      start := start + 1;
    }
    end := Find(s, d, start);
    found := start < |s|;
    if found {
      FirstToken(s, d, start, end);
    } else {
      SplitEmpty(d);
    }
  }

  lemma SkipSeparator(s: string, d: char)
    requires s != "" && s[0] == d
    ensures Tokens(s, d) == Tokens(s[1..], d)
  {
    assert IndexOf(s, d) == 0;
    assert s[..0] == "";
    assert Split(s, d)[1..] == Split(s[1..], d);
  }

  lemma FirstToken(s: string, d: char, start: nat, end: nat)
    requires start < |s| && s[start] != d && start <= end <= |s| && end - start == IndexOf(s[start..], d)
    ensures start < end && Tokens(s[start..], d) == [s[start..end]] + Tokens(if end < |s| then s[end + 1..] else "", d)
  {
    var rest := s[start..];
    var k := end - start;
    assert rest[..k] == s[start..end];
    var parts := Split(rest, d);
    if k < |rest| {
      assert rest[k + 1..] == s[end + 1..];
      assert parts[1..] == Split(s[end + 1..], d);
    } else {
      SplitEmpty(d);
      assert rest[..k] == rest;
      assert parts == [s[start..end]] && parts[1..] == [];
      assert NonEmpty(parts) == [s[start..end]] + NonEmpty([]);
    }
  }

  /** Where the next token is looked for, if anywhere. */
  function Ahead(s: string, d: char, from: nat, more: bool): seq<string> {
    if more && from <= |s| then Tokens(s[from..], d) else []
  }

  method Step(s: string, d: char, from: nat) returns (more: bool, token: string, next: nat)
    requires from <= |s|
    ensures from <= next <= |s|
    ensures more ==> from < next && Ahead(s, d, from, true) == [token] + Ahead(s, d, next, true)
    ensures !more ==> Ahead(s, d, from, true) == []
  {
    hide Split, NonEmpty, IndexOf;
    var start, end;
    more, start, end := NextToken(s, d, from);
    token, next := s[start..end], if end < |s| then end + 1 else end;
    assert s[|s|..] == "";
  }

  method Put(result: array<string>, n: nat, token: string)
    requires n < result.Length
    modifies result
    ensures result[..n + 1] == old(result[..n]) + [token]
  {
    result[n] := token;
  }

  lemma Onward(all: seq<string>, done: seq<string>, token: string, ahead: seq<string>, rest: seq<string>)
    requires all == done + ahead && ahead == [token] + rest
    ensures all == done + [token] + rest && |done| + 1 <= |all|
  {
  }

  /** The tokens lie in an array that has just been counted; the place behind them
      is there for the end mark. */
  method Run(s: string, d: char) returns (result: array<string>, n: nat)
    ensures fresh(result) && n < result.Length
    ensures result[..n] == Tokens(s, d)
  {
    var count := CountElements(s, d);
    result := new string[count](_ => "");
    n := 0;
    var from, more, token := 0, true, "";
    ghost var all, ahead := Tokens(s, d), Tokens(s, d);
    assert s[0..] == s && all == [] + ahead;
    TokensFit(s, d);
    hide Tokens, Slots;
    while more
      invariant from <= |s| && n <= |all| < result.Length
      invariant all == result[..n] + ahead
      invariant if more then ahead == Ahead(s, d, from, true) else ahead == []
      decreases |s| - from, more
    {
      more, token, from := Step(s, d, from);
      if more {
        Onward(all, result[..n], token, ahead, Ahead(s, d, from, true));
        ahead := Ahead(s, d, from, true);
        Put(result, n, token);
        n := n + 1;
      }
    }
  }
}
