/** Semantic versions: parsing and rendering. */
module SemverText {
  import opened Strings
  import opened Semver
  import opened Wrappers

  const MAX_SIZE: nat := 255

  predicate ValidChar(c: char) {
    '0' <= c <= '9' || 'a' <= c <= 'z' || 'A' <= c <= 'Z' || c == '.' || c == '-' || c == '+'
  }

  ghost predicate ValidChars(s: string) { forall i :: 0 <= i < |s| ==> ValidChar(s[i]) }

  method IsValid(s: string) returns (b: bool)
    ensures b <==> |s| <= MAX_SIZE && ValidChars(s)
  {
    if |s| > MAX_SIZE {
      return false;
    }
    for i := 0 to |s|
      invariant forall j :: 0 <= j < i ==> ValidChar(s[j])
    {
      if !ValidChar(s[i]) {
        return false;
      }
    }
    b := true;
  }

  /** What comes before the first separator and, if there is one, after it. */
  function Cut(s: string, sep: char): (string, Option<string>) {
    var k := IndexOf(s, sep);
    if k == |s| then (s, None) else (s[..k], Some(s[k + 1..]))
  }

  /** The slice behind the separator; the buffer ends where the separator was. */
  method ParseSlice(buf: string, sep: char) returns (part: Option<string>, left: string)
    ensures (left, part) == Cut(buf, sep)
  {
    assert buf[0..] == buf;
    var k := Find(buf, sep, 0);
    if k == |buf| {
      return None, buf;
    }
    part, left := Some(buf[k + 1..]), buf[..k];
  }

  // ----- The three numbers -----

  /** Of up to four parts each must be a number, or empty; three are kept, and
      those that are missing are zero. */
  predicate Numbers(parts: seq<string>, n: nat) { forall i :: 0 <= i < |parts| && i < n ==> IsNumber(parts[i]) }

  function Field(parts: seq<string>, i: nat): int { if i < |parts| then Number(parts[i]) else 0 }

  function Fields(str: string): (int, int, int) {
    var parts := Split(str, '.');
    (Field(parts, 0), Field(parts, 1), Field(parts, 2))
  }

  function FieldsUpTo(parts: seq<string>, n: nat): (int, int, int) {
    (if n > 0 then Field(parts, 0) else 0, if n > 1 then Field(parts, 1) else 0, if n > 2 then Field(parts, 2) else 0)
  }

  /** Stores the value of the slice with this number; the fourth is not kept. */
  function Store(f: (int, int, int), index: nat, value: int): (int, int, int) {
    match index
    case 1 => (value, f.1, f.2)
    case 2 => (f.0, value, f.2)
    case 3 => (f.0, f.1, value)
    case _ => f
  }

  lemma StoreNext(parts: seq<string>, n: nat)
    requires n < |parts|
    ensures Store(FieldsUpTo(parts, n), n + 1, Number(parts[n])) == FieldsUpTo(parts, n + 1)
    ensures Numbers(parts, n + 1) <==> Numbers(parts, n) && IsNumber(parts[n])
    ensures n < 4 && !IsNumber(parts[n]) ==> !Numbers(parts, 4)
  {
    hide IsNumber, Number;
  }

  lemma AllStored(parts: seq<string>, n: nat)
    requires n == |parts| || n >= 4
    ensures FieldsUpTo(parts, n) == (Field(parts, 0), Field(parts, 1), Field(parts, 2))
    ensures n <= 4 ==> (Numbers(parts, n) <==> Numbers(parts, 4))
  {
    hide IsNumber, Number;
  }

  /** One slice, where it lies. */
  method ReadSlice(str: string, slice: nat) returns (next: nat, number: bool, value: int)
    requires slice <= |str|
    ensures slice <= next <= |str|
    ensures var parts := Split(str[slice..], '.');
      && number == IsNumber(parts[0]) && (number ==> value == Number(parts[0]))
      && parts[1..] == if next == |str| then [] else Split(str[next + 1..], '.')
  {
    hide Split, Strtol, IndexOf;
    next := Find(str, '.', slice);
    SplitHere(str, slice, next);
    assert next < |str| ==> str[next] == '.' by { At(str, slice, next); }
    InPlace(str, slice, next - slice);
    var read := Strtol(str[slice..]);
    value, number := ToInt(read.0), slice + read.1 == next;
  }

  lemma At(str: string, slice: nat, next: nat)
    requires slice <= next <= |str| && next - slice == IndexOf(str[slice..], '.')
    ensures next < |str| ==> str[next] == '.'
  {
  }

  /** index slices are read; more are to come if there is another separator. */
  ghost predicate Reading(str: string, parts: seq<string>, slice: nat, index: nat, more: bool, f: (int, int, int)) {
    && index <= |parts| && index <= 4 && Numbers(parts, index) && f == FieldsUpTo(parts, index)
    && (if more then slice <= |str| && parts[index..] == Split(str[slice..], '.') else index == |parts|)
  }

  lemma ReadingStarts(str: string)
    ensures Reading(str, Split(str, '.'), 0, 0, true, (0, 0, 0))
  {
    assert str[0..] == str && Split(str, '.')[0..] == Split(str, '.');
  }

  lemma ReadingOn(str: string, parts: seq<string>, slice: nat, index: nat, f: (int, int, int), next: nat, number: bool,
                  value: int)
    requires Reading(str, parts, slice, index, true, f) && index < 4 && slice <= next <= |str|
    requires var here := Split(str[slice..], '.');
      && number == IsNumber(here[0]) && (number ==> value == Number(here[0]))
      && here[1..] == if next == |str| then [] else Split(str[next + 1..], '.')
    ensures number ==> Reading(str, parts, next + 1, index + 1, next < |str|, Store(f, index + 1, value))
    ensures !number ==> !Numbers(parts, 4)
  {
    hide Split, IsNumber, Number, Store, Numbers, FieldsUpTo, Field;
    assert parts[index..][0] == parts[index] && parts[index..][1..] == parts[index + 1..];
    StoreNext(parts, index);
  }

  lemma ReadingEnds(str: string, parts: seq<string>, slice: nat, index: nat, more: bool, f: (int, int, int))
    requires Reading(str, parts, slice, index, more, f) && (more ==> index == 4) && parts == Split(str, '.')
    ensures Numbers(parts, 4) && f == Fields(str)
  {
    hide Split, IsNumber, Number, Numbers, FieldsUpTo, Field;
    AllStored(parts, index);
  }

  method ParseVersion(str: string) returns (ok: bool, f: (int, int, int))
    ensures ok <==> Numbers(Split(str, '.'), 4)
    ensures ok ==> f == Fields(str)
  {
    ghost var parts := Split(str, '.');
    hide *;
    var slice, index, more := 0, 0, true;
    f := (0, 0, 0);
    ReadingStarts(str);
    while more && index < 4
      invariant index <= 4 && (more ==> slice <= |str|)
      invariant Reading(str, parts, slice, index, more, f)
      decreases 4 - index
    {
      var next, number, value := ReadSlice(str, slice);
      ReadingOn(str, parts, slice, index, f, next, number, value);
      index := index + 1;
      if !number {
        return false, f;
      }
      f := Store(f, index, value);
      more := next < |str|;
      slice := next + 1;
    }
    ReadingEnds(str, parts, slice, index, more, f);
    ok := true;
  }

  // ----- Parsing and rendering -----

  function Assemble(f: (int, int, int), pre: Option<string>, meta: Option<string>): Version {
    Version(f.0, f.1, f.2, pre, meta)
  }

  ghost function Parse(s: string): Option<Version> {
    if |s| > MAX_SIZE || !ValidChars(s) then None
    else
      var meta := Cut(s, '+');
      var pre := Cut(meta.0, '-');
      if Numbers(Split(pre.0, '.'), 4) then Some(Assemble(Fields(pre.0), pre.1, meta.1)) else None
  }

  method SemverParse(str: string) returns (r: Option<Version>)
    ensures r == Parse(str)
  {
    hide Cut, Numbers, Fields;
    var valid := IsValid(str);
    if !valid {
      return None;
    }
    var metadata, prerelease, buf;
    metadata, buf := ParseSlice(str, '+');
    prerelease, buf := ParseSlice(buf, '-');
    var ok, f := ParseVersion(buf);
    if !ok {
      return None;
    }
    r := Some(Assemble(f, prerelease, metadata));
  }

  function Core(v: Version): string { PrintInt(v.major) + "." + (PrintInt(v.minor) + "." + PrintInt(v.patch)) }

  function Tail(sep: char, part: Option<string>): string { if part.None? then "" else [sep] + part.value }

  function Render(v: Version): string { Core(v) + Tail('-', v.prerelease) + Tail('+', v.metadata) }
}
