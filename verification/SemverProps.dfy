/** How the comparison of identifiers relates to section 11 of Semantic Versioning
    2.0.0. */
module SemverProps {
  import opened Strings
  import opened Semver
  import opened Wrappers

  predicate IdChar(c: char) { '0' <= c <= '9' || 'A' <= c <= 'Z' || 'a' <= c <= 'z' || c == '-' }

  /** An identifier as the standard allows it, but that it may have leading zeros. */
  ghost predicate Identifier(id: string) { id != "" && forall i :: 0 <= i < |id| ==> IdChar(id[i]) }

  /** Section 11: identifiers of digits only compare as numbers, others in ASCII
      order, and numbers are below the others. */
  ghost function StandardIds(a: string, b: string): (r: int)
    ensures -1 <= r <= 1
  {
    if AllDigits(a) && !AllDigits(b) then -1
    else if !AllDigits(a) && AllDigits(b) then 1
    else if AllDigits(a) then Cmp(Decimal(a), Decimal(b))
    else Lex(a, b)
  }

  ghost function StandardLists(p: seq<string>, q: seq<string>): int {
    if p == [] && q == [] then 0
    else if p == [] then -1
    else if q == [] then 1
    else if StandardIds(p[0], q[0]) != 0 then StandardIds(p[0], q[0])
    else StandardLists(p[1..], q[1..])
  }

  /** Not a minus sign before digits, and no number above the largest int. */
  ghost predicate Regular(id: string) {
    && !(|id| > 1 && id[0] == '-' && AllDigits(id[1..]))
    && (AllDigits(id) ==> Decimal(id) <= INT_MAX)
  }

  /** What the reader makes of an identifier. */
  lemma Reading(id: string)
    requires Identifier(id)
    ensures IsNumber(id) <==> AllDigits(id) || (|id| > 1 && id[0] == '-' && AllDigits(id[1..]))
    ensures AllDigits(id) ==> Strtol(id).0 == Clamp(Decimal(id))
  {
    assert IdChar(id[0]) && !IsSpace(id[0]);
    assert Spaces(id) == 0;
    RunAll(id);
    if id[0] == '-' {
      RunAll(id[1..]);
      assert Sign(id) == (true, 1);
      assert !IsDigit(id[0]);
    } else {
      assert Sign(id) == (false, 0);
      assert id[0..] == id && id[0..|id|] == id;
    }
  }

  lemma Wrapped(v: nat)
    ensures ToInt(Clamp(v)) == v <==> v <= INT_MAX
  {
  }

  lemma RegularAgrees(a: string, b: string)
    requires Identifier(a) && Identifier(b) && Regular(a) && Regular(b)
    ensures CompareIds(a, b) == StandardIds(a, b)
  {
    hide Lex, Decimal, Strtol, ToInt;
    Reading(a);
    Reading(b);
    Wrapped(Decimal(a));
    Wrapped(Decimal(b));
  }

  /** The comparison is the standard's on lists of regular identifiers. */
  lemma {:induction false} ListsAgree(p: seq<string>, q: seq<string>)
    requires forall i :: 0 <= i < |p| ==> Identifier(p[i]) && Regular(p[i])
    requires forall i :: 0 <= i < |q| ==> Identifier(q[i]) && Regular(q[i])
    ensures CompareLists(p, q) == StandardLists(p, q)
  {
    if p != [] && q != [] {
      hide CompareIds, StandardIds;
      RegularAgrees(p[0], q[0]);
      ListsAgree(p[1..], q[1..]);
    }
  }

  /** Identifiers of the standard that are read as it says. */
  ghost predicate Orderly(v: Version) {
    v.prerelease.Some? ==>
      forall i :: 0 <= i < |Split(v.prerelease.value, '.')| ==>
        Identifier(Split(v.prerelease.value, '.')[i]) && Regular(Split(v.prerelease.value, '.')[i])
  }

  /** Section 11: by major, minor and patch number, a prerelease below none, and
      prereleases by their identifiers. */
  ghost predicate Precedes(x: Version, y: Version) {
    || x.major < y.major
    || (x.major == y.major && x.minor < y.minor)
    || (x.major == y.major && x.minor == y.minor && x.patch < y.patch)
    || (&& x.major == y.major && x.minor == y.minor && x.patch == y.patch && x.prerelease.Some?
        && (y.prerelease.None? ||
            StandardLists(Split(x.prerelease.value, '.'), Split(y.prerelease.value, '.')) == -1))
  }

  /** The comparison of orderly versions is the standard's. */
  lemma VersionsAgree(x: Version, y: Version)
    requires Orderly(x) && Orderly(y)
    ensures Compare(x, y) == -1 <==> Precedes(x, y)
    ensures Compare(x, y) == 1 <==> Precedes(y, x)
  {
    hide CompareLists, StandardLists, Split;
    CompareOrder(x, y, x);
    if x.prerelease.Some? && y.prerelease.Some? {
      ListsAgree(Split(x.prerelease.value, '.'), Split(y.prerelease.value, '.'));
      ListsAgree(Split(y.prerelease.value, '.'), Split(x.prerelease.value, '.'));
    }
  }

  /** A minus sign before digits is not where the standard puts it: "-1" is above "--". */
  lemma MinusDisagrees(id: string)
    requires |id| > 1 && id[0] == '-' && AllDigits(id[1..])
    ensures Identifier("--") && Regular("--")
    ensures CompareIds(id, "--") == -1 && StandardIds(id, "--") == 1
  {
    assert IsDigit(id[1..][0]);
    assert Identifier(id) by {
      forall i | 0 <= i < |id| ensures IdChar(id[i]) {
        assert i > 0 ==> IsDigit(id[1..][i - 1]);
      }
    }
    var dashes := "--";
    assert !IsDigit(dashes[1..][0]) && !IsDigit(dashes[0]);
    Reading(id);
    Reading(dashes);
    hide Strtol;
    assert !AllDigits(id);
    assert Lex(id, dashes) == Lex(id[1..], dashes[1..]);
  }

  /** Nor is a number above the largest int. */
  lemma LargeDisagrees(id: string, most: string)
    requires id != "" && AllDigits(id) && Decimal(id) > INT_MAX
    requires most != "" && AllDigits(most) && Decimal(most) == INT_MAX
    ensures Identifier(most) && Regular(most)
    ensures CompareIds(id, most) <= 0 && StandardIds(id, most) == 1
  {
    hide Decimal, Strtol, Lex;
    Reading(id);
    Reading(most);
    Wrapped(Decimal(most));
  }

  lemma Largest(most: string)
    requires most == "2147483647"
    ensures Decimal(most) == INT_MAX && AllDigits(most)
  {
    assert most[..9] == "214748364";
    assert most[..9][..8] == "21474836";
    assert "21474836"[..7] == "2147483";
    assert "2147483"[..6] == "214748";
    assert "214748"[..5] == "21474";
    assert "21474"[..4] == "2147";
    assert "2147"[..3] == "214";
    assert "214"[..2] == "21";
    assert "21"[..1] == "2";
    assert "2"[..0] == "";
    assert Decimal("2") == 2;
    assert Decimal("21") == 21;
    assert Decimal("214") == 214;
    assert Decimal("2147") == 2147;
    assert Decimal("21474") == 21474;
    assert Decimal("214748") == 214748;
    assert Decimal("2147483") == 2147483;
    assert Decimal("21474836") == 21474836;
    assert Decimal("214748364") == 214748364;
  }

  /** So the regular identifiers are exactly those that compare with every regular
      identifier as the standard says. */
  lemma RegularIff(id: string)
    requires Identifier(id)
    ensures Regular(id) <==> forall b :: Identifier(b) && Regular(b) ==> CompareIds(id, b) == StandardIds(id, b)
  {
    hide CompareIds, StandardIds;
    if Regular(id) {
      forall b | Identifier(b) && Regular(b) ensures CompareIds(id, b) == StandardIds(id, b) {
        RegularAgrees(id, b);
      }
    } else if |id| > 1 && id[0] == '-' && AllDigits(id[1..]) {
      MinusDisagrees(id);
    } else {
      Largest("2147483647");
      LargeDisagrees(id, "2147483647");
    }
  }
}
