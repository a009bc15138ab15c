/** Comparing versions of different kinds. */
module VersionKinds {
  import opened Strings
  import opened Semver
  import opened SemverText
  import opened SemverRoundTrip
  import opened Versions
  import S = StringSplit
  import opened Wrappers

  ghost predicate Transitive(a: string, b: string, c: string) {
    CompareVersions(a, b) <= 0 && CompareVersions(b, c) <= 0 ==> CompareVersions(a, c) <= 0
  }

  /** The comparison is transitive on the versions of these kinds. */
  ghost predicate Consistent(kinds: set<Kind>) {
    forall a: string, b: string, c: string ::
      KindOf(a) in kinds && KindOf(b) in kinds && KindOf(c) in kinds ==> Transitive(a, b, c)
  }

  // ----- Some versions -----

  ghost predicate Digits(s: string) { s != "" && AllDigits(s) && Decimal(s) <= 0xffff && |s| <= 5 }

  lemma DigitsPlain(s: string)
    requires Digits(s)
    ensures '.' !in s && '-' !in s && '+' !in s && ValidChars(s) && OnlyNumbers(s) && IsNumber(s) &&
            Number(s) == Decimal(s)
  {
    DigitsNumber(s);
  }

  lemma OneToken(s: string)
    requires s != ""
    ensures S.NonEmpty([s]) == [s]
  {
    assert [s][1..] == [];
    assert S.NonEmpty([s]) == [[s][0]] + S.NonEmpty([s][1..]);
  }

  /** One number. */
  lemma OneField(s: string)
    requires Digits(s)
    ensures KindOf(s) == OldStyle && Numbered(s) && Four(s) == [Decimal(s), 0, 0, 0]
    ensures Parse(s) == Some(Version(Decimal(s), 0, 0, None, None))
  {
    DigitsPlain(s);
    CutNowhere(s, '+');
    CutNowhere(s, '-');
    SplitNowhere(s);
    hide Split, Decimal, IsNumber, Number, Cut;
    OneToken(s);
    assert Numbers([s], 4) && Field([s], 0) == Number(s);
  }

  lemma TwoParts(s: string)
    requires '.' !in s && s != ""
    ensures Split("." + s, '.') == ["", s] && S.Tokens("." + s, '.') == [s]
  {
    assert "." + s == "" + "." + s;
    SplitThere("", s);
    SplitNowhere(s);
    OneToken(s);
    var parts := ["", s];
    assert parts[1..] == [s] && S.NonEmpty(parts) == [] + S.NonEmpty([s]);
  }

  /** A separator and a number: strtok passes over the empty field, the parser does not. */
  lemma SecondField(s: string)
    requires Digits(s)
    ensures KindOf("." + s) == OldStyle && Numbered("." + s) && Four("." + s) == [Decimal(s), 0, 0, 0]
    ensures Parse("." + s) == Some(Version(0, Decimal(s), 0, None, None))
  {
    PointedPlain(s);
    PointedParsed(s);
    TwoParts(s);
    hide Split, Decimal, S.Tokens, Parse, ValidChars;
  }

  lemma PointedPlain(s: string)
    requires Digits(s)
    ensures ValidChars("." + s) && OnlyNumbers("." + s) && '+' !in "." + s && '-' !in "." + s
  {
    DigitsPlain(s);
    ValidJoin(".", s);
  }

  lemma PointedParsed(s: string)
    requires Digits(s)
    ensures Parse("." + s) == Some(Version(0, Decimal(s), 0, None, None))
  {
    var v := "." + s;
    PointedPlain(s);
    hide Split, Decimal, IsNumber, Number, Cut, ValidChars, OnlyNumbers;
    CutNowhere(v, '+');
    CutNowhere(v, '-');
    EmptyNumber();
    TwoParts(s);
    DigitsPlain(s);
    var parts := ["", s];
    assert Numbers(parts, 4) && Field(parts, 0) == 0 && Field(parts, 1) == Number(s);
  }

  /** A number with a prerelease. */
  lemma Dashed(s: string)
    requires Digits(s)
    ensures KindOf(s + "-a") == Semantic && Parse(s + "-a") == Some(Version(Decimal(s), 0, 0, Some("a"), None))
  {
    var v := s + "-a";
    DigitsPlain(s);
    ValidJoin(s, "-a");
    assert ValidChar('-') && ValidChar('a') && ValidChars("-a");
    assert v[|s|] == '-' && !Accepted(v[|s|]);
    assert '+' !in v;
    CutNowhere(v, '+');
    assert v == s + ['-'] + "a";
    CutThere(s, '-', "a");
    SplitNowhere(s);
    hide Split, Decimal, IsNumber, Number, Cut;
    assert Numbers([s], 4) && Field([s], 0) == Number(s);
  }

  /** A number and a letter. */
  lemma NotParsed(s: string)
    requires s == "1x"
    ensures KindOf(s) == Text && Parse(s).None?
  {
    assert !Accepted(s[1]);
    CutNowhere(s, '+');
    CutNowhere(s, '-');
    SplitNowhere(s);
    hide Split, Cut;
    assert !IsNumber(s) by {
      assert Spaces(s) == 0 && Sign(s) == (false, 0);
      assert s[0..] == s && Run(s[1..]) == 0 && Run(s) == 1;
    }
    assert !Numbers([s], 4) by { assert [s][0] == s; }
  }

  lemma SomeDigits()
    ensures Digits("10") && Decimal("10") == 10 && Digits("1") && Decimal("1") == 1 && Digits("2") && Decimal("2") == 2
  {
    assert "10"[..1] == "1" && "1"[..0] == "" && "2"[..0] == "";
    assert Decimal("1") == 1;
  }

  // ----- A cycle for any two kinds -----

  lemma Numbers4(a: string, b: string, x: nat, y: nat)
    requires Numbered(a) && Numbered(b) && Four(a) == [x, 0, 0, 0] && Four(b) == [y, 0, 0, 0]
    ensures x < y ==> CompareVersions(a, b) == -1
  {
    hide Numbered, Parse, Four;
  }

  lemma Versions3(a: string, b: string, u: Version, v: Version)
    requires KindOf(a) == Semantic || KindOf(b) == Semantic
    requires Parse(a) == Some(u) && Parse(b) == Some(v)
    ensures CompareVersions(a, b) == Compare(u, v)
  {
    hide Numbered, Parse, Four, Compare;
  }

  lemma Texts(a: string, b: string)
    requires KindOf(a) == Text || KindOf(b) == Text
    ensures CompareVersions(a, b) == Lex(a, b)
  {
    hide Numbered, Parse, Four, Lex;
  }

  lemma Below(u: Version, v: Version)
    requires u.major < v.major ||
             (u.major == v.major && u.minor == v.minor && u.patch == v.patch && u.prerelease.Some? &&
              v.prerelease.None?)
    ensures Compare(u, v) == -1
  {
  }

  /** 10 is below 1x, 1x below 2, and 2 below 10... */
  lemma NumberTextCycle()
    ensures KindOf("10") == OldStyle && KindOf("1x") == Text && KindOf("2") == OldStyle
    ensures CompareVersions("10", "1x") == -1 && CompareVersions("1x", "2") == -1 && CompareVersions("2", "10") == -1
  {
    hide *;
    assert "10" == "1" + "0" + "" && "2" == "2" + "";
    SomeDigits();
    OneField("10");
    OneField("2");
    NotParsed("1x");
    Numbers4("2", "10", 2, 10);
    Texts("10", "1x");
    Texts("1x", "2");
    TextOrder("0", "");
  }

  lemma TextOrder(zero: string, rest: string)
    requires zero == "0"
    ensures Lex("1" + zero + rest, "1x") == -1 && Lex("1x", "2" + rest) == -1
  {
    var s, t := "1" + zero + rest, "1x";
    assert s[1..] == zero + rest && t[1..] == "x";
    assert Lex(s[1..], t[1..]) == -1;
  }

  /** ...10-a is below 1x, 1x below 2-a, and 2-a below 10-a... */
  lemma SemanticTextCycle()
    ensures KindOf("10-a") == Semantic && KindOf("1x") == Text && KindOf("2-a") == Semantic
    ensures CompareVersions("10-a", "1x") == -1 && CompareVersions("1x", "2-a") == -1 &&
            CompareVersions("2-a", "10-a") == -1
  {
    hide *;
    assert "10" + "-a" == "10-a" && "2" + "-a" == "2-a" && "10-a" == "1" + "0" + "-a";
    SomeDigits();
    Dashed("10");
    Dashed("2");
    NotParsed("1x");
    var u, v := Version(2, 0, 0, Some("a"), None), Version(10, 0, 0, Some("a"), None);
    Versions3("2-a", "10-a", u, v);
    Below(u, v);
    Texts("10-a", "1x");
    Texts("1x", "2-a");
    TextOrder("0", "-a");
  }

  /** ...and .2 is below 1-a, 1-a below 1, and 1 below .2. */
  lemma NumberSemanticCycle()
    ensures KindOf(".2") == OldStyle && KindOf("1-a") == Semantic && KindOf("1") == OldStyle
    ensures CompareVersions(".2", "1-a") == -1 && CompareVersions("1-a", "1") == -1 && CompareVersions("1", ".2") == -1
  {
    hide *;
    assert "." + "2" == ".2" && "1" + "-a" == "1-a";
    SomeDigits();
    SecondField("2");
    Dashed("1");
    OneField("1");
    Numbers4("1", ".2", 1, 2);
    var u, v, one := Version(0, 2, 0, None, None), Version(1, 0, 0, Some("a"), None), Version(1, 0, 0, None, None);
    Versions3(".2", "1-a", u, v);
    Versions3("1-a", "1", v, one);
    Below(u, v);
    Below(v, one);
  }

  lemma PairInconsistent(kinds: set<Kind>, j: Kind, k: Kind)
    requires j in kinds && k in kinds && j != k
    ensures !Consistent(kinds)
  {
    NumberTextCycle();
    SemanticTextCycle();
    NumberSemanticCycle();
    hide KindOf, CompareVersions;
    if OldStyle !in {j, k} {
      assert !Transitive("10-a", "1x", "2-a") by { Cycle("10-a", "1x", "2-a"); }
    } else if Semantic !in {j, k} {
      assert !Transitive("10", "1x", "2") by { Cycle("10", "1x", "2"); }
    } else {
      assert !Transitive(".2", "1-a", "1") by { Cycle(".2", "1-a", "1"); }
    }
  }

  lemma Cycle(a: string, b: string, c: string)
    requires CompareVersions(a, b) == -1 && CompareVersions(b, c) == -1 && CompareVersions(c, a) == -1
    ensures !Transitive(a, b, c)
  {
    hide Numbered, Parse, Four, LexNumbers, Lex, Compare;
    Antisymmetric(a, c);
  }

  lemma Antisymmetric(a: string, b: string)
    ensures CompareVersions(b, a) == -CompareVersions(a, b)
  {
    hide Numbered, Parse, Four, LexNumbers, Lex, Compare;
    LexNumbersOrder(Four(a), Four(b), []);
    LexOrder(a, b, "");
    if Parse(a).Some? && Parse(b).Some? {
      CompareOrder(Parse(a).value, Parse(b).value, Parse(a).value);
    }
  }

  /** The comparison orders a set of versions consistently, whatever they are,
      exactly if they are all of one kind. */
  lemma ConsistentIff(kinds: set<Kind>)
    ensures Consistent(kinds) <==> forall j, k :: j in kinds && k in kinds ==> j == k
  {
    hide KindOf, CompareVersions;
    if forall j, k :: j in kinds && k in kinds ==> j == k {
      forall a: string, b: string, c: string | KindOf(a) in kinds && KindOf(b) in kinds && KindOf(c) in kinds
        ensures Transitive(a, b, c)
      {
        SameKindOrder(a, b, c);
      }
    } else {
      var j, k :| j in kinds && k in kinds && j != k;
      PairInconsistent(kinds, j, k);
    }
  }
}
