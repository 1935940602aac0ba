/**
 * The scenarios of the repository's test suites, restated about the model: the parser tables
 * of Tests/VersionTests/VersionParserTests.swift and the equality, literal, description and
 * ordering checks of VersionTests/VersionTests.swift. A Swift string literal of type `Version`
 * stands for its lenient parse (`init(stringLiteral:)` calls `init(_:strict:)` with the default
 * `strict: false`); the ordering lemmas write the version it denotes directly, and
 * `ComparableLiteralsParse` ties each literal to that version.
 */
module VersionExamples {
  import opened Wrappers
  import opened Decimal
  import opened VersionGrammar
  import opened Versions
  import opened VersionParsing

  /** A version whose description is `s` and that strict mode can print reads back from `s` in
      both modes. */
  lemma ParsesInBothModes(s: string, v: Version)
    requires Printable(true, v) && Description(v) == s
    ensures ParseString(true, s) == Success(v) && ParseString(false, s) == Success(v)
  {
    ParseDescription(true, v);
    ParseDescription(false, v);
  }

  /** A version whose description is `s` and that lenient mode can print reads back from `s` in
      lenient mode, and strict mode rejects `s` when the version is not canonical. */
  lemma ParsesLeniently(s: string, v: Version)
    requires Printable(false, v) && Description(v) == s
    ensures ParseString(false, s) == Success(v)
    ensures !IsCanonical(v) ==> ParseString(true, s) == Failure(InvalidComponents)
  {
    ParseDescription(false, v);
    if !IsCanonical(v) {
      if Recognize(true, s).Some? {
        StrictMatchIsLenientMatch(s);
        ParseStringNeverMissing(true, s);
      }
      ParseStringNoMatch(true, s);
    }
  }

  /** A string whose numbers conform to the mode but whose remainder is no pre-release and build
      part is rejected with `InvalidComponents`. */
  lemma RejectedAtSuffix(strict: bool, s: string, major: string, minor: Group, patch: Group, rest: string)
    requires s == major + (Prefixed('.', minor) + (Prefixed('.', patch) + rest))
    requires IsNumber(strict, major)
    requires minor.Some? ==> IsNumber(strict, minor.value)
    requires patch.Some? ==> minor.Some? && IsNumber(strict, patch.value)
    requires strict ==> minor.Some? && patch.Some?
    requires rest == [] || rest[0] in {'-', '+'}
    requires Suffixes(rest) == None
    ensures ParseString(strict, s) == Failure(InvalidComponents)
  {
    SuffixRejected(strict, s, major, minor, patch, rest);
    ParseStringNoMatch(strict, s);
  }

  // ---------------------------------------------------------------------------
  // testStrictParsingOfValidStrings, testLenientParsingOfValidStrings

  lemma ValidString0()
    ensures ParseString(true, "1.0.0-alpha") == Success(Version(1, Some(0), Some(0), Some("alpha"), None))
    ensures ParseString(false, "1.0.0-alpha") == Success(Version(1, Some(0), Some(0), Some("alpha"), None))
  {
    ParsesInBothModes("1.0.0-alpha", Version(1, Some(0), Some(0), Some("alpha"), None));
  }

  lemma ValidString1()
    ensures ParseString(true, "1.0.0-alpha+deadbeef") == Success(Version(1, Some(0), Some(0), Some("alpha"), Some("deadbeef")))
    ensures ParseString(false, "1.0.0-alpha+deadbeef") == Success(Version(1, Some(0), Some(0), Some("alpha"), Some("deadbeef")))
  {
    ParsesInBothModes("1.0.0-alpha+deadbeef", Version(1, Some(0), Some(0), Some("alpha"), Some("deadbeef")));
  }

  lemma ValidString2()
    ensures ParseString(true, "1.0.0") == Success(Version(1, Some(0), Some(0), None, None))
    ensures ParseString(false, "1.0.0") == Success(Version(1, Some(0), Some(0), None, None))
  {
    ParsesInBothModes("1.0.0", Version(1, Some(0), Some(0), None, None));
  }

  lemma ValidString3()
    ensures ParseString(true, "1.0.0+deadbeef") == Success(Version(1, Some(0), Some(0), None, Some("deadbeef")))
    ensures ParseString(false, "1.0.0+deadbeef") == Success(Version(1, Some(0), Some(0), None, Some("deadbeef")))
  {
    ParsesInBothModes("1.0.0+deadbeef", Version(1, Some(0), Some(0), None, Some("deadbeef")));
  }

  lemma ValidString4()
    ensures ParseString(true, "1.0.3-alpha") == Success(Version(1, Some(0), Some(3), Some("alpha"), None))
    ensures ParseString(false, "1.0.3-alpha") == Success(Version(1, Some(0), Some(3), Some("alpha"), None))
  {
    ParsesInBothModes("1.0.3-alpha", Version(1, Some(0), Some(3), Some("alpha"), None));
  }

  lemma ValidString5()
    ensures ParseString(true, "1.0.3-alpha+deadbeef") == Success(Version(1, Some(0), Some(3), Some("alpha"), Some("deadbeef")))
    ensures ParseString(false, "1.0.3-alpha+deadbeef") == Success(Version(1, Some(0), Some(3), Some("alpha"), Some("deadbeef")))
  {
    ParsesInBothModes("1.0.3-alpha+deadbeef", Version(1, Some(0), Some(3), Some("alpha"), Some("deadbeef")));
  }

  lemma ValidString6()
    ensures ParseString(true, "1.0.3") == Success(Version(1, Some(0), Some(3), None, None))
    ensures ParseString(false, "1.0.3") == Success(Version(1, Some(0), Some(3), None, None))
  {
    ParsesInBothModes("1.0.3", Version(1, Some(0), Some(3), None, None));
  }

  lemma ValidString7()
    ensures ParseString(true, "1.0.3+deadbeef") == Success(Version(1, Some(0), Some(3), None, Some("deadbeef")))
    ensures ParseString(false, "1.0.3+deadbeef") == Success(Version(1, Some(0), Some(3), None, Some("deadbeef")))
  {
    ParsesInBothModes("1.0.3+deadbeef", Version(1, Some(0), Some(3), None, Some("deadbeef")));
  }

  lemma ValidString8()
    ensures ParseString(true, "1.2.0-alpha") == Success(Version(1, Some(2), Some(0), Some("alpha"), None))
    ensures ParseString(false, "1.2.0-alpha") == Success(Version(1, Some(2), Some(0), Some("alpha"), None))
  {
    ParsesInBothModes("1.2.0-alpha", Version(1, Some(2), Some(0), Some("alpha"), None));
  }

  lemma ValidString9()
    ensures ParseString(true, "1.2.0-alpha+deadbeef") == Success(Version(1, Some(2), Some(0), Some("alpha"), Some("deadbeef")))
    ensures ParseString(false, "1.2.0-alpha+deadbeef") == Success(Version(1, Some(2), Some(0), Some("alpha"), Some("deadbeef")))
  {
    ParsesInBothModes("1.2.0-alpha+deadbeef", Version(1, Some(2), Some(0), Some("alpha"), Some("deadbeef")));
  }

  lemma ValidString10()
    ensures ParseString(true, "1.2.0+deadbeef") == Success(Version(1, Some(2), Some(0), None, Some("deadbeef")))
    ensures ParseString(false, "1.2.0+deadbeef") == Success(Version(1, Some(2), Some(0), None, Some("deadbeef")))
  {
    ParsesInBothModes("1.2.0+deadbeef", Version(1, Some(2), Some(0), None, Some("deadbeef")));
  }

  lemma ValidString11()
    ensures ParseString(true, "1.2.0") == Success(Version(1, Some(2), Some(0), None, None))
    ensures ParseString(false, "1.2.0") == Success(Version(1, Some(2), Some(0), None, None))
  {
    ParsesInBothModes("1.2.0", Version(1, Some(2), Some(0), None, None));
  }

  lemma ValidString12()
    ensures ParseString(true, "1.2.3-alpha") == Success(Version(1, Some(2), Some(3), Some("alpha"), None))
    ensures ParseString(false, "1.2.3-alpha") == Success(Version(1, Some(2), Some(3), Some("alpha"), None))
  {
    ParsesInBothModes("1.2.3-alpha", Version(1, Some(2), Some(3), Some("alpha"), None));
  }

  lemma ValidString13()
    ensures ParseString(true, "1.2.3-alpha+deadbeef") == Success(Version(1, Some(2), Some(3), Some("alpha"), Some("deadbeef")))
    ensures ParseString(false, "1.2.3-alpha+deadbeef") == Success(Version(1, Some(2), Some(3), Some("alpha"), Some("deadbeef")))
  {
    ParsesInBothModes("1.2.3-alpha+deadbeef", Version(1, Some(2), Some(3), Some("alpha"), Some("deadbeef")));
  }

  lemma ValidString14()
    ensures ParseString(true, "1.2.3") == Success(Version(1, Some(2), Some(3), None, None))
    ensures ParseString(false, "1.2.3") == Success(Version(1, Some(2), Some(3), None, None))
  {
    ParsesInBothModes("1.2.3", Version(1, Some(2), Some(3), None, None));
  }

  lemma ValidString15()
    ensures ParseString(true, "1.2.3+deadbeef") == Success(Version(1, Some(2), Some(3), None, Some("deadbeef")))
    ensures ParseString(false, "1.2.3+deadbeef") == Success(Version(1, Some(2), Some(3), None, Some("deadbeef")))
  {
    ParsesInBothModes("1.2.3+deadbeef", Version(1, Some(2), Some(3), None, Some("deadbeef")));
  }

  /** Every fully specified string of the parser tests parses, in both modes, to the version the
      tests expect (and so to one `===` to it). */
  lemma ValidStringsParse()
    ensures ParseString(true, "1.0.0-alpha") == Success(Version(1, Some(0), Some(0), Some("alpha"), None))
    ensures ParseString(false, "1.0.0-alpha") == Success(Version(1, Some(0), Some(0), Some("alpha"), None))
    ensures ParseString(true, "1.0.0-alpha+deadbeef") == Success(Version(1, Some(0), Some(0), Some("alpha"), Some("deadbeef")))
    ensures ParseString(false, "1.0.0-alpha+deadbeef") == Success(Version(1, Some(0), Some(0), Some("alpha"), Some("deadbeef")))
    ensures ParseString(true, "1.0.0") == Success(Version(1, Some(0), Some(0), None, None))
    ensures ParseString(false, "1.0.0") == Success(Version(1, Some(0), Some(0), None, None))
    ensures ParseString(true, "1.0.0+deadbeef") == Success(Version(1, Some(0), Some(0), None, Some("deadbeef")))
    ensures ParseString(false, "1.0.0+deadbeef") == Success(Version(1, Some(0), Some(0), None, Some("deadbeef")))
    ensures ParseString(true, "1.0.3-alpha") == Success(Version(1, Some(0), Some(3), Some("alpha"), None))
    ensures ParseString(false, "1.0.3-alpha") == Success(Version(1, Some(0), Some(3), Some("alpha"), None))
    ensures ParseString(true, "1.0.3-alpha+deadbeef") == Success(Version(1, Some(0), Some(3), Some("alpha"), Some("deadbeef")))
    ensures ParseString(false, "1.0.3-alpha+deadbeef") == Success(Version(1, Some(0), Some(3), Some("alpha"), Some("deadbeef")))
    ensures ParseString(true, "1.0.3") == Success(Version(1, Some(0), Some(3), None, None))
    ensures ParseString(false, "1.0.3") == Success(Version(1, Some(0), Some(3), None, None))
    ensures ParseString(true, "1.0.3+deadbeef") == Success(Version(1, Some(0), Some(3), None, Some("deadbeef")))
    ensures ParseString(false, "1.0.3+deadbeef") == Success(Version(1, Some(0), Some(3), None, Some("deadbeef")))
    ensures ParseString(true, "1.2.0-alpha") == Success(Version(1, Some(2), Some(0), Some("alpha"), None))
    ensures ParseString(false, "1.2.0-alpha") == Success(Version(1, Some(2), Some(0), Some("alpha"), None))
    ensures ParseString(true, "1.2.0-alpha+deadbeef") == Success(Version(1, Some(2), Some(0), Some("alpha"), Some("deadbeef")))
    ensures ParseString(false, "1.2.0-alpha+deadbeef") == Success(Version(1, Some(2), Some(0), Some("alpha"), Some("deadbeef")))
    ensures ParseString(true, "1.2.0+deadbeef") == Success(Version(1, Some(2), Some(0), None, Some("deadbeef")))
    ensures ParseString(false, "1.2.0+deadbeef") == Success(Version(1, Some(2), Some(0), None, Some("deadbeef")))
    ensures ParseString(true, "1.2.0") == Success(Version(1, Some(2), Some(0), None, None))
    ensures ParseString(false, "1.2.0") == Success(Version(1, Some(2), Some(0), None, None))
    ensures ParseString(true, "1.2.3-alpha") == Success(Version(1, Some(2), Some(3), Some("alpha"), None))
    ensures ParseString(false, "1.2.3-alpha") == Success(Version(1, Some(2), Some(3), Some("alpha"), None))
    ensures ParseString(true, "1.2.3-alpha+deadbeef") == Success(Version(1, Some(2), Some(3), Some("alpha"), Some("deadbeef")))
    ensures ParseString(false, "1.2.3-alpha+deadbeef") == Success(Version(1, Some(2), Some(3), Some("alpha"), Some("deadbeef")))
    ensures ParseString(true, "1.2.3") == Success(Version(1, Some(2), Some(3), None, None))
    ensures ParseString(false, "1.2.3") == Success(Version(1, Some(2), Some(3), None, None))
    ensures ParseString(true, "1.2.3+deadbeef") == Success(Version(1, Some(2), Some(3), None, Some("deadbeef")))
    ensures ParseString(false, "1.2.3+deadbeef") == Success(Version(1, Some(2), Some(3), None, Some("deadbeef")))
  {
    ValidString0();
    ValidString1();
    ValidString2();
    ValidString3();
    ValidString4();
    ValidString5();
    ValidString6();
    ValidString7();
    ValidString8();
    ValidString9();
    ValidString10();
    ValidString11();
    ValidString12();
    ValidString13();
    ValidString14();
    ValidString15();
  }

  // ---------------------------------------------------------------------------
  // testStrictParsingOfSemiValidStrings, testLenientParsingOfSemiValidStrings

  lemma SemiValidString0()
    ensures ParseString(false, "1-alpha") == Success(Version(1, None, None, Some("alpha"), None))
    ensures ParseString(true, "1-alpha") == Failure(InvalidComponents)
  {
    ParsesLeniently("1-alpha", Version(1, None, None, Some("alpha"), None));
  }

  lemma SemiValidString1()
    ensures ParseString(false, "1.0-alpha") == Success(Version(1, Some(0), None, Some("alpha"), None))
    ensures ParseString(true, "1.0-alpha") == Failure(InvalidComponents)
  {
    ParsesLeniently("1.0-alpha", Version(1, Some(0), None, Some("alpha"), None));
  }

  lemma SemiValidString2()
    ensures ParseString(false, "1-alpha+deadbeef") == Success(Version(1, None, None, Some("alpha"), Some("deadbeef")))
    ensures ParseString(true, "1-alpha+deadbeef") == Failure(InvalidComponents)
  {
    ParsesLeniently("1-alpha+deadbeef", Version(1, None, None, Some("alpha"), Some("deadbeef")));
  }

  lemma SemiValidString3()
    ensures ParseString(false, "1.0-alpha+deadbeef") == Success(Version(1, Some(0), None, Some("alpha"), Some("deadbeef")))
    ensures ParseString(true, "1.0-alpha+deadbeef") == Failure(InvalidComponents)
  {
    ParsesLeniently("1.0-alpha+deadbeef", Version(1, Some(0), None, Some("alpha"), Some("deadbeef")));
  }

  lemma SemiValidString4()
    ensures ParseString(false, "1") == Success(Version(1, None, None, None, None))
    ensures ParseString(true, "1") == Failure(InvalidComponents)
  {
    ParsesLeniently("1", Version(1, None, None, None, None));
  }

  lemma SemiValidString5()
    ensures ParseString(false, "1.0") == Success(Version(1, Some(0), None, None, None))
    ensures ParseString(true, "1.0") == Failure(InvalidComponents)
  {
    ParsesLeniently("1.0", Version(1, Some(0), None, None, None));
  }

  lemma SemiValidString6()
    ensures ParseString(false, "1+deadbeef") == Success(Version(1, None, None, None, Some("deadbeef")))
    ensures ParseString(true, "1+deadbeef") == Failure(InvalidComponents)
  {
    ParsesLeniently("1+deadbeef", Version(1, None, None, None, Some("deadbeef")));
  }

  lemma SemiValidString7()
    ensures ParseString(false, "1.0+deadbeef") == Success(Version(1, Some(0), None, None, Some("deadbeef")))
    ensures ParseString(true, "1.0+deadbeef") == Failure(InvalidComponents)
  {
    ParsesLeniently("1.0+deadbeef", Version(1, Some(0), None, None, Some("deadbeef")));
  }

  lemma SemiValidString8()
    ensures ParseString(false, "1.2-alpha") == Success(Version(1, Some(2), None, Some("alpha"), None))
    ensures ParseString(true, "1.2-alpha") == Failure(InvalidComponents)
  {
    ParsesLeniently("1.2-alpha", Version(1, Some(2), None, Some("alpha"), None));
  }

  lemma SemiValidString9()
    ensures ParseString(false, "1.2-alpha+deadbeef") == Success(Version(1, Some(2), None, Some("alpha"), Some("deadbeef")))
    ensures ParseString(true, "1.2-alpha+deadbeef") == Failure(InvalidComponents)
  {
    ParsesLeniently("1.2-alpha+deadbeef", Version(1, Some(2), None, Some("alpha"), Some("deadbeef")));
  }

  lemma SemiValidString10()
    ensures ParseString(false, "1.2+deadbeef") == Success(Version(1, Some(2), None, None, Some("deadbeef")))
    ensures ParseString(true, "1.2+deadbeef") == Failure(InvalidComponents)
  {
    ParsesLeniently("1.2+deadbeef", Version(1, Some(2), None, None, Some("deadbeef")));
  }

  lemma SemiValidString11()
    ensures ParseString(false, "1.2") == Success(Version(1, Some(2), None, None, None))
    ensures ParseString(true, "1.2") == Failure(InvalidComponents)
  {
    ParsesLeniently("1.2", Version(1, Some(2), None, None, None));
  }

  lemma LeadingZerosLenient12()
    ensures ParseString(false, "01.2.3") == Success(Version(1, Some(2), Some(3), None, None))
  {
    var p := Parts("01", Some("2"), Some("3"), None, None);
    ValueOfShort('0', '1');
    ValueOfShort('1', '0');
    ValueOfShort('2', '0');
    ValueOfShort('3', '0');
    assert ParseInt("01") == Some(1);
    assert ParseInt("1") == Some(1);
    assert ParseInt("2") == Some(2);
    assert ParseInt("3") == Some(3);
    assert Conforms(false, p);
    assert Compose(p) == "01.2.3";
    ParseConforming(false, p);
  }

  lemma LeadingZerosStrict12()
    ensures ParseString(true, "01.2.3") == Failure(InvalidComponents)
  {
    var s := "01.2.3";
    MajorRejected(true, s, "01", ".2.3");
    ParseStringNoMatch(true, s);
  }

  lemma SemiValidString12()
    ensures ParseString(false, "01.2.3") == Success(Version(1, Some(2), Some(3), None, None))
    ensures ParseString(true, "01.2.3") == Failure(InvalidComponents)
  {
    LeadingZerosLenient12();
    LeadingZerosStrict12();
  }

  lemma LeadingZerosLenient13()
    ensures ParseString(false, "1.02.3") == Success(Version(1, Some(2), Some(3), None, None))
  {
    var p := Parts("1", Some("02"), Some("3"), None, None);
    ValueOfShort('1', '0');
    ValueOfShort('0', '2');
    ValueOfShort('3', '0');
    assert ParseInt("1") == Some(1);
    assert ParseInt("02") == Some(2);
    assert ParseInt("3") == Some(3);
    assert Conforms(false, p);
    assert Compose(p) == "1.02.3";
    ParseConforming(false, p);
  }

  lemma LeadingZerosStrict13()
    ensures ParseString(true, "1.02.3") == Failure(InvalidComponents)
  {
    var s := "1.02.3";
    MinorRejected(true, s, "1", "02", ".3");
    ParseStringNoMatch(true, s);
  }

  lemma SemiValidString13()
    ensures ParseString(false, "1.02.3") == Success(Version(1, Some(2), Some(3), None, None))
    ensures ParseString(true, "1.02.3") == Failure(InvalidComponents)
  {
    LeadingZerosLenient13();
    LeadingZerosStrict13();
  }

  lemma LeadingZerosLenient14()
    ensures ParseString(false, "1.2.03") == Success(Version(1, Some(2), Some(3), None, None))
  {
    var p := Parts("1", Some("2"), Some("03"), None, None);
    ValueOfShort('1', '0');
    ValueOfShort('2', '0');
    ValueOfShort('0', '3');
    assert ParseInt("1") == Some(1);
    assert ParseInt("2") == Some(2);
    assert ParseInt("03") == Some(3);
    assert Conforms(false, p);
    assert Compose(p) == "1.2.03";
    ParseConforming(false, p);
  }

  lemma LeadingZerosStrict14()
    ensures ParseString(true, "1.2.03") == Failure(InvalidComponents)
  {
    var s := "1.2.03";
    PatchRejected(true, s, "1", "2", "03", "");
    ParseStringNoMatch(true, s);
  }

  lemma SemiValidString14()
    ensures ParseString(false, "1.2.03") == Success(Version(1, Some(2), Some(3), None, None))
    ensures ParseString(true, "1.2.03") == Failure(InvalidComponents)
  {
    LeadingZerosLenient14();
    LeadingZerosStrict14();
  }

  /** Strict mode rejects every semi-valid string of the parser tests with `InvalidComponents`,
      and lenient mode parses each to the version the tests expect: absent minor and patch stay
      absent, and numbers with leading zeros are read as decimal. */
  lemma SemiValidStringsParseLeniently()
    ensures ParseString(false, "1-alpha") == Success(Version(1, None, None, Some("alpha"), None))
    ensures ParseString(true, "1-alpha") == Failure(InvalidComponents)
    ensures ParseString(false, "1.0-alpha") == Success(Version(1, Some(0), None, Some("alpha"), None))
    ensures ParseString(true, "1.0-alpha") == Failure(InvalidComponents)
    ensures ParseString(false, "1-alpha+deadbeef") == Success(Version(1, None, None, Some("alpha"), Some("deadbeef")))
    ensures ParseString(true, "1-alpha+deadbeef") == Failure(InvalidComponents)
    ensures ParseString(false, "1.0-alpha+deadbeef") == Success(Version(1, Some(0), None, Some("alpha"), Some("deadbeef")))
    ensures ParseString(true, "1.0-alpha+deadbeef") == Failure(InvalidComponents)
    ensures ParseString(false, "1") == Success(Version(1, None, None, None, None))
    ensures ParseString(true, "1") == Failure(InvalidComponents)
    ensures ParseString(false, "1.0") == Success(Version(1, Some(0), None, None, None))
    ensures ParseString(true, "1.0") == Failure(InvalidComponents)
    ensures ParseString(false, "1+deadbeef") == Success(Version(1, None, None, None, Some("deadbeef")))
    ensures ParseString(true, "1+deadbeef") == Failure(InvalidComponents)
    ensures ParseString(false, "1.0+deadbeef") == Success(Version(1, Some(0), None, None, Some("deadbeef")))
    ensures ParseString(true, "1.0+deadbeef") == Failure(InvalidComponents)
    ensures ParseString(false, "1.2-alpha") == Success(Version(1, Some(2), None, Some("alpha"), None))
    ensures ParseString(true, "1.2-alpha") == Failure(InvalidComponents)
    ensures ParseString(false, "1.2-alpha+deadbeef") == Success(Version(1, Some(2), None, Some("alpha"), Some("deadbeef")))
    ensures ParseString(true, "1.2-alpha+deadbeef") == Failure(InvalidComponents)
    ensures ParseString(false, "1.2+deadbeef") == Success(Version(1, Some(2), None, None, Some("deadbeef")))
    ensures ParseString(true, "1.2+deadbeef") == Failure(InvalidComponents)
    ensures ParseString(false, "1.2") == Success(Version(1, Some(2), None, None, None))
    ensures ParseString(true, "1.2") == Failure(InvalidComponents)
    ensures ParseString(false, "01.2.3") == Success(Version(1, Some(2), Some(3), None, None))
    ensures ParseString(true, "01.2.3") == Failure(InvalidComponents)
    ensures ParseString(false, "1.02.3") == Success(Version(1, Some(2), Some(3), None, None))
    ensures ParseString(true, "1.02.3") == Failure(InvalidComponents)
    ensures ParseString(false, "1.2.03") == Success(Version(1, Some(2), Some(3), None, None))
    ensures ParseString(true, "1.2.03") == Failure(InvalidComponents)
  {
    SemiValidString0();
    SemiValidString1();
    SemiValidString2();
    SemiValidString3();
    SemiValidString4();
    SemiValidString5();
    SemiValidString6();
    SemiValidString7();
    SemiValidString8();
    SemiValidString9();
    SemiValidString10();
    SemiValidString11();
    SemiValidString12();
    SemiValidString13();
    SemiValidString14();
  }

  // ---------------------------------------------------------------------------
  // testStrictParsingOfInvalidStrings, testLenientParsingOfInvalidStrings

  /** `0.0.0- +deadbeef` is `0.0.0` followed by a remainder that is no pre-release and build part. */
  lemma InvalidSuffix5()
    ensures "0.0.0- +deadbeef" == "0" + (Prefixed('.', Some("0")) + (Prefixed('.', Some("0")) + "- +deadbeef"))
    ensures Suffixes("- +deadbeef") == None
  {
  }

  /** `0.0.0-+deadbeef` is `0.0.0` followed by a remainder that is no pre-release and build part. */
  lemma InvalidSuffix6()
    ensures "0.0.0-+deadbeef" == "0" + (Prefixed('.', Some("0")) + (Prefixed('.', Some("0")) + "-+deadbeef"))
    ensures Suffixes("-+deadbeef") == None
  {
  }

  /** `0.0.0-+` is `0.0.0` followed by a remainder that is no pre-release and build part. */
  lemma InvalidSuffix7()
    ensures "0.0.0-+" == "0" + (Prefixed('.', Some("0")) + (Prefixed('.', Some("0")) + "-+"))
    ensures Suffixes("-+") == None
  {
  }

  /** `0.0.0-_+deadbeef` is `0.0.0` followed by a remainder that is no pre-release and build part. */
  lemma InvalidSuffix8()
    ensures "0.0.0-_+deadbeef" == "0" + (Prefixed('.', Some("0")) + (Prefixed('.', Some("0")) + "-_+deadbeef"))
    ensures Suffixes("-_+deadbeef") == None
  {
  }

  /** `0.0.0-alpha+_` is `0.0.0` followed by a remainder that is no pre-release and build part. */
  lemma InvalidSuffix9()
    ensures "0.0.0-alpha+_" == "0" + (Prefixed('.', Some("0")) + (Prefixed('.', Some("0")) + "-alpha+_"))
    ensures Suffixes("-alpha+_") == None
  {
  }

  lemma InvalidString0()
    ensures ParseString(true, "") == Failure(InvalidComponents)
    ensures ParseString(false, "") == Failure(InvalidComponents)
  {
    var s := "";
    MajorRejected(true, s, "", "");
    MajorRejected(false, s, "", "");
    ParseStringNoMatch(true, s);
    ParseStringNoMatch(false, s);
  }

  lemma InvalidString1()
    ensures ParseString(true, "lorem ipsum") == Failure(InvalidComponents)
    ensures ParseString(false, "lorem ipsum") == Failure(InvalidComponents)
  {
    var s := "lorem ipsum";
    MajorRejected(true, s, "", s);
    MajorRejected(false, s, "", s);
    ParseStringNoMatch(true, s);
    ParseStringNoMatch(false, s);
  }

  lemma InvalidString2()
    ensures ParseString(true, "a.0.0-alpha+deadbeef") == Failure(InvalidComponents)
    ensures ParseString(false, "a.0.0-alpha+deadbeef") == Failure(InvalidComponents)
  {
    var s := "a.0.0-alpha+deadbeef";
    MajorRejected(true, s, "", s);
    MajorRejected(false, s, "", s);
    ParseStringNoMatch(true, s);
    ParseStringNoMatch(false, s);
  }

  lemma InvalidString3()
    ensures ParseString(true, "0.b.0-alpha+deadbeef") == Failure(InvalidComponents)
    ensures ParseString(false, "0.b.0-alpha+deadbeef") == Failure(InvalidComponents)
  {
    var s := "0.b.0-alpha+deadbeef";
    MinorRejected(true, s, "0", "", "b.0-alpha+deadbeef");
    MinorRejected(false, s, "0", "", "b.0-alpha+deadbeef");
    ParseStringNoMatch(true, s);
    ParseStringNoMatch(false, s);
  }

  lemma InvalidString4()
    ensures ParseString(true, "0.0.c-alpha+deadbeef") == Failure(InvalidComponents)
    ensures ParseString(false, "0.0.c-alpha+deadbeef") == Failure(InvalidComponents)
  {
    var s := "0.0.c-alpha+deadbeef";
    PatchRejected(true, s, "0", "0", "", "c-alpha+deadbeef");
    PatchRejected(false, s, "0", "0", "", "c-alpha+deadbeef");
    ParseStringNoMatch(true, s);
    ParseStringNoMatch(false, s);
  }

  lemma InvalidString5()
    ensures ParseString(true, "0.0.0- +deadbeef") == Failure(InvalidComponents)
    ensures ParseString(false, "0.0.0- +deadbeef") == Failure(InvalidComponents)
  {
    InvalidSuffix5();
    RejectedAtSuffix(true, "0.0.0- +deadbeef", "0", Some("0"), Some("0"), "- +deadbeef");
    RejectedAtSuffix(false, "0.0.0- +deadbeef", "0", Some("0"), Some("0"), "- +deadbeef");
  }

  lemma InvalidString6()
    ensures ParseString(true, "0.0.0-+deadbeef") == Failure(InvalidComponents)
    ensures ParseString(false, "0.0.0-+deadbeef") == Failure(InvalidComponents)
  {
    InvalidSuffix6();
    RejectedAtSuffix(true, "0.0.0-+deadbeef", "0", Some("0"), Some("0"), "-+deadbeef");
    RejectedAtSuffix(false, "0.0.0-+deadbeef", "0", Some("0"), Some("0"), "-+deadbeef");
  }

  lemma InvalidString7()
    ensures ParseString(true, "0.0.0-+") == Failure(InvalidComponents)
    ensures ParseString(false, "0.0.0-+") == Failure(InvalidComponents)
  {
    InvalidSuffix7();
    RejectedAtSuffix(true, "0.0.0-+", "0", Some("0"), Some("0"), "-+");
    RejectedAtSuffix(false, "0.0.0-+", "0", Some("0"), Some("0"), "-+");
  }

  lemma InvalidString8()
    ensures ParseString(true, "0.0.0-_+deadbeef") == Failure(InvalidComponents)
    ensures ParseString(false, "0.0.0-_+deadbeef") == Failure(InvalidComponents)
  {
    InvalidSuffix8();
    RejectedAtSuffix(true, "0.0.0-_+deadbeef", "0", Some("0"), Some("0"), "-_+deadbeef");
    RejectedAtSuffix(false, "0.0.0-_+deadbeef", "0", Some("0"), Some("0"), "-_+deadbeef");
  }

  lemma InvalidString9()
    ensures ParseString(true, "0.0.0-alpha+_") == Failure(InvalidComponents)
    ensures ParseString(false, "0.0.0-alpha+_") == Failure(InvalidComponents)
  {
    InvalidSuffix9();
    RejectedAtSuffix(true, "0.0.0-alpha+_", "0", Some("0"), Some("0"), "-alpha+_");
    RejectedAtSuffix(false, "0.0.0-alpha+_", "0", Some("0"), Some("0"), "-alpha+_");
  }

  /** Both modes reject every invalid string of the parser tests, with `InvalidComponents`. */
  lemma InvalidStringsRejected()
    ensures ParseString(true, "") == Failure(InvalidComponents)
    ensures ParseString(false, "") == Failure(InvalidComponents)
    ensures ParseString(true, "lorem ipsum") == Failure(InvalidComponents)
    ensures ParseString(false, "lorem ipsum") == Failure(InvalidComponents)
    ensures ParseString(true, "a.0.0-alpha+deadbeef") == Failure(InvalidComponents)
    ensures ParseString(false, "a.0.0-alpha+deadbeef") == Failure(InvalidComponents)
    ensures ParseString(true, "0.b.0-alpha+deadbeef") == Failure(InvalidComponents)
    ensures ParseString(false, "0.b.0-alpha+deadbeef") == Failure(InvalidComponents)
    ensures ParseString(true, "0.0.c-alpha+deadbeef") == Failure(InvalidComponents)
    ensures ParseString(false, "0.0.c-alpha+deadbeef") == Failure(InvalidComponents)
    ensures ParseString(true, "0.0.0- +deadbeef") == Failure(InvalidComponents)
    ensures ParseString(false, "0.0.0- +deadbeef") == Failure(InvalidComponents)
    ensures ParseString(true, "0.0.0-+deadbeef") == Failure(InvalidComponents)
    ensures ParseString(false, "0.0.0-+deadbeef") == Failure(InvalidComponents)
    ensures ParseString(true, "0.0.0-+") == Failure(InvalidComponents)
    ensures ParseString(false, "0.0.0-+") == Failure(InvalidComponents)
    ensures ParseString(true, "0.0.0-_+deadbeef") == Failure(InvalidComponents)
    ensures ParseString(false, "0.0.0-_+deadbeef") == Failure(InvalidComponents)
    ensures ParseString(true, "0.0.0-alpha+_") == Failure(InvalidComponents)
    ensures ParseString(false, "0.0.0-alpha+_") == Failure(InvalidComponents)
  {
    InvalidString0();
    InvalidString1();
    InvalidString2();
    InvalidString3();
    InvalidString4();
    InvalidString5();
    InvalidString6();
    InvalidString7();
    InvalidString8();
    InvalidString9();
  }

  // ---------------------------------------------------------------------------
  // VersionTests/VersionTests.swift

  /** The version VersionTests compares against, `1.2.3-alpha1+B001`. */
  const Sample: Version := Version(1, Some(2), Some(3), Some("alpha1"), Some("B001"))

  /** testEquatable: the sample equals a copy of itself and differs from versions that change
      major, minor, patch or pre-release; beyond the tests, `==` ignores the build and treats an
      absent minor or patch as 0, while `===` does not ignore the build. */
  lemma EquatableExamples()
    ensures Equal(Sample, Version(1, Some(2), Some(3), Some("alpha1"), Some("B001")))
    ensures !Equal(Sample, Version(2, Some(2), Some(3), Some("alpha1"), Some("B001")))
    ensures !Equal(Sample, Version(1, Some(3), Some(3), Some("alpha1"), Some("B001")))
    ensures !Equal(Sample, Version(1, Some(2), Some(4), Some("alpha1"), Some("B001")))
    ensures !Equal(Sample, Version(1, Some(2), Some(3), Some("alpha2"), Some("B001")))
    ensures !Equal(Sample, Version(1, Some(2), Some(3), Some("alpha2"), Some("B002")))
    ensures Equal(Sample, Version(1, Some(2), Some(3), Some("alpha1"), Some("B002")))
    ensures NotIdentical(Sample, Version(1, Some(2), Some(3), Some("alpha1"), Some("B002")))
    ensures Identical(Version(1, None, None, None, None), Version(1, Some(0), Some(0), None, None))
  {
    assert "alpha1" != "alpha2" by {
      assert "alpha1"[5] != "alpha2"[5];
    }
    assert "B001" != "B002" by {
      assert "B001"[3] != "B002"[3];
    }
  }

  /** testStringLiteralConvertible: the literal `"1.2.3-alpha1+B001"` is the sample itself, in
      both modes. */
  lemma StringLiteralExample()
    ensures ParseString(false, "1.2.3-alpha1+B001") == Success(Sample)
    ensures ParseString(true, "1.2.3-alpha1+B001") == Success(Sample)
    ensures Identical(ParseString(false, "1.2.3-alpha1+B001").value, Sample)
  {
    assert AllIn(PrereleaseChars, "alpha1") && AllIn(BuildChars, "B001");
    ParsesInBothModes("1.2.3-alpha1+B001", Sample);
  }

  /** testPrintable: `description` writes exactly the components present. */
  lemma PrintableExamples()
    ensures Description(Version(1, None, None, None, None)) == "1"
    ensures Description(Version(1, Some(2), None, None, None)) == "1.2"
    ensures Description(Version(1, Some(2), Some(3), None, None)) == "1.2.3"
    ensures Description(Version(1, Some(2), Some(3), Some("alpha1"), None)) == "1.2.3-alpha1"
    ensures Description(Sample) == "1.2.3-alpha1+B001"
  {
  }

  lemma ComparableLiteral0()
    ensures ParseString(false, "2.0") == Success(Version(2, Some(0), None, None, None))
  {
    ParsesLeniently("2.0", Version(2, Some(0), None, None, None));
  }

  lemma ComparableLiteral1()
    ensures ParseString(false, "1.3") == Success(Version(1, Some(3), None, None, None))
  {
    ParsesLeniently("1.3", Version(1, Some(3), None, None, None));
  }

  lemma ComparableLiteral2()
    ensures ParseString(false, "1.2.4") == Success(Version(1, Some(2), Some(4), None, None))
  {
    ParsesLeniently("1.2.4", Version(1, Some(2), Some(4), None, None));
  }

  lemma ComparableLiteral3()
    ensures ParseString(false, "1.2.3-alpha1+B002") == Success(Version(1, Some(2), Some(3), Some("alpha1"), Some("B002")))
  {
    assert AllIn(PrereleaseChars, "alpha1") && AllIn(BuildChars, "B002");
    ParsesLeniently("1.2.3-alpha1+B002", Version(1, Some(2), Some(3), Some("alpha1"), Some("B002")));
  }

  lemma ComparableLiteral4()
    ensures ParseString(false, "1.2.3-alpha2+B001") == Success(Version(1, Some(2), Some(3), Some("alpha2"), Some("B001")))
  {
    assert AllIn(PrereleaseChars, "alpha2") && AllIn(BuildChars, "B001");
    ParsesLeniently("1.2.3-alpha2+B001", Version(1, Some(2), Some(3), Some("alpha2"), Some("B001")));
  }

  lemma ComparableLiteral5()
    ensures ParseString(false, "1.2.2") == Success(Version(1, Some(2), Some(2), None, None))
  {
    ParsesLeniently("1.2.2", Version(1, Some(2), Some(2), None, None));
  }

  lemma ComparableLiteral6()
    ensures ParseString(false, "1.1.3") == Success(Version(1, Some(1), Some(3), None, None))
  {
    ParsesLeniently("1.1.3", Version(1, Some(1), Some(3), None, None));
  }

  lemma ComparableLiteral7()
    ensures ParseString(false, "1") == Success(Version(1, None, None, None, None))
  {
    ParsesLeniently("1", Version(1, None, None, None, None));
  }

  lemma ComparableLiteral8()
    ensures ParseString(false, "0.1") == Success(Version(0, Some(1), None, None, None))
  {
    ParsesLeniently("0.1", Version(0, Some(1), None, None, None));
  }

  lemma ComparableLiteral9()
    ensures ParseString(false, "0.0.1") == Success(Version(0, Some(0), Some(1), None, None))
  {
    ParsesLeniently("0.0.1", Version(0, Some(0), Some(1), None, None));
  }

  lemma ComparableLiteral10()
    ensures ParseString(false, "1.2.3") == Success(Version(1, Some(2), Some(3), None, None))
  {
    ParsesLeniently("1.2.3", Version(1, Some(2), Some(3), None, None));
  }

  /** The literals testComparable compares the sample with, and the versions they denote. */
  lemma ComparableLiteralsParse()
    ensures ParseString(false, "2.0") == Success(Version(2, Some(0), None, None, None))
    ensures ParseString(false, "1.3") == Success(Version(1, Some(3), None, None, None))
    ensures ParseString(false, "1.2.4") == Success(Version(1, Some(2), Some(4), None, None))
    ensures ParseString(false, "1.2.3-alpha1+B002") == Success(Version(1, Some(2), Some(3), Some("alpha1"), Some("B002")))
    ensures ParseString(false, "1.2.3-alpha2+B001") == Success(Version(1, Some(2), Some(3), Some("alpha2"), Some("B001")))
    ensures ParseString(false, "1.2.2") == Success(Version(1, Some(2), Some(2), None, None))
    ensures ParseString(false, "1.1.3") == Success(Version(1, Some(1), Some(3), None, None))
    ensures ParseString(false, "1") == Success(Version(1, None, None, None, None))
    ensures ParseString(false, "0.1") == Success(Version(0, Some(1), None, None, None))
    ensures ParseString(false, "0.0.1") == Success(Version(0, Some(0), Some(1), None, None))
    ensures ParseString(false, "1.2.3") == Success(Version(1, Some(2), Some(3), None, None))
  {
    ComparableLiteral0();
    ComparableLiteral1();
    ComparableLiteral2();
    ComparableLiteral3();
    ComparableLiteral4();
    ComparableLiteral5();
    ComparableLiteral6();
    ComparableLiteral7();
    ComparableLiteral8();
    ComparableLiteral9();
    ComparableLiteral10();
  }

  /** testComparable, lines 39 to 50, except line 42: the sample is below versions with a
      higher major, minor, patch or pre-release, `<=` itself, and above versions lower in one
      of them, an absent minor or patch counting as 0. The commented-out line 47 holds too: a
      pre-release sorts before its release. */
  lemma ComparableExamples()
    ensures Less(Sample, Version(2, Some(0), None, None, None))
    ensures Less(Sample, Version(1, Some(3), None, None, None))
    ensures Less(Sample, Version(1, Some(2), Some(4), None, None))
    ensures Less(Sample, Version(1, Some(2), Some(3), Some("alpha2"), Some("B001")))
    ensures !Less(Sample, Sample)
    ensures Less(Version(1, Some(2), Some(2), None, None), Sample)
    ensures Less(Version(1, Some(1), Some(3), None, None), Sample)
    ensures Less(Sample, Version(1, Some(2), Some(3), None, None))
    ensures Less(Version(1, None, None, None, None), Sample)
    ensures Less(Version(0, Some(1), None, None, None), Sample)
    ensures Less(Version(0, Some(0), Some(1), None, None), Sample)
  {
    assert Split("alpha1") == ["alpha1"] && Split("alpha2") == ["alpha2"];
    assert !IsNumeric("alpha1") && !IsNumeric("alpha2");
    assert StringLess("alpha1", "alpha2") by {
      assert "alpha1"[..5] == "alpha2"[..5];
    }
    LessIrreflexive(Sample);
  }

  /** testComparable, line 42, does not hold: `<` ignores the build, so the sample is not below
      `1.2.3-alpha1+B002`; the two are `==` and neither is below the other. */
  lemma BuildDoesNotOrder()
    ensures !Less(Sample, Version(1, Some(2), Some(3), Some("alpha1"), Some("B002")))
    ensures !Less(Version(1, Some(2), Some(3), Some("alpha1"), Some("B002")), Sample)
    ensures Equal(Sample, Version(1, Some(2), Some(3), Some("alpha1"), Some("B002")))
  {
    LessRespectsEqual(Sample, Sample, Sample, Version(1, Some(2), Some(3), Some("alpha1"), Some("B002")));
    LessRespectsEqual(Sample, Version(1, Some(2), Some(3), Some("alpha1"), Some("B002")), Sample, Sample);
    LessIrreflexive(Sample);
  }

  lemma PrereleaseStep0()
    ensures Less(Version(1, Some(0), Some(0), Some("alpha"), None), Version(1, Some(0), Some(0), Some("alpha.1"), None))
  {
    SplitJoin(["alpha"]);
    assert Join(["alpha"]) == "alpha";
    SplitJoin(["alpha", "1"]);
    assert Join(["alpha", "1"]) == "alpha.1";
  }

  lemma PrereleaseStep1()
    ensures Less(Version(1, Some(0), Some(0), Some("alpha.1"), None), Version(1, Some(0), Some(0), Some("alpha.beta"), None))
  {
    SplitJoin(["alpha", "1"]);
    assert Join(["alpha", "1"]) == "alpha.1";
    SplitJoin(["alpha", "beta"]);
    assert Join(["alpha", "beta"]) == "alpha.beta";
    assert CompareIdentifiers("1", "beta") == Ascending by {
      assert !InClass(Digits, "beta"[0]);
      assert StringLess("1", "beta");
    }
    FirstDifferenceAt(["alpha", "1"], ["alpha", "beta"], 1);
  }

  lemma PrereleaseStep2()
    ensures Less(Version(1, Some(0), Some(0), Some("alpha.beta"), None), Version(1, Some(0), Some(0), Some("beta"), None))
  {
    SplitJoin(["alpha", "beta"]);
    assert Join(["alpha", "beta"]) == "alpha.beta";
    SplitJoin(["beta"]);
    assert Join(["beta"]) == "beta";
    assert CompareIdentifiers("alpha", "beta") == Ascending by {
      assert !InClass(Digits, "alpha"[0]);
      assert StringLess("alpha", "beta");
    }
    FirstDifferenceAt(["alpha", "beta"], ["beta"], 0);
  }

  lemma PrereleaseStep3()
    ensures Less(Version(1, Some(0), Some(0), Some("beta"), None), Version(1, Some(0), Some(0), Some("beta.2"), None))
  {
    SplitJoin(["beta"]);
    assert Join(["beta"]) == "beta";
    SplitJoin(["beta", "2"]);
    assert Join(["beta", "2"]) == "beta.2";
  }

  lemma PrereleaseStep4()
    ensures Less(Version(1, Some(0), Some(0), Some("beta.2"), None), Version(1, Some(0), Some(0), Some("beta.11"), None))
  {
    SplitJoin(["beta", "2"]);
    assert Join(["beta", "2"]) == "beta.2";
    SplitJoin(["beta", "11"]);
    assert Join(["beta", "11"]) == "beta.11";
    assert CompareIdentifiers("2", "11") == Ascending by {
      ValueOfShort('2', '0');
      ValueOfShort('1', '1');
      assert IsNumeric("2") && IsNumeric("11");
      assert ParseInt("2") == Some(2) && ParseInt("11") == Some(11);
    }
    FirstDifferenceAt(["beta", "2"], ["beta", "11"], 1);
  }

  lemma PrereleaseStep5()
    ensures Less(Version(1, Some(0), Some(0), Some("beta.11"), None), Version(1, Some(0), Some(0), Some("rc.1"), None))
  {
    SplitJoin(["beta", "11"]);
    assert Join(["beta", "11"]) == "beta.11";
    SplitJoin(["rc", "1"]);
    assert Join(["rc", "1"]) == "rc.1";
    assert CompareIdentifiers("beta", "rc") == Ascending by {
      assert !InClass(Digits, "beta"[0]);
      assert StringLess("beta", "rc");
    }
    FirstDifferenceAt(["beta", "11"], ["rc", "1"], 0);
  }

  lemma PrereleaseStep6()
    ensures Less(Version(1, Some(0), Some(0), Some("rc.1"), None), Version(1, Some(0), Some(0), None, None))
  {
  }

  /** The pre-release ordering example of section 11 of Semantic Versioning 2.0.0, which the
      model's `<` reproduces: numeric identifiers compare as numbers, a numeric identifier sorts
      below an alphanumeric one, a longer list of identifiers above its prefix, and a pre-release
      below its release. */
  lemma PrereleaseChain()
    ensures Less(Version(1, Some(0), Some(0), Some("alpha"), None), Version(1, Some(0), Some(0), Some("alpha.1"), None))
    ensures Less(Version(1, Some(0), Some(0), Some("alpha.1"), None), Version(1, Some(0), Some(0), Some("alpha.beta"), None))
    ensures Less(Version(1, Some(0), Some(0), Some("alpha.beta"), None), Version(1, Some(0), Some(0), Some("beta"), None))
    ensures Less(Version(1, Some(0), Some(0), Some("beta"), None), Version(1, Some(0), Some(0), Some("beta.2"), None))
    ensures Less(Version(1, Some(0), Some(0), Some("beta.2"), None), Version(1, Some(0), Some(0), Some("beta.11"), None))
    ensures Less(Version(1, Some(0), Some(0), Some("beta.11"), None), Version(1, Some(0), Some(0), Some("rc.1"), None))
    ensures Less(Version(1, Some(0), Some(0), Some("rc.1"), None), Version(1, Some(0), Some(0), None, None))
  {
    PrereleaseStep0();
    PrereleaseStep1();
    PrereleaseStep2();
    PrereleaseStep3();
    PrereleaseStep4();
    PrereleaseStep5();
    PrereleaseStep6();
  }

  /** `valid(string:strict:)` accepts a fully specified version, whatever `strict` says. */
  lemma ValidAcceptsExample()
    ensures IsValid("1.2.3", false) && IsValid("1.2.3", true)
  {
    ValidString14();
    IsValidAndParse("1.2.3", false);
    IsValidAndParse("1.2.3", true);
  }

  /** `valid(string:strict:)` rejects a leading zero even when asked for lenient mode, although
      the lenient parser accepts the string. */
  lemma ValidRejectsExample()
    ensures !IsValid("01.2.3", false) && !IsValid("01.2.3", true)
    ensures ParseString(false, "01.2.3").Success?
  {
    MajorRejected(true, "01.2.3", "01", ".2.3");
    IsValidIgnoresStrict("01.2.3", false);
    LeadingZerosLenient12();
  }

  /** The pre-release class admits `.` anywhere, so a pre-release of empty identifiers is read
      in both modes. */
  lemma EmptyIdentifiersAccepted()
    ensures ParseString(true, "1.0.0-.") == Success(Version(1, Some(0), Some(0), Some("."), None))
    ensures ParseString(false, "1.0.0-.") == Success(Version(1, Some(0), Some(0), Some("."), None))
  {
    assert AllIn(PrereleaseChars, ".");
    ParsesInBothModes("1.0.0-.", Version(1, Some(0), Some(0), Some("."), None));
  }
}
