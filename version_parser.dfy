/**
 * The `VersionParser` of Sources/Version/VersionParser.swift: its errors, its two
 * modes, `parse(components:)` (a sequence of checks, each with its own error) and
 * `parse(string:)` (the anchored version regex, then `parse(components:)`), with
 * the round trips between parsing and `description`.
 */
module VersionParsing {
  import opened Wrappers
  import opened Decimal
  import opened VersionGrammar
  import opened Versions

  /** `VersionParserError`. */
  datatype ParserError =
    | MissingMinorComponent
    | MissingPatchComponent
    | InvalidComponents
    | InvalidMajorComponent
    | InvalidMinorComponent
    | InvalidPatchComponent

  /** `component.flatMap { Int($0) }`. */
  function IntOfGroup(g: Group): Option<SwiftInt> {
    match g
    case None => None
    case Some(s) => ParseInt(s)
  }

  /** What `parse(components:)` returns or throws, as a function of the mode and the list. */
  function InterpretComponents(strict: bool, c: seq<Group>): Result<Version, ParserError> {
    if |c| != 6 then Failure(InvalidComponents)
    else if strict && c[2].None? then Failure(MissingMinorComponent)
    else if strict && c[3].None? then Failure(MissingPatchComponent)
    else if IntOfGroup(c[1]).None? then Failure(InvalidMajorComponent)
    else if c[2].Some? && IntOfGroup(c[2]).None? then Failure(InvalidMinorComponent)
    else if c[3].Some? && IntOfGroup(c[3]).None? then Failure(InvalidPatchComponent)
    else Success(Version(IntOfGroup(c[1]).value,
      if c[2].Some? then Some(IntOfGroup(c[2]).value) else None,
      if c[3].Some? then Some(IntOfGroup(c[3]).value) else None,
      c[4], c[5]))
  }

  /** What `parse(string:)` returns or throws. */
  function ParseString(strict: bool, s: string): Result<Version, ParserError> {
    InterpretComponents(strict, MatchVersion(strict, s))
  }

  /** A parser in strict or lenient mode; `init(strict:)` derives both regexes from the mode. */
  datatype VersionParser = VersionParser(strict: bool) {

    /** `versionRegex.groupsOfFirstMatch(string:)`: the parser's `versionRegex` field, built by
        `init(strict:)` from the mode, read through `MatchVersion`. */
    function VersionRegexGroups(s: string): seq<Group> {
      MatchVersion(strict, s)
    }

    /** `numberRegex.match(string:)`: the parser's `numberRegex` field, built by `init(strict:)`
        from the mode, as written. `parse` never consults it; `compareNumeric` consults the
        lenient parser's (`LenientNumberRegexMatch`). */
    predicate NumberRegexMatch(s: string) {
      NumberRegexAsWritten(strict, s)
    }

    /** `parse(components:)`: starts from `Version()` and assigns the fields one by one between
        the checks, throwing at the first that fails. */
    method ParseComponents(components: seq<Group>) returns (r: Result<Version, ParserError>)
      ensures r == InterpretComponents(strict, components)
      ensures |components| != 6 ==> r == Failure(InvalidComponents)
      ensures r.Success? ==> r.value.prerelease == components[4] && r.value.build == components[5]
    {
      var version := new VersionVar(Make(0, None, None, None, None));

      if |components| != 6 {
        return Failure(InvalidComponents);
      }

      if strict {
        if components[2].None? {
          return Failure(MissingMinorComponent);
        } else if components[3].None? {
          return Failure(MissingPatchComponent);
        }
      }

      var majorComponent := components[1];
      var minorComponent := components[2];
      var patchComponent := components[3];

      var major := IntOfGroup(majorComponent);
      if major.Some? {
        version.SetMajor(major.value);
      } else {
        return Failure(InvalidMajorComponent);
      }

      var minor := IntOfGroup(minorComponent);
      if minor.Some? {
        version.SetMinor(minor);
      } else if minorComponent.Some? {
        return Failure(InvalidMinorComponent);
      }

      var patch := IntOfGroup(patchComponent);
      if patch.Some? {
        version.SetPatch(patch);
      } else if patchComponent.Some? {
        return Failure(InvalidPatchComponent);
      }

      version.SetPrerelease(components[4]);
      version.SetBuild(components[5]);

      return Success(version.Value());
    }

    /** `parse(string:)`. */
    method Parse(s: string) returns (r: Result<Version, ParserError>)
      ensures r == ParseString(strict, s)
    {
      var components := VersionRegexGroups(s);
      r := ParseComponents(components);
    }
  }

  /** `Version.init(_:strict:)`: parses with a parser of the given mode and rethrows its error. */
  method VersionFromString(s: string, strict: bool) returns (r: Result<Version, ParserError>)
    ensures r == ParseString(strict, s)
  {
    var parser := VersionParser(strict);
    r := parser.Parse(s);
  }

  /** `Version.lenientParser.numberRegex.match(string:)`, which `compareNumeric` applies to a
      pair of identifiers, is `IsNumeric`: a non-empty run of digits. */
  lemma LenientNumberRegexMatch(s: string)
    ensures VersionParser(false).NumberRegexMatch(s) <==> IsNumeric(s)
    ensures VersionParser(false).NumberRegexMatch(s) <==> |s| > 0 && AllDigits(s)
  {
  }

  // ---------------------------------------------------------------------------
  // parse(components:)

  /** The checks of `parse(components:)` and the order they run in: each error is thrown exactly
      when its own check fails and every earlier one passed; lenient mode never reports a missing
      component; a parsed version takes an absent minor or patch group as `nil`, not 0, and copies
      the pre-release and build groups verbatim. */
  lemma InterpretComponentsCases(strict: bool, c: seq<Group>)
    ensures var r := InterpretComponents(strict, c);
      && (r == Failure(InvalidComponents) <==> |c| != 6)
      && (r == Failure(MissingMinorComponent) <==> |c| == 6 && strict && c[2].None?)
      && (r == Failure(MissingPatchComponent) <==> |c| == 6 && strict && c[2].Some? && c[3].None?)
      && (r == Failure(InvalidMajorComponent) <==>
            |c| == 6 && (strict ==> c[2].Some? && c[3].Some?) && IntOfGroup(c[1]).None?)
      && (r == Failure(InvalidMinorComponent) <==>
            |c| == 6 && (strict ==> c[2].Some? && c[3].Some?) && IntOfGroup(c[1]).Some?
            && c[2].Some? && IntOfGroup(c[2]).None?)
      && (r == Failure(InvalidPatchComponent) <==>
            |c| == 6 && (strict ==> c[2].Some? && c[3].Some?) && IntOfGroup(c[1]).Some?
            && (c[2].Some? ==> IntOfGroup(c[2]).Some?) && c[3].Some? && IntOfGroup(c[3]).None?)
      && (!strict ==> r != Failure(MissingMinorComponent) && r != Failure(MissingPatchComponent))
      && (r.Success? ==>
            && r.value.major == IntOfGroup(c[1]).value
            && (r.value.minor.None? <==> c[2].None?)
            && (c[2].Some? ==> r.value.minor.value == IntOfGroup(c[2]).value)
            && (r.value.patch.None? <==> c[3].None?)
            && (c[3].Some? ==> r.value.patch.value == IntOfGroup(c[3]).value)
            && r.value.prerelease == c[4] && r.value.build == c[5])
  {
  }

  // ---------------------------------------------------------------------------
  // parse(string:)

  /** A string outside the pattern's language yields no groups and so `InvalidComponents`, and
      that is the only way for a string to get that error. */
  lemma ParseStringNoMatch(strict: bool, s: string)
    ensures ParseString(strict, s) == Failure(InvalidComponents) <==> Recognize(strict, s).None?
  {
  }

  /** On a string of the pattern's language, `parse(string:)` fails only for a number past
      `Int.max` (checked in the order major, minor, patch); otherwise each number group is
      converted, an absent group stays `nil`, and pre-release and build are the groups verbatim. */
  lemma ParseConforming(strict: bool, p: Parts)
    requires Conforms(strict, p)
    ensures ParseString(strict, Compose(p)) ==
      if ParseInt(p.major).None? then Failure(InvalidMajorComponent)
      else if p.minor.Some? && ParseInt(p.minor.value).None? then Failure(InvalidMinorComponent)
      else if p.patch.Some? && ParseInt(p.patch.value).None? then Failure(InvalidPatchComponent)
      else Success(Version(ParseInt(p.major).value,
        if p.minor.Some? then Some(ParseInt(p.minor.value).value) else None,
        if p.patch.Some? then Some(ParseInt(p.patch.value).value) else None,
        p.prerelease, p.build))
  {
    RecognizeComplete(strict, p);
  }

  /** Parsing a string never reports a missing component: the strict pattern demands minor and
      patch, and lenient mode does not check for them. */
  lemma ParseStringNeverMissing(strict: bool, s: string)
    ensures ParseString(strict, s) != Failure(MissingMinorComponent)
    ensures ParseString(strict, s) != Failure(MissingPatchComponent)
  {
    if Recognize(strict, s).Some? {
      RecognizeSound(strict, s);
    }
  }

  /** What strict mode parses, lenient mode parses to the same version. */
  lemma StrictParseIsLenientParse(s: string)
    requires ParseString(true, s).Success?
    ensures ParseString(false, s) == ParseString(true, s)
  {
    StrictMatchIsLenientMatch(s);
  }

  // ---------------------------------------------------------------------------
  // Round trips with description

  /** `"\(n)"` of an `Int` converts back to the same `Int`. */
  lemma ParseIntRender(n: NonNegInt)
    ensures ParseInt(Render(n)) == Some(n)
  {
  }

  lemma RenderIsNumber(strict: bool, n: nat)
    ensures IsNumber(strict, Render(n))
  {
    var s := Render(n);
    forall i | 0 <= i < |s| ensures InClass(Digits, s[i]) {
      assert IsDigit(s[i]);
    }
  }

  function RenderGroup(n: Option<NonNegInt>): Group {
    match n
    case None => None
    case Some(x) => Some(Render(x))
  }

  /** The groups a version's description is made of. */
  function RenderedParts(v: Version): Parts {
    Parts(Render(v.major), RenderGroup(v.minor), RenderGroup(v.patch), v.prerelease, v.build)
  }

  /** The versions whose description the parser of a mode reads back: patch only with minor, both
      present in strict mode, and a pre-release and build drawn from the pattern's classes. */
  predicate Printable(strict: bool, v: Version) {
    && (v.patch.Some? ==> v.minor.Some?)
    && (strict ==> IsCanonical(v))
    && (v.prerelease.Some? ==> |v.prerelease.value| > 0 && AllIn(PrereleaseChars, v.prerelease.value))
    && (v.build.Some? ==> |v.build.value| > 0 && AllIn(BuildChars, v.build.value))
  }

  /** `description` writes out the groups of the version pattern. */
  lemma DescriptionIsCompose(v: Version)
    ensures Description(v) == Compose(RenderedParts(v))
  {
  }

  /** Parsing the description of a printable version gives back that very version (so in
      particular one `===` to it); absent minor and patch stay absent. */
  lemma ParseDescription(strict: bool, v: Version)
    requires Printable(strict, v)
    ensures ParseString(strict, Description(v)) == Success(v)
  {
    var p := RenderedParts(v);
    RenderIsNumber(strict, v.major);
    if v.minor.Some? {
      RenderIsNumber(strict, v.minor.value);
      ParseIntRender(v.minor.value);
    }
    if v.patch.Some? {
      RenderIsNumber(strict, v.patch.value);
      ParseIntRender(v.patch.value);
    }
    ParseIntRender(v.major);
    assert Conforms(strict, p);
    DescriptionIsCompose(v);
    ParseConforming(strict, p);
  }

  /** The strict parser and `description` are inverse: a string strict mode accepts is the
      description of the version it parses to. */
  lemma DescriptionOfStrictParse(s: string)
    requires ParseString(true, s).Success?
    ensures Description(ParseString(true, s).value) == s
  {
    RecognizeSound(true, s);
    var p := Recognize(true, s).value;
    ParseConforming(true, p);
    var v := ParseString(true, s).value;
    RenderedGroup(p.major, Some(v.major));
    RenderedGroup(p.minor.value, v.minor);
    RenderedGroup(p.patch.value, v.patch);
    assert RenderedParts(v) == p;
    DescriptionIsCompose(v);
  }

  /** A strict number group is the rendering of the value it converts to. */
  lemma RenderedGroup(g: string, n: Option<NonNegInt>)
    requires IsNumber(true, g) && n.Some? && n == ParseInt(g)
    ensures RenderGroup(n) == Some(g)
  {
    NumberDigits(true, g);
    RenderValueOf(g);
  }

  // ---------------------------------------------------------------------------
  // valid(string:strict:)

  /** `valid(string:strict:)` gives the same answer for both values of `strict`, and it is the
      strict grammar that decides it, even when lenient mode is asked for. */
  lemma IsValidIgnoresStrict(s: string, strict: bool)
    ensures IsValid(s, strict) == IsValid(s, !strict)
    ensures IsValid(s, strict) <==> Recognize(true, s).Some?
  {
  }

  /** A string strict mode parses is valid; a valid string parses in both modes unless one of its
      numbers is past `Int.max`. */
  lemma IsValidAndParse(s: string, strict: bool)
    ensures ParseString(true, s).Success? ==> IsValid(s, strict)
    ensures IsValid(s, strict) ==>
      ParseString(true, s).Success?
      || ParseString(true, s) in {Failure(InvalidMajorComponent), Failure(InvalidMinorComponent),
                                  Failure(InvalidPatchComponent)}
  {
    if IsValid(s, strict) {
      RecognizeSound(true, s);
    }
  }
}
