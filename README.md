# Version: a Semantic Versioning value type and its parser, in Dafny

This project models the current library tree of the Swift package `Version`: the `Version`
value type of `Sources/Version/Version.swift` and the `VersionParser` of
`Sources/Version/VersionParser.swift`. It proves what the two files promise.

A `Version` has:
- a required non-negative `major`;
- an optional `minor` and an optional `patch`;
- an optional pre-release string and an optional build string.

On top of that record the library defines:
- canonical views, where an absent minor or patch reads as 0;
- in-place canonicalisation;
- build-insensitive equality `==` and build-sensitive identity `===`/`!==`;
- a hash over the fields that `==` compares;
- a tiered precedence `<` that follows section 11 of Semantic Versioning 2.0.0, with the
  deviations listed below;
- a textual `description`;
- `valid(string:strict:)`.

The parser has a strict and a lenient mode. Each mode has a fixed grammar, written as regular
expressions: strict demands `N.N.N` without leading zeros, lenient makes minor and patch optional
and allows leading zeros. `parse(string:)` matches the whole input against the version pattern and
hands the six capture groups to `parse(components:)`. That method runs a fixed sequence of checks
and throws a distinct error at each failure.

Modules, one file each:
- `Wrappers` (wrappers.dfy): `Option` and `Result`.
- `Decimal` (decimal.dfy): the Swift `Int` range, decimal digit strings, `"\(n)"` (`Render`) and
  `Int(String)` on digit strings (`ParseInt`).
- `VersionGrammar` (grammar.dfy):
  - the number and version patterns as a hand-written recognizer (`Recognize`, `MatchVersion`);
  - a reference grammar (`Conforms`, `Compose`) that the recognizer is proved sound and complete
    against.
- `Versions` (version.dfy):
  - the `Version` datatype and its operations;
  - the ordering lemmas;
  - a class `VersionVar` for a `var` of type `Version`, whose field assignments run the `didSet`
    checks and whose `Canonicalize` overwrites minor and patch in place.
- `VersionParsing` (version_parser.dfy):
  - the errors;
  - the `VersionParser` with its imperative `ParseComponents`, which builds the version step by
    step in a `VersionVar`;
  - the round trips between parsing and `description`.
- `VersionExamples` (examples.dfy): the scenarios of the repository's test suites, restated about
  the model. The lemmas named `ValidString<i>`, `SemiValidString<i>`, `LeadingZeros*<i>`,
  `InvalidSuffix<i>`, `InvalidString<i>`, `ComparableLiteral<i>` and `PrereleaseStep<i>` are the
  per-entry proof steps of the summary lemmas listed in the table.

Where the code and the library's description of itself disagree, the model follows the code:
- A strict parse of `"1.2"` fails with `InvalidComponents`, not `MissingPatchComponent`. The strict
  pattern needs all three numbers, so the match fails first, and `parse(string:)` can never report
  a missing component (`VersionParsing.ParseStringNeverMissing`).
- `valid(string:strict:)` ignores `strict` and always uses the strict pattern. So
  `valid("01.2.3", strict: false)` is false, although the lenient parser accepts that string
  (`VersionExamples.ValidRejectsExample`).
- `<` is neither transitive nor total up to `==`:
  - A numeric and an alphanumeric identifier are compared as strings, which gives the cycle
    `1.0.0-2 < 1.0.0-10 < 1.0.0-1a < 1.0.0-2` (`Versions.LessHasCycle`).
  - `"01"` and `"1"` are equal as integers but different as strings, so neither
    `1.0.0-01 < 1.0.0-1` nor the reverse holds, and the two are not `==` (`Versions.LessNotTotal`).
  - Transitivity and totality are proved under the conditions that rule these cases out.
- The pre-release class `[0-9A-Za-z-.]` admits empty dot-separated identifiers
  (`VersionExamples.EmptyIdentifiersAccepted`).
- `VersionTests/VersionTests.swift:42` expects the build to take part in ordering. Under the
  current `<` it does not (`VersionExamples.BuildDoesNotOrder`).

## Model

| member | source | states |
|---|---|---|
| Decimal.Render | Sources/Version/Version.swift:241-243 | `"\(n)"` of a non-negative integer is a non-empty digit string without a superfluous leading zero whose decimal value is `n` |
| Decimal.ParseInt | Sources/Version/VersionParser.swift:92-108 | `Int(String)` on a non-empty digit string yields its decimal value exactly when that value is at most `Int.max`, and `nil` past it; a string that is empty or holds a non-digit yields `nil` |
| Decimal.ValueOfPositive | Sources/Version/VersionParser.swift:41 | a digit string that starts with a non-zero digit denotes a positive number |
| Decimal.RenderValueOf | Sources/Version/VersionParser.swift:41 | a digit string without a superfluous leading zero is the rendering of its own value |
| Decimal.ValueOfInjective | Sources/Version/VersionParser.swift:41 | two digit strings without superfluous leading zeros that denote the same number are equal |
| VersionGrammar.Span | Sources/Version/VersionParser.swift:25-29 | the longest prefix of characters from a class: the prefix lies in the class, prefix and rest make up the input, and the rest does not start with a class character |
| VersionGrammar.SpanConcat | Sources/Version/VersionParser.swift:25-29 | a class run followed by a non-class character is split exactly there |
| VersionGrammar.NumberDigits | Sources/Version/VersionParser.swift:39-45 | a number of either mode is a digit string |
| VersionGrammar.IsNumber | Sources/Version/VersionParser.swift:39-45 | computes `numberPatternString(strict:)` as a grammar: a non-empty digit run, and in strict mode `0` or one without a leading zero; `NumberRegexMeaning` characterises it independently |
| VersionGrammar.NumberRegexAsWritten | Sources/Version/VersionParser.swift:47-56 | computes what `numberPattern(strict:anchored: true)` matches as written; `AsWrittenNumberRegexAcceptsNonNumbers` and `LenientNumberRegexAsIntended` state what that is |
| VersionGrammar.NumberRegex | Sources/Version/VersionParser.swift:47-56 | computes the anchored number pattern as intended, one whole number of the mode; `NumberRegexMeaning` states what it accepts |
| VersionGrammar.AsWrittenNumberRegexAcceptsNonNumbers | Sources/Version/VersionParser.swift:47-56 | the anchored strict number pattern as written accepts `"0abc"`, `"x5"` and `"007"`, none of which is a strict number |
| VersionGrammar.LenientNumberRegexAsIntended | Sources/Version/VersionParser.swift:39-56 | in lenient mode the anchored number pattern as written accepts exactly the lenient numbers |
| VersionGrammar.NumberRegexMeaning | Sources/Version/VersionParser.swift:39-45 | a lenient number is any non-empty digit run; a strict number is a digit run that is the rendering of its own value (no leading zero) |
| VersionGrammar.Conforms | Sources/Version/VersionParser.swift:21-37 | computes the reference grammar of the version pattern: numbers of the mode, patch only with minor, both in strict mode, a non-empty pre-release in `[0-9A-Za-z-.]` and a non-empty build in `[0-9A-Za-z-]`; `RecognizeSound` and `RecognizeComplete` relate it to the recognizer |
| VersionGrammar.Compose | Sources/Version/VersionParser.swift:21-37 | computes the text a match with the given groups spans, each present group behind its separator; `ComposeAssociated` and `DescriptionIsCompose` are about it |
| VersionGrammar.DotNumber | Sources/Version/VersionParser.swift:27 | computes one optional `(?:\.(number))` group of the scanner; `DotNumberSound` and `DotNumberOf` state its meaning |
| VersionGrammar.Tagged | Sources/Version/VersionParser.swift:29 | computes one optional `(?:sep([class]+))` group of the scanner; `TaggedSound` and `TaggedOf` state its meaning |
| VersionGrammar.MinorPatch | Sources/Version/VersionParser.swift:24-28 | computes the minor and patch part of the pattern for the mode; `MinorPatchSound` and `MinorPatchOf` state its meaning |
| VersionGrammar.Suffixes | Sources/Version/VersionParser.swift:29-32 | computes the pre-release and build part, which must reach `\z`; `SuffixesSound` and `SuffixesOf` state its meaning |
| VersionGrammar.Recognize | Sources/Version/VersionParser.swift:21-37 | computes the anchored match of `versionPattern(strict:anchored: true)` and its groups; proved sound (`RecognizeSound`) and complete (`RecognizeComplete`) for `Conforms`/`Compose` |
| VersionGrammar.MatchVersion | Sources/Version/Regex.swift:69-75 | `groupsOfFirstMatch` gives no groups exactly when the anchored pattern does not match; otherwise six: the whole input, then groups 1 to 5, which conform to the mode's grammar and compose back to the input |
| VersionGrammar.VersionRegexMatches | Sources/Version/Regex.swift:43-45 | computes `match(string:)` of the anchored version pattern: whether the match has groups; `IsValidIgnoresStrict` states when it holds |
| VersionGrammar.RecognizeAfterNumbers | Sources/Version/VersionParser.swift:24-32 | once conforming numbers are read and the rest starts with `-`, `+` or nothing, the match depends only on the pre-release and build suffix |
| VersionGrammar.MajorRejected | Sources/Version/VersionParser.swift:21-37 | a leading digit run that is not a number of the mode makes the whole match fail |
| VersionGrammar.MinorRejected | Sources/Version/VersionParser.swift:21-37 | a `.` after the major number followed by a digit run that is not a number of the mode makes the match fail |
| VersionGrammar.PatchRejected | Sources/Version/VersionParser.swift:21-37 | likewise for the digit run after the second `.` |
| VersionGrammar.SuffixRejected | Sources/Version/VersionParser.swift:29-32 | conforming numbers followed by text that is not `-pre` and/or `+build` up to the end make the match fail |
| VersionGrammar.DotNumberSound | Sources/Version/VersionParser.swift:27 | an optional `.number` group: what is captured is a number of the mode, the input is separator, group and rest, and a captured number is maximal |
| VersionGrammar.TaggedSound | Sources/Version/VersionParser.swift:29 | an optional `sep[class]+` group: the capture is non-empty and in the class, and the input is separator, group and rest |
| VersionGrammar.MinorPatchSound | Sources/Version/VersionParser.swift:25-27 | minor and patch captures are numbers, patch only with minor, both present in strict mode, and they make up the consumed text |
| VersionGrammar.SuffixesSound | Sources/Version/VersionParser.swift:29 | pre-release and build captures are non-empty, within their classes, and make up the rest of the input |
| VersionGrammar.RecognizeSound | Sources/Version/VersionParser.swift:21-37 | every match yields groups that conform to the mode's grammar and that compose back to the whole input (`\A…\z`) |
| VersionGrammar.ComposeAssociated | Sources/Version/VersionParser.swift:32 | the matched text is the concatenation of the groups with their separators, in either bracketing |
| VersionGrammar.DotNumberOf | Sources/Version/VersionParser.swift:27 | a `.number` group, or nothing, is read back as the same group |
| VersionGrammar.TaggedOf | Sources/Version/VersionParser.swift:29 | a `sep[class]+` group, or nothing, is read back as the same group |
| VersionGrammar.MinorPatchOf | Sources/Version/VersionParser.swift:25-27 | conforming minor and patch groups are read back as themselves |
| VersionGrammar.SuffixesOf | Sources/Version/VersionParser.swift:29 | conforming pre-release and build groups are read back as themselves, reaching the end of the input |
| VersionGrammar.RecognizeComplete | Sources/Version/VersionParser.swift:21-37 | every set of groups conforming to the mode's grammar is matched from its composed text, with exactly those groups |
| VersionGrammar.StrictMatchIsLenientMatch | Sources/Version/VersionParser.swift:24-28 | a string the strict pattern matches is matched by the lenient pattern with the same groups |
| Versions.Make | Sources/Version/Version.swift:91-111 | `init(major:minor:patch:prerelease:build:)` demands non-negative numbers and stores every argument unchanged |
| Versions.CanonicalMinor | Sources/Version/Version.swift:40-42 | computes `minor ?? 0`; the contract of `CanonicalForm` states what it means |
| Versions.CanonicalPatch | Sources/Version/Version.swift:60-62 | computes `patch ?? 0`; the contract of `CanonicalForm` states what it means |
| Versions.CanonicalForm | Sources/Version/Version.swift:129-132 | the canonical form has both minor and patch; it keeps present values, turns absent ones into 0 and leaves major, pre-release and build alone |
| Versions.Equal | Sources/Version/Version.swift:176-182 | `==` holds exactly when the canonical forms agree once the build is dropped |
| Versions.Identical | Sources/Version/Version.swift:184-186 | `===` holds exactly when the canonical forms agree, build included |
| Versions.NotIdentical | Sources/Version/Version.swift:188-190 | `!==` holds exactly when the canonical forms differ |
| Versions.HashFields | Sources/Version/Version.swift:228-233 | the values fed to the hasher are the major, minor, patch and pre-release of the canonical form |
| Versions.Hash | Sources/Version/Version.swift:228-233 | the hash of a version is the hash of its canonical form with the build dropped |
| Versions.CanonicalFormIdempotent | Sources/Version/Version.swift:129-139 | canonicalising twice is canonicalising once, and the result is `===` and `==` to the original |
| Versions.CanonicalFormOfCanonical | Sources/Version/Version.swift:129-132 | a version with minor and patch present is its own canonical form |
| Versions.EqualIsEquivalence | Sources/Version/Version.swift:176-182 | `==` is reflexive, symmetric and transitive, and ignores the build |
| Versions.IdenticalRefinesEqual | Sources/Version/Version.swift:184-190 | `===` implies `==`; `==` versions with different builds are `!==`; `!==` is the negation of `===` |
| Versions.HashConsistentWithEqual | Sources/Version/Version.swift:228-233 | the hash input is the same exactly when the versions are `==`, so `==` versions hash alike under every hasher |
| Versions.CompareInt | Sources/Version/Version.swift:141-149 | `compare` at `Int` is `orderedAscending` exactly when `l < r`, `orderedSame` exactly when equal, `orderedDescending` exactly when `l > r` |
| Versions.StringLess | Sources/Version/Version.swift:141-149 | computes `<` on strings, lexicographic by character; the three lemmas below state that it is a strict total order |
| Versions.CompareString | Sources/Version/Version.swift:141-149 | `compare` at `String` is `orderedSame` exactly on equal strings, `orderedAscending` exactly when `l < r` and `orderedDescending` exactly when `r < l` |
| Versions.StringLessIrreflexive | Sources/Version/Version.swift:141-149 | no string is below itself in string order |
| Versions.StringLessTrichotomy | Sources/Version/Version.swift:141-149 | string order is asymmetric, and of two different strings one is below the other |
| Versions.StringLessTransitive | Sources/Version/Version.swift:141-149 | string order is transitive |
| Versions.CompareStringFlip | Sources/Version/Version.swift:141-149 | `compare` on strings flips when its arguments are swapped and is `orderedSame` exactly on equal strings |
| Versions.Split | Sources/Version/Version.swift:152-153 | `components(separatedBy: ".")` gives at least one component, none containing `.`, and joining them with `.` gives back the input |
| Versions.FirstDifference | Sources/Version/Version.swift:154-155 | the first differing pair of the zipped components: it lies within both lists, differs, and every earlier pair agrees; without one, the two lists agree up to the shorter length |
| Versions.IsNumeric | Sources/Version/Version.swift:157-158 | an identifier that the lenient number regex accepts is exactly a non-empty digit run |
| Versions.CompareIdentifiers | Sources/Version/Version.swift:156-162 | two digit runs compare by `Int(..) ?? 0`, `orderedSame` exactly when those values agree; any other pair compares by string order, `orderedSame` only for equal strings |
| Versions.CompareIdentifierLists | Sources/Version/Version.swift:154-167 | when the two lists agree along their common length, the shorter list comes first and lists of equal length are `orderedSame` |
| Versions.CompareNumeric | Sources/Version/Version.swift:151-168 | equal pre-releases are `orderedSame`, and two different dot-free pre-releases compare as single identifiers |
| Versions.SplitInjective | Sources/Version/Version.swift:152-153 | different strings split into different component lists |
| Versions.SplitPrefix | Sources/Version/Version.swift:152-153 | text without a `.` in front of a string extends that string's first component |
| Versions.SplitJoin | Sources/Version/Version.swift:152-153 | splitting the `.`-join of dot-free components gives back those components |
| Versions.FirstDifferenceSymmetric | Sources/Version/Version.swift:154-155 | the first difference does not depend on the order of the two lists |
| Versions.FirstDifferenceAt | Sources/Version/Version.swift:154-155 | an index where the lists differ, after agreeing everywhere before it, is the first difference |
| Versions.CompareIdentifiersFlip | Sources/Version/Version.swift:156-162 | comparing two identifiers, as numbers or as strings, flips when they are swapped |
| Versions.CompareNumericFlip | Sources/Version/Version.swift:151-168 | `compareNumeric` flips when its arguments are swapped and gives `orderedSame` on equal strings |
| Versions.CompareIdentifiersTransitive | Sources/Version/Version.swift:156-162 | among identifiers of the same kind (all numeric or all not), the comparison is transitive |
| Versions.CompareIdentifierListsTransitive | Sources/Version/Version.swift:154-167 | the list comparison is transitive when identifiers at the same position are of the same kind |
| Versions.CompareNumericTransitive | Sources/Version/Version.swift:151-168 | `compareNumeric` is transitive when identifiers at the same position are of the same kind |
| Versions.Less | Sources/Version/Version.swift:196-223 | a differing major decides by `<`, then a differing canonical minor, then a differing canonical patch; on a tie `a < b` exactly when `a` has a pre-release and `b` has none or `compareNumeric` puts `a`'s first |
| Versions.LessIrreflexive | Sources/Version/Version.swift:196-223 | no version is below itself |
| Versions.LessAsymmetric | Sources/Version/Version.swift:196-223 | if `a < b` then not `b < a` |
| Versions.LessRespectsEqual | Sources/Version/Version.swift:176-223 | `<` takes `==` versions alike, so it ignores the build, and `==` versions are not ordered either way |
| Versions.LessTransitive | Sources/Version/Version.swift:196-223 | `<` is transitive when the pre-releases compared along the way have identifiers of the same kind at each position |
| Versions.LessHasCycle | Sources/Version/Version.swift:156-223 | `1.0.0-2 < 1.0.0-10 < 1.0.0-1a < 1.0.0-2`: in general `<` is not transitive |
| Versions.CompareIdentifiersTotal | Sources/Version/Version.swift:156-162 | different identifiers whose numeric ones are canonical and within `Int` never compare as `orderedSame` |
| Versions.LessTotal | Sources/Version/Version.swift:176-223 | with canonical numeric identifiers that fit in `Int`, two versions are `==` or one is below the other |
| Versions.LessNotTotal | Sources/Version/Version.swift:156-223 | `1.0.0-01` and `1.0.0-1` are neither `==` nor ordered either way |
| Versions.Description | Sources/Version/Version.swift:239-248 | computes `description`; `DescriptionIsCompose`, `ParseDescription` and `DescriptionOfStrictParse` state its meaning |
| Versions.IsValid | Sources/Version/Version.swift:252-254 | `valid(string:strict:)` holds exactly when the strict anchored version pattern matches, whatever `strict` is |
| Versions.VersionVar.constructor | Sources/Version/Version.swift:136 | a new variable holds the value it is given |
| Versions.VersionVar.SetMajor | Sources/Version/Version.swift:18-22 | assigning `major` demands a non-negative value and changes only `major` |
| Versions.VersionVar.SetMinor | Sources/Version/Version.swift:29-36 | assigning `minor` demands a non-negative value when present (`nil` is always allowed) and changes only `minor` |
| Versions.VersionVar.SetPatch | Sources/Version/Version.swift:49-56 | assigning `patch` likewise, changing only `patch` |
| Versions.VersionVar.SetPrerelease | Sources/Version/Version.swift:82 | assigning `prerelease` changes only `prerelease` |
| Versions.VersionVar.SetBuild | Sources/Version/Version.swift:85 | assigning `build` changes only `build` |
| Versions.VersionVar.Canonicalize | Sources/Version/Version.swift:129-132 | `canonicalize()` replaces only an absent minor or patch with 0, keeps present values and every other field, and leaves the canonical form behind |
| Versions.VersionVar.Canonicalized | Sources/Version/Version.swift:135-139 | `canonicalized()` returns the canonical form of the receiver and leaves the receiver unchanged |
| VersionParsing.IntOfGroup | Sources/Version/VersionParser.swift:92-108 | computes `component.flatMap { Int($0) }`: `nil` for an absent group, otherwise `ParseInt` |
| VersionParsing.InterpretComponents | Sources/Version/VersionParser.swift:73-114 | computes what `parse(components:)` returns or throws; `InterpretComponentsCases` states each outcome and `ParseComponents` is proved to compute it |
| VersionParsing.ParseString | Sources/Version/VersionParser.swift:68-71 | computes what `parse(string:)` returns or throws; `ParseStringNoMatch`, `ParseConforming` and `ParseDescription` state its meaning |
| VersionParsing.VersionParser.VersionRegexGroups | Sources/Version/VersionParser.swift:62-69 | computes `versionRegex.groupsOfFirstMatch(string:)` for the parser's mode, through `MatchVersion` |
| VersionParsing.VersionParser.NumberRegexMatch | Sources/Version/VersionParser.swift:62-65 | computes `numberRegex.match(string:)` for the parser's mode, as written; `LenientNumberRegexMatch` states what the lenient parser's accepts |
| VersionParsing.LenientNumberRegexMatch | Sources/Version/Version.swift:157-158 | the lenient parser's number regex, which `compareNumeric` applies to identifiers, accepts exactly the non-empty digit runs (`IsNumeric`) |
| VersionParsing.VersionParser.ParseComponents | Sources/Version/VersionParser.swift:73-114 | the step-by-step `parse(components:)` yields exactly the decision list of its checks; a list not of length 6 gives `InvalidComponents`; a parsed version copies groups 4 and 5 verbatim |
| VersionParsing.VersionParser.Parse | Sources/Version/VersionParser.swift:68-71 | `parse(string:)` is `parse(components:)` applied to the groups of the anchored match |
| VersionParsing.VersionFromString | Sources/Version/Version.swift:114-117 | `init(_:strict:)` gives what a parser of that mode gives |
| VersionParsing.InterpretComponentsCases | Sources/Version/VersionParser.swift:73-114 | each error is thrown exactly when its own check fails and every earlier one passed, in the order length, missing minor, missing patch, major, minor, patch; lenient mode never reports a missing component; an absent minor or patch group stays absent, not 0; pre-release and build are copied verbatim |
| VersionParsing.ParseStringNoMatch | Sources/Version/VersionParser.swift:68-78 | `parse(string:)` fails with `InvalidComponents` exactly when the anchored pattern does not match |
| VersionParsing.ParseConforming | Sources/Version/VersionParser.swift:68-114 | the result of parsing the text of conforming groups: the conversion errors of major, minor and patch in that order, otherwise the version of the converted numbers with pre-release and build verbatim |
| VersionParsing.ParseStringNeverMissing | Sources/Version/VersionParser.swift:24-86 | `parse(string:)` never reports a missing minor or patch component in either mode |
| VersionParsing.StrictParseIsLenientParse | Sources/Version/VersionParser.swift:24-28 | when the strict parser succeeds, the lenient parser gives the same version |
| VersionParsing.ParseIntRender | Sources/Version/VersionParser.swift:92 | `Int` reads back the rendering of every non-negative `Int` |
| VersionParsing.RenderIsNumber | Sources/Version/VersionParser.swift:39-45 | the rendering of a number is a number of both modes |
| VersionParsing.DescriptionIsCompose | Sources/Version/Version.swift:239-248 | `description` writes major, then `.minor`, `.patch`, `-prerelease` and `+build`, each only if present: the groups of the version pattern with their separators |
| VersionParsing.ParseDescription | Sources/Version/VersionParser.swift:68-114 | the description of a version that the mode can print (patch only with minor, both in strict mode, pre-release and build within their classes) parses back to that very version |
| VersionParsing.DescriptionOfStrictParse | Sources/Version/VersionParser.swift:68-114 | the description of a strictly parsed version is the parsed string itself |
| VersionParsing.RenderedGroup | Sources/Version/VersionParser.swift:92-108 | a strict number group that `Int` converts renders back to the same group |
| VersionParsing.IsValidIgnoresStrict | Sources/Version/Version.swift:252-254 | `valid(string:strict:)` gives the same answer for both values of `strict`, and holds exactly when the strict anchored pattern matches |
| VersionParsing.IsValidAndParse | Sources/Version/Version.swift:252-254 | a string the strict parser accepts is valid, and a valid string either parses strictly or fails only in the integer conversion |
| VersionExamples.ValidStringsParse | Tests/VersionTests/VersionParserTests.swift:29-162 | every fully specified test string parses, in both modes, to the version the tests expect |
| VersionExamples.SemiValidStringsParseLeniently | Tests/VersionTests/VersionParserTests.swift:50-174 | strict mode rejects every semi-valid test string with `InvalidComponents`; lenient mode parses each to the expected version, absent minor and patch staying absent and leading zeros read as decimal |
| VersionExamples.InvalidStringsRejected | Tests/VersionTests/VersionParserTests.swift:70-181 | both modes reject every invalid test string with `InvalidComponents` |
| VersionExamples.EquatableExamples | VersionTests/VersionTests.swift:14-23 | the sample equals its copy and differs from versions changed in major, minor, patch or pre-release; it equals, but is not identical to, a version with another build |
| VersionExamples.StringLiteralExample | VersionTests/VersionTests.swift:25-28 | the literal `"1.2.3-alpha1+B001"` parses to the sample |
| VersionExamples.PrintableExamples | VersionTests/VersionTests.swift:30-36 | `description` of the five test versions is the expected text |
| VersionExamples.ComparableLiteralsParse | VersionTests/VersionTests.swift:38-51 | each literal of the ordering test parses leniently to the version it denotes |
| VersionExamples.ComparableExamples | VersionTests/VersionTests.swift:38-51 | the ordering assertions of the test hold, except line 42, and so does the commented-out one at line 47 |
| VersionExamples.BuildDoesNotOrder | VersionTests/VersionTests.swift:42 | the sample and the same version with build `B002` are `==` and neither is below the other |
| VersionExamples.PrereleaseChain | Sources/Version/Version.swift:151-223 | `1.0.0-alpha < 1.0.0-alpha.1 < 1.0.0-alpha.beta < 1.0.0-beta < 1.0.0-beta.2 < 1.0.0-beta.11 < 1.0.0-rc.1 < 1.0.0` |
| VersionExamples.ValidAcceptsExample | Sources/Version/Version.swift:252-254 | `valid("1.2.3")` holds for both values of `strict` |
| VersionExamples.ValidRejectsExample | Sources/Version/Version.swift:252-254 | `valid("01.2.3")` is false even with `strict: false`, although the lenient parser accepts the string |
| VersionExamples.EmptyIdentifiersAccepted | Sources/Version/VersionParser.swift:29 | `1.0.0-.`, a pre-release of two empty identifiers, parses in both modes |

## Left out

- The regular-expression engine and the `Regex` wrapper over `NSRegularExpression`. Each of the fixed anchored patterns is modelled as a recognizer that returns the groups of the match, or none. The unanchored variants (`anchored: false`) are never used by the library and are not modelled.
- Decimal.ParseInt: does not model the sign that Swift's `Int(String)` accepts (`"+5"`, `"-5"`). A group the version pattern captures is always a digit run, so a sign can only reach `parse(components:)` through a hand-built component list. For such a list the model reports `InvalidMajorComponent` (or minor, or patch), while Swift reads `+5` as 5 and traps in `didSet` on `-5`.
- Versions.LessTransitive: proved only for pre-releases whose identifiers at each position are both numeric or both not. `Versions.LessHasCycle` shows that the source's `<` is not transitive in general.
- Versions.LessTotal: proved only for pre-releases whose numeric identifiers have no leading zero and fit in `Int`. `Versions.LessNotTotal` shows that totality fails otherwise.
- Swift's `String` comparison and equality use Unicode canonical equivalence. The model compares strings character by character. Every string the parser produces is ASCII, and on ASCII the two orders agree.
- `Hasher` internals. `Versions.Hash` takes the hasher as a function parameter applied to the combined fields.
- The `try!` in `init(stringLiteral:)` and its two forwarding initialisers (Sources/Version/Version.swift:257-271). A string literal stands for its lenient parse, and the crash on a failed parse is not modelled.
- `Codable` conformance (Sources/Version/Version.swift:274), because it is generated serialisation and not part of the value semantics. Its synthesised `init(from:)` assigns the stored fields without the `init` preconditions or the `didSet` checks, so a decoded `Version` can hold a negative number; the model's `NonNegInt` fields cannot represent such a value.
- `init(from: OperatingSystemVersion)` and the `Bundle` extension (Sources/Version/Version.swift:119-126, 278-306), because they read platform metadata.
- The static `strictParser` and `lenientParser` (Sources/Version/Version.swift:87-88). They are the constant parsers `VersionParser(true)` and `VersionParser(false)`, which `IsValid` and `IsNumeric` use directly.
- `precondition` failures are not modelled as a crash. Each `precondition` becomes a `requires` that every caller must meet.
- The legacy trees `Sources/Version.swift`, `Sources/VersionParser.swift`, `Sources/Regex.swift`, `Sources/Helper.swift`, `Version/Version.swift`, `Version/Regex.swift` and `Version/Helper.swift`, and their tests in `VersionTests/VersionParserTests.swift`. They are superseded copies of the same types with different semantics.

## Findings

| source | as written | input that shows it | evidently intended | confidence | as-written member | corrected member |
|---|---|---|---|---|---|---|
| Sources/Version/VersionParser.swift:51 | In strict mode the anchored number pattern is `\A0\|[1-9][0-9]*?\z`. Alternation binds loosest, so it means "starts with 0" or "ends with a non-zero digit followed by digits". | `"0abc"`, `"x5"` and `"007"` all match it, and none is a strict number | `\A(?:0\|[1-9][0-9]*)\z`, one whole strict number | not executed | VersionGrammar.AsWrittenNumberRegexAcceptsNonNumbers (about VersionGrammar.NumberRegexAsWritten) | VersionGrammar.NumberRegexMeaning (about VersionGrammar.NumberRegex) |

The library consults only the lenient parser's number pattern, in `compareNumeric`
(Sources/Version/Version.swift:157). There the pattern as written and the pattern as intended agree
(`VersionGrammar.LenientNumberRegexAsIntended`), so the defect never shows in the library's own
behaviour.
