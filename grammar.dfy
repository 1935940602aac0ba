/**
 * The two regular expressions a `VersionParser` compiles: the anchored version
 * pattern and the anchored number pattern, each for strict and lenient mode.
 *
 * The version pattern is recognised by a hand-written scanner, `Recognize`, and
 * its language is given independently as a grammar: a string matches exactly when
 * it is `Compose(p)` for a `p` that `Conforms`, and the groups reported are those
 * of `p` (lemmas RecognizeSound and RecognizeComplete). The pattern has no
 * ambiguity: every digit run is followed by `.`, `-`, `+` or the end of the input,
 * none of which is a digit, and the pre-release class does not contain `+`, so a
 * greedy scan finds the only decomposition.
 */
module VersionGrammar {
  import opened Wrappers
  import opened Decimal

  /** One capture group of a match: `None` when the group did not participate. */
  type Group = Option<string>

  /** The character classes the patterns use. */
  datatype CharClass =
    | Digits          // [0-9]
    | PrereleaseChars // [0-9A-Za-z-.]
    | BuildChars      // [0-9A-Za-z-]

  predicate IsAlphanumeric(c: char) {
    IsDigit(c) || 'A' <= c <= 'Z' || 'a' <= c <= 'z'
  }

  predicate InClass(k: CharClass, c: char) {
    match k
    case Digits => IsDigit(c)
    case PrereleaseChars => IsAlphanumeric(c) || c == '-' || c == '.'
    case BuildChars => IsAlphanumeric(c) || c == '-'
  }

  predicate AllIn(k: CharClass, s: string) {
    forall i :: 0 <= i < |s| ==> InClass(k, s[i])
  }

  /** The longest prefix of `s` drawn from class `k` (a greedy `[...]*`), and the rest of `s`. */
  function Span(k: CharClass, s: string): (r: (string, string))
    ensures r.0 + r.1 == s
    ensures AllIn(k, r.0)
    ensures r.1 == [] || !InClass(k, r.1[0])
  {
    if s == [] || !InClass(k, s[0]) then
      ([], s)
    else
      var (a, b) := Span(k, s[1..]);
      assert [s[0]] + (a + b) == s;
      ([s[0]] + a, b)
  }

  /** A greedy span stops exactly at the first character outside its class. */
  lemma {:induction false} SpanConcat(k: CharClass, a: string, b: string)
    requires AllIn(k, a)
    requires b == [] || !InClass(k, b[0])
    ensures Span(k, a + b) == (a, b)
  {
    if a == [] {
      assert a + b == b;
    } else {
      assert (a + b)[0] == a[0];
      assert (a + b)[1..] == a[1..] + b;
      SpanConcat(k, a[1..], b);
      assert [a[0]] + a[1..] == a;
    }
  }

  /** `numberPatternString(strict:)`, read as a grammar: `0|[1-9][0-9]*` when strict (no
      leading zeros), `[0-9]+` when lenient. */
  predicate IsNumber(strict: bool, s: string) {
    |s| > 0 && AllIn(Digits, s) && (strict ==> s == "0" || s[0] != '0')
  }

  lemma NumberDigits(strict: bool, s: string)
    requires IsNumber(strict, s)
    ensures AllDigits(s)
  {
    forall i | 0 <= i < |s| ensures IsDigit(s[i]) {
      assert InClass(Digits, s[i]);
    }
  }

  /** What `numberPattern(strict:, anchored: true)` matches AS WRITTEN. The pattern is
      `\A` + number + `?\z`; for strict mode that is `\A0|[1-9][0-9]*?\z`, whose alternation
      binds loosest: it matches a string that starts with `0`, or one that ends in a non-zero
      digit followed only by digits. For lenient mode it is `\A[0-9]+?\z`. */
  predicate NumberRegexAsWritten(strict: bool, s: string) {
    if strict then
      (|s| > 0 && s[0] == '0')
      || (exists i :: 0 <= i < |s| && '1' <= s[i] <= '9' && AllIn(Digits, s[i + 1..]))
    else
      |s| > 0 && AllIn(Digits, s)
  }

  /** The anchored number pattern as evidently intended, `\A(?:number)\z`: the whole input
      is one number of the mode's grammar. It coincides with `IsNumber` and exists as the
      corrected counterpart of `NumberRegexAsWritten`. */
  predicate NumberRegex(strict: bool, s: string) {
    IsNumber(strict, s)
  }

  /** The as-written strict number regex accepts strings that are not numbers. */
  lemma AsWrittenNumberRegexAcceptsNonNumbers()
    ensures NumberRegexAsWritten(true, "0abc") && !NumberRegex(true, "0abc")
    ensures NumberRegexAsWritten(true, "x5") && !NumberRegex(true, "x5")
    ensures NumberRegexAsWritten(true, "007") && !NumberRegex(true, "007")
  {
    assert AllIn(Digits, "x5"[2..]);
    assert "x5"[1] == '5';
    assert !InClass(Digits, "0abc"[1]);
  }

  /** The only number regex the library uses, the lenient one, behaves as intended. */
  lemma LenientNumberRegexAsIntended(s: string)
    ensures NumberRegexAsWritten(false, s) == NumberRegex(false, s)
  {
  }

  /** The intended number regexes: the lenient one accepts every non-empty digit string, the
      strict one exactly the decimal renderings of integers. */
  lemma NumberRegexMeaning(strict: bool, s: string)
    ensures NumberRegex(false, s) <==> |s| > 0 && AllDigits(s)
    ensures NumberRegex(true, s) <==> |s| > 0 && AllDigits(s) && Render(ValueOf(s)) == s
  {
    if |s| > 0 && AllDigits(s) {
      assert AllIn(Digits, s) by {
        forall i | 0 <= i < |s| ensures InClass(Digits, s[i]) {
          assert IsDigit(s[i]);
        }
      }
      if NumberRegex(true, s) {
        RenderValueOf(s);
      }
    }
    if NumberRegex(false, s) {
      NumberDigits(false, s);
    }
  }

  /** The five capture groups of the version pattern: major, minor, patch, prerelease, build. */
  datatype Parts = Parts(major: string, minor: Group, patch: Group, prerelease: Group, build: Group)

  /** The version pattern of `versionPattern(strict:, anchored: true)` read as a grammar:
      strict `N.N.N`, lenient `N[.N[.N]]` (patch only after minor), then an optional
      `-[0-9A-Za-z-.]+` and an optional `+[0-9A-Za-z-]+`. */
  predicate Conforms(strict: bool, p: Parts) {
    && IsNumber(strict, p.major)
    && (p.minor.Some? ==> IsNumber(strict, p.minor.value))
    && (p.patch.Some? ==> p.minor.Some? && IsNumber(strict, p.patch.value))
    && (strict ==> p.minor.Some? && p.patch.Some?)
    && (p.prerelease.Some? ==> |p.prerelease.value| > 0 && AllIn(PrereleaseChars, p.prerelease.value))
    && (p.build.Some? ==> |p.build.value| > 0 && AllIn(BuildChars, p.build.value))
  }

  /** A separator and its group, or nothing for an absent group. */
  function Prefixed(sep: char, g: Group): string {
    match g
    case None => ""
    case Some(x) => [sep] + x
  }

  /** The text a match with these groups spans. */
  function Compose(p: Parts): string {
    p.major + Prefixed('.', p.minor) + Prefixed('.', p.patch)
      + Prefixed('-', p.prerelease) + Prefixed('+', p.build)
  }

  /** An optional `(?:\.(number))`: absent when the input does not continue with `.`, a failed
      match when `.` is not followed by a number (nothing else in the pattern accepts a `.` here). */
  function DotNumber(strict: bool, r: string): Option<(Group, string)> {
    if r != [] && r[0] == '.' then
      var (n, rest) := Span(Digits, r[1..]);
      if IsNumber(strict, n) then Some((Some(n), rest)) else None
    else
      Some((None, r))
  }

  /** An optional `(?:<sep>([class]+))`: absent when the input does not continue with `sep`, a
      failed match when `sep` is followed by no character of the class. */
  function Tagged(sep: char, k: CharClass, r: string): Option<(Group, string)> {
    if r != [] && r[0] == sep then
      var (x, rest) := Span(k, r[1..]);
      if x != [] then Some((Some(x), rest)) else None
    else
      Some((None, r))
  }

  /** The minor and patch part of the pattern after the major number: `\.(n)\.(n)` when
      strict, `(?:\.(n))?(?:\.(n))?` when lenient. */
  function MinorPatch(strict: bool, r: string): Option<(Group, Group, string)> {
    match DotNumber(strict, r)
    case None => None
    case Some((minor, r2)) =>
      if strict && minor.None? then None
      else match DotNumber(strict, r2)
        case None => None
        case Some((patch, r3)) =>
          if strict && patch.None? then None else Some((minor, patch, r3))
  }

  /** The pre-release and build part of the pattern, which must reach the end of the input. */
  function Suffixes(r: string): Option<(Group, Group)> {
    match Tagged('-', PrereleaseChars, r)
    case None => None
    case Some((prerelease, r4)) =>
      match Tagged('+', BuildChars, r4)
      case None => None
      case Some((build, r5)) =>
        if r5 != [] then None else Some((prerelease, build))
  }

  /** Matches the whole of `s` against the anchored version pattern and returns its groups. */
  function Recognize(strict: bool, s: string): Option<Parts> {
    var (major, r1) := Span(Digits, s);
    if !IsNumber(strict, major) then None
    else match MinorPatch(strict, r1)
      case None => None
      case Some((minor, patch, r3)) =>
        match Suffixes(r3)
        case None => None
        case Some((prerelease, build)) => Some(Parts(major, minor, patch, prerelease, build))
  }

  /** `versionRegex.groupsOfFirstMatch(string:)`: no groups at all when the input does not match;
      otherwise the whole match (the entire input, the pattern being anchored) and groups 1 to 5. */
  function MatchVersion(strict: bool, s: string): (g: seq<Group>)
    ensures g == [] || |g| == 6
    ensures g == [] <==> Recognize(strict, s).None?
    ensures g != [] ==> g[0] == Some(s) && g[1].Some?
    ensures g != [] ==> Conforms(strict, Parts(g[1].value, g[2], g[3], g[4], g[5]))
    ensures g != [] ==> Compose(Parts(g[1].value, g[2], g[3], g[4], g[5])) == s
  {
    match Recognize(strict, s)
    case None => []
    case Some(p) =>
      RecognizeSound(strict, s);
      [Some(s), Some(p.major), p.minor, p.patch, p.prerelease, p.build]
  }

  /** `versionRegex.match(string:)`. */
  predicate VersionRegexMatches(strict: bool, s: string) {
    MatchVersion(strict, s) != []
  }

  /** Once the numbers of a version are read, the match rests on the pre-release and build part. */
  lemma RecognizeAfterNumbers(strict: bool, major: string, minor: Group, patch: Group, rest: string)
    requires IsNumber(strict, major)
    requires minor.Some? ==> IsNumber(strict, minor.value)
    requires patch.Some? ==> minor.Some? && IsNumber(strict, patch.value)
    requires strict ==> minor.Some? && patch.Some?
    requires rest == [] || rest[0] in {'-', '+'}
    ensures Recognize(strict, major + (Prefixed('.', minor) + (Prefixed('.', patch) + rest))) ==
      match Suffixes(rest)
      case None => None
      case Some((prerelease, build)) => Some(Parts(major, minor, patch, prerelease, build))
  {
    var t := Prefixed('.', minor) + (Prefixed('.', patch) + rest);
    assert t == [] || t[0] in {'.', '-', '+'};
    NumberDigits(strict, major);
    SpanConcat(Digits, major, t);
    MinorPatchOf(strict, minor, patch, rest);
  }

  /** The match fails when the leading digits of the input are not a number of the mode. */
  lemma MajorRejected(strict: bool, s: string, major: string, rest: string)
    requires s == major + rest && AllIn(Digits, major) && (rest == [] || !IsDigit(rest[0]))
    requires !IsNumber(strict, major)
    ensures Recognize(strict, s) == None
  {
    SpanConcat(Digits, major, rest);
  }

  /** The match fails when the digits after the major number's `.` are not a number of the
      mode (in particular when there are none). */
  lemma MinorRejected(strict: bool, s: string, major: string, digits: string, rest: string)
    requires s == major + (['.'] + (digits + rest)) && IsNumber(strict, major)
    requires AllIn(Digits, digits) && (rest == [] || !IsDigit(rest[0]))
    requires !IsNumber(strict, digits)
    ensures Recognize(strict, s) == None
  {
    var t := ['.'] + (digits + rest);
    SpanConcat(Digits, major, t);
    assert t[1..] == digits + rest;
    SpanConcat(Digits, digits, rest);
  }

  /** The match fails when the digits after the minor number's `.` are not a number of the
      mode. */
  lemma PatchRejected(strict: bool, s: string, major: string, minor: string, digits: string, rest: string)
    requires s == major + (['.'] + (minor + (['.'] + (digits + rest))))
    requires IsNumber(strict, major) && IsNumber(strict, minor)
    requires AllIn(Digits, digits) && (rest == [] || !IsDigit(rest[0]))
    requires !IsNumber(strict, digits)
    ensures Recognize(strict, s) == None
  {
    var u := ['.'] + (digits + rest);
    var t := ['.'] + (minor + u);
    SpanConcat(Digits, major, t);
    assert t[1..] == minor + u;
    SpanConcat(Digits, minor, u);
    assert u[1..] == digits + rest;
    SpanConcat(Digits, digits, rest);
  }

  /** The match fails when what follows the numbers is not a pre-release and build part. */
  lemma SuffixRejected(strict: bool, s: string, major: string, minor: Group, patch: Group, rest: string)
    requires s == major + (Prefixed('.', minor) + (Prefixed('.', patch) + rest))
    requires IsNumber(strict, major)
    requires minor.Some? ==> IsNumber(strict, minor.value)
    requires patch.Some? ==> minor.Some? && IsNumber(strict, patch.value)
    requires strict ==> minor.Some? && patch.Some?
    requires rest == [] || rest[0] in {'-', '+'}
    requires Suffixes(rest) == None
    ensures Recognize(strict, s) == None
  {
    RecognizeAfterNumbers(strict, major, minor, patch, rest);
  }

  lemma DotNumberSound(strict: bool, r: string)
    requires DotNumber(strict, r).Some?
    ensures var (g, rest) := DotNumber(strict, r).value;
      && (g.Some? ==> IsNumber(strict, g.value))
      && r == Prefixed('.', g) + rest
      && (g.None? ==> rest == r && (r == [] || r[0] != '.'))
      && (g.Some? ==> rest == [] || !IsDigit(rest[0]))
  {
    if r != [] && r[0] == '.' {
      var sp := Span(Digits, r[1..]);
      assert r == ['.'] + (sp.0 + sp.1);
      assert r == (['.'] + sp.0) + sp.1;
      assert sp.1 == [] || !InClass(Digits, sp.1[0]);
    } else {
      assert r == [] + r;
    }
  }

  lemma TaggedSound(sep: char, k: CharClass, r: string)
    requires Tagged(sep, k, r).Some?
    ensures var (g, rest) := Tagged(sep, k, r).value;
      && (g.Some? ==> |g.value| > 0 && AllIn(k, g.value))
      && r == Prefixed(sep, g) + rest
      && (g.None? ==> rest == r && (r == [] || r[0] != sep))
  {
    if r != [] && r[0] == sep {
      assert r == [r[0]] + r[1..];
    }
  }

  lemma MinorPatchSound(strict: bool, r: string)
    requires MinorPatch(strict, r).Some?
    requires r == [] || !IsDigit(r[0])
    ensures var (minor, patch, rest) := MinorPatch(strict, r).value;
      && (minor.Some? ==> IsNumber(strict, minor.value))
      && (patch.Some? ==> minor.Some? && IsNumber(strict, patch.value))
      && (strict ==> minor.Some? && patch.Some?)
      && r == Prefixed('.', minor) + (Prefixed('.', patch) + rest)
  {
    DotNumberSound(strict, r);
    var (minor, r2) := DotNumber(strict, r).value;
    DotNumberSound(strict, r2);
  }

  lemma SuffixesSound(r: string)
    requires Suffixes(r).Some?
    ensures var (prerelease, build) := Suffixes(r).value;
      && (prerelease.Some? ==> |prerelease.value| > 0 && AllIn(PrereleaseChars, prerelease.value))
      && (build.Some? ==> |build.value| > 0 && AllIn(BuildChars, build.value))
      && r == Prefixed('-', prerelease) + Prefixed('+', build)
  {
    TaggedSound('-', PrereleaseChars, r);
    var (prerelease, r4) := Tagged('-', PrereleaseChars, r).value;
    TaggedSound('+', BuildChars, r4);
    var (build, r5) := Tagged('+', BuildChars, r4).value;
    assert r5 == [];
    assert r4 == Prefixed('+', build);
  }

  /** Every input the scanner accepts is in the language of the pattern, and the groups it
      reports compose back to the input. */
  lemma RecognizeSound(strict: bool, s: string)
    requires Recognize(strict, s).Some?
    ensures Conforms(strict, Recognize(strict, s).value)
    ensures Compose(Recognize(strict, s).value) == s
  {
    var sp := Span(Digits, s);
    var major, r1 := sp.0, sp.1;
    assert r1 == [] || !IsDigit(r1[0]) by {
      assert r1 == [] || !InClass(Digits, r1[0]);
    }
    var mp := MinorPatch(strict, r1).value;
    MinorPatchSound(strict, r1);
    var sf := Suffixes(mp.2).value;
    SuffixesSound(mp.2);
    var p := Parts(major, mp.0, mp.1, sf.0, sf.1);
    assert Recognize(strict, s) == Some(p);
    assert IsNumber(strict, major);
    assert Conforms(strict, p);
    var tail := Prefixed('-', sf.0) + Prefixed('+', sf.1);
    assert mp.2 == tail;
    assert s == major + (Prefixed('.', mp.0) + (Prefixed('.', mp.1) + tail));
    ComposeAssociated(p);
  }

  /** `Compose`, associated to the right as the scanner consumes it. */
  lemma ComposeAssociated(p: Parts)
    ensures Compose(p) == p.major + (Prefixed('.', p.minor) + (Prefixed('.', p.patch)
      + (Prefixed('-', p.prerelease) + Prefixed('+', p.build))))
  {
  }

  lemma DotNumberOf(strict: bool, g: Group, rest: string)
    requires g.Some? ==> IsNumber(strict, g.value)
    requires rest == [] || rest[0] in {'.', '-', '+'}
    requires g.None? ==> rest == [] || rest[0] != '.'
    ensures DotNumber(strict, Prefixed('.', g) + rest) == Some((g, rest))
  {
    var r := Prefixed('.', g) + rest;
    if g.Some? {
      assert r == ['.'] + (g.value + rest);
      assert r[0] == '.';
      assert r[1..] == g.value + rest;
      assert rest == [] || !InClass(Digits, rest[0]);
      SpanConcat(Digits, g.value, rest);
    } else {
      assert r == rest;
    }
  }

  lemma TaggedOf(sep: char, k: CharClass, g: Group, rest: string)
    requires g.Some? ==> |g.value| > 0 && AllIn(k, g.value)
    requires g.Some? ==> rest == [] || !InClass(k, rest[0])
    requires g.None? ==> rest == [] || rest[0] != sep
    ensures Tagged(sep, k, Prefixed(sep, g) + rest) == Some((g, rest))
  {
    var r := Prefixed(sep, g) + rest;
    if g.Some? {
      assert r == [sep] + (g.value + rest);
      assert r[0] == sep;
      assert r[1..] == g.value + rest;
      SpanConcat(k, g.value, rest);
    } else {
      assert r == rest;
    }
  }

  lemma MinorPatchOf(strict: bool, minor: Group, patch: Group, rest: string)
    requires minor.Some? ==> IsNumber(strict, minor.value)
    requires patch.Some? ==> minor.Some? && IsNumber(strict, patch.value)
    requires strict ==> minor.Some? && patch.Some?
    requires rest == [] || rest[0] in {'-', '+'}
    ensures MinorPatch(strict, Prefixed('.', minor) + (Prefixed('.', patch) + rest)) == Some((minor, patch, rest))
  {
    var t := Prefixed('.', patch) + rest;
    assert t == [] || t[0] in {'.', '-', '+'};
    assert minor.None? ==> t == rest;
    DotNumberOf(strict, minor, t);
    DotNumberOf(strict, patch, rest);
  }

  lemma SuffixesOf(prerelease: Group, build: Group)
    requires prerelease.Some? ==> |prerelease.value| > 0 && AllIn(PrereleaseChars, prerelease.value)
    requires build.Some? ==> |build.value| > 0 && AllIn(BuildChars, build.value)
    ensures Suffixes(Prefixed('-', prerelease) + Prefixed('+', build)) == Some((prerelease, build))
  {
    var t := Prefixed('+', build);
    assert t == [] || t[0] == '+';
    TaggedOf('-', PrereleaseChars, prerelease, t);
    TaggedOf('+', BuildChars, build, []);
    assert Prefixed('+', build) + [] == t;
  }

  /** Every string of the pattern's language is accepted, with exactly the groups it was
      composed from. */
  lemma RecognizeComplete(strict: bool, p: Parts)
    requires Conforms(strict, p)
    ensures Recognize(strict, Compose(p)) == Some(p)
  {
    var t4 := Prefixed('-', p.prerelease) + Prefixed('+', p.build);
    var t2 := Prefixed('.', p.minor) + (Prefixed('.', p.patch) + t4);
    ComposeAssociated(p);
    assert t4 == [] || t4[0] in {'-', '+'};
    assert t2 == [] || t2[0] in {'.', '-', '+'};
    assert t2 == [] || !InClass(Digits, t2[0]);
    SpanConcat(Digits, p.major, t2);
    MinorPatchOf(strict, p.minor, p.patch, t4);
    SuffixesOf(p.prerelease, p.build);
  }

  /** Every string the strict pattern matches, the lenient pattern matches with the same groups. */
  lemma StrictMatchIsLenientMatch(s: string)
    requires Recognize(true, s).Some?
    ensures Recognize(false, s) == Recognize(true, s)
  {
    RecognizeSound(true, s);
    RecognizeComplete(false, Recognize(true, s).value);
  }
}
