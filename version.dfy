/**
 * The `Version` value type of Sources/Version/Version.swift: its components, the
 * canonical views of minor and patch, canonicalisation, the build-insensitive and
 * build-sensitive equalities, precedence (`<`), hashing, rendering and the
 * `valid(string:strict:)` check.
 */
module Versions {
  import opened Wrappers
  import opened Decimal
  import opened VersionGrammar

  /** A version; the Swift struct is a value type. The numeric components are Swift `Int`s that
      the memberwise initialiser and the `didSet` checks keep non-negative (a value decoded through
      the synthesised `Codable` initialiser bypasses both and is not modelled). */
  datatype Version = Version(
    major: NonNegInt,
    minor: Option<NonNegInt>,
    patch: Option<NonNegInt>,
    prerelease: Option<string>,
    build: Option<string>)

  /** `init(major:minor:patch:prerelease:build:)`: the numeric components must be non-negative
      (a `nil` minor or patch is always allowed); any pre-release and build string is accepted. */
  function Make(major: SwiftInt, minor: Option<SwiftInt>, patch: Option<SwiftInt>,
                prerelease: Option<string>, build: Option<string>): (v: Version)
    requires major >= 0
    requires minor.Some? ==> minor.value >= 0
    requires patch.Some? ==> patch.value >= 0
    ensures v.major == major
    ensures v.minor.Some? == minor.Some? && (minor.Some? ==> v.minor.value == minor.value)
    ensures v.patch.Some? == patch.Some? && (patch.Some? ==> v.patch.value == patch.value)
    ensures v.prerelease == prerelease && v.build == build
  {
    Version(major,
      if minor.Some? then Some(minor.value) else None,
      if patch.Some? then Some(patch.value) else None,
      prerelease, build)
  }

  /** `canonicalMinor`: `minor ?? 0`. */
  function CanonicalMinor(v: Version): NonNegInt {
    v.minor.GetOr(0)
  }

  /** `canonicalPatch`: `patch ?? 0`. */
  function CanonicalPatch(v: Version): NonNegInt {
    v.patch.GetOr(0)
  }

  /** Both optional numeric components are present. */
  predicate IsCanonical(v: Version) {
    v.minor.Some? && v.patch.Some?
  }

  /** The value `canonicalize()` leaves behind and `canonicalized()` returns. */
  function CanonicalForm(v: Version): (c: Version)
    ensures IsCanonical(c)
    ensures v.minor.Some? ==> c.minor == v.minor
    ensures v.minor.None? ==> c.minor == Some(0)
    ensures v.patch.Some? ==> c.patch == v.patch
    ensures v.patch.None? ==> c.patch == Some(0)
    ensures c.major == v.major && c.prerelease == v.prerelease && c.build == v.build
  {
    v.(minor := Some(CanonicalMinor(v)), patch := Some(CanonicalPatch(v)))
  }

  /** `==`: equal major, canonical minor, canonical patch and pre-release; build is ignored. */
  predicate Equal(a: Version, b: Version)
    ensures Equal(a, b) <==> CanonicalForm(a).(build := None) == CanonicalForm(b).(build := None)
  {
    && a.major == b.major
    && CanonicalMinor(a) == CanonicalMinor(b)
    && CanonicalPatch(a) == CanonicalPatch(b)
    && a.prerelease == b.prerelease
  }

  /** `===`: `==` and equal build metadata. */
  predicate Identical(a: Version, b: Version)
    ensures Identical(a, b) <==> CanonicalForm(a) == CanonicalForm(b)
  {
    Equal(a, b) && a.build == b.build
  }

  /** `!==`: the negation of `===`. */
  predicate NotIdentical(a: Version, b: Version)
    ensures NotIdentical(a, b) <==> CanonicalForm(a) != CanonicalForm(b)
  {
    !Identical(a, b)
  }

  // ---------------------------------------------------------------------------
  // Canonicalisation and equality

  /** Canonicalising twice is canonicalising once, and the canonical form is `===` (so also `==`)
      to the original. */
  lemma CanonicalFormIdempotent(v: Version)
    ensures CanonicalForm(CanonicalForm(v)) == CanonicalForm(v)
    ensures Identical(CanonicalForm(v), v) && Equal(CanonicalForm(v), v)
  {
  }

  /** A version that is already canonical is its own canonical form. */
  lemma CanonicalFormOfCanonical(v: Version)
    requires IsCanonical(v)
    ensures CanonicalForm(v) == v
  {
  }

  /** `==` is an equivalence relation that never looks at build metadata. */
  lemma EqualIsEquivalence(a: Version, b: Version, c: Version, build: Option<string>)
    ensures Equal(a, a)
    ensures Equal(a, b) ==> Equal(b, a)
    ensures Equal(a, b) && Equal(b, c) ==> Equal(a, c)
    ensures Equal(a, a.(build := build))
  {
  }

  /** `===` is `==` plus equal build; two versions differing only in build are `==` but `!==`. */
  lemma IdenticalRefinesEqual(a: Version, b: Version)
    ensures Identical(a, b) ==> Equal(a, b)
    ensures Equal(a, b) && a.build != b.build ==> NotIdentical(a, b)
    ensures NotIdentical(a, b) <==> !Identical(a, b)
  {
  }

  // ---------------------------------------------------------------------------
  // Hashing

  /** The values `hash(into:)` feeds to the hasher, in order. */
  function HashFields(v: Version): (h: (NonNegInt, NonNegInt, NonNegInt, Option<string>))
    ensures var c := CanonicalForm(v); h == (c.major, c.minor.value, c.patch.value, c.prerelease)
  {
    (v.major, CanonicalMinor(v), CanonicalPatch(v), v.prerelease)
  }

  /** `hashValue`: the hasher, whose internals are not modelled, applied to the combined fields. */
  function Hash(v: Version, hasher: ((NonNegInt, NonNegInt, NonNegInt, Option<string>)) -> int): (r: int)
    ensures r == hasher(HashFields(CanonicalForm(v).(build := None)))
  {
    hasher(HashFields(v))
  }

  /** The hash combines exactly the fields `==` compares: equal versions hash alike under every
      hasher, and versions with the same hash input are equal. */
  lemma HashConsistentWithEqual(a: Version, b: Version,
                                hasher: ((NonNegInt, NonNegInt, NonNegInt, Option<string>)) -> int)
    ensures HashFields(a) == HashFields(b) <==> Equal(a, b)
    ensures Equal(a, b) ==> Hash(a, hasher) == Hash(b, hasher)
  {
  }

  // ---------------------------------------------------------------------------
  // Comparison of scalars and strings

  /** Foundation's `ComparisonResult`. */
  datatype Ordering = Ascending | Same | Descending

  function Flip(o: Ordering): Ordering {
    match o
    case Ascending => Descending
    case Same => Same
    case Descending => Ascending
  }

  /** `compare(lhs:rhs:)` at `Int`. */
  function CompareInt(l: int, r: int): (o: Ordering)
    ensures o == Ascending <==> l < r
    ensures o == Same <==> l == r
    ensures o == Descending <==> l > r
  {
    if l < r then Ascending else if l > r then Descending else Same
  }

  /** Swift's `<` on strings, on the character sequences: lexicographic by character. */
  predicate StringLess(a: string, b: string) {
    if a == [] then b != []
    else if b == [] then false
    else a[0] < b[0] || (a[0] == b[0] && StringLess(a[1..], b[1..]))
  }

  /** `compare(lhs:rhs:)` at `String`. */
  function CompareString(l: string, r: string): (o: Ordering)
    ensures o == Same <==> l == r
    ensures o == Ascending <==> StringLess(l, r)
    ensures o == Descending <==> StringLess(r, l)
  {
    StringLessTrichotomy(l, r);
    StringLessIrreflexive(l);
    if StringLess(l, r) then Ascending else if StringLess(r, l) then Descending else Same
  }

  lemma {:induction false} StringLessIrreflexive(a: string)
    ensures !StringLess(a, a)
  {
    if a != [] {
      StringLessIrreflexive(a[1..]);
    }
  }

  /** Two different strings are ordered one way or the other, never both. */
  lemma {:induction false} StringLessTrichotomy(a: string, b: string)
    ensures StringLess(a, b) ==> !StringLess(b, a)
    ensures a != b ==> StringLess(a, b) || StringLess(b, a)
  {
    if a != [] && b != [] && a[0] == b[0] {
      StringLessTrichotomy(a[1..], b[1..]);
      if a != b {
        assert a == [a[0]] + a[1..] && b == [b[0]] + b[1..];
      }
    }
  }

  lemma {:induction false} StringLessTransitive(a: string, b: string, c: string)
    requires StringLess(a, b) && StringLess(b, c)
    ensures StringLess(a, c)
  {
    if a != [] && a[0] == b[0] && b[0] == c[0] {
      StringLessTransitive(a[1..], b[1..], c[1..]);
    }
  }

  lemma CompareStringFlip(l: string, r: string)
    ensures CompareString(r, l) == Flip(CompareString(l, r))
    ensures CompareString(l, r) == Same <==> l == r
  {
    StringLessTrichotomy(l, r);
    StringLessIrreflexive(l);
  }

  // ---------------------------------------------------------------------------
  // Pre-release comparison (`compareNumeric`)

  /** `'.'`-free parts joined with `'.'`. */
  function Join(parts: seq<string>): string
    requires |parts| > 0
  {
    if |parts| == 1 then parts[0] else parts[0] + "." + Join(parts[1..])
  }

  /** `components(separatedBy: ".")`: the maximal `'.'`-free pieces of `s`, in order, empty pieces
      included ("" gives [""], "a." gives ["a", ""]). */
  function Split(s: string): (parts: seq<string>)
    ensures |parts| > 0
    ensures forall i :: 0 <= i < |parts| ==> '.' !in parts[i]
    ensures Join(parts) == s
  {
    if s == [] then
      [""]
    else
      var rest := Split(s[1..]);
      if s[0] == '.' then
        assert [s[0]] + s[1..] == s;
        [""] + rest
      else
        var parts := [[s[0]] + rest[0]] + rest[1..];
        assert parts[1..] == rest[1..];
        assert s == [s[0]] + s[1..];
        parts
  }

  /** The index of the first pair that differs in `zip(l, r)`, if any. */
  function FirstDifference(l: seq<string>, r: seq<string>): (k: Option<nat>)
    ensures k.Some? ==> k.value < |l| && k.value < |r| && l[k.value] != r[k.value]
    ensures k.Some? ==> forall j :: 0 <= j < k.value ==> l[j] == r[j]
    ensures k.None? ==> forall j :: 0 <= j < |l| && j < |r| ==> l[j] == r[j]
  {
    if l == [] || r == [] then None
    else if l[0] != r[0] then Some(0)
    else match FirstDifference(l[1..], r[1..])
      case None => None
      case Some(k) => Some(k + 1)
  }

  /** A pre-release identifier that the lenient number regex accepts. */
  predicate IsNumeric(id: string)
    ensures IsNumeric(id) <==> |id| > 0 && AllDigits(id)
  {
    assert AllIn(Digits, id) <==> AllDigits(id);
    NumberRegexAsWritten(false, id)
  }

  /** How `compareNumeric` orders one pair of differing identifiers: as integers (`Int(..) ?? 0`,
      so 0 when out of range) when both are digit runs, otherwise as strings. */
  function CompareIdentifiers(l: string, r: string): (o: Ordering)
    ensures IsNumeric(l) && IsNumeric(r) ==>
      (o == Ascending <==> ParseInt(l).GetOr(0) < ParseInt(r).GetOr(0))
      && (o == Same <==> ParseInt(l).GetOr(0) == ParseInt(r).GetOr(0))
    ensures !(IsNumeric(l) && IsNumeric(r)) ==>
      (o == Ascending <==> StringLess(l, r)) && (o == Same <==> l == r)
  {
    if IsNumeric(l) && IsNumeric(r) then
      CompareInt(ParseInt(l).GetOr(0), ParseInt(r).GetOr(0))
    else
      CompareString(l, r)
  }

  /** `compareNumeric(lhs:rhs:)`: the first differing pair of dot-separated identifiers decides;
      without one, the shorter list of identifiers comes first. */
  function CompareNumeric(lhs: string, rhs: string): (o: Ordering)
    ensures lhs == rhs ==> o == Same
    ensures '.' !in lhs && '.' !in rhs && lhs != rhs ==> o == CompareIdentifiers(lhs, rhs)
  {
    if '.' !in lhs && '.' !in rhs then
      SplitJoin([lhs]);
      SplitJoin([rhs]);
      assert Split(lhs) == [lhs] && Split(rhs) == [rhs];
      assert lhs != rhs ==> FirstDifference([lhs], [rhs]) == Some(0);
      CompareIdentifierLists(Split(lhs), Split(rhs))
    else
      CompareIdentifierLists(Split(lhs), Split(rhs))
  }

  /** The ordering `compareNumeric` gives two lists of identifiers. */
  function CompareIdentifierLists(l: seq<string>, r: seq<string>): (o: Ordering)
    ensures (forall k :: 0 <= k < |l| && k < |r| ==> l[k] == r[k]) ==> o == CompareInt(|l|, |r|)
  {
    match FirstDifference(l, r)
    case Some(k) => CompareIdentifiers(l[k], r[k])
    case None => if |l| != |r| then CompareInt(|l|, |r|) else Same
  }

  /** `<`: major, canonical minor and canonical patch in priority order; on a tie a version with a
      pre-release precedes one without, and two pre-releases are compared by `compareNumeric`.
      Build metadata plays no part. */
  predicate Less(a: Version, b: Version)
    ensures a.major != b.major ==> (Less(a, b) <==> a.major < b.major)
    ensures a.major == b.major && CanonicalMinor(a) != CanonicalMinor(b) ==>
      (Less(a, b) <==> CanonicalMinor(a) < CanonicalMinor(b))
    ensures a.major == b.major && CanonicalMinor(a) == CanonicalMinor(b) && CanonicalPatch(a) != CanonicalPatch(b) ==>
      (Less(a, b) <==> CanonicalPatch(a) < CanonicalPatch(b))
    ensures a.major == b.major && CanonicalMinor(a) == CanonicalMinor(b) && CanonicalPatch(a) == CanonicalPatch(b) ==>
      (Less(a, b) <==> a.prerelease.Some? && (b.prerelease.None? || CompareNumeric(a.prerelease.value, b.prerelease.value) == Ascending))
  {
    var majorComparison := CompareInt(a.major, b.major);
    if majorComparison != Same then majorComparison == Ascending
    else
      var minorComparison := CompareInt(CanonicalMinor(a), CanonicalMinor(b));
      if minorComparison != Same then minorComparison == Ascending
      else
        var patchComparison := CompareInt(CanonicalPatch(a), CanonicalPatch(b));
        if patchComparison != Same then patchComparison == Ascending
        else
          match (a.prerelease, b.prerelease)
          case (Some(_), None) => true
          case (None, Some(_)) => false
          case (None, None) => false
          case (Some(l), Some(r)) => CompareNumeric(l, r) == Ascending
  }

  // ---------------------------------------------------------------------------
  // Properties of the pre-release comparison

  /** Splitting loses nothing: equal splits come from equal strings. */
  lemma SplitInjective(p: string, q: string)
    requires Split(p) == Split(q)
    ensures p == q
  {
  }

  /** A `'.'`-free prefix joins the first piece of what follows it. */
  lemma {:induction false} SplitPrefix(a: string, t: string)
    requires '.' !in a
    ensures Split(a + t) == [a + Split(t)[0]] + Split(t)[1..]
  {
    if a == [] {
      assert a + t == t && a + Split(t)[0] == Split(t)[0];
      assert Split(t) == [Split(t)[0]] + Split(t)[1..];
    } else {
      assert (a + t)[0] == a[0];
      assert (a + t)[1..] == a[1..] + t;
      SplitPrefix(a[1..], t);
      assert [a[0]] + (a[1..] + Split(t)[0]) == a + Split(t)[0];
    }
  }

  /** Splitting undoes joining: the identifiers of a pre-release written out with dots are read
      back as they were. */
  lemma {:induction false} SplitJoin(parts: seq<string>)
    requires |parts| > 0 && forall i :: 0 <= i < |parts| ==> '.' !in parts[i]
    ensures Split(Join(parts)) == parts
  {
    if |parts| == 1 {
      SplitPrefix(parts[0], []);
      assert parts[0] + [] == parts[0];
    } else {
      SplitJoin(parts[1..]);
      var t := "." + Join(parts[1..]);
      assert Join(parts) == parts[0] + t;
      SplitPrefix(parts[0], t);
      assert t[1..] == Join(parts[1..]);
      assert Split(t) == [""] + parts[1..];
      assert parts[0] + "" == parts[0];
      assert parts == [parts[0]] + parts[1..];
    }
  }

  /** Two lists have at most one first difference, so it does not depend on the argument order. */
  lemma FirstDifferenceSymmetric(l: seq<string>, r: seq<string>)
    ensures FirstDifference(r, l) == FirstDifference(l, r)
  {
  }

  lemma CompareIdentifiersFlip(l: string, r: string)
    ensures CompareIdentifiers(r, l) == Flip(CompareIdentifiers(l, r))
  {
    CompareStringFlip(l, r);
  }

  /** `compareNumeric` is antisymmetric, and every string is the same as itself. */
  lemma CompareNumericFlip(lhs: string, rhs: string)
    ensures CompareNumeric(rhs, lhs) == Flip(CompareNumeric(lhs, rhs))
    ensures CompareNumeric(lhs, lhs) == Same
  {
    var l, r := Split(lhs), Split(rhs);
    FirstDifferenceSymmetric(l, r);
    match FirstDifference(l, r)
    case Some(k) => CompareIdentifiersFlip(l[k], r[k]);
    case None =>
  }

  /** The identifiers at each common position are both numeric or both not, so `compareNumeric`
      never has to order a number against a word. */
  predicate KindsAligned(lhs: string, rhs: string) {
    ListKindsAligned(Split(lhs), Split(rhs))
  }

  predicate ListKindsAligned(l: seq<string>, r: seq<string>) {
    forall k :: 0 <= k < |l| && k < |r| ==> IsNumeric(l[k]) == IsNumeric(r[k])
  }

  lemma CompareIdentifiersTransitive(x: string, y: string, z: string)
    requires IsNumeric(x) == IsNumeric(y) == IsNumeric(z)
    requires CompareIdentifiers(x, y) == Ascending && CompareIdentifiers(y, z) == Ascending
    ensures CompareIdentifiers(x, z) == Ascending && x != z
  {
    if !IsNumeric(x) {
      StringLessTransitive(x, y, z);
      CompareStringFlip(x, z);
    }
  }

  /** `compareNumeric` is transitive between pre-releases whose identifier kinds line up. */
  lemma CompareNumericTransitive(p: string, q: string, s: string)
    requires KindsAligned(p, q) && KindsAligned(q, s)
    requires CompareNumeric(p, q) == Ascending && CompareNumeric(q, s) == Ascending
    ensures CompareNumeric(p, s) == Ascending
  {
    CompareIdentifierListsTransitive(Split(p), Split(q), Split(s));
  }

  lemma CompareIdentifierListsTransitive(a: seq<string>, b: seq<string>, c: seq<string>)
    requires ListKindsAligned(a, b) && ListKindsAligned(b, c)
    requires CompareIdentifierLists(a, b) == Ascending && CompareIdentifierLists(b, c) == Ascending
    ensures CompareIdentifierLists(a, c) == Ascending
  {
    var ab, bc, ac := FirstDifference(a, b), FirstDifference(b, c), FirstDifference(a, c);
    if ab.Some? && bc.Some? {
      var i, j := ab.value, bc.value;
      if i < j {
        assert ac == Some(i) by {
          assert a[i] != c[i];
          FirstDifferenceAt(a, c, i);
        }
      } else if j < i {
        assert ac == Some(j) by {
          assert a[j] != c[j];
          FirstDifferenceAt(a, c, j);
        }
      } else {
        CompareIdentifiersTransitive(a[i], b[i], c[i]);
        FirstDifferenceAt(a, c, i);
      }
    } else if ab.Some? {
      // b is a proper prefix of c, and a differs from b inside it.
      var i := ab.value;
      assert |b| < |c|;
      assert a[i] != c[i];
      FirstDifferenceAt(a, c, i);
    } else if bc.Some? {
      // a is a proper prefix of b, and b differs from c inside a's length or beyond it.
      var j := bc.value;
      assert |a| < |b|;
      if j < |a| {
        assert a[j] != c[j];
        FirstDifferenceAt(a, c, j);
      }
    } else {
      assert |a| < |b| < |c|;
    }
  }

  /** A position where two lists differ and before which they agree is their first difference. */
  lemma FirstDifferenceAt(l: seq<string>, r: seq<string>, k: nat)
    requires k < |l| && k < |r| && l[k] != r[k]
    requires forall j :: 0 <= j < k ==> l[j] == r[j]
    ensures FirstDifference(l, r) == Some(k)
  {
  }

  // ---------------------------------------------------------------------------
  // Properties of precedence

  /** No version precedes itself. */
  lemma LessIrreflexive(a: Version)
    ensures !Less(a, a)
  {
    CompareNumericFlip(a.prerelease.GetOr(""), a.prerelease.GetOr(""));
  }

  /** Precedence is asymmetric. */
  lemma LessAsymmetric(a: Version, b: Version)
    requires Less(a, b)
    ensures !Less(b, a)
  {
    if a.prerelease.Some? && b.prerelease.Some? {
      CompareNumericFlip(a.prerelease.value, b.prerelease.value);
    }
  }

  /** `==` versions precede nothing the other does not, and are not ordered among themselves:
      precedence depends only on the fields `==` compares, so never on build metadata. */
  lemma LessRespectsEqual(a: Version, a': Version, b: Version, b': Version)
    requires Equal(a, a') && Equal(b, b')
    ensures Less(a, b) <==> Less(a', b')
    ensures Equal(a, b) ==> !Less(a, b) && !Less(b, a)
  {
    if Equal(a, b) {
      LessIrreflexive(a);
    }
  }

  /** Precedence is transitive for pre-releases whose identifier kinds line up. */
  lemma LessTransitive(a: Version, b: Version, c: Version)
    requires a.prerelease.Some? && b.prerelease.Some? ==> KindsAligned(a.prerelease.value, b.prerelease.value)
    requires b.prerelease.Some? && c.prerelease.Some? ==> KindsAligned(b.prerelease.value, c.prerelease.value)
    requires Less(a, b) && Less(b, c)
    ensures Less(a, c)
  {
    if a.major == b.major == c.major && CanonicalMinor(a) == CanonicalMinor(b) == CanonicalMinor(c)
      && CanonicalPatch(a) == CanonicalPatch(b) == CanonicalPatch(c)
      && a.prerelease.Some? && b.prerelease.Some? && c.prerelease.Some?
    {
      CompareNumericTransitive(a.prerelease.value, b.prerelease.value, c.prerelease.value);
    }
  }

  /** A version on the pre-release line of 1.0.0. */
  function OneZeroZero(prerelease: string): Version {
    Version(1, Some(0), Some(0), Some(prerelease), None)
  }

  /** Because a number and a word are compared as strings, precedence has a cycle:
      1.0.0-2 < 1.0.0-10 < 1.0.0-1a < 1.0.0-2. */
  lemma LessHasCycle()
    ensures Less(OneZeroZero("2"), OneZeroZero("10"))
    ensures Less(OneZeroZero("10"), OneZeroZero("1a"))
    ensures Less(OneZeroZero("1a"), OneZeroZero("2"))
  {
    SplitJoin(["2"]);
    SplitJoin(["10"]);
    SplitJoin(["1a"]);
    assert Join(["2"]) == "2" && Join(["10"]) == "10" && Join(["1a"]) == "1a";
    assert IsNumeric("2") && IsNumeric("10") && !IsNumeric("1a") by {
      assert !InClass(Digits, "1a"[1]);
    }
    ValueOfShort('1', '0');
    ValueOfShort('2', '0');
    assert ParseInt("2") == Some(2) && ParseInt("10") == Some(10);
    assert StringLess("10", "1a") by {
      assert "10"[1..] == "0" && "1a"[1..] == "a";
    }
    assert StringLess("1a", "2");
  }

  /** Every numeric identifier of `p` is written without leading zeros and fits an `Int`. */
  predicate CanonicalNumerals(p: string) {
    var ids := Split(p);
    forall k :: 0 <= k < |ids| ==> IsNumeric(ids[k]) ==> IsNumber(true, ids[k]) && ParseInt(ids[k]).Some?
  }

  lemma CompareIdentifiersTotal(x: string, y: string)
    requires IsNumeric(x) ==> IsNumber(true, x) && ParseInt(x).Some?
    requires IsNumeric(y) ==> IsNumber(true, y) && ParseInt(y).Some?
    requires x != y
    ensures CompareIdentifiers(x, y) != Same
  {
    if IsNumeric(x) && IsNumeric(y) {
      NumberDigits(true, x);
      NumberDigits(true, y);
      if ValueOf(x) == ValueOf(y) {
        ValueOfInjective(x, y);
      }
    } else {
      CompareStringFlip(x, y);
    }
  }

  /** Between pre-releases whose numeric identifiers are canonical, precedence is total up to `==`. */
  lemma LessTotal(a: Version, b: Version)
    requires a.prerelease.Some? ==> CanonicalNumerals(a.prerelease.value)
    requires b.prerelease.Some? ==> CanonicalNumerals(b.prerelease.value)
    ensures Equal(a, b) || Less(a, b) || Less(b, a)
  {
    if a.major == b.major && CanonicalMinor(a) == CanonicalMinor(b) && CanonicalPatch(a) == CanonicalPatch(b)
      && a.prerelease.Some? && b.prerelease.Some? && a.prerelease != b.prerelease
    {
      var p, q := a.prerelease.value, b.prerelease.value;
      var l, r := Split(p), Split(q);
      CompareNumericFlip(p, q);
      match FirstDifference(l, r)
      case Some(k) =>
        CompareIdentifiersTotal(l[k], r[k]);
      case None =>
        if |l| == |r| {
          SplitInjective(p, q);
        }
    }
  }

  /** Without canonical numerals precedence is not total: 1.0.0-01 and 1.0.0-1 are neither `==`
      nor ordered either way. */
  lemma LessNotTotal()
    ensures !Equal(OneZeroZero("01"), OneZeroZero("1"))
    ensures !Less(OneZeroZero("01"), OneZeroZero("1")) && !Less(OneZeroZero("1"), OneZeroZero("01"))
  {
    SplitJoin(["01"]);
    SplitJoin(["1"]);
    assert Join(["01"]) == "01" && Join(["1"]) == "1";
    assert IsNumeric("01") && IsNumeric("1");
    ValueOfShort('0', '1');
    ValueOfShort('1', '0');
    assert ParseInt("01") == Some(1) && ParseInt("1") == Some(1);
  }

  // ---------------------------------------------------------------------------
  // Rendering and validity

  /** `description`: the major number, then `.minor`, `.patch`, `-prerelease` and `+build`, each
      only when present; nothing is defaulted. */
  function Description(v: Version): string {
    Render(v.major)
      + (if v.minor.Some? then "." + Render(v.minor.value) else "")
      + (if v.patch.Some? then "." + Render(v.patch.value) else "")
      + (if v.prerelease.Some? then "-" + v.prerelease.value else "")
      + (if v.build.Some? then "+" + v.build.value else "")
  }

  /** `valid(string:strict:)`: whether the strict parser's anchored version regex matches. The
      `strict` argument is not consulted. */
  predicate IsValid(s: string, strict: bool)
    ensures IsValid(s, strict) <==> Recognize(true, s).Some?
  {
    VersionRegexMatches(true, s)
  }

  // ---------------------------------------------------------------------------
  // A variable of type `Version`, for the members that mutate one in place

  /** Storage for a `var` of type `Version`: the members that assign to it run the fields'
      `didSet` checks, and `canonicalize()` overwrites minor and patch in place. */
  class VersionVar {
    var major: NonNegInt
    var minor: Option<NonNegInt>
    var patch: Option<NonNegInt>
    var prerelease: Option<string>
    var build: Option<string>

    /** The value currently held. */
    function Value(): Version
      reads this
    {
      Version(major, minor, patch, prerelease, build)
    }

    /** `var x = v`. */
    constructor (v: Version)
      ensures Value() == v
    {
      major, minor, patch, prerelease, build := v.major, v.minor, v.patch, v.prerelease, v.build;
    }

    /** `x.major = m`; `didSet` requires a non-negative value. */
    method SetMajor(m: SwiftInt)
      requires m >= 0
      modifies this
      ensures Value() == old(Value()).(major := m)
    {
      major := m;
    }

    /** `x.minor = m`; `didSet` requires a present value to be non-negative. */
    method SetMinor(m: Option<SwiftInt>)
      requires m.Some? ==> m.value >= 0
      modifies this
      ensures Value() == old(Value()).(minor := if m.Some? then Some(m.value) else None)
    {
      minor := if m.Some? then Some(m.value) else None;
    }

    /** `x.patch = p`; `didSet` requires a present value to be non-negative. */
    method SetPatch(p: Option<SwiftInt>)
      requires p.Some? ==> p.value >= 0
      modifies this
      ensures Value() == old(Value()).(patch := if p.Some? then Some(p.value) else None)
    {
      patch := if p.Some? then Some(p.value) else None;
    }

    /** `x.prerelease = p`. */
    method SetPrerelease(p: Option<string>)
      modifies this
      ensures Value() == old(Value()).(prerelease := p)
    {
      prerelease := p;
    }

    /** `x.build = b`. */
    method SetBuild(b: Option<string>)
      modifies this
      ensures Value() == old(Value()).(build := b)
    {
      build := b;
    }

    /** `canonicalize()`: `minor = minor ?? 0` and `patch = patch ?? 0`, leaving present values and
        every other field as they were. */
    method Canonicalize()
      modifies this
      ensures old(minor).Some? ==> minor == old(minor)
      ensures old(minor).None? ==> minor == Some(0)
      ensures old(patch).Some? ==> patch == old(patch)
      ensures old(patch).None? ==> patch == Some(0)
      ensures major == old(major) && prerelease == old(prerelease) && build == old(build)
      ensures Value() == CanonicalForm(old(Value()))
    {
      SetMinor(Some(minor.GetOr(0)));
      SetPatch(Some(patch.GetOr(0)));
    }

    /** `canonicalized()`: canonicalises a copy and returns it; the receiver keeps its value. */
    method Canonicalized() returns (c: Version)
      ensures c == CanonicalForm(Value())
    {
      var copy := new VersionVar(Value());
      copy.Canonicalize();
      c := copy.Value();
    }
  }
}
