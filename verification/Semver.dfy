/** Version precedence (section 11 of Semantic Versioning 2.0.0) on strings with a "v" prefix, as
    golang.org/x/mod/semver compares them: a string that is no version is below every version. */
module Semver {
  import opened Seqs

  // ----- Comparisons -----

  /** -1, 0 or 1. */
  type Sign = s: int | -1 <= s <= 1

  /** The first comparison decides unless it is a tie. */
  function Then(first: Sign, second: Sign): Sign {
    if first != 0 then first else second
  }

  /** How the comparisons of a with b, b with c and a with c must fit together. */
  predicate Chain(ab: Sign, bc: Sign, ac: Sign) {
    ab <= 0 && bc <= 0 ==> ac <= 0 && (ac == 0 <==> ab == 0 && bc == 0)
  }

  function CompareNat(a: int, b: int): Sign {
    if a < b then -1 else if a > b then 1 else 0
  }

  /** Strings in the order of their characters. */
  function CompareStrings(a: string, b: string): Sign {
    if a == b then 0
    else if a == "" then -1
    else if b == "" then 1
    else if a[0] != b[0] then if a[0] < b[0] then -1 else 1
    else CompareStrings(a[1..], b[1..])
  }

  lemma {:induction false} StringsZero(a: string, b: string)
    ensures CompareStrings(a, b) == 0 <==> a == b
    ensures CompareStrings(a, b) == -CompareStrings(b, a)
  {
    if a != "" && b != "" {
      StringsZero(a[1..], b[1..]);
      assert a[0] == b[0] && a[1..] == b[1..] ==> a == b by {
        assert a == [a[0]] + a[1..] && b == [b[0]] + b[1..];
      }
    }
  }

  lemma {:induction false} StringsChain(a: string, b: string, c: string)
    ensures Chain(CompareStrings(a, b), CompareStrings(b, c), CompareStrings(a, c))
  {
    StringsZero(a, b);
    StringsZero(b, c);
    StringsZero(a, c);
    if a != "" && b != "" && c != "" {
      StringsChain(a[1..], b[1..], c[1..]);
    }
  }

  /** Digit strings without leading zeros: the longer is the larger. */
  function CompareInts(a: string, b: string): Sign {
    Then(CompareNat(|a|, |b|), CompareStrings(a, b))
  }

  predicate Digit(c: char) {
    '0' <= c <= '9'
  }

  predicate IsNum(s: string) {
    forall i :: 0 <= i < |s| ==> Digit(s[i])
  }

  /** Numeric identifiers are below alphanumeric ones and compare as numbers. */
  function CompareIdents(a: string, b: string): Sign {
    if a == b then 0
    else if IsNum(a) != IsNum(b) then if IsNum(a) then -1 else 1
    else if IsNum(a) then CompareInts(a, b)
    else CompareStrings(a, b)
  }

  lemma IdentsSymmetric(a: string, b: string)
    ensures CompareIdents(a, b) == -CompareIdents(b, a)
    ensures CompareIdents(a, b) == 0 <==> a == b
  {
    StringsZero(a, b);
  }

  lemma IdentsChain(a: string, b: string, c: string)
    ensures Chain(CompareIdents(a, b), CompareIdents(b, c), CompareIdents(a, c))
  {
    StringsZero(a, b);
    StringsZero(b, c);
    StringsZero(a, c);
    StringsChain(a, b, c);
  }

  /** Identifier by identifier; of two lists of which one starts the other the shorter is lower. */
  function CompareLists(a: seq<string>, b: seq<string>): Sign {
    if a == [] && b == [] then 0
    else if a == [] then -1
    else if b == [] then 1
    else Then(CompareIdents(a[0], b[0]), CompareLists(a[1..], b[1..]))
  }

  lemma {:induction false} ListsSymmetric(a: seq<string>, b: seq<string>)
    ensures CompareLists(a, b) == -CompareLists(b, a)
    ensures CompareLists(a, b) == 0 <==> a == b
  {
    if a != [] && b != [] {
      hide CompareIdents;
      IdentsSymmetric(a[0], b[0]);
      ListsSymmetric(a[1..], b[1..]);
      assert a[0] == b[0] && a[1..] == b[1..] ==> a == b by {
        assert a == [a[0]] + a[1..] && b == [b[0]] + b[1..];
      }
    }
  }

  lemma {:induction false} ListsChain(a: seq<string>, b: seq<string>, c: seq<string>)
    ensures Chain(CompareLists(a, b), CompareLists(b, c), CompareLists(a, c))
  {
    hide CompareIdents;
    if a != [] && b != [] && c != [] {
      IdentsChain(a[0], b[0], c[0]);
      ListsChain(a[1..], b[1..], c[1..]);
    }
  }

  /** A version without pre-release identifiers is above every pre-release of it. */
  function ComparePrerelease(a: seq<string>, b: seq<string>): Sign {
    if a == b then 0
    else if a == [] then 1
    else if b == [] then -1
    else CompareLists(a, b)
  }

  // ----- Versions -----

  /** Numbers are digit strings without leading zeros; build metadata is not kept. */
  datatype Version = Version(major: string, minor: string, patch: string, prerelease: seq<string>)

  function CompareVersions(a: Version, b: Version): Sign {
    Then(CompareInts(a.major, b.major),
         Then(CompareInts(a.minor, b.minor),
              Then(CompareInts(a.patch, b.patch), ComparePrerelease(a.prerelease, b.prerelease))))
  }

  lemma IntsChain(a: string, b: string, c: string)
    ensures Chain(CompareInts(a, b), CompareInts(b, c), CompareInts(a, c))
    ensures CompareInts(a, b) == -CompareInts(b, a)
  {
    StringsZero(a, b);
    StringsChain(a, b, c);
  }

  lemma PrereleaseChain(a: seq<string>, b: seq<string>, c: seq<string>)
    ensures Chain(ComparePrerelease(a, b), ComparePrerelease(b, c), ComparePrerelease(a, c))
    ensures ComparePrerelease(a, b) == -ComparePrerelease(b, a)
  {
    ListsSymmetric(a, b);
    ListsSymmetric(b, c);
    ListsSymmetric(a, c);
    ListsChain(a, b, c);
  }

  lemma VersionsChain(a: Version, b: Version, c: Version)
    ensures Chain(CompareVersions(a, b), CompareVersions(b, c), CompareVersions(a, c))
    ensures CompareVersions(a, b) == -CompareVersions(b, a)
  {
    hide CompareInts, ComparePrerelease;
    IntsChain(a.major, b.major, c.major);
    IntsChain(a.minor, b.minor, c.minor);
    IntsChain(a.patch, b.patch, c.patch);
    PrereleaseChain(a.prerelease, b.prerelease, c.prerelease);
  }

  // ----- Parsing -----

  predicate IdentChar(c: char) {
    Digit(c) || 'a' <= c <= 'z' || 'A' <= c <= 'Z' || c == '-'
  }

  predicate Ident(s: string) {
    s != "" && forall i :: 0 <= i < |s| ==> IdentChar(s[i])
  }

  /** A number with a leading zero. */
  predicate BadNum(s: string) {
    |s| > 1 && s[0] == '0' && IsNum(s)
  }

  function DigitsLen(s: string): (n: nat)
    ensures n <= |s|
  {
    if s != "" && Digit(s[0]) then 1 + DigitsLen(s[1..]) else 0
  }

  /** A number without leading zeros and what follows it. */
  function ParseInt(s: string): (r: Option<(string, string)>)
    ensures r.Some? ==> |r.value.1| < |s|
  {
    var n := DigitsLen(s);
    if n == 0 || (s[0] == '0' && n != 1) then None else Some((s[..n], s[n..]))
  }

  function IndexOf(s: string, c: char): (n: nat)
    ensures n <= |s|
  {
    if s == "" || s[0] == c then 0 else 1 + IndexOf(s[1..], c)
  }

  predicate IsBuild(s: string) {
    s == "" || (s[0] == '+' && forall p :: p in Split(s[1..], '.') ==> Ident(p))
  }

  /** What may follow the three numbers. */
  function ParseSuffix(major: string, minor: string, patch: string, s: string): Option<Version> {
    if s != "" && s[0] == '-' then
      var n := IndexOf(s, '+');
      var idents := Split(s[1..n], '.');
      if (forall p :: p in idents ==> Ident(p) && !BadNum(p)) && IsBuild(s[n..])
      then Some(Version(major, minor, patch, idents)) else None
    else if IsBuild(s) then Some(Version(major, minor, patch, []))
    else None
  }

  /** vMAJOR[.MINOR[.PATCH[-PRERELEASE][+BUILD]]] */
  function Parse(v: string): Option<Version> {
    if v == "" || v[0] != 'v' then None
    else match ParseInt(v[1..])
      case None => None
      case Some((major, s)) =>
        if s == "" then Some(Version(major, "0", "0", []))
        else if s[0] != '.' then None
        else match ParseInt(s[1..])
          case None => None
          case Some((minor, t)) =>
            if t == "" then Some(Version(major, minor, "0", []))
            else if t[0] != '.' then None
            else match ParseInt(t[1..])
              case None => None
              case Some((patch, u)) => ParseSuffix(major, minor, patch, u)
  }

  predicate IsValid(v: string) {
    Parse(v).Some?
  }

  function Compare(v: string, w: string): Sign {
    match (Parse(v), Parse(w))
    case (None, None) => 0
    case (None, _) => -1
    case (_, None) => 1
    case (Some(a), Some(b)) => CompareVersions(a, b)
  }

  /** The comparison is a total preorder on all strings. */
  lemma TotalPreorder(a: string, b: string, c: string)
    ensures Compare(a, a) == 0
    ensures Compare(a, b) == -Compare(b, a)
    ensures Chain(Compare(a, b), Compare(b, c), Compare(a, c))
  {
    hide CompareVersions, ParseSuffix, ParseInt;
    match (Parse(a), Parse(b), Parse(c)) {
      case (Some(x), Some(y), Some(z)) =>
        VersionsChain(x, y, z);
        VersionsChain(x, x, x);
      case (Some(x), Some(y), None) =>
        VersionsChain(x, y, y);
        VersionsChain(x, x, x);
      case (Some(x), None, _) => VersionsChain(x, x, x);
      case _ =>
    }
  }

  // ----- Section 11 -----

  function DigitValue(c: char): nat
    requires Digit(c)
  {
    (c - '0') as nat
  }

  /** The number a digit string denotes. */
  function Value(s: string): nat
    requires IsNum(s)
  {
    if s == "" then 0 else 10 * Value(s[..|s| - 1]) + DigitValue(s[|s| - 1])
  }

  function Pow10(n: nat): nat {
    if n == 0 then 1 else 10 * Pow10(n - 1)
  }

  predicate Canonical(s: string) {
    s != "" && IsNum(s) && !BadNum(s)
  }

  lemma {:induction false} ValueBounds(s: string)
    requires IsNum(s)
    ensures Value(s) < Pow10(|s|)
    ensures s != "" && s[0] != '0' ==> Value(s) >= Pow10(|s| - 1)
  {
    if s != "" {
      var init := s[..|s| - 1];
      ValueBounds(init);
      if init != "" {
        assert init[0] == s[0];
      }
    }
  }

  lemma {:induction false} PowMonotone(m: nat, n: nat)
    requires m <= n
    ensures Pow10(m) <= Pow10(n)
  {
    if m < n {
      PowMonotone(m, n - 1);
    }
  }

  lemma Scale(d: nat, unit: nat, v: nat, last: nat)
    ensures 10 * (d * unit + v) + last == d * (10 * unit) + (10 * v + last)
  {
    assert 10 * (d * unit) == d * (10 * unit);
  }

  lemma {:induction false} ValueHead(s: string)
    requires IsNum(s) && s != ""
    ensures Value(s) == DigitValue(s[0]) * Pow10(|s| - 1) + Value(s[1..])
  {
    if |s| > 1 {
      var n := |s| - 1;
      var (init, tail) := (s[..n], s[1..]);
      ValueHead(init);
      assert init[1..] == tail[..n - 1] && tail[n - 1] == s[n];
      Scale(DigitValue(s[0]), Pow10(n - 1), Value(init[1..]), DigitValue(s[n]));
    } else {
      assert s[..0] == "" && s[1..] == "";
    }
  }

  lemma {:induction false} SameLengthValue(a: string, b: string)
    requires IsNum(a) && IsNum(b) && |a| == |b|
    ensures CompareStrings(a, b) == CompareNat(Value(a), Value(b))
  {
    if a != "" {
      SameLengthValue(a[1..], b[1..]);
      ValueHead(a);
      ValueHead(b);
      ValueBounds(a[1..]);
      ValueBounds(b[1..]);
      StringsZero(a, b);
      HeadDecides(DigitValue(a[0]), DigitValue(b[0]), Pow10(|a| - 1), Value(a[1..]), Value(b[1..]));
      if a[0] == b[0] {
        assert a == [a[0]] + a[1..] && b == [b[0]] + b[1..];
      }
    }
  }

  lemma HeadDecides(p: nat, q: nat, unit: nat, x: nat, y: nat)
    requires x < unit && y < unit
    ensures p < q ==> p * unit + x < q * unit + y
    ensures q < p ==> q * unit + y < p * unit + x
  {
    if p < q {
      assert (p + 1) * unit <= q * unit;
    } else if q < p {
      assert (q + 1) * unit <= p * unit;
    }
  }

  /** Comparing digit strings by length and then character by character is comparing numbers. */
  lemma IntsCompareAsNumbers(a: string, b: string)
    requires Canonical(a) && Canonical(b)
    ensures CompareInts(a, b) == CompareNat(Value(a), Value(b))
  {
    if |a| == |b| {
      SameLengthValue(a, b);
    } else {
      ValueBounds(a);
      ValueBounds(b);
      PowMonotone(|a|, if |a| < |b| then |b| - 1 else |a|);
      PowMonotone(|b|, if |b| < |a| then |a| - 1 else |b|);
    }
  }

  // ----- Texts of versions -----

  lemma {:induction false} DigitsPrefix(n: string, rest: string)
    requires IsNum(n) && (rest == "" || !Digit(rest[0]))
    ensures DigitsLen(n + rest) == |n|
  {
    if n == "" {
      assert n + rest == rest;
    } else {
      DigitsPrefix(n[1..], rest);
      assert (n + rest)[1..] == n[1..] + rest;
    }
  }

  lemma ParseIntPrefix(n: string, rest: string)
    requires Canonical(n) && (rest == "" || !Digit(rest[0]))
    ensures ParseInt(n + rest) == Some((n, rest))
  {
    DigitsPrefix(n, rest);
  }

  /** Pre-release identifiers: not empty, of letters, digits and hyphens, numbers without leading zeros. */
  ghost predicate AreIdents(p: seq<string>) {
    forall i :: 0 <= i < |p| ==> Ident(p[i]) && !BadNum(p[i])
  }

  ghost predicate AreBuild(b: seq<string>) {
    forall i :: 0 <= i < |b| ==> Ident(b[i])
  }

  /** vMAJOR.MINOR.PATCH-PRERELEASE+BUILD; the last two may be missing. */
  function Text(x: Version, build: seq<string>): string {
    "v" + x.major + "." + x.minor + "." + x.patch + Suffix(x.prerelease, build)
  }

  function Suffix(p: seq<string>, build: seq<string>): string {
    (if p == [] then "" else "-" + Join(p, '.')) + (if build == [] then "" else "+" + Join(build, '.'))
  }

  ghost predicate IsVersion(x: Version) {
    Canonical(x.major) && Canonical(x.minor) && Canonical(x.patch) && AreIdents(x.prerelease)
  }

  lemma {:induction false} NoPlusInJoin(p: seq<string>)
    requires AreBuild(p)
    ensures '+' !in Join(p, '.')
  {
    if |p| > 1 {
      assert p[0] == p[0] && Ident(p[0]);
      NoPlusInJoin(p[1..]);
    }
  }

  lemma {:induction false} IndexPast(s: string, rest: string)
    requires '+' !in s && (rest == "" || rest[0] == '+')
    ensures IndexOf(s + rest, '+') == |s|
  {
    if s == "" {
      assert s + rest == rest;
    } else {
      IndexPast(s[1..], rest);
      assert (s + rest)[1..] == s[1..] + rest;
    }
  }

  lemma SplitIdents(p: seq<string>)
    requires p != [] && AreBuild(p)
    ensures Split(Join(p, '.'), '.') == p
  {
    SplitJoin(p, '.');
  }

  lemma BuildParses(build: seq<string>)
    requires AreBuild(build)
    ensures IsBuild(if build == [] then "" else "+" + Join(build, '.'))
  {
    if build != [] {
      SplitIdents(build);
      var s := "+" + Join(build, '.');
      assert s[1..] == Join(build, '.');
    }
  }

  lemma SuffixParses(major: string, minor: string, patch: string, p: seq<string>, build: seq<string>)
    requires AreIdents(p) && AreBuild(build)
    ensures ParseSuffix(major, minor, patch, Suffix(p, build)) == Some(Version(major, minor, patch, p))
  {
    hide IsBuild, BadNum, Ident, Join, Split;
    BuildParses(build);
    var tail := if build == [] then "" else "+" + Join(build, '.');
    var s := Suffix(p, build);
    if p == [] {
      assert s == tail;
    } else {
      assert AreBuild(p);
      NoPlusInJoin(p);
      var head := "-" + Join(p, '.');
      IndexPast(head, tail);
      assert s == head + tail && s[1..|head|] == Join(p, '.') && s[|head|..] == tail;
      SplitIdents(p);
    }
  }

  /** Every text of a version, with or without build metadata, is read as that version. */
  lemma TextParses(x: Version, build: seq<string>)
    requires IsVersion(x) && AreBuild(build)
    ensures Parse(Text(x, build)) == Some(x)
  {
    hide ParseInt, ParseSuffix, AreIdents, AreBuild, Canonical;
    var suffix := Suffix(x.prerelease, build);
    SuffixParses(x.major, x.minor, x.patch, x.prerelease, build);
    SuffixStarts(x.prerelease, build);
    hide Suffix;
    var u := x.patch + suffix;
    var t := x.minor + "." + u;
    var s := x.major + "." + t;
    assert Text(x, build) == "v" + s;
    PartParses(x.major, t);
    PartParses(x.minor, u);
    ParseIntPrefix(x.patch, suffix);
  }

  lemma PartParses(n: string, rest: string)
    requires Canonical(n)
    ensures ParseInt(n + "." + rest) == Some((n, "." + rest)) && ("." + rest)[1..] == rest
  {
    ParseIntPrefix(n, "." + rest);
    assert n + ("." + rest) == n + "." + rest;
  }

  lemma SuffixStarts(p: seq<string>, build: seq<string>)
    ensures var s := Suffix(p, build); s == "" || s[0] == '-' || s[0] == '+'
  {
  }

  /** vMAJOR and vMAJOR.MINOR stand for the versions with zeros. */
  lemma ShortTextsParse(major: string, minor: string)
    requires Canonical(major) && Canonical(minor)
    ensures Parse("v" + major) == Some(Version(major, "0", "0", []))
    ensures Parse("v" + major + "." + minor) == Some(Version(major, minor, "0", []))
  {
    hide ParseInt, Canonical;
    ParseIntPrefix(major, "");
    assert major + "" == major && ("v" + major)[1..] == major;
    ParseIntPrefix(major, "." + minor);
    assert ("v" + major + "." + minor)[1..] == major + ("." + minor) && ("." + minor)[1..] == minor;
    ParseIntPrefix(minor, "");
    assert minor + "" == minor;
  }

  lemma {:induction false} DigitsAreDigits(s: string)
    ensures IsNum(s[..DigitsLen(s)])
  {
    if s != "" && Digit(s[0]) {
      DigitsAreDigits(s[1..]);
      var n := DigitsLen(s);
      assert forall i :: 0 < i < n ==> s[..n][i] == s[1..][..n - 1][i - 1];
    }
  }

  lemma ParsedIntIsCanonical(s: string)
    ensures ParseInt(s).Some? ==> Canonical(ParseInt(s).value.0)
  {
    DigitsAreDigits(s);
  }

  lemma SuffixKeepsCore(major: string, minor: string, patch: string, s: string)
    ensures var r := ParseSuffix(major, minor, patch, s);
      r.Some? ==>
        && r.value.major == major && r.value.minor == minor && r.value.patch == patch
        && AreIdents(r.value.prerelease)
  {
  }

  /** Whatever is read is a version. */
  lemma ParsedIsVersion(v: string)
    ensures IsValid(v) ==> IsVersion(Parse(v).value)
  {
    hide ParseInt, ParseSuffix, AreIdents;
    assert Canonical("0");
    NoIdents();
    if IsValid(v) {
      ParsedIntIsCanonical(v[1..]);
      var (major, s) := ParseInt(v[1..]).value;
      if s != "" {
        ParsedIntIsCanonical(s[1..]);
        var (minor, t) := ParseInt(s[1..]).value;
        if t != "" {
          ParsedIntIsCanonical(t[1..]);
          var (patch, u) := ParseInt(t[1..]).value;
          SuffixKeepsCore(major, minor, patch, u);
        }
      }
    }
  }

  lemma NoIdents()
    ensures AreIdents([])
  {
  }

  // ----- Precedence as section 11 states it -----

  /** "Precedence is determined by the first difference": major, minor and patch as numbers. */
  predicate CoreBelow(x: Version, y: Version)
    requires IsNum(x.major) && IsNum(x.minor) && IsNum(x.patch) && IsNum(y.major) && IsNum(y.minor) && IsNum(y.patch)
  {
    || Value(x.major) < Value(y.major)
    || (Value(x.major) == Value(y.major)
        && (|| Value(x.minor) < Value(y.minor)
            || (Value(x.minor) == Value(y.minor) && Value(x.patch) < Value(y.patch))))
  }

  /** Character by character, the first difference deciding; a string is below its extensions. */
  ghost predicate CharsBelow(a: string, b: string) {
    exists m: nat :: m <= |a| && m <= |b| && a[..m] == b[..m]
                     && (if m == |a| then m < |b| else m < |b| && a[m] < b[m])
  }

  /** Numbers as numbers, others by their characters, and numbers below others. */
  ghost predicate IdentBelow(a: string, b: string) {
    if IsNum(a) then (if IsNum(b) then Value(a) < Value(b) else true)
    else !IsNum(b) && CharsBelow(a, b)
  }

  /** The first different identifier decides; a list is below its extensions. */
  ghost predicate IdentsBelow(p: seq<string>, q: seq<string>) {
    exists m: nat :: m <= |p| && m <= |q| && p[..m] == q[..m]
                     && (if m == |p| then m < |q| else m < |q| && IdentBelow(p[m], q[m]))
  }

  /** A pre-release is below its release. */
  ghost predicate PrereleaseBelow(p: seq<string>, q: seq<string>) {
    if p == [] then false else if q == [] then true else IdentsBelow(p, q)
  }

  lemma {:induction false} CharsCompare(a: string, b: string)
    ensures CompareStrings(a, b) < 0 <==> CharsBelow(a, b)
  {
    if a != "" && b != "" && a[0] == b[0] {
      CharsCompare(a[1..], b[1..]);
      if m: nat :| m <= |a| && m <= |b| && a[..m] == b[..m]
                   && (if m == |a| then m < |b| else m < |b| && a[m] < b[m]) {
        assert m > 0 ==> a[1..][..m - 1] == a[..m][1..] && b[1..][..m - 1] == b[..m][1..];
      }
      if m: nat :| m <= |a[1..]| && m <= |b[1..]| && a[1..][..m] == b[1..][..m]
                   && (if m == |a[1..]| then m < |b[1..]| else m < |b[1..]| && a[1..][m] < b[1..][m]) {
        assert a[..m + 1] == [a[0]] + a[1..][..m] && b[..m + 1] == [b[0]] + b[1..][..m];
      }
      assert a == b ==> a[1..] == b[1..];
      assert a[1..] == b[1..] ==> a == b by {
        assert a == [a[0]] + a[1..] && b == [b[0]] + b[1..];
      }
    } else if a != "" && b != "" {
      FirstCharDecides(a, b);
    } else {
      assert CharsBelow(a, b) <==> a == "" && b != "" by {
        assert a[..0] == b[..0];
      }
    }
  }

  lemma EqualPrefixes<T>(a: seq<T>, b: seq<T>, m: nat)
    ensures 0 < m <= |a| && m <= |b| && a[..m] == b[..m] ==> a[0] == b[0]
  {
    if 0 < m <= |a| && m <= |b| && a[..m] == b[..m] {
      assert a[..m][0] == b[..m][0];
    }
  }

  lemma FirstCharDecides(a: string, b: string)
    requires a != "" && b != "" && a[0] != b[0]
    ensures CharsBelow(a, b) <==> a[0] < b[0]
  {
    assert a[..0] == b[..0];
    if m: nat :| m <= |a| && m <= |b| && a[..m] == b[..m]
                 && (if m == |a| then m < |b| else m < |b| && a[m] < b[m]) {
      EqualPrefixes(a, b, m);
    }
  }

  lemma IdentsCompare(a: string, b: string)
    requires Ident(a) && !BadNum(a) && Ident(b) && !BadNum(b)
    ensures CompareIdents(a, b) < 0 <==> IdentBelow(a, b)
  {
    if IsNum(a) && IsNum(b) {
      IntsCompareAsNumbers(a, b);
    } else {
      CharsCompare(a, b);
      StringsZero(a, b);
    }
  }

  lemma {:induction false} ListsCompare(p: seq<string>, q: seq<string>)
    requires AreIdents(p) && AreIdents(q)
    ensures CompareLists(p, q) < 0 <==> IdentsBelow(p, q)
  {
    hide CompareIdents, IdentBelow, Ident, BadNum;
    if p != [] && q != [] {
      IdentsSymmetric(p[0], q[0]);
      IdentsCompare(p[0], q[0]);
      if p[0] == q[0] {
        ListsCompare(p[1..], q[1..]);
        FirstIdentEqual(p, q);
      } else {
        FirstIdentDecides(p, q);
      }
    } else {
      assert p[..0] == q[..0];
      assert IdentsBelow(p, q) <==> p == [] && q != [];
    }
  }

  lemma FirstIdentEqual(p: seq<string>, q: seq<string>)
    requires p != [] && q != [] && p[0] == q[0]
    ensures IdentsBelow(p, q) <==> IdentBelow(p[0], q[0]) || IdentsBelow(p[1..], q[1..])
  {
    hide IdentBelow;
    var (p', q') := (p[1..], q[1..]);
    if m: nat :| m <= |p| && m <= |q| && p[..m] == q[..m]
                 && (if m == |p| then m < |q| else m < |q| && IdentBelow(p[m], q[m])) {
      if m > 0 {
        assert p'[..m - 1] == p[..m][1..] && q'[..m - 1] == q[..m][1..];
        assert m < |p| ==> p'[m - 1] == p[m] && q'[m - 1] == q[m];
      }
    }
    if m: nat :| m <= |p'| && m <= |q'| && p'[..m] == q'[..m]
                 && (if m == |p'| then m < |q'| else m < |q'| && IdentBelow(p'[m], q'[m])) {
      assert p[..m + 1] == [p[0]] + p'[..m] && q[..m + 1] == [q[0]] + q'[..m];
      assert m < |p'| ==> p[m + 1] == p'[m] && q[m + 1] == q'[m];
    }
    if IdentBelow(p[0], q[0]) {
      assert p[..0] == q[..0];
    }
  }

  lemma FirstIdentDecides(p: seq<string>, q: seq<string>)
    requires p != [] && q != [] && p[0] != q[0]
    ensures IdentsBelow(p, q) <==> IdentBelow(p[0], q[0])
  {
    hide IdentBelow;
    assert p[..0] == q[..0];
    if m: nat :| m <= |p| && m <= |q| && p[..m] == q[..m]
                 && (if m == |p| then m < |q| else m < |q| && IdentBelow(p[m], q[m])) {
      EqualPrefixes(p, q, m);
    }
  }

  lemma VersionsCompare(x: Version, y: Version)
    requires IsVersion(x) && IsVersion(y)
    ensures CompareVersions(x, y) < 0 <==>
      CoreBelow(x, y) || (!CoreBelow(y, x) && PrereleaseBelow(x.prerelease, y.prerelease))
  {
    hide CompareInts, CompareLists, IdentsBelow;
    IntsCompareAsNumbers(x.major, y.major);
    IntsCompareAsNumbers(x.minor, y.minor);
    IntsCompareAsNumbers(x.patch, y.patch);
    ListsCompare(x.prerelease, y.prerelease);
    ListsSymmetric(x.prerelease, y.prerelease);
  }

  /** Section 11: of two versions, whatever build metadata they carry, one is below the other exactly when
      its major, minor and patch are, as numbers and in this order, or when these are equal and its
      pre-release is. A string that is no version is below all of them. */
  lemma Section11(x: Version, y: Version, bx: seq<string>, by': seq<string>)
    requires IsVersion(x) && IsVersion(y) && AreBuild(bx) && AreBuild(by')
    ensures Compare(Text(x, bx), Text(y, by')) < 0 <==>
      CoreBelow(x, y) || (!CoreBelow(y, x) && PrereleaseBelow(x.prerelease, y.prerelease))
    ensures forall v :: !IsValid(v) ==> Compare(v, Text(x, bx)) < 0
  {
    hide Text, Parse, CompareVersions, IsVersion, AreBuild;
    TextParses(x, bx);
    TextParses(y, by');
    VersionsCompare(x, y);
  }

  /** The order of section 11: 1.0.0-alpha < 1.0.0-alpha.1 < 1.0.0-alpha.beta < 1.0.0-beta
      < 1.0.0-beta.2 < 1.0.0-beta.11 < 1.0.0-rc.1 < 1.0.0. */
  lemma Section11Example()
    ensures IdentsBelow(["alpha"], ["alpha", "1"]) && IdentsBelow(["alpha", "1"], ["alpha", "beta"])
    ensures IdentsBelow(["alpha", "beta"], ["beta"]) && IdentsBelow(["beta"], ["beta", "2"])
    ensures IdentsBelow(["beta", "2"], ["beta", "11"]) && IdentsBelow(["beta", "11"], ["rc", "1"])
    ensures PrereleaseBelow(["rc", "1"], [])
  {
    Differ(["alpha"], ["alpha", "1"], 1);
    assert !IsNum("beta") && !IsNum("rc") && !IsNum("alpha") by {
      assert !Digit("beta"[0]) && !Digit("rc"[0]) && !Digit("alpha"[0]);
    }
    Differ(["alpha", "1"], ["alpha", "beta"], 1);
    assert CharsBelow("alpha", "beta") && CharsBelow("beta", "rc") by {
      assert "alpha"[..0] == "beta"[..0] == "rc"[..0];
    }
    Differ(["alpha", "beta"], ["beta"], 0);
    Differ(["beta"], ["beta", "2"], 1);
    assert Value("2") < Value("11") by {
      assert "2"[..0] == "" && "11"[..1] == "1" && "1"[..0] == "";
    }
    Differ(["beta", "2"], ["beta", "11"], 1);
    Differ(["beta", "11"], ["rc", "1"], 0);
  }

  lemma Differ(p: seq<string>, q: seq<string>, m: nat)
    requires m <= |p| && m <= |q| && p[..m] == q[..m]
    requires if m == |p| then m < |q| else m < |q| && IdentBelow(p[m], q[m])
    ensures IdentsBelow(p, q)
  {
  }
}
