/** What versions decide: the build tags of the Go harness, the features a version is too low for
    and the stored histories that are replayed. */
module VersionSelection {
  import opened Seqs
  import opened Semver

  const V1_11 := "v1.11.0"
  const V1_12 := "v1.12.0"
  const PRE1_11 := "pre1.11.0"
  const PRE1_12 := "pre1.12.0"

  function GoBuildTags(sdkVersion: string): seq<string> {
    if !IsValid(sdkVersion) then []
    else
      (if Compare(sdkVersion, V1_11) < 0 then [PRE1_11] else [])
      + (if Compare(sdkVersion, V1_12) < 0 then [PRE1_12] else [])
  }

  /** The three files of telemetry/metrics, by their go:build lines. */
  datatype MetricsFile = Current | BeforeV1_11 | BeforeV1_12

  predicate Compiled(file: MetricsFile, tags: seq<string>) {
    match file
    case Current => PRE1_12 !in tags
    case BeforeV1_11 => PRE1_11 in tags
    case BeforeV1_12 => PRE1_11 !in tags && PRE1_12 in tags
  }

  lemma TagVersions()
    ensures IsVersion(Version("1", "11", "0", [])) && IsVersion(Version("1", "12", "0", []))
    ensures Parse(V1_11) == Some(Version("1", "11", "0", []))
    ensures Parse(V1_12) == Some(Version("1", "12", "0", []))
    ensures Value("1") == 1 && Value("11") == 11 && Value("12") == 12 && Value("0") == 0
  {
    hide Parse;
    NoIdents();
    TextParses(Version("1", "11", "0", []), []);
    TextParses(Version("1", "12", "0", []), []);
    assert Suffix([], []) == "";
    assert V1_11 == "v" + "1" + "." + "11" + "." + "0" + "" == Text(Version("1", "11", "0", []), []);
    assert V1_12 == "v" + "1" + "." + "12" + "." + "0" + "" == Text(Version("1", "12", "0", []), []);
    assert "1"[..0] == "" && "11"[..1] == "1" && "12"[..1] == "1" && "0"[..0] == "";
  }

  /** A version below MAJOR.MINOR.0: of an earlier major or minor version, or a pre-release of that one. */
  ghost predicate BelowRelease(x: Version, major: nat, minor: nat)
    requires IsVersion(x)
  {
    var (m, n) := (Value(x.major), Value(x.minor));
    || m < major || (m == major && n < minor)
    || (m == major && n == minor && Value(x.patch) == 0 && x.prerelease != [])
  }

  /** A valid version gets each tag exactly when it is below the release the tag is named for; no other
      string gets any. */
  lemma TagsAre(sdkVersion: string)
    ensures !IsValid(sdkVersion) ==> GoBuildTags(sdkVersion) == []
    ensures IsValid(sdkVersion) ==>
      && IsVersion(Parse(sdkVersion).value)
      && ("pre1.11.0" in GoBuildTags(sdkVersion) <==> BelowRelease(Parse(sdkVersion).value, 1, 11))
      && ("pre1.12.0" in GoBuildTags(sdkVersion) <==> BelowRelease(Parse(sdkVersion).value, 1, 12))
  {
    TagsAreDistinct();
    if IsValid(sdkVersion) {
      TagVersions();
      ParsedIsVersion(sdkVersion);
      var x := Parse(sdkVersion).value;
      hide Parse, IsVersion, CompareVersions;
      VersionsCompare(x, Version("1", "11", "0", []));
      VersionsCompare(x, Version("1", "12", "0", []));
      BelowIs(x, "11");
      BelowIs(x, "12");
    }
  }

  lemma BelowIs(x: Version, minor: string)
    requires IsVersion(x) && IsVersion(Version("1", minor, "0", [])) && Value("1") == 1 && Value("0") == 0
    ensures var y := Version("1", minor, "0", []);
      CoreBelow(x, y) || (!CoreBelow(y, x) && PrereleaseBelow(x.prerelease, []))
      <==> BelowRelease(x, 1, Value(minor))
  {
    hide Value, AreIdents;
  }

  /** Whatever the version string, exactly one of the three files is compiled. */
  lemma ExactlyOneMetricsFile(sdkVersion: string)
    ensures exists file ::
      Compiled(file, GoBuildTags(sdkVersion))
      && forall other :: Compiled(other, GoBuildTags(sdkVersion)) ==> other == file
  {
    hide IsValid, Value, GoBuildTags;
    TagsAre(sdkVersion);
    OneFileOf(GoBuildTags(sdkVersion));
  }

  lemma TagsAreDistinct()
    ensures PRE1_11 != PRE1_12
  {
    assert PRE1_11[6] != PRE1_12[6];
  }

  lemma OneFileOf(tags: seq<string>)
    requires PRE1_11 in tags ==> PRE1_12 in tags
    ensures exists file :: Compiled(file, tags) && forall other :: Compiled(other, tags) ==> other == file
  {
    var file := if PRE1_11 in tags then BeforeV1_11 else if PRE1_12 in tags then BeforeV1_12 else Current;
    assert Compiled(file, tags);
  }

  /** A later version never gets a tag that an earlier one does not have. */
  lemma TagsOnlyShrink(v: string, w: string, tag: string)
    requires IsValid(v) && Compare(v, w) <= 0 && tag in GoBuildTags(w)
    ensures tag in GoBuildTags(v)
  {
    assert !IsValid(w) ==> GoBuildTags(w) == [];
    hide Compare, IsValid;
    TotalPreorder(v, w, V1_11);
    TotalPreorder(v, w, V1_12);
  }

  // ----- Minimum versions -----

  /** The minimum-version check: only for Go, only with an explicit version and a minimum. */
  predicate MeetsMinimum(lang: string, version: string, minVersion: string) {
    lang == "go" && version != "" && minVersion != "" ==> Compare(version, minVersion) >= 0
  }

  /** Lower in the order of section 11 of Semantic Versioning 2.0.0. */
  ghost predicate Below(x: Version, y: Version)
    requires IsVersion(x) && IsVersion(y)
  {
    CoreBelow(x, y) || (!CoreBelow(y, x) && PrereleaseBelow(x.prerelease, y.prerelease))
  }

  /** Only a Go feature can be skipped, and of proper versions exactly those below its minimum skip it. */
  lemma MinimumMeans(lang: string, x: Version, min: Version, bx: seq<string>, bm: seq<string>)
    requires IsVersion(x) && IsVersion(min) && AreBuild(bx) && AreBuild(bm)
    ensures MeetsMinimum(lang, Text(x, bx), Text(min, bm)) <==> lang != "go" || !Below(x, min)
    ensures MeetsMinimum(lang, Text(x, bx), "") && MeetsMinimum(lang, "", Text(min, bm))
  {
    hide Compare, IsVersion, CoreBelow, PrereleaseBelow, AreBuild;
    Section11(x, min, bx, bm);
    assert Text(x, bx) != "" && Text(min, bm) != "";
  }

  /** A stored proper version is replayed exactly when the SDK's is not below it. */
  lemma ReplayedMeans(versions: seq<string>, x: Version, sdk: Version, bx: seq<string>, bs: seq<string>)
    requires IsVersion(x) && IsVersion(sdk) && AreBuild(bx) && AreBuild(bs)
    ensures Text(x, bx) in NotLater(versions, Text(sdk, bs)) <==> Text(x, bx) in versions && !Below(sdk, x)
  {
    hide Compare, IsVersion, CoreBelow, PrereleaseBelow, AreBuild, Text;
    Section11(sdk, x, bs, bx);
    TotalPreorder(Text(x, bx), Text(sdk, bs), Text(x, bx));
  }

  /** Not later in precedence. */
  predicate Earlier(v: string, w: string) {
    Compare(v, w) <= 0
  }

  /** A feature that runs at a version runs at every later one. */
  lemma FeaturesOnlyGrow(lang: string, v: string, w: string, minVersion: string)
    requires v != "" && Earlier(v, w)
    requires MeetsMinimum(lang, v, minVersion)
    ensures MeetsMinimum(lang, w, minVersion)
  {
    hide Compare;
    TotalPreorder(minVersion, v, w);
    TotalPreorder(minVersion, w, w);
  }

  /** A version that is a path (no version string) skips exactly the Go features whose minimum
      version is a proper version. */
  lemma PathVersionSkips(v: string, minVersion: string)
    requires v != "" && !IsValid(v)
    ensures MeetsMinimum("go", v, minVersion) <==> minVersion == "" || !IsValid(minVersion)
  {
    assert !IsValid("");
  }

  // ----- Replayed histories -----

  /** The stored versions that are not later than the SDK. */
  function NotLater(versions: seq<string>, sdkVersion: string): seq<string> {
    Filter(versions, v => Compare(v, sdkVersion) <= 0)
  }

  lemma NotLaterAppend(versions: seq<string>, v: string, sdkVersion: string)
    ensures NotLater(versions + [v], sdkVersion)
         == if Compare(v, sdkVersion) <= 0 then NotLater(versions, sdkVersion) + [v] else NotLater(versions, sdkVersion)
  {
    hide Compare;
    FilterConcat(versions, [v], x => Compare(x, sdkVersion) <= 0);
    assert Filter([v], x => Compare(x, sdkVersion) <= 0) == if Compare(v, sdkVersion) <= 0 then [v] else [];
    assert NotLater(versions, sdkVersion) + [] == NotLater(versions, sdkVersion);
  }

  lemma NotLaterMember(versions: seq<string>, i: nat, sdkVersion: string)
    requires i < |versions| && Compare(versions[i], sdkVersion) <= 0
    ensures versions[i] in NotLater(versions, sdkVersion)
  {
    hide Compare;
    assert versions[i] in versions;
  }

  datatype ReplayResult = AllReplayed | FailedAt(version: string)

  /** CheckHistoryDefault over the stored histories in some order; `replays` tells which succeed. */
  method ReplayStored(versions: seq<string>, sdkVersion: string, replays: string -> bool)
    returns (result: ReplayResult, replayed: seq<string>)
    ensures result.AllReplayed? ==> replayed == NotLater(versions, sdkVersion)
    ensures result.AllReplayed? <==> forall v :: v in NotLater(versions, sdkVersion) ==> replays(v)
    ensures result.FailedAt? ==>
      result.version in NotLater(versions, sdkVersion) && !replays(result.version)
  {
    hide Compare, NotLater;
    replayed := [];
    assert NotLater([], sdkVersion) == [] by {
      NothingNotLater(sdkVersion);
    }
    for i := 0 to |versions|
      invariant replayed == NotLater(versions[..i], sdkVersion)
      invariant forall v :: v in replayed ==> replays(v)
    {
      var version := versions[i];
      NotLaterAppend(versions[..i], version, sdkVersion);
      assert versions[..i + 1] == versions[..i] + [version];
      if Compare(version, sdkVersion) > 0 {
        continue;
      }
      if !replays(version) {
        NotLaterMember(versions, i, sdkVersion);
        return FailedAt(version), replayed;
      }
      replayed := replayed + [version];
    }
    assert versions[..|versions|] == versions;
    result := AllReplayed;
  }

  lemma NothingNotLater(sdkVersion: string)
    ensures NotLater([], sdkVersion) == []
  {
  }

  /** A history replayed at a version is replayed at every later one. */
  lemma ReplaysOnlyGrow(versions: seq<string>, v: string, w: string)
    requires Compare(v, w) <= 0
    ensures forall h :: h in NotLater(versions, v) ==> h in NotLater(versions, w)
  {
    forall h | h in versions && Compare(h, v) <= 0
      ensures Compare(h, w) <= 0
    {
      hide Compare;
      TotalPreorder(h, v, w);
    }
  }
}
