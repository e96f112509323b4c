/** How a feature's directory is named: by the runner that finds it on disk and by the harness that
    has only the source path of its workflow function. */
module FeatureDirs {
  import opened Seqs
  import opened Runs
  import opened Batches
  import VersionSelection

  const FEATURES := "features"

  /** The index of the last "features" component, -1 if there is none. */
  ghost predicate IsLastFeatures(pieces: seq<string>, index: int) {
    && -1 <= index < |pieces|
    && (index >= 0 ==> pieces[index] == FEATURES)
    && (forall j :: index < j < |pieces| ==> pieces[j] != FEATURES)
  }

  /** The scan of featureDirFromFuncPointer: from the first "features" component on, the index is moved
      to every further one. */
  method LastFeaturesIndex(pieces: seq<string>) returns (featuresIndex: int)
    ensures IsLastFeatures(pieces, featuresIndex)
  {
    featuresIndex := -1;
    for i := 0 to |pieces|
      invariant featuresIndex == -1
      invariant forall j :: 0 <= j < i ==> pieces[j] != FEATURES
    {
      if pieces[i] == FEATURES {
        for j := i to |pieces|
          invariant -1 <= featuresIndex < j
          invariant featuresIndex == -1 ==> j == i
          invariant featuresIndex >= 0 ==> pieces[featuresIndex] == FEATURES
          invariant forall k :: 0 <= k < j && k > featuresIndex ==> pieces[k] != FEATURES
        {
          if pieces[j] == FEATURES {
            featuresIndex := j;
          }
        }
        break;
      }
    }
  }

  /** The directory the harness registers a feature under; the components of the path of a source file
      are clean, so joining them needs no further cleaning. */
  method RegisteredDir(slashDir: string) returns (dir: Option<string>)
    ensures IsRegisteredDir(slashDir, dir)
  {
    var pieces := Split(slashDir, '/');
    var index := LastFeaturesIndex(pieces);
    if index < 0 {
      return None;
    }
    dir := Some(Join(pieces[index + 1..], '/'));
  }

  ghost predicate IsRegisteredDir(slashDir: string, dir: Option<string>) {
    var pieces := Split(slashDir, '/');
    exists index :: IsLastFeatures(pieces, index)
      && dir == if index < 0 then None else Some(Join(pieces[index + 1..], '/'))
  }

  /** filepath.Rel of a directory below features/, given by its components. */
  function RelativeDir(below: seq<string>): string {
    if below == [] then "." else Join(below, '/')
  }

  /** The directory with these components below root/features. */
  function SourceDir(root: string, below: seq<string>): string {
    Join(Split(root, '/') + [FEATURES] + below, '/')
  }

  /** Clean path components. */
  ghost predicate Components(below: seq<string>) {
    forall i :: 0 <= i < |below| ==> below[i] !in {"", ".", ".."} && '/' !in below[i]
  }

  lemma SourceDirSplits(root: string, below: seq<string>)
    requires Components(below)
    ensures Split(SourceDir(root, below), '/') == Split(root, '/') + [FEATURES] + below
  {
    var pieces := Split(root, '/') + [FEATURES] + below;
    assert '/' !in FEATURES;
    assert forall i :: 0 <= i < |pieces| ==> '/' !in pieces[i];
    SplitJoin(pieces, '/');
  }

  /** Joining fewer components from the end gives a shorter path. */
  lemma {:induction false} SuffixIsShorter(pieces: seq<string>, k: nat)
    requires Components(pieces) && 0 < k <= |pieces|
    ensures |Join(pieces[k..], '/')| < |Join(pieces, '/')|
  {
    if |pieces| == 1 {
      assert Join(pieces[k..], '/') == "";
    } else if k > 1 {
      SuffixIsShorter(pieces[1..], k - 1);
      assert pieces[1..][k - 1..] == pieces[k..];
    }
  }

  /** The two names agree, whatever the root and however many "features" components it has, exactly
      for directories that lie below features/ and have no component of that name themselves. */
  lemma DirsAgreeExactly(root: string, below: seq<string>, registered: Option<string>)
    requires Components(below) && IsRegisteredDir(SourceDir(root, below), registered)
    ensures registered == Some(RelativeDir(below)) <==> below != [] && FEATURES !in below
  {
    SourceDirSplits(root, below);
    var (above, n) := (Split(root, '/'), |Split(root, '/')|);
    var pieces := above + [FEATURES] + below;
    hide Join, Split;
    var index :| IsLastFeatures(pieces, index)
      && registered == if index < 0 then None else Some(Join(pieces[index + 1..], '/'));
    LastOf(above, below, index);
    if FEATURES in below {
      SuffixIsShorter(below, index - n);
    } else {
      assert below[0..] == below;
      if below == [] {
        JoinNothing();
      }
    }
  }

  lemma JoinNothing()
    ensures Join([], '/') == ""
  {
  }

  /** Where the last "features" component lies, below a first one. */
  lemma LastOf(above: seq<string>, below: seq<string>, index: int)
    requires IsLastFeatures(above + [FEATURES] + below, index)
    ensures |above| <= index
    ensures (above + [FEATURES] + below)[index + 1..] == below[index - |above|..]
    ensures index > |above| <==> FEATURES in below
  {
    var (pieces, n) := (above + [FEATURES] + below, |above|);
    assert pieces[n] == FEATURES;
    assert forall i :: n < i < |pieces| ==> pieces[i] == below[i - n - 1];
    if FEATURES in below {
      var i :| 0 <= i < |below| && below[i] == FEATURES;
      assert pieces[n + 1 + i] == FEATURES;
    }
  }

  // ----- Features on disk -----

  /** A feature file the walk comes by: its directory and its config, None if that does not load. */
  datatype Found = Found(dir: string, config: Option<FeatureConfig>)

  datatype Match = Yes | No | BadPattern

  datatype GlobError = InvalidPattern(pattern: string) | BadConfig(dir: string)

  /** filepath.Match of a pattern against the directory, then against the file in it. */
  function MatchOne(match': (string, string) -> Match, pattern: string, dir: string, file: string): Match {
    var p := TrimPrefix(pattern, "features/");
    if match'(p, dir) == No then match'(p, dir + "/" + file) else match'(p, dir)
  }

  /** The first pattern that matches or is bad decides. */
  function MatchAny(match': (string, string) -> Match, patterns: seq<string>, dir: string, file: string)
    : Result<bool, GlobError>
  {
    if patterns == [] then Ok(false)
    else match MatchOne(match', patterns[0], dir, file)
      case Yes => Ok(true)
      case BadPattern => Err(InvalidPattern(TrimPrefix(patterns[0], "features/")))
      case No => MatchAny(match', patterns[1..], dir, file)
  }

  /** What the walk makes of one feature file: an error, nothing, or a feature. */
  function Visit(match': (string, string) -> Match, patterns: seq<string>, lang: string, version: string, f: Found)
    : Result<Option<Feature>, GlobError>
  {
    var wanted := if patterns == [] then Ok(true) else MatchAny(match', patterns, f.dir, "feature." + lang);
    match wanted
    case Err(e) => Err(e)
    case Ok(false) => Ok(None)
    case Ok(true) =>
      if f.config.None? then Err(BadConfig(f.dir))
      else if !VersionSelection.MeetsMinimum(lang, version, f.config.value.minVersion) then Ok(None)
      else Ok(Some(Feature(f.dir, f.config.value)))
  }

  /** The features of successful visits. */
  function Collected(visits: seq<Result<Option<Feature>, GlobError>>): seq<Feature>
    requires forall i :: 0 <= i < |visits| ==> visits[i].Ok?
  {
    if visits == [] then []
    else
      var n := |visits| - 1;
      Collected(visits[..n]) + (if visits[n].value.Some? then [visits[n].value.value] else [])
  }

  /** All features collected, or the error of the first visit that fails. */
  ghost function Globbed(visits: seq<Result<Option<Feature>, GlobError>>): Result<seq<Feature>, GlobError> {
    if visits == [] then Ok([])
    else
      var n := |visits| - 1;
      match Globbed(visits[..n])
      case Err(e) => Err(e)
      case Ok(features) => match visits[n]
        case Err(e) => Err(e)
        case Ok(None) => Ok(features)
        case Ok(Some(f)) => Ok(features + [f])
  }

  lemma {:induction false} AllCollected(visits: seq<Result<Option<Feature>, GlobError>>)
    requires forall i :: 0 <= i < |visits| ==> visits[i].Ok?
    ensures Globbed(visits) == Ok(Collected(visits))
  {
    if visits != [] {
      var n := |visits| - 1;
      AllCollected(visits[..n]);
      assert visits[n].value.None? ==> Collected(visits[..n]) + [] == Collected(visits[..n]);
    }
  }

  lemma GlobbedIs(visits: seq<Result<Option<Feature>, GlobError>>, visited: nat)
    requires visited <= |visits| && forall i :: 0 <= i < visited ==> visits[i].Ok?
    ensures Globbed(visits[..visited]) == Ok(Collected(visits[..visited]))
    ensures visited < |visits| && visits[visited].Err? ==> Globbed(visits) == Err(visits[visited].error)
  {
    AllCollected(visits[..visited]);
    if visited < |visits| && visits[visited].Err? {
      ErrorStays(visits, visited);
    }
  }

  lemma {:induction false} ErrorStays(visits: seq<Result<Option<Feature>, GlobError>>, visited: nat)
    requires visited < |visits| && Globbed(visits[..visited]).Ok? && visits[visited].Err?
    ensures Globbed(visits) == Err(visits[visited].error)
  {
    var n := |visits| - 1;
    if visited < n {
      assert visits[..n][..visited] == visits[..visited];
      ErrorStays(visits[..n], visited);
    }
  }

  ghost function Visits(match': (string, string) -> Match, patterns: seq<string>, lang: string, version: string,
                        found: seq<Found>): seq<Result<Option<Feature>, GlobError>> {
    Map(found, f => Visit(match', patterns, lang, version, f))
  }

  lemma NothingCollected()
    ensures Collected([]) == []
  {
  }

  lemma CollectOne(visits: seq<Result<Option<Feature>, GlobError>>, n: nat)
    requires n < |visits| && forall i :: 0 <= i < n ==> visits[i].Ok?
    ensures visits[n].Ok? ==>
      Collected(visits[..n + 1])
        == Collected(visits[..n]) + (if visits[n].value.Some? then [visits[n].value.value] else [])
  {
    assert visits[..n + 1][..n] == visits[..n];
  }

  /** The loop over the patterns for one file. */
  method TryPatterns(match': (string, string) -> Match, patterns: seq<string>, dir: string, file: string)
    returns (foundMatch: bool, err: Option<GlobError>)
    ensures MatchAny(match', patterns, dir, file) == if err.Some? then Err(err.value) else Ok(foundMatch)
  {
    hide MatchOne;
    assert patterns[0..] == patterns;
    for k := 0 to |patterns|
      invariant MatchAny(match', patterns, dir, file) == MatchAny(match', patterns[k..], dir, file)
    {
      match MatchOne(match', patterns[k], dir, file)
      case BadPattern => return false, Some(InvalidPattern(TrimPrefix(patterns[k], "features/")));
      case Yes => return true, None;
      case No =>
    }
    return false, None;
  }

  /** GlobFeatures over the files the walk finds: all selected features in walk order, or the first
      error; features collected before it are returned with it. */
  method GlobFeatures(found: seq<Found>, patterns: seq<string>, lang: string, version: string,
                      match': (string, string) -> Match)
    returns (features: seq<Feature>, err: Option<GlobError>, visited: nat)
    ensures visited <= |found| && (err.None? <==> visited == |found|)
    ensures var visits := Visits(match', patterns, lang, version, found);
      && (forall i :: 0 <= i < visited ==> visits[i].Ok?)
      && features == Collected(visits[..visited])
      && (err.Some? ==> visits[visited] == Err(err.value))
      && Globbed(visits) == (if err.Some? then Err(err.value) else Ok(features))
  {
    hide MatchAny, Collected, Globbed, VersionSelection.MeetsMinimum;
    NothingCollected();
    features, visited := [], 0;
    ghost var visits := Visits(match', patterns, lang, version, found);
    while visited < |found|
      invariant visited <= |found|
      invariant forall i :: 0 <= i < visited ==> visits[i].Ok?
      invariant features == Collected(visits[..visited])
    {
      var f := found[visited];
      assert visits[visited] == Visit(match', patterns, lang, version, f);
      CollectOne(visits, visited);
      if |patterns| > 0 {
        var foundMatch, patternErr := TryPatterns(match', patterns, f.dir, "feature." + lang);
        if patternErr.Some? {
          GlobbedIs(visits, visited);
          return features, patternErr, visited;
        }
        if !foundMatch {
          visited := visited + 1;
          continue;
        }
      }
      if f.config.None? {
        GlobbedIs(visits, visited);
        return features, Some(BadConfig(f.dir)), visited;
      }
      if VersionSelection.MeetsMinimum(lang, version, f.config.value.minVersion) {
        features := features + [Feature(f.dir, f.config.value)];
      }
      visited := visited + 1;
    }
    assert visits[..visited] == visits;
    GlobbedIs(visits, visited);
    err := None;
  }

  lemma VisitOnlyGrows(match': (string, string) -> Match, patterns: seq<string>, lang: string, v: string, w: string,
                       f: Found)
    requires v != "" && VersionSelection.Earlier(v, w)
    ensures var (a, b) := (Visit(match', patterns, lang, v, f), Visit(match', patterns, lang, w, f));
      && (a.Ok? <==> b.Ok?)
      && (a.Ok? && a.value.Some? ==> a == b)
  {
    hide MatchAny, VersionSelection.MeetsMinimum, VersionSelection.Earlier;
    if f.config.Some? && VersionSelection.MeetsMinimum(lang, v, f.config.value.minVersion) {
      VersionSelection.FeaturesOnlyGrow(lang, v, w, f.config.value.minVersion);
    }
  }

  /** The walk fails at a version exactly when it fails at any other, and otherwise every feature it
      collects at a version it collects at every later one. */
  lemma {:induction false} GlobOnlyGrows(match': (string, string) -> Match, patterns: seq<string>, lang: string,
                                         v: string, w: string, found: seq<Found>)
    requires v != "" && VersionSelection.Earlier(v, w)
    ensures var (a, b) := (Visits(match', patterns, lang, v, found), Visits(match', patterns, lang, w, found));
      && (forall i :: 0 <= i < |found| ==> (a[i].Ok? <==> b[i].Ok?))
      && ((forall i :: 0 <= i < |found| ==> a[i].Ok?) ==>
            forall f :: f in Collected(a) ==> f in Collected(b))
  {
    var (a, b) := (Visits(match', patterns, lang, v, found), Visits(match', patterns, lang, w, found));
    hide Visit;
    forall i | 0 <= i < |found|
      ensures (a[i].Ok? <==> b[i].Ok?) && (a[i].Ok? && a[i].value.Some? ==> a[i] == b[i])
    {
      VisitOnlyGrows(match', patterns, lang, v, w, found[i]);
    }
    if found != [] {
      var n := |found| - 1;
      GlobOnlyGrows(match', patterns, lang, v, w, found[..n]);
      assert a[..n] == Visits(match', patterns, lang, v, found[..n]);
      assert b[..n] == Visits(match', patterns, lang, w, found[..n]);
    }
  }

  // ----- What is selected -----

  /** A pattern, with "features/" in front or not, matches the directory, or else the file in it. */
  ghost predicate Fits(match': (string, string) -> Match, pattern: string, dir: string, file: string) {
    var p := if "features/" <= pattern then pattern[9..] else pattern;
    match'(p, dir) == Yes || (match'(p, dir) == No && match'(p, dir + "/" + file) == Yes)
  }

  /** A pattern that is no pattern is reported when it is tried. */
  ghost predicate Bad(match': (string, string) -> Match, pattern: string, dir: string, file: string) {
    var p := if "features/" <= pattern then pattern[9..] else pattern;
    match'(p, dir) == BadPattern || (match'(p, dir) == No && match'(p, dir + "/" + file) == BadPattern)
  }

  lemma MatchOneMeans(match': (string, string) -> Match, pattern: string, dir: string, file: string)
    ensures MatchOne(match', pattern, dir, file) == Yes <==> Fits(match', pattern, dir, file)
    ensures MatchOne(match', pattern, dir, file) == BadPattern <==> Bad(match', pattern, dir, file)
  {
    assert |"features/"| == 9;
  }

  /** Both spellings of a pattern select the same. */
  lemma SpellingsAgree(match': (string, string) -> Match, pattern: string, dir: string, file: string)
    requires !("features/" <= pattern)
    ensures MatchOne(match', "features/" + pattern, dir, file) == MatchOne(match', pattern, dir, file)
  {
    var long := "features/" + pattern;
    assert |"features/"| == 9 && long[..9] == "features/" && long[9..] == pattern;
  }

  /** The first pattern that fits, or is bad, decides. */
  ghost predicate FirstThatFits(match': (string, string) -> Match, patterns: seq<string>, k: nat, dir: string,
                                file: string)
    requires k < |patterns|
  {
    && Fits(match', patterns[k], dir, file)
    && forall j :: 0 <= j < k ==> !Bad(match', patterns[j], dir, file)
  }

  lemma {:induction false} MatchAnyMeans(match': (string, string) -> Match, patterns: seq<string>, dir: string,
                                         file: string)
    ensures MatchAny(match', patterns, dir, file) == Ok(true) <==>
      exists k :: 0 <= k < |patterns| && FirstThatFits(match', patterns, k, dir, file)
  {
    hide MatchOne, Fits, Bad;
    if patterns != [] {
      var rest := patterns[1..];
      MatchOneMeans(match', patterns[0], dir, file);
      MatchAnyMeans(match', rest, dir, file);
      NotBoth(match', patterns[0], dir, file);
      if Fits(match', patterns[0], dir, file) {
        assert FirstThatFits(match', patterns, 0, dir, file);
      } else if !Bad(match', patterns[0], dir, file) {
        forall k | 0 <= k < |rest|
          ensures FirstThatFits(match', rest, k, dir, file) <==> FirstThatFits(match', patterns, k + 1, dir, file)
        {
          assert forall j :: 1 <= j < k + 1 ==> patterns[j] == rest[j - 1];
          assert forall j :: 0 <= j < k ==> rest[j] == patterns[j + 1];
        }
        if k :| 0 <= k < |patterns| && FirstThatFits(match', patterns, k, dir, file) {
          assert FirstThatFits(match', rest, k - 1, dir, file);
        }
      }
    }
  }

  lemma NotBoth(match': (string, string) -> Match, pattern: string, dir: string, file: string)
    ensures !(Fits(match', pattern, dir, file) && Bad(match', pattern, dir, file))
  {
  }

  /** A feature file is collected exactly when there are no patterns or one fits its directory or itself
      before any bad one is tried, its config loads, and its minimum version is met. */
  lemma VisitMeans(match': (string, string) -> Match, patterns: seq<string>, lang: string, version: string, f: Found,
                   feature: Feature)
    ensures Visit(match', patterns, lang, version, f) == Ok(Some(feature)) <==>
      && (patterns == []
          || exists k :: 0 <= k < |patterns| && FirstThatFits(match', patterns, k, f.dir, "feature." + lang))
      && f.config == Some(feature.config) && feature.dir == f.dir
      && VersionSelection.MeetsMinimum(lang, version, feature.config.minVersion)
  {
    hide MatchAny, FirstThatFits, VersionSelection.MeetsMinimum;
    MatchAnyMeans(match', patterns, f.dir, "feature." + lang);
  }
}
