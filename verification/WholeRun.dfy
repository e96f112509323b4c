/** Run, from the feature files to the batches that were run: which work a run has done. */
module WholeRun {
  import opened Seqs
  import opened Runs
  import opened Batches
  import opened Compaction
  import opened BatchRunner
  import Verdict = BatchVerdict
  import Dirs = FeatureDirs

  // ----- What is to be run -----

  /** The features that are run: for an external server without patterns those without variants. */
  function Chosen(matched: seq<Feature>, server: string, patterns: seq<string>): seq<Feature> {
    if server == "" || patterns != [] then matched else PlainFeatures(matched)
  }

  datatype Options = Options(
    patterns: seq<string>,
    version: string,
    generate: bool,
    dirName: string,    // a prepared directory, or none
    dirExists: bool)

  datatype Refusal =
    | NoSuchLanguage | NoVersion | DirHasSeparators | DirWithVersion | DirMissing
    | NotMatched(error: Dirs.GlobError) | NoneMatched | SeveralToGenerate | VariantsToGenerate(dir: string)

  /** The file extension of a language. */
  function NormalizeLang(lang: string): Option<string> {
    if lang in {"go", "java", "ts", "php", "py", "cs", "rb"} then Some(lang)
    else match lang
      case "typescript" => Some("ts")
      case "python" => Some("py")
      case "dotnet" => Some("cs")
      case "csharp" => Some("cs")
      case "ruby" => Some("rb")
      case _ => None
  }

  /** The short names stand for themselves, and the long ones for these; nothing else is a language. */
  lemma LanguagesAre(lang: string)
    ensures NormalizeLang("typescript") == Some("ts") && NormalizeLang("python") == Some("py")
    ensures NormalizeLang("dotnet") == Some("cs") && NormalizeLang("csharp") == Some("cs")
    ensures NormalizeLang("ruby") == Some("rb")
    ensures lang in {"go", "java", "ts", "php", "py", "cs", "rb"} ==> NormalizeLang(lang) == Some(lang)
    ensures NormalizeLang(lang).Some? <==>
      lang in {"go", "java", "ts", "php", "py", "cs", "rb", "typescript", "python", "dotnet", "csharp", "ruby"}
  {
    assert |"typescript"| == 10 && |"python"| == |"dotnet"| == |"csharp"| == 6 && |"ruby"| == 4 && |"java"| == 4;
    assert "ruby"[0] != "java"[0] && "python"[0] != "dotnet"[0];
    assert "dotnet"[0] != "csharp"[0] && "python"[0] != "csharp"[0];
  }

  /** Normalizing what is left behind in the settings changes nothing. */
  lemma NormalizeTwice(lang: string)
    ensures NormalizeLang(lang).Some? ==> NormalizeLang(NormalizeLang(lang).value) == NormalizeLang(lang)
  {
    var short := NormalizeLang(lang);
    if short.Some? {
      assert short.value in {"go", "java", "ts", "php", "py", "cs", "rb"};
    }
  }

  predicate HasVariants(f: Feature) {
    f.config.runVariants != []
  }

  /** What makes nothing run before features are looked for. */
  function RefusesEarly(options: Options): Option<Refusal> {
    if options.generate && options.version == "" then Some(NoVersion)
    else if options.dirName == "" then None
    else if '/' in options.dirName || '\\' in options.dirName then Some(DirHasSeparators)
    else if options.version != "" then Some(DirWithVersion)
    else if !options.dirExists then Some(DirMissing)
    else None
  }

  /** Why nothing is run at all, given the features that match. */
  function Refuses(matched: Result<seq<Feature>, Dirs.GlobError>, server: string, options: Options): Option<Refusal> {
    if RefusesEarly(options).Some? then RefusesEarly(options)
    else match matched
      case Err(e) => Some(NotMatched(e))
      case Ok(features) =>
        if features == [] then Some(NoneMatched)
        else if |features| > 1 && options.generate then Some(SeveralToGenerate)
        else if options.generate && HasVariants(features[0]) then Some(VariantsToGenerate(features[0].dir))
        else if Chosen(features, server, options.patterns) == [] then Some(NoneMatched)
        else None
  }

  /** Something is run exactly when: a history is generated only for an explicit version, one feature and
      no variants; a prepared directory exists, is one of the root's own and comes without a version; and
      some feature matches that an external server can run. */
  lemma RunsExactlyWhen(matched: Result<seq<Feature>, Dirs.GlobError>, server: string, options: Options)
    ensures Refuses(matched, server, options).None? <==>
      && (options.generate ==> options.version != "")
      && (options.dirName != "" ==>
            '/' !in options.dirName && '\\' !in options.dirName && options.version == "" && options.dirExists)
      && matched.Ok? && matched.value != []
      && (options.generate ==> |matched.value| == 1 && matched.value[0].config.runVariants == [])
      && (server != "" && options.patterns == [] ==> exists f :: f in matched.value && f.config.runVariants == [])
  {
    if matched.Ok? {
      var plain := PlainFeatures(matched.value);
      if plain != [] {
        assert plain[0] in plain;
        PlainAre(matched.value, plain[0]);
      }
      if f :| f in matched.value && f.config.runVariants == [] {
        PlainAre(matched.value, f);
      }
      hide PlainFeatures;
    }
  }

  /** The files of features on disk, and how patterns match them. */
  datatype Disk = Disk(found: string -> seq<Dirs.Found>, match': (string, string) -> Dirs.Match)

  ghost function Matched(disk: Disk, lang: string, options: Options): Result<seq<Feature>, Dirs.GlobError> {
    Dirs.Globbed(Dirs.Visits(disk.match', options.patterns, lang, options.version, disk.found(lang)))
  }

  /** namespaceCapabilitiesEnv; `json` is the JSON text of some capabilities. */
  function CapabilitiesText(capabilities: map<string, bool>, json: map<string, bool> -> string): string {
    if capabilities == map[] then "" else json(capabilities)
  }

  function DemandOf(b: Batch, json: map<string, bool> -> string): Demand {
    Demand(b.variantName, b.dynamicConfig, CapabilitiesText(b.capabilities, json), b.expectsProxy)
  }

  function DemandsOf(batches: seq<Batch>, json: map<string, bool> -> string): seq<Demand> {
    Map(batches, (b: Batch) => DemandOf(b, json))
  }

  function FeaturesOf(batches: seq<Batch>): seq<seq<RunFeature>> {
    Map(batches, (b: Batch) => b.features)
  }

  function Answers(outcomes: nat -> Outcomes, n: nat): seq<Outcomes> {
    seq(n, i requires 0 <= i < n => outcomes(i))
  }

  // ----- What was run -----

  /** The features given to harnesses, in order. */
  function Ran(events: seq<Event>): seq<RunFeature> {
    if events == [] then []
    else (if events[0].RunHarness? then events[0].features else []) + Ran(events[1..])
  }

  lemma {:induction false} RanConcat(a: seq<Event>, b: seq<Event>)
    ensures Ran(a + b) == Ran(a) + Ran(b)
  {
    if a == [] {
      assert a + b == b;
    } else {
      RanConcat(a[1..], b);
      assert (a + b)[1..] == a[1..] + b;
    }
  }

  lemma {:induction false} RanOfStarted(events: seq<Event>)
    ensures Ran(events) == Ran(Started(events))
  {
    if events != [] {
      var (first, rest) := ([events[0]], events[1..]);
      RanOfStarted(rest);
      assert events == first + rest;
      StartedConcat(first, rest);
      RanConcat(first, rest);
      RanConcat(Started(first), Started(rest));
      assert first[1..] == [] && Started(first) == if IsStart(events[0]) then first else [];
    }
  }

  /** The features left in each batch. */
  function Left(outcomes: seq<Outcomes>, views: seq<seq<RunFeature>>): seq<RunFeature>
    requires |outcomes| == |views|
  {
    if views == [] then [] else FeaturesToRun(outcomes[0], views[0]) + Left(outcomes[1..], views[1..])
  }

  lemma RanOfBatch(base: Config, env: Option<string>, d: Demand, o: Outcomes, run: seq<RunFeature>)
    requires ServerWorks(base, d, o)
    ensures Ran(ServerStarts(base, d, o) + (if run == [] then [] else [HarnessOf(base, env, d, o, run)])) == run
  {
    hide DynamicConfig.Settings, DynamicConfig.Flags;
    var (server, harness) := (ServerStarts(base, d, o), [HarnessOf(base, env, d, o, run)]);
    RanConcat(server, if run == [] then [] else harness);
    assert server != [] ==> server[1..] == [];
    assert harness[1..] == [];
    assert run + [] == run;
  }

  lemma {:induction false} RanIsLeft(base: Config, env: Option<string>, demands: seq<Demand>,
                                     outcomes: seq<Outcomes>, views: seq<seq<RunFeature>>)
    requires |demands| == |outcomes| == |views|
    requires forall i :: 0 <= i < |demands| ==> ServerWorks(base, demands[i], outcomes[i])
    ensures Ran(StartsOf(base, env, demands, outcomes, views)) == Left(outcomes, views)
  {
    hide FeaturesToRun, ServerWorks, ServerStarts, HarnessOf;
    if demands != [] {
      RanIsLeft(base, env, demands[1..], outcomes[1..], views[1..]);
      var run := FeaturesToRun(outcomes[0], views[0]);
      RanOfBatch(base, env, demands[0], outcomes[0], run);
      RanConcat(ServerStarts(base, demands[0], outcomes[0])
                + (if run == [] then [] else [HarnessOf(base, env, demands[0], outcomes[0], run)]),
                StartsOf(base, env, demands[1..], outcomes[1..], views[1..]));
    }
  }

  /** A run all of whose batches succeed has run what was left in each of them. */
  lemma RanOfRun(base: Config, env: Option<string>, demands: seq<Demand>, outcomes: seq<Outcomes>,
                 views: seq<seq<RunFeature>>)
    requires |demands| == |outcomes| == |views|
    requires forall i :: 0 <= i < |demands| ==> Succeeds(base, demands[i], outcomes[i], views[i])
    ensures Ran(RunEvents(base, env, demands, outcomes, views)) == Left(outcomes, views)
  {
    hide Succeeds, Started, ServerWorks;
    RunStartsEverything(base, env, demands, outcomes, views);
    RanOfStarted(RunEvents(base, env, demands, outcomes, views));
    RanIsLeft(base, env, demands, outcomes, views);
  }

  // ----- What was to be done -----

  /** Whether a batch may not have the endpoints it needs. */
  predicate EndpointsRefused(o: Outcomes, view: seq<RunFeature>) {
    NeedsEndpoints(view) && !Ending(o, view).AllCreated?
  }

  /** For each feature of each batch, whether the endpoints of its batch were refused. */
  function Refusals(outcomes: seq<Outcomes>, views: seq<seq<RunFeature>>): (r: seq<bool>)
    requires |outcomes| == |views|
  {
    if views == [] then []
    else AllOf(EndpointsRefused(outcomes[0], views[0]), |views[0]|) + Refusals(outcomes[1..], views[1..])
  }

  function AllOf(b: bool, n: nat): seq<bool> {
    seq(n, _ => b)
  }

  predicate IsNexusWork(w: Work) {
    HasPrefix(w.feature.dir, Nexus.NEXUS_PREFIX)
  }

  /** Work but for the Nexus features of refused batches. */
  function Surviving(work: seq<Work>, refused: seq<bool>): seq<Work>
    requires |work| == |refused|
  {
    if work == [] then []
    else (if refused[0] && IsNexusWork(work[0]) then [] else [work[0]]) + Surviving(work[1..], refused[1..])
  }

  lemma {:induction false} SurvivingConcat(a: seq<Work>, ra: seq<bool>, b: seq<Work>, rb: seq<bool>)
    requires |a| == |ra| && |b| == |rb|
    ensures Surviving(a + b, ra + rb) == Surviving(a, ra) + Surviving(b, rb)
  {
    if a == [] {
      assert a + b == b && ra + rb == rb;
    } else {
      hide IsNexusWork;
      SurvivingConcat(a[1..], ra[1..], b, rb);
      Regroup(if ra[0] && IsNexusWork(a[0]) then [] else [a[0]], Surviving(a[1..], ra[1..]), Surviving(b, rb));
      assert (a + b)[1..] == a[1..] + b && (ra + rb)[1..] == ra[1..] + rb;
    }
  }

  lemma {:induction false} NothingIsLost(work: seq<Work>, refused: seq<bool>)
    requires |work| == |refused| && forall i :: 0 <= i < |refused| ==> !refused[i]
    ensures Surviving(work, refused) == work
  {
    if work != [] {
      NothingIsLost(work[1..], refused[1..]);
    }
  }

  function OtherWork(work: seq<Work>): seq<Work> {
    Filter(work, w => !IsNexusWork(w))
  }

  lemma {:induction false} OnlyNexusIsLost(work: seq<Work>, refused: seq<bool>)
    requires |work| == |refused|
    ensures OtherWork(Surviving(work, refused)) == OtherWork(work)
  {
    if work != [] {
      OnlyNexusIsLost(work[1..], refused[1..]);
      var first := if refused[0] && IsNexusWork(work[0]) then [] else [work[0]];
      FilterConcat(first, Surviving(work[1..], refused[1..]), w => !IsNexusWork(w));
      FilterConcat([work[0]], work[1..], w => !IsNexusWork(w));
      assert work == [work[0]] + work[1..];
      assert OtherWork(first) == OtherWork([work[0]]);
    }
  }

  /** A feature is run as a unit of work; only its endpoint may have been added. */
  predicate Executes(run: RunFeature, w: Work) {
    Does(run.(nexusEndpoint := ""), w)
  }

  ghost predicate ExecuteAll(runs: seq<RunFeature>, work: seq<Work>) {
    |runs| == |work| && forall i :: 0 <= i < |runs| ==> Executes(runs[i], work[i])
  }

  lemma {:induction false} OthersExecute(view: seq<RunFeature>, work: seq<Work>)
    requires DoAll(view, work)
    ensures ExecuteAll(Nexus.OtherFeatures(view), Surviving(work, AllOf(true, |view|)))
  {
    if view != [] {
      OthersExecute(view[1..], work[1..]);
      assert AllOf(true, |view|)[1..] == AllOf(true, |view[1..]|);
      var first := if Nexus.IsNexus(view[0]) then [] else [view[0]];
      assert Nexus.OtherFeatures(view) == first + Nexus.OtherFeatures(view[1..]);
      assert Does(view[0], work[0]);
      assert view[0].(nexusEndpoint := "") == view[0];
    }
  }

  lemma BatchExecutes(o: Outcomes, view: seq<RunFeature>, work: seq<Work>)
    requires DoAll(view, work)
    ensures ExecuteAll(FeaturesToRun(o, view), Surviving(work, AllOf(EndpointsRefused(o, view), |view|)))
  {
    hide Nexus.EndpointName, Nexus.Rank, Nexus.FirstRefusal, Nexus.NexusFeatures;
    var refused := EndpointsRefused(o, view);
    if refused {
      OthersExecute(view, work);
    } else {
      NothingIsLost(work, AllOf(false, |view|));
      var run := FeaturesToRun(o, view);
      forall i | 0 <= i < |view|
        ensures Executes(run[i], work[i])
      {
        assert run[i].(nexusEndpoint := "") == view[i].(nexusEndpoint := "");
        assert Does(view[i], work[i]);
        assert view[i].(nexusEndpoint := "") == view[i];
      }
    }
  }

  lemma DoAllSplits(a: seq<RunFeature>, b: seq<RunFeature>, work: seq<Work>)
    requires DoAll(a + b, work)
    ensures |work| == |a| + |b| && DoAll(a, work[..|a|]) && DoAll(b, work[|a|..])
  {
    hide Does;
    var all := a + b;
    assert forall i :: 0 <= i < |a| ==> all[i] == a[i];
    assert forall i :: 0 <= i < |b| ==> all[|a| + i] == b[i];
  }

  lemma ExecuteBoth(a: seq<RunFeature>, wa: seq<Work>, b: seq<RunFeature>, wb: seq<Work>)
    requires ExecuteAll(a, wa) && ExecuteAll(b, wb)
    ensures ExecuteAll(a + b, wa + wb)
  {
    hide Executes;
  }

  lemma {:induction false} RunsExecute(batches: seq<Batch>, outcomes: seq<Outcomes>, work: seq<Work>)
    requires |outcomes| == |batches| && DoAll(AllRuns(batches), work)
    ensures |Refusals(outcomes, FeaturesOf(batches))| == |work|
    ensures ExecuteAll(Left(outcomes, FeaturesOf(batches)), Surviving(work, Refusals(outcomes, FeaturesOf(batches))))
  {
    hide FeaturesToRun, EndpointsRefused, Does;
    if batches != [] {
      var (first, rest) := (batches[0].features, batches[1..]);
      var n := |first|;
      var (w0, w1) := (work[..n], work[n..]);
      DoAllSplits(first, AllRuns(rest), work);
      hide DoAll;
      BatchExecutes(outcomes[0], first, w0);
      RunsExecute(rest, outcomes[1..], w1);
      assert FeaturesOf(batches)[1..] == FeaturesOf(rest);
      var r0 := AllOf(EndpointsRefused(outcomes[0], first), n);
      SurvivingConcat(w0, r0, w1, Refusals(outcomes[1..], FeaturesOf(rest)));
      assert w0 + w1 == work;
      ExecuteBoth(FeaturesToRun(outcomes[0], first), Surviving(w0, r0), Left(outcomes[1..], FeaturesOf(rest)),
                  Surviving(w1, Refusals(outcomes[1..], FeaturesOf(rest))));
      hide ExecuteAll;
    }
  }

  /** A run all of whose batches succeed has given to harnesses, in order and each once, every feature
      without variants and every feature at each of its variants, but for the Nexus features of batches
      that may not have endpoints. */
  lemma EveryWorkIsRun(features: seq<Feature>, batches: seq<Batch>, base: Config, env: Option<string>,
                       json: map<string, bool> -> string, outcomes: seq<Outcomes>)
    requires AreBatchesOf(batches, features) && |outcomes| == |batches|
    requires forall i :: 0 <= i < |batches| ==>
      Succeeds(base, DemandsOf(batches, json)[i], outcomes[i], batches[i].features)
    ensures var views := FeaturesOf(batches);
      && |Refusals(outcomes, views)| == |AllWork(features)|
      && ExecuteAll(Ran(RunEvents(base, env, DemandsOf(batches, json), outcomes, views)),
                    Surviving(AllWork(features), Refusals(outcomes, views)))
  {
    hide Succeeds, AreBatchesOf, Started, ServerWorks;
    WorkIsConserved(batches, features);
    RanOfRun(base, env, DemandsOf(batches, json), outcomes, FeaturesOf(batches));
    RunsExecute(batches, outcomes, AllWork(features));
  }

  /** The endpoints of a batch are refused exactly if the server refuses one of those that its Nexus
      features need. */
  lemma RefusedMeans(o: Outcomes, view: seq<RunFeature>)
    ensures EndpointsRefused(o, view) <==>
      exists j :: 0 <= j < |Nexus.NexusFeatures(view)| && !o.answers(j).Created?
  {
    RefusalMeans(o, view);
  }

  // ----- What the features ask for -----

  /** The arguments give every overridden key exactly its override, and every other key its defaults. */
  ghost predicate SetExactly(args: seq<string>, file: DynamicConfig.File, overrides: map<string, string>) {
    exists settings :: args == DynamicConfig.Flags(settings) && SettingsExactly(settings, file, overrides)
  }

  ghost predicate SettingsExactly(settings: seq<DynamicConfig.Setting>, file: DynamicConfig.File,
                                  overrides: map<string, string>) {
    forall key ::
      var given := DynamicConfig.ValuesFor(settings, key);
      if key in overrides then given == [overrides[key]]
      else if key in DynamicConfig.DefaultsOf(file)
      then DynamicConfig.AreTexts(given, DynamicConfig.DefaultsOf(file)[key])
      else given == []
  }

  /** The events of a batch with its own server: the server has the given dynamic config, the harness that
      server and the text of the given capabilities, and there is a proxy for it if connections are
      promised. */
  ghost predicate Serves(events: seq<Event>, base: Config, env: Option<string>, o: Outcomes,
                         overrides: map<string, string>, capabilities: map<string, bool>,
                         json: map<string, bool> -> string, promises: bool) {
    && (exists e :: e in events && e.StartServer?)
    && (forall e :: e in events && e.StartServer? ==> SetExactly(e.args, o.configFile, overrides))
    && (forall e :: e in events && e.RunHarness? ==>
          && e.environment == (if capabilities == map[] then env else Some(json(capabilities)))
          && Some(e.config.server) == o.serverStarts && (promises ==> o.proxyStarts.Some?)
          && e.config.httpProxyUrl == (if promises then "http://" + o.proxyStarts.value else base.httpProxyUrl))
    && (Acquire(Proxy) in events <==> promises && exists e :: e in events && e.RunHarness?)
  }

  lemma SettingsAreExact(file: DynamicConfig.File, overrides: map<string, string>)
    requires DynamicConfig.Settings(file, overrides).Ok?
    ensures SetExactly(DynamicConfig.Flags(DynamicConfig.Settings(file, overrides).value), file, overrides)
  {
    hide DynamicConfig.Settings, DynamicConfig.Flags, DynamicConfig.ValuesFor;
    var settings := DynamicConfig.Settings(file, overrides).value;
    assert SettingsExactly(settings, file, overrides) by {
      forall key {
        DynamicConfig.OverridesReplaceDefaults(file, overrides, key);
      }
    }
  }

  lemma InStarted(events: seq<Event>, e: Event)
    ensures e in Started(events) <==> e in events && (e.StartServer? || e.RunHarness?)
  {
  }

  lemma BatchServes(base: Config, env: Option<string>, d: Demand, capabilities: map<string, bool>,
                    json: map<string, bool> -> string, o: Outcomes, view: seq<RunFeature>)
    requires base.server == "" && Succeeds(base, d, o, view)
    requires d.capabilitiesJson == CapabilitiesText(capabilities, json)
    requires capabilities != map[] ==> json(capabilities) != ""
    ensures Serves(BatchEvents(base, env, d, o, view), base, env, o, d.dynamicConfig, capabilities, json,
                   d.expectsProxy)
  {
    hide DynamicConfig.Settings, DynamicConfig.Flags, SetExactly, FeaturesToRun, Started, BatchEvents;
    var events := BatchEvents(base, env, d, o, view);
    var run := FeaturesToRun(o, view);
    SuccessRunsHarness(base, d, o, view);
    BatchStartsOnce(base, env, d, o, view);
    ProxyIsAcquired(base, env, d, o, view);
    SettingsAreExact(o.configFile, d.dynamicConfig);
    HarnessNeedsProxy(d, o, view);
    var (server, harness) := (ServerStart(base, d, o), HarnessOf(base, env, d, o, run));
    assert Started(events) == [server] + (if run == [] then [] else [harness]);
    forall e: Event
      ensures e in Started(events) <==> e == server || (run != [] && e == harness)
      ensures e in Started(events) <==> e in events && (e.StartServer? || e.RunHarness?)
    {
      InStarted(events, e);
    }
    assert server in Started(events);
    assert run != [] ==> harness in Started(events);
  }

  lemma HarnessNeedsProxy(d: Demand, o: Outcomes, view: seq<RunFeature>)
    ensures HarnessIsRun(d, o, view) && d.expectsProxy ==> o.proxyStarts.Some?
  {
  }

  /** In a successful run that starts its own servers: what happens for the batch of a feature at a variant
      follows that variant's dynamic config and capabilities and the connections the feature promises;
      the batch of the features without variants has the default dynamic config and no capabilities, and
      a proxy if one of them promises connections. The run is these batches, one after the other. */
  lemma VariantsAreServed(features: seq<Feature>, batches: seq<Batch>, base: Config, env: Option<string>,
                          json: map<string, bool> -> string, outcomes: seq<Outcomes>)
    returns (parts: seq<seq<Event>>)
    requires AreBatchesOf(batches, features) && |outcomes| == |batches| && base.server == ""
    requires forall i :: 0 <= i < |batches| ==>
      Succeeds(base, DemandsOf(batches, json)[i], outcomes[i], batches[i].features)
    requires forall c :: c != map[] ==> json(c) != ""
    ensures |parts| == |batches|
    ensures Flatten(parts) == RunEvents(base, env, DemandsOf(batches, json), outcomes, FeaturesOf(batches))
    ensures forall i :: 0 <= i < |batches| ==>
      var k := |batches| - |VariantWork(features)|;
      if i < k then
        Serves(parts[i], base, env, outcomes[i], map[], map[], json,
               exists f :: f in features && f.config.runVariants == []
                           && (f.config.unauthedProxyCount > 0 || f.config.authedProxyCount > 0))
      else
        var (f, v) := VariantWork(features)[i - k];
        Serves(parts[i], base, env, outcomes[i], v.dynamicConfig, v.capabilities, json,
               f.config.unauthedProxyCount > 0 || f.config.authedProxyCount > 0)
  {
    hide Succeeds, Serves, BatchEvents, CapabilitiesText, AreBatchesOf;
    var (demands, views) := (DemandsOf(batches, json), FeaturesOf(batches));
    parts := seq(|batches|, i requires 0 <= i < |batches| => BatchEvents(base, env, demands[i], outcomes[i], views[i]));
    PartsMakeRun(base, env, demands, outcomes, views, parts);
    forall i | 0 <= i < |batches|
      ensures var k := |batches| - |VariantWork(features)|;
        if i < k then
          Serves(parts[i], base, env, outcomes[i], map[], map[], json,
                 exists f :: f in features && f.config.runVariants == []
                             && (f.config.unauthedProxyCount > 0 || f.config.authedProxyCount > 0))
        else
          var (f, v) := VariantWork(features)[i - k];
          Serves(parts[i], base, env, outcomes[i], v.dynamicConfig, v.capabilities, json,
                 f.config.unauthedProxyCount > 0 || f.config.authedProxyCount > 0)
    {
      BatchesHave(batches, features, i);
      if i < |batches| - |VariantWork(features)| {
        DefaultPromises(batches, features, i);
      }
      BatchServes(base, env, demands[i], batches[i].capabilities, json, outcomes[i], views[i]);
    }
  }

  lemma DefaultPromises(batches: seq<Batch>, features: seq<Feature>, i: nat)
    requires AreBatchesOf(batches, features) && i < |batches| - |VariantWork(features)|
    ensures batches[i].expectsProxy <==>
      exists f :: f in features && f.config.runVariants == []
                  && (f.config.unauthedProxyCount > 0 || f.config.authedProxyCount > 0)
  {
    hide VariantWork, PlainFeatures;
    var plain := PlainFeatures(features);
    assert i == 0 && IsDefaultBatch(batches[0], plain);
    forall f
      ensures f in plain <==> f in features && f.config.runVariants == []
    {
      PlainAre(features, f);
    }
    if j :| 0 <= j < |plain| && WantsProxy(plain[j].config) {
      assert plain[j] in plain;
    }
  }

  lemma {:induction false} PartsMakeRun(base: Config, env: Option<string>, demands: seq<Demand>,
                                        outcomes: seq<Outcomes>, views: seq<seq<RunFeature>>, parts: seq<seq<Event>>)
    requires |demands| == |outcomes| == |views| == |parts|
    requires forall i :: 0 <= i < |demands| ==>
      Succeeds(base, demands[i], outcomes[i], views[i])
      && parts[i] == BatchEvents(base, env, demands[i], outcomes[i], views[i])
    ensures Flatten(parts) == RunEvents(base, env, demands, outcomes, views)
  {
    hide Succeeds, BatchEvents;
    if demands != [] {
      PartsMakeRun(base, env, demands[1..], outcomes[1..], views[1..], parts[1..]);
    }
  }

  // ----- What a batch promises the proxy -----

  lemma {:induction false} NamesOfBatch(batches: seq<Batch>, b: Batch)
    requires b in batches && Verdict.DistinctNames(AllRuns(batches))
    ensures Verdict.DistinctNames(b.features)
  {
    var (all, n, rest) := (AllRuns(batches), |batches[0].features|, AllRuns(batches[1..]));
    if b == batches[0] {
      assert forall i :: 0 <= i < n ==> all[i] == b.features[i];
    } else {
      assert forall i :: 0 <= i < |rest| ==> all[n + i] == rest[i];
      NamesOfBatch(batches[1..], b);
    }
  }

  lemma {:induction false} NamesOfOthers(view: seq<RunFeature>)
    requires Verdict.DistinctNames(view)
    ensures Verdict.DistinctNames(Nexus.OtherFeatures(view))
  {
    if view != [] {
      NamesOfOthers(view[1..]);
      var others := Nexus.OtherFeatures(view[1..]);
      forall i | 0 <= i < |others|
        ensures others[i].SummaryName() != view[0].SummaryName()
      {
        assert others[i] in others;
      }
    }
  }

  lemma NamesLeft(o: Outcomes, view: seq<RunFeature>)
    requires Verdict.DistinctNames(view)
    ensures Verdict.DistinctNames(FeaturesToRun(o, view))
  {
    hide Nexus.EndpointName, Nexus.Rank, Nexus.FirstRefusal, Nexus.NexusFeatures;
    NamesOfOthers(view);
    var run := FeaturesToRun(o, view);
    if NeedsEndpoints(view) && Ending(o, view).AllCreated? {
      assert forall i :: 0 <= i < |view| ==> run[i].SummaryName() == view[i].SummaryName();
    }
  }

  /** In every batch of a well-configured run the proxy verdict on a summary that repeats no name
      compares the counters with what the features that passed promise. */
  lemma VerdictOfBatch(features: seq<Feature>, batches: seq<Batch>, b: Batch, o: Outcomes,
                       summary: seq<Verdict.SummaryEntry>, unauthed: nat, authed: nat)
    requires AreBatchesOf(batches, features) && WellConfigured(features) && b in batches
    requires Verdict.DistinctEntries(summary)
    ensures var run := FeaturesToRun(o, b.features);
      Verdict.Accepts(summary, run, unauthed, authed) <==>
        Verdict.AnyFailed(summary)
        || (unauthed == Verdict.ToUint32(Verdict.PromisedByPassed(run, summary, false))
            && authed == Verdict.ToUint32(Verdict.PromisedByPassed(run, summary, true)))
  {
    hide FeaturesToRun, AreBatchesOf, WellConfigured;
    SummaryNamesAreDistinct(batches, features);
    NamesOfBatch(batches, b);
    NamesLeft(o, b.features);
    Verdict.ExpectedOfPassed(summary, FeaturesToRun(o, b.features), false);
    Verdict.ExpectedOfPassed(summary, FeaturesToRun(o, b.features), true);
  }

  // ----- The run -----

  datatype RunError = NotRun(refusal: Refusal) | BatchFailed(error: Error)

  /** The features of a batch as createNexusEndpoints will share them. */
  method Prepare(b: Batch, json: map<string, bool> -> string) returns (batch: RunBatch)
    ensures fresh(batch.run) && fresh(batch.run.features) && batch.run.Valid()
    ensures batch.run.View() == b.features && batch.demand == DemandOf(b, json)
  {
    var features := b.features;
    var a := new RunFeature[|features|](i requires 0 <= i < |features| => features[i]);
    var run := new Nexus.Run(a);
    batch := RunBatch(run, DemandOf(b, json));
    assert a[..] == features;
  }

  method PrepareAll(batches: seq<Batch>, json: map<string, bool> -> string) returns (prepared: seq<RunBatch>)
    ensures |prepared| == |batches|
    ensures forall i :: 0 <= i < |batches| ==>
      && fresh(prepared[i].run) && fresh(prepared[i].run.features) && prepared[i].run.Valid()
      && prepared[i].run.View() == batches[i].features && prepared[i].demand == DemandOf(batches[i], json)
    ensures forall i, j :: 0 <= i < j < |batches| ==>
      prepared[i].run != prepared[j].run && prepared[i].run.features != prepared[j].run.features
  {
    hide DemandOf;
    prepared := [];
    for k := 0 to |batches|
      invariant |prepared| == k
      invariant forall i :: 0 <= i < k ==>
        && fresh(prepared[i].run) && fresh(prepared[i].run.features) && prepared[i].run.Valid()
        && prepared[i].run.View() == batches[i].features && prepared[i].demand == DemandOf(batches[i], json)
      invariant forall i, j :: 0 <= i < j < k ==>
        prepared[i].run != prepared[j].run && prepared[i].run.features != prepared[j].run.features
    {
      var batch := Prepare(batches[k], json);
      prepared := prepared + [batch];
    }
  }

  /** Runner.Run: `batches` are the batches of its run. The normalized language stays in the settings. */
  method Run(runner: Runner, disk: Disk, options: Options, uuid: nat -> string, json: map<string, bool> -> string,
             outcomes: nat -> Outcomes)
    returns (err: Option<RunError>, ghost batches: seq<Batch>, ghost ids: seq<nat>)
    modifies runner, runner.environment
    ensures runner.environment.value == old(runner.environment.value)
    ensures var (lang, env) := (NormalizeLang(old(runner.config.lang)), runner.environment.value);
      if lang.None? then
        && err == Some(NotRun(NoSuchLanguage))
        && runner.config == old(runner.config) && runner.events == old(runner.events)
      else
        var base := old(runner.config).(lang := lang.value);
        var matched := Matched(disk, lang.value, options);
        && runner.config == base
        && match Refuses(matched, base.server, options)
           case Some(refusal) => err == Some(NotRun(refusal)) && runner.events == old(runner.events)
           case None =>
             var chosen := Chosen(matched.value, base.server, options.patterns);
             var (demands, views) := (DemandsOf(batches, json), FeaturesOf(batches));
             var answers := Answers(outcomes, |batches|);
             && AreBatchesOf(batches, chosen) && HaveQueues(AllRuns(batches), uuid, ids) && AreDraws(ids)
             && runner.events == old(runner.events) + RunEvents(base, env, demands, answers, views)
             && (err.None? <==> forall i :: 0 <= i < |batches| ==> Succeeds(base, demands[i], answers[i], views[i]))
             && (err.None? ==>
                   && |Refusals(answers, views)| == |AllWork(chosen)|
                   && ExecuteAll(Ran(runner.events[|old(runner.events)|..]),
                                 Surviving(AllWork(chosen), Refusals(answers, views))))
  {
    hide Dirs.Globbed, Dirs.Visits, Dirs.Collected, PlainFeatures, RunEvents, Succeeds, ExecuteAll, Ran, NormalizeLang;
    hide AreBatchesOf, HaveQueues, AreDraws, AllRuns, AllWork, Surviving, Refusals;
    batches, ids := [], [];
    var lang := NormalizeLang(runner.config.lang);
    if lang.None? {
      return Some(NotRun(NoSuchLanguage)), batches, ids;
    }
    runner.config := runner.config.(lang := lang.value);
    if options.generate && options.version == "" {
      return Some(NotRun(NoVersion)), batches, ids;
    }
    if options.dirName != "" {
      if '/' in options.dirName || '\\' in options.dirName {
        return Some(NotRun(DirHasSeparators)), batches, ids;
      } else if options.version != "" {
        return Some(NotRun(DirWithVersion)), batches, ids;
      }
      if !options.dirExists {
        return Some(NotRun(DirMissing)), batches, ids;
      }
    }
    var matched, globErr, _ :=
      Dirs.GlobFeatures(disk.found(lang.value), options.patterns, lang.value, options.version, disk.match');
    if globErr.Some? {
      return Some(NotRun(NotMatched(globErr.value))), batches, ids;
    }
    var features := new Feature[|matched|](i requires 0 <= i < |matched| => matched[i]);
    assert features[..] == matched;
    if features.Length == 0 {
      return Some(NotRun(NoneMatched)), batches, ids;
    } else if features.Length > 1 && options.generate {
      return Some(NotRun(SeveralToGenerate)), batches, ids;
    }
    if options.generate && |features[0].config.runVariants| > 0 {
      return Some(NotRun(VariantsToGenerate(features[0].dir))), batches, ids;
    }
    var n := FilterFeaturesForExternalServer(features, runner.config.server, options.patterns);
    if n == 0 {
      return Some(NotRun(NoneMatched)), batches, ids;
    }
    err, batches, ids := RunChosen(runner, features[..n], uuid, json, outcomes);
  }

  /** The batches of the chosen features. */
  method RunChosen(runner: Runner, chosen: seq<Feature>, uuid: nat -> string, json: map<string, bool> -> string,
                   outcomes: nat -> Outcomes)
    returns (err: Option<RunError>, ghost batches: seq<Batch>, ghost ids: seq<nat>)
    modifies runner, runner.environment
    ensures runner.config == old(runner.config) && runner.environment.value == old(runner.environment.value)
    ensures var (base, env) := (runner.config, runner.environment.value);
      var (demands, views, answers) := (DemandsOf(batches, json), FeaturesOf(batches), Answers(outcomes, |batches|));
      && AreBatchesOf(batches, chosen) && HaveQueues(AllRuns(batches), uuid, ids) && AreDraws(ids)
      && runner.events == old(runner.events) + RunEvents(base, env, demands, answers, views)
      && (err.None? <==> forall i :: 0 <= i < |batches| ==> Succeeds(base, demands[i], answers[i], views[i]))
      && (err.None? ==>
            && |Refusals(answers, views)| == |AllWork(chosen)|
            && ExecuteAll(Ran(runner.events[|old(runner.events)|..]),
                          Surviving(AllWork(chosen), Refusals(answers, views))))
  {
    hide RunEvents, Succeeds, AreBatchesOf, HaveQueues, AreDraws, Demands, Views, PlainFeatures;
    hide AllRuns, AllWork, ExecuteAll, Surviving, Refusals, Ran;
    var made: seq<Batch>;
    made, ids := MakeRunBatches(chosen, uuid);
    batches := made;
    var prepared := PrepareAll(made, json);
    ghost var (base, env, start) := (runner.config, runner.environment.value, runner.events);
    var answers := Answers(outcomes, |made|);
    assert Demands(prepared) == DemandsOf(batches, json);
    assert Views(prepared) == FeaturesOf(batches);
    var failed := runner.RunAll(prepared, answers);
    if failed.Some? {
      return Some(BatchFailed(failed.value)), batches, ids;
    }
    assert runner.events[|start|..] == RunEvents(base, env, DemandsOf(batches, json), answers, FeaturesOf(batches));
    EveryWorkIsRun(chosen, batches, base, env, json, answers);
    err := None;
  }
}
