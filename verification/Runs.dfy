/** Features to run: their configuration, their summary names, the arguments they are passed as. */
module Runs {
  import opened Seqs

  /** Dynamic config values are kept as their JSON text. */
  datatype Variant = Variant(name: string, dynamicConfig: map<string, string>, capabilities: map<string, bool>)

  datatype FeatureConfig = FeatureConfig(
    noWorkflow: bool,
    minVersion: string,
    unauthedProxyCount: int,
    authedProxyCount: int,
    runVariants: seq<Variant>)

  const NO_CONFIG := FeatureConfig(false, "", 0, 0, [])

  datatype RunFeature = RunFeature(
    dir: string,
    taskQueue: string,
    nexusEndpoint: string,
    config: FeatureConfig,
    variantName: string)
  {
    /** The name under which summaries list the feature: dir or dir#variant. */
    function SummaryName(): string {
      if variantName == "" then dir else dir + "#" + variantName
    }
  }

  /** Directories free of '#' and the variant are recoverable from a summary name. */
  lemma SummaryNameInjective(a: RunFeature, b: RunFeature)
    requires '#' !in a.dir && '#' !in b.dir
    requires a.SummaryName() == b.SummaryName()
    ensures a.dir == b.dir && a.variantName == b.variantName
  {
    SummaryNameSplits(a);
    SummaryNameSplits(b);
    if a.variantName != "" && b.variantName != "" {
      JoinSplit(a.variantName, '#');
      JoinSplit(b.variantName, '#');
      assert ([a.dir] + Split(a.variantName, '#'))[1..] == Split(a.variantName, '#');
      assert ([b.dir] + Split(b.variantName, '#'))[1..] == Split(b.variantName, '#');
    }
  }

  lemma SummaryNameSplits(f: RunFeature)
    requires '#' !in f.dir
    ensures Split(f.SummaryName(), '#') == [f.dir] + (if f.variantName == "" then [] else Split(f.variantName, '#'))
  {
    if f.variantName == "" {
      SplitNone(f.dir, '#');
    } else {
      SplitHead(f.dir, '#', f.variantName);
    }
  }

  // ----- Validation -----

  datatype ConfigError = EmptyVariantName | DuplicateVariantName(name: string)

  /** Variant names are non-empty and pairwise different. */
  ghost predicate ValidVariants(variants: seq<Variant>) {
    && (forall i :: 0 <= i < |variants| ==> variants[i].name != "")
    && (forall i, j :: 0 <= i < j < |variants| ==> variants[i].name != variants[j].name)
  }

  /** RunFeatureConfig.Validate */
  method Validate(config: FeatureConfig) returns (err: Option<ConfigError>)
    ensures err.None? <==> ValidVariants(config.runVariants)
    ensures err == Some(EmptyVariantName) ==> exists v :: v in config.runVariants && v.name == ""
    ensures err.Some? && err.value.DuplicateVariantName? ==>
      exists i, j :: 0 <= i < j < |config.runVariants|
        && config.runVariants[i].name == config.runVariants[j].name == err.value.name
  {
    var variants := config.runVariants;
    var seen: set<string> := {};
    for k := 0 to |variants|
      invariant ValidVariants(variants[..k])
      invariant seen == set i | 0 <= i < k :: variants[i].name
    {
      var name := variants[k].name;
      if name == "" {
        return Some(EmptyVariantName);
      }
      if name in seen {
        return Some(DuplicateVariantName(name));
      }
      seen := seen + {name};
    }
    assert variants[..|variants|] == variants;
    err := None;
  }

  // ----- Arguments -----

  function ToArg(f: RunFeature): string {
    f.dir + ":" + f.taskQueue + (if f.nexusEndpoint == "" then "" else ":" + f.nexusEndpoint)
  }

  datatype ArgError = MissingTaskQueue(arg: string)

  /** What an argument can carry. */
  function Carried(f: RunFeature): RunFeature {
    RunFeature(f.dir, f.taskQueue, f.nexusEndpoint, NO_CONFIG, "")
  }

  function ParseRunFeature(arg: string): Result<RunFeature, ArgError> {
    var pieces := SplitN(arg, ':', 3);
    if |pieces| < 2 then Err(MissingTaskQueue(arg))
    else Ok(RunFeature(pieces[0], pieces[1], if |pieces| == 3 then pieces[2] else "", NO_CONFIG, ""))
  }

  /** Run.ToArgs */
  method ToArgs(features: seq<RunFeature>) returns (args: array<string>)
    ensures fresh(args) && args[..] == Map(features, f => ToArg(f))
  {
    args := new string[|features|](_ => "");
    for i := 0 to |features|
      invariant forall j :: 0 <= j < i ==> args[j] == ToArg(features[j])
    {
      args[i] := features[i].dir + ":" + features[i].taskQueue;
      if features[i].nexusEndpoint != "" {
        args[i] := args[i] + ":" + features[i].nexusEndpoint;
      }
    }
  }

  /** `parsed` are the features of the arguments up to the first without a queue, which is reported. */
  ghost predicate AreParsed(args: seq<string>, parsed: seq<RunFeature>, err: Option<ArgError>) {
    && |parsed| <= |args| && (forall i :: 0 <= i < |parsed| ==> ParseRunFeature(args[i]) == Ok(parsed[i]))
    && (if err.None? then |parsed| == |args|
        else |parsed| < |args| && ParseRunFeature(args[|parsed|]) == Err(err.value))
  }

  /** Run.FromArgs appends to the features the run already has. */
  method FromArgs(have: seq<RunFeature>, args: seq<string>) returns (features: seq<RunFeature>, err: Option<ArgError>)
    ensures |have| <= |features| && features[..|have|] == have
    ensures AreParsed(args, features[|have|..], err)
  {
    features := have;
    for i := 0 to |args|
      invariant |features| == |have| + i && features[..|have|] == have
      invariant forall j :: 0 <= j < i ==> ParseRunFeature(args[j]) == Ok(features[|have|..][j])
    {
      match ParseRunFeature(args[i])
      case Err(e) => return features, Some(e);
      case Ok(f) => features := features + [f];
    }
    err := None;
  }

  ghost predicate ColonFree(f: RunFeature) {
    ':' !in f.dir && ':' !in f.taskQueue
  }

  lemma ParsedIsColonFree(arg: string)
    ensures ':' in arg ==> ParseRunFeature(arg).Ok?
    ensures ParseRunFeature(arg).Ok? ==> ColonFree(ParseRunFeature(arg).value)
  {
    JoinSplit(arg, ':');
  }

  lemma ColonFreeIsParsed(f: RunFeature)
    requires ColonFree(f)
    ensures ParseRunFeature(ToArg(f)) == Ok(Carried(f))
  {
    var (d, q, e) := (f.dir, f.taskQueue, f.nexusEndpoint);
    if e == "" {
      assert ToArg(f) == d + [':'] + q;
      SplitHead(d, ':', q);
      SplitNone(q, ':');
    } else {
      assert ToArg(f) == d + [':'] + (q + [':'] + e);
      SplitHead(d, ':', q + [':'] + e);
      SplitHead(q, ':', e);
      var pieces := Split(ToArg(f), ':');
      assert pieces == [d, q] + Split(e, ':');
      if |pieces| > 3 {
        assert pieces[2..] == Split(e, ':');
        JoinSplit(e, ':');
      } else {
        assert Split(e, ':') == [pieces[2]];
        JoinSplit(e, ':');
      }
    }
  }

  /** An argument always parses, and gives back directory, queue and endpoint exactly when directory
      and queue are free of colons; the endpoint may hold any. */
  lemma ArgRoundTrip(f: RunFeature)
    ensures ParseRunFeature(ToArg(f)).Ok?
    ensures ParseRunFeature(ToArg(f)) == Ok(Carried(f)) <==> ':' !in f.dir && ':' !in f.taskQueue
  {
    assert ToArg(f)[|f.dir|] == ':';
    ParsedIsColonFree(ToArg(f));
    if ColonFree(f) {
      ColonFreeIsParsed(f);
    }
  }

  /** Writing the arguments of a run and reading them gives the run back, feature by feature, exactly
      when all its directories and queues are free of colons. */
  lemma RunRoundTrip(features: seq<RunFeature>, args: seq<string>, parsed: seq<RunFeature>, err: Option<ArgError>)
    requires args == Map(features, f => ToArg(f)) && AreParsed(args, parsed, err)
    ensures err.None? && |parsed| == |features|
    ensures parsed == Map(features, f => Carried(f)) <==>
      forall i :: 0 <= i < |features| ==> ':' !in features[i].dir && ':' !in features[i].taskQueue
  {
    hide ToArg, ParseRunFeature, Carried;
    if err.Some? {
      ArgRoundTrip(features[|parsed|]);
    }
    forall i | 0 <= i < |features|
      ensures parsed[i] == Carried(features[i]) <==> ':' !in features[i].dir && ':' !in features[i].taskQueue
    {
      ArgRoundTrip(features[i]);
    }
  }

  // ----- The harnesses of the other languages -----

  datatype Harness = Go | Java | DotNet | Php | Ruby | Python | TypeScript

  /** What a harness makes of an argument. Ruby goes on with nil for what is missing; PHP takes an
      argument for an option, or passes over it, and runs nothing. */
  datatype Reading = Rejected | Ignored | Read(dir: Option<string>, queue: Option<string>)

  const PHP_OPTIONS := ["namespace=", "address=", "tls.cert=", "tls.key=", "tls.server-name=", "tls.ca-cert="]

  predicate PhpOption(arg: string) {
    exists i :: 0 <= i < |PHP_OPTIONS| && HasPrefix(arg, PHP_OPTIONS[i])
  }

  function DirAndQueue(harness: Harness, arg: string): Reading {
    match harness
    case Go => FirstTwo(SplitN(arg, ':', 3))
    case Java => FirstTwo(SplitN(arg, ':', 3))
    case DotNet => FirstTwo(SplitN(arg, ':', 2))
    case Php => if PhpOption(arg) || ':' !in arg then Ignored else FirstTwo(SplitN(arg, ':', 2))
    case Ruby =>
      var pieces := SplitN(arg, ':', 2);
      if arg == "" then Read(None, None)
      else Read(Some(pieces[0]), if |pieces| == 2 then Some(pieces[1]) else None)
    case Python =>
      var pieces := SplitN(arg, ':', 2);
      Read(Some(pieces[0]), Some(if |pieces| == 2 then pieces[1] else ""))
    case TypeScript =>
      var pieces := Split(arg, ':');
      Read(Some(pieces[0]), Some(if |pieces| >= 2 then pieces[1] else pieces[0]))
  }

  function FirstTwo(pieces: seq<string>): Reading {
    if |pieces| < 2 then Rejected else Read(Some(pieces[0]), Some(pieces[1]))
  }

  /** All harnesses read the same dir and queue from an argument exactly when it has one colon and does
      not look like an option of the PHP harness. */
  lemma HarnessesAgree(arg: string)
    ensures (forall h, k :: DirAndQueue(h, arg) == DirAndQueue(k, arg)) <==>
      |Split(arg, ':')| == 2 && !PhpOption(arg)
  {
    hide PhpOption;
    var pieces := Split(arg, ':');
    JoinSplit(arg, ':');
    if |pieces| == 1 {
      assert DirAndQueue(Go, arg) != DirAndQueue(Python, arg);
    } else if |pieces| > 2 {
      var rest := Join(pieces[1..], ':');
      assert rest == pieces[1] + [':'] + Join(pieces[1..][1..], ':');
      assert rest[|pieces[1]|] == ':';
      assert ':' !in pieces[1];
      assert DirAndQueue(Go, arg).queue == Some(pieces[1]) && DirAndQueue(DotNet, arg).queue == Some(rest);
    } else {
      assert Join(pieces, ':') == pieces[0] + [':'] + Join(pieces[1..], ':');
      assert arg[|pieces[0]|] == ':';
      assert PhpOption(arg) ==> DirAndQueue(Go, arg) != DirAndQueue(Php, arg);
    }
  }

  /** On such an argument each harness reads what is before and what is behind the colon. */
  lemma HarnessesRead(harness: Harness, dir: string, queue: string)
    requires ':' !in dir && ':' !in queue && !PhpOption(dir + ":" + queue)
    ensures DirAndQueue(harness, dir + ":" + queue) == Read(Some(dir), Some(queue))
  {
    hide PhpOption;
    OneColon(dir, queue);
    assert (dir + ":" + queue)[|dir|] == ':';
  }

  lemma PhpOptionsAre(arg: string)
    ensures PhpOption(arg) <==>
      || "namespace=" <= arg || "address=" <= arg || "tls.cert=" <= arg || "tls.key=" <= arg
      || "tls.server-name=" <= arg || "tls.ca-cert=" <= arg
  {
    assert HasPrefix(arg, PHP_OPTIONS[0]) == ("namespace=" <= arg);
    assert HasPrefix(arg, PHP_OPTIONS[1]) == ("address=" <= arg);
    assert HasPrefix(arg, PHP_OPTIONS[2]) == ("tls.cert=" <= arg);
    assert HasPrefix(arg, PHP_OPTIONS[3]) == ("tls.key=" <= arg);
    assert HasPrefix(arg, PHP_OPTIONS[4]) == ("tls.server-name=" <= arg);
    assert HasPrefix(arg, PHP_OPTIONS[5]) == ("tls.ca-cert=" <= arg);
  }

  /** Without a colon three harnesses refuse, PHP passes over it, and three run the whole as directory: Ruby
      without a queue, Python on the empty one and TypeScript on one of the directory's name. */
  lemma ReadWithoutColon(arg: string)
    requires ':' !in arg && arg != ""
    ensures forall h :: h in {Go, Java, DotNet} ==> DirAndQueue(h, arg) == Rejected
    ensures DirAndQueue(Php, arg) == Ignored && DirAndQueue(Ruby, arg) == Read(Some(arg), None)
    ensures DirAndQueue(Python, arg) == Read(Some(arg), Some(""))
    ensures DirAndQueue(TypeScript, arg) == Read(Some(arg), Some(arg))
  {
    hide PhpOption;
    SplitNone(arg, ':');
  }

  /** With an endpoint Go, Java and TypeScript leave it out of the queue and the others take it in. */
  lemma ReadWithEndpoint(dir: string, queue: string, endpoint: string)
    requires ':' !in dir && ':' !in queue && !PhpOption(dir + ":" + queue + ":" + endpoint)
    ensures var arg := dir + ":" + queue + ":" + endpoint;
      && (forall h :: h in {Go, Java, TypeScript} ==> DirAndQueue(h, arg) == Read(Some(dir), Some(queue)))
      && (forall h :: h in {DotNet, Php, Ruby, Python} ==>
            DirAndQueue(h, arg) == Read(Some(dir), Some(queue + ":" + endpoint)))
  {
    hide PhpOption;
    var (arg, rest) := (dir + ":" + queue + ":" + endpoint, queue + ":" + endpoint);
    assert arg == dir + [':'] + rest && rest == queue + [':'] + endpoint;
    SplitHead(dir, ':', rest);
    SplitHead(queue, ':', endpoint);
    var pieces := Split(arg, ':');
    assert pieces[1..] == Split(rest, ':');
    JoinSplit(rest, ':');
    assert arg[|dir|] == ':';
  }

  /** Of the arguments of features, PHP drops those of directories that begin like an option: the
      feature is not run, and one of the options is overwritten. */
  lemma PhpDropsDirs(f: RunFeature)
    ensures PhpOption(ToArg(f)) <==> PhpOption(f.dir)
    ensures DirAndQueue(Php, ToArg(f)) == Ignored <==> PhpOption(f.dir)
  {
    var arg := ToArg(f);
    assert arg[|f.dir|] == ':' && arg[..|f.dir|] == f.dir;
    NoColonInOptions();
    assert forall i :: 0 <= i < |PHP_OPTIONS| ==>
      (HasPrefix(arg, PHP_OPTIONS[i]) <==> HasPrefix(f.dir, PHP_OPTIONS[i]));
  }

  lemma NoColonInOptions()
    ensures forall i :: 0 <= i < |PHP_OPTIONS| ==> ':' !in PHP_OPTIONS[i]
  {
  }

  lemma OneColon(dir: string, queue: string)
    requires ':' !in dir && ':' !in queue
    ensures Split(dir + ":" + queue, ':') == [dir, queue]
  {
    assert dir + ":" + queue == dir + [':'] + queue;
    SplitHead(dir, ':', queue);
    SplitNone(queue, ':');
  }

  /** One colon is not enough: "namespace=a:b". */
  lemma PhpDisagrees()
    ensures var arg := "namespace=a" + ":" + "b";
      && |Split(arg, ':')| == 2 && DirAndQueue(Php, arg) == Ignored
      && DirAndQueue(Go, arg) == Read(Some("namespace=a"), Some("b"))
  {
    hide Split, PhpOption;
    OneColon("namespace=a", "b");
    var f := RunFeature("namespace=a", "b", "", NO_CONFIG, "");
    PhpDropsDirs(f);
    assert HasPrefix(f.dir, PHP_OPTIONS[0]);
    assert PhpOption(f.dir) by {
      IsPhpOption(f.dir, 0);
    }
    assert ToArg(f) == "namespace=a" + ":" + "b";
  }

  lemma IsPhpOption(arg: string, i: nat)
    requires i < |PHP_OPTIONS| && HasPrefix(arg, PHP_OPTIONS[i])
    ensures PhpOption(arg)
  {
  }
}
