/** runBatch and Run: what is acquired for a batch and released again on every way out. Everything
    outside this program (servers, sockets, harnesses) is an outcome chosen beforehand. */
module BatchRunner {
  import opened Seqs
  import opened Runs
  import opened Compaction
  import opened BatchVerdict
  import Nexus = NexusEndpoints
  import DynamicConfig

  /** The settings a batch may change; `others` stands for all that it does not. */
  datatype Config = Config(
    server: string,
    namespace: string,
    capabilitiesJson: string,
    httpProxyUrl: string,
    summaryUri: string,
    lang: string,
    others: string)

  datatype Resource = Server | NexusClient | Proxy | Listener | Settings

  datatype Event =
    | StartServer(namespace: string, args: seq<string>)        // acquires Server
    | Acquire(resource: Resource)                              // any other resource
    | Release(resource: Resource)
    | DeleteEndpoints(endpoints: seq<Nexus.Endpoint>)
    | RunHarness(config: Config, environment: Option<string>, features: seq<RunFeature>)
    | StopListening                                            // before receiving the summary
    | CheckHistories(config: Config)

  // ----- Nesting -----

  /** What an event needs to be in place. A batch against an external server starts none itself. */
  predicate Allowed(external: bool, held: seq<Resource>, e: Event) {
    match e
    case StartServer(_, _) => Server !in held
    case Acquire(r) => r !in held && r != Server && (r == NexusClient ==> external || Server in held)
    case Release(r) => held != [] && held[|held| - 1] == r
    case DeleteEndpoints(_) => NexusClient in held && (external || Server in held)
    case RunHarness(_, _, _) => (external || Server in held) && Listener in held && Settings in held
    case StopListening => Listener in held
    case CheckHistories(_) => (external || Server in held) && Settings in held
  }

  function Held(held: seq<Resource>, e: Event): seq<Resource>
    requires Allowed(true, held, e)
  {
    match e
    case StartServer(_, _) => held + [Server]
    case Acquire(r) => held + [r]
    case Release(_) => held[..|held| - 1]
    case _ => held
  }

  /** What is held after some events, None if one of them came at a time it is not allowed. */
  function Replay(external: bool, held: seq<Resource>, events: seq<Event>): Option<seq<Resource>>
    decreases |events|
  {
    if events == [] then Some(held)
    else if Allowed(external, held, events[0]) then Replay(external, Held(held, events[0]), events[1..])
    else None
  }

  /** The events leave what is held as it was, releasing in reverse order whatever they acquire. */
  ghost predicate Bracketed(external: bool, held: seq<Resource>, events: seq<Event>) {
    Replay(external, held, events) == Some(held)
  }

  lemma {:induction false} ReplayConcat(external: bool, held: seq<Resource>, a: seq<Event>, b: seq<Event>)
    ensures Replay(external, held, a + b)
         == (match Replay(external, held, a) case None => None case Some(h) => Replay(external, h, b))
    decreases |a|
  {
    if a == [] {
      assert a + b == b;
    } else {
      assert (a + b)[1..] == a[1..] + b;
      if Allowed(external, held, a[0]) {
        ReplayConcat(external, Held(held, a[0]), a[1..], b);
      }
    }
  }

  /** Wrapping bracketed events into an acquisition and its release gives bracketed events. */
  lemma Wrap(external: bool, held: seq<Resource>, e: Event, r: Resource, inner: seq<Event>)
    requires Allowed(external, held, e) && Held(held, e) == held + [r]
    requires Bracketed(external, held + [r], inner)
    ensures Bracketed(external, held, [e] + inner + [Release(r)])
  {
    var events := [e] + inner + [Release(r)];
    assert events[1..] == inner + [Release(r)];
    ReplayConcat(external, held + [r], inner, [Release(r)]);
    assert (held + [r])[..|held|] == held;
    assert [Release(r)][1..] == [];
  }

  /** Adding one event that acquires and releases nothing. */
  lemma Extend(external: bool, held: seq<Resource>, events: seq<Event>, e: Event)
    requires Bracketed(external, held, events) && Allowed(external, held, e)
    requires Held(held, e) == held
    ensures Bracketed(external, held, events + [e])
  {
    ReplayConcat(external, held, events, [e]);
    assert [e][1..] == [];
  }

  // ----- The world -----

  datatype Error =
    | BadDynamicConfig(config: DynamicConfig.Error) | ServerNotStarted | VariantNeedsServer | NamespaceMissing
    | Capabilities
    | NexusSetup(error: Nexus.NexusError) | ProxyStart | Listen | HarnessFailed
    | ProxyCount(verdict: Verdict) | HistoryFailures(histories: HistoryVerdict)

  /** What the surroundings answer during one batch. */
  datatype Outcomes = Outcomes(
    configFile: DynamicConfig.File,     // the defaults of the dynamic config
    serverStarts: Option<string>,       // the address of the started server
    namespaceAvailable: bool,
    capabilitiesMatch: bool,
    operatorDials: bool,
    answers: nat -> Nexus.Answer,
    uuid: nat -> string,
    freshNamespace: string,
    proxyStarts: Option<string>,
    listens: Option<string>,
    harnessSucceeds: bool,
    summary: Option<seq<SummaryEntry>>, // None if the channel was closed
    unauthed: nat,
    authed: nat,
    historyDials: bool,
    handles: RunFeature -> bool)

  /** What a batch asks for besides its features. */
  datatype Demand = Demand(
    variantName: string,
    dynamicConfig: map<string, string>,
    capabilitiesJson: string,
    expectsProxy: bool)

  /** A batch: its run is shared with createNexusEndpoints, which rewrites it in place. */
  datatype RunBatch = RunBatch(run: Nexus.Run, demand: Demand)

  // ----- What a batch is to do -----

  function OrElse(address: Option<string>): string {
    if address.Some? then address.value else ""
  }

  /** The runner's settings with what the batch adds: a server and a namespace if none are given, the
      addresses of proxy and listener, and the capabilities. */
  function ServerSettings(base: Config, d: Demand, o: Outcomes): Config {
    base.(server := if base.server == "" then OrElse(o.serverStarts) else base.server,
          namespace := if base.namespace == "" then o.freshNamespace else base.namespace,
          capabilitiesJson := d.capabilitiesJson)
  }

  function ProxySettings(base: Config, d: Demand, o: Outcomes): Config {
    var c := ServerSettings(base, d, o);
    if d.expectsProxy then c.(httpProxyUrl := "http://" + OrElse(o.proxyStarts)) else c
  }

  function BatchSettings(base: Config, d: Demand, o: Outcomes): Config {
    ProxySettings(base, d, o).(summaryUri := "tcp://" + OrElse(o.listens))
  }

  /** The environment variable the harness sees. */
  function Seen(before: Option<string>, json: string): Option<string> {
    if json == "" then before else Some(json)
  }

  /** The summary that counts: the received one with variant names, or all passed. */
  function EffectiveSummary(o: Outcomes, variantName: string, features: seq<RunFeature>): seq<SummaryEntry> {
    match o.summary
    case None => AssumedSummary(features)
    case Some(s) => if variantName != "" then Rewritten(s, features) else s
  }

  predicate ProxyMatches(d: Demand, o: Outcomes, features: seq<RunFeature>) {
    d.expectsProxy ==> Accepts(EffectiveSummary(o, d.variantName, features), features, o.unauthed, o.authed)
  }

  predicate HistoriesPass(d: Demand, o: Outcomes, features: seq<RunFeature>) {
    var handled := Handled(features, EffectiveSummary(o, d.variantName, features));
    (handled != [] ==> o.historyDials) && CountFailing(handled, o.handles) == 0
  }

  /** Proxy, listener and harness work and both verdicts are good. */
  predicate Passes(d: Demand, o: Outcomes, features: seq<RunFeature>) {
    && (d.expectsProxy ==> o.proxyStarts.Some?) && o.listens.Some? && o.harnessSucceeds
    && ProxyMatches(d, o, features) && HistoriesPass(d, o, features)
  }

  /** A server of its own can be started, or the given one has the namespace and no variant is asked. */
  ghost predicate ServerWorks(base: Config, d: Demand, o: Outcomes) {
    if base.server == "" then DynamicConfig.Settings(o.configFile, d.dynamicConfig).Ok? && o.serverStarts.Some?
    else d.variantName == "" && o.namespaceAvailable
  }

  /** How creating the endpoints ends, if it is tried at all. */
  function Ending(o: Outcomes, view: seq<RunFeature>): Nexus.Ending {
    Nexus.FirstRefusal(o.answers, |Nexus.NexusFeatures(view)|)
  }

  predicate NeedsEndpoints(view: seq<RunFeature>) {
    |Nexus.NexusFeatures(view)| > 0
  }

  /** Endpoints can be made, or are forbidden, or are not needed. */
  predicate NexusWorks(o: Outcomes, view: seq<RunFeature>) {
    NeedsEndpoints(view) ==>
      o.operatorDials && (Ending(o, view).AllCreated? || o.answers(Ending(o, view).index).PermissionDenied?)
  }

  /** The features that are run: with their endpoints, or without the Nexus features if those cannot
      have any. */
  function FeaturesToRun(o: Outcomes, view: seq<RunFeature>): seq<RunFeature> {
    if !NeedsEndpoints(view) then view
    else if Ending(o, view).AllCreated? then
      seq(|view|, i requires 0 <= i < |view| => Nexus.Named(view, i, o.uuid, |Nexus.NexusFeatures(view)|))
    else Nexus.OtherFeatures(view)
  }

  ghost predicate Succeeds(base: Config, d: Demand, o: Outcomes, view: seq<RunFeature>) {
    && ServerWorks(base, d, o) && o.capabilitiesMatch && NexusWorks(o, view)
    && (FeaturesToRun(o, view) == [] || Passes(d, o, FeaturesToRun(o, view)))
  }

  /** The endpoints made for a batch. */
  function EndpointsMade(o: Outcomes, view: seq<RunFeature>): seq<Nexus.Endpoint> {
    if !o.capabilitiesMatch || !o.operatorDials then []
    else match Ending(o, view)
      case AllCreated => Nexus.EndpointsOf(o.answers, |Nexus.NexusFeatures(view)|)
      case FailedAt(refused) => Nexus.EndpointsOf(o.answers, refused)
  }

  // ----- What happens, in order -----

  function Wrapped(r: Resource, inner: seq<Event>): seq<Event> {
    [Acquire(r)] + inner + [Release(r)]
  }

  function JudgeEvents(settings: Config, seen: Option<string>, d: Demand, o: Outcomes, features: seq<RunFeature>)
    : seq<Event>
  {
    if !o.harnessSucceeds then [RunHarness(settings, seen, features)]
    else if !ProxyMatches(d, o, features) then [RunHarness(settings, seen, features), StopListening]
    else [RunHarness(settings, seen, features), StopListening, CheckHistories(settings)]
  }

  function ListenerEvents(base: Config, env: Option<string>, d: Demand, o: Outcomes, features: seq<RunFeature>)
    : seq<Event>
  {
    if o.listens.None? then []
    else Wrapped(Listener, Wrapped(Settings,
      JudgeEvents(BatchSettings(base, d, o), Seen(env, d.capabilitiesJson), d, o, features)))
  }

  function ProxyEvents(base: Config, env: Option<string>, d: Demand, o: Outcomes, features: seq<RunFeature>)
    : seq<Event>
  {
    if !d.expectsProxy then ListenerEvents(base, env, d, o, features)
    else if o.proxyStarts.None? then []
    else Wrapped(Proxy, ListenerEvents(base, env, d, o, features))
  }

  function FeatureEvents(base: Config, env: Option<string>, d: Demand, o: Outcomes, features: seq<RunFeature>)
    : seq<Event>
  {
    if features == [] then [] else ProxyEvents(base, env, d, o, features)
  }

  function EndpointEvents(base: Config, env: Option<string>, d: Demand, o: Outcomes, view: seq<RunFeature>)
    : seq<Event>
  {
    if !o.capabilitiesMatch then []
    else if !NeedsEndpoints(view) then FeatureEvents(base, env, d, o, view)
    else if !o.operatorDials then []
    else
      var deletion := DeleteEndpoints(EndpointsMade(o, view));
      if Ending(o, view).AllCreated? then
        Wrapped(NexusClient, FeatureEvents(base, env, d, o, FeaturesToRun(o, view)) + [deletion])
      else
        Wrapped(NexusClient, [deletion])
        + (if NexusWorks(o, view) then FeatureEvents(base, env, d, o, FeaturesToRun(o, view)) else [])
  }

  /** A server of its own, with the variant's dynamic config over the defaults. */
  ghost function ServerStart(base: Config, d: Demand, o: Outcomes): Event
    requires DynamicConfig.Settings(o.configFile, d.dynamicConfig).Ok?
  {
    StartServer(ServerSettings(base, d, o).namespace,
                DynamicConfig.Flags(DynamicConfig.Settings(o.configFile, d.dynamicConfig).value))
  }

  ghost function BatchEvents(base: Config, env: Option<string>, d: Demand, o: Outcomes, view: seq<RunFeature>)
    : seq<Event>
  {
    if !ServerWorks(base, d, o) then []
    else if base.server == "" then
      [ServerStart(base, d, o)] + EndpointEvents(base, env, d, o, view) + [Release(Server)]
    else EndpointEvents(base, env, d, o, view)
  }

  /** Batch after batch, up to the first that does not succeed. */
  ghost function RunEvents(base: Config, env: Option<string>, demands: seq<Demand>, outcomes: seq<Outcomes>,
                     views: seq<seq<RunFeature>>): seq<Event>
    requires |demands| == |outcomes| == |views|
  {
    if demands == [] then []
    else
      BatchEvents(base, env, demands[0], outcomes[0], views[0])
      + (if Succeeds(base, demands[0], outcomes[0], views[0])
         then RunEvents(base, env, demands[1..], outcomes[1..], views[1..]) else [])
  }

  // ----- The runner -----

  /** The runner's own state and a record of what happened. Each method is one deferred call: what it
      acquires it releases on every way out of what it surrounds. */
  class Runner {
    var config: Config
    const environment: ProcessEnv
    var events: seq<Event>

    constructor (config: Config, environment: ProcessEnv)
      ensures this.config == config && this.environment == environment && events == []
    {
      this.config, this.environment, events := config, environment, [];
    }

    /** The summary that counts, rewritten in place for a variant. */
    method Receive(o: Outcomes, variantName: string, features: seq<RunFeature>) returns (summary: seq<SummaryEntry>)
      ensures summary == EffectiveSummary(o, variantName, features)
    {
      if o.summary.None? {
        return AssumedSummary(features);
      }
      summary := o.summary.value;
      if variantName != "" {
        var s := summary;
        var entries := new SummaryEntry[|s|](i requires 0 <= i < |s| => s[i]);
        assert entries[..] == s;
        RewriteVariantSummary(entries, features);
        summary := entries[..];
      }
    }

    /** From the harness to the verdicts, with the settings of the batch in place. */
    method RunAndJudge(batch: RunBatch, o: Outcomes) returns (err: Option<Error>)
      requires batch.run.Valid()
      modifies `events
      ensures events == old(events) + JudgeEvents(config, environment.value, batch.demand, o, batch.run.View())
      ensures err.None? <==> o.harnessSucceeds && ProxyMatches(batch.demand, o, batch.run.View())
                             && HistoriesPass(batch.demand, o, batch.run.View())
    {
      hide EffectiveSummary, Accepts, Handled, CountFailing;
      var features := batch.run.features[..batch.run.count];
      events := events + [RunHarness(config, environment.value, features)];
      if !o.harnessSucceeds {
        return Some(HarnessFailed);
      }
      events := events + [StopListening];
      var summary := Receive(o, batch.demand.variantName, features);
      if batch.demand.expectsProxy {
        var verdict := ProxyVerdict(summary, features, o.unauthed, o.authed);
        if !verdict.Matched? {
          return Some(ProxyCount(verdict));
        }
      }
      events := events + [CheckHistories(config)];
      var verdict, handled := HandleHistory(features, summary, o.historyDials, o.handles);
      err := if verdict.NoFailures? then None else Some(HistoryFailures(verdict));
    }

    /** The summary listener and the settings of the batch, with the environment variable; they are put
        back, and the listener closed, afterwards. */
    method WithListener(batch: RunBatch, settings: Config, o: Outcomes) returns (err: Option<Error>)
      requires batch.run.Valid() && settings == ProxySettings(config, batch.demand, o)
      modifies this, environment
      ensures config == old(config) && environment.value == old(environment.value)
      ensures events == old(events) + ListenerEvents(config, environment.value, batch.demand, o, batch.run.View())
      ensures err.None? <==> o.listens.Some? && o.harnessSucceeds && ProxyMatches(batch.demand, o, batch.run.View())
                             && HistoriesPass(batch.demand, o, batch.run.View())
    {
      hide JudgeEvents, ProxyMatches, HistoriesPass, ProxySettings;
      if o.listens.None? {
        return Some(Listen);
      }
      events := events + [Acquire(Listener)];
      var original := config;
      config := settings.(summaryUri := "tcp://" + o.listens.value);
      var restore := environment.SetCapabilities(batch.demand.capabilitiesJson);
      events := events + [Acquire(Settings)];
      err := RunAndJudge(batch, o);
      environment.Undo(restore);
      config := original;
      events := events + [Release(Settings)];
      events := events + [Release(Listener)];
    }

    /** The proxy, if the batch expects one. */
    method WithProxy(batch: RunBatch, settings: Config, o: Outcomes) returns (err: Option<Error>)
      requires batch.run.Valid() && settings == ServerSettings(config, batch.demand, o)
      modifies this, environment
      ensures config == old(config) && environment.value == old(environment.value)
      ensures events == old(events) + ProxyEvents(config, environment.value, batch.demand, o, batch.run.View())
      ensures err.None? <==> Passes(batch.demand, o, batch.run.View())
    {
      hide ListenerEvents, ProxyMatches, HistoriesPass, ServerSettings;
      if !batch.demand.expectsProxy {
        err := WithListener(batch, settings, o);
        return;
      }
      if o.proxyStarts.None? {
        return Some(ProxyStart);
      }
      events := events + [Acquire(Proxy)];
      err := WithListener(batch, settings.(httpProxyUrl := "http://" + o.proxyStarts.value), o);
      events := events + [Release(Proxy)];
    }

    /** The features of the batch, if any are left. */
    method WithFeatures(batch: RunBatch, settings: Config, o: Outcomes) returns (err: Option<Error>)
      requires batch.run.Valid() && settings == ServerSettings(config, batch.demand, o)
      modifies this, environment
      ensures config == old(config) && environment.value == old(environment.value)
      ensures events == old(events) + FeatureEvents(config, environment.value, batch.demand, o, batch.run.View())
      ensures err.None? <==> batch.run.View() == [] || Passes(batch.demand, o, batch.run.View())
    {
      hide ProxyEvents, Passes, ServerSettings;
      if batch.run.count == 0 {
        return None;
      }
      err := WithProxy(batch, settings, o);
    }

    /** The Nexus endpoints of the batch, deleted before whatever server was started is stopped. */
    method WithEndpoints(batch: RunBatch, settings: Config, o: Outcomes, ledger: Nexus.Ledger)
      returns (err: Option<Error>)
      requires batch.run.Valid() && ledger.calls == [] && settings == ServerSettings(config, batch.demand, o)
      modifies this, environment, ledger, batch.run, batch.run.features
      ensures config == old(config) && environment.value == old(environment.value)
      ensures batch.run.Valid() && batch.run.features == old(batch.run.features)
      ensures events == old(events) + EndpointEvents(config, environment.value, batch.demand, o, old(batch.run.View()))
      ensures Nexus.Settled(ledger.calls) && Nexus.Made(ledger.calls) == EndpointsMade(o, old(batch.run.View()))
      ensures var view := old(batch.run.View());
        err.None? <==>
          && o.capabilitiesMatch && NexusWorks(o, view)
          && (FeaturesToRun(o, view) == [] || Passes(batch.demand, o, FeaturesToRun(o, view)))
    {
      hide FeatureEvents, Passes, ServerSettings;
      hide Nexus.Made, Nexus.Settled, Nexus.Open, Nexus.Deleted, Nexus.NexusFeatures, Nexus.OtherFeatures;
      hide Nexus.Named, Nexus.Creations, Nexus.FirstRefusal;
      ghost var view := batch.run.View();
      Nexus.EmptyLedger();
      if !o.capabilitiesMatch {
        return Some(Capabilities);
      }
      var cleanup, nexusErr := Nexus.CreateNexusEndpoints(batch.run, ledger, o.operatorDials, o.uuid, o.answers);
      NothingRefused(o.answers);
      if cleanup == Nexus.Noop && |ledger.calls| > 0 {
        // The session is over already: what was made is deleted and the client closed.
        var made := Nexus.Made(ledger.calls);
        events := events + [Acquire(NexusClient)] + [DeleteEndpoints(made)] + [Release(NexusClient)];
      }
      if nexusErr.Some? {
        return Some(NexusSetup(nexusErr.value));
      }
      match cleanup
      case Noop =>
        err := WithFeatures(batch, settings, o);
      case DeleteAll(created) =>
        assert batch.run.View() == FeaturesToRun(o, view);
        events := events + [Acquire(NexusClient)];
        err := WithFeatures(batch, settings, o);
        Nexus.CleanUpSettles(ledger.calls);
        ledger.CleanUp(created);
        events := events + [DeleteEndpoints(created)];
        events := events + [Release(NexusClient)];
    }

    /** runBatch. `ledger` records the calls of the batch's operator client. */
    method Run(batch: RunBatch, o: Outcomes, ledger: Nexus.Ledger) returns (err: Option<Error>)
      requires batch.run.Valid() && ledger.calls == []
      modifies this, environment, ledger, batch.run, batch.run.features
      ensures config == old(config) && environment.value == old(environment.value)
      ensures batch.run.Valid() && batch.run.features == old(batch.run.features)
      ensures events == old(events) + BatchEvents(config, environment.value, batch.demand, o, old(batch.run.View()))
      ensures Nexus.Settled(ledger.calls)
      ensures Nexus.Made(ledger.calls)
           == if ServerWorks(config, batch.demand, o) then EndpointsMade(o, old(batch.run.View())) else []
      ensures err.None? <==> Succeeds(config, batch.demand, o, old(batch.run.View()))
    {
      hide EndpointEvents, EndpointsMade, NexusWorks, FeaturesToRun, Passes, Nexus.Settled, Nexus.Made;
      hide DynamicConfig.Settings, DynamicConfig.Flags, NeedsEndpoints;
      Nexus.EmptyLedger();
      var settings := config.(capabilitiesJson := batch.demand.capabilitiesJson);
      if config.namespace == "" {
        settings := settings.(namespace := o.freshNamespace);
      }
      if config.server == "" {
        var args := DynamicConfig.DynamicConfigArgs(o.configFile, batch.demand.dynamicConfig);
        if args.Err? {
          return Some(BadDynamicConfig(args.error));
        }
        if o.serverStarts.None? {
          return Some(ServerNotStarted);
        }
        events := events + [StartServer(settings.namespace, args.value)];
        err := WithEndpoints(batch, settings.(server := o.serverStarts.value), o, ledger);
        events := events + [Release(Server)];
      } else {
        if batch.demand.variantName != "" {
          return Some(VariantNeedsServer);
        }
        if !o.namespaceAvailable {
          return Some(NamespaceMissing);
        }
        err := WithEndpoints(batch, settings, o, ledger);
      }
    }

    /** The batch loop of Run: it stops at the first batch that fails. */
    method RunAll(batches: seq<RunBatch>, outcomes: seq<Outcomes>) returns (err: Option<Error>)
      requires |outcomes| == |batches|
      requires forall i :: 0 <= i < |batches| ==> batches[i].run.Valid()
      requires forall i, j :: 0 <= i < j < |batches| ==>
        batches[i].run != batches[j].run && batches[i].run.features != batches[j].run.features
      modifies this, environment
      modifies set b | b in batches :: b.run
      modifies set b | b in batches :: b.run.features
      ensures config == old(config) && environment.value == old(environment.value)
      ensures events
           == old(events) + RunEvents(config, environment.value, Demands(batches), outcomes, old(Views(batches)))
      ensures err.None? <==> forall i :: 0 <= i < |batches| ==>
        Succeeds(config, batches[i].demand, outcomes[i], old(Views(batches))[i])
    {
      hide BatchEvents, Succeeds, RunEvents, Views, Demands, Nexus.Settled, Nexus.Made, ServerWorks, EndpointsMade;
      ghost var (base, env, start, views) := (config, environment.value, events, Views(batches));
      ghost var demands := Demands(batches);
      err := None;
      var ran := 0;
      while ran < |batches|
        invariant ran <= |batches| && err == None
        invariant config == base && environment.value == env
        invariant forall i :: ran <= i < |batches| ==> batches[i].run.Valid() && batches[i].run.View() == views[i]
        invariant forall i :: 0 <= i < |batches| ==> batches[i].run.features == old(batches[i].run.features)
        invariant forall i :: 0 <= i < ran ==> Succeeds(base, batches[i].demand, outcomes[i], views[i])
        invariant events + RunEvents(base, env, demands[ran..], outcomes[ran..], views[ran..])
               == start + RunEvents(base, env, demands, outcomes, views)
      {
        var batch := batches[ran];
        assert batch in batches;
        var ledger := new Nexus.Ledger();
        ghost var before := events;
        NextBatch(base, env, demands, outcomes, views, ran);
        err := Run(batch, outcomes[ran], ledger);
        if err.Some? {
          assert !Succeeds(base, batches[ran].demand, outcomes[ran], views[ran]);
          return;
        }
        Regroup(before, BatchEvents(base, env, demands[ran], outcomes[ran], views[ran]),
                RunEvents(base, env, demands[ran + 1..], outcomes[ran + 1..], views[ran + 1..]));
        ran := ran + 1;
      }
      NoMoreBatches(base, env, demands[ran..], outcomes[ran..], views[ran..]);
    }
  }

  lemma NoMoreBatches(base: Config, env: Option<string>, demands: seq<Demand>, outcomes: seq<Outcomes>,
                      views: seq<seq<RunFeature>>)
    requires |demands| == |outcomes| == |views| == 0
    ensures RunEvents(base, env, demands, outcomes, views) == []
  {
  }

  function Demands(batches: seq<RunBatch>): (r: seq<Demand>)
    ensures |r| == |batches| && forall i :: 0 <= i < |r| ==> r[i] == batches[i].demand
  {
    Map(batches, (b: RunBatch) => b.demand)
  }

  /** The features of the batches as they are now. */
  ghost function Views(batches: seq<RunBatch>): (r: seq<seq<RunFeature>>)
    requires forall i :: 0 <= i < |batches| ==> batches[i].run.Valid()
    reads set b | b in batches :: b.run, set b | b in batches :: b.run.features
    ensures |r| == |batches| && forall i :: 0 <= i < |r| ==> r[i] == batches[i].run.View()
  {
    if batches == [] then []
    else
      assert batches[0] in batches;
      [batches[0].run.View()] + Views(batches[1..])
  }

  lemma NothingRefused(answers: nat -> Nexus.Answer)
    ensures Nexus.FirstRefusal(answers, 0) == Nexus.AllCreated && Nexus.EndpointsOf(answers, 0) == []
  {
  }

  lemma NextBatch(base: Config, env: Option<string>, demands: seq<Demand>, outcomes: seq<Outcomes>,
                  views: seq<seq<RunFeature>>, i: nat)
    requires |demands| == |outcomes| == |views| && i < |demands|
    ensures RunEvents(base, env, demands[i..], outcomes[i..], views[i..])
         == BatchEvents(base, env, demands[i], outcomes[i], views[i])
            + (if Succeeds(base, demands[i], outcomes[i], views[i])
               then RunEvents(base, env, demands[i + 1..], outcomes[i + 1..], views[i + 1..]) else [])
  {
    hide BatchEvents, Succeeds;
    assert demands[i..][1..] == demands[i + 1..];
    assert outcomes[i..][1..] == outcomes[i + 1..];
    assert views[i..][1..] == views[i + 1..];
  }

  // ----- Main results -----

  lemma WrappedIsBracketed(external: bool, held: seq<Resource>, r: Resource, inner: seq<Event>)
    requires Allowed(external, held, Acquire(r)) && Bracketed(external, held + [r], inner)
    ensures Bracketed(external, held, Wrapped(r, inner))
  {
    Wrap(external, held, Acquire(r), r, inner);
  }

  lemma JudgeIsBracketed(external: bool, held: seq<Resource>, settings: Config, seen: Option<string>, d: Demand,
                         o: Outcomes, features: seq<RunFeature>)
    requires Listener in held && Settings in held && (external || Server in held)
    ensures Bracketed(external, held, JudgeEvents(settings, seen, d, o, features))
  {
    hide ProxyMatches;
    var (e1, e2, e3) := (RunHarness(settings, seen, features), StopListening, CheckHistories(settings));
    Extend(external, held, [], e1);
    assert [] + [e1] == [e1];
    Extend(external, held, [e1], e2);
    assert [e1] + [e2] == [e1, e2];
    Extend(external, held, [e1, e2], e3);
    assert [e1, e2] + [e3] == [e1, e2, e3];
  }

  lemma FeaturesAreBracketed(external: bool, held: seq<Resource>, base: Config, env: Option<string>, d: Demand,
                             o: Outcomes, features: seq<RunFeature>)
    requires Listener !in held && Settings !in held && Proxy !in held && (external || Server in held)
    ensures Bracketed(external, held, FeatureEvents(base, env, d, o, features))
  {
    hide JudgeEvents, Replay;
    NothingIsBracketed(external, held);
    var h := if d.expectsProxy then held + [Proxy] else held;
    var judged := JudgeEvents(BatchSettings(base, d, o), Seen(env, d.capabilitiesJson), d, o, features);
    JudgeIsBracketed(external, h + [Listener] + [Settings], BatchSettings(base, d, o), Seen(env, d.capabilitiesJson),
                     d, o, features);
    WrappedIsBracketed(external, h + [Listener], Settings, judged);
    WrappedIsBracketed(external, h, Listener, Wrapped(Settings, judged));
    if d.expectsProxy {
      NothingIsBracketed(external, held + [Proxy]);
      WrappedIsBracketed(external, held, Proxy, ListenerEvents(base, env, d, o, features));
    }
  }

  lemma NothingIsBracketed(external: bool, held: seq<Resource>)
    ensures Bracketed(external, held, [])
  {
  }

  lemma EndpointsAreBracketed(external: bool, held: seq<Resource>, base: Config, env: Option<string>, d: Demand,
                              o: Outcomes, view: seq<RunFeature>)
    requires held == (if external then [] else [Server])
    ensures Bracketed(external, held, EndpointEvents(base, env, d, o, view))
  {
    hide FeatureEvents, Replay, NeedsEndpoints, FeaturesToRun, EndpointsMade, Ending;
    var client := held + [NexusClient];
    var deletion := DeleteEndpoints(EndpointsMade(o, view));
    var inner := FeatureEvents(base, env, d, o, FeaturesToRun(o, view));
    NothingIsBracketed(external, held);
    NothingIsBracketed(external, client);
    FeaturesAreBracketed(external, held, base, env, d, o, view);
    FeaturesAreBracketed(external, held, base, env, d, o, FeaturesToRun(o, view));
    FeaturesAreBracketed(external, client, base, env, d, o, FeaturesToRun(o, view));
    Extend(external, client, inner, deletion);
    WrappedIsBracketed(external, held, NexusClient, inner + [deletion]);
    Extend(external, client, [], deletion);
    assert [] + [deletion] == [deletion];
    WrappedIsBracketed(external, held, NexusClient, [deletion]);
    BracketedConcat(external, held, Wrapped(NexusClient, [deletion]), inner);
    BracketedConcat(external, held, Wrapped(NexusClient, [deletion]), []);
  }

  lemma BracketedConcat(external: bool, held: seq<Resource>, a: seq<Event>, b: seq<Event>)
    requires Bracketed(external, held, a) && Bracketed(external, held, b)
    ensures Bracketed(external, held, a + b)
  {
    ReplayConcat(external, held, a, b);
  }

  /** On every way out of a batch everything acquired is released exactly once, in reverse order;
      endpoints are made and deleted, and harness and history checks run, only while the server is up. */
  lemma BatchIsBracketed(base: Config, env: Option<string>, d: Demand, o: Outcomes, view: seq<RunFeature>)
    ensures Bracketed(base.server != "", [], BatchEvents(base, env, d, o, view))
  {
    hide EndpointEvents, Replay;
    NothingIsBracketed(base.server != "", []);
    if base.server == "" {
      assert [] + [Server] == [Server];
      EndpointsAreBracketed(false, [Server], base, env, d, o, view);
      if ServerWorks(base, d, o) {
        Wrap(false, [], ServerStart(base, d, o), Server, EndpointEvents(base, env, d, o, view));
      }
    } else {
      EndpointsAreBracketed(true, [], base, env, d, o, view);
    }
  }

  /** The same for a whole run. */
  lemma {:induction false} RunIsBracketed(base: Config, env: Option<string>, demands: seq<Demand>,
                                          outcomes: seq<Outcomes>, views: seq<seq<RunFeature>>)
    requires |demands| == |outcomes| == |views|
    ensures Bracketed(base.server != "", [], RunEvents(base, env, demands, outcomes, views))
  {
    hide BatchEvents, Succeeds, Replay;
    NothingIsBracketed(base.server != "", []);
    if demands != [] {
      BatchIsBracketed(base, env, demands[0], outcomes[0], views[0]);
      RunIsBracketed(base, env, demands[1..], outcomes[1..], views[1..]);
      BracketedConcat(base.server != "", [], BatchEvents(base, env, demands[0], outcomes[0], views[0]),
                      RunEvents(base, env, demands[1..], outcomes[1..], views[1..]));
      BracketedConcat(base.server != "", [], BatchEvents(base, env, demands[0], outcomes[0], views[0]), []);
    }
  }

  // ----- Servers and harnesses -----

  predicate IsStart(e: Event) {
    e.StartServer? || e.RunHarness?
  }

  /** The servers started and the harnesses run. */
  function Started(events: seq<Event>): seq<Event> {
    Filter(events, e => IsStart(e))
  }

  lemma StartedConcat(a: seq<Event>, b: seq<Event>)
    ensures Started(a + b) == Started(a) + Started(b)
  {
    FilterConcat(a, b, e => IsStart(e));
  }

  lemma StartedWrapped(r: Resource, inner: seq<Event>)
    ensures Started(Wrapped(r, inner)) == Started(inner)
  {
    StartedConcat([Acquire(r)], inner);
    StartedConcat([Acquire(r)] + inner, [Release(r)]);
    assert Started([Acquire(r)]) == [] && Started([Release(r)]) == [];
    assert [] + Started(inner) + [] == Started(inner);
  }

  lemma StartedOnServer(e: Event, inner: seq<Event>)
    requires e.StartServer?
    ensures Started([e] + inner + [Release(Server)]) == [e] + Started(inner)
  {
    StartedConcat([e], inner);
    StartedConcat([e] + inner, [Release(Server)]);
    assert Started([e]) == [e] && Started([Release(Server)]) == [];
    assert [e] + Started(inner) + [] == [e] + Started(inner);
  }

  lemma StartedJudged(settings: Config, seen: Option<string>, d: Demand, o: Outcomes, features: seq<RunFeature>)
    ensures Started(JudgeEvents(settings, seen, d, o, features)) == [RunHarness(settings, seen, features)]
  {
    hide ProxyMatches;
    var (e1, e2, e3) := (RunHarness(settings, seen, features), StopListening, CheckHistories(settings));
    assert [e1, e2] == [e1] + [e2] && [e1, e2, e3] == [e1] + [e2] + [e3];
    StartedConcat([e1], [e2]);
    StartedConcat([e1] + [e2], [e3]);
    assert Started([e1]) == [e1] && Started([e2]) == [] && Started([e3]) == [];
    assert [e1] + [] + [] == [e1];
  }

  /** The harness of a batch, given some features. */
  function HarnessOf(base: Config, env: Option<string>, d: Demand, o: Outcomes, features: seq<RunFeature>): Event {
    RunHarness(BatchSettings(base, d, o), Seen(env, d.capabilitiesJson), features)
  }

  lemma FeaturesStartHarness(base: Config, env: Option<string>, d: Demand, o: Outcomes, features: seq<RunFeature>)
    ensures Started(FeatureEvents(base, env, d, o, features))
         == if features != [] && (d.expectsProxy ==> o.proxyStarts.Some?) && o.listens.Some?
            then [HarnessOf(base, env, d, o, features)] else []
  {
    hide JudgeEvents, Wrapped, Started, BatchSettings;
    NothingStarted();
    var judged := JudgeEvents(BatchSettings(base, d, o), Seen(env, d.capabilitiesJson), d, o, features);
    StartedJudged(BatchSettings(base, d, o), Seen(env, d.capabilitiesJson), d, o, features);
    StartedWrapped(Settings, judged);
    StartedWrapped(Listener, Wrapped(Settings, judged));
    StartedWrapped(Proxy, ListenerEvents(base, env, d, o, features));
  }

  lemma NothingStarted()
    ensures Started([]) == []
    ensures forall endpoints :: Started([DeleteEndpoints(endpoints)]) == []
  {
  }

  /** The server that a batch starts unless it is given one. */
  ghost function ServerStarts(base: Config, d: Demand, o: Outcomes): seq<Event>
    requires ServerWorks(base, d, o)
  {
    if base.server == "" then [ServerStart(base, d, o)] else []
  }

  /** A server started for the harness is the one it is told. */
  lemma HarnessUsesServer(base: Config, env: Option<string>, d: Demand, o: Outcomes, features: seq<RunFeature>)
    requires base.server == "" && ServerWorks(base, d, o)
    ensures HarnessOf(base, env, d, o, features).config.server == o.serverStarts.value
    ensures HarnessOf(base, env, d, o, features).config.namespace == ServerStart(base, d, o).namespace
    ensures ServerStart(base, d, o).args
         == DynamicConfig.Flags(DynamicConfig.Settings(o.configFile, d.dynamicConfig).value)
  {
  }

  /** Everything after the server works, up to the harness. */
  predicate HarnessIsRun(d: Demand, o: Outcomes, view: seq<RunFeature>) {
    && o.capabilitiesMatch && NexusWorks(o, view) && FeaturesToRun(o, view) != []
    && (d.expectsProxy ==> o.proxyStarts.Some?) && o.listens.Some?
  }

  lemma EndpointsStartHarness(base: Config, env: Option<string>, d: Demand, o: Outcomes, view: seq<RunFeature>)
    ensures Started(EndpointEvents(base, env, d, o, view))
         == if HarnessIsRun(d, o, view) then [HarnessOf(base, env, d, o, FeaturesToRun(o, view))] else []
  {
    hide FeatureEvents, Wrapped, Started, EndpointsMade, HarnessOf, NeedsEndpoints, Ending;
    var run := FeaturesToRun(o, view);
    var inner := FeatureEvents(base, env, d, o, run);
    var deletion := DeleteEndpoints(EndpointsMade(o, view));
    NothingStarted();
    FeaturesStartHarness(base, env, d, o, view);
    FeaturesStartHarness(base, env, d, o, run);
    StartedConcat(inner, [deletion]);
    StartedWrapped(NexusClient, inner + [deletion]);
    StartedWrapped(NexusClient, [deletion]);
    StartedConcat(Wrapped(NexusClient, [deletion]), inner);
    StartedConcat(Wrapped(NexusClient, [deletion]), []);
  }

  /** A batch starts its server, with its own dynamic config, and then runs its harness exactly when
      everything before works and features are left: each once, the harness on those features and with
      the runner's own settings plus what this batch adds, whatever batches came before. */
  lemma BatchStartsOnce(base: Config, env: Option<string>, d: Demand, o: Outcomes, view: seq<RunFeature>)
    ensures Started(BatchEvents(base, env, d, o, view))
         == if !ServerWorks(base, d, o) then []
            else ServerStarts(base, d, o)
                 + (if HarnessIsRun(d, o, view) then [HarnessOf(base, env, d, o, FeaturesToRun(o, view))] else [])
  {
    hide EndpointEvents, Started, ServerWorks, HarnessOf, HarnessIsRun, FeaturesToRun;
    NothingStarted();
    EndpointsStartHarness(base, env, d, o, view);
    var inner := EndpointEvents(base, env, d, o, view);
    assert [] + Started(inner) == Started(inner);
    if ServerWorks(base, d, o) && base.server == "" {
      ServerNeedsSettings(base, d, o);
      StartedOnServer(ServerStart(base, d, o), inner);
    }
  }

  lemma ServerNeedsSettings(base: Config, d: Demand, o: Outcomes)
    requires ServerWorks(base, d, o) && base.server == ""
    ensures DynamicConfig.Settings(o.configFile, d.dynamicConfig).Ok?
  {
  }

  lemma SuccessRunsHarness(base: Config, d: Demand, o: Outcomes, view: seq<RunFeature>)
    requires Succeeds(base, d, o, view)
    ensures ServerWorks(base, d, o) && (HarnessIsRun(d, o, view) <==> FeaturesToRun(o, view) != [])
  {
    hide ServerWorks, NexusWorks, FeaturesToRun, ProxyMatches, HistoriesPass;
  }

  /** The servers of all batches, each followed by its harness if features are left. */
  ghost function StartsOf(base: Config, env: Option<string>, demands: seq<Demand>, outcomes: seq<Outcomes>,
                          views: seq<seq<RunFeature>>): seq<Event>
    requires |demands| == |outcomes| == |views|
    requires forall i :: 0 <= i < |demands| ==> ServerWorks(base, demands[i], outcomes[i])
  {
    if demands == [] then []
    else
      var run := FeaturesToRun(outcomes[0], views[0]);
      ServerStarts(base, demands[0], outcomes[0])
      + (if run == [] then [] else [HarnessOf(base, env, demands[0], outcomes[0], run)])
      + StartsOf(base, env, demands[1..], outcomes[1..], views[1..])
  }

  /** When all batches of a run succeed, each has started its own server with its own dynamic config and,
      if it has features left, run its harness on them, each once and in order, and all from the settings
      and the environment the runner began with. */
  lemma {:induction false} RunStartsEverything(base: Config, env: Option<string>, demands: seq<Demand>,
                                               outcomes: seq<Outcomes>, views: seq<seq<RunFeature>>)
    requires |demands| == |outcomes| == |views|
    requires forall i :: 0 <= i < |demands| ==> Succeeds(base, demands[i], outcomes[i], views[i])
    ensures forall i :: 0 <= i < |demands| ==> ServerWorks(base, demands[i], outcomes[i])
    ensures Started(RunEvents(base, env, demands, outcomes, views))
         == StartsOf(base, env, demands, outcomes, views)
  {
    hide BatchEvents, Succeeds, FeaturesToRun, Started, HarnessOf, ServerWorks, HarnessIsRun, ServerStarts;
    NothingStarted();
    if demands != [] {
      var rest := RunEvents(base, env, demands[1..], outcomes[1..], views[1..]);
      SuccessRunsHarness(base, demands[0], outcomes[0], views[0]);
      BatchStartsOnce(base, env, demands[0], outcomes[0], views[0]);
      RunStartsEverything(base, env, demands[1..], outcomes[1..], views[1..]);
      StartedConcat(BatchEvents(base, env, demands[0], outcomes[0], views[0]), rest);
    }
  }

  // ----- What the settings, the summary and a success are -----

  /** The settings the harness of a batch sees. */
  lemma SettingsAre(base: Config, d: Demand, o: Outcomes, address: string, summaries: string, proxy: string)
    requires o.serverStarts == Some(address) && o.listens == Some(summaries) && o.proxyStarts == Some(proxy)
    ensures var c := BatchSettings(base, d, o);
      && c.server == (if base.server == "" then address else base.server)
      && c.namespace == (if base.namespace == "" then o.freshNamespace else base.namespace)
      && c.capabilitiesJson == d.capabilitiesJson && c.summaryUri == "tcp://" + summaries
      && c.httpProxyUrl == (if d.expectsProxy then "http://" + proxy else base.httpProxyUrl)
      && c.lang == base.lang && c.others == base.others
  {
  }

  /** The summary that counts in a variant batch: what is reported, an entry under the bare directory of
      its feature getting the variant's name; in a batch without variant what is reported; and if nothing
      is, that everything passed. */
  lemma EffectiveIs(o: Outcomes, f: RunFeature, features: seq<RunFeature>, i: nat)
    ensures o.summary.Some? && f.variantName != "" && i < |o.summary.value| ==>
      var (reported, e) := (o.summary.value[i], EffectiveSummary(o, f.variantName, [f]));
      |e| == |o.summary.value|
      && e[i] == if reported.name == f.dir then reported.(name := f.dir + "#" + f.variantName) else reported
    ensures o.summary.Some? ==> EffectiveSummary(o, "", features) == o.summary.value
    ensures o.summary.None? && i < |features| ==>
      var e := EffectiveSummary(o, f.variantName, features);
      |e| == |features| && e[i] == SummaryEntry(features[i].SummaryName(), "PASSED", "")
  {
    if o.summary.Some? && f.variantName != "" {
      BareOrQualified(o.summary.value, o.summary.value, f);
    }
  }

  /** A batch succeeds exactly when everything it needs works and both verdicts are good. */
  lemma SuccessMeans(base: Config, d: Demand, o: Outcomes, view: seq<RunFeature>)
    ensures var run := FeaturesToRun(o, view);
      var summary := EffectiveSummary(o, d.variantName, run);
      Succeeds(base, d, o, view) <==>
        && (base.server == "" ==> o.serverStarts.Some? && DynamicConfig.Settings(o.configFile, d.dynamicConfig).Ok?)
        && (base.server != "" ==> d.variantName == "" && o.namespaceAvailable)
        && o.capabilitiesMatch
        && ((exists f :: f in view && "nexus/" <= f.dir) ==>
              o.operatorDials && forall j :: 0 <= j < |Nexus.NexusFeatures(view)| && !o.answers(j).Created?
                                             && (forall k :: 0 <= k < j ==> o.answers(k).Created?) ==>
                                   o.answers(j).PermissionDenied?)
        && (run != [] ==>
              && o.listens.Some? && o.harnessSucceeds
              && (d.expectsProxy ==> o.proxyStarts.Some? && Accepts(summary, run, o.unauthed, o.authed))
              && (Handled(run, summary) != [] ==> o.historyDials)
              && (forall f :: f in Handled(run, summary) ==> o.handles(f)))
  {
    hide Accepts, Handled, EffectiveSummary, FeaturesToRun, DynamicConfig.Settings;
    var run := FeaturesToRun(o, view);
    CountsFailures(Handled(run, EffectiveSummary(o, d.variantName, run)), o.handles);
    NeedsMeans(view);
    RefusalMeans(o, view);
  }

  lemma NeedsMeans(view: seq<RunFeature>)
    ensures NeedsEndpoints(view) <==> exists f :: f in view && "nexus/" <= f.dir
  {
    var nexus := Nexus.NexusFeatures(view);
    if nexus != [] {
      Nexus.OthersAre(view, nexus[0]);
      assert nexus[0] in nexus;
    }
    if f :| f in view && "nexus/" <= f.dir {
      Nexus.OthersAre(view, f);
    }
  }

  lemma RefusalMeans(o: Outcomes, view: seq<RunFeature>)
    ensures var n := |Nexus.NexusFeatures(view)|;
      && (Ending(o, view).AllCreated? <==> forall j :: 0 <= j < n ==> o.answers(j).Created?)
      && (Ending(o, view).FailedAt? ==>
            var j := Ending(o, view).index;
            j < n && !o.answers(j).Created? && forall k :: 0 <= k < j ==> o.answers(k).Created?)
  {
  }

  /** What is run: everything if nothing needs an endpoint; everything, the Nexus features with their
      endpoints, if all of these were made; and otherwise what is no Nexus feature. */
  lemma RunAre(o: Outcomes, view: seq<RunFeature>, f: RunFeature)
    ensures (forall j :: 0 <= j < |Nexus.NexusFeatures(view)| ==> o.answers(j).Created?) ==>
      && |FeaturesToRun(o, view)| == |view|
      && forall i :: 0 <= i < |view| ==>
           if "nexus/" <= view[i].dir
           then FeaturesToRun(o, view)[i].nexusEndpoint == Nexus.EndpointName(view[i], o.uuid(Nexus.Rank(view, i)))
                && FeaturesToRun(o, view)[i] == view[i].(nexusEndpoint := FeaturesToRun(o, view)[i].nexusEndpoint)
           else FeaturesToRun(o, view)[i] == view[i]
    ensures !(forall j :: 0 <= j < |Nexus.NexusFeatures(view)| ==> o.answers(j).Created?) ==>
      FeaturesToRun(o, view) == Nexus.OtherFeatures(view)
  {
    hide Nexus.EndpointName, Nexus.Rank, Nexus.FirstRefusal, Nexus.NexusFeatures;
    RefusalMeans(o, view);
    NeedsMeans(view);
    forall i | 0 <= i < |view| && "nexus/" <= view[i].dir {
      Nexus.NexusAtRank(view, i);
    }
  }

  // ----- What bracketed events are -----

  predicate Acquires(e: Event, r: Resource) {
    e == Acquire(r) || (r == Server && e.StartServer?)
  }

  function CountAcquired(events: seq<Event>, r: Resource): nat {
    |Filter(events, e => Acquires(e, r))|
  }

  function CountReleased(events: seq<Event>, r: Resource): nat {
    |Filter(events, e => e == Release(r))|
  }

  /** Everything acquired is released as often. */
  lemma {:induction false} BracketsBalance(external: bool, held: seq<Resource>, events: seq<Event>, r: Resource)
    ensures var after := Replay(external, held, events);
      after.Some? ==>
        multiset(held)[r] + CountAcquired(events, r) == multiset(after.value)[r] + CountReleased(events, r)
    decreases |events|
  {
    if events != [] && Allowed(external, held, events[0]) {
      BracketsBalance(external, Held(held, events[0]), events[1..], r);
      EventBalances(external, held, events[0], r);
      hide Allowed, Held, Acquires;
    }
  }

  lemma EventBalances(external: bool, held: seq<Resource>, e: Event, r: Resource)
    requires Allowed(external, held, e)
    ensures multiset(Held(held, e))[r] + (if e == Release(r) then 1 else 0)
         == multiset(held)[r] + (if Acquires(e, r) then 1 else 0)
  {
    if e.Release? {
      assert held == Held(held, e) + [e.resource];
    }
  }

  lemma LastEvent(external: bool, held: seq<Resource>, events: seq<Event>, after: seq<Resource>)
    requires events != [] && Replay(external, held, events) == Some(after)
    ensures var n := |events| - 1;
      var before := Replay(external, held, events[..n]);
      before.Some? && Allowed(external, before.value, events[n]) && Held(before.value, events[n]) == after
  {
    var n := |events| - 1;
    assert events == events[..n] + [events[n]];
    ReplayConcat(external, held, events[..n], [events[n]]);
    assert [events[n]][1..] == [];
  }

  /** What was held before an event. */
  lemma HeldBefore(external: bool, held: seq<Resource>, e: Event, h: seq<Resource>, r: Resource)
    requires Allowed(external, held, e) && Held(held, e) == h + [r]
    ensures e.Acquire? || e.StartServer? ==> held == h && Acquires(e, r)
    ensures e.Release? ==> held == h + [r] + [e.resource]
    ensures !e.Acquire? && !e.StartServer? && !e.Release? ==> held == h + [r]
  {
    assert (h + [r])[..|h|] == h && (h + [r])[|h|] == r;
    if e.Acquire? || e.StartServer? {
      assert Held(held, e)[..|held|] == held;
    }
  }

  /** What is on top of what is held was acquired at some point, and everything acquired after that point
      has been released again: releases come in the reverse order of acquisitions. */
  lemma {:induction false} TopWasAcquired(external: bool, held: seq<Resource>, events: seq<Event>, h: seq<Resource>,
                                          r: Resource)
    returns (i: nat)
    requires Replay(external, held, events) == Some(h + [r]) && |h| >= |held|
    ensures i < |events| && Acquires(events[i], r)
    ensures Replay(external, held, events[..i]) == Some(h)
    ensures Bracketed(external, h + [r], events[i + 1..])
    decreases |events|
  {
    hide Allowed, Held, Acquires;
    assert events != [];
    hide Replay;
    var n := |events| - 1;
    var (before, e) := (events[..n], events[n]);
    LastEvent(external, held, events, h + [r]);
    HeldBefore(external, Replay(external, held, before).value, e, h, r);
    if e.Acquire? || e.StartServer? {
      i := n;
      assert events[n + 1..] == [];
      NothingIsBracketed(external, h + [r]);
    } else if e.Release? {
      var k := TopWasAcquired(external, held, before, h + [r], e.resource);
      i := TopWasAcquired(external, held, before[..k], h, r);
      assert before[..k][..i] == events[..i] && before[..k][i + 1..] == before[i + 1..k];
      OpensWith(external, held, before, k, h + [r], e.resource);
      JoinPieces(external, h + [r], before[i + 1..k], events[k], before[k + 1..], e);
      Pieces(events, i, k);
    } else {
      i := TopWasAcquired(external, held, before, h, r);
      assert before[..i] == events[..i] && events[i + 1..] == before[i + 1..] + [e];
      KeepsBracketed(external, h + [r], before[i + 1..], e);
    }
  }

  lemma Pieces(events: seq<Event>, i: nat, k: nat)
    requires i < k < |events| - 1
    ensures var n := |events| - 1;
      events[i + 1..] == events[..n][i + 1..k] + [events[k]] + events[..n][k + 1..] + [events[n]]
  {
  }

  lemma OpensWith(external: bool, held: seq<Resource>, events: seq<Event>, k: nat, h: seq<Resource>, r: Resource)
    requires k < |events| && Acquires(events[k], r) && Replay(external, held, events[..k]) == Some(h)
    requires Replay(external, held, events).Some?
    ensures Allowed(external, h, events[k]) && Held(h, events[k]) == h + [r]
  {
    var rest := events[k..];
    assert events == events[..k] + rest;
    ReplayConcat(external, held, events[..k], rest);
  }

  lemma KeepsBracketed(external: bool, held: seq<Resource>, events: seq<Event>, e: Event)
    requires Bracketed(external, held, events) && Allowed(external, held, e)
    requires !e.Acquire? && !e.StartServer? && !e.Release?
    ensures Bracketed(external, held, events + [e])
  {
    Extend(external, held, events, e);
  }

  lemma JoinPieces(external: bool, held: seq<Resource>, a: seq<Event>, open: Event, b: seq<Event>, close: Event)
    requires Bracketed(external, held, a) && close.Release?
    requires Allowed(external, held, open) && Held(held, open) == held + [close.resource]
    requires Bracketed(external, held + [close.resource], b)
    ensures Bracketed(external, held, a + [open] + b + [close])
  {
    Wrap(external, held, open, close.resource, b);
    BracketedConcat(external, held, a, [open] + b + [close]);
    assert a + ([open] + b + [close]) == a + [open] + b + [close];
  }

  /** Every resource is released as often as it is acquired. */
  ghost predicate Balanced(events: seq<Event>) {
    forall r :: CountAcquired(events, r) == CountReleased(events, r)
  }

  /** Bracketed events are balanced, and each release belongs to an acquisition such that whatever was
      acquired in between has been released in between. */
  lemma BracketedMeans(external: bool, events: seq<Event>)
    requires Bracketed(external, [], events)
    ensures Balanced(events)
    ensures forall j :: 0 <= j < |events| && events[j].Release? ==>
      exists i :: 0 <= i < j && Acquires(events[i], events[j].resource) && Balanced(events[i + 1..j])
  {
    BracketedIsBalanced(external, [], events);
    hide Balanced, Replay;
    forall j | 0 <= j < |events| && events[j].Release?
      ensures exists i :: 0 <= i < j && Acquires(events[i], events[j].resource) && Balanced(events[i + 1..j])
    {
      var i := ReleaseMatches(external, events, j);
    }
  }

  lemma BracketedIsBalanced(external: bool, held: seq<Resource>, events: seq<Event>)
    requires Bracketed(external, held, events)
    ensures Balanced(events)
  {
    hide Replay, CountAcquired, CountReleased;
    forall r
      ensures CountAcquired(events, r) == CountReleased(events, r)
    {
      BracketsBalance(external, held, events, r);
    }
  }

  lemma ReleaseMatches(external: bool, events: seq<Event>, j: nat) returns (i: nat)
    requires Bracketed(external, [], events) && j < |events| && events[j].Release?
    ensures i < j && Acquires(events[i], events[j].resource) && Balanced(events[i + 1..j])
  {
    hide Replay, Balanced, Bracketed;
    var h := BeforeRelease(external, events, j);
    i := TopWasAcquired(external, [], events[..j], h, events[j].resource);
    assert events[..j][i + 1..] == events[i + 1..j];
    BracketedIsBalanced(external, h + [events[j].resource], events[i + 1..j]);
  }

  lemma BeforeRelease(external: bool, events: seq<Event>, j: nat) returns (h: seq<Resource>)
    requires Bracketed(external, [], events) && j < |events| && events[j].Release?
    ensures Replay(external, [], events[..j]) == Some(h + [events[j].resource])
  {
    assert events == events[..j] + events[j..];
    ReplayConcat(external, [], events[..j], events[j..]);
    var held := Replay(external, [], events[..j]).value;
    assert Allowed(external, held, events[j]);
    h := held[..|held| - 1];
    assert held == h + [held[|held| - 1]];
  }

  // ----- While the server is up -----

  ghost predicate LeavesServerAlone(events: seq<Event>) {
    forall e :: e in events ==> !e.StartServer? && e != Acquire(Server) && e != Release(Server)
  }

  lemma FeaturesLeaveServerAlone(base: Config, env: Option<string>, d: Demand, o: Outcomes, features: seq<RunFeature>)
    ensures LeavesServerAlone(FeatureEvents(base, env, d, o, features))
  {
    hide BatchSettings, Seen, ProxyMatches;
  }

  /** A batch that starts a server starts it first and stops it last, once each: everything else, the
      deletion of endpoints and the history checks included, happens while it is up. */
  lemma ServerSpansBatch(base: Config, env: Option<string>, d: Demand, o: Outcomes, view: seq<RunFeature>)
    requires base.server == "" && BatchEvents(base, env, d, o, view) != []
    ensures var events := BatchEvents(base, env, d, o, view);
      var n := |events|;
      n >= 2 && events[0].StartServer? && events[n - 1] == Release(Server) && LeavesServerAlone(events[1..n - 1])
  {
    hide FeatureEvents, ServerStart, EndpointsMade, Ending, FeaturesToRun, NeedsEndpoints;
    hide DynamicConfig.Settings;
    FeaturesLeaveServerAlone(base, env, d, o, view);
    FeaturesLeaveServerAlone(base, env, d, o, FeaturesToRun(o, view));
    var inner := EndpointEvents(base, env, d, o, view);
    assert LeavesServerAlone(inner);
    StartIsStart(base, d, o);
    var events := BatchEvents(base, env, d, o, view);
    assert events == [ServerStart(base, d, o)] + inner + [Release(Server)];
    assert events[1..|events| - 1] == inner;
  }

  lemma StartIsStart(base: Config, d: Demand, o: Outcomes)
    ensures DynamicConfig.Settings(o.configFile, d.dynamicConfig).Ok? ==> ServerStart(base, d, o).StartServer?
  {
  }

  // ----- The proxy -----

  lemma JudgingNeedsNoProxy(settings: Config, seen: Option<string>, d: Demand, o: Outcomes, features: seq<RunFeature>)
    ensures Acquire(Proxy) !in Wrapped(Listener, Wrapped(Settings, JudgeEvents(settings, seen, d, o, features)))
  {
    hide ProxyMatches;
  }

  lemma FeaturesAcquireProxy(base: Config, env: Option<string>, d: Demand, o: Outcomes, features: seq<RunFeature>)
    ensures Acquire(Proxy) in FeatureEvents(base, env, d, o, features) <==>
      features != [] && d.expectsProxy && o.proxyStarts.Some?
  {
    hide JudgeEvents, BatchSettings, Seen;
    JudgingNeedsNoProxy(BatchSettings(base, d, o), Seen(env, d.capabilitiesJson), d, o, features);
  }

  /** A batch that succeeds has a proxy exactly when it expects one and has features left. */
  lemma ProxyIsAcquired(base: Config, env: Option<string>, d: Demand, o: Outcomes, view: seq<RunFeature>)
    requires Succeeds(base, d, o, view)
    ensures Acquire(Proxy) in BatchEvents(base, env, d, o, view) <==> FeaturesToRun(o, view) != [] && d.expectsProxy
  {
    hide FeatureEvents, ServerStart, EndpointsMade, Ending, FeaturesToRun, NeedsEndpoints, DynamicConfig.Settings;
    hide ProxyMatches, HistoriesPass;
    StartIsStart(base, d, o);
    FeaturesAcquireProxy(base, env, d, o, view);
    FeaturesAcquireProxy(base, env, d, o, FeaturesToRun(o, view));
    NoNeedIsView(o, view);
    var inner := EndpointEvents(base, env, d, o, view);
    assert Acquire(Proxy) in inner <==> Acquire(Proxy) in FeatureEvents(base, env, d, o, FeaturesToRun(o, view));
    if base.server == "" {
      var events := [ServerStart(base, d, o)] + inner + [Release(Server)];
      assert Acquire(Proxy) in events <==> Acquire(Proxy) in inner;
    }
  }

  lemma NoNeedIsView(o: Outcomes, view: seq<RunFeature>)
    ensures !NeedsEndpoints(view) ==> FeaturesToRun(o, view) == view
  {
  }

  // ----- Endings -----

  lemma InWrapped(r: Resource, inner: seq<Event>, e: Event)
    ensures !e.Acquire? && !e.Release? ==> (e in Wrapped(r, inner) <==> e in inner)
  {
  }

  lemma ChecksJudged(settings: Config, seen: Option<string>, d: Demand, o: Outcomes, features: seq<RunFeature>,
                     e: Event)
    ensures e.CheckHistories? ==>
      (e in JudgeEvents(settings, seen, d, o, features) <==>
       o.harnessSucceeds && ProxyMatches(d, o, features) && e == CheckHistories(settings))
  {
    hide ProxyMatches;
  }

  lemma ChecksFeatures(base: Config, env: Option<string>, d: Demand, o: Outcomes, features: seq<RunFeature>, e: Event)
    ensures e.CheckHistories? ==>
      (e in FeatureEvents(base, env, d, o, features) <==>
       && features != [] && (d.expectsProxy ==> o.proxyStarts.Some?) && o.listens.Some?
       && o.harnessSucceeds && ProxyMatches(d, o, features) && e == CheckHistories(BatchSettings(base, d, o)))
  {
    hide ProxyMatches, BatchSettings, Seen, JudgeEvents, Wrapped;
    var (settings, seen) := (BatchSettings(base, d, o), Seen(env, d.capabilitiesJson));
    var judged := JudgeEvents(settings, seen, d, o, features);
    ChecksJudged(settings, seen, d, o, features, e);
    InWrapped(Settings, judged, e);
    InWrapped(Listener, Wrapped(Settings, judged), e);
    InWrapped(Proxy, Wrapped(Listener, Wrapped(Settings, judged)), e);
    InWrapped(Proxy, [], e);
  }

  /** The histories of a batch are handled exactly when its harness ran without error and the proxy, if
      there is one, counted what was promised. */
  lemma HistoriesAreHandledWhen(base: Config, env: Option<string>, d: Demand, o: Outcomes, view: seq<RunFeature>)
    ensures var run := FeaturesToRun(o, view);
      (exists e :: e in BatchEvents(base, env, d, o, view) && e.CheckHistories?) <==>
        && ServerWorks(base, d, o) && HarnessIsRun(d, o, view) && o.harnessSucceeds
        && (d.expectsProxy ==> Accepts(EffectiveSummary(o, d.variantName, run), run, o.unauthed, o.authed))
  {
    hide FeatureEvents, ServerStart, EndpointsMade, Ending, FeaturesToRun, NeedsEndpoints, DynamicConfig.Settings;
    hide Accepts, EffectiveSummary;
    StartIsStart(base, d, o);
    NoNeedIsView(o, view);
    forall e: Event
      ensures e.CheckHistories? ==>
        (e in FeatureEvents(base, env, d, o, FeaturesToRun(o, view)) <==>
         && FeaturesToRun(o, view) != [] && (d.expectsProxy ==> o.proxyStarts.Some?) && o.listens.Some?
         && o.harnessSucceeds && ProxyMatches(d, o, FeaturesToRun(o, view))
         && e == CheckHistories(BatchSettings(base, d, o)))
    {
      ChecksFeatures(base, env, d, o, FeaturesToRun(o, view), e);
    }
    hide BatchSettings;
    var inner := EndpointEvents(base, env, d, o, view);
    ChecksAmong(base, env, d, o, view);
    var check := CheckHistories(BatchSettings(base, d, o));
    forall e: Event
      ensures e.CheckHistories? ==> (e in BatchEvents(base, env, d, o, view) <==> ServerWorks(base, d, o) && e in inner)
    {
      if ServerWorks(base, d, o) && base.server == "" {
        var all := [ServerStart(base, d, o)] + inner + [Release(Server)];
        assert e.CheckHistories? ==> (e in all <==> e in inner);
      }
    }
    assert check.CheckHistories?;
    hide BatchEvents, EndpointEvents;
    assert check in BatchEvents(base, env, d, o, view) <==> ServerWorks(base, d, o) && check in inner;
  }

  lemma ChecksAmong(base: Config, env: Option<string>, d: Demand, o: Outcomes, view: seq<RunFeature>)
    ensures forall e: Event :: e.CheckHistories? ==>
      (e in EndpointEvents(base, env, d, o, view) <==>
       o.capabilitiesMatch && NexusWorks(o, view) && e in FeatureEvents(base, env, d, o, FeaturesToRun(o, view)))
  {
    hide FeatureEvents, EndpointsMade, FeaturesToRun, NeedsEndpoints;
    NoNeedIsView(o, view);
  }

  /** The endpoints of a batch are those of the creations the server answered before it refused one. */
  lemma EndpointsMadeAre(o: Outcomes, view: seq<RunFeature>)
    requires o.capabilitiesMatch && o.operatorDials
    ensures var made := EndpointsMade(o, view);
      && |made| <= |Nexus.NexusFeatures(view)|
      && (forall j :: 0 <= j < |made| ==> o.answers(j) == Nexus.Created(made[j]))
      && (|made| < |Nexus.NexusFeatures(view)| ==> !o.answers(|made|).Created?)
  {
    hide Nexus.NexusFeatures;
    RefusalMeans(o, view);
  }
}
