/** What a success says. The Go harness runs in the runner's own process: its entries come back through
    the socket, its tunnels are counted by the proxy, its histories are compared, and all of that decides
    whether a batch succeeds. */
module GreenRuns {
  import opened Seqs
  import opened Runs
  import opened Batches
  import opened BatchVerdict
  import opened HarnessRun
  import opened BatchRunner
  import opened WholeRun
  import ConnectProxy
  import HistoryStore
  import HistoryRuns
  import Handshake = SummaryHandshake
  import Stream = SummaryStream
  import Json
  import Utf8

  // ----- From entry to entry -----

  function ToWire(e: SummaryEntry): Json.Entry {
    Json.Entry(Utf8.Encode(e.name), Utf8.Encode(e.outcome), Utf8.Encode(e.message))
  }

  lemma WireIsExact(a: SummaryEntry, b: SummaryEntry)
    ensures Json.SanitizeEntry(ToWire(a)) == ToWire(a)
    ensures ToWire(a) == ToWire(b) ==> a == b
  {
    Utf8.EncodeIsValid(a.name);
    Utf8.EncodeIsValid(a.outcome);
    Utf8.EncodeIsValid(a.message);
    Stream.SanitizedEntry(ToWire(a));
    if ToWire(a) == ToWire(b) {
      Utf8.EncodeIsInjective(a.name, b.name);
      Utf8.EncodeIsInjective(a.outcome, b.outcome);
      Utf8.EncodeIsInjective(a.message, b.message);
    }
  }

  function AllToWire(entries: seq<SummaryEntry>): Stream.Summary {
    Map(entries, (e: SummaryEntry) => ToWire(e))
  }

  /** Some interleaving of harness, goroutine and runner, in which the harness writes all its entries,
      ends with `received` taken from the channel. */
  ghost predicate Arrives(written: seq<SummaryEntry>, received: seq<SummaryEntry>) {
    exists acts :: ArrivesBy(acts, Stream.WriteAll(AllToWire(written)), received)
  }

  ghost predicate ArrivesBy(acts: seq<Handshake.Action>, script: Utf8.Bytes, received: seq<SummaryEntry>) {
    && Handshake.Possible(Handshake.Init(script), acts)
    && var s := Handshake.After(Handshake.Init(script), acts);
       s.toWrite == [] && s.main == Handshake.Received(Some(AllToWire(received)))
  }

  /** What arrives is what was written, whatever the interleaving and however the bytes were cut. */
  lemma ArrivedIsWritten(written: seq<SummaryEntry>, received: seq<SummaryEntry>)
    requires Arrives(written, received)
    ensures received == written
  {
    hide Stream.WriteAll, Handshake.Possible, Handshake.After, Json.SanitizeEntry, ToWire;
    var script := Stream.WriteAll(AllToWire(written));
    var acts :| ArrivesBy(acts, script, received);
    Handshake.ReceivedIsReported(AllToWire(written), script, acts);
    var sanitized := Map(AllToWire(written), Json.SanitizeEntry);
    assert AllToWire(received) == sanitized;
    forall i | 0 <= i < |written|
      ensures received[i] == written[i]
    {
      WireIsExact(written[i], received[i]);
      assert AllToWire(received)[i] == sanitized[i];
    }
  }

  lemma WrittenCanArrive(written: seq<SummaryEntry>)
    ensures Arrives(written, written)
  {
    hide Stream.WriteAll, Handshake.Possible, Handshake.After, Json.SanitizeEntry, ToWire, Stream.DecodeStream;
    var script := Stream.WriteAll(AllToWire(written));
    var acts := Handshake.SummaryCanArrive(script);
    Stream.DecodeWriteAll(AllToWire(written));
    forall i | 0 <= i < |written| {
      WireIsExact(written[i], written[i]);
    }
    assert Map(AllToWire(written), Json.SanitizeEntry) == AllToWire(written);
    assert ArrivesBy(acts, script, written);
  }

  /** Over all interleavings what can arrive is what was written and nothing else. */
  lemma ArrivesExactly(written: seq<SummaryEntry>, received: seq<SummaryEntry>)
    ensures Arrives(written, received) <==> received == written
  {
    hide Arrives;
    WrittenCanArrive(written);
    if Arrives(written, received) {
      ArrivedIsWritten(written, received);
    }
  }

  // ----- A harness without errors -----

  /** The feature was found, and its execution ended well. */
  predicate EndsWell(registered: seq<Registered>, execute: Executor, f: RunFeature) {
    && Lookup(registered, f.dir).Some?
    && var e := Executed(Lookup(registered, f.dir).value, execute, f);
       e.Passed? || e.Skipped?
  }

  predicate EndsPassed(registered: seq<Registered>, execute: Executor, f: RunFeature) {
    Lookup(registered, f.dir).Some? && Executed(Lookup(registered, f.dir).value, execute, f).Passed?
  }

  /** One entry per feature, in order, saying passed for those that did and skipped for the others. */
  ghost predicate Reflects(summary: seq<SummaryEntry>, features: seq<RunFeature>, passed: RunFeature -> bool) {
    |summary| == |features| && forall i :: 0 <= i < |features| ==>
      summary[i].name == features[i].SummaryName()
      && summary[i].outcome == (if passed(features[i]) then PASSED else SKIPPED)
  }

  lemma {:induction false} NoneToldFailed(entries: seq<SummaryEntry>, i: nat)
    requires CountFailed(entries) == 0 && i < |entries|
    ensures !Told(entries[i]).Failed?
  {
    if i > 0 {
      NoneToldFailed(entries[1..], i - 1);
    }
  }

  /** A run of the harness that returns no error executed all its features, which passed or skipped, and
      wrote exactly that. */
  lemma HarnessEndsWell(registered: seq<Registered>, execute: Executor, features: seq<RunFeature>)
    requires Written(registered, execute, features, 0).1 == None
    ensures forall f :: f in features ==> EndsWell(registered, execute, f)
    ensures Reflects(Written(registered, execute, features, 0).0, features, f => EndsPassed(registered, execute, f))
  {
    hide Written, Executed;
    WrittenTells(registered, execute, features, 0);
    var written := Written(registered, execute, features, 0).0;
    forall i | 0 <= i < |features|
      ensures EndsWell(registered, execute, features[i])
      ensures written[i].name == features[i].SummaryName()
      ensures written[i].outcome == if EndsPassed(registered, execute, features[i]) then PASSED else SKIPPED
    {
      NoneToldFailed(written, i);
    }
  }

  // ----- A batch -----

  /** The harness of a batch is the Go harness in this process: it succeeds if its run returns no error,
      and a summary that arrives is the one it wrote. */
  ghost predicate InProcess(o: Outcomes, features: seq<RunFeature>, registered: seq<Registered>, execute: Executor) {
    o.harnessSucceeds ==>
      && Written(registered, execute, features, 0).1 == None
      && (o.summary.Some? ==> Arrives(Written(registered, execute, features, 0).0, o.summary.value))
  }

  /** The features taken to have passed: those that did, or all if no summary arrived. */
  function CountsAsPassed(o: Outcomes, registered: seq<Registered>, execute: Executor): RunFeature -> bool {
    f => o.summary.None? || EndsPassed(registered, execute, f)
  }

  lemma EffectiveReflects(o: Outcomes, variantName: string, features: seq<RunFeature>, registered: seq<Registered>,
                          execute: Executor)
    requires o.harnessSucceeds && InProcess(o, features, registered, execute)
    requires variantName != "" ==> |features| <= 1
    ensures Reflects(EffectiveSummary(o, variantName, features), features, CountsAsPassed(o, registered, execute))
  {
    hide Arrives, Written;
    if o.summary.Some? {
      var written := Written(registered, execute, features, 0).0;
      ArrivesExactly(written, o.summary.value);
      HarnessEndsWell(registered, execute, features);
      if variantName != "" && |features| == 1 {
        BareOrQualified(written, written, features[0]);
        assert features == [features[0]];
      }
    }
  }

  /** What the features that count promise. */
  function PromisedBy(features: seq<RunFeature>, passed: RunFeature -> bool, authed: bool): int {
    if features == [] then 0
    else (if passed(features[0]) then CountOf(features[0], authed) else 0) + PromisedBy(features[1..], passed, authed)
  }

  lemma ReflectsPassed(summary: seq<SummaryEntry>, features: seq<RunFeature>, passed: RunFeature -> bool, i: nat)
    requires Reflects(summary, features, passed) && DistinctNames(features) && i < |features|
    ensures HasPassed(features[i], summary) <==> passed(features[i])
    ensures Find(summary, features[i].SummaryName()) == Some(summary[i])
  {
    hide RunFeature.SummaryName, Find;
    assert summary[i].name == features[i].SummaryName();
    FindsOwn(summary, i);
    if j :| 0 <= j < |summary| && summary[j].name == features[i].SummaryName() && summary[j].outcome == PASSED {
      assert j == i;
    }
  }

  lemma {:induction false} FindsOwn(summary: seq<SummaryEntry>, i: nat)
    requires i < |summary| && forall j :: 0 <= j < i ==> summary[j].name != summary[i].name
    ensures Find(summary, summary[i].name) == Some(summary[i])
  {
    if i > 0 {
      FindsOwn(summary[1..], i - 1);
    }
  }

  lemma {:induction false} PromisesAgree(features: seq<RunFeature>, summary: seq<SummaryEntry>,
                                         passed: RunFeature -> bool, authed: bool)
    requires forall f :: f in features ==> (HasPassed(f, summary) <==> passed(f))
    ensures PromisedByPassed(features, summary, authed) == PromisedBy(features, passed, authed)
  {
    if features != [] {
      PromisesAgree(features[1..], summary, passed, authed);
    }
  }

  /** On a summary that reflects the features the proxy verdict is about what they promise. */
  lemma VerdictOnReflected(summary: seq<SummaryEntry>, features: seq<RunFeature>, passed: RunFeature -> bool,
                           unauthed: nat, authed: nat)
    requires Reflects(summary, features, passed) && DistinctNames(features)
    ensures Accepts(summary, features, unauthed, authed) <==>
      && unauthed == ToUint32(PromisedBy(features, passed, false))
      && authed == ToUint32(PromisedBy(features, passed, true))
  {
    hide ToUint32, Expected, HasPassed;
    assert !AnyFailed(summary);
    assert DistinctEntries(summary) by {
      hide Find;
      assert forall i :: 0 <= i < |summary| ==> summary[i].name == features[i].SummaryName();
    }
    forall f | f in features
      ensures HasPassed(f, summary) <==> passed(f)
    {
      var i :| 0 <= i < |features| && features[i] == f;
      ReflectsPassed(summary, features, passed, i);
    }
    forall a: bool
      ensures Expected(summary, features, a) == PromisedBy(features, passed, a)
    {
      ExpectedOfPassed(summary, features, a);
      PromisesAgree(features, summary, passed, a);
    }
  }

  lemma {:induction false} NoneFails(features: seq<RunFeature>, handles: RunFeature -> bool)
    requires CountFailing(features, handles) == 0
    ensures forall f :: f in features ==> handles(f)
  {
    if features != [] {
      var n := |features| - 1;
      NoneFails(features[..n], handles);
      assert features == features[..n] + [features[n]];
    }
  }

  /** And the histories handled are those of the features that count and have workflows. */
  lemma HistoriesOnReflected(summary: seq<SummaryEntry>, features: seq<RunFeature>, passed: RunFeature -> bool,
                             f: RunFeature)
    requires Reflects(summary, features, passed) && DistinctNames(features) && f in features
    ensures f in Handled(features, summary) <==> !f.config.noWorkflow && passed(f)
  {
    var i :| 0 <= i < |features| && features[i] == f;
    ReflectsPassed(summary, features, passed, i);
    hide Reflects, Find;
    assert PASSED != SKIPPED;
    assert summary[i].outcome == if passed(f) then PASSED else SKIPPED by {
      OutcomeIs(summary, features, passed, i);
    }
  }

  lemma OutcomeIs(summary: seq<SummaryEntry>, features: seq<RunFeature>, passed: RunFeature -> bool, i: nat)
    requires Reflects(summary, features, passed) && i < |features|
    ensures |summary| == |features| && summary[i].outcome == if passed(features[i]) then PASSED else SKIPPED
  {
  }

  /** A batch of an in-process Go run that succeeds: every feature was found and passed or skipped; if a
      proxy was asked for, the tunnels it counted are, modulo 2^32, those promised by the features that
      passed; and the history of each of these that has workflows agrees with what is stored. Without a
      summary all features are taken to have passed in the last two. */
  lemma GreenBatch<H(!new)>(d: Demand, o: Outcomes, features: seq<RunFeature>, registered: seq<Registered>,
                            execute: Executor, acts: seq<ConnectProxy.Action>, between: seq<ConnectProxy.Action>,
                            rules: HistoryRuns.Rules<H>, runs: RunFeature -> HistoryRuns.Run<H>,
                            stored: RunFeature -> map<string, H>)
    requires Passes(d, o, features) && InProcess(o, features, registered, execute)
    requires DistinctNames(features) && (d.variantName != "" ==> |features| <= 1)
    requires ConnectProxy.Possible(ConnectProxy.INITIAL, acts)
    requires ConnectProxy.Possible(ConnectProxy.After(ConnectProxy.INITIAL, acts), between)
    requires o.unauthed == ConnectProxy.After(ConnectProxy.INITIAL, acts).unauthed
    requires o.authed == ConnectProxy.After(ConnectProxy.After(ConnectProxy.INITIAL, acts), between).authed
    requires forall f :: o.handles(f) ==> HistoryRuns.Satisfied(rules, runs(f), stored(f))
    ensures forall f :: f in features ==> EndsWell(registered, execute, f)
    ensures var passed := CountsAsPassed(o, registered, execute);
      var first := ConnectProxy.After(ConnectProxy.INITIAL, acts);
      var second := ConnectProxy.After(first, between);
      && (d.expectsProxy ==>
            && ToUint32(|ConnectProxy.Tunnels(first.handlers, false)|) == ToUint32(PromisedBy(features, passed, false))
            && ToUint32(|ConnectProxy.Tunnels(second.handlers, true)|) == ToUint32(PromisedBy(features, passed, true)))
      && (forall f :: f in features && !f.config.noWorkflow && passed(f) ==>
            HistoryRuns.Satisfied(rules, runs(f), stored(f)))
  {
    hide Written, Arrives, ToUint32, ConnectProxy.Tunnels, HistoryRuns.Satisfied, EffectiveSummary, Accepts, Handled;
    hide Reflects, DistinctNames, PromisedBy, ConnectProxy.AuthOk, ConnectProxy.CheckedOk;
    hide ConnectProxy.Possible, ConnectProxy.After;
    HarnessEndsWell(registered, execute, features);
    var passed := CountsAsPassed(o, registered, execute);
    var summary := EffectiveSummary(o, d.variantName, features);
    EffectiveReflects(o, d.variantName, features, registered, execute);
    VerdictOnReflected(summary, features, passed, o.unauthed, o.authed);
    ConnectProxy.InitialInv();
    ConnectProxy.RunKeepsInv(ConnectProxy.INITIAL, acts);
    ConnectProxy.RunKeepsInv(ConnectProxy.After(ConnectProxy.INITIAL, acts), between);
    NoneFails(Handled(features, summary), o.handles);
    forall f | f in features && !f.config.noWorkflow && passed(f)
      ensures HistoryRuns.Satisfied(rules, runs(f), stored(f))
    {
      HistoriesOnReflected(summary, features, passed, f);
    }
  }

  lemma FewerAreLeft(o: Outcomes, view: seq<RunFeature>)
    ensures |FeaturesToRun(o, view)| <= |view|
  {
  }

  /** What `GreenBatch` asks of the features holds in every batch of validated configs. */
  lemma BatchesAreFit(features: seq<Feature>, batches: seq<Batch>, i: nat, o: Outcomes)
    requires AreBatchesOf(batches, features) && WellConfigured(features) && i < |batches|
    ensures DistinctNames(FeaturesToRun(o, batches[i].features))
    ensures batches[i].variantName != "" ==> |FeaturesToRun(o, batches[i].features)| <= 1
  {
    hide FeaturesToRun, WellConfigured, PlainFeatures;
    FewerAreLeft(o, batches[i].features);
    var pairs := VariantWork(features);
    if PlainFeatures(features) == [] {
      assert batches[0..][i] == batches[i] && IsVariantBatch(batches[i], pairs[i].0, pairs[i].1);
    } else if i > 0 {
      assert batches[1..][i - 1] == batches[i] && IsVariantBatch(batches[i], pairs[i - 1].0, pairs[i - 1].1);
    }
    hide AreBatchesOf, IsVariantBatch;
    SummaryNamesAreDistinct(batches, features);
    NamesOfBatch(batches, batches[i]);
    NamesLeft(o, batches[i].features);
  }

  // ----- A run -----

  lemma {:induction false} LeftInBatch(outcomes: seq<Outcomes>, views: seq<seq<RunFeature>>, f: RunFeature)
    returns (i: nat)
    requires |outcomes| == |views| && f in Left(outcomes, views)
    ensures i < |views| && f in FeaturesToRun(outcomes[i], views[i])
  {
    if f in FeaturesToRun(outcomes[0], views[0]) {
      i := 0;
    } else {
      i := LeftInBatch(outcomes[1..], views[1..], f);
      i := i + 1;
    }
  }

  /** A run of in-process batches that all succeed: every unit of work, but for the Nexus features of
      batches that may not have endpoints, was executed by a harness and passed or skipped. `executes`
      tells how features execute in each batch. */
  lemma GreenRun(features: seq<Feature>, batches: seq<Batch>, base: Config, env: Option<string>,
                 json: map<string, bool> -> string, outcomes: seq<Outcomes>, registered: seq<Registered>,
                 executes: nat -> Executor)
    requires AreBatchesOf(batches, features) && |outcomes| == |batches|
    requires forall i :: 0 <= i < |batches| ==>
      Succeeds(base, DemandsOf(batches, json)[i], outcomes[i], batches[i].features)
    requires forall i :: 0 <= i < |batches| ==>
      InProcess(outcomes[i], FeaturesToRun(outcomes[i], batches[i].features), registered, executes(i))
    ensures var views := FeaturesOf(batches);
      var ran := Ran(RunEvents(base, env, DemandsOf(batches, json), outcomes, views));
      && |Refusals(outcomes, views)| == |AllWork(features)|
      && ExecuteAll(ran, Surviving(AllWork(features), Refusals(outcomes, views)))
      && forall f :: f in ran ==>
           exists i :: 0 <= i < |batches| && f in FeaturesToRun(outcomes[i], views[i])
                       && EndsWell(registered, executes(i), f)
  {
    hide InProcess, Succeeds, AreBatchesOf, FeaturesToRun, ExecuteAll, Surviving, Refusals, AllWork, EndsWell;
    hide RunEvents, Ran, Left;
    EveryWorkIsRun(features, batches, base, env, json, outcomes);
    var views := FeaturesOf(batches);
    RanOfRun(base, env, DemandsOf(batches, json), outcomes, views);
    forall f | f in Left(outcomes, views)
      ensures exists i :: 0 <= i < |batches| && f in FeaturesToRun(outcomes[i], views[i])
                          && EndsWell(registered, executes(i), f)
    {
      var i := LeftInBatch(outcomes, views, f);
      BatchEndsWell(base, DemandsOf(batches, json)[i], outcomes[i], views[i], registered, executes(i));
    }
  }

  lemma BatchEndsWell(base: Config, d: Demand, o: Outcomes, view: seq<RunFeature>, registered: seq<Registered>,
                      execute: Executor)
    requires Succeeds(base, d, o, view) && InProcess(o, FeaturesToRun(o, view), registered, execute)
    ensures forall f :: f in FeaturesToRun(o, view) ==> EndsWell(registered, execute, f)
  {
    hide Written, Arrives, FeaturesToRun, ServerWorks, NexusWorks, ProxyMatches, HistoriesPass;
    if FeaturesToRun(o, view) != [] {
      HarnessEndsWell(registered, execute, FeaturesToRun(o, view));
    }
  }
}
