/** Expansion of features into run batches, and the summary names of what they run. */
module Batches {
  import opened Seqs
  import opened Runs

  /** A feature found on disk. */
  datatype Feature = Feature(dir: string, config: FeatureConfig)

  datatype Batch = Batch(
    features: seq<RunFeature>,
    variantName: string,
    dynamicConfig: map<string, string>,
    capabilities: map<string, bool>,
    expectsProxy: bool)

  predicate WantsProxy(config: FeatureConfig) {
    config.unauthedProxyCount > 0 || config.authedProxyCount > 0
  }

  /** One unit of work: a feature without variants, or a feature at one of its variants. */
  datatype Work = Work(feature: Feature, variant: Option<Variant>)

  predicate Plain(f: Feature) {
    f.config.runVariants == []
  }

  function PlainFeatures(features: seq<Feature>): seq<Feature> {
    Filter(features, f => Plain(f))
  }

  /** The (feature, variant) pairs in order. */
  function VariantWork(features: seq<Feature>): seq<(Feature, Variant)> {
    if features == [] then []
    else
      var last := features[|features| - 1];
      VariantWork(features[..|features| - 1]) + Map(last.config.runVariants, v => (last, v))
  }

  function PlainWork(plain: seq<Feature>): seq<Work> {
    Map(plain, f => Work(f, None))
  }

  function PairWork(pairs: seq<(Feature, Variant)>): seq<Work> {
    Map(pairs, (p: (Feature, Variant)) => Work(p.0, Some(p.1)))
  }

  /** All work: first what has no variants, then pair by pair. */
  function AllWork(features: seq<Feature>): seq<Work> {
    PlainWork(PlainFeatures(features)) + PairWork(VariantWork(features))
  }

  /** Whether a run feature does a unit of work. */
  predicate Does(run: RunFeature, w: Work) {
    && run.dir == w.feature.dir && run.config == w.feature.config && run.nexusEndpoint == ""
    && run.variantName == (if w.variant.Some? then w.variant.value.name else "")
  }

  predicate IsVariantBatch(b: Batch, f: Feature, v: Variant) {
    && |b.features| == 1 && Does(b.features[0], Work(f, Some(v)))
    && b.variantName == v.name && b.dynamicConfig == v.dynamicConfig && b.capabilities == v.capabilities
    && b.expectsProxy == WantsProxy(f.config)
  }

  /** The leading batch of everything without variants. */
  ghost predicate IsDefaultBatch(b: Batch, plain: seq<Feature>) {
    && |b.features| == |plain| && (forall i :: 0 <= i < |plain| ==> Does(b.features[i], Work(plain[i], None)))
    && b.variantName == "" && b.dynamicConfig == map[] && b.capabilities == map[]
    && (b.expectsProxy <==> exists i :: 0 <= i < |plain| && WantsProxy(plain[i].config))
  }

  ghost predicate AreVariantBatches(batches: seq<Batch>, pairs: seq<(Feature, Variant)>) {
    |batches| == |pairs|
    && forall i :: 0 <= i < |pairs| ==> IsVariantBatch(batches[i], pairs[i].0, pairs[i].1)
  }

  ghost predicate AreBatchesOf(batches: seq<Batch>, features: seq<Feature>) {
    var plain := PlainFeatures(features);
    var pairs := VariantWork(features);
    var k := if plain == [] then 0 else 1;
    && |batches| == k + |pairs|
    && (plain != [] ==> IsDefaultBatch(batches[0], plain))
    && AreVariantBatches(batches[k..], pairs)
  }

  function TaskQueue(dir: string, variant: string, uuid: string): string {
    if variant == "" then "features-" + dir + "-" + uuid
    else "features-" + dir + "-" + variant + "-" + uuid
  }

  function PlainRun(f: Feature, uuid: string): RunFeature {
    RunFeature(f.dir, TaskQueue(f.dir, "", uuid), "", f.config, "")
  }

  function VariantBatch(f: Feature, v: Variant, uuid: string): Batch {
    Batch([RunFeature(f.dir, TaskQueue(f.dir, v.name, uuid), "", f.config, v.name)],
          v.name, v.dynamicConfig, v.capabilities, WantsProxy(f.config))
  }

  function DefaultBatch(defaults: seq<RunFeature>, expectsProxy: bool): Batch {
    Batch(defaults, "", map[], map[], expectsProxy)
  }

  /** Everything the batches run, in order. */
  function AllRuns(batches: seq<Batch>): seq<RunFeature> {
    if batches == [] then [] else batches[0].features + AllRuns(batches[1..])
  }

  /** `ids[i]` is the identifier in the task queue of the i-th run. */
  ghost predicate HaveQueues(runs: seq<RunFeature>, uuid: nat -> string, ids: seq<nat>) {
    && |ids| == |runs|
    && forall i :: 0 <= i < |runs| ==> runs[i].taskQueue == TaskQueue(runs[i].dir, runs[i].variantName, uuid(ids[i]))
  }

  /** Every identifier up to a number is drawn once. */
  ghost predicate AreDraws(ids: seq<nat>) {
    NoDuplicates(ids) && forall i :: 0 <= i < |ids| ==> ids[i] < |ids|
  }

  ghost predicate UsedIds(a: seq<nat>, b: seq<nat>, next: nat) {
    && NoDuplicates(a) && NoDuplicates(b) && |a| + |b| == next
    && (forall i :: 0 <= i < |a| ==> a[i] < next && a[i] !in b)
    && (forall i :: 0 <= i < |b| ==> b[i] < next)
  }

  /** makeRunBatches; `uuid` is the supply of fresh identifiers. */
  method MakeRunBatches(features: seq<Feature>, uuid: nat -> string) returns (batches: seq<Batch>, ghost ids: seq<nat>)
    ensures AreBatchesOf(batches, features)
    ensures HaveQueues(AllRuns(batches), uuid, ids) && AreDraws(ids)
  {
    hide IsVariantBatch, IsDefaultBatch, PlainFeatures, TaskQueue, HaveQueues, UsedIds, AllRuns;
    hide AreVariantBatches, AreDraws, WantsProxy;
    NoVariantBatches();
    ghost var ids0: seq<nat>, ids1: seq<nat> := [], [];
    var defaults: seq<RunFeature> := [];
    var expectsProxy := false;
    batches := [];
    var next: nat := 0;
    NoDefaults();
    NoQueues(uuid);
    NoRuns();
    for i := 0 to |features|
      invariant IsDefaultBatch(DefaultBatch(defaults, expectsProxy), PlainFeatures(features[..i]))
      invariant AreVariantBatches(batches, VariantWork(features[..i]))
      invariant HaveQueues(defaults, uuid, ids0) && HaveQueues(AllRuns(batches), uuid, ids1)
      invariant UsedIds(ids0, ids1, next)
    {
      var feature := features[i];
      var variants := feature.config.runVariants;
      PlainAppend(features[..i], feature);
      assert features[..i + 1] == features[..i] + [feature] && features[..i + 1][..i] == features[..i];
      if |variants| == 0 {
        assert VariantWork(features[..i + 1]) == VariantWork(features[..i]);
        DefaultGrows(defaults, expectsProxy, PlainFeatures(features[..i]), feature, uuid(next));
        UseId(ids0, ids1, next);
        QueueAppend(defaults, PlainRun(feature, uuid(next)), uuid, ids0, next);
        ids0 := ids0 + [next];
        defaults, next := defaults + [PlainRun(feature, uuid(next))], next + 1;
        if WantsProxy(feature.config) {
          expectsProxy := true;
        }
        continue;
      }
      ghost var pairs := VariantWork(features[..i]);
      ghost var added := Map(variants, v => (feature, v));
      assert pairs + added[..0] == pairs;
      for j := 0 to |variants|
        invariant AreVariantBatches(batches, pairs + added[..j])
        invariant HaveQueues(AllRuns(batches), uuid, ids1) && UsedIds(ids0, ids1, next)
      {
        VariantBatchIs(feature, variants[j], uuid(next));
        ghost var batch := VariantBatch(feature, variants[j], uuid(next));
        VariantBatchAppend(batches, pairs + added[..j], batch, feature, variants[j]);
        assert pairs + added[..j + 1] == pairs + added[..j] + [(feature, variants[j])];
        AllRunsAppend(batches, batch);
        UseId(ids0, ids1, next);
        QueueAppend(AllRuns(batches), batch.features[0], uuid, ids1, next);
        ids1 := ids1 + [next];
        batches, next := batches + [VariantBatch(feature, variants[j], uuid(next))], next + 1;
      }
      assert added[..|variants|] == added;
    }
    assert features[..|features|] == features;
    BatchesAre(DefaultBatch(defaults, expectsProxy), batches, features);
    ids := ids0 + ids1;
    QueuesConcat(defaults, ids0, AllRuns(batches), ids1, uuid, next);
    if |defaults| > 0 {
      AllRunsPrepend(DefaultBatch(defaults, expectsProxy), batches);
      batches := [DefaultBatch(defaults, expectsProxy)] + batches;
    }
  }

  lemma NoQueues(uuid: nat -> string)
    ensures HaveQueues([], uuid, []) && UsedIds([], [], 0)
  {
  }

  /** The next identifier may go to either list. */
  lemma UseId(a: seq<nat>, b: seq<nat>, next: nat)
    requires UsedIds(a, b, next)
    ensures UsedIds(a + [next], b, next + 1) && UsedIds(a, b + [next], next + 1)
  {
    assert next !in b;
  }

  lemma QueueAppend(runs: seq<RunFeature>, f: RunFeature, uuid: nat -> string, ids: seq<nat>, next: nat)
    requires HaveQueues(runs, uuid, ids) && f.taskQueue == TaskQueue(f.dir, f.variantName, uuid(next))
    ensures HaveQueues(runs + [f], uuid, ids + [next])
  {
    hide TaskQueue;
  }

  lemma QueuesConcat(a: seq<RunFeature>, ids0: seq<nat>, b: seq<RunFeature>, ids1: seq<nat>, uuid: nat -> string,
                     next: nat)
    requires HaveQueues(a, uuid, ids0) && HaveQueues(b, uuid, ids1) && UsedIds(ids0, ids1, next)
    ensures HaveQueues(a + b, uuid, ids0 + ids1) && AreDraws(ids0 + ids1)
    ensures |a| == 0 ==> a + b == b
  {
    hide TaskQueue;
  }

  lemma NoRuns()
    ensures AllRuns([]) == []
  {
  }

  lemma AllRunsPrepend(b: Batch, batches: seq<Batch>)
    ensures AllRuns([b] + batches) == b.features + AllRuns(batches)
  {
    assert ([b] + batches)[1..] == batches;
  }

  lemma {:induction false} AllRunsAppend(batches: seq<Batch>, b: Batch)
    ensures AllRuns(batches + [b]) == AllRuns(batches) + b.features
  {
    if batches != [] {
      AllRunsAppend(batches[1..], b);
      assert (batches + [b])[1..] == batches[1..] + [b];
    }
  }

  lemma NoDefaults()
    ensures IsDefaultBatch(DefaultBatch([], false), PlainFeatures([]))
  {
  }

  lemma BatchesAre(b: Batch, batches: seq<Batch>, features: seq<Feature>)
    requires IsDefaultBatch(b, PlainFeatures(features)) && AreVariantBatches(batches, VariantWork(features))
    ensures AreBatchesOf(if |b.features| > 0 then [b] + batches else batches, features)
  {
    hide AreVariantBatches, PlainFeatures, VariantWork;
    SameLength(batches, VariantWork(features));
    assert ([b] + batches)[1..] == batches && batches[0..] == batches;
  }

  lemma SameLength(batches: seq<Batch>, pairs: seq<(Feature, Variant)>)
    requires AreVariantBatches(batches, pairs)
    ensures |batches| == |pairs|
  {
  }

  lemma VariantBatchIs(f: Feature, v: Variant, uuid: string)
    ensures IsVariantBatch(VariantBatch(f, v, uuid), f, v)
  {
  }

  lemma NoVariantBatches()
    ensures AreVariantBatches([], [])
  {
  }

  lemma VariantBatchAppend(batches: seq<Batch>, pairs: seq<(Feature, Variant)>, b: Batch, f: Feature, v: Variant)
    requires AreVariantBatches(batches, pairs) && IsVariantBatch(b, f, v)
    ensures AreVariantBatches(batches + [b], pairs + [(f, v)])
  {
    hide IsVariantBatch;
  }

  lemma DefaultGrows(defaults: seq<RunFeature>, expectsProxy: bool, plain: seq<Feature>, f: Feature, uuid: string)
    requires IsDefaultBatch(DefaultBatch(defaults, expectsProxy), plain)
    ensures IsDefaultBatch(DefaultBatch(defaults + [PlainRun(f, uuid)], expectsProxy || WantsProxy(f.config)),
                           plain + [f])
  {
    var more := plain + [f];
    assert forall i :: 0 <= i < |plain| ==> more[i] == plain[i];
    assert more[|plain|] == f;
  }

  lemma PlainAppend(features: seq<Feature>, f: Feature)
    ensures PlainFeatures(features + [f]) == if Plain(f) then PlainFeatures(features) + [f] else PlainFeatures(features)
  {
    FilterConcat(features, [f], f => Plain(f));
    assert Filter([f], f => Plain(f)) == if Plain(f) then [f] else [];
    assert PlainFeatures(features) + [] == PlainFeatures(features);
  }

  // ----- Conservation -----

  ghost predicate DoAll(runs: seq<RunFeature>, work: seq<Work>) {
    |runs| == |work| && forall i :: 0 <= i < |runs| ==> Does(runs[i], work[i])
  }

  lemma DoBoth(a: seq<RunFeature>, wa: seq<Work>, b: seq<RunFeature>, wb: seq<Work>)
    requires DoAll(a, wa) && DoAll(b, wb)
    ensures DoAll(a + b, wa + wb)
  {
  }

  lemma VariantRun(b: Batch, f: Feature, v: Variant)
    requires IsVariantBatch(b, f, v)
    ensures DoAll(b.features, [Work(f, Some(v))]) && b.features != []
  {
  }

  lemma {:induction false} VariantRuns(batches: seq<Batch>, pairs: seq<(Feature, Variant)>)
    requires AreVariantBatches(batches, pairs)
    ensures DoAll(AllRuns(batches), PairWork(pairs))
    ensures forall i :: 0 <= i < |batches| ==> batches[i].features != []
  {
    hide IsVariantBatch, Does;
    if batches != [] {
      VariantRuns(batches[1..], pairs[1..]);
      var first := [Work(pairs[0].0, Some(pairs[0].1))];
      VariantRun(batches[0], pairs[0].0, pairs[0].1);
      DoBoth(batches[0].features, first, AllRuns(batches[1..]), PairWork(pairs[1..]));
      assert PairWork(pairs) == first + PairWork(pairs[1..]);
    }
  }

  /** No work is lost, invented, repeated or reordered, and no batch is empty. */
  lemma WorkIsConserved(batches: seq<Batch>, features: seq<Feature>)
    requires AreBatchesOf(batches, features)
    ensures DoAll(AllRuns(batches), AllWork(features))
    ensures forall i :: 0 <= i < |batches| ==> batches[i].features != []
  {
    hide PlainFeatures, VariantWork, Does, IsVariantBatch;
    var plain := PlainFeatures(features);
    var pairs := VariantWork(features);
    if plain == [] {
      VariantRuns(batches[0..], pairs);
      assert batches[0..] == batches && AllWork(features) == PairWork(pairs);
    } else {
      VariantRuns(batches[1..], pairs);
      DoBoth(batches[0].features, PlainWork(plain), AllRuns(batches[1..]), PairWork(pairs));
      assert forall i :: 1 <= i < |batches| ==> batches[i] == batches[1..][i - 1];
    }
  }

  /** The work is exactly that: each feature without variants, and each feature at each of its variants;
      a feature listed later adds its work behind that of the ones before. */
  lemma {:induction false} WorkIs(features: seq<Feature>, f: Feature, v: Variant)
    ensures Work(f, None) in AllWork(features) <==> f in features && f.config.runVariants == []
    ensures Work(f, Some(v)) in AllWork(features) <==> f in features && v in f.config.runVariants
  {
    PairsAre(features, f, v);
    hide PlainFeatures, VariantWork;
    var (plain, pairs) := (PlainFeatures(features), VariantWork(features));
    assert Work(f, None) in PlainWork(plain) <==> f in plain by {
      assert forall i :: 0 <= i < |plain| ==> PlainWork(plain)[i] == Work(plain[i], None);
    }
    assert Work(f, Some(v)) in PairWork(pairs) <==> (f, v) in pairs by {
      assert forall i :: 0 <= i < |pairs| ==> PairWork(pairs)[i] == Work(pairs[i].0, Some(pairs[i].1));
    }
    PlainAre(features, f);
  }

  lemma PlainAre(features: seq<Feature>, f: Feature)
    ensures f in PlainFeatures(features) <==> f in features && f.config.runVariants == []
  {
  }

  lemma {:induction false} PairsAre(features: seq<Feature>, f: Feature, v: Variant)
    ensures (f, v) in VariantWork(features) <==> f in features && v in f.config.runVariants
  {
    if features != [] {
      var n := |features| - 1;
      var last := features[n];
      PairsAre(features[..n], f, v);
      assert features == features[..n] + [last];
      var added := Map(last.config.runVariants, w => (last, w));
      assert (f, v) in added <==> f == last && v in last.config.runVariants by {
        assert forall i :: 0 <= i < |added| ==> added[i] == (last, last.config.runVariants[i]);
      }
    }
  }

  /** The order of the work is that of the features, and of the variants of one feature. */
  lemma WorkConcat(a: seq<Feature>, b: seq<Feature>)
    ensures PlainFeatures(a + b) == PlainFeatures(a) + PlainFeatures(b)
    ensures VariantWork(a + b) == VariantWork(a) + VariantWork(b)
  {
    FilterConcat(a, b, f => Plain(f));
    PairsConcat(a, b);
  }

  lemma {:induction false} PairsConcat(a: seq<Feature>, b: seq<Feature>)
    ensures VariantWork(a + b) == VariantWork(a) + VariantWork(b)
  {
    if b == [] {
      assert a + b == a && VariantWork(a) + [] == VariantWork(a);
    } else {
      var n := |b| - 1;
      PairsConcat(a, b[..n]);
      assert (a + b)[..|a + b| - 1] == a + b[..n] && (a + b)[|a + b| - 1] == b[n];
      Regroup(VariantWork(a), VariantWork(b[..n]), Map(b[n].config.runVariants, v => (b[n], v)));
    }
  }

  lemma WorkOfOne(f: Feature)
    ensures PlainFeatures([f]) == if f.config.runVariants == [] then [f] else []
    ensures |VariantWork([f])| == |f.config.runVariants|
    ensures forall i :: 0 <= i < |f.config.runVariants| ==> VariantWork([f])[i] == (f, f.config.runVariants[i])
  {
    assert [f][..0] == [] && VariantWork([]) == [];
  }

  /** What a run that does some work carries. */
  lemma RunsCarry(runs: seq<RunFeature>, work: seq<Work>, i: nat)
    requires DoAll(runs, work) && i < |runs|
    ensures |work| == |runs|
    ensures runs[i].dir == work[i].feature.dir && runs[i].config == work[i].feature.config
    ensures runs[i].nexusEndpoint == ""
    ensures runs[i].variantName == if work[i].variant.Some? then work[i].variant.value.name else ""
  {
  }

  /** The settings of the batches, and which of them expect a proxy: those one of whose features
      promises a positive number of connections of either kind. */
  lemma BatchesHave(batches: seq<Batch>, features: seq<Feature>, i: nat)
    requires AreBatchesOf(batches, features) && i < |batches|
    ensures var pairs := VariantWork(features);
      var k := |batches| - |pairs|;
      if i < k then
        batches[i].variantName == "" && batches[i].dynamicConfig == map[] && batches[i].capabilities == map[]
      else
        var (f, v) := pairs[i - k];
        && batches[i].variantName == v.name && batches[i].dynamicConfig == v.dynamicConfig
        && batches[i].capabilities == v.capabilities
        && |batches[i].features| == 1 && batches[i].features[0].dir == f.dir
        && batches[i].features[0].variantName == v.name && batches[i].features[0].config == f.config
    ensures batches[i].expectsProxy <==>
      exists f :: f in batches[i].features && (f.config.unauthedProxyCount > 0 || f.config.authedProxyCount > 0)
  {
    hide PlainFeatures, VariantWork;
    var (plain, pairs, b) := (PlainFeatures(features), VariantWork(features), batches[i]);
    var k := |batches| - |pairs|;
    if i < k {
      assert IsDefaultBatch(b, plain);
      assert forall j :: 0 <= j < |plain| ==> b.features[j].config == plain[j].config;
      if j :| 0 <= j < |plain| && WantsProxy(plain[j].config) {
        assert b.features[j] in b.features;
      }
    } else {
      assert batches[k..][i - k] == b && IsVariantBatch(b, pairs[i - k].0, pairs[i - k].1);
      assert b.features[0] in b.features;
    }
  }

  // ----- Summary names -----

  /** Feature directories are distinct and free of '#', and every config is validated. */
  ghost predicate WellConfigured(features: seq<Feature>) {
    && (forall i :: 0 <= i < |features| ==> '#' !in features[i].dir && ValidVariants(features[i].config.runVariants))
    && (forall i, j :: 0 <= i < j < |features| ==> features[i].dir != features[j].dir)
  }

  ghost predicate DistinctPairs(pairs: seq<(Feature, Variant)>) {
    forall i, j :: 0 <= i < j < |pairs| ==> pairs[i].0.dir != pairs[j].0.dir || pairs[i].1.name != pairs[j].1.name
  }

  ghost predicate FromFeatures(pairs: seq<(Feature, Variant)>, features: seq<Feature>) {
    forall i :: 0 <= i < |pairs| ==> pairs[i].0 in features && pairs[i].1 in pairs[i].0.config.runVariants
  }

  lemma {:induction false} PairsAreDistinct(features: seq<Feature>)
    requires WellConfigured(features)
    ensures DistinctPairs(VariantWork(features)) && FromFeatures(VariantWork(features), features)
  {
    if features != [] {
      var n := |features| - 1;
      var last := features[n];
      PairsAreDistinct(features[..n]);
      var (before, added) := (VariantWork(features[..n]), Map(last.config.runVariants, v => (last, v)));
      assert last in features;
      forall i | 0 <= i < |before|
        ensures before[i].0 in features && before[i].0.dir != last.dir
      {
        assert before[i].0 in features[..n];
      }
      assert ValidVariants(last.config.runVariants);
    }
  }

  lemma {:induction false} PlainAreDistinct(features: seq<Feature>)
    requires WellConfigured(features)
    ensures var plain := PlainFeatures(features);
      forall i, j :: 0 <= i < j < |plain| ==> plain[i].dir != plain[j].dir
  {
    if features != [] {
      var n := |features| - 1;
      PlainAreDistinct(features[..n]);
      PlainAppend(features[..n], features[n]);
      assert features[..n] + [features[n]] == features;
      var plain := PlainFeatures(features[..n]);
      forall i | 0 <= i < |plain|
        ensures plain[i].dir != features[n].dir
      {
        assert plain[i] in features[..n];
      }
    }
  }

  lemma DistinctWork(features: seq<Feature>, runs: seq<RunFeature>, i: nat, j: nat)
    requires WellConfigured(features) && DoAll(runs, AllWork(features)) && i < j < |runs|
    ensures '#' !in runs[i].dir && '#' !in runs[j].dir
    ensures runs[i].dir != runs[j].dir || runs[i].variantName != runs[j].variantName
  {
    PairsAreDistinct(features);
    PlainAreDistinct(features);
    var (plain, pairs) := (PlainFeatures(features), VariantWork(features));
    forall k | 0 <= k < |pairs|
      ensures '#' !in pairs[k].0.dir && pairs[k].1.name != ""
    {
      assert pairs[k].0 in features && pairs[k].1 in pairs[k].0.config.runVariants;
    }
    forall k | 0 <= k < |plain|
      ensures '#' !in plain[k].dir
    {
      assert plain[k] in plain;
    }
  }

  /** No two features of a whole run share a summary name. */
  lemma SummaryNamesAreDistinct(batches: seq<Batch>, features: seq<Feature>)
    requires AreBatchesOf(batches, features) && WellConfigured(features)
    ensures NoDuplicates(Map(AllRuns(batches), (f: RunFeature) => f.SummaryName()))
  {
    WorkIsConserved(batches, features);
    var runs := AllRuns(batches);
    forall i, j | 0 <= i < j < |runs|
      ensures runs[i].SummaryName() != runs[j].SummaryName()
    {
      DistinctWork(features, runs, i, j);
      if runs[i].SummaryName() == runs[j].SummaryName() {
        SummaryNameInjective(runs[i], runs[j]);
      }
    }
  }

  // ----- Task queues -----

  /** What a UUID looks like: 36 hexadecimal digits and hyphens. */
  ghost predicate LooksLikeUuid(s: string) {
    |s| == 36 && forall i :: 0 <= i < |s| ==> '0' <= s[i] <= '9' || 'a' <= s[i] <= 'f' || s[i] == '-'
  }

  /** The first `n` identifiers drawn are UUIDs, never the same twice. */
  ghost predicate FreshIds(uuid: nat -> string, n: nat) {
    && (forall i :: 0 <= i < n ==> LooksLikeUuid(uuid(i)))
    && (forall i, j :: 0 <= i < j < n ==> uuid(i) != uuid(j))
  }

  /** Every feature of a whole run has a task queue of its own, variants of one feature included. */
  lemma TaskQueuesAreDistinct(runs: seq<RunFeature>, uuid: nat -> string, ids: seq<nat>)
    requires HaveQueues(runs, uuid, ids) && AreDraws(ids) && FreshIds(uuid, |ids|)
    ensures NoDuplicates(Map(runs, (f: RunFeature) => f.taskQueue))
  {
    forall i, j | 0 <= i < j < |runs|
      ensures runs[i].taskQueue != runs[j].taskQueue
    {
      QueueEndsInId(runs[i].dir, runs[i].variantName, uuid(ids[i]));
      QueueEndsInId(runs[j].dir, runs[j].variantName, uuid(ids[j]));
    }
  }

  lemma QueueEndsInId(dir: string, variant: string, uuid: string)
    ensures HasSuffix(TaskQueue(dir, variant, uuid), uuid)
  {
  }

  lemma QueueColons(dir: string, variant: string, uuid: string)
    requires LooksLikeUuid(uuid)
    ensures ':' in TaskQueue(dir, variant, uuid) <==> ':' in dir || ':' in variant
  {
    var q := TaskQueue(dir, variant, uuid);
    assert forall i :: 0 <= i < |dir| ==> q[9 + i] == dir[i];
    assert variant != "" ==> forall i :: 0 <= i < |variant| ==> q[10 + |dir| + i] == variant[i];
  }

  /** The arguments of a whole run tell the harness directory and queue of exactly those features whose
      directory and variant name are free of colons. Variant names need not be: any non-empty name is
      accepted. */
  lemma ArgumentsCarry(runs: seq<RunFeature>, uuid: nat -> string, ids: seq<nat>, i: nat)
    requires HaveQueues(runs, uuid, ids) && AreDraws(ids) && FreshIds(uuid, |ids|) && i < |runs|
    ensures ParseRunFeature(ToArg(runs[i])) == Ok(Carried(runs[i])) <==>
      ':' !in runs[i].dir && ':' !in runs[i].variantName
  {
    ArgRoundTrip(runs[i]);
    QueueColons(runs[i].dir, runs[i].variantName, uuid(ids[i]));
  }

  /** The run of a variant named `x:y` is told another queue, and the rest of the name as an endpoint. */
  lemma ColonVariantRunsElsewhere(dir: string, x: string, y: string, config: FeatureConfig, uuid: string)
    requires ':' !in dir && ':' !in x
    ensures var name := x + ":" + y;
      ParseRunFeature(ToArg(RunFeature(dir, TaskQueue(dir, name, uuid), "", config, name)))
        == Ok(RunFeature(dir, "features-" + dir + "-" + x, y + "-" + uuid, NO_CONFIG, ""))
  {
    var queue := "features-" + dir + "-" + x;
    var told := RunFeature(dir, queue, y + "-" + uuid, NO_CONFIG, "");
    ColonFreeIsParsed(told);
    hide ParseRunFeature;
    var rest := y + "-" + uuid;
    MoveOut("features-" + dir + "-", x, ":", y, "-", uuid);
    assert TaskQueue(dir, x + ":" + y, uuid) == queue + (":" + rest);
    Regroup(dir + ":", queue, ":" + rest);
    var run := RunFeature(dir, TaskQueue(dir, x + ":" + y, uuid), "", config, x + ":" + y);
    hide TaskQueue;
    assert ToArg(run) == run.dir + ":" + run.taskQueue;
    assert |rest| > 0 && ToArg(told) == dir + ":" + queue + (":" + rest);
  }

  lemma MoveOut(p: string, x: string, c: string, y: string, d: string, u: string)
    ensures p + (x + c + y) + d + u == p + x + c + (y + d + u) == p + x + (c + (y + d + u))
  {
  }

  /** A feature with such a variant is accepted and makes such a run. */
  lemma ColonVariantIsAccepted(dir: string, v: Variant, uuid: nat -> string, batches: seq<Batch>, ids: seq<nat>)
    requires v.name == "a:b" && ':' !in dir
    requires AreBatchesOf(batches, [Feature(dir, NO_CONFIG.(runVariants := [v]))])
    requires HaveQueues(AllRuns(batches), uuid, ids) && AreDraws(ids) && FreshIds(uuid, |ids|)
    ensures ValidVariants([v])
    ensures |AllRuns(batches)| == 1
    ensures var run := AllRuns(batches)[0];
      ParseRunFeature(ToArg(run))
        == Ok(RunFeature(dir, "features-" + dir + "-a", "b-" + uuid(0), NO_CONFIG, ""))
  {
    var f := Feature(dir, NO_CONFIG.(runVariants := [v]));
    WorkIsConserved(batches, [f]);
    hide AreBatchesOf;
    assert VariantWork([f]) == [(f, v)] by {
      assert VariantWork([]) == [];
      assert [f][..0] == [];
    }
    assert PlainFeatures([f]) == [];
    assert AllWork([f]) == [Work(f, Some(v))];
    var run := AllRuns(batches)[0];
    assert ids[0] == 0;
    assert "a:b" == "a" + ":" + "b";
    assert run == RunFeature(dir, TaskQueue(dir, "a:b", uuid(0)), "", f.config, "a:b");
    hide TaskQueue, ParseRunFeature, ToArg;
    assert "features-" + dir + "-" + "a" == "features-" + dir + "-a";
    assert "b" + "-" + uuid(0) == "b-" + uuid(0);
    ColonVariantRunsElsewhere(dir, "a", "b", f.config, uuid(0));
  }
}
