/** The Go harness's run: one summary entry per feature, written as the features are executed. */
module HarnessRun {
  import opened Seqs
  import opened Runs
  import opened BatchVerdict
  import FeatureDirs

  datatype Registered = Registered(dir: string, skipReason: string)

  /** How executing a feature ends. A failed hard assertion panics, and nothing recovers from it. */
  datatype Execution = Passed | Skipped(reason: string) | Failed(message: string) | Panicked

  /** `Crashed` is no error value: the panic goes on through the caller. */
  datatype RunError = NoFeatures | NoSummary | NotFound(dir: string) | FeaturesFailed(count: nat) | Crashed(dir: string)

  function Lookup(registered: seq<Registered>, dir: string): Option<Registered> {
    if registered == [] then None
    else if registered[0].dir == dir then Some(registered[0])
    else Lookup(registered[1..], dir)
  }

  /** The first registered feature with the directory, or none if there is none. */
  lemma {:induction false} LookupIs(registered: seq<Registered>, dir: string)
    ensures Lookup(registered, dir).None? <==> forall r :: r in registered ==> r.dir != dir
    ensures Lookup(registered, dir).Some? ==>
      exists i :: 0 <= i < |registered| && registered[i] == Lookup(registered, dir).value && registered[i].dir == dir
                  && forall j :: 0 <= j < i ==> registered[j].dir != dir
  {
    if registered != [] {
      var rest := registered[1..];
      LookupIs(rest, dir);
      if registered[0].dir != dir && Lookup(rest, dir).Some? {
        var i :| 0 <= i < |rest| && rest[i] == Lookup(rest, dir).value && rest[i].dir == dir
                 && forall j :: 0 <= j < i ==> rest[j].dir != dir;
        assert registered[i + 1] == rest[i];
        assert forall j :: 1 <= j < i + 1 ==> registered[j] == rest[j - 1];
      }
    }
  }

  /** Executing a feature depends on its directory, queue and endpoint only. */
  type Executor = (string, string, string) -> Execution

  /** What becomes of a registered feature. */
  function Executed(r: Registered, execute: Executor, f: RunFeature): Execution {
    if r.skipReason != "" then Skipped(r.skipReason) else execute(f.dir, f.taskQueue, f.nexusEndpoint)
  }

  /** The entry the deferred writer writes: it says passed unless something else was noted before. */
  function Report(name: string, e: Execution): SummaryEntry {
    match e
    case Passed => SummaryEntry(name, PASSED, "")
    case Skipped(reason) => SummaryEntry(name, SKIPPED, reason)
    case Failed(message) => SummaryEntry(name, FAILED, message)
    case Panicked => SummaryEntry(name, PASSED, "")
  }

  /** What a reader takes an entry for. */
  function Told(entry: SummaryEntry): Execution {
    if entry.outcome == PASSED then Passed
    else if entry.outcome == SKIPPED then Skipped(entry.message)
    else Failed(entry.message)
  }

  /** The entries of a run and how it ends, `failures` features having failed before. */
  function Written(registered: seq<Registered>, execute: Executor, features: seq<RunFeature>, failures: nat)
    : (seq<SummaryEntry>, Option<RunError>)
  {
    if features == [] then ([], if failures > 0 then Some(FeaturesFailed(failures)) else None)
    else
      var f := features[0];
      match Lookup(registered, f.dir)
      case None => ([], Some(NotFound(f.dir)))
      case Some(r) =>
        var e := Executed(r, execute, f);
        var entry := Report(f.SummaryName(), e);
        if e.Panicked? then ([entry], Some(Crashed(f.dir)))
        else
          var (more, err) := Written(registered, execute, features[1..], failures + (if e.Failed? then 1 else 0));
          ([entry] + more, err)
  }

  /** Runner.Run: `opens` tells whether the summary can be opened. */
  method Run(features: seq<RunFeature>, registered: seq<Registered>, execute: Executor, opens: bool)
    returns (written: seq<SummaryEntry>, err: Option<RunError>)
    ensures (written, err) == if features == [] then ([], Some(NoFeatures))
                              else if !opens then ([], Some(NoSummary))
                              else Written(registered, execute, features, 0)
  {
    hide Executed, Report, Written;
    NothingLeft(registered, execute);
    written := [];
    if |features| == 0 {
      return written, Some(NoFeatures);
    }
    if !opens {
      return written, Some(NoSummary);
    }
    var failureCount: nat := 0;
    ghost var all := Written(registered, execute, features, 0);
    assert features[0..] == features;
    for i := 0 to |features|
      invariant var rest := Written(registered, execute, features[i..], failureCount);
        all.0 == written + rest.0 && all.1 == rest.1
    {
      var f := features[i];
      NextEntry(registered, execute, features, i, failureCount);
      var k := 0;
      while k < |registered| && registered[k].dir != f.dir
        invariant k <= |registered|
        invariant Lookup(registered, f.dir) == Lookup(registered[k..], f.dir)
      {
        k := k + 1;
      }
      if k == |registered| {
        assert written + [] == written;
        return written, Some(NotFound(f.dir));
      }
      ExecutedIs(registered[k], execute, f);
      ReportIs(f.SummaryName(), Executed(registered[k], execute, f));
      var entry := SummaryEntry(f.SummaryName(), PASSED, "");
      if registered[k].skipReason != "" {
        entry := entry.(outcome := SKIPPED, message := registered[k].skipReason);
      } else {
        match execute(f.dir, f.taskQueue, f.nexusEndpoint) {
          case Passed =>
          case Skipped(reason) => entry := entry.(outcome := SKIPPED, message := reason);
          case Failed(message) =>
            entry := entry.(outcome := FAILED, message := message);
            failureCount := failureCount + 1;
          case Panicked =>
            return written + [entry], Some(Crashed(f.dir));
        }
      }
      written := written + [entry];
    }
    assert features[|features|..] == [] && written + [] == written;
    err := if failureCount > 0 then Some(FeaturesFailed(failureCount)) else None;
  }

  lemma NothingLeft(registered: seq<Registered>, execute: Executor)
    ensures forall failures: nat ::
      Written(registered, execute, [], failures) == ([], if failures > 0 then Some(FeaturesFailed(failures)) else None)
  {
  }

  lemma NextEntry(registered: seq<Registered>, execute: Executor, features: seq<RunFeature>, i: nat, failures: nat)
    requires i < |features|
    ensures var f := features[i];
      var all := Written(registered, execute, features[i..], failures);
      match Lookup(registered, f.dir)
      case None => all == ([], Some(NotFound(f.dir)))
      case Some(r) =>
        var e := Executed(r, execute, f);
        var entry := Report(f.SummaryName(), e);
        if e.Panicked? then all == ([entry], Some(Crashed(f.dir)))
        else
          var rest := Written(registered, execute, features[i + 1..], failures + (if e.Failed? then 1 else 0));
          all.0 == [entry] + rest.0 && all.1 == rest.1
  {
    assert features[i..][1..] == features[i + 1..];
  }

  lemma ReportIs(name: string, e: Execution)
    ensures Report(name, e) == match e
      case Skipped(reason) => SummaryEntry(name, SKIPPED, reason)
      case Failed(message) => SummaryEntry(name, FAILED, message)
      case _ => SummaryEntry(name, PASSED, "")
  {
  }

  lemma ExecutedIs(r: Registered, execute: Executor, f: RunFeature)
    ensures Executed(r, execute, f)
         == if r.skipReason != "" then Skipped(r.skipReason) else execute(f.dir, f.taskQueue, f.nexusEndpoint)
  {
  }

  // ----- What the entries tell -----

  /** An entry tells how its feature ended exactly when that did not panic; otherwise it says passed. */
  lemma ReportTells(name: string, e: Execution)
    ensures Report(name, e).name == name
    ensures Told(Report(name, e)) == if e.Panicked? then Passed else e
  {
  }

  function CountFailed(entries: seq<SummaryEntry>): nat {
    if entries == [] then 0
    else (if Told(entries[0]).Failed? then 1 else 0) + CountFailed(entries[1..])
  }

  /** The entries are those of the features in order, up to the first that is not registered or that
      panicked, and the error tells which, or how many failed. All entries tell how their features
      ended, except that of a feature that panicked. */
  lemma {:induction false} WrittenTells(registered: seq<Registered>, execute: Executor, features: seq<RunFeature>,
                                        failures: nat)
    ensures var (written, err) := Written(registered, execute, features, failures);
      var n := |written|;
      && n <= |features|
      && (forall i :: 0 <= i < n ==>
            && written[i].name == features[i].SummaryName()
            && Lookup(registered, features[i].dir).Some?
            && var e := Executed(Lookup(registered, features[i].dir).value, execute, features[i]);
               && Told(written[i]) == (if e.Panicked? then Passed else e)
               && (e.Panicked? <==> i == n - 1 && err == Some(Crashed(features[i].dir))))
      && (n < |features| && !(err.Some? && err.value.Crashed?) ==>
            Lookup(registered, features[n].dir).None? && err == Some(NotFound(features[n].dir)))
      && (err.Some? && err.value.Crashed? ==> n > 0)
      && (n == |features| && !(err.Some? && err.value.Crashed?) ==>
            err == var count := failures + CountFailed(written);
                   if count > 0 then Some(FeaturesFailed(count)) else None)
  {
    if features != [] && Lookup(registered, features[0].dir).Some? {
      var e := Executed(Lookup(registered, features[0].dir).value, execute, features[0]);
      ReportTells(features[0].SummaryName(), e);
      if !e.Panicked? {
        WrittenTells(registered, execute, features[1..], failures + (if e.Failed? then 1 else 0));
      }
    }
  }

  // ----- Separate processes -----

  /** Run in a separate process, which gets the feature as an argument, it is reported like run in
      this one, after the rewrite of a variant batch. */
  ghost predicate ReportsTheSame(f: RunFeature, registered: seq<Registered>, execute: Executor) {
    && ParseRunFeature(ToArg(f)).Ok?
    && Rewritten(Written(registered, execute, [ParseRunFeature(ToArg(f)).value], 0).0, [f])
       == Rewritten(Written(registered, execute, [f], 0).0, [f])
  }

  lemma WrittenOne(registered: seq<Registered>, execute: Executor, f: RunFeature)
    ensures Written(registered, execute, [f], 0).0 == match Lookup(registered, f.dir)
      case None => []
      case Some(r) => [Report(f.SummaryName(), Executed(r, execute, f))]
  {
  }

  lemma CarriedReportsTheSame(f: RunFeature, registered: seq<Registered>, execute: Executor)
    requires ParseRunFeature(ToArg(f)) == Ok(Carried(f))
    ensures ReportsTheSame(f, registered, execute)
  {
    hide ToArg, ParseRunFeature;
    var separate := Carried(f);
    var (a, b) := (Written(registered, execute, [separate], 0).0, Written(registered, execute, [f], 0).0);
    WrittenOne(registered, execute, separate);
    WrittenOne(registered, execute, f);
    assert separate.SummaryName() == f.dir;
    BareOrQualified(a, b, f);
  }

  /** Executing depends on the queue: one on which the feature passes and any other on which it fails. */
  function OnlyOn(queue: string): Executor {
    (dir, q, endpoint) => if q == queue then Passed else Failed("")
  }

  lemma OtherQueueDiffers(f: RunFeature, separate: RunFeature, registered: seq<Registered>)
    requires separate.dir == f.dir && separate.variantName == "" && separate.taskQueue != f.taskQueue
    requires Lookup(registered, f.dir).Some? && Lookup(registered, f.dir).value.skipReason == ""
    ensures Rewritten(Written(registered, OnlyOn(f.taskQueue), [separate], 0).0, [f])
         != Rewritten(Written(registered, OnlyOn(f.taskQueue), [f], 0).0, [f])
  {
    var execute := OnlyOn(f.taskQueue);
    WrittenOne(registered, execute, separate);
    WrittenOne(registered, execute, f);
    hide Written;
    var (a, b) := (Written(registered, execute, [separate], 0).0, Written(registered, execute, [f], 0).0);
    assert Rewritten(a, [f])[0].outcome == FAILED && Rewritten(b, [f])[0].outcome == PASSED;
  }

  lemma OtherDirDiffers(f: RunFeature, separate: RunFeature, registered: seq<Registered>, execute: Executor)
    requires ':' in f.dir && ':' !in separate.dir && separate.variantName == ""
    requires Lookup(registered, f.dir).Some?
    ensures Rewritten(Written(registered, execute, [separate], 0).0, [f])
         != Rewritten(Written(registered, execute, [f], 0).0, [f])
  {
    WrittenOne(registered, execute, separate);
    WrittenOne(registered, execute, f);
    hide Written;
    var (a, b) := (Written(registered, execute, [separate], 0).0, Written(registered, execute, [f], 0).0);
    BareOrQualified(a, a, f);
    BareOrQualified(b, b, f);
    assert f.SummaryName()[..|f.dir|] == f.dir;
    assert Rewritten(b, [f])[0].name == f.SummaryName() && ':' in f.SummaryName();
  }

  lemma LostReportsDiffer(f: RunFeature, registered: seq<Registered>)
    requires ':' in f.dir || ':' in f.taskQueue
    requires Lookup(registered, f.dir).Some? && Lookup(registered, f.dir).value.skipReason == ""
    ensures !ReportsTheSame(f, registered, OnlyOn(f.taskQueue))
  {
    hide Written, Rewritten;
    ArgRoundTrip(f);
    ParsedIsColonFree(ToArg(f));
    var separate := ParseRunFeature(ToArg(f)).value;
    if ':' in f.dir {
      OtherDirDiffers(f, separate, registered, OnlyOn(f.taskQueue));
    } else {
      DirIsParsed(f);
      OtherQueueDiffers(f, separate, registered);
    }
  }

  /** A directory free of colons is read back whatever the queue is. */
  lemma DirIsParsed(f: RunFeature)
    requires ':' !in f.dir
    ensures ParseRunFeature(ToArg(f)).Ok? && ParseRunFeature(ToArg(f)).value.dir == f.dir
  {
    var rest := f.taskQueue + (if f.nexusEndpoint == "" then "" else ":" + f.nexusEndpoint);
    assert ToArg(f) == f.dir + [':'] + rest;
    SplitHead(f.dir, ':', rest);
  }

  /** A feature passed on the command line loses its variant, so a separate process reports bare names
      where an in-process run reports dir#variant. After the rewrite the two are the same, however
      features execute, when directory and queue are free of colons; for a registered feature that is
      not skipped, only then. */
  lemma SeparateProcessReportsTheSame(f: RunFeature, registered: seq<Registered>)
    ensures ':' !in f.dir && ':' !in f.taskQueue ==>
      forall execute: Executor :: ReportsTheSame(f, registered, execute)
    ensures Lookup(registered, f.dir).Some? && Lookup(registered, f.dir).value.skipReason == "" ==>
      ((forall execute: Executor :: ReportsTheSame(f, registered, execute)) <==>
       ':' !in f.dir && ':' !in f.taskQueue)
  {
    hide ReportsTheSame, ToArg, ParseRunFeature;
    ArgRoundTrip(f);
    if ':' !in f.dir && ':' !in f.taskQueue {
      forall execute: Executor
        ensures ReportsTheSame(f, registered, execute)
      {
        CarriedReportsTheSame(f, registered, execute);
      }
    } else if Lookup(registered, f.dir).Some? && Lookup(registered, f.dir).value.skipReason == "" {
      LostReportsDiffer(f, registered);
    }
  }

  /** A feature found on disk is found among the registered ones, if its workflow lies in its directory:
      both sides give it the same name. */
  lemma FoundFeaturesAreRegistered(root: string, below: seq<string>, dir: Option<string>,
                                   registered: seq<Registered>, f: RunFeature)
    requires FeatureDirs.Components(below) && below != [] && FeatureDirs.FEATURES !in below
    requires FeatureDirs.IsRegisteredDir(FeatureDirs.SourceDir(root, below), dir)
    requires exists r :: r in registered && Some(r.dir) == dir
    requires f.dir == FeatureDirs.RelativeDir(below)
    ensures Lookup(registered, f.dir).Some? && Lookup(registered, f.dir).value.dir == f.dir
  {
    FeatureDirs.DirsAgreeExactly(root, below, dir);
    var r :| r in registered && Some(r.dir) == dir;
    LookupFinds(registered, f.dir, r);
  }

  lemma {:induction false} LookupFinds(registered: seq<Registered>, dir: string, r: Registered)
    requires r in registered && r.dir == dir
    ensures Lookup(registered, dir).Some? && Lookup(registered, dir).value.dir == dir
  {
    if registered[0].dir != dir {
      LookupFinds(registered[1..], dir, r);
    }
  }
}
