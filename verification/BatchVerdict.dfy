/** What runBatch does with a received summary: variant names are put in, proxy connections are
    counted against what the passed features promised, and histories are handled. */
module BatchVerdict {
  import opened Seqs
  import opened Runs

  datatype SummaryEntry = SummaryEntry(name: string, outcome: string, message: string)

  const PASSED := "PASSED"
  const FAILED := "FAILED"
  const SKIPPED := "SKIPPED"

  // ----- Variant names -----

  function RewrittenName(name: string, features: seq<RunFeature>): string {
    if features == [] then name
    else if name == features[0].dir then features[0].SummaryName()
    else RewrittenName(name, features[1..])
  }

  function Rewritten(summary: seq<SummaryEntry>, features: seq<RunFeature>): seq<SummaryEntry> {
    Map(summary, (e: SummaryEntry) => e.(name := RewrittenName(e.name, features)))
  }

  /** rewriteVariantSummary, in place. */
  method RewriteVariantSummary(summary: array<SummaryEntry>, features: seq<RunFeature>)
    modifies summary
    ensures summary[..] == Rewritten(old(summary[..]), features)
  {
    for i := 0 to summary.Length
      invariant forall k :: 0 <= k < i ==>
        summary[k] == old(summary[k]).(name := RewrittenName(old(summary[k].name), features))
      invariant forall k :: i <= k < summary.Length ==> summary[k] == old(summary[k])
    {
      var entry := summary[i];
      var j := 0;
      while j < |features| && entry.name != features[j].dir
        invariant j <= |features|
        invariant RewrittenName(entry.name, features) == RewrittenName(entry.name, features[j..])
      {
        j := j + 1;
      }
      if j < |features| {
        summary[i] := summary[i].(name := features[j].SummaryName());
      }
    }
  }

  /** No feature before has the same directory. */
  predicate IsFirst(features: seq<RunFeature>, i: nat)
    requires i < |features|
  {
    forall j :: 0 <= j < i ==> features[j].dir != features[i].dir
  }

  /** No name that a variant gives is the directory of a feature with a variant. */
  ghost predicate NamesStayApart(features: seq<RunFeature>) {
    forall i, j :: 0 <= i < |features| && 0 <= j < |features| && Renames(features, i) && Renames(features, j) ==>
      features[j].dir != features[i].SummaryName()
  }

  /** The name of this feature is put in the place of its directory. */
  predicate Renames(features: seq<RunFeature>, i: nat)
    requires i < |features|
  {
    IsFirst(features, i) && features[i].variantName != ""
  }

  lemma {:induction false} RewrittenOrNot(name: string, features: seq<RunFeature>)
    ensures (RewrittenName(name, features) == name && forall f :: f in features ==> f.dir != name)
      || exists i: nat :: i < |features| && IsFirst(features, i) && features[i].dir == name
                          && RewrittenName(name, features) == features[i].SummaryName()
  {
    if features != [] {
      if features[0].dir == name {
        assert IsFirst(features, 0);
      } else {
        var rest := features[1..];
        RewrittenOrNot(name, rest);
        if i: nat :| i < |rest| && IsFirst(rest, i) && rest[i].dir == name
                     && RewrittenName(name, rest) == rest[i].SummaryName() {
          assert forall j :: 1 <= j < i + 1 ==> features[j] == rest[j - 1];
          assert IsFirst(features, i + 1);
        } else {
          assert forall f :: f in features ==> f == features[0] || f in rest;
        }
      }
    }
  }

  lemma {:induction false} FirstIsRewritten(features: seq<RunFeature>, i: nat)
    requires i < |features| && IsFirst(features, i)
    ensures RewrittenName(features[i].dir, features) == features[i].SummaryName()
  {
    if i > 0 {
      var rest := features[1..];
      assert forall j :: 0 <= j < i - 1 ==> rest[j] == features[j + 1];
      FirstIsRewritten(rest, i - 1);
    }
  }

  lemma LongerName(f: RunFeature)
    ensures f.variantName == "" ==> f.SummaryName() == f.dir
    ensures f.variantName != "" ==> |f.SummaryName()| > |f.dir| && f.SummaryName()[|f.dir|] == '#'
  {
  }

  lemma NameTwice(name: string, features: seq<RunFeature>)
    requires NamesStayApart(features)
    ensures RewrittenName(RewrittenName(name, features), features) == RewrittenName(name, features)
  {
    hide RewrittenName;
    RewrittenOrNot(name, features);
    if i: nat :| i < |features| && IsFirst(features, i) && features[i].dir == name
                 && RewrittenName(name, features) == features[i].SummaryName() {
      LongerName(features[i]);
      FirstIsRewritten(features, i);
      var again := features[i].SummaryName();
      RewrittenOrNot(again, features);
      if j: nat :| j < |features| && IsFirst(features, j) && features[j].dir == again
                   && RewrittenName(again, features) == features[j].SummaryName() {
        LongerName(features[j]);
      }
    }
  }

  lemma ClashIsRewrittenAgain(features: seq<RunFeature>, i: nat, j: nat)
    requires i < |features| && j < |features| && IsFirst(features, i) && IsFirst(features, j)
    requires features[j].dir == features[i].SummaryName() && features[j].variantName != ""
    ensures var s := [SummaryEntry(features[i].dir, "", "")];
      Rewritten(Rewritten(s, features), features) != Rewritten(s, features)
  {
    hide RewrittenName;
    FirstIsRewritten(features, i);
    FirstIsRewritten(features, j);
    LongerName(features[j]);
    var s := [SummaryEntry(features[i].dir, "", "")];
    assert Rewritten(Rewritten(s, features), features)[0].name == features[j].SummaryName();
    assert Rewritten(s, features)[0].name == features[j].dir;
  }

  /** Rewriting any summary twice is rewriting it once, exactly when no name that a variant gives is
      itself the directory of a feature with a variant. */
  lemma RewriteIsIdempotent(features: seq<RunFeature>)
    ensures (forall summary :: Rewritten(Rewritten(summary, features), features) == Rewritten(summary, features))
      <==> NamesStayApart(features)
  {
    hide RewrittenName;
    if NamesStayApart(features) {
      forall summary: seq<SummaryEntry>
        ensures Rewritten(Rewritten(summary, features), features) == Rewritten(summary, features)
      {
        forall i | 0 <= i < |summary| {
          NameTwice(summary[i].name, features);
        }
      }
    } else {
      var i, j :| 0 <= i < |features| && 0 <= j < |features| && Renames(features, i) && Renames(features, j)
        && features[j].dir == features[i].SummaryName();
      ClashIsRewrittenAgain(features, i, j);
    }
  }

  /** It holds for every batch that is rewritten, which has one feature, and for '#'-free directories. */
  lemma BatchesStayApart(features: seq<RunFeature>)
    requires |features| <= 1 || forall f :: f in features ==> '#' !in f.dir
    ensures NamesStayApart(features)
  {
    forall i | 0 <= i < |features| {
      LongerName(features[i]);
    }
  }

  /** `b` is `a` as reported by a harness that names the variant in some of the entries. */
  ghost predicate Qualifies(a: seq<SummaryEntry>, b: seq<SummaryEntry>, f: RunFeature) {
    |a| == |b| && forall i :: 0 <= i < |a| ==>
      b[i] == a[i] || (a[i].name == f.dir && b[i] == a[i].(name := f.SummaryName()))
  }

  /** In a variant batch it makes no difference whether a harness reports bare directories or
      directories with the variant: the summary that decides everything else is the same, and only
      names of the feature's own entries differ from what was reported. */
  lemma BareOrQualified(a: seq<SummaryEntry>, b: seq<SummaryEntry>, f: RunFeature)
    requires Qualifies(a, b, f)
    ensures Rewritten(a, [f]) == Rewritten(b, [f])
    ensures forall i :: 0 <= i < |a| ==>
      Rewritten(a, [f])[i] == (if a[i].name == f.dir then a[i].(name := f.SummaryName()) else a[i])
  {
    assert f.variantName != "" ==> f.SummaryName() != f.dir by {
      assert |f.variantName| > 0 ==> |f.dir + "#" + f.variantName| > |f.dir|;
    }
    assert forall name :: RewrittenName(name, [f]) == (if name == f.dir then f.SummaryName() else name);
    assert forall i :: 0 <= i < |a| ==> Rewritten(a, [f])[i] == Rewritten(b, [f])[i];
  }

  /** The summary of a harness that sent none: everything passed. */
  function AssumedSummary(features: seq<RunFeature>): seq<SummaryEntry> {
    Map(features, (f: RunFeature) => SummaryEntry(f.SummaryName(), PASSED, ""))
  }

  // ----- Proxy counts -----

  predicate AnyFailed(summary: seq<SummaryEntry>) {
    exists i :: 0 <= i < |summary| && summary[i].outcome == FAILED
  }

  function CountOf(f: RunFeature, authed: bool): int {
    if authed then f.config.authedProxyCount else f.config.unauthedProxyCount
  }

  /** What the first feature of that summary name promises. */
  function Promised(name: string, features: seq<RunFeature>, authed: bool): int {
    if features == [] then 0
    else if features[0].SummaryName() == name then CountOf(features[0], authed)
    else Promised(name, features[1..], authed)
  }

  function Contribution(e: SummaryEntry, features: seq<RunFeature>, authed: bool): int {
    if e.outcome == PASSED then Promised(e.name, features, authed) else 0
  }

  /** The connections promised by the entries that passed. */
  function Expected(summary: seq<SummaryEntry>, features: seq<RunFeature>, authed: bool): int {
    if summary == [] then 0
    else
      var n := |summary| - 1;
      Expected(summary[..n], features, authed) + Contribution(summary[n], features, authed)
  }

  /** The uint32 a Go int converts to. */
  function ToUint32(n: int): nat {
    n % 0x1_0000_0000
  }

  /** A batch with failures is not compared at all. */
  predicate Accepts(summary: seq<SummaryEntry>, features: seq<RunFeature>, unauthed: nat, authed: nat) {
    AnyFailed(summary)
    || (unauthed == ToUint32(Expected(summary, features, false))
        && authed == ToUint32(Expected(summary, features, true)))
  }

  datatype Verdict = Matched | WrongUnauthed(expected: int) | WrongAuthed(expected: int)

  /** The comparison of promised and counted proxy connections; counters are 32-bit. */
  method ProxyVerdict(summary: seq<SummaryEntry>, features: seq<RunFeature>, unauthed: nat, authed: nat)
    returns (verdict: Verdict)
    ensures verdict.Matched? <==> Accepts(summary, features, unauthed, authed)
    ensures verdict.WrongUnauthed? ==> verdict.expected == Expected(summary, features, false)
    ensures verdict.WrongAuthed? ==> verdict.expected == Expected(summary, features, true)
    ensures verdict.WrongAuthed? ==> unauthed == ToUint32(Expected(summary, features, false))
  {
    var anyFailed := false;
    var expectUnauthed, expectAuthed := 0, 0;
    for i := 0 to |summary|
      invariant !anyFailed && !AnyFailed(summary[..i])
      invariant expectUnauthed == Expected(summary[..i], features, false)
      invariant expectAuthed == Expected(summary[..i], features, true)
    {
      var entry := summary[i];
      assert summary[..i + 1][..i] == summary[..i];
      if entry.outcome == FAILED {
        anyFailed := true;
        break;
      } else if entry.outcome == PASSED {
        var j := 0;
        while j < |features| && features[j].SummaryName() != entry.name
          invariant j <= |features|
          invariant forall a :: Promised(entry.name, features, a) == Promised(entry.name, features[j..], a)
        {
          j := j + 1;
        }
        if j < |features| {
          expectUnauthed := expectUnauthed + features[j].config.unauthedProxyCount;
          expectAuthed := expectAuthed + features[j].config.authedProxyCount;
        }
      }
    }
    assert summary[..|summary|] == summary;
    if !anyFailed {
      if unauthed != ToUint32(expectUnauthed) {
        return WrongUnauthed(expectUnauthed);
      } else if authed != ToUint32(expectAuthed) {
        return WrongAuthed(expectAuthed);
      }
    }
    verdict := Matched;
  }

  lemma {:induction false} ExpectedWithout(summary: seq<SummaryEntry>, i: nat, features: seq<RunFeature>, authed: bool)
    requires i < |summary|
    ensures Expected(summary, features, authed)
         == Expected(summary[..i] + summary[i + 1..], features, authed) + Contribution(summary[i], features, authed)
  {
    hide Contribution;
    var n := |summary| - 1;
    var rest := summary[..i] + summary[i + 1..];
    if i == n {
      assert rest == summary[..n];
    } else {
      ExpectedWithout(summary[..n], i, features, authed);
      assert rest[..|rest| - 1] == summary[..n][..i] + summary[..n][i + 1..];
      assert rest[|rest| - 1] == summary[n];
    }
  }

  /** The promised connections, and with them the verdict, do not depend on the order of entries. */
  lemma {:induction false} ExpectedIsOrderFree(a: seq<SummaryEntry>, b: seq<SummaryEntry>,
                                               features: seq<RunFeature>, authed: bool)
    requires multiset(a) == multiset(b)
    ensures Expected(a, features, authed) == Expected(b, features, authed)
    ensures AnyFailed(a) <==> AnyFailed(b)
    decreases |a|
  {
    if a == [] {
      assert |multiset(b)| == 0;
    } else {
      var n := |a| - 1;
      var e := a[n];
      assert e in multiset(a);
      assert e in b;
      var i :| 0 <= i < |b| && b[i] == e;
      var rest := b[..i] + b[i + 1..];
      RemoveBoth(a, b, i);
      ExpectedIsOrderFree(a[..n], rest, features, authed);
      ExpectedWithout(b, i, features, authed);
      assert a[..n] + a[n + 1..] == a[..n];
      FailedWithout(a, n);
      FailedWithout(b, i);
    }
  }

  /** Removing equal elements from equal multisets leaves equal multisets. */
  lemma RemoveBoth(a: seq<SummaryEntry>, b: seq<SummaryEntry>, i: nat)
    requires multiset(a) == multiset(b) && |a| > 0 && i < |b| && b[i] == a[|a| - 1]
    ensures multiset(a[..|a| - 1]) == multiset(b[..i] + b[i + 1..])
  {
    var (n, e) := (|a| - 1, b[i]);
    assert a == a[..n] + [e];
    assert b == b[..i] + [e] + b[i + 1..];
    assert multiset(a[..n]) == multiset(a) - multiset{e};
    assert multiset(b[..i] + b[i + 1..]) == multiset(b) - multiset{e};
  }

  lemma FailedWithout(s: seq<SummaryEntry>, i: nat)
    requires i < |s|
    ensures AnyFailed(s) <==> AnyFailed(s[..i] + s[i + 1..]) || s[i].outcome == FAILED
  {
    var rest := s[..i] + s[i + 1..];
    if AnyFailed(s) && s[i].outcome != FAILED {
      var k :| 0 <= k < |s| && s[k].outcome == FAILED;
      assert rest[if k < i then k else k - 1] == s[k];
    }
    if AnyFailed(rest) {
      var k :| 0 <= k < |rest| && rest[k].outcome == FAILED;
      assert s[if k < i then k else k + 1] == rest[k];
    }
  }

  /** The smallest case: one feature that passed, its two counts, and the 32 bits of a counter. */
  lemma OneFeatureVerdict(f: RunFeature, message: string, unauthed: nat, authed: nat)
    ensures Accepts([SummaryEntry(f.SummaryName(), "PASSED", message)], [f], unauthed, authed) <==>
      && unauthed == f.config.unauthedProxyCount % 0x1_0000_0000
      && authed == f.config.authedProxyCount % 0x1_0000_0000
    ensures Accepts([SummaryEntry(f.SummaryName(), "FAILED", message)], [f], unauthed, authed)
    ensures Accepts([SummaryEntry(f.SummaryName(), "SKIPPED", message)], [f], unauthed, authed) <==>
      unauthed == 0 && authed == 0
  {
    forall outcome: string, a: bool
      ensures Expected([SummaryEntry(f.SummaryName(), outcome, message)], [f], a)
           == Contribution(SummaryEntry(f.SummaryName(), outcome, message), [f], a)
    {
      var s := [SummaryEntry(f.SummaryName(), outcome, message)];
      assert s[..0] == [] && Expected(s[..0], [f], a) == 0;
    }
    assert [SummaryEntry(f.SummaryName(), "FAILED", message)][0].outcome == FAILED;
    assert "SKIPPED" != "PASSED" && "SKIPPED" != "FAILED" && "PASSED" != "FAILED" by {
      assert "PASSED"[0] != "FAILED"[0];
    }
  }

  // ----- The promises, feature by feature -----

  ghost predicate DistinctNames(features: seq<RunFeature>) {
    forall i, j :: 0 <= i < j < |features| ==> features[i].SummaryName() != features[j].SummaryName()
  }

  /** How often a feature is reported as passed. */
  function TimesPassed(summary: seq<SummaryEntry>, name: string): nat {
    if summary == [] then 0
    else
      var n := |summary| - 1;
      TimesPassed(summary[..n], name)
      + (if summary[n].name == name && summary[n].outcome == PASSED then 1 else 0)
  }

  /** Every feature promises its connections once for each time it passed. */
  function PromisedByFeatures(features: seq<RunFeature>, summary: seq<SummaryEntry>, authed: bool): int {
    if features == [] then 0
    else
      TimesPassed(summary, features[0].SummaryName()) * CountOf(features[0], authed)
      + PromisedByFeatures(features[1..], summary, authed)
  }

  lemma {:induction false} OneMoreEntry(features: seq<RunFeature>, summary: seq<SummaryEntry>, e: SummaryEntry,
                                        authed: bool)
    requires DistinctNames(features)
    ensures PromisedByFeatures(features, summary + [e], authed)
         == PromisedByFeatures(features, summary, authed) + Contribution(e, features, authed)
  {
    if features != [] {
      var (f, rest) := (features[0], features[1..]);
      var name := f.SummaryName();
      OneMoreEntry(rest, summary, e, authed);
      assert (summary + [e])[..|summary|] == summary;
      if e.name == name {
        NotNamed(rest, name, authed);
        assert (TimesPassed(summary, name) + 1) * CountOf(f, authed)
            == TimesPassed(summary, name) * CountOf(f, authed) + CountOf(f, authed);
      }
    }
  }

  lemma {:induction false} NotNamed(features: seq<RunFeature>, name: string, authed: bool)
    requires forall f :: f in features ==> f.SummaryName() != name
    ensures Promised(name, features, authed) == 0
  {
    if features != [] {
      NotNamed(features[1..], name, authed);
    }
  }

  lemma {:induction false} NothingPassed(features: seq<RunFeature>, authed: bool)
    ensures PromisedByFeatures(features, [], authed) == 0
  {
    if features != [] {
      NothingPassed(features[1..], authed);
    }
  }

  /** What the loop over the entries adds up is what the features promise, each as often as it passed. */
  lemma {:induction false} ExpectedByFeature(summary: seq<SummaryEntry>, features: seq<RunFeature>, authed: bool)
    requires DistinctNames(features)
    ensures Expected(summary, features, authed) == PromisedByFeatures(features, summary, authed)
  {
    if summary == [] {
      NothingPassed(features, authed);
    } else {
      var n := |summary| - 1;
      ExpectedByFeature(summary[..n], features, authed);
      OneMoreEntry(features, summary[..n], summary[n], authed);
      assert summary[..n] + [summary[n]] == summary;
    }
  }

  ghost predicate DistinctEntries(summary: seq<SummaryEntry>) {
    forall i, j :: 0 <= i < j < |summary| ==> summary[i].name != summary[j].name
  }

  /** Whether the entry of a feature says it passed. */
  predicate HasPassed(f: RunFeature, summary: seq<SummaryEntry>) {
    exists i :: 0 <= i < |summary| && summary[i].name == f.SummaryName() && summary[i].outcome == PASSED
  }

  /** The sum of what the features that passed promise. */
  function PromisedByPassed(features: seq<RunFeature>, summary: seq<SummaryEntry>, authed: bool): int {
    if features == [] then 0
    else
      (if HasPassed(features[0], summary) then CountOf(features[0], authed) else 0)
      + PromisedByPassed(features[1..], summary, authed)
  }

  lemma {:induction false} PassedAtMostOnce(summary: seq<SummaryEntry>, f: RunFeature)
    requires DistinctEntries(summary)
    ensures TimesPassed(summary, f.SummaryName()) == if HasPassed(f, summary) then 1 else 0
  {
    if summary != [] {
      var n := |summary| - 1;
      var before := summary[..n];
      PassedAtMostOnce(before, f);
      assert forall i :: 0 <= i < n ==> before[i] == summary[i];
    }
  }

  lemma {:induction false} PromisesOfPassed(features: seq<RunFeature>, summary: seq<SummaryEntry>, authed: bool)
    requires DistinctEntries(summary)
    ensures PromisedByFeatures(features, summary, authed) == PromisedByPassed(features, summary, authed)
  {
    if features != [] {
      PassedAtMostOnce(summary, features[0]);
      PromisesOfPassed(features[1..], summary, authed);
    }
  }

  /** When every feature has its own name and is reported at most once, the promised connections are
      those of the features reported as passed, whatever else is reported. */
  lemma ExpectedOfPassed(summary: seq<SummaryEntry>, features: seq<RunFeature>, authed: bool)
    requires DistinctNames(features) && DistinctEntries(summary)
    ensures Expected(summary, features, authed) == PromisedByPassed(features, summary, authed)
  {
    ExpectedByFeature(summary, features, authed);
    PromisesOfPassed(features, summary, authed);
  }

  // ----- Histories -----

  function Find(summary: seq<SummaryEntry>, name: string): (r: Option<SummaryEntry>)
    ensures r.Some? ==> r.value in summary && r.value.name == name
  {
    if summary == [] then None
    else if summary[0].name == name then Some(summary[0])
    else Find(summary[1..], name)
  }

  /** Whether a feature's history is looked at. */
  predicate HandlesHistory(f: RunFeature, summary: seq<SummaryEntry>) {
    && !f.config.noWorkflow
    && Find(summary, f.SummaryName()).Some?
    && Find(summary, f.SummaryName()).value.outcome != SKIPPED
  }

  function Handled(features: seq<RunFeature>, summary: seq<SummaryEntry>): seq<RunFeature> {
    Filter(features, f => HandlesHistory(f, summary))
  }

  lemma HandledAppend(features: seq<RunFeature>, f: RunFeature, summary: seq<SummaryEntry>)
    ensures Handled(features + [f], summary)
         == if HandlesHistory(f, summary) then Handled(features, summary) + [f] else Handled(features, summary)
  {
    FilterConcat(features, [f], g => HandlesHistory(g, summary));
    assert Filter([f], g => HandlesHistory(g, summary)) == if HandlesHistory(f, summary) then [f] else [];
    assert Handled(features, summary) + [] == Handled(features, summary);
  }

  function CountFailing(features: seq<RunFeature>, handles: RunFeature -> bool): nat {
    if features == [] then 0
    else
      var n := |features| - 1;
      CountFailing(features[..n], handles) + (if handles(features[n]) then 0 else 1)
  }

  /** No failure is counted exactly when no feature fails, and never more than there are features. */
  lemma {:induction false} CountsFailures(features: seq<RunFeature>, handles: RunFeature -> bool)
    ensures CountFailing(features, handles) == |Filter(features, f => !handles(f))|
    ensures CountFailing(features, handles) == 0 <==> forall f :: f in features ==> handles(f)
  {
    if features != [] {
      var n := |features| - 1;
      CountsFailures(features[..n], handles);
      assert features == features[..n] + [features[n]];
      FilterConcat(features[..n], [features[n]], f => !handles(f));
      assert Filter([features[n]], f => !handles(f)) == if handles(features[n]) then [] else [features[n]];
    }
  }

  /** A feature's history is looked at exactly when it has workflows and its first entry, under its
      summary name, is not skipped. */
  lemma HandledAre(features: seq<RunFeature>, summary: seq<SummaryEntry>, f: RunFeature)
    ensures f in Handled(features, summary) <==>
      && f in features && !f.config.noWorkflow
      && exists i :: 0 <= i < |summary| && IsFirstEntry(summary, i, f.SummaryName()) && summary[i].outcome != "SKIPPED"
  {
    FindIsFirst(summary, f.SummaryName());
  }

  ghost predicate IsFirstEntry(summary: seq<SummaryEntry>, i: nat, name: string)
    requires i < |summary|
  {
    summary[i].name == name && forall j :: 0 <= j < i ==> summary[j].name != name
  }

  lemma {:induction false} FindIsFirst(summary: seq<SummaryEntry>, name: string)
    ensures Find(summary, name).None? <==> forall e :: e in summary ==> e.name != name
    ensures forall i :: 0 <= i < |summary| && IsFirstEntry(summary, i, name) ==> Find(summary, name) == Some(summary[i])
    ensures Find(summary, name).Some? ==>
      exists i :: 0 <= i < |summary| && IsFirstEntry(summary, i, name) && summary[i] == Find(summary, name).value
  {
    if summary != [] {
      var rest := summary[1..];
      FindIsFirst(rest, name);
      if summary[0].name == name {
        assert IsFirstEntry(summary, 0, name);
      } else {
        forall i | 0 <= i < |rest|
          ensures IsFirstEntry(summary, i + 1, name) <==> IsFirstEntry(rest, i, name)
        {
          assert forall j :: 1 <= j < i + 1 ==> summary[j] == rest[j - 1];
          assert forall j :: 0 <= j < i ==> rest[j] == summary[j + 1];
        }
      }
    }
  }

  datatype HistoryVerdict = NoFailures | NoClient | Failures(count: nat)

  /** handleHistory: one client for all features that need one; a failing feature does not stop the
      others. `dials` tells whether the client can be made, `handles` the outcome per feature. */
  method HandleHistory(features: seq<RunFeature>, summary: seq<SummaryEntry>, dials: bool,
                       handles: RunFeature -> bool)
    returns (verdict: HistoryVerdict, handled: seq<RunFeature>)
    ensures verdict.NoClient? <==> !dials && Handled(features, summary) != []
    ensures handled == if verdict.NoClient? then [] else Handled(features, summary)
    ensures !verdict.NoClient? ==>
      verdict == (var n := CountFailing(handled, handles); if n > 0 then Failures(n) else NoFailures)
  {
    handled := [];
    var dialed := false;
    var failureCount: nat := 0;
    for i := 0 to |features|
      invariant handled == Handled(features[..i], summary)
      invariant dialed <==> handled != []
      invariant dialed ==> dials
      invariant failureCount == CountFailing(handled, handles)
    {
      hide HandlesHistory, Handled;
      var feature := features[i];
      HandledAppend(features[..i], feature, summary);
      assert features[..i + 1] == features[..i] + [feature];
      var entry := Find(summary, feature.SummaryName());
      HandlesExactly(feature, summary);
      if feature.config.noWorkflow || entry.None? || entry.value.outcome == SKIPPED {
        continue;
      }
      if !dialed {
        if !dials {
          HandledMember(features, i, summary);
          return NoClient, [];
        }
        dialed := true;
      }
      handled := handled + [feature];
      if !handles(feature) {
        failureCount := failureCount + 1;
      }
    }
    assert features[..|features|] == features;
    verdict := if failureCount > 0 then Failures(failureCount) else NoFailures;
  }

  lemma HandlesExactly(f: RunFeature, summary: seq<SummaryEntry>)
    ensures HandlesHistory(f, summary) <==>
      !(f.config.noWorkflow || Find(summary, f.SummaryName()).None?
        || Find(summary, f.SummaryName()).value.outcome == SKIPPED)
  {
  }

  lemma HandledMember(features: seq<RunFeature>, i: nat, summary: seq<SummaryEntry>)
    requires i < |features| && HandlesHistory(features[i], summary)
    ensures Handled(features, summary) != []
  {
    assert features[i] in Handled(features, summary);
  }
}
