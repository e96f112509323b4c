/** One Nexus endpoint per feature under nexus/, and the ledger of calls made to the server. */
module NexusEndpoints {
  import opened Seqs
  import opened Runs
  import opened Batches
  import opened Compaction

  // ----- The ledger -----

  datatype Endpoint = Endpoint(id: string, version: int)

  datatype Answer = Created(endpoint: Endpoint) | PermissionDenied | OtherError

  datatype Call =
    | Dial
    | Create(name: string, taskQueue: string, answer: Answer)
    | Delete(endpoint: Endpoint)
    | Close

  /** The endpoints the server made, in order. */
  function Made(calls: seq<Call>): seq<Endpoint> {
    if calls == [] then []
    else
      var n := |calls| - 1;
      Made(calls[..n])
      + (if calls[n].Create? && calls[n].answer.Created? then [calls[n].answer.endpoint] else [])
  }

  /** The endpoints whose deletion was attempted, in order. */
  function Deleted(calls: seq<Call>): seq<Endpoint> {
    if calls == [] then []
    else
      var n := |calls| - 1;
      Deleted(calls[..n]) + (if calls[n].Delete? then [calls[n].endpoint] else [])
  }

  function Count(calls: seq<Call>, c: Call): nat {
    multiset(calls)[c]
  }

  lemma LedgerAppend(calls: seq<Call>, c: Call)
    ensures Made(calls + [c])
         == if c.Create? && c.answer.Created? then Made(calls) + [c.answer.endpoint] else Made(calls)
    ensures Deleted(calls + [c]) == if c.Delete? then Deleted(calls) + [c.endpoint] else Deleted(calls)
    ensures Count(calls + [c], Dial) == Count(calls, Dial) + (if c.Dial? then 1 else 0)
    ensures Count(calls + [c], Close) == Count(calls, Close) + (if c.Close? then 1 else 0)
  {
    assert (calls + [c])[..|calls|] == calls;
  }

  /** A session that is over: every endpoint made had one deletion attempted, in order, and the
      client was dialled once and closed once, after everything else. */
  ghost predicate Settled(calls: seq<Call>) {
    && Deleted(calls) == Made(calls)
    && (calls == [] || (Count(calls, Dial) == 1 && Count(calls, Close) == 1 && calls[0] == Dial
                        && calls[|calls| - 1] == Close))
  }

  /** A session in progress: nothing deleted yet, the client open. */
  ghost predicate Open(calls: seq<Call>) {
    && Deleted(calls) == [] && calls != [] && calls[0] == Dial
    && Count(calls, Dial) == 1 && Count(calls, Close) == 0
  }

  lemma EmptyLedger()
    ensures Made([]) == [] && Settled([])
  {
  }

  // ----- Names -----

  const NEXUS_PREFIX := "nexus/"

  predicate IsNexus(f: RunFeature) {
    HasPrefix(f.dir, NEXUS_PREFIX)
  }

  function NexusFeatures(features: seq<RunFeature>): seq<RunFeature> {
    Filter(features, f => IsNexus(f))
  }

  function OtherFeatures(features: seq<RunFeature>): seq<RunFeature> {
    Filter(features, f => !IsNexus(f))
  }

  /** '/' and '_' become '-'. */
  function Sanitize(dir: string): string {
    Map(dir, c => if c == '/' || c == '_' then '-' else c)
  }

  function EndpointName(f: RunFeature, uuid: string): string {
    "features-nexus-" + Sanitize(f.dir) + "-" + uuid
  }

  lemma NamesAreDistinct(f: RunFeature, g: RunFeature, uuid: nat -> string, i: nat, j: nat)
    requires LooksLikeUuid(uuid(i)) && LooksLikeUuid(uuid(j)) && uuid(i) != uuid(j)
    ensures EndpointName(f, uuid(i)) != EndpointName(g, uuid(j))
  {
    var (a, b) := (EndpointName(f, uuid(i)), EndpointName(g, uuid(j)));
    assert a[|a| - 36..] == uuid(i) && b[|b| - 36..] == uuid(j);
  }

  // ----- Creation -----

  /** A run whose features are the first `count` elements of an array; `&run.Features[i]` is index i. */
  class Run {
    var features: array<RunFeature>
    var count: nat

    constructor (features: array<RunFeature>)
      ensures this.features == features && count == features.Length
    {
      this.features, count := features, features.Length;
    }

    ghost predicate Valid()
      reads this
    {
      count <= features.Length
    }

    ghost function View(): seq<RunFeature>
      requires Valid()
      reads this, features
    {
      features[..count]
    }
  }

  class Ledger {
    var calls: seq<Call>

    constructor ()
      ensures calls == []
    {
      calls := [];
    }

    /** The cleanup closure: one deletion attempt per endpoint, whatever it answers, then close. */
    method CleanUp(created: seq<Endpoint>)
      modifies this
      ensures calls == old(calls) + Deletions(created) + [Close]
    {
      for i := 0 to |created|
        invariant calls == old(calls) + Deletions(created)[..i]
      {
        calls := calls + [Delete(created[i])];
      }
      calls := calls + [Close];
    }
  }

  function Deletions(created: seq<Endpoint>): seq<Call> {
    Map(created, e => Delete(e))
  }

  lemma {:induction false} DeletionsLedger(calls: seq<Call>, created: seq<Endpoint>)
    ensures Deleted(calls + Deletions(created)) == Deleted(calls) + created
    ensures Made(calls + Deletions(created)) == Made(calls)
    ensures Count(calls + Deletions(created), Dial) == Count(calls, Dial)
    ensures Count(calls + Deletions(created), Close) == Count(calls, Close)
  {
    hide Made, Deleted, Count;
    if created == [] {
      assert calls + Deletions(created) == calls && Deleted(calls) + [] == Deleted(calls);
    } else {
      var n := |created| - 1;
      var before := calls + Deletions(created[..n]);
      DeletionsLedger(calls, created[..n]);
      assert calls + Deletions(created) == before + [Delete(created[n])];
      LedgerAppend(before, Delete(created[n]));
      assert created == created[..n] + [created[n]];
    }
  }

  /** Cleaning up an open session settles it. */
  lemma CleanUpSettles(calls: seq<Call>)
    requires Open(calls)
    ensures Settled(calls + Deletions(Made(calls)) + [Close])
    ensures Made(calls + Deletions(Made(calls)) + [Close]) == Made(calls)
  {
    hide Made, Deleted, Count;
    DeletionsLedger(calls, Made(calls));
    LedgerAppend(calls + Deletions(Made(calls)), Close);
  }

  datatype Cleanup = Noop | DeleteAll(created: seq<Endpoint>)

  datatype NexusError = NoClient | CreateFailed(dir: string)

  /** How many Nexus features come before index i. */
  function Rank(features: seq<RunFeature>, i: nat): nat
    requires i <= |features|
  {
    |NexusFeatures(features[..i])|
  }

  lemma RankStep(features: seq<RunFeature>, i: nat)
    requires i < |features|
    ensures Rank(features, i + 1) == Rank(features, i) + (if IsNexus(features[i]) then 1 else 0)
  {
    assert features[..i + 1] == features[..i] + [features[i]];
    FilterConcat(features[..i], [features[i]], f => IsNexus(f));
    assert NexusFeatures([features[i]]) == if IsNexus(features[i]) then [features[i]] else [];
  }

  lemma {:induction false} RankMonotone(features: seq<RunFeature>, i: nat, j: nat)
    requires i <= j <= |features|
    ensures Rank(features, i) <= Rank(features, j)
  {
    if i < j {
      RankMonotone(features, i, j - 1);
      RankStep(features, j - 1);
    }
  }

  lemma NexusAtRank(features: seq<RunFeature>, i: nat)
    requires i < |features| && IsNexus(features[i])
    ensures Rank(features, i) < |NexusFeatures(features)|
    ensures NexusFeatures(features)[Rank(features, i)] == features[i]
  {
    var (a, b) := (features[..i], features[i..]);
    assert features == a + b;
    FilterConcat(a, b, f => IsNexus(f));
  }

  /** Index `i` of the view while the first `done` Nexus features have their endpoints. */
  function Named(features: seq<RunFeature>, i: nat, uuid: nat -> string, done: nat): RunFeature
    requires i < |features|
  {
    var f := features[i];
    if IsNexus(f) && Rank(features, i) < done
    then f.(nexusEndpoint := EndpointName(f, uuid(Rank(features, i)))) else f
  }

  /** The creations for the first `done` Nexus features, with the server's answers. */
  function Creations(features: seq<RunFeature>, uuid: nat -> string, answers: nat -> Answer, done: nat): seq<Call>
    requires done <= |NexusFeatures(features)|
  {
    var nexus := NexusFeatures(features);
    seq(done, j requires 0 <= j < done =>
      Create(EndpointName(nexus[j], uuid(j)), nexus[j].taskQueue, answers(j)))
  }

  /** The indices of the Nexus features. */
  method NexusIndices(run: Run) returns (indices: seq<nat>)
    requires run.Valid()
    ensures |indices| == |NexusFeatures(run.View())|
    ensures forall j :: 0 <= j < |indices| ==> indices[j] < run.count
    ensures forall j :: 0 <= j < |indices| ==>
      IsNexus(run.View()[indices[j]]) && Rank(run.View(), indices[j]) == j
  {
    indices := [];
    ghost var view := run.View();
    for i := 0 to run.count
      invariant |indices| == Rank(view, i)
      invariant forall j :: 0 <= j < |indices| ==> indices[j] < i
      invariant forall j :: 0 <= j < |indices| ==> IsNexus(view[indices[j]]) && Rank(view, indices[j]) == j
    {
      RankStep(view, i);
      if HasPrefix(run.features[i].dir, NEXUS_PREFIX) {
        indices := indices + [i];
      }
    }
    assert view[..run.count] == view;
  }

  /** Nexus features at different indices have different ranks. */
  lemma RanksDiffer(features: seq<RunFeature>, i: nat, j: nat)
    requires i < |features| && j < |features| && i != j
    requires IsNexus(features[i]) && IsNexus(features[j])
    ensures Rank(features, i) != Rank(features, j)
  {
    var (a, b) := if i < j then (i, j) else (j, i);
    RankStep(features, a);
    RankMonotone(features, a + 1, b);
  }

  lemma {:induction false} OthersUntouched(a: seq<RunFeature>, b: seq<RunFeature>)
    requires |a| == |b|
    requires forall i :: 0 <= i < |a| ==> IsNexus(a[i]) == IsNexus(b[i]) && (!IsNexus(a[i]) ==> a[i] == b[i])
    ensures OtherFeatures(a) == OtherFeatures(b)
  {
    if a != [] {
      OthersUntouched(a[1..], b[1..]);
    }
  }

  /** How an attempt to create the endpoints ended. */
  datatype Ending = AllCreated | FailedAt(index: nat)

  function FirstRefusal(answers: nat -> Answer, n: nat): (e: Ending)
    ensures e.FailedAt? ==> e.index < n && !answers(e.index).Created?
    ensures forall j :: 0 <= j < (if e.FailedAt? then e.index else n) ==> answers(j).Created?
  {
    if n == 0 then AllCreated
    else
      var e := FirstRefusal(answers, n - 1);
      if e.FailedAt? then e else if answers(n - 1).Created? then AllCreated else FailedAt(n - 1)
  }

  function EndpointsOf(answers: nat -> Answer, n: nat): seq<Endpoint>
    requires forall j :: 0 <= j < n ==> answers(j).Created?
  {
    seq(n, j requires 0 <= j < n => answers(j).endpoint)
  }

  /** A session after the first `done` creations, all of which succeeded. */
  ghost predicate Session(calls: seq<Call>, view: seq<RunFeature>, uuid: nat -> string, answers: nat -> Answer,
                          done: nat) {
    && done <= |NexusFeatures(view)|
    && (forall j :: 0 <= j < done ==> answers(j).Created?)
    && calls == [Dial] + Creations(view, uuid, answers, done)
    && Open(calls) && Made(calls) == EndpointsOf(answers, done)
  }

  lemma SessionStarts(view: seq<RunFeature>, uuid: nat -> string, answers: nat -> Answer)
    ensures Session([Dial], view, uuid, answers, 0)
  {
    hide NexusFeatures, EndpointName;
    assert [Dial] + Creations(view, uuid, answers, 0) == [Dial];
    LedgerAppend([], Dial);
    assert [] + [Dial] == [Dial];
  }

  lemma SessionExtends(calls: seq<Call>, view: seq<RunFeature>, uuid: nat -> string, answers: nat -> Answer, done: nat)
    requires Session(calls, view, uuid, answers, done) && done < |NexusFeatures(view)|
    ensures var f := NexusFeatures(view)[done];
      var more := calls + [Create(EndpointName(f, uuid(done)), f.taskQueue, answers(done))];
      && more == [Dial] + Creations(view, uuid, answers, done + 1)
      && Open(more)
      && (answers(done).Created? ==> Session(more, view, uuid, answers, done + 1))
      && (!answers(done).Created? ==> Made(more) == EndpointsOf(answers, done))
  {
    hide EndpointName, NexusFeatures, Made, Deleted, Count;
    var f := NexusFeatures(view)[done];
    LedgerAppend(calls, Create(EndpointName(f, uuid(done)), f.taskQueue, answers(done)));
  }

  /** The features while the first `done` Nexus features have their endpoints. */
  ghost predicate AreNamed(after: seq<RunFeature>, view: seq<RunFeature>, uuid: nat -> string, done: nat) {
    |after| == |view| && forall i :: 0 <= i < |view| ==> after[i] == Named(view, i, uuid, done)
  }

  lemma NamedExtends(after: seq<RunFeature>, view: seq<RunFeature>, uuid: nat -> string, i: nat)
    requires i < |view| && IsNexus(view[i]) && AreNamed(after, view, uuid, Rank(view, i))
    ensures after[i] == view[i]
    ensures AreNamed(after[i := view[i].(nexusEndpoint := EndpointName(view[i], uuid(Rank(view, i))))],
                     view, uuid, Rank(view, i) + 1)
  {
    hide Rank, EndpointName;
    forall k | 0 <= k < |view| && k != i && IsNexus(view[k])
      ensures Rank(view, k) != Rank(view, i)
    {
      RanksDiffer(view, i, k);
    }
  }

  lemma NamedKeepsOthers(after: seq<RunFeature>, view: seq<RunFeature>, uuid: nat -> string, done: nat)
    requires AreNamed(after, view, uuid, done)
    ensures OtherFeatures(after) == OtherFeatures(view)
  {
    hide Rank, EndpointName;
    OthersUntouched(after, view);
  }

  /** A refused creation: everything created before it is gone again, and the Nexus features are
      dropped if creating endpoints is not permitted at all. */
  ghost predicate AreWithdrawn(calls: seq<Call>, view: seq<RunFeature>, after: seq<RunFeature>, uuid: nat -> string,
                               answers: nat -> Answer, refused: nat, err: Option<NexusError>) {
    && refused < |NexusFeatures(view)| && (forall j :: 0 <= j < refused ==> answers(j).Created?)
    && [Dial] + Creations(view, uuid, answers, refused + 1) <= calls
    && Settled(calls) && Made(calls) == EndpointsOf(answers, refused)
    && (if answers(refused).PermissionDenied? then err == None && after == OtherFeatures(view)
        else err == Some(CreateFailed(NexusFeatures(view)[refused].dir)))
  }

  /** createNexusEndpoints: `dials` tells whether a client can be made, `answers` what the server
      says to each creation. */
  method CreateNexusEndpoints(run: Run, ledger: Ledger, dials: bool, uuid: nat -> string, answers: nat -> Answer)
    returns (cleanup: Cleanup, err: Option<NexusError>)
    requires run.Valid() && ledger.calls == []
    modifies run, run.features, ledger
    ensures run.Valid() && run.features == old(run.features)
    ensures var view := old(run.View());
      var n := |NexusFeatures(view)|;
      if n == 0 || !dials then
        && ledger.calls == [] && cleanup == Noop && run.View() == view
        && err == (if n == 0 then None else Some(NoClient))
      else match FirstRefusal(answers, n)
        case AllCreated =>
          && err == None && cleanup == DeleteAll(Made(ledger.calls))
          && Session(ledger.calls, view, uuid, answers, n) && AreNamed(run.View(), view, uuid, n)
        case FailedAt(refused) =>
          cleanup == Noop && AreWithdrawn(ledger.calls, view, run.View(), uuid, answers, refused, err)
  {
    hide Open, Made, Settled, Rank, EndpointName, Named, NexusFeatures, Creations, FirstRefusal;
    ghost var view := run.View();
    var indices := NexusIndices(run);
    if |indices| == 0 {
      return Noop, None;
    }
    if !dials {
      return Noop, Some(NoClient);
    }
    ledger.calls := [Dial];
    SessionStarts(view, uuid, answers);
    NothingNamed(view, uuid);
    var created: seq<Endpoint> := [];
    for j := 0 to |indices|
      invariant run.features == old(run.features) && run.count == old(run.count)
      invariant AreNamed(run.View(), view, uuid, j)
      invariant Session(ledger.calls, view, uuid, answers, j) && created == Made(ledger.calls)
    {
      var i := indices[j];
      var feature := run.features[i];
      NamedExtends(run.View(), view, uuid, i);
      NexusAtRank(view, i);
      assert feature == run.View()[i] == NexusFeatures(view)[j];
      var name := EndpointName(feature, uuid(j));
      SessionExtends(ledger.calls, view, uuid, answers, j);
      ledger.calls := ledger.calls + [Create(name, feature.taskQueue, answers(j))];
      if !answers(j).Created? {
        RefusalIs(answers, |indices|, j);
        CleanUpSettles(ledger.calls);
        ledger.CleanUp(created);
        if !answers(j).PermissionDenied? {
          return Noop, Some(CreateFailed(feature.dir));
        }
        NamedKeepsOthers(run.View(), view, uuid, j);
        var kept := Compact(run.features, run.count, f => !IsNexus(f));
        run.count := kept;
        return Noop, None;
      }
      ghost var before := run.View();
      run.features[i] := feature.(nexusEndpoint := name);
      assert run.View() == before[i := feature.(nexusEndpoint := name)];
      created := created + [answers(j).endpoint];
    }
    AllCreatedIs(answers, |indices|);
    cleanup, err := DeleteAll(created), None;
  }

  lemma NothingNamed(view: seq<RunFeature>, uuid: nat -> string)
    ensures AreNamed(view, view, uuid, 0)
  {
  }

  lemma {:induction false} RefusalIs(answers: nat -> Answer, n: nat, j: nat)
    requires j < n && !answers(j).Created? && forall k :: 0 <= k < j ==> answers(k).Created?
    ensures FirstRefusal(answers, n) == FailedAt(j)
  {
    if j < n - 1 {
      RefusalIs(answers, n - 1, j);
    } else {
      AllCreatedIs(answers, n - 1);
    }
  }

  lemma {:induction false} AllCreatedIs(answers: nat -> Answer, n: nat)
    requires forall k :: 0 <= k < n ==> answers(k).Created?
    ensures FirstRefusal(answers, n) == AllCreated
  {
    if n > 0 {
      AllCreatedIs(answers, n - 1);
    }
  }

  /** Every Nexus feature carries the name of an endpoint that was created with its own task queue as
      target. */
  lemma EndpointTargetsOwnQueue(view: seq<RunFeature>, uuid: nat -> string, answers: nat -> Answer, i: nat)
    requires i < |view| && IsNexus(view[i])
    ensures var n := |NexusFeatures(view)|;
      var k := Rank(view, i);
      && k < n
      && Creations(view, uuid, answers, n)[k]
         == Create(Named(view, i, uuid, n).nexusEndpoint, view[i].taskQueue, answers(k))
  {
    NexusAtRank(view, i);
  }

  /** No two features share an endpoint name. */
  lemma EndpointsAreOwn(view: seq<RunFeature>, uuid: nat -> string, i: nat, j: nat)
    requires FreshIds(uuid, |NexusFeatures(view)|)
    requires i < |view| && j < |view| && i != j && IsNexus(view[i]) && IsNexus(view[j])
    ensures var n := |NexusFeatures(view)|;
      Named(view, i, uuid, n).nexusEndpoint != Named(view, j, uuid, n).nexusEndpoint
  {
    NexusAtRank(view, i);
    NexusAtRank(view, j);
    RanksDiffer(view, i, j);
    NamesAreDistinct(view[i], view[j], uuid, Rank(view, i), Rank(view, j));
  }

  /** An endpoint's name has no '/' and no '_', and apart from these it has the characters of the
      directory; no name a server with DNS-style validation would refuse for them. */
  lemma EndpointNamesAre(f: RunFeature, uuid: string)
    requires LooksLikeUuid(uuid)
    ensures '/' !in EndpointName(f, uuid) && '_' !in EndpointName(f, uuid)
    ensures |Sanitize(f.dir)| == |f.dir| && forall i :: 0 <= i < |f.dir| ==>
      Sanitize(f.dir)[i] == if f.dir[i] == '/' || f.dir[i] == '_' then '-' else f.dir[i]
    ensures EndpointName(f, uuid) == "features-nexus-" + Sanitize(f.dir) + "-" + uuid
  {
    var head := "features-nexus-";
    assert '/' !in head && '_' !in head;
    assert '/' !in Sanitize(f.dir) && '_' !in Sanitize(f.dir);
  }

  /** A feature is a Nexus feature if its directory begins with "nexus/"; without these, all others are
      left. */
  lemma OthersAre(features: seq<RunFeature>, f: RunFeature)
    ensures f in NexusFeatures(features) <==> f in features && "nexus/" <= f.dir
    ensures f in OtherFeatures(features) <==> f in features && !("nexus/" <= f.dir)
    ensures |NexusFeatures(features)| + |OtherFeatures(features)| == |features|
  {
    PartsAddUp(features);
  }

  lemma {:induction false} PartsAddUp(features: seq<RunFeature>)
    ensures |NexusFeatures(features)| + |OtherFeatures(features)| == |features|
  {
    if features != [] {
      PartsAddUp(features[1..]);
    }
  }

  lemma {:induction false} DeletionCounts(calls: seq<Call>, e: Endpoint)
    ensures multiset(Deleted(calls))[e] == |Filter(calls, c => c == Delete(e))|
  {
    if calls != [] {
      var n := |calls| - 1;
      DeletionCounts(calls[..n], e);
      assert calls == calls[..n] + [calls[n]];
      FilterConcat(calls[..n], [calls[n]], c => c == Delete(e));
    }
  }

  lemma {:induction false} CreationCounts(calls: seq<Call>, e: Endpoint)
    ensures multiset(Made(calls))[e] == |Filter(calls, c => IsCreationOf(c, e))|
  {
    if calls != [] {
      var n := |calls| - 1;
      CreationCounts(calls[..n], e);
      assert calls == calls[..n] + [calls[n]];
      FilterConcat(calls[..n], [calls[n]], c => IsCreationOf(c, e));
    }
  }

  predicate IsCreationOf(c: Call, e: Endpoint) {
    c.Create? && c.answer == Created(e)
  }

  /** A session that is settled began by dialling and ended by closing, once each, and every endpoint the
      server made in it had its deletion attempted as often as it was made. */
  lemma SettledMeans(calls: seq<Call>)
    requires Settled(calls) && calls != []
    ensures calls[0] == Dial && calls[|calls| - 1] == Close
    ensures multiset(calls)[Dial] == 1 && multiset(calls)[Close] == 1
    ensures forall e :: |Filter(calls, c => c == Delete(e))| == |Filter(calls, c => IsCreationOf(c, e))|
  {
    forall e
      ensures |Filter(calls, c => c == Delete(e))| == |Filter(calls, c => IsCreationOf(c, e))|
    {
      DeletionCounts(calls, e);
      CreationCounts(calls, e);
    }
  }
}
