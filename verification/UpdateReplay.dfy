/** A worker and the server's event history, with crashes at any point. The rules of the SDK are the
    transition relation: a workflow task takes in every event recorded so far, its commands are
    recorded together when it completes, events arriving meanwhile are recorded after them, and a
    worker without the workflow in its cache re-runs the recorded inputs without any validator,
    matching the commands it produces against the recorded ones. */
module UpdateReplay {
  import opened Seqs
  import opened UpdateWorkflow

  // ----- Replay -----

  /** `expected` are commands produced but not yet met in the history. */
  datatype Replay = Replaying(w: Workflow, expected: seq<Event>) | Diverged

  const FRESH := Replaying(START, [])

  function ReplayEvent(kind: Kind, r: Replay, e: Event): Replay {
    if r.Diverged? then Diverged
    else if Input(e) then
      var (w, commands) := Deliver(kind, r.w, e);
      Replaying(w, r.expected + commands)
    else if r.expected != [] && r.expected[0] == e then Replaying(r.w, r.expected[1..])
    else Diverged
  }

  function ReplayFrom(kind: Kind, r: Replay, h: seq<Event>): Replay {
    if h == [] then r else ReplayEvent(kind, ReplayFrom(kind, r, h[..|h| - 1]), h[|h| - 1])
  }

  function ReplayAll(kind: Kind, h: seq<Event>): Replay {
    ReplayFrom(kind, FRESH, h)
  }

  lemma {:induction false} ReplayConcat(kind: Kind, r: Replay, a: seq<Event>, b: seq<Event>)
    ensures ReplayFrom(kind, r, a + b) == ReplayFrom(kind, ReplayFrom(kind, r, a), b)
  {
    if b == [] {
      assert a + b == a;
    } else {
      var n := |b| - 1;
      ReplayConcat(kind, r, a, b[..n]);
      assert (a + b)[..|a + b| - 1] == a + b[..n];
    }
  }

  function Inputs(h: seq<Event>): (r: seq<Event>)
    ensures forall e :: e in r ==> Input(e)
  {
    Filter(h, e => Input(e))
  }

  function Commands(h: seq<Event>): seq<Event> {
    Filter(h, e => !Input(e))
  }

  lemma FiltersAppend(h: seq<Event>, e: Event)
    ensures Inputs(h + [e]) == if Input(e) then Inputs(h) + [e] else Inputs(h)
    ensures Commands(h + [e]) == if Input(e) then Commands(h) else Commands(h) + [e]
  {
    FilterConcat(h, [e], e => Input(e));
    FilterConcat(h, [e], e => !Input(e));
    assert Filter([e], e => Input(e)) == if Input(e) then [e] else [];
    assert Filter([e], e => !Input(e)) == if Input(e) then [] else [e];
    assert Inputs(h) + [] == Inputs(h) && Commands(h) + [] == Commands(h);
  }

  ghost predicate IsRun(kind: Kind, h: seq<Event>, r: Replay) {
    r.Replaying? ==> RunInputs(kind, Inputs(h)) == (r.w, Commands(h) + r.expected)
  }

  lemma IsRunExtends(kind: Kind, h: seq<Event>, r: Replay, e: Event)
    requires IsRun(kind, h, r)
    ensures IsRun(kind, h + [e], ReplayEvent(kind, r, e))
  {
    hide Inputs, Commands;
    FiltersAppend(h, e);
    if r.Replaying? && Input(e) {
      assert (Inputs(h) + [e])[..|Inputs(h)|] == Inputs(h);
      var (w, commands) := Deliver(kind, r.w, e);
      assert Commands(h) + (r.expected + commands) == Commands(h) + r.expected + commands;
    } else if ReplayEvent(kind, r, e).Replaying? {
      assert Commands(h) + r.expected == Commands(h) + [e] + r.expected[1..];
    }
  }

  /** A replay that does not diverge is the sequential run of the recorded inputs, and the recorded
      commands followed by the expected ones are exactly that run's commands. */
  lemma {:induction false} ReplayIsRun(kind: Kind, h: seq<Event>)
    ensures IsRun(kind, h, ReplayAll(kind, h))
  {
    if h == [] {
      assert Inputs(h) == [] && Commands(h) + [] == [];
    } else {
      var before := h[..|h| - 1];
      ReplayIsRun(kind, before);
      IsRunExtends(kind, before, ReplayAll(kind, before), h[|h| - 1]);
      assert before + [h[|h| - 1]] == h;
    }
  }

  lemma {:induction false} ExpectedAreCommands(kind: Kind, h: seq<Event>)
    ensures var r := ReplayAll(kind, h); r.Replaying? ==> forall e :: e in r.expected ==> !Input(e)
  {
    if h != [] {
      ExpectedAreCommands(kind, h[..|h| - 1]);
    }
  }

  /** Recording the expected commands leaves none expected. */
  lemma {:induction false} RecordExpected(kind: Kind, w: Workflow, expected: seq<Event>)
    requires forall e :: e in expected ==> !Input(e)
    ensures ReplayFrom(kind, Replaying(w, expected), expected) == Replaying(w, [])
    decreases |expected|
  {
    if expected != [] {
      var (e, rest) := (expected[0], expected[1..]);
      assert expected == [e] + rest;
      ReplayConcat(kind, Replaying(w, expected), [e], rest);
      assert [e][..0] == [];
      assert ReplayFrom(kind, Replaying(w, expected), [e]) == Replaying(w, rest);
      RecordExpected(kind, w, rest);
    }
  }

  lemma {:induction false} InputsNeverDiverge(kind: Kind, r: Replay, inputs: seq<Event>)
    requires r.Replaying? && forall e :: e in inputs ==> Input(e)
    ensures ReplayFrom(kind, r, inputs).Replaying?
  {
    if inputs != [] {
      InputsNeverDiverge(kind, r, inputs[..|inputs| - 1]);
    }
  }

  // ----- The system -----

  /** The workflow as left by the last task of this worker, and how much history it has seen. */
  datatype Cached = Cached(w: Workflow, seen: nat)

  datatype Task = NoTask | InTask(w: Workflow, emitted: seq<Event>)

  datatype System = System(
    history: seq<Event>,      // recorded on the server
    buffered: seq<Event>,     // arrived during the current task
    cache: Option<Cached>,    // lost in a crash
    task: Task,
    validations: nat)         // the process-wide validationCounter

  datatype Action =
    | StartTask
    | Update(id: Id, addend: int)   // an update request reaches the worker
    | Commit
    | Crash(validations: nat)       // another process, whose counter may be anything
    | Resolve(id: Id, ok: bool)     // an activity ends
    | Signal

  const INITIAL := System([], [], None, NoTask, 0)

  /** What a worker continues from when it starts a task. */
  function Resumed(kind: Kind, s: System): Replay
    requires s.cache.Some? ==> s.cache.value.seen <= |s.history|
  {
    match s.cache
    case None => ReplayAll(kind, s.history)
    case Some(Cached(w, seen)) => ReplayFrom(kind, Replaying(w, []), s.history[seen..])
  }

  /** The validator of validation_replay passes the first time only; fetchAndAdd has none. */
  predicate Passes(kind: Kind, validations: nat) {
    kind == Validated ==> validations <= 1
  }

  predicate Knows(events: seq<Event>, id: Id) {
    exists i :: 0 <= i < |events| && events[i].Accepted? && events[i].id == id
  }

  predicate Enabled(kind: Kind, s: System, a: Action) {
    match a
    case StartTask =>
      s.task.NoTask? && (s.cache.Some? ==> s.cache.value.seen <= |s.history|) && Resumed(kind, s).Replaying?
    case Update(id, _) => s.task.InTask? && !s.task.w.done && !Knows(s.history + s.task.emitted, id)
    case Commit => s.task.InTask?
    case Crash(_) => true
    case Resolve(id, _) =>
      ActivityScheduled(id) in s.history
      && ActivityResolved(id, true) !in s.history + s.buffered
      && ActivityResolved(id, false) !in s.history + s.buffered
    case Signal => true
  }

  function Arrive(s: System, e: Event): System {
    if s.task.NoTask? then s.(history := s.history + [e]) else s.(buffered := s.buffered + [e])
  }

  function Apply(kind: Kind, s: System, a: Action): System
    requires Enabled(kind, s, a)
  {
    match a
    case StartTask =>
      var r := Resumed(kind, s);
      s.(task := InTask(r.w, r.expected))
    case Update(id, addend) =>
      var validations := if kind == Validated then s.validations + 1 else s.validations;
      if Passes(kind, validations) then
        var e := Accepted(id, addend);
        var (w, commands) := Deliver(kind, s.task.w, e);
        s.(validations := validations, task := InTask(w, s.task.emitted + [e] + commands))
      else s.(validations := validations)
    case Commit =>
      var recorded := s.history + s.task.emitted;
      s.(history := recorded + s.buffered, buffered := [], task := NoTask,
         cache := Some(Cached(s.task.w, |recorded|)))
    case Crash(validations) =>
      System(s.history + s.buffered, [], None, NoTask, validations)
    case Resolve(id, ok) => Arrive(s, ActivityResolved(id, ok))
    case Signal => Arrive(s, Signaled)
  }

  predicate Possible(kind: Kind, s: System, acts: seq<Action>)
    decreases |acts|
  {
    acts == [] || (Enabled(kind, s, acts[0]) && Possible(kind, Apply(kind, s, acts[0]), acts[1..]))
  }

  function After(kind: Kind, s: System, acts: seq<Action>): System
    requires Possible(kind, s, acts)
    decreases |acts|
  {
    if acts == [] then s else After(kind, Apply(kind, s, acts[0]), acts[1..])
  }

  // ----- What every run keeps -----

  /** Everything recorded once the current task is. */
  function Recorded(s: System): seq<Event> {
    if s.task.NoTask? then s.history else s.history + s.task.emitted
  }

  /** Every accepted update is followed at once by the scheduling of its activity, and is recorded
      when the replay expects nothing. */
  ghost predicate AcceptsAreScheduled(kind: Kind, h: seq<Event>) {
    forall i :: 0 <= i < |h| && h[i].Accepted? ==>
      && i + 1 < |h| && h[i + 1] == ActivityScheduled(h[i].id)
      && ReplayAll(kind, h[..i]).Replaying? && ReplayAll(kind, h[..i]).expected == []
  }

  ghost predicate AllInputs(events: seq<Event>) {
    forall i :: 0 <= i < |events| ==> Input(events[i]) && !events[i].Accepted?
  }

  ghost predicate CacheOk(kind: Kind, s: System) {
    s.cache.Some? ==>
      var c := s.cache.value;
      && c.seen <= |s.history|
      && ReplayAll(kind, s.history[..c.seen]) == Replaying(c.w, [])
      && AllInputs(s.history[c.seen..])
  }

  ghost predicate Inv(kind: Kind, s: System) {
    && ReplayAll(kind, s.history).Replaying?
    && (s.task.InTask? ==> ReplayAll(kind, Recorded(s)) == Replaying(s.task.w, []))
    && CacheOk(kind, s)
    && AllInputs(s.buffered)
    && (s.task.NoTask? ==> s.buffered == [])
    && AcceptsAreScheduled(kind, Recorded(s))
    && AcceptsAreScheduled(kind, s.history)
    && UniqueUpdates(Recorded(s))
  }

  /** A cached workflow is what a replay from scratch gives: dropping it changes nothing. */
  lemma CacheIsReplay(kind: Kind, s: System)
    requires CacheOk(kind, s)
    ensures Resumed(kind, s) == ReplayAll(kind, s.history)
  {
    if s.cache.Some? {
      var c := s.cache.value;
      ReplayConcat(kind, FRESH, s.history[..c.seen], s.history[c.seen..]);
      assert s.history[..c.seen] + s.history[c.seen..] == s.history;
    }
  }

  lemma AppendInputs(kind: Kind, h: seq<Event>, inputs: seq<Event>)
    requires ReplayAll(kind, h).Replaying? && AllInputs(inputs)
    requires AcceptsAreScheduled(kind, h) && UniqueUpdates(h)
    ensures ReplayAll(kind, h + inputs).Replaying?
    ensures AcceptsAreScheduled(kind, h + inputs) && UniqueUpdates(h + inputs)
  {
    ReplayConcat(kind, FRESH, h, inputs);
    InputsNeverDiverge(kind, ReplayAll(kind, h), inputs);
    var all := h + inputs;
    assert forall i :: |h| <= i < |all| ==> all[i] == inputs[i - |h|];
    assert forall i :: 0 <= i < |h| ==> all[i] == h[i] && all[..i] == h[..i];
  }

  lemma AppendCommands(kind: Kind, h: seq<Event>, commands: seq<Event>)
    requires AcceptsAreScheduled(kind, h) && UniqueUpdates(h)
    requires forall e :: e in commands ==> !Input(e)
    ensures AcceptsAreScheduled(kind, h + commands) && UniqueUpdates(h + commands)
  {
    var all := h + commands;
    assert forall i :: |h| <= i < |all| ==> all[i] == commands[i - |h|] && all[i] in commands;
    assert forall i :: 0 <= i < |h| ==> all[i] == h[i] && all[..i] == h[..i];
  }

  lemma StartKeepsInv(kind: Kind, s: System)
    requires Inv(kind, s) && Enabled(kind, s, StartTask)
    ensures Inv(kind, Apply(kind, s, StartTask))
  {
    CacheIsReplay(kind, s);
    var r := Resumed(kind, s);
    ExpectedAreCommands(kind, s.history);
    ReplayConcat(kind, FRESH, s.history, r.expected);
    RecordExpected(kind, r.w, r.expected);
    AppendCommands(kind, s.history, r.expected);
  }

  lemma RecordAccept(kind: Kind, h: seq<Event>, w: Workflow, id: Id, addend: int)
    requires ReplayAll(kind, h) == Replaying(w, []) && !w.done && !Knows(h, id)
    requires AcceptsAreScheduled(kind, h) && UniqueUpdates(h)
    ensures var all := h + [Accepted(id, addend)] + [ActivityScheduled(id)];
      && ReplayAll(kind, all) == Replaying(w.(blocked := w.blocked[id := addend]), [])
      && AcceptsAreScheduled(kind, all) && UniqueUpdates(all)
  {
    var (e, c) := (Accepted(id, addend), ActivityScheduled(id));
    var all := h + [e] + [c];
    ReplayAccept(kind, h, w, id, addend);
    hide ReplayFrom;
    assert all[..|h|] == h && all[|h|] == e && all[|h| + 1] == c;
    assert forall i :: 0 <= i < |h| ==> all[i] == h[i] && all[..i] == h[..i];
    assert forall i :: 0 <= i < |h| && h[i].Accepted? ==> h[i].id != id;
  }

  lemma ReplayAccept(kind: Kind, h: seq<Event>, w: Workflow, id: Id, addend: int)
    requires ReplayAll(kind, h) == Replaying(w, []) && !w.done
    ensures ReplayAll(kind, h + [Accepted(id, addend)] + [ActivityScheduled(id)])
         == Replaying(w.(blocked := w.blocked[id := addend]), [])
  {
    hide ReplayFrom;
    var (e, c) := (Accepted(id, addend), ActivityScheduled(id));
    ReplayOne(kind, h, e);
    ReplayOne(kind, h + [e], c);
  }

  lemma ReplayOne(kind: Kind, h: seq<Event>, e: Event)
    ensures ReplayAll(kind, h + [e]) == ReplayEvent(kind, ReplayAll(kind, h), e)
  {
    hide ReplayEvent;
    assert (h + [e])[..|h|] == h;
  }

  lemma UpdateKeepsInv(kind: Kind, s: System, id: Id, addend: int)
    requires Inv(kind, s) && Enabled(kind, s, Update(id, addend))
    ensures Inv(kind, Apply(kind, s, Update(id, addend)))
  {
    hide ReplayFrom, AcceptsAreScheduled, UniqueUpdates;
    RecordAccept(kind, Recorded(s), s.task.w, id, addend);
    assert s.history + (s.task.emitted + [Accepted(id, addend)] + [ActivityScheduled(id)])
        == Recorded(s) + [Accepted(id, addend)] + [ActivityScheduled(id)];
  }

  lemma CommitKeepsInv(kind: Kind, s: System)
    requires Inv(kind, s) && Enabled(kind, s, Commit)
    ensures Inv(kind, Apply(kind, s, Commit))
  {
    var h := Recorded(s);
    AppendInputs(kind, h, s.buffered);
    assert (h + s.buffered)[..|h|] == h && (h + s.buffered)[|h|..] == s.buffered;
  }

  lemma UniquePrefix(h: seq<Event>, more: seq<Event>)
    requires UniqueUpdates(h + more)
    ensures UniqueUpdates(h)
  {
    forall i, j | 0 <= i < j < |h| && h[i].Accepted? && h[j].Accepted?
      ensures h[i].id != h[j].id
    {
      assert (h + more)[i] == h[i] && (h + more)[j] == h[j];
    }
  }

  lemma CrashKeepsInv(kind: Kind, s: System, validations: nat)
    requires Inv(kind, s)
    ensures Inv(kind, Apply(kind, s, Crash(validations)))
  {
    if s.task.InTask? {
      UniquePrefix(s.history, s.task.emitted);
    }
    AppendInputs(kind, s.history, s.buffered);
  }

  lemma ArriveKeepsInv(kind: Kind, s: System, e: Event)
    requires Inv(kind, s) && Input(e) && !e.Accepted?
    ensures Inv(kind, Arrive(s, e))
  {
    hide ReplayFrom, AcceptsAreScheduled, UniqueUpdates;
    if s.task.NoTask? {
      AppendInputs(kind, s.history, [e]);
      if s.cache.Some? {
        var seen := s.cache.value.seen;
        assert (s.history + [e])[..seen] == s.history[..seen];
        assert (s.history + [e])[seen..] == s.history[seen..] + [e];
      }
    }
  }

  lemma StepKeepsInv(kind: Kind, s: System, a: Action)
    requires Inv(kind, s) && Enabled(kind, s, a)
    ensures Inv(kind, Apply(kind, s, a))
  {
    match a
    case StartTask => StartKeepsInv(kind, s);
    case Update(id, addend) => UpdateKeepsInv(kind, s, id, addend);
    case Commit => CommitKeepsInv(kind, s);
    case Crash(validations) => CrashKeepsInv(kind, s, validations);
    case Resolve(id, ok) => ArriveKeepsInv(kind, s, ActivityResolved(id, ok));
    case Signal => ArriveKeepsInv(kind, s, Signaled);
  }

  lemma {:induction false} RunKeepsInv(kind: Kind, s: System, acts: seq<Action>)
    requires Inv(kind, s) && Possible(kind, s, acts)
    ensures Inv(kind, After(kind, s, acts))
    decreases |acts|
  {
    if acts != [] {
      StepKeepsInv(kind, s, acts[0]);
      RunKeepsInv(kind, Apply(kind, s, acts[0]), acts[1..]);
    }
  }

  lemma InitialInv(kind: Kind)
    ensures Inv(kind, INITIAL)
  {
  }

  // ----- Main results -----

  /** Whatever crashes happened, a worker that lost the workflow can always continue, and continues
      from the very state a worker that kept it has; validators play no part in either. */
  lemma RecoveryIsExact(kind: Kind, acts: seq<Action>, validations: nat)
    requires Possible(kind, INITIAL, acts)
    requires After(kind, INITIAL, acts).task.NoTask?
    ensures var s := After(kind, INITIAL, acts);
      && Enabled(kind, s, StartTask)
      && Enabled(kind, Apply(kind, s, Crash(validations)), StartTask)
      && Apply(kind, Apply(kind, s, Crash(validations)), StartTask).task == Apply(kind, s, StartTask).task
  {
    InitialInv(kind);
    RunKeepsInv(kind, INITIAL, acts);
    var s := After(kind, INITIAL, acts);
    CacheIsReplay(kind, s);
    assert s.history + s.buffered == s.history;
  }

  /** In every run with crashes the recorded updates answer with the running sums of the addends in
      the order of their completion, none is answered twice, and a recorded workflow result is the
      sum of all addends whose updates succeeded. */
  lemma RecordedSumsAreRight(acts: seq<Action>)
    requires Possible(FetchAndAdd, INITIAL, acts)
    ensures var h := After(FetchAndAdd, INITIAL, acts).history;
      var (w, out) := RunInputs(FetchAndAdd, Inputs(h));
      Commands(h) <= out && Consistent(Inputs(h), w, out)
  {
    InitialInv(FetchAndAdd);
    RunKeepsInv(FetchAndAdd, INITIAL, acts);
    var s := After(FetchAndAdd, INITIAL, acts);
    if s.task.InTask? {
      UniquePrefix(s.history, s.task.emitted);
    }
    var r := ReplayAll(FetchAndAdd, s.history);
    ReplayIsRun(FetchAndAdd, s.history);
    InputsKeepUnique(s.history);
    RunIsConsistent(Inputs(s.history));
    assert Commands(s.history) <= Commands(s.history) + r.expected;
  }

  lemma {:induction false} InputsKeepUnique(h: seq<Event>)
    requires UniqueUpdates(h)
    ensures UniqueUpdates(Inputs(h))
  {
    if h != [] {
      var (before, e) := (h[..|h| - 1], h[|h| - 1]);
      InputsKeepUnique(before);
      assert before + [e] == h;
      FiltersAppend(before, e);
      forall i | 0 <= i < |Inputs(before)| && Inputs(before)[i].Accepted? && e.Accepted?
        ensures Inputs(before)[i].id != e.id
      {
        assert Inputs(before)[i] in before;
      }
    }
  }

  // ----- An SDK that validates during replay -----

  /** Replay that wrongly runs the validator of validation_replay on recorded updates. */
  function ReplayValidating(r: Replay, h: seq<Event>, validations: nat): Replay
    decreases |h|
  {
    if h == [] then r
    else if !h[0].Accepted? then ReplayValidating(ReplayEvent(Validated, r, h[0]), h[1..], validations)
    else if Passes(Validated, validations + 1) then
      ReplayValidating(ReplayEvent(Validated, r, h[0]), h[1..], validations + 1)
    else ReplayValidating(r, h[1..], validations + 1)
  }

  function CountAccepted(h: seq<Event>): nat {
    if h == [] then 0 else (if h[0].Accepted? then 1 else 0) + CountAccepted(h[1..])
  }

  lemma {:induction false} DivergedStays(h: seq<Event>, validations: nat)
    ensures ReplayValidating(Diverged, h, validations).Diverged?
  {
    if h != [] {
      DivergedStays(h[1..], if h[0].Accepted? then validations + 1 else validations);
    }
  }

  lemma {:induction false} ValidatingFrom(h: seq<Event>, n: nat, validations: nat)
    requires n <= |h| && AcceptsAreScheduled(Validated, h)
    requires ReplayAll(Validated, h).Replaying?
    ensures ReplayValidating(ReplayAll(Validated, h[..n]), h[n..], validations).Diverged?
       <==> CountAccepted(h[n..]) > 0 && validations + CountAccepted(h[n..]) > 1
    decreases |h| - n
  {
    var r := ReplayAll(Validated, h[..n]);
    PrefixReplays(Validated, h, n);
    if n < |h| {
      var e := h[n];
      assert h[n..][1..] == h[n + 1..] && h[..n + 1][..n] == h[..n];
      assert ReplayAll(Validated, h[..n + 1]) == ReplayEvent(Validated, r, e);
      if !e.Accepted? {
        ValidatingFrom(h, n + 1, validations);
      } else if validations == 0 {
        ValidatingFrom(h, n + 1, 1);
      } else {
        // The update is refused, so the command recorded next has nothing to match.
        var c := h[n + 1];
        assert h[n + 1..][0] == c && r.expected == [];
        assert ReplayEvent(Validated, r, c) == Diverged;
        DivergedStays(h[n + 1..][1..], validations + 1);
      }
    }
  }

  lemma PrefixReplays(kind: Kind, h: seq<Event>, n: nat)
    requires n <= |h| && ReplayAll(kind, h).Replaying?
    ensures ReplayAll(kind, h[..n]).Replaying?
  {
    assert h[..n] + h[n..] == h;
    ReplayConcat(kind, FRESH, h[..n], h[n..]);
    DivergedForGood(kind, h[n..]);
  }

  lemma {:induction false} DivergedForGood(kind: Kind, h: seq<Event>)
    ensures ReplayFrom(kind, Diverged, h).Diverged?
  {
    if h != [] {
      DivergedForGood(kind, h[..|h| - 1]);
    }
  }

  /** What validation_replay detects: on any history a run can record, an SDK that validates during
      replay diverges exactly when some update was accepted and the validator has been called
      before, in this process or for another recorded update. Replay without validators never does. */
  lemma ValidatingReplayDiverges(acts: seq<Action>, validations: nat)
    requires Possible(Validated, INITIAL, acts)
    ensures var h := After(Validated, INITIAL, acts).history;
      && ReplayAll(Validated, h).Replaying?
      && (ReplayValidating(FRESH, h, validations).Diverged?
          <==> CountAccepted(h) > 0 && validations + CountAccepted(h) > 1)
  {
    InitialInv(Validated);
    RunKeepsInv(Validated, INITIAL, acts);
    var h := After(Validated, INITIAL, acts).history;
    ValidatingFrom(h, 0, validations);
    assert h[0..] == h && h[..0] == [];
  }

  // ----- The validator -----

  ghost predicate NoCrash(acts: seq<Action>) {
    forall i :: 0 <= i < |acts| ==> !acts[i].Crash?
  }

  ghost predicate AnyUpdate(acts: seq<Action>) {
    exists i :: 0 <= i < |acts| && acts[i].Update?
  }

  lemma {:induction false} CountConcat(a: seq<Event>, b: seq<Event>)
    ensures CountAccepted(a + b) == CountAccepted(a) + CountAccepted(b)
  {
    if a == [] {
      assert a + b == b;
    } else {
      CountConcat(a[1..], b);
      assert (a + b)[1..] == a[1..] + b;
    }
  }

  lemma {:induction false} NoneAccepted(events: seq<Event>)
    requires forall i :: 0 <= i < |events| ==> !events[i].Accepted?
    ensures CountAccepted(events) == 0
  {
    if events != [] {
      NoneAccepted(events[1..]);
    }
  }

  /** All that is recorded or will be when the current task ends. */
  function Pending(s: System): seq<Event> {
    Recorded(s) + s.buffered
  }

  lemma PendingStep(s: System, a: Action)
    requires Inv(Validated, s) && Enabled(Validated, s, a) && !a.Crash?
    ensures var s' := Apply(Validated, s, a);
      if a.Update? then
        && s'.validations == s.validations + 1
        && CountAccepted(Pending(s')) == CountAccepted(Pending(s)) + (if s.validations == 0 then 1 else 0)
      else s'.validations == s.validations && CountAccepted(Pending(s')) == CountAccepted(Pending(s))
  {
    hide AcceptsAreScheduled, UniqueUpdates;
    var s' := Apply(Validated, s, a);
    match a
    case StartTask =>
      CacheIsReplay(Validated, s);
      ExpectedAreCommands(Validated, s.history);
      assert forall i :: 0 <= i < |s'.task.emitted| ==> s'.task.emitted[i] in s'.task.emitted;
      NoneAccepted(s'.task.emitted);
      CountConcat(s.history, s'.task.emitted);
      assert Pending(s) == s.history && Pending(s') == s.history + s'.task.emitted;
    case Update(id, addend) =>
      if s.validations == 0 {
        var more := [Accepted(id, addend), ActivityScheduled(id)];
        assert s'.task.emitted == s.task.emitted + more;
        assert Recorded(s') == Recorded(s) + more;
        assert more[1..] == [ActivityScheduled(id)] && more[1..][1..] == [];
        assert CountAccepted(more[1..]) == 0 && CountAccepted(more) == 1;
        CountConcat(Recorded(s), more);
      }
      CountConcat(Recorded(s), s.buffered);
      CountConcat(Recorded(s'), s.buffered);
    case Commit =>
      assert Pending(s) == s'.history;
      assert Pending(s') == s'.history + [] == s'.history;
    case Resolve(id, ok) => ArrivalIsPending(s, ActivityResolved(id, ok));
    case Signal => ArrivalIsPending(s, Signaled);
  }

  lemma ArrivalIsPending(s: System, e: Event)
    requires !e.Accepted? && (s.task.NoTask? ==> s.buffered == [])
    ensures CountAccepted(Pending(Arrive(s, e))) == CountAccepted(Pending(s))
  {
    assert [e][1..] == [];
    CountConcat(Pending(s), [e]);
    assert Pending(Arrive(s, e)) == Pending(s) + [e];
  }

  /** Within one process the validator lets exactly the first update pass: without a crash, one update
      is accepted if any reaches the worker, and the counter is the number of those that did. */
  lemma {:induction false} ValidatorPassesOnce(s: System, acts: seq<Action>)
    requires Inv(Validated, s) && Possible(Validated, s, acts) && NoCrash(acts)
    ensures var s' := After(Validated, s, acts);
      CountAccepted(Pending(s'))
        == CountAccepted(Pending(s)) + (if s.validations == 0 && AnyUpdate(acts) then 1 else 0)
    decreases |acts|
  {
    hide Inv, Pending, Enabled, Apply;
    if acts != [] {
      var next := Apply(Validated, s, acts[0]);
      StepKeepsInv(Validated, s, acts[0]);
      PendingStep(s, acts[0]);
      ValidatorPassesOnce(next, acts[1..]);
      assert AnyUpdate(acts) <==> acts[0].Update? || AnyUpdate(acts[1..]) by {
        assert forall i :: 1 <= i < |acts| ==> acts[i] == acts[1..][i - 1];
      }
    }
  }

  /** In particular from the start. */
  lemma OneUpdatePerProcess(acts: seq<Action>)
    requires Possible(Validated, INITIAL, acts) && NoCrash(acts)
    ensures CountAccepted(Pending(After(Validated, INITIAL, acts))) == if AnyUpdate(acts) then 1 else 0
  {
    InitialInv(Validated);
    ValidatorPassesOnce(INITIAL, acts);
  }

  // ----- Arrivals -----

  predicate Arrived(e: Event) {
    e.Signaled? || e.ActivityResolved?
  }

  predicate IsArrival(a: Action) {
    a.Signal? || a.Resolve?
  }

  /** The signals and activity results on the server. */
  function Arrivals(events: seq<Event>): seq<Event> {
    Filter(events, e => Arrived(e))
  }

  lemma {:induction false} NoArrivals(events: seq<Event>)
    requires forall e :: e in events ==> !Arrived(e)
    ensures Arrivals(events) == []
  {
    if events != [] {
      NoArrivals(events[1..]);
    }
  }

  lemma ArrivalsConcat(a: seq<Event>, b: seq<Event>)
    ensures Arrivals(a + b) == Arrivals(a) + Arrivals(b)
  {
    FilterConcat(a, b, e => Arrived(e));
  }

  /** The event an action brings. */
  function ArrivalOf(a: Action): seq<Event> {
    match a
    case Resolve(id, ok) => [ActivityResolved(id, ok)]
    case Signal => [Signaled]
    case _ => []
  }

  lemma ArrivalStep(kind: Kind, s: System, a: Action)
    requires Inv(kind, s) && Enabled(kind, s, a) && EmitsNoArrivals(s)
    ensures var s' := Apply(kind, s, a);
      && EmitsNoArrivals(s')
      && Arrivals(s'.history + s'.buffered) == Arrivals(s.history + s.buffered) + ArrivalOf(a)
  {
    hide AcceptsAreScheduled, UniqueUpdates;
    var s' := Apply(kind, s, a);
    var before := Arrivals(s.history + s.buffered);
    assert before + [] == before;
    match a
    case StartTask =>
      CacheIsReplay(kind, s);
      ExpectedAreCommands(kind, s.history);
    case Update(id, addend) =>
    case Commit =>
      NoArrivals(s.task.emitted);
      ArrivalsConcat(s.history, s.task.emitted);
      ArrivalsConcat(s.history + s.task.emitted, s.buffered);
      ArrivalsConcat(s.history, s.buffered);
      assert Arrivals(s.history) + [] == Arrivals(s.history);
      assert s'.history + s'.buffered == s.history + s.task.emitted + s.buffered;
    case Crash(_) => assert s'.history + s'.buffered == s.history + s.buffered;
    case Resolve(id, ok) => ArrivalJoins(s, ActivityResolved(id, ok));
    case Signal => ArrivalJoins(s, Signaled);
  }

  /** A task's own events are commands and accepted updates. */
  ghost predicate EmitsNoArrivals(s: System) {
    s.task.InTask? ==> forall e :: e in s.task.emitted ==> !Arrived(e)
  }

  lemma ArrivalJoins(s: System, e: Event)
    requires Arrived(e) && (s.task.NoTask? ==> s.buffered == [])
    ensures Arrivals(Arrive(s, e).history + Arrive(s, e).buffered) == Arrivals(s.history + s.buffered) + [e]
  {
    ArrivalsConcat(s.history + s.buffered, [e]);
    assert Arrivals([e]) == [e];
    assert Arrive(s, e).history + Arrive(s, e).buffered == s.history + s.buffered + [e];
  }

  function ArrivalsOf(acts: seq<Action>): seq<Event> {
    if acts == [] then [] else ArrivalOf(acts[0]) + ArrivalsOf(acts[1..])
  }

  lemma {:induction false} ArrivalsFrom(kind: Kind, s: System, acts: seq<Action>)
    requires Inv(kind, s) && Possible(kind, s, acts) && EmitsNoArrivals(s)
    ensures var s' := After(kind, s, acts);
      Arrivals(s'.history + s'.buffered) == Arrivals(s.history + s.buffered) + ArrivalsOf(acts)
    decreases |acts|
  {
    hide Inv, Arrivals, ArrivalOf, Enabled, Apply, EmitsNoArrivals;
    if acts == [] {
      assert Arrivals(s.history + s.buffered) + [] == Arrivals(s.history + s.buffered);
    } else {
      StepKeepsInv(kind, s, acts[0]);
      ArrivalStep(kind, s, acts[0]);
      ArrivalsFrom(kind, Apply(kind, s, acts[0]), acts[1..]);
      Regroup(Arrivals(s.history + s.buffered), ArrivalOf(acts[0]), ArrivalsOf(acts[1..]));
    }
  }

  /** Whatever crashes happen and whenever, every signal and every activity result that arrived is on the
      server, once and in the order of arrival. */
  lemma NoArrivalIsLost(kind: Kind, acts: seq<Action>)
    requires Possible(kind, INITIAL, acts)
    ensures var s := After(kind, INITIAL, acts); Arrivals(s.history + s.buffered) == ArrivalsOf(acts)
  {
    InitialInv(kind);
    ArrivalsFrom(kind, INITIAL, acts);
    NoArrivals([]);
    assert INITIAL.history + INITIAL.buffered == [] && [] + ArrivalsOf(acts) == ArrivalsOf(acts);
  }
}
