/** The workflow bodies of features/update/worker_restart and features/update/validation_replay,
    cut at their yield points: an update handler yields only while it waits for its activity, the
    main coroutine only while it waits for the shutdown signal. */
module UpdateWorkflow {
  import opened Seqs

  type Id = nat

  /** Which of the two handlers is registered. */
  datatype Kind = FetchAndAdd | Validated

  datatype Outcome = Returned(value: int) | Failed

  /** History events. The first three are inputs, the others record the workflow's commands. */
  datatype Event =
    | Accepted(id: Id, addend: int)
    | ActivityResolved(id: Id, ok: bool)
    | Signaled
    | ActivityScheduled(id: Id)
    | UpdateCompleted(id: Id, outcome: Outcome)
    | WorkflowCompleted(result: int)

  predicate Input(e: Event) {
    e.Accepted? || e.ActivityResolved? || e.Signaled?
  }

  /** The value a 64-bit Go int keeps of `n`. */
  function Wrap64(n: int): int {
    (n + 0x8000_0000_0000_0000) % 0x1_0000_0000_0000_0000 - 0x8000_0000_0000_0000
  }

  lemma WrapOfSum(a: int, b: int)
    ensures Wrap64(Wrap64(a) + b) == Wrap64(a + b)
  {
  }

  /** `blocked` holds the addend of every handler that waits for its activity. */
  datatype Workflow = Workflow(counter: int, blocked: map<Id, int>, done: bool)

  const START := Workflow(0, map[], false)

  /** One input, up to the next yield of the coroutine it resumes: the new state and the commands. */
  function Deliver(kind: Kind, w: Workflow, e: Event): (Workflow, seq<Event>)
    requires Input(e)
  {
    if w.done then (w, [])
    else match e
      case Accepted(id, addend) =>
        (w.(blocked := w.blocked[id := addend]), [ActivityScheduled(id)])
      case ActivityResolved(id, ok) =>
        if id !in w.blocked then (w, [])
        else
          var resumed := w.(blocked := w.blocked - {id});
          if kind == Validated then (resumed, [UpdateCompleted(id, Returned(0))])
          else if !ok then (resumed, [UpdateCompleted(id, Failed)])
          else (resumed.(counter := Wrap64(w.counter + w.blocked[id])),
                [UpdateCompleted(id, Returned(w.counter))])
      case Signaled =>
        (w.(done := true), [WorkflowCompleted(if kind == FetchAndAdd then w.counter else 0)])
  }

  /** The workflow function with its handler closure: the closure's variable and the waiting
      handlers are fields, and each method runs one coroutine to its next yield. */
  class Instance {
    const kind: Kind
    var counter: int
    var blocked: map<Id, int>
    var done: bool

    constructor (kind: Kind)
      ensures this.kind == kind && View() == START
    {
      this.kind, counter, blocked, done := kind, 0, map[], false;
    }

    function View(): Workflow
      reads this
    {
      Workflow(counter, blocked, done)
    }

    /** The handler up to `.Get`. */
    method OnUpdate(id: Id, addend: int) returns (commands: seq<Event>)
      modifies this
      ensures (View(), commands) == Deliver(kind, old(View()), Accepted(id, addend))
    {
      if done {
        return [];
      }
      blocked := blocked[id := addend];
      commands := [ActivityScheduled(id)];
    }

    /** The handler from `.Get` to its return. */
    method OnActivity(id: Id, ok: bool) returns (commands: seq<Event>)
      modifies this
      ensures (View(), commands) == Deliver(kind, old(View()), ActivityResolved(id, ok))
    {
      if done || id !in blocked {
        return [];
      }
      var addend := blocked[id];
      blocked := blocked - {id};
      if kind == Validated {
        return [UpdateCompleted(id, Returned(0))];
      }
      if !ok {
        return [UpdateCompleted(id, Failed)];
      }
      var tmp := counter;
      counter := Wrap64(counter + addend);
      commands := [UpdateCompleted(id, Returned(tmp))];
    }

    /** The main coroutine from `Receive` to its return. */
    method OnSignal() returns (commands: seq<Event>)
      modifies this
      ensures (View(), commands) == Deliver(kind, old(View()), Signaled)
    {
      if done {
        return [];
      }
      done := true;
      commands := [WorkflowCompleted(if kind == FetchAndAdd then counter else 0)];
    }
  }

  // ----- Whole runs -----

  /** The state and all commands after a sequence of inputs. */
  function RunInputs(kind: Kind, inputs: seq<Event>): (Workflow, seq<Event>)
    requires forall e :: e in inputs ==> Input(e)
  {
    if inputs == [] then (START, [])
    else
      var n := |inputs| - 1;
      var (w, out) := RunInputs(kind, inputs[..n]);
      var (w', commands) := Deliver(kind, w, inputs[n]);
      (w', out + commands)
  }

  /** The addend of the first accepted update with this id. */
  function AddendOf(inputs: seq<Event>, id: Id): int {
    if inputs == [] then 0
    else if inputs[0].Accepted? && inputs[0].id == id then inputs[0].addend
    else AddendOf(inputs[1..], id)
  }

  ghost predicate IsAccepted(inputs: seq<Event>, id: Id) {
    exists i :: 0 <= i < |inputs| && inputs[i].Accepted? && inputs[i].id == id
  }

  /** No update is accepted twice. */
  ghost predicate UniqueUpdates(inputs: seq<Event>) {
    forall i, j :: 0 <= i < j < |inputs| && inputs[i].Accepted? && inputs[j].Accepted? ==>
      inputs[i].id != inputs[j].id
  }

  predicate Success(e: Event) {
    e.UpdateCompleted? && e.outcome.Returned?
  }

  predicate AllSuccesses(completions: seq<Event>) {
    forall i :: 0 <= i < |completions| ==> Success(completions[i])
  }

  /** The successful completions, in the order in which they happened. */
  function Successes(out: seq<Event>): (r: seq<Event>)
    ensures AllSuccesses(r)
  {
    var r := Filter(out, e => Success(e));
    assert forall i :: 0 <= i < |r| ==> r[i] in r;
    r
  }

  /** The sum of the addends of some completed updates. */
  function Total(inputs: seq<Event>, completions: seq<Event>): int
    requires AllSuccesses(completions)
  {
    if completions == [] then 0
    else
      var n := |completions| - 1;
      Total(inputs, completions[..n]) + AddendOf(inputs, completions[n].id)
  }

  /** Every success returned the sum of the addends of the successes before it. */
  ghost predicate RunningSums(inputs: seq<Event>, completions: seq<Event>)
    requires AllSuccesses(completions)
  {
    forall k :: 0 <= k < |completions| ==>
      completions[k].outcome.value == Wrap64(Total(inputs, completions[..k]))
  }

  /** The counter is the sum of all successes, each of which returned the sum before it. */
  ghost predicate SumsOk(inputs: seq<Event>, counter: int, out: seq<Event>) {
    counter == Wrap64(Total(inputs, Successes(out))) && RunningSums(inputs, Successes(out))
  }

  /** Waiting handlers are accepted updates that remember their addend. */
  ghost predicate WaitingOk(inputs: seq<Event>, blocked: map<Id, int>) {
    forall id :: id in blocked ==> IsAccepted(inputs, id) && blocked[id] == AddendOf(inputs, id)
  }

  /** Every answer belongs to an accepted update that no longer waits, and to no other answer. */
  ghost predicate AnswersOk(inputs: seq<Event>, blocked: map<Id, int>, out: seq<Event>) {
    && (forall i, j :: 0 <= i < j < |out| && out[i].UpdateCompleted? && out[j].UpdateCompleted? ==>
          out[i].id != out[j].id)
    && (forall i :: 0 <= i < |out| && out[i].UpdateCompleted? ==>
          IsAccepted(inputs, out[i].id) && out[i].id !in blocked)
  }

  /** The workflow returns the final value of the counter. */
  ghost predicate ResultOk(w: Workflow, out: seq<Event>) {
    forall i :: 0 <= i < |out| && out[i].WorkflowCompleted? ==> w.done && out[i].result == w.counter
  }

  ghost predicate Consistent(inputs: seq<Event>, w: Workflow, out: seq<Event>) {
    && SumsOk(inputs, w.counter, out)
    && WaitingOk(inputs, w.blocked)
    && AnswersOk(inputs, w.blocked, out)
    && ResultOk(w, out)
  }

  lemma {:induction false} AddendStable(inputs: seq<Event>, e: Event, id: Id)
    ensures IsAccepted(inputs, id) ==> AddendOf(inputs + [e], id) == AddendOf(inputs, id)
    ensures !IsAccepted(inputs, id) && e.Accepted? && e.id == id ==> AddendOf(inputs + [e], id) == e.addend
  {
    if inputs != [] {
      var tail := inputs[1..];
      AddendStable(tail, e, id);
      assert (inputs + [e])[1..] == tail + [e];
      assert !(inputs[0].Accepted? && inputs[0].id == id) ==> (IsAccepted(inputs, id) <==> IsAccepted(tail, id)) by {
        forall i | 0 <= i < |tail|
          ensures tail[i] == inputs[i + 1]
        {
        }
        if IsAccepted(inputs, id) && !(inputs[0].Accepted? && inputs[0].id == id) {
          var i :| 0 <= i < |inputs| && inputs[i].Accepted? && inputs[i].id == id;
          assert tail[i - 1] == inputs[i];
        }
      }
    }
  }

  lemma {:induction false} TotalStable(inputs: seq<Event>, e: Event, completions: seq<Event>)
    requires AllSuccesses(completions)
    requires forall i :: 0 <= i < |completions| ==> IsAccepted(inputs, completions[i].id)
    ensures Total(inputs + [e], completions) == Total(inputs, completions)
  {
    if completions != [] {
      var n := |completions| - 1;
      TotalStable(inputs, e, completions[..n]);
      AddendStable(inputs, e, completions[n].id);
    }
  }

  lemma RunningSumsStable(inputs: seq<Event>, e: Event, completions: seq<Event>)
    requires AllSuccesses(completions)
    requires forall i :: 0 <= i < |completions| ==> IsAccepted(inputs, completions[i].id)
    requires RunningSums(inputs, completions)
    ensures RunningSums(inputs + [e], completions)
  {
    forall k | 0 <= k < |completions|
      ensures Total(inputs + [e], completions[..k]) == Total(inputs, completions[..k])
    {
      TotalStable(inputs, e, completions[..k]);
    }
  }

  lemma SuccessesAppend(out: seq<Event>, e: Event)
    ensures Successes(out + [e]) == if Success(e) then Successes(out) + [e] else Successes(out)
  {
    FilterConcat(out, [e], e => Success(e));
    assert Filter([e], e => Success(e)) == if Success(e) then [e] else [];
    assert Successes(out) + [] == Successes(out);
  }

  lemma AcceptedStable(inputs: seq<Event>, e: Event, id: Id)
    requires IsAccepted(inputs, id)
    ensures IsAccepted(inputs + [e], id)
  {
    var i :| 0 <= i < |inputs| && inputs[i].Accepted? && inputs[i].id == id;
    assert (inputs + [e])[i] == inputs[i];
  }

  lemma SumsStay(inputs: seq<Event>, e: Event, w: Workflow, out: seq<Event>)
    requires SumsOk(inputs, w.counter, out) && AnswersOk(inputs, w.blocked, out)
    ensures SumsOk(inputs + [e], w.counter, out)
  {
    var c := Successes(out);
    forall i | 0 <= i < |c|
      ensures IsAccepted(inputs, c[i].id)
    {
      assert c[i] in c;
      var j :| 0 <= j < |out| && out[j] == c[i];
    }
    TotalStable(inputs, e, c);
    RunningSumsStable(inputs, e, c);
  }

  lemma WaitingStays(inputs: seq<Event>, e: Event, blocked: map<Id, int>)
    requires WaitingOk(inputs, blocked)
    ensures WaitingOk(inputs + [e], blocked)
  {
    forall id | id in blocked
      ensures IsAccepted(inputs + [e], id) && AddendOf(inputs + [e], id) == AddendOf(inputs, id)
    {
      AcceptedStable(inputs, e, id);
      AddendStable(inputs, e, id);
    }
  }

  lemma AnswersStay(inputs: seq<Event>, e: Event, blocked: map<Id, int>, out: seq<Event>)
    requires AnswersOk(inputs, blocked, out)
    ensures AnswersOk(inputs + [e], blocked, out)
  {
    forall i | 0 <= i < |out| && out[i].UpdateCompleted?
      ensures IsAccepted(inputs + [e], out[i].id)
    {
      AcceptedStable(inputs, e, out[i].id);
    }
  }

  lemma StaysConsistent(inputs: seq<Event>, e: Event, w: Workflow, out: seq<Event>)
    requires Consistent(inputs, w, out)
    ensures Consistent(inputs + [e], w, out)
  {
    hide SumsOk, WaitingOk, AnswersOk;
    SumsStay(inputs, e, w, out);
    WaitingStays(inputs, e, w.blocked);
    AnswersStay(inputs, e, w.blocked, out);
  }

  /** One more success returns the sum so far and adds its addend to it. */
  lemma SumsExtend(inputs: seq<Event>, c: seq<Event>, counter: int, id: Id)
    requires AllSuccesses(c) && RunningSums(inputs, c) && counter == Wrap64(Total(inputs, c))
    ensures var c' := c + [UpdateCompleted(id, Returned(counter))];
      RunningSums(inputs, c') && Wrap64(counter + AddendOf(inputs, id)) == Wrap64(Total(inputs, c'))
  {
    var c' := c + [UpdateCompleted(id, Returned(counter))];
    assert c'[..|c|] == c;
    assert forall k :: 0 <= k < |c| ==> c'[..k] == c[..k];
    assert Total(inputs, c') == Total(inputs, c) + AddendOf(inputs, id);
    WrapOfSum(Total(inputs, c), AddendOf(inputs, id));
  }

  /** A command that answers no update with a value leaves the sums alone. */
  lemma SumsIgnore(inputs: seq<Event>, counter: int, out: seq<Event>, e: Event)
    requires SumsOk(inputs, counter, out) && !Success(e)
    ensures SumsOk(inputs, counter, out + [e])
  {
    hide Successes;
    SuccessesAppend(out, e);
  }

  lemma ResolveConsistent(inputs: seq<Event>, e: Event, w: Workflow, out: seq<Event>)
    requires Consistent(inputs, w, out) && e.ActivityResolved? && !w.done && e.id in w.blocked
    ensures var (w', commands) := Deliver(FetchAndAdd, w, e);
      Consistent(inputs, w', out + commands)
  {
    hide AddendOf, Total, RunningSums, IsAccepted, Successes;
    var (w', commands) := Deliver(FetchAndAdd, w, e);
    assert SumsOk(inputs, w'.counter, out + commands) by {
      SuccessesAppend(out, commands[0]);
      if e.ok {
        SumsExtend(inputs, Successes(out), w.counter, e.id);
      }
    }
    hide SumsOk;
    assert AnswersOk(inputs, w'.blocked, out + commands);
  }

  lemma AcceptConsistent(inputs: seq<Event>, e: Event, w: Workflow, out: seq<Event>)
    requires Consistent(inputs, w, out) && e.Accepted? && !w.done && !IsAccepted(inputs, e.id)
    ensures var (w', commands) := Deliver(FetchAndAdd, w, e);
      Consistent(inputs + [e], w', out + commands)
  {
    hide AddendOf, SumsOk, Successes;
    var (w', commands) := Deliver(FetchAndAdd, w, e);
    StaysConsistent(inputs, e, w, out);
    SumsIgnore(inputs + [e], w.counter, out, commands[0]);
    AddendStable(inputs, e, e.id);
    assert (inputs + [e])[|inputs|] == e;
    assert forall i :: 0 <= i < |out| && out[i].UpdateCompleted? ==> out[i].id != e.id;
  }

  lemma DeliverConsistent(inputs: seq<Event>, e: Event, w: Workflow, out: seq<Event>)
    requires Consistent(inputs, w, out) && Input(e)
    requires e.Accepted? ==> !IsAccepted(inputs, e.id)
    ensures var (w', commands) := Deliver(FetchAndAdd, w, e);
      Consistent(inputs + [e], w', out + commands)
  {
    hide SumsOk, WaitingOk, Successes;
    var (w', commands) := Deliver(FetchAndAdd, w, e);
    StaysConsistent(inputs, e, w, out);
    if commands == [] {
      assert out + commands == out;
    } else if e.Accepted? {
      AcceptConsistent(inputs, e, w, out);
    } else if e.ActivityResolved? {
      ResolveConsistent(inputs + [e], e, w, out);
    } else {
      SumsIgnore(inputs + [e], w.counter, out, commands[0]);
    }
  }

  /** For any updates, resumed in any order and with any activities failing: the successful ones
      return the running sums of their addends in completion order, nobody is answered twice, and
      the workflow's result is the sum of the addends of all that succeeded. */
  lemma {:induction false} RunIsConsistent(inputs: seq<Event>)
    requires forall e :: e in inputs ==> Input(e)
    requires UniqueUpdates(inputs)
    ensures var (w, out) := RunInputs(FetchAndAdd, inputs); Consistent(inputs, w, out)
  {
    if inputs != [] {
      var n := |inputs| - 1;
      var before := inputs[..n];
      RunIsConsistent(before);
      var (w, out) := RunInputs(FetchAndAdd, before);
      DeliverConsistent(before, inputs[n], w, out);
      assert before + [inputs[n]] == inputs;
    }
  }

  // ----- What happens, from the inputs alone -----

  lemma WrapIs64Bit(n: int)
    ensures -0x8000_0000_0000_0000 <= Wrap64(n) < 0x8000_0000_0000_0000
    ensures (n - Wrap64(n)) % 0x1_0000_0000_0000_0000 == 0
  {
  }

  /** The workflow has not been signaled before position `n`. */
  ghost predicate Unsignaled(inputs: seq<Event>, n: nat)
    requires n <= |inputs|
  {
    forall k :: 0 <= k < n ==> !inputs[k].Signaled?
  }

  /** The update accepted at `i` has not had its activity resolved before position `n`. */
  ghost predicate Waits(inputs: seq<Event>, i: nat, n: nat)
    requires i < n <= |inputs|
  {
    && inputs[i].Accepted?
    && forall k :: i < k < n && inputs[k].ActivityResolved? ==> inputs[k].id != inputs[i].id
  }

  /** Position `j` resolves, before the signal, the activity of the update accepted at `i`. */
  ghost predicate Resolves(inputs: seq<Event>, i: nat, j: nat)
    requires i < j < |inputs|
  {
    && Unsignaled(inputs, j) && Waits(inputs, i, j)
    && inputs[j].ActivityResolved? && inputs[j].id == inputs[i].id
  }

  /** The update accepted at `i` has its activity succeed before the signal and before position `n`. */
  ghost predicate Succeeds(inputs: seq<Event>, i: nat, n: nat)
    requires n <= |inputs|
  {
    exists j :: i < j < n && Resolves(inputs, i, j) && inputs[j].ok
  }

  /** The addends of the updates accepted before position `m` that succeed before position `n`. */
  ghost function Sum(inputs: seq<Event>, m: nat, n: nat): int
    requires m <= n <= |inputs|
  {
    if m == 0 then 0
    else Sum(inputs, m - 1, n)
         + (if inputs[m - 1].Accepted? && Succeeds(inputs, m - 1, n) then inputs[m - 1].addend else 0)
  }

  /** What the workflow's counter holds before position `n`. */
  ghost function CounterAt(kind: Kind, inputs: seq<Event>, n: nat): int
    requires n <= |inputs|
  {
    if kind == FetchAndAdd then Wrap64(Sum(inputs, n, n)) else 0
  }

  /** The answer to an update whose activity is resolved at `j`. */
  ghost function AnswerAt(kind: Kind, inputs: seq<Event>, j: nat): Outcome
    requires j < |inputs| && inputs[j].ActivityResolved?
  {
    if kind == FetchAndAdd && !inputs[j].ok then Failed else Returned(CounterAt(kind, inputs, j))
  }

  /** The commands that the input at position `j` gives rise to. */
  ghost function CommandsAt(kind: Kind, inputs: seq<Event>, j: nat): seq<Event>
    requires j < |inputs|
  {
    if !Unsignaled(inputs, j) then []
    else if inputs[j].Accepted? then [ActivityScheduled(inputs[j].id)]
    else if inputs[j].Signaled? then [WorkflowCompleted(CounterAt(kind, inputs, j))]
    else if inputs[j].ActivityResolved? && exists i :: 0 <= i < j && Resolves(inputs, i, j) then
      [UpdateCompleted(inputs[j].id, AnswerAt(kind, inputs, j))]
    else []
  }

  ghost function CommandsBefore(kind: Kind, inputs: seq<Event>, n: nat): seq<Event>
    requires n <= |inputs|
  {
    if n == 0 then [] else CommandsBefore(kind, inputs, n - 1) + CommandsAt(kind, inputs, n - 1)
  }

  /** The workflow before position `n`: it is over if it was signaled; if not, exactly the updates that
      wait have a handler, with their addend; and its counter is the sum of the successes. */
  ghost predicate StateAt(kind: Kind, inputs: seq<Event>, n: nat, w: Workflow)
    requires n <= |inputs|
  {
    && (w.done <==> !Unsignaled(inputs, n))
    && w.counter == CounterAt(kind, inputs, n)
    && (!w.done ==>
          && (forall i :: 0 <= i < n && Waits(inputs, i, n) ==>
                inputs[i].id in w.blocked && w.blocked[inputs[i].id] == inputs[i].addend)
          && (forall id :: id in w.blocked ==>
                exists i :: 0 <= i < n && Waits(inputs, i, n) && inputs[i].id == id))
  }

  /** An update succeeds by position n + 1 if it did by position n, or is resolved right there. */
  lemma SucceedsStep(inputs: seq<Event>, i: nat, n: nat)
    requires i < n < |inputs|
    ensures Succeeds(inputs, i, n + 1) <==> Succeeds(inputs, i, n) || (Resolves(inputs, i, n) && inputs[n].ok)
    ensures Resolves(inputs, i, n) ==> !Succeeds(inputs, i, n)
  {
  }

  lemma {:induction false} SumStays(inputs: seq<Event>, m: nat, n: nat)
    requires m <= n < |inputs|
    requires forall i :: 0 <= i < m && inputs[i].Accepted? ==> (Succeeds(inputs, i, n + 1) <==> Succeeds(inputs, i, n))
    ensures Sum(inputs, m, n + 1) == Sum(inputs, m, n)
  {
    if m > 0 {
      SumStays(inputs, m - 1, n);
    }
  }

  lemma {:induction false} SumGains(inputs: seq<Event>, m: nat, n: nat, i: nat)
    requires i < m <= n < |inputs| && UniqueUpdates(inputs)
    requires Resolves(inputs, i, n) && inputs[n].ok
    ensures Sum(inputs, m, n + 1) == Sum(inputs, m, n) + inputs[i].addend
  {
    SucceedsStep(inputs, m - 1, n);
    if i < m - 1 {
      SumGains(inputs, m - 1, n, i);
      assert inputs[m - 1].Accepted? ==> inputs[m - 1].id != inputs[i].id;
    } else {
      forall k | 0 <= k < m - 1 && inputs[k].Accepted?
        ensures Succeeds(inputs, k, n + 1) <==> Succeeds(inputs, k, n)
      {
        SucceedsStep(inputs, k, n);
        assert inputs[k].id != inputs[i].id;
      }
      SumStays(inputs, m - 1, n);
    }
  }

  /** The sum changes exactly by the addend of an update that succeeds at position `n`. */
  lemma SumStep(inputs: seq<Event>, n: nat)
    requires n < |inputs| && UniqueUpdates(inputs)
    ensures (forall i :: 0 <= i < n && Resolves(inputs, i, n) ==> !inputs[n].ok) ==>
      Sum(inputs, n + 1, n + 1) == Sum(inputs, n, n)
    ensures forall i :: 0 <= i < n && Resolves(inputs, i, n) && inputs[n].ok ==>
      Sum(inputs, n + 1, n + 1) == Sum(inputs, n, n) + inputs[i].addend
  {
    assert !Succeeds(inputs, n, n + 1);
    assert Sum(inputs, n + 1, n + 1) == Sum(inputs, n, n + 1);
    if forall i :: 0 <= i < n && Resolves(inputs, i, n) ==> !inputs[n].ok {
      forall i | 0 <= i < n && inputs[i].Accepted?
        ensures Succeeds(inputs, i, n + 1) <==> Succeeds(inputs, i, n)
      {
        SucceedsStep(inputs, i, n);
      }
      SumStays(inputs, n, n);
    }
    forall i | 0 <= i < n && Resolves(inputs, i, n) && inputs[n].ok {
      SumGains(inputs, n, n, i);
    }
  }

  lemma WaitsStep(inputs: seq<Event>, i: nat, n: nat)
    requires i < n < |inputs|
    ensures Waits(inputs, i, n + 1) <==>
      Waits(inputs, i, n) && !(inputs[n].ActivityResolved? && inputs[n].id == inputs[i].id)
  {
  }

  lemma AcceptStep(kind: Kind, inputs: seq<Event>, n: nat, w: Workflow)
    requires n < |inputs| && inputs[n].Accepted? && UniqueUpdates(inputs) && StateAt(kind, inputs, n, w)
    ensures var (w', commands) := Deliver(kind, w, inputs[n]);
      StateAt(kind, inputs, n + 1, w') && commands == CommandsAt(kind, inputs, n)
  {
    hide Resolves, Sum, Succeeds;
    SumStep(inputs, n);
    assert forall i :: 0 <= i < n ==> !Resolves(inputs, i, n) by {
      NotResolved(inputs, n);
    }
    forall i | 0 <= i < n {
      WaitsStep(inputs, i, n);
    }
    assert Waits(inputs, n, n + 1);
    var (w', commands) := Deliver(kind, w, inputs[n]);
    if !w'.done {
      forall id | id in w'.blocked
        ensures exists i :: 0 <= i < n + 1 && Waits(inputs, i, n + 1) && inputs[i].id == id
      {
        if id != inputs[n].id {
          var i :| 0 <= i < n && Waits(inputs, i, n) && inputs[i].id == id;
          assert Waits(inputs, i, n + 1);
        }
      }
    }
  }

  lemma NotResolved(inputs: seq<Event>, n: nat)
    requires n < |inputs| && !inputs[n].ActivityResolved?
    ensures forall i :: 0 <= i < n ==> !Resolves(inputs, i, n)
  {
  }

  lemma SignalStep(kind: Kind, inputs: seq<Event>, n: nat, w: Workflow)
    requires n < |inputs| && inputs[n].Signaled? && UniqueUpdates(inputs) && StateAt(kind, inputs, n, w)
    ensures var (w', commands) := Deliver(kind, w, inputs[n]);
      StateAt(kind, inputs, n + 1, w') && commands == CommandsAt(kind, inputs, n)
  {
    hide Resolves, Sum, Succeeds;
    SumStep(inputs, n);
    NotResolved(inputs, n);
  }

  /** A resolution that no handler waits for. */
  lemma IgnoredStep(kind: Kind, inputs: seq<Event>, n: nat, w: Workflow)
    requires n < |inputs| && inputs[n].ActivityResolved? && UniqueUpdates(inputs) && StateAt(kind, inputs, n, w)
    requires forall i :: 0 <= i < n ==> !Resolves(inputs, i, n)
    ensures var (w', commands) := Deliver(kind, w, inputs[n]);
      StateAt(kind, inputs, n + 1, w') && commands == CommandsAt(kind, inputs, n)
  {
    hide Sum, Succeeds;
    SumStep(inputs, n);
    forall i | 0 <= i < n {
      WaitsStep(inputs, i, n);
    }
    if !w.done {
      forall i | 0 <= i < n && Waits(inputs, i, n)
        ensures inputs[i].id != inputs[n].id
      {
        assert Resolves(inputs, i, n) <==> inputs[i].id == inputs[n].id;
      }
      assert inputs[n].id !in w.blocked;
      forall id | id in w.blocked
        ensures exists i :: 0 <= i < n + 1 && Waits(inputs, i, n + 1) && inputs[i].id == id
      {
        var i :| 0 <= i < n && Waits(inputs, i, n) && inputs[i].id == id;
        assert Waits(inputs, i, n + 1);
      }
    }
  }

  /** The handlers that still wait after one of them was resumed. */
  lemma OthersWait(inputs: seq<Event>, i: nat, n: nat, before: map<Id, int>, after: map<Id, int>)
    requires i < n < |inputs| && UniqueUpdates(inputs) && Resolves(inputs, i, n)
    requires after == before - {inputs[i].id}
    requires forall k :: 0 <= k < n && Waits(inputs, k, n) ==>
      inputs[k].id in before && before[inputs[k].id] == inputs[k].addend
    requires forall id :: id in before ==> exists k :: 0 <= k < n && Waits(inputs, k, n) && inputs[k].id == id
    ensures forall k :: 0 <= k < n + 1 && Waits(inputs, k, n + 1) ==>
      inputs[k].id in after && after[inputs[k].id] == inputs[k].addend
    ensures forall id :: id in after ==> exists k :: 0 <= k < n + 1 && Waits(inputs, k, n + 1) && inputs[k].id == id
  {
    assert !inputs[n].Accepted?;
    forall k | 0 <= k < n {
      WaitsStep(inputs, k, n);
    }
    forall id | id in after
      ensures exists k :: 0 <= k < n + 1 && Waits(inputs, k, n + 1) && inputs[k].id == id
    {
      var k :| 0 <= k < n && Waits(inputs, k, n) && inputs[k].id == id;
      assert Waits(inputs, k, n + 1);
    }
  }

  lemma ResumeStep(kind: Kind, inputs: seq<Event>, n: nat, w: Workflow, i: nat)
    requires i < n < |inputs| && UniqueUpdates(inputs) && StateAt(kind, inputs, n, w)
    requires Resolves(inputs, i, n)
    ensures var (w', commands) := Deliver(kind, w, inputs[n]);
      StateAt(kind, inputs, n + 1, w') && commands == CommandsAt(kind, inputs, n)
  {
    hide Sum, Succeeds;
    SumStep(inputs, n);
    assert !w.done && Waits(inputs, i, n) && w.blocked[inputs[i].id] == inputs[i].addend;
    WrapOfSum(Sum(inputs, n, n), inputs[i].addend);
    OnlyOneResolved(inputs, i, n);
    var (w', commands) := Deliver(kind, w, inputs[n]);
    assert Unsignaled(inputs, n + 1);
    assert w'.counter == CounterAt(kind, inputs, n + 1);
    hide Wrap64, Resolves;
    OthersWait(inputs, i, n, w.blocked, w'.blocked);
  }

  lemma OnlyOneResolved(inputs: seq<Event>, i: nat, n: nat)
    requires i < n < |inputs| && UniqueUpdates(inputs) && Resolves(inputs, i, n)
    ensures forall k :: 0 <= k < n && Resolves(inputs, k, n) ==> k == i
  {
  }

  lemma InputStep(kind: Kind, inputs: seq<Event>, n: nat, w: Workflow)
    requires n < |inputs| && Input(inputs[n]) && UniqueUpdates(inputs) && StateAt(kind, inputs, n, w)
    ensures var (w', commands) := Deliver(kind, w, inputs[n]);
      StateAt(kind, inputs, n + 1, w') && commands == CommandsAt(kind, inputs, n)
  {
    hide StateAt, Resolves, Deliver, CommandsAt;
    match inputs[n]
    case Accepted(_, _) => AcceptStep(kind, inputs, n, w);
    case Signaled => SignalStep(kind, inputs, n, w);
    case ActivityResolved(_, _) =>
      if i: nat :| i < n && Resolves(inputs, i, n) {
        ResumeStep(kind, inputs, n, w, i);
      } else {
        IgnoredStep(kind, inputs, n, w);
      }
  }

  /** A run's state and commands, from its inputs alone. */
  lemma {:induction false} RunIsFromInputs(kind: Kind, inputs: seq<Event>, n: nat)
    requires n <= |inputs| && (forall e :: e in inputs ==> Input(e)) && UniqueUpdates(inputs)
    ensures var (w, out) := RunInputs(kind, inputs[..n]);
      StateAt(kind, inputs, n, w) && out == CommandsBefore(kind, inputs, n)
  {
    hide Deliver, CommandsAt, StateAt;
    if n == 0 {
      StartState(kind, inputs);
    } else {
      RunIsFromInputs(kind, inputs, n - 1);
      assert inputs[..n][..n - 1] == inputs[..n - 1];
      InputStep(kind, inputs, n - 1, RunInputs(kind, inputs[..n - 1]).0);
    }
  }

  lemma StartState(kind: Kind, inputs: seq<Event>)
    ensures StateAt(kind, inputs, 0, START)
  {
  }

  lemma {:induction false} CommandIsSomewhere(kind: Kind, inputs: seq<Event>, n: nat, c: Event)
    requires n <= |inputs|
    ensures c in CommandsBefore(kind, inputs, n) <==> exists j :: 0 <= j < n && c in CommandsAt(kind, inputs, j)
  {
    if n > 0 {
      CommandIsSomewhere(kind, inputs, n - 1, c);
      hide CommandsAt;
      assert c in CommandsAt(kind, inputs, n - 1) ==> c in CommandsBefore(kind, inputs, n);
    }
  }

  /** The activity of an accepted update is resolved at `j`, before the signal, for the first time. */
  ghost predicate Resumes(inputs: seq<Event>, j: nat)
    requires j < |inputs|
  {
    exists i :: 0 <= i < j && Resolves(inputs, i, j)
  }

  /** What can be among the commands for the input at position `j`. */
  lemma CommandsAtAre(inputs: seq<Event>, j: nat)
    requires j < |inputs|
    ensures var commands := CommandsAt(FetchAndAdd, inputs, j);
      && (forall id, v :: UpdateCompleted(id, Returned(v)) in commands <==>
            Resumes(inputs, j) && inputs[j] == ActivityResolved(id, true) && v == Wrap64(Sum(inputs, j, j)))
      && (forall id :: UpdateCompleted(id, Failed) in commands <==>
            Resumes(inputs, j) && inputs[j] == ActivityResolved(id, false))
      && (forall r :: WorkflowCompleted(r) in commands <==>
            Unsignaled(inputs, j) && inputs[j].Signaled? && r == Wrap64(Sum(inputs, j, j)))
      && (forall id :: ActivityScheduled(id) in commands <==>
            Unsignaled(inputs, j) && inputs[j].Accepted? && inputs[j].id == id)
  {
    hide Sum, Wrap64;
    assert Resumes(inputs, j) ==> Unsignaled(inputs, j) && inputs[j].ActivityResolved?;
  }

  /** Which updates are answered, with what, and what the workflow returns: before the signal an update
      is answered exactly when its activity is resolved; it gets the sum of the addends of the updates
      that succeeded before it if its activity succeeded, and fails if that failed. The workflow returns
      the sum over all updates whose activity succeeded before the signal. */
  lemma AnswersFollowActivities(inputs: seq<Event>, out: seq<Event>)
    requires (forall e :: e in inputs ==> Input(e)) && UniqueUpdates(inputs)
    requires out == RunInputs(FetchAndAdd, inputs).1
    ensures forall id, v :: UpdateCompleted(id, Returned(v)) in out <==>
      exists j :: 0 <= j < |inputs| && Resumes(inputs, j) && inputs[j] == ActivityResolved(id, true)
                  && v == Wrap64(Sum(inputs, j, j))
    ensures forall id :: UpdateCompleted(id, Failed) in out <==>
      exists j :: 0 <= j < |inputs| && Resumes(inputs, j) && inputs[j] == ActivityResolved(id, false)
    ensures forall r :: WorkflowCompleted(r) in out <==>
      exists j :: 0 <= j < |inputs| && Unsignaled(inputs, j) && inputs[j].Signaled? && r == Wrap64(Sum(inputs, j, j))
    ensures forall id :: ActivityScheduled(id) in out <==>
      exists j :: 0 <= j < |inputs| && Unsignaled(inputs, j) && inputs[j].Accepted? && inputs[j].id == id
  {
    hide Sum, Wrap64, Unsignaled, Resumes;
    CommandsCome(inputs, out);
    hide RunInputs;
    SuccessesCome(inputs, out);
    OthersCome(inputs, out);
  }

  /** Every command belongs to an input. */
  ghost predicate Come(inputs: seq<Event>, out: seq<Event>) {
    forall c: Event :: c in out <==> exists j :: 0 <= j < |inputs| && c in CommandsAt(FetchAndAdd, inputs, j)
  }

  lemma CommandsCome(inputs: seq<Event>, out: seq<Event>)
    requires (forall e :: e in inputs ==> Input(e)) && UniqueUpdates(inputs)
    requires out == RunInputs(FetchAndAdd, inputs).1
    ensures Come(inputs, out)
  {
    RunIsFromInputs(FetchAndAdd, inputs, |inputs|);
    assert inputs[..|inputs|] == inputs;
    hide RunInputs, StateAt, CommandsBefore, CommandsAt;
    forall c: Event
      ensures c in out <==> exists j :: 0 <= j < |inputs| && c in CommandsAt(FetchAndAdd, inputs, j)
    {
      CommandIsSomewhere(FetchAndAdd, inputs, |inputs|, c);
    }
  }

  lemma SuccessesCome(inputs: seq<Event>, out: seq<Event>)
    requires Come(inputs, out)
    ensures forall id, v :: UpdateCompleted(id, Returned(v)) in out <==>
      exists j :: 0 <= j < |inputs| && Resumes(inputs, j) && inputs[j] == ActivityResolved(id, true)
                  && v == Wrap64(Sum(inputs, j, j))
  {
    forall id, v
      ensures UpdateCompleted(id, Returned(v)) in out <==>
        exists j :: 0 <= j < |inputs| && Resumes(inputs, j) && inputs[j] == ActivityResolved(id, true)
                    && v == Wrap64(Sum(inputs, j, j))
    {
      forall j | 0 <= j < |inputs| {
        CommandsAtAre(inputs, j);
      }
      hide CommandsAt, Sum, Wrap64, Resumes;
    }
  }

  lemma OthersCome(inputs: seq<Event>, out: seq<Event>)
    requires Come(inputs, out)
    ensures forall id :: UpdateCompleted(id, Failed) in out <==>
      exists j :: 0 <= j < |inputs| && Resumes(inputs, j) && inputs[j] == ActivityResolved(id, false)
    ensures forall r :: WorkflowCompleted(r) in out <==>
      exists j :: 0 <= j < |inputs| && Unsignaled(inputs, j) && inputs[j].Signaled? && r == Wrap64(Sum(inputs, j, j))
    ensures forall id :: ActivityScheduled(id) in out <==>
      exists j :: 0 <= j < |inputs| && Unsignaled(inputs, j) && inputs[j].Accepted? && inputs[j].id == id
  {
    forall j | 0 <= j < |inputs| {
      CommandsAtAre(inputs, j);
    }
    hide CommandsAt, Sum, Wrap64, Unsignaled, Resumes;
  }

  lemma OneMoreInput(kind: Kind, before: seq<Event>, e: Event)
    requires (forall x :: x in before ==> Input(x)) && Input(e)
    ensures var (w, out) := RunInputs(kind, before);
      RunInputs(kind, before + [e]) == (Deliver(kind, w, e).0, out + Deliver(kind, w, e).1)
  {
    assert (before + [e])[..|before|] == before;
  }

  /** What the feature itself checks: its one update gets 0, and the workflow returns its addend. */
  lemma FeatureRuns(addend: int)
    requires -0x8000_0000_0000_0000 <= addend < 0x8000_0000_0000_0000
    ensures RunInputs(FetchAndAdd, [Accepted(0, addend), ActivityResolved(0, true), Signaled]).1
         == [ActivityScheduled(0), UpdateCompleted(0, Returned(0)), WorkflowCompleted(addend)]
  {
    var (e1, e2, e3) := (Accepted(0, addend), ActivityResolved(0, true), Signaled);
    assert Wrap64(0 + addend) == addend;
    assert RunInputs(FetchAndAdd, []) == (START, []);
    hide Wrap64, RunInputs;
    OneMoreInput(FetchAndAdd, [], e1);
    assert [] + [e1] == [e1];
    OneMoreInput(FetchAndAdd, [e1], e2);
    assert [e1] + [e2] == [e1, e2];
    OneMoreInput(FetchAndAdd, [e1, e2], e3);
    assert [e1, e2] + [e3] == [e1, e2, e3];
  }

  /** A workflow instance fed with any inputs, in any order: it issues the commands of the run, and
      with each update accepted once these are consistent. */
  method Execute(kind: Kind, inputs: seq<Event>) returns (instance: Instance, commands: seq<Event>)
    requires forall e :: e in inputs ==> Input(e)
    ensures fresh(instance) && instance.kind == kind
    ensures (instance.View(), commands) == RunInputs(kind, inputs)
    ensures kind == FetchAndAdd && UniqueUpdates(inputs) ==> Consistent(inputs, instance.View(), commands)
  {
    hide Deliver, Consistent, UniqueUpdates;
    instance := new Instance(kind);
    commands := [];
    for i := 0 to |inputs|
      invariant fresh(instance) && instance.kind == kind
      invariant (instance.View(), commands) == RunInputs(kind, inputs[..i])
    {
      assert inputs[..i + 1][..i] == inputs[..i] && inputs[i] in inputs;
      var more: seq<Event>;
      match inputs[i] {
        case Accepted(id, addend) => more := instance.OnUpdate(id, addend);
        case ActivityResolved(id, ok) => more := instance.OnActivity(id, ok);
        case Signaled => more := instance.OnSignal();
      }
      commands := commands + more;
    }
    assert inputs[..|inputs|] == inputs;
    if kind == FetchAndAdd && UniqueUpdates(inputs) {
      RunIsConsistent(inputs);
    }
  }
}
