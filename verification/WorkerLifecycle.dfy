/** The worker and client of the Go harness runner over the life of one feature. */
module WorkerLifecycle {
  import opened Seqs

  /** What a feature does with the worker while it executes; starting may fail. */
  datatype Action = StopWorker | StartWorker(starts: bool)

  datatype Error = AlreadyRunning | StartFailed | NoClient

  /** Workers are numbered as they are created. */
  class Runner {
    var worker: Option<nat>
    var client: bool
    // A record of the calls made.
    var created: nat
    var stopped: seq<nat>
    var dials: nat
    var closes: nat

    constructor ()
      ensures Valid() && worker == None && !client && created == 0 && dials == 0
    {
      worker, client, created, stopped, dials, closes := None, false, 0, [], 0, 0;
    }

    /** Every worker but the current one has been stopped, none twice; the client likewise. */
    ghost predicate Valid()
      reads this
    {
      && NoDuplicates(stopped)
      && (forall w :: w in stopped <==> 0 <= w < created && worker != Some(w))
      && (worker.Some? ==> worker.value < created)
      && dials == closes + (if client then 1 else 0) && dials <= 1
    }

    /** The workers created and not stopped yet. */
    ghost function Unstopped(): set<nat>
      reads this
    {
      set w | 0 <= w < created && w !in stopped
    }

    method Start(starts: bool) returns (err: Option<Error>)
      requires Valid()
      modifies this
      ensures Valid() && client == old(client) && dials == old(dials)
      ensures created == old(created) + (if old(worker).None? then 1 else 0)
      ensures err == if old(worker).Some? then Some(AlreadyRunning) else if starts then None else Some(StartFailed)
      ensures worker.Some?
    {
      if worker.Some? {
        return Some(AlreadyRunning);
      }
      worker, created := Some(created), created + 1;
      // A worker that fails to start is kept, and stopped like any other.
      err := if starts then None else Some(StartFailed);
    }

    method Stop()
      requires Valid()
      modifies this
      ensures Valid() && worker == None && client == old(client) && dials == old(dials) && created == old(created)
    {
      if worker.Some? {
        stopped, worker := stopped + [worker.value], None;
      }
    }

    method Close()
      requires Valid()
      modifies this
      ensures Valid() && worker == None && !client && dials == old(dials) && created == old(created)
    {
      Stop();
      if client {
        closes, client := closes + 1, false;
      }
    }

    /** Once closed, everything ever created is stopped exactly once, and the client closed. */
    lemma ClosedIsClean()
      requires Valid() && worker == None && !client
      ensures forall w: nat :: multiset(stopped)[w] == if w < created then 1 else 0
      ensures closes == dials
    {
      forall w: nat
        ensures multiset(stopped)[w] == if w < created then 1 else 0
      {
        EachOnce(stopped, w);
      }
    }

    lemma AtMostOneUnstopped()
      requires Valid()
      ensures Unstopped() == (if worker.Some? then {worker.value} else {}) && |Unstopped()| <= 1
    {
    }
  }

  lemma {:induction false} EachOnce(s: seq<nat>, w: nat)
    requires NoDuplicates(s)
    ensures multiset(s)[w] == if w in s then 1 else 0
  {
    if s != [] {
      var n := |s| - 1;
      EachOnce(s[..n], w);
      assert s == s[..n] + [s[n]];
      assert multiset(s) == multiset(s[..n]) + multiset{s[n]};
      assert s[n] !in s[..n];
    }
  }

  /** runFeature: NewRunner, then the feature, then the two deferred closes. Whatever the feature does
      with its worker and whatever fails, every worker created was stopped exactly once and the
      client, if it was dialled, closed exactly once. */
  method RunFeature(clientDials: bool, firstStarts: bool, actions: seq<Action>)
    returns (runner: Runner, started: bool)
    ensures fresh(runner) && runner.Valid()
    ensures started <==> clientDials && firstStarts
    ensures runner.worker == None && !runner.client
    ensures forall w: nat :: multiset(runner.stopped)[w] == if w < runner.created then 1 else 0
    ensures runner.dials == runner.closes == (if clientDials then 1 else 0)
    ensures !started ==> runner.created == (if clientDials then 1 else 0)
  {
    runner := new Runner();
    started := false;
    if clientDials {
      runner.client, runner.dials := true, 1;
      var err := runner.Start(firstStarts);
      started := err.None?;
    }
    if !started {
      runner.Close();
      runner.ClosedIsClean();
      return;
    }
    for i := 0 to |actions|
      invariant fresh(runner) && runner.Valid() && runner.client && runner.dials == 1
    {
      match actions[i]
      case StopWorker => runner.Stop();
      case StartWorker(starts) => var err := runner.Start(starts);
    }
    runner.Close();
    runner.Close();
    runner.ClosedIsClean();
  }
}
