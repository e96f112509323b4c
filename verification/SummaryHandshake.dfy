/** The three parties of a batch around the summary socket: the language harness, the summaryServer
    goroutine and runBatch itself. One action is one step of one party; any order is allowed. */
module SummaryHandshake {
  import opened Seqs
  import opened Utf8
  import opened Json
  import opened SummaryStream

  /** The harness dials, writes, hangs up and returns; it may also return without dialling, or leave
      its connection open to somebody else, who may or may not hang up later. */
  datatype Harness = NotConnected | Writing | HungUp | Returned(ok: bool)

  /** The goroutine accepts, reads up to the end of the stream and offers the summary. */
  datatype Server = Accepting | Reading(taken: nat) | Sending(summary: Summary) | Finished

  /** runBatch waits for the harness, closes the listener and receives; on an error it bails out. */
  datatype Main = Waiting | Closing | Receiving | Received(result: Option<Summary>) | Bailed

  datatype State = State(
    harness: Harness,
    server: Server,
    main: Main,
    listening: bool,    // the listener is open
    queued: bool,       // the harness has dialled
    accepted: bool,     // Accept returned its connection
    broken: bool,       // the connection was reset instead of closed
    leftOpen: bool,     // the harness has returned and the connection is still open
    fault: bool,        // Accept fails although the listener is open
    toWrite: Bytes,     // what the harness has still to write
    wire: Bytes,        // what it has written
    sends: nat,         // summaries sent on the channel
    closes: nat)        // times the channel was closed

  datatype Action =
    | Dial | Write(n: nat) | HangUp(clean: bool) | Return(ok: bool) | Abandon(ok: bool)
    | Fault | LateHangUp(clean: bool)
    | Accept | AcceptError | Read(n: nat) | EndOfStream | ReadError
    | Await | CloseListener | Receive | ReceiveClosed

  function Init(script: Bytes): State {
    State(NotConnected, Accepting, Waiting, true, false, false, false, false, false, script, [], 0, 0)
  }

  predicate Enabled(s: State, a: Action) {
    match a
    case Dial => s.harness.NotConnected? && s.listening
    case Write(n) => s.harness.Writing? && 1 <= n <= |s.toWrite|
    case HangUp(_) => s.harness.Writing?
    case Return(_) => s.harness.NotConnected? || s.harness.HungUp?
    case Abandon(_) => s.harness.Writing?
    case Fault => !s.fault
    case LateHangUp(_) => s.leftOpen
    case Accept => s.server.Accepting? && s.queued && s.listening
    case AcceptError => s.server.Accepting? && (!s.listening || s.fault)
    case Read(n) => s.server.Reading? && 1 <= n && s.server.taken + n <= |s.wire|
    case EndOfStream =>
      s.server.Reading? && s.server.taken == |s.wire| && !s.harness.Writing? && !s.leftOpen && !s.broken
    case ReadError => s.server.Reading? && s.broken
    case Await => s.main.Waiting? && s.harness.Returned?
    case CloseListener => s.main.Closing?
    case Receive => s.main.Receiving? && s.server.Sending?
    case ReceiveClosed => s.main.Receiving? && s.closes > 0
  }

  function Apply(s: State, a: Action): State
    requires Enabled(s, a)
  {
    match a
    case Dial => s.(harness := Writing, queued := true)
    case Write(n) => s.(toWrite := s.toWrite[n..], wire := s.wire + s.toWrite[..n])
    case HangUp(clean) => s.(harness := HungUp, broken := !clean)
    case Return(ok) => s.(harness := Returned(ok))
    case Abandon(ok) => s.(harness := Returned(ok), leftOpen := true)
    case Fault => s.(fault := true)
    case LateHangUp(clean) => s.(leftOpen := false, broken := !clean)
    case Accept => s.(server := Reading(0), accepted := true)
    case AcceptError => s.(server := Finished, closes := s.closes + 1)
    case Read(n) => s.(server := Reading(s.server.taken + n))
    case EndOfStream => s.(server := Sending(DecodeStream(s.wire)))
    case ReadError => s.(server := Finished, closes := s.closes + 1)
    case Await =>
      if s.harness.ok then s.(main := Closing) else s.(main := Bailed, listening := false)
    case CloseListener => s.(main := Receiving, listening := false)
    case Receive => s.(main := Received(Some(s.server.summary)), server := Finished, sends := s.sends + 1)
    case ReceiveClosed => s.(main := Received(None))
  }

  /** `acts` can be taken one after the other from `s`. */
  predicate Possible(s: State, acts: seq<Action>)
    decreases |acts|
  {
    acts == [] || (Enabled(s, acts[0]) && Possible(Apply(s, acts[0]), acts[1..]))
  }

  function After(s: State, acts: seq<Action>): State
    requires Possible(s, acts)
    decreases |acts|
  {
    if acts == [] then s else After(Apply(s, acts[0]), acts[1..])
  }

  /** What every interleaving keeps. */
  ghost predicate Inv(script: Bytes, s: State) {
    && s.wire + s.toWrite == script
    && (s.harness.NotConnected? ==> !s.queued)
    && (s.harness.Writing? || s.harness.HungUp? ==> s.queued)
    && (!s.queued ==> !s.accepted && s.wire == [])
    && (s.broken ==> s.harness.HungUp? || s.harness.Returned?)
    && (s.leftOpen ==> s.harness.Returned? && s.queued && !s.broken)
    && (s.listening <==> s.main.Waiting? || s.main.Closing?)
    && (!s.main.Waiting? ==> s.harness == Returned(!s.main.Bailed?))
    && s.sends + s.closes == (if s.server.Finished? then 1 else 0)
    && (s.server.Accepting? ==> !s.accepted)
    && (s.server.Reading? ==> s.accepted && s.server.taken <= |s.wire|)
    && (s.server.Sending? ==> s.accepted && !s.broken && !s.harness.Writing? && !s.leftOpen
                              && s.server.summary == DecodeStream(s.wire))
    && (s.server.Finished? && s.accepted ==> !s.harness.Writing? && !s.leftOpen)
    && (s.server.Finished? ==> (s.sends == 1 <==> s.accepted && !s.broken))
    && (s.main.Received? ==> s.server.Finished?)
    && (s.sends == 1 ==> s.main == Received(Some(DecodeStream(s.wire))))
    && (s.main.Received? && s.sends == 0 ==> s.main == Received(None))
  }

  lemma HarnessKeepsInv(script: Bytes, s: State, a: Action)
    requires Inv(script, s) && Enabled(s, a)
    requires a.Dial? || a.Write? || a.HangUp? || a.Return? || a.Abandon? || a.Fault? || a.LateHangUp?
    ensures Inv(script, Apply(s, a))
  {
    hide DecodeStream;
    if a.Write? {
      assert s.toWrite == s.toWrite[..a.n] + s.toWrite[a.n..];
      assert s.wire + s.toWrite[..a.n] + s.toWrite[a.n..] == script;
    }
  }

  lemma ServerKeepsInv(script: Bytes, s: State, a: Action)
    requires Inv(script, s) && Enabled(s, a)
    requires a.Accept? || a.AcceptError? || a.Read? || a.EndOfStream? || a.ReadError?
    ensures Inv(script, Apply(s, a))
  {
    hide DecodeStream;
  }

  lemma MainKeepsInv(script: Bytes, s: State, a: Action)
    requires Inv(script, s) && Enabled(s, a)
    requires a.Await? || a.CloseListener? || a.Receive? || a.ReceiveClosed?
    ensures Inv(script, Apply(s, a))
  {
    hide DecodeStream;
  }

  lemma StepKeepsInv(script: Bytes, s: State, a: Action)
    requires Inv(script, s) && Enabled(s, a)
    ensures Inv(script, Apply(s, a))
  {
    hide Inv, Enabled, Apply;
    match a
    case Dial | Write(_) | HangUp(_) | Return(_) | Abandon(_) | Fault | LateHangUp(_) => HarnessKeepsInv(script, s, a);
    case Accept | AcceptError | Read(_) | EndOfStream | ReadError => ServerKeepsInv(script, s, a);
    case Await | CloseListener | Receive | ReceiveClosed => MainKeepsInv(script, s, a);
  }

  lemma {:induction false} RunKeepsInv(script: Bytes, s: State, acts: seq<Action>)
    requires Inv(script, s) && Possible(s, acts)
    ensures Inv(script, After(s, acts))
    decreases |acts|
  {
    if acts != [] {
      StepKeepsInv(script, s, acts[0]);
      RunKeepsInv(script, Apply(s, acts[0]), acts[1..]);
    }
  }

  /** An upper bound of the actions still to come. */
  function Measure(s: State): int {
    (match s.harness case NotConnected => 3 case Writing => 2 case HungUp => 1 case Returned(_) => 0)
    + (match s.server
       case Accepting => 3 + |s.wire|
       case Reading(taken) => 2 + |s.wire| - taken
       case Sending(_) => 1
       case Finished => 0)
    + (match s.main case Waiting => 3 case Closing => 2 case Receiving => 1 case _ => 0)
    + (if s.fault then 0 else 1) + (if s.leftOpen then 1 else 0)
    + 2 * |s.toWrite|
  }

  lemma StepDecreases(script: Bytes, s: State, a: Action)
    requires Inv(script, s) && Enabled(s, a)
    ensures 0 <= Measure(Apply(s, a)) < Measure(s)
  {
    hide DecodeStream;
    assert 0 <= Measure(Apply(s, a)) by {
      hide Enabled, Apply;
      StepKeepsInv(script, s, a);
      MeasureIsNatural(script, Apply(s, a));
    }
  }

  lemma {:induction false} RunsAreBounded(script: Bytes, s: State, acts: seq<Action>)
    requires Inv(script, s) && Possible(s, acts)
    ensures |acts| + Measure(After(s, acts)) <= Measure(s)
    decreases |acts|
  {
    if acts != [] {
      StepKeepsInv(script, s, acts[0]);
      StepDecreases(script, s, acts[0]);
      RunsAreBounded(script, Apply(s, acts[0]), acts[1..]);
    }
  }

  /** Nothing can happen any more but what nobody is bound to do: a fault or a late hang-up. */
  ghost predicate Stuck(s: State) {
    forall a :: a != Fault && !a.LateHangUp? ==> !Enabled(s, a)
  }

  predicate MainDone(s: State) {
    s.main.Received? || s.main.Bailed?
  }

  /** The goroutine has read everything from a connection that its harness left open. */
  predicate ReadingForever(s: State) {
    s.server.Reading? && s.server.taken == |s.wire| && s.leftOpen
  }

  /** While runBatch is at its receive and the harness has not left its connection open, the goroutine
      or the rendezvous itself can move: nobody waits for the harness, and no fault is needed. */
  lemma ReceiveNeverBlocks(script: Bytes, s: State)
    requires Inv(script, s) && s.main.Receiving? && !s.leftOpen
    ensures Enabled(s, AcceptError) || Enabled(s, Read(1)) || Enabled(s, EndOfStream)
         || Enabled(s, ReadError) || Enabled(s, Receive) || Enabled(s, ReceiveClosed)
  {
  }

  /** The receive blocks exactly when the goroutine reads from a connection left open: the harness
      succeeded, its connection was accepted, and nobody hung up. */
  lemma ReceiveBlocksExactlyWhen(script: Bytes, s: State)
    requires Inv(script, s) && s.main.Receiving?
    ensures Stuck(s) <==> ReadingForever(s)
    ensures ReadingForever(s) ==> s.harness == Returned(true) && s.accepted
  {
    hide DecodeStream;
    if !s.leftOpen {
      ReceiveNeverBlocks(script, s);
    } else if !ReadingForever(s) {
      assert Enabled(s, AcceptError) || Enabled(s, Read(1)) || Enabled(s, Receive) || Enabled(s, ReceiveClosed);
    }
  }

  lemma UnfinishedCanMove(script: Bytes, s: State)
    requires Inv(script, s) && !MainDone(s)
    ensures Stuck(s) ==> s.main.Receiving? && ReadingForever(s)
  {
    match s.main
    case Waiting =>
      match s.harness {
        case NotConnected => assert Enabled(s, Return(true));
        case Writing => assert Enabled(s, HangUp(true));
        case HungUp => assert Enabled(s, Return(true));
        case Returned(_) => assert Enabled(s, Await);
      }
    case Closing => assert Enabled(s, CloseListener);
    case Receiving => ReceiveBlocksExactlyWhen(script, s);
  }

  /** Every interleaving is finite and can only end with runBatch past its receive, unless a harness
      that succeeded left its accepted connection open: it bailed out on a harness error, or it
      received either nothing (the channel was closed) or the entries of everything the harness wrote.
      The channel is sent on once or closed once, never both, and a summary arrives exactly when the
      connection was accepted and closed properly. */
  lemma EveryRunEnds(script: Bytes, acts: seq<Action>)
    requires Possible(Init(script), acts)
    ensures |acts| <= 10 + 2 * |script|
    ensures var s := After(Init(script), acts);
      && s.sends + s.closes <= 1
      && (Stuck(s) ==> (MainDone(s) <==> !(s.main.Receiving? && ReadingForever(s))))
      && (s.main.Received? ==>
            s.main.result == if s.accepted && !s.broken then Some(DecodeStream(s.wire)) else None)
  {
    hide DecodeStream;
    var s0 := Init(script);
    RunKeepsInv(script, s0, acts);
    RunsAreBounded(script, s0, acts);
    var s := After(s0, acts);
    MeasureIsNatural(script, s);
    if !MainDone(s) {
      UnfinishedCanMove(script, s);
    }
  }

  lemma MeasureIsNatural(script: Bytes, s: State)
    requires Inv(script, s)
    ensures Measure(s) >= 0
  {
  }

  /** A received summary is a prefix of what the harness reported, and all of it when the harness
      wrote to the end: no entry is invented, repeated or reordered. */
  lemma ReceivedIsReported(entries: Summary, script: Bytes, acts: seq<Action>)
    requires script == WriteAll(entries) && Possible(Init(script), acts)
    ensures var s := After(Init(script), acts);
      s.main.Received? && s.main.result.Some? ==>
        && s.main.result.value <= Map(entries, SanitizeEntry)
        && (s.toWrite == [] ==> s.main.result.value == Map(entries, SanitizeEntry))
  {
    hide DecodeStream, WriteAll;
    InitialInv(script);
    hide Inv;
    var s := After(Init(script), acts);
    RunKeepsInv(script, Init(script), acts);
    DecodeWriteAll(entries);
    WrittenSoFar(script, s);
    CutYieldsPrefix(script, |s.wire|);
  }

  lemma InitialInv(script: Bytes)
    ensures Inv(script, Init(script))
  {
    hide DecodeStream;
  }

  lemma WrittenSoFar(script: Bytes, s: State)
    requires Inv(script, s)
    ensures |s.wire| <= |script| && script[..|s.wire|] == s.wire
    ensures s.toWrite == [] ==> s.wire == script
    ensures s.main.Received? && s.main.result.Some? ==> s.main.result == Some(DecodeStream(s.wire))
  {
    hide DecodeStream;
    assert script == s.wire + s.toWrite;
  }

  /** When nothing can move any more, the goroutine has ended, with two exceptions: runBatch returned
      on a harness error and the goroutine, having read a whole summary, offers it to nobody; or its
      connection was left open. */
  lemma GoroutineLeaksExactlyWhen(script: Bytes, s: State)
    requires Inv(script, s) && Stuck(s)
    ensures s.server.Finished? || s.server.Sending? || ReadingForever(s)
    ensures s.server.Sending? <==> s.main.Bailed? && s.accepted && !s.broken && !s.leftOpen
    ensures ReadingForever(s) <==> s.accepted && s.leftOpen
  {
    hide DecodeStream;
    if !MainDone(s) {
      UnfinishedCanMove(script, s);
    }
    assert !Enabled(s, AcceptError) && !Enabled(s, EndOfStream) && !Enabled(s, ReadError);
    assert !Enabled(s, Read(1)) && !Enabled(s, Receive);
  }

  /** That offer is never taken: the goroutine stays where it is for ever. */
  lemma {:induction false} LeakIsPermanent(s: State, acts: seq<Action>)
    requires s.main.Bailed? && s.server.Sending? && Possible(s, acts)
    ensures After(s, acts).server == s.server
    decreases |acts|
  {
    if acts != [] {
      LeakIsPermanent(Apply(s, acts[0]), acts[1..]);
    }
  }

  lemma Prepend(s: State, a: Action, rest: seq<Action>)
    requires Enabled(s, a) && Possible(Apply(s, a), rest)
    ensures Possible(s, [a] + rest) && After(s, [a] + rest) == After(Apply(s, a), rest)
  {
    assert ([a] + rest)[1..] == rest;
  }

  /** It does happen: a harness that reports and then fails. */
  lemma LeakIsReachable() returns (acts: seq<Action>)
    ensures Possible(Init([]), acts)
    ensures After(Init([]), acts).main.Bailed? && After(Init([]), acts).server.Sending?
  {
    var s1 := Apply(Init([]), Dial);
    var s2 := Apply(s1, Accept);
    var s3 := Apply(s2, HangUp(true));
    var s4 := Apply(s3, EndOfStream);
    var s5 := Apply(s4, Return(false));
    acts := [];
    Prepend(s5, Await, acts);
    acts := [Await] + acts;
    Prepend(s4, Return(false), acts);
    acts := [Return(false)] + acts;
    Prepend(s3, EndOfStream, acts);
    acts := [EndOfStream] + acts;
    Prepend(s2, HangUp(true), acts);
    acts := [HangUp(true)] + acts;
    Prepend(s1, Accept, acts);
    acts := [Accept] + acts;
    Prepend(Init([]), Dial, acts);
    acts := [Dial] + acts;
  }

  /** So does the other: a harness that succeeds and leaves its connection open. */
  lemma BlockIsReachable() returns (acts: seq<Action>)
    ensures Possible(Init([]), acts)
    ensures After(Init([]), acts).main.Receiving? && Stuck(After(Init([]), acts))
  {
    var s1 := Apply(Init([]), Dial);
    var s2 := Apply(s1, Accept);
    var s3 := Apply(s2, Abandon(true));
    var s4 := Apply(s3, Await);
    acts := [];
    Prepend(s4, CloseListener, acts);
    acts := [CloseListener] + acts;
    Prepend(s3, Await, acts);
    acts := [Await] + acts;
    Prepend(s2, Abandon(true), acts);
    acts := [Abandon(true)] + acts;
    Prepend(s1, Accept, acts);
    acts := [Accept] + acts;
    Prepend(Init([]), Dial, acts);
    acts := [Dial] + acts;
  }

  /** What was meant to happen can happen: everything that is written arrives. */
  lemma SummaryCanArrive(script: Bytes) returns (acts: seq<Action>)
    ensures Possible(Init(script), acts)
    ensures var s := After(Init(script), acts);
      s.toWrite == [] && s.main == Received(Some(DecodeStream(script)))
  {
    hide DecodeStream;
    var n := |script|;
    var s1 := Apply(Init(script), Dial);
    var s2 := Apply(s1, Accept);
    var s3 := if n == 0 then s2 else Apply(Apply(s2, Write(n)), Read(n));
    assert s3.wire == script && s3.toWrite == [] && s3.server == Reading(n);
    acts := HangUpAndReceive(s3);
    if n > 0 {
      Prepend(Apply(s2, Write(n)), Read(n), acts);
      acts := [Read(n)] + acts;
      Prepend(s2, Write(n), acts);
      acts := [Write(n)] + acts;
    }
    Prepend(s1, Accept, acts);
    acts := [Accept] + acts;
    Prepend(Init(script), Dial, acts);
    acts := [Dial] + acts;
  }

  lemma HangUpAndReceive(s: State) returns (acts: seq<Action>)
    requires s.harness.Writing? && s.main.Waiting? && s.server == Reading(|s.wire|)
    requires s.toWrite == [] && !s.leftOpen && !s.broken
    ensures Possible(s, acts)
    ensures After(s, acts).toWrite == [] && After(s, acts).main == Received(Some(DecodeStream(s.wire)))
  {
    hide DecodeStream;
    var s1 := Apply(s, HangUp(true));
    var s2 := Apply(s1, EndOfStream);
    var s3 := Apply(s2, Return(true));
    var s4 := Apply(s3, Await);
    var s5 := Apply(s4, CloseListener);
    acts := [];
    Prepend(s5, Receive, acts);
    acts := [Receive] + acts;
    Prepend(s4, CloseListener, acts);
    acts := [CloseListener] + acts;
    Prepend(s3, Await, acts);
    acts := [Await] + acts;
    Prepend(s2, Return(true), acts);
    acts := [Return(true)] + acts;
    Prepend(s1, EndOfStream, acts);
    acts := [EndOfStream] + acts;
    Prepend(s, HangUp(true), acts);
    acts := [HangUp(true)] + acts;
  }
}
