/** The HTTP CONNECT proxy: any number of handlers, each step of each of them atomic. */
module ConnectProxy {
  import opened Seqs
  import opened Utf8
  import Base64
  import opened Runs
  import opened BatchVerdict

  const COLON: byte := 0x3A

  /** "proxy-user", "proxy-pass" and "Basic " */
  const USER: Bytes := [0x70, 0x72, 0x6F, 0x78, 0x79, 0x2D, 0x75, 0x73, 0x65, 0x72]
  const PASS: Bytes := [0x70, 0x72, 0x6F, 0x78, 0x79, 0x2D, 0x70, 0x61, 0x73, 0x73]
  const BASIC: Bytes := [0x42, 0x61, 0x73, 0x69, 0x63, 0x20]

  /** An absent Proxy-Authorization header reads as the empty string. */
  datatype Request = Request(connect: bool, auth: Bytes)

  predicate HasAuth(r: Request) {
    r.auth != []
  }

  /** The bytes the header carries; a decoding error is ignored. */
  function Credentials(auth: Bytes): Bytes {
    Base64.Decode(TrimPrefix(auth, BASIC)).bytes
  }

  predicate AuthOk(auth: Bytes) {
    var parts := SplitN(Credentials(auth), COLON, 2);
    |parts| == 2 && parts[0] == USER && parts[1] == PASS
  }

  /** The credentials are accepted exactly when they are the one user and password. */
  lemma AuthOkExactly(auth: Bytes)
    ensures AuthOk(auth) <==> Credentials(auth) == USER + [COLON] + PASS
  {
    var c := Credentials(auth);
    var pieces := Split(c, COLON);
    JoinSplit(c, COLON);
    if AuthOk(auth) {
      assert pieces[0] == USER;
      if |pieces| == 2 {
        assert Join(pieces[1..], COLON) == PASS;
      } else {
        assert [pieces[0]] + [Join(pieces[1..], COLON)] == SplitN(c, COLON, 2);
      }
    }
    if c == USER + [COLON] + PASS {
      SplitHead(USER, COLON, PASS);
      SplitNone(PASS, COLON);
    }
  }

  /** A client that sends them encoded is accepted, with the scheme or without. */
  lemma EncodedCredentialsAreAccepted()
    ensures AuthOk(BASIC + Base64.Encode(USER + [COLON] + PASS))
  {
    var e := Base64.Encode(USER + [COLON] + PASS);
    Base64.RoundTrip(USER + [COLON] + PASS);
    assert TrimPrefix(BASIC + e, BASIC) == e;
    AuthOkExactly(BASIC + e);
  }

  // ----- Handlers -----

  /** Where a handler is. An answered one has sent its 200 response, so that the client may use the
      tunnel, and has not counted it yet. The last three are final. */
  datatype Stage = Arrived | Checked | Hijacked | Dialed | Answered | Tunneled | Refused | Panicked

  datatype Handler = Handler(request: Request, stage: Stage)

  datatype State = State(handlers: map<nat, Handler>, unauthed: nat, authed: nat)

  datatype Action =
    | Arrive(id: nat, request: Request)
    | Check(id: nat)
    | Hijack(id: nat, ok: bool)
    | Dial(id: nat, ok: bool)
    | Respond(id: nat, ok: bool)     // writing the 200 response
    | Count(id: nat)                 // one atomic increment

  const INITIAL := State(map[], 0, 0)

  predicate At(s: State, id: nat, stage: Stage) {
    id in s.handlers && s.handlers[id].stage == stage
  }

  predicate Enabled(s: State, a: Action) {
    match a
    case Arrive(id, _) => id !in s.handlers
    case Check(id) => At(s, id, Arrived)
    case Hijack(id, _) => At(s, id, Checked)
    case Dial(id, _) => At(s, id, Hijacked)
    case Respond(id, _) => At(s, id, Dialed)
    case Count(id) => At(s, id, Answered)
  }

  function Move(s: State, id: nat, stage: Stage): State
    requires id in s.handlers
  {
    s.(handlers := s.handlers[id := s.handlers[id].(stage := stage)])
  }

  function Apply(s: State, a: Action): State
    requires Enabled(s, a)
  {
    match a
    case Arrive(id, request) => s.(handlers := s.handlers[id := Handler(request, Arrived)])
    case Check(id) =>
      var r := s.handlers[id].request;
      Move(s, id, if PassesCheck(r) then Checked else Refused)
    case Hijack(id, ok) => Move(s, id, if ok then Hijacked else Panicked)
    case Dial(id, ok) => Move(s, id, if ok then Dialed else Refused)
    case Respond(id, ok) => Move(s, id, if ok then Answered else Panicked)
    case Count(id) =>
      if HasAuth(s.handlers[id].request) then
        Move(s, id, Tunneled).(authed := ToUint32(s.authed + 1))
      else Move(s, id, Tunneled).(unauthed := ToUint32(s.unauthed + 1))
  }

  predicate Possible(s: State, acts: seq<Action>)
    decreases |acts|
  {
    acts == [] || (Enabled(s, acts[0]) && Possible(Apply(s, acts[0]), acts[1..]))
  }

  function After(s: State, acts: seq<Action>): State
    requires Possible(s, acts)
    decreases |acts|
  {
    if acts == [] then s else After(Apply(s, acts[0]), acts[1..])
  }

  /** The connections tunneled and counted with, or without, credentials. */
  function Tunnels(handlers: map<nat, Handler>, authed: bool): set<nat> {
    set id | id in handlers && handlers[id].stage == Tunneled && HasAuth(handlers[id].request) == authed
  }

  /** The connections whose clients were answered and that are not counted yet. */
  function Uncounted(handlers: map<nat, Handler>, authed: bool): set<nat> {
    set id | id in handlers && handlers[id].stage == Answered && HasAuth(handlers[id].request) == authed
  }

  /** The connections that clients may use. */
  function Opened(handlers: map<nat, Handler>, authed: bool): set<nat> {
    set id | id in handlers && handlers[id].stage in {Answered, Tunneled} && HasAuth(handlers[id].request) == authed
  }

  ghost predicate CountersOk(s: State) {
    s.unauthed == ToUint32(|Tunnels(s.handlers, false)|) && s.authed == ToUint32(|Tunnels(s.handlers, true)|)
  }

  /** Whoever is past the check has passed it. */
  ghost predicate CheckedOk(s: State) {
    forall id :: id in s.handlers && !s.handlers[id].stage.Arrived? && !s.handlers[id].stage.Refused? ==>
      PassesCheck(s.handlers[id].request)
  }

  predicate PassesCheck(r: Request) {
    r.connect && (HasAuth(r) ==> AuthOk(r.auth))
  }

  ghost predicate Inv(s: State) {
    CountersOk(s) && CheckedOk(s)
  }

  lemma IncrementWraps(n: nat)
    ensures ToUint32(ToUint32(n) + 1) == ToUint32(n + 1)
  {
  }

  lemma OtherTunnels(handlers: map<nat, Handler>, id: nat, h: Handler, authed: bool)
    requires id in handlers ==> handlers[id].stage != Tunneled
    requires h.stage == Tunneled ==> HasAuth(h.request) != authed
    ensures Tunnels(handlers[id := h], authed) == Tunnels(handlers, authed)
  {
  }

  lemma NewTunnel(handlers: map<nat, Handler>, id: nat, h: Handler)
    requires id in handlers ==> handlers[id].stage != Tunneled
    requires h.stage == Tunneled
    ensures |Tunnels(handlers[id := h], HasAuth(h.request))| == |Tunnels(handlers, HasAuth(h.request))| + 1
  {
    var auth := HasAuth(h.request);
    assert Tunnels(handlers[id := h], auth) == Tunnels(handlers, auth) + {id};
    assert id !in Tunnels(handlers, auth);
  }

  lemma CountKeepsCounters(s: State, id: nat)
    requires CountersOk(s) && Enabled(s, Count(id))
    ensures CountersOk(Apply(s, Count(id)))
  {
    hide AuthOk, HasAuth, ToUint32, PassesCheck, Tunnels;
    var h := s.handlers[id].(stage := Tunneled);
    var auth := HasAuth(h.request);
    OtherTunnels(s.handlers, id, h, !auth);
    NewTunnel(s.handlers, id, h);
    IncrementWraps(|Tunnels(s.handlers, auth)|);
  }

  lemma StepKeepsCounters(s: State, a: Action)
    requires CountersOk(s) && Enabled(s, a)
    ensures CountersOk(Apply(s, a))
  {
    hide AuthOk, HasAuth, ToUint32;
    if a.Count? {
      CountKeepsCounters(s, a.id);
    } else {
      var s' := Apply(s, a);
      OtherTunnels(s.handlers, a.id, s'.handlers[a.id], true);
      OtherTunnels(s.handlers, a.id, s'.handlers[a.id], false);
    }
  }

  lemma StepKeepsInv(s: State, a: Action)
    requires Inv(s) && Enabled(s, a)
    ensures Inv(Apply(s, a))
  {
    hide AuthOk, HasAuth, ToUint32, Tunnels, CountersOk;
    StepKeepsCounters(s, a);
  }

  lemma {:induction false} RunKeepsInv(s: State, acts: seq<Action>)
    requires Inv(s) && Possible(s, acts)
    ensures Inv(After(s, acts))
    decreases |acts|
  {
    if acts != [] {
      StepKeepsInv(s, acts[0]);
      RunKeepsInv(Apply(s, acts[0]), acts[1..]);
    }
  }

  lemma InitialInv()
    ensures Inv(INITIAL)
  {
    assert Tunnels(INITIAL.handlers, true) == {} && Tunnels(INITIAL.handlers, false) == {};
  }

  /** In every interleaving of handlers each completed tunnel is counted once, in one counter, and a
      tunnel opened as authenticated was opened with exactly the right credentials. */
  lemma CountersCountTunnels(acts: seq<Action>)
    requires Possible(INITIAL, acts)
    ensures var s := After(INITIAL, acts);
      && s.unauthed == ToUint32(|Tunnels(s.handlers, false)|) && s.authed == ToUint32(|Tunnels(s.handlers, true)|)
      && forall id :: id in Opened(s.handlers, true) ==>
           Credentials(s.handlers[id].request.auth) == USER + [COLON] + PASS
  {
    hide AuthOk, Credentials;
    InitialInv();
    RunKeepsInv(INITIAL, acts);
    var s := After(INITIAL, acts);
    forall id | id in Opened(s.handlers, true)
      ensures Credentials(s.handlers[id].request.auth) == USER + [COLON] + PASS
    {
      AuthOkExactly(s.handlers[id].request.auth);
    }
  }

  lemma OpenedIs(handlers: map<nat, Handler>, authed: bool)
    ensures |Opened(handlers, authed)| == |Tunnels(handlers, authed)| + |Uncounted(handlers, authed)|
  {
    assert Opened(handlers, authed) == Tunnels(handlers, authed) + Uncounted(handlers, authed);
    assert Tunnels(handlers, authed) !! Uncounted(handlers, authed);
  }

  /** At any moment a counter holds the number of tunnels clients may use, modulo 2^32, exactly when no
      handler, modulo 2^32, is between its response and its increment. */
  lemma CountersLagBehind(acts: seq<Action>, authed: bool)
    requires Possible(INITIAL, acts)
    ensures var s := After(INITIAL, acts);
      (if authed then s.authed else s.unauthed) == ToUint32(|Opened(s.handlers, authed)|)
      <==> ToUint32(|Uncounted(s.handlers, authed)|) == 0
  {
    hide AuthOk, CheckedOk, ToUint32, Opened, Tunnels, Uncounted, Possible, After;
    var s := After(INITIAL, acts);
    InitialInv();
    RunKeepsInv(INITIAL, acts);
    OpenedIs(s.handlers, authed);
    SameModulo(|Tunnels(s.handlers, authed)|, |Uncounted(s.handlers, authed)|);
  }

  lemma SameModulo(n: nat, more: nat)
    ensures ToUint32(n) == ToUint32(n + more) <==> ToUint32(more) == 0
    ensures ToUint32(ToUint32(n)) == ToUint32(n)
  {
  }

  // ----- The verdict -----

  /** The verdict if the counters held the numbers of tunnels that clients may use. */
  predicate AcceptsOpened(summary: seq<SummaryEntry>, features: seq<RunFeature>, first: State, second: State) {
    Accepts(summary, features, ToUint32(|Opened(first.handlers, false)|), ToUint32(|Opened(second.handlers, true)|))
  }

  /** The batch verdict on a run of the proxy, whose handlers may go on between the moments at which
      the two counters are read: it accepts exactly when something failed or the tunnels counted
      without credentials at the first moment, and those counted with credentials at the second, are
      modulo 2^32 the ones the passed features promised; the order of the summary entries is
      irrelevant. */
  lemma VerdictOfARun(acts: seq<Action>, between: seq<Action>, reported: seq<SummaryEntry>,
                      reordered: seq<SummaryEntry>, features: seq<RunFeature>)
    requires Possible(INITIAL, acts) && Possible(After(INITIAL, acts), between)
    requires multiset(reported) == multiset(reordered)
    ensures var first := After(INITIAL, acts);
      var second := After(first, between);
      Accepts(reordered, features, first.unauthed, second.authed) <==>
        AnyFailed(reported)
        || (ToUint32(|Tunnels(first.handlers, false)|) == ToUint32(Expected(reported, features, false))
            && ToUint32(|Tunnels(second.handlers, true)|) == ToUint32(Expected(reported, features, true)))
  {
    hide AuthOk, ToUint32, Tunnels;
    InitialInv();
    RunKeepsInv(INITIAL, acts);
    RunKeepsInv(After(INITIAL, acts), between);
    ExpectedIsOrderFree(reported, reordered, features, true);
    ExpectedIsOrderFree(reported, reordered, features, false);
  }

  /** A passed feature that promises certain numbers of connections. */
  function Promising(unauthed: nat, authed: nat): RunFeature {
    RunFeature("f", "", "", NO_CONFIG.(unauthedProxyCount := unauthed, authedProxyCount := authed), "")
  }

  lemma PromisingExpects(unauthed: nat, authed: nat)
    ensures var (s, fs) := ([SummaryEntry("f", PASSED, "")], [Promising(unauthed, authed)]);
      !AnyFailed(s) && Expected(s, fs, false) == unauthed && Expected(s, fs, true) == authed
  {
    var (s, fs) := ([SummaryEntry("f", PASSED, "")], [Promising(unauthed, authed)]);
    assert Expected(s[..0], fs, false) == 0 && Expected(s[..0], fs, true) == 0;
  }

  /** Whatever is reported and promised, the verdict is the one on the tunnels that clients may use. */
  ghost predicate VerdictsAgree(first: State, second: State) {
    forall summary, features ::
      Accepts(summary, features, first.unauthed, second.authed) == AcceptsOpened(summary, features, first, second)
  }

  /** That is so exactly when at neither moment a handler of the kind is between response and increment. */
  lemma VerdictIsOnOpened(acts: seq<Action>, between: seq<Action>)
    requires Possible(INITIAL, acts) && Possible(After(INITIAL, acts), between)
    ensures var first := After(INITIAL, acts);
      var second := After(first, between);
      VerdictsAgree(first, second) <==>
        ToUint32(|Uncounted(first.handlers, false)|) == 0 && ToUint32(|Uncounted(second.handlers, true)|) == 0
  {
    hide CountersOk, CheckedOk, VerdictsAgree, Uncounted;
    InitialInv();
    RunKeepsInv(INITIAL, acts);
    RunKeepsInv(After(INITIAL, acts), between);
    AgreeExactly(After(INITIAL, acts), After(After(INITIAL, acts), between));
  }

  lemma AgreeExactly(first: State, second: State)
    requires CountersOk(first) && CountersOk(second)
    ensures VerdictsAgree(first, second) <==>
      ToUint32(|Uncounted(first.handlers, false)|) == 0 && ToUint32(|Uncounted(second.handlers, true)|) == 0
  {
    hide ToUint32, Opened, Tunnels, Uncounted, Expected, AnyFailed, Promising;
    OpenedIs(first.handlers, false);
    OpenedIs(second.handlers, true);
    var (u, a) := (|Tunnels(first.handlers, false)|, |Tunnels(second.handlers, true)|);
    SameModulo(u, |Uncounted(first.handlers, false)|);
    SameModulo(a, |Uncounted(second.handlers, true)|);
    var (summary, features) := ([SummaryEntry("f", PASSED, "")], [Promising(u, a)]);
    PromisingExpects(u, a);
    assert Accepts(summary, features, first.unauthed, second.authed);
    assert VerdictsAgree(first, second) ==> AcceptsOpened(summary, features, first, second);
  }

  /** Such a moment exists: a client uses the one tunnel its feature promised, and the verdict rejects. */
  lemma LateCountIsReachable() returns (acts: seq<Action>)
    ensures Possible(INITIAL, acts)
    ensures var s := After(INITIAL, acts);
      var (summary, features) := ([SummaryEntry("f", PASSED, "")], [Promising(1, 0)]);
      AcceptsOpened(summary, features, s, s) && !Accepts(summary, features, s.unauthed, s.authed)
  {
    var request := Request(true, []);
    acts := [Arrive(0, request), Check(0), Hijack(0, true), Dial(0, true), Respond(0, true)];
    var s := OneHandler(Answered);
    ReachesAnswered(acts);
    PromisingExpects(1, 0);
    assert Opened(s.handlers, false) == {0} && Opened(s.handlers, true) == {};
  }

  function OneHandler(stage: Stage): State {
    State(map[0 := Handler(Request(true, []), stage)], 0, 0)
  }

  lemma ReachesAnswered(acts: seq<Action>)
    requires acts == [Arrive(0, Request(true, [])), Check(0), Hijack(0, true), Dial(0, true), Respond(0, true)]
    ensures Possible(INITIAL, acts) && After(INITIAL, acts) == OneHandler(Answered)
  {
    hide AuthOk;
    Prepend(OneHandler(Dialed), Respond(0, true), []);
    Prepend(OneHandler(Hijacked), Dial(0, true), [Respond(0, true)]);
    Prepend(OneHandler(Checked), Hijack(0, true), [Dial(0, true), Respond(0, true)]);
    Prepend(OneHandler(Arrived), Check(0), [Hijack(0, true), Dial(0, true), Respond(0, true)]);
    Prepend(INITIAL, Arrive(0, Request(true, [])), [Check(0), Hijack(0, true), Dial(0, true), Respond(0, true)]);
  }

  lemma Prepend(s: State, a: Action, rest: seq<Action>)
    requires Enabled(s, a) && Possible(Apply(s, a), rest)
    ensures Possible(s, [a] + rest) && After(s, [a] + rest) == After(Apply(s, a), rest)
  {
    assert ([a] + rest)[1..] == rest;
  }

  /** A request gets through exactly if it is a CONNECT without credentials or with the right ones. */
  lemma CheckMeans(r: Request)
    ensures PassesCheck(r) <==>
      r.connect
      && (r.auth == []
          || Credentials(r.auth) == Utf8.Encode("proxy-user") + Utf8.Encode(":") + Utf8.Encode("proxy-pass"))
    ensures BASIC == Utf8.Encode("Basic ")
  {
    hide AuthOk, Credentials, Utf8.Encode;
    AuthOkExactly(r.auth);
    AsciiText("proxy-user", USER);
    AsciiText("proxy-pass", PASS);
    AsciiText(":", [COLON]);
    AsciiText("Basic ", BASIC);
  }
}
