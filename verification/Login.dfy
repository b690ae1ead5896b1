// Many daemons and strangers against one server: every interleaving of the login, with the two
// sides of each call split at the points where other calls can get in between.
module Login {
  import opened Bytes
  import opened Curve
  import opened Zkp
  import opened Hex
  import opened Handshake
  import Daemon

  datatype Server = Server(suite: Suite, generator: Point, serverId: Bytes)

  ghost predicate ValidServer(u: Server) {
    && Valid(u.suite) && IsServerId(u.serverId)
    && OnCurve(u.suite.g, u.generator) && u.generator != Infinity
  }

  // One call of PlayerServiceImpl::Authenticate, at the points of its progress.
  datatype Call =
    | Received(request: AuthData)
    | Verified(request: AuthData)
    | Drawn(request: AuthData, key: Bytes)
    | Stored(request: AuthData, key: Bytes)
    | Answered(request: AuthData, reply: Option<AuthData>, issued: Option<Bytes>)

  // A daemon and its PlayerClient; attempt is the login it waits for, by call number and id. An
  // assertion that fails aborts it, a second tracing thread terminates it.
  datatype Client = Client(
    state: Daemon.State, tracing: bool, sessionKey: Bytes, generator: Point,
    attempt: Option<(nat, Bytes)>, aborted: bool, terminated: bool)

  datatype World = World(clients: seq<Client>, calls: seq<Call>, sessions: set<Bytes>)

  datatype Step =
    | Initialize(d: nat, answers: Daemon.Answers)
    | BeginLogin(d: nat, id: Bytes, x: nat, v: nat)
    | StrangerCalls(request: AuthData)
    | Check(c: nat)
    | Draw(c: nat, random: Bytes)
    | Store(c: nat)
    | Answer(c: nat, y: nat, w: nat)
    | FinishLogin(d: nat, lost: bool)

  function PutClient(w: World, d: nat, client: Client): World
    requires d < |w.clients|
  {
    w.(clients := w.clients[d := client])
  }

  function PutCall(w: World, c: nat, call: Call): World
    requires c < |w.calls|
  {
    w.(calls := w.calls[c := call])
  }

  // The reply the server makes, if it can.
  function ReplyOf(u: Server, key: Bytes, y: nat, r: nat): Option<AuthData>
    requires u.suite.g.n > 0
  {
    match Reply(u.suite, u.generator, u.serverId, key, y, r)
    case Ok(message) => Some(message)
    case Thrown => None
  }

  // What a client that waits for a reply ends up with; nothing read leaves the message cleared.
  function ReadReply(w: World, client: Client, lost: bool): AuthData
    requires client.attempt.Some?
    requires lost || (client.attempt.value.0 < |w.calls| && w.calls[client.attempt.value.0].Answered?)
  {
    if lost || w.calls[client.attempt.value.0].reply.None? then CLEARED
    else w.calls[client.attempt.value.0].reply.value
  }

  function AfterReply(u: Server, client: Client, reply: AuthData): Client
    requires u.suite.g.p > 0 && client.attempt.Some?
  {
    var done := client.(attempt := None);
    match ClientOutcome(u.suite, client.generator, client.attempt.value.1, reply)
    case Refused => done
    case AssertionFailed => done.(aborted := true)
    case Authenticated => done.(state := Daemon.Authenticated, sessionKey := reply.data)
  }

  // A step that is not possible changes nothing.
  function Apply(u: Server, w: World, step: Step): World
    requires u.suite.g.n > 0 && u.suite.g.p > 0
  {
    match step
    case Initialize(d, answers) =>
      // The steps before the login; the login itself is BeginLogin and FinishLogin.
      if d < |w.clients| && w.clients[d].state in {Daemon.Uninitialized, Daemon.ConfigInitialized}
         && !w.clients[d].terminated
      then
        var after := Daemon.AfterInitialize(w.clients[d].state, w.clients[d].tracing, answers);
        PutClient(w, d, w.clients[d].(state := after.state, tracing := after.tracing,
                                      terminated := after.outcome == Daemon.Terminated))
      else w
    case BeginLogin(d, id, x, v) =>
      if d < |w.clients| && w.clients[d].state == Daemon.GrpcClientInitialized
         && w.clients[d].attempt.None? && !w.clients[d].aborted && IsClientId(id)
         && 1 <= x <= u.suite.g.n - 2 && 1 <= v <= u.suite.g.n - 2
      then
        match Request(u.suite, w.clients[d].generator, id, x, v)
        case Thrown => w
        case Ok(request) =>
          PutClient(w, d, w.clients[d].(attempt := Some((|w.calls|, id)))).(calls := w.calls + [Received(request)])
      else w
    case StrangerCalls(request) =>
      w.(calls := w.calls + [Received(request)])
    case Check(c) =>
      if c < |w.calls| && w.calls[c].Received? then
        var request := w.calls[c].request;
        if ServerAccepts(u.suite, u.generator, u.serverId, request)
        then PutCall(w, c, Verified(request))
        else PutCall(w, c, Answered(request, Some(DENIAL), None))
      else w
    case Draw(c, random) =>
      // The draw that ends the loop of generate_session_key, which only looks at stored keys.
      if c < |w.calls| && w.calls[c].Verified? && |random| == 32 && HexOf(random) !in w.sessions
      then PutCall(w, c, Drawn(w.calls[c].request, HexOf(random)))
      else w
    case Store(c) =>
      if c < |w.calls| && w.calls[c].Drawn? then
        PutCall(w, c, Stored(w.calls[c].request, w.calls[c].key)).(sessions := w.sessions + {w.calls[c].key})
      else w
    case Answer(c, y, r) =>
      if c < |w.calls| && w.calls[c].Stored?
         && 1 <= y <= u.suite.g.n - 2 && 1 <= r <= u.suite.g.n - 2
      then
        var key := w.calls[c].key;
        PutCall(w, c, Answered(w.calls[c].request, ReplyOf(u, key, y, r), Some(key)))
      else w
    case FinishLogin(d, lost) =>
      if d < |w.clients| && w.clients[d].attempt.Some?
         && (lost || (w.clients[d].attempt.value.0 < |w.calls| && w.calls[w.clients[d].attempt.value.0].Answered?))
      then
        PutClient(w, d, AfterReply(u, w.clients[d], ReadReply(w, w.clients[d], lost)))
      else w
  }

  function Run(u: Server, w: World, steps: seq<Step>): World
    requires u.suite.g.n > 0 && u.suite.g.p > 0
    decreases |steps|
  {
    if steps == [] then w else Apply(u, Run(u, w, steps[..|steps| - 1]), steps[|steps| - 1])
  }

  // Fresh daemons with passphrases of their own, no calls, no sessions.
  predicate Initial(w: World) {
    && w.calls == [] && w.sessions == {}
    && forall d | 0 <= d < |w.clients| ::
         && w.clients[d].state == Daemon.Uninitialized && !w.clients[d].tracing
         && w.clients[d].attempt.None? && !w.clients[d].aborted && !w.clients[d].terminated
  }

  // check_auth for a call that carries this key.
  predicate CheckAuth(w: World, sessionKey: Bytes) {
    sessionKey in w.sessions
  }

  // The key a call has drawn, stored or handed out.
  function KeyOf(call: Call): Option<Bytes> {
    match call
    case Drawn(_, key) => Some(key)
    case Stored(_, key) => Some(key)
    case Answered(_, _, issued) => issued
    case _ => None
  }

  predicate HasStored(call: Call, key: Bytes) {
    KeyOf(call) == Some(key) && !call.Drawn?
  }

  // ---- the invariant ----

  predicate ClientOk(w: World, client: Client) {
    && !client.aborted
    && (client.state == Daemon.Authenticated ==>
          && client.attempt.None?
          && |client.sessionKey| == SESSION_KEY_SIZE && client.sessionKey in w.sessions)
  }

  predicate CallOk(u: Server, sessions: set<Bytes>, call: Call)
    requires u.suite.g.p > 0
  {
    && (call.Verified? || KeyOf(call).Some? ==>
          ServerAccepts(u.suite, u.generator, u.serverId, call.request))
    && (KeyOf(call).Some? ==> |KeyOf(call).value| == SESSION_KEY_SIZE)
    && (KeyOf(call).Some? && !call.Drawn? ==> KeyOf(call).value in sessions)
    && (call.Answered? && call.reply.Some? ==>
          if call.issued.Some? then call.reply.value.data == call.issued.value else call.reply.value == DENIAL)
  }

  ghost predicate Admitted(w: World, key: Bytes) {
    exists c | 0 <= c < |w.calls| :: HasStored(w.calls[c], key)
  }

  ghost predicate Inv(u: Server, w: World)
    requires u.suite.g.p > 0
  {
    && (forall d | 0 <= d < |w.clients| :: ClientOk(w, w.clients[d]))
    && (forall c | 0 <= c < |w.calls| :: CallOk(u, w.sessions, w.calls[c]))
    && (forall key | key in w.sessions :: Admitted(w, key))
  }

  // What a step may do to the rest of the world: sessions only grow, calls keep the keys they
  // have stored, and an authenticated daemon keeps its state and key.
  ghost predicate Extends(w: World, w': World) {
    && w.sessions <= w'.sessions
    && |w.calls| <= |w'.calls| && |w.clients| == |w'.clients|
    && (forall c, key | 0 <= c < |w.calls| && HasStored(w.calls[c], key) :: HasStored(w'.calls[c], key))
    && (forall d | 0 <= d < |w.clients| && w.clients[d].state == Daemon.Authenticated && w.clients[d].attempt.None? ::
          w'.clients[d] == w.clients[d])
  }

  lemma StepExtends(u: Server, w: World, step: Step)
    requires u.suite.g.n > 0 && u.suite.g.p > 0
    ensures Extends(w, Apply(u, w, step))
  {
  }

  lemma StepKeepsSessions(u: Server, w: World, step: Step)
    requires ValidServer(u) && Inv(u, w)
    ensures var w' := Apply(u, w, step); forall key | key in w'.sessions :: Admitted(w', key)
  {
    var w' := Apply(u, w, step);
    StepExtends(u, w, step);
    forall key | key in w'.sessions ensures Admitted(w', key) {
      if key in w.sessions {
        var c :| 0 <= c < |w.calls| && HasStored(w.calls[c], key);
        assert HasStored(w'.calls[c], key);
      } else {
        assert HasStored(w'.calls[step.c], key);
      }
    }
  }

  lemma CallStaysOk(u: Server, sessions: set<Bytes>, more: set<Bytes>, call: Call)
    requires ValidServer(u) && CallOk(u, sessions, call) && sessions <= more
    ensures CallOk(u, more, call)
  {
  }

  // A call moves on.
  lemma CheckedCallOk(u: Server, sessions: set<Bytes>, request: AuthData)
    requires ValidServer(u)
    ensures CallOk(u, sessions,
                   if ServerAccepts(u.suite, u.generator, u.serverId, request) then Verified(request)
                   else Answered(request, Some(DENIAL), None))
  {
  }

  lemma DrawnCallOk(u: Server, sessions: set<Bytes>, request: AuthData, random: Bytes)
    requires ValidServer(u) && CallOk(u, sessions, Verified(request)) && |random| == 32
    ensures CallOk(u, sessions, Drawn(request, HexOf(random)))
  {
  }

  lemma StoredCallOk(u: Server, sessions: set<Bytes>, request: AuthData, key: Bytes)
    requires ValidServer(u) && CallOk(u, sessions, Drawn(request, key))
    ensures CallOk(u, sessions + {key}, Call.Stored(request, key))
  {
  }

  lemma AnsweredCallOk(u: Server, sessions: set<Bytes>, request: AuthData, key: Bytes, y: nat, r: nat)
    requires ValidServer(u) && CallOk(u, sessions, Call.Stored(request, key))
    ensures CallOk(u, sessions, Answered(request, ReplyOf(u, key, y, r), Some(key)))
  {
  }

  lemma SteppedCallOk(u: Server, w: World, step: Step, c: nat)
    requires ValidServer(u) && c < |w.calls| && CallOk(u, w.sessions, w.calls[c])
    ensures var w' := Apply(u, w, step); c < |w'.calls| && CallOk(u, w'.sessions, w'.calls[c])
  {
    var w', call := Apply(u, w, step), w.calls[c];
    StepExtends(u, w, step);
    if step == Check(c) && call.Received? {
      CheckedCallOk(u, w.sessions, call.request);
    } else if step.Draw? && step.c == c && w'.calls[c] != call {
      DrawnCallOk(u, w.sessions, call.request, step.random);
    } else if step == Store(c) && call.Drawn? {
      StoredCallOk(u, w.sessions, call.request, call.key);
    } else if step.Answer? && step.c == c && w'.calls[c] != call {
      AnsweredCallOk(u, w.sessions, call.request, call.key, step.y, step.w);
    } else {
      CallStaysOk(u, w.sessions, w'.sessions, call);
    }
  }

  lemma StepKeepsCalls(u: Server, w: World, step: Step)
    requires ValidServer(u) && Inv(u, w)
    ensures var w' := Apply(u, w, step); forall c | 0 <= c < |w'.calls| :: CallOk(u, w'.sessions, w'.calls[c])
  {
    var w' := Apply(u, w, step);
    forall c | 0 <= c < |w'.calls| ensures CallOk(u, w'.sessions, w'.calls[c]) {
      if c < |w.calls| {
        SteppedCallOk(u, w, step, c);
      }
    }
  }

  // A login can only end well on a reply that hands out a stored key.
  lemma FinishKeepsClient(u: Server, w: World, client: Client, lost: bool)
    requires ValidServer(u) && Inv(u, w) && ClientOk(w, client) && client.attempt.Some?
    requires lost || (client.attempt.value.0 < |w.calls| && w.calls[client.attempt.value.0].Answered?)
    ensures ClientOk(w, AfterReply(u, client, ReadReply(w, client, lost)))
  {
    var call := client.attempt.value.0;
    NoProofNoLogin(u.suite, client.generator, client.attempt.value.1);
    assert !lost ==> CallOk(u, w.sessions, w.calls[call]);
  }

  // A denial, and a reply that is lost, end the attempt and change nothing else.
  lemma DenialEndsAttempt(u: Server, w: World, d: nat, lost: bool)
    requires ValidServer(u) && d < |w.clients| && w.clients[d].attempt.Some?
    requires var c := w.clients[d].attempt.value.0;
             lost || (c < |w.calls| && w.calls[c].Answered? && w.calls[c].reply in {None, Some(DENIAL)})
    ensures Apply(u, w, FinishLogin(d, lost)) == PutClient(w, d, w.clients[d].(attempt := None))
  {
    NoProofNoLogin(u.suite, w.clients[d].generator, w.clients[d].attempt.value.1);
  }

  // Only FinishLogin lets a client become authenticated or abort.
  lemma OtherStepsKeepClient(u: Server, w: World, step: Step, d: nat)
    requires ValidServer(u) && !step.FinishLogin? && d < |w.clients| && ClientOk(w, w.clients[d])
    ensures var w' := Apply(u, w, step); d < |w'.clients| && ClientOk(w', w'.clients[d])
  {
  }

  lemma StepKeepsClients(u: Server, w: World, step: Step)
    requires ValidServer(u) && Inv(u, w)
    ensures var w' := Apply(u, w, step); forall d | 0 <= d < |w'.clients| :: ClientOk(w', w'.clients[d])
  {
    var w' := Apply(u, w, step);
    StepExtends(u, w, step);
    forall d | 0 <= d < |w'.clients| ensures ClientOk(w', w'.clients[d]) {
      assert ClientOk(w, w.clients[d]);
      if !step.FinishLogin? {
        OtherStepsKeepClient(u, w, step, d);
      } else if step.d == d && w'.clients[d] != w.clients[d] {
        FinishKeepsClient(u, w, w.clients[d], step.lost);
      }
    }
  }

  lemma StepKeepsInv(u: Server, w: World, step: Step)
    requires ValidServer(u) && Inv(u, w)
    ensures Inv(u, Apply(u, w, step))
  {
    StepKeepsSessions(u, w, step);
    StepKeepsCalls(u, w, step);
    StepKeepsClients(u, w, step);
  }

  // ---- safety over all runs ----

  lemma {:induction false} RunKeepsInv(u: Server, w: World, steps: seq<Step>)
    requires ValidServer(u) && Inv(u, w)
    ensures Inv(u, Run(u, w, steps))
    decreases |steps|
  {
    if steps != [] {
      RunKeepsInv(u, w, steps[..|steps| - 1]);
      StepKeepsInv(u, Run(u, w, steps[..|steps| - 1]), steps[|steps| - 1]);
    }
  }

  lemma {:induction false} RunExtends(u: Server, w: World, steps: seq<Step>)
    requires ValidServer(u) && Inv(u, w)
    ensures Extends(w, Run(u, w, steps))
    decreases |steps|
  {
    if steps != [] {
      var before := Run(u, w, steps[..|steps| - 1]);
      RunExtends(u, w, steps[..|steps| - 1]);
      StepExtends(u, before, steps[|steps| - 1]);
    }
  }

  // Whatever the interleaving, and whatever passphrases and messages the peers use: an
  // authenticated daemon holds a 64-character key of a live session, and the assertion on the
  // key's size never fails.
  lemma AuthenticatedHoldsLiveKey(u: Server, w: World, steps: seq<Step>, d: nat)
    requires ValidServer(u) && Initial(w) && d < |w.clients|
    ensures var w' := Run(u, w, steps);
            && d < |w'.clients| && !w'.clients[d].aborted
            && (w'.clients[d].state == Daemon.Authenticated ==>
                  |w'.clients[d].sessionKey| == SESSION_KEY_SIZE && w'.clients[d].sessionKey in w'.sessions)
  {
    RunKeepsInv(u, w, steps);
    RunExtends(u, w, steps);
    assert ClientOk(Run(u, w, steps), Run(u, w, steps).clients[d]);
  }

  // Every command a daemon forwards passes check_auth, however much later the server looks.
  lemma ForwardedCommandsPass(
    u: Server, w: World, steps: seq<Step>, later: seq<Step>, d: nat, command: string)
    requires ValidServer(u) && Initial(w) && d < |w.clients|
    ensures var sent := Run(u, w, steps);
            && d < |sent.clients|
            && (Daemon.Forwarded(sent.clients[d].state, command).Some? ==>
                  CheckAuth(Run(u, sent, later), sent.clients[d].sessionKey))
  {
    AuthenticatedHoldsLiveKey(u, w, steps, d);
    RunKeepsInv(u, w, steps);
    RunExtends(u, Run(u, w, steps), later);
  }

  // No key is in the session set without a call whose proof the server's check accepted.
  lemma SessionsNeedProof(u: Server, w: World, steps: seq<Step>, key: Bytes)
    requires ValidServer(u) && Initial(w) && key in Run(u, w, steps).sessions
    ensures var calls := Run(u, w, steps).calls;
            exists c | 0 <= c < |calls| ::
              HasStored(calls[c], key) && ServerAccepts(u.suite, u.generator, u.serverId, calls[c].request)
  {
    RunKeepsInv(u, w, steps);
    var w' := Run(u, w, steps);
    assert Admitted(w', key);
    var c :| 0 <= c < |w'.calls| && HasStored(w'.calls[c], key);
    assert CallOk(u, w'.sessions, w'.calls[c]);
  }

  // ---- uniqueness of keys ----

  // Different calls hold different keys.
  ghost predicate UniqueKeys(w: World) {
    forall b, c | 0 <= b < c < |w.calls| && KeyOf(w.calls[b]).Some? && KeyOf(w.calls[c]).Some? ::
      KeyOf(w.calls[b]) != KeyOf(w.calls[c])
  }

  // The step is a draw of the very key that another call has drawn but not yet stored.
  ghost predicate DrawsPendingKey(w: World, step: Step) {
    && step.Draw? && step.c < |w.calls| && w.calls[step.c].Verified?
    && |step.random| == 32 && HexOf(step.random) !in w.sessions
    && exists b | 0 <= b < |w.calls| :: w.calls[b].Drawn? && w.calls[b].key == HexOf(step.random)
  }

  lemma PendingDrawShares(u: Server, w: World, step: Step)
    requires ValidServer(u) && DrawsPendingKey(w, step)
    ensures !UniqueKeys(Apply(u, w, step))
  {
    var b :| 0 <= b < |w.calls| && w.calls[b].Drawn? && w.calls[b].key == HexOf(step.random);
    var w' := Apply(u, w, step);
    assert KeyOf(w'.calls[b]) == KeyOf(w'.calls[step.c]) == Some(HexOf(step.random));
  }

  // No other call holds the key that is drawn, unless its own draw is pending.
  lemma FreshKey(u: Server, w: World, c: nat, random: Bytes, b: nat)
    requires ValidServer(u) && Inv(u, w) && b < |w.calls|
    requires c < |w.calls| && w.calls[c].Verified? && |random| == 32 && HexOf(random) !in w.sessions
    requires !DrawsPendingKey(w, Draw(c, random))
    ensures KeyOf(w.calls[b]) != Some(HexOf(random))
  {
    assert CallOk(u, w.sessions, w.calls[b]);
  }

  // generate_session_key gives up its lock before the key is stored, so uniqueness is kept by
  // exactly the steps that do not repeat a pending draw.
  lemma UniqueKeysExactly(u: Server, w: World, step: Step)
    requires ValidServer(u) && Inv(u, w) && UniqueKeys(w)
    ensures UniqueKeys(Apply(u, w, step)) <==> !DrawsPendingKey(w, step)
  {
    if DrawsPendingKey(w, step) {
      PendingDrawShares(u, w, step);
    } else {
      var w' := Apply(u, w, step);
      forall b, c | 0 <= b < c < |w'.calls| && KeyOf(w'.calls[b]).Some? && KeyOf(w'.calls[c]).Some?
        ensures KeyOf(w'.calls[b]) != KeyOf(w'.calls[c])
      {
        KeyKept(u, w, step, b);
        KeyKept(u, w, step, c);
        if KeyOf(w'.calls[b]) != KeyOf(w.calls[b]) {
          FreshKey(u, w, b, step.random, c);
        } else if KeyOf(w'.calls[c]) != KeyOf(w.calls[c]) {
          FreshKey(u, w, c, step.random, b);
        }
      }
    }
  }

  // A step leaves the key a call holds alone, unless it is the call's own draw.
  lemma KeyKept(u: Server, w: World, step: Step, c: nat)
    requires ValidServer(u) && c < |Apply(u, w, step).calls|
    ensures var after := KeyOf(Apply(u, w, step).calls[c]);
            || (c < |w.calls| && after == KeyOf(w.calls[c]))
            || (c == |w.calls| && after == None)
            || (step.Draw? && step.c == c < |w.calls| && w.calls[c].Verified?
                && |step.random| == 32 && HexOf(step.random) !in w.sessions
                && after == Some(HexOf(step.random)))
  {
  }

  // A shared key stays shared.
  lemma SharedStaysShared(u: Server, w: World, step: Step)
    requires ValidServer(u) && UniqueKeys(Apply(u, w, step))
    ensures UniqueKeys(w)
  {
    forall b, c | 0 <= b < c < |w.calls| && KeyOf(w.calls[b]).Some? && KeyOf(w.calls[c]).Some?
      ensures KeyOf(w.calls[b]) != KeyOf(w.calls[c])
    {
      StepExtends(u, w, step);
      KeyKept(u, w, step, b);
      KeyKept(u, w, step, c);
    }
  }

  // Step k of a run repeats a draw that is pending then.
  ghost predicate RepeatsPendingDraw(u: Server, w: World, steps: seq<Step>, k: nat)
    requires u.suite.g.n > 0 && u.suite.g.p > 0 && k < |steps|
  {
    DrawsPendingKey(Run(u, w, steps[..k]), steps[k])
  }

  // At the end of a run different calls hold different keys exactly when no step of it has
  // repeated a pending draw.
  lemma {:induction false} UniqueKeysInRun(u: Server, w: World, steps: seq<Step>)
    requires ValidServer(u) && Initial(w)
    ensures UniqueKeys(Run(u, w, steps)) <==>
            forall k | 0 <= k < |steps| :: !RepeatsPendingDraw(u, w, steps, k)
    decreases |steps|
  {
    if steps != [] {
      var init, last := steps[..|steps| - 1], steps[|steps| - 1];
      UniqueKeysInRun(u, w, init);
      RunKeepsInv(u, w, init);
      if UniqueKeys(Run(u, w, init)) {
        UniqueKeysExactly(u, Run(u, w, init), last);
      } else if UniqueKeys(Run(u, w, steps)) {
        SharedStaysShared(u, Run(u, w, init), last);
      }
      SameRepeats(u, w, steps);
    }
  }

  lemma SameRepeats(u: Server, w: World, steps: seq<Step>)
    requires ValidServer(u) && steps != []
    ensures var init, last := steps[..|steps| - 1], steps[|steps| - 1];
            (forall k | 0 <= k < |steps| :: !RepeatsPendingDraw(u, w, steps, k)) <==>
            && (forall k | 0 <= k < |init| :: !RepeatsPendingDraw(u, w, init, k))
            && !DrawsPendingKey(Run(u, w, init), last)
  {
    var init := steps[..|steps| - 1];
    assert RepeatsPendingDraw(u, w, steps, |steps| - 1) <==> DrawsPendingKey(Run(u, w, init), steps[|steps| - 1]);
    forall k | 0 <= k < |init|
      ensures RepeatsPendingDraw(u, w, steps, k) <==> RepeatsPendingDraw(u, w, init, k)
    {
      assert init[..k] == steps[..k];
    }
  }

  // ---- single steps of a call ----

  lemma RunFour(u: Server, w: World, a: Step, b: Step, c: Step, d: Step)
    requires ValidServer(u)
    ensures Run(u, w, [a, b, c, d]) == Apply(u, Apply(u, Apply(u, Apply(u, w, a), b), c), d)
  {
    var steps := [a, b, c, d];
    assert steps[..3] == [a, b, c] && [a, b, c][..2] == [a, b] && [a, b][..1] == [a] && [a][..0] == [];
    assert Run(u, w, []) == w;
    assert Run(u, w, [a]) == Apply(u, w, a);
    assert Run(u, w, [a, b]) == Apply(u, Run(u, w, [a]), b);
    assert Run(u, w, [a, b, c]) == Apply(u, Run(u, w, [a, b]), c);
  }

  lemma CheckStep(u: Server, w: World, c: nat)
    requires ValidServer(u) && c < |w.calls| && w.calls[c].Received?
    requires ServerAccepts(u.suite, u.generator, u.serverId, w.calls[c].request)
    ensures Apply(u, w, Check(c)) == w.(calls := w.calls[c := Verified(w.calls[c].request)])
  {
  }

  lemma DrawStep(u: Server, w: World, c: nat, random: Bytes)
    requires ValidServer(u) && c < |w.calls| && w.calls[c].Verified?
    requires |random| == 32 && HexOf(random) !in w.sessions
    ensures Apply(u, w, Draw(c, random)) == w.(calls := w.calls[c := Drawn(w.calls[c].request, HexOf(random))])
  {
  }

  lemma StoreStep(u: Server, w: World, c: nat)
    requires ValidServer(u) && c < |w.calls| && w.calls[c].Drawn?
    ensures Apply(u, w, Store(c))
            == w.(calls := w.calls[c := Stored(w.calls[c].request, w.calls[c].key)],
                  sessions := w.sessions + {w.calls[c].key})
  {
  }

  lemma AnswerStep(u: Server, w: World, c: nat, y: nat, r: nat)
    requires ValidServer(u) && c < |w.calls| && w.calls[c].Stored?
    requires 1 <= y <= u.suite.g.n - 2 && 1 <= r <= u.suite.g.n - 2
    ensures var key := w.calls[c].key;
            Apply(u, w, Answer(c, y, r))
            == w.(calls := w.calls[c := Answered(w.calls[c].request, ReplyOf(u, key, y, r), Some(key))])
  {
  }

  // The other case is reachable: two overlapping logins that draw the same bytes end up with one
  // session key between them.
  lemma SharedKeyRun(u: Server, w: World, request: AuthData, random: Bytes)
    requires ValidServer(u) && Initial(w) && |random| == 32
    requires ServerAccepts(u.suite, u.generator, u.serverId, request)
    ensures var checked := Run(u, w, [StrangerCalls(request), StrangerCalls(request), Check(0), Check(1)]);
            var w' := Run(u, checked, [Draw(0, random), Draw(1, random), Store(0), Store(1)]);
            && |w'.calls| == 2 && w'.sessions == {HexOf(random)}
            && HasStored(w'.calls[0], HexOf(random)) && HasStored(w'.calls[1], HexOf(random))
  {
    CheckedTwice(u, w, request);
    DrawnTwice(u, w.(calls := [Verified(request), Verified(request)]), request, random);
  }

  lemma CheckedTwice(u: Server, w: World, request: AuthData)
    requires ValidServer(u) && w.calls == []
    requires ServerAccepts(u.suite, u.generator, u.serverId, request)
    ensures Run(u, w, [StrangerCalls(request), StrangerCalls(request), Check(0), Check(1)])
            == w.(calls := [Verified(request), Verified(request)])
  {
    RunFour(u, w, StrangerCalls(request), StrangerCalls(request), Check(0), Check(1));
    CalledTwice(u, w, request);
    var w2 := w.(calls := [Received(request), Received(request)]);
    CheckStep(u, w2, 0);
    TwoCalls(Received(request), Received(request), Verified(request));
    var w3 := w.(calls := [Verified(request), Received(request)]);
    CheckStep(u, w3, 1);
    TwoCalls(Verified(request), Received(request), Verified(request));
  }

  lemma CalledTwice(u: Server, w: World, request: AuthData)
    requires ValidServer(u) && w.calls == []
    ensures Apply(u, Apply(u, w, StrangerCalls(request)), StrangerCalls(request))
            == w.(calls := [Received(request), Received(request)])
  {
  }

  lemma TwoCalls(a: Call, b: Call, c: Call)
    ensures [a, b][0 := c] == [c, b] && [a, b][1 := c] == [a, c]
  {
  }

  lemma DrawnTwice(u: Server, w: World, request: AuthData, random: Bytes)
    requires ValidServer(u) && |random| == 32
    requires w.calls == [Verified(request), Verified(request)] && w.sessions == {}
    ensures var key := HexOf(random);
            Run(u, w, [Draw(0, random), Draw(1, random), Store(0), Store(1)])
            == World(w.clients, [Stored(request, key), Stored(request, key)], {key})
  {
    var key := HexOf(random);
    var verified, drawn, stored := Verified(request), Drawn(request, key), Call.Stored(request, key);
    RunFour(u, w, Draw(0, random), Draw(1, random), Store(0), Store(1));
    DrawStep(u, w, 0, random);
    TwoCalls(verified, verified, drawn);
    DrawStep(u, w.(calls := [drawn, verified]), 1, random);
    TwoCalls(drawn, verified, drawn);
    StoreStep(u, w.(calls := [drawn, drawn]), 0);
    TwoCalls(drawn, drawn, stored);
    StoreStep(u, World(w.clients, [stored, drawn], {key}), 1);
    TwoCalls(stored, drawn, stored);
  }
}
