// With the right passphrase the login succeeds: in every run an honest attempt is never denied, and
// from every reachable world it can be carried through.
module LoginCompleteness {
  import opened Bytes
  import opened Curve
  import opened Zkp
  import opened Hex
  import opened Handshake
  import opened Login

  // ---- in every run ----

  // The daemon has the server's generator and waits for call c.
  predicate WaitsOn(u: Server, w: World, d: nat, c: nat) {
    && d < |w.clients| && w.clients[d].generator == u.generator
    && w.clients[d].attempt.Some? && w.clients[d].attempt.value.0 == c
  }

  ghost predicate Scalars(u: Server, y: nat, r: nat) {
    1 <= y <= u.suite.g.n - 2 && 1 <= r <= u.suite.g.n - 2
  }

  // The reply hands out the issued key with the server's proof for key y and random scalar r.
  ghost predicate RepliesWith(u: Server, call: Call, y: nat, r: nat)
    requires u.suite.g.n > 0
  {
    && Scalars(u, y, r) && call.Answered? && call.issued.Some?
    && call.reply == ReplyOf(u, call.issued.value, y, r)
  }

  // Accepted requests are answered with a key, the others with a denial.
  ghost predicate AnswerOk(u: Server, call: Call)
    requires u.suite.g.p > 0 && u.suite.g.n > 0
  {
    call.Answered? ==>
      if ServerAccepts(u.suite, u.generator, u.serverId, call.request)
      then exists y: nat, r: nat :: RepliesWith(u, call, y, r)
      else call.issued.None? && call.reply == Some(DENIAL)
  }

  // An attempt with the server's generator made a request the server accepts.
  ghost predicate AttemptOk(u: Server, w: World, d: nat)
    requires u.suite.g.p > 0 && d < |w.clients|
  {
    var client := w.clients[d];
    client.attempt.Some? && client.generator == u.generator ==>
      && client.attempt.value.0 < |w.calls| && IsClientId(client.attempt.value.1)
      && ServerAccepts(u.suite, u.generator, u.serverId, w.calls[client.attempt.value.0].request)
  }

  ghost predicate HonestInv(u: Server, w: World)
    requires u.suite.g.p > 0 && u.suite.g.n > 0
  {
    && Inv(u, w)
    && (forall c | 0 <= c < |w.calls| :: AnswerOk(u, w.calls[c]))
    && (forall d | 0 <= d < |w.clients| :: AttemptOk(u, w, d))
  }

  lemma RequestKept(u: Server, w: World, step: Step, c: nat)
    requires ValidServer(u) && c < |w.calls|
    ensures c < |Apply(u, w, step).calls| && Apply(u, w, step).calls[c].request == w.calls[c].request
  {
  }

  // Only Check and Answer answer a call.
  lemma OthersAnswerNothing(u: Server, w: World, step: Step, c: nat)
    requires ValidServer(u) && !step.Check? && !step.Answer?
    requires c < |Apply(u, w, step).calls| && Apply(u, w, step).calls[c].Answered?
    ensures c < |w.calls| && Apply(u, w, step).calls[c] == w.calls[c]
  {
  }

  lemma AnsweredBy(u: Server, w: World, step: Step, c: nat)
    requires ValidServer(u) && c < |Apply(u, w, step).calls| && Apply(u, w, step).calls[c].Answered?
    ensures c < |w.calls|
    ensures var before, after := w.calls[c], Apply(u, w, step).calls[c];
            || after == before
            || (step == Check(c) && before.Received?
                && !ServerAccepts(u.suite, u.generator, u.serverId, before.request)
                && after == Answered(before.request, Some(DENIAL), None))
            || (step.Answer? && step.c == c && before.Stored? && Scalars(u, step.y, step.w)
                && after == Answered(before.request, ReplyOf(u, before.key, step.y, step.w), Some(before.key)))
  {
    if !step.Check? && !step.Answer? {
      OthersAnswerNothing(u, w, step, c);
    }
  }

  lemma StepKeepsAnswers(u: Server, w: World, step: Step, c: nat)
    requires ValidServer(u) && HonestInv(u, w) && c < |Apply(u, w, step).calls|
    ensures AnswerOk(u, Apply(u, w, step).calls[c])
  {
    var after := Apply(u, w, step).calls[c];
    if after.Answered? {
      AnsweredBy(u, w, step, c);
      assert AnswerOk(u, w.calls[c]) && CallOk(u, w.sessions, w.calls[c]);
      if step.Answer? && after != w.calls[c] {
        assert RepliesWith(u, after, step.y, step.w);
      }
    }
  }

  // Only BeginLogin starts an attempt.
  lemma AttemptKept(u: Server, w: World, step: Step, d: nat)
    requires ValidServer(u) && !step.BeginLogin?
    ensures var w' := Apply(u, w, step);
            && |w'.clients| == |w.clients|
            && (d < |w.clients| ==> w'.clients[d].generator == w.clients[d].generator
                                    && w'.clients[d].attempt in {None, w.clients[d].attempt})
  {
  }

  lemma BeginKeepsAttempts(u: Server, w: World, b: nat, id: Bytes, x: nat, v: nat, d: nat)
    requires ValidServer(u) && d < |w.clients| && AttemptOk(u, w, d)
    ensures var w' := Apply(u, w, BeginLogin(b, id, x, v)); d < |w'.clients| && AttemptOk(u, w', d)
  {
    if b == d && Scalars(u, x, v) && IsClientId(id) && w.clients[d].generator == u.generator {
      RequestAccepted(u.suite, u.generator, id, u.serverId, x, v);
    }
  }

  lemma StepKeepsAttempts(u: Server, w: World, step: Step, d: nat)
    requires ValidServer(u) && d < |w.clients| && AttemptOk(u, w, d)
    ensures var w' := Apply(u, w, step); d < |w'.clients| && AttemptOk(u, w', d)
  {
    if step.BeginLogin? {
      BeginKeepsAttempts(u, w, step.d, step.id, step.x, step.v, d);
    } else {
      AttemptKept(u, w, step, d);
      var client := w.clients[d];
      if client.attempt.Some? && client.attempt.value.0 < |w.calls| {
        RequestKept(u, w, step, client.attempt.value.0);
      }
    }
  }

  lemma StepKeepsHonestInv(u: Server, w: World, step: Step)
    requires ValidServer(u) && HonestInv(u, w)
    ensures HonestInv(u, Apply(u, w, step))
  {
    var w' := Apply(u, w, step);
    StepKeepsInv(u, w, step);
    StepExtends(u, w, step);
    forall c | 0 <= c < |w'.calls| ensures AnswerOk(u, w'.calls[c]) {
      StepKeepsAnswers(u, w, step, c);
    }
    forall d | 0 <= d < |w'.clients| ensures AttemptOk(u, w', d) {
      StepKeepsAttempts(u, w, step, d);
    }
  }

  lemma {:induction false} RunKeepsHonestInv(u: Server, w: World, steps: seq<Step>)
    requires ValidServer(u) && HonestInv(u, w)
    ensures HonestInv(u, Run(u, w, steps))
    decreases |steps|
  {
    if steps != [] {
      RunKeepsHonestInv(u, w, steps[..|steps| - 1]);
      StepKeepsHonestInv(u, Run(u, w, steps[..|steps| - 1]), steps[|steps| - 1]);
    }
  }

  function ServerResponse(u: Server, y: nat, r: nat): nat
    requires u.suite.g.n > 0
  {
    ProofWith(u.suite, u.serverId, y, Mul(u.suite.g, y, u.generator), u.generator, r).r
  }

  // Reading the reply logs the daemon in under the issued key, unless the response is zero.
  ghost predicate FinishesWith(u: Server, w: World, d: nat, c: nat, y: nat, r: nat)
    requires u.suite.g.n > 0 && u.suite.g.p > 0 && WaitsOn(u, w, d, c) && c < |w.calls|
  {
    && RepliesWith(u, w.calls[c], y, r)
    && Apply(u, w, FinishLogin(d, false)) == PutClient(w, d,
         if ServerResponse(u, y, r) != 0
         then w.clients[d].(attempt := None, state := Daemon.Authenticated, sessionKey := w.calls[c].issued.value)
         else w.clients[d].(attempt := None))
  }

  lemma ReplyFinishes(u: Server, w: World, d: nat, c: nat, y: nat, r: nat)
    requires ValidServer(u) && WaitsOn(u, w, d, c) && c < |w.calls| && RepliesWith(u, w.calls[c], y, r)
    requires IsClientId(w.clients[d].attempt.value.1) && |w.calls[c].issued.value| == SESSION_KEY_SIZE
    ensures FinishesWith(u, w, d, c, y, r)
  {
    var id := w.clients[d].attempt.value.1;
    ReplyAccepted(u.suite, u.generator, id, u.serverId, w.calls[c].issued.value, y, r);
    NoProofNoLogin(u.suite, u.generator, id);
  }

  // The server accepts the request of the call; once it is answered, reading the reply finishes
  // the login.
  ghost predicate Succeeds(u: Server, w: World, d: nat, c: nat)
    requires u.suite.g.n > 0 && u.suite.g.p > 0 && WaitsOn(u, w, d, c)
  {
    && c < |w.calls|
    && ServerAccepts(u.suite, u.generator, u.serverId, w.calls[c].request)
    && (w.calls[c].Answered? ==> exists y: nat, r: nat :: FinishesWith(u, w, d, c, y, r))
  }

  lemma WaitingSucceeds(u: Server, w: World, d: nat, c: nat)
    requires ValidServer(u) && HonestInv(u, w) && WaitsOn(u, w, d, c)
    ensures Succeeds(u, w, d, c)
  {
    assert AttemptOk(u, w, d);
    if w.calls[c].Answered? {
      assert AnswerOk(u, w.calls[c]) && CallOk(u, w.sessions, w.calls[c]);
      var y: nat, r: nat :| RepliesWith(u, w.calls[c], y, r);
      ReplyFinishes(u, w, d, c, y, r);
      assert FinishesWith(u, w, d, c, y, r);
    }
  }

  // In every run, whatever the daemons and strangers do and however their steps interleave: an
  // attempt with the server's passphrase waits on a request the server accepts, so it is never
  // denied; once answered, reading the reply logs the daemon in under the key the call has stored,
  // exactly when the server's response is not zero.
  lemma HonestLoginSucceeds(u: Server, w: World, steps: seq<Step>, d: nat, c: nat)
    requires ValidServer(u) && Initial(w) && WaitsOn(u, Run(u, w, steps), d, c)
    ensures Succeeds(u, Run(u, w, steps), d, c)
  {
    RunKeepsHonestInv(u, w, steps);
    WaitingSucceeds(u, Run(u, w, steps), d, c);
  }

  // ---- carried through ----

  // A daemon ready to log in, with the server's passphrase.
  predicate CanLogIn(u: Server, w: World, d: nat) {
    && d < |w.clients| && w.clients[d].state == Daemon.GrpcClientInitialized
    && w.clients[d].attempt.None? && !w.clients[d].aborted
    && w.clients[d].generator == u.generator
  }

  // A fresh daemon gets there in one call of Initialize exactly when its steps succeed.
  lemma FreshDaemonCanLogIn(u: Server, w: World, d: nat, answers: Daemon.Answers)
    requires ValidServer(u) && Initial(w) && d < |w.clients| && w.clients[d].generator == u.generator
    ensures CanLogIn(u, Apply(u, w, Initialize(d, answers)), d) <==>
            answers.configLoads && answers.tracingStarts && answers.channelReady
  {
  }

  // The random scalars of one login: both key pairs and both proofs.
  datatype Randoms = Randoms(x: nat, v: nat, y: nat, r: nat)

  predicate InRange(u: Server, z: Randoms) {
    var top := u.suite.g.n - 2;
    1 <= z.x <= top && 1 <= z.v <= top && 1 <= z.y <= top && 1 <= z.r <= top
  }

  function ClientResponse(u: Server, id: Bytes, x: nat, v: nat): nat
    requires u.suite.g.n > 0
  {
    ProofWith(u.suite, id, x, Mul(u.suite.g, x, u.generator), u.generator, v).r
  }

  // The server's side of call c.
  function ServerSteps(c: nat, z: Randoms, random: Bytes): seq<Step> {
    [Check(c), Draw(c, random), Store(c), Answer(c, z.y, z.r)]
  }

  lemma ServerSideCompletes(u: Server, w: World, c: nat, z: Randoms, random: Bytes)
    requires ValidServer(u) && InRange(u, z) && |random| == 32 && HexOf(random) !in w.sessions
    requires c < |w.calls| && w.calls[c].Received?
    requires ServerAccepts(u.suite, u.generator, u.serverId, w.calls[c].request)
    ensures var w' := Run(u, w, ServerSteps(c, z, random));
            && w'.clients == w.clients && |w'.calls| == |w.calls|
            && w'.sessions == w.sessions + {HexOf(random)}
            && w'.calls[c]
               == Answered(w.calls[c].request, ReplyOf(u, HexOf(random), z.y, z.r), Some(HexOf(random)))
  {
    RunFour(u, w, Check(c), Draw(c, random), Store(c), Answer(c, z.y, z.r));
    CheckStep(u, w, c);
    var w1 := Apply(u, w, Check(c));
    DrawStep(u, w1, c, random);
    var w2 := Apply(u, w1, Draw(c, random));
    StoreStep(u, w2, c);
    AnswerStep(u, Apply(u, w2, Store(c)), c, z.y, z.r);
  }

  lemma DeniedAlone(u: Server, w: World, c: nat, z: Randoms, random: Bytes)
    requires ValidServer(u) && c < |w.calls| && w.calls[c].Received?
    requires !ServerAccepts(u.suite, u.generator, u.serverId, w.calls[c].request)
    ensures Run(u, w, ServerSteps(c, z, random))
            == PutCall(w, c, Answered(w.calls[c].request, Some(DENIAL), None))
  {
    RunFour(u, w, Check(c), Draw(c, random), Store(c), Answer(c, z.y, z.r));
    var denied := PutCall(w, c, Answered(w.calls[c].request, Some(DENIAL), None));
    assert Apply(u, w, Check(c)) == denied;
    assert Apply(u, denied, Draw(c, random)) == denied;
    assert Apply(u, denied, Store(c)) == denied;
  }

  // The four steps of a call, with no other call in between, are PlayerService.Authenticate.
  lemma ServedAlone(u: Server, w: World, c: nat, z: Randoms, random: Bytes)
    requires ValidServer(u) && InRange(u, z) && |random| == 32 && HexOf(random) !in w.sessions
    requires c < |w.calls| && w.calls[c].Received?
    ensures var w' := Run(u, w, ServerSteps(c, z, random));
            && w'.clients == w.clients && c < |w'.calls| && w'.calls[c].Answered?
            && Served(u.suite, u.generator, u.serverId, w.calls[c].request, w.sessions,
                      HexOf(random), z.y, z.r, w'.calls[c].reply, w'.sessions)
  {
    if ServerAccepts(u.suite, u.generator, u.serverId, w.calls[c].request) {
      ServerSideCompletes(u, w, c, z, random);
    } else {
      DeniedAlone(u, w, c, z, random);
    }
  }

  lemma NothingServed(u: Server, w: World, c: nat, z: Randoms, random: Bytes)
    requires ValidServer(u) && c >= |w.calls|
    ensures Run(u, w, ServerSteps(c, z, random)) == w
  {
    RunFour(u, w, Check(c), Draw(c, random), Store(c), Answer(c, z.y, z.r));
  }

  lemma BeginStep(u: Server, w: World, d: nat, id: Bytes, x: nat, v: nat)
    requires ValidServer(u) && CanLogIn(u, w, d) && IsClientId(id)
    requires 1 <= x <= u.suite.g.n - 2 && 1 <= v <= u.suite.g.n - 2
    ensures var request := Request(u.suite, u.generator, id, x, v);
            Apply(u, w, BeginLogin(d, id, x, v)) ==
            if request.Thrown? then w
            else w.(clients := w.clients[d := w.clients[d].(attempt := Some((|w.calls|, id)))],
                    calls := w.calls + [Received(request.value)])
  {
  }

  // An accepted request, served without delay, ends the login.
  lemma RequestCarriedThrough(u: Server, w: World, d: nat, c: nat, z: Randoms, random: Bytes)
    requires ValidServer(u) && InRange(u, z) && |random| == 32 && HexOf(random) !in w.sessions
    requires WaitsOn(u, w, d, c) && IsClientId(w.clients[d].attempt.value.1)
    requires c < |w.calls| && w.calls[c].Received?
    requires ServerAccepts(u.suite, u.generator, u.serverId, w.calls[c].request)
    ensures var served := Run(u, w, ServerSteps(c, z, random));
            && WaitsOn(u, served, d, c) && c < |served.calls| && served.clients == w.clients
            && FinishesWith(u, served, d, c, z.y, z.r) && served.calls[c].issued == Some(HexOf(random))
  {
    ServerSideCompletes(u, w, c, z, random);
    var served := Run(u, w, ServerSteps(c, z, random));
    assert RepliesWith(u, served.calls[c], z.y, z.r);
    ReplyFinishes(u, served, d, c, z.y, z.r);
  }

  // The daemon is authenticated under the key if ok, else where it was before the login.
  predicate EndsLogin(w: World, d: nat, ok: bool, key: Bytes) {
    && d < |w.clients|
    && if ok then w.clients[d].state == Daemon.Authenticated && w.clients[d].sessionKey == key
       else w.clients[d].state == Daemon.GrpcClientInitialized
  }

  // The daemon begins the login, the server serves the call, and the daemon reads the reply.
  predicate LoginEnds(u: Server, w: World, d: nat, id: Bytes, z: Randoms, random: Bytes)
    requires u.suite.g.n > 0 && u.suite.g.p > 0
  {
    var begun := Apply(u, w, BeginLogin(d, id, z.x, z.v));
    var served := Run(u, begun, ServerSteps(|w.calls|, z, random));
    EndsLogin(Apply(u, served, FinishLogin(d, false)), d,
              ClientResponse(u, id, z.x, z.v) != 0 && ServerResponse(u, z.y, z.r) != 0, HexOf(random))
  }

  lemma LoginWithRequest(u: Server, w: World, d: nat, id: Bytes, z: Randoms, random: Bytes)
    requires ValidServer(u) && CanLogIn(u, w, d)
    requires IsClientId(id) && InRange(u, z) && |random| == 32 && HexOf(random) !in w.sessions
    requires ClientResponse(u, id, z.x, z.v) != 0
    ensures LoginEnds(u, w, d, id, z, random)
  {
    BeginStep(u, w, d, id, z.x, z.v);
    RequestAccepted(u.suite, u.generator, id, u.serverId, z.x, z.v);
    RequestCarriedThrough(u, Apply(u, w, BeginLogin(d, id, z.x, z.v)), d, |w.calls|, z, random);
  }

  lemma LoginWithoutRequest(u: Server, w: World, d: nat, id: Bytes, z: Randoms, random: Bytes)
    requires ValidServer(u) && CanLogIn(u, w, d) && IsClientId(id) && InRange(u, z)
    requires ClientResponse(u, id, z.x, z.v) == 0
    ensures LoginEnds(u, w, d, id, z, random)
  {
    BeginStep(u, w, d, id, z.x, z.v);
    RequestAccepted(u.suite, u.generator, id, u.serverId, z.x, z.v);
    NothingServed(u, w, |w.calls|, z, random);
  }

  // From any world, whatever else is going on in it, a daemon with the right passphrase can get in
  // under the key the server draws, exactly when neither of the two responses is zero.
  lemma LoginCompletes(u: Server, w: World, d: nat, id: Bytes, z: Randoms, random: Bytes)
    requires ValidServer(u) && CanLogIn(u, w, d)
    requires IsClientId(id) && InRange(u, z) && |random| == 32 && HexOf(random) !in w.sessions
    ensures LoginEnds(u, w, d, id, z, random)
  {
    if ClientResponse(u, id, z.x, z.v) != 0 {
      LoginWithRequest(u, w, d, id, z, random);
    } else {
      LoginWithoutRequest(u, w, d, id, z, random);
    }
  }
}
