// The two-way login: PlayerClient::Authenticate against PlayerServiceImpl::Authenticate.
module Handshake {
  import opened Bytes
  import opened Numbers
  import opened Curve
  import opened Zkp
  import opened ZkpCodec
  import opened Hex

  datatype AuthData = AuthData(data: Bytes, zkp: Option<ZkpMessage>, publicKey: Bytes, denied: bool)

  // A message after Clear(), which is also what the client holds when its Read fails.
  const CLEARED := AuthData([], None, [], false)
  const DENIAL := AuthData([], None, [], true)

  const SESSION_KEY_SIZE := 64

  // ---- the messages ----

  // What the client writes, with private key x and random scalar v; serialization may throw.
  function Request(s: Suite, generator: Point, id: Bytes, x: nat, v: nat): Result<AuthData>
    requires s.g.n > 0
  {
    var pub := Mul(s.g, x, generator);
    match Serialized(s.g, ProofWith(s, id, x, pub, generator, v))
    case Thrown => Thrown
    case Ok(message) => Ok(AuthData([], Some(message), EncodeCompressed(s.g, pub), false))
  }

  // The checks both sides make on the other's message.
  predicate ProvesKnowledge(s: Suite, generator: Point, localId: Bytes, m: AuthData)
    requires s.g.p > 0
  {
    var zkp := if m.zkp.Some? then m.zkp.value else EMPTY_MESSAGE;
    && Decode(s.g, m.publicKey).Some?
    && Deserialize(s.g, zkp).Ok?
    && CheckZkp(s, Deserialize(s.g, zkp).value, Decode(s.g, m.publicKey).value, localId, generator)
  }

  predicate ServerAccepts(s: Suite, generator: Point, serverId: Bytes, request: AuthData)
    requires s.g.p > 0
  {
    request.zkp.Some? && ProvesKnowledge(s, generator, serverId, request)
  }

  // The server's answer to an accepted request, with its own fresh key pair.
  function Reply(s: Suite, generator: Point, serverId: Bytes, sessionKey: Bytes, y: nat, w: nat)
    : Result<AuthData>
    requires s.g.n > 0
  {
    var pub := Mul(s.g, y, generator);
    match Serialized(s.g, ProofWith(s, serverId, y, pub, generator, w))
    case Thrown => Thrown
    case Ok(message) => Ok(AuthData(sessionKey, Some(message), EncodeUncompressed(s.g, pub), false))
  }

  datatype Outcome = Authenticated | Refused | AssertionFailed

  // What the client makes of the message it read.
  function ClientOutcome(s: Suite, generator: Point, id: Bytes, reply: AuthData): Outcome
    requires s.g.p > 0
  {
    if !ProvesKnowledge(s, generator, id, reply) then Refused
    else if reply.denied then Refused
    else if reply.data == [] then Refused
    else if |reply.data| != SESSION_KEY_SIZE then AssertionFailed
    else Authenticated
  }

  // What is in the messages: both have the minimal response and the commitment compressed under the
  // maker's id; the client's public key is compressed and comes without data, the server's is
  // uncompressed and comes with the session key.
  lemma MessageContents(s: Suite, generator: Point, id: Bytes, sessionKey: Bytes, x: nat, v: nat)
    requires Valid(s) && OnCurve(s.g, generator) && generator != Infinity && 0 !in id
    requires 1 <= x <= s.g.n - 2 && 1 <= v <= s.g.n - 2
    ensures var pub, request := Mul(s.g, x, generator), Request(s, generator, id, x, v);
            request.Ok? ==>
              var m := request.value;
              && m.data == [] && !m.denied && m.zkp.Some? && m.zkp.value.userId == id
              && Decode(s.g, m.publicKey) == Some(pub) && m.publicKey[0] in {2, 3}
              && Decode(s.g, m.zkp.value.v) == Some(Mul(s.g, v, generator)) && m.zkp.value.v[0] in {2, 3}
    ensures var pub, reply := Mul(s.g, x, generator), Reply(s, generator, id, sessionKey, x, v);
            reply.Ok? ==>
              var m := reply.value;
              && m.data == sessionKey && !m.denied && m.zkp.Some? && m.zkp.value.userId == id
              && Decode(s.g, m.publicKey) == Some(pub) && m.publicKey[0] == 4
              && Decode(s.g, m.zkp.value.v) == Some(Mul(s.g, v, generator)) && m.zkp.value.v[0] in {2, 3}
  {
    var pub, vPoint := Mul(s.g, x, generator), Mul(s.g, v, generator);
    CStringKeeps(id);
    PublicKeyHasFullOrder(s, x, generator, 0);
    PublicKeyHasFullOrder(s, v, generator, 0);
    DecodeEncoded(s.g, pub);
    DecodeEncoded(s.g, vPoint);
    OctetForms(s.g, pub);
    OctetForms(s.g, vPoint);
  }

  // ---- ids ----

  predicate IsClientId(id: Bytes) {
    |id| == 16 && IsHexText(id)
  }

  predicate IsServerId(id: Bytes) {
    |id| == 17 && id[..11] == Ascii("LRM_SERVER-") && IsHexText(id[11..])
  }

  lemma ServerIdHasNoNul(id: Bytes)
    requires IsServerId(id)
    ensures 0 !in id
  {
    var prefix := Ascii("LRM_SERVER-");
    forall i | 0 <= i < |id| ensures id[i] != 0 {
      if i < 11 {
        assert id[i] == id[..11][i] == prefix[i];
        assert prefix[i] == "LRM_SERVER-"[i] as int % 256;
      } else {
        assert id[i] == id[11..][i - 11];
      }
    }
  }

  method MakeServerId() returns (id: Bytes)
    ensures IsServerId(id)
  {
    var suffix, _ := GenerateRandomHex(6);
    id := Ascii("LRM_SERVER-") + suffix;
    assert id[..11] == Ascii("LRM_SERVER-") && id[11..] == suffix;
  }

  // ---- the server ----

  // What one call of Authenticate makes of a request, with no other call in between: a denial, or
  // a new session with its key, whether or not the reply can be made.
  predicate Served(
    s: Suite, generator: Point, serverId: Bytes, request: AuthData, sessions: set<Bytes>,
    key: Bytes, y: nat, w: nat, reply: Option<AuthData>, sessions': set<Bytes>)
    requires s.g.n > 0 && s.g.p > 0
  {
    if ServerAccepts(s, generator, serverId, request) then
      && key !in sessions && |key| == SESSION_KEY_SIZE && sessions' == sessions + {key}
      && 1 <= y <= s.g.n - 2 && 1 <= w <= s.g.n - 2
      && reply == match Reply(s, generator, serverId, key, y, w)
                  case Ok(message) => Some(message)
                  case Thrown => None
    else
      reply == Some(DENIAL) && sessions' == sessions
  }

  class PlayerService {
    const suite: Suite
    const generator: Point
    const serverId: Bytes
    var sessions: set<Bytes>

    ghost predicate Ready()
      reads this
    {
      && Valid(suite)
      && OnCurve(suite.g, generator) && generator != Infinity
      && IsServerId(serverId)
    }

    // The passphrase enters through the generator only.
    constructor (suite: Suite, passphrase: Bytes, ghost bound: nat)
      requires Valid(suite) && Usable(suite, passphrase, bound)
      ensures Ready() && sessions == {}
      ensures this.suite == suite && generator == MakeGenerator(suite, passphrase, bound)
    {
      var id := MakeServerId();
      this.suite := suite;
      generator := MakeGenerator(suite, passphrase, bound);
      serverId := id;
      sessions := {};
    }

    // check_auth: the key the caller sent, if any, is a live session.
    method CheckAuth(sessionKey: Option<Bytes>) returns (ok: bool)
      ensures ok <==> sessionKey.Some? && sessionKey.value in sessions
    {
      if sessionKey.None? {
        return false;
      }
      ok := sessionKey.value in sessions;
    }

    // Draw until the key is new. Some draw, the one numbered bound, is assumed to be.
    method GenerateSessionKey(draws: nat -> Bytes, ghost bound: nat) returns (key: Bytes, ghost used: nat)
      requires forall i: nat :: |draws(i)| == 32
      requires HexOf(draws(bound)) !in sessions
      ensures key !in sessions && |key| == SESSION_KEY_SIZE
      ensures used <= bound && key == HexOf(draws(used))
      ensures forall i: nat | i < used :: HexOf(draws(i)) in sessions
    {
      var i := 0;
      while true
        invariant 0 <= i <= bound
        invariant forall j: nat | j < i :: HexOf(draws(j)) in sessions
        decreases bound - i
      {
        key := ToHex(draws(i));
        if key !in sessions {
          return key, i;
        }
        i := i + 1;
      }
    }

    // One call with no other call in between. The session key is stored before the server's own
    // proof is made, so it stays even when that fails and no reply is written.
    method Authenticate(request: AuthData, draws: nat -> Bytes, ghost bound: nat)
      returns (reply: Option<AuthData>, ghost key: Bytes, ghost y: nat, ghost w: nat)
      requires Ready()
      requires forall i: nat :: |draws(i)| == 32
      requires HexOf(draws(bound)) !in sessions
      modifies this
      ensures Served(suite, generator, serverId, request, old(sessions), key, y, w, reply, sessions)
    {
      key, y, w := [], 0, 0;
      if request.zkp.None? {
        return Some(DENIAL), key, y, w;
      }
      var peerKey := Decode(suite.g, request.publicKey);
      var zkp := Deserialize(suite.g, request.zkp.value);
      if peerKey.None? || zkp.Thrown? {
        return Some(DENIAL), key, y, w;
      }
      if !CheckZkp(suite, zkp.value, peerKey.value, serverId, generator) {
        return Some(DENIAL), key, y, w;
      }
      var sessionKey, _ := GenerateSessionKey(draws, bound);
      sessions := sessions + {sessionKey};
      var privateKey := GeneratePrivateKey(suite);
      var publicKey := Mul(suite.g, privateKey, generator);
      var proof;
      proof, w := MakeZkp(suite, serverId, privateKey, publicKey, generator);
      var message := Serialize(suite.g, proof);
      key, y := sessionKey, privateKey;
      if message.Thrown? {
        return None, key, y, w;
      }
      reply := Some(AuthData(sessionKey, Some(message.value), EncodeUncompressed(suite.g, publicKey), false));
    }
  }

  // ---- the client ----

  class PlayerClient {
    const suite: Suite
    const generator: Point
    // SESSION_KEY_SIZE blanks until the login succeeds.
    var sessionKey: Bytes

    ghost predicate Ready() {
      && Valid(suite)
      && OnCurve(suite.g, generator) && generator != Infinity
    }

    constructor (suite: Suite, passphrase: Bytes, ghost bound: nat)
      requires Valid(suite) && Usable(suite, passphrase, bound)
      ensures Ready() && |sessionKey| == SESSION_KEY_SIZE
      ensures forall i | 0 <= i < |sessionKey| :: sessionKey[i] == ' ' as int
      ensures this.suite == suite && generator == MakeGenerator(suite, passphrase, bound)
    {
      this.suite := suite;
      generator := MakeGenerator(suite, passphrase, bound);
      sessionKey := seq(SESSION_KEY_SIZE, _ => ' ' as int);
    }

    // Up to the Write: a fresh key pair, a fresh id and the proof.
    method BeginAuthenticate()
      returns (request: Result<AuthData>, id: Bytes, ghost x: nat, ghost v: nat)
      requires Ready()
      ensures IsClientId(id)
      ensures 1 <= x <= suite.g.n - 2 && 1 <= v <= suite.g.n - 2
      ensures request == Request(suite, generator, id, x, v)
    {
      var privateKey := GeneratePrivateKey(suite);
      x := privateKey;
      var publicKey := Mul(suite.g, privateKey, generator);
      var publicKeyOctets := EncodeCompressed(suite.g, publicKey);
      var hex, _ := GenerateRandomHex(16);
      id := hex;
      var proof;
      proof, v := MakeZkp(suite, id, privateKey, publicKey, generator);
      var message := Serialize(suite.g, proof);
      if message.Thrown? {
        return Thrown, id, x, v;
      }
      request := Ok(CLEARED.(zkp := Some(message.value)).(publicKey := publicKeyOctets));
    }

    // After the Read; nothing read leaves the message cleared.
    method FinishAuthenticate(id: Bytes, read: Option<AuthData>) returns (outcome: Outcome)
      requires Ready()
      modifies this
      ensures var reply := if read.Some? then read.value else CLEARED;
              && outcome == ClientOutcome(suite, generator, id, reply)
              && (outcome == Authenticated <==>
                    ProvesKnowledge(suite, generator, id, reply) && !reply.denied && |reply.data| == SESSION_KEY_SIZE)
              && (outcome == AssertionFailed <==>
                    && ProvesKnowledge(suite, generator, id, reply) && !reply.denied
                    && |reply.data| !in {0, SESSION_KEY_SIZE})
              && sessionKey == if outcome == Authenticated then reply.data else old(sessionKey)
    {
      var data := CLEARED;
      if read.Some? {
        data := read.value;
      }
      var peerKey := Decode(suite.g, data.publicKey);
      var zkp := Deserialize(suite.g, if data.zkp.Some? then data.zkp.value else EMPTY_MESSAGE);
      if peerKey.None? || zkp.Thrown? {
        return Refused;
      }
      if !CheckZkp(suite, zkp.value, peerKey.value, id, generator) {
        return Refused;
      }
      if data.denied {
        return Refused;
      } else if |data.data| == 0 {
        return Refused;
      }
      if |data.data| != SESSION_KEY_SIZE {
        return AssertionFailed;
      }
      sessionKey := data.data;
      return Authenticated;
    }
  }

  // ---- what the handshake guarantees ----

  // A cleared message or a denial proves nothing, so the client never takes one for a login.
  lemma NoProofNoLogin(s: Suite, generator: Point, id: Bytes)
    requires s.g.p > 0
    ensures ClientOutcome(s, generator, id, CLEARED) == Refused
    ensures ClientOutcome(s, generator, id, DENIAL) == Refused
  {
    assert Decode(s.g, []) == None;
  }

  // The peer's message, decoded, carries the proof and the key it was made from.
  lemma MessageProves(s: Suite, maker: Point, checker: Point, id: Bytes, localId: Bytes, x: nat, v: nat,
                      m: AuthData)
    requires Valid(s) && OnCurve(s.g, maker)
    requires var pub := Mul(s.g, x, maker);
             && Serialized(s.g, ProofWith(s, id, x, pub, maker, v)).Ok?
             && m.zkp == Some(Serialized(s.g, ProofWith(s, id, x, pub, maker, v)).value)
             && m.publicKey in {EncodeCompressed(s.g, pub), EncodeUncompressed(s.g, pub)}
    ensures var pub := Mul(s.g, x, maker);
            ProvesKnowledge(s, checker, localId, m)
            <==> CheckZkp(s, ProofWith(s, id, x, pub, maker, v), pub, localId, checker)
  {
    var pub := Mul(s.g, x, maker);
    MulOnCurve(s.g, x, maker);
    MulOnCurve(s.g, v, maker);
    DecodeEncoded(s.g, pub);
    SerializeRoundTrip(s.g, ProofWith(s, id, x, pub, maker, v));
  }

  // Requests and replies are of one kind, and what an accepted message proves is that its maker
  // knew the passphrase, not that the server made it: with a key added, the request of any client
  // would do as a reply. Only the comparison of ids keeps a client from accepting its own request.
  lemma RequestAsReply(s: Suite, generator: Point, id: Bytes, other: Bytes, sessionKey: Bytes, x: nat, v: nat)
    requires Valid(s) && OnCurve(s.g, generator) && generator != Infinity
    requires IsClientId(id) && IsClientId(other) && |sessionKey| == SESSION_KEY_SIZE
    requires 1 <= x <= s.g.n - 2 && 1 <= v <= s.g.n - 2
    requires Request(s, generator, other, x, v).Ok?
    ensures ClientOutcome(s, generator, id, Request(s, generator, other, x, v).value.(data := sessionKey))
            == Authenticated
            <==> id != other
  {
    var message := Request(s, generator, other, x, v).value.(data := sessionKey);
    HexHasNoNul(other);
    CStringKeeps(other);
    MessageProves(s, generator, generator, other, id, x, v, message);
    MadeProofAcceptedExactly(s, other, x, generator, v, id);
  }

  // With equal passphrases, each side accepts what the other could send: a zero response is the
  // only obstacle, and the ids never stand in the way.
  lemma RequestAccepted(s: Suite, generator: Point, id: Bytes, serverId: Bytes, x: nat, v: nat)
    requires Valid(s) && OnCurve(s.g, generator) && generator != Infinity
    requires IsClientId(id) && IsServerId(serverId)
    requires 1 <= x <= s.g.n - 2 && 1 <= v <= s.g.n - 2
    ensures var request := Request(s, generator, id, x, v);
            && (request.Ok? <==> ProofWith(s, id, x, Mul(s.g, x, generator), generator, v).r != 0)
            && (request.Ok? ==> ServerAccepts(s, generator, serverId, request.value))
  {
    MulOnCurve(s.g, v, generator);
    SerializeRoundTrip(s.g, ProofWith(s, id, x, Mul(s.g, x, generator), generator, v));
    var request := Request(s, generator, id, x, v);
    if request.Ok? {
      MessageProves(s, generator, generator, id, serverId, x, v, request.value);
      HexHasNoNul(id);
      MadeProofAccepted(s, id, x, generator, v, serverId);
    }
  }

  lemma ReplyAccepted(s: Suite, generator: Point, id: Bytes, serverId: Bytes, sessionKey: Bytes, y: nat, w: nat)
    requires Valid(s) && OnCurve(s.g, generator) && generator != Infinity
    requires IsClientId(id) && IsServerId(serverId) && |sessionKey| == SESSION_KEY_SIZE
    requires 1 <= y <= s.g.n - 2 && 1 <= w <= s.g.n - 2
    ensures var reply := Reply(s, generator, serverId, sessionKey, y, w);
            && (reply.Ok? <==> ProofWith(s, serverId, y, Mul(s.g, y, generator), generator, w).r != 0)
            && (reply.Ok? ==> ClientOutcome(s, generator, id, reply.value) == Authenticated
                              && reply.value.data == sessionKey)
  {
    MulOnCurve(s.g, w, generator);
    SerializeRoundTrip(s.g, ProofWith(s, serverId, y, Mul(s.g, y, generator), generator, w));
    var reply := Reply(s, generator, serverId, sessionKey, y, w);
    if reply.Ok? {
      MessageProves(s, generator, generator, serverId, id, y, w, reply.value);
      ServerIdHasNoNul(serverId);
      MadeProofAccepted(s, serverId, y, generator, w, id);
    }
  }

  // So the whole exchange ends with both sides accepting exactly when neither response is zero.
  lemma HandshakeCompletes(
    s: Suite, generator: Point, id: Bytes, serverId: Bytes, sessionKey: Bytes,
    x: nat, v: nat, y: nat, w: nat)
    requires Valid(s) && OnCurve(s.g, generator) && generator != Infinity
    requires IsClientId(id) && IsServerId(serverId) && |sessionKey| == SESSION_KEY_SIZE
    requires 1 <= x <= s.g.n - 2 && 1 <= v <= s.g.n - 2
    requires 1 <= y <= s.g.n - 2 && 1 <= w <= s.g.n - 2
    ensures
      var request := Request(s, generator, id, x, v);
      var reply := Reply(s, generator, serverId, sessionKey, y, w);
      (&& request.Ok? && ServerAccepts(s, generator, serverId, request.value)
       && reply.Ok? && ClientOutcome(s, generator, id, reply.value) == Authenticated)
      <==>
      && ProofWith(s, id, x, Mul(s.g, x, generator), generator, v).r != 0
      && ProofWith(s, serverId, y, Mul(s.g, y, generator), generator, w).r != 0
  {
    RequestAccepted(s, generator, id, serverId, x, v);
    ReplyAccepted(s, generator, id, serverId, sessionKey, y, w);
  }

  lemma RequestChecked(
    s: Suite, generator: Point, serverGenerator: Point, id: Bytes, serverId: Bytes, x: nat, v: nat)
    requires Valid(s) && OnCurve(s.g, generator) && IsClientId(id) && IsServerId(serverId)
    requires Request(s, generator, id, x, v).Ok?
    ensures var pub := Mul(s.g, x, generator);
            var proof := ProofWith(s, id, x, pub, generator, v);
            && proof.userId == id && id != serverId && id != []
            && (ServerAccepts(s, serverGenerator, serverId, Request(s, generator, id, x, v).value)
                <==> CheckZkp(s, proof, pub, serverId, serverGenerator))
  {
    HexHasNoNul(id);
    CStringKeeps(id);
    MessageProves(s, generator, serverGenerator, id, serverId, x, v, Request(s, generator, id, x, v).value);
  }

  // The server accepts the request exactly when r*a + c*b == w (mod n), where r is the response
  // in the request and c the challenge under the server's own generator.
  ghost predicate AcceptedExactlyWhen(
    s: Suite, generator: Point, serverGenerator: Point, id: Bytes, serverId: Bytes, x: nat, v: nat,
    a: int, b: int, w: int)
    requires s.g.n > 0 && s.g.p > 0 && Request(s, generator, id, x, v).Ok?
  {
    var pub := Mul(s.g, x, generator);
    var r := ProofWith(s, id, x, pub, generator, v).r;
    var c := Challenge(s, Mul(s.g, v, generator), pub, id, serverGenerator);
    ServerAccepts(s, serverGenerator, serverId, Request(s, generator, id, x, v).value)
    <==> Solves(s.g.n, r, a, c, b, w)
  }

  // The checks before the equation are met by every request.
  lemma EquationDecides(
    s: Suite, generator: Point, serverGenerator: Point, id: Bytes, serverId: Bytes, x: nat, v: nat,
    a: int, b: int, w: int, pub: Point, proof: Proof, c: nat)
    requires Valid(s) && OnCurve(s.g, generator) && IsClientId(id) && IsServerId(serverId)
    requires Request(s, generator, id, x, v).Ok?
    requires pub == Mul(s.g, x, generator) && proof == ProofWith(s, id, x, pub, generator, v)
    requires c == Challenge(s, proof.v, pub, id, serverGenerator)
    requires CheckZkp(s, proof, pub, serverId, serverGenerator) <==> Solves(s.g.n, proof.r, a, c, b, w)
    ensures AcceptedExactlyWhen(s, generator, serverGenerator, id, serverId, x, v, a, b, w)
  {
    RequestChecked(s, generator, serverGenerator, id, serverId, x, v);
  }

  // When the server's generator is [t] of the client's, it accepts the client's request exactly
  // when the response happens to solve r*t + c*x == v.
  lemma OtherGenerator(s: Suite, generator: Point, t: nat, id: Bytes, serverId: Bytes, x: nat, v: nat)
    requires Valid(s) && OnCurve(s.g, generator) && generator != Infinity
    requires IsClientId(id) && IsServerId(serverId)
    requires 1 <= x <= s.g.n - 2 && 1 <= v <= s.g.n - 2
    requires Request(s, generator, id, x, v).Ok?
    ensures AcceptedExactlyWhen(s, generator, Mul(s.g, t, generator), id, serverId, x, v, t, x, v)
  {
    var serverGenerator := Mul(s.g, t, generator);
    var pub := Mul(s.g, x, generator);
    var proof := ProofWith(s, id, x, pub, generator, v);
    RequestChecked(s, generator, serverGenerator, id, serverId, x, v);
    CheckInRange(s, generator, t, v, x, proof, serverId);
    EquationDecides(s, generator, serverGenerator, id, serverId, x, v, t, x, v, pub, proof,
                    Challenge(s, proof.v, pub, id, serverGenerator));
  }

  // For two passphrases with digests h (client) and k (server): exactly when it solves
  // r*k + c*x*h == v*h.
  lemma OtherPassphrase(
    s: Suite, clientPassword: Bytes, i: nat, serverPassword: Bytes, j: nat,
    id: Bytes, serverId: Bytes, x: nat, v: nat)
    requires Valid(s) && FirstUsable(s, clientPassword, i) && FirstUsable(s, serverPassword, j)
    requires IsClientId(id) && IsServerId(serverId)
    requires 1 <= x <= s.g.n - 2 && 1 <= v <= s.g.n - 2
    requires Request(s, MakeGenerator(s, clientPassword, i), id, x, v).Ok?
    ensures var h, k := Digest(s, clientPassword, i), Digest(s, serverPassword, j);
            AcceptedExactlyWhen(s, MakeGenerator(s, clientPassword, i), MakeGenerator(s, serverPassword, j),
                                id, serverId, x, v, k, x * h, v * h)
  {
    GeneratorIsFirstUsable(s, clientPassword, i, i);
    GeneratorIsFirstUsable(s, serverPassword, j, j);
    var h, k := Digest(s, clientPassword, i), Digest(s, serverPassword, j);
    Product(x, h);
    Product(v, h);
    OtherDigest(s, MakeGenerator(s, clientPassword, i), MakeGenerator(s, serverPassword, j), h, k,
                id, serverId, x, v, x * h, v * h);
  }

  lemma OtherDigest(
    s: Suite, generator: Point, serverGenerator: Point, h: nat, k: nat,
    id: Bytes, serverId: Bytes, x: nat, v: nat, xh: nat, vh: nat)
    requires Valid(s) && OnCurve(s.g, generator) && h % s.g.n != 0 && xh == x * h && vh == v * h
    requires generator == Mul(s.g, h, s.g.base) && serverGenerator == Mul(s.g, k, s.g.base)
    requires IsClientId(id) && IsServerId(serverId)
    requires 1 <= x <= s.g.n - 2 && 1 <= v <= s.g.n - 2
    requires Request(s, generator, id, x, v).Ok?
    ensures AcceptedExactlyWhen(s, generator, serverGenerator, id, serverId, x, v, k, xh, vh)
  {
    RequestChecked(s, generator, serverGenerator, id, serverId, x, v);
    var pub := Mul(s.g, x, generator);
    var proof := ProofWith(s, id, x, pub, generator, v);
    CheckMultiples(s, h, k, proof, serverId, x, v, xh, vh);
    EquationDecides(s, generator, serverGenerator, id, serverId, x, v, k, xh, vh, pub, proof,
                    Challenge(s, proof.v, pub, id, serverGenerator));
  }
}
