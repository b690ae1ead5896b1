// The hypotheses of Curve and Zkp can be met: y^2 = x^3 + 2x + 1 over the field of five elements
// has seven points, the multiples of (0, 1). Addition is given by listing those multiples. The hash
// keeps the last octet only, which is enough for a usable passphrase, a login, and a private key
// given away by two proofs.
module Instance {
  import opened Bytes
  import opened Numbers
  import opened Curve
  import opened Zkp
  import opened Handshake

  function IndexOf(points: seq<Point>, q: Point): (k: nat)
    requires points != []
    ensures k < |points| && (q in points ==> points[k] == q)
  {
    if |points| == 1 || points[0] == q then 0 else 1 + IndexOf(points[1..], q)
  }

  function CyclicAdd(points: seq<Point>, q: Point, r: Point): Point
    requires points != []
  {
    points[(IndexOf(points, q) + IndexOf(points, r)) % |points|]
  }

  // The points of the group, in the order 0, G, [2]G, ...
  ghost predicate Lists(g: Group, points: seq<Point>) {
    && Field(g)
    && points != [] && points[0] == Infinity && g.n == |points|
    && (forall i, j | 0 <= i < j < |points| :: points[i] != points[j])
    && (forall q :: Listed(g, points, q))
    && (forall q, r :: AddsAsListed(g, points, q, r))
  }

  ghost predicate Listed(g: Group, points: seq<Point>, q: Point)
    requires g.p > 0
  {
    OnCurve(g, q) <==> q in points
  }

  ghost predicate AddsAsListed(g: Group, points: seq<Point>, q: Point, r: Point)
    requires points != []
  {
    g.add(q, r) == CyclicAdd(points, q, r)
  }

  // Listed points add like their indices modulo n.
  lemma AddListed(g: Group, points: seq<Point>, i: nat, j: nat)
    requires Lists(g, points) && i < g.n && j < g.n
    ensures g.add(points[i], points[j]) == points[(i + j) % g.n]
  {
    assert AddsAsListed(g, points, points[i], points[j]);
    var i', j' := IndexOf(points, points[i]), IndexOf(points, points[j]);
    assert points[i'] == points[i] && points[j'] == points[j];
  }

  lemma ListedAssociative(g: Group, points: seq<Point>, x: Point, y: Point, z: Point)
    requires Lists(g, points)
    ensures Associative(g, x, y, z)
  {
    if OnCurve(g, x) && OnCurve(g, y) && OnCurve(g, z) {
      assert Listed(g, points, x) && Listed(g, points, y) && Listed(g, points, z);
      var i, j, k := IndexOf(points, x), IndexOf(points, y), IndexOf(points, z);
      AddListed(g, points, i, j);
      AddListed(g, points, j, k);
      var ij, jk := (i + j) % g.n, (j + k) % g.n;
      AddListed(g, points, ij, k);
      AddListed(g, points, i, jk);
      SumsModulo(i, j, k, g.n);
    }
  }

  lemma ListedClosed(g: Group, points: seq<Point>, x: Point, y: Point)
    requires Lists(g, points)
    ensures Closed(g, x, y)
  {
    if OnCurve(g, x) && OnCurve(g, y) {
      assert Listed(g, points, x) && Listed(g, points, y);
      var i, j := IndexOf(points, x), IndexOf(points, y);
      AddListed(g, points, i, j);
      AddListed(g, points, j, i);
      assert Listed(g, points, points[(i + j) % g.n]);
    }
  }

  // [k] of the point with index i has index k*i, reduced.
  lemma {:induction false} MulListed(g: Group, points: seq<Point>, k: nat, i: nat, ki: nat)
    requires Lists(g, points) && i < g.n && ki == k * i
    ensures Mul(g, k, points[i]) == points[ki % g.n]
  {
    if k == 0 {
      SmallMod(0, g.n);
    } else {
      assert ki - i == (k - 1) * i;
      MulListed(g, points, k - 1, i, ki - i);
      AddListed(g, points, i, (ki - i) % g.n);
      ModMod(ki - i, g.n);
      CongruentAdd(i, i, (ki - i) % g.n, ki - i, g.n);
    }
  }

  lemma ListedUnitAndOrder(g: Group, points: seq<Point>, x: Point)
    requires Lists(g, points)
    ensures UnitAndOrder(g, x)
  {
    if OnCurve(g, x) {
      assert Listed(g, points, x);
      var i := IndexOf(points, x);
      AddListed(g, points, 0, i);
      SmallMod(i, g.n);
      var multiple := g.n * i;
      MulListed(g, points, g.n, i, multiple);
      Product(g.n, i);
      DivModUnique(multiple, i, 0, g.n);
    }
  }

  const TOY_POINTS: seq<Point> :=
    [Infinity, Affine(0, 1), Affine(1, 3), Affine(3, 3), Affine(3, 2), Affine(1, 2), Affine(0, 4)]

  const TOY_GROUP: Group :=
    Group(5, 2, 1, 1, 7, 1, Affine(0, 1), (q, r) => CyclicAdd(TOY_POINTS, q, r))

  function LastOctet(b: Bytes): Byte {
    if b == [] then 0 else b[|b| - 1]
  }

  function ToyHash(b: Bytes): (r: Bytes)
    ensures |r| == 64
  {
    ToFixed(LastOctet(b), 64)
  }

  const TOY_SUITE: Suite := Suite(TOY_GROUP, ToyHash)

  lemma SmallPrimes()
    ensures IsPrime(5) && IsPrime(7)
  {
    assert !Divides(2, 5) && !Divides(3, 5) && !Divides(4, 5);
    assert !Divides(2, 7) && !Divides(3, 7) && !Divides(4, 7) && !Divides(5, 7) && !Divides(6, 7);
  }

  lemma SquareModFive(y: nat)
    requires y < 5
    ensures (y * y) % 5 == [0, 1, 4, 4, 1][y]
  {
    if y == 0 {} else if y == 1 {} else if y == 2 {} else if y == 3 {} else {}
  }

  lemma CubicModFive(x: nat)
    requires x < 5
    ensures (x * x * x + 2 * x + 1) % 5 == [1, 4, 3, 4, 3][x]
  {
    if x == 0 {} else if x == 1 {} else if x == 2 {} else if x == 3 {} else {}
  }

  lemma ToyListed(q: Point)
    ensures Listed(TOY_GROUP, TOY_POINTS, q)
  {
    if q.Affine? && q.x < 5 && q.y < 5 {
      SquareModFive(q.y);
      CubicModFive(q.x);
    }
  }

  lemma ToyLists()
    ensures Lists(TOY_GROUP, TOY_POINTS)
  {
    SmallPrimes();
    assert Pow256(1) == 256 * Pow256(0);
    forall q ensures Listed(TOY_GROUP, TOY_POINTS, q) {
      ToyListed(q);
    }
    forall q, r ensures AddsAsListed(TOY_GROUP, TOY_POINTS, q, r) {
    }
  }

  // All hypotheses hold of this group and this hash.
  lemma HypothesesSatisfiable()
    ensures Valid(TOY_SUITE)
  {
    var g := TOY_GROUP;
    SmallPrimes();
    ToyLists();
    ToyListed(g.base);
    forall x, y, z ensures Associative(g, x, y, z) {
      ListedAssociative(g, TOY_POINTS, x, y, z);
    }
    forall x, y ensures Closed(g, x, y) {
      ListedClosed(g, TOY_POINTS, x, y);
    }
    forall x ensures UnitAndOrder(g, x) {
      ListedUnitAndOrder(g, TOY_POINTS, x);
    }
    assert PrimeOrder(g);
    forall b: Bytes ensures HashLength(TOY_SUITE, b) {
    }
  }

  lemma DigestIsLastOctet(b: Bytes)
    ensures FromBytes(ToyHash(b)) == LastOctet(b)
  {
    assert Pow256(64) == 256 * Pow256(63);
    FromToFixed(LastOctet(b), 64);
  }

  // ---- a login, and a key given away ----

  // Passphrase, ids, keys and random scalars of a login that succeeds.
  ghost predicate LogsIn(
    s: Suite, password: Bytes, id: Bytes, serverId: Bytes, sessionKey: Bytes, x: nat, v: nat)
  {
    && Valid(s) && Usable(s, password, 0) && IsClientId(id) && IsServerId(serverId)
    && var generator := MakeGenerator(s, password, 0);
       var request := Request(s, generator, id, x, v);
       var reply := Reply(s, generator, serverId, sessionKey, x, v);
       && request.Ok? && ServerAccepts(s, generator, serverId, request.value)
       && reply.Ok? && ClientOutcome(s, generator, id, reply.value) == Authenticated
  }

  // Two proofs that share V and public key, are both accepted, and whose challenges differ.
  ghost predicate GivesKeyAway(s: Suite, password: Bytes, id1: Bytes, id2: Bytes, localId: Bytes, x: nat, v: nat) {
    && Valid(s) && Usable(s, password, 0)
    && var generator := MakeGenerator(s, password, 0);
       var pub := Mul(s.g, x, generator);
       var proof1 := ProofWith(s, id1, x, pub, generator, v);
       var proof2 := ProofWith(s, id2, x, pub, generator, v);
       && proof1.v == proof2.v
       && CheckZkp(s, proof1, pub, localId, generator) && CheckZkp(s, proof2, pub, localId, generator)
       && Challenge(s, proof1.v, pub, proof1.userId, generator) % s.g.n
          != Challenge(s, proof2.v, pub, proof2.userId, generator) % s.g.n
  }

  // A valid suite with this hash and a group of order seven.
  ghost predicate ToyLike(s: Suite) {
    Valid(s) && s.hash == ToyHash && s.g.n == 7
  }

  lemma UsablePassword(s: Suite, password: Bytes)
    requires ToyLike(s) && LastOctet(password) % 7 != 0
    ensures Usable(s, password, 0)
  {
    DigestIsLastOctet(password);
  }

  lemma ChallengeIsLastOctet(s: Suite, v: Point, pub: Point, id: Bytes, generator: Point)
    requires ToyLike(s) && id != []
    ensures Challenge(s, v, pub, id, generator) == LastOctet(id)
  {
    var input := ChallengeInput(s.g, v, pub, id, generator);
    assert LastOctet(input) == LastOctet(id);
    DigestIsLastOctet(input);
  }

  lemma ResponseNotZero(s: Suite, id: Bytes, generator: Point, x: nat, v: nat)
    requires ToyLike(s) && id != [] && x == 1 && v == 3 && LastOctet(id) % 7 != 3
    ensures ProofWith(s, id, x, Mul(s.g, x, generator), generator, v).r != 0
  {
    ChallengeIsLastOctet(s, Mul(s.g, v, generator), Mul(s.g, x, generator), id, generator);
    ProofAnswers(s, id, x, Mul(s.g, x, generator), generator, v);
    var proof := ProofWith(s, id, x, Mul(s.g, x, generator), generator, v);
    ThreeMinus(x, v, LastOctet(id), s.g.n, proof.r);
  }

  lemma ThreeMinus(x: nat, v: nat, c: nat, n: nat, r: int)
    requires x == 1 && v == 3 && n == 7 && c % 7 != 3 && Responds(n, x, c, v, r)
    ensures r != 0
  {
    assert x * c == c;
  }

  lemma ToyLikeLogsIn(
    s: Suite, password: Bytes, id: Bytes, serverId: Bytes, sessionKey: Bytes, x: nat, v: nat)
    requires ToyLike(s) && LastOctet(password) % 7 != 0 && x == 1 && v == 3
    requires IsClientId(id) && LastOctet(id) % 7 != 3
    requires IsServerId(serverId) && LastOctet(serverId) % 7 != 3
    requires |sessionKey| == SESSION_KEY_SIZE
    ensures LogsIn(s, password, id, serverId, sessionKey, x, v)
  {
    UsablePassword(s, password);
    var generator := MakeGenerator(s, password, 0);
    ResponseNotZero(s, id, generator, x, v);
    ResponseNotZero(s, serverId, generator, x, v);
    HandshakeCompletes(s, generator, id, serverId, sessionKey, x, v, x, v);
  }

  lemma ToyLikeGivesKeyAway(
    s: Suite, password: Bytes, id1: Bytes, id2: Bytes, localId: Bytes, x: nat, v: nat)
    requires ToyLike(s) && LastOctet(password) % 7 != 0 && x == 1 && v == 3
    requires IsClientId(id1) && IsClientId(id2) && IsServerId(localId)
    requires LastOctet(id1) % 7 != LastOctet(id2) % 7
    ensures GivesKeyAway(s, password, id1, id2, localId, x, v)
  {
    UsablePassword(s, password);
    var generator := MakeGenerator(s, password, 0);
    var pub, vPoint := Mul(s.g, x, generator), Mul(s.g, v, generator);
    CStringKeeps(id1);
    CStringKeeps(id2);
    MadeProofAccepted(s, id1, x, generator, v, localId);
    MadeProofAccepted(s, id2, x, generator, v, localId);
    ChallengeIsLastOctet(s, vPoint, pub, id1, generator);
    ChallengeIsLastOctet(s, vPoint, pub, id2, generator);
  }

  const PASSPHRASE: Bytes := ['a' as int]
  const CLIENT_ID: Bytes := seq(16, _ => '2' as int)
  const OTHER_ID: Bytes := seq(16, _ => '4' as int)
  const SERVER_ID: Bytes := Ascii("LRM_SERVER-") + seq(6, _ => '2' as int)

  lemma ToyIds()
    ensures IsClientId(CLIENT_ID) && LastOctet(CLIENT_ID) == 50
    ensures IsClientId(OTHER_ID) && LastOctet(OTHER_ID) == 52
    ensures IsServerId(SERVER_ID) && LastOctet(SERVER_ID) == 50
  {
    assert SERVER_ID[..11] == Ascii("LRM_SERVER-");
  }

  // Passphrases can be usable, and there are requests and replies that are accepted.
  lemma LoginSatisfiable(sessionKey: Bytes)
    requires |sessionKey| == SESSION_KEY_SIZE
    ensures LogsIn(TOY_SUITE, PASSPHRASE, CLIENT_ID, SERVER_ID, sessionKey, 1, 3)
  {
    HypothesesSatisfiable();
    ToyIds();
    ToyLikeLogsIn(TOY_SUITE, PASSPHRASE, CLIENT_ID, SERVER_ID, sessionKey, 1, 3);
  }

  // Two accepted proofs can give the private key away.
  lemma TwoProofsSatisfiable()
    ensures GivesKeyAway(TOY_SUITE, PASSPHRASE, CLIENT_ID, OTHER_ID, SERVER_ID, 1, 3)
  {
    HypothesesSatisfiable();
    ToyIds();
    ToyLikeGivesKeyAway(TOY_SUITE, PASSPHRASE, CLIENT_ID, OTHER_ID, SERVER_ID, 1, 3);
  }
}
