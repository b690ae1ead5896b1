// The proof of knowledge of crypto/CryptoUtil.cpp: a Schnorr non-interactive proof (section 3 of
// RFC 8235) whose generator is derived from the passphrase.
module Zkp {
  import opened Bytes
  import opened Numbers
  import opened Curve

  // The group and the hash function; the hash stays a parameter.
  datatype Suite = Suite(g: Group, hash: Bytes -> Bytes)

  ghost predicate HashLength(s: Suite, b: Bytes) {
    |s.hash(b)| == 64
  }

  ghost predicate Valid(s: Suite) {
    PrimeOrder(s.g) && forall b :: HashLength(s, b)
  }

  // V = [v]G for a random v, r = v - privkey * c.
  datatype Proof = Proof(userId: Bytes, v: Point, r: nat)

  // ---- generator and keys ----

  // The passphrase whose digest make_generator uses after k digests hit the identity.
  function Rehashed(s: Suite, password: Bytes, k: nat): Bytes
    decreases k
  {
    if k == 0 then password else Rehashed(s, s.hash(password), k - 1)
  }

  function Digest(s: Suite, password: Bytes, k: nat): nat {
    FromBytes(s.hash(Rehashed(s, password, k)))
  }

  // The k-th digest is a usable scalar.
  predicate Usable(s: Suite, password: Bytes, k: nat)
    requires s.g.n > 0
  {
    Digest(s, password, k) % s.g.n != 0
  }

  // Rehash until the point is not at infinity. That the recursion ends is the caller's
  // hypothesis: some digest, the one numbered bound, is usable.
  function MakeGenerator(s: Suite, password: Bytes, ghost bound: nat): (generator: Point)
    requires Valid(s) && Usable(s, password, bound)
    ensures OnCurve(s.g, generator) && generator != Infinity
    decreases bound
  {
    var digest := s.hash(password);
    var point := Mul(s.g, FromBytes(digest), s.g.base);
    MulOnCurve(s.g, FromBytes(digest), s.g.base);
    FullOrder(s.g, FromBytes(digest), s.g.base);
    if point == Infinity then MakeGenerator(s, digest, bound - 1) else point
  }

  ghost predicate FirstUsable(s: Suite, password: Bytes, first: nat)
    requires s.g.n > 0
  {
    Usable(s, password, first) && forall k: nat | k < first :: !Usable(s, password, k)
  }

  // The generator is the base point times the first usable digest, whatever bound is known.
  lemma {:induction false} GeneratorIsFirstUsable(s: Suite, password: Bytes, bound: nat, first: nat)
    requires Valid(s) && Usable(s, password, bound) && first <= bound && FirstUsable(s, password, first)
    ensures MakeGenerator(s, password, bound) == Mul(s.g, Digest(s, password, first), s.g.base)
    decreases bound
  {
    var digest := s.hash(password);
    FullOrder(s.g, FromBytes(digest), s.g.base);
    if first != 0 {
      assert !Usable(s, password, 0);
      forall k: nat | k < first - 1 ensures !Usable(s, digest, k) {
        assert !Usable(s, password, k + 1);
      }
      GeneratorIsFirstUsable(s, digest, bound - 1, first - 1);
    }
  }

  // A passphrase whose digest is not a multiple of n gives the base point times its digest; any
  // other one gives what its digest gives as a passphrase.
  lemma GeneratorOfDigest(s: Suite, password: Bytes, bound: nat)
    requires Valid(s) && Usable(s, password, bound)
    ensures FromBytes(s.hash(password)) % s.g.n != 0 ==>
              MakeGenerator(s, password, bound) == Mul(s.g, FromBytes(s.hash(password)), s.g.base)
    ensures FromBytes(s.hash(password)) % s.g.n == 0 ==>
              bound > 0 && Usable(s, s.hash(password), bound - 1)
              && MakeGenerator(s, password, bound) == MakeGenerator(s, s.hash(password), bound - 1)
  {
    FullOrder(s.g, FromBytes(s.hash(password)), s.g.base);
  }

  // So both sides derive the same generator from the same passphrase.
  lemma {:induction false} SameGenerator(s: Suite, password: Bytes, bound: nat, bound': nat)
    requires Valid(s) && Usable(s, password, bound) && Usable(s, password, bound')
    ensures MakeGenerator(s, password, bound) == MakeGenerator(s, password, bound')
    decreases bound
  {
    var digest := s.hash(password);
    FullOrder(s.g, FromBytes(digest), s.g.base);
    if Mul(s.g, FromBytes(digest), s.g.base) == Infinity {
      SameGenerator(s, digest, bound - 1, bound' - 1);
    }
  }

  // Random in [0, n - 3], then one more: the key lies in [1, n - 2].
  method GeneratePrivateKey(s: Suite) returns (key: nat)
    requires Valid(s)
    ensures 1 <= key <= s.g.n - 2
  {
    var orderMinusTwo := s.g.n;
    orderMinusTwo := orderMinusTwo - 2;
    var draw: nat :| draw < orderMinusTwo;
    key := draw;
    key := key + 1;
  }

  // The public key of a generated private key is never at infinity, and [k]A vanishes only for
  // the multiples of the group order.
  lemma PublicKeyHasFullOrder(s: Suite, key: nat, generator: Point, k: nat)
    requires Valid(s) && OnCurve(s.g, generator) && generator != Infinity
    requires 1 <= key <= s.g.n - 2
    ensures var pub := Mul(s.g, key, generator);
            OnCurve(s.g, pub) && pub != Infinity
            && (Mul(s.g, k, pub) == Infinity <==> k % s.g.n == 0)
  {
    MulOnCurve(s.g, key, generator);
    FullOrder(s.g, key, generator);
    SmallMod(key, s.g.n);
    FullOrder(s.g, k, Mul(s.g, key, generator));
  }

  // ---- challenge ----

  // gen || V || pubkey || user_id, points uncompressed.
  function ChallengeInput(g: Group, v: Point, pub: Point, userId: Bytes, generator: Point): Bytes {
    EncodeUncompressed(g, generator) + (EncodeUncompressed(g, v) + (EncodeUncompressed(g, pub) + userId))
  }

  // The hash read as a number. It is not reduced modulo the group order.
  function Challenge(s: Suite, v: Point, pub: Point, userId: Bytes, generator: Point): nat {
    FromBytes(s.hash(ChallengeInput(s.g, v, pub, userId, generator)))
  }

  // No length prefixes are needed: the hashed octets determine all four parts.
  lemma ChallengeInputInjective(
    g: Group,
    v: Point, pub: Point, userId: Bytes, generator: Point,
    v': Point, pub': Point, userId': Bytes, generator': Point)
    requires Field(g)
    requires OnCurve(g, v) && OnCurve(g, pub) && OnCurve(g, generator)
    requires OnCurve(g, v') && OnCurve(g, pub') && OnCurve(g, generator')
    ensures ChallengeInput(g, v, pub, userId, generator)
            == ChallengeInput(g, v', pub', userId', generator')
            <==> v == v' && pub == pub' && userId == userId' && generator == generator'
  {
    if ChallengeInput(g, v, pub, userId, generator) == ChallengeInput(g, v', pub', userId', generator') {
      var tail := EncodeUncompressed(g, pub) + userId;
      var tail' := EncodeUncompressed(g, pub') + userId';
      SelfDelimiting(g, generator, generator',
                     EncodeUncompressed(g, v) + tail, EncodeUncompressed(g, v') + tail');
      SelfDelimiting(g, v, v', tail, tail');
      SelfDelimiting(g, pub, pub', userId, userId');
    }
  }

  // Generator, V and public key one after the other, each uncompressed, then the id.
  lemma ChallengeInputLayout(g: Group, v: Point, pub: Point, userId: Bytes, generator: Point)
    requires Field(g) && OnCurve(g, v) && OnCurve(g, pub) && OnCurve(g, generator)
    requires v != Infinity && pub != Infinity && generator != Infinity
    ensures var input, len := ChallengeInput(g, v, pub, userId, generator), 1 + 2 * g.fieldLen;
            && |input| == 3 * len + |userId|
            && Decode(g, input[..len]) == Some(generator) && input[0] == 4
            && Decode(g, input[len..2 * len]) == Some(v) && input[len] == 4
            && Decode(g, input[2 * len..3 * len]) == Some(pub) && input[2 * len] == 4
            && input[3 * len..] == userId
  {
    var input, len := ChallengeInput(g, v, pub, userId, generator), 1 + 2 * g.fieldLen;
    var a, b, c := EncodeUncompressed(g, generator), EncodeUncompressed(g, v), EncodeUncompressed(g, pub);
    FourParts(a, b, c, userId, len);
    DecodeUncompressed(g, generator);
    DecodeUncompressed(g, v);
    DecodeUncompressed(g, pub);
    assert a[0] == b[0] == c[0] == 4;
  }

  lemma FourParts(a: Bytes, b: Bytes, c: Bytes, d: Bytes, len: nat)
    requires |a| == |b| == |c| == len > 0
    ensures var all := a + (b + (c + d));
            && |all| == 3 * len + |d|
            && all[..len] == a && all[len..2 * len] == b && all[2 * len..3 * len] == c && all[3 * len..] == d
            && all[0] == a[0] && all[len] == b[0] && all[2 * len] == c[0]
  {
  }

  // ---- proof ----

  // std::string built from string_view::data(): the id is cut at its first NUL.
  function CString(id: Bytes): Bytes {
    if id == [] || id[0] == 0 then [] else [id[0]] + CString(id[1..])
  }

  // What make_zkp returns when the random scalar is v.
  function ProofWith(s: Suite, userId: Bytes, key: nat, pub: Point, generator: Point, v: nat): Proof
    requires s.g.n > 0
  {
    var c := Challenge(s, Mul(s.g, v, generator), pub, userId, generator);
    Proof(CString(userId), Mul(s.g, v, generator), (v - key * c % s.g.n) % s.g.n)
  }

  // The response lies in [0, n - 1] and solves r + x*c == v (mod n).
  predicate Responds(n: nat, x: int, c: int, v: int, r: int)
    requires n > 0
  {
    0 <= r < n && (r + x * c) % n == v % n
  }

  // The commitment is [v]G, the response is right for the challenge of the whole id, and the id is
  // the part of it before the first NUL.
  predicate Answers(s: Suite, proof: Proof, userId: Bytes, key: nat, pub: Point, generator: Point, v: nat)
    requires s.g.n > 0
  {
    && proof.v == Mul(s.g, v, generator)
    && Responds(s.g.n, key, Challenge(s, proof.v, pub, userId, generator), v, proof.r)
    && proof.userId <= userId && 0 !in proof.userId
    && (proof.userId == userId || userId[|proof.userId|] == 0)
  }

  lemma ResponseResponds(n: nat, x: int, c: int, v: int)
    requires n > 0
    ensures Responds(n, x, c, v, (v - x * c % n) % n)
  {
    DifferenceSolves(x * c, v, n);
  }

  lemma ResponseUnique(n: nat, x: int, c: int, v: int, r: int, r': int)
    requires n > 0 && Responds(n, x, c, v, r) && Responds(n, x, c, v, r')
    ensures r == r'
  {
    SameResidue(r, r', x * c, n);
  }

  // These properties determine the proof.
  lemma ProofAnswers(s: Suite, userId: Bytes, key: nat, pub: Point, generator: Point, v: nat)
    requires s.g.n > 0
    ensures Answers(s, ProofWith(s, userId, key, pub, generator, v), userId, key, pub, generator, v)
  {
    var c := Challenge(s, Mul(s.g, v, generator), pub, userId, generator);
    ResponseResponds(s.g.n, key, c, v);
    CStringIsPrefix(userId);
  }

  lemma AnswerUnique(
    s: Suite, proof: Proof, userId: Bytes, key: nat, pub: Point, generator: Point, v: nat)
    requires s.g.n > 0 && Answers(s, proof, userId, key, pub, generator, v)
    ensures proof == ProofWith(s, userId, key, pub, generator, v)
  {
    var made := ProofWith(s, userId, key, pub, generator, v);
    ProofAnswers(s, userId, key, pub, generator, v);
    ResponseUnique(s.g.n, key, Challenge(s, proof.v, pub, userId, generator), v, proof.r, made.r);
    SameCut(userId, proof.userId, made.userId);
  }

  // An id can be cut at its first NUL in one way only.
  lemma SameCut(id: Bytes, a: Bytes, b: Bytes)
    requires a <= id && 0 !in a && (a == id || id[|a|] == 0)
    requires b <= id && 0 !in b && (b == id || id[|b|] == 0)
    ensures a == b
  {
    NotShorter(id, a, b);
    NotShorter(id, b, a);
    assert a == id[..|a|] && b == id[..|b|];
  }

  lemma NotShorter(id: Bytes, a: Bytes, b: Bytes)
    requires a <= id && (a == id || id[|a|] == 0) && b <= id && 0 !in b
    ensures |b| <= |a|
  {
    assert forall i | 0 <= i < |b| :: b[i] == id[i] && b[i] != 0;
  }

  method MakeZkp(s: Suite, userId: Bytes, key: nat, pub: Point, generator: Point)
    returns (proof: Proof, ghost random: nat)
    requires Valid(s)
    ensures 1 <= random <= s.g.n - 2
    ensures proof == ProofWith(s, userId, key, pub, generator, random)
    ensures Answers(s, proof, userId, key, pub, generator, random)
    ensures exists v: nat | 1 <= v <= s.g.n - 2 :: Answers(s, proof, userId, key, pub, generator, v)
  {
    var v := GeneratePrivateKey(s);
    ProofAnswers(s, userId, key, pub, generator, v);
    random := v;
    var vPoint := Mul(s.g, v, generator);
    var c := Challenge(s, vPoint, pub, userId, generator);
    var r := key * c % s.g.n;
    r := (v - r) % s.g.n;
    proof := Proof(CString(userId), vPoint, r);
  }

  predicate ValidPoint(s: Suite, q: Point)
    requires s.g.p > 0
  {
    OnCurve(s.g, q) && q != Infinity
  }

  // check_zkp: V == [r]G + [c]A after the sanity checks.
  predicate CheckZkp(s: Suite, proof: Proof, pub: Point, localId: Bytes, generator: Point)
    requires s.g.p > 0
  {
    if !ValidPoint(s, pub) then false
    else if Mul(s.g, s.g.cofactor, pub) == Infinity then false
    else if !ValidPoint(s, proof.v) then false
    else if proof.userId == localId then false
    else if proof.userId == [] then false
    else
      var c := Challenge(s, proof.v, pub, proof.userId, generator);
      s.g.add(Mul(s.g, proof.r, generator), Mul(s.g, c, pub)) == proof.v
  }

  // ---- what the check means ----

  // The check equation, for any two points on either side of it.
  lemma CheckEquation(s: Suite, proof: Proof, pub: Point, localId: Bytes, generator: Point)
    requires Valid(s)
    ensures CheckZkp(s, proof, pub, localId, generator) <==>
            && ValidPoint(s, pub) && ValidPoint(s, proof.v)
            && proof.userId != localId && proof.userId != []
            && s.g.add(Mul(s.g, proof.r, generator),
                       Mul(s.g, Challenge(s, proof.v, pub, proof.userId, generator), pub))
               == proof.v
  {
    if ValidPoint(s, pub) {
      FullOrder(s.g, s.g.cofactor, pub);
      SmallMod(s.g.cofactor, s.g.n);
    }
  }

  // r*a + c*b == w (mod n)
  predicate Solves(n: nat, r: int, a: int, c: int, b: int, w: int)
    requires n > 0
  {
    (r * a + c * b) % n == w % n
  }

  // For V = [v]B, A = [x]B and a verifier whose generator is [t]B, the check accepts exactly when
  // V and A are not at infinity, the ids are in order and r*t + c*x == v (mod n).
  lemma CheckExactly(s: Suite, b: Point, t: nat, v: nat, x: nat, proof: Proof, localId: Bytes)
    requires Valid(s) && OnCurve(s.g, b) && b != Infinity && proof.v == Mul(s.g, v, b)
    ensures var generator, pub := Mul(s.g, t, b), Mul(s.g, x, b);
            var c := Challenge(s, proof.v, pub, proof.userId, generator);
            CheckZkp(s, proof, pub, localId, generator) <==>
            && x % s.g.n != 0 && v % s.g.n != 0
            && proof.userId != localId && proof.userId != []
            && Solves(s.g.n, proof.r, t, c, x, v)
  {
    var c := Challenge(s, proof.v, Mul(s.g, x, b), proof.userId, Mul(s.g, t, b));
    Product(proof.r, t);
    Product(c, x);
    CheckScalars(s, b, t, v, x, proof, localId, c, proof.r * t, c * x);
  }

  lemma CheckScalars(
    s: Suite, b: Point, t: nat, v: nat, x: nat, proof: Proof, localId: Bytes, c: nat, rt: nat, cx: nat)
    requires Valid(s) && OnCurve(s.g, b) && b != Infinity
    requires proof.v == Mul(s.g, v, b)
    requires c == Challenge(s, proof.v, Mul(s.g, x, b), proof.userId, Mul(s.g, t, b))
    requires rt == proof.r * t && cx == c * x
    ensures CheckZkp(s, proof, Mul(s.g, x, b), localId, Mul(s.g, t, b)) <==>
            && x % s.g.n != 0 && v % s.g.n != 0
            && proof.userId != localId && proof.userId != []
            && Solves(s.g.n, proof.r, t, c, x, v)
  {
    CheckEquation(s, proof, Mul(s.g, x, b), localId, Mul(s.g, t, b));
    MulOnCurve(s.g, x, b);
    MulOnCurve(s.g, v, b);
    FullOrder(s.g, x, b);
    FullOrder(s.g, v, b);
    CombineScalars(s.g, proof.r, t, c, x, rt, cx, b);
    MulEqual(s.g, rt + cx, v, b);
    SolvesBy(s.g.n, proof.r, t, c, x, v, rt, cx);
  }

  lemma SolvesBy(n: nat, r: int, a: int, c: int, b: int, w: int, ra: int, cb: int)
    requires n > 0 && ra == r * a && cb == c * b
    ensures Solves(n, r, a, c, b, w) <==> (ra + cb) % n == w % n
  {
  }

  lemma CombineScalars(g: Group, r: nat, t: nat, c: nat, x: nat, rt: nat, cx: nat, b: Point)
    requires PrimeOrder(g) && OnCurve(g, b)
    requires rt == r * t && cx == c * x
    ensures g.add(Mul(g, r, Mul(g, t, b)), Mul(g, c, Mul(g, x, b))) == Mul(g, rt + cx, b)
  {
    MulMul(g, r, t, b);
    MulMul(g, c, x, b);
    MulAdd(g, rt, cx, b);
  }

  // For scalars in range and ids in order, only the scalar equation is left.
  lemma CheckInRange(s: Suite, b: Point, t: nat, v: nat, x: nat, proof: Proof, localId: Bytes)
    requires Valid(s) && OnCurve(s.g, b) && b != Infinity && proof.v == Mul(s.g, v, b)
    requires 1 <= x <= s.g.n - 2 && 1 <= v <= s.g.n - 2
    requires proof.userId != localId && proof.userId != []
    ensures var generator, pub := Mul(s.g, t, b), Mul(s.g, x, b);
            var c := Challenge(s, proof.v, pub, proof.userId, generator);
            CheckZkp(s, proof, pub, localId, generator) <==> Solves(s.g.n, proof.r, t, c, x, v)
  {
    CheckExactly(s, b, t, v, x, proof, localId);
    SmallMod(x, s.g.n);
    SmallMod(v, s.g.n);
  }

  // When prover and verifier have the generators [h] and [k] of the base point.
  lemma CheckMultiples(
    s: Suite, h: nat, k: nat, proof: Proof, localId: Bytes, x: nat, v: nat, xh: nat, vh: nat)
    requires Valid(s) && h % s.g.n != 0 && xh == x * h && vh == v * h
    requires 1 <= x <= s.g.n - 2 && 1 <= v <= s.g.n - 2
    requires proof.v == Mul(s.g, v, Mul(s.g, h, s.g.base))
    requires proof.userId != localId && proof.userId != []
    ensures var generator, pub := Mul(s.g, k, s.g.base), Mul(s.g, x, Mul(s.g, h, s.g.base));
            var c := Challenge(s, proof.v, pub, proof.userId, generator);
            CheckZkp(s, proof, pub, localId, generator) <==> Solves(s.g.n, proof.r, k, c, xh, vh)
  {
    MulMul(s.g, x, h, s.g.base);
    MulMul(s.g, v, h, s.g.base);
    NotMultiple(x, h, s.g.n);
    NotMultiple(v, h, s.g.n);
    CheckExactly(s, s.g.base, k, vh, xh, proof, localId);
  }

  // With one generator on both sides: accepted exactly when r == v - x*c (mod n), for the
  // unreduced challenge c.
  lemma AcceptsExactResponse(
    s: Suite, generator: Point, v: nat, x: nat, userId: Bytes, r: nat, localId: Bytes)
    requires Valid(s) && OnCurve(s.g, generator) && generator != Infinity
    requires x % s.g.n != 0 && v % s.g.n != 0
    requires userId != localId && userId != []
    ensures var pub, vPoint := Mul(s.g, x, generator), Mul(s.g, v, generator);
            var c := Challenge(s, vPoint, pub, userId, generator);
            CheckZkp(s, Proof(userId, vPoint, r), pub, localId, generator)
            <==> r % s.g.n == (v - x * c) % s.g.n
  {
    var pub, vPoint := Mul(s.g, x, generator), Mul(s.g, v, generator);
    var c := Challenge(s, vPoint, pub, userId, generator);
    MulOne(s.g, generator);
    Product(c, x);
    CheckScalars(s, generator, 1, v, x, Proof(userId, vPoint, r), localId, c, r, x * c);
    SolvesBy(s.g.n, r, 1, c, x, v, r, x * c);
    MovedOver(r, x * c, v, s.g.n);
  }

  lemma {:induction false} CStringKeeps(id: Bytes)
    ensures CString(id) == id <==> 0 !in id
  {
    if id != [] && id[0] != 0 {
      CStringKeeps(id[1..]);
      assert id == [id[0]] + id[1..];
      assert CString(id)[1..] == CString(id[1..]);
    }
  }

  // The id up to its first NUL.
  lemma {:induction false} CStringIsPrefix(id: Bytes)
    ensures CString(id) <= id && 0 !in CString(id)
    ensures CString(id) == id || id[|CString(id)|] == 0
  {
    if id != [] && id[0] != 0 {
      CStringIsPrefix(id[1..]);
      assert id == [id[0]] + id[1..];
    }
  }

  // A proof made by make_zkp is accepted exactly when its id, cut at the first NUL, is neither
  // empty nor the verifier's, and the cut does not change the challenge modulo n.
  lemma MadeProofAcceptedExactly(
    s: Suite, userId: Bytes, x: nat, generator: Point, v: nat, localId: Bytes)
    requires Valid(s) && OnCurve(s.g, generator) && generator != Infinity
    requires 1 <= x <= s.g.n - 2 && 1 <= v <= s.g.n - 2
    ensures var pub, vPoint := Mul(s.g, x, generator), Mul(s.g, v, generator);
            CheckZkp(s, ProofWith(s, userId, x, pub, generator, v), pub, localId, generator)
            <==>
            && CString(userId) != localId && CString(userId) != []
            && Challenge(s, vPoint, pub, CString(userId), generator) % s.g.n
               == Challenge(s, vPoint, pub, userId, generator) % s.g.n
  {
    var n, cut := s.g.n, CString(userId);
    var pub, vPoint := Mul(s.g, x, generator), Mul(s.g, v, generator);
    var proof := ProofWith(s, userId, x, pub, generator, v);
    var c := Challenge(s, vPoint, pub, userId, generator);
    var c' := Challenge(s, vPoint, pub, cut, generator);
    CheckEquation(s, proof, pub, localId, generator);
    if cut != localId && cut != [] {
      SmallMod(x, n);
      SmallMod(v, n);
      AcceptsExactResponse(s, generator, v, x, cut, proof.r, localId);
      // proof.r == v - x*c (mod n), so acceptance says x*c == x*c' (mod n).
      ModMod(x * c, n);
      CongruentSub(v, v, x * c % n, x * c, n);
      ModMod(v - x * c % n, n);
      if (v - x * c) % n == (v - x * c') % n {
        CongruentSub(v, v, v - x * c, v - x * c', n);
        assert v - (v - x * c) == c * x && v - (v - x * c') == c' * x;
        CancelFactor(c, c', x, n);
      }
      if c % n == c' % n {
        CongruentMul(c, c', x, n);
        CongruentSub(v, v, x * c, x * c', n);
      }
    }
  }

  // So ids without NUL, such as hexadecimal ones, always pass.
  lemma MadeProofAccepted(s: Suite, userId: Bytes, x: nat, generator: Point, v: nat, localId: Bytes)
    requires Valid(s) && OnCurve(s.g, generator) && generator != Infinity
    requires 1 <= x <= s.g.n - 2 && 1 <= v <= s.g.n - 2
    requires 0 !in userId && userId != [] && userId != localId
    ensures var pub := Mul(s.g, x, generator);
            CheckZkp(s, ProofWith(s, userId, x, pub, generator, v), pub, localId, generator)
  {
    CStringKeeps(userId);
    MadeProofAcceptedExactly(s, userId, x, generator, v, localId);
  }

  // ---- soundness ----

  lemma CancelPoint(g: Group, x: Point, y: Point, z: Point)
    requires PrimeOrder(g) && OnCurve(g, x) && OnCurve(g, y) && OnCurve(g, z)
    requires g.add(x, z) == g.add(y, z)
    ensures x == y
  {
    var w := Mul(g, g.n - 1, z);
    MulOnCurve(g, g.n - 1, z);
    assert g.add(z, w) == Mul(g, g.n, z) == Infinity by {
      assert UnitAndOrder(g, z);
    }
    assert Associative(g, x, z, w) && Associative(g, y, z, w);
    assert Closed(g, x, Infinity) && Closed(g, y, Infinity);
    assert UnitAndOrder(g, x) && UnitAndOrder(g, y);
  }

  // The accepted response to one challenge is unique modulo n, for any public key and any V.
  lemma AcceptedResponseUnique(
    s: Suite, generator: Point, pub: Point, proof: Proof, r': nat, localId: Bytes)
    requires Valid(s) && OnCurve(s.g, generator) && generator != Infinity
    requires CheckZkp(s, proof, pub, localId, generator)
    ensures CheckZkp(s, proof.(r := r'), pub, localId, generator) <==> r' % s.g.n == proof.r % s.g.n
  {
    var c := Challenge(s, proof.v, pub, proof.userId, generator);
    MulOnCurve(s.g, proof.r, generator);
    MulOnCurve(s.g, r', generator);
    MulOnCurve(s.g, c, pub);
    MulEqual(s.g, r', proof.r, generator);
    if CheckZkp(s, proof.(r := r'), pub, localId, generator) {
      CancelPoint(s.g, Mul(s.g, r', generator), Mul(s.g, proof.r, generator), Mul(s.g, c, pub));
    }
  }

  // (r1 - r2) / (c2 - c1) modulo n.
  function ExtractKey(n: nat, r1: nat, c1: nat, r2: nat, c2: nat): nat
    requires IsPrime(n) && (c2 - c1) % n != 0
  {
    (r1 - r2) % n * Inverse((c2 - c1) % n, n) % n
  }

  // Sums of four points, regrouped.
  lemma Regroup(g: Group, a: Point, e: Point, c: Point, d: Point, x: Point, y: Point)
    requires PrimeOrder(g) && OnCurve(g, a) && OnCurve(g, e) && OnCurve(g, c) && OnCurve(g, d)
    requires x == g.add(a, e) && y == g.add(c, d) && g.add(x, c) == g.add(a, y)
    ensures e == d
  {
    assert Closed(g, a, e) && Closed(g, a, c) && Closed(g, c, d) && Closed(g, e, c);
    assert Associative(g, a, e, c) && Associative(g, e, c, a);
    assert Closed(g, a, g.add(e, c)) && Closed(g, a, g.add(c, d));
    CancelPoint(g, g.add(e, c), g.add(c, d), a);
    CancelPoint(g, e, d, c);
  }

  // [a]q == [b]q + [(a - b) mod n]q
  lemma MulDifference(g: Group, a: nat, b: nat, d: nat, q: Point)
    requires PrimeOrder(g) && OnCurve(g, q) && d == (a - b) % g.n
    ensures Mul(g, a, q) == g.add(Mul(g, b, q), Mul(g, d, q))
  {
    AddDifference(a, b, g.n);
    SameMultiple(g, a, b + d, q);
    MulAdd(g, b, d, q);
  }

  // Special soundness: two accepted proofs with the same V and the same public key, whose
  // challenges differ modulo n, yield the private key, whatever the public key is.
  lemma TwoProofsRevealKey(
    s: Suite, generator: Point, pub: Point, proof1: Proof, proof2: Proof, local1: Bytes, local2: Bytes)
    requires Valid(s) && OnCurve(s.g, generator) && generator != Infinity
    requires proof1.v == proof2.v
    requires CheckZkp(s, proof1, pub, local1, generator)
    requires CheckZkp(s, proof2, pub, local2, generator)
    requires var c1 := Challenge(s, proof1.v, pub, proof1.userId, generator);
             var c2 := Challenge(s, proof2.v, pub, proof2.userId, generator);
             c1 % s.g.n != c2 % s.g.n
    ensures var c1 := Challenge(s, proof1.v, pub, proof1.userId, generator);
            var c2 := Challenge(s, proof2.v, pub, proof2.userId, generator);
            && (c2 - c1) % s.g.n != 0
            && pub == Mul(s.g, ExtractKey(s.g.n, proof1.r, c1, proof2.r, c2), generator)
  {
    var c1 := Challenge(s, proof1.v, pub, proof1.userId, generator);
    var c2 := Challenge(s, proof2.v, pub, proof2.userId, generator);
    SameSumRevealsKey(s.g, generator, pub, proof1.r, c1, proof2.r, c2);
  }

  lemma SameSumRevealsKey(g: Group, generator: Point, pub: Point, r1: nat, c1: nat, r2: nat, c2: nat)
    requires PrimeOrder(g) && OnCurve(g, generator) && OnCurve(g, pub)
    requires g.add(Mul(g, r1, generator), Mul(g, c1, pub)) == g.add(Mul(g, r2, generator), Mul(g, c2, pub))
    requires c1 % g.n != c2 % g.n
    ensures (c2 - c1) % g.n != 0 && pub == Mul(g, ExtractKey(g.n, r1, c1, r2, c2), generator)
  {
    NotCongruent(c2, c1, g.n);
    var d: nat, e: nat := (c2 - c1) % g.n, (r1 - r2) % g.n;
    MulDifference(g, r1, r2, e, generator);
    MulDifference(g, c2, c1, d, pub);
    MulOnCurve(g, r2, generator);
    MulOnCurve(g, e, generator);
    MulOnCurve(g, c1, pub);
    MulOnCurve(g, d, pub);
    Regroup(g, Mul(g, r2, generator), Mul(g, e, generator), Mul(g, c1, pub), Mul(g, d, pub),
            Mul(g, r1, generator), Mul(g, c2, pub));
    KeyFromDifferences(g, generator, pub, e, d);
  }

  lemma KeyFromDifferences(g: Group, generator: Point, pub: Point, e: nat, d: nat)
    requires PrimeOrder(g) && OnCurve(g, generator) && OnCurve(g, pub)
    requires 0 < d < g.n && Mul(g, e, generator) == Mul(g, d, pub)
    ensures pub == Mul(g, e * Inverse(d, g.n) % g.n, generator)
  {
    var u := Inverse(d, g.n);
    MulMul(g, u, e, generator);
    MulMul(g, u, d, pub);
    assert u * d == d * u && u * e == e * u;
    MulReduced(g, u * d, pub);
    MulReduced(g, u * e, generator);
    MulOne(g, pub);
  }
}
