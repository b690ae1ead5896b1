// The curve group as OpenSSL presents it: points and their octet forms (sections 2.3.3 and 2.3.4
// of SEC 1) are modelled concretely, point addition is a parameter with the group laws as
// hypotheses.
module Curve {
  import opened Bytes
  import opened Numbers

  datatype Point = Infinity | Affine(x: nat, y: nat)

  // y^2 = x^3 + a*x + b over the integers modulo p; base generates points of order n.
  datatype Group = Group(
    p: nat, a: nat, b: nat, fieldLen: nat,
    n: nat, cofactor: nat, base: Point,
    add: (Point, Point) -> Point)

  predicate OnCurve(g: Group, q: Point)
    requires g.p > 0
  {
    match q
    case Infinity => true
    case Affine(x, y) =>
      x < g.p && y < g.p && (y * y) % g.p == (x * x * x + g.a * x + g.b) % g.p
  }

  // EC_POINT_mul with one point: [k]q.
  function Mul(g: Group, k: nat, q: Point): Point {
    if k == 0 then Infinity else g.add(q, Mul(g, k - 1, q))
  }

  // The hypotheses. Each law is a predicate of its own so that a proof names its instances.
  ghost predicate Associative(g: Group, x: Point, y: Point, z: Point)
    requires g.p > 0
  {
    OnCurve(g, x) && OnCurve(g, y) && OnCurve(g, z)
    ==> g.add(g.add(x, y), z) == g.add(x, g.add(y, z))
  }

  ghost predicate Closed(g: Group, x: Point, y: Point)
    requires g.p > 0
  {
    OnCurve(g, x) && OnCurve(g, y) ==> OnCurve(g, g.add(x, y)) && g.add(x, y) == g.add(y, x)
  }

  ghost predicate UnitAndOrder(g: Group, x: Point)
    requires g.p > 0
  {
    OnCurve(g, x) ==> g.add(Infinity, x) == x && Mul(g, g.n, x) == Infinity
  }

  ghost predicate Field(g: Group) {
    IsPrime(g.p) && g.p > 2 && g.p < Pow256(g.fieldLen)
  }

  ghost predicate PrimeOrder(g: Group) {
    && Field(g)
    && IsPrime(g.n) && g.n >= 3 && 0 < g.cofactor < g.n
    && OnCurve(g, g.base) && g.base != Infinity
    && (forall x, y, z :: Associative(g, x, y, z))
    && (forall x, y :: Closed(g, x, y))
    && (forall x :: UnitAndOrder(g, x))
  }

  // ---- scalar multiplication ----

  lemma {:induction false} MulOnCurve(g: Group, k: nat, q: Point)
    requires PrimeOrder(g) && OnCurve(g, q)
    ensures OnCurve(g, Mul(g, k, q))
  {
    if k != 0 {
      MulOnCurve(g, k - 1, q);
      assert Closed(g, q, Mul(g, k - 1, q));
    }
  }

  lemma MulOne(g: Group, q: Point)
    requires PrimeOrder(g) && OnCurve(g, q)
    ensures Mul(g, 1, q) == q
  {
    assert UnitAndOrder(g, q) && Closed(g, q, Infinity);
    assert Mul(g, 1, q) == g.add(q, Mul(g, 0, q));
  }

  lemma {:induction false} MulAdd(g: Group, j: nat, k: nat, q: Point)
    requires PrimeOrder(g) && OnCurve(g, q)
    ensures Mul(g, j + k, q) == g.add(Mul(g, j, q), Mul(g, k, q))
  {
    MulOnCurve(g, k, q);
    if j == 0 {
      assert UnitAndOrder(g, Mul(g, k, q));
    } else {
      MulAdd(g, j - 1, k, q);
      MulOnCurve(g, j - 1, q);
      assert Associative(g, q, Mul(g, j - 1, q), Mul(g, k, q));
    }
  }

  lemma {:induction false} MulInfinity(g: Group, k: nat)
    requires PrimeOrder(g)
    ensures Mul(g, k, Infinity) == Infinity
  {
    if k != 0 {
      MulInfinity(g, k - 1);
      assert UnitAndOrder(g, Infinity);
    }
  }

  // [j*k]q == [j]([k]q)
  lemma {:induction false} MulMul(g: Group, j: nat, k: nat, q: Point)
    requires PrimeOrder(g) && OnCurve(g, q)
    ensures Mul(g, j * k, q) == Mul(g, j, Mul(g, k, q))
  {
    if j != 0 {
      assert j * k == k + (j - 1) * k;
      MulMul(g, j - 1, k, q);
      MulAdd(g, k, (j - 1) * k, q);
    } else {
      assert j * k == 0;
    }
  }

  // Reducing the scalar modulo the order changes nothing: the prover reduces, the verifier not.
  lemma MulReduced(g: Group, k: nat, q: Point)
    requires PrimeOrder(g) && OnCurve(g, q)
    ensures Mul(g, k, q) == Mul(g, k % g.n, q)
  {
    QuotientRemainder(k, g.n);
    assert UnitAndOrder(g, q);
    DropMultiple(g, g.n, k / g.n, k / g.n * g.n, k % g.n, q);
  }

  // Multiples of an order can be dropped.
  lemma DropMultiple(g: Group, j: nat, m: nat, mj: nat, r: nat, q: Point)
    requires PrimeOrder(g) && OnCurve(g, q) && Mul(g, j, q) == Infinity && mj == m * j
    ensures Mul(g, mj + r, q) == Mul(g, r, q)
  {
    MulMul(g, m, j, q);
    MulInfinity(g, m);
    MulAdd(g, mj, r, q);
    MulOnCurve(g, r, q);
    assert UnitAndOrder(g, Mul(g, r, q));
  }

  lemma SameMultiple(g: Group, j: nat, k: nat, q: Point)
    requires PrimeOrder(g) && OnCurve(g, q) && j % g.n == k % g.n
    ensures Mul(g, j, q) == Mul(g, k, q)
  {
    MulReduced(g, j, q);
    MulReduced(g, k, q);
  }

  // A point killed by some 0 < j < n is the identity: replace j by n % j until it is 1.
  lemma {:induction false} SmallOrder(g: Group, j: nat, q: Point)
    requires PrimeOrder(g) && OnCurve(g, q)
    requires 0 < j < g.n && Mul(g, j, q) == Infinity
    ensures q == Infinity
  {
    if j == 1 {
      MulOne(g, q);
    } else {
      NonZeroRemainder(j, g.n);
      DropMultiple(g, j, g.n / j, g.n / j * j, g.n % j, q);
      assert UnitAndOrder(g, q);
      SmallOrder(g, g.n % j, q);
    }
  }

  // Every point other than the identity has full order n.
  lemma FullOrder(g: Group, k: nat, q: Point)
    requires PrimeOrder(g) && OnCurve(g, q) && q != Infinity
    ensures Mul(g, k, q) == Infinity <==> k % g.n == 0
  {
    MulReduced(g, k, q);
    if k % g.n != 0 && Mul(g, k, q) == Infinity {
      SmallOrder(g, k % g.n, q);
    }
  }

  // Multiples of a point agree exactly when the scalars agree modulo n.
  lemma MulEqual(g: Group, j: nat, k: nat, q: Point)
    requires PrimeOrder(g) && OnCurve(g, q) && q != Infinity
    ensures Mul(g, j, q) == Mul(g, k, q) <==> j % g.n == k % g.n
  {
    MulReduced(g, j, q);
    MulReduced(g, k, q);
    if Mul(g, j, q) == Mul(g, k, q) {
      // Add [n - k % n]q to both sides.
      var c := g.n - k % g.n;
      MulAdd(g, c, k % g.n, q);
      MulAdd(g, c, j % g.n, q);
      assert UnitAndOrder(g, q);
      FullOrder(g, c + j % g.n, q);
      PositiveBelowTwice(c + j % g.n, g.n);
    }
  }

  // ---- octet forms of points ----

  function EncodeUncompressed(g: Group, q: Point): (r: Bytes)
    ensures |r| == if q.Infinity? then 1 else 1 + 2 * g.fieldLen
  {
    match q
    case Infinity => [0]
    case Affine(x, y) => [4] + ToFixed(x, g.fieldLen) + ToFixed(y, g.fieldLen)
  }

  function EncodeCompressed(g: Group, q: Point): (r: Bytes)
    ensures |r| == if q.Infinity? then 1 else 1 + g.fieldLen
  {
    match q
    case Infinity => [0]
    case Affine(x, y) => [2 + y % 2] + ToFixed(x, g.fieldLen)
  }

  // What the octets of the two forms are: a first octet that tells the form, in the compressed one
  // with the parity of y, and the coordinates as big-endian numbers.
  lemma OctetForms(g: Group, q: Point)
    requires Field(g) && OnCurve(g, q) && q.Affine?
    ensures var u, len := EncodeUncompressed(g, q), g.fieldLen;
            && |u| == 1 + 2 * len && u[0] == 4
            && FromBytes(u[1..1 + len]) == q.x && FromBytes(u[1 + len..]) == q.y
    ensures var c := EncodeCompressed(g, q);
            && |c| == 1 + g.fieldLen && c[0] == (if q.y % 2 == 0 then 2 else 3) && FromBytes(c[1..]) == q.x
  {
    var xs, ys := ToFixed(q.x, g.fieldLen), ToFixed(q.y, g.fieldLen);
    FromToFixed(q.x, g.fieldLen);
    FromToFixed(q.y, g.fieldLen);
    PartsOf(4, xs, ys, EncodeUncompressed(g, q));
    assert EncodeCompressed(g, q)[1..] == xs;
  }

  // The third form EC_POINT_oct2point reads: both coordinates and the parity.
  function EncodeHybrid(g: Group, q: Point): Bytes {
    match q
    case Infinity => [0]
    case Affine(x, y) => [6 + y % 2] + ToFixed(x, g.fieldLen) + ToFixed(y, g.fieldLen)
  }

  // EC_POINT_set_compressed_coordinates: a square root of the right parity, if there is one. How
  // OpenSSL finds it does not matter; here every candidate from y upwards is tried.
  function Decompress(g: Group, x: nat, parity: nat, y: nat): (r: Option<Point>)
    requires g.p > 0
    ensures r.Some? ==> exists z: nat ::
              r.value == Affine(x, z) && OnCurve(g, Affine(x, z)) && z % 2 == parity
    ensures r.None? ==> forall z: nat | y <= z && OnCurve(g, Affine(x, z)) :: z % 2 != parity
    decreases g.p - y
  {
    if y >= g.p then None
    else if OnCurve(g, Affine(x, y)) && y % 2 == parity then Some(Affine(x, y))
    else Decompress(g, x, parity, y + 1)
  }

  // EC_POINT_oct2point: None where OpenSSL reports an error.
  function Decode(g: Group, b: Bytes): Option<Point>
    requires g.p > 0
  {
    var len := g.fieldLen;
    if b == [] then
      None
    else if b[0] == 0 then
      if |b| == 1 then Some(Infinity) else None
    else if b[0] == 2 || b[0] == 3 then
      if |b| != 1 + len then None else Decompress(g, FromBytes(b[1..]), b[0] % 2, 0)
    else if b[0] == 4 || b[0] == 6 || b[0] == 7 then
      if |b| != 1 + 2 * len then None
      else
        var q := Affine(FromBytes(b[1..1 + len]), FromBytes(b[1 + len..]));
        if b[0] != 4 && q.y % 2 != b[0] % 2 then None
        else if OnCurve(g, q) then Some(q)
        else None
    else
      None
  }

  // At most one root has a given parity: the other one is p - y, and p is odd.
  lemma UniqueRoot(g: Group, x: nat, y: nat, z: nat)
    requires Field(g)
    requires OnCurve(g, Affine(x, y)) && OnCurve(g, Affine(x, z)) && y % 2 == z % 2
    ensures y == z
  {
    RootOfParity(y, z, g.p);
  }

  // Decoding accepts exactly the octet strings that are one of the three forms of a point of the
  // curve, and yields that point.
  lemma DecodeExactly(g: Group, b: Bytes, q: Point)
    requires Field(g)
    ensures Decode(g, b) == Some(q) <==>
            OnCurve(g, q)
            && b in {EncodeUncompressed(g, q), EncodeCompressed(g, q), EncodeHybrid(g, q)}
  {
    if Decode(g, b) == Some(q) {
      DecodeForm(g, b, q);
    }
    if OnCurve(g, q) {
      DecodeEncoded(g, q);
    }
  }

  lemma DecodeForm(g: Group, b: Bytes, q: Point)
    requires Field(g) && Decode(g, b) == Some(q)
    ensures OnCurve(g, q)
    ensures b in {EncodeUncompressed(g, q), EncodeCompressed(g, q), EncodeHybrid(g, q)}
  {
    if b[0] == 2 || b[0] == 3 {
      ToFixedFrom(b[1..]);
      assert b == [b[0]] + b[1..];
    } else if b[0] != 0 {
      DecodeFullForm(g, b, q);
    } else {
      assert b == [0];
    }
  }

  lemma DecodeFullForm(g: Group, b: Bytes, q: Point)
    requires Field(g) && Decode(g, b) == Some(q) && b[0] in {4, 6, 7}
    ensures OnCurve(g, q)
    ensures b == if b[0] == 4 then EncodeUncompressed(g, q) else EncodeHybrid(g, q)
  {
    TwoCoordinates(b, g.fieldLen);
    assert b[0] != 4 ==> b[0] == 6 + q.y % 2;
  }

  lemma TwoCoordinates(b: Bytes, len: nat)
    requires |b| == 1 + 2 * len
    ensures b == [b[0]] + ToFixed(FromBytes(b[1..1 + len]), len) + ToFixed(FromBytes(b[1 + len..]), len)
  {
    ToFixedFrom(b[1..1 + len]);
    ToFixedFrom(b[1 + len..]);
    ThreeParts(b, len);
  }

  lemma ThreeParts(b: Bytes, len: nat)
    requires |b| >= 1 + len
    ensures [b[0]] + b[1..1 + len] + b[1 + len..] == b
  {
  }

  lemma PartsOf(head: Byte, xs: Bytes, ys: Bytes, b: Bytes)
    requires b == [head] + xs + ys
    ensures b[0] == head && b[1..1 + |xs|] == xs && b[1 + |xs|..] == ys
  {
  }

  // Both wire forms, and the hybrid one, decode to the point they were made from.
  lemma DecodeEncoded(g: Group, q: Point)
    requires Field(g) && OnCurve(g, q)
    ensures Decode(g, EncodeUncompressed(g, q)) == Some(q)
    ensures Decode(g, EncodeCompressed(g, q)) == Some(q)
    ensures Decode(g, EncodeHybrid(g, q)) == Some(q)
  {
    DecodeUncompressed(g, q);
    DecodeCompressed(g, q);
    DecodeHybrid(g, q);
  }

  lemma DecodeUncompressed(g: Group, q: Point)
    requires Field(g) && OnCurve(g, q)
    ensures Decode(g, EncodeUncompressed(g, q)) == Some(q)
  {
    if q.Affine? {
      DecodeFull(g, q, 4);
    }
  }

  lemma DecodeHybrid(g: Group, q: Point)
    requires Field(g) && OnCurve(g, q)
    ensures Decode(g, EncodeHybrid(g, q)) == Some(q)
  {
    if q.Affine? {
      ParityKept(q.y);
      DecodeFull(g, q, 6 + q.y % 2);
    }
  }

  lemma ParityKept(y: nat)
    ensures (2 + y % 2) % 2 == (6 + y % 2) % 2 == y % 2
  {
  }

  lemma DecodeFull(g: Group, q: Point, head: Byte)
    requires Field(g) && OnCurve(g, q) && q.Affine?
    requires head == 4 || (head in {6, 7} && head % 2 == q.y % 2)
    ensures Decode(g, [head] + ToFixed(q.x, g.fieldLen) + ToFixed(q.y, g.fieldLen)) == Some(q)
  {
    var xs, ys := ToFixed(q.x, g.fieldLen), ToFixed(q.y, g.fieldLen);
    FromToFixed(q.x, g.fieldLen);
    FromToFixed(q.y, g.fieldLen);
    PartsOf(head, xs, ys, [head] + xs + ys);
  }

  lemma DecodeCompressed(g: Group, q: Point)
    requires Field(g) && OnCurve(g, q)
    ensures Decode(g, EncodeCompressed(g, q)) == Some(q)
  {
    if q.Affine? {
      var c := EncodeCompressed(g, q);
      FromToFixed(q.x, g.fieldLen);
      assert c[1..] == ToFixed(q.x, g.fieldLen);
      ParityKept(q.y);
      assert OnCurve(g, Affine(q.x, q.y)) && q.y % 2 == c[0] % 2;
      var root := Decompress(g, q.x, c[0] % 2, 0).value;
      UniqueRoot(g, q.x, q.y, root.y);
    }
  }

  // The uncompressed form delimits itself, so it can be followed by anything.
  lemma SelfDelimiting(g: Group, q: Point, r: Point, s: Bytes, t: Bytes)
    requires Field(g) && OnCurve(g, q) && OnCurve(g, r)
    requires EncodeUncompressed(g, q) + s == EncodeUncompressed(g, r) + t
    ensures q == r && s == t
  {
    var u, v := EncodeUncompressed(g, q), EncodeUncompressed(g, r);
    assert (u + s)[0] == u[0] && (v + t)[0] == v[0];
    assert |u| == |v|;
    assert u == (u + s)[..|u|] && v == (v + t)[..|v|];
    assert s == (u + s)[|u|..] && t == (v + t)[|v|..];
    DecodeEncoded(g, q);
    DecodeEncoded(g, r);
  }
}
