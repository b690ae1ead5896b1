// The modular arithmetic behind the login: congruence with explicit witnesses, Euclid's lemma
// and inverses modulo a prime.
module Numbers {

  predicate Divides(m: nat, n: nat)
    requires m > 0
  {
    n % m == 0
  }

  ghost predicate IsPrime(n: nat) {
    2 <= n && forall m | 2 <= m < n :: !Divides(m, n)
  }

  lemma MulMono(a: int, b: int, n: int)
    requires a <= b && 0 <= n
    ensures a * n <= b * n
  {
  }

  lemma Product(a: nat, b: nat)
    ensures a * b == b * a && 0 <= a * b
  {
  }

  // Quotient and remainder are unique.
  lemma DivModUnique(a: int, q: int, r: int, n: int)
    requires n > 0 && a == q * n + r && 0 <= r < n
    ensures a / n == q && a % n == r
  {
    var d := a / n - q;
    assert a == (a / n) * n + a % n;
    assert d * n == r - a % n;
    if d >= 1 {
      MulMono(1, d, n);
    } else if d <= -1 {
      MulMono(d, -1, n);
    }
  }

  // a == b (mod n), with the multiple spelled out.
  lemma CongruentBy(a: int, b: int, k: int, n: int)
    requires n > 0 && a - b == k * n
    ensures a % n == b % n
  {
    assert a == (b / n) * n + b % n + k * n;
    assert (b / n) * n + k * n == (b / n + k) * n;
    DivModUnique(a, b / n + k, b % n, n);
  }

  lemma CongruentMultiple(a: int, b: int, n: int) returns (k: int)
    requires n > 0 && a % n == b % n
    ensures a - b == k * n
  {
    k := a / n - b / n;
    assert a == (a / n) * n + a % n;
    assert b == (b / n) * n + b % n;
    assert k * n == (a / n) * n - (b / n) * n;
  }

  // Congruence is kept by adding, subtracting and multiplying.
  lemma CongruentSub(a: int, b: int, c: int, d: int, n: int)
    requires n > 0 && a % n == b % n && c % n == d % n
    ensures (a - c) % n == (b - d) % n
  {
    var k := CongruentMultiple(a, b, n);
    var l := CongruentMultiple(c, d, n);
    assert (k - l) * n == k * n - l * n;
    CongruentBy(a - c, b - d, k - l, n);
  }

  lemma CongruentAdd(a: int, b: int, c: int, d: int, n: int)
    requires n > 0 && a % n == b % n && c % n == d % n
    ensures (a + c) % n == (b + d) % n
  {
    var k := CongruentMultiple(a, b, n);
    var l := CongruentMultiple(c, d, n);
    assert (k + l) * n == k * n + l * n;
    CongruentBy(a + c, b + d, k + l, n);
  }

  // Reducing in between changes nothing.
  lemma SumsModulo(i: int, j: int, k: int, n: int)
    requires n > 0
    ensures ((i + j) % n + k) % n == (i + (j + k) % n) % n
  {
    ModMod(i + j, n);
    ModMod(j + k, n);
    CongruentAdd((i + j) % n, i + j, k, k, n);
    CongruentAdd(i, i, (j + k) % n, j + k, n);
  }

  // Terms move to the other side of a congruence.
  lemma MovedOver(a: int, b: int, c: int, n: int)
    requires n > 0
    ensures (a + b) % n == c % n <==> a % n == (c - b) % n
  {
    if (a + b) % n == c % n {
      CongruentSub(a + b, c, b, b, n);
    }
    if a % n == (c - b) % n {
      CongruentAdd(a, c - b, b, b, n);
    }
  }

  lemma CongruentMul(a: int, b: int, c: int, n: int)
    requires n > 0 && a % n == b % n
    ensures (a * c) % n == (b * c) % n
    ensures (c * a) % n == (c * b) % n
  {
    var k := CongruentMultiple(a, b, n);
    assert a * c - b * c == (k * c) * n by {
      assert a == b + k * n;
      assert (b + k * n) * c == b * c + k * n * c;
      assert k * n * c == (k * c) * n;
    }
    CongruentBy(a * c, b * c, k * c, n);
    assert c * a == a * c && c * b == b * c;
  }

  lemma SmallMod(a: int, n: int)
    requires 0 <= a < n
    ensures a % n == a
  {
    DivModUnique(a, 0, a, n);
  }

  lemma QuotientRemainder(a: nat, n: nat)
    requires n > 0
    ensures a == a / n * n + a % n && 0 <= a % n < n && 0 <= a / n
  {
  }

  lemma ModMod(a: int, n: int)
    requires n > 0
    ensures a % n % n == a % n
  {
    SmallMod(a % n, n);
  }

  // Inverse modulo a prime: if n == q*a + r then a*(-q*u) == 1 whenever r*u == 1 (mod n).
  function Inverse(a: nat, n: nat): (u: nat)
    requires 1 <= a < n && IsPrime(n)
    ensures u < n && (a * u) % n == 1
    decreases a
  {
    if a == 1 then
      SmallMod(1, n);
      1
    else
      var q, r := n / a, n % a;
      NonZeroRemainder(a, n);
      var u := Inverse(r, n);
      InverseStep(a, q, r, u, n);
      (-q * u) % n
  }

  lemma NonZeroRemainder(a: nat, n: nat)
    requires 2 <= a < n && IsPrime(n)
    ensures n == n / a * a + n % a && 1 <= n % a < a
  {
    assert !Divides(a, n);
  }

  lemma InverseStep(a: int, q: int, r: int, u: int, n: int)
    requires a > 0 && n > 1 && n == q * a + r && (r * u) % n == 1
    ensures 0 <= (-q * u) % n < n && (a * ((-q * u) % n)) % n == 1
  {
    assert a * (-q * u) - r * u == -(q * a + r) * u == (-u) * n by {
      assert a * (-q * u) == -(q * a) * u;
      assert -(q * a) * u - r * u == -(q * a + r) * u;
    }
    CongruentBy(a * (-q * u), r * u, -u, n);
    ModMod(-q * u, n);
    CongruentMul((-q * u) % n, -q * u, a, n);
  }

  // Euclid's lemma, in the form the proofs use.
  lemma PrimeProduct(a: int, b: int, n: nat)
    requires IsPrime(n) && (a * b) % n == 0
    ensures a % n == 0 || b % n == 0
  {
    if a % n != 0 {
      var a' := a % n;
      var u := Inverse(a', n);
      ModMod(a, n);
      CongruentMul(a', a, b, n);
      var k := CongruentMultiple(a' * b, 0, n) by { SmallMod(0, n); }
      // b == (a' * u) * b == u * (a' * b) (mod n)
      CongruentMul(a' * u, 1, b, n) by { SmallMod(1, n); }
      assert (a' * u) * b == (k * u) * n by {
        assert (a' * u) * b == (a' * b) * u;
        assert k * n * u == (k * u) * n;
      }
      CongruentBy((a' * u) * b, 0, k * u, n);
      assert 1 * b == b;
    }
  }

  lemma NotMultiple(a: nat, b: nat, n: nat)
    requires IsPrime(n) && 1 <= a < n && b % n != 0
    ensures (a * b) % n != 0
  {
    if (a * b) % n == 0 {
      PrimeProduct(a, b, n);
      SmallMod(a, n);
    }
  }

  // Cancelling a factor that is not a multiple of the prime.
  lemma CancelFactor(a: int, b: int, c: int, n: nat)
    requires IsPrime(n) && c % n != 0 && (a * c) % n == (b * c) % n
    ensures a % n == b % n
  {
    var k := CongruentMultiple(a * c, b * c, n);
    assert (a - b) * c == k * n;
    CongruentBy((a - b) * c, 0, k, n);
    SmallMod(0, n);
    PrimeProduct(a - b, c, n);
    var l := CongruentMultiple(a - b, 0, n);
    CongruentBy(a, b, l, n);
  }

  // Two different square roots of the same residue are negatives of each other.
  lemma OppositeRoots(hi: nat, lo: nat, p: nat)
    requires IsPrime(p) && lo < hi < p && (hi * hi) % p == (lo * lo) % p
    ensures hi + lo == p
  {
    var k := CongruentMultiple(hi * hi, lo * lo, p);
    assert (hi - lo) * (hi + lo) == hi * hi - lo * lo;
    CongruentBy((hi - lo) * (hi + lo), 0, k, p);
    SmallMod(0, p);
    PrimeProduct(hi - lo, hi + lo, p);
    SmallMod(hi - lo, p);
    // p divides hi + lo, which lies strictly between 0 and 2p.
    PositiveBelowTwice(hi + lo, p);
  }

  lemma PositiveBelowTwice(a: int, n: int)
    requires n > 0 && 0 < a < 2 * n && a % n == 0
    ensures a == n
  {
    if a < n {
      SmallMod(a, n);
    } else {
      DivModUnique(a, 1, a - n, n);
    }
  }

  lemma AddDifference(a: int, b: int, n: int)
    requires n > 0
    ensures (b + (a - b) % n) % n == a % n
  {
    ModMod(a - b, n);
    CongruentAdd(b, b, (a - b) % n, a - b, n);
  }

  // An odd prime field has at most one square root of each parity: the other root is p - y.
  lemma RootOfParity(y: nat, z: nat, p: nat)
    requires IsPrime(p) && p > 2 && y < p && z < p
    requires (y * y) % p == (z * z) % p && y % 2 == z % 2
    ensures y == z
  {
    assert !Divides(2, p);
    if y < z {
      OppositeRoots(z, y, p);
    } else if z < y {
      OppositeRoots(y, z, p);
    }
  }

  lemma NotCongruent(a: int, b: int, n: int)
    requires n > 0 && a % n != b % n
    ensures (a - b) % n != 0
  {
    if (a - b) % n == 0 {
      assert a - b == ((a - b) / n) * n + (a - b) % n;
      CongruentBy(a, b, (a - b) / n, n);
    }
  }

  // r = (v - e mod n) mod n solves r + e == v (mod n) ...
  lemma DifferenceSolves(e: int, v: int, n: int)
    requires n > 0
    ensures 0 <= (v - e % n) % n < n
    ensures ((v - e % n) % n + e) % n == v % n
  {
    ModMod(e, n);
    CongruentSub(v, v, e % n, e, n);
    ModMod(v - e % n, n);
    MovedOver((v - e % n) % n, e, v, n);
  }

  // ... and no other number below n does.
  lemma SameResidue(r: nat, r': nat, e: int, n: nat)
    requires r < n && r' < n && (r + e) % n == (r' + e) % n
    ensures r == r'
  {
    CongruentSub(r + e, r' + e, e, e, n);
    SmallMod(r, n);
    SmallMod(r', n);
  }
}
