/**
 Exactly when decryption undoes encryption: the primes that are drawn must differ and give a key, and the random
 r, which is drawn without a check, must be a unit.
 */
module PaillierExactness {
  import opened NumberTheory
  import opened PaillierScheme

  /** Every plaintext encrypted with r comes back modulo n. */
  ghost predicate AllReturn(p: nat, q: nat, r: nat)
    requires p > 1 && q > 1
  {
    MulMono(2, p, q);
    var n := p * q; var l := Lambda(p, q);
    forall m: nat :: Decrypted(n, l, Mu(n, l), Encrypted(n, n + 1, m, r)) == m % n
  }

  // ----- r that is no unit

  /** A number with the factor p has p^2 in its powers from the second on. */
  lemma SquareFactor(p: nat, r: nat, e: nat) returns (w: int)
    requires p > 0 && Divides(p, r) && e >= 2
    ensures Pow(r, e) == p * p * w
  {
    var u := Quotient(p, r);
    PowProduct(p, u, e);
    assert Pow(p, e) == p * (p * Pow(p, e - 2));
    w := Pow(p, e - 2) * Pow(u, e);
    Gather(p, Pow(p, e - 2), Pow(u, e));
  }

  lemma Gather(p: int, a: int, b: int)
    ensures p * (p * a) * b == p * p * (a * b)
  {
    Associate(p, p, a);
    Associate(p * p, a, b);
  }

  /** p^2 times a multiple of qn is a multiple of n^2. */
  lemma SquareTimes(p: nat, q: nat, j: int, w: int)
    ensures var n := p * q; var s := p * p * w;
      (1 + q * n + j * (n * n)) * s == s + (p * w + j * s) * (n * n)
  {
    var n := p * q;
    var s := p * p * w;
    assert q * n * s == p * w * (n * n) by {
      Shuffle(p, q, w);
    }
    Associate(j, n * n, s);
    Distribute(1, q * n, s);
    Distribute(1 + q * n, j * (n * n), s);
    Distribute(p * w, j * s, n * n);
    assert j * (n * n) * s == j * s * (n * n) by {
      Swap(j, n * n, s);
    }
  }

  lemma Swap(a: int, b: int, c: int)
    ensures a * b * c == a * c * b
  {
    Associate(a, b, c);
    Associate(a, c, b);
    Associate(b, c, 1);
  }

  lemma Shuffle(p: int, q: int, w: int)
    ensures q * (p * q) * (p * p * w) == p * w * ((p * q) * (p * q))
  {
    var n := p * q;
    Swap(q, n, p * p * w);
    Associate(q, p * p, w);
    assert q * (p * p * w) == p * n * w by {
      Associate(q, p, p);
      Associate(p, q, p);
      assert q * (p * p) == p * n;
      Associate(q, p * p, w);
    }
    Swap(p, n, w);
    Associate(p * w, n, n);
  }

  /** If p divides r, the plaintexts 0 and q have the same encryption. */
  lemma Collides(p: nat, q: nat, r: nat)
    requires p > 1 && q > 1 && Divides(p, r)
    ensures p * q > 1 && Encrypted(p * q, p * q + 1, q, r) == Encrypted(p * q, p * q + 1, 0, r)
  {
    MulMono(2, p, q);
    var n := p * q;
    MulMono(1, n, n);
    var w := SquareFactor(p, r, n);
    Binomial(1, n, q);
    var j := CongWitness(Pow(1 + 1 * n, q), 1 + q * 1 * n, n * n);
    var x, s := Pow(n + 1, q), Pow(r, n);
    assert x == 1 + q * n + j * (n * n);
    SquareTimes(p, q, j, w);
    CongIntro(x * s, 1 * s, p * w + j * s, n * n);
    SameProducts(n, q, r);
  }

  lemma SameProducts(n: nat, m: nat, r: nat)
    requires n > 1 && n * n > 0 && Cong(Pow(n + 1, m) * Pow(r, n), 1 * Pow(r, n), n * n)
    ensures Encrypted(n, n + 1, m, r) == Encrypted(n, n + 1, 0, r)
  {
    hide Cong;
    var k := n * n;
    var x, s := Pow(n + 1, m), Pow(r, n);
    assert Pow(n + 1, 0) == 1;
    CongMod(x, k);
    CongMod(s, k);
    CongMod(1, k);
    CongMul(x % k, x, s % k, s, k);
    CongMul(1 % k, 1, s % k, s, k);
    CongTrans(x % k * (s % k), x * s, 1 * s, k);
    CongSame(x % k * (s % k), 1 * s, k);
    CongSame(1 % k * (s % k), 1 * s, k);
  }

  /** With a key, all plaintexts come back exactly when r is a unit. */
  lemma UnitsReturn(p: nat, q: nat, r: nat)
    requires IsPrime(p) && IsPrime(q) && p != q && GivesKey(p, q)
    ensures AllReturn(p, q, r) <==> Unit(r, p * q)
  {
    var n := p * q;
    UnitIff(p, q, r);
    if Unit(r, n) {
      forall m: nat
        ensures Decrypted(n, Lambda(p, q), Mu(n, Lambda(p, q)), Encrypted(n, n + 1, m, r)) == m % n
      {
        RoundTrip(p, q, m, r);
      }
    } else if Divides(p, r) {
      NotAll(p, q, r);
    } else {
      NotAll(q, p, r);
      Symmetric(p, q, r);
    }
  }

  lemma NotAll(p: nat, q: nat, r: nat)
    requires p > 1 && q > 1 && Divides(p, r)
    ensures !AllReturn(p, q, r)
  {
    hide Decrypted, Encrypted, Lambda, Mu;
    Collides(p, q, r);
    MulMono(2, p, q);
    var n, l := p * q, Lambda(p, q);
    DivisionUnique(q, n, 0, q);
    DivisionUnique(0, n, 0, 0);
  }

  /** The order of the primes does not matter. */
  lemma Symmetric(p: nat, q: nat, r: nat)
    requires IsPrime(p) && IsPrime(q)
    ensures AllReturn(p, q, r) <==> AllReturn(q, p, r)
  {
    GcdSymmetric(p - 1, q - 1);
    assert p * q == q * p && (p - 1) * (q - 1) == (q - 1) * (p - 1);
  }

  lemma GcdSymmetric(a: nat, b: nat)
    requires a > 0 && b > 0
    ensures Gcd(a, b) == Gcd(b, a)
  {
    GcdGreatest(a, b, Gcd(b, a));
    GcdGreatest(b, a, Gcd(a, b));
    DividesBound(Gcd(a, b), Gcd(b, a));
    DividesBound(Gcd(b, a), Gcd(a, b));
  }

  // ----- the same prime twice

  function Triangle(e: nat): nat {
    if e == 0 then 0 else Triangle(e - 1) + e - 1
  }

  lemma {:induction false} TriangleIs(e: nat)
    ensures 2 * Triangle(e) == e * (e - 1)
  {
    if e > 0 {
      TriangleIs(e - 1);
    }
  }

  /** (1 + p)^e up to the third order. */
  lemma {:induction false} SecondOrder(p: nat, e: nat)
    requires p > 0
    ensures p * p * p > 0 && Cong(Pow(1 + p, e), 1 + e * p + Triangle(e) * (p * p), p * p * p)
  {
    MulMono(1, p, p);
    MulMono(1, p * p, p);
    if e == 0 {
      CongIntro(1, 1, 0, p * p * p);
    } else {
      SecondOrder(p, e - 1);
      var t := Triangle(e - 1);
      var j := CongWitness(Pow(1 + p, e - 1), 1 + (e - 1) * p + t * (p * p), p * p * p);
      ThirdOrder(p, e - 1, t, j);
      CongIntro(Pow(1 + p, e), 1 + e * p + Triangle(e) * (p * p), t + j * (1 + p), p * p * p);
    }
  }

  lemma ThirdOrder(p: int, e: int, t: int, j: int)
    ensures (1 + p) * (1 + e * p + t * (p * p) + j * (p * p * p))
         == 1 + (e + 1) * p + (t + e) * (p * p) + (t + j * (1 + p)) * (p * p * p)
  {
    var s, c := p * p, p * p * p;
    Expanded(p, e * p, t * s, j * c);
    Associate(p, e, p);
    Associate(p, t, s);
    Associate(t, p, s);
    Associate(p, j, c);
    Distribute(e, 1, p);
    Distribute(t, e, s);
    Distribute(j, j * p, c);
    Distribute(t, j * (1 + p), c);
    assert p * (t * s) == t * c && p * (j * c) == j * p * c && p * (e * p) == e * s by {
      Associate(e, p, p);
      Associate(s, p, 1);
    }
    assert j * (1 + p) == j + j * p;
  }

  lemma Expanded(p: int, x: int, y: int, z: int)
    ensures (1 + p) * (1 + x + y + z) == 1 + x + y + z + p + p * x + p * y + p * z
  {}

  /** (1 + p)^p = 1 + p^2 modulo p^3, for odd p. */
  lemma PowerOfP(p: nat) returns (s: int)
    requires p % 2 == 1
    ensures Pow(1 + p, p) == 1 + (1 + s * p) * (p * p)
  {
    SecondOrder(p, p);
    var h := (p - 1) / 2;
    HalfTriangle(p, h);
    var c := p * p * p;
    var j := CongWitness(Pow(1 + p, p), 1 + p * p + Triangle(p) * (p * p), c);
    s := h + j;
    Cube(h, p);
    Cube(s, p);
    Distribute(h, j, c);
    Distribute(1, s * p, p * p);
  }

  lemma HalfTriangle(p: nat, h: nat)
    requires p == 2 * h + 1
    ensures Triangle(p) == h * p
  {
    TriangleIs(p);
    assert p * (p - 1) == 2 * (h * p);
  }

  lemma Cube(h: int, p: int)
    ensures h * p * (p * p) == h * (p * p * p)
  {
    Associate(h, p, p * p);
    Associate(p, p, p);
  }

  /** The n-th power of 1 + p, n = p^2, is not invisible to decryption. */
  lemma VisiblePower(p: nat)
    requires IsPrime(p) && p % 2 == 1
    ensures var n := p * p; var l := p - 1;
      n > 1 && n * n > 0 && Pow(p + 1, n) >= 0 && Residue(n, l, Pow(p + 1, n) % (n * n)) == l * p
  {
    MulMono(2, p, p);
    var n, l := p * p, p - 1;
    MulMono(1, n, n);
    var s := PowerOfP(p);
    var k := 1 + s * p;
    MulMono(0, p, l);
    Binomial(k, n, p * l);
    PowSign(p + 1, n);
    PowMul(1 + p, p, p * l);
    PowMul(1 + p, n, l);
    Associate(p, p, l);
    PowOfMod(Pow(p + 1, n), l, n * n);
    var c := Pow(p + 1, n) % (n * n);
    assert p * l * k * n == l * p * n + l * s * (n * n) by {
      Higher(p, l, s);
    }
    CongIntro(1 + p * l * k * n, 1 + l * p * n, l * s, n * n);
    CongTrans(Pow(c, l), Pow(Pow(p + 1, n), l), 1 + p * l * k * n, n * n);
    CongTrans(Pow(c, l), 1 + p * l * k * n, 1 + l * p * n, n * n);
    ResidueIs(n, l, c, l * p);
    MulMono(l, p, p);
    assert l * p < n;
    DivisionUnique(l * p, n, 0, l * p);
  }

  lemma Higher(p: int, l: int, s: int)
    ensures var n := p * p;
      p * l * (1 + s * p) * n == l * p * n + l * s * (n * n)
  {
    var n := p * p;
    assert p * l * (1 + s * p) == l * p + l * s * n by {
      assert p * l * (s * p) == l * s * n by {
        Regroup(p, l, s, p);
        Swap(s, p, l * p);
        assert (s * p) * (l * p) == (l * s) * n by {
          Regroup(s, p, l, p);
        }
      }
      assert p * l * (1 + s * p) == p * l + p * l * (s * p);
    }
    Distribute(l * p, l * s * n, n);
    Associate(l * s, n, n);
  }

  lemma LambdaSame(p: nat)
    requires p > 1
    ensures Lambda(p, p) == p - 1
  {
    MultipleMod(1, p - 1);
    GcdGreatest(p - 1, p - 1, p - 1);
    DividesBound(p - 1, Gcd(p - 1, p - 1));
    DividesBound(Gcd(p - 1, p - 1), p - 1);
    DivisionUnique((p - 1) * (p - 1), p - 1, p - 1, 0);
  }

  /** An odd prime drawn twice does give a mu, but with r = p + 1 zero decrypts to p. */
  lemma SamePrime(p: nat)
    requires IsPrime(p) && p % 2 == 1
    ensures p * p > p + 1 && Unit(p + 1, p * p) && !AllReturn(p, p, p + 1)
  {
    MulMono(3, p, p);
    var n, l := p * p, p - 1;
    MulMono(1, n, n);
    LambdaSame(p);
    assert !Divides(p, p + 1) by {
      DivisionUnique(p + 1, p, 1, 1);
    }
    UnitIff(p, p, p + 1);
    assert !Divides(p, l) by {
      if Divides(p, l) {
        DividesBound(p, l);
      }
    }
    UnitIff(p, p, l);
    VisiblePower(p);
    ZeroEncrypted(n, p + 1);
    var c := Pow(p + 1, n) % (n * n);
    var mu := Mu(n, l);
    ResidueOfG(n, l);
    DivisionUnique(l, n, 0, l);
    InverseTimes(p, l, mu);
    assert Decrypted(n, l, mu, Encrypted(n, n + 1, 0, p + 1)) == p;
    DivisionUnique(0, n, 0, 0);
  }

  lemma ZeroEncrypted(n: nat, r: nat)
    requires n > 1
    ensures n * n > 0 && Pow(r, n) >= 0 && Encrypted(n, n + 1, 0, r) == Pow(r, n) % (n * n)
  {
    MulMono(2, n, n);
    PowSign(r, n);
    var x := Pow(r, n) % (n * n);
    assert Pow(n + 1, 0) == 1;
    DivisionUnique(1, n * n, 0, 1);
    DivisionUnique(x, n * n, 0, x);
  }

  lemma InverseTimes(p: nat, l: nat, mu: nat)
    requires p > 1 && (l * mu) % (p * p) == 1
    ensures (l * p * mu) % (p * p) == p
  {
    MulMono(2, p, p);
    var n := p * p;
    var k := l * mu / n;
    assert l * mu == n * k + 1;
    Swap(l, p, mu);
    assert l * p * mu == (k * p) * n + p by {
      Distribute(n * k, 1, p);
      Swap(n, k, p);
      Associate(n, p, k);
      Swap(k, p, n);
    }
    DivisionUnique(l * p * mu, n, k * p, p);
  }

  // ----- both conditions together

  /**
   The candidates are odd. Every plaintext comes back with every unit r below n exactly when the two primes drawn
   are different and neither divides the other minus one.
   */
  lemma PrimesReturn(p: nat, q: nat)
    requires IsPrime(p) && IsPrime(q) && p % 2 == 1 && q % 2 == 1
    ensures (forall r: nat :: r < p * q && Unit(r, p * q) ==> AllReturn(p, q, r)) <==> p != q && GivesKey(p, q)
  {
    hide AllReturn;
    if p == q {
      SamePrime(p);
    } else if GivesKey(p, q) {
      forall r: nat | Unit(r, p * q) ensures AllReturn(p, q, r) {
        UnitsReturn(p, q, r);
      }
    } else {
      UnitOne(p * q);
      NoneReturn(p, q, 1);
    }
  }

  /** Without a key, 1 does not come back. */
  lemma NoneReturn(p: nat, q: nat, r: nat)
    requires IsPrime(p) && IsPrime(q) && p != q && !GivesKey(p, q) && Unit(r, p * q)
    ensures p * q > 1 && !AllReturn(p, q, r)
  {
    RoundTrip(p, q, 1, r);
    DivisionUnique(1, p * q, 0, 1);
  }

  /** Two primes p and 2p + 1 give no key. */
  lemma SafePrimes(p: nat)
    requires IsPrime(p) && IsPrime(2 * p + 1)
    ensures !GivesKey(p, 2 * p + 1)
  {
    MultipleMod(2, p);
  }
}
