/**
 The Paillier cryptosystem on integers: key derivation from two primes, encryption, decryption and the
 homomorphic operations, with g = n + 1.
 */
module PaillierScheme {
  import opened NumberTheory
  import opened Wrappers
  import opened BinaryWords

  predicate Unit(c: nat, n: nat) {
    Gcd(c, n) == 1
  }

  /** lcm(p - 1, q - 1), computed as the code does. */
  function Lambda(p: nat, q: nat): (r: nat)
    requires p > 1 && q > 1
  {
    var g := Gcd(p - 1, q - 1);
    MulMono(0, p - 1, q - 1);
    (p - 1) * (q - 1) / g
  }

  /** L(x) = (x - 1) / n; the quotient of -1 truncates to 0. */
  function LOf(x: nat, n: nat): nat
    requires n > 0
  {
    if x == 0 then 0 else (x - 1) / n
  }

  function Residue(n: nat, lambda: nat, c: nat): nat
    requires n > 0
  {
    MulMono(1, n, n);
    LOf(Pow(c, lambda) % (n * n), n)
  }

  /** The inverse of L(g^lambda mod n^2); left at 0 when there is none. */
  function Mu(n: nat, lambda: nat): nat
    requires n > 1
  {
    match ModInverse(Residue(n, lambda, n + 1), n)
    case None => 0
    case Some(v) => v
  }

  function Encrypted(n: nat, g: nat, m: nat, r: nat): (c: nat)
    requires n > 0
  {
    MulMono(1, n, n);
    (Pow(g, m) % (n * n)) * (Pow(r, n) % (n * n)) % (n * n)
  }

  function Decrypted(n: nat, lambda: nat, mu: nat, c: nat): (m: nat)
    requires n > 0
    ensures m < n
  {
    MulMono(0, Residue(n, lambda, c), mu);
    Residue(n, lambda, c) * mu % n
  }

  // ----- units

  lemma UnitIff(p: nat, q: nat, c: nat)
    requires IsPrime(p) && IsPrime(q)
    ensures p * q > 0 && (Unit(c, p * q) <==> !Divides(p, c) && !Divides(q, c))
  {
    var n := p * q;
    MulMono(1, p, q);
    MultipleMod(q, p);
    MultipleMod(p, q);
    if Divides(p, c) {
      GcdGreatest(c, n, p);
      DividesBound(p, Gcd(c, n));
    }
    if Divides(q, c) {
      GcdGreatest(c, n, q);
      DividesBound(q, Gcd(c, n));
    }
    if Gcd(c, n) > 1 {
      var d := PrimeDivisor(Gcd(c, n));
      DividesTrans(d, Gcd(c, n), n);
      DividesTrans(d, Gcd(c, n), c);
      EuclidPrime(d, p, q);
      OnlyItself(d, p);
      OnlyItself(d, q);
    }
  }

  lemma OnlyItself(d: nat, p: nat)
    requires IsPrime(p) && d > 1
    ensures Divides(d, p) ==> d == p
  {
    if Divides(d, p) {
      DividesBound(d, p);
    }
  }

  lemma DividesCong(d: int, a: int, b: int, n: int)
    requires d > 0 && n > 0 && Divides(d, n) && Cong(a, b, n) && Divides(d, a)
    ensures Divides(d, b)
  {
    var k := CongWitness(a, b, n);
    var x := Quotient(d, a);
    var y := Quotient(d, n);
    assert b == (x - k * y) * d by { assert k * n == (k * y) * d; }
    MultipleMod(x - k * y, d);
  }

  /** Units are closed under multiplication modulo n^2. */
  lemma UnitProduct(p: nat, q: nat, a: nat, b: nat)
    requires IsPrime(p) && IsPrime(q) && Unit(a, p * q) && Unit(b, p * q)
    ensures var n := p * q; n * n > 0 && a * b >= 0 && Unit(a * b % (n * n), n)
  {
    var n := p * q;
    MulMono(1, p, q);
    MulMono(1, n, n);
    MulMono(0, a, b);
    var c := a * b % (n * n);
    UnitIff(p, q, a);
    UnitIff(p, q, b);
    UnitIff(p, q, c);
    CongMod(a * b, n * n);
    PrimeDividesSquare(p, q);
    PrimeDividesSquare(q, p);
    if Divides(p, c) {
      DividesCong(p, c, a * b, n * n);
      EuclidPrime(p, a, b);
    }
    if Divides(q, c) {
      DividesCong(q, c, a * b, n * n);
      EuclidPrime(q, a, b);
    }
  }

  lemma PrimeDividesSquare(p: nat, q: nat)
    requires p > 0 && q > 0
    ensures Divides(p, (p * q) * (p * q)) && Divides(p, (q * p) * (q * p))
  {
    assert (p * q) * (p * q) == (q * (p * q)) * p;
    assert (q * p) * (q * p) == (q * (q * p)) * p;
    MultipleMod(q * (p * q), p);
    MultipleMod(q * (q * p), p);
  }

  // ----- powers of units

  /** (1 + kn)^e = 1 + ekn modulo n^2. */
  lemma {:induction false} Binomial(k: int, n: nat, e: nat)
    requires n > 0
    ensures n * n > 0 && Cong(Pow(1 + k * n, e), 1 + e * k * n, n * n)
  {
    MulMono(1, n, n);
    if e == 0 {
      CongIntro(1, 1, 0, n * n);
    } else {
      Binomial(k, n, e - 1);
      var j := CongWitness(Pow(1 + k * n, e - 1), 1 + (e - 1) * k * n, n * n);
      BinomialStep(k, n, e, j);
      CongIntro(Pow(1 + k * n, e), 1 + e * k * n, (e - 1) * k * k + j * (1 + k * n), n * n);
    }
  }

  lemma BinomialStep(k: int, n: int, e: int, j: int)
    ensures (1 + k * n) * (1 + (e - 1) * k * n + j * (n * n))
         == 1 + e * k * n + ((e - 1) * k * k + j * (1 + k * n)) * (n * n)
  {
    var a := (e - 1) * k;
    var x, y, z := k * n, a * n, j * (n * n);
    Expand(x, y, z);
    Regroup(k, n, a, n);
    assert (1 + x) * z == (j * (1 + x)) * (n * n) by { Associate(1 + x, j, n * n); }
    assert a + k == e * k;
    Distribute(a, k, n);
    Distribute(a * k, j * (1 + x), n * n);
  }

  lemma Expand(x: int, y: int, z: int)
    ensures (1 + x) * (1 + y + z) == 1 + x + y + x * y + (1 + x) * z
  {}

  lemma Regroup(a: int, b: int, c: int, d: int)
    ensures (a * b) * (c * d) == (c * a) * (b * d)
  {
    Associate(a * b, c, d);
    Associate(c, a, b);
    Associate(c * a, b, d);
  }

  lemma Associate(a: int, b: int, c: int)
    ensures a * (b * c) == (b * a) * c && a * (b * c) == (a * b) * c && a * b == b * a
  {}

  lemma Distribute(a: int, b: int, n: int)
    ensures (a + b) * n == a * n + b * n
  {}

  lemma LambdaMultiple(p: nat, q: nat)
    requires p > 1 && q > 1
    ensures Divides(p - 1, Lambda(p, q)) && Divides(q - 1, Lambda(p, q))
    ensures Lambda(p, q) > 0 && (p - 1) * (q - 1) == Lambda(p, q) * Gcd(p - 1, q - 1)
  {
    var a, b := p - 1, q - 1;
    var g := Gcd(a, b);
    var x := Quotient(g, a);
    var y := Quotient(g, b);
    assert a * b == (a * y) * g == (x * b) * g;
    DivisionUnique(a * b, g, a * y, 0);
    DivisionUnique(a * b, g, x * b, 0);
    MultipleMod(y, a);
    MultipleMod(x, b);
    if y <= 0 {
      MulMono(y, 0, g);
    }
    MulMono(1, y, a);
  }

  lemma PowerOfOne(a: int, d: nat, e: nat, n: int)
    requires n > 0 && d > 0 && Cong(Pow(a, d), 1, n) && Divides(d, e)
    ensures Cong(Pow(a, e), 1, n)
  {
    var k := Quotient(d, e);
    if k < 0 {
      MulMono(k, -1, d);
    }
    PowMul(a, d, k);
    CongPow(Pow(a, d), 1, k, n);
    PowOne(k);
  }

  /** Both primes divide, so their product does. */
  lemma BothDivide(p: nat, q: nat, x: int)
    requires IsPrime(p) && IsPrime(q) && p != q && Divides(p, x) && Divides(q, x)
    ensures p * q > 0 && Divides(p * q, x)
  {
    MulMono(1, p, q);
    var k := Quotient(p, x);
    EuclidPrime(q, p, k);
    OnlyItself(q, p);
    var j := Quotient(q, k);
    assert x == j * (p * q);
    MultipleMod(j, p * q);
  }

  /** The exponent lambda kills every unit modulo n. */
  lemma Carmichael(p: nat, q: nat, c: nat)
    requires IsPrime(p) && IsPrime(q) && p != q && Unit(c, p * q)
    ensures p * q > 0 && Cong(Pow(c, Lambda(p, q)), 1, p * q)
  {
    UnitIff(p, q, c);
    LambdaMultiple(p, q);
    Fermat(c, p);
    PowerOfOne(c, p - 1, Lambda(p, q), p);
    Fermat(c, q);
    PowerOfOne(c, q - 1, Lambda(p, q), q);
    BothDivide(p, q, Pow(c, Lambda(p, q)) - 1);
  }

  /** Reading the exponent off a power that is 1 + an modulo n^2. */
  lemma ResidueIs(n: nat, lambda: nat, c: nat, a: int)
    requires n > 1 && n * n > 0 && Cong(Pow(c, lambda), 1 + a * n, n * n)
    ensures Residue(n, lambda, c) == a % n
  {
    hide Cong, Pow;
    var b := a % n;
    ReduceTerm(a, n);
    CongTrans(Pow(c, lambda), 1 + a * n, 1 + b * n, n * n);
    CongSame(Pow(c, lambda), 1 + b * n, n * n);
    SmallTerm(b, n);
  }

  lemma SmallTerm(b: nat, n: nat)
    requires b < n && n > 1
    ensures n * n > 0 && (1 + b * n) % (n * n) == 1 + b * n && LOf(1 + b * n, n) == b
  {
    MulMono(b, n - 1, n);
    MulMono(0, b, n);
    MulMono(1, n, n);
    DivisionUnique(1 + b * n, n * n, 0, 1 + b * n);
    DivisionUnique(b * n, n, b, 0);
  }

  lemma ReduceTerm(a: int, n: nat)
    requires n > 0 && n * n > 0
    ensures Cong(1 + a * n, 1 + a % n * n, n * n)
  {
    hide Cong;
    assert a == a / n * n + a % n;
    assert a * n == a % n * n + (a / n) * (n * n);
    CongIntro(1 + a * n, 1 + a % n * n, a / n, n * n);
  }

  /** A unit raised to lambda is 1 + an. */
  lemma UnitForm(p: nat, q: nat, c: nat) returns (a: int)
    requires IsPrime(p) && IsPrime(q) && p != q && Unit(c, p * q)
    ensures Pow(c, Lambda(p, q)) == 1 + a * (p * q)
    ensures p * q > 1 && Residue(p * q, Lambda(p, q), c) == a % (p * q)
  {
    MulMono(2, p, q);
    MulMono(1, p * q, p * q);
    Carmichael(p, q, c);
    a := CongWitness(Pow(c, Lambda(p, q)), 1, p * q);
    CongIntro(Pow(c, Lambda(p, q)), 1 + a * (p * q), 0, p * q * (p * q));
    ResidueIs(p * q, Lambda(p, q), c, a);
  }

  lemma PowOfMod(a: nat, e: nat, n: nat)
    requires n > 0
    ensures Cong(Pow(a % n, e), Pow(a, e), n)
  {
    CongMod(a, n);
    CongPow(a % n, a, e, n);
  }

  // ----- the homomorphism

  lemma SumOfResidues(k: int, l: int, n: nat, x: int)
    requires n > 0 && n * n > 0 && Cong(x, (1 + k * n) * (1 + l * n), n * n)
    ensures Cong(x, 1 + (k + l) * n, n * n)
  {
    assert (1 + k * n) * (1 + l * n) == 1 + (k + l) * n + (k * l) * (n * n);
    CongIntro((1 + k * n) * (1 + l * n), 1 + (k + l) * n, k * l, n * n);
    CongTrans(x, (1 + k * n) * (1 + l * n), 1 + (k + l) * n, n * n);
  }

  lemma SumTimes(a: int, b: int, mu: int, n: nat)
    requires n > 0
    ensures ((a + b) % n * mu) % n == ((a % n * mu) % n + (b % n * mu) % n) % n
  {
    CongMod(a + b, n);
    CongMod(a, n);
    CongMod(b, n);
    CongIntro(mu, mu, 0, n);
    CongMul((a + b) % n, a + b, mu, mu, n);
    CongMul(a % n, a, mu, mu, n);
    CongMul(b % n, b, mu, mu, n);
    CongMod(a % n * mu, n);
    CongMod(b % n * mu, n);
    CongTrans(a % n * mu % n, a % n * mu, a * mu, n);
    CongTrans(b % n * mu % n, b % n * mu, b * mu, n);
    CongMul(a % n * mu % n, a * mu, b % n * mu % n, b * mu, n);
    assert (a + b) * mu == a * mu + b * mu;
    CongSame((a + b) % n * mu, (a + b) * mu, n);
    CongSame(a % n * mu % n + b % n * mu % n, a * mu + b * mu, n);
  }

  /** A product of units decrypts to the sum. */
  lemma DecryptProduct(p: nat, q: nat, mu: nat, c: nat, d: nat)
    requires IsPrime(p) && IsPrime(q) && p != q && Unit(c, p * q) && Unit(d, p * q)
    ensures var n := p * q; var l := Lambda(p, q);
      && n > 0 && n * n > 0 && c * d >= 0
      && Unit(c * d % (n * n), n)
      && Decrypted(n, l, mu, c * d % (n * n)) == (Decrypted(n, l, mu, c) + Decrypted(n, l, mu, d)) % n
  {
    var n, l := p * q, Lambda(p, q);
    hide IsPrime, Lambda, Decrypted;
    UnitProduct(p, q, c, d);
    var a := UnitForm(p, q, c);
    var b := UnitForm(p, q, d);
    PowOfMod(c * d, l, n * n);
    PowProduct(c, d, l);
    SumOfResidues(a, b, n, Pow(c * d % (n * n), l));
    ResidueIs(n, l, c * d % (n * n), a + b);
    SumTimes(a, b, mu, n);
    DecryptedIs(n, l, mu, c);
    DecryptedIs(n, l, mu, d);
    DecryptedIs(n, l, mu, c * d % (n * n));
  }

  lemma DecryptedIs(n: nat, lambda: nat, mu: nat, c: nat)
    requires n > 0
    ensures Decrypted(n, lambda, mu, c) == Residue(n, lambda, c) * mu % n
  {}

  lemma DecryptOne(n: nat, lambda: nat, mu: nat)
    requires n > 1
    ensures Decrypted(n, lambda, mu, 1) == 0
  {
    PowOne(lambda);
    MulMono(1, n, n);
    CongIntro(1, 1 + 0 * n, 0, n * n);
    ResidueIs(n, lambda, 1, 0);
    MultipleMod(mu, n);
  }

  /** A power decrypts to the multiple. */
  lemma {:induction false} DecryptPower(p: nat, q: nat, mu: nat, c: nat, k: nat)
    requires IsPrime(p) && IsPrime(q) && p != q && Unit(c, p * q)
    ensures var n := p * q; var l := Lambda(p, q);
      && n > 0 && n * n > 0 && Pow(c, k) >= 0
      && Unit(Pow(c, k) % (n * n), n)
      && Decrypted(n, l, mu, Pow(c, k) % (n * n)) == k * Decrypted(n, l, mu, c) % n
  {
    var n, l := p * q, Lambda(p, q);
    MulMono(2, p, q);
    MulMono(1, n, n);
    PowSign(c, k);
    hide IsPrime, Lambda, Decrypted, Pow, Unit;
    if k == 0 {
      MulMono(2, n, n);
      DivisionUnique(1, n * n, 0, 1);
      PowerZero(c);
      DecryptOne(n, l, mu);
      UnitOne(n);
      assert 0 * Decrypted(n, l, mu, c) % n == 0;
    } else {
      DecryptPower(p, q, mu, c, k - 1);
      PowSign(c, k - 1);
      var x := Pow(c, k - 1) % (n * n);
      DecryptProduct(p, q, mu, c, x);
      NextPower(c, k, n * n);
      AddMultiple(Decrypted(n, l, mu, c), k, n);
    }
  }

  lemma PowerZero(c: nat)
    ensures Pow(c, 0) == 1
  {}

  lemma NextPower(c: nat, k: nat, m: nat)
    requires m > 0 && k > 0
    ensures c * (Pow(c, k - 1) % m) % m == Pow(c, k) % m
  {
    var x := Pow(c, k - 1) % m;
    CongMod(Pow(c, k - 1), m);
    CongIntro(c, c, 0, m);
    CongMul(c, c, x, Pow(c, k - 1), m);
    CongSame(c * x, Pow(c, k), m);
  }

  lemma PowSign(c: nat, k: nat)
    ensures Pow(c, k) >= 0
  {
    if k > 0 {
      PowSign(c, k - 1);
      MulMono(0, Pow(c, k - 1), c);
    }
  }

  lemma UnitOne(n: nat)
    ensures Unit(1, n)
  {
    DividesBound(Gcd(1, n), 1);
  }

  lemma AddMultiple(d: nat, k: nat, n: nat)
    requires n > 0 && k > 0
    ensures (d + (k - 1) * d % n) % n == k * d % n
  {
    CongMod((k - 1) * d, n);
    CongIntro(d, d, 0, n);
    CongMul(d, d, (k - 1) * d % n, (k - 1) * d, n);
    assert d + (k - 1) * d == k * d;
    CongSame(d + (k - 1) * d % n, k * d, n);
  }

  // ----- key derivation

  /** Neither prime divides the other minus one. */
  predicate GivesKey(p: nat, q: nat)
    requires p > 0 && q > 0
  {
    !Divides(p, q - 1) && !Divides(q, p - 1)
  }

  lemma ResidueOfG(n: nat, lambda: nat)
    requires n > 1
    ensures Residue(n, lambda, n + 1) == lambda % n
  {
    Binomial(1, n, lambda);
    ResidueIs(n, lambda, n + 1, lambda);
  }

  lemma LambdaCoprime(p: nat, q: nat)
    requires IsPrime(p) && IsPrime(q) && p != q
    ensures Unit(Lambda(p, q), p * q) <==> GivesKey(p, q)
  {
    var l := Lambda(p, q);
    LambdaMultiple(p, q);
    hide Lambda, IsPrime, Unit, Divides;
    UnitIff(p, q, l);
    Commute(p - 1, q - 1);
    PrimeOfLambda(p, q, l, Gcd(p - 1, q - 1));
    PrimeOfLambda(q, p, l, Gcd(p - 1, q - 1));
  }

  lemma Commute(a: int, b: int)
    ensures a * b == b * a
  {}

  lemma PrimeOfLambda(p: nat, q: nat, l: nat, g: nat)
    requires IsPrime(p) && q > 1 && (p - 1) * (q - 1) == l * g && Divides(q - 1, l)
    ensures Divides(p, l) <==> Divides(p, q - 1)
  {
    if Divides(p, q - 1) {
      DividesTrans(p, q - 1, l);
    }
    if Divides(p, l) {
      DividesProduct(p, l, g);
      EuclidPrime(p, p - 1, q - 1);
      if Divides(p, p - 1) {
        DividesBound(p, p - 1);
      }
    }
  }

  lemma ResidueMod(lambda: nat, n: nat)
    requires n > 1
    ensures Unit(lambda % n, n) <==> Unit(lambda, n)
  {
    GcdMod(lambda, n);
  }

  lemma GcdMod(a: nat, n: nat)
    requires n > 1
    ensures Gcd(a % n, n) == Gcd(a, n)
  {
    var b := a % n;
    var g, h := Gcd(b, n), Gcd(a, n);
    assert a == a / n * n + b;
    DividesRest(g, n, a, b, a / n);
    DividesDifference(h, n, a, b, a / n);
    GcdGreatest(a, n, g);
    GcdGreatest(b, n, h);
    DividesBound(g, h);
    DividesBound(h, g);
  }

  lemma DividesRest(g: int, n: int, a: int, b: int, k: int)
    requires g > 0 && Divides(g, n) && Divides(g, b) && a == k * n + b
    ensures Divides(g, a)
  {
    var x := Quotient(g, n);
    var y := Quotient(g, b);
    assert a == (k * x + y) * g by { assert k * n == (k * x) * g; }
    MultipleMod(k * x + y, g);
  }

  lemma DividesDifference(h: int, n: int, a: int, b: int, k: int)
    requires h > 0 && Divides(h, n) && Divides(h, a) && a == k * n + b
    ensures Divides(h, b)
  {
    assert b == -k * n + a;
    DividesRest(h, n, b, a, -k);
  }

  /** Exactly when a usable key comes out: mu is the inverse of lambda. */
  lemma KeyExists(p: nat, q: nat)
    requires IsPrime(p) && IsPrime(q) && p != q
    ensures var n := p * q;
      n > 1 && ((Lambda(p, q) * Mu(n, Lambda(p, q))) % n == 1 <==> GivesKey(p, q))
  {
    var n := p * q;
    var l := Lambda(p, q);
    MulMono(2, p, q);
    ResidueOfG(n, l);
    ResidueMod(l, n);
    LambdaCoprime(p, q);
    if Unit(l, n) {
      var mu := Mu(n, l);
      CongMod(l, n);
      CongIntro(mu, mu, 0, n);
      CongMul(l % n, l, mu, mu, n);
      CongSame(l % n * mu, l * mu, n);
    } else {
      MultipleMod(0, n);
    }
  }

  lemma OneMoreThan(p: nat, a: nat)
    requires p > 1 && a > 0
    ensures Divides(p, a - 1) <==> a % p == 1
  {
    var k, r := a / p, a % p;
    assert a == k * p + r;
    if r == 0 {
      assert a - 1 == (k - 1) * p + (p - 1);
      DivisionUnique(a - 1, p, k - 1, p - 1);
    } else {
      DivisionUnique(a - 1, p, k, r - 1);
    }
  }

  lemma NotConsecutive(p: nat)
    requires IsPrime(p) && p > 2
    ensures !IsPrime(p + 1)
  {
    assert !Divides(2, p);
    assert Divides(2, p + 1);
  }

  /** For the larger prime q the condition is that q is not one more than a multiple of p. */
  lemma LargerPrime(p: nat, q: nat)
    requires IsPrime(p) && IsPrime(q) && p < q
    ensures GivesKey(p, q) <==> q % p != 1
    ensures 2 < p && q < 2 * p ==> GivesKey(p, q)
  {
    assert p > 1;
    if Divides(q, p - 1) {
      DividesBound(q, p - 1);
    }
    OneMoreThan(p, q);
    if 2 < p && q < 2 * p {
      hide Divides;
      DivisionUnique(q, p, 1, q - p);
      NotConsecutive(p);
    }
  }

  // ----- decryption undoes encryption

  lemma GUnit(n: nat)
    requires n > 1
    ensures Unit(n + 1, n)
  {
    var g := Gcd(n + 1, n);
    DividesDifference(g, n, n + 1, 1, 1);
    DividesBound(g, 1);
  }

  lemma DecryptG(p: nat, q: nat, mu: nat, m: nat)
    requires IsPrime(p) && IsPrime(q) && p != q && (Lambda(p, q) * mu) % (p * q) == 1
    ensures var n := p * q;
      n > 1 && n * n > 0 && Pow(n + 1, m) >= 0 && Decrypted(n, Lambda(p, q), mu, Pow(n + 1, m) % (n * n)) == m % n
  {
    var n, l := p * q, Lambda(p, q);
    MulMono(2, p, q);
    GUnit(n);
    DecryptPower(p, q, mu, n + 1, m);
    ResidueOfG(n, l);
    CongMod(l, n);
    CongIntro(mu, mu, 0, n);
    CongMul(l % n, l, mu, mu, n);
    CongSame(l % n * mu, l * mu, n);
    assert m * 1 == m;
  }

  /** n-th powers are invisible to decryption. */
  lemma DecryptNthPower(p: nat, q: nat, mu: nat, r: nat)
    requires IsPrime(p) && IsPrime(q) && p != q && Unit(r, p * q)
    ensures var n := p * q;
      n > 1 && n * n > 0 && Pow(r, n) >= 0 && Decrypted(n, Lambda(p, q), mu, Pow(r, n) % (n * n)) == 0
  {
    var n := p * q;
    MulMono(2, p, q);
    DecryptPower(p, q, mu, r, n);
    MultipleMod(Decrypted(n, Lambda(p, q), mu, r), n);
  }

  /** With a key, decryption returns the plaintext modulo n, whatever unit r was drawn; without one, always 0. */
  lemma RoundTrip(p: nat, q: nat, m: nat, r: nat)
    requires IsPrime(p) && IsPrime(q) && p != q && Unit(r, p * q)
    ensures var n := p * q; var l := Lambda(p, q);
      && n > 1 && Unit(Encrypted(n, n + 1, m, r), n)
      && Decrypted(n, l, Mu(n, l), Encrypted(n, n + 1, m, r)) == if GivesKey(p, q) then m % n else 0
  {
    var n, l := p * q, Lambda(p, q);
    KeyExists(p, q);
    if !GivesKey(p, q) {
      NoKeyZero(p, q);
    }
    var mu := Mu(n, l);
    hide IsPrime, Lambda, Decrypted, Mu, GivesKey;
    GUnit(n);
    DecryptPower(p, q, mu, n + 1, m);
    DecryptPower(p, q, mu, r, n);
    DecryptProduct(p, q, mu, Pow(n + 1, m) % (n * n), Pow(r, n) % (n * n));
    if GivesKey(p, q) {
      DecryptG(p, q, mu, m);
      DecryptNthPower(p, q, mu, r);
      ModMod(m, n);
    } else {
      ZeroKey(n, l, Encrypted(n, n + 1, m, r));
    }
  }

  /** Without a key mu stays 0. */
  lemma NoKeyZero(p: nat, q: nat)
    requires IsPrime(p) && IsPrime(q) && p != q && !GivesKey(p, q)
    ensures p * q > 1 && Mu(p * q, Lambda(p, q)) == 0
  {
    MulMono(2, p, q);
    ResidueOfG(p * q, Lambda(p, q));
    ResidueMod(Lambda(p, q), p * q);
    LambdaCoprime(p, q);
  }

  lemma ZeroKey(n: nat, lambda: nat, c: nat)
    requires n > 0
    ensures Decrypted(n, lambda, 0, c) == 0
  {
    assert Residue(n, lambda, c) * 0 == 0;
  }

  lemma ModMod(m: nat, n: nat)
    requires n > 0
    ensures (m % n + 0) % n == m % n
  {}

  // ----- the results once more, with names for n, n^2 and lambda

  /** n = pq and m = n^2 for distinct primes, lambda as derived. */
  ghost predicate Modulus(p: nat, q: nat, n: nat, m: nat, lambda: nat) {
    IsPrime(p) && IsPrime(q) && p != q && n == p * q && m == n * n && lambda == Lambda(p, q)
  }

  lemma ModulusFacts(p: nat, q: nat, n: nat, m: nat, lambda: nat)
    requires Modulus(p, q, n, m, lambda)
    ensures n > 1 && m == n * n > 0
  {
    MulMono(2, p, q);
    MulMono(1, n, n);
  }

  lemma ProductStep(p: nat, q: nat, n: nat, m: nat, lambda: nat, mu: nat, c: nat, d: nat)
    requires Modulus(p, q, n, m, lambda) && Unit(c, n) && Unit(d, n)
    ensures n > 1 && m > 0 && c * d >= 0 && Unit(c * d % m, n)
    ensures Decrypted(n, lambda, mu, c * d % m)
      == (Decrypted(n, lambda, mu, c) + Decrypted(n, lambda, mu, d)) % n
  {
    hide Decrypted, Lambda;
    ModulusFacts(p, q, n, m, lambda);
    DecryptProduct(p, q, mu, c, d);
  }

  /** Multiplying by g^k adds k. */
  lemma ShiftStep(p: nat, q: nat, n: nat, m: nat, lambda: nat, mu: nat, c: nat, k: nat)
    requires Modulus(p, q, n, m, lambda) && (lambda * mu) % n == 1 && Unit(c, n)
    ensures n > 1 && m > 0 && Pow(n + 1, k) >= 0
    ensures var x := c * (Pow(n + 1, k) % m);
      x >= 0 && Unit(x % m, n) && Decrypted(n, lambda, mu, x % m) == (Decrypted(n, lambda, mu, c) + k % n) % n
  {
    hide Decrypted, Lambda;
    ModulusFacts(p, q, n, m, lambda);
    GUnit(n);
    DecryptPower(p, q, mu, n + 1, k);
    DecryptG(p, q, mu, k);
    ProductStep(p, q, n, m, lambda, mu, c, Pow(n + 1, k) % m);
  }
}
