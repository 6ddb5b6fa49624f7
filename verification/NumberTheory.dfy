/**
 Integer facts shared by the Paillier scheme, the Miller-Rabin test and the proof that the
 Shamir polynomials are primitive: congruences, Bezout coefficients, Euclid's lemma and
 Fermat's little theorem.
 */
module NumberTheory {
  import opened SetFacts
  import opened Wrappers

  /** `a` raised to `e`, as an unbounded integer. */
  function Pow(a: int, e: nat): int {
    if e == 0 then 1 else a * Pow(a, e - 1)
  }

  /** a and b leave the same remainder modulo n. */
  predicate Cong(a: int, b: int, n: int)
    requires n > 0
  {
    (a - b) % n == 0
  }

  predicate Divides(d: int, a: int)
    requires d > 0
  {
    a % d == 0
  }

  ghost predicate IsPrime(p: int) {
    p > 1 && forall d :: 1 < d < p ==> !Divides(d, p)
  }

  // ----- division with remainder

  /** Quotient and remainder are determined by the division equation. */
  lemma DivisionUnique(a: int, n: int, q: int, r: int)
    requires n > 0 && a == q * n + r && 0 <= r < n
    ensures a % n == r && a / n == q
  {
    var q', r' := a / n, a % n;
    assert a == n * q' + r';
    assert (q - q') * n == r' - r;
    if q > q' {
      MulMono(1, q - q', n);
    } else if q < q' {
      MulMono(q - q', -1, n);
    }
  }

  lemma MulMono(x: int, y: int, n: int)
    requires x <= y && n >= 0
    ensures x * n <= y * n
  {}

  lemma MultipleMod(k: int, n: int)
    requires n > 0
    ensures (k * n) % n == 0 && (n * k) % n == 0
  {
    DivisionUnique(k * n, n, k, 0);
  }

  lemma Quotient(d: int, a: int) returns (k: int)
    requires d > 0 && Divides(d, a)
    ensures a == d * k && k == a / d
  {
    k := a / d;
  }

  // ----- congruences

  lemma CongWitness(a: int, b: int, n: int) returns (k: int)
    requires n > 0 && Cong(a, b, n)
    ensures a == b + k * n
  {
    k := Quotient(n, a - b);
  }

  lemma CongIntro(a: int, b: int, k: int, n: int)
    requires n > 0 && a == b + k * n
    ensures Cong(a, b, n)
  {
    MultipleMod(k, n);
  }

  lemma CongMod(a: int, n: int)
    requires n > 0
    ensures Cong(a % n, a, n) && Cong(a, a % n, n)
  {
    CongIntro(a, a % n, a / n, n);
    CongIntro(a % n, a, -(a / n), n);
  }

  lemma CongSame(a: int, b: int, n: int)
    requires n > 0
    ensures Cong(a, b, n) <==> a % n == b % n
  {
    if Cong(a, b, n) {
      var k := CongWitness(a, b, n);
      assert a == (k + b / n) * n + b % n;
      DivisionUnique(a, n, k + b / n, b % n);
    }
    if a % n == b % n {
      assert a - b == (a / n - b / n) * n;
      MultipleMod(a / n - b / n, n);
    }
  }

  lemma CongTrans(a: int, b: int, c: int, n: int)
    requires n > 0 && Cong(a, b, n) && Cong(b, c, n)
    ensures Cong(a, c, n)
  {
    CongSame(a, b, n);
    CongSame(b, c, n);
    CongSame(a, c, n);
  }

  lemma CongMul(a: int, b: int, c: int, d: int, n: int)
    requires n > 0 && Cong(a, b, n) && Cong(c, d, n)
    ensures Cong(a * c, b * d, n) && Cong(a + c, b + d, n)
  {
    var k := CongWitness(a, b, n);
    var l := CongWitness(c, d, n);
    assert a * c == b * d + (b * l + k * d + k * l * n) * n;
    CongIntro(a * c, b * d, b * l + k * d + k * l * n, n);
    CongIntro(a + c, b + d, k + l, n);
  }

  lemma {:induction false} CongPow(a: int, b: int, e: nat, n: int)
    requires n > 0 && Cong(a, b, n)
    ensures Cong(Pow(a, e), Pow(b, e), n)
  {
    if e == 0 {
      MultipleMod(0, n);
    } else {
      CongPow(a, b, e - 1, n);
      CongMul(a, b, Pow(a, e - 1), Pow(b, e - 1), n);
    }
  }

  // ----- powers

  lemma {:induction false} PowAdd(a: int, e: nat, f: nat)
    ensures Pow(a, e + f) == Pow(a, e) * Pow(a, f)
  {
    if e > 0 {
      PowAdd(a, e - 1, f);
    }
  }

  lemma {:induction false} PowMul(a: int, e: nat, f: nat)
    ensures e * f >= 0 && Pow(a, e * f) == Pow(Pow(a, e), f)
  {
    if f > 0 {
      assert e * f == e + e * (f - 1);
      PowMul(a, e, f - 1);
      PowAdd(a, e, e * (f - 1));
    }
  }

  lemma {:induction false} PowProduct(a: int, b: int, e: nat)
    ensures Pow(a * b, e) == Pow(a, e) * Pow(b, e)
  {
    if e > 0 {
      PowProduct(a, b, e - 1);
    }
  }

  lemma {:induction false} PowOne(e: nat)
    ensures Pow(1, e) == 1
  {
    if e > 0 {
      PowOne(e - 1);
    }
  }

  // ----- greatest common divisors

  /** Extended Euclid: (g, x, y) with g = gcd(a, b) = a*x + b*y. */
  function ExtGcd(a: nat, b: nat): (r: (nat, int, int))
    ensures r.0 == a * r.1 + b * r.2
    ensures a + b > 0 ==> r.0 > 0 && Divides(r.0, a) && Divides(r.0, b)
    decreases b
  {
    if b == 0 then
      assert a > 0 ==> Divides(a, a) && Divides(a, b) by {
        if a > 0 {
          MultipleMod(1, a);
          MultipleMod(0, a);
        }
      }
      (a, 1, 0)
    else
      var (g, x, y) := ExtGcd(b, a % b);
      ExtGcdStep(a, b, g, x, y);
      (g, y, x - (a / b) * y)
  }

  lemma ExtGcdStep(a: nat, b: nat, g: nat, x: int, y: int)
    requires b > 0 && g == b * x + (a % b) * y
    requires g > 0 && Divides(g, b) && Divides(g, a % b)
    ensures g == a * y + b * (x - (a / b) * y) && Divides(g, a)
  {
    assert a == b * (a / b) + a % b;
    assert a * y == (b * (a / b)) * y + (a % b) * y;
    assert (b * (a / b)) * y == b * ((a / b) * y);
    DividesSum(g, a, b);
  }

  lemma DividesSum(g: nat, a: nat, b: nat)
    requires g > 0 && b > 0 && Divides(g, b) && Divides(g, a % b)
    ensures Divides(g, a)
  {
    var k := Quotient(g, b);
    var l := Quotient(g, a % b);
    assert a == b * (a / b) + a % b;
    assert a == (k * (a / b) + l) * g;
    MultipleMod(k * (a / b) + l, g);
  }

  function Gcd(a: nat, b: nat): nat {
    ExtGcd(a, b).0
  }

  /** Every common divisor divides the greatest one. */
  lemma GcdGreatest(a: nat, b: nat, d: int)
    requires d > 0 && Divides(d, a) && Divides(d, b)
    ensures Divides(d, Gcd(a, b))
  {
    var k := Quotient(d, a);
    var l := Quotient(d, b);
    var (g, x, y) := ExtGcd(a, b);
    assert g == (k * x + l * y) * d;
    MultipleMod(k * x + l * y, d);
  }

  lemma DividesBound(d: int, a: int)
    requires d > 0 && a > 0 && Divides(d, a)
    ensures d <= a
  {
    var k := Quotient(d, a);
    if k <= 0 {
      MulMono(k, 0, d);
      assert false;
    }
    MulMono(1, k, d);
  }

  lemma DividesTrans(d: int, e: int, a: int)
    requires d > 0 && e > 0 && Divides(d, e) && Divides(e, a)
    ensures Divides(d, a)
  {
    var k := Quotient(d, e);
    var l := Quotient(e, a);
    assert a == (k * l) * d;
    MultipleMod(k * l, d);
  }

  lemma DividesProduct(d: int, a: int, b: int)
    requires d > 0 && Divides(d, a)
    ensures Divides(d, a * b)
  {
    var k := Quotient(d, a);
    assert a * b == (k * b) * d;
    MultipleMod(k * b, d);
  }

  lemma CombineMultiples(a: int, d: int, b: int, x: int, y: int, k: int)
    requires a * x + d * y == 1 && a * b == d * k
    ensures b == (x * k + y * b) * d
  {
    assert b * (a * x) == x * (a * b) == x * (d * k) == (x * k) * d;
    assert b * (d * y) == (y * b) * d;
    assert b == b * (a * x + d * y) == b * (a * x) + b * (d * y);
  }

  /** Gauss's lemma: a divisor of a*b that is coprime to a divides b. */
  lemma CoprimeDivides(d: nat, a: nat, b: int)
    requires d > 0 && Gcd(a, d) == 1 && Divides(d, a * b)
    ensures Divides(d, b)
  {
    var (g, x, y) := ExtGcd(a, d);
    var k := Quotient(d, a * b);
    CombineMultiples(a, d, b, x, y, k);
    MultipleMod(x * k + y * b, d);
  }

  /** The inverse of a modulo n, absent exactly when a and n share a factor. */
  function ModInverse(a: nat, n: nat): (r: Option<nat>)
    requires n > 1
    ensures r.Some? <==> Gcd(a, n) == 1
    ensures r.Some? ==> r.value < n && (a * r.value) % n == 1
  {
    var (g, x, y) := ExtGcd(a, n);
    if g != 1 then None else
      InverseWorks(a, n, x, y);
      Some(x % n)
  }

  lemma InverseWorks(a: nat, n: nat, x: int, y: int)
    requires n > 1 && a * x + n * y == 1
    ensures (a * (x % n)) % n == 1
  {
    assert a * (x % n) == (-y - a * (x / n)) * n + 1;
    DivisionUnique(a * (x % n), n, -y - a * (x / n), 1);
  }

  // ----- primes

  lemma PrimeCoprime(p: int, a: nat)
    requires IsPrime(p) && !Divides(p, a)
    ensures Gcd(a, p) == 1
  {
    var g := Gcd(a, p);
    DividesBound(g, p);
    if g == p {
      assert false;
    }
  }

  /** Euclid's lemma. */
  lemma EuclidPrime(p: int, a: int, b: int)
    requires IsPrime(p) && Divides(p, a * b)
    ensures Divides(p, a) || Divides(p, b)
  {
    var a' := a % p;
    CongMod(a, p);
    if a' != 0 {
      var k := Quotient(p, a * b);
      assert a' * b == (k - (a / p) * b) * p;
      MultipleMod(k - (a / p) * b, p);
      if Divides(p, a') {
        DividesBound(p, a');
      }
      PrimeCoprime(p, a');
      CoprimeDivides(p, a', b);
    }
  }

  /** Every integer above 1 has a prime divisor. */
  lemma {:induction false} PrimeDivisor(n: int) returns (p: int)
    requires n > 1
    ensures IsPrime(p) && Divides(p, n)
  {
    if IsPrime(n) {
      p := n;
      MultipleMod(1, n);
    } else {
      var d :| 1 < d < n && Divides(d, n);
      p := PrimeDivisor(d);
      DividesTrans(p, d, n);
    }
  }

  // ----- Fermat's little theorem

  /** Product of a finite set, taken in some order. */
  ghost function Product(s: set<int>): int
  {
    if s == {} then 1 else
      var x := Pick(s);
      x * Product(s - {x})
  }

  lemma {:induction false} ProductRemove(s: set<int>, x: int)
    requires x in s
    ensures Product(s) == x * Product(s - {x})
    decreases |s|
  {
    var y := Pick(s);
    if y != x {
      ProductRemove(s - {y}, x);
      ProductRemove(s - {x}, y);
      assert s - {y} - {x} == s - {x} - {y};
    }
  }

  ghost function Scaled(a: int, p: int, s: set<int>): set<int>
    requires p > 0
  {
    set x | x in s :: (a * x) % p
  }

  /** Multiplication by a non-multiple of p is injective on 1..p-1. */
  lemma ScaleInjective(a: int, p: int, x: int, y: int)
    requires IsPrime(p) && !Divides(p, a) && 0 < x < p && 0 < y < p
    requires (a * x) % p == (a * y) % p
    ensures x == y
  {
    CongSame(a * x, a * y, p);
    assert a * x - a * y == a * (x - y);
    EuclidPrime(p, a, x - y);
    var k := Quotient(p, x - y);
    if k >= 1 {
      MulMono(1, k, p);
    } else if k <= -1 {
      MulMono(k, -1, p);
    }
  }

  lemma ScaledInsert(a: int, p: int, s: set<int>, x: int)
    requires IsPrime(p) && !Divides(p, a) && x in s && forall z :: z in s ==> 0 < z < p
    ensures (a * x) % p in Scaled(a, p, s)
    ensures Scaled(a, p, s) - {(a * x) % p} == Scaled(a, p, s - {x})
  {
    var y, t := (a * x) % p, Scaled(a, p, s - {x});
    if y in t {
      var z :| z in s - {x} && (a * z) % p == y;
      ScaleInjective(a, p, x, z);
    }
    forall v | v in Scaled(a, p, s) ensures v in t + {y} {
      var z :| z in s && (a * z) % p == v;
      if z != x {
        assert z in s - {x};
      }
    }
  }

  lemma {:induction false} ScaledProduct(a: int, p: int, s: set<int>)
    requires IsPrime(p) && !Divides(p, a) && forall x :: x in s ==> 0 < x < p
    ensures Cong(Product(Scaled(a, p, s)), Pow(a, |s|) * Product(s), p)
    ensures |Scaled(a, p, s)| == |s|
    decreases |s|
  {
    if s == {} {
      MultipleMod(0, p);
    } else {
      var x := Pick(s);
      var y, t := (a * x) % p, Product(Scaled(a, p, s - {x}));
      ScaledInsert(a, p, s, x);
      ScaledProduct(a, p, s - {x});
      ProductRemove(Scaled(a, p, s), y);
      ProductRemove(s, x);
      CongMod(a * x, p);
      CongMul(y, a * x, t, Pow(a, |s| - 1) * Product(s - {x}), p);
      ScaleStep(a, x, Pow(a, |s| - 1), Product(s - {x}));
    }
  }

  lemma ScaleStep(a: int, x: int, u: int, v: int)
    ensures (a * x) * (u * v) == (a * u) * (x * v)
  {
    assert (a * x) * (u * v) == a * (x * (u * v)) == a * (u * (x * v)) == (a * u) * (x * v);
  }

  lemma {:induction false} ProductNotDivisible(p: int, s: set<int>)
    requires IsPrime(p) && forall x :: x in s ==> 0 < x < p
    ensures !Divides(p, Product(s))
    decreases |s|
  {
    if s == {} {
      DivisionUnique(1, p, 0, 1);
    } else {
      var x := Pick(s);
      ProductRemove(s, x);
      ProductNotDivisible(p, s - {x});
      DivisionUnique(x, p, 0, x);
      if Divides(p, Product(s)) {
        EuclidPrime(p, x, Product(s - {x}));
      }
    }
  }

  lemma FermatCancel(p: int, t: int, m: int)
    requires IsPrime(p) && Cong(m, t * m, p) && !Divides(p, m)
    ensures Cong(t, 1, p)
  {
    CongSame(m, t * m, p);
    CongSame(t * m, m, p);
    assert t * m - m == (t - 1) * m;
    EuclidPrime(p, t - 1, m);
  }

  lemma SmallMod(d: nat, n: nat)
    requires d < n
    ensures d % n == d
  {}

  /** Fermat's little theorem. */
  lemma Fermat(a: int, p: int)
    requires IsPrime(p) && !Divides(p, a)
    ensures Cong(Pow(a, p - 1), 1, p)
  {
    var s := Range(p) - {0};
    ScaledProduct(a, p, s);
    forall y | y in Scaled(a, p, s) ensures y in s {
      var x :| x in s && (a * x) % p == y;
      if y == 0 {
        EuclidPrime(p, a, x);
        DividesBound(p, x);
      }
    }
    SubsetSize(Scaled(a, p, s), s);
    ProductNotDivisible(p, s);
    FermatCancel(p, Pow(a, p - 1), Product(s));
  }
}
