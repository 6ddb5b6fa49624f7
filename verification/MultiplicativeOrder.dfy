/**
 When do the powers of x first return to 1? At 2^b - 1, unless they already do so at (2^b - 1)/p for
 some prime divisor p of 2^b - 1.
 */
module MultiplicativeOrder {
  import opened BinaryField
  import opened NumberTheory

  function ProductOf(fs: seq<nat>): nat {
    if fs == [] then 1 else fs[0] * ProductOf(fs[1..])
  }

  /** A prime divisor of a product of primes is one of them. */
  lemma {:induction false} PrimeFactorListed(p: int, fs: seq<nat>)
    requires IsPrime(p) && Divides(p, ProductOf(fs))
    requires forall f :: f in fs ==> IsPrime(f)
    ensures p in fs
  {
    if fs == [] {
      DividesBound(p, 1);
    } else {
      EuclidPrime(p, fs[0], ProductOf(fs[1..]));
      if Divides(p, fs[0]) {
        assert IsPrime(fs[0]);
        DividesBound(p, fs[0]);
      } else {
        PrimeFactorListed(p, fs[1..]);
      }
    }
  }

  // ----- periods of the powers of x

  lemma {:induction false} PeriodMultiple(b: nat, d: nat, q: nat)
    requires ValidBits(b) && Exp(b, d) == 1
    ensures q * d >= 0 && Exp(b, q * d) == 1
  {
    hide Steps;
    if q > 0 {
      PeriodMultiple(b, d, q - 1);
      assert q * d == d + (q - 1) * d;
      StepsAdd(b, d, (q - 1) * d, 1);
    } else {
      ExpZero(b);
    }
  }


  lemma PeriodRemainder(b: nat, i: nat, j: nat)
    requires ValidBits(b) && j > 0 && Exp(b, i) == 1 && Exp(b, j) == 1
    ensures Exp(b, i % j) == 1
  {
    hide Steps;
    var q := i / j;
    PeriodMultiple(b, j, q);
    assert i == i % j + q * j;
    StepsAdd(b, i % j, q * j, 1);
  }

  lemma {:induction false} PeriodGcd(b: nat, i: nat, j: nat)
    requires ValidBits(b) && Exp(b, i) == 1 && Exp(b, j) == 1
    ensures Exp(b, Gcd(i, j)) == 1
    decreases j
  {
    hide Exp;
    if j > 0 {
      PeriodRemainder(b, i, j);
      PeriodGcd(b, j, i % j);
    }
  }

  ghost predicate NoShorterPeriod(b: nat, p: nat)
    requires ValidBits(b)
  {
    p > 0 && Exp(b, Max(b) / p) != 1
  }

  /** A proper divisor g of n misses some prime p: g still divides n/p. */
  lemma ProperDivisor(g: nat, n: nat) returns (p: nat, f: nat)
    requires 0 < g < n && Divides(g, n)
    ensures IsPrime(p) && Divides(p, n) && n / p == f * g
  {
    var e := Quotient(g, n);
    if e <= 1 {
      MulMono(e, 1, g);
    }
    p := PrimeDivisor(e);
    f := Quotient(p, e);
    if f < 0 {
      MulMono(f, -1, p);
    }
    assert n == g * (p * f) == (f * g) * p;
    DivisionUnique(n, p, f * g, 0);
  }

  lemma OrderIsMax(b: nat, i: nat)
    requires ValidBits(b) && 0 < i < Max(b) && Exp(b, Max(b)) == 1
    requires forall p: nat :: IsPrime(p) && Divides(p, Max(b)) ==> NoShorterPeriod(b, p)
    ensures Exp(b, i) != 1
  {
    if Exp(b, i) == 1 {
      var g := Gcd(i, Max(b));
      PeriodGcd(b, i, Max(b));
      DividesBound(g, i);
      var p, f := ProperDivisor(g, Max(b));
      assert NoShorterPeriod(b, p);
      PeriodMultiple(b, g, f);
    }
  }

  /** x generates the multiplicative group: its powers first return to 1 at 2^b - 1. */
  ghost predicate Primitive(b: nat)
    requires ValidBits(b)
  {
    && Exp(b, Max(b)) == 1
    && forall i :: 0 < i < Max(b) ==> Exp(b, i) != 1
  }

  /** Enough to look at the exponents (2^b - 1)/p. */
  lemma PrimitiveFrom(b: nat, fs: seq<nat>)
    requires ValidBits(b) && ProductOf(fs) == Max(b) && Exp(b, Max(b)) == 1
    requires forall f :: f in fs ==> IsPrime(f) && NoShorterPeriod(b, f)
    ensures Primitive(b)
  {
    forall p: nat | IsPrime(p) && Divides(p, Max(b)) ensures NoShorterPeriod(b, p) {
      PrimeFactorListed(p, fs);
    }
    forall i | 0 < i < Max(b) ensures Exp(b, i) != 1 {
      OrderIsMax(b, i);
    }
  }
}
