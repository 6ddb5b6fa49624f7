/**
 The Miller-Rabin test with the fixed witnesses of the key derivation (the test of appendix B.3.1 of
 FIPS 186-5): what it computes, that a prime fails it exactly if it is one of the witnesses, and what passing says of
 any number.
 */
module MillerRabin {
  import opened NumberTheory
  import opened BinaryWords
  import opened TrialDivisions

  const WITNESSES: seq<nat> := [2, 3, 5, 7, 11, 13, 17, 19, 23, 29, 31, 37]

  /** x squared j times modulo n. */
  function Squared(x: nat, j: nat, n: nat): nat
    requires n > 0
  {
    if j == 0 then x else
      var y := Squared(x, j - 1, n);
      MulMono(0, y, y);
      y * y % n
  }

  function OddPart(m: nat): (d: nat)
    requires m > 0
    ensures d % 2 == 1
  {
    if m % 2 == 1 then m else OddPart(m / 2)
  }

  function Twos(m: nat): nat
    requires m > 0
  {
    if m % 2 == 1 then 0 else 1 + Twos(m / 2)
  }

  lemma {:induction false} Decomposed(m: nat)
    requires m > 0
    ensures m == Pow2(Twos(m)) * OddPart(m)
  {
    if m % 2 == 0 {
      Decomposed(m / 2);
      var t := Pow2(Twos(m / 2));
      assert Pow2(Twos(m)) == 2 * t;
      assert (2 * t) * OddPart(m / 2) == 2 * (t * OddPart(m / 2));
    } else {
      assert Pow2(0) == 1;
    }
  }

  /** x is 1, or squaring it fewer than r times meets -1; it is looked at even if r is 0. */
  ghost predicate PassesFrom(x: nat, r: nat, n: nat)
    requires n > 1
  {
    x == 1 || exists j: nat :: j < Max(r, 1) && Squared(x, j, n) == n - 1
  }

  /** With n - 1 = 2^r d and d odd, a^d passes. */
  ghost predicate Passes(n: nat, a: nat)
    requires n > 1
  {
    PowNonneg(a, OddPart(n - 1));
    PassesFrom(Pow(a, OddPart(n - 1)) % n, Twos(n - 1), n)
  }

  function Max(a: nat, b: nat): nat {
    if a < b then b else a
  }

  lemma PowNonneg(a: nat, e: nat)
    ensures Pow(a, e) >= 0
  {
    if e > 0 {
      PowNonneg(a, e - 1);
      MulMono(0, Pow(a, e - 1), a);
    }
  }

  /** The loop that takes out the factors of 2; it ends because n - 1 is positive. */
  method FactorTwos(n: nat) returns (d: nat, r: nat)
    requires n > 1
    ensures d == OddPart(n - 1) && r == Twos(n - 1)
  {
    d, r := n - 1, 0;
    while d % 2 == 0
      invariant d > 0 && OddPart(d) == OddPart(n - 1) && r + Twos(d) == Twos(n - 1)
      decreases d
    {
      d := d / 2;
      r := r + 1;
    }
  }

  /** The test. A prime is rejected exactly if it is itself one of the witnesses tried. */
  method MillerRabinTest(n: nat, iterations: int) returns (isPrime: bool)
    requires n > 1
    ensures isPrime <==> forall i :: 0 <= i < iterations && i < 12 ==> Passes(n, WITNESSES[i])
    ensures IsPrime(n) ==> (isPrime <==> forall i :: 0 <= i < iterations && i < 12 ==> n != WITNESSES[i])
    ensures isPrime && n % 2 == 1 ==> forall i :: 0 <= i < iterations && i < 12 ==> Pow(WITNESSES[i], n - 1) % n == 1
  {
    var d, r := FactorTwos(n);
    isPrime := true;
    var i := 0;
    while i < iterations && i < 12
      invariant 0 <= i <= 12 && (i <= iterations || i == 0)
      invariant isPrime <==> forall k :: 0 <= k < i ==> Passes(n, WITNESSES[k])
      invariant isPrime
    {
      var ok := OneRound(n, WITNESSES[i], d, r);
      i := i + 1;
      if !ok {
        isPrime := false;
        break;
      }
    }
    if n % 2 == 1 {
      forall k | 0 <= k < 12 && Passes(n, WITNESSES[k]) ensures Pow(WITNESSES[k], n - 1) % n == 1 {
        PassesFermat(n, WITNESSES[k]);
      }
    }
    if IsPrime(n) {
      forall k | 0 <= k < 12 ensures Passes(n, WITNESSES[k]) <==> n != WITNESSES[k] {
        WitnessPrime(k, n);
        PrimePasses(n, WITNESSES[k]);
      }
    }
  }

  /** One witness; x runs through the squares of a^d. */
  method OneRound(n: nat, a: nat, d: nat, r: nat) returns (ok: bool)
    requires n > 1
    requires d == OddPart(n - 1) && r == Twos(n - 1)
    ensures ok <==> Passes(n, a)
  {
    PowNonneg(a, d);
    ghost var x0 := Pow(a, d) % n;
    var x := Pow(a, d) % n;
    assert Squared(x0, 0, n) == x0;
    if x == 1 || x == n - 1 {
      return true;
    }
    var j := 1;
    while j < r
      invariant 1 <= j <= Max(r, 1)
      invariant x == Squared(x0, j - 1, n) && x != 1
      invariant forall k :: 0 <= k < j ==> Squared(x0, k, n) != n - 1
    {
      MulMono(0, x, x);
      x := x * x % n;
      assert x == Squared(x0, j, n);
      if x == 1 {
        TwosLarge(n - 1);
        forall k: nat | k < Max(r, 1) ensures Squared(x0, k, n) != n - 1 {
          if k >= j {
            StaysOne(x0, j, k, n);
          }
        }
        return false;
      }
      if x == n - 1 {
        return true;
      }
      j := j + 1;
    }
    return false;
  }

  /** Two factors of 2 take at least 4. */
  lemma TwosLarge(m: nat)
    requires m > 0 && Twos(m) > 1
    ensures m >= 4
  {
    assert Twos(m) == 1 + (1 + Twos(m / 2 / 2));
  }

  /** Once the square is 1, it stays 1. */
  lemma {:induction false} StaysOne(x: nat, j: nat, k: nat, n: nat)
    requires n > 1 && j <= k && Squared(x, j, n) == 1
    ensures Squared(x, k, n) == 1
  {
    if j < k {
      StaysOne(x, j, k - 1, n);
      DivisionUnique(1, n, 0, 1);
      assert Squared(x, k, n) == 1 * 1 % n;
    }
  }

  // ----- primes pass

  lemma {:induction false} SquaredIsPower(a: nat, d: nat, j: nat, n: nat)
    requires n > 0
    ensures Pow(a, d) >= 0 && Pow2(j) * d >= 0
    ensures Cong(Squared(Pow(a, d) % n, j, n), Pow(a, Pow2(j) * d), n)
  {
    PowNonneg(a, d);
    MulMono(0, Pow2(j), d);
    if j == 0 {
      CongMod(Pow(a, d), n);
    } else {
      SquaredIsPower(a, d, j - 1, n);
      var e := Pow2(j - 1) * d;
      var y := Squared(Pow(a, d) % n, j - 1, n);
      CongMul(y, Pow(a, e), y, Pow(a, e), n);
      PowAdd(a, e, e);
      assert Pow2(j) * d == e + e;
      CongMod(y * y, n);
      CongTrans(y * y % n, y * y, Pow(a, e + e), n);
    }
  }

  /** Modulo a prime, 1 has no square roots but 1 and -1. */
  lemma RootsOfOne(n: nat, y: nat)
    requires IsPrime(n) && y < n && y * y >= 0 && y * y % n == 1
    ensures y == 1 || y == n - 1
  {
    CongMod(y * y, n);
    CongSame(y * y, 1, n);
    DivisionUnique(1, n, 0, 1);
    assert y * y - 1 == (y - 1) * (y + 1);
    EuclidPrime(n, y - 1, y + 1);
    if Divides(n, y + 1) {
      DividesBound(n, y + 1);
    } else if y > 1 {
      DividesBound(n, y - 1);
    } else if y == 0 {
      MultipleMod(0, n);
    }
  }

  lemma {:induction false} Descend(n: nat, x: nat, j: nat)
    requires IsPrime(n) && x < n && Squared(x, j, n) == 1
    ensures x == 1 || exists k: nat :: k < j && Squared(x, k, n) == n - 1
  {
    if j > 0 {
      SquaredBound(x, j - 1, n);
      RootsOfOne(n, Squared(x, j - 1, n));
      if Squared(x, j - 1, n) == 1 {
        Descend(n, x, j - 1);
      }
    }
  }

  lemma SquaredBound(x: nat, j: nat, n: nat)
    requires n > 0 && x < n
    ensures Squared(x, j, n) < n
  {}

  /** A prime passes for exactly the witnesses that it does not divide. */
  lemma PrimePasses(n: nat, a: nat)
    requires IsPrime(n)
    ensures Passes(n, a) <==> !Divides(n, a)
  {
    if Divides(n, a) {
      MultipleFails(n, a);
    } else if n == 2 {
      assert OddPart(1) == 1 && Pow(a, 1) == a * Pow(a, 0) == a;
    } else {
      UnitPasses(n, a);
    }
  }

  lemma UnitPasses(n: nat, a: nat)
    requires IsPrime(n) && n > 2 && !Divides(n, a)
    ensures Passes(n, a)
  {
    var d, r := OddPart(n - 1), Twos(n - 1);
    Decomposed(n - 1);
    OddPrime(n);
    PowNonneg(a, d);
    var x := Pow(a, d) % n;
    Fermat(a, n);
    SquaredIsPower(a, d, r, n);
    CongTrans(Squared(x, r, n), Pow(a, n - 1), 1, n);
    SquaredBound(x, r, n);
    CongSame(Squared(x, r, n), 1, n);
    DivisionUnique(1, n, 0, 1);
    DivisionUnique(Squared(x, r, n), n, 0, Squared(x, r, n));
    Descend(n, x, r);
  }

  lemma MultipleFails(n: nat, a: nat)
    requires n > 1 && Divides(n, a)
    ensures !Passes(n, a)
  {
    var d := OddPart(n - 1);
    PowNonneg(a, d);
    DividesProduct(n, a, Pow(a, d - 1));
    assert Pow(a, d) % n == 0;
    forall j: nat ensures Squared(0, j, n) == 0 {
      StaysZero(n, j);
    }
  }

  lemma {:induction false} StaysZero(n: nat, j: nat)
    requires n > 0
    ensures Squared(0, j, n) == 0
  {
    if j > 0 {
      StaysZero(n, j - 1);
      MultipleMod(0, n);
    }
  }

  /** A prime divides a witness only if it is that witness. */
  lemma WitnessPrime(k: nat, n: nat)
    requires k < 12 && IsPrime(n)
    ensures Divides(n, WITNESSES[k]) <==> n == WITNESSES[k]
  {
    var w := WITNESSES[k];
    if Divides(n, w) {
      DividesBound(n, w);
      if n < w {
        SmallDivisor(k, n);
      }
    } else {
      MultipleMod(1, n);
    }
  }

  lemma SmallDivisor(k: nat, n: nat)
    requires k < 12 && 1 < n < WITNESSES[k]
    ensures !Divides(n, WITNESSES[k])
  {
    WitnessIsPrime(k);
    assert IsPrime(WITNESSES[k]);
  }

  lemma OddPrime(n: nat)
    requires IsPrime(n) && n > 2
    ensures n % 2 == 1 && Twos(n - 1) > 0
  {
    assert !Divides(2, n);
  }

  // ----- what passing means, in terms of powers alone

  /** The power of two and the odd number that make up m are unique. */
  lemma {:induction false} Decomposition(m: nat, r: nat, d: nat)
    requires m > 0 && m == Pow2(r) * d && d % 2 == 1
    ensures Twos(m) == r && OddPart(m) == d
    decreases r
  {
    if r == 0 {
      assert Pow2(0) == 1;
    } else {
      var t := Pow2(r - 1);
      assert Pow2(r) * d == 2 * (t * d);
      Decomposition(m / 2, r - 1, d);
    }
  }

  /** The number the test has after j squarings is a to the power 2^j d. */
  lemma SquaringIs(n: nat, a: nat, r: nat, d: nat, j: nat)
    requires n > 1
    ensures Pow(a, d) >= 0 && Pow2(j) * d >= 0
    ensures Squared(Pow(a, d) % n, j, n) == Pow(a, Pow2(j) * d) % n
  {
    SquaredIsPower(a, d, j, n);
    var s := Squared(Pow(a, d) % n, j, n);
    SquaredBound(Pow(a, d) % n, j, n);
    CongSame(s, Pow(a, Pow2(j) * d), n);
    DivisionUnique(s, n, 0, s);
  }

  /** -1 squared is 1. */
  lemma MinusOneSquared(n: nat, y: nat)
    requires n > 1 && y == n - 1
    ensures y * y >= 0 && y * y % n == 1
  {
    assert y * y == (n - 2) * n + 1;
    DivisionUnique(y * y, n, n - 2, 1);
  }

  /** A root of 1 that comes up after j squarings is 1 or -1. */
  predicate PlainRoot(x: nat, j: nat, n: nat)
    requires n > 1
  {
    Squared(x, j + 1, n) == 1 ==> Squared(x, j, n) == 1 || Squared(x, j, n) == n - 1
  }

  lemma SquaredNone(x: nat, n: nat)
    requires n > 0
    ensures Squared(x, 0, n) == x
  {
  }

  lemma {:induction false} DescendPlain(n: nat, x: nat, r: nat)
    requires n > 1 && x < n && Squared(x, r, n) == 1 && forall j: nat :: j < r ==> PlainRoot(x, j, n)
    ensures x == 1 || exists k: nat :: k < r && Squared(x, k, n) == n - 1
  {
    SquaredNone(x, n);
    hide Squared;
    if r > 0 {
      var k: nat := r - 1;
      assert PlainRoot(x, k, n) && k + 1 == r;
      if Squared(x, k, n) == 1 {
        DescendPlain(n, x, k);
      } else {
        assert Squared(x, k, n) == n - 1;
      }
    }
  }

  lemma AscendPlain(n: nat, x: nat, r: nat)
    requires n > 2 && x < n && (x == 1 || exists k: nat :: k < r && Squared(x, k, n) == n - 1)
    ensures Squared(x, r, n) == 1 && forall j: nat :: j < r ==> PlainRoot(x, j, n)
  {
    SquaredNone(x, n);
    if x == 1 {
      StaysOne(x, 0, r, n);
      forall j: nat ensures PlainRoot(x, j, n) {
        StaysOne(x, 0, j, n);
      }
    } else {
      var k: nat :| k < r && Squared(x, k, n) == n - 1;
      MinusOneSquared(n, Squared(x, k, n));
      StaysOne(x, k + 1, r, n);
      forall j: nat | j < r ensures PlainRoot(x, j, n) {
        if j < k && Squared(x, j + 1, n) == 1 {
          StaysOne(x, j + 1, k, n);
        } else if j > k {
          StaysOne(x, k + 1, j, n);
        }
      }
    }
  }

  /**
   For odd n, with n - 1 = 2^r d and d odd, a passes exactly if a^(n-1) is 1 modulo n and no square on the way to it
   reveals a root of 1 other than 1 and -1.
   */
  lemma PassesMeans(n: nat, a: nat, r: nat, d: nat)
    requires n > 2 && n % 2 == 1 && n - 1 == Pow2(r) * d && d % 2 == 1
    ensures Passes(n, a) <==>
      && Pow(a, n - 1) % n == 1
      && forall j: nat, e: nat :: j < r && e == Pow2(j) * d && Pow(a, 2 * e) % n == 1 ==>
        Pow(a, e) % n == 1 || Pow(a, e) % n == n - 1
  {
    hide Passes, Squared, PlainRoot, Pow, Pow2;
    PowNonneg(a, d);
    var x := Pow(a, d) % n;
    PassesIs(n, a, r, d, x);
    SquaringIs(n, a, r, d, r);
    if Passes(n, a) {
      AscendPlain(n, x, r);
      forall j: nat, e: nat | j < r && e == Pow2(j) * d && Pow(a, 2 * e) % n == 1
        ensures Pow(a, e) % n == 1 || Pow(a, e) % n == n - 1
      {
        RootIsPower(n, a, r, d, j, e);
        assert PlainRoot(x, j, n);
      }
    } else if Squared(x, r, n) == 1 {
      if forall j: nat :: j < r ==> PlainRoot(x, j, n) {
        DescendPlain(n, x, r);
      } else {
        var j: nat :| j < r && !PlainRoot(x, j, n);
        MulMono(0, Pow2(j), d);
        RootIsPower(n, a, r, d, j, Pow2(j) * d);
      }
    }
  }

  lemma PassesIs(n: nat, a: nat, r: nat, d: nat, x: nat)
    requires n > 2 && n % 2 == 1 && n - 1 == Pow2(r) * d && d % 2 == 1
    requires Pow(a, d) >= 0 && x == Pow(a, d) % n
    ensures Passes(n, a) <==> x == 1 || exists k: nat :: k < r && Squared(x, k, n) == n - 1
  {
    Decomposition(n - 1, r, d);
    NotZeroTwos(n, r, d);
    hide Pow, OddPart, Twos, Pow2;
    assert Passes(n, a) <==> PassesFrom(x, r, n);
    FromIs(x, r, n);
  }

  lemma FromIs(x: nat, r: nat, n: nat)
    requires n > 1 && r > 0
    ensures PassesFrom(x, r, n) <==> x == 1 || exists k: nat :: k < r && Squared(x, k, n) == n - 1
  {
    assert Max(r, 1) == r;
    if PassesFrom(x, r, n) && x != 1 {
      var j: nat :| j < Max(r, 1) && Squared(x, j, n) == n - 1;
      assert j < r && Squared(x, j, n) == n - 1;
    }
    if k: nat :| k < r && Squared(x, k, n) == n - 1 {
      assert k < Max(r, 1) && Squared(x, k, n) == n - 1;
      assert PassesFrom(x, r, n);
    }
  }

  lemma NotZeroTwos(n: nat, r: nat, d: nat)
    requires n % 2 == 1 && n - 1 == Pow2(r) * d && d % 2 == 1
    ensures r > 0
  {
    assert Pow2(0) == 1;
  }

  lemma RootIsPower(n: nat, a: nat, r: nat, d: nat, j: nat, e: nat)
    requires n > 2 && e == Pow2(j) * d
    ensures Pow(a, d) >= 0 && (PlainRoot(Pow(a, d) % n, j, n) <==>
      (Pow(a, 2 * e) % n == 1 ==> Pow(a, e) % n == 1 || Pow(a, e) % n == n - 1))
  {
    PowerDoubles(j, d);
    hide Pow, Squared, Pow2;
    SquaringIs(n, a, r, d, j);
    SquaringIs(n, a, r, d, j + 1);
  }

  lemma PowerDoubles(j: nat, d: nat)
    ensures Pow2(j + 1) * d == 2 * (Pow2(j) * d)
  {
    assert Pow2(j + 1) == 2 * Pow2(j);
  }

  lemma PassesFermat(n: nat, a: nat)
    requires n > 2 && n % 2 == 1 && Passes(n, a)
    ensures Pow(a, n - 1) % n == 1
  {
    Decomposed(n - 1);
    PassesMeans(n, a, Twos(n - 1), OddPart(n - 1));
  }

  /** A root of 1 other than 1 and -1, met among the powers of a witness, gives a factor of n and makes n fail. */
  lemma RootFails(n: nat, a: nat, r: nat, d: nat, j: nat, e: nat)
    requires n > 2 && n % 2 == 1 && n - 1 == Pow2(r) * d && d % 2 == 1 && j < r && e == Pow2(j) * d
    requires Pow(a, 2 * e) % n == 1 && Pow(a, e) % n != 1 && Pow(a, e) % n != n - 1
    ensures !Passes(n, a) && !IsPrime(n)
  {
    PassesMeans(n, a, r, d);
    PowAdd(a, e, e);
    PowNonneg(a, e);
    if IsPrime(n) {
      var y := Pow(a, e) % n;
      CongMod(Pow(a, e), n);
      CongMul(y, Pow(a, e), y, Pow(a, e), n);
      MulMono(0, y, y);
      CongSame(y * y, Pow(a, 2 * e), n);
      RootsOfOne(n, y);
    }
  }

  /** For even n there is one look: a^(n-1) must be 1 or -1. */
  lemma PassesEven(n: nat, a: nat)
    requires n > 1 && n % 2 == 0
    ensures Passes(n, a) <==> Pow(a, n - 1) % n == 1 || Pow(a, n - 1) % n == n - 1
  {
    hide Pow, Squared, PassesFrom, OddPart, Twos;
    PowNonneg(a, n - 1);
    OddAlready(n - 1);
    OneLook(Pow(a, n - 1) % n, n);
  }

  lemma OddAlready(m: nat)
    requires m % 2 == 1
    ensures OddPart(m) == m && Twos(m) == 0
  {
  }

  lemma OneLook(x: nat, n: nat)
    requires n > 1
    ensures PassesFrom(x, 0, n) <==> x == 1 || x == n - 1
  {
    SquaredNone(x, n);
    assert Max(0, 1) == 1;
    if x == n - 1 {
      var j: nat := 0;
      assert j < Max(0, 1) && Squared(x, j, n) == n - 1;
    }
    if j: nat :| j < Max(0, 1) && Squared(x, j, n) == n - 1 {
      assert j == 0;
    }
  }

  // ----- the witnesses

  /** They are the primes up to 37, in order. */
  lemma WitnessesAre(p: nat)
    ensures |WITNESSES| == 12 && (p in WITNESSES <==> IsPrime(p) && p <= 37)
    ensures forall i, j :: 0 <= i < j < 12 ==> WITNESSES[i] < WITNESSES[j]
  {
    if p in WITNESSES {
      var k :| 0 <= k < 12 && WITNESSES[k] == p;
      WitnessIsPrime(k);
    } else if p <= 37 {
      SmallComposite(p);
    }
  }

  /** Up to 53, what is no listed prime has a factor 2, 3, 5 or 7. */
  lemma SmallComposite(p: nat)
    requires p <= 53 && p !in [2, 3, 5, 7, 11, 13, 17, 19, 23, 29, 31, 37, 41, 43, 47, 53]
    ensures !IsPrime(p)
  {
    if p > 1 {
      assert p % 2 == 0 || p % 3 == 0 || p % 5 == 0 || p % 7 == 0;
      var d := if p % 2 == 0 then 2 else if p % 3 == 0 then 3 else if p % 5 == 0 then 5 else 7;
      assert Divides(d, p) && 1 < d < p;
    }
  }

  lemma WitnessIsPrime(k: nat)
    requires k < 12
    ensures IsPrime(WITNESSES[k])
  {
    TrialPrime(3);
    TrialPrime(5);
    TrialPrime(7);
    TrialPrime(11);
    TrialPrime(13);
    TrialPrime(17);
    TrialPrime(19);
    TrialPrime(23);
    TrialPrime(29);
    TrialPrime(31);
    TrialPrime(37);
  }
}
