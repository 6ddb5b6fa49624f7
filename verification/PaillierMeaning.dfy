/** What the parts of a key and the operations on ciphertexts are, in arithmetic. */
module PaillierMeaning {
  import opened NumberTheory
  import opened Paillier
  import opened PaillierScheme
  import opened SetFacts
  import opened Wrappers

  // ----- keys

  /** Lambda is the least common multiple of p - 1 and q - 1: a multiple of both that divides every other. */
  lemma LambdaLeast(p: nat, q: nat, k: nat)
    requires p > 1 && q > 1
    ensures Lambda(p, q) > 0 && Divides(p - 1, Lambda(p, q)) && Divides(q - 1, Lambda(p, q))
    ensures Divides(p - 1, k) && Divides(q - 1, k) ==> Divides(Lambda(p, q), k)
  {
    hide Lambda;
    LambdaMultiple(p, q);
    if Divides(p - 1, k) && Divides(q - 1, k) {
      var (g, x, y) := ExtGcd(p - 1, q - 1);
      var s := Quotient(p - 1, k);
      var t := Quotient(q - 1, k);
      CommonMultiple(p - 1, q - 1, g, x, y, s, t, k, Lambda(p, q));
      MultipleMod(t * x + s * y, Lambda(p, q));
    }
  }

  lemma CommonMultiple(a: int, b: int, g: int, x: int, y: int, s: int, t: int, k: int, l: int)
    requires g > 0 && g == a * x + b * y && k == a * s && k == b * t && a * b == l * g
    ensures k == (t * x + s * y) * l
  {
    var u := t * x + s * y;
    assert k * (a * x) == (a * b) * (t * x) by {
      assert (b * t) * (a * x) == (a * b) * (t * x);
    }
    assert k * (b * y) == (a * b) * (s * y) by {
      assert (a * s) * (b * y) == (a * b) * (s * y);
    }
    assert k * g == k * (a * x) + k * (b * y);
    assert (a * b) * u == (a * b) * (t * x) + (a * b) * (s * y);
    assert k * g == (u * l) * g by {
      assert (l * g) * u == (u * l) * g;
    }
    CancelRight(k, u * l, g);
  }

  lemma CancelRight(a: int, b: int, g: int)
    requires g > 0 && a * g == b * g
    ensures a == b
  {
    assert (a - b) * g == 0;
  }

  /** Mu is the inverse of lambda modulo n, and 0 if there is none. */
  lemma MuMeans(n: nat, lambda: nat)
    requires n > 1
    ensures Gcd(lambda % n, n) == 1 ==> Mu(n, lambda) < n && ((lambda % n) * Mu(n, lambda)) % n == 1
    ensures Gcd(lambda % n, n) != 1 ==> Mu(n, lambda) == 0
  {
    hide Residue, Gcd;
    ResidueOfG(n, lambda);
  }

  // ----- operations

  /** Under the generator n + 1, the ciphertext of m is 1 + mn times the n-th power of the random number. */
  lemma CiphertextIs(n: nat, m: nat, r: nat)
    requires n > 0
    ensures n * n > 0 && Encrypted(n, n + 1, m, r) == ((1 + m * n) * Pow(r, n)) % (n * n)
  {
    MulMono(1, n, n);
    PowSign(n + 1, m);
    PowSign(r, n);
    Binomial(1, n, m);
    CongSame(Pow(n + 1, m), 1 + m * n, n * n);
    ProductOfMods(Pow(n + 1, m), Pow(r, n), 1 + m * n, n * n);
  }

  lemma ProductOfMods(a: int, b: int, c: int, m: int)
    requires m > 0 && a % m == c % m
    ensures ((a % m) * (b % m)) % m == (c * b) % m
  {
    CongMod(b, m);
    CongMod(c, m);
    CongMul(a % m, c, b % m, b, m);
    CongSame((a % m) * (b % m), c * b, m);
  }

  /** Decryption takes what stands above 1 in the power of the ciphertext, in whole n, times mu. */
  lemma PlaintextIs(n: nat, lambda: nat, mu: nat, c: nat, above: nat, rest: nat)
    requires n > 0 && rest < n && n * n > 0 && Pow(c, lambda) % (n * n) == 1 + above * n + rest
    ensures above * mu >= 0 && Decrypted(n, lambda, mu, c) == above * mu % n
  {
    hide Pow;
    MulMono(0, above, mu);
    DivisionUnique(above * n + rest, n, above, rest);
    MulMono(0, above, n);
  }

  /** And it is 0 if that power is. */
  lemma NothingAbove(n: nat, lambda: nat, mu: nat, c: nat)
    requires n > 0 && n * n > 0 && Pow(c, lambda) % (n * n) == 0
    ensures Decrypted(n, lambda, mu, c) == 0
  {
    hide Pow;
  }

  function Times(cs: seq<nat>): nat {
    if cs == [] then 1 else
      MulMono(0, cs[0], Times(cs[1..]));
      cs[0] * Times(cs[1..])
  }

  lemma {:induction false} TimesLast(cs: seq<nat>)
    requires cs != []
    ensures Times(cs) == Times(cs[..|cs| - 1]) * cs[|cs| - 1]
  {
    if |cs| > 1 {
      TimesLast(cs[1..]);
      assert cs[1..][..|cs| - 2] == cs[..|cs| - 1][1..];
      Regroup3(cs[0], Times(cs[1..][..|cs| - 2]), cs[|cs| - 1]);
    }
  }

  lemma Regroup3(a: int, b: int, c: int)
    ensures a * (b * c) == (a * b) * c
  {
  }

  /** Addition multiplies all the ciphertexts. */
  lemma {:induction false} SumIsProduct(cs: seq<nat>, m: nat)
    requires m > 1
    ensures ProductMod(cs, m) == Times(cs) % m
  {
    if cs != [] {
      var front, c := cs[..|cs| - 1], cs[|cs| - 1];
      SumIsProduct(front, m);
      TimesLast(cs);
      CongMod(Times(front), m);
      CongMul(Times(front) % m, Times(front), c, c, m);
      CongSame((Times(front) % m) * c, Times(front) * c, m);
    }
  }

  lemma ShiftStep(x: int, c: int, s: int, t: int, m: int)
    requires m > 0 && Cong(x, c * s, m)
    ensures (x * (t % m)) % m == (c * (s * t)) % m
  {
    CongMod(t, m);
    CongMul(x, c * s, t % m, t, m);
    CongSame(x * (t % m), (c * s) * t, m);
    Regroup3(c, s, t);
  }

  lemma {:induction false} ShiftCong(n: nat, g: nat, c: nat, ms: seq<nat>)
    requires n > 0
    ensures n * n > 0 && Cong(Shifted(n, g, c, ms), c * Pow(g, Sum(ms)), n * n)
    ensures ms != [] ==> Shifted(n, g, c, ms) == (c * Pow(g, Sum(ms))) % (n * n)
  {
    hide Pow;
    MulMono(1, n, n);
    if ms == [] {
      NoPower(g);
      CongIntro(c, c, 0, n * n);
    } else {
      var front, last := ms[..|ms| - 1], ms[|ms| - 1];
      ShiftCong(n, g, c, front);
      PowAdd(g, Sum(front), last);
      ShiftStep(Shifted(n, g, c, front), c, Pow(g, Sum(front)), Pow(g, last), n * n);
      CongMod(c * Pow(g, Sum(ms)), n * n);
    }
  }

  lemma NoPower(g: int)
    ensures Pow(g, 0) == 1
  {
  }

  /** Adding plaintexts multiplies by the generator to the power of their sum. */
  lemma ShiftIsPower(n: nat, g: nat, c: nat, ms: seq<nat>)
    requires n > 0 && ms != []
    ensures n * n > 0 && Shifted(n, g, c, ms) == (c * Pow(g, Sum(ms))) % (n * n)
  {
    hide Shifted, Pow, Sum;
    ShiftCong(n, g, c, ms);
  }
}
