/** Primality of odd numbers by trial division. */
module TrialDivisions {
  import opened NumberTheory

  /** No odd divisor from d up to the square root of n. */
  predicate TrialDivision(n: nat, d: nat)
    requires d > 0
    decreases n - d
  {
    d >= n || d * d > n || (n % d != 0 && TrialDivision(n, d + 2))
  }

  lemma TrialUnfold(n: nat, d: nat, e: nat)
    requires 0 < d <= e < n && e * e <= n && TrialDivision(n, d)
    ensures n % d != 0 && TrialDivision(n, d + 2)
  {
    SquareMono(d, e);
  }

  lemma {:induction false} TrialRange(n: nat, d: nat, e: nat)
    requires 0 < d <= e < n && e * e <= n && (e - d) % 2 == 0 && TrialDivision(n, d)
    ensures !Divides(e, n)
    decreases e - d
  {
    hide TrialDivision;
    TrialUnfold(n, d, e);
    if d < e {
      TrialRange(n, d + 2, e);
    }
  }

  lemma SquareMono(d: nat, e: nat)
    requires d <= e
    ensures d * d <= e * d <= e * e
  {
    MulMono(d, e, d);
    MulMono(d, e, e);
  }

  lemma OddFactor(d: nat, e: nat)
    requires (d * e) % 2 == 1
    ensures d % 2 == 1
  {
    if d % 2 == 0 {
      EvenProduct(d / 2, e);
    }
  }

  lemma EvenProduct(h: nat, e: nat)
    ensures (2 * h * e) % 2 == 0
  {
    MultipleMod(h * e, 2);
  }

  lemma TrialFactor(n: nat, d: nat, e: nat)
    requires n % 2 == 1 && TrialDivision(n, 3) && 1 < d <= e
    ensures n != d * e
  {
    hide TrialDivision;
    if n == d * e {
      OddFactor(d, e);
      SquareMono(d, e);
      MulMono(2, e, d);
      MultipleMod(e, d);
      TrialRange(n, 3, d);
    }
  }

  lemma TrialPrime(n: nat)
    requires n > 1 && n % 2 == 1 && TrialDivision(n, 3)
    ensures IsPrime(n)
  {
    forall d | 1 < d < n ensures !Divides(d, n) {
      if Divides(d, n) {
        var e := Quotient(d, n);
        if e <= 1 {
          MulMono(e, 1, d);
        } else if d <= e {
          TrialFactor(n, d, e);
        } else {
          TrialFactor(n, e, d);
        }
      }
    }
  }
}
