/**
 The field with 2^b elements as the secret sharing tables build it. `Step` is the shift-and-reduce
 of the table loop, `Exp` the sequence it runs through, and `Mul` the independent definition of the
 product: carry-less multiplication reduced by the polynomial.
 */
module BinaryField {
  import opened BinaryWords

  const POLYNOMIALS: seq<nat> :=
    [0, 0, 1, 3, 3, 5, 3, 3, 29, 17, 9, 5, 83, 27, 43, 3, 45, 9, 39, 39, 9]

  predicate ValidBits(b: nat) {
    3 <= b <= 20
  }

  function Size(b: nat): nat {
    Pow2(b)
  }

  /** The order of the multiplicative group, which is also the largest share number. */
  function Max(b: nat): nat {
    Pow2(b) - 1
  }

  /** The reduction polynomial, without its leading term. */
  function Poly(b: nat): (p: nat)
    requires ValidBits(b)
    ensures p % 2 == 1 && p < Size(b)
  {
    Pow2Mono(if b > 6 then 7 else 3, b);
    POLYNOMIALS[b]
  }

  lemma SizeFacts(b: nat)
    requires ValidBits(b)
    ensures Size(b) == 2 * Pow2(b - 1) && Size(b) >= 8
  {
    Pow2Mono(3, b);
  }

  lemma ModOne(x: nat, s: nat)
    requires s <= x < 2 * s
    ensures x % s == x - s
  {}

  /** One turn of the table loop: shift left, and reduce when bit b is reached. */
  function Step(b: nat, v: nat): (r: nat)
    requires ValidBits(b)
    ensures v < Size(b) ==> r < Size(b)
  {
    if 2 * v >= Size(b) then Xor(2 * v, Poly(b)) % Size(b) else 2 * v
  }

  /** The mask of the loop only clears bit b. */
  lemma StepCases(b: nat, v: nat)
    requires ValidBits(b) && v < Size(b)
    ensures Step(b, v) == if 2 * v < Size(b) then 2 * v else Xor(2 * v - Size(b), Poly(b))
  {
    hide Xor, Poly;
    if 2 * v >= Size(b) {
      XorTop(2 * v - Size(b), Poly(b), b);
      XorBound(2 * v - Size(b), Poly(b), b);
      ModOne(Xor(2 * v, Poly(b)), Size(b));
    }
  }

  lemma StepLinearMixed(b: nat, u: nat, v: nat)
    requires ValidBits(b) && 2 * u < Size(b) && v < Size(b) <= 2 * v
    ensures Xor(u, v) < Size(b) && Step(b, Xor(u, v)) == Xor(Step(b, u), Step(b, v))
  {
    hide Xor, Poly, Step, Pow2;
    var w := 2 * v - Size(b);
    XorHalves(2 * u, 2 * v);
    XorBound(u, v, b);
    XorComm(2 * u, 2 * v);
    XorTop(w, 2 * u, b);
    XorComm(w, 2 * u);
    StepCases(b, u);
    StepCases(b, v);
    StepCases(b, Xor(u, v));
    XorAssoc(2 * u, w, Poly(b));
  }

  lemma StepLinearHigh(b: nat, u: nat, v: nat)
    requires ValidBits(b) && u < Size(b) <= 2 * u && v < Size(b) <= 2 * v
    ensures Xor(u, v) < Size(b) && Step(b, Xor(u, v)) == Xor(Step(b, u), Step(b, v))
  {
    hide Xor, Poly, Step, Pow2;
    var s, p, x, y := Size(b), Poly(b), 2 * u - Size(b), 2 * v - Size(b);
    XorHalves(2 * u, 2 * v);
    XorBound(u, v, b);
    XorTops(x, y, b);
    XorBound(x, y, b);
    StepCases(b, Xor(u, v));
    StepCases(b, u);
    StepCases(b, v);
    XorSwap(x, p, y, p);
    XorSelf(p);
    XorZero(Xor(x, y));
  }

  /** The loop body commutes with exclusive-or. */
  lemma StepLinear(b: nat, u: nat, v: nat)
    requires ValidBits(b) && u < Size(b) && v < Size(b)
    ensures Xor(u, v) < Size(b) && Step(b, Xor(u, v)) == Xor(Step(b, u), Step(b, v))
  {
    hide Xor, Poly, Step, Pow2;
    if 2 * u < Size(b) && 2 * v < Size(b) {
      StepCases(b, u);
      StepCases(b, v);
      XorBound(u, v, b);
      XorHalves(2 * u, 2 * v);
      XorBound(2 * u, 2 * v, b);
      StepCases(b, Xor(u, v));
    } else if 2 * u < Size(b) {
      StepLinearMixed(b, u, v);
    } else if 2 * v < Size(b) {
      StepLinearMixed(b, v, u);
      XorComm(u, v);
      XorComm(Step(b, u), Step(b, v));
    } else {
      StepLinearHigh(b, u, v);
    }
  }

  lemma StepInjective(b: nat, u: nat, v: nat)
    requires ValidBits(b) && u < Size(b) && v < Size(b) && Step(b, u) == Step(b, v)
    ensures u == v
  {
    hide Xor, Poly, Step;
    var d := Xor(u, v);
    StepLinear(b, u, v);
    XorEqualZero(Step(b, u), Step(b, v));
    XorEqualZero(u, v);
    StepCases(b, d);
    if 2 * d >= Size(b) {
      XorEqualZero(2 * d - Size(b), Poly(b));
    }
  }

  /** m turns of the table loop. */
  function Steps(b: nat, m: nat, v: nat): (r: nat)
    requires ValidBits(b)
    ensures v < Size(b) ==> r < Size(b)
  {
    if m == 0 then v else Step(b, Steps(b, m - 1, v))
  }

  /** The content of exps_[i]: the loop variable after i turns, started at 1. */
  function Exp(b: nat, i: nat): (r: nat)
    requires ValidBits(b)
    ensures r < Size(b)
  {
    SizeFacts(b);
    Steps(b, i, 1)
  }

  lemma ExpZero(b: nat)
    requires ValidBits(b)
    ensures Exp(b, 0) == 1
  {}

  lemma {:induction false} StepsAdd(b: nat, m: nat, n: nat, v: nat)
    requires ValidBits(b)
    ensures Steps(b, m, Steps(b, n, v)) == Steps(b, m + n, v)
  {
    if m > 0 {
      StepsAdd(b, m - 1, n, v);
    }
  }

  lemma {:induction false} StepsLinear(b: nat, m: nat, u: nat, v: nat)
    requires ValidBits(b) && u < Size(b) && v < Size(b)
    ensures Xor(u, v) < Size(b) && Steps(b, m, Xor(u, v)) == Xor(Steps(b, m, u), Steps(b, m, v))
  {
    XorBound(u, v, b);
    if m > 0 {
      StepsLinear(b, m - 1, u, v);
      StepLinear(b, Steps(b, m - 1, u), Steps(b, m - 1, v));
    }
  }

  lemma {:induction false} StepsZero(b: nat, m: nat)
    requires ValidBits(b)
    ensures Steps(b, m, 0) == 0
  {
    SizeFacts(b);
    if m > 0 {
      StepsZero(b, m - 1);
    }
  }

  lemma {:induction false} StepsInjective(b: nat, m: nat, u: nat, v: nat)
    requires ValidBits(b) && u < Size(b) && v < Size(b) && Steps(b, m, u) == Steps(b, m, v)
    ensures u == v
  {
    if m > 0 {
      StepInjective(b, Steps(b, m - 1, u), Steps(b, m - 1, v));
      StepsInjective(b, m - 1, u, v);
    }
  }

  lemma ExpNonzero(b: nat, i: nat)
    requires ValidBits(b)
    ensures Exp(b, i) != 0
  {
    SizeFacts(b);
    StepsZero(b, i);
    if Exp(b, i) == 0 {
      StepsInjective(b, i, 1, 0);
    }
  }

  /** Carry-less product of a and c, modulo the polynomial: add a copy of a, shifted, per bit of c. */
  function Mul(b: nat, a: nat, c: nat): (r: nat)
    requires ValidBits(b)
    ensures a < Size(b) ==> r < Size(b)
    decreases c
  {
    if c == 0 then 0 else
      var rest := Mul(b, Step(b, a), c / 2);
      if c % 2 == 1 then
        assert a < Size(b) ==> Xor(a, rest) < Size(b) by {
          if a < Size(b) { XorBound(a, rest, b); }
        }
        Xor(a, rest)
      else rest
  }

  lemma StepsDouble(b: nat, m: nat, h: nat)
    requires ValidBits(b) && 2 * h < Size(b)
    ensures Steps(b, m + 1, h) == Steps(b, m, 2 * h)
  {
    hide Xor, Poly, Pow2;
    StepsAdd(b, m, 1, h);
    assert Steps(b, 0, h) == h;
  }

  lemma StepsOdd(b: nat, m: nat, h: nat)
    requires ValidBits(b) && 2 * h + 1 < Size(b)
    ensures Steps(b, m, 2 * h + 1) == Xor(Exp(b, m), Steps(b, m, 2 * h))
  {
    hide Poly, Pow2, Step, Steps;
    StepsLinear(b, m, 1, 2 * h);
    XorHalves(1, 2 * h);
    XorZero(h);
  }

  /** Multiplying by the m-th power is m turns of the loop. */
  lemma {:induction false} MulExp(b: nat, m: nat, c: nat)
    requires ValidBits(b) && c < Size(b)
    ensures Mul(b, Exp(b, m), c) == Steps(b, m, c)
    decreases c
  {
    hide Xor, Poly, Pow2, Step;
    StepsZero(b, m);
    if c > 0 {
      MulExp(b, m + 1, c / 2);
      StepsDouble(b, m, c / 2);
      if c % 2 == 1 {
        StepsOdd(b, m, c / 2);
      }
    }
  }

  lemma MulExpExp(b: nat, m: nat, n: nat)
    requires ValidBits(b)
    ensures Mul(b, Exp(b, m), Exp(b, n)) == Exp(b, m + n)
  {
    SizeFacts(b);
    MulExp(b, m, Exp(b, n));
    StepsAdd(b, m, n, 1);
  }
}
