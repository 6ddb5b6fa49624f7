/**
 Polynomials over the field, lowest coefficient first, and interpolation. A polynomial with at most n
 coefficients is determined by its values at n distinct points, and the Lagrange sum computes it.
 */
module Polynomials {
  import opened BinaryWords
  import opened BinaryField
  import opened FieldTables
  import opened SetFacts

  predicate Elements(b: nat, cs: seq<nat>) {
    forall i :: 0 <= i < |cs| ==> cs[i] < Size(b)
  }

  /** The value at x, by Horner's rule. */
  function Eval(b: nat, cs: seq<nat>, x: nat): (r: nat)
    requires ValidBits(b)
    ensures Elements(b, cs) && x < Size(b) ==> r < Size(b)
  {
    if cs == [] then 0 else
      var rest := Mul(b, x, Eval(b, cs[1..], x));
      assert Elements(b, cs) && x < Size(b) ==> Xor(cs[0], rest) < Size(b) by {
        if Elements(b, cs) && x < Size(b) { XorBound(cs[0], rest, b); }
      }
      Xor(cs[0], rest)
  }

  // ----- sums, multiples and products with x - r, on coefficients

  function Plus(cs: seq<nat>, ds: seq<nat>): (es: seq<nat>)
    ensures |es| == if |cs| < |ds| then |ds| else |cs|
  {
    if cs == [] then ds
    else if ds == [] then cs
    else [Xor(cs[0], ds[0])] + Plus(cs[1..], ds[1..])
  }

  function Scale(b: nat, k: nat, cs: seq<nat>): (es: seq<nat>)
    requires ValidBits(b)
    ensures |es| == |cs|
  {
    if cs == [] then [] else [Mul(b, k, cs[0])] + Scale(b, k, cs[1..])
  }

  /** (x - r) times cs; minus is exclusive-or. */
  function TimesRoot(b: nat, cs: seq<nat>, r: nat): (es: seq<nat>)
    requires ValidBits(b)
    ensures |es| <= |cs| + 1
  {
    Plus([0] + cs, Scale(b, r, cs))
  }

  lemma {:induction false} EvalPlus(b: nat, cs: seq<nat>, ds: seq<nat>, x: nat)
    requires ValidBits(b) && Elements(b, cs) && Elements(b, ds) && x < Size(b)
    ensures Elements(b, Plus(cs, ds))
    ensures Eval(b, Plus(cs, ds), x) == Xor(Eval(b, cs, x), Eval(b, ds, x))
  {
    hide Mul, Xor;
    if cs == [] {
      XorZero(Eval(b, ds, x));
    } else if ds == [] {
      XorZero(Eval(b, cs, x));
    } else {
      EvalPlus(b, cs[1..], ds[1..], x);
      XorBound(cs[0], ds[0], b);
      var u, v := Eval(b, cs[1..], x), Eval(b, ds[1..], x);
      MulXor(b, x, u, v);
      XorSwap(cs[0], ds[0], Mul(b, x, u), Mul(b, x, v));
      var es := Plus(cs, ds);
      assert es[0] == Xor(cs[0], ds[0]) && es[1..] == Plus(cs[1..], ds[1..]);
    }
  }

  lemma {:induction false} EvalScale(b: nat, k: nat, cs: seq<nat>, x: nat)
    requires ValidBits(b) && Elements(b, cs) && x < Size(b) && k < Size(b)
    ensures Elements(b, Scale(b, k, cs)) && Eval(b, Scale(b, k, cs), x) == Mul(b, k, Eval(b, cs, x))
  {
    hide Mul, Xor;
    if cs == [] {
      MulZero(b, k);
    } else {
      EvalScale(b, k, cs[1..], x);
      var u := Eval(b, cs[1..], x);
      MulXor(b, k, cs[0], Mul(b, x, u));
      MulAssoc(b, k, x, u);
      MulComm(b, k, x);
      MulAssoc(b, x, k, u);
      var es := Scale(b, k, cs);
      assert es[0] == Mul(b, k, cs[0]) && es[1..] == Scale(b, k, cs[1..]);
    }
  }

  lemma EvalTimesRoot(b: nat, cs: seq<nat>, r: nat, x: nat)
    requires ValidBits(b) && Elements(b, cs) && r < Size(b) && x < Size(b)
    ensures Elements(b, TimesRoot(b, cs, r)) && Xor(x, r) < Size(b)
    ensures Eval(b, TimesRoot(b, cs, r), x) == Mul(b, Xor(x, r), Eval(b, cs, x))
  {
    hide Mul, Xor;
    SizeFacts(b);
    var shifted := [0] + cs;
    assert shifted[1..] == cs;
    XorZero(Mul(b, x, Eval(b, cs, x)));
    EvalScale(b, r, cs, x);
    EvalPlus(b, shifted, Scale(b, r, cs), x);
    XorMul(b, x, r, Eval(b, cs, x));
  }

  // ----- a polynomial with fewer coefficients than roots is zero

  /** The quotient of cs by x - r. */
  function Quotient(b: nat, cs: seq<nat>, r: nat): (qs: seq<nat>)
    requires ValidBits(b) && cs != []
    ensures |qs| == |cs| - 1
    ensures Elements(b, cs) && r < Size(b) ==> Elements(b, qs)
  {
    if |cs| == 1 then [] else
      var rest := cs[1..];
      assert Elements(b, cs) ==> Elements(b, rest);
      [Eval(b, rest, r)] + Quotient(b, rest, r)
  }

  /** Division with remainder by x - r: the remainder is the value at r. */
  lemma {:induction false} Division(b: nat, cs: seq<nat>, r: nat, x: nat)
    requires ValidBits(b) && cs != [] && Elements(b, cs) && r < Size(b) && x < Size(b)
    ensures Xor(x, r) < Size(b)
    ensures Eval(b, cs, x) == Xor(Mul(b, Xor(x, r), Eval(b, Quotient(b, cs, r), x)), Eval(b, cs, r))
  {
    hide Mul, Xor;
    XorBound(x, r, b);
    if |cs| == 1 {
      MulZero(b, x);
      MulZero(b, r);
      MulZero(b, Xor(x, r));
      XorZero(Eval(b, cs, r));
    } else {
      var rest := cs[1..];
      Division(b, rest, r, x);
      var d, q, v := Xor(x, r), Eval(b, Quotient(b, rest, r), x), Eval(b, rest, r);
      var qs := Quotient(b, cs, r);
      assert qs[0] == v && qs[1..] == Quotient(b, rest, r);
      DivisionStep(b, cs[0], x, r, q, v);
    }
  }

  lemma DivisionStep(b: nat, c: nat, x: nat, r: nat, q: nat, v: nat)
    requires ValidBits(b) && c < Size(b) && x < Size(b) && r < Size(b) && q < Size(b) && v < Size(b)
    ensures var d := Xor(x, r);
      Xor(c, Mul(b, x, Xor(Mul(b, d, q), v))) == Xor(Mul(b, d, Xor(v, Mul(b, x, q))), Xor(c, Mul(b, r, v)))
  {
    hide Mul, Xor;
    XorBound(x, r, b);
    var d := Xor(x, r);
    var dq, dv, xv, rv := Mul(b, d, q), Mul(b, d, v), Mul(b, x, v), Mul(b, r, v);
    MulXor(b, x, dq, v);
    MulXor(b, d, v, Mul(b, x, q));
    MulAssoc(b, x, d, q);
    MulComm(b, x, d);
    MulAssoc(b, d, x, q);
    XorMul(b, x, r, v);
    var m := Mul(b, x, dq);
    // left: c + (m + xv); right: ((xv + rv) + m) + (c + rv)
    XorComm(xv, rv);
    XorComm(Xor(rv, xv), m);
    XorAssoc(m, rv, xv);
    XorComm(m, xv);
    XorComm(rv, xv);
    XorAssoc(m, xv, rv);
    XorComm(c, rv);
    XorAssoc(Xor(m, xv), rv, Xor(rv, c));
    XorCancel(rv, c);
    XorComm(Xor(m, xv), c);
  }

  /** As many distinct roots as coefficients: zero everywhere. */
  lemma {:induction false} ManyRoots(b: nat, cs: seq<nat>, xs: seq<nat>, at: nat)
    requires ValidBits(b) && Elements(b, cs) && Elements(b, xs) && at < Size(b)
    requires |cs| <= |xs| && Distinct(xs)
    requires forall i :: 0 <= i < |xs| ==> Eval(b, cs, xs[i]) == 0
    ensures Eval(b, cs, at) == 0
    decreases |cs|
  {
    hide Mul, Xor;
    if cs != [] {
      var r, rest, qs := xs[0], xs[1..], Quotient(b, cs, xs[0]);
      assert Eval(b, cs, r) == 0;
      forall i | 0 <= i < |rest| ensures Eval(b, qs, rest[i]) == 0 {
        assert rest[i] == xs[i + 1];
        RootOfQuotient(b, cs, r, rest[i]);
      }
      assert Distinct(rest) && Elements(b, rest);
      ManyRoots(b, qs, rest, at);
      Division(b, cs, r, at);
      MulZero(b, Xor(at, r));
      XorZero(0);
    }
  }

  lemma RootOfQuotient(b: nat, cs: seq<nat>, r: nat, x: nat)
    requires ValidBits(b) && cs != [] && Elements(b, cs) && r < Size(b) && x < Size(b) && x != r
    requires Eval(b, cs, r) == 0 && Eval(b, cs, x) == 0
    ensures Eval(b, Quotient(b, cs, r), x) == 0
  {
    hide Mul, Xor, Quotient, Eval;
    Division(b, cs, r, x);
    XorZero(Mul(b, Xor(x, r), Eval(b, Quotient(b, cs, r), x)));
    XorEqualZero(x, r);
    NoZeroDivisors(b, Xor(x, r), Eval(b, Quotient(b, cs, r), x));
  }

  /** Uniqueness of interpolation. */
  lemma Unique(b: nat, cs: seq<nat>, ds: seq<nat>, xs: seq<nat>, at: nat)
    requires ValidBits(b) && Elements(b, cs) && Elements(b, ds) && Elements(b, xs) && at < Size(b)
    requires |cs| <= |xs| && |ds| <= |xs| && Distinct(xs)
    requires forall i :: 0 <= i < |xs| ==> Eval(b, cs, xs[i]) == Eval(b, ds, xs[i])
    ensures Eval(b, cs, at) == Eval(b, ds, at)
  {
    hide Mul, Xor, Eval;
    EvalPlus(b, cs, ds, at);
    forall i | 0 <= i < |xs| ensures Eval(b, Plus(cs, ds), xs[i]) == 0 {
      EvalPlus(b, cs, ds, xs[i]);
      XorSelf(Eval(b, cs, xs[i]));
    }
    ManyRoots(b, Plus(cs, ds), xs, at);
    XorEqualZero(Eval(b, cs, at), Eval(b, ds, at));
  }

  // ----- the Lagrange sum

  /** The product of (at - xs[k]) / (xs[i] - xs[k]) over k < j, k != i. */
  ghost function Basis(b: nat, at: nat, xs: seq<nat>, i: nat, j: nat): (r: nat)
    requires ValidBits(b) && at < Size(b) && Elements(b, xs) && Distinct(xs) && i < |xs| && j <= |xs|
    ensures r < Size(b)
  {
    SizeFacts(b);
    if j == 0 then 1
    else if j - 1 == i then Basis(b, at, xs, i, j - 1)
    else Mul(b, Basis(b, at, xs, i, j - 1), Factor(b, at, xs[i], xs[j - 1]))
  }

  ghost function Factor(b: nat, at: nat, xi: nat, xk: nat): (r: nat)
    requires ValidBits(b) && at < Size(b) && xi < Size(b) && xk < Size(b) && xi != xk
    ensures r < Size(b)
  {
    XorBound(at, xk, b);
    XorBound(xi, xk, b);
    XorEqualZero(xi, xk);
    Over(b, Xor(at, xk), Xor(xi, xk))
  }

  /** The sum of ys[i] times the i-th basis product, over i < m. */
  ghost function Interpolant(b: nat, at: nat, xs: seq<nat>, ys: seq<nat>, m: nat): (r: nat)
    requires ValidBits(b) && at < Size(b) && Elements(b, xs) && Distinct(xs) && Elements(b, ys)
    requires m <= |xs| <= |ys|
    ensures r < Size(b)
  {
    SizeFacts(b);
    if m == 0 then 0 else
      var s := Interpolant(b, at, xs, ys, m - 1);
      var t := Mul(b, ys[m - 1], Basis(b, at, xs, m - 1, |xs|));
      XorBound(s, t, b);
      Xor(s, t)
  }

  // the same as polynomials in `at`

  ghost function BasisPoly(b: nat, xs: seq<nat>, i: nat, j: nat): (cs: seq<nat>)
    requires ValidBits(b) && Elements(b, xs) && Distinct(xs) && i < |xs| && j <= |xs|
    ensures |cs| <= if i < j then j else j + 1
  {
    if j == 0 then [1]
    else if j - 1 == i then BasisPoly(b, xs, i, j - 1)
    else
      XorBound(xs[i], xs[j - 1], b);
      XorEqualZero(xs[i], xs[j - 1]);
      Scale(b, Inverse(b, Xor(xs[i], xs[j - 1])), TimesRoot(b, BasisPoly(b, xs, i, j - 1), xs[j - 1]))
  }

  ghost function InterpolantPoly(b: nat, xs: seq<nat>, ys: seq<nat>, m: nat): (cs: seq<nat>)
    requires ValidBits(b) && Elements(b, xs) && Distinct(xs) && m <= |xs| <= |ys|
    ensures |cs| <= |xs|
  {
    if m == 0 then [] else
      Plus(InterpolantPoly(b, xs, ys, m - 1), Scale(b, ys[m - 1], BasisPoly(b, xs, m - 1, |xs|)))
  }

  lemma OverIsTimesInverse(b: nat, a: nat, c: nat)
    requires ValidBits(b) && a < Size(b) && 0 < c < Size(b)
    ensures Over(b, a, c) == Mul(b, Inverse(b, c), a)
  {
    hide Mul;
    MulAssoc(b, a, Inverse(b, c), c);
    MulComm(b, Inverse(b, c), c);
    MulOne(b, a);
    MulComm(b, a, Inverse(b, c));
    OverUnique(b, Mul(b, a, Inverse(b, c)), c);
  }

  lemma {:induction false} EvalBasis(b: nat, at: nat, xs: seq<nat>, i: nat, j: nat)
    requires ValidBits(b) && at < Size(b) && Elements(b, xs) && Distinct(xs) && i < |xs| && j <= |xs|
    ensures Elements(b, BasisPoly(b, xs, i, j))
    ensures Eval(b, BasisPoly(b, xs, i, j), at) == Basis(b, at, xs, i, j)
  {
    hide Mul, Xor, Over, Inverse;
    SizeFacts(b);
    if j == 0 {
      EvalConstant(b, 1, at);
    } else {
      EvalBasis(b, at, xs, i, j - 1);
      if j - 1 != i {
        EvalBasisStep(b, at, xs[i], xs[j - 1], BasisPoly(b, xs, i, j - 1));
      }
    }
  }

  lemma EvalBasisStep(b: nat, at: nat, xi: nat, xk: nat, p: seq<nat>)
    requires ValidBits(b) && at < Size(b) && xi < Size(b) && xk < Size(b) && xi != xk && Elements(b, p)
    ensures 0 < Xor(xi, xk) < Size(b)
    ensures var q := Scale(b, Inverse(b, Xor(xi, xk)), TimesRoot(b, p, xk));
      Elements(b, q) && Eval(b, q, at) == Mul(b, Eval(b, p, at), Factor(b, at, xi, xk))
  {
    hide Mul, Xor, Over, Inverse, TimesRoot, Scale, Eval;
    var d, u := Xor(xi, xk), Eval(b, p, at);
    XorBound(xi, xk, b);
    XorEqualZero(xi, xk);
    EvalTimesRoot(b, p, xk, at);
    EvalScale(b, Inverse(b, d), TimesRoot(b, p, xk), at);
    OverIsTimesInverse(b, Xor(at, xk), d);
    MulAssoc(b, Inverse(b, d), Xor(at, xk), u);
    MulComm(b, Factor(b, at, xi, xk), u);
  }

  lemma EvalConstant(b: nat, c: nat, x: nat)
    requires ValidBits(b)
    ensures Eval(b, [c], x) == c
  {
    hide Mul, Xor;
    MulZero(b, x);
    XorZero(c);
  }

  lemma {:induction false} EvalInterpolant(b: nat, at: nat, xs: seq<nat>, ys: seq<nat>, m: nat)
    requires ValidBits(b) && at < Size(b) && Elements(b, xs) && Distinct(xs) && Elements(b, ys)
    requires m <= |xs| <= |ys|
    ensures Elements(b, InterpolantPoly(b, xs, ys, m))
    ensures Eval(b, InterpolantPoly(b, xs, ys, m), at) == Interpolant(b, at, xs, ys, m)
  {
    hide Mul, Xor, Basis, BasisPoly;
    if m > 0 {
      EvalInterpolant(b, at, xs, ys, m - 1);
      EvalBasis(b, at, xs, m - 1, |xs|);
      var p := BasisPoly(b, xs, m - 1, |xs|);
      EvalScale(b, ys[m - 1], p, at);
      EvalPlus(b, InterpolantPoly(b, xs, ys, m - 1), Scale(b, ys[m - 1], p), at);
    }
  }

  /** At its own point a basis product is 1, at every other point 0. */
  lemma {:induction false} BasisAtPoint(b: nat, xs: seq<nat>, i: nat, k: nat, j: nat)
    requires ValidBits(b) && Elements(b, xs) && Distinct(xs) && i < |xs| && k < |xs| && j <= |xs|
    ensures i != k && k < j ==> Basis(b, xs[k], xs, i, j) == 0
    ensures i == k ==> Basis(b, xs[k], xs, i, j) == 1
  {
    hide Mul, Xor, Over;
    SizeFacts(b);
    if j > 0 {
      BasisAtPoint(b, xs, i, k, j - 1);
      var u := Basis(b, xs[k], xs, i, j - 1);
      if j - 1 != i {
        XorBound(xs[i], xs[j - 1], b);
        XorEqualZero(xs[i], xs[j - 1]);
        if i == k {
          MulOne(b, Xor(xs[i], xs[j - 1]));
          OverUnique(b, 1, Xor(xs[i], xs[j - 1]));
          MulOne(b, 1);
        } else if k == j - 1 {
          XorSelf(xs[k]);
          MulZero(b, Xor(xs[i], xs[k]));
          OverUnique(b, 0, Xor(xs[i], xs[k]));
          MulZero(b, u);
        } else if k < j {
          MulZero(b, Factor(b, xs[k], xs[i], xs[j - 1]));
        }
      }
    }
  }

  lemma {:induction false} InterpolantAtPoint(b: nat, xs: seq<nat>, ys: seq<nat>, k: nat, m: nat)
    requires ValidBits(b) && Elements(b, xs) && Distinct(xs) && Elements(b, ys)
    requires k < |xs| && m <= |xs| <= |ys|
    ensures Interpolant(b, xs[k], xs, ys, m) == if k < m then ys[k] else 0
  {
    hide Mul, Xor, Basis;
    if m > 0 {
      InterpolantAtPoint(b, xs, ys, k, m - 1);
      BasisAtPoint(b, xs, m - 1, k, |xs|);
      if k == m - 1 {
        MulOne(b, ys[k]);
        XorZero(ys[k]);
      } else {
        MulZero(b, ys[m - 1]);
        XorZero(if k < m then ys[k] else 0);
      }
    }
  }

  /** Interpolating the values of a polynomial with at most |xs| coefficients gives it back. */
  lemma Interpolates(b: nat, cs: seq<nat>, at: nat, xs: seq<nat>, ys: seq<nat>)
    requires ValidBits(b) && at < Size(b) && Elements(b, xs) && Distinct(xs) && Elements(b, cs)
    requires |cs| <= |xs| == |ys|
    requires forall i :: 0 <= i < |xs| ==> ys[i] == Eval(b, cs, xs[i])
    ensures Elements(b, ys) && Interpolant(b, at, xs, ys, |xs|) == Eval(b, cs, at)
  {
    hide Mul, Xor, Eval, InterpolantPoly, Interpolant, Distinct;
    var ds := InterpolantPoly(b, xs, ys, |xs|);
    EvalInterpolant(b, at, xs, ys, |xs|);
    forall i | 0 <= i < |xs| ensures Eval(b, cs, xs[i]) == Eval(b, ds, xs[i]) {
      EvalInterpolant(b, xs[i], xs, ys, |xs|);
      InterpolantAtPoint(b, xs, ys, i, |xs|);
    }
    Unique(b, cs, ds, xs, at);
  }
}
