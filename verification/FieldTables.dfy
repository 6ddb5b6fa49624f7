/**
 The logarithm table and the field laws. Everything here follows from one fact about the polynomials,
 that x generates the multiplicative group (`FullPeriod`).
 */
module FieldTables {
  import opened SetFacts
  import opened BinaryWords
  import opened BinaryField
  import opened MultiplicativeOrder
  import opened PrimitivePolynomials

  /** The table returns to 1 after 2^b - 1 steps, and not before. */
  lemma FullPeriod(b: nat)
    requires ValidBits(b)
    ensures Exp(b, Max(b)) == 1 && forall i :: 0 < i < Max(b) ==> Exp(b, i) != 1
  {
    AllPrimitive(b);
  }

  lemma ExpInjective(b: nat, i: nat, j: nat)
    requires ValidBits(b) && i < j < Max(b)
    ensures Exp(b, i) != Exp(b, j)
  {
    hide Step, Steps, Poly;
    FullPeriod(b);
    SizeFacts(b);
    if Exp(b, i) == Exp(b, j) {
      StepsAdd(b, i, j - i, 1);
      StepsInjective(b, i, 1, Exp(b, j - i));
    }
  }

  lemma NewValue(b: nat, m: nat)
    requires ValidBits(b) && m < Max(b)
    ensures forall i :: 0 <= i < m ==> Exp(b, i) != Exp(b, m)
  {
    forall i | 0 <= i < m ensures Exp(b, i) != Exp(b, m) {
      ExpInjective(b, i, m);
    }
  }

  /** The values exps_[0], ..., exps_[m-1]. */
  ghost function Visited(b: nat, m: nat): set<int>
    requires ValidBits(b)
  {
    set i: nat | 0 <= i < m :: Exp(b, i) as int
  }

  lemma {:induction false} VisitedSize(b: nat, m: nat)
    requires ValidBits(b) && m <= Max(b)
    ensures |Visited(b, m)| == m
  {
    hide Exp;
    if m == 0 {
      assert Visited(b, m) == {};
    } else {
      VisitedSize(b, m - 1);
      NewValue(b, m - 1);
      assert Visited(b, m) == Visited(b, m - 1) + {Exp(b, m - 1) as int};
    }
  }

  /** The powers of x reach every nonzero value. */
  lemma AllVisited(b: nat, a: nat)
    requires ValidBits(b) && 0 < a < Size(b)
    ensures exists i :: 0 <= i < Max(b) && a == Exp(b, i)
  {
    hide Exp;
    var s := Visited(b, Max(b));
    var t := Range(Size(b)) - {0};
    VisitedSize(b, Max(b));
    forall v | v in s ensures v in t {
      var i: nat :| i < Max(b) && v == Exp(b, i);
      ExpNonzero(b, i);
    }
    assert Range(Size(b)) == t + {0};
    SubsetSize(s, t);
    assert a as int in s;
  }

  /** The content of logs_[a]: the last turn at which the loop held a, counted from 1 to 2^b - 1. */
  ghost function Log(b: nat, a: nat): (i: nat)
    requires ValidBits(b) && 0 < a < Size(b)
    ensures 1 <= i <= Max(b) && Exp(b, i) == a
  {
    AllVisited(b, a);
    FullPeriod(b);
    var i :| 0 <= i < Max(b) && a == Exp(b, i);
    SizeFacts(b);
    if i == 0 then Max(b) else i
  }

  /** The logarithm of 1 is the full period, not 0. */
  lemma LogUnique(b: nat, i: nat)
    requires ValidBits(b) && 1 <= i <= Max(b)
    ensures 0 < Exp(b, i) < Size(b) && Log(b, Exp(b, i)) == i
  {
    hide Exp;
    FullPeriod(b);
    ExpNonzero(b, i);
    ExpZero(b);
    var j := Log(b, Exp(b, i));
    if i < j < Max(b) {
      ExpInjective(b, i, j);
    } else if j < i < Max(b) {
      ExpInjective(b, j, i);
    }
  }

  /** Exponents may be reduced modulo the period. */
  lemma ExpMod(b: nat, i: nat)
    requires ValidBits(b)
    ensures Max(b) > 0 && Exp(b, i % Max(b)) == Exp(b, i)
  {
    hide Steps;
    FullPeriod(b);
    SizeFacts(b);
    ExpReduce(b, i, Max(b));
  }

  lemma ExpReduce(b: nat, i: nat, n: nat)
    requires ValidBits(b) && n > 0 && Exp(b, n) == 1
    ensures Exp(b, i % n) == Exp(b, i)
  {
    hide Steps, Size, Max, Pow2, ValidBits;
    PeriodMultiple(b, n, i / n);
    assert i == i % n + i / n * n;
    StepsAdd(b, i % n, i / n * n, 1);
  }

  /** The product read from the tables: add the logarithms, reduce, look the sum up. */
  lemma TableProduct(b: nat, a: nat, c: nat)
    requires ValidBits(b) && 0 < a < Size(b) && 0 < c < Size(b)
    ensures Max(b) > 0 && Exp(b, (Log(b, a) + Log(b, c)) % Max(b)) == Mul(b, a, c)
  {
    hide Steps, Mul, Exp;
    MulExpExp(b, Log(b, a), Log(b, c));
    ExpMod(b, Log(b, a) + Log(b, c));
  }

  // ----- field laws

  lemma MulZero(b: nat, a: nat)
    requires ValidBits(b)
    ensures Mul(b, a, 0) == 0 && Mul(b, 0, a) == 0
  {
    StepsZero(b, 1);
    ZeroMul(b, a);
  }

  lemma {:induction false} ZeroMul(b: nat, a: nat)
    requires ValidBits(b)
    ensures Mul(b, 0, a) == 0
    decreases a
  {
    SizeFacts(b);
    XorZero(0);
    if a > 0 {
      ZeroMul(b, a / 2);
    }
  }

  lemma MulOne(b: nat, a: nat)
    requires ValidBits(b) && a < Size(b)
    ensures Mul(b, 1, a) == a && Mul(b, a, 1) == a
  {
    hide Mul, Step;
    MulExp(b, 0, a);
    ExpZero(b);
    SizeFacts(b);
    if ValidBits(b) {
      MulComm(b, a, 1);
    }
  }

  lemma MulComm(b: nat, a: nat, c: nat)
    requires ValidBits(b) && a < Size(b) && c < Size(b)
    ensures Mul(b, a, c) == Mul(b, c, a)
  {
    hide Mul, Exp;
    if a == 0 || c == 0 {
      MulZero(b, a);
      MulZero(b, c);
    } else {
      MulExpExp(b, Log(b, a), Log(b, c));
      MulExpExp(b, Log(b, c), Log(b, a));
    }
  }

  lemma MulAssoc(b: nat, a: nat, c: nat, d: nat)
    requires ValidBits(b) && a < Size(b) && c < Size(b) && d < Size(b)
    ensures Mul(b, Mul(b, a, c), d) == Mul(b, a, Mul(b, c, d))
  {
    hide Mul, Exp;
    SizeFacts(b);
    if a == 0 {
      MulZero(b, d);
      MulZero(b, c);
      MulZero(b, Mul(b, c, d));
    } else if c == 0 {
      MulZero(b, a);
      MulZero(b, d);
    } else if d == 0 {
      MulZero(b, a);
      MulZero(b, c);
      MulZero(b, Mul(b, a, c));
    } else {
      var i, j, k := Log(b, a), Log(b, c), Log(b, d);
      MulExpExp(b, i, j);
      MulExpExp(b, i + j, k);
      MulExpExp(b, j, k);
      MulExpExp(b, i, j + k);
    }
  }

  /** Multiplication distributes over exclusive-or: it is a linear loop run. */
  lemma MulXor(b: nat, a: nat, c: nat, d: nat)
    requires ValidBits(b) && a < Size(b) && c < Size(b) && d < Size(b)
    ensures Xor(c, d) < Size(b)
    ensures Mul(b, a, Xor(c, d)) == Xor(Mul(b, a, c), Mul(b, a, d))
  {
    hide Mul, Exp, Steps, Xor;
    XorBound(c, d, b);
    if a == 0 {
      MulZero(b, c);
      MulZero(b, d);
      MulZero(b, Xor(c, d));
      XorZero(0);
    } else {
      MulExp(b, Log(b, a), c);
      MulExp(b, Log(b, a), d);
      MulExp(b, Log(b, a), Xor(c, d));
      StepsLinear(b, Log(b, a), c, d);
    }
  }

  lemma XorMul(b: nat, a: nat, c: nat, d: nat)
    requires ValidBits(b) && a < Size(b) && c < Size(b) && d < Size(b)
    ensures Xor(a, c) < Size(b)
    ensures Mul(b, Xor(a, c), d) == Xor(Mul(b, a, d), Mul(b, c, d))
  {
    hide Mul, Exp, Steps, Xor;
    XorBound(a, c, b);
    MulXor(b, d, a, c);
    MulComm(b, d, a);
    MulComm(b, d, c);
    MulComm(b, d, Xor(a, c));
  }

  lemma InverseWorks(b: nat, a: nat)
    requires ValidBits(b) && 0 < a < Size(b)
    ensures var r := Exp(b, Max(b) - Log(b, a));
      0 < r < Size(b) && Mul(b, a, r) == 1
  {
    hide Mul, Exp;
    FullPeriod(b);
    MulExpExp(b, Log(b, a), Max(b) - Log(b, a));
    ExpNonzero(b, Max(b) - Log(b, a));
  }

  ghost function Inverse(b: nat, a: nat): (r: nat)
    requires ValidBits(b) && 0 < a < Size(b)
    ensures 0 < r < Size(b) && Mul(b, a, r) == 1
  {
    InverseWorks(b, a);
    Exp(b, Max(b) - Log(b, a))
  }

  lemma NoZeroDivisors(b: nat, a: nat, c: nat)
    requires ValidBits(b) && a < Size(b) && c < Size(b)
    ensures Mul(b, a, c) == 0 <==> a == 0 || c == 0
  {
    hide Mul, Exp;
    MulZero(b, a);
    MulZero(b, c);
    if a != 0 && c != 0 {
      MulExpExp(b, Log(b, a), Log(b, c));
      ExpNonzero(b, Log(b, a) + Log(b, c));
    }
  }

  ghost function Over(b: nat, a: nat, c: nat): (r: nat)
    requires ValidBits(b) && a < Size(b) && 0 < c < Size(b)
    ensures r < Size(b) && Mul(b, r, c) == a
  {
    var r := Mul(b, a, Inverse(b, c));
    MulAssoc(b, a, Inverse(b, c), c);
    MulComm(b, Inverse(b, c), c);
    SizeFacts(b);
    MulOne(b, a);
    r
  }

  lemma OverUnique(b: nat, r: nat, c: nat)
    requires ValidBits(b) && r < Size(b) && 0 < c < Size(b)
    ensures Over(b, Mul(b, r, c), c) == r
  {
    hide Mul, Xor;
    var s := Over(b, Mul(b, r, c), c);
    XorMul(b, r, s, c);
    XorEqualZero(Mul(b, r, c), Mul(b, s, c));
    XorEqualZero(r, s);
    NoZeroDivisors(b, Xor(r, s), c);
  }

  /** Division through the tables, on a running logarithm p. */
  lemma TableQuotient(b: nat, p: nat, a: nat, c: nat)
    requires ValidBits(b) && p <= Max(b) && 0 < a < Size(b) && 0 < c < Size(b)
    ensures Max(b) > 0 && p + Log(b, a) - Log(b, c) + Max(b) >= 0
    ensures Exp(b, (p + Log(b, a) - Log(b, c) + Max(b)) % Max(b)) == Mul(b, Exp(b, p), Over(b, a, c))
  {
    hide Mul, Exp, Steps;
    SizeFacts(b);
    var n := Max(b);
    var e := p + Log(b, a) - Log(b, c) + n;
    ExpMod(b, e);
    var q := Log(b, a) + (n - Log(b, c));
    MulExpExp(b, p, q);
    MulExpExp(b, q, Log(b, c));
    StepsAdd(b, Log(b, a), n, 1);
    ExpPeriod(b, Log(b, a));
    OverUnique(b, Exp(b, q), c);
  }

  lemma ExpPeriod(b: nat, i: nat)
    requires ValidBits(b)
    ensures Exp(b, i + Max(b)) == Exp(b, i)
  {
    hide Steps;
    FullPeriod(b);
    StepsAdd(b, i, Max(b), 1);
  }
}
