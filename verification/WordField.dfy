/**
 The field of BinaryField computed on 32-bit words, as uint32_t code would: the word operations are
 proved to agree with the number-level definitions, so that powers of x can be computed.
 */
module WordField {
  import opened BinaryWords
  import opened BinaryField

  predicate Odd(v: bv32) {
    v & 1 == 1
  }

  function Half(v: bv32): bv32 {
    v >> 1
  }

  function XorW(u: bv32, v: bv32): bv32 {
    u ^ v
  }

  /** The number a word stands for. */
  function ToNat(v: bv32): nat
    decreases v
  {
    if v == 0 then 0 else 2 * ToNat(Half(v)) + (if Odd(v) then 1 else 0)
  }

  lemma ToNatHalves(v: bv32)
    ensures ToNat(v) == 2 * ToNat(Half(v)) + (if Odd(v) then 1 else 0)
  {}

  lemma ToNatSmall(v: bv32)
    ensures ToNat(v) == 0 <==> v == 0
    ensures ToNat(v) == 1 <==> v == 1
    decreases v
  {
    if v != 0 {
      assert !Odd(v) || v != 1 ==> Half(v) != 0;
      ToNatSmall(Half(v));
    }
  }

  lemma XorWHalves(u: bv32, v: bv32)
    ensures Half(XorW(u, v)) == XorW(Half(u), Half(v))
    ensures Odd(XorW(u, v)) <==> (Odd(u) != Odd(v))
  {}

  lemma XorUnfold(a: nat, b: nat, x: bool, y: bool)
    ensures Xor(2 * a + (if x then 1 else 0), 2 * b + (if y then 1 else 0))
         == 2 * Xor(a, b) + (if x != y then 1 else 0)
  {
    assert (2 * a + (if x then 1 else 0)) / 2 == a;
    assert (2 * b + (if y then 1 else 0)) / 2 == b;
  }

  lemma WordXorZero()
    ensures ToNat(XorW(0, 0)) == Xor(ToNat(0), ToNat(0))
  {}

  lemma HalfSmaller(v: bv32)
    ensures Half(v) < v || v == Half(v) == 0
  {}

  /** The word operator agrees with the bit-by-bit definition. */
  lemma {:induction false} WordXor(u: bv32, v: bv32)
    ensures ToNat(XorW(u, v)) == Xor(ToNat(u), ToNat(v))
    decreases u, v
  {
    hide Xor, XorW, Half, Odd, ToNat;
    XorWHalves(u, v);
    ToNatHalves(u);
    ToNatHalves(v);
    ToNatHalves(XorW(u, v));
    if u == 0 && v == 0 {
      WordXorZero();
    } else {
      HalfSmaller(u);
      HalfSmaller(v);
      WordXor(Half(u), Half(v));
      XorUnfold(ToNat(Half(u)), ToNat(Half(v)), Odd(u), Odd(v));
    }
  }

  /** The word with bit b alone set. */
  predicate IsTop(top: bv32, b: nat) {
    if b == 0 then top == 1 else !Odd(top) && IsTop(Half(top), b - 1)
  }

  lemma {:induction false} TopValue(top: bv32, b: nat)
    requires IsTop(top, b)
    ensures ToNat(top) == Pow2(b)
    decreases b
  {
    hide ToNat, Half, Odd;
    ToNatHalves(top);
    ToNatSmall(top);
    if b > 0 {
      TopValue(Half(top), b - 1);
    }
  }

  lemma HalfBelow(v: bv32, top: bv32)
    requires v < top
    ensures !Odd(top) ==> Half(v) < Half(top)
    ensures top == 1 ==> v == 0
  {}

  lemma {:induction false} BelowTop(v: bv32, top: bv32, b: nat)
    requires IsTop(top, b) && v < top
    ensures ToNat(v) < Pow2(b)
    decreases b
  {
    hide ToNat, Half, Odd;
    ToNatHalves(v);
    ToNatSmall(v);
    HalfBelow(v, top);
    if b > 0 {
      BelowTop(Half(v), Half(top), b - 1);
    }
  }

  lemma MaskHalves(v: bv32, top: bv32)
    ensures !Odd(top) ==> (v & top == 0 <==> Half(v) & Half(top) == 0)
    ensures top == 1 ==> (v & top == 0 <==> !Odd(v))
  {}

  lemma {:induction false} BitTest(v: bv32, top: bv32, b: nat)
    requires IsTop(top, b) && ToNat(v) < 2 * Pow2(b)
    ensures v & top == 0 <==> ToNat(v) < Pow2(b)
    decreases b
  {
    hide ToNat, Half, Odd;
    ToNatHalves(v);
    MaskHalves(v, top);
    if b > 0 {
      BitTest(Half(v), Half(top), b - 1);
    }
  }

  lemma TopSingleStep(top: bv32)
    requires !Odd(top) && Half(top) & (Half(top) - 1) == 0 && Half(top) != 0
    ensures top & (top - 1) == 0 && top != 0
  {}

  lemma {:induction false} TopSingle(top: bv32, b: nat)
    requires IsTop(top, b)
    ensures top & (top - 1) == 0 && top != 0
    decreases b
  {
    hide Half, Odd;
    if b > 0 {
      TopSingle(Half(top), b - 1);
      TopSingleStep(top);
    }
  }

  /** Words that describe the field with 2^b elements. */
  ghost predicate Words(b: nat, top: bv32, poly: bv32) {
    ValidBits(b) && IsTop(top, b) && top <= 0x10_0000 && poly < top && ToNat(poly) == Poly(b)
  }

  function StepW(top: bv32, poly: bv32, v: bv32): bv32 {
    if (v << 1) & top == 0 then v << 1 else ((v << 1) ^ top) ^ poly
  }

  lemma StepWBound(top: bv32, poly: bv32, v: bv32)
    requires top & (top - 1) == 0 && 0 < top <= 0x10_0000 && poly < top && v < top
    ensures StepW(top, poly, v) < top
    ensures Half(v << 1) == v && !Odd(v << 1)
  {}

  lemma StepWCases(top: bv32, poly: bv32, v: bv32)
    ensures StepW(top, poly, v) == if (v << 1) & top == 0 then v << 1 else XorW(XorW(v << 1, top), poly)
  {}

  lemma StepWordHigh(b: nat, top: bv32, poly: bv32, x: bv32, v: nat)
    requires ValidBits(b) && ToNat(top) == Size(b) && ToNat(poly) == Poly(b)
    requires ToNat(x) == 2 * v && v < Size(b) <= 2 * v
    ensures ToNat(XorW(XorW(x, top), poly)) == Step(b, v)
  {
    hide Step, Xor, XorW, Pow2, Poly, ToNat;
    WordXor(XorW(x, top), poly);
    WordXor(x, top);
    StepCases(b, v);
    XorTops(2 * v - Size(b), 0, b);
    XorZero(2 * v - Size(b));
  }

  /** v is a field element: it has no bit at or above the top one. */
  predicate Fits(v: bv32, top: bv32) {
    v < top
  }

  /** One loop turn on words. */
  lemma StepWord(b: nat, top: bv32, poly: bv32, v: bv32)
    requires Words(b, top, poly) && Fits(v, top)
    ensures Fits(StepW(top, poly, v), top)
    ensures ToNat(StepW(top, poly, v)) == Step(b, ToNat(v))
  {
    hide Step, Xor, XorW, Pow2, Poly, ToNat, Half, Odd, IsTop;
    TopSingle(top, b);
    StepWBound(top, poly, v);
    StepWCases(top, poly, v);
    ToNatHalves(v << 1);
    BelowTop(v, top, b);
    BitTest(v << 1, top, b);
    TopValue(top, b);
    StepCases(b, ToNat(v));
    if (v << 1) & top != 0 {
      StepWordHigh(b, top, poly, v << 1, ToNat(v));
    }
  }

  // ----- squaring: the bits of v spread out, from the top bit down

  /** The square of v, reduced: shift twice for every bit, then add the bit. */
  function Square(b: nat, v: nat): (r: nat)
    requires ValidBits(b)
    ensures r < Size(b)
  {
    if v == 0 then 0 else
      var r := Step(b, Step(b, Square(b, v / 2)));
      SizeFacts(b);
      XorBound(r, v % 2, b);
      Xor(r, v % 2)
  }

  lemma SquareUnfold(b: nat, h: nat, odd: bool)
    requires ValidBits(b)
    ensures Square(b, 2 * h + (if odd then 1 else 0))
         == Xor(Step(b, Step(b, Square(b, h))), if odd then 1 else 0)
    ensures Square(b, 0) == 0
  {
    hide Step, Xor;
    var v := 2 * h + (if odd then 1 else 0);
    assert v / 2 == h && v % 2 == if odd then 1 else 0;
    if v == 0 {
      StepCases(b, 0);
      XorZero(0);
    }
  }

  lemma {:induction false} SquareLinear(b: nat, u: nat, v: nat)
    requires ValidBits(b)
    ensures Square(b, Xor(u, v)) == Xor(Square(b, u), Square(b, v))
    decreases u + v
  {
    hide Step, Poly, Pow2, Square, Xor;
    if u != 0 || v != 0 {
      SquareLinear(b, u / 2, v / 2);
      SquareLinearStep(b, u / 2, v / 2, u % 2 == 1, v % 2 == 1);
    } else {
      XorZero(0);
      SquareUnfold(b, 0, false);
    }
  }

  lemma SquareLinearStep(b: nat, g: nat, h: nat, x: bool, y: bool)
    requires ValidBits(b) && Square(b, Xor(g, h)) == Xor(Square(b, g), Square(b, h))
    ensures var u, v := 2 * g + (if x then 1 else 0), 2 * h + (if y then 1 else 0);
      Square(b, Xor(u, v)) == Xor(Square(b, u), Square(b, v))
  {
    hide Step, Poly, Pow2, Square, Xor;
    SquareUnfold(b, g, x);
    SquareUnfold(b, h, y);
    SquareUnfold(b, Xor(g, h), x != y);
    XorUnfold(g, h, x, y);
    StepLinear(b, Square(b, g), Square(b, h));
    StepLinear(b, Step(b, Square(b, g)), Step(b, Square(b, h)));
    var p, q := Step(b, Step(b, Square(b, g))), Step(b, Step(b, Square(b, h)));
    XorSwap(p, if x then 1 else 0, q, if y then 1 else 0);
    BitSum(x, y);
  }

  lemma BitSum(x: bool, y: bool)
    ensures Xor(if x then 1 else 0, if y then 1 else 0) == if x != y then 1 else 0
  {
    XorZero(1);
    XorZero(0);
    XorSelf(1);
  }

  lemma {:induction false} SquareTop(b: nat, k: nat)
    requires ValidBits(b)
    ensures Square(b, Pow2(k)) == Exp(b, 2 * k)
  {
    hide Step, Xor, Poly;
    if k == 0 {
      SquareUnfold(b, 0, true);
      StepCases(b, 0);
      XorZero(1);
      ExpZero(b);
    } else {
      SquareTop(b, k - 1);
      SquareUnfold(b, Pow2(k - 1), false);
      XorZero(Step(b, Step(b, Square(b, Pow2(k - 1)))));
      StepsAdd(b, 2, 2 * k - 2, 1);
      StepsTwo(b, Exp(b, 2 * k - 2));
    }
  }

  lemma StepsTwo(b: nat, v: nat)
    requires ValidBits(b)
    ensures Steps(b, 2, v) == Step(b, Step(b, v))
  {
    assert Steps(b, 1, v) == Step(b, Steps(b, 0, v));
  }

  /** Squaring respects the reduction, as soon as it does so for the polynomial itself. */
  lemma SquareStep(b: nat, v: nat)
    requires ValidBits(b) && v < Size(b) && Square(b, Poly(b)) == Exp(b, 2 * b)
    ensures Square(b, Step(b, v)) == Step(b, Step(b, Square(b, v)))
  {
    hide Step, Xor, Poly, Square, Exp;
    SquareUnfold(b, v, false);
    XorZero(Step(b, Step(b, Square(b, v))));
    StepCases(b, v);
    if 2 * v >= Size(b) {
      var y := 2 * v - Size(b);
      SquareLinear(b, y, Poly(b));
      SquareLinear(b, Size(b), y);
      XorTop(0, y, b);
      XorZero(y);
      SquareTop(b, b);
      XorComm(Square(b, Poly(b)), Square(b, y));
    }
  }

  lemma {:induction false} SquareExp(b: nat, k: nat)
    requires ValidBits(b) && Square(b, Poly(b)) == Exp(b, 2 * b)
    ensures Square(b, Exp(b, k)) == Exp(b, 2 * k)
  {
    hide Step, Xor, Poly, Square;
    if k == 0 {
      SquareTop(b, 0);
      ExpZero(b);
    } else {
      SquareExp(b, k - 1);
      SquareStep(b, Exp(b, k - 1));
      StepsAdd(b, 2, 2 * k - 2, 1);
      StepsTwo(b, Exp(b, 2 * k - 2));
      ExpNext(b, k - 1);
    }
  }

  lemma ExpNext(b: nat, k: nat)
    requires ValidBits(b)
    ensures Exp(b, k + 1) == Step(b, Exp(b, k))
  {}

  // ----- squaring is linear, so the squares of single bits are enough

  /** Squares of 1, x, x^2, ..., x^20. */
  datatype Columns = Columns(
    e0: bv32, e1: bv32, e2: bv32, e3: bv32, e4: bv32,
    e5: bv32, e6: bv32, e7: bv32, e8: bv32, e9: bv32,
    e10: bv32, e11: bv32, e12: bv32, e13: bv32, e14: bv32,
    e15: bv32, e16: bv32, e17: bv32, e18: bv32, e19: bv32, e20: bv32)

  datatype List = Nil | Cons(head: bv32, tail: List)

  function Length(es: List): nat {
    match es case Nil => 0 case Cons(_, tail) => 1 + Length(tail)
  }

  function Front(e0: bv32, e1: bv32, e2: bv32, e3: bv32, e4: bv32, es: List): List {
    Cons(e0, Cons(e1, Cons(e2, Cons(e3, Cons(e4, es)))))
  }

  function Listed(c: Columns): List {
    Front(c.e0, c.e1, c.e2, c.e3, c.e4, Front(c.e5, c.e6, c.e7, c.e8, c.e9,
      Front(c.e10, c.e11, c.e12, c.e13, c.e14, Front(c.e15, c.e16, c.e17, c.e18, c.e19, Nil))))
  }

  /** Consecutive entries are the squares of consecutive powers, from the m-th on. */
  ghost predicate SquaresFrom(b: nat, es: List, m: nat)
    requires ValidBits(b)
  {
    es.Nil? || (ToNat(es.head) == Exp(b, 2 * m) && SquaresFrom(b, es.tail, m + 1))
  }

  function Select(bit: bool, e: bv32): bv32 {
    if bit then e else 0
  }

  /** The sum of the columns selected by the bits of v. */
  function Sum(acc: bv32, es: List, v: bv32): bv32
    decreases es
  {
    if es.Nil? then acc else Sum(XorW(acc, Select(Odd(v), es.head)), es.tail, Half(v))
  }

  lemma SelectWord(bit: bool, e: bv32)
    ensures ToNat(Select(bit, e)) == if bit then ToNat(e) else 0
  {
    hide ToNat;
    ToNatSmall(0);
  }

  lemma {:induction false} SumSquare(b: nat, acc: bv32, es: List, m: nat, v: bv32)
    requires ValidBits(b) && SquaresFrom(b, es, m) && ToNat(v) < Pow2(Length(es))
    ensures ToNat(Sum(acc, es, v)) == Xor(ToNat(acc), Steps(b, 2 * m, Square(b, ToNat(v))))
    decreases es
  {
    hide ToNat, XorW, Select, Half, Odd, Square, Exp, Steps, Step, Xor, Poly;
    if es.Nil? {
      SquareUnfold(b, 0, false);
      StepsZero(b, 2 * m);
      XorZero(ToNat(acc));
    } else {
      ToNatHalves(v);
      var e := Select(Odd(v), es.head);
      SelectWord(Odd(v), es.head);
      WordXor(acc, e);
      SumSquare(b, XorW(acc, e), es.tail, m + 1, Half(v));
      SumSquareStep(b, m, ToNat(Half(v)), Odd(v));
      XorAssoc(ToNat(acc), ToNat(e), Steps(b, 2 * (m + 1), Square(b, ToNat(Half(v)))));
    }
  }

  lemma SumSquareStep(b: nat, m: nat, h: nat, odd: bool)
    requires ValidBits(b)
    ensures Xor(if odd then Exp(b, 2 * m) else 0, Steps(b, 2 * (m + 1), Square(b, h)))
         == Steps(b, 2 * m, Square(b, 2 * h + (if odd then 1 else 0)))
  {
    hide Square, Steps, Step, Xor, Poly;
    var q := Square(b, h);
    SquareUnfold(b, h, odd);
    StepsAdd(b, 2 * m, 2, q);
    StepsTwo(b, q);
    var r := Step(b, Step(b, q));
    var bit := if odd then 1 else 0;
    SizeFacts(b);
    StepsLinear(b, 2 * m, bit, r);
    StepsZero(b, 2 * m);
    XorComm(r, bit);
  }

  /** e or 0, by the low bit of u. */
  function Masked(u: bv32, e: bv32): bv32 {
    (u & 1) * e
  }

  /**
   acc plus the columns e0 to e4 selected by the low bits of u0 to u4, in a form that is quick to
   compute.
   */
  function Five(acc: bv32, e0: bv32, e1: bv32, e2: bv32, e3: bv32, e4: bv32,
                u0: bv32, u1: bv32, u2: bv32, u3: bv32, u4: bv32): bv32 {
    XorW(XorW(XorW(XorW(XorW(acc, Masked(u0, e0)), Masked(u1, e1)), Masked(u2, e2)), Masked(u3, e3)), Masked(u4, e4))
  }

  lemma ProductSelects(e: bv32, u: bv32)
    ensures Masked(u, e) == Select(Odd(u), e)
  {
    if u & 1 == 1 {
    } else {
      assert u & 1 == 0;
    }
  }

  lemma FiveSum(acc: bv32, e0: bv32, e1: bv32, e2: bv32, e3: bv32, e4: bv32,
                u0: bv32, u1: bv32, u2: bv32, u3: bv32, u4: bv32)
    ensures Five(acc, e0, e1, e2, e3, e4, u0, u1, u2, u3, u4)
      == XorW(XorW(XorW(XorW(XorW(acc, Select(Odd(u0), e0)), Select(Odd(u1), e1)), Select(Odd(u2), e2)),
        Select(Odd(u3), e3)), Select(Odd(u4), e4))
  {
    hide XorW, Select, Odd, Masked;
    ProductSelects(e0, u0);
    ProductSelects(e1, u1);
    ProductSelects(e2, u2);
    ProductSelects(e3, u3);
    ProductSelects(e4, u4);
  }

  /** The same sum for twenty columns, without recursion. */
  function Spread(c: Columns, v: bv32): bv32 {
    Five(Five(Five(Five(0,
      c.e0, c.e1, c.e2, c.e3, c.e4, v, v >> 1, v >> 2, v >> 3, v >> 4),
      c.e5, c.e6, c.e7, c.e8, c.e9, v >> 5, v >> 6, v >> 7, v >> 8, v >> 9),
      c.e10, c.e11, c.e12, c.e13, c.e14, v >> 10, v >> 11, v >> 12, v >> 13, v >> 14),
      c.e15, c.e16, c.e17, c.e18, c.e19, v >> 15, v >> 16, v >> 17, v >> 18, v >> 19)
  }

  lemma SumOne(acc: bv32, es: List, v: bv32)
    requires es.Cons?
    ensures Sum(acc, es, v) == Sum(XorW(acc, Select(Odd(v), es.head)), es.tail, Half(v))
  {}

  lemma SumFive(acc: bv32, e0: bv32, e1: bv32, e2: bv32, e3: bv32, e4: bv32, es: List,
                u0: bv32, u1: bv32, u2: bv32, u3: bv32, u4: bv32)
    requires u1 == Half(u0) && u2 == Half(u1) && u3 == Half(u2) && u4 == Half(u3)
    ensures Sum(acc, Front(e0, e1, e2, e3, e4, es), u0)
         == Sum(Five(acc, e0, e1, e2, e3, e4, u0, u1, u2, u3, u4), es, Half(u4))
  {
    hide XorW, Select, Odd, Half, Sum, Five;
    FiveSum(acc, e0, e1, e2, e3, e4, u0, u1, u2, u3, u4);
    var a0 := XorW(acc, Select(Odd(u0), e0));
    var a1 := XorW(a0, Select(Odd(u1), e1));
    var a2 := XorW(a1, Select(Odd(u2), e2));
    var a3 := XorW(a2, Select(Odd(u3), e3));
    SumOne(acc, Front(e0, e1, e2, e3, e4, es), u0);
    SumOne(a0, Cons(e1, Cons(e2, Cons(e3, Cons(e4, es)))), u1);
    SumOne(a1, Cons(e2, Cons(e3, Cons(e4, es))), u2);
    SumOne(a2, Cons(e3, Cons(e4, es)), u3);
    SumOne(a3, Cons(e4, es), u4);
  }

  lemma Shifts(v: bv32)
    ensures Half(v) == v >> 1 && Half(v >> 1) == v >> 2 && Half(v >> 2) == v >> 3 && Half(v >> 3) == v >> 4
    ensures Half(v >> 4) == v >> 5 && Half(v >> 5) == v >> 6 && Half(v >> 6) == v >> 7 && Half(v >> 7) == v >> 8
    ensures Half(v >> 8) == v >> 9 && Half(v >> 9) == v >> 10 && Half(v >> 10) == v >> 11 && Half(v >> 11) == v >> 12
    ensures Half(v >> 12) == v >> 13 && Half(v >> 13) == v >> 14 && Half(v >> 14) == v >> 15 && Half(v >> 15) == v >> 16
    ensures Half(v >> 16) == v >> 17 && Half(v >> 17) == v >> 18 && Half(v >> 18) == v >> 19
  {}

  lemma SpreadIsSum(c: Columns, v: bv32)
    ensures Spread(c, v) == Sum(0, Listed(c), v)
  {
    hide Five, Half, Sum, Front;
    Shifts(v);
    var l3 := Front(c.e15, c.e16, c.e17, c.e18, c.e19, Nil);
    var l2 := Front(c.e10, c.e11, c.e12, c.e13, c.e14, l3);
    var l1 := Front(c.e5, c.e6, c.e7, c.e8, c.e9, l2);
    var s1 := Five(0, c.e0, c.e1, c.e2, c.e3, c.e4, v, v >> 1, v >> 2, v >> 3, v >> 4);
    var s2 := Five(s1, c.e5, c.e6, c.e7, c.e8, c.e9, v >> 5, v >> 6, v >> 7, v >> 8, v >> 9);
    var s3 := Five(s2, c.e10, c.e11, c.e12, c.e13, c.e14, v >> 10, v >> 11, v >> 12, v >> 13, v >> 14);
    SumFive(0, c.e0, c.e1, c.e2, c.e3, c.e4, l1, v, v >> 1, v >> 2, v >> 3, v >> 4);
    SumFive(s1, c.e5, c.e6, c.e7, c.e8, c.e9, l2, v >> 5, v >> 6, v >> 7, v >> 8, v >> 9);
    SumFive(s2, c.e10, c.e11, c.e12, c.e13, c.e14, l3, v >> 10, v >> 11, v >> 12, v >> 13, v >> 14);
    SumFive(s3, c.e15, c.e16, c.e17, c.e18, c.e19, Nil, v >> 15, v >> 16, v >> 17, v >> 18, v >> 19);
    SumNone(Spread(c, v), Half(v >> 19));
  }

  lemma SumNone(acc: bv32, v: bv32)
    ensures Sum(acc, Nil, v) == acc
  {}

  lemma ListedLength(c: Columns)
    ensures Length(Listed(c)) == 20
  {
    var l3 := Front(c.e15, c.e16, c.e17, c.e18, c.e19, Nil);
    var l2 := Front(c.e10, c.e11, c.e12, c.e13, c.e14, l3);
    var l1 := Front(c.e5, c.e6, c.e7, c.e8, c.e9, l2);
    FrontLength(c.e15, c.e16, c.e17, c.e18, c.e19, Nil);
    FrontLength(c.e10, c.e11, c.e12, c.e13, c.e14, l3);
    FrontLength(c.e5, c.e6, c.e7, c.e8, c.e9, l2);
    FrontLength(c.e0, c.e1, c.e2, c.e3, c.e4, l1);
  }

  lemma FrontLength(e0: bv32, e1: bv32, e2: bv32, e3: bv32, e4: bv32, es: List)
    ensures Length(Front(e0, e1, e2, e3, e4, es)) == 5 + Length(es)
  {
    assert Length(Cons(e3, Cons(e4, es))) == 2 + Length(es);
    assert Length(Cons(e1, Cons(e2, Cons(e3, Cons(e4, es))))) == 4 + Length(es);
  }

  ghost predicate ColumnsOk(b: nat, c: Columns)
    requires ValidBits(b)
  {
    SquaresFrom(b, Listed(c), 0)
  }

  /** The twenty-column sum computes squares. */
  lemma SpreadSquare(b: nat, top: bv32, poly: bv32, c: Columns, v: bv32)
    requires Words(b, top, poly) && ColumnsOk(b, c) && Fits(v, top)
    ensures ToNat(Spread(c, v)) == Square(b, ToNat(v))
  {
    hide ToNat, Spread, Sum, Square, Exp, Steps, Step, Xor, Poly, IsTop, Pow2, SquaresFrom;
    BelowTop(v, top, b);
    Pow2Mono(b, 20);
    SpreadIsSum(c, v);
    ListedLength(c);
    SumSquare(b, 0, Listed(c), 0, v);
    ToNatSmall(0);
    XorZero(Square(b, ToNat(v)));
    StepsNone(b, Square(b, ToNat(v)));
  }

  lemma StepsNone(b: nat, v: nat)
    requires ValidBits(b)
    ensures Steps(b, 2 * 0, v) == v
  {}

  // ----- exponentiation, one bit of the exponent at a time

  /** The word v stands for the k-th power of x. */
  ghost predicate IsPower(b: nat, top: bv32, k: nat, v: bv32) {
    ValidBits(b) && Fits(v, top) && ToNat(v) == Exp(b, k)
  }

  ghost predicate Setup(b: nat, top: bv32, poly: bv32, c: Columns) {
    Words(b, top, poly) && ColumnsOk(b, c) && Square(b, Poly(b)) == Exp(b, 2 * b)
  }

  lemma AboveHalf(v: bv32, top: bv32)
    requires top <= v && top != 0
    ensures !Odd(top) ==> Half(top) <= Half(v)
    ensures v != 0
  {}

  lemma {:induction false} BoundedFits(v: bv32, top: bv32, b: nat)
    requires IsTop(top, b) && ToNat(v) < Pow2(b)
    ensures Fits(v, top)
    decreases b
  {
    hide ToNat, Half, Odd;
    if top <= v {
      ToNatHalves(v);
      ToNatSmall(v);
      TopSingle(top, b);
      AboveHalf(v, top);
      if b > 0 {
        BoundedFits(Half(v), Half(top), b - 1);
      }
    }
  }

  lemma SquarePower(b: nat, top: bv32, poly: bv32, c: Columns, k: nat, v: bv32)
    requires Setup(b, top, poly, c) && IsPower(b, top, k, v)
    ensures IsPower(b, top, 2 * k, Spread(c, v))
  {
    hide Poly, Spread, ToNat, Square, Exp, Fits, ColumnsOk, IsTop;
    SpreadSquare(b, top, poly, c, v);
    SquareExp(b, k);
    BoundedFits(Spread(c, v), top, b);
  }

  lemma StepPower(b: nat, top: bv32, poly: bv32, k: nat, v: bv32)
    requires Words(b, top, poly) && IsPower(b, top, k, v)
    ensures IsPower(b, top, k + 1, StepW(top, poly, v))
  {
    hide StepW, Words, Exp, Step, Fits, ToNat;
    StepWord(b, top, poly, v);
    ExpNext(b, k);
  }

  /** Squaring, and one more factor x when the next bit of the exponent is set. */
  function Next(c: Columns, top: bv32, poly: bv32, v: bv32, odd: bool): bv32 {
    var s := Spread(c, v);
    if odd then StepW(top, poly, s) else s
  }

  lemma SetupWords(b: nat, top: bv32, poly: bv32, c: Columns)
    requires Setup(b, top, poly, c)
    ensures Words(b, top, poly)
  {}

  lemma NextPower(b: nat, top: bv32, poly: bv32, c: Columns, k: nat, v: bv32)
    requires Setup(b, top, poly, c) && IsPower(b, top, k / 2, v)
    ensures IsPower(b, top, k, Next(c, top, poly, v, k % 2 == 1))
  {
    hide StepW, Words, Spread, IsPower, Setup;
    SquarePower(b, top, poly, c, k / 2, v);
    SetupWords(b, top, poly, c);
    if k % 2 == 1 {
      StepPower(b, top, poly, 2 * (k / 2), Spread(c, v));
    }
  }

  /** Four more bits of the exponent k, with the values on the way. */
  lemma Climb(b: nat, top: bv32, poly: bv32, c: Columns, k: nat, v: bv32, v1: bv32, v2: bv32, v3: bv32, w: bv32)
    requires Setup(b, top, poly, c) && IsPower(b, top, k / 16, v)
    requires v1 == Next(c, top, poly, v, k / 8 % 2 == 1)
    requires v2 == Next(c, top, poly, v1, k / 4 % 2 == 1)
    requires v3 == Next(c, top, poly, v2, k / 2 % 2 == 1)
    requires w == Next(c, top, poly, v3, k % 2 == 1)
    ensures IsPower(b, top, k, w)
  {
    hide IsPower, Setup, Next;
    assert k / 8 / 2 == k / 16 && k / 4 / 2 == k / 8 && k / 2 / 2 == k / 4;
    NextPower(b, top, poly, c, k / 8, v);
    NextPower(b, top, poly, c, k / 4, v1);
    NextPower(b, top, poly, c, k / 2, v2);
    NextPower(b, top, poly, c, k, v3);
  }

  /** Reading off whether the power is 1. */
  lemma PowerIsOne(b: nat, top: bv32, k: nat, v: bv32)
    requires IsPower(b, top, k, v)
    ensures Exp(b, k) == 1 <==> v == 1
  {
    ToNatSmall(v);
  }

  // ----- establishing the setup

  lemma Start(b: nat, top: bv32)
    requires ValidBits(b) && Fits(1, top)
    ensures IsPower(b, top, 0, 1)
  {
    ExpZero(b);
    ToNatSmall(1);
  }

  predicate Twice(top: bv32, poly: bv32, v: bv32, w: bv32) {
    w == StepW(top, poly, StepW(top, poly, v))
  }

  lemma Walk(b: nat, top: bv32, poly: bv32, k: nat, v: bv32, w: bv32)
    requires Words(b, top, poly) && IsPower(b, top, k, v) && Twice(top, poly, v, w)
    ensures IsPower(b, top, k + 2, w)
  {
    hide StepW, Words, IsPower;
    StepPower(b, top, poly, k, v);
    StepPower(b, top, poly, k + 1, StepW(top, poly, v));
  }

  /** Every column is its predecessor times x^2. */
  predicate Chain(top: bv32, poly: bv32, c: Columns) {
    && c.e0 == 1 && Twice(top, poly, c.e0, c.e1)
    && Twice(top, poly, c.e1, c.e2) && Twice(top, poly, c.e2, c.e3) && Twice(top, poly, c.e3, c.e4)
    && Twice(top, poly, c.e4, c.e5) && Twice(top, poly, c.e5, c.e6) && Twice(top, poly, c.e6, c.e7)
    && Twice(top, poly, c.e7, c.e8) && Twice(top, poly, c.e8, c.e9) && Twice(top, poly, c.e9, c.e10)
    && Twice(top, poly, c.e10, c.e11) && Twice(top, poly, c.e11, c.e12) && Twice(top, poly, c.e12, c.e13)
    && Twice(top, poly, c.e13, c.e14) && Twice(top, poly, c.e14, c.e15) && Twice(top, poly, c.e15, c.e16)
    && Twice(top, poly, c.e16, c.e17) && Twice(top, poly, c.e17, c.e18) && Twice(top, poly, c.e18, c.e19)
    && Twice(top, poly, c.e19, c.e20)
  }

  ghost predicate ColumnPowers(b: nat, top: bv32, c: Columns) {
    && IsPower(b, top, 0, c.e0) && IsPower(b, top, 2, c.e1) && IsPower(b, top, 4, c.e2) && IsPower(b, top, 6, c.e3)
    && IsPower(b, top, 8, c.e4) && IsPower(b, top, 10, c.e5) && IsPower(b, top, 12, c.e6) && IsPower(b, top, 14, c.e7)
    && IsPower(b, top, 16, c.e8) && IsPower(b, top, 18, c.e9) && IsPower(b, top, 20, c.e10) && IsPower(b, top, 22, c.e11)
    && IsPower(b, top, 24, c.e12) && IsPower(b, top, 26, c.e13) && IsPower(b, top, 28, c.e14) && IsPower(b, top, 30, c.e15)
    && IsPower(b, top, 32, c.e16) && IsPower(b, top, 34, c.e17) && IsPower(b, top, 36, c.e18) && IsPower(b, top, 38, c.e19)
    && IsPower(b, top, 40, c.e20)
  }

  lemma WordsValid(b: nat, top: bv32, poly: bv32)
    requires Words(b, top, poly)
    ensures ValidBits(b)
  {}

  lemma ChainPowers(b: nat, top: bv32, poly: bv32, c: Columns)
    requires Words(b, top, poly) && Chain(top, poly, c) && Fits(1, top)
    ensures ColumnPowers(b, top, c)
  {
    hide Words, IsPower, Twice, Fits;
    WordsValid(b, top, poly);
    Start(b, top);
    Walk(b, top, poly, 0, c.e0, c.e1); Walk(b, top, poly, 2, c.e1, c.e2);
    Walk(b, top, poly, 4, c.e2, c.e3); Walk(b, top, poly, 6, c.e3, c.e4);
    Walk(b, top, poly, 8, c.e4, c.e5); Walk(b, top, poly, 10, c.e5, c.e6);
    Walk(b, top, poly, 12, c.e6, c.e7); Walk(b, top, poly, 14, c.e7, c.e8);
    Walk(b, top, poly, 16, c.e8, c.e9); Walk(b, top, poly, 18, c.e9, c.e10);
    Walk(b, top, poly, 20, c.e10, c.e11); Walk(b, top, poly, 22, c.e11, c.e12);
    Walk(b, top, poly, 24, c.e12, c.e13); Walk(b, top, poly, 26, c.e13, c.e14);
    Walk(b, top, poly, 28, c.e14, c.e15); Walk(b, top, poly, 30, c.e15, c.e16);
    Walk(b, top, poly, 32, c.e16, c.e17); Walk(b, top, poly, 34, c.e17, c.e18);
    Walk(b, top, poly, 36, c.e18, c.e19); Walk(b, top, poly, 38, c.e19, c.e20);
  }

  lemma ColumnsFrom(b: nat, top: bv32, c: Columns)
    requires ValidBits(b) && ColumnPowers(b, top, c)
    ensures ColumnsOk(b, c)
  {
    hide IsPower, SquaresFrom;
    NoSquares(b, 20);
    var l3 := Front(c.e15, c.e16, c.e17, c.e18, c.e19, Nil);
    var l2 := Front(c.e10, c.e11, c.e12, c.e13, c.e14, l3);
    var l1 := Front(c.e5, c.e6, c.e7, c.e8, c.e9, l2);
    hide Front;
    FiveSquares(b, top, 15, c.e15, c.e16, c.e17, c.e18, c.e19, Nil);
    FiveSquares(b, top, 10, c.e10, c.e11, c.e12, c.e13, c.e14, l3);
    FiveSquares(b, top, 5, c.e5, c.e6, c.e7, c.e8, c.e9, l2);
    FiveSquares(b, top, 0, c.e0, c.e1, c.e2, c.e3, c.e4, l1);
  }

  lemma NoSquares(b: nat, m: nat)
    requires ValidBits(b)
    ensures SquaresFrom(b, Nil, m)
  {}

  lemma FiveSquares(b: nat, top: bv32, m: nat, e0: bv32, e1: bv32, e2: bv32, e3: bv32, e4: bv32, es: List)
    requires ValidBits(b) && SquaresFrom(b, es, m + 5)
    requires IsPower(b, top, 2 * m, e0) && IsPower(b, top, 2 * m + 2, e1) && IsPower(b, top, 2 * m + 4, e2)
    requires IsPower(b, top, 2 * m + 6, e3) && IsPower(b, top, 2 * m + 8, e4)
    ensures SquaresFrom(b, Front(e0, e1, e2, e3, e4, es), m)
  {
    hide SquaresFrom, IsPower;
    OneSquare(b, top, m + 4, e4, es);
    OneSquare(b, top, m + 3, e3, Cons(e4, es));
    OneSquare(b, top, m + 2, e2, Cons(e3, Cons(e4, es)));
    OneSquare(b, top, m + 1, e1, Cons(e2, Cons(e3, Cons(e4, es))));
    OneSquare(b, top, m, e0, Cons(e1, Cons(e2, Cons(e3, Cons(e4, es)))));
  }

  lemma OneSquare(b: nat, top: bv32, m: nat, e: bv32, rest: List)
    requires ValidBits(b) && IsPower(b, top, 2 * m, e) && SquaresFrom(b, rest, m + 1)
    ensures SquaresFrom(b, Cons(e, rest), m)
  {}

  lemma IsPowerValue(b: nat, top: bv32, k: nat, v: bv32)
    requires IsPower(b, top, k, v)
    ensures ValidBits(b) && ToNat(v) == Exp(b, k)
  {}

  /** Columns that form a chain give the squares, if they do so for the polynomial, whose square s must be. */
  lemma SetupFrom(b: nat, top: bv32, poly: bv32, c: Columns, s: bv32)
    requires Words(b, top, poly) && Chain(top, poly, c) && Fits(1, top)
    requires Spread(c, poly) == s && s == Column(c, b)
    ensures Setup(b, top, poly, c)
  {
    hide ToNat, Spread, Exp, Poly, IsTop, ColumnsOk, Chain;
    ChainPowers(b, top, poly, c);
    ColumnsFrom(b, top, c);
    ColumnAt(b, top, c);
    IsPowerValue(b, top, 2 * b, Column(c, b));
    assert Fits(poly, top);
    SpreadSquare(b, top, poly, c, poly);
  }

  function Column(c: Columns, i: nat): bv32 {
    match i
    case 3 => c.e3
    case 4 => c.e4
    case 5 => c.e5
    case 6 => c.e6
    case 7 => c.e7
    case 8 => c.e8
    case 9 => c.e9
    case 10 => c.e10
    case 11 => c.e11
    case 12 => c.e12
    case 13 => c.e13
    case 14 => c.e14
    case 15 => c.e15
    case 16 => c.e16
    case 17 => c.e17
    case 18 => c.e18
    case 19 => c.e19
    case _ => c.e20
  }

  lemma ColumnAt(b: nat, top: bv32, c: Columns)
    requires ValidBits(b) && ColumnPowers(b, top, c)
    ensures IsPower(b, top, 2 * b, Column(c, b))
  {
    hide IsPower;
  }

  lemma {:induction false} ExpSmall(b: nat, k: nat)
    requires ValidBits(b) && k < b
    ensures Exp(b, k) == Pow2(k)
  {
    hide Xor, Poly;
    if k > 0 {
      ExpSmall(b, k - 1);
      Pow2Mono(k + 1, b);
      Pow2Mono(k, b);
      StepCases(b, Pow2(k - 1));
    }
  }
}
