/**
 Every built-in polynomial is primitive, so the exps_ table reaches every nonzero value. For each size b,
 x is raised to 2^b - 1 and to each (2^b - 1)/p, four exponent bits a line; the values on the way are
 written out for the verifier to recompute.
 */
module PrimitivePolynomials {
  import opened BinaryWords
  import opened BinaryField
  import opened NumberTheory
  import opened WordField
  import opened MultiplicativeOrder
  import opened TrialDivisions

  lemma TrialDone(n: nat, d: nat)
    requires d > 0 && d * d > n
    ensures TrialDivision(n, d)
  {}

  lemma TenMore(n: nat, d: nat)
    requires d > 0 && TrialDivision(n, d + 20)
    requires n % d != 0 && n % (d + 2) != 0 && n % (d + 4) != 0 && n % (d + 6) != 0 && n % (d + 8) != 0
    requires n % (d + 10) != 0 && n % (d + 12) != 0 && n % (d + 14) != 0 && n % (d + 16) != 0
    requires n % (d + 18) != 0
    ensures TrialDivision(n, d)
  {
    assert TrialDivision(n, d + 16);
    assert TrialDivision(n, d + 12);
    assert TrialDivision(n, d + 8);
    assert TrialDivision(n, d + 4);
  }

  lemma SmallPrimes()
    ensures IsPrime(3)
    ensures IsPrime(5)
    ensures IsPrime(7)
    ensures IsPrime(11)
    ensures IsPrime(13)
    ensures IsPrime(17)
    ensures IsPrime(19)
    ensures IsPrime(23)
    ensures IsPrime(31)
    ensures IsPrime(41)
    ensures IsPrime(43)
    ensures IsPrime(73)
    ensures IsPrime(89)
    ensures IsPrime(127)
    ensures IsPrime(151)
    ensures IsPrime(257)
  {
    TrialPrime(3);
    TrialPrime(5);
    TrialPrime(7);
    TrialPrime(11);
    TrialPrime(13);
    TrialPrime(17);
    TrialPrime(19);
    TrialPrime(23);
    TrialPrime(31);
    TrialPrime(41);
    TrialPrime(43);
    TrialPrime(73);
    TrialPrime(89);
    TrialPrime(127);
    TrialPrime(151);
    TrialPrime(257);
  }

  lemma Prime8191()
    ensures IsPrime(8191)
  {
    hide TrialDivision, IsPrime;
    TrialDone(8191, 103);
    TenMore(8191, 83); TenMore(8191, 63);
    TenMore(8191, 43); TenMore(8191, 23);
    TenMore(8191, 3);
    TrialPrime(8191);
  }

  lemma Trial131071From203()
    ensures TrialDivision(131071, 203)
  {
    hide TrialDivision, IsPrime;
    TrialDone(131071, 363);
    TenMore(131071, 343); TenMore(131071, 323);
    TenMore(131071, 303); TenMore(131071, 283);
    TenMore(131071, 263); TenMore(131071, 243);
    TenMore(131071, 223); TenMore(131071, 203);
  }

  lemma Trial131071From43()
    ensures TrialDivision(131071, 43)
  {
    hide TrialDivision, IsPrime;
    Trial131071From203();
    TenMore(131071, 183); TenMore(131071, 163);
    TenMore(131071, 143); TenMore(131071, 123);
    TenMore(131071, 103); TenMore(131071, 83);
    TenMore(131071, 63); TenMore(131071, 43);
  }

  lemma Prime131071()
    ensures IsPrime(131071)
  {
    hide TrialDivision, IsPrime;
    Trial131071From43();
    TenMore(131071, 23); TenMore(131071, 3);
    TrialPrime(131071);
  }

  lemma Trial524287From583()
    ensures TrialDivision(524287, 583)
  {
    hide TrialDivision, IsPrime;
    TrialDone(524287, 743);
    TenMore(524287, 723); TenMore(524287, 703);
    TenMore(524287, 683); TenMore(524287, 663);
    TenMore(524287, 643); TenMore(524287, 623);
    TenMore(524287, 603); TenMore(524287, 583);
  }

  lemma Trial524287From423()
    ensures TrialDivision(524287, 423)
  {
    hide TrialDivision, IsPrime;
    Trial524287From583();
    TenMore(524287, 563); TenMore(524287, 543);
    TenMore(524287, 523); TenMore(524287, 503);
    TenMore(524287, 483); TenMore(524287, 463);
    TenMore(524287, 443); TenMore(524287, 423);
  }

  lemma Trial524287From263()
    ensures TrialDivision(524287, 263)
  {
    hide TrialDivision, IsPrime;
    Trial524287From423();
    TenMore(524287, 403); TenMore(524287, 383);
    TenMore(524287, 363); TenMore(524287, 343);
    TenMore(524287, 323); TenMore(524287, 303);
    TenMore(524287, 283); TenMore(524287, 263);
  }

  lemma Trial524287From103()
    ensures TrialDivision(524287, 103)
  {
    hide TrialDivision, IsPrime;
    Trial524287From263();
    TenMore(524287, 243); TenMore(524287, 223);
    TenMore(524287, 203); TenMore(524287, 183);
    TenMore(524287, 163); TenMore(524287, 143);
    TenMore(524287, 123); TenMore(524287, 103);
  }

  lemma Prime524287()
    ensures IsPrime(524287)
  {
    hide TrialDivision, IsPrime;
    Trial524287From103();
    TenMore(524287, 83); TenMore(524287, 63);
    TenMore(524287, 43); TenMore(524287, 23);
    TenMore(524287, 3);
    TrialPrime(524287);
  }

  lemma ShortPeriod(b: nat, top: bv32, p: nat, k: nat, v: bv32)
    requires ValidBits(b) && p > 0 && Max(b) == k * p && IsPower(b, top, k, v) && v != 1
    ensures NoShorterPeriod(b, p)
  {
    PowerIsOne(b, top, k, v);
    DivisionUnique(Max(b), p, k, 0);
  }

  /** Periods that need no computation: x itself is not 1. */
  lemma TrivialPeriod(b: nat)
    requires ValidBits(b) && Max(b) > 0
    ensures NoShorterPeriod(b, Max(b))
  {
    ExpSmall(b, 1);
    DivisionUnique(Max(b), Max(b), 1, 0);
  }

  // ----- 3 bits

  const COLUMNS_3 := Columns(0x1, 0x4, 0x6, 0x5, 0x2, 0x3, 0x7, 0x1, 0x4,
    0x6, 0x5, 0x2, 0x3, 0x7, 0x1, 0x4, 0x6, 0x5, 0x2, 0x3, 0x7)

  lemma Columns3()
    ensures Chain(0x8, 3, COLUMNS_3)
    ensures Spread(COLUMNS_3, 3) == 0x5
  {
    assert Twice(0x8, 3, 0x1, 0x4) && Twice(0x8, 3, 0x4, 0x6) && Twice(0x8, 3, 0x6, 0x5) && Twice(0x8, 3, 0x5, 0x2);
    assert Twice(0x8, 3, 0x2, 0x3) && Twice(0x8, 3, 0x3, 0x7) && Twice(0x8, 3, 0x7, 0x1) && Twice(0x8, 3, 0x1, 0x4);
    assert Twice(0x8, 3, 0x4, 0x6) && Twice(0x8, 3, 0x6, 0x5) && Twice(0x8, 3, 0x5, 0x2) && Twice(0x8, 3, 0x2, 0x3);
    assert Twice(0x8, 3, 0x3, 0x7) && Twice(0x8, 3, 0x7, 0x1) && Twice(0x8, 3, 0x1, 0x4) && Twice(0x8, 3, 0x4, 0x6);
    assert Twice(0x8, 3, 0x6, 0x5) && Twice(0x8, 3, 0x5, 0x2) && Twice(0x8, 3, 0x2, 0x3) && Twice(0x8, 3, 0x3, 0x7);
    hide Twice;
  }

  lemma Setup3()
    ensures Setup(3, 0x8, 3, COLUMNS_3)
  {
    hide Setup, Chain, Spread;
    assert IsTop(0x2, 1) && ToNat(3) == 3;
    assert Words(3, 0x8, 3);
    hide Words, IsTop, ToNat;
    Columns3();
    SetupFrom(3, 0x8, 3, COLUMNS_3, 0x5);
  }

  lemma Powers3Part1()
    ensures IsPower(3, 0x8, 7, 0x1)
  {
    hide IsPower, Setup, Words, ToNat;
    Setup3();
    Start(3, 0x8);
    Climb(3, 0x8, 3, COLUMNS_3, 7, 0x1, 0x1, 0x2, 0x3, 0x1);
  }

  lemma Primitive3()
    ensures Primitive(3)
  {
    hide Exp, NoShorterPeriod, IsPrime, Primitive, IsPower;
    Powers3Part1();
    PowerIsOne(3, 0x8, 7, 1);
    assert Pow2(2) == 4 && Pow2(3) == 8;
    TrivialPeriod(3);
    SmallPrimes();
    PrimitiveFrom(3, [7]);
  }

  // ----- 4 bits

  const COLUMNS_4 := Columns(0x1, 0x4, 0x3, 0xc, 0x5, 0x7, 0xf, 0x9, 0x2,
    0x8, 0x6, 0xb, 0xa, 0xe, 0xd, 0x1, 0x4, 0x3, 0xc, 0x5, 0x7)

  lemma Columns4()
    ensures Chain(0x10, 3, COLUMNS_4)
    ensures Spread(COLUMNS_4, 3) == 0x5
  {
    assert Twice(0x10, 3, 0x1, 0x4) && Twice(0x10, 3, 0x4, 0x3) && Twice(0x10, 3, 0x3, 0xc) && Twice(0x10, 3, 0xc, 0x5);
    assert Twice(0x10, 3, 0x5, 0x7) && Twice(0x10, 3, 0x7, 0xf) && Twice(0x10, 3, 0xf, 0x9) && Twice(0x10, 3, 0x9, 0x2);
    assert Twice(0x10, 3, 0x2, 0x8) && Twice(0x10, 3, 0x8, 0x6) && Twice(0x10, 3, 0x6, 0xb) && Twice(0x10, 3, 0xb, 0xa);
    assert Twice(0x10, 3, 0xa, 0xe) && Twice(0x10, 3, 0xe, 0xd) && Twice(0x10, 3, 0xd, 0x1) && Twice(0x10, 3, 0x1, 0x4);
    assert Twice(0x10, 3, 0x4, 0x3) && Twice(0x10, 3, 0x3, 0xc) && Twice(0x10, 3, 0xc, 0x5) && Twice(0x10, 3, 0x5, 0x7);
    hide Twice;
  }

  lemma Setup4()
    ensures Setup(4, 0x10, 3, COLUMNS_4)
  {
    hide Setup, Chain, Spread;
    assert IsTop(0x4, 2) && ToNat(3) == 3;
    assert Words(4, 0x10, 3);
    hide Words, IsTop, ToNat;
    Columns4();
    SetupFrom(4, 0x10, 3, COLUMNS_4, 0x5);
  }

  lemma Powers4Part1()
    ensures IsPower(4, 0x10, 15, 0x1)
    ensures IsPower(4, 0x10, 5, 0x6)
    ensures IsPower(4, 0x10, 3, 0x8)
  {
    hide IsPower, Setup, Words, ToNat;
    Setup4();
    Start(4, 0x10);
    Climb(4, 0x10, 3, COLUMNS_4, 15, 0x1, 0x2, 0x8, 0xb, 0x1);
    Climb(4, 0x10, 3, COLUMNS_4, 5, 0x1, 0x1, 0x2, 0x4, 0x6);
    Climb(4, 0x10, 3, COLUMNS_4, 3, 0x1, 0x1, 0x1, 0x2, 0x8);
  }

  lemma Primitive4()
    ensures Primitive(4)
  {
    hide Exp, NoShorterPeriod, IsPrime, Primitive, IsPower;
    Powers4Part1();
    PowerIsOne(4, 0x10, 15, 1);
    assert Pow2(2) == 4 && Pow2(4) == 16;
    ShortPeriod(4, 0x10, 3, 5, 0x6);
    ShortPeriod(4, 0x10, 5, 3, 0x8);
    SmallPrimes();
    PrimitiveFrom(4, [3, 5]);
  }

  // ----- 5 bits

  const COLUMNS_5 := Columns(0x1, 0x4, 0x10, 0xa, 0xd, 0x11, 0xe, 0x1d, 0x1b,
    0x3, 0xc, 0x15, 0x1e, 0x17, 0x16, 0x12, 0x2, 0x8, 0x5, 0x14, 0x1a)

  lemma Columns5()
    ensures Chain(0x20, 5, COLUMNS_5)
    ensures Spread(COLUMNS_5, 5) == 0x11
  {
    assert Twice(0x20, 5, 0x1, 0x4) && Twice(0x20, 5, 0x4, 0x10) && Twice(0x20, 5, 0x10, 0xa) && Twice(0x20, 5, 0xa, 0xd);
    assert Twice(0x20, 5, 0xd, 0x11) && Twice(0x20, 5, 0x11, 0xe) && Twice(0x20, 5, 0xe, 0x1d) && Twice(0x20, 5, 0x1d, 0x1b);
    assert Twice(0x20, 5, 0x1b, 0x3) && Twice(0x20, 5, 0x3, 0xc) && Twice(0x20, 5, 0xc, 0x15) && Twice(0x20, 5, 0x15, 0x1e);
    assert Twice(0x20, 5, 0x1e, 0x17) && Twice(0x20, 5, 0x17, 0x16) && Twice(0x20, 5, 0x16, 0x12) && Twice(0x20, 5, 0x12, 0x2);
    assert Twice(0x20, 5, 0x2, 0x8) && Twice(0x20, 5, 0x8, 0x5) && Twice(0x20, 5, 0x5, 0x14) && Twice(0x20, 5, 0x14, 0x1a);
    hide Twice;
  }

  lemma Setup5()
    ensures Setup(5, 0x20, 5, COLUMNS_5)
  {
    hide Setup, Chain, Spread;
    assert IsTop(0x4, 2) && ToNat(5) == 5;
    assert Words(5, 0x20, 5);
    hide Words, IsTop, ToNat;
    Columns5();
    SetupFrom(5, 0x20, 5, COLUMNS_5, 0x11);
  }

  lemma Powers5Part1()
    ensures IsPower(5, 0x20, 31, 0x1)
  {
    hide IsPower, Setup, Words, ToNat;
    Setup5();
    Start(5, 0x20);
    Climb(5, 0x20, 5, COLUMNS_5, 1, 0x1, 0x1, 0x1, 0x1, 0x2);
    Climb(5, 0x20, 5, COLUMNS_5, 31, 0x2, 0x8, 0x14, 0x1f, 0x1);
  }

  lemma Primitive5()
    ensures Primitive(5)
  {
    hide Exp, NoShorterPeriod, IsPrime, Primitive, IsPower;
    Powers5Part1();
    PowerIsOne(5, 0x20, 31, 1);
    assert Pow2(3) == 8 && Pow2(5) == 32;
    TrivialPeriod(5);
    SmallPrimes();
    PrimitiveFrom(5, [31]);
  }

  // ----- 6 bits

  const COLUMNS_6 := Columns(0x1, 0x4, 0x10, 0x3, 0xc, 0x30, 0x5, 0x14, 0x13,
    0xf, 0x3c, 0x35, 0x11, 0x7, 0x1c, 0x33, 0x9, 0x24, 0x16, 0x1b, 0x2f)

  lemma Columns6()
    ensures Chain(0x40, 3, COLUMNS_6)
    ensures Spread(COLUMNS_6, 3) == 0x5
  {
    assert Twice(0x40, 3, 0x1, 0x4) && Twice(0x40, 3, 0x4, 0x10) && Twice(0x40, 3, 0x10, 0x3) && Twice(0x40, 3, 0x3, 0xc);
    assert Twice(0x40, 3, 0xc, 0x30) && Twice(0x40, 3, 0x30, 0x5) && Twice(0x40, 3, 0x5, 0x14) && Twice(0x40, 3, 0x14, 0x13);
    assert Twice(0x40, 3, 0x13, 0xf) && Twice(0x40, 3, 0xf, 0x3c) && Twice(0x40, 3, 0x3c, 0x35) && Twice(0x40, 3, 0x35, 0x11);
    assert Twice(0x40, 3, 0x11, 0x7) && Twice(0x40, 3, 0x7, 0x1c) && Twice(0x40, 3, 0x1c, 0x33) && Twice(0x40, 3, 0x33, 0x9);
    assert Twice(0x40, 3, 0x9, 0x24) && Twice(0x40, 3, 0x24, 0x16) && Twice(0x40, 3, 0x16, 0x1b) && Twice(0x40, 3, 0x1b, 0x2f);
    hide Twice;
  }

  lemma Setup6()
    ensures Setup(6, 0x40, 3, COLUMNS_6)
  {
    hide Setup, Chain, Spread;
    assert IsTop(0x8, 3) && ToNat(3) == 3;
    assert Words(6, 0x40, 3);
    hide Words, IsTop, ToNat;
    Columns6();
    SetupFrom(6, 0x40, 3, COLUMNS_6, 0x5);
  }

  lemma Powers6Part1()
    ensures IsPower(6, 0x40, 63, 0x1)
    ensures IsPower(6, 0x40, 21, 0x3b)
  {
    hide IsPower, Setup, Words, ToNat;
    Setup6();
    Start(6, 0x40);
    Climb(6, 0x40, 3, COLUMNS_6, 3, 0x1, 0x1, 0x1, 0x2, 0x8);
    Climb(6, 0x40, 3, COLUMNS_6, 63, 0x8, 0x6, 0x28, 0x25, 0x1);
    Climb(6, 0x40, 3, COLUMNS_6, 1, 0x1, 0x1, 0x1, 0x1, 0x2);
    Climb(6, 0x40, 3, COLUMNS_6, 21, 0x2, 0x4, 0x20, 0x30, 0x3b);
  }

  lemma Powers6Part2()
    ensures IsPower(6, 0x40, 9, 0x18)
  {
    hide IsPower, Setup, Words, ToNat;
    Setup6();
    Start(6, 0x40);
    Climb(6, 0x40, 3, COLUMNS_6, 9, 0x1, 0x2, 0x4, 0x10, 0x18);
  }

  lemma Primitive6()
    ensures Primitive(6)
  {
    hide Exp, NoShorterPeriod, IsPrime, Primitive, IsPower;
    Powers6Part1(); Powers6Part2();
    PowerIsOne(6, 0x40, 63, 1);
    assert Pow2(3) == 8 && Pow2(6) == 64;
    ShortPeriod(6, 0x40, 3, 21, 0x3b);
    ShortPeriod(6, 0x40, 7, 9, 0x18);
    SmallPrimes();
    PrimitiveFrom(6, [3, 3, 7]);
  }

  // ----- 7 bits

  const COLUMNS_7 := Columns(0x1, 0x4, 0x10, 0x40, 0x6, 0x18, 0x60, 0x5, 0x14,
    0x50, 0x46, 0x1e, 0x78, 0x65, 0x11, 0x44, 0x16, 0x58, 0x66, 0x1d, 0x74)

  lemma Columns7()
    ensures Chain(0x80, 3, COLUMNS_7)
    ensures Spread(COLUMNS_7, 3) == 0x5
  {
    assert Twice(0x80, 3, 0x1, 0x4) && Twice(0x80, 3, 0x4, 0x10) && Twice(0x80, 3, 0x10, 0x40) && Twice(0x80, 3, 0x40, 0x6);
    assert Twice(0x80, 3, 0x6, 0x18) && Twice(0x80, 3, 0x18, 0x60) && Twice(0x80, 3, 0x60, 0x5) && Twice(0x80, 3, 0x5, 0x14);
    assert Twice(0x80, 3, 0x14, 0x50) && Twice(0x80, 3, 0x50, 0x46) && Twice(0x80, 3, 0x46, 0x1e) && Twice(0x80, 3, 0x1e, 0x78);
    assert Twice(0x80, 3, 0x78, 0x65) && Twice(0x80, 3, 0x65, 0x11) && Twice(0x80, 3, 0x11, 0x44) && Twice(0x80, 3, 0x44, 0x16);
    assert Twice(0x80, 3, 0x16, 0x58) && Twice(0x80, 3, 0x58, 0x66) && Twice(0x80, 3, 0x66, 0x1d) && Twice(0x80, 3, 0x1d, 0x74);
    hide Twice;
  }

  lemma Setup7()
    ensures Setup(7, 0x80, 3, COLUMNS_7)
  {
    hide Setup, Chain, Spread;
    assert IsTop(0x8, 3) && ToNat(3) == 3;
    assert Words(7, 0x80, 3);
    hide Words, IsTop, ToNat;
    Columns7();
    SetupFrom(7, 0x80, 3, COLUMNS_7, 0x5);
  }

  lemma Powers7Part1()
    ensures IsPower(7, 0x80, 127, 0x1)
  {
    hide IsPower, Setup, Words, ToNat;
    Setup7();
    Start(7, 0x80);
    Climb(7, 0x80, 3, COLUMNS_7, 7, 0x1, 0x1, 0x2, 0x8, 0x3);
    Climb(7, 0x80, 3, COLUMNS_7, 127, 0x3, 0xa, 0xb, 0x9, 0x1);
  }

  lemma Primitive7()
    ensures Primitive(7)
  {
    hide Exp, NoShorterPeriod, IsPrime, Primitive, IsPower;
    Powers7Part1();
    PowerIsOne(7, 0x80, 127, 1);
    assert Pow2(4) == 16 && Pow2(7) == 128;
    TrivialPeriod(7);
    SmallPrimes();
    PrimitiveFrom(7, [127]);
  }

  // ----- 8 bits

  const COLUMNS_8 := Columns(0x1, 0x4, 0x10, 0x40, 0x1d, 0x74, 0xcd, 0x13, 0x4c,
    0x2d, 0xb4, 0xea, 0x8f, 0x6, 0x18, 0x60, 0x9d, 0x4e, 0x25, 0x94, 0x6a)

  lemma Columns8()
    ensures Chain(0x100, 29, COLUMNS_8)
    ensures Spread(COLUMNS_8, 29) == 0x4c
  {
    assert Twice(0x100, 29, 0x1, 0x4) && Twice(0x100, 29, 0x4, 0x10) && Twice(0x100, 29, 0x10, 0x40) && Twice(0x100, 29, 0x40, 0x1d);
    assert Twice(0x100, 29, 0x1d, 0x74) && Twice(0x100, 29, 0x74, 0xcd) && Twice(0x100, 29, 0xcd, 0x13) && Twice(0x100, 29, 0x13, 0x4c);
    assert Twice(0x100, 29, 0x4c, 0x2d) && Twice(0x100, 29, 0x2d, 0xb4) && Twice(0x100, 29, 0xb4, 0xea) && Twice(0x100, 29, 0xea, 0x8f);
    assert Twice(0x100, 29, 0x8f, 0x6) && Twice(0x100, 29, 0x6, 0x18) && Twice(0x100, 29, 0x18, 0x60) && Twice(0x100, 29, 0x60, 0x9d);
    assert Twice(0x100, 29, 0x9d, 0x4e) && Twice(0x100, 29, 0x4e, 0x25) && Twice(0x100, 29, 0x25, 0x94) && Twice(0x100, 29, 0x94, 0x6a);
    hide Twice;
  }

  lemma Setup8()
    ensures Setup(8, 0x100, 29, COLUMNS_8)
  {
    hide Setup, Chain, Spread;
    assert IsTop(0x10, 4) && ToNat(29) == 29;
    assert Words(8, 0x100, 29);
    hide Words, IsTop, ToNat;
    Columns8();
    SetupFrom(8, 0x100, 29, COLUMNS_8, 0x4c);
  }

  lemma Powers8Part1()
    ensures IsPower(8, 0x100, 255, 0x1)
    ensures IsPower(8, 0x100, 85, 0xd6)
  {
    hide IsPower, Setup, Words, ToNat;
    Setup8();
    Start(8, 0x100);
    Climb(8, 0x100, 29, COLUMNS_8, 15, 0x1, 0x2, 0x8, 0x80, 0x26);
    Climb(8, 0x100, 29, COLUMNS_8, 255, 0x26, 0xc0, 0xa1, 0xcc, 0x1);
    Climb(8, 0x100, 29, COLUMNS_8, 5, 0x1, 0x1, 0x2, 0x4, 0x20);
    Climb(8, 0x100, 29, COLUMNS_8, 85, 0x20, 0x74, 0x75, 0xb5, 0xd6);
  }

  lemma Powers8Part2()
    ensures IsPower(8, 0x100, 51, 0xa)
    ensures IsPower(8, 0x100, 15, 0x26)
  {
    hide IsPower, Setup, Words, ToNat;
    Setup8();
    Start(8, 0x100);
    Climb(8, 0x100, 29, COLUMNS_8, 3, 0x1, 0x1, 0x1, 0x2, 0x8);
    Climb(8, 0x100, 29, COLUMNS_8, 51, 0x8, 0x40, 0xcd, 0x3, 0xa);
    Climb(8, 0x100, 29, COLUMNS_8, 15, 0x1, 0x2, 0x8, 0x80, 0x26);
  }

  lemma Primitive8()
    ensures Primitive(8)
  {
    hide Exp, NoShorterPeriod, IsPrime, Primitive, IsPower;
    Powers8Part1(); Powers8Part2();
    PowerIsOne(8, 0x100, 255, 1);
    assert Pow2(4) == 16 && Pow2(8) == 256;
    ShortPeriod(8, 0x100, 3, 85, 0xd6);
    ShortPeriod(8, 0x100, 5, 51, 0xa);
    ShortPeriod(8, 0x100, 17, 15, 0x26);
    SmallPrimes();
    PrimitiveFrom(8, [3, 5, 17]);
  }

  // ----- 9 bits

  const COLUMNS_9 := Columns(0x1, 0x4, 0x10, 0x40, 0x100, 0x22, 0x88, 0x31, 0xc4,
    0x101, 0x26, 0x98, 0x71, 0x1c4, 0x123, 0xae, 0xa9, 0xb5, 0xc5, 0x105, 0x36)

  lemma Columns9()
    ensures Chain(0x200, 17, COLUMNS_9)
    ensures Spread(COLUMNS_9, 17) == 0x101
  {
    assert Twice(0x200, 17, 0x1, 0x4) && Twice(0x200, 17, 0x4, 0x10) && Twice(0x200, 17, 0x10, 0x40) && Twice(0x200, 17, 0x40, 0x100);
    assert Twice(0x200, 17, 0x100, 0x22) && Twice(0x200, 17, 0x22, 0x88) && Twice(0x200, 17, 0x88, 0x31) && Twice(0x200, 17, 0x31, 0xc4);
    assert Twice(0x200, 17, 0xc4, 0x101) && Twice(0x200, 17, 0x101, 0x26) && Twice(0x200, 17, 0x26, 0x98) && Twice(0x200, 17, 0x98, 0x71);
    assert Twice(0x200, 17, 0x71, 0x1c4) && Twice(0x200, 17, 0x1c4, 0x123) && Twice(0x200, 17, 0x123, 0xae) && Twice(0x200, 17, 0xae, 0xa9);
    assert Twice(0x200, 17, 0xa9, 0xb5) && Twice(0x200, 17, 0xb5, 0xc5) && Twice(0x200, 17, 0xc5, 0x105) && Twice(0x200, 17, 0x105, 0x36);
    hide Twice;
  }

  lemma Setup9()
    ensures Setup(9, 0x200, 17, COLUMNS_9)
  {
    hide Setup, Chain, Spread;
    assert IsTop(0x10, 4) && ToNat(17) == 17;
    assert Words(9, 0x200, 17);
    hide Words, IsTop, ToNat;
    Columns9();
    SetupFrom(9, 0x200, 17, COLUMNS_9, 0x101);
  }

  lemma Powers9Part1()
    ensures IsPower(9, 0x200, 511, 0x1)
    ensures IsPower(9, 0x200, 4, 0x10)
  {
    hide IsPower, Setup, Words, ToNat;
    Setup9();
    Start(9, 0x200);
    Climb(9, 0x200, 17, COLUMNS_9, 1, 0x1, 0x1, 0x1, 0x1, 0x2);
    Climb(9, 0x200, 17, COLUMNS_9, 31, 0x2, 0x8, 0x80, 0x62, 0x15c);
    Climb(9, 0x200, 17, COLUMNS_9, 511, 0x15c, 0x29, 0xc6, 0x15a, 0x1);
    Climb(9, 0x200, 17, COLUMNS_9, 4, 0x1, 0x1, 0x2, 0x4, 0x10);
  }

  lemma Powers9Part2()
    ensures IsPower(9, 0x200, 73, 0x150)
    ensures IsPower(9, 0x200, 7, 0x80)
  {
    hide IsPower, Setup, Words, ToNat;
    Setup9();
    Powers9Part1();
    Climb(9, 0x200, 17, COLUMNS_9, 73, 0x10, 0x11, 0x101, 0xc5, 0x150);
    Start(9, 0x200);
    Climb(9, 0x200, 17, COLUMNS_9, 7, 0x1, 0x1, 0x2, 0x8, 0x80);
  }

  lemma Primitive9()
    ensures Primitive(9)
  {
    hide Exp, NoShorterPeriod, IsPrime, Primitive, IsPower;
    Powers9Part1(); Powers9Part2();
    PowerIsOne(9, 0x200, 511, 1);
    assert Pow2(5) == 32 && Pow2(9) == 512;
    ShortPeriod(9, 0x200, 7, 73, 0x150);
    ShortPeriod(9, 0x200, 73, 7, 0x80);
    SmallPrimes();
    PrimitiveFrom(9, [7, 73]);
  }

  // ----- 10 bits

  const COLUMNS_10 := Columns(0x1, 0x4, 0x10, 0x40, 0x100, 0x9, 0x24, 0x90, 0x240,
    0x112, 0x41, 0x104, 0x19, 0x64, 0x190, 0x249, 0x136, 0xd1, 0x344, 0x10b, 0x25)

  lemma Columns10()
    ensures Chain(0x400, 9, COLUMNS_10)
    ensures Spread(COLUMNS_10, 9) == 0x41
  {
    assert Twice(0x400, 9, 0x1, 0x4) && Twice(0x400, 9, 0x4, 0x10) && Twice(0x400, 9, 0x10, 0x40) && Twice(0x400, 9, 0x40, 0x100);
    assert Twice(0x400, 9, 0x100, 0x9) && Twice(0x400, 9, 0x9, 0x24) && Twice(0x400, 9, 0x24, 0x90) && Twice(0x400, 9, 0x90, 0x240);
    assert Twice(0x400, 9, 0x240, 0x112) && Twice(0x400, 9, 0x112, 0x41) && Twice(0x400, 9, 0x41, 0x104) && Twice(0x400, 9, 0x104, 0x19);
    assert Twice(0x400, 9, 0x19, 0x64) && Twice(0x400, 9, 0x64, 0x190) && Twice(0x400, 9, 0x190, 0x249) && Twice(0x400, 9, 0x249, 0x136);
    assert Twice(0x400, 9, 0x136, 0xd1) && Twice(0x400, 9, 0xd1, 0x344) && Twice(0x400, 9, 0x344, 0x10b) && Twice(0x400, 9, 0x10b, 0x25);
    hide Twice;
  }

  lemma Setup10()
    ensures Setup(10, 0x400, 9, COLUMNS_10)
  {
    hide Setup, Chain, Spread;
    assert IsTop(0x20, 5) && ToNat(9) == 9;
    assert Words(10, 0x400, 9);
    hide Words, IsTop, ToNat;
    Columns10();
    SetupFrom(10, 0x400, 9, COLUMNS_10, 0x41);
  }

  lemma Powers10Part1()
    ensures IsPower(10, 0x400, 1023, 0x1)
    ensures IsPower(10, 0x400, 1, 0x2)
  {
    hide IsPower, Setup, Words, ToNat;
    Setup10();
    Start(10, 0x400);
    Climb(10, 0x400, 9, COLUMNS_10, 3, 0x1, 0x1, 0x1, 0x2, 0x8);
    Climb(10, 0x400, 9, COLUMNS_10, 63, 0x8, 0x80, 0x120, 0x9b, 0x3aa);
    Climb(10, 0x400, 9, COLUMNS_10, 1023, 0x3aa, 0x317, 0x87, 0x10a, 0x1);
    Climb(10, 0x400, 9, COLUMNS_10, 1, 0x1, 0x1, 0x1, 0x1, 0x2);
  }

  lemma Powers10Part2()
    ensures IsPower(10, 0x400, 341, 0xed)
    ensures IsPower(10, 0x400, 93, 0x2c9)
  {
    hide IsPower, Setup, Words, ToNat;
    Setup10();
    Powers10Part1();
    Climb(10, 0x400, 9, COLUMNS_10, 21, 0x2, 0x4, 0x20, 0x9, 0x82);
    Climb(10, 0x400, 9, COLUMNS_10, 341, 0x82, 0x94, 0x300, 0x352, 0xed);
    Start(10, 0x400);
    Climb(10, 0x400, 9, COLUMNS_10, 5, 0x1, 0x1, 0x2, 0x4, 0x20);
    Climb(10, 0x400, 9, COLUMNS_10, 93, 0x20, 0x12, 0x208, 0x152, 0x2c9);
  }

  lemma Powers10Part3()
    ensures IsPower(10, 0x400, 33, 0x26c)
  {
    hide IsPower, Setup, Words, ToNat;
    Setup10();
    Start(10, 0x400);
    Climb(10, 0x400, 9, COLUMNS_10, 2, 0x1, 0x1, 0x1, 0x2, 0x4);
    Climb(10, 0x400, 9, COLUMNS_10, 33, 0x4, 0x10, 0x100, 0x240, 0x26c);
  }

  lemma Primitive10()
    ensures Primitive(10)
  {
    hide Exp, NoShorterPeriod, IsPrime, Primitive, IsPower;
    Powers10Part1(); Powers10Part2(); Powers10Part3();
    PowerIsOne(10, 0x400, 1023, 1);
    assert Pow2(5) == 32 && Pow2(10) == 1024;
    ShortPeriod(10, 0x400, 3, 341, 0xed);
    ShortPeriod(10, 0x400, 11, 93, 0x2c9);
    ShortPeriod(10, 0x400, 31, 33, 0x26c);
    SmallPrimes();
    PrimitiveFrom(10, [3, 11, 31]);
  }

  // ----- 11 bits

  const COLUMNS_11 := Columns(0x1, 0x4, 0x10, 0x40, 0x100, 0x400, 0xa, 0x28, 0xa0,
    0x280, 0x205, 0x11, 0x44, 0x110, 0x440, 0x10a, 0x428, 0xaa, 0x2a8, 0x2a5, 0x291)

  lemma Columns11()
    ensures Chain(0x800, 5, COLUMNS_11)
    ensures Spread(COLUMNS_11, 5) == 0x11
  {
    assert Twice(0x800, 5, 0x1, 0x4) && Twice(0x800, 5, 0x4, 0x10) && Twice(0x800, 5, 0x10, 0x40) && Twice(0x800, 5, 0x40, 0x100);
    assert Twice(0x800, 5, 0x100, 0x400) && Twice(0x800, 5, 0x400, 0xa) && Twice(0x800, 5, 0xa, 0x28) && Twice(0x800, 5, 0x28, 0xa0);
    assert Twice(0x800, 5, 0xa0, 0x280) && Twice(0x800, 5, 0x280, 0x205) && Twice(0x800, 5, 0x205, 0x11) && Twice(0x800, 5, 0x11, 0x44);
    assert Twice(0x800, 5, 0x44, 0x110) && Twice(0x800, 5, 0x110, 0x440) && Twice(0x800, 5, 0x440, 0x10a) && Twice(0x800, 5, 0x10a, 0x428);
    assert Twice(0x800, 5, 0x428, 0xaa) && Twice(0x800, 5, 0xaa, 0x2a8) && Twice(0x800, 5, 0x2a8, 0x2a5) && Twice(0x800, 5, 0x2a5, 0x291);
    hide Twice;
  }

  lemma Setup11()
    ensures Setup(11, 0x800, 5, COLUMNS_11)
  {
    hide Setup, Chain, Spread;
    assert IsTop(0x20, 5) && ToNat(5) == 5;
    assert Words(11, 0x800, 5);
    hide Words, IsTop, ToNat;
    Columns11();
    SetupFrom(11, 0x800, 5, COLUMNS_11, 0x11);
  }

  lemma Powers11Part1()
    ensures IsPower(11, 0x800, 2047, 0x1)
    ensures IsPower(11, 0x800, 5, 0x20)
  {
    hide IsPower, Setup, Words, ToNat;
    Setup11();
    Start(11, 0x800);
    Climb(11, 0x800, 5, COLUMNS_11, 7, 0x1, 0x1, 0x2, 0x8, 0x80);
    Climb(11, 0x800, 5, COLUMNS_11, 127, 0x80, 0x50, 0x214, 0x720, 0x4f);
    Climb(11, 0x800, 5, COLUMNS_11, 2047, 0x4f, 0xbe, 0x2fd, 0x7e3, 0x1);
    Climb(11, 0x800, 5, COLUMNS_11, 5, 0x1, 0x1, 0x2, 0x4, 0x20);
  }

  lemma Powers11Part2()
    ensures IsPower(11, 0x800, 89, 0x142)
    ensures IsPower(11, 0x800, 23, 0x22)
  {
    hide IsPower, Setup, Words, ToNat;
    Setup11();
    Powers11Part1();
    Climb(11, 0x800, 5, COLUMNS_11, 89, 0x20, 0x5, 0x11, 0x101, 0x142);
    Start(11, 0x800);
    Climb(11, 0x800, 5, COLUMNS_11, 1, 0x1, 0x1, 0x1, 0x1, 0x2);
    Climb(11, 0x800, 5, COLUMNS_11, 23, 0x2, 0x4, 0x20, 0x5, 0x22);
  }

  lemma Primitive11()
    ensures Primitive(11)
  {
    hide Exp, NoShorterPeriod, IsPrime, Primitive, IsPower;
    Powers11Part1(); Powers11Part2();
    PowerIsOne(11, 0x800, 2047, 1);
    assert Pow2(6) == 64 && Pow2(11) == 2048;
    ShortPeriod(11, 0x800, 23, 89, 0x142);
    ShortPeriod(11, 0x800, 89, 23, 0x22);
    SmallPrimes();
    PrimitiveFrom(11, [23, 89]);
  }

  // ----- 12 bits

  const COLUMNS_12 := Columns(0x1, 0x4, 0x10, 0x40, 0x100, 0x400, 0x53, 0x14c, 0x530,
    0x493, 0x21f, 0x87c, 0x156, 0x558, 0x533, 0x49f, 0x22f, 0x8bc, 0x256, 0x958, 0x5c6)

  lemma Columns12()
    ensures Chain(0x1000, 83, COLUMNS_12)
    ensures Spread(COLUMNS_12, 83) == 0x156
  {
    assert Twice(0x1000, 83, 0x1, 0x4) && Twice(0x1000, 83, 0x4, 0x10) && Twice(0x1000, 83, 0x10, 0x40) && Twice(0x1000, 83, 0x40, 0x100);
    assert Twice(0x1000, 83, 0x100, 0x400) && Twice(0x1000, 83, 0x400, 0x53) && Twice(0x1000, 83, 0x53, 0x14c) && Twice(0x1000, 83, 0x14c, 0x530);
    assert Twice(0x1000, 83, 0x530, 0x493) && Twice(0x1000, 83, 0x493, 0x21f) && Twice(0x1000, 83, 0x21f, 0x87c) && Twice(0x1000, 83, 0x87c, 0x156);
    assert Twice(0x1000, 83, 0x156, 0x558) && Twice(0x1000, 83, 0x558, 0x533) && Twice(0x1000, 83, 0x533, 0x49f) && Twice(0x1000, 83, 0x49f, 0x22f);
    assert Twice(0x1000, 83, 0x22f, 0x8bc) && Twice(0x1000, 83, 0x8bc, 0x256) && Twice(0x1000, 83, 0x256, 0x958) && Twice(0x1000, 83, 0x958, 0x5c6);
    hide Twice;
  }

  lemma Setup12()
    ensures Setup(12, 0x1000, 83, COLUMNS_12)
  {
    hide Setup, Chain, Spread;
    assert IsTop(0x40, 6) && ToNat(83) == 83;
    assert Words(12, 0x1000, 83);
    hide Words, IsTop, ToNat;
    Columns12();
    SetupFrom(12, 0x1000, 83, COLUMNS_12, 0x156);
  }

  lemma Powers12Part1()
    ensures IsPower(12, 0x1000, 4095, 0x1)
    ensures IsPower(12, 0x1000, 5, 0x20)
  {
    hide IsPower, Setup, Words, ToNat;
    Setup12();
    Start(12, 0x1000);
    Climb(12, 0x1000, 83, COLUMNS_12, 15, 0x1, 0x2, 0x8, 0x80, 0x298);
    Climb(12, 0x1000, 83, COLUMNS_12, 255, 0x298, 0x93e, 0x63, 0x8ac, 0xa93);
    Climb(12, 0x1000, 83, COLUMNS_12, 4095, 0xa93, 0x91f, 0x861, 0x80f, 0x1);
    Climb(12, 0x1000, 83, COLUMNS_12, 5, 0x1, 0x1, 0x2, 0x4, 0x20);
  }

  lemma Powers12Part2()
    ensures IsPower(12, 0x1000, 1365, 0x46)
    ensures IsPower(12, 0x1000, 51, 0x31e)
  {
    hide IsPower, Setup, Words, ToNat;
    Setup12();
    Powers12Part1();
    Climb(12, 0x1000, 83, COLUMNS_12, 85, 0x20, 0x400, 0x43e, 0x74b, 0x754);
    Climb(12, 0x1000, 83, COLUMNS_12, 1365, 0x754, 0x2ff, 0x1b2, 0x178, 0x46);
    Start(12, 0x1000);
    Climb(12, 0x1000, 83, COLUMNS_12, 3, 0x1, 0x1, 0x1, 0x2, 0x8);
    Climb(12, 0x1000, 83, COLUMNS_12, 51, 0x8, 0x40, 0x53, 0x2ac, 0x31e);
  }

  lemma Powers12Part3()
    ensures IsPower(12, 0x1000, 819, 0xc8e)
    ensures IsPower(12, 0x1000, 585, 0x3a9)
  {
    hide IsPower, Setup, Words, ToNat;
    Setup12();
    Powers12Part2();
    Climb(12, 0x1000, 83, COLUMNS_12, 819, 0x31e, 0xf7, 0x40a, 0x4b6, 0xc8e);
    Start(12, 0x1000);
    Climb(12, 0x1000, 83, COLUMNS_12, 2, 0x1, 0x1, 0x1, 0x2, 0x4);
    Climb(12, 0x1000, 83, COLUMNS_12, 36, 0x4, 0x10, 0x200, 0x493, 0x256);
    Climb(12, 0x1000, 83, COLUMNS_12, 585, 0x256, 0xba8, 0xcd3, 0xa79, 0x3a9);
  }

  lemma Powers12Part4()
    ensures IsPower(12, 0x1000, 315, 0xa85)
  {
    hide IsPower, Setup, Words, ToNat;
    Setup12();
    Start(12, 0x1000);
    Climb(12, 0x1000, 83, COLUMNS_12, 1, 0x1, 0x1, 0x1, 0x1, 0x2);
    Climb(12, 0x1000, 83, COLUMNS_12, 19, 0x2, 0x4, 0x10, 0x200, 0x926);
    Climb(12, 0x1000, 83, COLUMNS_12, 315, 0x926, 0x2e3, 0x189, 0x87a, 0xa85);
  }

  lemma Primitive12()
    ensures Primitive(12)
  {
    hide Exp, NoShorterPeriod, IsPrime, Primitive, IsPower;
    Powers12Part1(); Powers12Part2(); Powers12Part3(); Powers12Part4();
    PowerIsOne(12, 0x1000, 4095, 1);
    assert Pow2(6) == 64 && Pow2(12) == 4096;
    ShortPeriod(12, 0x1000, 3, 1365, 0x46);
    ShortPeriod(12, 0x1000, 5, 819, 0xc8e);
    ShortPeriod(12, 0x1000, 7, 585, 0x3a9);
    ShortPeriod(12, 0x1000, 13, 315, 0xa85);
    SmallPrimes();
    PrimitiveFrom(12, [3, 3, 5, 7, 13]);
  }

  // ----- 13 bits

  const COLUMNS_13 := Columns(0x1, 0x4, 0x10, 0x40, 0x100, 0x400, 0x1000, 0x36, 0xd8,
    0x360, 0xd80, 0x161b, 0x185a, 0x145, 0x514, 0x1450, 0x1176, 0x5ee, 0x17b8, 0x1ed6, 0x1b75)

  lemma Columns13()
    ensures Chain(0x2000, 27, COLUMNS_13)
    ensures Spread(COLUMNS_13, 27) == 0x145
  {
    assert Twice(0x2000, 27, 0x1, 0x4) && Twice(0x2000, 27, 0x4, 0x10) && Twice(0x2000, 27, 0x10, 0x40) && Twice(0x2000, 27, 0x40, 0x100);
    assert Twice(0x2000, 27, 0x100, 0x400) && Twice(0x2000, 27, 0x400, 0x1000) && Twice(0x2000, 27, 0x1000, 0x36) && Twice(0x2000, 27, 0x36, 0xd8);
    assert Twice(0x2000, 27, 0xd8, 0x360) && Twice(0x2000, 27, 0x360, 0xd80) && Twice(0x2000, 27, 0xd80, 0x161b) && Twice(0x2000, 27, 0x161b, 0x185a);
    assert Twice(0x2000, 27, 0x185a, 0x145) && Twice(0x2000, 27, 0x145, 0x514) && Twice(0x2000, 27, 0x514, 0x1450) && Twice(0x2000, 27, 0x1450, 0x1176);
    assert Twice(0x2000, 27, 0x1176, 0x5ee) && Twice(0x2000, 27, 0x5ee, 0x17b8) && Twice(0x2000, 27, 0x17b8, 0x1ed6) && Twice(0x2000, 27, 0x1ed6, 0x1b75);
    hide Twice;
  }

  lemma Setup13()
    ensures Setup(13, 0x2000, 27, COLUMNS_13)
  {
    hide Setup, Chain, Spread;
    assert IsTop(0x40, 6) && ToNat(27) == 27;
    assert Words(13, 0x2000, 27);
    hide Words, IsTop, ToNat;
    Columns13();
    SetupFrom(13, 0x2000, 27, COLUMNS_13, 0x145);
  }

  lemma Powers13Part1()
    ensures IsPower(13, 0x2000, 8191, 0x1)
  {
    hide IsPower, Setup, Words, ToNat;
    Setup13();
    Start(13, 0x2000);
    Climb(13, 0x2000, 27, COLUMNS_13, 1, 0x1, 0x1, 0x1, 0x1, 0x2);
    Climb(13, 0x2000, 27, COLUMNS_13, 31, 0x2, 0x8, 0x80, 0x6c, 0x8bb);
    Climb(13, 0x2000, 27, COLUMNS_13, 511, 0x8bb, 0x6cb, 0x1d3d, 0xc90, 0x1541);
    Climb(13, 0x2000, 27, COLUMNS_13, 8191, 0x1541, 0xa06, 0xac5, 0xab8, 0x1);
  }

  lemma Primitive13()
    ensures Primitive(13)
  {
    hide Exp, NoShorterPeriod, IsPrime, Primitive, IsPower;
    Powers13Part1();
    PowerIsOne(13, 0x2000, 8191, 1);
    assert Pow2(7) == 128 && Pow2(13) == 8192;
    TrivialPeriod(13);
    Prime8191();
    PrimitiveFrom(13, [8191]);
  }

  // ----- 14 bits

  const COLUMNS_14 := Columns(0x1, 0x4, 0x10, 0x40, 0x100, 0x400, 0x1000, 0x2b, 0xac,
    0x2b0, 0xac0, 0x2b00, 0x2c56, 0x310e, 0x445, 0x1114, 0x47b, 0x11ec, 0x79b, 0x1e6c, 0x399b)

  lemma Columns14()
    ensures Chain(0x4000, 43, COLUMNS_14)
    ensures Spread(COLUMNS_14, 43) == 0x445
  {
    assert Twice(0x4000, 43, 0x1, 0x4) && Twice(0x4000, 43, 0x4, 0x10) && Twice(0x4000, 43, 0x10, 0x40) && Twice(0x4000, 43, 0x40, 0x100);
    assert Twice(0x4000, 43, 0x100, 0x400) && Twice(0x4000, 43, 0x400, 0x1000) && Twice(0x4000, 43, 0x1000, 0x2b) && Twice(0x4000, 43, 0x2b, 0xac);
    assert Twice(0x4000, 43, 0xac, 0x2b0) && Twice(0x4000, 43, 0x2b0, 0xac0) && Twice(0x4000, 43, 0xac0, 0x2b00) && Twice(0x4000, 43, 0x2b00, 0x2c56);
    assert Twice(0x4000, 43, 0x2c56, 0x310e) && Twice(0x4000, 43, 0x310e, 0x445) && Twice(0x4000, 43, 0x445, 0x1114) && Twice(0x4000, 43, 0x1114, 0x47b);
    assert Twice(0x4000, 43, 0x47b, 0x11ec) && Twice(0x4000, 43, 0x11ec, 0x79b) && Twice(0x4000, 43, 0x79b, 0x1e6c) && Twice(0x4000, 43, 0x1e6c, 0x399b);
    hide Twice;
  }

  lemma Setup14()
    ensures Setup(14, 0x4000, 43, COLUMNS_14)
  {
    hide Setup, Chain, Spread;
    assert IsTop(0x80, 7) && ToNat(43) == 43;
    assert Words(14, 0x4000, 43);
    hide Words, IsTop, ToNat;
    Columns14();
    SetupFrom(14, 0x4000, 43, COLUMNS_14, 0x445);
  }

  lemma Powers14Part1()
    ensures IsPower(14, 0x4000, 16383, 0x1)
  {
    hide IsPower, Setup, Words, ToNat;
    Setup14();
    Start(14, 0x4000);
    Climb(14, 0x4000, 43, COLUMNS_14, 3, 0x1, 0x1, 0x1, 0x2, 0x8);
    Climb(14, 0x4000, 43, COLUMNS_14, 63, 0x8, 0x80, 0x56, 0x2228, 0x2fd7);
    Climb(14, 0x4000, 43, COLUMNS_14, 1023, 0x2fd7, 0x7d8, 0x336e, 0x1620, 0x67);
    Climb(14, 0x4000, 43, COLUMNS_14, 16383, 0x67, 0x282a, 0x3c94, 0x3b6d, 0x1);
  }

  lemma Powers14Part2()
    ensures IsPower(14, 0x4000, 5461, 0x21c8)
    ensures IsPower(14, 0x4000, 1, 0x2)
  {
    hide IsPower, Setup, Words, ToNat;
    Setup14();
    Start(14, 0x4000);
    Climb(14, 0x4000, 43, COLUMNS_14, 1, 0x1, 0x1, 0x1, 0x1, 0x2);
    Climb(14, 0x4000, 43, COLUMNS_14, 21, 0x2, 0x4, 0x20, 0x400, 0x1580);
    Climb(14, 0x4000, 43, COLUMNS_14, 341, 0x1580, 0x2611, 0x30d5, 0xc62, 0x2ba3);
    Climb(14, 0x4000, 43, COLUMNS_14, 5461, 0x2ba3, 0x1c3c, 0x118c, 0x2c81, 0x21c8);
  }

  lemma Powers14Part3()
    ensures IsPower(14, 0x4000, 381, 0xdb1)
    ensures IsPower(14, 0x4000, 129, 0x1f60)
  {
    hide IsPower, Setup, Words, ToNat;
    Setup14();
    Powers14Part2();
    Climb(14, 0x4000, 43, COLUMNS_14, 23, 0x2, 0x4, 0x20, 0x800, 0x162b);
    Climb(14, 0x4000, 43, COLUMNS_14, 381, 0x162b, 0xed, 0x28f4, 0xf35, 0xdb1);
    Start(14, 0x4000);
    Climb(14, 0x4000, 43, COLUMNS_14, 8, 0x1, 0x2, 0x4, 0x10, 0x100);
    Climb(14, 0x4000, 43, COLUMNS_14, 129, 0x100, 0xac, 0x47b, 0x1f85, 0x1f60);
  }

  lemma Primitive14()
    ensures Primitive(14)
  {
    hide Exp, NoShorterPeriod, IsPrime, Primitive, IsPower;
    Powers14Part1(); Powers14Part2(); Powers14Part3();
    PowerIsOne(14, 0x4000, 16383, 1);
    assert Pow2(7) == 128 && Pow2(14) == 16384;
    ShortPeriod(14, 0x4000, 3, 5461, 0x21c8);
    ShortPeriod(14, 0x4000, 43, 381, 0xdb1);
    ShortPeriod(14, 0x4000, 127, 129, 0x1f60);
    SmallPrimes();
    PrimitiveFrom(14, [3, 43, 127]);
  }

  // ----- 15 bits

  const COLUMNS_15 := Columns(0x1, 0x4, 0x10, 0x40, 0x100, 0x400, 0x1000, 0x4000, 0x6,
    0x18, 0x60, 0x180, 0x600, 0x1800, 0x6000, 0x5, 0x14, 0x50, 0x140, 0x500, 0x1400)

  lemma Columns15()
    ensures Chain(0x8000, 3, COLUMNS_15)
    ensures Spread(COLUMNS_15, 3) == 0x5
  {
    assert Twice(0x8000, 3, 0x1, 0x4) && Twice(0x8000, 3, 0x4, 0x10) && Twice(0x8000, 3, 0x10, 0x40) && Twice(0x8000, 3, 0x40, 0x100);
    assert Twice(0x8000, 3, 0x100, 0x400) && Twice(0x8000, 3, 0x400, 0x1000) && Twice(0x8000, 3, 0x1000, 0x4000) && Twice(0x8000, 3, 0x4000, 0x6);
    assert Twice(0x8000, 3, 0x6, 0x18) && Twice(0x8000, 3, 0x18, 0x60) && Twice(0x8000, 3, 0x60, 0x180) && Twice(0x8000, 3, 0x180, 0x600);
    assert Twice(0x8000, 3, 0x600, 0x1800) && Twice(0x8000, 3, 0x1800, 0x6000) && Twice(0x8000, 3, 0x6000, 0x5) && Twice(0x8000, 3, 0x5, 0x14);
    assert Twice(0x8000, 3, 0x14, 0x50) && Twice(0x8000, 3, 0x50, 0x140) && Twice(0x8000, 3, 0x140, 0x500) && Twice(0x8000, 3, 0x500, 0x1400);
    hide Twice;
  }

  lemma Setup15()
    ensures Setup(15, 0x8000, 3, COLUMNS_15)
  {
    hide Setup, Chain, Spread;
    assert IsTop(0x80, 7) && ToNat(3) == 3;
    assert Words(15, 0x8000, 3);
    hide Words, IsTop, ToNat;
    Columns15();
    SetupFrom(15, 0x8000, 3, COLUMNS_15, 0x5);
  }

  lemma Powers15Part1()
    ensures IsPower(15, 0x8000, 32767, 0x1)
  {
    hide IsPower, Setup, Words, ToNat;
    Setup15();
    Start(15, 0x8000);
    Climb(15, 0x8000, 3, COLUMNS_15, 7, 0x1, 0x1, 0x2, 0x8, 0x80);
    Climb(15, 0x8000, 3, COLUMNS_15, 127, 0x80, 0x3, 0xa, 0x88, 0x83);
    Climb(15, 0x8000, 3, COLUMNS_15, 2047, 0x83, 0x9, 0x82, 0xb, 0x8a);
    Climb(15, 0x8000, 3, COLUMNS_15, 32767, 0x8a, 0x8b, 0x89, 0x81, 0x1);
  }

  lemma Powers15Part2()
    ensures IsPower(15, 0x8000, 4681, 0x1632)
  {
    hide IsPower, Setup, Words, ToNat;
    Setup15();
    Start(15, 0x8000);
    Climb(15, 0x8000, 3, COLUMNS_15, 1, 0x1, 0x1, 0x1, 0x1, 0x2);
    Climb(15, 0x8000, 3, COLUMNS_15, 18, 0x2, 0x4, 0x10, 0x200, 0x18);
    Climb(15, 0x8000, 3, COLUMNS_15, 292, 0x18, 0x140, 0x200c, 0x1850, 0x1680);
    Climb(15, 0x8000, 3, COLUMNS_15, 4681, 0x1680, 0xcf3, 0x54e5, 0x3271, 0x1632);
  }

  lemma Powers15Part3()
    ensures IsPower(15, 0x8000, 1057, 0x270)
    ensures IsPower(15, 0x8000, 13, 0x2000)
  {
    hide IsPower, Setup, Words, ToNat;
    Setup15();
    Start(15, 0x8000);
    Climb(15, 0x8000, 3, COLUMNS_15, 4, 0x1, 0x1, 0x2, 0x4, 0x10);
    Climb(15, 0x8000, 3, COLUMNS_15, 66, 0x10, 0x100, 0x6, 0x28, 0x440);
    Climb(15, 0x8000, 3, COLUMNS_15, 1057, 0x440, 0x1060, 0x1200, 0x618, 0x270);
    Climb(15, 0x8000, 3, COLUMNS_15, 13, 0x1, 0x2, 0x8, 0x40, 0x2000);
  }

  lemma Powers15Part4()
    ensures IsPower(15, 0x8000, 217, 0x2a7f)
  {
    hide IsPower, Setup, Words, ToNat;
    Setup15();
    Powers15Part3();
    Climb(15, 0x8000, 3, COLUMNS_15, 217, 0x2000, 0x3000, 0x1e00, 0x7f8, 0x2a7f);
  }

  lemma Primitive15()
    ensures Primitive(15)
  {
    hide Exp, NoShorterPeriod, IsPrime, Primitive, IsPower;
    Powers15Part1(); Powers15Part2(); Powers15Part3(); Powers15Part4();
    PowerIsOne(15, 0x8000, 32767, 1);
    assert Pow2(8) == 256 && Pow2(15) == 32768;
    ShortPeriod(15, 0x8000, 7, 4681, 0x1632);
    ShortPeriod(15, 0x8000, 31, 1057, 0x270);
    ShortPeriod(15, 0x8000, 151, 217, 0x2a7f);
    SmallPrimes();
    PrimitiveFrom(15, [7, 31, 151]);
  }

  // ----- 16 bits

  const COLUMNS_16 := Columns(0x1, 0x4, 0x10, 0x40, 0x100, 0x400, 0x1000, 0x4000, 0x2d,
    0xb4, 0x2d0, 0xb40, 0x2d00, 0xb400, 0xd05a, 0x411f, 0x451, 0x1144, 0x4510, 0x146d, 0x51b4)

  lemma Columns16()
    ensures Chain(0x10000, 45, COLUMNS_16)
    ensures Spread(COLUMNS_16, 45) == 0x451
  {
    assert Twice(0x10000, 45, 0x1, 0x4) && Twice(0x10000, 45, 0x4, 0x10) && Twice(0x10000, 45, 0x10, 0x40) && Twice(0x10000, 45, 0x40, 0x100);
    assert Twice(0x10000, 45, 0x100, 0x400) && Twice(0x10000, 45, 0x400, 0x1000) && Twice(0x10000, 45, 0x1000, 0x4000) && Twice(0x10000, 45, 0x4000, 0x2d);
    assert Twice(0x10000, 45, 0x2d, 0xb4) && Twice(0x10000, 45, 0xb4, 0x2d0) && Twice(0x10000, 45, 0x2d0, 0xb40) && Twice(0x10000, 45, 0xb40, 0x2d00);
    assert Twice(0x10000, 45, 0x2d00, 0xb400) && Twice(0x10000, 45, 0xb400, 0xd05a) && Twice(0x10000, 45, 0xd05a, 0x411f) && Twice(0x10000, 45, 0x411f, 0x451);
    assert Twice(0x10000, 45, 0x451, 0x1144) && Twice(0x10000, 45, 0x1144, 0x4510) && Twice(0x10000, 45, 0x4510, 0x146d) && Twice(0x10000, 45, 0x146d, 0x51b4);
    hide Twice;
  }

  lemma Setup16()
    ensures Setup(16, 0x10000, 45, COLUMNS_16)
  {
    hide Setup, Chain, Spread;
    assert IsTop(0x100, 8) && ToNat(45) == 45;
    assert Words(16, 0x10000, 45);
    hide Words, IsTop, ToNat;
    Columns16();
    SetupFrom(16, 0x10000, 45, COLUMNS_16, 0x451);
  }

  lemma Powers16Part1()
    ensures IsPower(16, 0x10000, 4095, 0x9ec3)
  {
    hide IsPower, Setup, Words, ToNat;
    Setup16();
    Start(16, 0x10000);
    Climb(16, 0x10000, 45, COLUMNS_16, 15, 0x1, 0x2, 0x8, 0x80, 0x8000);
    Climb(16, 0x10000, 45, COLUMNS_16, 255, 0x8000, 0x823e, 0x89fe, 0x3e4c, 0xc5);
    Climb(16, 0x10000, 45, COLUMNS_16, 4095, 0xc5, 0xa022, 0xe21b, 0x4968, 0x9ec3);
  }

  lemma Powers16Part2()
    ensures IsPower(16, 0x10000, 65535, 0x1)
    ensures IsPower(16, 0x10000, 85, 0xef3)
  {
    hide IsPower, Setup, Words, ToNat;
    Setup16();
    Powers16Part1();
    Climb(16, 0x10000, 45, COLUMNS_16, 65535, 0x9ec3, 0x6a7c, 0xf5fc, 0xbfd0, 0x1);
    Start(16, 0x10000);
    Climb(16, 0x10000, 45, COLUMNS_16, 5, 0x1, 0x1, 0x2, 0x4, 0x20);
    Climb(16, 0x10000, 45, COLUMNS_16, 85, 0x20, 0x400, 0x5a0, 0x46fd, 0xef3);
  }

  lemma Powers16Part3()
    ensures IsPower(16, 0x10000, 21845, 0xacca)
    ensures IsPower(16, 0x10000, 3, 0x8)
  {
    hide IsPower, Setup, Words, ToNat;
    Setup16();
    Powers16Part2();
    Climb(16, 0x10000, 45, COLUMNS_16, 1365, 0xef3, 0x5c21, 0xe1bb, 0x602d, 0xc016);
    Climb(16, 0x10000, 45, COLUMNS_16, 21845, 0xc016, 0x9051, 0xfa3c, 0x6e1, 0xacca);
    Start(16, 0x10000);
    Climb(16, 0x10000, 45, COLUMNS_16, 3, 0x1, 0x1, 0x1, 0x2, 0x8);
  }

  lemma Powers16Part4()
    ensures IsPower(16, 0x10000, 13107, 0x86fa)
  {
    hide IsPower, Setup, Words, ToNat;
    Setup16();
    Powers16Part3();
    Climb(16, 0x10000, 45, COLUMNS_16, 51, 0x8, 0x40, 0x1000, 0x5a00, 0xed71);
    Climb(16, 0x10000, 45, COLUMNS_16, 819, 0xed71, 0x39f9, 0xc72c, 0x2e95, 0xf847);
    Climb(16, 0x10000, 45, COLUMNS_16, 13107, 0xf847, 0x1310, 0x2c99, 0xf98f, 0x86fa);
  }

  lemma Powers16Part5()
    ensures IsPower(16, 0x10000, 3855, 0xacb4)
    ensures IsPower(16, 0x10000, 15, 0x8000)
  {
    hide IsPower, Setup, Words, ToNat;
    Setup16();
    Start(16, 0x10000);
    Climb(16, 0x10000, 45, COLUMNS_16, 15, 0x1, 0x2, 0x8, 0x80, 0x8000);
    Climb(16, 0x10000, 45, COLUMNS_16, 240, 0x8000, 0x411f, 0xd122, 0xb86c, 0xc70f);
    Climb(16, 0x10000, 45, COLUMNS_16, 3855, 0xc70f, 0x269f, 0xee4f, 0x7868, 0xacb4);
  }

  lemma Powers16Part6()
    ensures IsPower(16, 0x10000, 255, 0xc5)
  {
    hide IsPower, Setup, Words, ToNat;
    Setup16();
    Powers16Part5();
    Climb(16, 0x10000, 45, COLUMNS_16, 255, 0x8000, 0x823e, 0x89fe, 0x3e4c, 0xc5);
  }

  lemma Primitive16()
    ensures Primitive(16)
  {
    hide Exp, NoShorterPeriod, IsPrime, Primitive, IsPower;
    Powers16Part2(); Powers16Part3(); Powers16Part4(); Powers16Part5(); Powers16Part6();
    PowerIsOne(16, 0x10000, 65535, 1);
    assert Pow2(8) == 256 && Pow2(16) == 65536;
    ShortPeriod(16, 0x10000, 3, 21845, 0xacca);
    ShortPeriod(16, 0x10000, 5, 13107, 0x86fa);
    ShortPeriod(16, 0x10000, 17, 3855, 0xacb4);
    ShortPeriod(16, 0x10000, 257, 255, 0xc5);
    SmallPrimes();
    PrimitiveFrom(16, [3, 5, 17, 257]);
  }

  // ----- 17 bits

  const COLUMNS_17 := Columns(0x1, 0x4, 0x10, 0x40, 0x100, 0x400, 0x1000, 0x4000, 0x10000,
    0x12, 0x48, 0x120, 0x480, 0x1200, 0x4800, 0x12000, 0x8012, 0x41, 0x104, 0x410, 0x1040)

  lemma Columns17()
    ensures Chain(0x20000, 9, COLUMNS_17)
    ensures Spread(COLUMNS_17, 9) == 0x41
  {
    assert Twice(0x20000, 9, 0x1, 0x4) && Twice(0x20000, 9, 0x4, 0x10) && Twice(0x20000, 9, 0x10, 0x40) && Twice(0x20000, 9, 0x40, 0x100);
    assert Twice(0x20000, 9, 0x100, 0x400) && Twice(0x20000, 9, 0x400, 0x1000) && Twice(0x20000, 9, 0x1000, 0x4000) && Twice(0x20000, 9, 0x4000, 0x10000);
    assert Twice(0x20000, 9, 0x10000, 0x12) && Twice(0x20000, 9, 0x12, 0x48) && Twice(0x20000, 9, 0x48, 0x120) && Twice(0x20000, 9, 0x120, 0x480);
    assert Twice(0x20000, 9, 0x480, 0x1200) && Twice(0x20000, 9, 0x1200, 0x4800) && Twice(0x20000, 9, 0x4800, 0x12000) && Twice(0x20000, 9, 0x12000, 0x8012);
    assert Twice(0x20000, 9, 0x8012, 0x41) && Twice(0x20000, 9, 0x41, 0x104) && Twice(0x20000, 9, 0x104, 0x410) && Twice(0x20000, 9, 0x410, 0x1040);
    hide Twice;
  }

  lemma Setup17()
    ensures Setup(17, 0x20000, 9, COLUMNS_17)
  {
    hide Setup, Chain, Spread;
    assert IsTop(0x100, 8) && ToNat(9) == 9;
    assert Words(17, 0x20000, 9);
    hide Words, IsTop, ToNat;
    Columns17();
    SetupFrom(17, 0x20000, 9, COLUMNS_17, 0x41);
  }

  lemma Powers17Part1()
    ensures IsPower(17, 0x20000, 511, 0xf925)
  {
    hide IsPower, Setup, Words, ToNat;
    Setup17();
    Start(17, 0x20000);
    Climb(17, 0x20000, 9, COLUMNS_17, 1, 0x1, 0x1, 0x1, 0x1, 0x2);
    Climb(17, 0x20000, 9, COLUMNS_17, 31, 0x2, 0x8, 0x80, 0x8000, 0x4009);
    Climb(17, 0x20000, 9, COLUMNS_17, 511, 0x4009, 0x9082, 0xc901, 0xd242, 0xf925);
  }

  lemma Powers17Part2()
    ensures IsPower(17, 0x20000, 131071, 0x1)
  {
    hide IsPower, Setup, Words, ToNat;
    Setup17();
    Powers17Part1();
    Climb(17, 0x20000, 9, COLUMNS_17, 8191, 0xf925, 0xf762, 0xd5bc, 0x5330, 0x932d);
    Climb(17, 0x20000, 9, COLUMNS_17, 131071, 0x932d, 0x4186, 0x1021, 0x102, 0x1);
  }

  lemma Primitive17()
    ensures Primitive(17)
  {
    hide Exp, NoShorterPeriod, IsPrime, Primitive, IsPower;
    Powers17Part2();
    PowerIsOne(17, 0x20000, 131071, 1);
    assert Pow2(9) == 512 && Pow2(17) == 131072;
    TrivialPeriod(17);
    Prime131071();
    PrimitiveFrom(17, [131071]);
  }

  // ----- 18 bits

  const COLUMNS_18 := Columns(0x1, 0x4, 0x10, 0x40, 0x100, 0x400, 0x1000, 0x4000, 0x10000,
    0x27, 0x9c, 0x270, 0x9c0, 0x2700, 0x9c00, 0x27000, 0x1c04e, 0x3011f, 0x415, 0x1054, 0x4150)

  lemma Columns18()
    ensures Chain(0x40000, 39, COLUMNS_18)
    ensures Spread(COLUMNS_18, 39) == 0x415
  {
    assert Twice(0x40000, 39, 0x1, 0x4) && Twice(0x40000, 39, 0x4, 0x10) && Twice(0x40000, 39, 0x10, 0x40) && Twice(0x40000, 39, 0x40, 0x100);
    assert Twice(0x40000, 39, 0x100, 0x400) && Twice(0x40000, 39, 0x400, 0x1000) && Twice(0x40000, 39, 0x1000, 0x4000) && Twice(0x40000, 39, 0x4000, 0x10000);
    assert Twice(0x40000, 39, 0x10000, 0x27) && Twice(0x40000, 39, 0x27, 0x9c) && Twice(0x40000, 39, 0x9c, 0x270) && Twice(0x40000, 39, 0x270, 0x9c0);
    assert Twice(0x40000, 39, 0x9c0, 0x2700) && Twice(0x40000, 39, 0x2700, 0x9c00) && Twice(0x40000, 39, 0x9c00, 0x27000) && Twice(0x40000, 39, 0x27000, 0x1c04e);
    assert Twice(0x40000, 39, 0x1c04e, 0x3011f) && Twice(0x40000, 39, 0x3011f, 0x415) && Twice(0x40000, 39, 0x415, 0x1054) && Twice(0x40000, 39, 0x1054, 0x4150);
    hide Twice;
  }

  lemma Setup18()
    ensures Setup(18, 0x40000, 39, COLUMNS_18)
  {
    hide Setup, Chain, Spread;
    assert IsTop(0x200, 9) && ToNat(39) == 39;
    assert Words(18, 0x40000, 39);
    hide Words, IsTop, ToNat;
    Columns18();
    SetupFrom(18, 0x40000, 39, COLUMNS_18, 0x415);
  }

  lemma Powers18Part1()
    ensures IsPower(18, 0x40000, 1023, 0x17e2e)
  {
    hide IsPower, Setup, Words, ToNat;
    Setup18();
    Start(18, 0x40000);
    Climb(18, 0x40000, 39, COLUMNS_18, 3, 0x1, 0x1, 0x1, 0x2, 0x8);
    Climb(18, 0x40000, 39, COLUMNS_18, 63, 0x8, 0x80, 0x8000, 0xe027, 0x19e0d);
    Climb(18, 0x40000, 39, COLUMNS_18, 1023, 0x19e0d, 0x3760f, 0xe6d9, 0x135d3, 0x17e2e);
  }

  lemma Powers18Part2()
    ensures IsPower(18, 0x40000, 262143, 0x1)
    ensures IsPower(18, 0x40000, 1, 0x2)
  {
    hide IsPower, Setup, Words, ToNat;
    Setup18();
    Powers18Part1();
    Climb(18, 0x40000, 39, COLUMNS_18, 16383, 0x17e2e, 0x2e822, 0x398d6, 0x1d7ea, 0xe2c5);
    Climb(18, 0x40000, 39, COLUMNS_18, 262143, 0xe2c5, 0x1364b, 0x3fce0, 0xaafa, 0x1);
    Start(18, 0x40000);
    Climb(18, 0x40000, 39, COLUMNS_18, 1, 0x1, 0x1, 0x1, 0x1, 0x2);
  }

  lemma Powers18Part3()
    ensures IsPower(18, 0x40000, 5461, 0x36b35)
  {
    hide IsPower, Setup, Words, ToNat;
    Setup18();
    Powers18Part2();
    Climb(18, 0x40000, 39, COLUMNS_18, 21, 0x2, 0x4, 0x20, 0x400, 0x138);
    Climb(18, 0x40000, 39, COLUMNS_18, 341, 0x138, 0x10540, 0x1a1a4, 0x2d35e, 0x1eb58);
    Climb(18, 0x40000, 39, COLUMNS_18, 5461, 0x1eb58, 0x21859, 0x237fb, 0x27a21, 0x36b35);
  }

  lemma Powers18Part4()
    ensures IsPower(18, 0x40000, 87381, 0x17625)
    ensures IsPower(18, 0x40000, 146, 0x10163)
  {
    hide IsPower, Setup, Words, ToNat;
    Setup18();
    Powers18Part3();
    Climb(18, 0x40000, 39, COLUMNS_18, 87381, 0x36b35, 0x37d17, 0x2e0f7, 0x19f0a, 0x17625);
    Start(18, 0x40000);
    Climb(18, 0x40000, 39, COLUMNS_18, 9, 0x1, 0x2, 0x4, 0x10, 0x200);
    Climb(18, 0x40000, 39, COLUMNS_18, 146, 0x200, 0x27, 0x415, 0x31a, 0x10163);
  }

  lemma Powers18Part5()
    ensures IsPower(18, 0x40000, 37449, 0x14df0)
    ensures IsPower(18, 0x40000, 3, 0x8)
  {
    hide IsPower, Setup, Words, ToNat;
    Setup18();
    Powers18Part4();
    Climb(18, 0x40000, 39, COLUMNS_18, 2340, 0x10163, 0xd44b, 0x1ea15, 0x30808, 0x2c361);
    Climb(18, 0x40000, 39, COLUMNS_18, 37449, 0x2c361, 0x1f272, 0x317ad, 0x38c7b, 0x14df0);
    Start(18, 0x40000);
    Climb(18, 0x40000, 39, COLUMNS_18, 3, 0x1, 0x1, 0x1, 0x2, 0x8);
  }

  lemma Powers18Part6()
    ensures IsPower(18, 0x40000, 862, 0x1b96e)
  {
    hide IsPower, Setup, Words, ToNat;
    Setup18();
    Powers18Part5();
    Climb(18, 0x40000, 39, COLUMNS_18, 53, 0x8, 0x40, 0x2000, 0x2700, 0x24f76);
    Climb(18, 0x40000, 39, COLUMNS_18, 862, 0x24f76, 0x115a7, 0x11a0e, 0x3971a, 0x1b96e);
  }

  lemma Powers18Part7()
    ensures IsPower(18, 0x40000, 13797, 0x38842)
    ensures IsPower(18, 0x40000, 224, 0xe03)
  {
    hide IsPower, Setup, Words, ToNat;
    Setup18();
    Powers18Part6();
    Climb(18, 0x40000, 39, COLUMNS_18, 13797, 0x1b96e, 0x288aa, 0x26e56, 0x3a9c0, 0x38842);
    Start(18, 0x40000);
    Climb(18, 0x40000, 39, COLUMNS_18, 14, 0x1, 0x2, 0x8, 0x80, 0x4000);
    Climb(18, 0x40000, 39, COLUMNS_18, 224, 0x4000, 0x9c00, 0x27b2c, 0x2b5d8, 0xe03);
  }

  lemma Powers18Part8()
    ensures IsPower(18, 0x40000, 3591, 0x1dc)
  {
    hide IsPower, Setup, Words, ToNat;
    Setup18();
    Powers18Part7();
    Climb(18, 0x40000, 39, COLUMNS_18, 3591, 0xe03, 0x2ce, 0xa0e6, 0x60f, 0x1dc);
  }

  lemma Primitive18()
    ensures Primitive(18)
  {
    hide Exp, NoShorterPeriod, IsPrime, Primitive, IsPower;
    Powers18Part2(); Powers18Part4(); Powers18Part5(); Powers18Part7(); Powers18Part8();
    PowerIsOne(18, 0x40000, 262143, 1);
    assert Pow2(9) == 512 && Pow2(18) == 262144;
    ShortPeriod(18, 0x40000, 3, 87381, 0x17625);
    ShortPeriod(18, 0x40000, 7, 37449, 0x14df0);
    ShortPeriod(18, 0x40000, 19, 13797, 0x38842);
    ShortPeriod(18, 0x40000, 73, 3591, 0x1dc);
    SmallPrimes();
    PrimitiveFrom(18, [3, 3, 3, 7, 19, 73]);
  }

  // ----- 19 bits

  const COLUMNS_19 := Columns(0x1, 0x4, 0x10, 0x40, 0x100, 0x400, 0x1000, 0x4000, 0x10000,
    0x40000, 0x4e, 0x138, 0x4e0, 0x1380, 0x4e00, 0x13800, 0x4e000, 0x3804e, 0x6011f, 0x415, 0x1054)

  lemma Columns19()
    ensures Chain(0x80000, 39, COLUMNS_19)
    ensures Spread(COLUMNS_19, 39) == 0x415
  {
    assert Twice(0x80000, 39, 0x1, 0x4) && Twice(0x80000, 39, 0x4, 0x10) && Twice(0x80000, 39, 0x10, 0x40) && Twice(0x80000, 39, 0x40, 0x100);
    assert Twice(0x80000, 39, 0x100, 0x400) && Twice(0x80000, 39, 0x400, 0x1000) && Twice(0x80000, 39, 0x1000, 0x4000) && Twice(0x80000, 39, 0x4000, 0x10000);
    assert Twice(0x80000, 39, 0x10000, 0x40000) && Twice(0x80000, 39, 0x40000, 0x4e) && Twice(0x80000, 39, 0x4e, 0x138) && Twice(0x80000, 39, 0x138, 0x4e0);
    assert Twice(0x80000, 39, 0x4e0, 0x1380) && Twice(0x80000, 39, 0x1380, 0x4e00) && Twice(0x80000, 39, 0x4e00, 0x13800) && Twice(0x80000, 39, 0x13800, 0x4e000);
    assert Twice(0x80000, 39, 0x4e000, 0x3804e) && Twice(0x80000, 39, 0x3804e, 0x6011f) && Twice(0x80000, 39, 0x6011f, 0x415) && Twice(0x80000, 39, 0x415, 0x1054);
    hide Twice;
  }

  lemma Setup19()
    ensures Setup(19, 0x80000, 39, COLUMNS_19)
  {
    hide Setup, Chain, Spread;
    assert IsTop(0x200, 9) && ToNat(39) == 39;
    assert Words(19, 0x80000, 39);
    hide Words, IsTop, ToNat;
    Columns19();
    SetupFrom(19, 0x80000, 39, COLUMNS_19, 0x415);
  }

  lemma Powers19Part1()
    ensures IsPower(19, 0x80000, 2047, 0x2e84c)
  {
    hide IsPower, Setup, Words, ToNat;
    Setup19();
    Start(19, 0x80000);
    Climb(19, 0x80000, 39, COLUMNS_19, 7, 0x1, 0x1, 0x2, 0x8, 0x80);
    Climb(19, 0x80000, 39, COLUMNS_19, 127, 0x80, 0x8000, 0x27000, 0x7b25c, 0xbee5);
    Climb(19, 0x80000, 39, COLUMNS_19, 2047, 0xbee5, 0x2f429, 0x5ca42, 0x70c61, 0x2e84c);
  }

  lemma Powers19Part2()
    ensures IsPower(19, 0x80000, 524287, 0x1)
  {
    hide IsPower, Setup, Words, ToNat;
    Setup19();
    Powers19Part1();
    Climb(19, 0x80000, 39, COLUMNS_19, 32767, 0x2e84c, 0x5e94c, 0x52bee, 0x74fc1, 0xfc6b);
    Climb(19, 0x80000, 39, COLUMNS_19, 524287, 0xfc6b, 0x2e8a6, 0x541c4, 0x7fe1e, 0x1);
  }

  lemma Primitive19()
    ensures Primitive(19)
  {
    hide Exp, NoShorterPeriod, IsPrime, Primitive, IsPower;
    Powers19Part2();
    PowerIsOne(19, 0x80000, 524287, 1);
    assert Pow2(10) == 1024 && Pow2(19) == 524288;
    TrivialPeriod(19);
    Prime524287();
    PrimitiveFrom(19, [524287]);
  }

  // ----- 20 bits

  const COLUMNS_20 := Columns(0x1, 0x4, 0x10, 0x40, 0x100, 0x400, 0x1000, 0x4000, 0x10000,
    0x40000, 0x9, 0x24, 0x90, 0x240, 0x900, 0x2400, 0x9000, 0x24000, 0x90000, 0x40012, 0x41)

  lemma Columns20()
    ensures Chain(0x100000, 9, COLUMNS_20)
    ensures Spread(COLUMNS_20, 9) == 0x41
  {
    assert Twice(0x100000, 9, 0x1, 0x4) && Twice(0x100000, 9, 0x4, 0x10) && Twice(0x100000, 9, 0x10, 0x40) && Twice(0x100000, 9, 0x40, 0x100);
    assert Twice(0x100000, 9, 0x100, 0x400) && Twice(0x100000, 9, 0x400, 0x1000) && Twice(0x100000, 9, 0x1000, 0x4000) && Twice(0x100000, 9, 0x4000, 0x10000);
    assert Twice(0x100000, 9, 0x10000, 0x40000) && Twice(0x100000, 9, 0x40000, 0x9) && Twice(0x100000, 9, 0x9, 0x24) && Twice(0x100000, 9, 0x24, 0x90);
    assert Twice(0x100000, 9, 0x90, 0x240) && Twice(0x100000, 9, 0x240, 0x900) && Twice(0x100000, 9, 0x900, 0x2400) && Twice(0x100000, 9, 0x2400, 0x9000);
    assert Twice(0x100000, 9, 0x9000, 0x24000) && Twice(0x100000, 9, 0x24000, 0x90000) && Twice(0x100000, 9, 0x90000, 0x40012) && Twice(0x100000, 9, 0x40012, 0x41);
    hide Twice;
  }

  lemma Setup20()
    ensures Setup(20, 0x100000, 9, COLUMNS_20)
  {
    hide Setup, Chain, Spread;
    assert IsTop(0x400, 10) && ToNat(9) == 9;
    assert Words(20, 0x100000, 9);
    hide Words, IsTop, ToNat;
    Columns20();
    SetupFrom(20, 0x100000, 9, COLUMNS_20, 0x41);
  }

  lemma Powers20Part1()
    ensures IsPower(20, 0x100000, 4095, 0x88817)
  {
    hide IsPower, Setup, Words, ToNat;
    Setup20();
    Start(20, 0x100000);
    Climb(20, 0x100000, 9, COLUMNS_20, 15, 0x1, 0x2, 0x8, 0x80, 0x8000);
    Climb(20, 0x100000, 9, COLUMNS_20, 255, 0x8000, 0x4800, 0x1248, 0x821a0, 0xa8ca4);
    Climb(20, 0x100000, 9, COLUMNS_20, 4095, 0xa8ca4, 0xc405e, 0xa3085, 0xc05a6, 0x88817);
  }

  lemma Powers20Part2()
    ensures IsPower(20, 0x100000, 1048575, 0x1)
    ensures IsPower(20, 0x100000, 5, 0x20)
  {
    hide IsPower, Setup, Words, ToNat;
    Setup20();
    Powers20Part1();
    Climb(20, 0x100000, 9, COLUMNS_20, 65535, 0x88817, 0x84a46, 0x3244, 0x82580, 0xa84b6);
    Climb(20, 0x100000, 9, COLUMNS_20, 1048575, 0xa84b6, 0xc421e, 0x21085, 0x40102, 0x1);
    Start(20, 0x100000);
    Climb(20, 0x100000, 9, COLUMNS_20, 5, 0x1, 0x1, 0x2, 0x4, 0x20);
  }

  lemma Powers20Part3()
    ensures IsPower(20, 0x100000, 21845, 0x51ac2)
  {
    hide IsPower, Setup, Words, ToNat;
    Setup20();
    Powers20Part2();
    Climb(20, 0x100000, 9, COLUMNS_20, 85, 0x20, 0x400, 0x12, 0x104, 0x20020);
    Climb(20, 0x100000, 9, COLUMNS_20, 1365, 0x20020, 0x24400, 0x49212, 0xd2594, 0x9a69f);
    Climb(20, 0x100000, 9, COLUMNS_20, 21845, 0x9a69f, 0xf70e, 0xa5f1a, 0x348eb, 0x51ac2);
  }

  lemma Powers20Part4()
    ensures IsPower(20, 0x100000, 349525, 0xc5deb)
    ensures IsPower(20, 0x100000, 51, 0x20800)
  {
    hide IsPower, Setup, Words, ToNat;
    Setup20();
    Powers20Part3();
    Climb(20, 0x100000, 9, COLUMNS_20, 349525, 0x51ac2, 0xdc0b0, 0xbf02d, 0x6fb93, 0xc5deb);
    Start(20, 0x100000);
    Climb(20, 0x100000, 9, COLUMNS_20, 3, 0x1, 0x1, 0x1, 0x2, 0x8);
    Climb(20, 0x100000, 9, COLUMNS_20, 51, 0x8, 0x40, 0x1000, 0x120, 0x20800);
  }

  lemma Powers20Part5()
    ensures IsPower(20, 0x100000, 209715, 0xff200)
  {
    hide IsPower, Setup, Words, ToNat;
    Setup20();
    Powers20Part4();
    Climb(20, 0x100000, 9, COLUMNS_20, 819, 0x20800, 0x24024, 0x24d10, 0x6905a, 0x6eba1);
    Climb(20, 0x100000, 9, COLUMNS_20, 13107, 0x6eba1, 0xe2b65, 0xa5667, 0x4bb3c, 0x84741);
    Climb(20, 0x100000, 9, COLUMNS_20, 209715, 0x84741, 0x1191a, 0x191f0, 0x3c320, 0xff200);
  }

  lemma Powers20Part6()
    ensures IsPower(20, 0x100000, 372, 0x48009)
  {
    hide IsPower, Setup, Words, ToNat;
    Setup20();
    Start(20, 0x100000);
    Climb(20, 0x100000, 9, COLUMNS_20, 1, 0x1, 0x1, 0x1, 0x1, 0x2);
    Climb(20, 0x100000, 9, COLUMNS_20, 23, 0x2, 0x4, 0x20, 0x800, 0x48);
    Climb(20, 0x100000, 9, COLUMNS_20, 372, 0x48, 0x1040, 0x2120, 0x10640, 0x48009);
  }

  lemma Powers20Part7()
    ensures IsPower(20, 0x100000, 95325, 0x4a5df)
    ensures IsPower(20, 0x100000, 8, 0x100)
  {
    hide IsPower, Setup, Words, ToNat;
    Setup20();
    Powers20Part6();
    Climb(20, 0x100000, 9, COLUMNS_20, 5957, 0x48009, 0x92441, 0x904b4, 0x4d50b, 0x5bb1);
    Climb(20, 0x100000, 9, COLUMNS_20, 95325, 0x5bb1, 0xa996a, 0xee1c4, 0xe3f42, 0x4a5df);
    Start(20, 0x100000);
    Climb(20, 0x100000, 9, COLUMNS_20, 8, 0x1, 0x2, 0x4, 0x10, 0x100);
  }

  lemma Powers20Part8()
    ensures IsPower(20, 0x100000, 33825, 0x1e639)
  {
    hide IsPower, Setup, Words, ToNat;
    Setup20();
    Powers20Part7();
    Climb(20, 0x100000, 9, COLUMNS_20, 132, 0x100, 0x10000, 0x12000, 0x9240, 0x43490);
    Climb(20, 0x100000, 9, COLUMNS_20, 2114, 0x43490, 0x943d9, 0x1c853, 0x15842, 0x89b0);
    Climb(20, 0x100000, 9, COLUMNS_20, 33825, 0x89b0, 0x16124, 0x19f50, 0x5a5bd, 0x1e639);
  }

  lemma Powers20Part9()
    ensures IsPower(20, 0x100000, 1598, 0x2306d)
  {
    hide IsPower, Setup, Words, ToNat;
    Setup20();
    Start(20, 0x100000);
    Climb(20, 0x100000, 9, COLUMNS_20, 6, 0x1, 0x1, 0x2, 0x8, 0x40);
    Climb(20, 0x100000, 9, COLUMNS_20, 99, 0x40, 0x1000, 0x90, 0x8200, 0x84800);
    Climb(20, 0x100000, 9, COLUMNS_20, 1598, 0x84800, 0x8126c, 0x29a4, 0x28ce8, 0x2306d);
  }

  lemma Powers20Part10()
    ensures IsPower(20, 0x100000, 25575, 0xa00ea)
  {
    hide IsPower, Setup, Words, ToNat;
    Setup20();
    Powers20Part9();
    Climb(20, 0x100000, 9, COLUMNS_20, 25575, 0x2306d, 0x25681, 0xc1330, 0xb0d, 0xa00ea);
  }

  lemma Primitive20()
    ensures Primitive(20)
  {
    hide Exp, NoShorterPeriod, IsPrime, Primitive, IsPower;
    Powers20Part2(); Powers20Part4(); Powers20Part5(); Powers20Part7(); Powers20Part8(); Powers20Part10();
    PowerIsOne(20, 0x100000, 1048575, 1);
    assert Pow2(10) == 1024 && Pow2(20) == 1048576;
    ShortPeriod(20, 0x100000, 3, 349525, 0xc5deb);
    ShortPeriod(20, 0x100000, 5, 209715, 0xff200);
    ShortPeriod(20, 0x100000, 11, 95325, 0x4a5df);
    ShortPeriod(20, 0x100000, 31, 33825, 0x1e639);
    ShortPeriod(20, 0x100000, 41, 25575, 0xa00ea);
    SmallPrimes();
    PrimitiveFrom(20, [3, 5, 5, 11, 31, 41]);
  }

  /** Every size the constructor accepts gives a full table. */
  lemma AllPrimitive(b: nat)
    requires ValidBits(b)
    ensures Primitive(b)
  {
    hide Primitive;
    match b
    case 3 => Primitive3();
    case 4 => Primitive4();
    case 5 => Primitive5();
    case 6 => Primitive6();
    case 7 => Primitive7();
    case 8 => Primitive8();
    case 9 => Primitive9();
    case 10 => Primitive10();
    case 11 => Primitive11();
    case 12 => Primitive12();
    case 13 => Primitive13();
    case 14 => Primitive14();
    case 15 => Primitive15();
    case 16 => Primitive16();
    case 17 => Primitive17();
    case 18 => Primitive18();
    case 19 => Primitive19();
    case 20 => Primitive20();
    case _ =>
  }
}
