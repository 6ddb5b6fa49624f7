/**
 The search for primes: which candidates are drawn, which is taken, and what that says about the key made of two of
 them. The bytes of the generator are an argument.
 */
module PrimeSearch {
  import opened BigNumbers
  import opened BinaryWords
  import opened MillerRabin
  import opened NumberTheory
  import opened PaillierExactness
  import opened PaillierScheme
  import opened TrialDivisions
  import opened Wrappers

  const SMALL_PRIMES: seq<nat> := [2, 3, 5, 7, 11, 13, 17, 19, 23, 29, 31, 37, 41, 43, 47, 53]
  const ATTEMPTS: nat := 10_000

  function ByteCount(bits: nat): nat {
    (bits + 7) / 8
  }

  /** The position, in the first byte, of the bit that is set. */
  function TopBit(bits: nat): (e: nat)
    requires bits > 0
    ensures e < 8 && bits - 1 == 8 * (ByteCount(bits) - 1) + e
  {
    (bits - 1) % 8
  }

  /** b with the bit e set. */
  function WithBit(b: Byte, e: nat): Byte
    requires e < 8
  {
    BitFacts(b, e);
    if b / Pow2(e) % 2 == 1 then b else b + Pow2(e)
  }

  lemma {:induction false} Pow2Add(j: nat, k: nat)
    ensures Pow2(j + k) == Pow2(j) * Pow2(k)
  {
    if j > 0 {
      Pow2Add(j - 1, k);
      assert 2 * (Pow2(j - 1) * Pow2(k)) == Pow2(j) * Pow2(k);
    }
  }

  lemma Byte256()
    ensures Pow2(8) == 256
  {
    assert Pow2(4) == 16;
  }

  /** Setting a bit that is not set adds it. */
  lemma BitFacts(b: Byte, e: nat)
    requires e < 8
    ensures b / Pow2(e) % 2 != 1 ==> b + Pow2(e) < 256 && (b + Pow2(e)) / Pow2(e) % 2 == 1
  {
    Byte256();
    Pow2Add(8 - e, e);
    assert Pow2(8 - e) == 2 * Pow2(7 - e);
    AddBit(b, Pow2(e), Pow2(7 - e));
  }

  lemma AddBit(b: nat, m: nat, h: nat)
    requires m > 0 && b < 256 == 2 * h * m
    ensures b / m % 2 != 1 ==> b + m < 256 && (b + m) / m % 2 == 1
  {
    var q, r := b / m, b % m;
    DivMod(b, m);
    TwoMore(q, m);
    DivisionUnique(b + m, m, q + 1, r);
    if q % 2 == 0 {
      NextEven(b, q, m, h);
    }
  }

  lemma NextEven(b: nat, q: nat, m: nat, h: nat)
    requires m > 0 && q * m <= b < 256 == 2 * h * m && b < q * m + m && q % 2 == 0
    ensures b + m < 256
  {
    if q >= 2 * h {
      MulMono(2 * h, q, m);
    } else {
      MulMono(q + 2, 2 * h, m);
      TwoMore(q, m);
    }
  }

  lemma DivMod(b: nat, m: nat)
    requires m > 0
    ensures b == b / m * m + b % m
  {}

  lemma TwoMore(q: nat, m: nat)
    ensures (q + 2) * m == q * m + 2 * m && (q + 1) * m == q * m + m
  {}

  function Candidate(bytes: seq<Byte>, bits: nat): (c: seq<Byte>)
    requires bits > 0 && |bytes| == ByteCount(bits)
    ensures |c| == |bytes|
  {
    var b := bytes[0 := WithBit(bytes[0], TopBit(bits))];
    b[|b| - 1 := WithBit(b[|b| - 1], 0)]
  }

  /** What a caller can tell of a drawn number: it is odd, fits the bytes, and has the bit set that stands at `bits`. */
  predicate Drawn(bits: nat, p: nat)
    requires bits > 0
  {
    p % 2 == 1 && p < Pow2(8 * ByteCount(bits)) && p / Pow2(bits - 1) % 2 == 1
  }

  // ----- the candidates are the drawn numbers

  /** The first byte and the rest. */
  lemma {:induction false} FirstByte(bs: seq<Byte>)
    requires bs != []
    ensures var t := Pow2(8 * (|bs| - 1));
      ToNum(bs) == bs[0] * t + ToNum(bs[1..]) && ToNum(bs[1..]) < t
    decreases |bs|
  {
    Byte256();
    var front, last := bs[..|bs| - 1], bs[|bs| - 1];
    if |bs| == 1 {
      assert front == [] && bs[1..] == [];
    } else {
      FirstByte(front);
      var t := Pow2(8 * (|bs| - 2));
      Pow2Add(8, 8 * (|bs| - 2));
      assert bs[1..][..|bs| - 2] == front[1..];
      assert ToNum(bs[1..]) == 256 * ToNum(front[1..]) + last;
      ByteMore(bs[0], t, ToNum(front[1..]), last);
    }
  }

  lemma ByteMore(b: nat, t: nat, r: nat, last: Byte)
    requires r < t
    ensures 256 * (b * t + r) + last == b * (256 * t) + (256 * r + last) && 256 * r + last < 256 * t
  {}

  lemma ByteBound(b: Byte, t: nat, r: nat)
    requires r < t
    ensures b * t + r < 256 * t
  {
    MulMono(b + 1, 256, t);
    TwoMore(b, t);
  }

  /** Bit `bits - 1` of the number is the bit e of the first byte. */
  lemma TopBitAt(bs: seq<Byte>, bits: nat)
    requires bits > 0 && |bs| == ByteCount(bits)
    ensures ToNum(bs) / Pow2(bits - 1) == bs[0] / Pow2(TopBit(bits))
    ensures ToNum(bs) < Pow2(8 * |bs|)
  {
    FirstByte(bs);
    var t, m := Pow2(8 * (|bs| - 1)), Pow2(TopBit(bits));
    var b, r := bs[0], ToNum(bs[1..]);
    Byte256();
    Pow2Add(8, 8 * (|bs| - 1));
    Pow2Add(TopBit(bits), 8 * (|bs| - 1));
    hide Pow2;
    ByteBound(b, t, r);
    Nested(b, m, t, r);
  }

  lemma Nested(b: nat, m: nat, t: nat, r: nat)
    requires m > 0 && r < t
    ensures m * t > 0 && (b * t + r) / (m * t) == b / m
  {
    var q, l := b / m, b % m;
    DivMod(b, m);
    MulMono(l + 1, m, t);
    TwoMore(l, t);
    Regrouped(q, m, l, t);
    DivisionUnique(b * t + r, m * t, q, l * t + r);
  }

  lemma Regrouped(q: nat, m: nat, l: nat, t: nat)
    ensures (q * m + l) * t == q * (m * t) + l * t
  {}

  lemma {:induction false} LastByte(bs: seq<Byte>)
    requires bs != []
    ensures ToNum(bs) % 2 == bs[|bs| - 1] % 2
  {
    assert (256 * ToNum(bs[..|bs| - 1]) + bs[|bs| - 1]) % 2 == bs[|bs| - 1] % 2;
  }

  lemma SetBit(b: Byte, e: nat)
    requires e < 8
    ensures WithBit(b, e) / Pow2(e) % 2 == 1
    ensures b / Pow2(e) % 2 == 1 ==> WithBit(b, e) == b
  {
    BitFacts(b, e);
  }

  /** Setting the lowest bit leaves the others alone. */
  lemma LowBit(b: Byte, e: nat)
    requires e < 8 && b / Pow2(e) % 2 == 1
    ensures WithBit(b, 0) / Pow2(e) % 2 == 1 && WithBit(b, 0) % 2 == 1
  {
    BitFacts(b, 0);
    if b % 2 == 0 && e > 0 {
      var m := Pow2(e);
      DivMod(b, m);
      EvenRest(b, Pow2(e - 1));
      DivisionUnique(b + 1, m, b / m, b % m + 1);
    }
  }

  lemma EvenRest(b: nat, h: nat)
    requires b % 2 == 0 && h > 0
    ensures b % (2 * h) + 1 < 2 * h
  {
    var m := 2 * h;
    DivMod(b, m);
    assert b / m * m == 2 * (b / m * h);
  }

  /** Every candidate is a drawn number. */
  lemma CandidateDrawn(bytes: seq<Byte>, bits: nat)
    requires bits > 0 && |bytes| == ByteCount(bits)
    ensures Drawn(bits, ToNum(Candidate(bytes, bits)))
  {
    hide ToNum, Pow2, WithBit;
    var c := Candidate(bytes, bits);
    var e := TopBit(bits);
    SetBit(bytes[0], e);
    LowBit(WithBit(bytes[0], e), e);
    LowestSet(bytes[|bytes| - 1]);
    LowestSet(WithBit(bytes[0], e));
    TopBitAt(c, bits);
    LastByte(c);
  }

  lemma LowestSet(b: Byte)
    ensures WithBit(b, 0) % 2 == 1
  {
    BitFacts(b, 0);
  }

  /** The number in k bytes. */
  function Wide(p: nat, k: nat): (bs: seq<Byte>)
    ensures |bs| == k
  {
    if k == 0 then [] else Wide(p / 256, k - 1) + [p % 256]
  }

  lemma {:induction false} WideReads(p: nat, k: nat)
    requires p < Pow2(8 * k)
    ensures ToNum(Wide(p, k)) == p
    decreases k
  {
    if k > 0 {
      Byte256();
      Pow2Add(8, 8 * (k - 1));
      WideReads(p / 256, k - 1);
      assert Wide(p, k)[..k - 1] == Wide(p / 256, k - 1);
    }
  }

  /** And every drawn number is a candidate: its bytes stay as they are. */
  lemma DrawnCandidate(bits: nat, p: nat)
    requires bits > 0 && Drawn(bits, p)
    ensures var bytes := Wide(p, ByteCount(bits)); Candidate(bytes, bits) == bytes && ToNum(bytes) == p
  {
    hide ToNum, Pow2, WithBit, Wide;
    var bytes := Wide(p, ByteCount(bits));
    WideReads(p, ByteCount(bits));
    TopBitAt(bytes, bits);
    SetBit(bytes[0], TopBit(bits));
    LastByte(bytes);
    Lowest(bytes[|bytes| - 1]);
  }

  lemma Lowest(b: Byte)
    requires b % 2 == 1
    ensures WithBit(b, 0) == b
  {
    BitFacts(b, 0);
  }

  // ----- the search

  /** No small prime divides n, except n itself. */
  predicate Sieved(n: nat) {
    forall k :: 0 <= k < |SMALL_PRIMES| ==> n % SMALL_PRIMES[k] == 0 ==> n == SMALL_PRIMES[k]
  }

  ghost predicate Taken(n: nat, iterations: int)
    requires n > 1
  {
    Sieved(n) && forall k :: 0 <= k < iterations && k < 12 ==> Passes(n, WITNESSES[k])
  }

  lemma DrawnLarge(bits: nat, p: nat)
    requires bits > 0 && Drawn(bits, p)
    ensures p >= Pow2(bits - 1) && (bits > 1 ==> p > 1)
  {
    if bits > 1 {
      Pow2Mono(1, bits - 1);
    }
    if p < Pow2(bits - 1) {
      DivisionUnique(p, Pow2(bits - 1), 0, p);
    }
  }

  /** The number of the k-th attempt. */
  function Attempt(draws: nat -> seq<Byte>, bits: nat, k: nat): (n: nat)
    requires bits > 1 && |draws(k)| == ByteCount(bits)
    ensures n > 1 && Drawn(bits, n)
  {
    CandidateDrawn(draws(k), bits);
    DrawnLarge(bits, ToNum(Candidate(draws(k), bits)));
    ToNum(Candidate(draws(k), bits))
  }

  method InSieve(n: nat) returns (composite: bool)
    ensures composite <==> !Sieved(n)
  {
    for k := 0 to |SMALL_PRIMES|
      invariant forall j :: 0 <= j < k ==> n % SMALL_PRIMES[j] == 0 ==> n == SMALL_PRIMES[j]
    {
      if n % SMALL_PRIMES[k] == 0 && n != SMALL_PRIMES[k] {
        return true;
      }
    }
    return false;
  }

  method SetBits(drawn: seq<Byte>, bits: nat) returns (bytes: seq<Byte>)
    requires bits > 0 && |drawn| == ByteCount(bits)
    ensures bytes == Candidate(drawn, bits)
  {
    bytes := drawn;
    bytes := bytes[0 := WithBit(bytes[0], TopBit(bits))];
    bytes := bytes[|bytes| - 1 := WithBit(bytes[|bytes| - 1], 0)];
  }

  ghost predicate FirstTaken(draws: nat -> seq<Byte>, bits: nat, iterations: int, k: nat, n: nat)
    requires bits > 1 && forall j: nat {:trigger draws(j)} :: |draws(j)| == ByteCount(bits)
  {
    && n == Attempt(draws, bits, k) && Taken(n, iterations)
    && forall j: nat :: j < k ==> !Taken(Attempt(draws, bits, j), iterations)
  }

  /** draws(k) are the bytes of the k-th call of the generator. The first candidate that passes is returned. */
  method GeneratePrime(draws: nat -> seq<Byte>, bits: nat, iterations: int) returns (r: Result<nat, string>)
    requires bits > 1 && forall k: nat {:trigger draws(k)} :: |draws(k)| == ByteCount(bits)
    ensures r.Ok? ==> exists k: nat :: k < 10_000 && FirstTaken(draws, bits, iterations, k, r.value)
    ensures r.Err? ==> forall j: nat :: j < 10_000 ==> !Taken(Attempt(draws, bits, j), iterations)
    ensures r.Ok? && iterations > 0 ==> Pow(2, r.value - 1) % r.value == 1
    ensures r.Ok? && r.value < 3481 ==> IsPrime(r.value)
  {
    hide Candidate, Sieved, Passes;
    for attempt := 0 to ATTEMPTS
      invariant forall j: nat :: j < attempt ==> !Taken(Attempt(draws, bits, j), iterations)
    {
      var bytes := SetBits(draws(attempt), bits);
      var candidate := ToNum(bytes);
      assert candidate == Attempt(draws, bits, attempt);
      var composite := InSieve(candidate);
      if !composite {
        var passed := MillerRabinTest(candidate, iterations);
        if passed {
          assert FirstTaken(draws, bits, iterations, attempt, candidate);
          assert iterations > 0 ==> Pow(WITNESSES[0], candidate - 1) % candidate == 1;
          if candidate < 3481 {
            SievedPrime(candidate);
          }
          return Ok(candidate);
        }
      }
    }
    return Err("Failed to generate prime after 10000 attempts");
  }

  // ----- what is taken

  /** The sieve holds the primes up to 53. */
  lemma SmallPrimesAre(p: nat)
    ensures p in SMALL_PRIMES <==> IsPrime(p) && p <= 53
  {
    TrialPrime(41);
    TrialPrime(43);
    TrialPrime(47);
    TrialPrime(53);
    WitnessesAre(p);
    if p !in SMALL_PRIMES && p <= 53 {
      SmallComposite(p);
    }
  }

  /** A number with a smaller prime factor up to 53 is not taken. */
  lemma SieveRejects(n: nat, p: nat, iterations: int)
    requires n > 1 && IsPrime(p) && p <= 53 && p < n && Divides(p, n)
    ensures !Taken(n, iterations)
  {
    SmallPrimesAre(p);
    var k :| 0 <= k < |SMALL_PRIMES| && SMALL_PRIMES[k] == p;
  }

  /** Below 59 * 59 the sieve leaves only primes. */
  lemma SievedPrime(n: nat)
    requires 1 < n < 3481 && Sieved(n)
    ensures IsPrime(n)
  {
    if !IsPrime(n) {
      var d :| 1 < d < n && Divides(d, n);
      var e := Quotient(d, n);
      if e <= 1 {
        MulMono(e, 1, d);
      } else if d >= 59 && e >= 59 {
        MulMono(59, d, e);
        MulMono(59, e, 59);
      } else {
        var f := if d < 59 then d else e;
        MulMono(2, e, d);
        MultipleMod(d, e);
        var p := PrimeDivisor(f);
        DividesBound(p, f);
        assert Divides(f, n);
        DividesTrans(p, f, n);
        NoneBetween(p);
        SieveRejects(n, p, 0);
      }
    }
  }

  lemma NoneBetween(p: nat)
    requires IsPrime(p) && p < 59
    ensures p <= 53
  {
    if p > 53 {
      assert p % 2 == 0 || p % 5 == 0 || p % 3 == 0;
      assert Divides(if p % 2 == 0 then 2 else if p % 5 == 0 then 5 else 3, p);
    }
  }

  /** Numbers taken with one iteration or more pass Fermat's test for 2, and reveal no root of 1 but 1 and -1. */
  lemma TakenMeans(n: nat, iterations: int, r: nat, d: nat)
    requires n > 2 && n % 2 == 1 && n - 1 == Pow2(r) * d && d % 2 == 1 && Taken(n, iterations)
    ensures forall k :: 0 <= k < iterations && k < 12 ==>
      && Pow(WITNESSES[k], n - 1) % n == 1
      && forall j: nat, e: nat :: j < r && e == Pow2(j) * d && Pow(WITNESSES[k], 2 * e) % n == 1 ==>
        Pow(WITNESSES[k], e) % n == 1 || Pow(WITNESSES[k], e) % n == n - 1
  {
    forall k | 0 <= k < iterations && k < 12
      ensures Pow(WITNESSES[k], n - 1) % n == 1
      ensures forall j: nat, e: nat :: j < r && e == Pow2(j) * d && Pow(WITNESSES[k], 2 * e) % n == 1 ==>
        Pow(WITNESSES[k], e) % n == 1 || Pow(WITNESSES[k], e) % n == n - 1
    {
      PassesMeans(n, WITNESSES[k], r, d);
    }
  }

  /** A prime candidate is taken unless it is one of the witnesses tried. */
  lemma PrimeTaken(n: nat, iterations: int)
    requires IsPrime(n)
    ensures Taken(n, iterations) <==> forall k :: 0 <= k < iterations && k < 12 ==> n != WITNESSES[k]
  {
    hide Passes;
    forall k | 0 <= k < |SMALL_PRIMES| && n % SMALL_PRIMES[k] == 0 ensures n == SMALL_PRIMES[k] {
      SmallPrimesOnly(n, k);
    }
    forall k | 0 <= k < 12 ensures Passes(n, WITNESSES[k]) <==> n != WITNESSES[k] {
      WitnessPrime(k, n);
      PrimePasses(n, WITNESSES[k]);
    }
  }

  /** A number with a small prime factor, taken, is that prime. */
  lemma SmallPrimesOnly(n: nat, k: nat)
    requires IsPrime(n) && k < |SMALL_PRIMES| && n % SMALL_PRIMES[k] == 0
    ensures n == SMALL_PRIMES[k]
  {
    var s := SMALL_PRIMES[k];
    if s < n {
      assert Divides(s, n);
    } else if n < s {
      DivisionUnique(n, s, 0, n);
    }
  }

  // ----- the key of two drawn primes

  /** With whole bytes, drawn numbers have exactly `bits` bits. */
  lemma WholeBytes(bits: nat, p: nat)
    requires bits > 0 && bits % 8 == 0 && Drawn(bits, p)
    ensures Pow2(bits - 1) <= p < 2 * Pow2(bits - 1) && p > 2
  {
    DrawnLarge(bits, p);
    assert 8 * ByteCount(bits) == bits;
    Pow2Mono(2, bits - 1);
    assert Pow2(2) == 4;
  }

  /**
   What a caller can see to: with a prime length of whole bytes any two different primes drawn give a key, under which
   every plaintext comes back with every unit.
   */
  lemma WholeBytesGiveKey(bits: nat, p: nat, q: nat)
    requires bits > 0 && bits % 8 == 0 && Drawn(bits, p) && Drawn(bits, q) && IsPrime(p) && IsPrime(q)
    ensures p != q ==> GivesKey(p, q)
    ensures (forall r: nat :: r < p * q && Unit(r, p * q) ==> AllReturn(p, q, r)) <==> p != q
  {
    hide AllReturn, GivesKey, Pow2, IsPrime;
    WholeBytes(bits, p);
    WholeBytes(bits, q);
    if p < q {
      LargerPrime(p, q);
    } else if q < p {
      LargerPrime(q, p);
      KeySymmetric(p, q);
    }
    PrimesReturn(p, q);
  }

  lemma KeySymmetric(p: nat, q: nat)
    requires p > 0 && q > 0
    ensures GivesKey(p, q) <==> GivesKey(q, p)
  {}

  /** With seven bits it can fail: 113 and 227 are drawn, taken with any number of iterations, and give no key. */
  lemma SevenBitsFail(iterations: int)
    ensures Drawn(7, 113) && Drawn(7, 227) && IsPrime(113) && IsPrime(227) && !GivesKey(113, 227)
    ensures Taken(113, iterations) && Taken(227, iterations)
  {
    Byte256();
    assert Pow2(6) == 64;
    TrialPrime(113);
    TrialPrime(227);
    PrimeTaken(113, iterations);
    PrimeTaken(227, iterations);
    SafePrimes(113);
  }
}
