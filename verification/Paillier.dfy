/**
 The key classes of the voting scheme: byte vectors in and out, big integers in between, each method
 proved against the scheme on integers.
 */
module Paillier {
  import opened BigNumbers
  import opened NumberTheory
  import opened PaillierScheme
  import opened SetFacts
  import opened Wrappers

  /** The running product of the addition loop. */
  function ProductMod(cs: seq<nat>, m: nat): nat
    requires m > 0
  {
    if cs == [] then 1 else
      MulMono(0, ProductMod(cs[..|cs| - 1], m), cs[|cs| - 1]);
      ProductMod(cs[..|cs| - 1], m) * cs[|cs| - 1] % m
  }

  /** The running product of plaintextAddition, started at c. */
  function Shifted(n: nat, g: nat, c: nat, ms: seq<nat>): nat
    requires n > 0
  {
    if ms == [] then c else
      MulMono(1, n, n);
      var s, t := Shifted(n, g, c, ms[..|ms| - 1]), Pow(g, ms[|ms| - 1]) % (n * n);
      MulMono(0, s, t);
      s * t % (n * n)
  }

  function Nums(bss: seq<seq<Byte>>): (vs: seq<nat>)
    ensures |vs| == |bss| && forall i :: 0 <= i < |bss| ==> vs[i] == ToNum(bss[i])
  {
    seq(|bss|, i requires 0 <= i < |bss| => ToNum(bss[i]))
  }

  const WORD_64: int := 0x1_0000_0000_0000_0000

  /** An int as the unsigned word that BN_set_word takes. */
  function Word(k: int): nat
    requires 0 <= k + WORD_64 && k < WORD_64
  {
    if k < 0 then k + WORD_64 else k
  }

  class PaillierPublicKey {
    const n: seq<Byte>
    const g: seq<Byte>
    const n2: seq<Byte>

    ghost predicate Valid() {
      ToNum(n) > 1 && ToNum(n2) == ToNum(n) * ToNum(n) > 0
    }

    constructor (n: seq<Byte>, g: seq<Byte>)
      requires ToNum(n) > 1
      ensures Valid() && this.n == n && this.g == g
    {
      MulMono(1, ToNum(n), ToNum(n));
      NumOfBytes(ToNum(n) * ToNum(n));
      this.n, this.g, this.n2 := n, g, ToBytes(ToNum(n) * ToNum(n));
    }

    /** r is what the call draws below n. */
    method Encrypt(plaintext: seq<Byte>, r: nat) returns (c: seq<Byte>)
      requires Valid() && r < ToNum(n)
      ensures c == ToBytes(Encrypted(ToNum(n), ToNum(g), ToNum(plaintext), r))
    {
      var modulus := ToNum(n2);
      var result := Pow(ToNum(g), ToNum(plaintext)) % modulus;
      var temp := Pow(r, ToNum(n)) % modulus;
      MulMono(0, result, temp);
      result := result * temp % modulus;
      c := ToBytes(result);
    }

    method Addition(ciphertexts: seq<seq<Byte>>) returns (r: Result<seq<Byte>, string>)
      requires Valid()
      ensures r ==
        if ciphertexts == [] then Err("No ciphertexts provided")
        else Ok(ToBytes(ProductMod(Nums(ciphertexts), ToNum(n2))))
    {
      if ciphertexts == [] {
        return Err("No ciphertexts provided");
      }
      var modulus := ToNum(n2);
      var result := 1;
      for i := 0 to |ciphertexts|
        invariant result == ProductMod(Nums(ciphertexts)[..i], modulus)
      {
        assert Nums(ciphertexts)[..i + 1][..i] == Nums(ciphertexts)[..i];
        MulMono(0, result, ToNum(ciphertexts[i]));
        result := result * ToNum(ciphertexts[i]) % modulus;
      }
      assert Nums(ciphertexts)[..|ciphertexts|] == Nums(ciphertexts);
      return Ok(ToBytes(result));
    }

    method PlaintextAddition(ciphertext: seq<Byte>, plaintexts: seq<seq<Byte>>) returns (c: seq<Byte>)
      requires Valid()
      ensures c == ToBytes(Shifted(ToNum(n), ToNum(g), ToNum(ciphertext), Nums(plaintexts)))
    {
      var modulus := ToNum(n2);
      var result := ToNum(ciphertext);
      for i := 0 to |plaintexts|
        invariant result == Shifted(ToNum(n), ToNum(g), ToNum(ciphertext), Nums(plaintexts)[..i])
      {
        assert Nums(plaintexts)[..i + 1][..i] == Nums(plaintexts)[..i];
        var temp := Pow(ToNum(g), ToNum(plaintexts[i])) % modulus;
        MulMono(0, result, temp);
        result := result * temp % modulus;
      }
      assert Nums(plaintexts)[..|plaintexts|] == Nums(plaintexts);
      c := ToBytes(result);
    }

    method Multiply(ciphertext: seq<Byte>, k: int) returns (c: seq<Byte>)
      requires Valid() && 0 <= k + WORD_64 && k < WORD_64
      ensures ToNum(n2) > 0 && Pow(ToNum(ciphertext), Word(k)) >= 0
      ensures c == ToBytes(Pow(ToNum(ciphertext), Word(k)) % ToNum(n2))
    {
      PowSign(ToNum(ciphertext), Word(k));
      c := ToBytes(Pow(ToNum(ciphertext), Word(k)) % ToNum(n2));
    }
  }

  class PaillierPrivateKey {
    const lambda: seq<Byte>
    const mu: seq<Byte>
    const publicKey: PaillierPublicKey

    constructor (lambda: seq<Byte>, mu: seq<Byte>, publicKey: PaillierPublicKey)
      ensures this.lambda == lambda && this.mu == mu && this.publicKey == publicKey
    {
      this.lambda, this.mu, this.publicKey := lambda, mu, publicKey;
    }

    method Decrypt(ciphertext: seq<Byte>) returns (m: seq<Byte>)
      requires publicKey.Valid()
      ensures m == ToBytes(Decrypted(ToNum(publicKey.n), ToNum(lambda), ToNum(mu), ToNum(ciphertext)))
    {
      var n := ToNum(publicKey.n);
      var temp: int := Pow(ToNum(ciphertext), ToNum(lambda)) % ToNum(publicKey.n2);
      temp := temp - 1;
      temp := if temp < 0 then 0 else temp / n;
      var result := temp * ToNum(mu) % n;
      m := ToBytes(result);
    }
  }

  /** The keys derived from the two primes found. */
  method DeriveKeys(p: nat, q: nat) returns (pk: PaillierPublicKey, sk: PaillierPrivateKey)
    requires p > 1 && q > 1
    ensures pk.Valid() && sk.publicKey == pk
    ensures p * q > 1 && ToNum(pk.n) == p * q && ToNum(pk.g) == p * q + 1
    ensures ToNum(sk.lambda) == Lambda(p, q) && ToNum(sk.mu) == Mu(p * q, Lambda(p, q))
  {
    MulMono(2, p, q);
    var n := p * q;
    var lambda := Lambda(p, q);
    hide Lambda, Mu, ModInverse, ToBytes, ToNum;
    var g := n + 1;
    var mu := InvertL(n, g, lambda);
    NumOfBytes(n);
    NumOfBytes(g);
    NumOfBytes(lambda);
    NumOfBytes(mu);
    pk := new PaillierPublicKey(ToBytes(n), ToBytes(g));
    sk := new PaillierPrivateKey(ToBytes(lambda), ToBytes(mu), pk);
  }

  /** Step 7 of the derivation; a failed inversion leaves mu at 0. */
  method InvertL(n: nat, g: nat, lambda: nat) returns (mu: nat)
    requires n > 1 && g == n + 1
    ensures mu == Mu(n, lambda)
  {
    MulMono(1, n, n);
    PowSign(g, lambda);
    var l := Pow(g, lambda) % (n * n);
    l := if l == 0 then 0 else (l - 1) / n;
    var inverse := ModInverse(l, n);
    mu := match inverse case None => 0 case Some(v) => v;
  }

  // ----- conservation

  predicate Units(cs: seq<nat>, n: nat) {
    forall i :: 0 <= i < |cs| ==> Unit(cs[i], n)
  }

  function Decryptions(n: nat, lambda: nat, mu: nat, cs: seq<nat>): (ms: seq<nat>)
    requires n > 0
    ensures |ms| == |cs| && forall i :: 0 <= i < |cs| ==> ms[i] == Decrypted(n, lambda, mu, cs[i])
  {
    seq(|cs|, i requires 0 <= i < |cs| => Decrypted(n, lambda, mu, cs[i]))
  }

  /** The product of ciphertexts decrypts to the sum of the plaintexts. */
  lemma {:induction false} DecryptProductMod(p: nat, q: nat, n: nat, m: nat, lambda: nat, mu: nat, cs: seq<nat>)
    requires Modulus(p, q, n, m, lambda) && Units(cs, n)
    ensures n > 1 && m > 0 && Unit(ProductMod(cs, m), n)
    ensures Decrypted(n, lambda, mu, ProductMod(cs, m)) == Sum(Decryptions(n, lambda, mu, cs)) % n
  {
    hide Modulus, Decrypted, Unit;
    ModulusFacts(p, q, n, m, lambda);
    if cs == [] {
      DecryptOne(n, lambda, mu);
      UnitOne(n);
    } else {
      var front, c := cs[..|cs| - 1], cs[|cs| - 1];
      DecryptProductMod(p, q, n, m, lambda, mu, front);
      ProductStep(p, q, n, m, lambda, mu, ProductMod(front, m), c);
      assert Decryptions(n, lambda, mu, cs)[..|cs| - 1] == Decryptions(n, lambda, mu, front);
      AddMod(Sum(Decryptions(n, lambda, mu, front)), Decrypted(n, lambda, mu, c), n);
    }
  }

  /** What multiply returns for k decrypts to the multiple; a negative k counts as k + 2^64. */
  lemma DecryptMultiple(p: nat, q: nat, n: nat, m: nat, lambda: nat, mu: nat, c: nat, k: int)
    requires Modulus(p, q, n, m, lambda) && Unit(c, n) && 0 <= k + 0x1_0000_0000_0000_0000 && k < 0x1_0000_0000_0000_0000
    ensures n > 1 && m > 0 && Pow(c, Word(k)) >= 0 && Unit(Pow(c, Word(k)) % m, n)
    ensures k >= 0 ==> Decrypted(n, lambda, mu, Pow(c, Word(k)) % m) == k * Decrypted(n, lambda, mu, c) % n
    ensures k < 0 ==>
      Decrypted(n, lambda, mu, Pow(c, Word(k)) % m) == (k + 0x1_0000_0000_0000_0000) * Decrypted(n, lambda, mu, c) % n
  {
    ModulusFacts(p, q, n, m, lambda);
    hide Decrypted, Unit, Pow, Lambda;
    DecryptPower(p, q, mu, c, Word(k));
  }

  lemma AddMod(a: nat, b: nat, n: nat)
    requires n > 0
    ensures (a % n + b) % n == (a + b) % n && (b + a % n) % n == (b + a) % n
  {
    CongMod(a, n);
    CongIntro(b, b, 0, n);
    CongMul(a % n, a, b, b, n);
    CongSame(a % n + b, a + b, n);
  }

  /** Adding plaintexts to a ciphertext. */
  lemma {:induction false} DecryptShifted(p: nat, q: nat, n: nat, m: nat, lambda: nat, mu: nat, c: nat, ms: seq<nat>)
    requires Modulus(p, q, n, m, lambda) && (lambda * mu) % n == 1 && Unit(c, n)
    ensures n > 1 && Unit(Shifted(n, n + 1, c, ms), n)
    ensures Decrypted(n, lambda, mu, Shifted(n, n + 1, c, ms)) == (Decrypted(n, lambda, mu, c) + Sum(ms)) % n
  {
    hide Modulus, Decrypted, Unit;
    ModulusFacts(p, q, n, m, lambda);
    var d := Decrypted(n, lambda, mu, c);
    if ms == [] {
      SmallMod(d, n);
    } else {
      var front, k := ms[..|ms| - 1], ms[|ms| - 1];
      DecryptShifted(p, q, n, m, lambda, mu, c, front);
      ShiftStep(p, q, n, m, lambda, mu, Shifted(n, n + 1, c, front), k);
      AddMod(d + Sum(front), k % n, n);
      AddMod(k, d + Sum(front), n);
    }
  }
}
