/** Numbers written in a fixed number of bytes, most significant byte first. */
module FixedWidth {
  import opened BigNumbers
  import opened NumberTheory

  type Bytes = seq<Byte>

  function Power256(w: nat): (p: nat)
    ensures p > 0
  {
    if w == 0 then 1 else 256 * Power256(w - 1)
  }

  function Fixed(n: nat, w: nat): (s: Bytes)
    ensures |s| == w
  {
    if w == 0 then [] else [n / Power256(w - 1) % 256] + Fixed(n, w - 1)
  }

  /** The value of the bytes s read after those of acc. */
  function ReadOn(acc: nat, s: Bytes): nat
    decreases |s|
  {
    if s == [] then acc else ReadOn(256 * acc + s[0], s[1..])
  }

  lemma DigitTimes(p: nat, a: nat, b: nat)
    requires b < 256 && p > 0
    ensures p * (256 * a + b) == a * (256 * p) + b * p && b * p + p <= 256 * p
  {
    assert p * (256 * a + b) == p * (256 * a) + p * b;
    assert p * (256 * a) == a * (256 * p);
    assert (b + 1) * p <= 256 * p;
  }

  lemma Split(n: nat, p: nat)
    requires p > 0
    ensures (n / p % 256) * p + n % p == n % (256 * p)
  {
    var q, r := n / p, n % p;
    var a, b := q / 256, q % 256;
    DigitTimes(p, a, b);
    Position(n, p, a, b, r);
  }

  lemma Position(n: nat, p: nat, a: nat, b: nat, r: nat)
    requires r < p && b * p + p <= 256 * p && n == a * (256 * p) + b * p + r
    ensures b * p + r == n % (256 * p)
  {
    var k := 256 * p;
    DivisionUnique(n, k, a, b * p + r);
  }

  /** Reading a fixed-width number gives it back, up to the width. */
  lemma {:induction false} ReadFixed(acc: nat, n: nat, w: nat)
    ensures ReadOn(acc, Fixed(n, w)) == acc * Power256(w) + n % Power256(w)
    decreases w
  {
    if w > 0 {
      var p := Power256(w - 1);
      var d: nat := n / p % 256;
      assert Fixed(n, w)[1..] == Fixed(n, w - 1);
      ReadFixed(256 * acc + d, n, w - 1);
      Split(n, p);
      DigitMore(acc, d, p);
    }
  }

  /** A number that fits is read back. */
  lemma ReadsBack(n: nat, w: nat)
    requires n < Power256(w)
    ensures ReadOn(0, Fixed(n, w)) == n
  {
    hide Power256;
    ReadFixed(0, n, w);
    DivisionUnique(n, Power256(w), 0, n);
  }

  lemma DigitMore(acc: nat, d: nat, p: nat)
    ensures (256 * acc + d) * p == acc * (256 * p) + d * p
  {
    assert (256 * acc) * p == acc * (256 * p);
  }

  method PutNumber(result: Bytes, n: nat, w: nat) returns (longer: Bytes)
    ensures longer == result + Fixed(n, w)
  {
    longer := result;
    var i: nat := w;
    while i > 0
      invariant i <= w && longer + Fixed(n, i) == result + Fixed(n, w)
    {
      i := i - 1;
      longer := longer + [n / Power256(i) % 256];
    }
  }

  method GetNumber(s: Bytes, offset: nat, w: nat) returns (n: nat)
    requires offset + w <= |s|
    ensures n == ReadOn(0, s[offset..offset + w])
  {
    n := 0;
    for i := 0 to w
      invariant ReadOn(n, s[offset + i..offset + w]) == ReadOn(0, s[offset..offset + w])
    {
      assert s[offset + i..offset + w][1..] == s[offset + i + 1..offset + w];
      n := 256 * n + s[offset + i];
    }
    assert s[offset + w..offset + w] == [];
  }

  // ----- the bytes at the widths in use

  function TwoBytes(n: nat): Bytes {
    [n / 0x100 % 0x100, n % 0x100]
  }

  function FourBytesOf(n: nat): Bytes {
    [n / 0x100_0000 % 0x100, n / 0x1_0000 % 0x100, n / 0x100 % 0x100, n % 0x100]
  }

  function EightBytes(n: nat): Bytes {
    [n / 0x100_0000_0000_0000 % 0x100, n / 0x1_0000_0000_0000 % 0x100, n / 0x100_0000_0000 % 0x100,
     n / 0x1_0000_0000 % 0x100] + FourBytesOf(n)
  }

  lemma Powers()
    ensures Power256(0) == 1 && Power256(1) == 0x100 && Power256(2) == 0x1_0000 && Power256(3) == 0x100_0000
    ensures Power256(4) == 0x1_0000_0000 && Power256(5) == 0x100_0000_0000
    ensures Power256(6) == 0x1_0000_0000_0000 && Power256(7) == 0x100_0000_0000_0000
  {
    assert Power256(0) == 1;
    assert Power256(1) == 256 * Power256(0);
    assert Power256(2) == 256 * Power256(1);
    assert Power256(3) == 256 * Power256(2);
    assert Power256(4) == 256 * Power256(3);
    assert Power256(5) == 256 * Power256(4);
    assert Power256(6) == 256 * Power256(5);
    assert Power256(7) == 256 * Power256(6);
  }

  lemma {:induction false} FixedAt(n: nat, w: nat, i: nat)
    requires i < w
    ensures Fixed(n, w)[i] == n / Power256(w - 1 - i) % 256
    decreases w
  {
    if i > 0 {
      FixedAt(n, w - 1, i - 1);
    }
  }

  lemma FixedIs(n: nat)
    ensures Fixed(n, 2) == TwoBytes(n) && Fixed(n, 4) == FourBytesOf(n) && Fixed(n, 8) == EightBytes(n)
  {
    hide Fixed, Power256;
    Powers();
    FixedAt(n, 2, 0);
    FixedAt(n, 2, 1);
    forall i | 0 <= i < 4 ensures Fixed(n, 4)[i] == FourBytesOf(n)[i] {
      FixedAt(n, 4, i);
    }
    forall i | 0 <= i < 8 ensures Fixed(n, 8)[i] == EightBytes(n)[i] {
      FixedAt(n, 8, i);
    }
  }
}
