/**
 Strings of '0' and '1', most significant first, and their hexadecimal form: the text level of the
 secret sharing code. Functions give the meaning, methods are the loops of the code.
 */
module BitStrings {
  import opened BinaryWords
  import opened NumberTheory
  import opened Wrappers

  // ----- meaning

  /** Every character but '1' counts as 0, as in the source. */
  function Bit(c: char): nat {
    if c == '1' then 1 else 0
  }

  predicate IsBits(s: string) {
    forall i :: 0 <= i < |s| ==> s[i] == '0' || s[i] == '1'
  }

  function BitsValue(s: string): (v: nat)
    ensures v < Pow2(|s|)
  {
    if s == [] then 0 else 2 * BitsValue(s[..|s| - 1]) + Bit(s[|s| - 1])
  }

  /** The n low bits of v. */
  function LowBits(v: nat, n: nat): (s: string)
    ensures |s| == n && IsBits(s)
  {
    if n == 0 then "" else LowBits(v / 2, n - 1) + (if v % 2 == 1 then "1" else "0")
  }

  function Zeros(n: nat): (s: string)
    ensures |s| == n && IsBits(s) && forall i :: 0 <= i < n ==> s[i] == '0'
  {
    if n == 0 then "" else "0" + Zeros(n - 1)
  }

  lemma {:induction false} LowBitsOfValue(s: string)
    requires IsBits(s)
    ensures LowBits(BitsValue(s), |s|) == s
  {
    if s != [] {
      LowBitsOfValue(s[..|s| - 1]);
    }
  }

  lemma {:induction false} ValueOfLowBits(v: nat, n: nat)
    requires v < Pow2(n)
    ensures BitsValue(LowBits(v, n)) == v
  {
    if n > 0 {
      ValueOfLowBits(v / 2, n - 1);
      var s := LowBits(v, n);
      assert s[..n - 1] == LowBits(v / 2, n - 1);
    }
  }

  lemma {:induction false} ValueOfZeros(n: nat)
    ensures BitsValue(Zeros(n)) == 0
  {
    if n > 0 {
      ValueOfZeros(n - 1);
      assert Zeros(n)[..n - 1] == Zeros(n - 1);
    }
  }

  lemma {:induction false} ValueOfPadded(k: nat, s: string)
    ensures BitsValue(Zeros(k) + s) == BitsValue(s)
  {
    if s == [] {
      ValueOfZeros(k);
      assert Zeros(k) + s == Zeros(k);
    } else {
      ValueOfPadded(k, s[..|s| - 1]);
      assert (Zeros(k) + s)[..k + |s| - 1] == Zeros(k) + s[..|s| - 1];
    }
  }

  // ----- hexadecimal digits

  function DigitValue(c: char): (r: Option<nat>)
    ensures r.Some? ==> r.value < 16
  {
    if '0' <= c <= '9' then Some(c as nat - '0' as nat)
    else if 'a' <= c <= 'f' then Some(10 + (c as nat - 'a' as nat))
    else if 'A' <= c <= 'F' then Some(10 + (c as nat - 'A' as nat))
    else None
  }

  predicate IsHex(s: string) {
    forall i :: 0 <= i < |s| ==> DigitValue(s[i]).Some?
  }

  function HexDigit(v: nat): (c: char)
    requires v < 16
    ensures DigitValue(c) == Some(v)
  {
    if v < 10 then '0' + v as char else 'a' + (v - 10) as char
  }

  function LowerDigit(c: char): char {
    if 'A' <= c <= 'F' then 'a' + (c - 'A') else c
  }

  /** The lower-case form of a hexadecimal string. */
  function Lower(s: string): (r: string)
    ensures |r| == |s| && forall i :: 0 <= i < |s| ==> r[i] == LowerDigit(s[i])
  {
    seq(|s|, i requires 0 <= i < |s| => LowerDigit(s[i]))
  }

  function HexToBits(s: string): (r: string)
    requires IsHex(s)
    ensures |r| == 4 * |s| && IsBits(r)
  {
    if s == [] then "" else HexToBits(s[..|s| - 1]) + LowBits(DigitValue(s[|s| - 1]).value, 4)
  }

  /** Four bits a digit; the length must be a multiple of 4. */
  function BitsToHex(s: string): (r: string)
    requires |s| % 4 == 0
    ensures |r| == |s| / 4 && IsHex(r)
  {
    if s == [] then "" else
      assert Pow2(4) == 16;
      BitsToHex(s[..|s| - 4]) + [HexDigit(BitsValue(s[|s| - 4..]))]
  }

  function PadToDigits(s: string): (r: string)
    ensures |r| % 4 == 0 && |s| <= |r| < |s| + 4
  {
    Zeros((4 - |s| % 4) % 4) + s
  }

  lemma HexAppend(s: string, c: char)
    requires IsHex(s) && DigitValue(c).Some?
    ensures IsHex(s + [c]) && HexToBits(s + [c]) == HexToBits(s) + LowBits(DigitValue(c).value, 4)
  {
    hide LowBits, DigitValue;
    assert (s + [c])[..|s|] == s;
  }

  lemma DigitsAppend(s: string, last: string)
    requires |s| % 4 == 0 && |last| == 4
    ensures BitsValue(last) < 16 && |s + last| % 4 == 0
    ensures BitsToHex(s + last) == BitsToHex(s) + [HexDigit(BitsValue(last))]
  {
    hide BitsValue, HexDigit;
    assert Pow2(4) == 16;
    var t := s + last;
    assert t[..|t| - 4] == s && t[|t| - 4..] == last;
  }

  lemma LowerAppend(s: string, c: char)
    ensures Lower(s + [c]) == Lower(s) + [LowerDigit(c)]
  {}

  lemma {:induction false} HexOfBits(s: string)
    requires IsBits(s) && |s| % 4 == 0
    ensures HexToBits(BitsToHex(s)) == s
  {
    hide LowBits, BitsValue, HexToBits, BitsToHex, HexDigit;
    if s == "" {
      DigitsOfNothing();
      BitsOfNothing();
    } else {
      var front, last := s[..|s| - 4], s[|s| - 4..];
      HexOfBits(front);
      LowBitsOfValue(last);
      assert s == front + last;
      DigitsAppend(front, last);
      HexAppend(BitsToHex(front), HexDigit(BitsValue(last)));
    }
  }

  /** Going through bits and back puts a hexadecimal string in lower case. */
  lemma {:induction false} BitsOfHex(s: string)
    requires IsHex(s)
    ensures BitsToHex(HexToBits(s)) == Lower(s)
  {
    hide LowBits, BitsValue, BitsToHex;
    if s == [] {
      DigitsOfNothing();
    } else {
      var front, c := s[..|s| - 1], s[|s| - 1];
      BitsOfHex(front);
      assert Pow2(4) == 16;
      ValueOfLowBits(DigitValue(c).value, 4);
      DigitsAppend(HexToBits(front), LowBits(DigitValue(c).value, 4));
      LowerAppend(front, c);
      assert front + [c] == s;
    }
  }

  lemma DigitsOfNothing()
    ensures BitsToHex("") == ""
  {}

  // ----- chunks

  /** Chunks of n bits from the right; the leftmost may be shorter. */
  function Split(s: string, n: nat): (parts: seq<nat>)
    requires n > 0
    ensures forall i :: 0 <= i < |parts| ==> parts[i] < Pow2(n)
  {
    if |s| > n then [BitsValue(s[|s| - n..])] + Split(s[..|s| - n], n)
    else if |s| > 0 then
      Pow2Mono(|s|, n);
      [BitsValue(s)]
    else []
  }

  /** The chunks written out again, last chunk first. */
  function Join(parts: seq<nat>, n: nat): (s: string)
    ensures |s| == n * |parts| && IsBits(s)
  {
    if parts == [] then "" else Join(parts[1..], n) + LowBits(parts[0], n)
  }

  /** Joining the chunks of s gives s, with zeros in front to fill the last chunk. */
  lemma {:induction false} JoinSplit(s: string, n: nat)
    requires n > 0 && IsBits(s)
    ensures exists k: nat :: Join(Split(s, n), n) == Zeros(k) + s
    decreases |s|
  {
    if |s| > n {
      var front, last := s[..|s| - n], s[|s| - n..];
      JoinSplit(front, n);
      var k: nat :| Join(Split(front, n), n) == Zeros(k) + front;
      LowBitsOfValue(last);
      assert Split(s, n)[1..] == Split(front, n);
      assert Zeros(k) + front + last == Zeros(k) + s;
    } else if |s| > 0 {
      LowBitsPadded(s, n);
      assert Join(Split(s, n), n) == Zeros(n - |s|) + s;
    } else {
      assert Join(Split(s, n), n) == Zeros(0) + s;
    }
  }

  lemma LowBitsPadded(s: string, n: nat)
    requires IsBits(s) && |s| <= n
    ensures LowBits(BitsValue(s), n) == Zeros(n - |s|) + s
  {
    ValueOfPadded(n - |s|, s);
    LowBitsOfValue(Zeros(n - |s|) + s);
  }

  lemma SplitAppend(s: string, last: string, n: nat)
    requires n > 0 && |last| == n && s != ""
    ensures Split(s + last, n) == [BitsValue(last)] + Split(s, n)
  {
    hide BitsValue;
    var t := s + last;
    assert t[|t| - n..] == last && t[..|t| - n] == s;
  }

  /**
   Splitting what was joined, behind p extra zeros with p <= n, gives the chunks back, and one more zero
   chunk if p > 0.
   */
  lemma {:induction false} SplitJoin(parts: seq<nat>, n: nat, p: nat)
    requires 0 < n && p <= n && forall i :: 0 <= i < |parts| ==> parts[i] < Pow2(n)
    ensures Split(Zeros(p) + Join(parts, n), n) == parts + (if p > 0 then [0] else [])
  {
    hide BitsValue, LowBits, Zeros, Pow2, Split, Join;
    if parts == [] {
      JoinNothing(n);
      assert Zeros(p) + "" == Zeros(p);
      SplitShort(Zeros(p), n);
      ValueOfZeros(p);
    } else {
      var rest := Zeros(p) + Join(parts[1..], n);
      var last := LowBits(parts[0], n);
      SplitJoin(parts[1..], n, p);
      ValueOfLowBits(parts[0], n);
      JoinUnfold(parts, n);
      assert Zeros(p) + Join(parts, n) == rest + last;
      if p == 0 && |parts| == 1 {
        JoinNothing(n);
        assert rest == "" && rest + last == last;
        SplitShort(last, n);
      } else {
        if |parts| > 1 {
          JoinUnfold(parts[1..], n);
        }
        SplitAppend(rest, last, n);
      }
    }
  }

  lemma JoinUnfold(parts: seq<nat>, n: nat)
    requires parts != []
    ensures Join(parts, n) == Join(parts[1..], n) + LowBits(parts[0], n)
  {}

  lemma JoinNothing(n: nat)
    ensures Join([], n) == ""
  {}

  lemma SplitShort(s: string, n: nat)
    requires |s| <= n && n > 0
    ensures Split(s, n) == if s == "" then [] else [BitsValue(s)]
  {}

  // ----- the leading marker

  /** What follows the first '1'. */
  function AfterMarker(s: string): Option<string> {
    if s == [] then None else if s[0] == '1' then Some(s[1..]) else AfterMarker(s[1..])
  }

  lemma {:induction false} MarkerFound(k: nat, rest: string)
    ensures AfterMarker(Zeros(k) + "1" + rest) == Some(rest)
  {
    var s := Zeros(k) + "1" + rest;
    if k == 0 {
      assert s[1..] == rest;
    } else {
      MarkerFound(k - 1, rest);
      assert s[1..] == Zeros(k - 1) + "1" + rest;
    }
  }

  lemma {:induction false} ZerosAdd(j: nat, k: nat)
    ensures Zeros(j) + Zeros(k) == Zeros(j + k)
  {
    if j == 0 {
      assert Zeros(0) + Zeros(k) == Zeros(k);
    } else {
      ZerosAdd(j - 1, k);
      assert Zeros(j) + Zeros(k) == "0" + (Zeros(j - 1) + Zeros(k));
    }
  }

  // ----- the loops

  method Hex2Bin(hex: string) returns (r: Result<string, string>)
    ensures r == if IsHex(hex) then Ok(HexToBits(hex)) else Err("Invalid hex character")
  {
    hide LowBits, HexToBits, DigitValue;
    var bin := "";
    assert HexToBits("") == "" by { BitsOfNothing(); }
    for k := 0 to |hex|
      invariant IsHex(hex[..k]) && bin == HexToBits(hex[..k])
    {
      var c := hex[k];
      if DigitValue(c).None? {
        return Err("Invalid hex character");
      }
      var val := DigitValue(c).value;
      ghost var before := bin;
      bin := bin + (if val / 8 % 2 == 1 then "1" else "0");
      bin := bin + (if val / 4 % 2 == 1 then "1" else "0");
      bin := bin + (if val / 2 % 2 == 1 then "1" else "0");
      bin := bin + (if val % 2 == 1 then "1" else "0");
      FourBits(val);
      assert bin == before + LowBits(val, 4);
      HexAppend(hex[..k], c);
      assert hex[..k + 1] == hex[..k] + [c];
    }
    assert hex[..|hex|] == hex;
    return Ok(bin);
  }

  lemma BitsOfNothing()
    ensures HexToBits("") == ""
  {}

  lemma FourBits(v: nat)
    requires v < 16
    ensures LowBits(v, 4) == (if v / 8 % 2 == 1 then "1" else "0") + (if v / 4 % 2 == 1 then "1" else "0")
      + (if v / 2 % 2 == 1 then "1" else "0") + (if v % 2 == 1 then "1" else "0")
  {
    assert v / 2 / 2 == v / 4 && v / 4 / 2 == v / 8;
    assert LowBits(v / 8, 1) == if v / 8 % 2 == 1 then "1" else "0";
    assert LowBits(v / 4, 2) == LowBits(v / 8, 1) + (if v / 4 % 2 == 1 then "1" else "0");
    assert LowBits(v / 2, 3) == LowBits(v / 4, 2) + (if v / 2 % 2 == 1 then "1" else "0");
  }

  method Bin2Hex(bin: string) returns (hex: string)
    ensures hex == BitsToHex(PadToDigits(bin))
  {
    var padded := bin;
    ghost var p: nat := 0;
    assert Zeros(0) + bin == bin;
    while |padded| % 4 != 0
      invariant padded == Zeros(p) + bin && p <= (4 - |bin| % 4) % 4
      decreases 4 - p
    {
      padded := "0" + padded;
      p := p + 1;
      assert Zeros(p) + bin == "0" + (Zeros(p - 1) + bin);
    }
    assert padded == PadToDigits(bin);
    hex := DigitsOf(padded);
  }

  /** The second loop of bin2hex: one digit for every four characters. */
  method DigitsOf(padded: string) returns (hex: string)
    requires |padded| % 4 == 0
    ensures hex == BitsToHex(padded)
  {
    hide BitsToHex, BitsValue;
    DigitsOfNothing();
    hex := "";
    var i := 0;
    while i < |padded|
      invariant 0 <= i <= |padded| && i % 4 == 0
      invariant hex == BitsToHex(padded[..i])
    {
      var val := Window(padded, i, 4);
      DigitsAppend(padded[..i], padded[i..i + 4]);
      assert padded[..i + 4] == padded[..i] + padded[i..i + 4];
      hex := hex + [if val < 10 then '0' + val as char else 'a' + (val - 10) as char];
      i := i + 4;
    }
    assert padded[..i] == padded;
  }

  method PadLeft(str: string, len: nat) returns (r: string)
    ensures r == Zeros(if |str| >= len then 0 else len - |str|) + str
  {
    if |str| >= len {
      assert Zeros(0) + str == str;
      return str;
    }
    return Zeros(len - |str|) + str;
  }

  /** Zeros in front up to the next multiple of m. */
  function PadMultiple(s: string, m: nat): (r: string)
    ensures |s| <= |r| && (m > 1 ==> |r| % m == 0 && |r| < |s| + m)
  {
    if m <= 1 || |s| % m == 0 then s else
      var r := Zeros(m - |s| % m) + s;
      assert |r| == (|s| / m + 1) * m;
      MultipleMod(|s| / m + 1, m);
      r
  }

  method PadBinary(bin: string, multipleOf: nat) returns (r: string)
    ensures r == PadMultiple(bin, multipleOf)
  {
    if multipleOf == 0 || multipleOf == 1 {
      return bin;
    }
    var missing := |bin| % multipleOf;
    if missing == 0 {
      return bin;
    }
    r := Zeros(multipleOf - missing) + bin;
  }

  method SplitNumStringToIntArray(str: string, bits: nat) returns (parts: seq<nat>)
    requires 0 < bits
    ensures parts == Split(str, bits)
  {
    hide BitsValue;
    parts := [];
    var i := |str|;
    assert str[..i] == str;
    while i > bits
      invariant 0 <= i <= |str| && (i == 0 ==> str == "")
      invariant Split(str, bits) == parts + Split(str[..i], bits)
    {
      i := i - bits;
      var val := Window(str, i, bits);
      assert str[..i + bits] == str[..i] + str[i..i + bits];
      SplitAppend(str[..i], str[i..i + bits], bits);
      parts := parts + [val];
    }
    if i > 0 {
      var val := Window(str, 0, i);
      assert str[0..i] == str[..i];
      parts := parts + [val];
    }
  }

  /** The value of n characters from position i on. */
  method Window(str: string, i: nat, n: nat) returns (val: nat)
    requires i + n <= |str|
    ensures val == BitsValue(str[i..i + n])
  {
    val := 0;
    for j := 0 to n
      invariant val == BitsValue(str[i..i + j])
    {
      val := 2 * val + (if str[i + j] == '1' then 1 else 0);
      assert str[i..i + j + 1][..j] == str[i..i + j];
    }
  }
}
