/**
 The text form of a share: one base-36 character for the field size, the share number in hexadecimal,
 then the data.
 */
module ShareText {
  import opened BinaryWords
  import opened BinaryField
  import opened BitStrings
  import opened Wrappers

  datatype Parsed = Parsed(bits: nat, id: nat, data: string)

  // ----- writing

  function BitsChar(b: nat): char
    requires ValidBits(b)
  {
    if b < 10 then '0' + b as char else 'A' + (b - 10) as char
  }

  /** Hexadecimal digits of 2^b - 1. */
  function IdLength(b: nat): nat {
    (b + 3) / 4
  }

  /** A number in hexadecimal, as a stream prints it. */
  function HexOf(v: nat): (s: string)
    ensures s != ""
  {
    if v < 16 then [HexDigit(v)] else HexOf(v / 16) + [HexDigit(v % 16)]
  }

  function FillTo(s: string, len: nat): string {
    if |s| >= len then s else Zeros(len - |s|) + s
  }

  function FormatShare(b: nat, id: nat, data: string): string
    requires ValidBits(b)
  {
    [BitsChar(b)] + FillTo(HexOf(id), IdLength(b)) + data
  }

  // ----- reading

  function HeaderBits(c: char): Option<nat> {
    if '0' <= c <= '9' then Some(c as nat - '0' as nat)
    else if 'A' <= c <= 'Z' then Some(10 + (c as nat - 'A' as nat))
    else if 'a' <= c <= 'z' then Some(10 + (c as nat - 'a' as nat))
    else None
  }

  predicate IsSpace(c: char) {
    c == ' ' || c == '\t' || c == '\n' || c == '\U{000B}' || c == '\U{000C}' || c == '\r'
  }

  function SkipSpaces(s: string): string {
    if s != "" && IsSpace(s[0]) then SkipSpaces(s[1..]) else s
  }

  function LeadingDigits(s: string): (r: string)
    ensures IsHex(r)
  {
    if s != "" && DigitValue(s[0]).Some? then [s[0]] + LeadingDigits(s[1..]) else ""
  }

  function HexNumber(s: string): nat
    requires IsHex(s)
  {
    if s == "" then 0 else 16 * HexNumber(s[..|s| - 1]) + DigitValue(s[|s| - 1]).value
  }

  const WORD_32 := 0x1_0000_0000
  const WORD_64 := 0x1_0000_0000_0000_0000

  /**
   std::stoul in base 16, cut to 32 bits: leading spaces, a sign and a 0x prefix are allowed, what
   follows the digits is ignored, and only the absence of digits is an error.
   */
  function Stoul(s: string): Option<nat> {
    var t := SkipSpaces(s);
    var negative := t != "" && t[0] == '-';
    var u := if t != "" && (t[0] == '-' || t[0] == '+') then t[1..] else t;
    var prefixed := |u| > 2 && u[0] == '0' && (u[1] == 'x' || u[1] == 'X') && DigitValue(u[2]).Some?;
    var digits := LeadingDigits(if prefixed then u[2..] else u);
    if digits == "" then None
    else Some((if negative then WORD_64 - HexNumber(digits) % WORD_64 else HexNumber(digits)) % WORD_32)
  }

  function ParseId(b: nat, share: string): Result<Parsed, string> {
    if |share| < 1 + IdLength(b) then Err("Invalid share format: too short for ID field") else
      var idStr := share[1..1 + IdLength(b)];
      match Stoul(idStr)
      case None => Err("Invalid share ID format: " + idStr)
      case Some(id) => Ok(Parsed(b, id, share[1 + IdLength(b)..]))
  }

  function ParseShare(share: string): Result<Parsed, string> {
    if |share| < 3 then Err("Invalid share format: too short") else
      match HeaderBits(share[0])
      case None => Err("Invalid bits character")
      case Some(b) => ParseId(b, share)
  }

  // ----- reading undoes writing

  lemma {:induction false} DigitsOfNumber(v: nat, k: nat)
    requires k > 0 && v < Pow2(4 * k)
    ensures |HexOf(v)| <= k && IsHex(HexOf(v)) && HexNumber(HexOf(v)) == v
  {
    if v >= 16 {
      assert Pow2(4 * k) == 16 * Pow2(4 * (k - 1)) by { PowSixteen(k); }
      assert k > 1 by { assert Pow2(0) == 1; }
      DigitsOfNumber(v / 16, k - 1);
      var s := HexOf(v);
      assert s[..|s| - 1] == HexOf(v / 16);
    } else {
      assert HexOf(v)[..0] == "";
    }
  }

  lemma PowSixteen(k: nat)
    requires k > 0
    ensures Pow2(4 * k) == 16 * Pow2(4 * (k - 1))
  {
    assert Pow2(4 * k) == 2 * Pow2(4 * k - 1);
    assert Pow2(4 * k - 1) == 2 * Pow2(4 * k - 2);
    assert Pow2(4 * k - 2) == 2 * Pow2(4 * k - 3);
  }

  lemma {:induction false} NumberOfPadded(n: nat, s: string)
    requires IsHex(s)
    ensures IsHex(Zeros(n) + s) && HexNumber(Zeros(n) + s) == HexNumber(s)
  {
    var t := Zeros(n) + s;
    forall i | 0 <= i < |t| ensures DigitValue(t[i]).Some? {
      assert t[i] == if i < n then '0' else s[i - n];
    }
    if s != "" {
      NumberOfPadded(n, s[..|s| - 1]);
      assert t[..|t| - 1] == Zeros(n) + s[..|s| - 1];
    } else if n > 0 {
      NumberOfPadded(n - 1, "");
      assert Zeros(n - 1) + "" == Zeros(n - 1);
      ZerosAdd(n - 1, 1);
      assert t[..n - 1] == Zeros(n - 1) && t[n - 1] == '0';
    }
  }

  lemma {:induction false} AllDigits(s: string)
    requires IsHex(s)
    ensures LeadingDigits(s) == s
  {
    if s != "" {
      AllDigits(s[1..]);
    }
  }

  lemma StoulOfDigits(s: string)
    requires IsHex(s) && s != "" && HexNumber(s) < WORD_32
    ensures Stoul(s) == Some(HexNumber(s))
  {
    hide HexNumber;
    AllDigits(s);
    assert DigitValue(s[0]).Some?;
    assert |s| > 2 ==> DigitValue(s[1]).Some?;
    assert SkipSpaces(s) == s;
  }

  lemma HeaderOfBits(b: nat)
    requires ValidBits(b)
    ensures HeaderBits(BitsChar(b)) == Some(b)
  {}

  lemma WriteId(b: nat, id: nat)
    requires ValidBits(b) && id < Size(b)
    ensures var s := FillTo(HexOf(id), IdLength(b));
      |s| == IdLength(b) && Stoul(s) == Some(id)
  {
    hide Stoul, HexOf;
    var k := IdLength(b);
    Pow2Mono(b, 4 * k);
    Pow2Mono(b, 20);
    assert Pow2(20) == 0x10_0000 by { assert Pow2(10) == 1024; }
    DigitsOfNumber(id, k);
    var s := HexOf(id);
    if |s| >= k {
      StoulOfDigits(s);
    } else {
      NumberOfPadded(k - |s|, s);
      StoulOfDigits(Zeros(k - |s|) + s);
    }
  }

  /** Every share that is written is read back, provided it has the three characters the reader insists on. */
  lemma ParseFormat(b: nat, id: nat, data: string)
    requires ValidBits(b) && id < Size(b) && data != ""
    ensures ParseShare(FormatShare(b, id, data)) == Ok(Parsed(b, id, data))
  {
    hide Stoul, BitsChar, HeaderBits, HexOf, FillTo;
    HeaderOfBits(b);
    WriteId(b, id);
    var s := FillTo(HexOf(id), IdLength(b));
    var share := FormatShare(b, id, data);
    assert share == [BitsChar(b)] + s + data;
    assert share[1..1 + IdLength(b)] == s && share[1 + IdLength(b)..] == data;
  }
}
