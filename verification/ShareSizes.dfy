/**
 How large things are, and where: the chunks a secret takes, the text of a dealt share, and the digits, bits and chunks
 by their values.
 */
module ShareSizes {
  import opened BinaryWords
  import opened BinaryField
  import opened BitStrings
  import opened FieldTables
  import opened NumberTheory
  import opened Polynomials
  import opened ShareText
  import opened SharingScheme
  import opened Wrappers

  // ----- digits and bits by value

  /** The digits, written and read. */
  lemma DigitsAre(v: nat)
    requires v < 16
    ensures HexDigit(v) == "0123456789abcdef"[v]
    ensures DigitValue("0123456789abcdef"[v]) == Some(v) && DigitValue("0123456789ABCDEF"[v]) == Some(v)
  {
  }

  /** The character of a field size. */
  lemma BitsCharIs(b: nat)
    requires ValidBits(b)
    ensures BitsChar(b) == "0123456789ABCDEFGHIJK"[b]
  {
  }

  /** Bits weigh as in a binary number: a string in front of another counts for more. */
  lemma {:induction false} BitsWeigh(s: string, t: string)
    ensures BitsValue(s + t) == BitsValue(s) * Pow2(|t|) + BitsValue(t)
    decreases |t|
  {
    hide BitsValue, Pow2;
    NoWeight();
    if t == "" {
      assert s + t == s;
    } else {
      var front, c := t[..|t| - 1], t[|t| - 1];
      BitsWeigh(s, front);
      LastWeight(front, c);
      LastWeight(s + front, c);
      assert s + front + [c] == s + t && front + [c] == t;
      TwiceAPower(|t|);
      Doubled(BitsValue(s), Pow2(|front|), BitsValue(front), Bit(c));
    }
  }

  lemma OneBit()
    ensures BitsValue("1") == 1 && BitsValue("0") == 0
  {
    assert "1"[..0] == "" && "0"[..0] == "";
  }

  lemma NoWeight()
    ensures BitsValue("") == 0 && Pow2(0) == 1
  {
  }

  lemma LastWeight(s: string, c: char)
    ensures BitsValue(s + [c]) == 2 * BitsValue(s) + Bit(c)
  {
    assert (s + [c])[..|s|] == s;
  }

  lemma TwiceAPower(k: nat)
    requires k > 0
    ensures Pow2(k) == 2 * Pow2(k - 1)
  {
  }

  lemma Doubled(x: nat, p: nat, y: nat, bit: nat)
    ensures 2 * (x * p + y) + bit == x * (2 * p) + (2 * y + bit)
  {
  }

  /** The bits of a hexadecimal string have its value. */
  lemma {:induction false} HexValue(s: string)
    requires IsHex(s)
    ensures BitsValue(HexToBits(s)) == HexNumber(s)
  {
    hide BitsValue, LowBits, DigitValue, HexNumber, HexToBits;
    NoWeight();
    if s == "" {
      NoDigits();
    } else {
      var front, c := s[..|s| - 1], s[|s| - 1];
      HexValue(front);
      Sixteen();
      ValueOfLowBits(DigitValue(c).value, 4);
      BitsWeigh(HexToBits(front), LowBits(DigitValue(c).value, 4));
      HexAppend(front, c);
      LastDigit(front, c);
      assert front + [c] == s;
    }
  }

  lemma Sixteen()
    ensures Pow2(4) == 16
  {
  }

  lemma NoDigits()
    ensures HexToBits("") == "" && HexNumber("") == 0
  {
  }

  lemma LastDigit(s: string, c: char)
    requires IsHex(s) && DigitValue(c).Some?
    ensures IsHex(s + [c]) && HexNumber(s + [c]) == 16 * HexNumber(s) + DigitValue(c).value
  {
    hide DigitValue;
    assert (s + [c])[..|s|] == s;
  }

  // ----- reading a share

  lemma StoulMeans(s: string)
    requires IsHex(s) && s != ""
    ensures Stoul(s) == Some(HexNumber(s) % 0x1_0000_0000)
  {
    hide HexNumber;
    AllDigits(s);
    assert DigitValue(s[0]).Some?;
    assert |s| > 2 ==> DigitValue(s[1]).Some?;
    assert SkipSpaces(s) == s;
  }

  /** v in base 36, in upper or lower case. */
  predicate Base36(c: char, v: nat) {
    || ('0' <= c <= '9' && v == c as nat - '0' as nat)
    || ('A' <= c <= 'Z' && v == c as nat - 'A' as nat + 10)
    || ('a' <= c <= 'z' && v == c as nat - 'a' as nat + 10)
  }

  /** A share is read as its size in base 36, its number in hexadecimal, cut to 32 bits, and the rest as its data. */
  lemma ParseMeans(c: char, v: nat, id: string, data: string)
    requires Base36(c, v) && v > 0 && IsHex(id) && |id| == (v + 3) / 4 && |id + data| >= 2
    ensures ParseShare([c] + id + data) == Ok(Parsed(v, HexNumber(id) % 0x1_0000_0000, data))
  {
    hide Stoul, HexNumber;
    StoulMeans(id);
    ParsedParts(c, v, id, data);
  }

  lemma ParsedParts(c: char, v: nat, id: string, data: string)
    requires HeaderBits(c) == Some(v) && |id| == (v + 3) / 4 && |id + data| >= 2 && Stoul(id).Some?
    ensures ParseShare([c] + id + data) == Ok(Parsed(v, Stoul(id).value, data))
  {
    hide Stoul, HeaderBits;
    var share := [c] + id + data;
    assert share[0] == c && share[1..1 + IdLength(v)] == id && share[1 + IdLength(v)..] == data;
  }

  /** What cannot be read: less than three characters, or another first character. */
  lemma ParseRefuses(share: string)
    ensures |share| < 3 ==> ParseShare(share) == Err("Invalid share format: too short")
    ensures |share| >= 3 && (forall v: nat :: !Base36(share[0], v)) ==>
      ParseShare(share) == Err("Invalid bits character")
  {
    if |share| >= 3 {
      var header := HeaderBits(share[0]);
      assert header.Some? ==> Base36(share[0], header.value);
    }
  }

  /** Combining fails with the error of the first share that cannot be read. */
  lemma {:induction false} FirstUnreadable(b: nat, shares: seq<string>, k: nat)
    requires b > 0 && k < |shares| && ParseShare(shares[k]).Err?
    requires forall j :: 0 <= j < k ==> ParseShare(shares[j]).Ok? && IsHex(ParseShare(shares[j]).value.data)
    ensures Collect(b, shares) == Err(ParseShare(shares[k]).error)
    decreases |shares|
  {
    hide ParseShare, Split, HexToBits;
    var last := |shares| - 1;
    if k < last {
      FirstUnreadable(b, shares[..last], k);
    } else {
      AllReadable(b, shares[..last]);
    }
  }

  lemma {:induction false} AllReadable(b: nat, shares: seq<string>)
    requires b > 0
    requires forall j :: 0 <= j < |shares| ==> ParseShare(shares[j]).Ok? && IsHex(ParseShare(shares[j]).value.data)
    ensures Collect(b, shares).Ok?
  {
    hide ParseShare, Split, HexToBits;
    if shares != [] {
      AllReadable(b, shares[..|shares| - 1]);
    }
  }

  // ----- chunks

  lemma {:induction false} SplitCount(s: string, n: nat)
    requires n > 0
    ensures |Split(s, n)| == (|s| + n - 1) / n
    decreases |s|
  {
    hide BitsValue;
    if |s| > n {
      SplitCount(s[..|s| - n], n);
      OneMoreChunk(|s|, n);
    } else {
      FewChunks(|s|, n);
    }
  }

  /** Where chunk k begins and ends in a string of l bits. */
  function From(l: nat, n: nat, k: nat): (i: nat)
    ensures i == if n * (k + 1) < l then l - n * (k + 1) else 0
    ensures i <= l
  {
    if n * (k + 1) < l then l - n * (k + 1) else 0
  }

  lemma FromShifts(l: nat, n: nat, k: nat)
    requires l > n && k > 0 && n * (k - 1) < l - n
    ensures n * k == n * (k - 1) + n && From(l, n, k) == From(l - n, n, k - 1) <= l - n * k
    ensures l - n * k == l - n - n * (k - 1)
  {
    assert n * (k + 1) == n * k + n;
  }

  lemma FirstChunk(l: nat, n: nat)
    ensures n * 0 == 0 && From(l, n, 0) == if n < l then l - n else 0
  {
  }

  /** The k-th chunk holds the k-th bits from the right. */
  lemma {:induction false} SplitAt(s: string, n: nat, k: nat)
    requires n > 0 && k < |Split(s, n)|
    ensures n * k < |s| && From(|s|, n, k) <= |s| - n * k
    ensures Split(s, n)[k] == BitsValue(s[From(|s|, n, k)..|s| - n * k])
    decreases |s|
  {
    hide BitsValue, From;
    FirstChunk(|s|, n);
    if k > 0 {
      assert |s| > n;
      var front := s[..|s| - n];
      assert Split(s, n)[k] == Split(front, n)[k - 1];
      SplitAt(front, n, k - 1);
      FromShifts(|s|, n, k);
      var i, j := From(|s|, n, k), |s| - n * k;
      assert front[i..j] == s[i..j];
    } else if |s| <= n {
      assert s[0..|s|] == s;
    } else {
      assert s[|s| - n..|s|] == s[|s| - n..];
    }
  }

  lemma OneMoreChunk(l: nat, n: nat)
    requires l > n > 0
    ensures (l + n - 1) / n == (l - n + n - 1) / n + 1
  {
    var a := l - 1;
    var q, r := a / n, a % n;
    assert a == q * n + r;
    assert a + n == (q + 1) * n + r;
    DivisionUnique(a + n, n, q + 1, r);
  }

  lemma FewChunks(l: nat, n: nat)
    requires l <= n && n > 0
    ensures (l + n - 1) / n == if l == 0 then 0 else 1
  {
    if l == 0 {
      DivisionUnique(n - 1, n, 0, n - 1);
    } else {
      DivisionUnique(l + n - 1, n, 1, l - 1);
    }
  }

  // ----- secrets

  /** A secret of |s| digits, marked and padded to a multiple of 128 bits, takes this many chunks. */
  lemma PartsCount(b: nat, s: string)
    requires ValidBits(b) && IsHex(s)
    ensures |SecretParts(b, s)| == (128 * (|s| / 32 + 1) + b - 1) / b
  {
    hide Split, HexToBits, PadMultiple;
    var marked := "1" + HexToBits(s);
    Blocks(|s|, |PadMultiple(marked, 128)|);
    SplitCount(PadMultiple(marked, 128), b);
  }

  lemma Blocks(digits: nat, l: nat)
    requires l % 128 == 0 && 4 * digits + 1 <= l < 4 * digits + 1 + 128
    ensures l == 128 * (digits / 32 + 1)
  {
  }

  /** So as many chunks means as many whole 32 digits. */
  lemma SameCount(b: nat, s: string, o: string)
    requires ValidBits(b) && IsHex(s) && IsHex(o)
    ensures |SecretParts(b, s)| == |SecretParts(b, o)| <==> |s| / 32 == |o| / 32
  {
    PartsCount(b, s);
    PartsCount(b, o);
    if |s| / 32 < |o| / 32 {
      CountGrows(b, |s| / 32 + 1, |o| / 32 + 1);
    } else if |o| / 32 < |s| / 32 {
      CountGrows(b, |o| / 32 + 1, |s| / 32 + 1);
    }
  }

  lemma CountGrows(b: nat, i: nat, j: nat)
    requires 0 < b <= 128 && i < j
    ensures (128 * i + b - 1) / b < (128 * j + b - 1) / b
  {
    var x, y := 128 * i + b - 1, 128 * j + b - 1;
    var q := x / b;
    assert x == q * b + x % b && y == y / b * b + y % b;
    if y / b <= q {
      MulMono(y / b, q, b);
    }
  }

  /** The chunks spell the marker and the secret's bits behind zeros. */
  lemma PartsSpell(b: nat, s: string) returns (k: nat)
    requires ValidBits(b) && IsHex(s)
    ensures Join(SecretParts(b, s), b) == Zeros(k) + ("1" + HexToBits(s))
  {
    k := JoinParts(b, "1" + HexToBits(s));
  }

  // ----- shares

  /** The text of a share: the size, the number in its field, the data. */
  lemma ShareLayout(b: nat, id: nat, data: string)
    requires ValidBits(b) && id < Size(b)
    ensures var share := FormatShare(b, id, data);
      && |share| == 1 + (b + 3) / 4 + |data| && share[0] == "0123456789ABCDEFGHIJK"[b]
      && share[1 + (b + 3) / 4..] == data
      && IsHex(share[1..1 + (b + 3) / 4]) && HexNumber(share[1..1 + (b + 3) / 4]) == id
  {
    hide Stoul, HexOf, FillTo, BitsChar;
    BitsCharIs(b);
    WriteId(b, id);
    FieldReads(b, id);
    var s := FillTo(HexOf(id), IdLength(b));
    var share := FormatShare(b, id, data);
    assert share == [BitsChar(b)] + (s + data);
    assert share[1..1 + |s|] == s && share[1 + |s|..] == data;
  }

  lemma FieldReads(b: nat, id: nat)
    requires ValidBits(b) && id < Size(b)
    ensures var s := FillTo(HexOf(id), IdLength(b)); IsHex(s) && HexNumber(s) == id
  {
    hide HexOf;
    Pow2Mono(b, 4 * IdLength(b));
    DigitsOfNumber(id, IdLength(b));
    NumberOfPadded(IdLength(b) - |HexOf(id)|, HexOf(id));
  }

  /** The digits of a share's data, for a secret of so many digits. */
  function DataDigits(b: nat, digits: nat): nat
    requires b > 0
  {
    var chunks := (128 * (digits / 32 + 1) + b - 1) / b;
    (b * chunks + 3) / 4
  }

  /** The text of a share: size, number, and so many digits that spell the values. */
  predicate Spells(share: string, b: nat, id: nat, digits: nat, values: seq<nat>)
    requires ValidBits(b)
  {
    var at := 1 + (b + 3) / 4;
    && |share| == at + digits && share[0] == BitsChar(b)
    && IsHex(share[1..at]) && HexNumber(share[1..at]) == id
    && IsHex(share[at..]) && Split(HexToBits(share[at..]), b) == values
  }

  lemma FormattedSpells(b: nat, id: nat, data: string)
    requires ValidBits(b) && id < Size(b) && IsHex(data)
    ensures Spells(FormatShare(b, id, data), b, id, |data|, Split(HexToBits(data), b))
  {
    hide FormatShare, Split, HexToBits, HexNumber;
    ShareLayout(b, id, data);
    BitsCharIs(b);
  }

  /** The i-th share dealt has the number i + 1, and as many digits as the secret's length asks for. */
  lemma DealtShare(b: nat, secret: string, n: nat, t: nat, draws: (nat, nat) -> nat, i: nat)
    requires ValidBits(b) && IsHex(secret) && 2 <= t <= n <= Max(b) && i < n
    ensures Spells(
      Shares(b, secret, n, t, draws)[i], b, i + 1, DataDigits(b, |secret|),
      ShareValues(b, SecretParts(b, secret), t, draws, i + 1) + Extra(b, SecretParts(b, secret)))
  {
    hide SecretParts, ShareValues, Split, HexToBits, BitsToHex, Join, FormatShare, Extra, Spells;
    var parts := SecretParts(b, secret);
    PartsExist(b, secret);
    PartsCount(b, secret);
    ShareParsed(b, parts, t, draws, i + 1);
    FormattedSpells(b, i + 1, BitsToHex(PadToDigits(Join(ShareValues(b, parts, t, draws, i + 1), b))));
  }
}
