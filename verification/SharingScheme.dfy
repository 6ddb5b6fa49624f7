/**
 Shamir's scheme as functions: what share writes and what combine reads out, and the proof that the
 second undoes the first for every threshold-sized choice of shares.
 */
module SharingScheme {
  import opened BinaryWords
  import opened BinaryField
  import opened SetFacts
  import opened FieldTables
  import opened Polynomials
  import opened BitStrings
  import opened NumberTheory
  import opened ShareText
  import opened Wrappers

  // ----- sharing

  /** The secret as chunks: marker, padding to 128 bits, b bits a chunk. */
  function SecretParts(b: nat, secret: string): seq<nat>
    requires b > 0 && IsHex(secret)
  {
    Split(PadMultiple("1" + HexToBits(secret), 128), b)
  }

  function Coefficient(b: nat, part: nat, p: nat, i: nat, draws: (nat, nat) -> nat): nat {
    if i == 0 then part else draws(p, i) % Size(b)
  }

  /** The random words drawn for part p, reduced to field elements: draws(p, i) for coefficient i. */
  function Coefficients(b: nat, part: nat, p: nat, t: nat, draws: (nat, nat) -> nat): (cs: seq<nat>)
    requires t > 0
    ensures |cs| == t && cs[0] == part
    ensures part < Size(b) ==> Elements(b, cs)
  {
    seq(t, (i: nat) => Coefficient(b, part, p, i, draws))
  }

  /** The value of part p at the share number x. */
  function ShareValue(b: nat, parts: seq<nat>, p: nat, t: nat, draws: (nat, nat) -> nat, x: nat): nat
    requires ValidBits(b) && t > 0 && p < |parts|
  {
    Eval(b, Coefficients(b, parts[p], p, t, draws), x)
  }

  function ShareValues(b: nat, parts: seq<nat>, t: nat, draws: (nat, nat) -> nat, x: nat): seq<nat>
    requires ValidBits(b) && t > 0
  {
    seq(|parts|, p requires 0 <= p < |parts| => ShareValue(b, parts, p, t, draws, x))
  }

  function ShareString(b: nat, parts: seq<nat>, t: nat, draws: (nat, nat) -> nat, x: nat): string
    requires ValidBits(b) && t > 0
  {
    FormatShare(b, x, BitsToHex(PadToDigits(Join(ShareValues(b, parts, t, draws, x), b))))
  }

  function Shares(b: nat, secret: string, n: nat, t: nat, draws: (nat, nat) -> nat): (ss: seq<string>)
    requires ValidBits(b) && t > 0 && IsHex(secret)
    ensures |ss| == n
  {
    seq(n, (i: nat) => ShareString(b, SecretParts(b, secret), t, draws, i + 1))
  }

  // ----- combining

  /** Distinct share numbers in order of appearance, each with its chunks. */
  datatype Collected = Collected(ids: seq<nat>, rows: seq<seq<nat>>)

  function Collect(b: nat, shares: seq<string>): Result<Collected, string>
    requires b > 0
  {
    if shares == [] then Ok(Collected([], [])) else
      match Collect(b, shares[..|shares| - 1])
      case Err(e) => Err(e)
      case Ok(c) => AddShare(b, c, shares[|shares| - 1])
  }

  /** A share whose number was seen before is skipped, whatever it carries. */
  function AddShare(b: nat, c: Collected, share: string): Result<Collected, string>
    requires b > 0
  {
    match ParseShare(share)
    case Err(e) => Err(e)
    case Ok(s) =>
      if s.id in c.ids then Ok(c)
      else if !IsHex(s.data) then Err("Invalid hex character")
      else Ok(Collected(c.ids + [s.id], c.rows + [Split(HexToBits(s.data), b)]))
  }

  /** The strings a combine call can handle: where they parse, one field size, share numbers below it, equally long data. */
  predicate Compatible(b: nat, len: nat, shares: seq<string>) {
    forall i :: 0 <= i < |shares| ==> Fitting(b, len, shares[i])
  }

  predicate Fitting(b: nat, len: nat, share: string) {
    |share| >= 3 && HeaderBits(share[0]).Some? ==>
      && HeaderBits(share[0]).value == b
      && (ParseShare(share).Ok? ==> ParseShare(share).value.id < Size(b) && |ParseShare(share).value.data| == len)
  }

  /** What a successful collection looks like. */
  predicate Rows(b: nat, width: nat, c: Collected) {
    && |c.ids| == |c.rows| && Elements(b, c.ids) && Distinct(c.ids)
    && forall i :: 0 <= i < |c.rows| ==> |c.rows[i]| == width && Elements(b, c.rows[i])
  }

  function Column(rows: seq<seq<nat>>, width: nat, j: nat): (ys: seq<nat>)
    requires j < width && forall i :: 0 <= i < |rows| ==> |rows[i]| == width
    ensures |ys| == |rows|
  {
    seq(|rows|, i requires 0 <= i < |rows| => rows[i][j])
  }

  ghost function Interpolated(b: nat, width: nat, c: Collected): (vals: seq<nat>)
    requires ValidBits(b) && Rows(b, width, c)
    ensures |vals| == width && Elements(b, vals)
  {
    SizeFacts(b);
    seq(width, j requires 0 <= j < width =>
      Interpolant(b, 0, c.ids, Column(c.rows, width, j), |c.ids|))
  }

  /** Joins the chunks and strips everything up to the marker. */
  function Unmark(b: nat, vals: seq<nat>): string {
    var rest := match AfterMarker(Join(vals, b)) case None => "0" case Some(r) => r;
    BitsToHex(PadToDigits(rest))
  }

  function Width(b: nat, len: nat): nat
    requires b > 0
  {
    |Split(Zeros(4 * len), b)|
  }

  lemma {:induction false} SplitLength(s: string, t: string, n: nat)
    requires n > 0 && |s| == |t|
    ensures |Split(s, n)| == |Split(t, n)|
    decreases |s|
  {
    if |s| > n {
      SplitLength(s[..|s| - n], t[..|t| - n], n);
    }
  }

  lemma {:induction false} CollectRows(b: nat, len: nat, shares: seq<string>)
    requires ValidBits(b) && Compatible(b, len, shares) && Collect(b, shares).Ok?
    ensures Rows(b, Width(b, len), Collect(b, shares).value)
    ensures shares != [] ==> Collect(b, shares).value.ids != []
  {
    hide Split, ParseShare, HexToBits;
    if shares != [] {
      CollectRows(b, len, shares[..|shares| - 1]);
      assert Fitting(b, len, shares[|shares| - 1]);
      ParsedHeader(shares[|shares| - 1]);
      var s := ParseShare(shares[|shares| - 1]).value;
      if IsHex(s.data) {
        SplitLength(HexToBits(s.data), Zeros(4 * len), b);
      }
    }
  }

  lemma ParsedHeader(share: string)
    requires ParseShare(share).Ok?
    ensures |share| >= 3 && HeaderBits(share[0]) == Some(ParseShare(share).value.bits)
  {
    hide Stoul;
  }

  ghost function Combined(b: nat, len: nat, shares: seq<string>): Result<string, string>
    requires ValidBits(b) && Compatible(b, len, shares)
  {
    if shares == [] then Err("No shares provided") else
      match Collect(b, shares)
      case Err(e) => Err(e)
      case Ok(c) =>
        CollectRows(b, len, shares);
        Ok(Unmark(b, Interpolated(b, Width(b, len), c)))
  }

  // ----- combine undoes share

  lemma EvalAtZero(b: nat, cs: seq<nat>)
    requires ValidBits(b) && cs != []
    ensures Eval(b, cs, 0) == cs[0]
  {
    hide Mul, Xor;
    MulZero(b, Eval(b, cs[1..], 0));
    XorZero(cs[0]);
  }

  /** The chunk a data string ends with when its length was filled up to whole digits. */
  function Extra(b: nat, parts: seq<nat>): seq<nat> {
    if (b * |parts|) % 4 == 0 then [] else [0]
  }

  lemma ReadBack(b: nat, ys: seq<nat>)
    requires ValidBits(b) && Elements(b, ys)
    ensures IsHex(BitsToHex(PadToDigits(Join(ys, b))))
    ensures Split(HexToBits(BitsToHex(PadToDigits(Join(ys, b)))), b) == ys + Extra(b, ys)
  {
    hide Split, BitsToHex, HexToBits, Join, Zeros;
    var s := Join(ys, b);
    var p := (4 - |s| % 4) % 4;
    HexOfBits(Zeros(p) + s);
    SplitJoin(ys, b, p);
    assert |s| == b * |ys|;
  }

  /** The collection of the picked shares: their numbers once each, with their values and the extra chunk. */
  ghost predicate Picked(b: nat, parts: seq<nat>, t: nat, draws: (nat, nat) -> nat, c: Collected)
    requires ValidBits(b) && t > 0
  {
    && |c.ids| == |c.rows| && Distinct(c.ids)
    && forall i :: 0 <= i < |c.ids| ==>
      && 0 < c.ids[i] < Size(b)
      && c.rows[i] == ShareValues(b, parts, t, draws, c.ids[i]) + Extra(b, parts)
  }

  /** The shares numbered xs[0], xs[1], ..., repeats allowed. */
  function Chosen(b: nat, parts: seq<nat>, t: nat, draws: (nat, nat) -> nat, xs: seq<nat>): (ss: seq<string>)
    requires ValidBits(b) && t > 0
    ensures |ss| == |xs|
  {
    seq(|xs|, i requires 0 <= i < |xs| => ShareString(b, parts, t, draws, xs[i]))
  }

  lemma ShareElements(b: nat, parts: seq<nat>, t: nat, draws: (nat, nat) -> nat, x: nat)
    requires ValidBits(b) && t > 0 && Elements(b, parts) && x < Size(b)
    ensures Elements(b, ShareValues(b, parts, t, draws, x))
  {
    hide Eval;
  }

  lemma ShareParsed(b: nat, parts: seq<nat>, t: nat, draws: (nat, nat) -> nat, x: nat)
    requires ValidBits(b) && t > 0 && Elements(b, parts) && x < Size(b) && parts != []
    ensures var share := ShareString(b, parts, t, draws, x);
      var data := BitsToHex(PadToDigits(Join(ShareValues(b, parts, t, draws, x), b)));
      && ParseShare(share) == Ok(Parsed(b, x, data)) && IsHex(data)
      && Split(HexToBits(data), b) == ShareValues(b, parts, t, draws, x) + Extra(b, parts)
      && |data| == (b * |parts| + 3) / 4
  {
    hide Split, BitsToHex, HexToBits, Join, Zeros, ParseShare, FormatShare, ShareValue;
    var ys := ShareValues(b, parts, t, draws, x);
    ShareElements(b, parts, t, draws, x);
    ReadBack(b, ys);
    assert |Join(ys, b)| == b * |parts|;
    assert b * |parts| > 0 by { MulMono(1, |parts|, b); }
    ParseFormat(b, x, BitsToHex(PadToDigits(Join(ys, b))));
  }

  lemma {:induction false} CollectChosen(b: nat, parts: seq<nat>, t: nat, draws: (nat, nat) -> nat, xs: seq<nat>)
    requires ValidBits(b) && t > 0 && Elements(b, parts) && parts != []
    requires forall i :: 0 <= i < |xs| ==> 0 < xs[i] < Size(b)
    ensures Compatible(b, (b * |parts| + 3) / 4, Chosen(b, parts, t, draws, xs))
    ensures var r := Collect(b, Chosen(b, parts, t, draws, xs));
      r.Ok? && Picked(b, parts, t, draws, r.value) && (forall x :: x in r.value.ids <==> x in xs)
  {
    hide Split, BitsToHex, HexToBits, Join, ParseShare, ShareValues, ShareString, Extra;
    if xs != [] {
      var front, x := xs[..|xs| - 1], xs[|xs| - 1];
      CollectChosen(b, parts, t, draws, front);
      ShareParsed(b, parts, t, draws, x);
      ParsedHeader(ShareString(b, parts, t, draws, x));
      var ss := Chosen(b, parts, t, draws, xs);
      assert ss[..|ss| - 1] == Chosen(b, parts, t, draws, front);
    }
  }

  lemma ColumnOfPart(b: nat, parts: seq<nat>, t: nat, draws: (nat, nat) -> nat, width: nat, c: Collected, j: nat)
    requires ValidBits(b) && t > 0 && Elements(b, parts) && Picked(b, parts, t, draws, c) && |c.ids| >= t
    requires Rows(b, width, c) && j < |parts| && |parts| <= width
    ensures Interpolant(b, 0, c.ids, Column(c.rows, width, j), |c.ids|) == parts[j]
  {
    hide Eval, Interpolant, Distinct;
    SizeFacts(b);
    var cs := Coefficients(b, parts[j], j, t, draws);
    var ys := Column(c.rows, width, j);
    forall i | 0 <= i < |c.ids| ensures ys[i] == Eval(b, cs, c.ids[i]) {
      assert c.rows[i][j] == ShareValues(b, parts, t, draws, c.ids[i])[j];
    }
    Interpolates(b, cs, 0, c.ids, ys);
    EvalAtZero(b, cs);
  }

  lemma ColumnOfExtra(b: nat, parts: seq<nat>, t: nat, draws: (nat, nat) -> nat, width: nat, c: Collected, j: nat)
    requires ValidBits(b) && t > 0 && Picked(b, parts, t, draws, c)
    requires Rows(b, width, c) && j < width && |parts| <= j < |parts| + |Extra(b, parts)|
    ensures Interpolant(b, 0, c.ids, Column(c.rows, width, j), |c.ids|) == 0
  {
    hide Interpolant, Distinct;
    SizeFacts(b);
    var ys := Column(c.rows, width, j);
    forall i | 0 <= i < |c.ids| ensures ys[i] == Eval(b, [], c.ids[i]) {
      assert c.rows[i][j] == Extra(b, parts)[j - |parts|];
    }
    Interpolates(b, [], 0, c.ids, ys);
  }

  lemma InterpolatedParts(b: nat, parts: seq<nat>, t: nat, draws: (nat, nat) -> nat, width: nat, c: Collected)
    requires ValidBits(b) && t > 0 && Elements(b, parts) && Picked(b, parts, t, draws, c) && |c.ids| >= t
    requires Rows(b, width, c)
    ensures Interpolated(b, width, c) == parts + Extra(b, parts)
  {
    hide Interpolant, Distinct, ShareValue;
    assert |c.rows[0]| == |parts| + |Extra(b, parts)|;
    forall j | 0 <= j < width ensures Interpolated(b, width, c)[j] == (parts + Extra(b, parts))[j] {
      if j < |parts| {
        ColumnOfPart(b, parts, t, draws, width, c, j);
      } else {
        ColumnOfExtra(b, parts, t, draws, width, c, j);
      }
    }
  }

  lemma {:induction false} JoinExtra(b: nat, parts: seq<nat>)
    ensures Join(parts + [0], b) == Zeros(b) + Join(parts, b)
  {
    hide LowBits, Zeros;
    if parts == [] {
      assert Join([], b) == "" && [] + [0] == [0] && [0][1..] == [];
      assert Join([0], b) == LowBits(0, b);
      LowBitsPadded("", b);
      LowZero(b);
    } else {
      JoinExtra(b, parts[1..]);
      JoinUnfold(parts, b);
      JoinUnfold(parts + [0], b);
      assert (parts + [0])[1..] == parts[1..] + [0];
    }
  }

  lemma {:induction false} LowZero(n: nat)
    ensures LowBits(0, n) == Zeros(n)
  {
    if n > 0 {
      LowZero(n - 1);
      ZerosAdd(n - 1, 1);
      assert Zeros(1) == "0";
    }
  }

  /** Removing padding and marker from the joined chunks leaves the secret. */
  lemma UnmarkParts(b: nat, secret: string)
    requires ValidBits(b) && IsHex(secret)
    ensures Unmark(b, SecretParts(b, secret) + Extra(b, SecretParts(b, secret))) == Lower(secret)
  {
    hide Split, Join, Zeros, BitsToHex, HexToBits, Lower, AfterMarker, Extra;
    var bits := HexToBits(secret);
    var parts := SecretParts(b, secret);
    var k := JoinParts(b, "1" + bits);
    var z := JoinExtras(b, parts);
    MarkerBehindZeros(z, k, bits);
    assert PadToDigits(bits) == bits;
    BitsOfHex(secret);
  }

  lemma JoinExtras(b: nat, parts: seq<nat>) returns (z: nat)
    ensures Join(parts + Extra(b, parts), b) == Zeros(z) + Join(parts, b)
  {
    hide Join, Zeros;
    z := if Extra(b, parts) == [] then 0 else b;
    if z == b && Extra(b, parts) != [] {
      JoinExtra(b, parts);
    } else {
      NoZeros();
      assert parts + [] == parts;
    }
  }

  lemma JoinParts(b: nat, s: string) returns (k: nat)
    requires ValidBits(b) && IsBits(s)
    ensures Join(Split(PadMultiple(s, 128), b), b) == Zeros(k) + s
  {
    hide Split, Join, Zeros;
    var padded := PadMultiple(s, 128);
    var m := |padded| - |s|;
    PaddedForm(s, 128);
    JoinSplit(padded, b);
    var j: nat :| Join(Split(padded, b), b) == Zeros(j) + padded;
    ZerosAdd(j, m);
    k := j + m;
    assert Zeros(j) + (Zeros(m) + s) == Zeros(j) + Zeros(m) + s;
  }

  lemma MarkerBehindZeros(z: nat, k: nat, bits: string)
    ensures AfterMarker(Zeros(z) + (Zeros(k) + ("1" + bits))) == Some(bits)
  {
    hide Zeros, AfterMarker;
    ZerosAdd(z, k);
    assert Zeros(z) + (Zeros(k) + ("1" + bits)) == Zeros(z) + Zeros(k) + "1" + bits;
    MarkerFound(z + k, bits);
  }

  lemma NoZeros()
    ensures Zeros(0) == ""
  {}

  lemma PaddedForm(s: string, m: nat)
    requires m > 1
    ensures PadMultiple(s, m) == Zeros(|PadMultiple(s, m)| - |s|) + s
  {
    NoZeros();
  }

  lemma PartsExist(b: nat, secret: string)
    requires ValidBits(b) && IsHex(secret)
    ensures SecretParts(b, secret) != [] && Elements(b, SecretParts(b, secret))
  {
    hide BitsValue;
  }

  /** The share number written in a share. */
  function Number(share: string): nat {
    match ParseShare(share) case Ok(s) => s.id case Err(_) => 0
  }

  /** A list that is recovered pointwise from its numbers has no more distinct entries than numbers. */
  lemma CountNumbers(ids: seq<nat>, shares: seq<string>)
    requires forall i :: 0 <= i < |shares| ==> Number(shares[i]) in ids
    requires forall x, y :: x in shares && y in shares && Number(x) == Number(y) ==> x == y
    ensures |Elems(shares)| <= |Elems(ids)|
  {
    hide Number;
    var named := set s | s in shares :: Number(s);
    InjectiveImage(Elems(shares), named);
    SubsetSize(named, Elems(ids));
  }

  lemma {:induction false} InjectiveImage(s: set<string>, named: set<nat>)
    requires forall x, y :: x in s && y in s && Number(x) == Number(y) ==> x == y
    requires named == set x | x in s :: Number(x)
    ensures |named| == |s|
  {
    hide Number;
    if s != {} {
      var x := Pick(s);
      InjectiveImage(s - {x}, named - {Number(x)});
    }
  }

  /**
   Threshold reconstruction: whatever was drawn, any list of shares of one sharing with at least t
   different ones among them, in any order and with repeats, combines to the secret in lower case.
   */
  lemma Reconstruction(b: nat, secret: string, n: nat, t: nat, draws: (nat, nat) -> nat, shares: seq<string>)
    returns (len: nat)
    requires ValidBits(b) && IsHex(secret) && 2 <= t <= n <= Max(b)
    requires forall i :: 0 <= i < |shares| ==> shares[i] in Shares(b, secret, n, t, draws)
    requires |Elems(shares)| >= t
    ensures Compatible(b, len, shares) && Combined(b, len, shares) == Ok(Lower(secret))
  {
    hide SecretParts, ShareString, ParseShare, Lower, Unmark, Extra, ShareValues, Split, Interpolated, Collect, Chosen,
      Compatible, Rows, Picked;
    var parts := SecretParts(b, secret);
    PartsExist(b, secret);
    len := (b * |parts| + 3) / 4;
    var xs := ShareNumbers(b, secret, n, t, draws, shares);
    CollectChosen(b, parts, t, draws, xs);
    CollectRows(b, len, shares);
    var c := Collect(b, shares).value;
    EnoughNumbers(shares, c.ids, t);
    RowsDistinct(b, Width(b, len), c);
    InterpolatedParts(b, parts, t, draws, Width(b, len), c);
    UnmarkParts(b, secret);
  }

  lemma RowsDistinct(b: nat, width: nat, c: Collected)
    requires Rows(b, width, c)
    ensures |Elems(c.ids)| == |c.ids|
  {
    DistinctElems(c.ids);
  }

  /** The shares are those dealt under their numbers, and different shares have different numbers. */
  lemma ShareNumbers(b: nat, secret: string, n: nat, t: nat, draws: (nat, nat) -> nat, shares: seq<string>)
    returns (xs: seq<nat>)
    requires ValidBits(b) && IsHex(secret) && 2 <= t <= n <= Max(b)
    requires forall i :: 0 <= i < |shares| ==> shares[i] in Shares(b, secret, n, t, draws)
    ensures |xs| == |shares| && forall i :: 0 <= i < |xs| ==> 0 < xs[i] < Size(b) && xs[i] == Number(shares[i])
    ensures shares == Chosen(b, SecretParts(b, secret), t, draws, xs)
    ensures forall x, y :: x in shares && y in shares && Number(x) == Number(y) ==> x == y
  {
    hide SecretParts, ShareString, Shares, Chosen, Number, Size, Max;
    var parts := SecretParts(b, secret);
    xs := seq(|shares|, i requires 0 <= i < |shares| => Number(shares[i]));
    forall x | x in shares
      ensures 0 < Number(x) < Size(b) && x == ShareString(b, parts, t, draws, Number(x))
    {
      DealtUnder(b, secret, n, t, draws, x);
    }
    AreChosen(b, parts, t, draws, xs, shares);
  }

  lemma AreChosen(b: nat, parts: seq<nat>, t: nat, draws: (nat, nat) -> nat, xs: seq<nat>, shares: seq<string>)
    requires ValidBits(b) && t > 0 && |xs| == |shares|
    requires forall i :: 0 <= i < |xs| ==> shares[i] == ShareString(b, parts, t, draws, xs[i])
    ensures shares == Chosen(b, parts, t, draws, xs)
  {
    hide ShareString;
  }

  /** A dealt share is the one dealt under the number it shows. */
  lemma DealtUnder(b: nat, secret: string, n: nat, t: nat, draws: (nat, nat) -> nat, share: string)
    requires ValidBits(b) && IsHex(secret) && 2 <= t <= n <= Max(b) && share in Shares(b, secret, n, t, draws)
    ensures 0 < Number(share) < Size(b)
    ensures share == ShareString(b, SecretParts(b, secret), t, draws, Number(share))
  {
    hide SecretParts, ShareString, Number;
    PartsExist(b, secret);
    var k: nat :| k < n && share == Shares(b, secret, n, t, draws)[k];
    NumberDealt(b, SecretParts(b, secret), t, draws, k + 1);
  }

  lemma NumberDealt(b: nat, parts: seq<nat>, t: nat, draws: (nat, nat) -> nat, x: nat)
    requires ValidBits(b) && t > 0 && Elements(b, parts) && x < Size(b) && parts != []
    ensures Number(ShareString(b, parts, t, draws, x)) == x
  {
    hide ShareString, ParseShare, ShareValues, Split, HexToBits, BitsToHex, Join, Extra;
    ShareParsed(b, parts, t, draws, x);
  }

  /** As many different shares, so many different numbers. */
  lemma EnoughNumbers(shares: seq<string>, ids: seq<nat>, t: nat)
    requires |Elems(shares)| >= t
    requires forall i :: 0 <= i < |shares| ==> Number(shares[i]) in ids
    requires forall x, y :: x in shares && y in shares && Number(x) == Number(y) ==> x == y
    ensures |Elems(ids)| >= t
  {
    CountNumbers(ids, shares);
  }
}
