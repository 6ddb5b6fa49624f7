/**
 The sharing class: its tables, the loops over them, and share and combine, proved against the scheme.
 */
module Shamir {
  import opened BinaryWords
  import opened BinaryField
  import opened SetFacts
  import opened FieldTables
  import opened Polynomials
  import opened BitStrings
  import opened ShareText
  import opened SharingScheme
  import opened Wrappers

  /** The tables of a size: logs[1] is the full period, and logs[0] is never written. */
  ghost predicate Tables(b: nat, logs: seq<nat>, exps: seq<nat>)
    requires ValidBits(b)
  {
    && |logs| == |exps| == Size(b) && logs[0] == 0
    && (forall i :: 0 <= i < Size(b) ==> exps[i] == Exp(b, i))
    && (forall a :: 0 < a < Size(b) ==> logs[a] == Log(b, a))
  }

  /** A vector cut or extended with zeros. */
  function Resize(s: seq<nat>, n: nat): (r: seq<nat>)
    ensures |r| == n
  {
    if n <= |s| then s[..n] else s + seq(n - |s|, _ => 0)
  }

  /** yValues lists, for each chunk position, the values of the collected shares. */
  ghost predicate Columns(yValues: seq<seq<nat>>, width: nat, c: Collected) {
    && (forall i :: 0 <= i < |c.rows| ==> |c.rows[i]| == width)
    && |yValues| == (if c.rows == [] then 0 else width)
    && forall j :: 0 <= j < |yValues| ==> yValues[j] == Column(c.rows, width, j)
  }

  /** Appends the chunks of one share to the columns. */
  method Accumulate(columns: seq<seq<nat>>, parts: seq<nat>, ghost width: nat, ghost c: Collected)
    returns (yValues: seq<seq<nat>>)
    requires Columns(columns, width, c) && |parts| == width
    ensures Columns(yValues, width, Collected(c.ids, c.rows + [parts]))
  {
    ghost var rows := c.rows + [parts];
    yValues := columns;
    for j := 0 to |parts|
      invariant |yValues| == if c.rows == [] then j else width
      invariant forall k :: 0 <= k < j ==> yValues[k] == Column(rows, width, k)
      invariant forall k :: j <= k < |yValues| ==> yValues[k] == columns[k]
    {
      if |yValues| <= j {
        yValues := yValues + [[]];
      }
      yValues := yValues[j := yValues[j] + [parts[j]]];
      assert yValues[j] == Column(rows, width, j);
    }
  }

  /** The text after the marker, in hexadecimal. */
  method Strip(resultBin: string) returns (hex: string)
    ensures hex == BitsToHex(PadToDigits(match AfterMarker(resultBin) case None => "0" case Some(r) => r))
  {
    var bin := match AfterMarker(resultBin) case None => "0" case Some(r) => r;
    hex := Bin2Hex(bin);
  }

  class ShamirSecretSharing {
    var bits: nat
    var size: nat
    var maxShares: nat
    var logs: seq<nat>
    var exps: seq<nat>

    ghost predicate Valid()
      reads this
    {
      && ValidBits(bits) && size == Size(bits) && maxShares == Max(bits)
      && Tables(bits, logs, exps)
    }

    constructor (b: nat)
      requires ValidBits(b)
      ensures Valid() && bits == b
    {
      bits, size, maxShares := b, Size(b), Size(b) - 1;
      logs, exps := [], [];
      new;
      InitTables();
    }

    method InitTables()
      requires ValidBits(bits) && size == Size(bits) && maxShares == Max(bits)
      requires logs == [] || logs[0] == 0
      modifies this`logs, this`exps
      ensures Valid()
    {
      hide Log, Step, Exp, Poly;
      SizeFacts(bits);
      ExpZero(bits);
      logs := Resize(logs, size);
      exps := Resize(exps, size);
      var x := 1;
      var primitive := POLYNOMIALS[bits];
      for i := 0 to size
        invariant |logs| == |exps| == size && logs[0] == 0
        invariant x == Exp(bits, i)
        invariant forall j :: 0 <= j < i ==> exps[j] == Exp(bits, j)
        invariant forall j :: 1 <= j < i ==> logs[Exp(bits, j)] == j
      {
        ExpNonzero(bits, i);
        NewLogarithm(bits, i);
        exps := exps[i := x];
        logs := logs[x := i];
        ExpNext(bits, i);
        x := 2 * x;
        if x >= size {
          x := Xor(x, primitive);
          x := x % size;
        }
      }
      forall a | 0 < a < Size(bits) ensures logs[a] == Log(bits, a) {
        assert logs[Exp(bits, Log(bits, a))] == Log(bits, a);
      }
    }

    static method New(b: nat) returns (r: Result<ShamirSecretSharing, string>)
      ensures ValidBits(b) ==> r.Ok? && fresh(r.value) && r.value.Valid() && r.value.bits == b
      ensures !ValidBits(b) ==> r == Err("Bits must be between 3 and 20")
    {
      if b < 3 || b > 20 {
        return Err("Bits must be between 3 and 20");
      }
      var s := new ShamirSecretSharing(b);
      return Ok(s);
    }

    /** Polynomial evaluation; since logs[0] is 0, the point 0 is taken for 1. */
    method Horner(x: nat, coeffs: seq<nat>) returns (fx: nat)
      requires Valid() && x < size && Elements(bits, coeffs)
      ensures fx == Eval(bits, coeffs, if x == 0 then 1 else x)
    {
      hide Log, Mul, Xor;
      SizeFacts(bits);
      ghost var at := if x == 0 then 1 else x;
      var logx := logs[x];
      fx := 0;
      var i := |coeffs|;
      while i > 0
        invariant 0 <= i <= |coeffs|
        invariant fx == Eval(bits, coeffs[i..], at) && fx < size
      {
        i := i - 1;
        assert coeffs[i..][1..] == coeffs[i + 1..];
        XorBound(coeffs[i], Mul(bits, at, fx), bits);
        if fx != 0 {
          HornerProduct(bits, x, fx);
          fx := Xor(exps[(logx + logs[fx]) % maxShares], coeffs[i]);
          XorComm(Mul(bits, at, Eval(bits, coeffs[i + 1..], at)), coeffs[i]);
        } else {
          MulZero(bits, at);
          XorZero(coeffs[i]);
          fx := coeffs[i];
        }
      }
      assert coeffs[0..] == coeffs;
    }

    /** The Lagrange sum over the points x. */
    method Lagrange(at: nat, x: seq<nat>, y: seq<nat>) returns (sum: nat)
      requires Valid() && at < size && Elements(bits, x) && Elements(bits, y) && |x| <= |y| && Distinct(x)
      ensures sum == Interpolant(bits, at, x, y, |x|)
    {
      hide Log, Mul, Xor, Factor, Exp;
      SizeFacts(bits);
      sum := 0;
      for i := 0 to |x|
        invariant sum == Interpolant(bits, at, x, y, i)
      {
        if y[i] != 0 {
          var product: int := logs[y[i]];
          ghost var vanishes := false;
          var j := 0;
          MulOne(bits, y[i]);
          while j < |x|
            invariant 0 <= j <= |x| && 0 <= product <= maxShares
            invariant Exp(bits, product) == Mul(bits, y[i], Basis(bits, at, x, i, j))
          {
            if i != j {
              if at == x[j] {
                product := -1;
                break;
              }
              LagrangeStep(bits, at, x[i], x[j], y[i], Basis(bits, at, x, i, j), product);
              product := (product + logs[Xor(at, x[j])] - logs[Xor(x[i], x[j])] + maxShares) % maxShares;
            }
            j := j + 1;
          }
          if product == -1 {
            BasisAtPoint(bits, x, i, j, |x|);
            MulZero(bits, y[i]);
            XorZero(sum);
          } else {
            sum := Xor(sum, exps[product]);
          }
        } else {
          MulZero(bits, Basis(bits, at, x, i, |x|));
          XorZero(sum);
        }
      }
    }

    method GetIdLength() returns (idLen: nat)
      requires Valid()
      ensures idLen == IdLength(bits)
    {
      var temp := maxShares;
      ghost var left: nat := bits;
      idLen := 0;
      while temp > 0
        invariant temp == Pow2(left) - 1 && idLen + IdLength(left) == IdLength(bits)
        decreases left
      {
        idLen := idLen + 1;
        NibbleLess(left);
        left := if left < 4 then 0 else left - 4;
        temp := temp / 16;
      }
      IdDone(left);
    }

    method Format(id: nat, data: string) returns (share: string)
      requires Valid()
      ensures share == FormatShare(bits, id, data)
    {
      var bitsChar := if bits < 10 then '0' + bits as char else 'A' + (bits - 10) as char;
      share := [bitsChar];
      var idLen := GetIdLength();
      share := share + FillTo(HexOf(id), idLen);
      share := share + data;
    }

    /**
     Reads a share, and switches to the field size it names. Sizes the constructor would refuse are not
     checked for, so callers must not pass them.
     */
    method Parse(share: string) returns (r: Result<Parsed, string>)
      requires Valid()
      requires |share| >= 3 && HeaderBits(share[0]).Some? ==> ValidBits(HeaderBits(share[0]).value)
      modifies this
      ensures Valid() && r == ParseShare(share)
      ensures bits == if |share| >= 3 && HeaderBits(share[0]).Some? then HeaderBits(share[0]).value else old(bits)
    {
      hide Stoul, Tables, HeaderBits, IdLength;
      if |share| < 3 {
        return Err("Invalid share format: too short");
      }
      var header := HeaderBits(share[0]);
      if header.None? {
        return Err("Invalid bits character");
      }
      var shareBits := header.value;
      if shareBits != bits {
        TablesStart(bits, logs, exps);
        bits := shareBits;
        size := Size(shareBits);
        maxShares := size - 1;
        InitTables();
      }
      var idLen := GetIdLength();
      if |share| < 1 + idLen {
        return Err("Invalid share format: too short for ID field");
      }
      var idStr := share[1..1 + idLen];
      var id := Stoul(idStr);
      if id.None? {
        return Err("Invalid share ID format: " + idStr);
      }
      return Ok(Parsed(bits, id.value, share[1 + idLen..]));
    }

    /** The random word for coefficient i of part p is draws(p, i). */
    method Share(secret: string, numShares: nat, threshold: nat, draws: (nat, nat) -> nat)
      returns (r: Result<seq<string>, string>)
      requires Valid()
      ensures r ==
        if numShares < 2 || numShares > maxShares then Err("Invalid number of shares")
        else if threshold < 2 || threshold > numShares then Err("Invalid threshold")
        else if !IsHex(secret) then Err("Invalid hex character")
        else Ok(Shares(bits, secret, numShares, threshold, draws))
    {
      hide Tables, Split, Eval, Log, HexToBits, BitsToHex, Join, ShareString;
      if numShares < 2 || numShares > maxShares {
        return Err("Invalid number of shares");
      }
      if threshold < 2 || threshold > numShares {
        return Err("Invalid threshold");
      }
      var bin := Hex2Bin(secret);
      if bin.Err? {
        return Err(bin.error);
      }
      var secretBin := PadBinary("1" + bin.value, 128);
      var secretParts := SplitNumStringToIntArray(secretBin, bits);
      PartsExist(bits, secret);
      var shareValues := Evaluate(secretParts, numShares, threshold, draws);
      var shares := Write(secretParts, shareValues, threshold, draws);
      assert shares == Shares(bits, secret, numShares, threshold, draws);
      return Ok(shares);
    }

    method Write(ghost parts: seq<nat>, shareValues: seq<seq<nat>>, ghost t: nat, ghost draws: (nat, nat) -> nat)
      returns (shares: seq<string>)
      requires Valid() && t > 0
      requires forall k :: 0 <= k < |shareValues| ==> shareValues[k] == ShareValues(bits, parts, t, draws, k + 1)
      ensures |shares| == |shareValues|
      ensures forall k :: 0 <= k < |shares| ==> shares[k] == ShareString(bits, parts, t, draws, k + 1)
    {
      hide Tables, ShareValues, BitsToHex, Join, FormatShare;
      shares := [];
      for i := 0 to |shareValues|
        invariant |shares| == i
        invariant forall k :: 0 <= k < i ==> shares[k] == ShareString(bits, parts, t, draws, k + 1)
      {
        var binData := Binary(shareValues[i]);
        var hex := Bin2Hex(binData);
        var share := Format(i + 1, hex);
        shares := shares + [share];
      }
    }

    /** One polynomial for each part, evaluated at 1, ..., numShares. */
    method Evaluate(secretParts: seq<nat>, numShares: nat, threshold: nat, draws: (nat, nat) -> nat)
      returns (shareValues: seq<seq<nat>>)
      requires Valid() && 2 <= threshold <= numShares <= maxShares && Elements(bits, secretParts)
      ensures |shareValues| == numShares
      ensures forall k :: 0 <= k < numShares ==>
        shareValues[k] == ShareValues(bits, secretParts, threshold, draws, k + 1)
    {
      hide Tables, Eval, Log;
      shareValues := seq(numShares, _ => []);
      for p := 0 to |secretParts|
        invariant |shareValues| == numShares
        invariant forall k :: 0 <= k < numShares ==>
          shareValues[k] == ShareValues(bits, secretParts, threshold, draws, k + 1)[..p]
      {
        var coeffs := [secretParts[p]];
        for i := 1 to threshold
          invariant coeffs == Coefficients(bits, secretParts[p], p, threshold, draws)[..i]
        {
          coeffs := coeffs + [draws(p, i) % size];
        }
        assert coeffs == Coefficients(bits, secretParts[p], p, threshold, draws);
        for i := 1 to numShares + 1
          invariant |shareValues| == numShares
          invariant forall k :: 0 <= k < i - 1 ==>
            shareValues[k] == ShareValues(bits, secretParts, threshold, draws, k + 1)[..p + 1]
          invariant forall k :: i - 1 <= k < numShares ==>
            shareValues[k] == ShareValues(bits, secretParts, threshold, draws, k + 1)[..p]
        {
          var y := Horner(i, coeffs);
          shareValues := shareValues[i - 1 := shareValues[i - 1] + [y]];
        }
      }
    }

    /** The chunks in binary, last chunk first. */
    method Binary(values: seq<nat>) returns (binData: string)
      ensures binData == Join(values, bits)
    {
      binData := "";
      var it := |values|;
      while it > 0
        invariant 0 <= it <= |values| && binData == Join(values[it..], bits)
      {
        it := it - 1;
        assert values[it..][1..] == values[it + 1..];
        var chunk := PadLeft(LowBits(values[it], bits), bits);
        NoZeros();
        binData := binData + chunk;
      }
      assert values[0..] == values;
    }

    /**
     Callers pass shares of one field size b with share numbers below 2^b and equally long data: other
     lists make the code read outside its vectors. Everything that throws is an error result.
     */
    method Combine(shares: seq<string>, ghost b: nat, ghost len: nat) returns (r: Result<string, string>)
      requires Valid() && ValidBits(b) && Compatible(b, len, shares)
      modifies this
      ensures Valid() && r == Combined(b, len, shares)
    {
      hide Tables, Collect, Unmark, Interpolated, Width, Split, ParseShare, HexToBits;
      if shares == [] {
        return Err("No shares provided");
      }
      var ids: seq<nat>, yValues: seq<seq<nat>> := [], [];
      ghost var width := Width(b, len);
      ghost var c := Collected([], []);
      CollectNothing(b);
      for k := 0 to |shares|
        invariant Valid() && (k > 0 ==> bits == b)
        invariant Collect(b, shares[..k]) == Ok(c) && Rows(b, width, c) && ids == c.ids
        invariant Columns(yValues, width, c)
      {
        assert Fitting(b, len, shares[k]);
        CollectNext(b, shares, k);
        var parsed := Parse(shares[k]);
        if parsed.Err? {
          CollectError(b, shares, k + 1);
          return Err(parsed.error);
        }
        ParsedHeader(shares[k]);
        var id, data := parsed.value.id, parsed.value.data;
        if id in ids {
          continue;
        }
        var binData := Hex2Bin(data);
        if binData.Err? {
          CollectError(b, shares, k + 1);
          return Err(binData.error);
        }
        var parts := SplitNumStringToIntArray(binData.value, bits);
        SplitLength(HexToBits(data), Zeros(4 * len), b);
        WidthIs(b, len);
        ids := ids + [id];
        yValues := Accumulate(yValues, parts, width, c);
        c := Collected(c.ids + [id], c.rows + [parts]);
      }
      assert shares[..|shares|] == shares;
      CollectRows(b, len, shares);
      var resultBin := Reconstruct(ids, yValues, width, c);
      var hex := Strip(resultBin);
      r := Ok(hex);
      UnmarkIs(b, Interpolated(b, width, c));
    }

    /** Interpolates every column at 0; later chunks go in front. */
    method Reconstruct(ids: seq<nat>, yValues: seq<seq<nat>>, ghost width: nat, ghost c: Collected)
      returns (resultBin: string)
      requires Valid() && Rows(bits, width, c) && ids == c.ids != [] && Columns(yValues, width, c)
      ensures resultBin == Join(Interpolated(bits, width, c), bits)
    {
      hide Tables, Join, LowBits, Interpolant, Zeros;
      ghost var vals := Interpolated(bits, width, c);
      SizeFacts(bits);
      JoinNothing(bits);
      resultBin := "";
      for i := 0 to |yValues|
        invariant resultBin == Join(vals[..i], bits)
      {
        assert Elements(bits, yValues[i]);
        var val := Lagrange(0, ids, yValues[i]);
        var chunk := PadLeft(LowBits(val, bits), bits);
        NoZeros();
        JoinAppend(vals[..i], val, bits);
        assert vals[..i + 1] == vals[..i] + [val];
        resultBin := chunk + resultBin;
      }
      assert vals[..|yValues|] == vals;
    }
  }

  lemma ExpNext(b: nat, i: nat)
    requires ValidBits(b)
    ensures Exp(b, i + 1) == Step(b, Exp(b, i))
    ensures Poly(b) == POLYNOMIALS[b]
    ensures Step(b, Exp(b, i)) ==
      var x := 2 * Exp(b, i); if x >= Size(b) then Xor(x, POLYNOMIALS[b]) % Size(b) else x
  {}

  /** Before the last turn of the table loop, each turn meets a new value. */
  lemma NewLogarithm(b: nat, i: nat)
    requires ValidBits(b) && i < Size(b)
    ensures forall j :: 1 <= j < i ==> Exp(b, j) != Exp(b, i)
  {
    hide Exp;
    forall j | 1 <= j < i ensures Exp(b, j) != Exp(b, i) {
      LogUnique(b, i);
      LogUnique(b, j);
    }
  }

  lemma HornerProduct(b: nat, x: nat, fx: nat)
    requires ValidBits(b) && x < Size(b) && 0 < fx < Size(b)
    ensures Max(b) > 0
    ensures 0 < x ==> Exp(b, (Log(b, x) + Log(b, fx)) % Max(b)) == Mul(b, x, fx)
    ensures Exp(b, (0 + Log(b, fx)) % Max(b)) == Mul(b, 1, fx)
  {
    hide Exp, Mul;
    SizeFacts(b);
    if 0 < x {
      TableProduct(b, x, fx);
    }
    ExpMod(b, Log(b, fx));
    MulOne(b, fx);
  }

  lemma Differences(b: nat, at: nat, xi: nat, xj: nat)
    requires ValidBits(b) && at < Size(b) && xi < Size(b) && xj < Size(b) && xi != xj && at != xj
    ensures 0 < Xor(at, xj) < Size(b) && 0 < Xor(xi, xj) < Size(b)
  {
    XorBound(at, xj, b);
    XorBound(xi, xj, b);
    XorEqualZero(at, xj);
    XorEqualZero(xi, xj);
  }

  /** The table step for one factor of a basis product. */
  lemma LagrangeStep(b: nat, at: nat, xi: nat, xj: nat, y: nat, u: nat, p: nat)
    requires ValidBits(b) && at < Size(b) && xi < Size(b) && xj < Size(b) && y < Size(b) && u < Size(b)
    requires xi != xj && at != xj && p <= Max(b) && Exp(b, p) == Mul(b, y, u)
    ensures 0 < Xor(at, xj) < Size(b) && 0 < Xor(xi, xj) < Size(b)
    ensures Max(b) > 0 && p + Log(b, Xor(at, xj)) - Log(b, Xor(xi, xj)) + Max(b) >= 0
    ensures Exp(b, (p + Log(b, Xor(at, xj)) - Log(b, Xor(xi, xj)) + Max(b)) % Max(b))
            == Mul(b, y, Mul(b, u, Factor(b, at, xi, xj)))
  {
    hide *;
    FactorIs(b, at, xi, xj);
    TableQuotient(b, p, Xor(at, xj), Xor(xi, xj));
    MulAssoc(b, y, u, Over(b, Xor(at, xj), Xor(xi, xj)));
  }

  lemma FactorIs(b: nat, at: nat, xi: nat, xj: nat)
    requires ValidBits(b) && at < Size(b) && xi < Size(b) && xj < Size(b) && xi != xj && at != xj
    ensures ValidBits(b) && 0 < Xor(at, xj) < Size(b) && 0 < Xor(xi, xj) < Size(b)
    ensures Factor(b, at, xi, xj) == Over(b, Xor(at, xj), Xor(xi, xj))
  {
    hide Over, Xor;
    Differences(b, at, xi, xj);
  }

  lemma NibbleLess(k: nat)
    requires Pow2(k) > 1
    ensures k > 0 && (Pow2(k) - 1) / 16 == Pow2(if k < 4 then 0 else k - 4) - 1
    ensures IdLength(k) == 1 + IdLength(if k < 4 then 0 else k - 4)
  {
    if k >= 4 {
      assert Pow2(k) == 2 * Pow2(k - 1) && Pow2(k - 1) == 2 * Pow2(k - 2);
      assert Pow2(k - 2) == 2 * Pow2(k - 3) && Pow2(k - 3) == 2 * Pow2(k - 4);
    } else {
      Pow2Mono(k, 3);
      assert Pow2(3) == 8;
    }
  }

  lemma TablesStart(b: nat, logs: seq<nat>, exps: seq<nat>)
    requires ValidBits(b) && Tables(b, logs, exps)
    ensures |logs| > 0 && logs[0] == 0
  {
    SizeFacts(b);
  }

  lemma IdDone(k: nat)
    requires Pow2(k) == 1
    ensures k == 0
  {}

  lemma CollectNothing(b: nat)
    requires b > 0
    ensures Collect(b, []) == Ok(Collected([], []))
  {}

  lemma CollectNext(b: nat, shares: seq<string>, k: nat)
    requires b > 0 && k < |shares| && Collect(b, shares[..k]).Ok?
    ensures Collect(b, shares[..k + 1]) == AddShare(b, Collect(b, shares[..k]).value, shares[k])
  {
    hide AddShare;
    assert shares[..k + 1][..k] == shares[..k];
  }

  lemma {:induction false} CollectError(b: nat, shares: seq<string>, k: nat)
    requires b > 0 && k <= |shares| && Collect(b, shares[..k]).Err?
    ensures Collect(b, shares) == Collect(b, shares[..k])
    decreases |shares| - k
  {
    hide AddShare;
    if k < |shares| {
      assert shares[..k + 1][..k] == shares[..k];
      CollectError(b, shares, k + 1);
    } else {
      assert shares[..k] == shares;
    }
  }

  lemma WidthIs(b: nat, len: nat)
    requires b > 0
    ensures Width(b, len) == |Split(Zeros(4 * len), b)|
  {}

  lemma UnmarkIs(b: nat, vals: seq<nat>)
    ensures Unmark(b, vals)
      == BitsToHex(PadToDigits(match AfterMarker(Join(vals, b)) case None => "0" case Some(r) => r))
  {}

  lemma {:induction false} JoinAppend(parts: seq<nat>, v: nat, n: nat)
    ensures Join(parts + [v], n) == LowBits(v, n) + Join(parts, n)
  {
    hide LowBits;
    if parts == [] {
      assert [] + [v] == [v] && [v][1..] == [];
      assert Join([v], n) == Join([], n) + LowBits(v, n);
    } else {
      JoinAppend(parts[1..], v, n);
      JoinUnfold(parts, n);
      JoinUnfold(parts + [v], n);
      assert (parts + [v])[1..] == parts[1..] + [v];
    }
  }
}
