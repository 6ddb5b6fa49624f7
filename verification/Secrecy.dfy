/**
 Fewer shares than the threshold say no more than the length: for every other secret with as many whole 32 digits exactly
 one choice of the drawn coefficients deals the same t - 1 shares.
 */
module Secrecy {
  import opened BinaryWords
  import opened BinaryField
  import opened FieldTables
  import opened NumberTheory
  import opened Polynomials
  import opened SetFacts
  import opened SharingScheme
  import opened ShareSizes
  import opened ShareText
  import opened BitStrings
  import opened Wrappers

  lemma {:induction false} EvalZeros(b: nat, n: nat, x: nat)
    requires ValidBits(b)
    ensures var zs: seq<nat> := seq(n, _ => 0);
      Elements(b, zs) && Eval(b, zs, x) == 0
  {
    SizeFacts(b);
    var zs: seq<nat> := seq(n, _ => 0);
    if n > 0 {
      EvalZeros(b, n - 1, x);
      assert zs[1..] == seq(n - 1, _ => 0);
      MulZero(b, x);
      XorZero(0);
    }
  }

  /**
   Any t - 1 share values are consistent with every possible chunk: some choice of the t - 1 drawn
   coefficients produces exactly these values for it.
   */
  lemma BelowThreshold(b: nat, t: nat, xs: seq<nat>, ys: seq<nat>, part: nat) returns (cs: seq<nat>)
    requires ValidBits(b) && t > 0 && |xs| == |ys| == t - 1 && Elements(b, xs) && Elements(b, ys) && Distinct(xs)
    requires 0 !in xs && part < Size(b)
    ensures |cs| == t && Elements(b, cs) && cs[0] == part
    ensures forall i :: 0 <= i < |xs| ==> Eval(b, cs, xs[i]) == ys[i]
  {
    hide Eval, Interpolant, InterpolantPoly;
    SizeFacts(b);
    var xs0, ys0 := [0] + xs, [part] + ys;
    var ds := InterpolantPoly(b, xs0, ys0, t);
    var zs: seq<nat> := seq(t, _ => 0);
    cs := Plus(ds, zs);
    forall k | 0 <= k < t ensures Eval(b, cs, xs0[k]) == ys0[k] && Elements(b, cs) {
      EvalInterpolant(b, xs0[k], xs0, ys0, t);
      InterpolantAtPoint(b, xs0, ys0, k, t);
      EvalZeros(b, t, xs0[k]);
      EvalPlus(b, ds, zs, xs0[k]);
      XorZero(ys0[k]);
    }
    assert Eval(b, cs, xs0[0]) == part;
    EvalAtZero(b, cs);
    forall i | 0 <= i < |xs| ensures Eval(b, cs, xs[i]) == ys[i] {
      assert xs0[i + 1] == xs[i] && ys0[i + 1] == ys[i];
    }
  }

  // ----- the coefficients are unique

  /** A polynomial with as many nonzero roots as coefficients has no coefficient but zero. */
  lemma {:induction false} OnlyZeros(b: nat, cs: seq<nat>, xs: seq<nat>)
    requires ValidBits(b) && Elements(b, cs) && Elements(b, xs) && |cs| <= |xs| && Distinct(xs) && 0 !in xs
    requires forall i :: 0 <= i < |xs| ==> Eval(b, cs, xs[i]) == 0
    ensures forall k :: 0 <= k < |cs| ==> cs[k] == 0
    decreases |cs|
  {
    hide Mul, Xor;
    if cs != [] {
      SizeFacts(b);
      ManyRoots(b, cs, xs, 0);
      EvalAtZero(b, cs);
      var rest := cs[1..];
      forall i | 0 <= i < |xs| ensures Eval(b, rest, xs[i]) == 0 {
        XorZero(Mul(b, xs[i], Eval(b, rest, xs[i])));
        NoZeroDivisors(b, xs[i], Eval(b, rest, xs[i]));
      }
      OnlyZeros(b, rest, xs);
      assert forall k :: 0 < k < |cs| ==> cs[k] == rest[k - 1];
    }
  }

  lemma {:induction false} PlusAt(cs: seq<nat>, ds: seq<nat>, k: nat)
    requires |cs| == |ds| && k < |cs|
    ensures Plus(cs, ds)[k] == Xor(cs[k], ds[k])
    decreases |cs|
  {
    if k > 0 {
      PlusAt(cs[1..], ds[1..], k - 1);
    }
  }

  /** The chunk and t - 1 values leave no choice. */
  lemma OnlyOne(b: nat, cs: seq<nat>, ds: seq<nat>, xs: seq<nat>)
    requires ValidBits(b) && Elements(b, cs) && Elements(b, ds) && Elements(b, xs) && Distinct(xs) && 0 !in xs
    requires |cs| == |ds| == |xs| + 1 && cs[0] == ds[0]
    requires forall i :: 0 <= i < |xs| ==> Eval(b, cs, xs[i]) == Eval(b, ds, xs[i])
    ensures cs == ds
  {
    hide Mul, Xor, Eval;
    var es := Plus(cs, ds);
    var rest := es[1..];
    SizeFacts(b);
    EvalPlus(b, cs, ds, 0);
    PlusAt(cs, ds, 0);
    XorSelf(cs[0]);
    forall i | 0 <= i < |xs| ensures Eval(b, rest, xs[i]) == 0 {
      EvalPlus(b, cs, ds, xs[i]);
      XorSelf(Eval(b, cs, xs[i]));
      HeadZero(b, es, xs[i]);
    }
    OnlyZeros(b, rest, xs);
    forall k | 0 < k < |cs| ensures cs[k] == ds[k] {
      PlusAt(cs, ds, k);
      XorEqualZero(cs[k], ds[k]);
      assert rest[k - 1] == es[k];
    }
  }

  lemma HeadZero(b: nat, es: seq<nat>, x: nat)
    requires ValidBits(b) && es != [] && Elements(b, es) && es[0] == 0 && 0 < x < Size(b) && Eval(b, es, x) == 0
    ensures Eval(b, es[1..], x) == 0
  {
    hide Mul, Xor;
    XorZero(Mul(b, x, Eval(b, es[1..], x)));
    NoZeroDivisors(b, x, Eval(b, es[1..], x));
  }

  // ----- whole dealings

  /** The share numbered x is the same in two dealings. */
  predicate SameShare(
    b: nat, parts: seq<nat>, draws: (nat, nat) -> nat, others: seq<nat>, redraws: (nat, nat) -> nat, t: nat, x: nat)
    requires ValidBits(b) && t > 0
  {
    ShareString(b, others, t, redraws, x) == ShareString(b, parts, t, draws, x)
  }

  /** Share texts are the same exactly if they carry the same values. */
  lemma SameValues(
    b: nat, parts: seq<nat>, draws: (nat, nat) -> nat, others: seq<nat>, redraws: (nat, nat) -> nat, t: nat, x: nat)
    requires ValidBits(b) && t > 0 && |parts| == |others| > 0 && Elements(b, parts) && Elements(b, others) && x < Size(b)
    ensures SameShare(b, parts, draws, others, redraws, t, x) <==>
      forall p :: 0 <= p < |parts| ==> ShareValue(b, others, p, t, redraws, x) == ShareValue(b, parts, p, t, draws, x)
  {
    hide ShareValue, Split, Join, HexToBits, BitsToHex, FormatShare, ParseShare;
    ShareParsed(b, parts, t, draws, x);
    ShareParsed(b, others, t, redraws, x);
    var vs, ws := ShareValues(b, parts, t, draws, x), ShareValues(b, others, t, redraws, x);
    if SameShare(b, parts, draws, others, redraws, t, x) {
      assert vs + Extra(b, parts) == ws + Extra(b, others);
      assert vs == (vs + Extra(b, parts))[..|parts|] && ws == (ws + Extra(b, others))[..|parts|];
      assert forall p :: 0 <= p < |parts| ==> vs[p] == ShareValue(b, parts, p, t, draws, x) && ws[p] == ShareValue(b, others, p, t, redraws, x);
    }
    if forall p :: 0 <= p < |parts| ==> ShareValue(b, others, p, t, redraws, x) == ShareValue(b, parts, p, t, draws, x) {
      assert vs == ws;
    }
  }

  /** Draws that deal other chunks with the same values at t - 1 numbers. */
  lemma {:induction false} Redraw(
    b: nat, parts: seq<nat>, draws: (nat, nat) -> nat, others: seq<nat>, t: nat, xs: seq<nat>, count: nat)
    returns (css: seq<seq<nat>>)
    requires ValidBits(b) && t > 0 && |parts| == |others| >= count && Elements(b, parts) && Elements(b, others)
    requires |xs| == t - 1 && Elements(b, xs) && Distinct(xs) && 0 !in xs
    ensures |css| == count
    ensures forall p :: 0 <= p < count ==> |css[p]| == t && Elements(b, css[p]) && css[p][0] == others[p]
    ensures forall p, i :: 0 <= p < count && 0 <= i < |xs| ==> Eval(b, css[p], xs[i]) == ShareValue(b, parts, p, t, draws, xs[i])
    decreases count
  {
    hide Eval, ShareValue;
    css := [];
    if count > 0 {
      css := Redraw(b, parts, draws, others, t, xs, count - 1);
      var p := count - 1;
      var ys := seq(|xs|, i requires 0 <= i < |xs| => ShareValue(b, parts, p, t, draws, xs[i]));
      forall i | 0 <= i < |xs| ensures ys[i] < Size(b) {
        ValueElement(b, parts, p, t, draws, xs[i]);
      }
      var cs := BelowThreshold(b, t, xs, ys, others[p]);
      css := css + [cs];
    }
  }

  lemma ValueElement(b: nat, parts: seq<nat>, p: nat, t: nat, draws: (nat, nat) -> nat, x: nat)
    requires ValidBits(b) && t > 0 && Elements(b, parts) && p < |parts| && x < Size(b)
    ensures ShareValue(b, parts, p, t, draws, x) < Size(b)
  {
  }

  /** The draws that make the coefficients css. */
  function DrawsOf(css: seq<seq<nat>>): (nat, nat) -> nat {
    (p: nat, i: nat) => if p < |css| && i < |css[p]| then css[p][i] else 0
  }

  lemma DrawsGive(b: nat, others: seq<nat>, t: nat, css: seq<seq<nat>>, p: nat)
    requires ValidBits(b) && t > 0 && p < |others| == |css|
    requires |css[p]| == t && Elements(b, css[p]) && css[p][0] == others[p]
    ensures Coefficients(b, others[p], p, t, DrawsOf(css)) == css[p]
  {
    hide Size;
    var cs := Coefficients(b, others[p], p, t, DrawsOf(css));
    forall i | 0 <= i < t ensures cs[i] == css[p][i] {
      SmallMod(css[p][i], Size(b));
    }
  }

  /** The same coefficients are drawn for part p. */
  predicate SameDrawsAt(b: nat, p: nat, t: nat, draws: (nat, nat) -> nat, redraws: (nat, nat) -> nat) {
    forall i :: 0 < i < t ==> draws(p, i) % Size(b) == redraws(p, i) % Size(b)
  }

  predicate SameDraws(b: nat, parts: nat, t: nat, draws: (nat, nat) -> nat, redraws: (nat, nat) -> nat) {
    forall p :: 0 <= p < parts ==> SameDrawsAt(b, p, t, draws, redraws)
  }

  /**
   Whatever is dealt, for every other secret with as many whole 32 digits and any t - 1 numbers there are draws, and only one
   choice of coefficients, that deal it with the same shares under these numbers.
   */
  lemma ExactlyOneDealing(
    b: nat, secret: string, other: string, n: nat, t: nat, draws: (nat, nat) -> nat, xs: seq<nat>)
    returns (redraws: (nat, nat) -> nat)
    requires ValidBits(b) && IsHex(secret) && IsHex(other) && 2 <= t <= n <= Max(b)
    requires |secret| / 32 == |other| / 32
    requires |xs| == t - 1 && Distinct(xs) && forall i :: 0 <= i < |xs| ==> 0 < xs[i] <= n
    ensures forall i :: 0 <= i < |xs| ==> Shares(b, other, n, t, redraws)[xs[i] - 1] == Shares(b, secret, n, t, draws)[xs[i] - 1]
    ensures forall again :: SameDraws(b, |SecretParts(b, other)|, t, again, redraws) <==>
      forall i :: 0 <= i < |xs| ==> Shares(b, other, n, t, again)[xs[i] - 1] == Shares(b, secret, n, t, draws)[xs[i] - 1]
  {
    hide SecretParts, ShareString, ShareValue, Eval, Coefficients, SameShare;
    PartsExist(b, secret);
    PartsExist(b, other);
    SameCount(b, secret, other);
    SizeFacts(b);
    var parts, others := SecretParts(b, secret), SecretParts(b, other);
    var css := Redraw(b, parts, draws, others, t, xs, |parts|);
    redraws := DrawsOf(css);
    forall again: (nat, nat) -> nat
      ensures SameDraws(b, |others|, t, again, redraws) <==>
        forall i :: 0 <= i < |xs| ==> SameShare(b, parts, draws, others, again, t, xs[i])
    {
      Determined(b, parts, draws, others, t, xs, css, again);
    }
    forall again: (nat, nat) -> nat, i | 0 <= i < |xs|
      ensures SameShare(b, parts, draws, others, again, t, xs[i]) <==>
        Shares(b, other, n, t, again)[xs[i] - 1] == Shares(b, secret, n, t, draws)[xs[i] - 1]
    {
      AtNumber(b, secret, other, n, t, draws, again, xs[i]);
    }
    assert SameDraws(b, |others|, t, redraws, redraws);
  }

  lemma AtNumber(
    b: nat, secret: string, other: string, n: nat, t: nat, draws: (nat, nat) -> nat, again: (nat, nat) -> nat, x: nat)
    requires ValidBits(b) && t > 0 && IsHex(secret) && IsHex(other) && 0 < x <= n
    ensures SameShare(b, SecretParts(b, secret), draws, SecretParts(b, other), again, t, x) <==>
      Shares(b, other, n, t, again)[x - 1] == Shares(b, secret, n, t, draws)[x - 1]
  {
    hide ShareString, SecretParts;
  }

  lemma Determined(
    b: nat, parts: seq<nat>, draws: (nat, nat) -> nat, others: seq<nat>, t: nat, xs: seq<nat>, css: seq<seq<nat>>,
    again: (nat, nat) -> nat)
    requires ValidBits(b) && t > 0 && |parts| == |others| == |css| > 0 && Elements(b, parts) && Elements(b, others)
    requires |xs| == t - 1 && Elements(b, xs) && Distinct(xs) && 0 !in xs
    requires forall p :: 0 <= p < |css| ==> |css[p]| == t && Elements(b, css[p]) && css[p][0] == others[p]
    requires forall p, i :: 0 <= p < |css| && 0 <= i < |xs| ==> Eval(b, css[p], xs[i]) == ShareValue(b, parts, p, t, draws, xs[i])
    ensures SameDraws(b, |others|, t, again, DrawsOf(css)) <==>
      forall i :: 0 <= i < |xs| ==> SameShare(b, parts, draws, others, again, t, xs[i])
  {
    hide Eval, SameShare, DrawsOf, Coefficients, ShareValue, SameDrawsAt;
    forall i | 0 <= i < |xs|
      ensures SameShare(b, parts, draws, others, again, t, xs[i]) <==>
        forall p :: 0 <= p < |css| ==> ShareValue(b, others, p, t, again, xs[i]) == Eval(b, css[p], xs[i])
    {
      SameValues(b, parts, draws, others, again, t, xs[i]);
    }
    forall p | 0 <= p < |css|
      ensures SameDrawsAt(b, p, t, again, DrawsOf(css)) <==>
        forall i :: 0 <= i < |xs| ==> ShareValue(b, others, p, t, again, xs[i]) == Eval(b, css[p], xs[i])
    {
      PartDetermined(b, others, t, xs, css, again, p);
    }
  }

  lemma PartDetermined(
    b: nat, others: seq<nat>, t: nat, xs: seq<nat>, css: seq<seq<nat>>, again: (nat, nat) -> nat, p: nat)
    requires ValidBits(b) && t > 0 && p < |others| == |css| && Elements(b, others)
    requires |xs| == t - 1 && Elements(b, xs) && Distinct(xs) && 0 !in xs
    requires |css[p]| == t && Elements(b, css[p]) && css[p][0] == others[p]
    ensures SameDrawsAt(b, p, t, again, DrawsOf(css)) <==>
      forall i :: 0 <= i < |xs| ==> ShareValue(b, others, p, t, again, xs[i]) == Eval(b, css[p], xs[i])
  {
    hide Eval, DrawsOf;
    var cs := Coefficients(b, others[p], p, t, again);
    DrawsGive(b, others, t, css, p);
    var ds := Coefficients(b, others[p], p, t, DrawsOf(css));
    assert forall k :: 0 < k < t ==> cs[k] == again(p, k) % Size(b) && ds[k] == DrawsOf(css)(p, k) % Size(b);
    if SameDrawsAt(b, p, t, again, DrawsOf(css)) {
      assert cs == ds;
    } else if forall i :: 0 <= i < |xs| ==> ShareValue(b, others, p, t, again, xs[i]) == Eval(b, css[p], xs[i]) {
      OnlyOne(b, cs, css[p], xs);
      assert false;
    }
  }
}
