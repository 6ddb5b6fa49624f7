/** Big integers as the byte vectors the keys and ciphertexts are stored in, most significant byte first. */
module BigNumbers {
  type Byte = b: nat | b < 256

  function ToNum(bs: seq<Byte>): nat {
    if bs == [] then 0 else 256 * ToNum(bs[..|bs| - 1]) + bs[|bs| - 1]
  }

  function Digits(v: nat): seq<Byte> {
    if v == 0 then [] else Digits(v / 256) + [v % 256]
  }

  /** The shortest form, except that zero takes one byte. */
  function ToBytes(v: nat): (bs: seq<Byte>)
    ensures bs != []
  {
    if v == 0 then [0] else Digits(v)
  }

  lemma {:induction false} NumOfDigits(v: nat)
    ensures ToNum(Digits(v)) == v
  {
    if v > 0 {
      NumOfDigits(v / 256);
      var bs := Digits(v);
      assert bs[..|bs| - 1] == Digits(v / 256);
    }
  }

  lemma NumOfBytes(v: nat)
    ensures ToNum(ToBytes(v)) == v
  {
    NumOfDigits(v);
  }

  /** Storing a value and reading it back drops leading zero bytes. */
  lemma {:induction false} BytesOfNum(bs: seq<Byte>)
    ensures bs != [] && bs[0] != 0 ==> ToBytes(ToNum(bs)) == bs
    ensures bs != [] && bs[0] != 0 ==> ToNum(bs) > 0
  {
    if |bs| == 1 {
      assert ToNum(bs[..0]) == 0;
      assert Digits(0) == [];
    } else if |bs| > 1 {
      var front := bs[..|bs| - 1];
      BytesOfNum(front);
      assert front + [bs[|bs| - 1]] == bs;
    }
  }

  lemma {:induction false} LeadingZero(bs: seq<Byte>)
    ensures ToNum([0] + bs) == ToNum(bs)
  {
    if bs == [] {
      assert [0] + bs == [0] && ([0] + bs)[..0] == [];
    } else {
      LeadingZero(bs[..|bs| - 1]);
      assert ([0] + bs)[..|bs|] == [0] + bs[..|bs| - 1];
    }
  }
}
