/** Where each field of an encryption frame stands, byte by byte. */
module FrameLayout {
  import opened BigNumbers
  import opened Ecies
  import opened FixedWidth
  import opened Wrappers

  /** What every frame starts with: version, suite, kind, the ephemeral key and the IV. */
  predicate StartsFrame(s: Bytes, kind: Byte, ephemeral: Bytes, iv: Bytes) {
    |s| >= 48 && s[0] == 1 && s[1] == 1 && s[2] == kind && s[3..36] == ephemeral && s[36..48] == iv
  }

  /** A frame for one recipient: then the tag, for kind 66 the length in eight bytes, and the message. */
  lemma SingleLayout(c: Crypto, kind: Byte, plain: Bytes, secret: Bytes, ephemeral: Bytes, iv: Bytes)
    requires Ideal(c) && |ephemeral| == 33 && |iv| == 12
    ensures var s := SingleFrame(c, kind, plain, secret, ephemeral, iv);
      var sealed := c.seal(c.derive(secret, "ecies-v2-key-derivation"), iv, plain, [1, 1, kind] + ephemeral);
      && StartsFrame(s, kind, ephemeral, iv)
      && if kind == 66
         then |s| == 72 + |plain| && s[48..64] == sealed.tag && s[64..72] == EightBytes(|plain|) && s[72..] == sealed.cipher
         else |s| == 64 + |plain| && s[48..64] == sealed.tag && s[64..] == sealed.cipher
  {
    hide EightBytes, Fixed;
    FixedIs(|plain|);
    var aad: Bytes := [1, 1, kind] + ephemeral;
    assert Header(kind, ephemeral) == aad;
    var sealed := c.seal(c.derive(secret, "ecies-v2-key-derivation"), iv, plain, aad);
    var length := if kind == 66 then Fixed(|plain|, 8) else [];
    FrameIs(c, kind, plain, secret, ephemeral, iv);
    Pieces(aad + iv, sealed.tag, length, sealed.cipher);
    var s := aad + iv + sealed.tag + length + sealed.cipher;
    assert s[..48] == aad + iv;
    assert s == SingleFrame(c, kind, plain, secret, ephemeral, iv);
  }

  lemma Pieces(front: Bytes, a: Bytes, b: Bytes, rest: Bytes)
    ensures var s, i, j := front + a + b + rest, |front| + |a|, |front| + |a| + |b|;
      s[|front|..i] == a && s[i..j] == b && s[j..] == rest
  {
  }

  /** The j-th entry of a frame for several: the number in four bytes, the length, 48, in two, and the sealed key. */
  predicate HoldsEntry(s: Bytes, at: nat, j: nat, sealed: Sealed) {
    && at + 54 <= |s|
    && s[at..at + 4] == FourBytesOf(j) && s[at + 4] == 0 && s[at + 5] == 48
    && s[at + 6..at + 38] == sealed.cipher && s[at + 38..at + 54] == sealed.tag
  }

  lemma EntryLayout(c: Crypto, key: Bytes, secret: Bytes, ephemeral: Bytes, iv: Bytes, j: nat)
    requires Ideal(c) && |key| == 32
    ensures |Entry(c, key, secret, ephemeral, iv, j)| == 54
    ensures HoldsEntry(
      Entry(c, key, secret, ephemeral, iv, j), 0, j,
      c.seal(c.derive(secret, "ecies-v2-key-encryption"), iv, key, ephemeral + iv))
  {
    hide FourBytesOf, Fixed;
    FixedIs(j);
    FixedIs(48);
    var sealed := c.seal(c.derive(secret, "ecies-v2-key-encryption"), iv, key, ephemeral + iv);
    Pieces(Fixed(j, 4), Fixed(48, 2), sealed.cipher, sealed.tag);
    var s := Fixed(j, 4) + Fixed(48, 2) + sealed.cipher + sealed.tag;
    assert s[4..6] == [0, 48] && s[..4] == Fixed(j, 4);
    assert s == Entry(c, key, secret, ephemeral, iv, j);
  }

  lemma Shifted(front: Bytes, s: Bytes, rest: Bytes, at: nat, j: nat, sealed: Sealed)
    requires HoldsEntry(s, at, j, sealed)
    ensures HoldsEntry(front + s + rest, |front| + at, j, sealed)
  {
    hide FourBytesOf;
    var t, k := front + s + rest, |front| + at;
    assert t[|front|..|front| + |s|] == s;
    assert t[k..k + 4] == s[at..at + 4] && t[k + 6..k + 38] == s[at + 6..at + 38];
    assert t[k + 38..k + 54] == s[at + 38..at + 54];
  }

  lemma {:induction false} EntriesLayout(
    c: Crypto, key: Bytes, secrets: seq<Bytes>, ephemeral: Bytes, iv: Bytes, from: nat, j: nat)
    requires Ideal(c) && |key| == 32 && from <= |secrets|
    ensures |Entries(c, key, secrets, ephemeral, iv, from)| == 54 * (|secrets| - from)
    ensures from <= j < |secrets| ==> HoldsEntry(
      Entries(c, key, secrets, ephemeral, iv, from), 54 * (j - from), j,
      c.seal(c.derive(secrets[j], "ecies-v2-key-encryption"), iv, key, ephemeral + iv))
    decreases |secrets| - from
  {
    hide Ideal, Entry, HoldsEntry;
    if from < |secrets| {
      var first := Entry(c, key, secrets[from], ephemeral, iv, from);
      var rest := Entries(c, key, secrets, ephemeral, iv, from + 1);
      EntryLayout(c, key, secrets[from], ephemeral, iv, from);
      EntriesLayout(c, key, secrets, ephemeral, iv, from + 1, j);
      if from <= j < |secrets| {
        var sealed := c.seal(c.derive(secrets[j], "ecies-v2-key-encryption"), iv, key, ephemeral + iv);
        if j == from {
          Shifted([], first, rest, 0, j, sealed);
          assert [] + first + rest == first + rest;
        } else {
          Shifted(first, rest, [], 54 * (j - from - 1), j, sealed);
          assert first + rest + [] == first + rest;
        }
      }
    }
  }

  /** A frame for several recipients: their number, an entry of 54 bytes for each in order, the tag and the message. */
  lemma MultipleLayout(
    c: Crypto, plain: Bytes, key: Bytes, secrets: seq<Bytes>, ephemeral: Bytes, iv: Bytes, j: nat)
    requires Ideal(c) && |key| == 32 && |ephemeral| == 33 && |iv| == 12
    ensures var s, n := MultipleFrame(c, plain, key, secrets, ephemeral, iv), |secrets|;
      var sealed := c.seal(key, iv, plain, [1, 1, 99] + ephemeral);
      && |s| == 68 + 54 * n + |plain| && StartsFrame(s, 99, ephemeral, iv)
      && s[48..52] == FourBytesOf(n)
      && (j < n ==> HoldsEntry(
        s, 52 + 54 * j, j, c.seal(c.derive(secrets[j], "ecies-v2-key-encryption"), iv, key, ephemeral + iv)))
      && s[52 + 54 * n..68 + 54 * n] == sealed.tag && s[68 + 54 * n..] == sealed.cipher
  {
    hide FourBytesOf, HoldsEntry, Entries, Fixed;
    var s, n := MultipleFrame(c, plain, key, secrets, ephemeral, iv), |secrets|;
    var sealed := c.seal(key, iv, plain, [1, 1, 99] + ephemeral);
    var front := Header(MULTIPLE, ephemeral) + iv + Fixed(n, 4);
    var entries, rest := Entries(c, key, secrets, ephemeral, iv, 0), sealed.tag + sealed.cipher;
    FixedIs(n);
    EntriesLayout(c, key, secrets, ephemeral, iv, 0, j);
    assert Header(MULTIPLE, ephemeral) == [1, 1, 99] + ephemeral;
    assert s == front + entries + rest && |front| == 52 && |entries| == 54 * n;
    if j < n {
      Shifted(
        front, entries, rest, 54 * j, j,
        c.seal(c.derive(secrets[j], "ecies-v2-key-encryption"), iv, key, ephemeral + iv));
    }
    Tail(front + entries, sealed.tag, sealed.cipher);
    assert s == front + entries + sealed.tag + sealed.cipher;
    assert s[..52] == front;
  }

  lemma Tail(front: Bytes, tag: Bytes, cipher: Bytes)
    requires |tag| == 16
    ensures var s := front + tag + cipher;
      s[|front|..|front| + 16] == tag && s[|front| + 16..] == cipher
  {
  }

  /** What decryption refuses before it opens anything, and with which error. */
  lemma Refused(c: Crypto, s: Bytes, private: Bytes)
    ensures |s| < 64 ==> Opened(c, s, private) == Err(TooShort)
    ensures |s| >= 64 && s[0] != 1 ==> Opened(c, s, private) == Err(BadVersion)
    ensures |s| >= 64 && s[0] == 1 && s[1] != 1 ==> Opened(c, s, private) == Err(BadSuite)
    ensures |s| >= 64 && s[0] == s[1] == 1 && s[2] !in {33, 66, 99} ==> Opened(c, s, private) == Err(BadType)
    ensures |s| >= 64 && s[0] == s[1] == 1 && s[2] == 99 && |s| < 68 ==> Opened(c, s, private) == Err(TooShort)
    ensures |s| >= 64 && s[0] == s[1] == 1 && s[2] == 66 && |s| < 72 ==> Opened(c, s, private) == Err(MissingLength)
    ensures |s| >= 72 && s[0] == s[1] == 1 && s[2] == 66 && ReadOn(0, s[64..72]) > |s| - 72 ==>
      Opened(c, s, private) == Err(Overrun)
    ensures |s| >= 64 && s[0] == s[1] == 1 && s[2] == 33 && c.agree(private, s[3..36]) == None ==>
      Opened(c, s, private) == Err(BadPoint)
  {
    hide ReadOn, ScanKeys, Finish;
    if |s| >= 72 {
      assert s[64..][..8] == s[64..72];
    }
  }
}
