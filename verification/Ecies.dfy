/**
 The ECIES wire formats over an ideal key agreement, key derivation and authenticated cipher.

 Random choices (ephemeral key, content key, IV) are arguments. The cipher is only assumed to open what it sealed
 and to keep lengths; in particular an entry for another recipient may happen to open, and what then follows is
 stated exactly.
 */
module Ecies {
  import opened BigNumbers
  import opened FixedWidth
  import opened Wrappers

  const VERSION: Byte := 1
  const CIPHER_SUITE: Byte := 1
  const BASIC: Byte := 33
  const WITH_LENGTH: Byte := 66
  const MULTIPLE: Byte := 99
  const DERIVATION := "ecies-v2-key-derivation"
  const ENCRYPTION := "ecies-v2-key-encryption"

  datatype Error =
    | NoRecipients | TooManyRecipients | BadPoint | TooShort | BadVersion | BadSuite | BadType
    | Truncated | NoKey | MissingTag | MissingLength | Overrun | BadTag

  datatype Sealed = Sealed(cipher: Bytes, tag: Bytes)

  /** agree is the shared secret of a private and a public key, None if the public key is no point. */
  datatype Crypto = Crypto(
    isPrivate: Bytes -> bool, public: Bytes -> Bytes, agree: (Bytes, Bytes) -> Option<Bytes>,
    derive: (Bytes, string) -> Bytes, seal: (Bytes, Bytes, Bytes, Bytes) -> Sealed,
    open: (Bytes, Bytes, Sealed, Bytes) -> Option<Bytes>)

  ghost predicate Ideal(c: Crypto) {
    && (forall a :: c.isPrivate(a) ==> |c.public(a)| == 33)
    && (forall a, b :: c.isPrivate(a) && c.isPrivate(b) ==>
      c.agree(a, c.public(b)).Some? && c.agree(a, c.public(b)) == c.agree(b, c.public(a)))
    && (forall k, iv, plain, aad ::
      |c.seal(k, iv, plain, aad).cipher| == |plain| && |c.seal(k, iv, plain, aad).tag| == 16)
    && (forall k, iv, plain, aad :: c.open(k, iv, c.seal(k, iv, plain, aad), aad) == Some(plain))
  }

  // ----- slices

  lemma SliceOfRest(s: Bytes, i: nat, j: nat, k: nat)
    requires j <= k && i + k <= |s|
    ensures s[i..][j..k] == s[i + j..i + k]
  {
  }

  lemma RestOfRest(s: Bytes, i: nat, j: nat)
    requires i + j <= |s|
    ensures s[i..][j..] == s[i + j..]
  {
  }

  // ----- what the frames are

  function Header(kind: Byte, ephemeral: Bytes): Bytes {
    [VERSION, CIPHER_SUITE, kind] + ephemeral
  }

  function SingleFrame(c: Crypto, kind: Byte, plain: Bytes, secret: Bytes, ephemeral: Bytes, iv: Bytes): Bytes {
    var sealed := c.seal(c.derive(secret, DERIVATION), iv, plain, Header(kind, ephemeral));
    var length := if kind == WITH_LENGTH then Fixed(|sealed.cipher|, 8) else [];
    Header(kind, ephemeral) + iv + sealed.tag + length + sealed.cipher
  }

  function SealedKey(c: Crypto, key: Bytes, secret: Bytes, ephemeral: Bytes, iv: Bytes): Bytes {
    var sealed := c.seal(c.derive(secret, ENCRYPTION), iv, key, ephemeral + iv);
    sealed.cipher + sealed.tag
  }

  /** The entry of recipient i: index, length (sixteen bits), and the content key sealed for it. */
  function Entry(c: Crypto, key: Bytes, secret: Bytes, ephemeral: Bytes, iv: Bytes, i: nat): Bytes {
    var ek := SealedKey(c, key, secret, ephemeral, iv);
    Fixed(i, 4) + Fixed(|ek|, 2) + ek
  }

  function Entries(c: Crypto, key: Bytes, secrets: seq<Bytes>, ephemeral: Bytes, iv: Bytes, from: nat): Bytes
    requires from <= |secrets|
    decreases |secrets| - from
  {
    if from == |secrets| then [] else
      Entry(c, key, secrets[from], ephemeral, iv, from) + Entries(c, key, secrets, ephemeral, iv, from + 1)
  }

  function MultipleFrame(
    c: Crypto, plain: Bytes, key: Bytes, secrets: seq<Bytes>, ephemeral: Bytes, iv: Bytes): Bytes
  {
    var sealed := c.seal(key, iv, plain, Header(MULTIPLE, ephemeral));
    Header(MULTIPLE, ephemeral) + iv + Fixed(|secrets|, 4)
    + Entries(c, key, secrets, ephemeral, iv, 0) + sealed.tag + sealed.cipher
  }

  method EncryptInternal(c: Crypto, plain: Bytes, recipient: Bytes, kind: Byte, ephemeralPrivate: Bytes, iv: Bytes)
    returns (r: Result<Bytes, Error>)
    ensures var secret := c.agree(ephemeralPrivate, recipient);
      r == if secret.None? then Err(BadPoint)
           else Ok(SingleFrame(c, kind, plain, secret.value, c.public(ephemeralPrivate), iv))
  {
    var ephemeral := c.public(ephemeralPrivate);
    var secret := c.agree(ephemeralPrivate, recipient);
    if secret.None? {
      return Err(BadPoint);
    }
    var aad := [VERSION, CIPHER_SUITE, kind];
    aad := aad + ephemeral;
    var sealed := c.seal(c.derive(secret.value, DERIVATION), iv, plain, aad);
    var result := [VERSION, CIPHER_SUITE, kind];
    result := result + ephemeral;
    result := result + iv;
    result := result + sealed.tag;
    if kind == WITH_LENGTH {
      result := PutNumber(result, |sealed.cipher|, 8);
    }
    result := result + sealed.cipher;
    ghost var front := Header(kind, ephemeral) + iv + sealed.tag;
    assert front + [] == front;
    return Ok(result);
  }

  method EncryptMultiple(
    c: Crypto, plain: Bytes, recipients: seq<Bytes>, ephemeralPrivate: Bytes, key: Bytes, iv: Bytes)
    returns (r: Result<Bytes, Error>)
    ensures recipients == [] ==> r == Err(NoRecipients)
    ensures |recipients| > 0xFFFFFFFF ==> r == Err(TooManyRecipients)
    ensures 0 < |recipients| <= 0xFFFFFFFF ==>
      if forall i :: 0 <= i < |recipients| ==> c.agree(ephemeralPrivate, recipients[i]).Some?
      then r == Ok(MultipleFrame(
        c, plain, key, Secrets(c, ephemeralPrivate, recipients), c.public(ephemeralPrivate), iv))
      else r == Err(BadPoint)
  {
    if recipients == [] {
      return Err(NoRecipients);
    }
    if |recipients| > 0xFFFFFFFF {
      return Err(TooManyRecipients);
    }
    var ephemeral := c.public(ephemeralPrivate);
    var aad := [VERSION, CIPHER_SUITE, MULTIPLE];
    aad := aad + ephemeral;
    var sealed := c.seal(key, iv, plain, aad);
    var encryptedKeys := EncryptKeys(c, recipients, ephemeralPrivate, key, iv);
    if encryptedKeys.Err? {
      return Err(encryptedKeys.error);
    }
    var result := [VERSION, CIPHER_SUITE, MULTIPLE];
    result := result + ephemeral;
    result := result + iv;
    result := PutNumber(result, |recipients|, 4);
    result := PutEntries(result, encryptedKeys.value, c, key, Secrets(c, ephemeralPrivate, recipients), ephemeral, iv);
    result := result + sealed.tag;
    result := result + sealed.cipher;
    return Ok(result);
  }

  method EncryptKeys(c: Crypto, recipients: seq<Bytes>, ephemeralPrivate: Bytes, key: Bytes, iv: Bytes)
    returns (r: Result<seq<Bytes>, Error>)
    ensures if forall i :: 0 <= i < |recipients| ==> c.agree(ephemeralPrivate, recipients[i]).Some?
      then r.Ok? && SealedKeys(
        r.value, c, key, Secrets(c, ephemeralPrivate, recipients), c.public(ephemeralPrivate), iv)
      else r == Err(BadPoint)
  {
    var ephemeral := c.public(ephemeralPrivate);
    var encryptedKeys: seq<Bytes> := [];
    for i := 0 to |recipients|
      invariant forall j :: 0 <= j < i ==> c.agree(ephemeralPrivate, recipients[j]).Some?
      invariant |encryptedKeys| == i
      invariant forall j :: 0 <= j < i ==>
        encryptedKeys[j] == SealedKey(c, key, c.agree(ephemeralPrivate, recipients[j]).value, ephemeral, iv)
    {
      var secret := c.agree(ephemeralPrivate, recipients[i]);
      if secret.None? {
        return Err(BadPoint);
      }
      var sealed := c.seal(c.derive(secret.value, ENCRYPTION), iv, key, ephemeral + iv);
      encryptedKeys := encryptedKeys + [sealed.cipher + sealed.tag];
    }
    return Ok(encryptedKeys);
  }

  predicate SealedKeys(eks: seq<Bytes>, c: Crypto, key: Bytes, secrets: seq<Bytes>, ephemeral: Bytes, iv: Bytes) {
    && |eks| == |secrets|
    && forall i :: 0 <= i < |eks| ==> eks[i] == SealedKey(c, key, secrets[i], ephemeral, iv)
  }

  method PutEntries(
    result: Bytes, eks: seq<Bytes>, ghost c: Crypto, ghost key: Bytes, ghost secrets: seq<Bytes>,
    ghost ephemeral: Bytes, ghost iv: Bytes) returns (longer: Bytes)
    requires SealedKeys(eks, c, key, secrets, ephemeral, iv)
    ensures longer == result + Entries(c, key, secrets, ephemeral, iv, 0)
  {
    hide Fixed, SealedKey;
    longer := result;
    for i := 0 to |eks|
      invariant longer + Entries(c, key, secrets, ephemeral, iv, i) == result + Entries(c, key, secrets, ephemeral, iv, 0)
    {
      ghost var before := longer;
      longer := PutNumber(longer, i, 4);
      longer := PutNumber(longer, |eks[i]|, 2);
      longer := longer + eks[i];
      assert longer == before + Entry(c, key, secrets[i], ephemeral, iv, i);
    }
  }

  function Secrets(c: Crypto, ephemeralPrivate: Bytes, recipients: seq<Bytes>): seq<Bytes>
    requires forall i :: 0 <= i < |recipients| ==> c.agree(ephemeralPrivate, recipients[i]).Some?
  {
    seq(|recipients|, i requires 0 <= i < |recipients| => c.agree(ephemeralPrivate, recipients[i]).value)
  }

  // ----- what decryption makes of any bytes

  function OpenKey(c: Crypto, ek: Bytes, ephemeral: Bytes, private: Bytes, iv: Bytes): Option<Bytes> {
    var secret := c.agree(private, ephemeral);
    if secret.None? || |ek| < 16 then None else
      var sealed := Sealed(ek[..|ek| - 16], ek[|ek| - 16..]);
      var key := c.open(c.derive(secret.value, ENCRYPTION), iv, sealed, ephemeral + iv);
      if key.Some? && |key.value| == 32 then key else None
  }

  datatype Scanned = Scanned(key: Option<Bytes>, rest: Bytes)

  /** Reads `left` entries, keeping the first key that opens, and returns it with the bytes after them. */
  function ScanKeys(
    c: Crypto, s: Bytes, left: nat, ephemeral: Bytes, private: Bytes, iv: Bytes, found: Option<Bytes>)
    : Result<Scanned, Error>
    decreases left
  {
    if left == 0 then Ok(Scanned(found, s))
    else if |s| < 6 then Err(Truncated)
    else
      var length := ReadOn(0, s[4..6]);
      if |s| - 6 < length then Err(Truncated) else
        var next := if found.Some? then found else OpenKey(c, s[6..6 + length], ephemeral, private, iv);
        ScanKeys(c, s[6 + length..], left - 1, ephemeral, private, iv, next)
  }

  function Finish(key: Bytes, c: Crypto, iv: Bytes, sealed: Sealed, aad: Bytes): Result<Bytes, Error> {
    var plain := c.open(key, iv, sealed, aad);
    if plain.Some? then Ok(plain.value) else Err(BadTag)
  }

  function OpenMultiple(c: Crypto, s: Bytes, private: Bytes): Result<Bytes, Error>
    requires |s| >= 64
  {
    if |s| < 68 then Err(TooShort) else
      var scanned := ScanKeys(c, s[52..], ReadOn(0, s[48..52]), s[3..36], private, s[36..48], None);
      if scanned.Err? then Err(scanned.error)
      else if scanned.value.key.None? then Err(NoKey)
      else if |scanned.value.rest| < 16 then Err(MissingTag)
      else
        var rest := scanned.value.rest;
        Finish(scanned.value.key.value, c, s[36..48], Sealed(rest[16..], rest[..16]), s[..36])
  }

  function OpenSingle(c: Crypto, s: Bytes, private: Bytes): Result<Bytes, Error>
    requires |s| >= 64
  {
    var rest := s[64..];
    if s[2] == WITH_LENGTH && |rest| < 8 then Err(MissingLength)
    else if s[2] == WITH_LENGTH && ReadOn(0, rest[..8]) > |rest| - 8 then Err(Overrun)
    else
      var cipher := if s[2] == WITH_LENGTH then rest[8..8 + ReadOn(0, rest[..8])] else rest;
      var secret := c.agree(private, s[3..36]);
      if secret.None? then Err(BadPoint)
      else Finish(c.derive(secret.value, DERIVATION), c, s[36..48], Sealed(cipher, s[48..64]), s[..36])
  }

  function Opened(c: Crypto, s: Bytes, private: Bytes): Result<Bytes, Error> {
    if |s| < 64 then Err(TooShort)
    else if s[0] != VERSION then Err(BadVersion)
    else if s[1] != CIPHER_SUITE then Err(BadSuite)
    else if s[2] == MULTIPLE then OpenMultiple(c, s, private)
    else if s[2] != BASIC && s[2] != WITH_LENGTH then Err(BadType)
    else OpenSingle(c, s, private)
  }

  /** A length prefix past the end, which the source follows out of its buffer, is the error Overrun here. */
  method Decrypt(c: Crypto, s: Bytes, private: Bytes) returns (r: Result<Bytes, Error>)
    ensures r == Opened(c, s, private)
  {
    if |s| < 3 + 33 + 12 + 16 {
      return Err(TooShort);
    }
    var offset: nat := 0;
    var version := s[offset];
    offset := offset + 1;
    if version != VERSION {
      return Err(BadVersion);
    }
    var cipherSuite := s[offset];
    offset := offset + 1;
    if cipherSuite != CIPHER_SUITE {
      return Err(BadSuite);
    }
    var kind := s[offset];
    offset := offset + 1;
    var ephemeral := s[offset..offset + 33];
    offset := offset + 33;
    var iv := s[offset..offset + 12];
    offset := offset + 12;
    var aad := [version, cipherSuite, kind];
    aad := aad + ephemeral;
    assert aad == s[..36];
    if kind == MULTIPLE {
      if |s| < offset + 4 + 16 {
        return Err(TooShort);
      }
      var scanned := FindKey(c, s, offset, ephemeral, private, iv);
      if scanned.Err? {
        return Err(scanned.error);
      }
      var key, rest := scanned.value.key, scanned.value.rest;
      if key.None? {
        return Err(NoKey);
      }
      if |rest| < 16 {
        return Err(MissingTag);
      }
      return Finish(key.value, c, iv, Sealed(rest[16..], rest[..16]), aad);
    }
    if kind != BASIC && kind != WITH_LENGTH {
      return Err(BadType);
    }
    var tag := s[offset..offset + 16];
    offset := offset + 16;
    var length: nat := |s| - offset;
    if kind == WITH_LENGTH {
      if offset + 8 > |s| {
        return Err(MissingLength);
      }
      length := GetNumber(s, offset, 8);
      SliceOfRest(s, 64, 0, 8);
      assert length == ReadOn(0, s[64..][..8]);
      offset := offset + 8;
      if length > |s| - offset {
        return Err(Overrun);
      }
    }
    var cipher := s[offset..offset + length];
    if kind == WITH_LENGTH {
      SliceOfRest(s, 64, 8, 8 + length);
    } else {
      assert cipher == s[64..];
    }
    assert tag == s[48..64] && iv == s[36..48] && ephemeral == s[3..36];
    var secret := c.agree(private, ephemeral);
    if secret.None? {
      return Err(BadPoint);
    }
    return Finish(c.derive(secret.value, DERIVATION), c, iv, Sealed(cipher, tag), aad);
  }

  /** The recipient list: the count at the offset, then the entries. */
  method FindKey(c: Crypto, s: Bytes, start: nat, ephemeral: Bytes, private: Bytes, iv: Bytes)
    returns (r: Result<Scanned, Error>)
    requires start + 4 <= |s|
    ensures r == ScanKeys(c, s[start + 4..], ReadOn(0, s[start..start + 4]), ephemeral, private, iv, None)
  {
    hide OpenKey, ReadOn;
    var count := GetNumber(s, start, 4);
    var offset: nat := start + 4;
    var found: Option<Bytes> := None;
    ghost var whole := ScanKeys(c, s[offset..], count, ephemeral, private, iv, None);
    for i := 0 to count
      invariant 0 <= offset <= |s|
      invariant whole == ScanKeys(c, s[offset..], count - i, ephemeral, private, iv, found)
    {
      if offset + 6 > |s| {
        return Err(Truncated);
      }
      var index := GetNumber(s, offset, 4);
      var length := GetNumber(s, offset + 4, 2);
      SliceOfRest(s, offset, 4, 6);
      offset := offset + 6;
      if offset + length > |s| {
        return Err(Truncated);
      }
      SliceOfRest(s, offset - 6, 6, 6 + length);
      RestOfRest(s, offset - 6, 6 + length);
      if found.None? {
        found := OpenKey(c, s[offset..offset + length], ephemeral, private, iv);
      }
      offset := offset + length;
    }
    return Ok(Scanned(found, s[offset..]));
  }

  // ----- round trips

  /** A frame for one recipient opens to the plaintext; after a length prefix, whatever follows is ignored. */
  lemma SingleRoundTrip(c: Crypto, kind: Byte, plain: Bytes, a: Bytes, e: Bytes, iv: Bytes, extra: Bytes)
    requires Ideal(c) && c.isPrivate(a) && c.isPrivate(e) && |iv| == 12
    requires |plain| < Power256(8) && ((kind == BASIC && extra == []) || kind == WITH_LENGTH)
    ensures c.agree(e, c.public(a)).Some?
    ensures Opened(c, SingleFrame(c, kind, plain, c.agree(e, c.public(a)).value, c.public(e), iv) + extra, a) == Ok(plain)
  {
    hide Power256, Ideal, Fixed, ReadOn, Opened, Header, SingleFrame, Finish, DERIVATION;
    SharedSecret(c, a, e);
    var ephemeral, secret := c.public(e), c.agree(e, c.public(a)).value;
    var key, aad := c.derive(secret, DERIVATION), Header(kind, ephemeral);
    OpensSealed(c, key, iv, plain, aad);
    var sealed := c.seal(key, iv, plain, aad);
    var length := if kind == WITH_LENGTH then Fixed(|plain|, 8) else [];
    FrameIs(c, kind, plain, secret, ephemeral, iv);
    ReadsBack(|plain|, 8);
    var rest := length + sealed.cipher + extra;
    var s := aad + iv + sealed.tag + rest;
    Layout(kind, ephemeral, iv, sealed.tag, rest);
    RestLayout(length, sealed.cipher, extra);
    OpensParts(c, s, sealed.cipher, a);
    Regrouped(aad + iv + sealed.tag, length, sealed.cipher, extra);
  }

  lemma FrameIs(c: Crypto, kind: Byte, plain: Bytes, secret: Bytes, ephemeral: Bytes, iv: Bytes)
    ensures var sealed := c.seal(c.derive(secret, DERIVATION), iv, plain, Header(kind, ephemeral));
      SingleFrame(c, kind, plain, secret, ephemeral, iv)
      == Header(kind, ephemeral) + iv + sealed.tag
         + (if kind == WITH_LENGTH then Fixed(|sealed.cipher|, 8) else []) + sealed.cipher
  {
  }

  lemma RestLayout(length: Bytes, cipher: Bytes, extra: Bytes)
    ensures var rest := length + cipher + extra;
      && |rest| == |length| + |cipher| + |extra|
      && rest[..|length|] == length && rest[|length|..|length| + |cipher|] == cipher
      && (length == extra == [] ==> rest == cipher)
  {
  }

  lemma Regrouped(front: Bytes, length: Bytes, cipher: Bytes, extra: Bytes)
    ensures front + (length + cipher + extra) == front + length + cipher + extra
  {
  }

  /** Decryption takes a frame apart where encryption put it together. */
  lemma OpensParts(c: Crypto, s: Bytes, cipher: Bytes, a: Bytes)
    requires |s| >= 64 && s[0] == VERSION && s[1] == CIPHER_SUITE && c.agree(a, s[3..36]).Some?
    requires s[2] == BASIC || s[2] == WITH_LENGTH
    requires s[2] == BASIC ==> s[64..] == cipher
    requires s[2] == WITH_LENGTH ==> |s| >= 72 && ReadOn(0, s[64..][..8]) == |cipher| <= |s| - 72
    requires s[2] == WITH_LENGTH ==> s[64..][8..8 + |cipher|] == cipher
    ensures Opened(c, s, a)
      == Finish(c.derive(c.agree(a, s[3..36]).value, DERIVATION), c, s[36..48], Sealed(cipher, s[48..64]), s[..36])
  {
    hide ReadOn, Finish;
  }

  lemma Layout(kind: Byte, ephemeral: Bytes, iv: Bytes, tag: Bytes, rest: Bytes)
    requires |ephemeral| == 33 && |iv| == 12 && |tag| == 16
    ensures var aad := Header(kind, ephemeral);
      var s := aad + iv + tag + rest;
      && |s| == 64 + |rest| && s[0] == VERSION && s[1] == CIPHER_SUITE && s[2] == kind
      && s[..36] == aad && s[3..36] == ephemeral && s[36..48] == iv && s[48..64] == tag && s[64..] == rest
  {
  }

  /** Both sides of a key agreement get the same secret. */
  lemma SharedSecret(c: Crypto, a: Bytes, e: Bytes)
    requires Ideal(c) && c.isPrivate(a) && c.isPrivate(e)
    ensures |c.public(e)| == 33 && c.agree(e, c.public(a)).Some? && c.agree(a, c.public(e)) == c.agree(e, c.public(a))
  {
  }

  /** The key that the first opening entry yields. */
  function FirstKey(
    c: Crypto, key: Bytes, secrets: seq<Bytes>, from: nat, ephemeral: Bytes, private: Bytes, iv: Bytes): Option<Bytes>
    requires from <= |secrets|
    decreases |secrets| - from
  {
    if from == |secrets| then None else
      var k := OpenKey(c, SealedKey(c, key, secrets[from], ephemeral, iv), ephemeral, private, iv);
      if k.Some? then k else FirstKey(c, key, secrets, from + 1, ephemeral, private, iv)
  }

  lemma EntryParses(c: Crypto, key: Bytes, secret: Bytes, ephemeral: Bytes, iv: Bytes, i: nat, rest: Bytes)
    requires Ideal(c) && |key| == 32
    ensures var s, ek := Entry(c, key, secret, ephemeral, iv, i) + rest, SealedKey(c, key, secret, ephemeral, iv);
      |ek| == 48 && |s| == 54 + |rest| && ReadOn(0, s[4..6]) == 48 && s[6..54] == ek && s[54..] == rest
  {
    var s, ek := Entry(c, key, secret, ephemeral, iv, i) + rest, SealedKey(c, key, secret, ephemeral, iv);
    assert s[4..6] == Fixed(|ek|, 2);
    ReadFixed(0, |ek|, 2);
    assert Power256(2) == 65536 by {
      assert Power256(1) == 256 * Power256(0);
    }
  }

  /** Scanning the entries of a frame yields the first opening key and leaves what follows them. */
  lemma {:induction false} ScanEntries(
    c: Crypto, key: Bytes, secrets: seq<Bytes>, from: nat, ephemeral: Bytes, private: Bytes, iv: Bytes,
    found: Option<Bytes>, rest: Bytes)
    requires Ideal(c) && |key| == 32 && from <= |secrets|
    ensures ScanKeys(
      c, Entries(c, key, secrets, ephemeral, iv, from) + rest, |secrets| - from, ephemeral, private, iv, found)
      == Ok(Scanned(if found.Some? then found else FirstKey(c, key, secrets, from, ephemeral, private, iv), rest))
    decreases |secrets| - from
  {
    hide Ideal, Entry, OpenKey, SealedKey, ReadOn;
    if from == |secrets| {
      assert [] + rest == rest;
    } else {
      var more := Entries(c, key, secrets, ephemeral, iv, from + 1) + rest;
      var s := Entry(c, key, secrets[from], ephemeral, iv, from) + more;
      assert Entries(c, key, secrets, ephemeral, iv, from) + rest == s;
      EntryParses(c, key, secrets[from], ephemeral, iv, from, more);
      var k := OpenKey(c, SealedKey(c, key, secrets[from], ephemeral, iv), ephemeral, private, iv);
      ScanEntries(
        c, key, secrets, from + 1, ephemeral, private, iv, if found.Some? then found else k, rest);
    }
  }

  /** Decrypting a frame for several recipients: exactly what the first opening entry makes of it. */
  lemma MultipleOpens(c: Crypto, plain: Bytes, key: Bytes, secrets: seq<Bytes>, ephemeral: Bytes, iv: Bytes, private: Bytes)
    requires Ideal(c) && |key| == 32 && |ephemeral| == 33 && |iv| == 12 && 0 < |secrets| <= 0xFFFFFFFF
    ensures var k := FirstKey(c, key, secrets, 0, ephemeral, private, iv);
      var aad := Header(MULTIPLE, ephemeral);
      Opened(c, MultipleFrame(c, plain, key, secrets, ephemeral, iv), private)
      == if k.None? then Err(NoKey) else Finish(k.value, c, iv, c.seal(key, iv, plain, aad), aad)
  {
    hide Entries, Fixed, FirstKey, ScanKeys, Finish, Power256;
    var aad := Header(MULTIPLE, ephemeral);
    var sealed := c.seal(key, iv, plain, aad);
    var s := MultipleFrame(c, plain, key, secrets, ephemeral, iv);
    var after := sealed.tag + sealed.cipher;
    assert s[..36] == aad && s[3..36] == ephemeral && s[36..48] == iv;
    assert s[48..52] == Fixed(|secrets|, 4);
    assert s[52..] == Entries(c, key, secrets, ephemeral, iv, 0) + after;
    ReadFixed(0, |secrets|, 4);
    FourBytes();
    ScanEntries(c, key, secrets, 0, ephemeral, private, iv, None, after);
    assert after[..16] == sealed.tag && after[16..] == sealed.cipher;
  }

  lemma FourBytes()
    ensures Power256(4) == 0x1_0000_0000
  {
    assert Power256(2) == 256 * Power256(1) && Power256(1) == 256 * Power256(0);
    assert Power256(4) == 256 * Power256(3) && Power256(3) == 256 * Power256(2);
  }

  /**
   For a listed recipient, some entry opens; the plaintext comes back exactly if the first key that opens also opens
   the message, and so in particular if no entry meant for another recipient opens to a different key.
   */
  lemma MultipleRoundTrip(
    c: Crypto, plain: Bytes, key: Bytes, recipients: seq<Bytes>, i: nat, a: Bytes, e: Bytes, iv: Bytes)
    requires Ideal(c) && c.isPrivate(a) && c.isPrivate(e) && |key| == 32 && |iv| == 12
    requires i < |recipients| <= 0xFFFFFFFF && recipients[i] == c.public(a)
    requires forall j :: 0 <= j < |recipients| ==> c.agree(e, recipients[j]).Some?
    ensures var secrets, ephemeral := Secrets(c, e, recipients), c.public(e);
      var k := FirstKey(c, key, secrets, 0, ephemeral, a, iv);
      var frame, aad := MultipleFrame(c, plain, key, secrets, ephemeral, iv), Header(MULTIPLE, ephemeral);
      && k.Some?
      && (Opened(c, frame, a) == Ok(plain) <==> c.open(k.value, iv, c.seal(key, iv, plain, aad), aad) == Some(plain))
      && (NoStray(c, key, secrets, ephemeral, a, iv) ==> Opened(c, frame, a) == Ok(plain))
  {
    hide Ideal, MultipleFrame, Opened, OpenKey, SealedKey;
    var secrets, ephemeral := Secrets(c, e, recipients), c.public(e);
    Agreed(c, key, a, e, iv);
    MultipleOpens(c, plain, key, secrets, ephemeral, iv, a);
    FindsOwn(c, key, secrets, 0, i, ephemeral, a, iv);
    OpensSealed(c, key, iv, plain, Header(MULTIPLE, ephemeral));
  }

  /** No entry opens to anything but the content key. */
  predicate NoStray(c: Crypto, key: Bytes, secrets: seq<Bytes>, ephemeral: Bytes, private: Bytes, iv: Bytes) {
    forall j :: 0 <= j < |secrets| ==>
      var k := OpenKey(c, SealedKey(c, key, secrets[j], ephemeral, iv), ephemeral, private, iv);
      k.None? || k == Some(key)
  }

  lemma OpensSealed(c: Crypto, key: Bytes, iv: Bytes, plain: Bytes, aad: Bytes)
    requires Ideal(c)
    ensures c.open(key, iv, c.seal(key, iv, plain, aad), aad) == Some(plain)
    ensures Finish(key, c, iv, c.seal(key, iv, plain, aad), aad) == Ok(plain)
    ensures |c.seal(key, iv, plain, aad).cipher| == |plain| && |c.seal(key, iv, plain, aad).tag| == 16
  {
  }

  /** A recipient opens the entry sealed for its public key. */
  lemma Agreed(c: Crypto, key: Bytes, a: Bytes, e: Bytes, iv: Bytes)
    requires Ideal(c) && c.isPrivate(a) && c.isPrivate(e) && |key| == 32
    ensures |c.public(e)| == 33 && c.agree(e, c.public(a)).Some?
    ensures OpenKey(c, SealedKey(c, key, c.agree(e, c.public(a)).value, c.public(e), iv), c.public(e), a, iv) == Some(key)
  {
    var secret := c.agree(e, c.public(a)).value;
    var sealed := c.seal(c.derive(secret, ENCRYPTION), iv, key, c.public(e) + iv);
    var ek := sealed.cipher + sealed.tag;
    assert c.agree(a, c.public(e)) == Some(secret);
    assert ek[..|ek| - 16] == sealed.cipher && ek[|ek| - 16..] == sealed.tag;
  }

  lemma {:induction false} FindsOwn(
    c: Crypto, key: Bytes, secrets: seq<Bytes>, from: nat, i: nat, ephemeral: Bytes, private: Bytes, iv: Bytes)
    requires from <= i < |secrets|
    requires OpenKey(c, SealedKey(c, key, secrets[i], ephemeral, iv), ephemeral, private, iv) == Some(key)
    ensures FirstKey(c, key, secrets, from, ephemeral, private, iv).Some?
    ensures NoStray(c, key, secrets, ephemeral, private, iv) ==>
      FirstKey(c, key, secrets, from, ephemeral, private, iv) == Some(key)
    decreases i - from
  {
    hide OpenKey, SealedKey;
    if from < i {
      FindsOwn(c, key, secrets, from + 1, i, ephemeral, private, iv);
    }
  }
}
