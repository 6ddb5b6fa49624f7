/** Where each field of a board entry stands in the data its hash covers. */
module BoardLayout {
  import opened BulletinBoards
  import opened FixedWidth

  function TotalLength(parts: seq<Bytes>): nat {
    if parts == [] then 0 else |parts[0]| + TotalLength(parts[1..])
  }

  lemma {:induction false} ConcatLayout(parts: seq<Bytes>, i: nat)
    requires i < |parts|
    ensures var at := TotalLength(parts[..i]);
      at + |parts[i]| <= |Concat(parts)| && Concat(parts)[at..at + |parts[i]|] == parts[i]
    decreases i
  {
    if i > 0 {
      ConcatLayout(parts[1..], i - 1);
      assert parts[1..][..i - 1] == parts[..i][1..];
      var at := TotalLength(parts[..i][1..]);
      assert Concat(parts)[|parts[0]|..] == Concat(parts[1..]);
    }
  }

  /** The hashed data: number and time in eight bytes each, poll, voter, the root before, and the ciphertexts in order. */
  lemma DataLayout(e: Entry, i: nat)
    ensures var s, p, v, m := EntryData(e), |e.pollId|, |e.voterIdHash|, |e.merkleRoot|;
      && |s| == 16 + p + v + m + TotalLength(e.encryptedVote)
      && s[..8] == EightBytes(e.sequence) && s[8..16] == EightBytes(e.timestamp)
      && s[16..16 + p] == e.pollId && s[16 + p..16 + p + v] == e.voterIdHash
      && s[16 + p + v..16 + p + v + m] == e.merkleRoot
      && (i < |e.encryptedVote| ==>
        var at := 16 + p + v + m + TotalLength(e.encryptedVote[..i]);
        at + |e.encryptedVote[i]| <= |s| && s[at..at + |e.encryptedVote[i]|] == e.encryptedVote[i])
  {
    hide EightBytes, Concat, Fixed;
    FixedIs(e.sequence);
    FixedIs(e.timestamp);
    ConcatLength(e.encryptedVote);
    Fields(Fixed(e.sequence, 8), Fixed(e.timestamp, 8), e.pollId, e.voterIdHash, e.merkleRoot, Concat(e.encryptedVote));
    var front := 16 + |e.pollId| + |e.voterIdHash| + |e.merkleRoot|;
    if i < |e.encryptedVote| {
      ConcatLayout(e.encryptedVote, i);
      var at := TotalLength(e.encryptedVote[..i]);
      Deeper(EntryData(e), front, at, at + |e.encryptedVote[i]|);
    }
  }

  lemma Fields(a: Bytes, b: Bytes, c: Bytes, d: Bytes, f: Bytes, rest: Bytes)
    ensures var s, i, j := a + b + c + d + f + rest, |a| + |b|, |a| + |b| + |c|;
      && s[..|a|] == a && s[|a|..i] == b && s[i..j] == c && s[j..j + |d|] == d
      && s[j + |d|..j + |d| + |f|] == f && s[j + |d| + |f|..] == rest
  {
    var s := a + b + c + d + f + rest;
    Cut(s, [], a, b + c + d + f + rest);
    Cut(s, a, b, c + d + f + rest);
    Cut(s, a + b, c, d + f + rest);
    Cut(s, a + b + c, d, f + rest);
    Cut(s, a + b + c + d, f, rest);
  }

  lemma Cut(s: Bytes, front: Bytes, x: Bytes, back: Bytes)
    requires s == front + x + back
    ensures s[|front|..|front| + |x|] == x && s[|front| + |x|..] == back
  {
  }

  lemma Deeper(s: Bytes, front: nat, i: nat, j: nat)
    requires front <= |s| && i <= j <= |s[front..]|
    ensures front + j <= |s| && s[front..][i..j] == s[front + i..front + j]
  {
  }

  lemma {:induction false} ConcatLength(parts: seq<Bytes>)
    ensures |Concat(parts)| == TotalLength(parts)
  {
    if parts != [] {
      ConcatLength(parts[1..]);
    }
  }
}
