/** Cipher block chaining over any block function, and the padding of section 6.3
    of RFC 5652. */
module Cbc {
  import opened Bytes

  const BLOCK: nat := 16

  type Block = b: seq<byte> | |b| == 16 witness seq(16, _ => 0)

  /** The decryption of a block given the ciphertext block before it. */
  datatype Key = Key(block: (Block, Block) -> Block, iv: Block)

  /** The first n blocks of s, decrypted. */
  function Decrypt(k: Key, s: seq<byte>, n: nat): (r: seq<byte>)
    requires 16 * n <= |s|
    ensures |r| == 16 * n
    decreases n
  {
    if n == 0 then []
    else
      var prev: Block := if n == 1 then k.iv else s[16 * (n - 2)..16 * (n - 1)];
      Decrypt(k, s, n - 1) + k.block(prev, s[16 * (n - 1)..16 * n])
  }

  /** Every full block of s, decrypted. */
  function Plaintext(k: Key, s: seq<byte>): (r: seq<byte>)
    ensures |r| == |s| - |s| % 16
  {
    Decrypt(k, s, |s| / 16)
  }

  lemma {:induction false} DecryptPrefix(k: Key, s: seq<byte>, t: seq<byte>, m: nat, n: nat)
    requires s <= t && 16 * m <= |s| && m <= n && 16 * n <= |t|
    ensures Decrypt(k, s, m) <= Decrypt(k, t, n)
    decreases n
  {
    if m < n {
      DecryptPrefix(k, s, t, m, n - 1);
    } else if n > 0 {
      DecryptPrefix(k, s, t, m - 1, n - 1);
      assert s[16 * (n - 1)..16 * n] == t[16 * (n - 1)..16 * n];
      assert n > 1 ==> s[16 * (n - 2)..16 * (n - 1)] == t[16 * (n - 2)..16 * (n - 1)];
    }
  }

  lemma PlaintextPrefix(k: Key, s: seq<byte>, t: seq<byte>)
    requires s <= t
    ensures Plaintext(k, s) <= Plaintext(k, t)
  {
    DecryptPrefix(k, s, t, |s| / 16, |t| / 16);
  }

  // ----- Padding -----

  function Repeat(x: byte, n: nat): seq<byte> { seq(n, _ => x) }

  /** The last byte tells how many bytes at the end repeat it. */
  ghost predicate Padded(s: seq<byte>) {
    && |s| >= BLOCK
    && var p := s[|s| - 1];
       1 <= p <= BLOCK && forall i :: |s| - p <= i < |s| ==> s[i] == p
  }

  function Unpad(s: seq<byte>): seq<byte> {
    if s != [] && s[|s| - 1] <= |s| then s[..|s| - s[|s| - 1]] else s
  }

  function Pad(m: seq<byte>): seq<byte> { m + Repeat(16 - |m| % 16, 16 - |m| % 16) }

  /** What is removed is exactly what was put on, and nothing else passes as it. */
  lemma UnpadPad(m: seq<byte>)
    ensures |Pad(m)| % 16 == 0 && Padded(Pad(m)) && Unpad(Pad(m)) == m
  {
    var p := 16 - |m| % 16;
    assert Pad(m)[|m| + p - 1] == p;
    assert Pad(m)[..|m|] == m;
  }

  lemma PadUnpad(s: seq<byte>)
    requires |s| % 16 == 0 && Padded(s)
    ensures s == Pad(Unpad(s))
  {
    var p := s[|s| - 1];
    var m := s[..|s| - p];
    assert 16 - |m| % 16 == p;
  }
}
