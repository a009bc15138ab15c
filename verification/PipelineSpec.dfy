/** The outside of the copy pipeline: ciphers and decompressors as the pipeline
    meets them, and what a run of it has done so far. */
module PipelineSpec {
  import opened Bytes
  import opened Streams

  const BUFF_SIZE: nat := 16384

  // ----- Decryption -----

  /** What an update answers: plain bytes, "come again" with none, or an error. */
  datatype Update = Plain(bytes: seq<byte>) | Again | Refused(code: Errno)

  datatype Final = Done(bytes: seq<byte>) | Denied(code: Errno)

  type Errno = n: nat | n > 0 && n != EAGAIN witness EFAULT

  /** A decryption context is the pieces it was given, oldest first. */
  datatype Cipher = Cipher(update: seq<seq<byte>> -> Update, final: seq<seq<byte>> -> Final)

  function Text(u: Update): seq<byte> { if u.Plain? then u.bytes else [] }

  /** Everything the updates of a history gave out. */
  function Outs(c: Cipher, h: seq<seq<byte>>): seq<byte> {
    if h == [] then [] else Outs(c, h[..|h| - 1]) + Text(c.update(h))
  }

  /** The update that succeeds and gives nothing. */
  predicate Silent(c: Cipher, h: seq<seq<byte>>) {
    h != [] && c.update(h) == Plain([])
  }

  /** The pieces a context is given: full buffers, but for the last of the input. */
  ghost predicate Canonical(h: seq<seq<byte>>) {
    && (forall i :: 0 <= i < |h| ==> 0 < |h[i]| <= BUFF_SIZE)
    && (forall i :: 0 <= i < |h| - 1 ==> |h[i]| == BUFF_SIZE)
  }

  ghost predicate Reached(h: seq<seq<byte>>, all: seq<byte>) {
    && Canonical(h)
    && Concat(h) <= all
    && (h != [] && |h[|h| - 1]| < BUFF_SIZE ==> Concat(h) == all)
  }

  /** No update before the last was silent. */
  ghost predicate Loud(c: Cipher, h: seq<seq<byte>>) {
    forall k :: 0 < k < |h| ==> !Silent(c, h[..k])
  }

  lemma OutsSnoc(c: Cipher, h: seq<seq<byte>>, piece: seq<byte>)
    ensures Outs(c, h + [piece]) == Outs(c, h) + Text(c.update(h + [piece]))
  {
    assert (h + [piece])[..|h + [piece]| - 1] == h;
  }

  lemma ReachedSnoc(h: seq<seq<byte>>, piece: seq<byte>, all: seq<byte>)
    requires Canonical(h) && (h != [] ==> |h[|h| - 1]| == BUFF_SIZE)
    requires 0 < |piece| <= BUFF_SIZE && Concat(h) + piece <= all
    requires |piece| < BUFF_SIZE ==> Concat(h) + piece == all
    ensures Reached(h + [piece], all)
  {
    ConcatSnoc(h, piece);
  }

  lemma LoudSnoc(c: Cipher, h: seq<seq<byte>>, piece: seq<byte>)
    requires Loud(c, h) && !Silent(c, h)
    ensures Loud(c, h + [piece])
  {
    forall k | 0 < k < |h + [piece]| ensures !Silent(c, (h + [piece])[..k]) {
      if k < |h| {
        assert (h + [piece])[..k] == h[..k];
      } else {
        assert (h + [piece])[..k] == h;
      }
    }
  }

  /** Where a context stands: the pieces it was given make up the bytes pulled, and
      what it made of them has been handed on or waits to be. */
  ghost predicate Deciphering(c: Cipher, h: seq<seq<byte>>, eof: bool, output: seq<byte>, plain: seq<byte>,
                              pulled: seq<byte>, all: seq<byte>)
  {
    && Reached(h, all) && Loud(c, h) && Concat(h) == pulled
    && (eof ==> pulled == all && c.final(h).Done? && !Silent(c, h))
    && plain + output == Outs(c, h) + (if eof then c.final(h).bytes else [])
  }

  /** The cipher itself gave up. */
  ghost predicate Rejected(c: Cipher, h: seq<seq<byte>>, all: seq<byte>) {
    Reached(h, all) && ((h != [] && c.update(h).Refused?) || (Concat(h) == all && c.final(h).Denied?))
  }

  lemma Settled(c: Cipher, h: seq<seq<byte>>, plain: seq<byte>, pulled: seq<byte>, all: seq<byte>)
    requires Deciphering(c, h, false, [], plain, pulled, all)
    ensures plain == Outs(c, h)
  {
    assert plain == plain + [];
    assert Outs(c, h) == Outs(c, h) + [];
  }

  lemma DecipherMore(c: Cipher, h: seq<seq<byte>>, plain: seq<byte>, pulled: seq<byte>, piece: seq<byte>,
                     all: seq<byte>)
    requires Deciphering(c, h, false, [], plain, pulled, all) && !Silent(c, h)
    requires 0 < |piece| <= BUFF_SIZE && pulled + piece <= all
    requires |piece| < BUFF_SIZE ==> pulled + piece == all
    ensures h == [] || |h[|h| - 1]| == BUFF_SIZE
    ensures Deciphering(c, h + [piece], false, Text(c.update(h + [piece])), plain, pulled + piece, all)
  {
    Settled(c, h, plain, pulled, all);
    ReachedSnoc(h, piece, all);
    LoudSnoc(c, h, piece);
    ConcatSnoc(h, piece);
    OutsSnoc(c, h, piece);
  }

  lemma DecipherServe(c: Cipher, h: seq<seq<byte>>, eof: bool, output: seq<byte>, plain: seq<byte>, pulled: seq<byte>,
                      all: seq<byte>, k: nat)
    requires Deciphering(c, h, eof, output, plain, pulled, all) && k <= |output|
    ensures Deciphering(c, h, eof, output[k..], plain + output[..k], pulled, all)
  {
    assert plain + output == (plain + output[..k]) + output[k..];
  }

  // ----- Decompression -----

  /** A decompressor: what it makes of the bytes consumed so far, whether they make
      a complete stream, and whether they are damaged. */
  datatype Inflater = Inflater(expand: seq<byte> -> seq<byte>, ends: seq<byte> -> bool, damaged: seq<byte> -> bool)

  /** More input only adds output, and the last byte of a stream, being part of its
      trailer, adds none. */
  ghost predicate Sane(z: Inflater) {
    && (forall s: seq<byte>, t: seq<byte> :: s <= t ==> z.expand(s) <= z.expand(t))
    && (forall s: seq<byte>, x: byte :: z.ends(s + [x]) ==> z.expand(s + [x]) == z.expand(s))
    && !z.ends([]) && !z.damaged([])
  }

  /** One call may consume c bytes of the input and give p bytes, at its own pace,
      but gets somewhere, consumes nothing past the end of the stream, and reaches
      the end only with all output given. */
  predicate Pace(z: Inflater, fed: seq<byte>, given: nat, input: seq<byte>, room: nat, c: nat, p: nat) {
    && c <= |input| && p <= room
    && given + p <= |z.expand(fed + input[..c])|
    && (forall k :: 0 <= k < c ==> !z.ends(fed + input[..k]))
    && (z.ends(fed + input[..c]) ==> given + p == |z.expand(fed + input[..c])|)
    && (c > 0 || p > 0)
  }

  /** There is always such a step. */
  lemma PaceExists(z: Inflater, fed: seq<byte>, given: nat, input: seq<byte>, room: nat) returns (c: nat, p: nat)
    requires Sane(z) && !z.ends(fed) && given <= |z.expand(fed)| && input != [] && room > 0
    ensures Pace(z, fed, given, input, room, c, p)
  {
    if given < |z.expand(fed)| {
      c, p := 0, 1;
      assert fed + input[..0] == fed;
    } else {
      c, p := 1, 0;
      assert input[..1] == [input[0]];
      assert fed + input[..0] == fed;
      assert fed <= fed + input[..1];
    }
  }

  function Prefix(s: seq<byte>, n: nat): seq<byte> { if n <= |s| then s[..n] else s }

  /** Where a decompressor stands: what upstream gave is consumed or waits to be,
      and at the end of the stream everything is given. */
  ghost predicate Inflating(z: Inflater, fed: seq<byte>, given: nat, input: seq<byte>, eof: bool, up: seq<byte>) {
    && Sane(z)
    && fed + input == up
    && given <= |z.expand(fed)|
    && (forall k :: 0 <= k < |fed| ==> !z.ends(fed[..k]))
    && (z.ends(fed) ==> eof && given == |z.expand(fed)|)
  }

  lemma InflateMore(z: Inflater, fed: seq<byte>, given: nat, input: seq<byte>, up: seq<byte>, room: nat, c: nat, p: nat)
    requires Inflating(z, fed, given, input, false, up) && Pace(z, fed, given, input, room, c, p)
    ensures var now := fed + input[..c];
      && given + p <= |z.expand(now)|
      && Inflating(z, now, given + p, input[c..], z.ends(now), up)
      && Prefix(z.expand(now), given + p) == Prefix(z.expand(fed), given) + z.expand(now)[given..given + p]
      && (c == 0 ==> now == fed && input[c..] == input)
  {
    var now := fed + input[..c];
    assert now + input[c..] == fed + input;
    assert fed <= now;
    var before, after := z.expand(fed), z.expand(now);
    assert before <= after;
    assert after[..given + p] == after[..given] + after[given..given + p];
    forall k | 0 <= k < |now| ensures !z.ends(now[..k]) {
      if k < |fed| {
        assert now[..k] == fed[..k];
      } else {
        assert now[..k] == fed + input[..k - |fed|];
      }
    }
  }
}
