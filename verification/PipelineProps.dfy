/** What copyfile delivers: the image, decrypted and decompressed. */
module PipelineProps {
  import opened Bytes
  import opened Streams
  import opened PipelineSpec
  import opened Pipeline
  import opened Copyfile
  import opened Cbc
  import opened Pkcs11
  import opened Wrappers

  /** The cipher turns all into text, whatever pieces the buffers make of it. */
  ghost predicate Decrypts(c: Cipher, all: seq<byte>, text: seq<byte>) {
    forall h: seq<seq<byte>> | Reached(h, all) ::
      && (h != [] ==> !c.update(h).Refused?)
      && Outs(c, h) <= text
      && (Concat(h) == all ==> c.final(h).Done? && Outs(c, h) + c.final(h).bytes == text)
  }

  /** An update that gives nothing says so. */
  ghost predicate Talkative(c: Cipher, all: seq<byte>) {
    forall h: seq<seq<byte>> | Reached(h, all) :: !Silent(c, h)
  }

  /** A complete compressed stream. */
  ghost predicate Packs(z: Inflater, packed: seq<byte>, image: seq<byte>) {
    && Sane(z) && z.ends(packed) && z.expand(packed) == image
    && (forall k :: 0 <= k < |packed| ==> !z.ends(packed[..k]))
    && (forall k :: 0 <= k <= |packed| ==> !z.damaged(packed[..k]))
  }

  ghost predicate Carries(cipher: Option<Cipher>, all: seq<byte>, text: seq<byte>) {
    if cipher.None? then text == all else Decrypts(cipher.value, all, text) && Talkative(cipher.value, all)
  }

  /** Without compression the text is the image; with it, the image is what the
      stream at the front of the text unpacks to. */
  ghost predicate Holds(codec: Option<Inflater>, text: seq<byte>, packed: seq<byte>, image: seq<byte>) {
    if codec.None? then image == text else Packs(codec.value, packed, image) && packed <= text
  }

  /** The last of the text does not come before the last of the input. */
  ghost predicate Late(c: Cipher, all: seq<byte>, text: seq<byte>) {
    forall h: seq<seq<byte>> | Reached(h, all) :: Outs(c, h) == text ==> Concat(h) == all
  }

  /** Nothing of the input is left over when the image is complete. */
  ghost predicate UsesAll(cipher: Option<Cipher>, codec: Option<Inflater>, all: seq<byte>, text: seq<byte>,
                          packed: seq<byte>) {
    codec.None? || (packed == text && (cipher.None? || Late(cipher.value, all, text)))
  }

  lemma PlainPrefix(c: Cipher, h: seq<seq<byte>>, eof: bool, output: seq<byte>, plain: seq<byte>, pulled: seq<byte>,
                    all: seq<byte>, text: seq<byte>)
    requires Deciphering(c, h, eof, output, plain, pulled, all) && Decrypts(c, all, text)
    ensures plain <= text && !Rejected(c, h, all)
  {
    assert plain <= plain + output;
  }

  lemma PlainWhole(c: Cipher, h: seq<seq<byte>>, eof: bool, plain: seq<byte>, pulled: seq<byte>, all: seq<byte>,
                   text: seq<byte>)
    requires Deciphering(c, h, eof, [], plain, pulled, all) && Decrypts(c, all, text)
    requires eof || Silent(c, h)
    requires Talkative(c, all)
    ensures plain == text && pulled == all
  {
    assert plain + [] == plain;
  }

  lemma PlainLate(c: Cipher, h: seq<seq<byte>>, eof: bool, output: seq<byte>, plain: seq<byte>, pulled: seq<byte>,
                  all: seq<byte>, text: seq<byte>)
    requires Deciphering(c, h, eof, output, plain, pulled, all) && Decrypts(c, all, text) && Late(c, all, text)
    requires plain == text
    ensures pulled == all
  {
    if !eof {
      assert Outs(c, h) + [] == Outs(c, h);
      assert |plain + output| <= |text|;
      assert output == [] && plain + output == text;
    }
  }

  lemma EndsOnce(z: Inflater, packed: seq<byte>, image: seq<byte>, fed: seq<byte>, given: nat, input: seq<byte>,
                 eof: bool, up: seq<byte>, text: seq<byte>)
    requires Packs(z, packed, image) && packed <= text && up <= text
    requires Inflating(z, fed, given, input, eof, up)
    ensures fed <= packed && !z.damaged(fed)
    ensures z.ends(fed) ==> Prefix(z.expand(fed), given) == image && fed == packed && fed <= up
    ensures z.ends(fed) || !(input == [] && up == text)
  {
    assert fed <= up;
    var both := Min(|fed|, |packed|);
    assert fed[..both] == packed[..both];
    assert fed[..|fed|] == fed && packed[..|packed|] == packed;
    assert input == [] ==> fed == up;
  }

  /** What the objects of a finished run have delivered. */
  lemma Delivered(input: Input, d: Decryption?, z: Decompression?, text: seq<byte>, packed: seq<byte>, image: seq<byte>)
    requires Finished(input, d, z)
    requires Carries(if d == null then None else Some(d.cipher), Offered(input.start, input.total), text)
    requires Holds(if z == null then None else Some(z.codec), text, packed, image)
    ensures Out(input, d, z) == image
    ensures var all := Offered(input.start, input.total);
      UsesAll(if d == null then None else Some(d.cipher),
              if z == null then None else Some(z.codec), all, text, packed) ==>
        input.pulled == all
  {
    ghost var all := Offered(input.start, input.total);
    hide Decrypts, Talkative, Packs, Deciphering, Inflating, Offered, Late;
    if d != null {
      PlainPrefix(d.cipher, d.chunks, d.eof, d.output, d.plain, input.pulled, all, text);
    }
    if UpFinished(input, d) && d != null {
      PlainWhole(d.cipher, d.chunks, d.eof, d.plain, input.pulled, all, text);
    }
    if z != null {
      EndsOnce(z.codec, packed, image, z.fed, z.given, z.availIn, z.eof, Up(input, d), text);
      if d != null && packed == text && Late(d.cipher, all, text) {
        PlainLate(d.cipher, d.chunks, d.eof, d.output, d.plain, input.pulled, all, text);
      }
    }
  }

  lemma NoFault(input: Input, d: Decryption?, z: Decompression?, text: seq<byte>, packed: seq<byte>, image: seq<byte>)
    requires input.Reliable()
    requires Carries(if d == null then None else Some(d.cipher), Offered(input.start, input.total), text)
    requires Holds(if z == null then None else Some(z.codec), text, packed, image)
    ensures !Fault(input, d, z)
  {
    ghost var all := Offered(input.start, input.total);
    assert d != null ==> !Rejected(d.cipher, d.chunks, all);
    hide Decrypts, Talkative, Packs, Deciphering, Inflating, Offered;
    if z != null && Spoiled(input, d, z) {
      if d != null {
        PlainPrefix(d.cipher, d.chunks, d.eof, d.output, d.plain, input.pulled, all, text);
      }
      EndsOnce(z.codec, packed, image, z.fed, z.given, z.availIn, z.eof, Up(input, d), text);
    }
  }

  /** Copying an image from an input.  For every pattern of short reads, every pace of
      the cipher and of the decompressor, the callback gets the image and nothing else. */
  method CopyFrom(input: Input, cipher: Option<Cipher>, codec: Option<Inflater>, receiver: Receiver, skip: bool,
                  hash: Option<seq<byte> -> bool>, ghost all: seq<byte>, ghost text: seq<byte>, ghost packed: seq<byte>,
                  ghost image: seq<byte>)
    returns (ret: int, checksum: nat)
    requires receiver.got == [] && !receiver.refused
    requires input.Valid() && input.pulled == [] && all == Offered(input.start, input.total)
    requires Carries(cipher, all, text) && Holds(codec, text, packed, image)
    requires hash.Some? ==> input.dgst != null
    modifies input, input.fd, input.dgst, receiver
    ensures ret <= 0 && (ret == 0 ==> !receiver.refused && receiver.got == if skip then [] else image)
    ensures ret == 0 && UsesAll(cipher, codec, all, text, packed) ==>
      && checksum == (if input.memory then 0 else Checked(0, all))
      && (hash.Some? ==> hash.value(all))
      && (!input.memory ==> PaddingTried(input.start, |all|, input.base, input.fd.rest, input.offset))
      && (!input.memory && input.fd.reliable ==>
          PaddingSkipped(input.start, |all|, input.base, input.fd.rest, input.offset))
    ensures input.Reliable() && (forall s :: receiver.accepts(s)) &&
            (hash.None? || (UsesAll(cipher, codec, all, text, packed) && hash.value(all))) ==>
      ret == 0
  {
    var d := null;
    var z := null;
    if cipher.Some? {
      d := new Decryption(cipher.value);
      Start(cipher.value, all);
    }
    if codec.Some? {
      z := new Decompression(codec.value);
    }
    ret, checksum := Copy(input, d, z, receiver, skip, hash);
    hide Finished, Fault, Out, PaddingSkipped, PaddingTried, Checked, Carries, Holds, UsesAll;
    if Finished(input, d, z) {
      Delivered(input, d, z, text, packed, image);
    }
    if ret != 0 && input.Reliable() {
      NoFault(input, d, z, text, packed, image);
    }
  }

  /** Copying from a descriptor; afterwards it stands behind the padding. */
  method CopyImage(fd: Stream, n: nat, offset: nat, cipher: Option<Cipher>, codec: Option<Inflater>,
                   receiver: Receiver, skip: bool, hash: Option<seq<byte> -> bool>, dgst: Digest?,
                   ghost text: seq<byte>, ghost packed: seq<byte>, ghost image: seq<byte>)
    returns (ret: int, checksum: nat, offset': nat)
    requires receiver.got == [] && !receiver.refused
    requires Carries(cipher, Offered(fd.rest, n), text) && Holds(codec, text, packed, image)
    requires dgst != null ==> dgst.seen == []
    requires hash.Some? ==> dgst != null
    modifies fd, dgst, receiver
    ensures ret <= 0 && (ret == 0 ==> !receiver.refused && receiver.got == if skip then [] else image)
    ensures var all := Offered(old(fd.rest), n);
      ret == 0 && UsesAll(cipher, codec, all, text, packed) ==>
        && checksum == Checked(0, all) && (hash.Some? ==> hash.value(all))
        && PaddingTried(old(fd.rest), |all|, offset, fd.rest, offset')
        && (fd.reliable ==> PaddingSkipped(old(fd.rest), |all|, offset, fd.rest, offset'))
    ensures var all := Offered(old(fd.rest), n);
      (&& fd.reliable && (dgst != null ==> dgst.reliable) && (forall s :: receiver.accepts(s))
       && (hash.None? || (UsesAll(cipher, codec, all, text, packed) && hash.value(all)))) ==> ret == 0
  {
    var input := new Input.FromDescriptor(fd, n, offset, dgst);
    hide Offered, PaddingSkipped, PaddingTried, Checked, Carries, Holds, UsesAll, Input.Valid;
    ret, checksum := CopyFrom(input, cipher, codec, receiver, skip, hash, Offered(fd.rest, n), text, packed, image);
    offset' := input.offset;
  }

  /** Copying from memory, as chunks of a delta update are; there is no padding, and
      no checksum. */
  method CopyBuffer(inbuf: seq<byte>, cipher: Option<Cipher>, codec: Option<Inflater>, receiver: Receiver,
                    hash: Option<seq<byte> -> bool>, dgst: Digest?, ghost text: seq<byte>, ghost packed: seq<byte>,
                    ghost image: seq<byte>)
    returns (ret: int)
    requires receiver.got == [] && !receiver.refused
    requires Carries(cipher, inbuf, text) && Holds(codec, text, packed, image)
    requires dgst != null ==> dgst.seen == []
    requires hash.Some? ==> dgst != null
    modifies dgst, receiver
    ensures ret == 0 ==> !receiver.refused && receiver.got == image
    ensures ret == 0 && UsesAll(cipher, codec, inbuf, text, packed) && hash.Some? ==> hash.value(inbuf)
    ensures
      (&& (dgst != null ==> dgst.reliable) && (forall s :: receiver.accepts(s))
       && (hash.None? || (UsesAll(cipher, codec, inbuf, text, packed) && hash.value(inbuf)))) ==> ret == 0
  {
    var fd := new Stream([], 0, true);
    var input := new Input.FromMemory(fd, inbuf, |inbuf|, 0, dgst);
    assert Offered(inbuf, |inbuf|) == inbuf;
    hide Offered, PaddingSkipped, PaddingTried, Checked, Carries, Holds, UsesAll, Input.Valid;
    var checksum;
    ret, checksum := CopyFrom(input, cipher, codec, receiver, false, hash, inbuf, text, packed, image);
  }

  lemma Start(c: Cipher, all: seq<byte>)
    ensures Deciphering(c, [], false, [], [], [], all)
  {
  }

  // ----- Silent updates -----

  /** The pieces are determined by the input: one history is the start of the other. */
  lemma {:induction false} OneHistory(h: seq<seq<byte>>, g: seq<seq<byte>>, all: seq<byte>)
    requires Reached(h, all) && Reached(g, all) && |h| <= |g|
    ensures h == g[..|h|]
    decreases |h|
  {
    if h != [] {
      var k := |h| - 1;
      ReachedTake(h, all, k);
      ReachedTake(g, all, k + 1);
      OneHistory(h[..k], g, all);
      ConcatLast(h);
      ConcatTake(g, k);
      hide Reached, Canonical;
      SamePiece(Concat(h[..k]), h[k], g[k], all);
      assert h == h[..k] + [h[k]] && g[..k + 1] == g[..k] + [g[k]];
    }
  }

  /** What was given before some piece is a history too, ending in a full buffer. */
  lemma ReachedTake(g: seq<seq<byte>>, all: seq<byte>, k: nat)
    requires Reached(g, all) && k <= |g|
    ensures Reached(g[..k], all)
    ensures Concat(g[..k]) <= all
    ensures k > 0 ==> |g[k - 1]| <= BUFF_SIZE && (|g[k - 1]| < BUFF_SIZE ==> Concat(g[..k]) == all)
  {
    assert g == g[..k] + g[k..];
    ConcatAppend(g[..k], g[k..]);
    if k == |g| {
      assert g[..k] == g;
    }
  }

  lemma SamePiece(done: seq<byte>, a: seq<byte>, b: seq<byte>, all: seq<byte>)
    requires done + a <= all && done + b <= all && |a| <= BUFF_SIZE && |b| <= BUFF_SIZE
    requires |a| < BUFF_SIZE ==> done + a == all
    requires |b| < BUFF_SIZE ==> done + b == all
    ensures a == b
  {
    assert a == all[|done|..|done| + |a|];
    assert b == all[|done|..|done| + |b|];
  }

  /** A silent update ends the stream: nothing after it is decrypted. */
  lemma SilenceStops(c: Cipher, h: seq<seq<byte>>, eof: bool, plain: seq<byte>, pulled: seq<byte>, all: seq<byte>,
                     g: seq<seq<byte>>)
    requires Deciphering(c, h, eof, [], plain, pulled, all)
    requires !eof ==> Silent(c, h)
    requires Reached(g, all) && Silent(c, g) && Loud(c, g)
    ensures h == g && plain == Outs(c, g)
  {
    if |h| < |g| {
      OneHistory(h, g, all);
      ReachedTake(g, all, |h| + 1);
      ConcatTake(g, |h|);
    } else {
      OneHistory(g, h, all);
      assert |g| == |h| ==> h[..|g|] == h;
    }
    assert plain + [] == plain;
  }

  // ----- The token's decryption in the pipeline -----

  lemma {:induction false} Multiple(h: seq<seq<byte>>)
    requires forall i :: 0 <= i < |h| ==> |h[i]| == BUFF_SIZE
    ensures |Concat(h)| % 16 == 0
  {
    if h != [] {
      Multiple(h[..|h| - 1]);
      ConcatLast(h);
    }
  }

  /** The buffers cut block-multiple input into pieces the token takes. */
  lemma AllLong(h: seq<seq<byte>>, all: seq<byte>)
    requires Reached(h, all) && |all| % 16 == 0
    ensures Long(h) && |Concat(h)| % 16 == 0
  {
    if h != [] {
      Multiple(h[..|h| - 1]);
      ConcatLast(h);
    }
  }

  lemma ShownLength(k: Key, s: seq<byte>)
    requires |s| % 16 == 0
    ensures |Shown(k, s)| == if |s| < 16 then 0 else |s| - 16
  {
  }

  lemma HeldDecrypts(k: Key, all: seq<byte>)
    requires |all| % 16 == 0 && all != [] && Padded(Plaintext(k, all))
    ensures Decrypts(HeldBack(k), all, Unpad(Plaintext(k, all)))
  {
    var c, text := HeldBack(k), Unpad(Plaintext(k, all));
    forall h: seq<seq<byte>> | Reached(h, all)
      ensures && (h != [] ==> !c.update(h).Refused?)
              && Outs(c, h) <= text
              && (Concat(h) == all ==> c.final(h).Done? && Outs(c, h) + c.final(h).bytes == text)
    {
      AllLong(h, all);
      hide Plaintext, Unpad, Padded;
      HeldHistory(k, h, all);
      if Concat(h) == all {
        Whole(k, h);
      }
    }
  }

  lemma HeldHistory(k: Key, h: seq<seq<byte>>, all: seq<byte>)
    requires Long(h) && Concat(h) <= all && |all| % 16 == 0 && Padded(Plaintext(k, all))
    ensures h != [] ==> HeldUpdate(k, h).Plain?
    ensures Outs(HeldBack(k), h) <= Unpad(Plaintext(k, all))
  {
    OutsShown(k, h);
    ShownGrows(k, Concat(h), all);
    assert Shown(k, all) <= Unpad(Plaintext(k, all));
    if h != [] {
      ConcatLast(h);
      ShownGrows(k, Concat(h[..|h| - 1]), Concat(h));
    }
  }

  /** The last block of the text is held back to the end. */
  lemma HeldLate(k: Key, all: seq<byte>)
    requires |all| % 16 == 0 && |all| > 16 && Padded(Plaintext(k, all))
    ensures Late(HeldBack(k), all, Unpad(Plaintext(k, all)))
  {
    forall h: seq<seq<byte>> | Reached(h, all) && Outs(HeldBack(k), h) == Unpad(Plaintext(k, all))
      ensures Concat(h) == all
    {
      AllLong(h, all);
      OutsShown(k, h);
      ShownLength(k, Concat(h));
      assert |Unpad(Plaintext(k, all))| >= |all| - 16;
      assert Concat(h) <= all;
    }
  }

  /** Only a single block is decrypted to nothing. */
  lemma HeldSilent(k: Key, h: seq<seq<byte>>, all: seq<byte>)
    requires Reached(h, all) && |all| % 16 == 0
    ensures Silent(HeldBack(k), h) <==> h == [all] && |all| == 16
  {
    if h != [] {
      var init := h[..|h| - 1];
      AllLong(h, all);
      Multiple(init);
      ConcatLast(h);
      hide Plaintext, Shown;
      ShownLength(k, Concat(init));
      ShownLength(k, Concat(h));
      ShownGrows(k, Concat(init), Concat(h));
      if init == [] {
        assert h == [h[0]] && Concat(h) == h[0];
      } else {
        ConcatLast(init);
      }
    }
  }

  /** With the token's decryption an encrypted image comes out right unless the
      ciphertext is one block: then nothing comes out, and the copy succeeds. */
  lemma HeldBackDelivers(input: Input, d: Decryption, k: Key)
    requires Finished(input, d, null) && d.cipher == HeldBack(k)
    requires var all := Offered(input.start, input.total);
      |all| % 16 == 0 && all != [] && Padded(Plaintext(k, all))
    ensures var all := Offered(input.start, input.total);
      var text := Unpad(Plaintext(k, all));
      && Out(input, d, null) == (if |all| == 16 then [] else text)
      && (Out(input, d, null) == text <==> |all| != 16 || text == [])
  {
    var all := Offered(input.start, input.total);
    HeldDecrypts(k, all);
    hide Offered, Plaintext, Unpad, Padded, Deciphering, HeldBack;
    if |all| == 16 {
      assert Concat([all]) == all;
      HeldSilent(k, [all], all);
      SilenceStops(d.cipher, d.chunks, d.eof, d.plain, input.pulled, all, [all]);
      assert Text(d.cipher.update([all])) == [] && Outs(d.cipher, []) == [];
    } else {
      forall h: seq<seq<byte>> | Reached(h, all) ensures !Silent(d.cipher, h) {
        HeldSilent(k, h, all);
      }
      PlainWhole(d.cipher, d.chunks, d.eof, d.plain, input.pulled, all, Unpad(Plaintext(k, all)));
    }
  }
}
