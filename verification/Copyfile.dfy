/** copyfile: the loop that drains the pipeline into a callback, the hash check and
    the padding that follows an entry in the archive. */
module Copyfile {
  import opened Bytes
  import opened Streams
  import opened PipelineSpec
  import opened Pipeline
  import opened Wrappers

  /** The bytes up to the next multiple of four. */
  function NPad(offset: nat): nat { (4 - offset % 4) % 4 }

  /** Where the callback puts what it is called with.  Whether a call succeeds depends
      on all that was handed over so far; `refused` remembers that one did not. */
  class Receiver {
    const accepts: seq<byte> -> bool
    var got: seq<byte>
    ghost var refused: bool

    constructor (accepts: seq<byte> -> bool)
      ensures this.accepts == accepts && got == [] && !refused
    {
      this.accepts, got, refused := accepts, [], false;
    }

    method Write(buffer: seq<byte>) returns (ok: bool)
      modifies this
      ensures got == old(got) + buffer && ok == accepts(got) && refused == (old(refused) || !ok)
    {
      got := got + buffer;
      ok := accepts(got);
      refused := refused || !ok;
    }
  }

  // ----- The step at the end of the pipeline -----

  ghost function Out(input: Input, d: Decryption?, z: Decompression?): seq<byte>
    reads input`pulled, d, z
  {
    if z == null then Up(input, d) else z.Given()
  }

  ghost predicate Going(input: Input, d: Decryption?, z: Decompression?)
    reads input, input.fd, input.dgst, d, z
  {
    if z == null then UpValid(input, d) && Open(d) else Ready(input, d, z)
  }

  ghost predicate Fault(input: Input, d: Decryption?, z: Decompression?)
    reads input`pulled, d, z
  {
    UpFault(input, d) || (z != null && Spoiled(input, d, z))
  }

  ghost function Todo(input: Input, d: Decryption?, z: Decompression?): Load
    reads input, d, z
  {
    if z == null then Load(UpWork(input, d), 0, 0) else LoadOf(input, d, z)
  }

  /** Upstream of the decompressor is used up. */
  ghost predicate UpFinished(input: Input, d: Decryption?)
    reads input`pulled, d
  {
    if d == null then input.pulled == Offered(input.start, input.total)
    else
      d.Valid(input.pulled, Offered(input.start, input.total)) && d.output == [] &&
      (d.eof || Silent(d.cipher, d.chunks))
  }

  /** The whole pipeline is: at the end of a compressed stream, or of the input. */
  ghost predicate Finished(input: Input, d: Decryption?, z: Decompression?)
    reads input`pulled, d, z
  {
    && input.pulled <= Offered(input.start, input.total)
    && (d != null ==> d.Valid(input.pulled, Offered(input.start, input.total)))
    && (if z == null then UpFinished(input, d)
        else
          && z.Valid(Up(input, d)) && !z.codec.damaged(z.fed)
          && (z.Ended() || (z.availIn == [] && UpFinished(input, d))))
  }

  method Step(input: Input, d: Decryption?, z: Decompression?, size: nat) returns (ret: int, buffer: seq<byte>)
    requires Going(input, d, z) && size > 0
    modifies input, input.fd, input.dgst, d, z
    ensures ret >= 0 ==> ret == |buffer| <= size && Out(input, d, z) == old(Out(input, d, z)) + buffer
    ensures ret == -EAGAIN ==> Out(input, d, z) == old(Out(input, d, z))
    ensures ret == 0 ==> input.Valid() && Finished(input, d, z)
    ensures ret > 0 || ret == -EAGAIN ==> Going(input, d, z) && Lighter(Todo(input, d, z), old(Todo(input, d, z)))
    ensures ret < 0 && ret != -EAGAIN ==> Fault(input, d, z)
  {
    hide Deciphering, Rejected, Input.Valid, Input.Left, Offered, Inflating, UpWork, Less, Decompression.Given, Ready,
         LoadOf, Open;
    if z == null {
      ret, buffer := UpstreamStep(input, d, size);
    } else {
      ret, buffer := GunzipStep(input, d, z, size);
    }
    if ret == 0 {
      input.EndMeansAll();
    }
  }

  /** Drains the pipeline into the callback, or into nothing when the file is
      skipped.  The callback sees each byte once, in order, until it fails. */
  method Drain(input: Input, d: Decryption?, z: Decompression?, receiver: Receiver, skip: bool) returns (ret: int)
    requires Going(input, d, z) && Out(input, d, z) == [] && receiver.got == [] && !receiver.refused
    modifies input, input.fd, input.dgst, d, z, receiver
    ensures ret == 0 ==> input.Valid() && Finished(input, d, z) && receiver.got == if skip then [] else Out(input, d, z)
    ensures ret <= 0 && (receiver.refused ==> ret == -ENOSPC && !receiver.accepts(receiver.got))
    ensures ret < 0 ==> Fault(input, d, z) || receiver.refused
  {
    hide Going, Finished, Fault, Out, Todo, Input.Valid, Lighter;
    while true
      invariant Going(input, d, z) && !receiver.refused && receiver.got == if skip then [] else Out(input, d, z)
      decreases Todo(input, d, z).work.n, !Todo(input, d, z).work.eof, Todo(input, d, z).work.out,
          Todo(input, d, z).avail, Todo(input, d, z).held
    {
      ghost var before := Todo(input, d, z);
      var buffer;
      ret, buffer := Step(input, d, z, BUFF_SIZE);
      if ret == -EAGAIN {
        LighterDown(Todo(input, d, z), before);
        continue;
      }
      if ret < 0 {
        return;
      }
      if ret == 0 {
        break;
      }
      LighterDown(Todo(input, d, z), before);
      if skip {
        continue;
      }
      var ok := receiver.Write(buffer);
      if !ok {
        return -ENOSPC;
      }
    }
  }

  lemma LighterDown(a: Load, b: Load)
    requires Lighter(a, b)
    ensures a.work.n < b.work.n ||
            (a.work.n == b.work.n &&
             ((a.work.eof && !b.work.eof) ||
              (a.work.eof == b.work.eof &&
               (a.work.out < b.work.out ||
                (a.work.out == b.work.out && (a.avail < b.avail || (a.avail == b.avail && a.held < b.held)))))))
  {
  }

  /** After n bytes from offset base on, the descriptor stands behind the padding. */
  predicate PaddingSkipped(start: seq<byte>, n: nat, base: nat, rest: seq<byte>, offset: nat) {
    && n <= |start|
    && var k := Min(NPad(base + n), |start| - n);
       rest == start[n + k..] && offset == base + n + k
  }

  /** As much of the padding was read as could be. */
  predicate PaddingTried(start: seq<byte>, n: nat, base: nat, rest: seq<byte>, offset: nat) {
    base + n <= offset <= base + n + NPad(base + n) && offset - base <= |start| && rest == start[offset - base..]
  }

  /** Reads the padding after an entry; that it cannot be read is ignored. */
  method SkipPadding(input: Input)
    requires input.Valid() && !input.memory
    modifies input`offset, input.fd
    ensures PaddingTried(input.start, |input.pulled|, input.base, input.fd.rest, input.offset)
    ensures input.fd.reliable ==> PaddingSkipped(input.start, |input.pulled|, input.base, input.fd.rest, input.offset)
  {
    var ret, buf, off, sum := FillBuffer(input.fd, NPad(input.offset), input.offset, 0, null);
    input.offset := off;
    assert input.start == (input.pulled + buf) + input.fd.rest;
    assert input.fd.rest == input.start[|input.pulled| + |buf|..];
  }

  /** The whole of copyfile.  The hash must match what was pulled, and the checksum
      handed back is that of what was pulled, without the padding. */
  method Copy(input: Input, d: Decryption?, z: Decompression?, receiver: Receiver, skip: bool,
              hash: Option<seq<byte> -> bool>)
    returns (ret: int, checksum: nat)
    requires Going(input, d, z) && Out(input, d, z) == [] && receiver.got == [] && !receiver.refused
    requires hash.Some? ==> input.dgst != null
    modifies input, input.fd, input.dgst, d, z, receiver
    ensures ret == 0 ==> Finished(input, d, z) && receiver.got == if skip then [] else Out(input, d, z)
    ensures ret == 0 ==> checksum == if input.memory then 0 else Checked(0, input.pulled)
    ensures ret == 0 && hash.Some? ==> hash.value(input.pulled)
    ensures ret == 0 && !input.memory && input.fd.reliable ==>
      PaddingSkipped(input.start, |input.pulled|, input.base, input.fd.rest, input.offset)
    ensures ret == 0 && !input.memory ==>
            PaddingTried(input.start, |input.pulled|, input.base, input.fd.rest, input.offset)
    ensures ret <= 0 && (receiver.refused ==> ret == -ENOSPC && !receiver.accepts(receiver.got))
    ensures ret < 0 ==>
      Fault(input, d, z) || receiver.refused ||
      (hash.Some? && !hash.value(input.pulled) && Finished(input, d, z))
  {
    hide Going, Finished, Fault, Out, PaddingSkipped, PaddingTried, Checked;
    checksum := 0;
    ret := Drain(input, d, z, receiver, skip);
    if ret < 0 {
      return;
    }
    if hash.Some? && !hash.value(input.dgst.seen) {
      ret := -EFAULT;
      return;
    }
    checksum := input.checksum;
    if !input.memory {
      SkipPadding(input);
    }
  }
}
