/** The pull pipeline behind copyfile: input, decryption, decompression. */
module Pipeline {
  import opened Bytes
  import opened Streams
  import opened PipelineSpec

  // ----- The input step -----

  /** All that a run may pull: as much as announced, or as there is. */
  ghost function Offered(start: seq<byte>, total: nat): seq<byte> { start[..Min(total, |start|)] }

  class Input {
    const fd: Stream
    const memory: bool
    const inbuf: seq<byte>
    const dgst: Digest?
    const total: nat
    ghost const start: seq<byte>
    ghost const base: nat
    var pos: nat
    var nbytes: nat
    var offset: nat
    var checksum: nat
    ghost var pulled: seq<byte>

    constructor FromDescriptor(fd: Stream, n: nat, offset: nat, dgst: Digest?)
      requires dgst != null ==> dgst.seen == []
      ensures Valid() && this.fd == fd && !memory && this.dgst == dgst && total == n
      ensures start == fd.rest && this.offset == offset == base && pulled == []
    {
      this.fd, memory, inbuf, this.dgst, total, start := fd, false, [], dgst, n, fd.rest;
      base := offset;
      pos, nbytes, this.offset, checksum, pulled := 0, n, offset, 0, [];
    }

    constructor FromMemory(fd: Stream, inbuf: seq<byte>, n: nat, offset: nat, dgst: Digest?)
      requires n <= |inbuf|
      requires dgst != null ==> dgst.seen == []
      ensures Valid() && this.fd == fd && memory && this.inbuf == inbuf && this.dgst == dgst && total == n
      ensures start == inbuf && this.offset == offset == base && pulled == []
    {
      this.fd, memory, this.inbuf, this.dgst, total, start := fd, true, inbuf, dgst, n, inbuf;
      base := offset;
      pos, nbytes, this.offset, checksum, pulled := 0, n, offset, 0, [];
    }

    /** Everything pulled came off the front of the input and is counted once: in
        the bytes left to pull, in the hash and, from a descriptor, in the checksum. */
    ghost predicate Valid()
      reads this, fd, dgst
    {
      && nbytes + |pulled| == total
      && checksum == (if memory then 0 else Checked(0, pulled))
      && (dgst != null ==> dgst.seen == pulled)
      && start == pulled + Left()
      && offset == (if memory then base else base + |pulled|)
      && (memory ==> start == inbuf && pos == |pulled| && total <= |inbuf|)
    }

    ghost function Left(): seq<byte>
      reads this, fd
    {
      if memory then (if pos <= |inbuf| then inbuf[pos..] else []) else fd.rest
    }

    ghost predicate AtEnd()
      reads this, fd
    {
      nbytes == 0 || Left() == []
    }

    ghost predicate Reliable() {
      fd.reliable && (dgst != null ==> dgst.reliable)
    }

    lemma EndMeansAll()
      requires Valid()
      ensures pulled <= Offered(start, total)
      ensures AtEnd() <==> pulled == Offered(start, total)
      ensures AtEnd() <==> |pulled| == |Offered(start, total)|
    {
    }

    method FillFromDescriptor(size: nat) returns (ret: int, buffer: seq<byte>)
      requires Valid() && !memory && size <= nbytes
      modifies this, fd, dgst
      ensures ret >= 0 ==> Valid() && ret == |buffer| <= size && pulled == old(pulled) + buffer
      ensures ret >= 0 && ret < size ==> fd.rest == []
      ensures ret < 0 ==> ret == -EFAULT && !Reliable()
    {
      var off, sum;
      CheckedAppend(0, pulled, []);
      ret, buffer, off, sum := FillBuffer(fd, size, offset, checksum, dgst);
      if ret < 0 {
        return;
      }
      offset, checksum, nbytes := off, sum, nbytes - |buffer|;
      CheckedAppend(0, pulled, buffer);
      pulled := pulled + buffer;
    }

    method CopyFromMemory(size: nat) returns (ret: int, buffer: seq<byte>)
      requires Valid() && memory && size <= nbytes
      modifies this, dgst
      ensures ret >= 0 ==> Valid() && ret == |buffer| == size && pulled == old(pulled) + buffer
      ensures ret < 0 ==> ret == -EFAULT && !Reliable()
    {
      buffer := inbuf[pos..pos + size];
      if dgst != null {
        var ok := dgst.Update(buffer);
        if !ok {
          return -EFAULT, [];
        }
      }
      ret := size;
      pos, nbytes := pos + size, nbytes - size;
      pulled := pulled + buffer;
    }

    method Step(size: nat) returns (ret: int, buffer: seq<byte>)
      requires Valid() && size > 0
      modifies this, fd, dgst
      ensures ret >= 0 ==> Valid() && ret == |buffer| <= size && pulled == old(pulled) + buffer
      ensures ret >= 0 ==> (ret < size ==> AtEnd()) && nbytes == old(nbytes) - ret
      ensures ret < 0 ==> ret == -EFAULT && !Reliable()
    {
      var most := if size >= nbytes then nbytes else size;
      if memory {
        ret, buffer := CopyFromMemory(most);
      } else {
        ret, buffer := FillFromDescriptor(most);
      }
    }
  }

  // ----- The decryption step -----

  /** The order in which the steps above the decompressor use up their work. */
  predicate Earlier(n: nat, eof: bool, out: nat, n': nat, eof': bool, out': nat) {
    n < n' || (n == n' && ((eof && !eof') || (eof == eof' && out < out')))
  }

  class Decryption {
    const cipher: Cipher
    var chunks: seq<seq<byte>>
    var output: seq<byte>
    var eof: bool
    ghost var plain: seq<byte>

    constructor (cipher: Cipher)
      ensures this.cipher == cipher && chunks == [] && output == [] && !eof && plain == []
    {
      this.cipher, chunks, output, eof, plain := cipher, [], [], false, [];
    }

    ghost predicate Valid(pulled: seq<byte>, all: seq<byte>)
      reads this
    {
      Deciphering(cipher, chunks, eof, output, plain, pulled, all)
    }

    /** Hands on what fits of the pending output and moves the rest down. */
    method Serve(size: nat, ghost pulled: seq<byte>, ghost all: seq<byte>) returns (ret: int, buffer: seq<byte>)
      requires Valid(pulled, all) && size > 0 && output != []
      modifies this
      ensures Valid(pulled, all) && eof == old(eof) && chunks == old(chunks)
      ensures 0 < ret == |buffer| <= size && plain == old(plain) + buffer && |output| == old(|output|) - ret
    {
      var k := if size > |output| then |output| else size;
      DecipherServe(cipher, chunks, eof, output, plain, pulled, all, k);
      buffer, ret := output[..k], k;
      plain := plain + buffer;
      output := output[k..];
    }

    /** Decrypts one piece; nothing was pending. */
    method Absorb(piece: seq<byte>, ghost pulled: seq<byte>, ghost all: seq<byte>) returns (ret: int)
      requires Valid(pulled, all) && output == [] && !eof && !Silent(cipher, chunks)
      requires 0 < |piece| <= BUFF_SIZE && pulled + piece <= all
      requires |piece| < BUFF_SIZE ==> pulled + piece == all
      modifies this
      ensures chunks == old(chunks) + [piece] && plain == old(plain) && !eof
      ensures ret >= 0 ==> ret == 0 && cipher.update(chunks) == Plain(output) && Valid(pulled + piece, all)
      ensures ret == -EAGAIN ==> cipher.update(chunks).Again? && output == [] && Valid(pulled + piece, all)
      ensures ret < 0 && ret != -EAGAIN ==> Rejected(cipher, chunks, all)
    {
      DecipherMore(cipher, chunks, plain, pulled, piece, all);
      chunks := chunks + [piece];
      match cipher.update(chunks)
      case Plain(bytes) => output, ret := bytes, 0;
      case Again => ret := -EAGAIN;
      case Refused(code) => ret := 0 - code as int;
    }

    /** Finalises once the input is at its end. */
    method Finish(ghost all: seq<byte>) returns (ret: int)
      requires Valid(all, all) && output == [] && !eof && !Silent(cipher, chunks)
      modifies this
      ensures chunks == old(chunks) && plain == old(plain)
      ensures ret >= 0 ==> ret == 0 && eof && Valid(all, all)
      ensures ret < 0 ==> ret != -EAGAIN && Rejected(cipher, chunks, all)
    {
      Settled(cipher, chunks, plain, all, all);
      match cipher.final(chunks)
      case Done(bytes) => output, eof, ret := bytes, true, 0;
      case Denied(code) => ret := 0 - code as int;
    }

    /** One buffer from upstream; an empty one means the input is at its end. */
    method Take(piece: seq<byte>, ghost pulled: seq<byte>, ghost all: seq<byte>) returns (ret: int)
      requires Valid(pulled, all) && output == [] && !Silent(cipher, chunks)
      requires |piece| <= BUFF_SIZE && pulled + piece <= all
      requires |piece| < BUFF_SIZE ==> pulled + piece == all
      requires eof ==> piece == []
      modifies this
      ensures ret >= 0 || ret == -EAGAIN ==> Valid(pulled + piece, all)
      ensures ret >= 0 || ret == -EAGAIN ==> plain == old(plain)
      ensures ret >= 0 && output == [] ==> eof || Silent(cipher, chunks)
      ensures ret >= 0 && output != [] ==> !Silent(cipher, chunks) && (piece == [] ==> eof && !old(eof))
      ensures ret == -EAGAIN ==> !Silent(cipher, chunks) && piece != []
      ensures ret < 0 && ret != -EAGAIN ==> Rejected(cipher, chunks, all)
    {
      hide Deciphering, Rejected;
      ret := 0;
      assert piece == [] ==> pulled + piece == pulled;
      if !eof {
        if piece != [] {
          ret := Absorb(piece, pulled, all);
        } else {
          ret := Finish(all);
        }
      }
    }
  }

  /** Pulls one buffer of ciphertext and decrypts it, or finalises at the end. */
  method Refill(input: Input, d: Decryption) returns (ret: int)
    requires input.Valid() && d.Valid(input.pulled, Offered(input.start, input.total))
    requires d.output == [] && !Silent(d.cipher, d.chunks)
    modifies input, input.fd, input.dgst, d
    ensures ret >= 0 || ret == -EAGAIN ==> input.Valid() && d.Valid(input.pulled, Offered(input.start, input.total))
    ensures ret >= 0 || ret == -EAGAIN ==> d.plain == old(d.plain)
    ensures ret >= 0 && d.output == [] ==> d.eof || Silent(d.cipher, d.chunks)
    ensures ret >= 0 && d.output != [] ==>
            !Silent(d.cipher, d.chunks) &&
            (input.nbytes < old(input.nbytes) || (input.nbytes == old(input.nbytes) && d.eof && !old(d.eof)))
    ensures ret == -EAGAIN ==> !Silent(d.cipher, d.chunks) && input.nbytes < old(input.nbytes)
    ensures ret < 0 && ret != -EAGAIN ==>
      !input.Reliable() || Rejected(d.cipher, d.chunks, Offered(input.start, input.total))
  {
    ghost var all, before := Offered(input.start, input.total), input.pulled;
    assert d.eof ==> before == all;
    input.EndMeansAll();
    hide Deciphering, Rejected, Input.Valid, Input.Left, Offered;
    var piece;
    ret, piece := input.Step(BUFF_SIZE);
    if ret < 0 {
      return;
    }
    input.EndMeansAll();
    assert before + piece == input.pulled;
    ret := d.Take(piece, before, all);
  }

  method DecryptStep(input: Input, d: Decryption, size: nat) returns (ret: int, buffer: seq<byte>)
    requires input.Valid() && d.Valid(input.pulled, Offered(input.start, input.total))
    requires size > 0 && !Silent(d.cipher, d.chunks)
    modifies input, input.fd, input.dgst, d
    ensures ret >= 0 || ret == -EAGAIN ==> input.Valid() && d.Valid(input.pulled, Offered(input.start, input.total))
    ensures ret > 0 ==> ret == |buffer| <= size && d.plain == old(d.plain) + buffer
    ensures ret == 0 || ret == -EAGAIN ==> d.plain == old(d.plain)
    ensures ret == 0 ==> d.output == [] && (d.eof || Silent(d.cipher, d.chunks))
    ensures ret > 0 || ret == -EAGAIN ==> !Silent(d.cipher, d.chunks)
    ensures ret > 0 || ret == -EAGAIN ==>
      Earlier(input.nbytes, d.eof, |d.output|, old(input.nbytes), old(d.eof), old(|d.output|))
    ensures ret < 0 && ret != -EAGAIN ==>
      !input.Reliable() || Rejected(d.cipher, d.chunks, Offered(input.start, input.total))
  {
    hide Deciphering, Rejected, Input.Valid, Input.Left, Offered;
    if d.output == [] {
      ret := Refill(input, d);
      if ret < 0 {
        return ret, [];
      }
    }
    if d.output != [] {
      ret, buffer := d.Serve(size, input.pulled, Offered(input.start, input.total));
      return;
    }
    ret, buffer := 0, [];
  }

  // ----- What the decompressor pulls from: the input, or the decryption of it -----

  ghost function Up(input: Input, d: Decryption?): seq<byte>
    reads input`pulled, d
  {
    if d == null then input.pulled else d.plain
  }

  ghost predicate UpValid(input: Input, d: Decryption?)
    reads input, input.fd, input.dgst, d
  {
    input.Valid() && (d != null ==> d.Valid(input.pulled, Offered(input.start, input.total)))
  }

  lemma Consistent(input: Input, d: Decryption?)
    requires UpValid(input, d)
    ensures input.pulled <= Offered(input.start, input.total)
    ensures d != null ==> d.Valid(input.pulled, Offered(input.start, input.total))
  {
    input.EndMeansAll();
  }

  /** The upstream step has not answered zero yet on a silent update. */
  ghost predicate Open(d: Decryption?)
    reads d
  {
    d != null ==> !Silent(d.cipher, d.chunks)
  }

  ghost predicate UpDone(input: Input, d: Decryption?)
    reads input, input.fd, d
  {
    if d == null then input.AtEnd() else d.output == [] && (d.eof || Silent(d.cipher, d.chunks))
  }

  ghost predicate UpFault(input: Input, d: Decryption?)
    reads d
  {
    !input.Reliable() || (d != null && Rejected(d.cipher, d.chunks, Offered(input.start, input.total)))
  }

  /** The work left upstream. */
  datatype Work = Work(n: nat, eof: bool, out: nat)

  function UpWork(input: Input, d: Decryption?): Work
    reads input, d
  {
    Work(input.nbytes, d == null || d.eof, if d == null then 0 else |d.output|)
  }

  predicate Less(a: Work, b: Work) { Earlier(a.n, a.eof, a.out, b.n, b.eof, b.out) }

  method UpstreamStep(input: Input, d: Decryption?, size: nat) returns (ret: int, buffer: seq<byte>)
    requires UpValid(input, d) && Open(d) && size > 0
    modifies input, input.fd, input.dgst, d
    ensures ret >= 0 || ret == -EAGAIN ==> UpValid(input, d)
    ensures ret >= 0 ==> ret == |buffer| <= size && Up(input, d) == old(Up(input, d)) + buffer
    ensures ret == -EAGAIN ==> Up(input, d) == old(Up(input, d))
    ensures ret == 0 ==> UpDone(input, d)
    ensures ret > 0 || ret == -EAGAIN ==> Open(d) && Less(UpWork(input, d), old(UpWork(input, d)))
    ensures ret < 0 && ret != -EAGAIN ==> UpFault(input, d)
  {
    hide Deciphering, Rejected, Input.Valid, Input.Left, Offered;
    if d == null {
      ret, buffer := input.Step(size);
    } else {
      ret, buffer := DecryptStep(input, d, size);
      if ret == 0 {
        buffer := [];
      }
    }
  }

  // ----- The decompression step -----

  datatype Code = Ok | End | Bad

  class Decompression {
    const codec: Inflater
    var fed: seq<byte>
    var given: nat
    var availIn: seq<byte>
    var eof: bool

    constructor (codec: Inflater)
      requires Sane(codec)
      ensures this.codec == codec && fed == [] && given == 0 && availIn == [] && !eof
      ensures Valid([])
    {
      this.codec, fed, given, availIn, eof := codec, [], 0, [], false;
    }

    ghost predicate Valid(up: seq<byte>)
      reads this
    {
      Inflating(codec, fed, given, availIn, eof, up)
    }

    /** What the decompressor has given out. */
    ghost function Given(): seq<byte>
      reads this
    {
      Prefix(codec.expand(fed), given)
    }

    ghost function Held(): nat
      reads this
    {
      if given <= |codec.expand(fed)| then |codec.expand(fed)| - given else 0
    }

    ghost predicate Ended()
      reads this
    {
      codec.ends(fed)
    }

    /** One call of the decompressor. */
    method Inflate(size: nat, ghost up: seq<byte>) returns (code: Code, buffer: seq<byte>)
      requires Valid(up) && !eof && availIn != [] && size > 0
      modifies this
      ensures Valid(up) && |buffer| <= size && Given() == old(Given()) + buffer
      ensures code.Bad? <==> codec.damaged(fed)
      ensures code.End? ==> Ended()
      ensures eof <==> Ended()
      ensures |availIn| < old(|availIn|) || (availIn == old(availIn) && buffer != [] && Held() < old(Held()))
    {
      ghost var c0, p0 := PaceExists(codec, fed, given, availIn, size);
      var c: nat, p: nat :| c <= |availIn| && p <= size && Pace(codec, fed, given, availIn, size, c, p);
      InflateMore(codec, fed, given, availIn, up, size, c, p);
      assert (c > 0 || p > 0) && given <= |codec.expand(fed)|;
      hide Sane, Pace, Inflating, Prefix;
      var now := fed + availIn[..c];
      buffer := codec.expand(now)[given..given + p];
      fed, availIn, given, eof := now, availIn[c..], given + p, codec.ends(now);
      code := if codec.damaged(fed) then Bad else if codec.ends(fed) then End else Ok;
    }

    /** The next buffer from upstream; an empty one means there is no more. */
    method Receive(piece: seq<byte>, ghost up: seq<byte>)
      requires Valid(up) && availIn == []
      modifies this
      ensures Valid(up + piece) && availIn == piece && eof == (old(eof) || piece == [])
      ensures fed == old(fed) && given == old(given)
    {
      assert fed == up;
      availIn := piece;
      if piece == [] {
        eof := true;
      }
    }
  }

  /** The three steps together are consistent and may be asked for more. */
  ghost predicate Ready(input: Input, d: Decryption?, z: Decompression)
    reads input, input.fd, input.dgst, d, z
  {
    UpValid(input, d) && Open(d) && z.Valid(Up(input, d)) && !z.codec.damaged(z.fed) && (z.eof ==> z.Ended())
  }

  /** Zero is answered only at the end of the stream, or of what upstream gives. */
  ghost predicate Drained(input: Input, d: Decryption?, z: Decompression)
    reads input, input.fd, input.dgst, d, z
  {
    && UpValid(input, d) && z.Valid(Up(input, d)) && !z.codec.damaged(z.fed) && z.eof
    && (z.Ended() || (z.availIn == [] && UpDone(input, d)))
  }

  /** The decompressor found its input damaged. */
  ghost predicate Spoiled(input: Input, d: Decryption?, z: Decompression)
    reads input`pulled, d, z
  {
    && input.pulled <= Offered(input.start, input.total)
    && (d != null ==> d.Valid(input.pulled, Offered(input.start, input.total)))
    && z.Valid(Up(input, d)) && z.codec.damaged(z.fed)
  }

  /** Makes sure there is input, or notes that there is none. */
  method Supply(input: Input, d: Decryption?, z: Decompression) returns (ret: int)
    requires Ready(input, d, z)
    modifies input, input.fd, input.dgst, d, z
    ensures z.fed == old(z.fed) && z.given == old(z.given) && z.Given() == old(z.Given()) && z.Held() == old(z.Held())
    ensures ret >= 0 && z.eof ==> Drained(input, d, z)
    ensures ret >= 0 && !z.eof ==> Ready(input, d, z) && z.availIn != []
    ensures ret >= 0 && !z.eof ==>
            Less(UpWork(input, d), old(UpWork(input, d))) ||
            (UpWork(input, d) == old(UpWork(input, d)) && z.availIn == old(z.availIn))
    ensures ret == -EAGAIN ==> Ready(input, d, z) && Less(UpWork(input, d), old(UpWork(input, d)))
    ensures ret < 0 && ret != -EAGAIN ==> UpFault(input, d)
  {
    hide Deciphering, Rejected, Input.Valid, Input.Left, Offered, Inflating, UpValid, UpDone, UpWork, Less;
    ret := 0;
    if z.availIn == [] {
      var piece;
      ghost var up := Up(input, d);
      ret, piece := UpstreamStep(input, d, BUFF_SIZE);
      if ret < 0 {
        return;
      }
      z.Receive(piece, up);
    }
  }

  /** What is left to do, down to the last pending byte. */
  datatype Load = Load(work: Work, avail: nat, held: nat)

  ghost function LoadOf(input: Input, d: Decryption?, z: Decompression): Load
    reads input, d, z
  {
    Load(UpWork(input, d), |z.availIn|, z.Held())
  }

  predicate Lighter(a: Load, b: Load) {
    Less(a.work, b.work) || (a.work == b.work && (a.avail < b.avail || (a.avail == b.avail && a.held < b.held)))
  }

  lemma LighterTransitive(a: Load, b: Load, c: Load)
    requires Lighter(a, b) && Lighter(b, c)
    ensures Lighter(a, c)
  {
  }

  /** One turn of the decompression loop; stop says that the step answers now. */
  method Turn(input: Input, d: Decryption?, z: Decompression, size: nat)
    returns (stop: bool, ret: int, buffer: seq<byte>)
    requires Ready(input, d, z) && size > 0
    modifies input, input.fd, input.dgst, d, z
    ensures ret >= 0 ==> ret == |buffer| <= size && z.Given() == old(z.Given()) + buffer
    ensures ret == -EAGAIN ==> z.Given() == old(z.Given())
    ensures !stop || ret > 0 || ret == -EAGAIN ==>
            Ready(input, d, z) && Lighter(LoadOf(input, d, z), old(LoadOf(input, d, z)))
    ensures !stop ==>
            ret >= 0 &&
            (ret == 0 ==>
               Less(UpWork(input, d), old(UpWork(input, d))) ||
               (UpWork(input, d) == old(UpWork(input, d)) && |z.availIn| < old(|z.availIn|)))
    ensures stop && ret == 0 ==> Drained(input, d, z)
    ensures ret < 0 && ret != -EAGAIN ==> UpFault(input, d) || Spoiled(input, d, z)
  {
    hide Deciphering, Rejected, Input.Valid, Input.Left, Offered, Inflating, UpValid, UpDone, UpWork, Less,
         Decompression.Given;
    ret := Supply(input, d, z);
    if ret < 0 {
      return true, ret, [];
    }
    if z.eof {
      return true, 0, [];
    }
    var code;
    code, buffer := z.Inflate(size, Up(input, d));
    if code.Bad? {
      Consistent(input, d);
      return true, -1, [];
    }
    stop, ret := code.End?, |buffer|;
  }

  method GunzipStep(input: Input, d: Decryption?, z: Decompression, size: nat) returns (ret: int, buffer: seq<byte>)
    requires Ready(input, d, z) && size > 0
    modifies input, input.fd, input.dgst, d, z
    ensures ret >= 0 ==> ret == |buffer| <= size && z.Given() == old(z.Given()) + buffer
    ensures ret == -EAGAIN ==> z.Given() == old(z.Given())
    ensures ret == 0 ==> Drained(input, d, z)
    ensures ret > 0 || ret == -EAGAIN ==> Ready(input, d, z) && Lighter(LoadOf(input, d, z), old(LoadOf(input, d, z)))
    ensures ret < 0 && ret != -EAGAIN ==> UpFault(input, d) || Spoiled(input, d, z)
  {
    hide Ready, UpWork, Drained, UpFault, Spoiled, Decompression.Given, LoadOf;
    var stop;
    stop, ret, buffer := Turn(input, d, z, size);
    while !stop && buffer == []
      invariant !stop || ret > 0 || ret == -EAGAIN ==>
                Ready(input, d, z) && Lighter(LoadOf(input, d, z), old(LoadOf(input, d, z)))
      invariant ret >= 0 ==> ret == |buffer| <= size && z.Given() == old(z.Given()) + buffer
      invariant ret == -EAGAIN ==> z.Given() == old(z.Given())
      invariant !stop ==> ret >= 0
      invariant stop && ret == 0 ==> Drained(input, d, z)
      invariant ret < 0 && ret != -EAGAIN ==> UpFault(input, d) || Spoiled(input, d, z)
      decreases !stop && buffer == [], UpWork(input, d).n, !UpWork(input, d).eof, UpWork(input, d).out, |z.availIn|
    {
      ghost var mid := LoadOf(input, d, z);
      stop, ret, buffer := Turn(input, d, z, size);
      if !stop || ret > 0 || ret == -EAGAIN {
        LighterTransitive(LoadOf(input, d, z), mid, old(LoadOf(input, d, z)));
      }
    }
  }
}
