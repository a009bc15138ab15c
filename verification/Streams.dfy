/** Reading from a descriptor: short reads, interruptions, failures, end of file. */
module Streams {
  import opened Bytes

  const EIO := 5
  const EAGAIN := 11
  const EFAULT := 14
  const EINVAL := 22
  const ENOSPC := 28

  const WORD := 0x1_0000_0000

  datatype Reply = Data(bytes: seq<byte>) | Interrupted | Failed

  /** What a read may answer: at least one byte unless none is asked for or left. */
  predicate ReadOk(before: seq<byte>, n: nat, bytes: seq<byte>, after: seq<byte>) {
    before == bytes + after && |bytes| <= n && (bytes == [] ==> n == 0 || before == [])
  }

  /** A descriptor open for reading.  A reliable one never fails; any one is
      interrupted only so many more times. */
  class Stream {
    var rest: seq<byte>
    var signals: nat
    const reliable: bool

    constructor (content: seq<byte>, signals: nat, reliable: bool)
      ensures rest == content && this.signals == signals && this.reliable == reliable
    {
      rest, this.signals, this.reliable := content, signals, reliable;
    }

    method Read(n: nat) returns (r: Reply)
      modifies this
      ensures r.Data? ==> ReadOk(old(rest), n, r.bytes, rest) && signals == old(signals)
      ensures r.Interrupted? ==> rest == old(rest) && signals < old(signals)
      ensures r.Failed? ==> rest == old(rest) && signals == old(signals) && !reliable
    {
      if
      case signals > 0 =>
        signals := signals - 1;
        r := Interrupted;
      case !reliable =>
        r := Failed;
      case true =>
        var most := Min(n, |rest|);
        var k :| 0 <= k <= most && (k == 0 ==> most == 0);
        r := Data(rest[..k]);
        rest := rest[k..];
    }
  }

  /** A hash in progress: the bytes it has been given. */
  class Digest {
    var seen: seq<byte>
    const reliable: bool

    constructor (reliable: bool)
      ensures seen == [] && this.reliable == reliable
    {
      seen, this.reliable := [], reliable;
    }

    method Update(bytes: seq<byte>) returns (ok: bool)
      modifies this
      ensures ok ==> seen == old(seen) + bytes
      ensures reliable ==> ok
    {
      if {
        case true => seen, ok := seen + bytes, true;
        case !reliable => ok := false;
      }
    }
  }

  function Sum(s: seq<byte>): nat {
    if s == [] then 0 else Sum(s[..|s| - 1]) + s[|s| - 1]
  }

  lemma {:induction false} SumAppend(a: seq<byte>, b: seq<byte>)
    ensures Sum(a + b) == Sum(a) + Sum(b)
    decreases |b|
  {
    if b == [] {
      assert a + b == a;
    } else {
      SumAppend(a, b[..|b| - 1]);
      assert (a + b)[..|a + b| - 1] == a + b[..|b| - 1];
    }
  }

  function Checked(sum: nat, s: seq<byte>): nat { (sum + Sum(s)) % WORD }

  lemma CheckedAppend(sum: nat, a: seq<byte>, b: seq<byte>)
    ensures Checked(Checked(sum, a), b) == Checked(sum, a + b)
  {
    SumAppend(a, b);
    Wrap(sum + Sum(a), Sum(b));
  }

  lemma Wrap(x: nat, y: nat)
    ensures (x % WORD + y) % WORD == (x + y) % WORD
  {
  }

  /** The running checksum over one read, in 32-bit arithmetic. */
  method AddBytes(sum: nat, bytes: seq<byte>) returns (r: nat)
    requires sum < WORD
    ensures r == Checked(sum, bytes)
  {
    r := sum;
    for i := 0 to |bytes|
      invariant r == Checked(sum, bytes[..i])
    {
      CheckedAppend(sum, bytes[..i], [bytes[i]]);
      assert bytes[..i] + [bytes[i]] == bytes[..i + 1];
      assert Sum([bytes[i]]) == bytes[i];
      r := (r + bytes[i]) % WORD;
    }
    assert bytes[..|bytes|] == bytes;
  }

  /** How far a fill got: everything asked for, or all there was. */
  predicate Filled(before: seq<byte>, n: nat, buf: seq<byte>, after: seq<byte>) {
    before == buf + after && |buf| <= n && (|buf| < n ==> after == [])
  }

  /** Filling a buffer over any number of short or interrupted reads.  The offset,
      the checksum and the hash follow every byte taken from the descriptor. */
  method FillBuffer(fd: Stream, n: nat, offset: nat, sum: nat, dgst: Digest?)
    returns (ret: int, buf: seq<byte>, offset': nat, sum': nat)
    requires sum < WORD
    modifies fd, dgst
    ensures ret >= 0 ==> ret == |buf| && Filled(old(fd.rest), n, buf, fd.rest)
    ensures ret >= 0 ==> offset' == offset + |buf| && sum' == Checked(sum, buf)
    ensures ret >= 0 && dgst != null ==> dgst.seen == old(dgst.seen) + buf
    ensures ret < 0 ==> ret == -EFAULT && !(fd.reliable && (dgst != null ==> dgst.reliable))
    ensures ret < 0 && dgst == null ==> old(fd.rest) == buf + fd.rest && |buf| < n && offset' == offset + |buf|
    ensures fd.signals <= old(fd.signals)
  {
    ret, buf, offset', sum' := 0, [], offset, sum;
    assert sum == Checked(sum, []);
    while |buf| < n
      invariant |buf| <= n && old(fd.rest) == buf + fd.rest
      invariant offset' == offset + |buf| && sum' == Checked(sum, buf)
      invariant dgst != null ==> dgst.seen == old(dgst.seen) + buf
      invariant fd.signals <= old(fd.signals)
      decreases n - |buf|, fd.signals
    {
      var r := fd.Read(n - |buf|);
      if r.Interrupted? {
        continue;
      }
      if r.Failed? {
        return -EFAULT, buf, offset', sum';
      }
      if r.bytes == [] {
        return |buf|, buf, offset', sum';
      }
      CheckedAppend(sum, buf, r.bytes);
      sum' := AddBytes(sum', r.bytes);
      if dgst != null {
        var ok := dgst.Update(r.bytes);
        if !ok {
          return -EFAULT, buf, offset', sum';
        }
      }
      assert old(fd.rest) == (buf + r.bytes) + fd.rest;
      buf := buf + r.bytes;
      offset' := offset' + |r.bytes|;
    }
    ret := |buf|;
  }
}
