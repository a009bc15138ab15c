/** Reading the headers of an archive. */
module Cpio {
  import opened Bytes
  import opened Streams
  import opened Hex
  import opened Copyfile
  import opened CpioSpec

  method GetCpioHdr(buf: seq<byte>) returns (ret: int, hdr: FileHdr)
    requires |buf| >= HEADER
    ensures ret == 0 <==> buf[..6] == MAGIC_NEW || buf[..6] == MAGIC_CRC
    ensures ret != 0 ==> ret == -EINVAL
    ensures ret == 0 ==> (hdr.format.New? <==> buf[..6] == MAGIC_NEW)
    ensures ret == 0 && AllDigits(buf[54..62]) ==> hdr.size == Value(buf[54..62])
    ensures ret == 0 && AllDigits(buf[94..102]) ==> hdr.namesize == Value(buf[94..102])
    ensures ret == 0 && AllDigits(buf[102..110]) ==> hdr.chksum == Value(buf[102..110])
  {
    hdr := FileHdr(New, 0, 0, 0, []);
    assert MAGIC_NEW[5] != MAGIC_CRC[5];
    if buf[..6] == MAGIC_NEW {
      hdr := hdr.(format := New);
    } else if buf[..6] == MAGIC_CRC {
      hdr := hdr.(format := Crc);
    } else {
      return -EINVAL, hdr;
    }
    var size, namesize, chksum;
    ghost var skip, n;
    size, skip, n := FromAscii(buf[54..], 8);
    namesize, skip, n := FromAscii(buf[94..], 8);
    chksum, skip, n := FromAscii(buf[102..], 8);
    assert buf[54..][..8] == buf[54..62] && buf[94..][..8] == buf[94..102] && buf[102..][..8] == buf[102..110];
    hdr := hdr.(size := size, namesize := namesize, chksum := chksum);
    ret := 0;
  }

  /** A buffer after a read: what came, then what was there before. */
  function Over(got: seq<byte>, stale: seq<byte>): (r: seq<byte>)
    ensures |r| >= |stale|
  {
    if |got| <= |stale| then got + stale[|got|..] else got
  }

  /** A read that finds the part it asks for gets that part. */
  method Fetch(fd: Stream, n: nat, offset: nat, ghost part: seq<byte>, ghost after: seq<byte>)
    returns (ret: int, got: seq<byte>, offset': nat)
    modifies fd
    ensures ret >= 0 ==> ret == |got| && Filled(old(fd.rest), n, got, fd.rest)
    ensures fd.signals <= old(fd.signals)
    ensures fd.reliable ==> ret >= 0
    ensures ret >= 0 && old(fd.rest) == part + after && |part| == n ==>
      ret == n && got == part && fd.rest == after && offset' == offset + n
  {
    var sum;
    ret, got, offset', sum := FillBuffer(fd, n, offset, 0, null);
    if ret >= 0 && old(fd.rest) == part + after && |part| == n {
      assert old(fd.rest)[..|got|] == got;
      assert |got| == n;
      assert old(fd.rest)[..n] == part && old(fd.rest)[n..] == after;
    }
  }

  /** Something was read, if there was anything. */
  predicate Onward(before: seq<byte>, after: seq<byte>) {
    |after| <= |before| && (before != [] ==> |after| < |before|)
  }

  /** Up to three bytes in front of an entry have not been read. */
  ghost predicate Astray(rest: seq<byte>, e: Entry, more: seq<byte>) {
    exists t: seq<byte> :: 1 <= |t| <= 3 && e.Ok() && rest == t + (e.Bytes() + more)
  }

  /** There is no header: the magic number never occurs shifted by up to three places. */
  lemma NoHeader(rest: seq<byte>, e: Entry, more: seq<byte>, got: seq<byte>, after: seq<byte>, stale: seq<byte>)
    requires Filled(rest, HEADER, got, after) && |stale| == MAX_FNAME
    ensures Astray(rest, e, more) ==> var buf := Over(got, stale); buf[..6] != MAGIC_NEW && buf[..6] != MAGIC_CRC
  {
    if t: seq<byte> :| 1 <= |t| <= 3 && e.Ok() && rest == t + (e.Bytes() + more) {
      MagicFirst(e, more);
      hide Entry.Ok, Entry.Bytes;
      Shifted(rest, t, e.Bytes() + more, got, after, stale);
    }
  }

  lemma Shifted(rest: seq<byte>, t: seq<byte>, s: seq<byte>, got: seq<byte>, after: seq<byte>, stale: seq<byte>)
    requires 1 <= |t| <= 3 && rest == t + s && |s| >= HEADER && s[0] == 48 && s[1] == 55 && s[2] == 48 && s[3] == 55
    requires Filled(rest, HEADER, got, after) && |stale| == MAX_FNAME
    ensures var buf := Over(got, stale); buf[..6] != MAGIC_NEW && buf[..6] != MAGIC_CRC
  {
    var buf, k := Over(got, stale), |t|;
    assert |got| == HEADER;
    var i := if k == 2 then 5 else k;
    assert buf[..6][i] == buf[i] == got[i] == rest[i] == s[i - k];
  }

  lemma MagicFirst(e: Entry, more: seq<byte>)
    requires e.Ok()
    ensures var s := e.Bytes() + more; |s| >= HEADER && s[0] == 48 && s[1] == 55 && s[2] == 48 && s[3] == 55
  {
    var s, h := e.Bytes() + more, e.header[..6];
    OkMeans(e);
    assert forall i :: 0 <= i < 6 ==> s[i] == e.header[i] == h[i];
  }

  /** The fixed part of the header. */
  method ReadHeader(fd: Stream, offset: nat, stale: seq<byte>, ghost e: Entry, ghost after: seq<byte>,
                    ghost more: seq<byte>)
    returns (ret: int, hdr: FileHdr, offset': nat, buf: seq<byte>)
    requires |stale| == MAX_FNAME
    modifies fd
    ensures ret <= 0
    ensures ret == 0 ==> hdr.namesize < MAX_FNAME && |buf| == MAX_FNAME && Onward(old(fd.rest), fd.rest)
    ensures e.Ok() && old(fd.rest) == e.header + after ==>
      && (fd.reliable ==> ret == 0)
      && (ret == 0 ==> fd.rest == after && offset' == offset + HEADER && hdr.(filename := e.name) == e.Hdr())
    ensures Astray(old(fd.rest), e, more) ==> ret < 0
  {
    hide Astray;
    var got;
    hdr, buf := FileHdr(New, 0, 0, 0, []), stale;
    ret, got, offset' := Fetch(fd, HEADER, offset, e.header, after);
    if ret < 0 {
      return -EINVAL, hdr, offset', buf;
    }
    buf := Over(got, stale);
    ret, hdr := GetCpioHdr(buf);
    HeaderFields(e, got, stale);
    NoHeader(old(fd.rest), e, more, got, fd.rest, stale);
    if ret < 0 {
      return;
    }
    if hdr.namesize >= MAX_FNAME {
      return -EINVAL, hdr, offset', buf;
    }
  }

  lemma HeaderFields(e: Entry, got: seq<byte>, stale: seq<byte>)
    requires |stale| == MAX_FNAME && |got| <= HEADER
    ensures e.Ok() && got == e.header ==>
      var buf := Over(got, stale);
      && buf[..6] == (if e.format.New? then MAGIC_NEW else MAGIC_CRC)
      && Spells(buf[54..62], |e.data|) && Spells(buf[94..102], |e.name| + 1) && Spells(buf[102..110], e.chksum)
      && |e.name| + 1 < MAX_FNAME
      && MAGIC_NEW != MAGIC_CRC
  {
    if e.Ok() && got == e.header {
      var buf := Over(got, stale);
      OkMeans(e);
      assert buf[..6] == got[..6] && buf[54..62] == got[54..62] && buf[94..102] == got[94..102] &&
             buf[102..110] == got[102..110];
      assert MAGIC_NEW[5] != MAGIC_CRC[5];
    }
  }

  /** The name, as a C string. */
  method ReadName(fd: Stream, n: nat, offset: nat, stale: seq<byte>, ghost name: seq<byte>, ghost after: seq<byte>)
    returns (ret: int, filename: seq<byte>, offset': nat)
    requires |stale| == MAX_FNAME && n < MAX_FNAME
    modifies fd
    ensures ret >= 0 ==> |fd.rest| <= old(|fd.rest|) && |filename| <= n && 0 !in filename
    ensures fd.reliable ==> ret >= 0
    ensures ret >= 0 && 0 !in name && old(fd.rest) == (name + [0]) + after && n == |name| + 1 ==>
      filename == name && fd.rest == after && offset' == offset + n
  {
    var got;
    ret, got, offset' := Fetch(fd, n, offset, name + [0], after);
    filename := [];
    if ret < 0 {
      return;
    }
    var buf := Over(got, stale)[n := 0];
    filename := CString(buf, 0);
    CStringEnds(buf, 0, n);
    if got == name + [0] && n == |name| + 1 && 0 !in name {
      assert buf == name + [0] + buf[n..];
      CStringOf(name, 0, buf[n..]);
    }
  }

  /** Reads a header, the name and the padding behind it.  From the start of a well
      formed entry, at an offset that is a multiple of four, it gets what was written
      and leaves the descriptor at the data, again on a multiple of four. */
  method ExtractCpioHeader(fd: Stream, offset: nat, stale: seq<byte>, ghost e: Entry, ghost more: seq<byte>)
    returns (ret: int, hdr: FileHdr, offset': nat)
    requires |stale| == MAX_FNAME
    modifies fd
    ensures ret <= 0
    ensures ret == 0 ==> hdr.namesize < MAX_FNAME && Onward(old(fd.rest), fd.rest)
    ensures e.Ok() && old(fd.rest) == e.Bytes() + more && offset % 4 == 0 ==>
      && (fd.reliable ==> ret == 0)
      && (ret == 0 ==> && hdr == e.Hdr() && fd.rest == e.data + e.tail + more
                       && offset' == offset + |e.Front()| && offset' % 4 == 0)
    ensures Astray(old(fd.rest), e, more) ==> ret < 0
  {
    ghost var data := e.data + e.tail + more;
    Layout(e, more, offset);
    hide Entry.Ok, Entry.Bytes, Entry.Front, Astray;
    var buf, got;
    ret, hdr, offset', buf := ReadHeader(fd, offset, stale, e, (e.name + [0]) + (e.pad + data), more);
    if ret < 0 {
      return;
    }
    var filename;
    ret, filename, offset' := ReadName(fd, hdr.namesize, offset', buf, e.name, e.pad + data);
    if ret < 0 {
      return -EINVAL, hdr, offset';
    }
    hdr := hdr.(filename := filename);
    ret, got, offset' := Fetch(fd, NPad(offset'), offset', e.pad, data);
    if ret < 0 {
      return -EINVAL, hdr, offset';
    }
    ret := 0;
  }

  lemma Layout(e: Entry, more: seq<byte>, offset: nat)
    ensures e.Bytes() + more == e.header + ((e.name + [0]) + (e.pad + (e.data + e.tail + more)))
    ensures e.Ok() ==> 0 !in e.name
    ensures e.Ok() && offset % 4 == 0 ==>
      |e.pad| == NPad(offset + HEADER + (|e.name| + 1)) && |e.Front()| == HEADER + (|e.name| + 1) + |e.pad| &&
      (offset + |e.Front()|) % 4 == 0
  {
    assert e.Bytes() + more == e.header + ((e.name + [0]) + (e.pad + (e.data + e.tail + more)));
    Aligned(offset, HEADER + (|e.name| + 1));
    if e.Ok() {
      OkMeans(e);
      hide NPad, Spells;
      assert |e.Front()| == HEADER + (|e.name| + 1) + |e.pad|;
    }
  }

  lemma Aligned(offset: nat, n: nat)
    ensures offset % 4 == 0 ==> NPad(offset + n) == NPad(n) && (offset + n + NPad(n)) % 4 == 0
  {
    if offset % 4 == 0 {
      var k := offset / 4;
      assert offset == 4 * k && (4 * k + n) % 4 == n % 4;
      assert (n + NPad(n)) % 4 == 0;
    }
  }
}
