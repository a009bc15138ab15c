/** Storing an incoming stream while looking at its description. */
module SaveStream {
  import opened Bytes
  import opened Streams
  import opened Copyfile
  import opened CpioSpec
  import opened Cpio
  import opened ExtractFiles

  const CHUNK: nat := 16384

  /** A file open for writing; a full device refuses. */
  class Sink {
    var content: seq<byte>
    const roomy: bool

    constructor (roomy: bool)
      ensures content == [] && this.roomy == roomy
    {
      content, this.roomy := [], roomy;
    }

    method Write(bytes: seq<byte>) returns (ok: bool)
      modifies this
      ensures ok ==> content == old(content) + bytes
      ensures roomy ==> ok
    {
      if {
        case true => content, ok := content + bytes, true;
        case !roomy => ok := false;
      }
    }
  }

  /** Nothing gets in the way: reads neither fail nor are interrupted. */
  ghost predicate Calm(fd: Stream)
    reads fd
  {
    fd.reliable && fd.signals == 0
  }

  /** Copies up to max bytes, or everything if max is zero.  An interrupted read
      counts as a failure here. */
  method CpFiles(fdin: Stream, out: Sink, max: nat) returns (ret: int)
    modifies fdin, out
    ensures ret == 0 || ret == -EIO
    ensures fdin.signals <= old(fdin.signals)
    ensures old(Calm(fdin)) && out.roomy ==> ret == 0
    ensures ret == 0 ==> exists got ::
      && old(fdin.rest) == got + fdin.rest && out.content == old(out.content) + got
      && (if max == 0 then fdin.rest == [] else |got| == Min(max, old(|fdin.rest|)))
  {
    var left := max;
    ghost var got := [];
    assert out.content == out.content + got && fdin.rest == got + fdin.rest;
    while true
      invariant old(fdin.rest) == got + fdin.rest && out.content == old(out.content) + got
      invariant max > 0 ==> left > 0 && left + |got| == max
      invariant fdin.signals <= old(fdin.signals)
      decreases |fdin.rest|
    {
      if max == 0 {
        left := 2 * CHUNK;
      }
      var r := fdin.Read(Min(CHUNK, left));
      if !r.Data? {
        return -EIO;
      }
      if r.bytes == [] {
        break;
      }
      var ok := out.Write(r.bytes);
      if !ok {
        return -EIO;
      }
      assert old(fdin.rest) == (got + r.bytes) + fdin.rest;
      got := got + r.bytes;
      left := left - |r.bytes|;
      if left == 0 {
        break;
      }
    }
    ret := 0;
  }

  /** Everything taken from the stream since before went to the file. */
  ghost predicate Moved(before: seq<byte>, rest: seq<byte>, content0: seq<byte>, content: seq<byte>) {
    exists got :: before == got + rest && content == content0 + got
  }

  lemma MovedOn(s0: seq<byte>, s1: seq<byte>, s2: seq<byte>, c0: seq<byte>, c1: seq<byte>, c2: seq<byte>)
    requires Moved(s0, s1, c0, c1) && Moved(s1, s2, c1, c2)
    ensures Moved(s0, s2, c0, c2)
  {
    var a :| s0 == a + s1 && c1 == c0 + a;
    var b :| s1 == b + s2 && c2 == c1 + b;
    assert s0 == (a + b) + s2 && c2 == c0 + (a + b);
  }

  /** The bytes of an entry behind its header, in 32-bit arithmetic. */
  function Remaining(namesize: nat, size: nat): nat {
    var name := (HEADER + namesize) % WORD;
    var data := (name + NPad(name) + size) % WORD;
    var all := (data + NPad(data)) % WORD;
    (all + (WORD - HEADER)) % WORD
  }

  lemma NoWrap(x: nat)
    requires x < WORD
    ensures x % WORD == x
    ensures x >= HEADER ==> (x + (WORD - HEADER)) % WORD == x - HEADER
  {
  }

  lemma EntryLength(e: Entry)
    requires e.Ok()
    ensures var name := HEADER + (|e.name| + 1);
      var data := name + NPad(name) + |e.data|;
      |e.Bytes()| == data + NPad(data)
  {
    var name := HEADER + (|e.name| + 1);
    OkMeans(e);
    assert |e.pad| == NPad(name) && |e.tail| == NPad(|e.data|);
    Aligned(0, name);
    Aligned(name + NPad(name), |e.data|);
    hide Entry.Ok, NPad;
  }

  lemma RemainingIs(e: Entry)
    requires e.Ok() && |e.Bytes()| < WORD
    ensures Remaining(|e.name| + 1, |e.data|) == |e.Bytes()| - HEADER > 0
  {
    hide Entry.Ok, Entry.Bytes, NPad;
    EntryLength(e);
    var name := HEADER + (|e.name| + 1);
    var data := name + NPad(name) + |e.data|;
    NoWrap(name);
    NoWrap(data);
    NoWrap(data + NPad(data));
  }

  lemma AllMoved(before: seq<byte>, rest: seq<byte>, content: seq<byte>)
    requires Moved(before, rest, [], content)
    ensures before == content + rest
  {
    var got :| before == got + rest && content == [] + got;
    assert content == got;
  }

  /** The magic number that is looked at is the one in the stream. */
  lemma MagicRead(rest: seq<byte>, got: seq<byte>, after: seq<byte>, stale: seq<byte>)
    requires Filled(rest, HEADER, got, after) && |stale| == MAX_FNAME
    ensures |rest| >= 110 ==>
      (Over(got, stale)[..6] == MAGIC_NEW || Over(got, stale)[..6] == MAGIC_CRC <==>
       rest[..6] in {Ascii("070701"), Ascii("070702")})
  {
    Magic();
    hide MAGIC_NEW, MAGIC_CRC;
    if |rest| >= 110 {
      assert Over(got, stale)[..6] == got[..6] == rest[..6];
    }
  }

  /** Copies one entry, or what there is of it, to the cache. */
  method CacheEntry(fdin: Stream, tmp: Sink, max: nat, stale: seq<byte>, ghost e: Entry, ghost more: seq<byte>)
    returns (ret: int)
    requires |stale| == MAX_FNAME
    modifies fdin, tmp
    ensures ret <= 0 && fdin.signals <= old(fdin.signals)
    ensures ret == 0 ==> Moved(old(fdin.rest), fdin.rest, old(tmp.content), tmp.content)
    ensures ret == 0 && |old(fdin.rest)| >= 110 ==> old(fdin.rest)[..6] in {Ascii("070701"), Ascii("070702")}
    ensures ret == 0 && e.Ok() && old(fdin.rest) == e.Bytes() + more && max != 0 ==> |e.data| < max
    ensures old(Calm(fdin)) && tmp.roomy && old(fdin.rest) == e.Bytes() + more ==>
      e.Ok() && (max == 0 || |e.data| < max) ==> ret == 0
    ensures ret == 0 && fdin.reliable && e.Ok() && |e.Bytes()| < WORD && old(fdin.rest) == e.Bytes() + more ==>
      tmp.content == old(tmp.content) + e.Bytes() && fdin.rest == more
  {
    hide Entry.Ok, Entry.Bytes, Remaining, NPad, MAGIC_NEW, MAGIC_CRC, Ascii;
    ghost var after := (e.name + [0]) + (e.pad + (e.data + e.tail + more));
    Layout(e, more, 0);
    var len, got, off := Fetch(fdin, HEADER, 0, e.header, after);
    if len < 0 {
      return -EFAULT;
    }
    var hdr;
    ret, hdr := GetCpioHdr(Over(got, stale));
    HeaderFields(e, got, stale);
    MagicRead(old(fdin.rest), got, fdin.rest, stale);
    if ret < 0 {
      return -EINVAL;
    }
    var ok := tmp.Write(got);
    if !ok {
      return -EIO;
    }
    ghost var s1, c1 := fdin.rest, tmp.content;
    assert Moved(old(fdin.rest), s1, old(tmp.content), c1);
    if max != 0 && hdr.size >= max {
      return -EINVAL;
    }
    ret := CpFiles(fdin, tmp, Remaining(hdr.namesize, hdr.size));
    if ret < 0 {
      return -EIO;
    }
    assert Moved(s1, fdin.rest, c1, tmp.content);
    MovedOn(old(fdin.rest), s1, fdin.rest, old(tmp.content), c1, tmp.content);
    if fdin.reliable && e.Ok() && |e.Bytes()| < WORD && old(fdin.rest) == e.Bytes() + more {
      RemainingIs(e);
      Exactly(old(fdin.rest), fdin.rest, old(tmp.content), tmp.content, e.Bytes(), more);
    }
  }

  lemma Exactly(before: seq<byte>, rest: seq<byte>, content0: seq<byte>, content: seq<byte>, part: seq<byte>,
                more: seq<byte>)
    requires before == part + more && Moved(before, rest, content0, content) && |content| - |content0| == |part|
    ensures rest == more && content == content0 + part
  {
    var got :| before == got + rest && content == content0 + got;
    assert before[..|part|] == part && before[..|got|] == got;
    assert before[|part|..] == more && before[|got|..] == rest;
  }

  /** The stream starts with a well formed description and, if wanted, signature,
      neither so large that its length wraps around. */
  ghost predicate Leads(rest: seq<byte>, signed: bool, desc: Entry, sig: Entry, more: seq<byte>) {
    && desc.Ok() && |desc.Bytes()| < WORD
    && (signed ==> sig.Ok() && |sig.Bytes()| < WORD)
    && rest == desc.Bytes() + Signed(signed, sig, more)
  }

  /** Saving a stream.  On success the file is the stream, whatever it holds.  A well
      formed archive is saved exactly if its description passes, and the cached entries
      are just those that are extracted. */
  method Save(fdin: Stream, signed: bool, max: nat, valid: seq<byte> -> bool, accepted: seq<byte> -> bool, roomy: bool,
              stale: seq<byte>, ghost desc: Entry, ghost sig: Entry, ghost more: seq<byte>)
    returns (ret: int, saved: seq<byte>, unread: seq<byte>)
    requires |stale| == MAX_FNAME
    modifies fdin
    ensures ret <= 0
    ensures ret == 0 ==> saved == old(fdin.rest)
    ensures ret == 0 && fdin.reliable && Leads(old(fdin.rest), signed, desc, sig, more) ==> unread == []
    ensures old(Calm(fdin)) && roomy && Leads(old(fdin.rest), signed, desc, sig, more) ==>
      (ret == 0 <==> Inspected(signed, max, valid, accepted, desc, sig))
  {
    hide Entry.Ok, Entry.Bytes;
    saved, unread := [], [];
    var tmp := new Sink(roomy);
    ret := CacheEntry(fdin, tmp, max, stale, desc, Signed(signed, sig, more));
    if ret < 0 {
      return;
    }
    if signed {
      ghost var s1, c1 := fdin.rest, tmp.content;
      ret := CacheEntry(fdin, tmp, max, stale, sig, more);
      if ret < 0 {
        return;
      }
      MovedOn(old(fdin.rest), s1, fdin.rest, [], c1, tmp.content);
    }
    assert old(fdin.rest) == tmp.content + fdin.rest by {
      AllMoved(old(fdin.rest), fdin.rest, tmp.content);
    }
    ret, unread := Inspect(tmp.content, signed, max, valid, accepted, stale, desc, sig);
    if ret < 0 {
      return;
    }
    ret, saved := Emit(tmp.content, fdin, roomy);
  }

  /** Writes the cache, then the rest of the stream. */
  method Emit(cached: seq<byte>, fdin: Stream, roomy: bool) returns (ret: int, saved: seq<byte>)
    modifies fdin
    ensures ret <= 0 && (old(Calm(fdin)) && roomy ==> ret == 0)
    ensures ret == 0 ==> saved == cached + old(fdin.rest)
  {
    saved := [];
    var out := new Sink(roomy);
    var cache := new Stream(cached, 0, true);
    ret := CpFiles(cache, out, 0);
    if ret < 0 {
      return;
    }
    assert out.content == cached;
    ret := CpFiles(fdin, out, 0);
    if ret < 0 {
      return;
    }
    saved := out.content;
  }

  /** Description and signature pass, and the description is accepted. */
  predicate Inspected(signed: bool, max: nat, valid: seq<byte> -> bool, accepted: seq<byte> -> bool, desc: Entry,
                      sig: Entry) {
    && Passes(desc, Ascii("sw-description"), max, valid)
    && (signed ==> Passes(sig, Ascii("sw-description.sig"), max, valid))
    && accepted(desc.data)
  }

  /** Extracts the description, and its signature, from the cache. */
  method Inspect(cached: seq<byte>, signed: bool, max: nat, valid: seq<byte> -> bool, accepted: seq<byte> -> bool,
                 stale: seq<byte>, ghost desc: Entry, ghost sig: Entry)
    returns (ret: int, unread: seq<byte>)
    requires |stale| == MAX_FNAME
    ensures ret <= 0
    ensures desc.Ok() && (signed ==> sig.Ok()) && cached == desc.Bytes() + Signed(signed, sig, []) ==>
      (ret == 0 <==> Inspected(signed, max, valid, accepted, desc, sig)) && (ret == 0 ==> unread == [])
  {
    hide Entry.Ok, Behind, Astray;
    Names();
    var fd := new Stream(cached, 0, true);
    unread := cached;
    var description, signature, offset;
    ret, description, offset :=
      ExtractFileToTmp(fd, SW_DESCRIPTION, 0, max, valid, stale, desc, Signed(signed, sig, []));
    if ret < 0 {
      return;
    }
    if signed {
      ret, signature, offset := ExtractFileToTmp(fd, SW_SIGNATURE, offset, max, valid, stale, sig, []);
      if ret < 0 {
        return;
      }
    }
    if !accepted(description) {
      return -1, unread;
    }
    unread := fd.rest;
  }
}
