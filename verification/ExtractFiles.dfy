/** Walking an archive from entry to entry. */
module ExtractFiles {
  import opened Bytes
  import opened Streams
  import opened Pipeline
  import opened Copyfile
  import opened PipelineProps
  import opened CpioSpec
  import opened Cpio
  import opened Wrappers

  const SW_DESCRIPTION: seq<byte> := [115, 119, 45, 100, 101, 115, 99, 114, 105, 112, 116, 105, 111, 110]
  const SW_SIGNATURE: seq<byte> := SW_DESCRIPTION + [46, 115, 105, 103]

  datatype Action = CopyFile | SkipFile | InstallFromStream

  type File = (seq<byte>, seq<byte>)

  predicate ChecksumOk(sum: nat, hdr: FileHdr) { hdr.format.New? || sum == hdr.chksum }

  /** In the format that has a checksum it is the sum of the data, as a 32-bit number. */
  predicate Intact(e: Entry) {
    e.format == Crc ==> e.chksum == Sum(e.data) % 0x1_0000_0000
  }

  lemma IntactIs(e: Entry)
    ensures ChecksumOk(Checked(0, e.data), e.Hdr()) <==> Intact(e)
  {
  }

  lemma Names()
    ensures SW_DESCRIPTION == Ascii("sw-description") && SW_SIGNATURE == Ascii("sw-description.sig")
    ensures TRAILER == Ascii("TRAILER!!!")
  {
  }

  ghost predicate At(rest: seq<byte>, e: Entry, more: seq<byte>, offset: nat) {
    e.Ok() && rest == e.Bytes() + more && offset % 4 == 0
  }

  /** The padding was read, or at least one byte of it was not. */
  ghost predicate Behind(rest: seq<byte>, tail: seq<byte>, more: seq<byte>, offset: nat) {
    (rest == more && offset % 4 == 0) || Before(rest, tail, more)
  }

  ghost predicate Before(rest: seq<byte>, tail: seq<byte>, more: seq<byte>) {
    exists k: nat :: k < |tail| && rest == tail[k..] + more
  }

  /** Copies, or skips, the data of an entry and the padding behind it. */
  method TakeData(fd: Stream, n: nat, offset: nat, skip: bool, ghost e: Entry, ghost more: seq<byte>)
    returns (ret: int, data: seq<byte>, checksum: nat, offset': nat)
    modifies fd
    ensures ret <= 0 && (fd.reliable ==> ret == 0) && (ret == 0 ==> |fd.rest| <= old(|fd.rest|))
    ensures e.Ok() && old(fd.rest) == e.data + e.tail + more && n == |e.data| && offset % 4 == 0 && ret == 0 ==>
      && (skip || data == e.data) && checksum == Checked(0, e.data)
      && Behind(fd.rest, e.tail, more, offset') && (fd.reliable ==> fd.rest == more && offset' % 4 == 0)
  {
    ghost var all, before := Offered(fd.rest, n), fd.rest;
    hide Decrypts, Talkative, Packs, Behind;
    var receiver := new Receiver(_ => true);
    ret, checksum, offset' := CopyImage(fd, n, offset, None, None, receiver, skip, None, null, all, [], all);
    data := receiver.got;
    if ret == 0 && e.Ok() && before == e.data + e.tail + more && n == |e.data| && offset % 4 == 0 {
      DataEnds(e, more, before, offset, fd.rest, offset');
    }
  }

  lemma DataEnds(e: Entry, more: seq<byte>, rest: seq<byte>, offset: nat, after: seq<byte>, offset': nat)
    requires e.Ok() && rest == e.data + e.tail + more && offset % 4 == 0
    ensures Offered(rest, |e.data|) == e.data
    ensures PaddingSkipped(rest, |e.data|, offset, after, offset') ==> after == more && offset' % 4 == 0
    ensures PaddingTried(rest, |e.data|, offset, after, offset') ==> Behind(after, e.tail, more, offset')
  {
    var n := |e.data|;
    OkMeans(e);
    assert rest[..n] == e.data && |e.tail| == NPad(n);
    Aligned(offset, n);
    assert rest[n + |e.tail|..] == more;
    hide Entry.Ok;
    if PaddingTried(rest, n, offset, after, offset') {
      var k := offset' - offset - n;
      assert after == rest[n + k..] && k <= |e.tail|;
      assert rest[n + k..] == e.tail[k..] + more;
      assert k < |e.tail| ==> Before(after, e.tail, more);
    }
  }

  /** With padding unread, the next entry is missed. */
  lemma BehindNext(rest: seq<byte>, tail: seq<byte>, e: Entry, more: seq<byte>, offset: nat)
    requires Behind(rest, tail, e.Bytes() + more, offset) && |tail| <= 3 && e.Ok()
    ensures At(rest, e, more, offset) || Astray(rest, e, more)
  {
    hide Entry.Ok, Entry.Bytes;
    if !At(rest, e, more, offset) {
      var k: nat :| k < |tail| && rest == tail[k..] + (e.Bytes() + more);
      assert 1 <= |tail[k..]| <= 3;
    }
  }

  // ----- The description and its signature -----

  /** Extracts the entry that must come next under this name. */
  method ExtractFileToTmp(fd: Stream, fname: seq<byte>, offset: nat, max: nat, valid: seq<byte> -> bool,
                          stale: seq<byte>, ghost e: Entry, ghost more: seq<byte>)
    returns (ret: int, data: seq<byte>, offset': nat)
    requires |stale| == MAX_FNAME
    modifies fd
    ensures ret <= 0
    ensures At(old(fd.rest), e, more, offset) && ret == 0 ==>
      Passes(e, fname, max, valid) && data == e.data && Behind(fd.rest, e.tail, more, offset')
    ensures At(old(fd.rest), e, more, offset) && fd.reliable ==>
      (ret == 0 <==> Passes(e, fname, max, valid)) && (ret == 0 ==> fd.rest == more && offset' % 4 == 0)
    ensures Astray(old(fd.rest), e, more) ==> ret < 0
  {
    hide Astray, Behind;
    IntactIs(e);
    data := [];
    var hdr;
    ret, hdr, offset' := ExtractCpioHeader(fd, offset, stale, e, more);
    if ret < 0 || hdr.filename != fname || (max != 0 && hdr.size >= max) || !valid(hdr.filename) {
      return -1, data, offset';
    }
    var sum;
    ret, data, sum, offset' := TakeData(fd, hdr.size, offset', false, e, more);
    if ret == 0 && !ChecksumOk(sum, hdr) {
      ret := -1;
    }
  }

  /** An entry passes as the file of this name. */
  predicate Passes(e: Entry, fname: seq<byte>, max: nat, valid: seq<byte> -> bool) {
    e.name == fname && (max == 0 || |e.data| < max) && valid(fname) && Intact(e)
  }

  // ----- The images -----

  datatype Status = Next | Last | Error

  /** One entry of the data part.  The offset starts over at the data, which lies on
      a multiple of four as the offset said before. */
  method TakeEntry(fd: Stream, offset: nat, action: seq<byte> -> Action, valid: seq<byte> -> bool, stale: seq<byte>,
                   ghost e: Entry, ghost more: seq<byte>)
    returns (status: Status, files: seq<File>, offset': nat)
    requires |stale| == MAX_FNAME
    modifies fd
    ensures status.Next? && old(fd.rest) != [] ==> |fd.rest| < old(|fd.rest|)
    ensures At(old(fd.rest), e, more, offset) ==>
            Taken(e, more, action, valid, fd.reliable, status, files, fd.rest, offset')
    ensures Astray(old(fd.rest), e, more) ==> status.Error?
  {
    hide Astray, Behind;
    IntactIs(e);
    files := [];
    var hdr, ret;
    ret, hdr, offset' := ExtractCpioHeader(fd, offset, stale, e, more);
    if ret < 0 {
      return Error, files, offset';
    }
    if hdr.filename == TRAILER {
      return Last, files, offset';
    }
    if !valid(hdr.filename) {
      return Error, files, offset';
    }
    var what := action(hdr.filename);
    var data, sum, off;
    ret, data, sum, off := TakeData(fd, hdr.size, 0, what.SkipFile?, e, more);
    if ret < 0 {
      return Error, files, off;
    }
    offset' := if what.InstallFromStream? then 0 else off;
    BehindReset(fd.rest, e.tail, more, off);
    if !what.InstallFromStream? && !ChecksumOk(sum, hdr) {
      return Error, files, offset';
    }
    files := if what.SkipFile? then [] else [(hdr.filename, data)];
    status := Next;
  }

  lemma BehindReset(rest: seq<byte>, tail: seq<byte>, more: seq<byte>, offset: nat)
    ensures Behind(rest, tail, more, offset) ==> Behind(rest, tail, more, 0)
  {
  }

  /** What becomes of an entry.  Only a failing descriptor makes a sound entry fail. */
  ghost predicate Taken(e: Entry, more: seq<byte>, action: seq<byte> -> Action, valid: seq<byte> -> bool,
                        reliable: bool, status: Status, files: seq<File>, rest: seq<byte>, offset: nat)
  {
    && (status.Last? ==> e.name == TRAILER && files == [])
    && (status.Next? ==> e.name != TRAILER && valid(e.name) && Sound(e, action))
    && (status.Error? && reliable ==> e.name != TRAILER && !(valid(e.name) && Sound(e, action)))
    && (status.Next? ==> files == Kept(e, action) && Behind(rest, e.tail, more, offset))
    && (status.Next? && reliable ==> rest == more && offset % 4 == 0)
  }

  /** A checksum, where the format has one, is that of the data; images installed
      from the stream are not held against it. */
  predicate Sound(e: Entry, action: seq<byte> -> Action) {
    action(e.name).InstallFromStream? || Intact(e)
  }

  function Kept(e: Entry, action: seq<byte> -> Action): seq<File> {
    if action(e.name).SkipFile? then [] else [(e.name, e.data)]
  }

  function KeptAll(es: seq<Entry>, action: seq<byte> -> Action): seq<File> {
    if es == [] then [] else Kept(es[0], action) + KeptAll(es[1..], action)
  }

  function Encoded(es: seq<Entry>): seq<byte> {
    if es == [] then [] else es[0].Bytes() + Encoded(es[1..])
  }

  /** Well formed entries, then the trailer, then anything. */
  ghost predicate Archive(rest: seq<byte>, es: seq<Entry>, trailer: Entry, more: seq<byte>, offset: nat) {
    && (forall i :: 0 <= i < |es| ==> es[i].Ok() && es[i].name != Ascii("TRAILER!!!"))
    && trailer.Ok() && trailer.name == Ascii("TRAILER!!!")
    && rest == Encoded(es) + (trailer.Bytes() + more)
    && offset % 4 == 0
  }

  ghost predicate AllSound(es: seq<Entry>, action: seq<byte> -> Action, valid: seq<byte> -> bool) {
    forall i :: 0 <= i < |es| ==> valid(es[i].name) && Sound(es[i], action)
  }

  lemma ArchiveHead(rest: seq<byte>, es: seq<Entry>, trailer: Entry, more: seq<byte>, offset: nat)
    requires Archive(rest, es, trailer, more, offset)
    ensures rest != []
    ensures es == [] ==> At(rest, trailer, more, offset)
    ensures es != [] ==> At(rest, es[0], Encoded(es[1..]) + (trailer.Bytes() + more), offset) && es[0].name != TRAILER
    ensures es != [] ==> forall offset' :: offset' % 4 == 0 ==>
            Archive(Encoded(es[1..]) + (trailer.Bytes() + more), es[1..], trailer, more, offset')
  {
    var tail := trailer.Bytes() + more;
    Names();
    NotEmpty(trailer);
    hide Entry.Ok, Entry.Bytes;
    if es == [] {
      assert rest == tail;
    } else {
      Associate(es[0].Bytes(), Encoded(es[1..]), tail);
      assert forall i :: 0 <= i < |es[1..]| ==> es[1..][i] == es[i + 1];
    }
  }

  lemma NotEmpty(e: Entry)
    requires e.Ok()
    ensures e.Bytes() != []
  {
    assert |e.Bytes()| >= |e.header|;
  }

  lemma Associate(a: seq<byte>, b: seq<byte>, c: seq<byte>)
    ensures (a + b) + c == a + (b + c)
  {
  }

  lemma {:induction false} KeptSnoc(es: seq<Entry>, e: Entry, action: seq<byte> -> Action)
    ensures KeptAll(es + [e], action) == KeptAll(es, action) + Kept(e, action)
  {
    if es == [] {
      assert es + [e] == [e] && [e][1..] == [];
      assert KeptAll([e], action) == Kept(e, action) + KeptAll([], action);
    } else {
      KeptSnoc(es[1..], e, action);
      assert (es + [e])[1..] == es[1..] + [e];
      assert (es + [e])[0] == es[0];
    }
  }

  /** The walk stands before an entry of the archive or, with a failing descriptor,
      in the padding before it. */
  ghost predicate Ahead(rest: seq<byte>, es: seq<Entry>, trailer: Entry, more: seq<byte>, offset: nat, reliable: bool) {
    Archive(rest, es, trailer, more, offset) || (!reliable && Lost(rest, es, trailer, more))
  }

  ghost predicate Lost(rest: seq<byte>, es: seq<Entry>, trailer: Entry, more: seq<byte>) {
    exists t: seq<byte>, s: seq<byte> :: 1 <= |t| <= 3 && rest == t + s && Archive(s, es, trailer, more, 0)
  }

  /** The data part, up to the trailer.  A descriptor that ends before it leaves the
      header buffer as it was, which is no header. */
  method ExtractImages(fd: Stream, offset: nat, action: seq<byte> -> Action, valid: seq<byte> -> bool, stale: seq<byte>,
                       ghost es: seq<Entry>, ghost trailer: Entry, ghost more: seq<byte>)
    returns (ok: bool, files: seq<File>)
    requires |stale| == MAX_FNAME
    modifies fd
    ensures Ahead(old(fd.rest), es, trailer, more, offset, fd.reliable) ==>
      && (ok ==> AllSound(es, action, valid) && files == KeptAll(es, action))
      && (fd.reliable ==> (ok <==> AllSound(es, action, valid)))
  {
    ghost var good, i := Ahead(fd.rest, es, trailer, more, offset, fd.reliable), 0;
    if good {
      WalkStart(fd.rest, es, trailer, more, offset, action, valid, fd.reliable);
    }
    hide Archive, At, Astray, Sound, KeptAll, Taken, Walk, Ahead;
    var off, status := offset, Next;
    files := [];
    while status.Next? && fd.rest != []
      invariant good ==> Walk(status, fd.rest, es, i, trailer, more, off, files, action, valid, fd.reliable)
      decreases status.Next?, |fd.rest|
    {
      ghost var e, after := Here(es, i, trailer), After(es, i, trailer, more);
      ghost var before, off0, files0 := fd.rest, off, files;
      if good {
        WalkAt(before, es, i, trailer, more, off, files, action, valid, fd.reliable);
      }
      var got;
      status, got, off := TakeEntry(fd, off, action, valid, stale, e, after);
      files := files + got;
      if good {
        WalkOn(before, es, i, trailer, more, off0, files0, action, valid, fd.reliable, status, got, fd.rest, off);
      }
      i := i + 1;
    }
    if good {
      WalkDone(status, fd.rest, es, i, trailer, more, off, files, action, valid, fd.reliable);
    }
    ok := status.Last?;
  }

  /** The walk stands at entry i of the archive, or behind the trailer. */
  ghost predicate Walk(status: Status, rest: seq<byte>, es: seq<Entry>, i: nat, trailer: Entry, more: seq<byte>,
                       offset: nat, files: seq<File>, action: seq<byte> -> Action, valid: seq<byte> -> bool,
                       reliable: bool)
  {
    match status
    case Next =>
      && i <= |es| && Ahead(rest, es[i..], trailer, more, offset, reliable)
      && AllSound(es[..i], action, valid) && files == KeptAll(es[..i], action)
    case Last => AllSound(es, action, valid) && files == KeptAll(es, action)
    case Error => reliable ==> !AllSound(es, action, valid)
  }

  lemma WalkStart(rest: seq<byte>, es: seq<Entry>, trailer: Entry, more: seq<byte>, offset: nat,
                  action: seq<byte> -> Action, valid: seq<byte> -> bool, reliable: bool)
    requires Ahead(rest, es, trailer, more, offset, reliable)
    ensures Walk(Next, rest, es, 0, trailer, more, offset, [], action, valid, reliable)
  {
    hide Ahead;
    assert es[0..] == es && es[..0] == [];
  }

  lemma WalkAt(rest: seq<byte>, es: seq<Entry>, i: nat, trailer: Entry, more: seq<byte>, offset: nat, files: seq<File>,
               action: seq<byte> -> Action, valid: seq<byte> -> bool, reliable: bool)
    requires Walk(Next, rest, es, i, trailer, more, offset, files, action, valid, reliable)
    ensures var e, after := Here(es, i, trailer), After(es, i, trailer, more);
      At(rest, e, after, offset) || (!reliable && Astray(rest, e, after))
  {
    hide Archive, At, Entry.Ok, Entry.Bytes;
    if Archive(rest, es[i..], trailer, more, offset) {
      EntryHere(rest, es, i, trailer, more, offset);
    } else {
      var t: seq<byte>, s: seq<byte> :| 1 <= |t| <= 3 && rest == t + s && Archive(s, es[i..], trailer, more, 0);
      EntryHere(s, es, i, trailer, more, 0);
      AtIs(s, Here(es, i, trailer), After(es, i, trailer, more), 0);
    }
  }

  lemma AtIs(rest: seq<byte>, e: Entry, more: seq<byte>, offset: nat)
    requires At(rest, e, more, offset)
    ensures e.Ok() && rest == e.Bytes() + more
  {
  }

  lemma WalkOn(rest: seq<byte>, es: seq<Entry>, i: nat, trailer: Entry, more: seq<byte>, offset: nat, files: seq<File>,
               action: seq<byte> -> Action, valid: seq<byte> -> bool, reliable: bool, status: Status, got: seq<File>,
               rest': seq<byte>, offset': nat)
    requires Walk(Next, rest, es, i, trailer, more, offset, files, action, valid, reliable)
    requires var e, after := Here(es, i, trailer), After(es, i, trailer, more);
      if At(rest, e, after, offset) then Taken(e, after, action, valid, reliable, status, got, rest', offset')
      else !reliable && status.Error?
    ensures Walk(status, rest', es, i + 1, trailer, more, offset', files + got, action, valid, reliable)
  {
    var e, after := Here(es, i, trailer), After(es, i, trailer, more);
    WalkHere(rest, es, i, trailer, more, offset, reliable);
    if At(rest, e, after, offset) {
      hide Archive, At, Sound, AllSound, KeptAll, Kept, Behind, Ahead;
      Progress(es, i, action, valid);
      assert files + [] == files;
      if status.Next? {
        AheadNext(es, i, trailer, more, rest', offset', reliable);
      }
    }
  }

  /** What an entry is, and what comes behind it. */
  lemma WalkHere(rest: seq<byte>, es: seq<Entry>, i: nat, trailer: Entry, more: seq<byte>, offset: nat, reliable: bool)
    requires i <= |es| && Ahead(rest, es[i..], trailer, more, offset, reliable)
    ensures Here(es, i, trailer).name == TRAILER <==> i == |es|
    ensures Here(es, i, trailer).Ok()
    ensures i < |es| ==> Archive(After(es, i, trailer, more), es[i + 1..], trailer, more, 0)
  {
    hide Archive, At, Entry.Ok, Entry.Bytes;
    assert 0 % 4 == 0;
    if Archive(rest, es[i..], trailer, more, offset) {
      EntryHere(rest, es, i, trailer, more, offset);
      AtIs(rest, Here(es, i, trailer), After(es, i, trailer, more), offset);
    } else {
      var t: seq<byte>, s: seq<byte> :| 1 <= |t| <= 3 && rest == t + s && Archive(s, es[i..], trailer, more, 0);
      EntryHere(s, es, i, trailer, more, 0);
      AtIs(s, Here(es, i, trailer), After(es, i, trailer, more), 0);
    }
  }

  lemma AheadNext(es: seq<Entry>, i: nat, trailer: Entry, more: seq<byte>, rest: seq<byte>, offset: nat, reliable: bool)
    requires i < |es| && es[i].Ok() && Archive(After(es, i, trailer, more), es[i + 1..], trailer, more, 0)
    requires Behind(rest, es[i].tail, After(es, i, trailer, more), offset)
    requires reliable ==> rest == After(es, i, trailer, more) && offset % 4 == 0
    ensures Ahead(rest, es[i + 1..], trailer, more, offset, reliable)
  {
    hide *;
    AheadFirst(rest, es[i], After(es, i, trailer, more), es[i + 1..], trailer, more, offset, reliable);
  }

  lemma WalkDone(status: Status, rest: seq<byte>, es: seq<Entry>, i: nat, trailer: Entry, more: seq<byte>, offset: nat,
                 files: seq<File>, action: seq<byte> -> Action, valid: seq<byte> -> bool, reliable: bool)
    requires Walk(status, rest, es, i, trailer, more, offset, files, action, valid, reliable)
    ensures status.Next? ==> rest != []
    ensures status.Last? ==> AllSound(es, action, valid) && files == KeptAll(es, action)
    ensures status.Error? && reliable ==> !AllSound(es, action, valid)
  {
    hide AllSound, KeptAll;
    if status.Next? && Archive(rest, es[i..], trailer, more, offset) {
      ArchiveHead(rest, es[i..], trailer, more, offset);
    }
  }

  ghost function Here(es: seq<Entry>, i: nat, trailer: Entry): Entry { if i < |es| then es[i] else trailer }

  ghost function After(es: seq<Entry>, i: nat, trailer: Entry, more: seq<byte>): seq<byte> {
    if i < |es| then Encoded(es[i + 1..]) + (trailer.Bytes() + more) else more
  }

  lemma EntryHere(rest: seq<byte>, es: seq<Entry>, i: nat, trailer: Entry, more: seq<byte>, offset: nat)
    requires i <= |es| && Archive(rest, es[i..], trailer, more, offset)
    ensures At(rest, Here(es, i, trailer), After(es, i, trailer, more), offset)
    ensures Here(es, i, trailer).name == TRAILER <==> i == |es|
    ensures i < |es| ==> forall offset' :: offset' % 4 == 0 ==>
            Archive(After(es, i, trailer, more), es[i + 1..], trailer, more, offset')
  {
    ArchiveHead(rest, es[i..], trailer, more, offset);
    if i < |es| {
      assert es[i..][0] == es[i] && es[i..][1..] == es[i + 1..];
    }
  }

  lemma Progress(es: seq<Entry>, i: nat, action: seq<byte> -> Action, valid: seq<byte> -> bool)
    requires i <= |es|
    ensures i == |es| ==> es[..i] == es
    ensures i < |es| ==> KeptAll(es[..i + 1], action) == KeptAll(es[..i], action) + Kept(es[i], action)
    ensures i < |es| && AllSound(es[..i], action, valid) && valid(es[i].name) && Sound(es[i], action) ==>
            AllSound(es[..i + 1], action, valid)
    ensures i < |es| && !(valid(es[i].name) && Sound(es[i], action)) ==> !AllSound(es, action, valid)
  {
    hide Sound;
    if i < |es| {
      assert es[..i + 1] == es[..i] + [es[i]];
      KeptSnoc(es[..i], es[i], action);
    }
  }

  // ----- The whole archive -----

  /** The description comes first, then its signature where one is required, then
      the images. */
  ghost predicate WholeArchive(rest: seq<byte>, signed: bool, desc: Entry, sig: Entry, es: seq<Entry>, trailer: Entry,
                               more: seq<byte>) {
    && desc.Ok() && (signed ==> sig.Ok())
    && exists images :: Archive(images, es, trailer, more, 0) && rest == desc.Bytes() + Signed(signed, sig, images)
  }

  function Signed(signed: bool, sig: Entry, images: seq<byte>): seq<byte> {
    if signed then sig.Bytes() + images else images
  }

  /** All stages of the stream.  From a well formed archive the names and data that
      come out are those that were put in, in order.  A failing descriptor may make the
      walk fail, but it never makes anything else come out. */
  method Extract(fd: Stream, signed: bool, max: nat, accepted: seq<byte> -> bool, action: seq<byte> -> Action,
                 valid: seq<byte> -> bool, stale: seq<byte>, ghost desc: Entry, ghost sig: Entry, ghost es: seq<Entry>,
                 ghost trailer: Entry, ghost more: seq<byte>)
    returns (ret: int, files: seq<File>)
    requires |stale| == MAX_FNAME
    modifies fd
    ensures WholeArchive(old(fd.rest), signed, desc, sig, es, trailer, more) ==>
      && (ret == 0 ==> AllPass(signed, max, accepted, action, valid, desc, sig, es) && files == KeptAll(es, action))
      && (fd.reliable ==> (ret == 0 <==> AllPass(signed, max, accepted, action, valid, desc, sig, es)))
  {
    ghost var good, images := WholeArchive(fd.rest, signed, desc, sig, es, trailer, more), [];
    if good {
      images :| Archive(images, es, trailer, more, 0) && fd.rest == desc.Bytes() + Signed(signed, sig, images);
    }
    hide Archive, AllSound, KeptAll, Entry.Ok, Entry.Bytes, Behind, Astray, Ahead, Passes;
    Names();
    files := [];
    var description, signature, offset;
    ret, description, offset :=
      ExtractFileToTmp(fd, SW_DESCRIPTION, 0, max, valid, stale, desc, Signed(signed, sig, images));
    if ret < 0 {
      return;
    }
    if signed {
      if good {
        ShortTail(desc);
        BehindNext(fd.rest, desc.tail, sig, images, offset);
      }
      ret, signature, offset := ExtractFileToTmp(fd, SW_SIGNATURE, offset, max, valid, stale, sig, images);
      if ret < 0 {
        return;
      }
    }
    if !accepted(description) {
      return -1, files;
    }
    if good {
      AheadFirst(fd.rest, if signed then sig else desc, images, es, trailer, more, offset, fd.reliable);
    }
    var ok;
    ok, files := ExtractImages(fd, offset, action, valid, stale, es, trailer, more);
    ret := if ok then 0 else -1;
  }

  ghost predicate AllPass(signed: bool, max: nat, accepted: seq<byte> -> bool, action: seq<byte> -> Action,
                          valid: seq<byte> -> bool, desc: Entry, sig: Entry, es: seq<Entry>)
  {
    && Passes(desc, Ascii("sw-description"), max, valid)
    && (signed ==> Passes(sig, Ascii("sw-description.sig"), max, valid))
    && accepted(desc.data) && AllSound(es, action, valid)
  }

  lemma ShortTail(e: Entry)
    requires e.Ok()
    ensures |e.tail| <= 3
  {
  }

  lemma AheadFirst(rest: seq<byte>, e: Entry, images: seq<byte>, es: seq<Entry>, trailer: Entry, more: seq<byte>,
                   offset: nat, reliable: bool)
    requires e.Ok() && Archive(images, es, trailer, more, 0) && Behind(rest, e.tail, images, offset)
    requires reliable ==> rest == images && offset % 4 == 0
    ensures Ahead(rest, es, trailer, more, offset, reliable)
  {
    ShortTail(e);
    if rest == images && offset % 4 == 0 {
      AnyOffset(images, es, trailer, more, offset);
    } else {
      var k: nat :| k < |e.tail| && rest == e.tail[k..] + images;
      hide Archive, Entry.Ok;
      assert 1 <= |e.tail[k..]| <= 3;
      assert Lost(rest, es, trailer, more);
    }
  }

  lemma AnyOffset(images: seq<byte>, es: seq<Entry>, trailer: Entry, more: seq<byte>, offset: nat)
    requires Archive(images, es, trailer, more, 0)
    ensures offset % 4 == 0 ==> Archive(images, es, trailer, more, offset)
  {
  }
}
