/** The entries of an archive in the portable ASCII ("newc") format. */
module CpioSpec {
  import opened Bytes
  import opened Hex
  import opened Copyfile

  const HEADER: nat := 110
  const MAX_FNAME: nat := 256

  const MAGIC_NEW: seq<byte> := [48, 55, 48, 55, 48, 49]
  const MAGIC_CRC: seq<byte> := [48, 55, 48, 55, 48, 50]
  const TRAILER: seq<byte> := [84, 82, 65, 73, 76, 69, 82, 33, 33, 33]

  datatype Format = New | Crc

  datatype FileHdr = FileHdr(format: Format, size: nat, namesize: nat, chksum: nat, filename: seq<byte>)

  /** An entry as it lies in the archive: header, name, padding, data, padding. */
  datatype Entry = Entry(format: Format, header: seq<byte>, chksum: nat, name: seq<byte>, pad: seq<byte>,
                         data: seq<byte>, tail: seq<byte>)
  {
    function Front(): seq<byte> { header + (name + [0]) + pad }

    function Bytes(): seq<byte> { Front() + (data + tail) }

    function Hdr(): FileHdr { FileHdr(format, |data|, |name| + 1, chksum, name) }

    /** Numbers are spelled out in the header, the name ends in a NUL that its size
        counts, and both the data and the next entry start on a multiple of four. */
    ghost predicate Ok() {
      && |header| == 110
      && header[..6] == Ascii(if format.New? then "070701" else "070702")
      && Spells(header[54..62], |data|)
      && Spells(header[94..102], |name| + 1)
      && Spells(header[102..110], chksum)
      && 0 !in name && |name| + 1 < 256
      && |pad| < 4 && (|header| + |name| + 1 + |pad|) % 4 == 0
      && |tail| < 4 && (|data| + |tail|) % 4 == 0
    }
  }

  lemma Magic()
    ensures MAGIC_NEW == Ascii("070701") && MAGIC_CRC == Ascii("070702") && MAGIC_NEW[5] != MAGIC_CRC[5]
  {
  }

  /** A well formed entry, as the code goes about it. */
  lemma OkMeans(e: Entry)
    requires e.Ok()
    ensures |e.header| == HEADER && e.header[..6] == (if e.format.New? then MAGIC_NEW else MAGIC_CRC)
    ensures |e.name| + 1 < MAX_FNAME && |e.pad| == NPad(HEADER + |e.name| + 1) && |e.tail| == NPad(|e.data|)
  {
    hide NPad, Spells;
    Magic();
    PadIs(HEADER + |e.name| + 1, |e.pad|);
    PadIs(|e.data|, |e.tail|);
  }

  lemma PadIs(n: nat, k: nat)
    requires k < 4 && (n + k) % 4 == 0
    ensures k == NPad(n)
  {
  }

  /** A header as an archiver writes it. */
  function MakeHeader(format: Format, size: nat, namesize: nat, chksum: nat, other: seq<byte>): seq<byte>
    requires |other| == 80
  {
    var magic := if format.New? then MAGIC_NEW else MAGIC_CRC;
    magic + other[..48] + Print(size, 8) + other[48..] + Print(namesize, 8) + Print(chksum, 8)
  }

  function Zeros(n: nat): seq<byte> { seq(n, _ => 0) }

  function MakeEntry(format: Format, other: seq<byte>, chksum: nat, name: seq<byte>, data: seq<byte>): Entry
    requires |other| == 80
  {
    Entry(format, MakeHeader(format, |data|, |name| + 1, chksum, other), chksum, name,
          Zeros(NPad(HEADER + |name| + 1)), data, Zeros(NPad(|data|)))
  }

  lemma EightDigits()
    ensures Power(8) == 0x1_0000_0000
  {
    assert Power(4) == 65536;
    assert Power(8) == 16 * (16 * (16 * (16 * Power(4))));
  }

  lemma HeaderParts(format: Format, size: nat, namesize: nat, chksum: nat, other: seq<byte>)
    requires |other| == 80
    ensures var h := MakeHeader(format, size, namesize, chksum, other);
      && |h| == 110 && h[..6] == (if format.New? then MAGIC_NEW else MAGIC_CRC)
      && h[54..62] == Print(size, 8) && h[94..102] == Print(namesize, 8) && h[102..110] == Print(chksum, 8)
  {
    hide Print;
  }

  lemma Rounded(n: nat)
    ensures NPad(n) < 4 && (n + NPad(n)) % 4 == 0
  {
  }

  /** Such entries are well formed, whatever the fields that are not looked at hold. */
  lemma MakeEntryOk(format: Format, other: seq<byte>, chksum: nat, name: seq<byte>, data: seq<byte>)
    requires |other| == 80 && chksum < 0x1_0000_0000 && |data| < 0x1_0000_0000
    requires 0 !in name && |name| + 1 < MAX_FNAME
    ensures MakeEntry(format, other, chksum, name, data).Ok()
  {
    hide Print, Power, MakeHeader, NPad, Spells;
    EightDigits();
    Magic();
    PrintSpells(|data|, 8);
    PrintSpells(|name| + 1, 8);
    PrintSpells(chksum, 8);
    HeaderParts(format, |data|, |name| + 1, chksum, other);
    Rounded(HEADER + |name| + 1);
    Rounded(|data|);
  }
}
