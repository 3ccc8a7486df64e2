/** Files in the format of RFC 1952, and what the program makes of them: the way from a list of bytes
    through a file and `uncompress_kernel` back to the bytes (zip/misc.c:60-203, zip/unzip.c:54-130). */
module GzipFile {
  import opened Bits
  import opened Deflate
  import opened Input
  import opened Encode
  import opened Format
  import opened Streams
  import opened Preset
  import opened Inflate
  import opened Gzip

  /*-- Bits in bytes ----------------------------------------------------------*/

  /** The string up to a byte boundary. */
  function Padded(s: seq<bool>): (r: seq<bool>)
    ensures |r| % 8 == 0 && |s| <= |r| < |s| + 8 && r[..|s|] == s
  {
    s + Zeroes(Gap(|s|))
  }

  /** The byte of the eight bits from 8 * k on. */
  function ByteOf(s: seq<bool>, k: nat): (b: byte)
    requires 8 * k + 8 <= |s|
    ensures ByteBits(b) == s[8 * k..8 * k + 8]
  {
    var t := s[8 * k..8 * k + 8];
    NumBound(t);
    Pow2To16();
    NumInjective(ByteBits(Num(t)), t);
    Num(t)
  }

  function Pack(s: seq<bool>): (r: seq<byte>)
    ensures 8 * |r| == |Padded(s)|
    ensures forall k :: 0 <= k < |r| ==> r[k] == ByteOf(Padded(s), k)
  {
    seq(|Padded(s)| / 8, k requires 0 <= k < |Padded(s)| / 8 => ByteOf(Padded(s), k))
  }

  lemma PlaceOf(h: nat, i: nat)
    ensures (8 * h + i) / 8 == h + i / 8 && (8 * h + i) % 8 == i % 8 && i == 8 * (i / 8) + i % 8
  {
  }

  lemma PackedBit(s: seq<bool>, i: nat)
    requires i < |s|
    ensures i / 8 < |Pack(s)| && ByteBits(Pack(s)[i / 8])[i % 8] == s[i]
  {
    var k, p := i / 8, Padded(s);
    assert ByteBits(ByteOf(p, k))[i % 8] == p[8 * k..8 * k + 8][i % 8];
    assert p[i] == p[..|s|][i];
  }

  /** The string is found where it was packed. */
  lemma PackedAt(file: seq<byte>, h: nat, s: seq<bool>)
    requires Has(file, h, Pack(s))
    ensures At(FileBits(file), 8 * h, s)
  {
    hide Padded, ByteOf, ByteBits;
    var bits, n := FileBits(file), |s|;
    forall i | 0 <= i < n ensures 8 * h + i < |bits| && bits[8 * h + i] == s[i] {
      PlaceOf(h, i);
      PackedBit(s, i);
      HasByte(file, h, Pack(s), i / 8);
    }
    assert n > 0 ==> 8 * h + (n - 1) < |bits|;
    assert bits[8 * h..8 * h + n] == s;
  }

  /** The bits of one byte of the file. */
  lemma ByteOfFile(file: seq<byte>, k: nat, p: nat, s: seq<bool>)
    requires k < |file| && p == 8 * k && |s| == 8 && Num(s) == file[k]
    ensures p + 8 <= |FileBits(file)| && FileBits(file)[p..p + 8] == s
  {
    NumInjective(ByteBits(file[k]), s);
    hide ByteBits, Num, FileBits;
    var bits := FileBits(file);
    forall i | 0 <= i < 8 ensures p + i < |bits| && bits[p + i] == s[i] {
      FileBit(file, k, i, p + i);
    }
    assert p + 7 < |bits|;
    assert bits[p..p + 8] == s;
  }

  lemma FileBit(file: seq<byte>, k: nat, i: nat, j: nat)
    requires k < |file| && i < 8 && j == 8 * k + i
    ensures j < |FileBits(file)| && FileBits(file)[j] == ByteBits(file[k])[i]
  {
    PlaceOf(k, i);
  }

  lemma ThreeBytes(file: seq<byte>, a: seq<bool>, b: seq<bool>, c: seq<bool>)
    requires |file| == 3 && |a| == |b| == |c| == 8 && Num(a) == file[0] && Num(b) == file[1] && Num(c) == file[2]
    ensures FileBits(file) == a + b + c
  {
    hide FileBits, Num;
    ByteOfFile(file, 0, 0, a);
    ByteOfFile(file, 1, 8, b);
    ByteOfFile(file, 2, 16, c);
    var bits := FileBits(file);
    assert bits == bits[0..8] + bits[8..16] + bits[16..24];
  }

  /** The three bytes of a stream, bit by bit: the letter A in a fixed block, and six more bits. */
  lemma LetterFile(a: seq<bool>, b: seq<bool>, c: seq<bool>)
    requires a == [true, true, false, false, true, true, true, false]
    requires b == [false, false, true, false, false, false, false, false]
    requires c == [false, false, false, false, false, false, false, false]
    ensures FileBits([0x73, 0x04, 0x00]) == a + b + c
  {
    hide FileBits, Num, Val;
    EightBits(a);
    EightBits(b);
    EightBits(c);
    ThreeBytes([0x73, 0x04, 0x00], a, b, c);
  }

  lemma LetterCode(code: seq<bool>)
    requires code == [false, true, true, true, false, false, false, true]
    ensures ByteCodes([65]) == code
  {
    var data: seq<byte> := [65];
    EightBits(code);
    ValInjective(ByteCode(65), code);
    assert data[1..] == [];
    hide ByteCode, Val;
  }

  lemma LetterStands(bits: seq<bool>, a: seq<bool>, b: seq<bool>, c: seq<bool>, code: seq<bool>)
    requires bits == a + b + c && |c| == 8
    requires a == [true, true, false, false, true, true, true, false]
    requires b == [false, false, true, false, false, false, false, false]
    requires c == [false, false, false, false, false, false, false, false]
    requires code == [false, true, true, true, false, false, false, true]
    ensures At(bits, 0, [true, true, false] + code + seq(7, _ => false))
  {
    var s: seq<bool> := [true, true, false] + code + seq(7, _ => false);
    assert |s| == 18 && bits[0..18] == a + b + c[..2];
    assert a + b + c[..2] == s;
  }

  /** The compressed bytes 73 04 00 are the letter A. */
  lemma LetterA()
    ensures Deflate.Inflate(FileBits([0x73, 0x04, 0x00]), 0, []) == Done(18, [65])
  {
    var a := [true, true, false, false, true, true, true, false];
    var b := [false, false, true, false, false, false, false, false];
    var c := [false, false, false, false, false, false, false, false];
    var code := [false, true, true, true, false, false, false, true];
    hide FileBits, ByteCodes, Deflate.Inflate, At;
    LetterFile(a, b, c);
    LetterCode(code);
    LetterStands(FileBits([0x73, 0x04, 0x00]), a, b, c, code);
    BytesInNumbers([65], FileBits([0x73, 0x04, 0x00]), 0, 18, []);
    assert [] + [65] == [65];
  }

  /*-- Files ------------------------------------------------------------------*/

  function LongBytes(x: nat): (s: seq<byte>)
    requires x < 0x1_0000_0000
    ensures |s| == 4
  {
    [x % 256, x / 256 % 256, x / 65536 % 256, x / 16777216]
  }

  lemma LongRead(file: seq<byte>, p: nat, x: nat)
    requires x < 0x1_0000_0000 && Has(file, p, LongBytes(x))
    ensures p + 4 <= |file| && Long(file, p) == x
  {
    var s := LongBytes(x);
    assert p + 4 <= |file| by {
      HasByte(file, p, s, 3);
    }
    HasByte(file, p, s, 0);
    HasByte(file, p, s, 1);
    HasByte(file, p, s, 2);
    HasByte(file, p, s, 3);
    FourDigits(x);
  }

  /** The length as the trailer has it. */
  function LengthBytes(n: nat): (s: seq<byte>)
    ensures |s| == 4
  {
    LongBytes(n % 0x1_0000_0000)
  }

  lemma LengthBack(file: seq<byte>, p: nat, n: nat)
    requires Has(file, p, LengthBytes(n))
    ensures p + 4 <= |file| && LengthRight(file, p, n)
  {
    hide Has, Long, LongBytes;
    LongRead(file, p, n % 0x1_0000_0000);
  }

  lemma FourDigits(x: nat)
    ensures x == x % 256 + 256 * (x / 256 % 256) + 65536 * (x / 65536 % 256 + 256 * (x / 16777216))
  {
    assert x / 65536 == x / 256 / 256 && x / 16777216 == x / 65536 / 256;
  }

  /** A member: its header, the blocks of its data, and a trailer of any checksum and the length. */
  datatype File = File(header: Member, bs: seq<Block>, data: seq<byte>, crc: seq<byte>)

  ghost predicate ValidFile(f: File) {
    ValidMember(f.header) && f.bs != [] && ValidBlocks(f.bs) && PlayBlocks(f.bs, []) == Played(f.data) && |f.crc| == 4
  }

  /** The compressed data. They start at a byte. */
  ghost function DataBits(f: File): seq<bool>
    requires ValidFile(f)
  {
    StreamBits(f.bs, 8 * |HeaderBytes(f.header)|)
  }

  ghost function FileBytes(f: File): seq<byte>
    requires ValidFile(f)
  {
    HeaderBytes(f.header) + Pack(DataBits(f)) + f.crc + LengthBytes(|f.data|)
  }

  /** Where the trailer starts. */
  ghost function TrailerAt(f: File): nat
    requires ValidFile(f)
  {
    |HeaderBytes(f.header)| + |Pack(DataBits(f))|
  }

  /** Four strings in a row. */
  lemma HasFour(file: seq<byte>, a: seq<byte>, b: seq<byte>, c: seq<byte>, d: seq<byte>, t: nat, end: nat)
    requires file == a + b + c + d && t == |a| + |b| && end == t + |c|
    ensures Has(file, 0, a) && Has(file, |a|, b) && Has(file, end, d) && end + |d| == |file|
  {
    hide Has;
    WholeHas(file);
    HasParts(file, 0, a + b + c, d);
    HasParts(file, 0, a + b, c);
    HasParts(file, 0, a, b);
  }

  lemma FileParts(f: File)
    requires ValidFile(f)
    ensures var file, h, t := FileBytes(f), |HeaderBytes(f.header)|, TrailerAt(f);
            && Has(file, 0, HeaderBytes(f.header)) && Has(file, h, Pack(DataBits(f)))
            && Has(file, t + 4, LengthBytes(|f.data|)) && t + 8 == |file|
  {
    var a, b, c, d := HeaderBytes(f.header), Pack(DataBits(f)), f.crc, LengthBytes(|f.data|);
    assert FileBytes(f) == a + b + c + d && |c| == 4;
    hide HeaderBytes, DataBits, Pack, LengthBytes, ValidFile, Has, FileBytes;
    HasFour(FileBytes(f), a, b, c, d, TrailerAt(f), TrailerAt(f) + 4);
  }

  lemma WholeHas(file: seq<byte>)
    ensures Has(file, 0, file)
  {
    assert file[0..0 + |file|] == file;
  }

  lemma PackedEnd(h: nat, s: seq<bool>)
    ensures (8 * h + |s| + 7) / 8 == h + |Pack(s)|
  {
    hide ByteOf;
    var n, m := |s|, |Pack(s)|;
    assert n <= 8 * m < n + 8;
    assert 8 * (h + m) <= 8 * h + n + 7 < 8 * (h + m) + 8;
  }

  /** The data of a file inflate to what the blocks mean, and end at the trailer; or a head does not fit. */
  lemma DataRight(f: File, file: seq<byte>, h: nat)
    requires ValidFile(f) && h == |HeaderBytes(f.header)| && Has(file, h, Pack(DataBits(f)))
    ensures 8 * h <= 8 * |file|
    ensures var r := Deflate.Inflate(FileBits(file), 8 * h, []);
            if HeadsFit(f.bs, []) then r.Done? && r.out == f.data && (r.pos + 7) / 8 == TrailerAt(f) else r == Bad(1)
  {
    hide HeaderBytes, Pack, Has, FileBits, StreamBits, ValidBlocks, PlayBlocks, HeadsFit, Deflate.Inflate, At;
    var s, start := DataBits(f), 8 * h;
    var end := start + |s|;
    HasEnd(file, h, Pack(s));
    PackedAt(file, h, s);
    BlocksRoundTrip(f.bs, FileBits(file), start, end, []);
    PackedEnd(h, s);
  }

  /** What decoding such a file needs and gives. */
  ghost predicate Restores(file: seq<byte>, h: nat, t: nat, data: seq<byte>) {
    && h <= |file| && t + 8 == |file| && LengthRight(file, t + 4, |data|)
    && var r := Deflate.Inflate(FileBits(file), 8 * h, []);
       r.Done? && r.out == data && (r.pos + 7) / 8 == t
  }

  /** The data are not decoded. */
  ghost predicate Refused(file: seq<byte>, h: nat) {
    h <= |file| && Deflate.Inflate(FileBits(file), 8 * h, []) == Bad(1)
  }

  lemma HeaderRight(m: Member, file: seq<byte>, h: nat)
    requires ValidMember(m) && Has(file, 0, HeaderBytes(m)) && h == |HeaderBytes(m)|
    ensures HeaderAt(file, 0) == if m.crc.None? then Method(8, h) else Rejected
  {
    hide HeaderBytes, Has, HeaderAt;
    HeaderTheorem(m, file, 0);
  }

  lemma RestRight(f: File, file: seq<byte>, h: nat, t: nat)
    requires ValidFile(f) && h == |HeaderBytes(f.header)| && t == TrailerAt(f)
    requires Has(file, h, Pack(DataBits(f))) && Has(file, t + 4, LengthBytes(|f.data|)) && t + 8 == |file|
    ensures if HeadsFit(f.bs, []) then Restores(file, h, t, f.data) else Refused(file, h)
  {
    hide HeaderBytes, TrailerAt, DataBits, Pack, Has, FileBits, ValidFile, HeadsFit, Deflate.Inflate, LengthBytes,
      LengthRight;
    DataRight(f, file, h);
    LengthBack(file, t + 4, |f.data|);
  }

  /** The file of any member: the header is read, the data inflate to what its blocks mean, up to the
      trailer, and the trailer's length is right; or a head of a block does not fit. */
  lemma FileRight(f: File)
    requires ValidFile(f)
    ensures var file, h := FileBytes(f), |HeaderBytes(f.header)|;
            && HeaderAt(file, 0) == (if f.header.crc.None? then Method(8, h) else Rejected)
            && if HeadsFit(f.bs, []) then Restores(file, h, TrailerAt(f), f.data) else Refused(file, h)
  {
    FileParts(f);
    hide FileBytes, HeaderBytes, TrailerAt, DataBits, Pack, Has, HeaderAt, LengthBytes, Restores, Refused, HeadsFit;
    HeaderRight(f.header, FileBytes(f), |HeaderBytes(f.header)|);
    RestRight(f, FileBytes(f), |HeaderBytes(f.header)|, TrailerAt(f));
  }

  /** The program on the file of any member: the data come back exactly if the header has no checksum
      of its own and the heads of the blocks fit, and then the file is accepted exactly if the data are
      shorter than 2^32. */
  method Restore(inflater: Inflater, ghost f: File) returns (end: Ending)
    requires ValidFile(f)
    requires inflater.source.Valid() && inflater.output.Valid() && inflater.source.inbuf != inflater.output.window
    requires FileOn(inflater.source.disk, FileBytes(f))
    modifies inflater, inflater.heap, inflater.source, inflater.source.inbuf, inflater.output, inflater.output.window
    ensures f.header.crc.Some? ==> end == NotZipped
    ensures f.header.crc.None? && !HeadsFit(f.bs, []) ==> end == Halted
    ensures f.header.crc.None? && HeadsFit(f.bs, []) ==>
              && inflater.output.Valid() && inflater.output.flushed == f.data
              && inflater.heap.mem == old(inflater.heap.mem)
              && end == if |f.data| < 0x1_0000_0000 then Fine else Halted
  {
    FileRight(f);
    hide FileBytes, HeaderBytes, TrailerAt, ValidFile, HeaderAt, HeadsFit;
    end := RestoreFrom(inflater, FileBytes(f), |HeaderBytes(f.header)|, TrailerAt(f), f.data);
  }

  method RestoreFrom(inflater: Inflater, ghost file: seq<byte>, ghost h: nat, ghost t: nat, ghost data: seq<byte>)
    returns (end: Ending)
    requires HeaderAt(file, 0) == Rejected
        || (HeaderAt(file, 0) == Method(8, h) && (Refused(file, h) || Restores(file, h, t, data)))
    requires inflater.source.Valid() && inflater.output.Valid() && inflater.source.inbuf != inflater.output.window
    requires FileOn(inflater.source.disk, file)
    modifies inflater, inflater.heap, inflater.source, inflater.source.inbuf, inflater.output, inflater.output.window
    ensures HeaderAt(file, 0) == Rejected ==> end == NotZipped
    ensures HeaderAt(file, 0) != Rejected && Refused(file, h) ==> end == Halted
    ensures HeaderAt(file, 0) != Rejected && Restores(file, h, t, data) ==>
              && inflater.output.Valid() && inflater.output.flushed == data
              && inflater.heap.mem == old(inflater.heap.mem)
              && end == if |data| < 0x1_0000_0000 then Fine else Halted
  {
    hide Deflate.Inflate, FileBits, HeaderAt, FileOn, LengthRight;
    if HeaderAt(file, 0) != Rejected {
      Alone(FileBits(file), 8 * h, inflater.output.window[..]);
    }
    end := UncompressKernel(inflater, file);
  }

  /** A file for any list of bytes, in one fixed block. */
  function FileOf(m: Member, data: seq<byte>, crc: seq<byte>): File {
    File(m, [Fixed(Literals(data))], data, crc)
  }

  lemma EveryDataHasFile(m: Member, data: seq<byte>, crc: seq<byte>)
    requires ValidMember(m) && |crc| == 4
    ensures ValidFile(FileOf(m, data, crc)) && HeadsFit(FileOf(m, data, crc).bs, [])
  {
    var bs := [Fixed(Literals(data))];
    FixedWritable(Literals(data));
    PlayLiterals(data, []);
    assert [] + data == data;
    assert bs[1..] == [];
    hide AllWritable, Literals, Play, FixedLiterals, FixedDistances;
    assert PlayBlocks(bs, []) == Played(data) && HeadsFit(bs, []);
  }

  /** 2^32 zero bytes have a file whose trailer is right, the length in it being 0. */
  lemma LengthWraps(m: Member, crc: seq<byte>)
    requires ValidMember(m) && |crc| == 4
    ensures var f := FileOf(m, seq(0x1_0000_0000, _ => 0), crc);
            && ValidFile(f) && HeadsFit(f.bs, []) && |f.data| == 0x1_0000_0000
            && TrailerAt(f) + 8 == |FileBytes(f)|
            && LengthRight(FileBytes(f), TrailerAt(f) + 4, |f.data|) && Long(FileBytes(f), TrailerAt(f) + 4) == 0
  {
    var f := FileOf(m, seq(0x1_0000_0000, _ => 0), crc);
    EveryDataHasFile(m, f.data, crc);
    hide FileBytes, TrailerAt, ValidFile, FileBits, Deflate.Inflate, HeaderAt, Long, HeaderBytes, HeadsFit;
    FileRight(f);
  }

  /*-- Files of several members -----------------------------------------------*/

  ghost predicate ValidFiles(fs: seq<File>) {
    forall i :: 0 <= i < |fs| ==> ValidFile(fs[i])
  }

  /** A file in section 2.2 of RFC 1952 is a series of members. */
  ghost function SeriesBytes(fs: seq<File>): seq<byte>
    requires ValidFiles(fs)
  {
    if fs == [] then [] else FileBytes(fs[0]) + SeriesBytes(fs[1..])
  }

  /** It stands for their data, one after the other. */
  function SeriesData(fs: seq<File>): seq<byte> {
    if fs == [] then [] else fs[0].data + SeriesData(fs[1..])
  }

  lemma {:induction false} SeriesEmpty(fs: seq<File>)
    ensures SeriesData(fs) == [] <==> forall i :: 0 <= i < |fs| ==> fs[i].data == []
  {
    if fs != [] {
      SeriesEmpty(fs[1..]);
      assert forall i :: 1 <= i < |fs| ==> fs[i] == fs[1..][i - 1];
      if fs[0].data == [] {
        assert SeriesData(fs) == SeriesData(fs[1..]);
      }
    }
  }

  /** The data of the first member are those of the series exactly if the others have none. */
  lemma FirstOnly(fs: seq<File>)
    requires fs != []
    ensures fs[0].data == SeriesData(fs) <==> forall i :: 1 <= i < |fs| ==> fs[i].data == []
  {
    SeriesEmpty(fs[1..]);
    assert forall i :: 1 <= i < |fs| ==> fs[i] == fs[1..][i - 1];
    assert SeriesData(fs) == fs[0].data + SeriesData(fs[1..]);
  }

  lemma FileStarts(disk: Disk, a: seq<byte>, b: seq<byte>)
    requires FileOn(disk, a + b)
    ensures FileOn(disk, a)
  {
    forall i | 0 <= i < |a| ensures ByteIs(disk, a, i) {
      assert ByteIs(disk, a + b, i) && (a + b)[i] == a[i];
    }
  }

  /** The program reads the first member only: of a series it accepts it delivers the first data, which
      are all the data if and only if the other members have none. */
  method RestoreFirst(inflater: Inflater, ghost fs: seq<File>) returns (end: Ending)
    requires fs != [] && ValidFiles(fs)
    requires inflater.source.Valid() && inflater.output.Valid() && inflater.source.inbuf != inflater.output.window
    requires FileOn(inflater.source.disk, SeriesBytes(fs))
    modifies inflater, inflater.heap, inflater.source, inflater.source.inbuf, inflater.output, inflater.output.window
    ensures end == Fine <==> fs[0].header.crc.None? && HeadsFit(fs[0].bs, []) && |fs[0].data| < 0x1_0000_0000
    ensures end == Fine ==>
              && inflater.output.flushed == fs[0].data
              && (inflater.output.flushed == SeriesData(fs) <==> forall i :: 1 <= i < |fs| ==> fs[i].data == [])
  {
    FileStarts(inflater.source.disk, FileBytes(fs[0]), SeriesBytes(fs[1..]));
    FirstOnly(fs);
    hide ValidFile, FileBytes, SeriesBytes, SeriesData, HeadsFit, FileOn, Deflate.Inflate;
    end := Restore(inflater, fs[0]);
  }
}
