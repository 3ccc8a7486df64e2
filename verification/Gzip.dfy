/** The file around the compressed data: the header `get_method` reads, the trailer `unzip` checks,
    and `uncompress_kernel` (zip/misc.c:60-115, 178-203, zip/unzip.c:54-130). The other side is
    section 2.3 of RFC 1952. */
module Gzip {
  import opened Deflate
  import opened Input
  import opened Lookup
  import opened Preset
  import opened Inflate

  const DEFLATED: int := 8

  /** What get_method makes of the file from p on: a method and where the data starts; -1 because of
      the flags or the magic number; or the file ends first. */
  datatype Header = Method(m: byte, next: nat) | Rejected | Cut

  /** One past the first zero byte at p or later; past the end if there is none. */
  function AfterZero(file: seq<byte>, p: nat): (r: nat)
    ensures r > p && (r <= |file| ==> file[r - 1] == 0)
    ensures forall i :: p <= i < r - 1 && i < |file| ==> file[i] != 0
    decreases |file| - p
  {
    if p >= |file| then p + 1 else if file[p] == 0 then p + 1 else AfterZero(file, p + 1)
  }

  function ShortAt(file: seq<byte>, p: nat): nat
    requires p + 2 <= |file|
  {
    file[p] as nat + 256 * file[p + 1] as nat
  }

  predicate HasFlag(flags: byte, weight: nat)
    requires weight > 0
  {
    flags / weight % 2 == 1
  }

  /** The low byte first. */
  lemma ShortDigits(file: seq<byte>, p: nat)
    requires p + 2 <= |file|
    ensures file[p] == ShortAt(file, p) % 256 && file[p + 1] == ShortAt(file, p) / 256
  {
  }

  /** A byte is the sum of the weights of its flags. */
  lemma FlagSum(f: byte)
    ensures f == (if HasFlag(f, 1) then 1 else 0) + (if HasFlag(f, 2) then 2 else 0) + (if HasFlag(f, 4) then 4 else 0)
                 + (if HasFlag(f, 8) then 8 else 0) + (if HasFlag(f, 16) then 16 else 0) + (if HasFlag(f, 32) then 32 else 0)
                 + (if HasFlag(f, 64) then 64 else 0) + (if HasFlag(f, 128) then 128 else 0)
  {
    assert Above(f, 1) == f && Above(f, 256) == 0;
    hide HasFlag, Above;
    Halves(f, 1, 2);
    Halves(f, 2, 4);
    Halves(f, 4, 8);
    Halves(f, 8, 16);
    Halves(f, 16, 32);
    Halves(f, 32, 64);
    Halves(f, 64, 128);
    Halves(f, 128, 256);
  }

  function Above(f: byte, w: nat): nat
    requires w > 0
  {
    f / w
  }

  lemma QuotientIs(f: nat, v: nat, h: nat, r: nat)
    requires f == v * h + r && r < v
    ensures f / v == h
  {
    var d := f / v - h;
    assert v * d == v * (f / v) - v * h;
    Scaled(v, d);
  }

  lemma Scaled(v: int, d: int)
    requires v >= 0
    ensures d >= 1 ==> v * d >= v
    ensures d <= -1 ==> v * d <= -v
  {
    assert v * (d - 1) == v * d - v && v * (d + 1) == v * d + v;
  }

  lemma Halves(f: byte, w: nat, v: nat)
    requires w > 0 && v == w + w
    ensures Above(f, w) == (if HasFlag(f, w) then 1 else 0) + 2 * Above(f, v)
  {
    var h, b := f / w / 2, f / w % 2;
    Spread(w, v, h, b);
    assert f == w * (f / w) + f % w;
    QuotientIs(f, v, h, (if b == 1 then w else 0) + f % w);
  }

  lemma Spread(w: nat, v: nat, h: nat, b: nat)
    requires v == w + w && b < 2
    ensures w * (2 * h + b) == v * h + if b == 1 then w else 0
  {
  }

  /** Past the extra field, if there is one. */
  function AfterExtra(file: seq<byte>, flags: byte, p: nat): nat {
    if !HasFlag(flags, 4) then p else if p + 2 > |file| then |file| + 1 else p + 2 + ShortAt(file, p)
  }

  /** Past a name or comment, if there is one. */
  function AfterText(file: seq<byte>, present: bool, p: nat): nat {
    if !present then p else if p > |file| then p else AfterZero(file, p)
  }

  function HeaderAt(file: seq<byte>, p: nat): Header {
    if p + 2 > |file| then Cut
    else if file[p] != 31 || (file[p + 1] != 139 && file[p + 1] != 158) then Rejected
    else if p + 4 > |file| then Cut
    else
      var flags := file[p + 3];
      if HasFlag(flags, 32) || HasFlag(flags, 2) || flags / 64 != 0 then Rejected
      else
        var end := AfterText(file, HasFlag(flags, 16), AfterText(file, HasFlag(flags, 8), AfterExtra(file, flags, p + 10)));
        if end > |file| then Cut else Method(file[p + 2], end)
  }

  /*-- Section 2.3 of RFC 1952 ------------------------------------------------*/

  datatype Option<T> = None | Some(value: T)

  /** The header of a member compressed with DEFLATE. */
  datatype Member = Member(text: bool, crc: Option<seq<byte>>, extra: Option<seq<byte>>, name: Option<seq<byte>>,
                           comment: Option<seq<byte>>, mtime: seq<byte>, xfl: byte, os: byte)

  predicate Text(t: Option<seq<byte>>) {
    t.Some? ==> 0 !in t.value
  }

  predicate ValidMember(m: Member) {
    && |m.mtime| == 4 && (m.crc.Some? ==> |m.crc.value| == 2) && (m.extra.Some? ==> |m.extra.value| < 65536)
    && Text(m.name) && Text(m.comment)
  }

  function Flags(m: Member): byte {
    (if m.text then 1 else 0) + (if m.crc.Some? then 2 else 0) + (if m.extra.Some? then 4 else 0)
    + (if m.name.Some? then 8 else 0) + (if m.comment.Some? then 16 else 0)
  }

  function ExtraBytes(t: Option<seq<byte>>): seq<byte>
    requires t.Some? ==> |t.value| < 65536
  {
    match t
    case None => []
    case Some(x) => [|x| % 256, |x| / 256] + x
  }

  function TextBytes(t: Option<seq<byte>>): seq<byte> {
    if t.None? then [] else t.value + [0]
  }

  function HeaderBytes(m: Member): seq<byte>
    requires ValidMember(m)
  {
    [31, 139, 8, Flags(m)] + m.mtime + [m.xfl, m.os] + ExtraBytes(m.extra) + TextBytes(m.name) + TextBytes(m.comment)
    + (if m.crc.None? then [] else m.crc.value)
  }

  /** s is in the file at p. */
  ghost predicate Has(file: seq<byte>, p: nat, s: seq<byte>) {
    p + |s| <= |file| && file[p..p + |s|] == s
  }

  lemma HasParts(file: seq<byte>, p: nat, a: seq<byte>, b: seq<byte>)
    requires Has(file, p, a + b)
    ensures Has(file, p, a) && Has(file, p + |a|, b)
  {
    assert file[p..p + |a|] == (a + b)[..|a|];
    assert file[p + |a|..p + |a| + |b|] == (a + b)[|a|..];
  }

  lemma {:induction false} FindsZero(file: seq<byte>, p: nat, t: seq<byte>)
    requires Has(file, p, t + [0]) && 0 !in t
    ensures AfterZero(file, p) == p + |t| + 1
    decreases |t|
  {
    HasParts(file, p, t, [0]);
    if t == [] {
      assert file[p] == file[p..p + 1][0];
    } else {
      assert file[p] == file[p..p + |t|][0] == t[0];
      assert t + [0] == [t[0]] + (t[1..] + [0]);
      HasParts(file, p, [t[0]], t[1..] + [0]);
      FindsZero(file, p + 1, t[1..]);
    }
  }

  lemma TextRead(file: seq<byte>, p: nat, t: Option<seq<byte>>)
    requires Has(file, p, TextBytes(t)) && Text(t)
    ensures AfterText(file, t.Some?, p) == p + |TextBytes(t)|
  {
    if t.Some? {
      FindsZero(file, p, t.value);
    }
  }

  lemma ExtraRead(file: seq<byte>, p: nat, flags: byte, t: Option<seq<byte>>)
    requires (t.Some? ==> |t.value| < 65536) && Has(file, p, ExtraBytes(t)) && HasFlag(flags, 4) == t.Some?
    ensures AfterExtra(file, flags, p) == p + |ExtraBytes(t)|
  {
    if t.Some? {
      var e := ExtraBytes(t);
      assert file[p] == file[p..p + |e|][0] && file[p + 1] == file[p..p + |e|][1];
    }
  }

  lemma FlagBits(m: Member)
    ensures var f := Flags(m);
            && HasFlag(f, 1) == m.text && HasFlag(f, 2) == m.crc.Some? && HasFlag(f, 4) == m.extra.Some?
            && HasFlag(f, 8) == m.name.Some? && HasFlag(f, 16) == m.comment.Some?
            && !HasFlag(f, 32) && f / 64 == 0
  {
  }

  /** The ten bytes every header starts with. */
  function FixedBytes(m: Member): (s: seq<byte>)
    requires |m.mtime| == 4
    ensures |s| == 10 && s[0] == 31 && s[1] == 139 && s[2] == 8 && s[3] == Flags(m)
  {
    [31, 139, 8, Flags(m)] + m.mtime + [m.xfl, m.os]
  }

  lemma HasByte(file: seq<byte>, p: nat, s: seq<byte>, i: nat)
    requires Has(file, p, s) && i < |s|
    ensures p + i < |file| && file[p + i] == s[i]
  {
    assert file[p..p + |s|][i] == s[i];
  }

  /** The start of the header, as get_method looks at it. */
  lemma FixedRead(m: Member, file: seq<byte>, p: nat)
    requires |m.mtime| == 4 && Has(file, p, FixedBytes(m))
    ensures p + 10 <= |file| && file[p] == 31 && file[p + 1] == 139 && file[p + 2] == 8 && file[p + 3] == Flags(m)
  {
    hide Flags, Has;
    assert |FixedBytes(m)| == 10 && p + 10 <= |file| by {
      HasByte(file, p, FixedBytes(m), 9);
    }
    HasByte(file, p, FixedBytes(m), 0);
    HasByte(file, p, FixedBytes(m), 1);
    HasByte(file, p, FixedBytes(m), 2);
    HasByte(file, p, FixedBytes(m), 3);
  }

  /** The options of a header without a checksum are read up to their end. */
  lemma OptionsRead(m: Member, file: seq<byte>, p: nat, q: nat, r: nat, end: nat)
    requires ValidMember(m) && Has(file, p, ExtraBytes(m.extra)) && q == p + |ExtraBytes(m.extra)|
    requires Has(file, q, TextBytes(m.name)) && r == q + |TextBytes(m.name)|
    requires Has(file, r, TextBytes(m.comment)) && end == r + |TextBytes(m.comment)|
    ensures var f := Flags(m);
            AfterText(file, HasFlag(f, 16), AfterText(file, HasFlag(f, 8), AfterExtra(file, f, p))) == end
  {
    FlagBits(m);
    hide ExtraBytes, TextBytes, Flags, AfterText, AfterExtra, HasFlag, Has;
    ExtraRead(file, p, Flags(m), m.extra);
    TextRead(file, q, m.name);
    TextRead(file, r, m.comment);
  }

  /** Five strings in a row. */
  lemma HasFive(file: seq<byte>, p: nat, a: seq<byte>, b: seq<byte>, c: seq<byte>, d: seq<byte>, e: seq<byte>, q: nat, r: nat,
          s: nat, t: nat)
    requires Has(file, p, a + b + c + d + e) && q == p + |a| && r == q + |b| && s == r + |c| && t == s + |d|
    ensures Has(file, p, a) && Has(file, q, b) && Has(file, r, c) && Has(file, s, d) && t + |e| <= |file|
    ensures t + |e| == p + |a + b + c + d + e|
  {
    HasEnd(file, p, a + b + c + d + e);
    hide Has;
    HasParts(file, p, a + b + c + d, e);
    HasParts(file, p, a + b + c, d);
    HasParts(file, p, a + b, c);
    HasParts(file, p, a, b);
  }

  lemma HeaderFive(m: Member, tail: seq<byte>)
    requires ValidMember(m) && tail == if m.crc.None? then [] else m.crc.value
    ensures HeaderBytes(m) == FixedBytes(m) + ExtraBytes(m.extra) + TextBytes(m.name) + TextBytes(m.comment) + tail
  {
    hide ExtraBytes, TextBytes, Flags;
  }

  /** get_method accepts the header of every member that has no checksum of its own, and stops exactly
      at its end; one with a checksum (flag FHCRC, which the program takes for a continuation mark) it
      rejects. */
  lemma HeaderTheorem(m: Member, file: seq<byte>, p: nat)
    requires ValidMember(m) && Has(file, p, HeaderBytes(m))
    ensures HeaderAt(file, p) == if m.crc.None? then Method(8, p + |HeaderBytes(m)|) else Rejected
  {
    hide FixedBytes, HeaderBytes, ExtraBytes, TextBytes, Flags, AfterText, AfterExtra, HasFlag, Has, HeaderAt, Text;
    FlagBits(m);
    var x, n, c := ExtraBytes(m.extra), TextBytes(m.name), TextBytes(m.comment);
    var fixed, tail := FixedBytes(m), if m.crc.None? then [] else m.crc.value;
    HeaderFive(m, tail);
    var a := p + 10;
    var b := a + |x|;
    var d := b + |n|;
    var end := d + |c|;
    HasFive(file, p, fixed, x, n, c, tail, a, b, d, end);
    FixedRead(m, file, p);
    OptionsRead(m, file, a, b, d, end);
    HeaderLong(file, p, end);
  }

  lemma HasEnd(file: seq<byte>, p: nat, s: seq<byte>)
    requires Has(file, p, s)
    ensures p + |s| <= |file|
  {
  }

  /** The first two bytes are 1F 8B, or 1F 9E; any others are rejected. */
  lemma HeaderMagic(file: seq<byte>, p: nat)
    requires p + 4 <= |file|
    ensures file[p] != 31 || (file[p + 1] != 139 && file[p + 1] != 158) ==> HeaderAt(file, p) == Rejected
    ensures file[p] == 31 && (file[p + 1] == 139 || file[p + 1] == 158) && file[p + 3] == 0 ==>
              HeaderAt(file, p) == if p + 10 <= |file| then Method(file[p + 2], p + 10) else Cut
  {
  }

  /** What HeaderAt makes of a header long enough. */
  lemma HeaderLong(file: seq<byte>, p: nat, end: nat)
    requires p + 10 <= |file| && file[p] == 31 && (file[p + 1] == 139 || file[p + 1] == 158)
    requires AfterText(file, HasFlag(file[p + 3], 16),
                       AfterText(file, HasFlag(file[p + 3], 8), AfterExtra(file, file[p + 3], p + 10))) == end
    ensures HeaderAt(file, p) == if HasFlag(file[p + 3], 32) || HasFlag(file[p + 3], 2) || file[p + 3] / 64 != 0 then Rejected
                                 else if end > |file| then Cut else Method(file[p + 2], end)
  {
    hide AfterText, AfterExtra, HasFlag;
  }

  /*-- The program ------------------------------------------------------------*/

  /** The device starts with the file. */
  ghost predicate FileOn(disk: Disk, file: seq<byte>) {
    forall i {:trigger ByteIs(disk, file, i)} :: 0 <= i < |file| ==> ByteIs(disk, file, i)
  }

  ghost predicate ByteIs(disk: Disk, file: seq<byte>, i: nat)
    requires i < |file|
  {
    disk(i) == file[i]
  }

  function FileBits(file: seq<byte>): (s: seq<bool>)
    ensures |s| == 8 * |file|
  {
    seq(8 * |file|, i requires 0 <= i < 8 * |file| => ByteBits(file[i / 8])[i % 8])
  }

  lemma FileBitsOn(disk: Disk, file: seq<byte>)
    requires FileOn(disk, file)
    ensures OnDisk(disk, FileBits(file))
  {
    forall i | 0 <= i < 8 * |file| ensures BitIs(disk, FileBits(file), i) {
      assert ByteIs(disk, file, i / 8);
    }
  }

  method Skip(source: Source, n: nat)
    requires source.Valid()
    modifies source, source.inbuf
    ensures source.Valid() && source.BytesRead() == old(source.BytesRead()) + n
  {
    var i := 0;
    while i < n
      invariant i <= n && source.Valid() && source.BytesRead() == old(source.BytesRead()) + i
    {
      var _ := source.GetByte();
      i := i + 1;
    }
  }

  /** The next byte of the file. */
  method Next(source: Source, ghost file: seq<byte>) returns (c: byte)
    requires source.Valid() && FileOn(source.disk, file) && source.BytesRead() < |file|
    modifies source, source.inbuf
    ensures source.Valid() && source.BytesRead() == old(source.BytesRead()) + 1
    ensures c == file[old(source.BytesRead())]
  {
    assert ByteIs(source.disk, file, source.BytesRead());
    c := source.GetByte();
  }

  /** while (get_byte() != 0); */
  method SkipText(source: Source, ghost file: seq<byte>)
    requires source.Valid() && FileOn(source.disk, file) && AfterZero(file, source.BytesRead()) <= |file|
    modifies source, source.inbuf
    ensures source.Valid() && source.BytesRead() == AfterZero(file, old(source.BytesRead()))
  {
    ghost var end := AfterZero(file, source.BytesRead());
    var c := Next(source, file);
    while c != 0
      invariant source.Valid() && source.BytesRead() <= end
      invariant if c != 0 then AfterZero(file, source.BytesRead()) == end else source.BytesRead() == end
      decreases if c != 0 then end + 1 - source.BytesRead() else 0
    {
      c := Next(source, file);
    }
  }

  method SkipExtra(source: Source, ghost file: seq<byte>)
    requires source.Valid() && FileOn(source.disk, file)
    requires source.BytesRead() + 2 <= |file|
    modifies source, source.inbuf
    ensures source.Valid() && source.BytesRead() == old(source.BytesRead()) + 2 + ShortAt(file, old(source.BytesRead()))
  {
    var low := Next(source, file);
    var high := Next(source, file);
    Skip(source, low as nat + 256 * high as nat);
  }

  lemma AfterTextGrows(file: seq<byte>, present: bool, p: nat)
    ensures AfterText(file, present, p) >= p
    ensures present && AfterText(file, present, p) <= |file| ==> AfterText(file, present, p) == AfterZero(file, p)
  {
  }

  /** The optional parts of the header. */
  method SkipOptions(source: Source, flags: byte, ghost file: seq<byte>)
    requires source.Valid() && FileOn(source.disk, file)
    requires AfterText(file, HasFlag(flags, 16),
                       AfterText(file, HasFlag(flags, 8), AfterExtra(file, flags, source.BytesRead()))) <= |file|
    modifies source, source.inbuf
    ensures source.Valid()
    ensures source.BytesRead() ==
              AfterText(file, HasFlag(flags, 16),
                        AfterText(file, HasFlag(flags, 8), AfterExtra(file, flags, old(source.BytesRead()))))
  {
    ghost var x := AfterExtra(file, flags, source.BytesRead());
    ghost var y := AfterText(file, HasFlag(flags, 8), x);
    AfterTextGrows(file, HasFlag(flags, 8), x);
    AfterTextGrows(file, HasFlag(flags, 16), y);
    if HasFlag(flags, 4) {
      SkipExtra(source, file);
    }
    if HasFlag(flags, 8) {
      SkipText(source, file);
    }
    if HasFlag(flags, 16) {
      SkipText(source, file);
    }
  }

  /** get_method */
  method GetMethod(source: Source, ghost file: seq<byte>) returns (m: int)
    requires source.Valid() && FileOn(source.disk, file) && HeaderAt(file, source.BytesRead()) != Cut
    modifies source, source.inbuf
    ensures source.Valid()
    ensures match HeaderAt(file, old(source.BytesRead()))
            case Method(x, next) => m == x && source.BytesRead() == next <= |file|
            case _ => m == -1
  {
    hide AfterText, AfterExtra, FileOn;
    m := -1;
    var magic0 := Next(source, file);
    var magic1 := Next(source, file);
    if magic0 == 31 && (magic1 == 139 || magic1 == 158) {
      var method0 := Next(source, file);
      var flags := Next(source, file);
      if HasFlag(flags, 32) || HasFlag(flags, 2) || flags / 64 != 0 {
        return -1;
      }
      Skip(source, 6);
      SkipOptions(source, flags, file);
      m := method0;
    }
  }

  /** The 32-bit number at p (LG). */
  function Long(file: seq<byte>, p: nat): nat
    requires p + 4 <= |file|
  {
    ShortAt(file, p) + 65536 * ShortAt(file, p + 2)
  }

  /** The low byte first. */
  lemma LongDigits(file: seq<byte>, p: nat)
    requires p + 4 <= |file|
    ensures file[p] == Long(file, p) % 256 && file[p + 1] == Long(file, p) / 256 % 256
    ensures file[p + 2] == Long(file, p) / 65536 % 256 && file[p + 3] == Long(file, p) / 16777216
  {
    var a, b, c := file[p] as nat, file[p + 1] as nat, file[p + 2] as nat;
    var x := Long(file, p);
    assert x / 256 == b + 256 * (c + 256 * file[p + 3] as nat);
    assert x / 65536 == x / 256 / 256 && x / 16777216 == x / 256 / 256 / 256;
  }

  method ReadLong(source: Source, ghost file: seq<byte>) returns (x: nat)
    requires source.Valid() && FileOn(source.disk, file) && source.BytesRead() + 4 <= |file|
    modifies source, source.inbuf
    ensures source.Valid() && source.BytesRead() == old(source.BytesRead()) + 4
    ensures x == Long(file, old(source.BytesRead()))
  {
    hide FileOn;
    var b0 := Next(source, file);
    var b1 := Next(source, file);
    var b2 := Next(source, file);
    var b3 := Next(source, file);
    x := b0 as nat + 256 * b1 as nat + 65536 * (b2 as nat + 256 * b3 as nat);
  }

  /** `error` halts the machine. */
  datatype Ending = Fine | NotZipped | Halted

  /** How the file must end, when its data has been decompressed to `o` up to bit p. */
  ghost predicate TrailerFits(file: seq<byte>, r: Outcome) {
    r.Done? ==> (r.pos + 7) / 8 + 8 <= |file|
  }

  /** The number at p is the length n as section 2.3.1 of RFC 1952 has it, modulo 2^32. */
  predicate LengthRight(file: seq<byte>, p: nat, n: nat)
    requires p + 4 <= |file|
  {
    Long(file, p) == n % 0x1_0000_0000
  }

  /** The program compares with the whole length: of the right ones it accepts those below 2^32. */
  lemma LengthCompared(file: seq<byte>, p: nat, n: nat)
    requires p + 4 <= |file| && LengthRight(file, p, n)
    ensures Long(file, p) == n <==> n < 0x1_0000_0000
  {
    hide Long;
  }

  /** unzip: decompress, then compare the length with the trailer's. */
  method Unzip(inflater: Inflater, m: int, ghost file: seq<byte>) returns (end: Ending)
    requires inflater.source.Valid() && inflater.output.Valid() && inflater.source.inbuf != inflater.output.window
    requires FileOn(inflater.source.disk, file) && inflater.source.BytesRead() <= |file|
    requires m == DEFLATED ==>
               var r := Deflate.Inflate(FileBits(file), 8 * inflater.source.BytesRead(), inflater.output.window[..]);
               Decided(r) && TrailerFits(file, r)
    modifies inflater, inflater.heap, inflater.source, inflater.source.inbuf, inflater.output, inflater.output.window
    ensures m != DEFLATED ==> end == Halted
    ensures m == DEFLATED ==>
              match Deflate.Inflate(FileBits(file), 8 * old(inflater.source.BytesRead()), old(inflater.output.window[..]))
              case Done(p, o) =>
                && |o| >= WSIZE && inflater.output.Valid()
                && inflater.output.flushed == old(inflater.output.flushed) + o[WSIZE..]
                && (p + 7) / 8 + 8 <= |file| && inflater.heap.mem == old(inflater.heap.mem)
                && end == (if Long(file, (p + 7) / 8 + 4) == |inflater.output.flushed| then Fine else Halted)
                && (LengthRight(file, (p + 7) / 8 + 4, |inflater.output.flushed|) ==>
                      (end == Fine <==> |inflater.output.flushed| < 0x1_0000_0000))
              case _ => end == Halted
  {
    hide Deflate.Inflate, FileOn, OnDisk, FileBits, Long, LengthRight;
    if m != DEFLATED {
      return Halted;
    }
    FileBitsOn(inflater.source.disk, file);
    var res := inflater.Inflate(FileBits(file));
    if res != 0 {
      return Halted;
    }
    Skip(inflater.source, 4);
    var origLen := ReadLong(inflater.source, file);
    end := if origLen == inflater.output.bytesOut then Fine else Halted;
    ghost var q: nat := inflater.source.BytesRead() - 4;
    if LengthRight(file, q, |inflater.output.flushed|) {
      LengthCompared(file, q, |inflater.output.flushed|);
    }
  }

  /** uncompress_kernel */
  method UncompressKernel(inflater: Inflater, ghost file: seq<byte>) returns (end: Ending)
    requires inflater.source.Valid() && inflater.output.Valid() && inflater.source.inbuf != inflater.output.window
    requires FileOn(inflater.source.disk, file) && HeaderAt(file, 0) != Cut
    requires match HeaderAt(file, 0)
             case Method(m, next) =>
               m == DEFLATED ==> (
                 && next <= |file|
                 && var r := Deflate.Inflate(FileBits(file), 8 * next, inflater.output.window[..]);
                 Decided(r) && TrailerFits(file, r))
             case _ => true
    modifies inflater, inflater.heap, inflater.source, inflater.source.inbuf, inflater.output, inflater.output.window
    ensures HeaderAt(file, 0).Rejected? ==> end == NotZipped
    ensures HeaderAt(file, 0).Method? && HeaderAt(file, 0).m != DEFLATED ==> end == Halted
    ensures HeaderAt(file, 0).Method? && HeaderAt(file, 0).m == DEFLATED ==>
              match Deflate.Inflate(FileBits(file), 8 * HeaderAt(file, 0).next, [])
              case Done(p, o) =>
                && inflater.output.Valid() && inflater.output.flushed == o
                && (p + 7) / 8 + 8 <= |file| && inflater.heap.mem == old(inflater.heap.mem)
                && end == (if Long(file, (p + 7) / 8 + 4) == |o| then Fine else Halted)
                && (LengthRight(file, (p + 7) / 8 + 4, |o|) ==> (end == Fine <==> |o| < 0x1_0000_0000))
              case Bad(_) => end == Halted
              case _ => true
  {
    hide Deflate.Inflate, FileOn, HeaderAt, Long, LengthRight;
    inflater.source.Clear();
    inflater.output.Clear();
    var m := GetMethod(inflater.source, file);
    if m < 0 {
      return NotZipped;
    }
    ghost var next := inflater.source.BytesRead();
    Alone(FileBits(file), 8 * next, inflater.output.window[..]);
    end := Unzip(inflater, m, file);
  }
}
