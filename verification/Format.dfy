/** The numbers of RFC 1951 written out: the codes of the fixed sets, what the codes for lengths and
    distances stand for, the order of the code length code, the fields of a block. The tables and
    lists of `Deflate` are the program's (zip/inflate.c:53-82, 524-542); here they are said to be
    these numbers, without themselves. */
module Format {
  import opened Bits
  import opened Canonical
  import opened Deflate
  import opened Lookup
  import opened Blocks
  import opened Encode
  import opened Streams

  /*-- The codes of section 3.2.6 ---------------------------------------------*/

  lemma {:induction false} NoneShorter(lens: seq<nat>, t: nat)
    requires forall u :: 1 <= u < t ==> Count(lens, u) == 0
    ensures FirstCode(lens, t) == 0
  {
    if t > 1 {
      NoneShorter(lens, t - 1);
    }
  }

  lemma FixedFirst()
    ensures FirstCode(FixedLiterals(), 7) == 0 && FirstCode(FixedLiterals(), 8) == 48 && FirstCode(FixedLiterals(), 9) == 400
    ensures FirstCode(FixedDistances(), 5) == 0
  {
    forall t ensures Count(FixedLiterals(), t) == if t == 7 then 24 else if t == 8 then 152 else if t == 9 then 112 else 0 {
      FixedCount(t);
    }
    forall t ensures Count(FixedDistances(), t) == if t == 5 then 30 else 0 {
      FixedCount(t);
    }
    hide FixedLiterals, FixedDistances, Count;
    NoneShorter(FixedLiterals(), 7);
    NoneShorter(FixedDistances(), 5);
  }

  /** How many of n lengths are t, n of one length. */
  lemma PrefixCount(before: seq<nat>, n: nat, x: nat, t: nat)
    ensures Count(before + Run(n, x), t) == Count(before, t) + if t == x then n else 0
  {
    CountConcat(before, Run(n, x), t);
    CountRun(n, x, t);
  }

  lemma FixedPrefix(i: nat)
    requires i < 288
    ensures var b := FixedLiterals();
            b[..i] == if i < 144 then Run(i, 8)
                      else if i < 256 then Run(144, 8) + Run(i - 144, 9)
                      else if i < 280 then Run(144, 8) + Run(112, 9) + Run(i - 256, 7)
                      else Run(144, 8) + Run(112, 9) + Run(24, 7) + Run(i - 280, 8)
  {
  }

  /** The fixed literal/length codes as numbers. */
  lemma FixedLiteralCodes(i: nat)
    requires i < 288
    ensures i < 144 ==> FixedLiterals()[i] == 8 && Code(FixedLiterals(), i) == 48 + i
    ensures 144 <= i < 256 ==> FixedLiterals()[i] == 9 && Code(FixedLiterals(), i) == 400 + (i - 144)
    ensures 256 <= i < 280 ==> FixedLiterals()[i] == 7 && Code(FixedLiterals(), i) == i - 256
    ensures 280 <= i ==> FixedLiterals()[i] == 8 && Code(FixedLiterals(), i) == 192 + (i - 280)
  {
    FixedFirst();
    FixedPrefix(i);
    hide FirstCode;
    if i < 144 {
      CountRun(i, 8, 8);
    } else if i < 256 {
      CountRun(144, 8, 9);
      PrefixCount(Run(144, 8), i - 144, 9, 9);
    } else if i < 280 {
      CountRun(144, 8, 7);
      PrefixCount(Run(144, 8), 112, 9, 7);
      PrefixCount(Run(144, 8) + Run(112, 9), i - 256, 7, 7);
    } else {
      CountRun(144, 8, 8);
      PrefixCount(Run(144, 8), 112, 9, 8);
      PrefixCount(Run(144, 8) + Run(112, 9), 24, 7, 8);
      PrefixCount(Run(144, 8) + Run(112, 9) + Run(24, 7), i - 280, 8, 8);
    }
  }

  /** The fixed distance codes are five bits each and in order. */
  lemma FixedDistanceCodes(i: nat)
    requires i < 30
    ensures FixedDistances()[i] == 5 && Code(FixedDistances(), i) == i
  {
    FixedFirst();
    assert FixedDistances()[..i] == Run(i, 5);
    hide FirstCode;
    CountRun(i, 5, 5);
  }

  /*-- Lengths and distances, section 3.2.5 -----------------------------------*/

  /** Distance code m: the distances from 1 + (2 + m % 2) * 2^e on, in e extra bits. */
  lemma DistanceCodes(m: nat)
    requires m < 30
    ensures m < 2 ==> DIST_EXTRA[m] == 0 && DIST_BASE[m] == m + 1
    ensures m >= 2 ==> DIST_EXTRA[m] == m / 2 - 1 && DIST_BASE[m] == 1 + (2 + m % 2) * Pow2(m / 2 - 1)
  {
    Pow2To16();
    hide Pow2;
    if m < 16 {
      assert m >= 2 ==> DIST_BASE[m] == 1 + (2 + m % 2) * Pow2(m / 2 - 1);
    } else {
      assert DIST_BASE[m] == 1 + (2 + m % 2) * Pow2(m / 2 - 1);
    }
  }

  /** Length code 257 + i: up to 10 one each, from 11 on four codes for each number of extra bits, and
      258 by itself. */
  lemma LengthCodes(i: nat)
    requires i < 29
    ensures i < 8 ==> LENGTH_EXTRA[i] == 0 && LENGTH_BASE[i] == 3 + i
    ensures 8 <= i < 28 ==> LENGTH_EXTRA[i] == i / 4 - 1 && LENGTH_BASE[i] == 3 + (4 + i % 4) * Pow2(i / 4 - 1)
    ensures i == 28 ==> LENGTH_EXTRA[i] == 0 && LENGTH_BASE[i] == 258
  {
    Pow2To16();
    hide Pow2;
  }

  lemma NoField(bits: seq<bool>, p: nat)
    requires p <= |bits|
    ensures Field(bits, p, 0) == 0
  {
    assert bits[p..p + 0] == [];
  }

  /** A distance code that has been decoded up to p, and its extra bits. */
  lemma DistanceMeans(m: nat, p: nat, dl: seq<nat>, bits: seq<bool>, out: seq<byte>, len: nat, e: nat, dist: nat)
    requires m < 30 && e == (if m < 2 then 0 else m / 2 - 1) && p + e <= |bits|
    requires dist == if m < 2 then m + 1 else 1 + (2 + m % 2) * Pow2(e) + Field(bits, p, e)
    ensures MatchOn(Sym(m, p), dl, bits, out, len) == if dist > |out| then Stop(Far) else Go(p + e, CopyMatch(out, dist, len))
  {
    DistanceCodes(m);
    NoField(bits, p);
    DistancePositive(m);
    hide Pow2, Field, CopyMatch, MatchOn;
    assert Reads(DIST_BASE, DIST_EXTRA, m, bits, p, p + e, dist);
    hide Reads;
    DistTurn(m, p, p + e, dist, dl, bits, out, len);
  }

  lemma DistanceForm(dist: nat, m: nat, x: nat)
    requires m < 30
    ensures (if m < 2 then dist == m + 1 && x == 0 else x < Pow2(m / 2 - 1) && dist - 1 == (2 + m % 2) * Pow2(m / 2 - 1) + x)
            <==> x < Pow2(DIST_EXTRA[m]) && DIST_BASE[m] + x == dist
  {
    DistanceCodes(m);
    assert Pow2(0) == 1;
    hide Pow2;
  }

  lemma DistancePick(dist: nat, m: nat, x: nat)
    requires 1 <= dist <= 32768 && m < 30
    ensures x < Pow2(DIST_EXTRA[m]) && DIST_BASE[m] + x == dist <==>
              m == Pick(DIST_BASE, 29, dist) && x + DIST_BASE[m] == dist
  {
    DistCovered(dist);
    hide Pow2, Pick;
    if x < Pow2(DIST_EXTRA[m]) {
      DistanceExact(dist, m, x);
    }
  }

  /** Every distance has one code and one number in its extra bits. */
  lemma DistanceNumber(dist: nat, m: nat, x: nat)
    requires 1 <= dist <= 32768 && m < 30
    ensures (if m < 2 then dist == m + 1 && x == 0 else x < Pow2(m / 2 - 1) && dist - 1 == (2 + m % 2) * Pow2(m / 2 - 1) + x)
            <==> m == Pick(DIST_BASE, 29, dist) && x + DIST_BASE[m] == dist
  {
    hide Pow2, Pick;
    DistanceForm(dist, m, x);
    DistancePick(dist, m, x);
  }

  /** A length code that has been decoded up to p, and its extra bits. */
  lemma LengthMeans(i: nat, p: nat, ll: seq<nat>, dl: seq<nat>, bits: seq<bool>, out: seq<byte>, e: nat, q: nat, len: nat)
    requires i < 29 && e == (if 8 <= i < 28 then i / 4 - 1 else 0) && q == p + e <= |bits|
    requires len == if i < 8 then 3 + i else if i == 28 then 258 else 3 + (4 + i % 4) * Pow2(e) + Field(bits, p, e)
    ensures TurnOn(Sym(257 + i, p), ll, dl, bits, out) == MatchOn(Decode(dl, bits, q), dl, bits, out, len)
  {
    LengthCodes(i);
    NoField(bits, p);
    hide Pow2, Field, MatchOn, TurnOn, Decode;
    assert Reads(LENGTH_BASE, LENGTH_EXTRA, i, bits, p, q, len);
    hide Reads;
    LengthTurn(i, p, q, len, ll, dl, bits, out);
  }

  lemma LengthForm(len: nat, i: nat, x: nat)
    requires i < 29
    ensures (if i < 8 then len == 3 + i && x == 0
             else if i == 28 then len == 258 && x == 0
             else x < Pow2(i / 4 - 1) && len - 3 == (4 + i % 4) * Pow2(i / 4 - 1) + x)
            <==> x < Pow2(LENGTH_EXTRA[i]) && LENGTH_BASE[i] + x == len
  {
    LengthCodes(i);
    assert Pow2(0) == 1;
    hide Pow2;
  }

  lemma LengthPick(len: nat, second: bool, i: nat, x: nat)
    requires 3 <= len <= 258 && i < 29 && (second ==> len == 258)
    ensures x < Pow2(LENGTH_EXTRA[i]) && LENGTH_BASE[i] + x == len && (second <==> len == 258 && i == 27)
            <==> i == LengthEntry(len, second) && x + LENGTH_BASE[i] == len
  {
    EntryCovers(len, second);
    LengthCodes(27);
    LengthCodes(28);
    assert Pow2(5) == 32;
    hide Pow2, Pick;
    if x < Pow2(LENGTH_EXTRA[i]) {
      LengthExact(len, i, x);
    }
  }

  /** Every length from 3 to 257 has one code and one number in its extra bits; 258 has its own code,
      and is the last of the code before. */
  lemma LengthNumber(len: nat, second: bool, i: nat, x: nat)
    requires 3 <= len <= 258 && i < 29 && (second ==> len == 258)
    ensures (if i < 8 then len == 3 + i && x == 0
             else if i == 28 then len == 258 && x == 0
             else x < Pow2(i / 4 - 1) && len - 3 == (4 + i % 4) * Pow2(i / 4 - 1) + x)
            && (second <==> len == 258 && i == 27)
            <==> i == LengthEntry(len, second) && x + LENGTH_BASE[i] == len
  {
    hide Pow2, LengthEntry;
    LengthForm(len, i, x);
    LengthPick(len, second, i, x);
  }

  /** The symbols: 0 to 255 are bytes, 256 ends the block, 286 and 287 are errors, and so are distance
      codes 30 and 31 and a code that no symbol has. */
  lemma SymbolKinds(n: nat, p: nat, ll: seq<nat>, dl: seq<nat>, bits: seq<bool>, out: seq<byte>, len: nat)
    requires p <= |bits|
    ensures n < 256 ==> TurnOn(Sym(n, p), ll, dl, bits, out) == Go(p, out + [n])
    ensures n == 256 ==> TurnOn(Sym(n, p), ll, dl, bits, out) == Stop(Done(p, out))
    ensures n >= 286 ==> TurnOn(Sym(n, p), ll, dl, bits, out) == Stop(Bad(1))
    ensures n >= 30 ==> MatchOn(Sym(n, p), dl, bits, out, len) == Stop(Bad(1))
    ensures 0 !in ll ==> TurnOn(NoCode, ll, dl, bits, out) == Stop(Bad(1))
    ensures 0 !in dl ==> MatchOn(NoCode, dl, bits, out, len) == Stop(Bad(1))
  {
  }

  /*-- The code length code, section 3.2.7 ------------------------------------*/

  /** The order in which its lengths are sent: the three repeats, zero, then outwards from 8. */
  lemma OrderIs(j: nat)
    requires j < 19
    ensures ORDER[j] == if j < 3 then 16 + j else if j == 3 then 0 else if j % 2 == 0 then 6 + j / 2 else 9 - j / 2
  {
  }

  /*-- The fields of a block --------------------------------------------------*/

  /** The last-block flag and the kind: stored 00, fixed 01, dynamic 10, the low bit first. */
  lemma BlockStarts(b: Block, last: bool, bits: seq<bool>, pos: nat)
    requires ValidBlock(b) && At(bits, pos, BlockBits(b, last, pos))
    ensures pos + 3 <= |bits| && bits[pos] == last
    ensures bits[pos + 1] == b.Fixed? && bits[pos + 2] == b.Custom?
  {
    hide Body, ValidBlock, At, KindBits;
    BlockParts(b, last, bits, pos, pos + 3);
    hide Field;
    TwoBits(bits, pos + 1, pos + 2);
  }

  lemma TwoBits(bits: seq<bool>, p: nat, q: nat)
    requires q == p + 1 < |bits|
    ensures Field(bits, p, 2) == Bit(bits[p]) + 2 * Bit(bits[q])
  {
    var s, t := bits[p..p + 2], [bits[q]];
    assert s[0] == bits[p] && s[1..] == t;
    assert t[1..] == [] && Num(t) == Bit(t[0]) + 2 * Num(t[1..]);
  }

  /** Kind 11 is error 2. */
  lemma ReservedKind(bits: seq<bool>, pos: nat, out: seq<byte>)
    requires pos + 3 <= |bits| && bits[pos + 1] && bits[pos + 2]
    ensures Inflate(bits, pos, out) == Bad(2)
  {
    hide Field;
    TwoBits(bits, pos + 1, pos + 2);
  }

  /** A dynamic block with more than 286 literal/length codes, or more than 30 distance codes, is
      error 1. */
  lemma TooManyCodes(bits: seq<bool>, pos: nat, out: seq<byte>)
    requires pos + 14 <= |bits| && (Field(bits, pos, 5) >= 30 || Field(bits, pos + 5, 5) >= 30)
    ensures OneBlock(2, bits, pos, out) == Bad(1)
  {
    hide Field, SetLengths;
  }

  /** A stored block: from the next byte on, the length, its complement, the bytes, the low bits first. */
  lemma StoredFields(data: seq<byte>, pad: seq<bool>, bits: seq<bool>, pos: nat, start: nat, i: nat, p: nat)
    requires |data| < 65536 && |pad| == 7 && At(bits, pos, StoredBits(data, pad, pos)) && start == (pos + 7) / 8 * 8
    requires i < |data| && p == start + 32 + 8 * i
    ensures start + 32 <= p && p + 8 <= |bits|
    ensures Field(bits, start, 16) == |data| && Field(bits, start + 16, 16) == 65535 - |data|
    ensures Field(bits, p, 8) == data[i]
  {
    GapTo(pos, start);
    hide At, Field, ByteString, Gap, StoredBits;
    StoredCounts(data, pad, bits, pos, start);
    StoredByte(data, bits, start + 32, i, p);
  }

  lemma GapTo(pos: nat, start: nat)
    requires start == (pos + 7) / 8 * 8
    ensures start == pos + Gap(pos)
  {
  }

  lemma StoredCounts(data: seq<byte>, pad: seq<bool>, bits: seq<bool>, pos: nat, start: nat)
    requires |data| < 65536 && |pad| == 7 && At(bits, pos, StoredBits(data, pad, pos)) && start == pos + Gap(pos)
    ensures start + 32 <= |bits| && At(bits, start + 32, ByteString(data))
    ensures Field(bits, start, 16) == |data| && Field(bits, start + 16, 16) == 65535 - |data|
  {
    Pow2To16();
    hide At, Field, ByteString, TwoFields, Pow2, Gap;
    var n, gap := |data|, pad[..Gap(pos)];
    StoredParts(gap, n, 65535 - n, 16, ByteString(data), bits, pos, start, start + 32);
  }

  lemma {:induction false} StoredByte(data: seq<byte>, bits: seq<bool>, pos: nat, i: nat, p: nat)
    requires At(bits, pos, ByteString(data)) && i < |data| && p == pos + 8 * i
    ensures p + 8 <= |bits| && Field(bits, p, 8) == data[i]
    decreases i
  {
    Pow2To16();
    AtParts(bits, pos, BitsOf(data[0], 8), ByteString(data[1..]));
    hide At, Field, BitsOf, Pow2;
    if i == 0 {
      FieldAt(bits, pos, data[0], 8);
    } else {
      StoredByte(data[1..], bits, pos + 8, i - 1, p);
    }
  }

  /** The head of a dynamic block: the three counts, then three bits for each length of the code length
      code, in the order of `OrderIs`. */
  lemma HeadFields(h: Head, bits: seq<bool>, pos: nat, j: nat, p: nat, sym: nat)
    requires ValidHead(h) && At(bits, pos, HeadBits(h)) && j < h.nb && p == pos + 14 + 3 * j
    requires sym == if j < 3 then 16 + j else if j == 3 then 0 else if j % 2 == 0 then 6 + j / 2 else 9 - j / 2
    ensures p + 3 <= |bits|
    ensures Field(bits, pos, 5) == |h.ll| - 257 && Field(bits, pos + 5, 5) == |h.dl| - 1
    ensures Field(bits, pos + 10, 4) == h.nb - 4
    ensures sym < 19 && Field(bits, p, 3) == h.cl[sym]
  {
    var a := pos + 14;
    HeadParts(h, bits, pos, a, a + 3 * h.nb, pos + |HeadBits(h)|);
    OrderIs(j);
    CountFields(h, bits, pos);
    hide Field, HeadBits, CountBits, WriteLens, LensWritable, PlayLens, Verdict, At, OrderBits;
    OrderField(h.cl, bits, a, h.nb, j, p);
  }

  lemma CountFields(h: Head, bits: seq<bool>, pos: nat)
    requires ValidHead(h) && At(bits, pos, CountBits(h))
    ensures pos + 14 <= |bits|
    ensures Field(bits, pos, 5) == |h.ll| - 257 && Field(bits, pos + 5, 5) == |h.dl| - 1
    ensures Field(bits, pos + 10, 4) == h.nb - 4
  {
    Pow2To16();
    hide Field, BitsOf, Pow2, At;
    ThreeFields(|h.ll| - 257, 5, |h.dl| - 1, 5, h.nb - 4, 4, bits, pos);
  }

  lemma {:induction false} OrderField(cl: seq<nat>, bits: seq<bool>, pos: nat, nb: nat, j: nat, p: nat)
    requires ThreeBits(cl) && nb <= 19 && At(bits, pos, OrderBits(cl, nb)) && j < nb && p == pos + 3 * j
    ensures p + 3 <= |bits| && ORDER[j] < 19 && Field(bits, p, 3) == cl[ORDER[j]]
    decreases nb
  {
    var k: nat := nb - 1;
    OrderPlace(k);
    OrderPlace(j);
    Pow2To16();
    AtParts(bits, pos, OrderBits(cl, k), BitsOf(cl[ORDER[k]], 3));
    hide At, Field, BitsOf, Pow2;
    if j == k {
      FieldAt(bits, p, cl[ORDER[j]], 3);
    } else {
      OrderField(cl, bits, pos, k, j, p);
    }
  }

  /** The codes for code lengths: 0 to 15 for themselves, 16 repeats the last 3 to 6 times in two bits,
      17 and 18 repeat zero 3 to 10 times in three bits and 11 to 138 times in seven. */
  lemma LengthTokens(cl: seq<nat>, t: LenToken, lens: seq<nat>)
    requires LenWritable(cl, t)
    ensures match t
            case Len(x) => x <= 15 && WriteLen(cl, t) == CodeOf(cl, x) && PlayLen(t, lens) == lens + [x]
            case Again(n) =>
              && 3 <= n <= 6 && Pow2(2) == 4 && WriteLen(cl, t) == CodeOf(cl, 16) + BitsOf(n - 3, 2)
              && PlayLen(t, lens) == lens + seq(n, _ => if lens == [] then 0 else lens[|lens| - 1])
            case Zeros(n) =>
              && 3 <= n <= 10 && Pow2(3) == 8 && WriteLen(cl, t) == CodeOf(cl, 17) + BitsOf(n - 3, 3)
              && PlayLen(t, lens) == lens + seq(n, _ => 0)
            case ManyZeros(n) =>
              && 11 <= n <= 138 && Pow2(7) == 128 && WriteLen(cl, t) == CodeOf(cl, 18) + BitsOf(n - 11, 7)
              && PlayLen(t, lens) == lens + seq(n, _ => 0)
  {
    Pow2To16();
    hide CodeOf, Encodable;
    match t
    case Len(x) => assert BitsOf(0, 0) == [];
    case Again(n) => assert Run(n, LastLen(lens)) == seq(n, _ => if lens == [] then 0 else lens[|lens| - 1]);
    case Zeros(n) => assert Run(n, 0) == seq(n, _ => 0);
    case ManyZeros(n) => assert Run(n, 0) == seq(n, _ => 0);
  }

  /** A length as it is written: code 257 + i and x in e extra bits. */
  lemma LengthWritten(ll: seq<nat>, len: nat, second: bool, i: nat, e: nat, x: nat)
    requires 3 <= len <= 258 && (second ==> len == 258) && Encodable(ll, 257 + LengthEntry(len, second))
    requires i < 29 && e == (if 8 <= i < 28 then i / 4 - 1 else 0)
    requires if i < 8 then len == 3 + i && x == 0
             else if i == 28 then len == 258 && x == 0
             else x < Pow2(e) && len - 3 == (4 + i % 4) * Pow2(e) + x
    requires second <==> len == 258 && i == 27
    ensures Encodable(ll, 257 + i) && x < Pow2(e) && LengthBits(ll, len, second) == CodeOf(ll, 257 + i) + BitsOf(x, e)
  {
    hide Pow2, CodeOf, Encodable, BitsOf, LengthEntry, LengthBits;
    LengthNumber(len, second, i, x);
    LengthCodes(i);
    LengthEntryBits(ll, len, second, i);
    CodedIs(ll, 257, LENGTH_BASE, LENGTH_EXTRA, i, len, e, x);
  }

  lemma LengthEntryBits(ll: seq<nat>, len: nat, second: bool, i: nat)
    requires 3 <= len <= 258 && (second ==> len == 258) && i == LengthEntry(len, second) && Encodable(ll, 257 + i)
    ensures LENGTH_BASE[i] <= len < LENGTH_BASE[i] + Pow2(LENGTH_EXTRA[i])
    ensures LengthBits(ll, len, second) == Coded(ll, 257, LENGTH_BASE, LENGTH_EXTRA, i, len)
  {
    hide Pow2, Encodable, LengthEntry, Coded;
    EntryCovers(len, second);
  }

  /** An entry of a table of bases and extra bits as it is written. */
  lemma CodedIs(lens: seq<nat>, first: nat, base: seq<nat>, extra: seq<nat>, j: nat, v: nat, e: nat, x: nat)
    requires j < |base| == |extra| && Encodable(lens, first + j) && base[j] <= v < base[j] + Pow2(extra[j])
    requires extra[j] == e && v == base[j] + x
    ensures x < Pow2(e) && Coded(lens, first, base, extra, j, v) == CodeOf(lens, first + j) + BitsOf(x, e)
  {
    hide Pow2, Encodable, CodeOf, BitsOf;
  }

  /** A distance: code m and x in e extra bits. */
  lemma DistanceWritten(dl: seq<nat>, dist: nat, m: nat, e: nat, x: nat)
    requires 1 <= dist <= 32768 && Encodable(dl, Pick(DIST_BASE, 29, dist)) && m < 30 && e == (if m < 2 then 0 else m / 2 - 1)
    requires if m < 2 then dist == m + 1 && x == 0 else x < Pow2(e) && dist - 1 == (2 + m % 2) * Pow2(e) + x
    ensures Encodable(dl, m) && x < Pow2(e) && DistBits(dl, dist) == CodeOf(dl, m) + BitsOf(x, e)
  {
    hide Pow2, CodeOf, Encodable, BitsOf, Pick, DistBits;
    DistanceNumber(dist, m, x);
    DistanceCodes(m);
    DistancePickBits(dl, dist, m);
    CodedIs(dl, 0, DIST_BASE, DIST_EXTRA, m, dist, e, x);
  }

  lemma DistancePickBits(dl: seq<nat>, dist: nat, m: nat)
    requires 1 <= dist <= 32768 && m == Pick(DIST_BASE, 29, dist) && Encodable(dl, m)
    ensures m < 30 && DIST_BASE[m] <= dist < DIST_BASE[m] + Pow2(DIST_EXTRA[m])
    ensures DistBits(dl, dist) == Coded(dl, 0, DIST_BASE, DIST_EXTRA, m, dist)
  {
    hide Pow2, Encodable, Pick, Coded;
    DistCovered(dist);
  }

  /*-- A stream in numbers ----------------------------------------------------*/

  /** A byte in the fixed codes, the high bit of the code first. */
  function ByteCode(b: byte): (s: seq<bool>)
    ensures |s| == if b < 144 then 8 else 9
  {
    Pow2To16();
    if b < 144 then Msb(48 + b, 8) else Msb(256 + b, 9)
  }

  function ByteCodes(data: seq<byte>): seq<bool> {
    if data == [] then [] else ByteCode(data[0]) + ByteCodes(data[1..])
  }

  lemma SameValue(lens: seq<nat>, sym: nat, s: seq<bool>)
    requires Encodable(lens, sym) && |s| == lens[sym] && Val(s) == Code(lens, sym)
    ensures CodeOf(lens, sym) == s
  {
    hide Kraft, Code;
    ValInjective(CodeOf(lens, sym), s);
  }

  lemma FixedByte(b: byte)
    requires Encodable(FixedLiterals(), b)
    ensures CodeOf(FixedLiterals(), b) == ByteCode(b)
  {
    Pow2To16();
    FixedLiteralCodes(b);
    hide FixedLiterals, Encodable, CodeOf, Code;
    SameValue(FixedLiterals(), b, ByteCode(b));
  }

  lemma FixedEnd()
    requires Encodable(FixedLiterals(), 256)
    ensures CodeOf(FixedLiterals(), 256) == seq(7, _ => false)
  {
    FixedLiteralCodes(256);
    var s: seq<bool> := seq(7, _ => false);
    NoneVal(s);
    hide FixedLiterals, Encodable, CodeOf, Code;
    SameValue(FixedLiterals(), 256, s);
  }

  lemma {:induction false} NoneVal(s: seq<bool>)
    requires forall i :: 0 <= i < |s| ==> !s[i]
    ensures Val(s) == 0
  {
    if s != [] {
      NoneVal(s[..|s| - 1]);
    }
  }

  lemma {:induction false} LiteralBits(data: seq<byte>)
    requires AllWritable(FixedLiterals(), FixedDistances(), Literals(data))
    ensures WriteAll(FixedLiterals(), FixedDistances(), Literals(data)) == ByteCodes(data) + seq(7, _ => false)
    decreases |data|
  {
    var ll, dl, ts := FixedLiterals(), FixedDistances(), Literals(data);
    if data == [] {
      FixedEnd();
    } else {
      assert Writable(ll, dl, ts[0]);
      assert ts[1..] == Literals(data[1..]);
      FixedByte(data[0]);
      hide FixedLiterals, FixedDistances, CodeOf, Encodable, ByteCode, Literals;
      LiteralBits(data[1..]);
    }
  }

  /** Bytes in one fixed block, in numbers: wherever these bits stand they inflate to the bytes. */
  lemma BytesInNumbers(data: seq<byte>, bits: seq<bool>, pos: nat, q: nat, out: seq<byte>)
    requires At(bits, pos, [true, true, false] + ByteCodes(data) + seq(7, _ => false))
    requires q == pos + |[true, true, false] + ByteCodes(data) + seq(7, _ => false)|
    ensures pos <= |bits| && Inflate(bits, pos, out) == Done(q, out + data)
  {
    var ts := Literals(data);
    FixedWritable(ts);
    LiteralBits(data);
    PlayLiterals(data, out);
    hide FixedLiterals, FixedDistances, WriteAll, ByteCodes, Inflate, AllWritable, Literals, At, Play;
    assert FixedStream(ts) == [true, true, false] + ByteCodes(data) + seq(7, _ => false);
    AtBound(bits, pos, FixedStream(ts));
    StreamRoundTrip(ts, bits, pos, out);
  }

  lemma AtBound(bits: seq<bool>, pos: nat, s: seq<bool>)
    requires At(bits, pos, s)
    ensures pos + |s| <= |bits|
  {
  }

  /** Eight bits, the low one first and the high one first. */
  lemma EightBits(s: seq<bool>)
    requires |s| == 8
    ensures Num(s) == Bit(s[0]) + 2 * Bit(s[1]) + 4 * Bit(s[2]) + 8 * Bit(s[3])
                      + 16 * Bit(s[4]) + 32 * Bit(s[5]) + 64 * Bit(s[6]) + 128 * Bit(s[7])
    ensures Val(s) == Bit(s[7]) + 2 * Bit(s[6]) + 4 * Bit(s[5]) + 8 * Bit(s[4])
                      + 16 * Bit(s[3]) + 32 * Bit(s[2]) + 64 * Bit(s[1]) + 128 * Bit(s[0])
  {
    FourBitsOf(s[..4]);
    FourBitsOf(s[4..]);
    assert s == s[..4] + s[4..];
    NumConcat(s[..4], s[4..]);
    ValConcat(s[..4], s[4..]);
    ShlFour(Num(s[4..]));
    ShlFour(Val(s[..4]));
    hide Num, Val, Shl;
  }

  lemma FourBitsOf(s: seq<bool>)
    requires |s| == 4
    ensures Num(s) == Bit(s[0]) + 2 * Bit(s[1]) + 4 * Bit(s[2]) + 8 * Bit(s[3])
    ensures Val(s) == Bit(s[3]) + 2 * Bit(s[2]) + 4 * Bit(s[1]) + 8 * Bit(s[0])
  {
    var a, b, c := s[1..], s[2..], s[3..];
    assert a[1..] == b && b[1..] == c && c[1..] == [];
    assert Num(c) == Bit(s[3]) && Num(b) == Bit(s[2]) + 2 * Num(c);
    var x, y, z := s[..3], s[..2], s[..1];
    assert x[..2] == y && y[..1] == z && z[..0] == [];
    assert Val(z) == Bit(s[0]) && Val(y) == 2 * Val(z) + Bit(s[1]);
  }
}
