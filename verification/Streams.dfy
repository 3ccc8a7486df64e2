/** A writer of whole streams: stored blocks, blocks in the fixed codes and blocks that bring their
    own codes, the code lengths run-length coded after section 3.2.7 of RFC 1951. What it writes is
    played back by the decoder of `Deflate` (zip/inflate.c:456-817). */
module Streams {
  import opened Bits
  import opened Canonical
  import opened HuftCounts
  import opened Deflate
  import opened Lookup
  import opened Blocks
  import opened Encode

  /*-- Code lengths -----------------------------------------------------------*/

  /** A code length, the last one again, zeros: symbols 0-15, 16, 17 and 18. */
  datatype LenToken = Len(x: nat) | Again(n: nat) | Zeros(n: nat) | ManyZeros(n: nat)

  predicate ValidLenToken(t: LenToken) {
    match t
    case Len(x) => x <= 15
    case Again(n) => 3 <= n <= 6
    case Zeros(n) => 3 <= n <= 10
    case ManyZeros(n) => 11 <= n <= 138
  }

  function LenSym(t: LenToken): nat {
    match t
    case Len(x) => x
    case Again(_) => 16
    case Zeros(_) => 17
    case ManyZeros(_) => 18
  }

  /** The extra bits of a token: how many, and the number they spell. */
  function LenWidth(t: LenToken): nat {
    match t
    case Len(_) => 0
    case Again(_) => 2
    case Zeros(_) => 3
    case ManyZeros(_) => 7
  }

  function LenRest(t: LenToken): (x: nat)
    requires ValidLenToken(t)
    ensures x < Pow2(LenWidth(t))
  {
    Pow2To16();
    match t
    case Len(_) => 0
    case Again(n) => n - 3
    case Zeros(n) => n - 3
    case ManyZeros(n) => n - 11
  }

  /** What a token adds to the lengths so far. */
  function PlayLen(t: LenToken, lens: seq<nat>): (r: seq<nat>) {
    match t
    case Len(x) => lens + [x]
    case Again(n) => lens + Run(n, LastLen(lens))
    case Zeros(n) => lens + Run(n, 0)
    case ManyZeros(n) => lens + Run(n, 0)
  }

  function PlayLens(ts: seq<LenToken>, lens: seq<nat>): seq<nat> {
    if ts == [] then lens else PlayLens(ts[1..], PlayLen(ts[0], lens))
  }

  lemma {:induction false} PlayLensGrows(ts: seq<LenToken>, lens: seq<nat>)
    ensures |PlayLens(ts, lens)| >= |lens|
    decreases |ts|
  {
    if ts != [] {
      PlayLensGrows(ts[1..], PlayLen(ts[0], lens));
    }
  }

  ghost predicate LenWritable(cl: seq<nat>, t: LenToken) {
    ValidLenToken(t) && Encodable(cl, LenSym(t))
  }

  ghost function WriteLen(cl: seq<nat>, t: LenToken): seq<bool>
    requires LenWritable(cl, t)
  {
    CodeOf(cl, LenSym(t)) + BitsOf(LenRest(t), LenWidth(t))
  }

  ghost predicate LensWritable(cl: seq<nat>, ts: seq<LenToken>) {
    forall i :: 0 <= i < |ts| ==> LenWritable(cl, ts[i])
  }

  ghost function WriteLens(cl: seq<nat>, ts: seq<LenToken>): seq<bool>
    requires LensWritable(cl, ts)
  {
    if ts == [] then [] else WriteLen(cl, ts[0]) + WriteLens(cl, ts[1..])
  }

  /** A token whose symbol has been decoded up to p. */
  lemma LenTurn(t: LenToken, p: nat, q: nat, bits: seq<bool>, n: nat, lens: seq<nat>)
    requires ValidLenToken(t) && q == p + LenWidth(t) <= |bits| && Field(bits, p, LenWidth(t)) == LenRest(t) && |lens| < n
    ensures ExpandOn(Sym(LenSym(t), p), bits, n, lens) ==
              if |PlayLen(t, lens)| <= n then Lengths(PlayLen(t, lens), q) else NoLengths(Bad(1))
  {
    hide Field, Pow2, LastLen;
  }

  lemma LenRead(cl: seq<nat>, t: LenToken, bits: seq<bool>, pos: nat, q: nat, n: nat, lens: seq<nat>)
    requires LenWritable(cl, t) && At(bits, pos, WriteLen(cl, t)) && q == pos + |WriteLen(cl, t)| && |lens| < n
    ensures ExpandOn(Decode(cl, bits, pos), bits, n, lens) ==
              if |PlayLen(t, lens)| <= n then Lengths(PlayLen(t, lens), q) else NoLengths(Bad(1))
  {
    hide Decode, CodeOf, Encodable, LenRest, LenWidth, PlayLen, ExpandOn, At, ValidLenToken, Field, BitsOf, Pow2;
    var p := pos + cl[LenSym(t)];
    CodeAndField(cl, LenSym(t), LenRest(t), LenWidth(t), bits, pos);
    LenTurn(t, p, q, bits, n, lens);
  }

  lemma ExpandStep(cl: seq<nat>, bits: seq<bool>, pos: nat, q: nat, n: nat, lens: seq<nat>, more: seq<nat>)
    requires pos <= |bits| && |lens| < n && ExpandOn(Decode(cl, bits, pos), bits, n, lens) == Lengths(more, q)
    ensures q <= |bits| && |lens| < |more| <= n && Expand(cl, bits, pos, n, lens) == Expand(cl, bits, q, n, more)
  {
    hide Decode, ExpandOn;
  }

  /** Expanding goes on after what was written for a list of tokens with the lengths they stand for. */
  lemma {:induction false} LensPlayed(cl: seq<nat>, ts: seq<LenToken>, bits: seq<bool>, pos: nat, q: nat, n: nat,
          lens: seq<nat>)
    requires LensWritable(cl, ts) && At(bits, pos, WriteLens(cl, ts)) && q == pos + |WriteLens(cl, ts)|
    requires |PlayLens(ts, lens)| <= n
    ensures |lens| <= n && q <= |bits| && Expand(cl, bits, pos, n, lens) == Expand(cl, bits, q, n, PlayLens(ts, lens))
    decreases |ts|
  {
    PlayLensGrows(ts, lens);
    if ts != [] {
      var s, more := WriteLen(cl, ts[0]), PlayLen(ts[0], lens);
      var p := pos + |s|;
      AtTwo(bits, pos, p, q, s, WriteLens(cl, ts[1..]));
      PlayLensGrows(ts[1..], more);
      assert LenWritable(cl, ts[0]) && |more| > |lens|;
      assert PlayLens(ts, lens) == PlayLens(ts[1..], more);
      assert LensWritable(cl, ts[1..]);
      hide Decode, WriteLen, WriteLens, PlayLen, PlayLens, ExpandOn, Expand, At, LenWritable, LensWritable;
      LenRead(cl, ts[0], bits, pos, p, n, lens);
      ExpandStep(cl, bits, pos, p, n, lens, more);
      LensPlayed(cl, ts[1..], bits, p, q, n, more);
    }
  }

  /** Expanding what was written for a list of tokens gives the lengths they stand for. */
  lemma LensRead(cl: seq<nat>, ts: seq<LenToken>, bits: seq<bool>, pos: nat, q: nat, n: nat)
    requires LensWritable(cl, ts) && At(bits, pos, WriteLens(cl, ts))
        && q == pos + |WriteLens(cl, ts)| && |PlayLens(ts, [])| == n
    ensures Expand(cl, bits, pos, n, []) == Lengths(PlayLens(ts, []), q)
  {
    LensPlayed(cl, ts, bits, pos, q, n, []);
  }

  /** One that gives too many is an error. */
  lemma LensOverrun(cl: seq<nat>, ts: seq<LenToken>, t: LenToken, bits: seq<bool>, pos: nat, n: nat)
    requires LensWritable(cl, ts) && LenWritable(cl, t) && At(bits, pos, WriteLens(cl, ts) + WriteLen(cl, t))
    requires |PlayLens(ts, [])| < n < |PlayLen(t, PlayLens(ts, []))|
    ensures Expand(cl, bits, pos, n, []) == NoLengths(Bad(1))
  {
    hide WriteLens, WriteLen, PlayLen, LenWritable, ExpandOn, Decode, At;
    var q := pos + |WriteLens(cl, ts)|;
    AtParts(bits, pos, WriteLens(cl, ts), WriteLen(cl, t));
    LensPlayed(cl, ts, bits, pos, q, n, []);
    LenRead(cl, t, bits, q, q + |WriteLen(cl, t)|, n, PlayLens(ts, []));
  }

  /*-- The code length code ---------------------------------------------------*/

  /** Three bits for each of the first nb symbols of ORDER. */
  function OrderBits(cl: seq<nat>, nb: nat): (s: seq<bool>)
    requires ThreeBits(cl) && nb <= 19
    ensures |s| == 3 * nb
  {
    if nb == 0 then [] else
      OrderPlace(nb - 1);
      Pow2To16();
      OrderBits(cl, nb - 1) + BitsOf(cl[ORDER[nb - 1]], 3)
  }

  ghost predicate ZeroFrom(cl: seq<nat>, nb: nat)
    requires |cl| == 19
  {
    forall j :: nb <= j < 19 ==> ORDER[j] < 19 && cl[ORDER[j]] == 0
  }

  lemma {:induction false} OrderSent(cl: seq<nat>, bits: seq<bool>, pos: nat, nb: nat)
    requires ThreeBits(cl) && nb <= 19 && At(bits, pos, OrderBits(cl, nb))
    ensures pos + 3 * nb <= |bits| && SentUpTo(cl, CodeLengthLens(bits, pos, nb), nb)
    decreases nb
  {
    if nb > 0 {
      var j := nb - 1;
      OrderPlace(j);
      Pow2To16();
      var x := cl[ORDER[j]];
      AtParts(bits, pos, OrderBits(cl, j), BitsOf(x, 3));
      OrderSent(cl, bits, pos, j);
      FieldAt(bits, pos + 3 * j, x, 3);
      SendOne(cl, bits, pos, j, x);
      assert cl[ORDER[j] := x] == cl;
    }
  }

  lemma {:induction false} RestZero(cl: seq<nat>, bits: seq<bool>, pos: nat, nb: nat, j: nat)
    requires ThreeBits(cl) && nb <= j <= 19 && pos + 3 * nb <= |bits| && ZeroFrom(cl, nb)
    requires SentUpTo(cl, CodeLengthLens(bits, pos, nb), nb)
    ensures SentUpTo(cl, CodeLengthLens(bits, pos, nb), j)
    decreases j
  {
    if j > nb {
      RestZero(cl, bits, pos, nb, j - 1);
      OrderPlace(j - 1);
      ZeroOne(cl, bits, pos, nb, j - 1);
      assert cl[ORDER[j - 1] := 0] == cl;
    }
  }

  /** The lengths of the code length code are read as they were written; those left out are zero. */
  lemma OrderRead(cl: seq<nat>, bits: seq<bool>, pos: nat, nb: nat)
    requires ThreeBits(cl) && nb <= 19 && At(bits, pos, OrderBits(cl, nb)) && ZeroFrom(cl, nb)
    ensures pos + 3 * nb <= |bits| && CodeLengthLens(bits, pos, nb) == cl
  {
    OrderSent(cl, bits, pos, nb);
    RestZero(cl, bits, pos, nb, 19);
    AllSent(cl, CodeLengthLens(bits, pos, nb));
    assert cl[..19] == cl;
  }

  /*-- Blocks with codes of their own -----------------------------------------*/

  /** The head of a dynamic block: the two sets, the code their lengths are written in, how many of
      its lengths are sent, and the tokens. The format has up to 32 distance lengths. */
  datatype Head = Head(ll: seq<nat>, dl: seq<nat>, cl: seq<nat>, nb: nat, lens: seq<LenToken>)

  ghost predicate ValidHead(h: Head) {
    && 257 <= |h.ll| <= 286 && 1 <= |h.dl| <= 32 && Verdict(h.ll) == 0 && Verdict(h.dl) == 0
    && ThreeBits(h.cl) && Verdict(h.cl) == 0 && 4 <= h.nb <= 19 && ZeroFrom(h.cl, h.nb)
    && LensWritable(h.cl, h.lens) && PlayLens(h.lens, []) == h.ll + h.dl
  }

  /** The program accepts up to 30 of them. */
  predicate HeadFits(h: Head) {
    |h.dl| <= 30
  }

  ghost function CountBits(h: Head): (s: seq<bool>)
    requires ValidHead(h)
    ensures |s| == 14
  {
    Pow2To16();
    BitsOf(|h.ll| - 257, 5) + BitsOf(|h.dl| - 1, 5) + BitsOf(h.nb - 4, 4)
  }

  ghost function HeadBits(h: Head): seq<bool>
    requires ValidHead(h)
  {
    CountBits(h) + OrderBits(h.cl, h.nb) + WriteLens(h.cl, h.lens)
  }

  /** Three fields in a row. */
  lemma ThreeFields(x: nat, i: nat, y: nat, j: nat, z: nat, k: nat, bits: seq<bool>, pos: nat)
    requires x < Pow2(i) && y < Pow2(j) && z < Pow2(k) && At(bits, pos, BitsOf(x, i) + BitsOf(y, j) + BitsOf(z, k))
    ensures pos + i + j + k <= |bits|
    ensures Field(bits, pos, i) == x && Field(bits, pos + i, j) == y && Field(bits, pos + i + j, k) == z
  {
    hide Field, BitsOf, Pow2, At;
    AtThree(bits, pos, pos + i, pos + i + j, BitsOf(x, i), BitsOf(y, j), BitsOf(z, k));
    FieldAt(bits, pos, x, i);
    FieldAt(bits, pos + i, y, j);
    FieldAt(bits, pos + i + j, z, k);
  }

  lemma CountsRead(h: Head, bits: seq<bool>, pos: nat)
    requires ValidHead(h) && At(bits, pos, CountBits(h))
    ensures pos + 14 <= |bits| && CountsAt(bits, pos) == Counts(|h.ll|, |h.dl|, h.nb)
  {
    Pow2To16();
    hide Field, BitsOf, Pow2, At;
    ThreeFields(|h.ll| - 257, 5, |h.dl| - 1, 5, h.nb - 4, 4, bits, pos);
  }

  /** What the counts lead to. */
  lemma CountsOn(c: Counts, bits: seq<bool>, p: nat, r: nat, out: seq<byte>)
    requires c.nl <= 286 && c.nb <= 19 && r == p + 3 * c.nb <= |bits|
    ensures DynamicSets(c, bits, p, out) ==
              if c.nd <= 30 then SetLengths(CodeLengthLens(bits, p, c.nb), c.nl, c.nd, bits, r, out) else Bad(1)
  {
    hide CodeLengthLens, SetLengths;
  }

  lemma DynamicOn(bits: seq<bool>, pos: nat, p: nat, out: seq<byte>)
    requires p == pos + 14 <= |bits|
    ensures Dynamic(bits, pos, out) == DynamicSets(CountsAt(bits, pos), bits, p, out)
  {
    hide CountsAt, DynamicSets;
  }

  lemma SetLengthsOn(cl: seq<nat>, ll: seq<nat>, dl: seq<nat>, bits: seq<bool>, pos: nat, q: nat, out: seq<byte>)
    requires pos <= |bits| && q <= |bits| && Verdict(cl) == 0 && Verdict(ll) == 0 && Verdict(dl) == 0
    requires Expand(cl, bits, pos, |ll| + |dl|, []) == Lengths(ll + dl, q)
    ensures SetLengths(cl, |ll|, |dl|, bits, pos, out) == Compressed(ll, dl, bits, q, out)
  {
    hide Expand, Compressed, Verdict;
    assert (ll + dl)[..|ll|] == ll && (ll + dl)[|ll|..] == dl;
  }

  /** The three parts of a head. */
  lemma HeadParts(h: Head, bits: seq<bool>, pos: nat, p: nat, r: nat, q: nat)
    requires ValidHead(h) && At(bits, pos, HeadBits(h)) && q == pos + |HeadBits(h)| && p == pos + 14 && r == p + 3 * h.nb
    ensures At(bits, pos, CountBits(h)) && At(bits, p, OrderBits(h.cl, h.nb)) && At(bits, r, WriteLens(h.cl, h.lens))
    ensures r <= q <= |bits| && q == r + |WriteLens(h.cl, h.lens)|
  {
    AtThree(bits, pos, p, r, CountBits(h), OrderBits(h.cl, h.nb), WriteLens(h.cl, h.lens));
  }

  /** The sets of a head that fits are read as they were written; of one that does not, only the counts are. */
  lemma SetsRead(h: Head, bits: seq<bool>, p: nat, r: nat, q: nat, out: seq<byte>)
    requires ValidHead(h) && r == p + 3 * h.nb && q == r + |WriteLens(h.cl, h.lens)|
    requires At(bits, p, OrderBits(h.cl, h.nb)) && At(bits, r, WriteLens(h.cl, h.lens))
    ensures q <= |bits| && DynamicSets(Counts(|h.ll|, |h.dl|, h.nb), bits, p, out) ==
              if HeadFits(h) then Compressed(h.ll, h.dl, bits, q, out) else Bad(1)
  {
    hide OrderBits, WriteLens, PlayLens, LensWritable, ZeroFrom, DynamicSets, SetLengths, Compressed, At, Verdict,
      Expand;
    hide CodeLengthLens;
    OrderRead(h.cl, bits, p, h.nb);
    LensRead(h.cl, h.lens, bits, r, q, |h.ll| + |h.dl|);
    CountsOn(Counts(|h.ll|, |h.dl|, h.nb), bits, p, r, out);
    SetLengthsOn(h.cl, h.ll, h.dl, bits, r, q, out);
  }

  /** A head that fits is read as it was written: the block is decoded in its two sets. One that does
      not is rejected. */
  lemma HeadRead(h: Head, bits: seq<bool>, pos: nat, q: nat, out: seq<byte>)
    requires ValidHead(h) && At(bits, pos, HeadBits(h)) && q == pos + |HeadBits(h)|
    ensures q <= |bits| && Dynamic(bits, pos, out) == if |h.dl| <= 30 then Compressed(h.ll, h.dl, bits, q, out) else Bad(1)
  {
    var p, r := pos + 14, pos + 14 + 3 * h.nb;
    HeadParts(h, bits, pos, p, r, q);
    CountsRead(h, bits, pos);
    hide ValidHead, CountBits, OrderBits, WriteLens, Dynamic, DynamicSets, CountsAt, Compressed, At, HeadBits;
    DynamicOn(bits, pos, p, out);
    SetsRead(h, bits, p, r, q, out);
  }

  /** The plainest way to send the lengths: all sixteen in four bits each, one token a length. */
  function PlainCode(): (cl: seq<nat>)
    ensures |cl| == 19 && forall i :: 0 <= i < 19 ==> cl[i] == if i < 16 then 4 else 0
  {
    Run(16, 4) + Run(3, 0)
  }

  lemma SixteenCodes()
    ensures Shl(16, 12) == TOP
  {
    ShlShl(1, 4, 12);
    ShlOne(16);
    Pow2To16();
    assert Shl(1, 4) == 16;
  }

  lemma PlainCodeFacts()
    ensures ThreeBits(PlainCode()) && ValidLens(PlainCode()) && Kraft(PlainCode()) == TOP && Verdict(PlainCode()) == 0
  {
    var cl := PlainCode();
    forall t ensures Count(cl, t) == if t == 4 then 16 else if t == 0 then 3 else 0 {
      CountConcat(Run(16, 4), Run(3, 0), t);
      CountRun(16, 4, t);
      CountRun(3, 0, t);
    }
    GreatestCount(cl, 4);
    FilledMax(cl, BMAX);
    FilledBelow(cl, 3);
    SixteenCodes();
    hide PlainCode, MaxLen, Shl;
    assert Filled(cl, 4) == TOP;
  }

  function PlainTokens(lens: seq<nat>): (ts: seq<LenToken>)
    ensures |ts| == |lens| && forall i :: 0 <= i < |ts| ==> ts[i] == Len(lens[i])
  {
    seq(|lens|, i requires 0 <= i < |lens| => Len(lens[i]))
  }

  lemma {:induction false} PlainPlay(lens: seq<nat>, before: seq<nat>)
    ensures PlayLens(PlainTokens(lens), before) == before + lens
    decreases |lens|
  {
    if lens == [] {
      assert before + lens == before;
    } else {
      assert PlainTokens(lens)[1..] == PlainTokens(lens[1..]);
      PlainPlay(lens[1..], before + [lens[0]]);
      assert (before + [lens[0]]) + lens[1..] == before + lens;
    }
  }

  /** Every two sets of acceptable lengths can be sent. */
  lemma EverySetHasHead(ll: seq<nat>, dl: seq<nat>)
    requires 257 <= |ll| <= 286 && 1 <= |dl| <= 32 && Verdict(ll) == 0 && Verdict(dl) == 0
    requires LengthsOk(ll) && LengthsOk(dl)
    ensures ValidHead(Head(ll, dl, PlainCode(), 19, PlainTokens(ll + dl)))
  {
    PlainCodeFacts();
    PlainPlay(ll + dl, []);
    assert [] + (ll + dl) == ll + dl;
    assert LengthsOk(ll + dl);
    hide Kraft, PlainCode, PlainTokens, Verdict, PlayLens, ThreeBits, LensWritable, LengthsOk;
    PlainWritable(ll + dl);
  }

  lemma PlainWritable(lens: seq<nat>)
    requires LengthsOk(lens)
    ensures LensWritable(PlainCode(), PlainTokens(lens))
  {
    PlainCodeFacts();
    var cl, ts := PlainCode(), PlainTokens(lens);
    hide Kraft, PlainCode, PlainTokens, Verdict, ThreeBits;
    forall i | 0 <= i < |ts| ensures LenWritable(cl, ts[i]) {
      assert ts[i] == Len(lens[i]) && lens[i] <= 15;
    }
  }

  /*-- Stored blocks ----------------------------------------------------------*/

  function Zeroes(n: nat): (s: seq<bool>)
    ensures |s| == n
  {
    seq(n, _ => false)
  }

  /** The bits of bytes, the low bit of each first. */
  function ByteString(data: seq<byte>): (s: seq<bool>)
    ensures |s| == 8 * |data|
  {
    if data == [] then [] else Pow2To16(); BitsOf(data[0], 8) + ByteString(data[1..])
  }

  lemma {:induction false} ByteStringRead(data: seq<byte>, bits: seq<bool>, pos: nat)
    requires At(bits, pos, ByteString(data))
    ensures pos + 8 * |data| <= |bits| && Bytes(bits, pos, |data|) == data
    decreases |data|
  {
    if data != [] {
      Pow2To16();
      AtParts(bits, pos, BitsOf(data[0], 8), ByteString(data[1..]));
      hide At, Field, BitsOf, Pow2;
      FieldAt(bits, pos, data[0], 8);
      ByteStringRead(data[1..], bits, pos + 8);
    }
  }

  function TwoFields(n: nat, m: nat, w: nat): (s: seq<bool>)
    requires n < Pow2(w) && m < Pow2(w)
    ensures |s| == w + w
  {
    BitsOf(n, w) + BitsOf(m, w)
  }

  /** How far it is to the next byte boundary. */
  function Gap(pos: nat): (n: nat)
    ensures n <= 7
  {
    (pos + 7) / 8 * 8 - pos
  }

  /** Any bits up to a byte boundary, the length, its complement, the bytes. */
  function StoredBits(data: seq<byte>, pad: seq<bool>, pos: nat): (s: seq<bool>)
    requires |data| < 65536 && |pad| == 7
  {
    Pow2To16();
    pad[..Gap(pos)] + TwoFields(|data|, 65535 - |data|, 16) + ByteString(data)
  }

  lemma StoredOn(bits: seq<bool>, pos: nat, start: nat, n: nat, out: seq<byte>)
    requires pos <= |bits| && start == pos + Gap(pos) && start + 32 + 8 * n <= |bits|
    requires Field(bits, start, 16) == n && Field(bits, start + 16, 16) == 65535 - n
    ensures Stored(bits, pos, out) == Done(start + 32 + 8 * n, out + Bytes(bits, start + 32, n))
  {
    hide Field, Bytes;
  }

  /** The two fields of a stored block, w bits each, after a gap. */
  lemma StoredParts(gap: seq<bool>, n: nat, m: nat, w: nat, d: seq<bool>, bits: seq<bool>, pos: nat, start: nat,
          data: nat)
    requires n < Pow2(w) && m < Pow2(w) && At(bits, pos, gap + TwoFields(n, m, w) + d)
    requires start == pos + |gap| && data == start + w + w
    ensures data <= |bits| && Field(bits, start, w) == n && Field(bits, start + w, w) == m && At(bits, data, d)
  {
    hide At, Field, BitsOf, Pow2;
    AtThree(bits, pos, start, data, gap, TwoFields(n, m, w), d);
    AtParts(bits, start, BitsOf(n, w), BitsOf(m, w));
    FieldAt(bits, start, n, w);
    FieldAt(bits, start + w, m, w);
  }

  /** A stored block is read as it was written. */
  lemma StoredRead(data: seq<byte>, pad: seq<bool>, bits: seq<bool>, pos: nat, q: nat, out: seq<byte>)
    requires |data| < 65536 && |pad| == 7 && At(bits, pos, StoredBits(data, pad, pos))
        && q == pos + |StoredBits(data, pad, pos)|
    ensures pos <= |bits| && Stored(bits, pos, out) == Done(q, out + data)
  {
    Pow2To16();
    hide At, Field, ByteString, Bytes, Stored, TwoFields, Pow2, Gap;
    var gap, n := pad[..Gap(pos)], |data|;
    var start := pos + |gap|;
    StoredParts(gap, n, 65535 - n, 16, ByteString(data), bits, pos, start, start + 32);
    ByteStringRead(data, bits, start + 32);
    StoredOn(bits, pos, start, n, out);
  }

  /*-- Whole streams ----------------------------------------------------------*/

  /** A stored block with the bits that fill it up to a byte, seven or as many as are needed. */
  datatype Block = Raw(data: seq<byte>, pad: seq<bool>) | Fixed(ts: seq<Token>) | Custom(h: Head, ts: seq<Token>)

  ghost predicate ValidBlock(b: Block) {
    match b
    case Raw(data, pad) => |data| < 65536 && |pad| == 7
    case Fixed(ts) => AllWritable(FixedLiterals(), FixedDistances(), ts)
    case Custom(h, ts) => ValidHead(h) && AllWritable(h.ll, h.dl, ts)
  }

  /** The program can read the block's head. */
  predicate BlockFits(b: Block) {
    b.Custom? ==> HeadFits(b.h)
  }

  function Kind(b: Block): nat {
    match b
    case Raw(_, _) => 0
    case Fixed(_) => 1
    case Custom(_, _) => 2
  }

  /** A block's body, which starts at bit pos. */
  ghost function Body(b: Block, pos: nat): seq<bool>
    requires ValidBlock(b)
  {
    match b
    case Raw(data, pad) => StoredBits(data, pad, pos)
    case Fixed(ts) => WriteAll(FixedLiterals(), FixedDistances(), ts)
    case Custom(h, ts) => HeadBits(h) + WriteAll(h.ll, h.dl, ts)
  }

  function KindBits(b: Block): (s: seq<bool>)
    ensures |s| == 2 && Num(s) == Kind(b)
  {
    Pow2To16();
    BitsOf(Kind(b), 2)
  }

  ghost function BlockBits(b: Block, last: bool, pos: nat): (s: seq<bool>)
    requires ValidBlock(b)
    ensures |s| == 3 + |Body(b, pos + 3)|
  {
    [last] + KindBits(b) + Body(b, pos + 3)
  }

  /** What a block adds to the output. */
  function PlayBlock(b: Block, out: seq<byte>): Played {
    match b
    case Raw(data, _) => Played(out + data)
    case Fixed(ts) => Play(ts, out)
    case Custom(_, ts) => Play(ts, out)
  }

  function PlayBlocks(bs: seq<Block>, out: seq<byte>): Played {
    if bs == [] then Played(out) else
    match PlayBlock(bs[0], out)
    case Played(o) => PlayBlocks(bs[1..], o)
    case TooFar => TooFar
  }

  /** Every head fits, up to the end or the first block with a match that is too far. */
  predicate HeadsFit(bs: seq<Block>, out: seq<byte>) {
    bs == [] || (BlockFits(bs[0]) && match PlayBlock(bs[0], out)
                                     case Played(o) => HeadsFit(bs[1..], o)
                                     case TooFar => true)
  }

  lemma SymbolsRead(ll: seq<nat>, dl: seq<nat>, ts: seq<Token>, bits: seq<bool>, pos: nat, q: nat, out: seq<byte>)
    requires AllWritable(ll, dl, ts) && At(bits, pos, WriteAll(ll, dl, ts)) && q == pos + |WriteAll(ll, dl, ts)|
    ensures Compressed(ll, dl, bits, pos, out) == Decoded(Play(ts, out), q)
  {
    hide Compressed, WriteAll, Play, At, AllWritable;
    WriteRead(ll, dl, ts, bits, pos, q, out);
  }

  lemma CustomRead(h: Head, ts: seq<Token>, bits: seq<bool>, pos: nat, q: nat, out: seq<byte>)
    requires ValidHead(h) && AllWritable(h.ll, h.dl, ts)
    requires At(bits, pos, HeadBits(h) + WriteAll(h.ll, h.dl, ts)) && q == pos + |HeadBits(h) + WriteAll(h.ll, h.dl, ts)|
    ensures pos <= |bits| && Dynamic(bits, pos, out) == if HeadFits(h) then Decoded(Play(ts, out), q) else Bad(1)
  {
    var p := pos + |HeadBits(h)|;
    AtTwo(bits, pos, p, q, HeadBits(h), WriteAll(h.ll, h.dl, ts));
    hide Decoded, Dynamic, Compressed, HeadBits, WriteAll, At, AllWritable, ValidHead, HeadFits, Play;
    HeadRead(h, bits, pos, p, out);
    SymbolsRead(h.ll, h.dl, ts, bits, p, q, out);
  }

  /** A block of any kind is read as it was written, or its head does not fit. */
  lemma BodyRead(b: Block, bits: seq<bool>, pos: nat, q: nat, out: seq<byte>)
    requires ValidBlock(b) && At(bits, pos, Body(b, pos)) && q == pos + |Body(b, pos)|
    ensures pos <= |bits|
    ensures OneBlock(Kind(b), bits, pos, out) == if BlockFits(b) then Decoded(PlayBlock(b, out), q) else Bad(1)
  {
    hide Dynamic, Stored, Compressed, StoredBits, WriteAll, HeadBits, HeadFits, Play, AllWritable, FixedLiterals,
      FixedDistances;
    match b
    case Raw(data, pad) => StoredRead(data, pad, bits, pos, q, out);
    case Fixed(ts) => SymbolsRead(FixedLiterals(), FixedDistances(), ts, bits, pos, q, out);
    case Custom(h, ts) => CustomRead(h, ts, bits, pos, q, out);
  }

  ghost predicate ValidBlocks(bs: seq<Block>) {
    forall i :: 0 <= i < |bs| ==> ValidBlock(bs[i])
  }

  /** Blocks in a row from bit pos on, the last one marked. */
  ghost function StreamBits(bs: seq<Block>, pos: nat): seq<bool>
    requires ValidBlocks(bs)
    decreases |bs|
  {
    if bs == [] then [] else FirstBits(bs, pos) + StreamBits(bs[1..], FirstEnd(bs, pos))
  }

  ghost function FirstBits(bs: seq<Block>, pos: nat): seq<bool>
    requires bs != [] && ValidBlocks(bs)
  {
    BlockBits(bs[0], |bs| == 1, pos)
  }

  ghost function FirstEnd(bs: seq<Block>, pos: nat): (r: nat)
    requires bs != [] && ValidBlocks(bs)
    ensures r == pos + |FirstBits(bs, pos)|
  {
    pos + |FirstBits(bs, pos)|
  }

  /** What the three bits before a block's body lead to. */
  lemma InflateOn(kind: nat, last: bool, bits: seq<bool>, pos: nat, p: nat, out: seq<byte>)
    requires p == pos + 3 <= |bits| && bits[pos] == last && Field(bits, pos + 1, 2) == kind
    ensures Inflate(bits, pos, out) ==
              match OneBlock(kind, bits, p, out)
              case Done(q, o) => if last then Done(q, o) else Inflate(bits, q, o)
              case other => other
  {
    hide OneBlock, Field;
  }

  lemma BlockParts(b: Block, last: bool, bits: seq<bool>, pos: nat, p: nat)
    requires ValidBlock(b) && At(bits, pos, BlockBits(b, last, pos)) && p == pos + 3
    ensures p <= |bits| && bits[pos] == last && Field(bits, pos + 1, 2) == Kind(b) && At(bits, p, Body(b, p))
  {
    hide Body, ValidBlock, KindBits, Num;
    AtThree(bits, pos, pos + 1, p, [last], KindBits(b), Body(b, p));
    assert bits[pos..pos + 1][0] == last;
  }

  lemma StreamUnfold(all: seq<Block>, rest: seq<Block>, pos: nat, r: nat)
    requires all != [] && ValidBlocks(all) && rest == all[1..] && ValidBlocks(rest) && r == FirstEnd(all, pos)
    ensures StreamBits(all, pos) == FirstBits(all, pos) + StreamBits(rest, r)
  {
    hide ValidBlocks, FirstBits, FirstEnd;
  }

  /** The first block of a stream and the others. */
  lemma StreamParts(bs: seq<Block>, bits: seq<bool>, pos: nat, r: nat, q: nat)
    requires bs != [] && ValidBlocks(bs) && At(bits, pos, StreamBits(bs, pos)) && q == pos + |StreamBits(bs, pos)|
    requires r == pos + |FirstBits(bs, pos)|
    ensures ValidBlocks(bs[1..]) && At(bits, pos, FirstBits(bs, pos))
    ensures At(bits, r, StreamBits(bs[1..], r)) && q == r + |StreamBits(bs[1..], r)|
  {
    assert ValidBlocks(bs[1..]);
    hide FirstBits, At, ValidBlocks, StreamBits;
    var a, b := FirstBits(bs, pos), StreamBits(bs[1..], r);
    StreamUnfold(bs, bs[1..], pos, r);
    AtTwo(bits, pos, r, q, a, b);
  }

  /** What a stream inflates to: what its blocks mean if the heads fit, else an error. */
  function Meaning(bs: seq<Block>, q: nat, out: seq<byte>): Outcome {
    if HeadsFit(bs, out) then Decoded(PlayBlocks(bs, out), q) else Bad(1)
  }

  lemma MeaningStep(bs: seq<Block>, q: nat, out: seq<byte>)
    requires bs != []
    ensures Meaning(bs, q, out) ==
              if !BlockFits(bs[0]) then Bad(1) else
              match PlayBlock(bs[0], out) case Played(o) => Meaning(bs[1..], q, o) case TooFar => Far
  {
    hide BlockFits, PlayBlock;
  }

  lemma MeaningEnd(bs: seq<Block>, q: nat, out: seq<byte>)
    requires |bs| == 0
    ensures Meaning(bs, q, out) == Done(q, out)
  {
  }

  /** The first block of a stream is read as it was written, and decoding goes on after it. */
  lemma FirstRead(bs: seq<Block>, bits: seq<bool>, pos: nat, r: nat, out: seq<byte>)
    requires bs != [] && ValidBlocks(bs) && At(bits, pos, FirstBits(bs, pos)) && r == pos + |FirstBits(bs, pos)|
    ensures pos <= |bits| && r <= |bits|
    ensures Inflate(bits, pos, out) ==
              if !BlockFits(bs[0]) then Bad(1) else
              match PlayBlock(bs[0], out)
              case Played(o) => if |bs| == 1 then Done(r, o) else Inflate(bits, r, o)
              case TooFar => Far
  {
    var b, last, p := bs[0], |bs| == 1, pos + 3;
    BlockParts(b, last, bits, pos, p);
    hide ValidBlock, FirstBits, Body, OneBlock, Inflate, PlayBlock, Field, Kind, BlockFits;
    BodyRead(b, bits, p, r, out);
    InflateOn(Kind(b), last, bits, pos, p, out);
  }

  lemma {:induction false} StreamRead(bs: seq<Block>, bits: seq<bool>, pos: nat, q: nat, out: seq<byte>)
    requires bs != [] && ValidBlocks(bs) && At(bits, pos, StreamBits(bs, pos)) && q == pos + |StreamBits(bs, pos)|
    ensures pos <= |bits| && Inflate(bits, pos, out) == Meaning(bs, q, out)
    decreases |bs|
  {
    var rest, r := bs[1..], pos + |FirstBits(bs, pos)|;
    StreamParts(bs, bits, pos, r, q);
    assert |bs| == 1 ==> StreamBits(rest, r) == [];
    hide ValidBlocks, FirstBits, StreamBits, Inflate, PlayBlock, At, BlockFits, Meaning;
    FirstRead(bs, bits, pos, r, out);
    MeaningStep(bs, q, out);
    if BlockFits(bs[0]) && PlayBlock(bs[0], out).Played? {
      var o := PlayBlock(bs[0], out).out;
      if |bs| == 1 {
        MeaningEnd(rest, q, o);
      } else {
        StreamRead(rest, bits, r, q, o);
      }
    }
  }

  /** Block i, when no match before it is too far, has a head that fits, or none. */
  ghost predicate ReachedFits(bs: seq<Block>, out: seq<byte>, i: nat)
    requires i < |bs|
  {
    PlayBlocks(bs[..i], out).Played? && bs[i].Custom? ==> |bs[i].h.dl| <= 30
  }

  lemma ReachedNext(bs: seq<Block>, out: seq<byte>, i: nat)
    requires 0 < i < |bs|
    ensures ReachedFits(bs, out, i) <==>
              match PlayBlock(bs[0], out) case Played(o) => ReachedFits(bs[1..], o, i - 1) case TooFar => true
  {
    hide PlayBlock;
    assert bs[..i][0] == bs[0] && bs[..i][1..] == bs[1..][..i - 1] && bs[1..][i - 1] == bs[i];
  }

  lemma {:induction false} HeadsFitReached(bs: seq<Block>, out: seq<byte>)
    ensures HeadsFit(bs, out) <==> forall i {:trigger ReachedFits(bs, out, i)} :: 0 <= i < |bs| ==> ReachedFits(bs, out, i)
    decreases |bs|
  {
    if bs != [] {
      assert ReachedFits(bs, out, 0) <==> BlockFits(bs[0]) by {
        assert bs[..0] == [];
      }
      hide ReachedFits, PlayBlock, BlockFits;
      forall i | 0 < i < |bs|
        ensures ReachedFits(bs, out, i) <==>
                  match PlayBlock(bs[0], out) case Played(o) => ReachedFits(bs[1..], o, i - 1) case TooFar => true
      {
        ReachedNext(bs, out, i);
      }
      if PlayBlock(bs[0], out).Played? {
        var o := PlayBlock(bs[0], out).out;
        HeadsFitReached(bs[1..], o);
        forall i | 0 <= i < |bs| - 1 ensures ReachedFits(bs[1..], o, i) <==> ReachedFits(bs, out, i + 1) {
          assert i + 1 - 1 == i;
        }
      }
    }
  }

  /** The heads fit exactly if none that is reached has more than 30 distance lengths. */
  lemma HeadsFitIff(bs: seq<Block>, out: seq<byte>)
    ensures HeadsFit(bs, out) <==>
              forall i :: 0 <= i < |bs| && PlayBlocks(bs[..i], out).Played? && bs[i].Custom? ==> |bs[i].h.dl| <= 30
  {
    hide HeadsFit, PlayBlocks;
    HeadsFitReached(bs, out);
    if HeadsFit(bs, out) {
      forall i | 0 <= i < |bs| && PlayBlocks(bs[..i], out).Played? && bs[i].Custom? ensures |bs[i].h.dl| <= 30 {
        assert ReachedFits(bs, out, i);
      }
    }
  }

  /** A stream of any blocks, anywhere in the input, inflates to what its blocks mean if and only if
      the heads fit; the first that does not is error 1. */
  lemma BlocksRoundTrip(bs: seq<Block>, bits: seq<bool>, pos: nat, q: nat, out: seq<byte>)
    requires bs != [] && ValidBlocks(bs) && At(bits, pos, StreamBits(bs, pos)) && q == pos + |StreamBits(bs, pos)|
    ensures pos <= |bits|
    ensures Inflate(bits, pos, out) == Decoded(PlayBlocks(bs, out), q) <==> HeadsFit(bs, out)
    ensures !HeadsFit(bs, out) ==> Inflate(bits, pos, out) == Bad(1)
    ensures HeadsFit(bs, out) <==>
              forall i :: 0 <= i < |bs| && PlayBlocks(bs[..i], out).Played? && bs[i].Custom? ==> |bs[i].h.dl| <= 30
  {
    hide ValidBlocks, StreamBits, Inflate, PlayBlocks, At, HeadsFit;
    StreamRead(bs, bits, pos, q, out);
    HeadsFitIff(bs, out);
  }

  /** Every list of bytes can be sent in every two sets of acceptable lengths that have codes for all
      literals and the end of a block, and comes back exactly if there are up to 30 distance lengths. */
  lemma EverySetWrites(ll: seq<nat>, dl: seq<nat>, data: seq<byte>)
    requires 257 <= |ll| <= 286 && 1 <= |dl| <= 32 && Verdict(ll) == 0 && Verdict(dl) == 0
    requires LengthsOk(ll) && LengthsOk(dl) && forall i :: 0 <= i <= 256 ==> ll[i] > 0
    ensures var b := Custom(Head(ll, dl, PlainCode(), 19, PlainTokens(ll + dl)), Literals(data));
            && ValidBlocks([b]) && PlayBlocks([b], []) == Played(data)
            && Inflate(StreamBits([b], 0), 0, []) == if |dl| <= 30 then Done(|StreamBits([b], 0)|, data) else Bad(1)
  {
    var h := Head(ll, dl, PlainCode(), 19, PlainTokens(ll + dl));
    EverySetHasHead(ll, dl);
    var bs := [Custom(h, Literals(data))];
    AllLiterals(ll, dl, data);
    PlayLiterals(data, []);
    assert [] + data == data;
    hide ValidHead, AllWritable, PlainCode, PlainTokens, Verdict, Literals, Inflate, StreamBits, Play;
    OneBlockRead(bs[0], data);
  }

  /** A block on its own. */
  lemma OneBlockRead(b: Block, data: seq<byte>)
    requires ValidBlock(b) && PlayBlock(b, []) == Played(data)
    ensures ValidBlocks([b]) && PlayBlocks([b], []) == Played(data)
    ensures Inflate(StreamBits([b], 0), 0, []) == if BlockFits(b) then Done(|StreamBits([b], 0)|, data) else Bad(1)
  {
    var bs := [b];
    OneBlockPlays(bs, b, [], data);
    hide ValidBlock, PlayBlock, Inflate, StreamBits, BlockFits, PlayBlocks, HeadsFit, At;
    WholeAt(StreamBits(bs, 0));
    BlocksRoundTrip(bs, StreamBits(bs, 0), 0, |StreamBits(bs, 0)|, []);
  }

  lemma OneBlockPlays(bs: seq<Block>, b: Block, out: seq<byte>, data: seq<byte>)
    requires bs == [b] && PlayBlock(b, out) == Played(data)
    ensures PlayBlocks(bs, out) == Played(data) && (HeadsFit(bs, out) <==> BlockFits(b))
  {
    hide PlayBlock, BlockFits;
    assert bs[0] == b && bs[1..] == [];
    assert PlayBlocks(bs[1..], data) == Played(data) && HeadsFit(bs[1..], data);
  }

  lemma WholeAt(s: seq<bool>)
    ensures At(s, 0, s)
  {
  }

  lemma AllLiterals(ll: seq<nat>, dl: seq<nat>, data: seq<byte>)
    requires |ll| >= 257 && Verdict(ll) == 0 && LengthsOk(ll) && forall i :: 0 <= i <= 256 ==> ll[i] > 0
    ensures AllWritable(ll, dl, Literals(data))
  {
    assert ll[256] > 0;
    hide Kraft;
    forall i | 0 <= i < |data| ensures Writable(ll, dl, Literals(data)[i]) {
      assert ll[data[i]] > 0;
    }
  }
}
