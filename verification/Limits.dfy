/** Where the heads of dynamic blocks that the program accepts are not those of section 3.2.7 of RFC
    1951 (zip/inflate.c:594-674): it takes up to 30 distance lengths and not 32, and takes code 16 at
    the start, where there is no length to repeat, for zeros. */
module Limits {
  import opened Bits
  import opened Canonical
  import opened HuftCounts
  import opened Deflate
  import opened Lookup
  import opened Blocks
  import opened Encode
  import opened Streams
  import opened Parse

  /*-- Complete sets ----------------------------------------------------------*/

  /** x codes of length i and y codes of length i + 1 and no other. */
  lemma TwoLengths(lens: seq<nat>, i: nat, x: nat, y: nat)
    requires 1 <= i < BMAX - 1 && x > 0 && y > 0 && 2 * x + y == Pow2(i + 1)
    requires forall t {:trigger Count(lens, t)} :: t > 0 ==>
        Count(lens, t) == if t == i then x else if t == i + 1 then y else 0
    ensures ValidLens(lens) && Kraft(lens) == TOP && Verdict(lens) == 0
  {
    var j := i + 1;
    GreatestCount(lens, j);
    FilledMax(lens, BMAX);
    FilledBelow(lens, i - 1);
    hide MaxLen, Count;
    var k: nat := BMAX - j;
    assert Filled(lens, i) == Shl(x, k + 1);
    assert Filled(lens, j) == Shl(x, k + 1) + Shl(y, k);
    hide Filled;
    ShlShl(x, 1, k);
    assert Shl(x, 1) == 2 * x;
    ShlAdd(2 * x, y, k);
    ShlOne(j);
    ShlShl(1, j, k);
    ShlOne(BMAX);
    Pow2To16();
  }

  lemma TwoRuns(n: nat, i: nat, m: nat, j: nat, t: nat)
    requires i != j
    ensures Count(Run(n, i) + Run(m, j), t) == if t == i then n else if t == j then m else 0
  {
    CountConcat(Run(n, i), Run(m, j), t);
    CountRun(n, i, t);
    CountRun(m, j, t);
  }

  lemma TwoRunsComplete(zeros: seq<nat>, n: nat, i: nat, m: nat, j: nat, more: seq<nat>)
    requires AllZero(zeros) && AllZero(more) && j == i + 1 && 1 <= i < BMAX - 1 && n > 0 && m > 0 && 2 * n + m == Pow2(j)
    ensures var lens := zeros + (Run(n, i) + Run(m, j)) + more;
            ValidLens(lens) && Kraft(lens) == TOP && Verdict(lens) == 0
  {
    var mid := Run(n, i) + Run(m, j);
    var lens := zeros + mid + more;
    forall t | t > 0 ensures Count(lens, t) == if t == i then n else if t == j then m else 0 {
      CountConcat(zeros + mid, more, t);
      CountConcat(zeros, mid, t);
      CountBound(zeros, t);
      CountBound(more, t);
      TwoRuns(n, i, m, j, t);
    }
    hide Kraft, Verdict, Count;
    TwoLengths(lens, i, n, m);
  }

  /*-- More than thirty distance lengths --------------------------------------*/

  /** 257 literal lengths and n distance lengths. */
  function ManySets(n: nat): (sets: (seq<nat>, seq<nat>))
    requires 17 <= n <= 31
    ensures |sets.0| == 257 && |sets.1| == n
  {
    (Run(255, 8) + Run(2, 9), Run(32 - n, 4) + Run(2 * n - 32, 5))
  }

  /** Two runs make a set that is accepted. */
  lemma RunsAccepted(n: nat, i: nat, m: nat, j: nat)
    requires j == i + 1 && 1 <= i < 15 && n > 0 && m > 0 && 2 * n + m == Pow2(j)
    ensures var lens := Run(n, i) + Run(m, j);
            Verdict(lens) == 0 && LengthsOk(lens) && forall k :: 0 <= k < n + m ==> lens[k] > 0
  {
    var lens := Run(n, i) + Run(m, j);
    hide Verdict, Kraft, Pow2;
    TwoRunsComplete([], n, i, m, j, []);
    assert [] + lens + [] == lens;
  }

  lemma ManyFacts(n: nat)
    requires 17 <= n <= 31
    ensures var (ll, dl) := ManySets(n);
            && Verdict(ll) == 0 && Verdict(dl) == 0 && LengthsOk(ll) && LengthsOk(dl)
            && forall i :: 0 <= i <= 256 ==> ll[i] > 0
  {
    Pow2To16();
    hide Verdict, LengthsOk, Pow2;
    RunsAccepted(255, 8, 2, 9);
    RunsAccepted(32 - n, 4, 2 * n - 32, 5);
  }

  /** The format has a stream of n distance lengths for every list of bytes. The program accepts the one
      of 30 and rejects the one of 31. */
  lemma ManyDistances(data: seq<byte>, n: nat)
    requires 17 <= n <= 31
    ensures var (ll, dl) := ManySets(n);
            var b := Custom(Head(ll, dl, PlainCode(), 19, PlainTokens(ll + dl)), Literals(data));
            && |dl| == n && ValidBlocks([b]) && PlayBlocks([b], []) == Played(data)
            && Inflate(StreamBits([b], 0), 0, []) == if n == 31 then Bad(1) else Done(|StreamBits([b], 0)|, data)
  {
    var (ll, dl) := ManySets(n);
    ManyFacts(n);
    hide ManySets, Verdict, LengthsOk, Inflate, StreamBits, ValidBlocks, PlayBlocks, PlainCode, PlainTokens, Literals;
    EverySetWrites(ll, dl, data);
  }

  /*-- A head is determined by its bits ---------------------------------------*/

  lemma TokenFromParts(t: LenToken)
    requires ValidLenToken(t)
    ensures t == LenTokenOf(LenSym(t), LenRest(t))
    ensures LenWidth(t) == if LenSym(t) < 16 then 0 else if LenSym(t) == 16 then 2 else if LenSym(t) == 17 then 3 else 7
  {
  }

  lemma LenUnique(cl: seq<nat>, t: LenToken, u: LenToken, bits: seq<bool>, pos: nat)
    requires LenWritable(cl, t) && LenWritable(cl, u) && At(bits, pos, WriteLen(cl, t)) && At(bits, pos, WriteLen(cl, u))
    ensures t == u
  {
    TokenFromParts(t);
    TokenFromParts(u);
    hide Decode, CodeOf, Encodable, At, Field, BitsOf, Pow2, LenSym, LenRest, LenWidth, LenTokenOf, ValidLenToken;
    CodeAndField(cl, LenSym(t), LenRest(t), LenWidth(t), bits, pos);
    CodeAndField(cl, LenSym(u), LenRest(u), LenWidth(u), bits, pos);
  }

  lemma PlayUnfold(ts: seq<LenToken>, lens: seq<nat>)
    ensures PlayLens(ts, lens) == if ts == [] then lens else PlayLens(ts[1..], PlayLen(ts[0], lens))
  {
  }

  lemma PlayMore(cl: seq<nat>, ts: seq<LenToken>, lens: seq<nat>)
    requires ts != [] && LensWritable(cl, ts)
    ensures |PlayLens(ts, lens)| > |lens|
  {
    assert LenWritable(cl, ts[0]);
    PlayLensGrows(ts[1..], PlayLen(ts[0], lens));
  }

  /** The first token of what was written, and the others. */
  lemma LensParts(cl: seq<nat>, ts: seq<LenToken>, bits: seq<bool>, pos: nat, p: nat)
    requires ts != [] && LensWritable(cl, ts) && At(bits, pos, WriteLens(cl, ts))
    requires LenWritable(cl, ts[0]) ==> p == pos + |WriteLen(cl, ts[0])|
    ensures LenWritable(cl, ts[0]) && LensWritable(cl, ts[1..])
    ensures At(bits, pos, WriteLen(cl, ts[0])) && At(bits, p, WriteLens(cl, ts[1..]))
  {
    assert LenWritable(cl, ts[0]) && LensWritable(cl, ts[1..]);
    var a, b := WriteLen(cl, ts[0]), WriteLens(cl, ts[1..]);
    assert WriteLens(cl, ts) == a + b;
    hide LenWritable, LensWritable, WriteLen, WriteLens, At;
    AtTwo(bits, pos, p, pos + |a + b|, a, b);
  }

  lemma FirstUnique(cl: seq<nat>, ts: seq<LenToken>, us: seq<LenToken>, bits: seq<bool>, pos: nat) returns (p: nat)
    requires ts != [] && us != [] && LensWritable(cl, ts) && LensWritable(cl, us)
    requires At(bits, pos, WriteLens(cl, ts)) && At(bits, pos, WriteLens(cl, us))
    ensures ts[0] == us[0] && LensWritable(cl, ts[1..]) && LensWritable(cl, us[1..])
    ensures At(bits, p, WriteLens(cl, ts[1..])) && At(bits, p, WriteLens(cl, us[1..]))
  {
    assert LenWritable(cl, ts[0]) && LenWritable(cl, us[0]);
    hide LenWritable, LensWritable, WriteLen, WriteLens, At;
    p := pos + |WriteLen(cl, ts[0])|;
    var r := pos + |WriteLen(cl, us[0])|;
    LensParts(cl, ts, bits, pos, p);
    LensParts(cl, us, bits, pos, r);
    LenUnique(cl, ts[0], us[0], bits, pos);
  }

  /** The tokens of so many lengths are determined by their bits. */
  lemma {:induction false} LensUnique(cl: seq<nat>, ts: seq<LenToken>, us: seq<LenToken>, bits: seq<bool>, pos: nat,
          lens: seq<nat>)
    requires LensWritable(cl, ts) && At(bits, pos, WriteLens(cl, ts))
        && LensWritable(cl, us) && At(bits, pos, WriteLens(cl, us))
    requires |PlayLens(ts, lens)| == |PlayLens(us, lens)|
    ensures ts == us
    decreases |ts|
  {
    hide LenWritable, LensWritable, WriteLen, WriteLens, PlayLen, PlayLens, At;
    PlayUnfold(ts, lens);
    PlayUnfold(us, lens);
    if ts == [] {
      if us != [] {
        PlayMore(cl, us, lens);
      }
    } else if us == [] {
      PlayMore(cl, ts, lens);
    } else {
      var p := FirstUnique(cl, ts, us, bits, pos);
      LensUnique(cl, ts[1..], us[1..], bits, p, PlayLen(ts[0], lens));
      assert ts == [ts[0]] + ts[1..] && us == [us[0]] + us[1..];
    }
  }

  lemma SetsSplit(a: Head, b: Head)
    requires a.ll + a.dl == b.ll + b.dl && |a.ll| == |b.ll|
    ensures a.ll == b.ll && a.dl == b.dl
  {
    assert a.ll == (a.ll + a.dl)[..|a.ll|] && b.ll == (b.ll + b.dl)[..|a.ll|];
    assert a.dl == (a.ll + a.dl)[|a.ll|..] && b.dl == (b.ll + b.dl)[|a.ll|..];
  }

  lemma CountsUnique(a: Head, b: Head, bits: seq<bool>, pos: nat)
    requires ValidHead(a) && At(bits, pos, CountBits(a)) && ValidHead(b) && At(bits, pos, CountBits(b))
    ensures |a.ll| == |b.ll| && |a.dl| == |b.dl| && a.nb == b.nb
  {
    hide ValidHead, CountBits, CountsAt, At;
    CountsRead(a, bits, pos);
    CountsRead(b, bits, pos);
  }

  lemma SetsUnique(a: Head, b: Head, bits: seq<bool>, p: nat, r: nat)
    requires ValidHead(a) && At(bits, p, OrderBits(a.cl, a.nb)) && At(bits, r, WriteLens(a.cl, a.lens))
    requires ValidHead(b) && At(bits, p, OrderBits(b.cl, b.nb)) && At(bits, r, WriteLens(b.cl, b.lens))
    requires |a.ll| == |b.ll| && |a.dl| == |b.dl| && a.nb == b.nb
    ensures a == b
  {
    hide OrderBits, WriteLens, PlayLens, LensWritable, ZeroFrom, At, Verdict, CodeLengthLens, ThreeBits;
    OrderRead(a.cl, bits, p, a.nb);
    OrderRead(b.cl, bits, p, b.nb);
    LensUnique(a.cl, a.lens, b.lens, bits, r, []);
    SetsSplit(a, b);
  }

  /** Two heads that stand at the same place are one. */
  lemma HeadUnique(a: Head, b: Head, bits: seq<bool>, pos: nat)
    requires ValidHead(a) && At(bits, pos, HeadBits(a)) && ValidHead(b) && At(bits, pos, HeadBits(b))
    ensures a == b
  {
    var p, r, s := pos + 14, pos + 14 + 3 * a.nb, pos + 14 + 3 * b.nb;
    hide CountBits, OrderBits, WriteLens, At, HeadBits, LensWritable;
    HeadParts(a, bits, pos, p, r, pos + |HeadBits(a)|);
    HeadParts(b, bits, pos, p, s, pos + |HeadBits(b)|);
    CountsUnique(a, b, bits, pos);
    SetsUnique(a, b, bits, p, r);
  }

  /*-- So are the heads of a stream --------------------------------------------*/

  /** Over a full window no match is too far. */
  lemma {:induction false} PlayFull(ts: seq<Token>, out: seq<byte>)
    requires |out| >= WSIZE && forall i :: 0 <= i < |ts| ==> ValidToken(ts[i])
    ensures Play(ts, out).Played?
    decreases |ts|
  {
    if ts != [] {
      assert ValidToken(ts[0]);
      PlayFull(ts[1..], PlayOne(ts[0], out));
    }
  }

  lemma WritableFull(ll: seq<nat>, dl: seq<nat>, ts: seq<Token>, out: seq<byte>)
    requires AllWritable(ll, dl, ts) && |out| >= WSIZE
    ensures Play(ts, out).Played?
  {
    hide Encodable, Play;
    assert forall i :: 0 <= i < |ts| ==> Writable(ll, dl, ts[i]);
    PlayFull(ts, out);
  }

  /** Two lists of tokens that stand at the same place end at the same. */
  lemma SymbolsEnd(ll: seq<nat>, dl: seq<nat>, ts: seq<Token>, us: seq<Token>, bits: seq<bool>, pos: nat, q: nat,
          r: nat)
    requires AllWritable(ll, dl, ts) && At(bits, pos, WriteAll(ll, dl, ts)) && q == pos + |WriteAll(ll, dl, ts)|
    requires AllWritable(ll, dl, us) && At(bits, pos, WriteAll(ll, dl, us)) && r == pos + |WriteAll(ll, dl, us)|
    ensures q == r
  {
    var out: seq<byte> := seq(WSIZE, _ => 0);
    hide AllWritable, WriteAll, At, Play, Compressed;
    WritableFull(ll, dl, ts, out);
    WritableFull(ll, dl, us, out);
    SymbolsRead(ll, dl, ts, bits, pos, q, out);
    SymbolsRead(ll, dl, us, bits, pos, r, out);
  }

  /** Blocks of one kind, with one head if they have one. */
  predicate SameHead(a: Block, b: Block) {
    Kind(a) == Kind(b) && (a.Custom? && b.Custom? ==> a.h == b.h)
  }

  /** The head of a dynamic block and its symbols. */
  lemma CustomParts(b: Block, bits: seq<bool>, pos: nat, p: nat, q: nat)
    requires b.Custom? && ValidBlock(b) && At(bits, pos, Body(b, pos)) && q == pos + |Body(b, pos)|
    requires p == pos + |HeadBits(b.h)|
    ensures At(bits, pos, HeadBits(b.h)) && At(bits, p, WriteAll(b.h.ll, b.h.dl, b.ts))
    ensures q == p + |WriteAll(b.h.ll, b.h.dl, b.ts)|
  {
    hide ValidHead, AllWritable, HeadBits, WriteAll, At;
    AtTwo(bits, pos, p, q, HeadBits(b.h), WriteAll(b.h.ll, b.h.dl, b.ts));
  }

  lemma CustomUnique(a: Block, b: Block, bits: seq<bool>, pos: nat, q: nat, r: nat)
    requires ValidBlock(a) && At(bits, pos, Body(a, pos)) && q == pos + |Body(a, pos)| && a.Custom?
    requires ValidBlock(b) && At(bits, pos, Body(b, pos)) && r == pos + |Body(b, pos)| && b.Custom?
    ensures q == r && a.h == b.h
  {
    hide ValidHead, AllWritable, HeadBits, WriteAll, At, Body;
    CustomParts(a, bits, pos, pos + |HeadBits(a.h)|, q);
    CustomParts(b, bits, pos, pos + |HeadBits(b.h)|, r);
    HeadUnique(a.h, b.h, bits, pos);
    SymbolsUnique(a, b, bits, pos + |HeadBits(a.h)|, q, r);
  }

  lemma SymbolsUnique(a: Block, b: Block, bits: seq<bool>, p: nat, q: nat, r: nat)
    requires a.Custom? && b.Custom? && ValidBlock(a) && ValidBlock(b) && a.h == b.h
    requires At(bits, p, WriteAll(a.h.ll, a.h.dl, a.ts)) && q == p + |WriteAll(a.h.ll, a.h.dl, a.ts)|
    requires At(bits, p, WriteAll(b.h.ll, b.h.dl, b.ts)) && r == p + |WriteAll(b.h.ll, b.h.dl, b.ts)|
    ensures q == r
  {
    hide ValidHead, AllWritable, WriteAll, At;
    SymbolsEnd(a.h.ll, a.h.dl, a.ts, b.ts, bits, p, q, r);
  }

  lemma BodyUnique(a: Block, b: Block, bits: seq<bool>, pos: nat, q: nat, r: nat)
    requires ValidBlock(a) && At(bits, pos, Body(a, pos)) && q == pos + |Body(a, pos)|
    requires ValidBlock(b) && At(bits, pos, Body(b, pos)) && r == pos + |Body(b, pos)| && Kind(a) == Kind(b)
    ensures q == r && SameHead(a, b)
  {
    hide AllWritable, ValidHead, HeadBits, WriteAll, StoredBits, At, Stored, FixedLiterals, FixedDistances;
    match a
    case Raw(data, pad) =>
      StoredRead(data, pad, bits, pos, q, []);
      StoredRead(b.data, b.pad, bits, pos, r, []);
    case Fixed(ts) =>
      SymbolsEnd(FixedLiterals(), FixedDistances(), ts, b.ts, bits, pos, q, r);
    case Custom(h, ts) =>
      CustomUnique(a, b, bits, pos, q, r);
  }

  lemma BlockUnique(a: Block, i: bool, b: Block, j: bool, bits: seq<bool>, pos: nat, q: nat, r: nat)
    requires ValidBlock(a) && At(bits, pos, BlockBits(a, i, pos)) && q == pos + |BlockBits(a, i, pos)|
    requires ValidBlock(b) && At(bits, pos, BlockBits(b, j, pos)) && r == pos + |BlockBits(b, j, pos)|
    ensures q == r && i == j && SameHead(a, b)
  {
    var p := pos + 3;
    hide ValidBlock, At, Body, KindBits, Kind, SameHead;
    BlockParts(a, i, bits, pos, p);
    BlockParts(b, j, bits, pos, p);
    BodyUnique(a, b, bits, p, q, r);
  }

  predicate SameHeads(a: seq<Block>, b: seq<Block>) {
    |a| == |b| && forall i :: 0 <= i < |a| ==> SameHead(a[i], b[i])
  }

  lemma SameMore(a: seq<Block>, b: seq<Block>)
    requires a != [] && b != [] && SameHead(a[0], b[0]) && SameHeads(a[1..], b[1..])
    ensures SameHeads(a, b)
  {
    hide SameHead;
    forall i | 0 <= i < |a| ensures SameHead(a[i], b[i]) {
      if i > 0 {
        assert a[i] == a[1..][i - 1] && b[i] == b[1..][i - 1];
      }
    }
  }

  /** The first block of a stream and the blocks after it. */
  lemma SpellsParts(bs: seq<Block>, bits: seq<bool>, pos: nat, r: nat, q: nat)
    requires Spells(bs, bits, pos, q) && r == FirstEnd(bs, pos)
    ensures ValidBlock(bs[0]) && At(bits, pos, BlockBits(bs[0], |bs| == 1, pos))
    ensures r == pos + |BlockBits(bs[0], |bs| == 1, pos)|
    ensures if |bs| == 1 then q == r else Spells(bs[1..], bits, r, q)
  {
    hide At, ValidBlock, BlockBits;
    StreamParts(bs, bits, pos, r, q);
  }

  /** Two streams that stand at the same place have the same heads and end at the same. */
  lemma {:induction false} StreamUnique(a: seq<Block>, b: seq<Block>, bits: seq<bool>, pos: nat, q: nat, r: nat)
    requires Spells(a, bits, pos, q) && Spells(b, bits, pos, r)
    ensures q == r && SameHeads(a, b)
    decreases |a|
  {
    SpellsSome(a, bits, pos, q);
    SpellsSome(b, bits, pos, r);
    var p, p2 := FirstEnd(a, pos), FirstEnd(b, pos);
    hide ValidBlock, At, BlockBits, SameHead, Spells, FirstEnd, FirstBits;
    SpellsParts(a, bits, pos, p, q);
    SpellsParts(b, bits, pos, p2, r);
    BlockUnique(a[0], |a| == 1, b[0], |b| == 1, bits, pos, p, p2);
    if |a| > 1 {
      StreamUnique(a[1..], b[1..], bits, p, q, r);
    }
    SameMore(a, b);
  }

  /*-- A repeat of nothing ----------------------------------------------------*/

  /** The first code length is not a repeat of the one before, as the format wants it. */
  predicate StartsRight(h: Head) {
    h.lens != [] ==> !h.lens[0].Again?
  }

  ghost predicate BlockRight(b: Block) {
    b.Custom? ==> StartsRight(b.h)
  }

  /** The blocks are of the format. */
  ghost predicate InFormat(bs: seq<Block>) {
    forall i :: 0 <= i < |bs| ==> BlockRight(bs[i])
  }

  /** A stream of the format stands at bit pos. */
  ghost predicate FormatAt(bits: seq<bool>, pos: nat) {
    exists bs, q :: Spells(bs, bits, pos, q) && InFormat(bs)
  }

  lemma SameFormat(a: seq<Block>, b: seq<Block>)
    requires SameHeads(a, b) && InFormat(a)
    ensures InFormat(b)
  {
    hide StartsRight;
    forall i | 0 <= i < |b| ensures BlockRight(b[i]) {
      assert SameHead(a[i], b[i]) && BlockRight(a[i]);
    }
  }

  /** Of the streams of blocks those that are of the format are the ones none of whose heads starts with
      a repeat. */
  lemma FormatIff(bs: seq<Block>, bits: seq<bool>, pos: nat, q: nat)
    requires Spells(bs, bits, pos, q)
    ensures FormatAt(bits, pos) <==> InFormat(bs)
  {
    hide Spells, InFormat, SameHeads;
    forall cs, r | Spells(cs, bits, pos, r) && InFormat(cs) ensures InFormat(bs) {
      StreamUnique(cs, bs, bits, pos, r, q);
      SameFormat(cs, bs);
    }
  }

  /** Code 16 at the start is taken for zeros. */
  lemma RepeatIsZeros(n: nat, ts: seq<LenToken>)
    ensures PlayLens([Again(n)] + ts, []) == PlayLens([Zeros(n)] + ts, [])
  {
    hide PlayLens;
    PlayFirst(Again(n), ts);
    PlayFirst(Zeros(n), ts);
  }

  lemma PlayFirst(t: LenToken, ts: seq<LenToken>)
    ensures PlayLens([t] + ts, []) == PlayLens(ts, PlayLen(t, []))
  {
    hide PlayLen;
    assert ([t] + ts)[1..] == ts;
  }

  /** The bytes but 0, 1 and 2 have codes, of seven and eight bits. */
  function RepeatLiterals(): (ll: seq<nat>)
    ensures |ll| == 257 && forall i :: 0 <= i < 257 ==> ll[i] == if i < 3 then 0 else if i < 5 then 7 else 8
  {
    Run(3, 0) + (Run(2, 7) + Run(252, 8))
  }

  /** Code lengths 0 to 14 in four bits, 15 and the repeat in five. */
  function RepeatCode(): (cl: seq<nat>)
    ensures |cl| == 19 && forall i :: 0 <= i < 19 ==> cl[i] == if i < 15 then 4 else if i < 17 then 5 else 0
  {
    Run(15, 4) + Run(2, 5) + Run(2, 0)
  }

  /** A head that starts with a repeat, and no distance code. */
  function RepeatHead(): Head {
    Head(RepeatLiterals(), [0], RepeatCode(), 19, [Again(3)] + PlainTokens(RepeatLiterals()[3..] + [0]))
  }

  lemma RepeatSets()
    ensures Verdict(RepeatLiterals()) == 0 && Verdict([0]) == 0 && Verdict(RepeatCode()) == 0
    ensures CodeSet(RepeatLiterals()) && CodeSet(RepeatCode())
  {
    Pow2To16();
    hide Kraft, Pow2;
    assert AllZero([0]);
    hide Verdict;
    TwoRunsComplete(Run(3, 0), 2, 7, 252, 8, []);
    TwoRunsComplete([], 15, 4, 2, 5, Run(2, 0));
    assert RepeatLiterals() == Run(3, 0) + (Run(2, 7) + Run(252, 8)) + [];
    assert RepeatCode() == [] + (Run(15, 4) + Run(2, 5)) + Run(2, 0);
  }

  lemma RepeatPlays()
    ensures PlayLens(RepeatHead().lens, []) == RepeatLiterals() + [0]
  {
    var ll := RepeatLiterals();
    var rest := ll[3..] + [0];
    assert Run(3, 0) + rest == ll + [0];
    assert PlayLen(Again(3), []) == Run(3, 0);
    hide RepeatLiterals, PlainTokens, PlayLens, PlayLen;
    PlayFirst(Again(3), PlainTokens(rest));
    PlainPlay(rest, Run(3, 0));
  }

  lemma RepeatWritable()
    ensures LensWritable(RepeatCode(), RepeatHead().lens)
  {
    RepeatSets();
    var ll, cl := RepeatLiterals(), RepeatCode();
    var all := ll[3..] + [0];
    var ts := PlainTokens(all);
    hide Kraft, RepeatLiterals, RepeatCode, PlainTokens, Verdict;
    forall i | 0 <= i < |ts| ensures LenWritable(cl, ts[i]) {
      assert ts[i] == Len(all[i]) && all[i] <= 8;
    }
    assert LenWritable(cl, Again(3));
  }

  lemma RepeatValid()
    ensures ValidHead(RepeatHead()) && HeadFits(RepeatHead()) && !StartsRight(RepeatHead())
  {
    RepeatSets();
    RepeatPlays();
    RepeatWritable();
    hide Kraft, RepeatLiterals, RepeatCode, PlainTokens, Verdict, PlayLens, LensWritable;
  }

  lemma RepeatWrites(data: seq<byte>)
    requires forall i :: 0 <= i < |data| ==> data[i] >= 3
    ensures AllWritable(RepeatLiterals(), [0], Literals(data))
  {
    RepeatSets();
    var ll := RepeatLiterals();
    hide Kraft, RepeatLiterals, Verdict;
    forall i | 0 <= i < |data| ensures Writable(ll, [0], Literals(data)[i]) {
      assert ll[data[i]] > 0;
    }
  }

  lemma OneSpelled(b: Block)
    requires ValidBlock(b)
    ensures ValidBlocks([b]) && Spells([b], StreamBits([b], 0), 0, |StreamBits([b], 0)|)
  {
    assert ValidBlocks([b]);
    hide ValidBlock, StreamBits, At;
    WholeAt(StreamBits([b], 0));
  }

  /** Streams that are none of the format, their only head starting with a repeat. The program accepts them. */
  lemma LeadingRepeat(data: seq<byte>)
    requires forall i :: 0 <= i < |data| ==> data[i] >= 3
    ensures var b := Custom(RepeatHead(), Literals(data));
            && ValidBlocks([b]) && Inflate(StreamBits([b], 0), 0, []) == Done(|StreamBits([b], 0)|, data)
            && !FormatAt(StreamBits([b], 0), 0)
  {
    var b := Custom(RepeatHead(), Literals(data));
    RepeatValid();
    RepeatWrites(data);
    PlayLiterals(data, []);
    assert [] + data == data;
    hide RepeatHead, ValidHead, HeadFits, AllWritable, Literals, StartsRight, Play;
    OneBlockRead(b, data);
    OneSpelled(b);
    hide Inflate, StreamBits, Spells, FormatAt;
    FormatIff([b], StreamBits([b], 0), 0, |StreamBits([b], 0)|);
    assert !BlockRight([b][0]);
  }
}
