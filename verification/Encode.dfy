/** A compressor for the format, and the round trip: whatever literals and matches it writes, the
    bit-by-bit decoder of `Deflate` plays back. `Parse` has the converse. */
module Encode {
  import opened Bits
  import opened Canonical
  import opened HuftSizing
  import opened Deflate
  import opened Blocks

  ghost predicate At(bits: seq<bool>, pos: nat, s: seq<bool>) {
    pos + |s| <= |bits| && bits[pos..pos + |s|] == s
  }

  lemma AtParts(bits: seq<bool>, pos: nat, a: seq<bool>, b: seq<bool>)
    requires At(bits, pos, a + b)
    ensures At(bits, pos, a) && At(bits, pos + |a|, b)
  {
    assert bits[pos..pos + |a|] == (a + b)[..|a|];
    assert bits[pos + |a|..pos + |a| + |b|] == (a + b)[|a|..];
  }

  /** Two strings in a row, which end at bit q. */
  lemma AtTwo(bits: seq<bool>, pos: nat, p: nat, q: nat, a: seq<bool>, b: seq<bool>)
    requires At(bits, pos, a + b) && p == pos + |a| && q == pos + |a + b|
    ensures At(bits, pos, a) && At(bits, p, b) && q == p + |b|
  {
    AtParts(bits, pos, a, b);
  }

  /** Three strings in a row. */
  lemma AtThree(bits: seq<bool>, pos: nat, p: nat, q: nat, a: seq<bool>, b: seq<bool>, c: seq<bool>)
    requires At(bits, pos, a + b + c) && p == pos + |a| && q == p + |b|
    ensures At(bits, pos, a) && At(bits, p, b) && At(bits, q, c) && q + |c| <= |bits|
  {
    AtParts(bits, pos, a + b, c);
    AtParts(bits, pos, a, b);
  }

  /*-- Canonical codes --------------------------------------------------------*/

  /** The n-bit string, most significant bit first, that spells v. */
  function Msb(v: nat, n: nat): (s: seq<bool>)
    requires v < Pow2(n)
    ensures |s| == n && Val(s) == v
  {
    if n == 0 then [] else Msb(v / 2, n - 1) + [v % 2 == 1]
  }

  ghost predicate Encodable(lens: seq<nat>, sym: nat) {
    ValidLens(lens) && Kraft(lens) <= TOP && sym < |lens| && lens[sym] > 0
  }

  /** In a set that is not oversubscribed every code fits its length. */
  lemma CodeFits(lens: seq<nat>, sym: nat)
    requires Encodable(lens, sym)
    ensures Code(lens, sym) < Pow2(lens[sym])
  {
    var t := lens[sym];
    CountMono(lens, sym, t);
    FirstCodeFilled(lens, t);
    ShlAdd(FirstCode(lens, t), Count(lens, t), BMAX - t);
    FilledMono(lens, t, BMAX);
    PowShift(t, BMAX - t);
    Pow2To16();
    ShlOrder(FirstCode(lens, t) + Count(lens, t), Pow2(t), BMAX - t);
  }

  ghost function CodeOf(lens: seq<nat>, sym: nat): (s: seq<bool>)
    requires Encodable(lens, sym)
    ensures Codes(lens, sym, s) && |s| == lens[sym]
  {
    CodeFits(lens, sym);
    Msb(Code(lens, sym), lens[sym])
  }

  /** A code decodes to its symbol, whatever follows it. */
  lemma CodeDecodes(lens: seq<nat>, sym: nat, bits: seq<bool>, pos: nat)
    requires Encodable(lens, sym) && At(bits, pos, CodeOf(lens, sym))
    ensures Decode(lens, bits, pos) == Sym(sym, pos + lens[sym])
  {
    var s := CodeOf(lens, sym);
    hide Decode, CodeOf, Kraft, Codes;
    CodesIff(lens, sym, s);
    forall i | 0 <= i < |s| && pos + i < |bits| ensures bits[pos + i] == s[i] {
      assert bits[pos..pos + |s|][i] == s[i];
    }
    DecodeLeaf(lens, bits, pos, 1, s);
    assert Decode(lens, bits, pos) == DecodeFrom(lens, bits, pos, 1);
  }

  lemma FieldAt(bits: seq<bool>, pos: nat, x: nat, n: nat)
    requires x < Pow2(n) && At(bits, pos, BitsOf(x, n))
    ensures pos + n <= |bits| && Field(bits, pos, n) == x
  {
  }

  /** A code with extra bits after it. */
  lemma CodeAndField(lens: seq<nat>, sym: nat, x: nat, n: nat, bits: seq<bool>, pos: nat)
    requires Encodable(lens, sym) && x < Pow2(n) && At(bits, pos, CodeOf(lens, sym) + BitsOf(x, n))
    ensures Decode(lens, bits, pos) == Sym(sym, pos + lens[sym])
    ensures pos + lens[sym] + n <= |bits| && Field(bits, pos + lens[sym], n) == x
  {
    var p := pos + lens[sym];
    hide Decode, Field, BitsOf, CodeOf, Pow2, At, Codes;
    AtTwo(bits, pos, p, pos + |CodeOf(lens, sym) + BitsOf(x, n)|, CodeOf(lens, sym), BitsOf(x, n));
    CodeDecodes(lens, sym, bits, pos);
    FieldAt(bits, p, x, n);
  }

  /*-- The tables of section 3.2.5 --------------------------------------------*/

  /** The last entry up to i that is not above x. */
  function Pick(base: seq<nat>, i: nat, x: nat): (j: nat)
    requires i < |base| && base[0] <= x
    ensures j <= i && base[j] <= x && (j < i ==> x < base[j + 1])
  {
    if base[i] <= x then i else Pick(base, i - 1, x)
  }

  /** Each entry starts where the one before ends, but for the last: 258 has its own code and is also
      the last value of the code before. */
  lemma LengthStep(i: nat)
    requires i < 28
    ensures LENGTH_BASE[i] + Pow2(LENGTH_EXTRA[i]) == LENGTH_BASE[i + 1] + (if i == 27 then 1 else 0)
  {
    hide Pow2;
    Pow2To16();
  }

  lemma DistSteps(i: nat)
    requires i < 29
    ensures DIST_BASE[i + 1] == DIST_BASE[i] + Pow2(DIST_EXTRA[i])
  {
    Pow2To16();
    hide Pow2;
    // Fewer entries at a time.
    if i < 15 {
      assert DIST_BASE[i + 1] == DIST_BASE[i] + Pow2(DIST_EXTRA[i]);
    } else {
      assert DIST_BASE[i + 1] == DIST_BASE[i] + Pow2(DIST_EXTRA[i]);
    }
  }

  /** Every length from 3 to 258 is some entry's base plus a number its extra bits can hold. */
  lemma LengthCovered(len: nat)
    requires 3 <= len <= 258
    ensures var i := Pick(LENGTH_BASE, 28, len);
            i < 29 && LENGTH_BASE[i] <= len < LENGTH_BASE[i] + Pow2(LENGTH_EXTRA[i])
  {
    var i := Pick(LENGTH_BASE, 28, len);
    Pow2To16();
    if i < 28 {
      LengthStep(i);
    }
  }

  /** The entry a length is written in. */
  function LengthEntry(len: nat, second: bool): (i: nat)
    requires 3 <= len <= 258
    ensures i < 29
  {
    if second then 27 else Pick(LENGTH_BASE, 28, len)
  }

  lemma EntryCovers(len: nat, second: bool)
    requires 3 <= len <= 258 && (second ==> len == 258)
    ensures var i := LengthEntry(len, second); LENGTH_BASE[i] <= len < LENGTH_BASE[i] + Pow2(LENGTH_EXTRA[i])
  {
    LengthCovered(len);
    assert LENGTH_BASE[27] == 227 && LENGTH_EXTRA[27] == 5;
    Pow2To16();
  }

  lemma {:induction false} LengthOrdered(i: nat, j: nat)
    requires i < j < 29
    ensures LENGTH_BASE[i] + Pow2(LENGTH_EXTRA[i]) <= LENGTH_BASE[j] + (if j == 28 then 1 else 0)
    decreases j
  {
    hide Pow2;
    LengthStep(j - 1);
    if i < j - 1 {
      LengthOrdered(i, j - 1);
    }
  }

  /** Every length from 3 to 258 has exactly one code and value of the extra bits, but for 258, which
      has two. */
  lemma LengthExact(len: nat, i: nat, x: nat)
    requires 3 <= len <= 258 && i < 29 && x < Pow2(LENGTH_EXTRA[i])
    ensures LENGTH_BASE[i] + x == len <==>
              (i == Pick(LENGTH_BASE, 28, len) && x == len - LENGTH_BASE[i]) || (len == 258 && i == 27 && x == 31)
  {
    var k := Pick(LENGTH_BASE, 28, len);
    LengthCovered(len);
    assert LENGTH_BASE[27] == 227 && LENGTH_BASE[28] == 258;
    if k < i {
      LengthOrdered(k, i);
    } else if i < k {
      LengthOrdered(i, k);
    }
  }

  lemma DistCovered(dist: nat)
    requires 1 <= dist <= WSIZE
    ensures var m := Pick(DIST_BASE, 29, dist);
            m < 30 && DIST_BASE[m] <= dist < DIST_BASE[m] + Pow2(DIST_EXTRA[m])
  {
    var m := Pick(DIST_BASE, 29, dist);
    Pow2To16();
    if m < 29 {
      DistSteps(m);
    }
  }

  lemma {:induction false} DistOrdered(i: nat, j: nat)
    requires i < j < 30
    ensures DIST_BASE[i] + Pow2(DIST_EXTRA[i]) <= DIST_BASE[j]
    decreases j
  {
    hide Pow2;
    DistSteps(j - 1);
    if i < j - 1 {
      DistOrdered(i, j - 1);
    }
  }

  /** Every distance from 1 to 32768 has exactly one code and value of the extra bits. */
  lemma DistanceExact(dist: nat, m: nat, x: nat)
    requires 1 <= dist <= WSIZE && m < 30 && x < Pow2(DIST_EXTRA[m])
    ensures DIST_BASE[m] + x == dist <==> m == Pick(DIST_BASE, 29, dist) && x == dist - DIST_BASE[m]
  {
    var k := Pick(DIST_BASE, 29, dist);
    DistCovered(dist);
    if k < m {
      DistOrdered(k, m);
    } else if m < k {
      DistOrdered(m, k);
    }
  }

  /*-- Literals and matches ---------------------------------------------------*/

  /** A byte, or a match; one of 258 bytes may be written in its second code. */
  datatype Token = Literal(b: byte) | Copy(len: nat, dist: nat, second: bool := false)

  ghost predicate ValidToken(t: Token) {
    t.Copy? ==> 3 <= t.len <= 258 && 1 <= t.dist <= WSIZE && (t.second ==> t.len == 258)
  }

  ghost predicate Writable(ll: seq<nat>, dl: seq<nat>, t: Token) {
    && ValidToken(t)
    && match t
       case Literal(b) => Encodable(ll, b)
       case Copy(len, dist, second) =>
         Encodable(ll, 257 + LengthEntry(len, second)) && Encodable(dl, Pick(DIST_BASE, 29, dist))
  }

  /** v as entry j of a table of bases and extra bits: the code of symbol first + j, then what v has
      above the base. */
  ghost function Coded(lens: seq<nat>, first: nat, base: seq<nat>, extra: seq<nat>, j: nat, v: nat): seq<bool>
    requires j < |base| == |extra| && Encodable(lens, first + j) && base[j] <= v < base[j] + Pow2(extra[j])
  {
    CodeOf(lens, first + j) + BitsOf(v - base[j], extra[j])
  }

  ghost function LengthBits(ll: seq<nat>, len: nat, second: bool): seq<bool>
    requires 3 <= len <= 258 && (second ==> len == 258) && Encodable(ll, 257 + LengthEntry(len, second))
  {
    EntryCovers(len, second);
    Coded(ll, 257, LENGTH_BASE, LENGTH_EXTRA, LengthEntry(len, second), len)
  }

  ghost function DistBits(dl: seq<nat>, dist: nat): seq<bool>
    requires 1 <= dist <= WSIZE && Encodable(dl, Pick(DIST_BASE, 29, dist))
  {
    DistCovered(dist);
    Coded(dl, 0, DIST_BASE, DIST_EXTRA, Pick(DIST_BASE, 29, dist), dist)
  }

  ghost function Write(ll: seq<nat>, dl: seq<nat>, t: Token): seq<bool>
    requires Writable(ll, dl, t)
  {
    match t
    case Literal(b) => CodeOf(ll, b)
    case Copy(len, dist, second) => LengthBits(ll, len, second) + DistBits(dl, dist)
  }

  ghost predicate AllWritable(ll: seq<nat>, dl: seq<nat>, ts: seq<Token>) {
    Encodable(ll, 256) && forall i :: 0 <= i < |ts| ==> Writable(ll, dl, ts[i])
  }

  /** The symbols of a block, end of block included. */
  ghost function WriteAll(ll: seq<nat>, dl: seq<nat>, ts: seq<Token>): seq<bool>
    requires AllWritable(ll, dl, ts)
  {
    if ts == [] then CodeOf(ll, 256) else Write(ll, dl, ts[0]) + WriteAll(ll, dl, ts[1..])
  }

  predicate Playable(t: Token, out: seq<byte>) {
    t.Copy? ==> 1 <= t.dist <= |out|
  }

  function PlayOne(t: Token, out: seq<byte>): seq<byte>
    requires Playable(t, out)
  {
    match t
    case Literal(b) => out + [b]
    case Copy(len, dist, _) => CopyMatch(out, dist, len)
  }

  /** What the tokens mean: too far when a match reaches back beyond the start of the output. */
  datatype Played = Played(out: seq<byte>) | TooFar

  function Play(ts: seq<Token>, out: seq<byte>): Played {
    if ts == [] then Played(out)
    else if Playable(ts[0], out) then Play(ts[1..], PlayOne(ts[0], out))
    else TooFar
  }

  /** The outcome of decoding up to bit q what means p. */
  function Decoded(p: Played, q: nat): Outcome {
    match p
    case Played(o) => Done(q, o)
    case TooFar => Far
  }

  /** The extra bits of entry j lie between p and q and make its base v. */
  ghost predicate Reads(base: seq<nat>, extra: seq<nat>, j: nat, bits: seq<bool>, p: nat, q: nat, v: nat)
    requires j < |base| == |extra|
  {
    q == p + extra[j] <= |bits| && base[j] + Field(bits, p, extra[j]) == v
  }

  lemma CodedRead(lens: seq<nat>, first: nat, base: seq<nat>, extra: seq<nat>, j: nat, v: nat, bits: seq<bool>,
          pos: nat, q: nat)
    requires j < |base| == |extra| && Encodable(lens, first + j) && base[j] <= v < base[j] + Pow2(extra[j])
    requires At(bits, pos, Coded(lens, first, base, extra, j, v)) && q == pos + |Coded(lens, first, base, extra, j, v)|
    ensures Decode(lens, bits, pos) == Sym(first + j, pos + lens[first + j])
    ensures Reads(base, extra, j, bits, pos + lens[first + j], q, v)
  {
    hide Decode, CodeOf, Field, BitsOf, Encodable, Pow2;
    CodeAndField(lens, first + j, v - base[j], extra[j], bits, pos);
  }

  /** A distance code m that has been decoded up to p, and its extra bits. */
  lemma DistTurn(m: nat, p: nat, q: nat, dist: nat, dl: seq<nat>, bits: seq<bool>, out: seq<byte>, len: nat)
    requires m < 30 && Reads(DIST_BASE, DIST_EXTRA, m, bits, p, q, dist) && dist >= 1
    ensures MatchOn(Sym(m, p), dl, bits, out, len) == if dist <= |out| then Go(q, CopyMatch(out, dist, len)) else Stop(Far)
  {
    hide CopyMatch, Field;
  }

  lemma DistRead(dl: seq<nat>, dist: nat, bits: seq<bool>, pos: nat, q: nat, out: seq<byte>, len: nat)
    requires 1 <= dist <= WSIZE && Encodable(dl, Pick(DIST_BASE, 29, dist))
    requires At(bits, pos, DistBits(dl, dist)) && q == pos + |DistBits(dl, dist)|
    ensures MatchOn(Decode(dl, bits, pos), dl, bits, out, len) ==
              if dist <= |out| then Go(q, CopyMatch(out, dist, len)) else Stop(Far)
  {
    hide Decode, Coded, Reads, Encodable, Pick, Pow2, CopyMatch, MatchOn, At;
    var m := Pick(DIST_BASE, 29, dist);
    DistCovered(dist);
    CodedRead(dl, 0, DIST_BASE, DIST_EXTRA, m, dist, bits, pos, q);
    DistTurn(m, pos + dl[m], q, dist, dl, bits, out, len);
  }

  lemma LengthTurn(i: nat, p: nat, q: nat, len: nat, ll: seq<nat>, dl: seq<nat>, bits: seq<bool>, out: seq<byte>)
    requires i < 29 && Reads(LENGTH_BASE, LENGTH_EXTRA, i, bits, p, q, len)
    ensures TurnOn(Sym(257 + i, p), ll, dl, bits, out) == MatchOn(Decode(dl, bits, q), dl, bits, out, len)
  {
    hide MatchOn, Decode, Field;
  }

  lemma LengthRead(ll: seq<nat>, dl: seq<nat>, len: nat, second: bool, bits: seq<bool>, pos: nat, q: nat,
          out: seq<byte>)
    requires 3 <= len <= 258 && (second ==> len == 258) && Encodable(ll, 257 + LengthEntry(len, second))
    requires At(bits, pos, LengthBits(ll, len, second)) && q == pos + |LengthBits(ll, len, second)|
    ensures Turn(ll, dl, bits, pos, out) == MatchOn(Decode(dl, bits, q), dl, bits, out, len)
  {
    hide Decode, Coded, Reads, Encodable, LengthEntry, Pow2, TurnOn, MatchOn, At;
    var i := LengthEntry(len, second);
    EntryCovers(len, second);
    CodedRead(ll, 257, LENGTH_BASE, LENGTH_EXTRA, i, len, bits, pos, q);
    LengthTurn(i, pos + ll[257 + i], q, len, ll, dl, bits, out);
  }

  lemma SimpleRead(ll: seq<nat>, dl: seq<nat>, n: nat, bits: seq<bool>, pos: nat, q: nat, out: seq<byte>)
    requires n <= 256 && Encodable(ll, n) && At(bits, pos, CodeOf(ll, n)) && q == pos + |CodeOf(ll, n)|
    ensures Turn(ll, dl, bits, pos, out) == if n < 256 then Go(q, out + [n]) else Stop(Done(q, out))
  {
    hide Decode, CodeOf, MatchOn;
    CodeDecodes(ll, n, bits, pos);
  }

  lemma TokenRead(ll: seq<nat>, dl: seq<nat>, t: Token, bits: seq<bool>, pos: nat, q: nat, out: seq<byte>)
    requires Writable(ll, dl, t) && At(bits, pos, Write(ll, dl, t)) && q == pos + |Write(ll, dl, t)|
    ensures Turn(ll, dl, bits, pos, out) == if Playable(t, out) then Go(q, PlayOne(t, out)) else Stop(Far)
  {
    hide Turn, Decode, CodeOf, MatchOn, LengthBits, DistBits, Encodable, CopyMatch, At, LengthEntry, Pick;
    match t
    case Literal(b) => SimpleRead(ll, dl, b, bits, pos, q, out);
    case Copy(len, dist, second) =>
      var p := pos + |LengthBits(ll, len, second)|;
      AtTwo(bits, pos, p, q, LengthBits(ll, len, second), DistBits(dl, dist));
      LengthRead(ll, dl, len, second, bits, pos, p, out);
      DistRead(dl, dist, bits, p, q, out, len);
  }

  /** Decoding a block plays its tokens, for any two code sets that can write them. */
  lemma {:induction false} WriteRead(ll: seq<nat>, dl: seq<nat>, ts: seq<Token>, bits: seq<bool>, pos: nat, q: nat,
          out: seq<byte>)
    requires AllWritable(ll, dl, ts) && At(bits, pos, WriteAll(ll, dl, ts)) && q == pos + |WriteAll(ll, dl, ts)|
    ensures Compressed(ll, dl, bits, pos, out) == Decoded(Play(ts, out), q)
    decreases |ts|
  {
    hide Turn, Write, PlayOne, Playable, Writable, Encodable, CodeOf, At;
    if ts == [] {
      SimpleRead(ll, dl, 256, bits, pos, q, out);
    } else {
      var p := pos + |Write(ll, dl, ts[0])|;
      AtTwo(bits, pos, p, q, Write(ll, dl, ts[0]), WriteAll(ll, dl, ts[1..]));
      TokenRead(ll, dl, ts[0], bits, pos, p, out);
      if Playable(ts[0], out) {
        WriteRead(ll, dl, ts[1..], bits, p, q, PlayOne(ts[0], out));
      }
    }
  }

  /*-- Whole streams ----------------------------------------------------------*/

  lemma FixedWritable(ts: seq<Token>)
    requires forall i :: 0 <= i < |ts| ==> ValidToken(ts[i])
    ensures AllWritable(FixedLiterals(), FixedDistances(), ts)
  {
    FixedLiteralFacts();
    FixedDistanceFacts();
    hide Kraft, Pick;
    forall i | 0 <= i < |ts| ensures Writable(FixedLiterals(), FixedDistances(), ts[i]) {
      assert ValidToken(ts[i]);
    }
  }

  /** One last block in the fixed codes. */
  ghost function FixedStream(ts: seq<Token>): seq<bool>
    requires forall i :: 0 <= i < |ts| ==> ValidToken(ts[i])
  {
    FixedWritable(ts);
    [true, true, false] + WriteAll(FixedLiterals(), FixedDistances(), ts)
  }

  /** The stream written for any list of literals and matches inflates to what the list means. */
  lemma StreamRoundTrip(ts: seq<Token>, bits: seq<bool>, pos: nat, out: seq<byte>)
    requires (forall i :: 0 <= i < |ts| ==> ValidToken(ts[i])) && At(bits, pos, FixedStream(ts))
    ensures Inflate(bits, pos, out) == Decoded(Play(ts, out), pos + |FixedStream(ts)|)
  {
    hide Compressed;
    FixedWritable(ts);
    var s, w := FixedStream(ts), WriteAll(FixedLiterals(), FixedDistances(), ts);
    AtParts(bits, pos, [true, true, false], w);
    WriteRead(FixedLiterals(), FixedDistances(), ts, bits, pos + 3, pos + |s|, out);
    assert bits[pos] == bits[pos..pos + 3][0];
    assert bits[pos + 1..pos + 3] == bits[pos..pos + 3][1..] == [true, false];
    assert Num([true, false]) == 1 by {
      assert [true, false][1..] == [false];
    }
  }

  function Literals(data: seq<byte>): (ts: seq<Token>)
    ensures |ts| == |data| && forall i :: 0 <= i < |ts| ==> ts[i] == Literal(data[i])
  {
    seq(|data|, i requires 0 <= i < |data| => Literal(data[i]))
  }

  lemma {:induction false} PlayLiterals(data: seq<byte>, out: seq<byte>)
    ensures Play(Literals(data), out) == Played(out + data)
    decreases |data|
  {
    if data == [] {
      assert out + data == out;
    } else {
      assert Literals(data)[1..] == Literals(data[1..]);
      PlayLiterals(data[1..], out + [data[0]]);
      assert (out + [data[0]]) + data[1..] == out + data;
    }
  }

  /** Every list of bytes has a stream that inflates to it. */
  lemma EveryDataHasStream(data: seq<byte>)
    ensures var s := FixedStream(Literals(data)); Inflate(s, 0, []) == Done(|s|, data)
  {
    StreamRoundTrip(Literals(data), FixedStream(Literals(data)), 0, []);
    PlayLiterals(data, []);
    assert [] + data == data;
  }

  /** The stream of one match at the very start. It is no valid stream of its own, but the program
      accepts it and delivers three copies of the last byte of whatever the window held. */
  lemma TooFarAccepted(window: seq<byte>)
    requires |window| >= WSIZE
    ensures var s := FixedStream([Copy(3, 1)]);
            && Inflate(s, 0, []) == Far
            && Inflate(s, 0, window) == Done(|s|, CopyMatch(window, 1, 3))
  {
    hide Inflate, FixedLiterals, FixedDistances, WriteAll;
    var ts := [Copy(3, 1)];
    StreamRoundTrip(ts, FixedStream(ts), 0, []);
    StreamRoundTrip(ts, FixedStream(ts), 0, window);
    assert ts[1..] == [];
  }
}
