/** The other half of the round trip: a stream that inflates is a stream of blocks. What the decoder of
    `Deflate` reads can be written down as the literals, matches, lengths and heads of `Encode` and
    `Streams`, and these write the same bits again (zip/inflate.c:341-817). */
module Parse {
  import opened Bits
  import opened Canonical
  import opened Deflate
  import opened Lookup
  import opened Blocks
  import opened Encode
  import opened Streams

  /*-- Strings ----------------------------------------------------------------*/

  /** Two strings in a row. */
  lemma AtJoin(bits: seq<bool>, pos: nat, p: nat, q: nat, a: seq<bool>, b: seq<bool>)
    requires At(bits, pos, a) && p == pos + |a| && At(bits, p, b) && q == p + |b|
    ensures At(bits, pos, a + b) && q == pos + |a + b| <= |bits|
  {
    assert bits[pos..q] == bits[pos..p] + bits[p..q];
  }

  /** Three strings in a row. */
  lemma AtJoinThree(bits: seq<bool>, pos: nat, p: nat, r: nat, q: nat, a: seq<bool>, b: seq<bool>, c: seq<bool>)
    requires At(bits, pos, a) && p == pos + |a| && At(bits, p, b) && r == p + |b| && At(bits, r, c) && q == r + |c|
    ensures At(bits, pos, a + b + c) && q == pos + |a + b + c| <= |bits|
  {
    hide At;
    AtJoin(bits, pos, p, r, a, b);
    AtJoin(bits, pos, r, q, a + b, c);
  }

  /** Any field is some number's. */
  lemma FieldParsed(bits: seq<bool>, pos: nat, n: nat)
    requires pos + n <= |bits|
    ensures Field(bits, pos, n) < Pow2(n) && At(bits, pos, BitsOf(Field(bits, pos, n), n))
  {
    var s := bits[pos..pos + n];
    NumBound(s);
    NumInjective(BitsOf(Num(s), n), s);
  }

  ghost predicate CodeSet(lens: seq<nat>) {
    ValidLens(lens) && Kraft(lens) <= TOP
  }

  lemma AcceptedCodeSet(lens: seq<nat>)
    requires ValidLens(lens) && Verdict(lens) == 0
    ensures CodeSet(lens)
  {
    if AllZero(lens) {
      ZeroMaxLen(lens);
      FilledMax(lens, BMAX);
    }
  }

  lemma {:induction false} DecodedFrom(lens: seq<nat>, bits: seq<bool>, pos: nat, t: nat, n: nat, p: nat)
    requires DecodeFrom(lens, bits, pos, t) == Sym(n, p) && t >= 1
    ensures pos < p <= |bits| && Codes(lens, n, bits[pos..p])
    decreases MaxLen(lens) + 1 - t
  {
    hide Codes;
    var s := bits[pos..pos + t];
    if !exists sym :: Codes(lens, sym, s) {
      DecodedFrom(lens, bits, pos, t + 1, n, p);
    }
  }

  lemma SameCode(lens: seq<nat>, n: nat, s: seq<bool>)
    requires CodeSet(lens) && Codes(lens, n, s)
    ensures Encodable(lens, n) && s == CodeOf(lens, n)
  {
    hide Kraft, Code;
    ValInjective(s, CodeOf(lens, n));
  }

  /** What has been decoded is a symbol's code. */
  lemma CodeParsed(lens: seq<nat>, bits: seq<bool>, pos: nat, n: nat, p: nat)
    requires CodeSet(lens) && Decode(lens, bits, pos) == Sym(n, p)
    ensures Encodable(lens, n) && At(bits, pos, CodeOf(lens, n)) && p == pos + |CodeOf(lens, n)|
  {
    hide Codes, CodeOf, Encodable, DecodeFrom, CodeSet;
    DecodedFrom(lens, bits, pos, 1, n, p);
    SameCode(lens, n, bits[pos..p]);
  }

  /** A code and extra bits after it. */
  lemma CodeFieldParsed(lens: seq<nat>, bits: seq<bool>, pos: nat, n: nat, p: nat, w: nat, q: nat)
    requires CodeSet(lens) && Decode(lens, bits, pos) == Sym(n, p) && q == p + w <= |bits|
    ensures Encodable(lens, n) && Field(bits, p, w) < Pow2(w)
    ensures At(bits, pos, CodeOf(lens, n) + BitsOf(Field(bits, p, w), w))
        && q == pos + |CodeOf(lens, n) + BitsOf(Field(bits, p, w), w)|
  {
    hide CodeSet, Decode, CodeOf, Encodable, Field, BitsOf, Pow2, At;
    CodeParsed(lens, bits, pos, n, p);
    FieldParsed(bits, p, w);
    AtJoin(bits, pos, p, q, CodeOf(lens, n), BitsOf(Field(bits, p, w), w));
  }

  /*-- Literals and matches ---------------------------------------------------*/

  /** Entry j of a table of bases and extra bits. */
  lemma EntryParsed(lens: seq<nat>, first: nat, base: seq<nat>, extra: seq<nat>, j: nat, bits: seq<bool>, pos: nat,
          p: nat, q: nat, v: nat)
    requires CodeSet(lens) && j < |base| == |extra| && Decode(lens, bits, pos) == Sym(first + j, p)
    requires Reads(base, extra, j, bits, p, q, v)
    ensures Encodable(lens, first + j) && base[j] <= v < base[j] + Pow2(extra[j])
    ensures At(bits, pos, Coded(lens, first, base, extra, j, v)) && q == pos + |Coded(lens, first, base, extra, j, v)|
  {
    hide CodeSet, Decode, CodeOf, Encodable, Field, BitsOf, Pow2, At;
    CodeFieldParsed(lens, bits, pos, first + j, p, extra[j], q);
    assert v - base[j] == Field(bits, p, extra[j]);
  }

  /** Which entry and which of the two codes for 258 it was. */
  lemma EntryFound(i: nat, len: nat) returns (second: bool)
    requires i < 29 && LENGTH_BASE[i] <= len < LENGTH_BASE[i] + Pow2(LENGTH_EXTRA[i])
    ensures 3 <= len <= 258 && (second ==> len == 258) && LengthEntry(len, second) == i
  {
    second := i == 27 && len == 258;
    LengthBounds(i);
    LengthExact(len, i, len - LENGTH_BASE[i]);
    hide Pow2, Pick;
    assert LENGTH_BASE[27] == 227;
  }

  lemma LengthBounds(i: nat)
    requires i < 29
    ensures 3 <= LENGTH_BASE[i] && LENGTH_BASE[i] + Pow2(LENGTH_EXTRA[i]) <= 259
  {
    assert LENGTH_BASE[28] == 258 && LENGTH_EXTRA[28] == 0;
    if i < 28 {
      LengthOrdered(i, 28);
    }
  }

  lemma LengthParsed(ll: seq<nat>, bits: seq<bool>, pos: nat, i: nat, p: nat, q: nat, len: nat) returns (second: bool)
    requires CodeSet(ll) && i < 29 && Decode(ll, bits, pos) == Sym(257 + i, p)
    requires Reads(LENGTH_BASE, LENGTH_EXTRA, i, bits, p, q, len)
    ensures 3 <= len <= 258 && (second ==> len == 258) && Encodable(ll, 257 + LengthEntry(len, second))
    ensures At(bits, pos, LengthBits(ll, len, second)) && q == pos + |LengthBits(ll, len, second)|
  {
    hide CodeSet, Decode, Encodable, Coded, Reads, Pow2, At, LengthEntry;
    EntryParsed(ll, 257, LENGTH_BASE, LENGTH_EXTRA, i, bits, pos, p, q, len);
    second := EntryFound(i, len);
  }

  lemma DistParsed(dl: seq<nat>, bits: seq<bool>, pos: nat, m: nat, p: nat, q: nat, dist: nat)
    requires CodeSet(dl) && m < 30 && Decode(dl, bits, pos) == Sym(m, p)
    requires Reads(DIST_BASE, DIST_EXTRA, m, bits, p, q, dist) && 1 <= dist <= WSIZE
    ensures Encodable(dl, Pick(DIST_BASE, 29, dist)) && At(bits, pos, DistBits(dl, dist)) && q == pos + |DistBits(dl, dist)|
  {
    hide CodeSet, Decode, Encodable, Coded, Reads, Pow2, At, Pick;
    EntryParsed(dl, 0, DIST_BASE, DIST_EXTRA, m, bits, pos, p, q, dist);
    DistanceExact(dist, m, dist - DIST_BASE[m]);
  }

  /** A match that goes on has a distance. */
  lemma MatchParsed(dl: seq<nat>, bits: seq<bool>, pos: nat, out: seq<byte>, len: nat, q: nat) returns (dist: nat)
    requires CodeSet(dl) && pos <= |bits|
    requires var m := MatchOn(Decode(dl, bits, pos), dl, bits, out, len); m.Go? && m.pos == q
    ensures 1 <= dist <= WSIZE && Encodable(dl, Pick(DIST_BASE, 29, dist))
    ensures At(bits, pos, DistBits(dl, dist)) && q == pos + |DistBits(dl, dist)|
  {
    var r := Decode(dl, bits, pos);
    hide CodeSet, Decode, Encodable, Field, At, Pick, CopyMatch, DistBits;
    assert r.Sym? && DistanceFits(r, bits);
    dist := DistanceOf(r, bits);
    DistanceBound(r, bits);
    DistParsed(dl, bits, pos, r.n, r.pos, q, dist);
  }

  /** A symbol that goes on is a literal, or a length that goes on to a match. */
  lemma TurnKinds(r: Symbol, ll: seq<nat>, dl: seq<nat>, bits: seq<bool>, out: seq<byte>)
    returns (i: nat, p: nat, len: nat)
    requires (r.Sym? ==> r.pos <= |bits|) && TurnOn(r, ll, dl, bits, out).Go?
    ensures r.Sym?
    ensures r.n < 256 ==> TurnOn(r, ll, dl, bits, out).pos == r.pos
    ensures r.n >= 256 ==>
              && i < 29 && r.n == 257 + i && p <= |bits| && Reads(LENGTH_BASE, LENGTH_EXTRA, i, bits, r.pos, p, len)
              && TurnOn(r, ll, dl, bits, out) == MatchOn(Decode(dl, bits, p), dl, bits, out, len)
  {
    hide MatchOn, Decode, Field;
    i, p, len := 0, 0, 0;
    if r.n > 256 {
      i := r.n - 257;
      p := r.pos + LENGTH_EXTRA[i];
      len := LENGTH_BASE[i] + Field(bits, r.pos, LENGTH_EXTRA[i]);
    }
  }

  /** A turn that goes on was a literal or a match. */
  lemma TurnParsed(ll: seq<nat>, dl: seq<nat>, bits: seq<bool>, pos: nat, out: seq<byte>, q: nat) returns (t: Token)
    requires CodeSet(ll) && CodeSet(dl) && Turn(ll, dl, bits, pos, out).Go? && q == Turn(ll, dl, bits, pos, out).pos
    ensures Writable(ll, dl, t) && At(bits, pos, Write(ll, dl, t)) && q == pos + |Write(ll, dl, t)|
  {
    var r := Decode(ll, bits, pos);
    hide CodeSet, Decode, TurnOn, MatchOn, Encodable, At, Reads, CodeOf, LengthBits, DistBits, Pick, LengthEntry;
    var i, p, len := TurnKinds(r, ll, dl, bits, out);
    if r.n < 256 {
      t := Literal(r.n);
      CodeParsed(ll, bits, pos, r.n, r.pos);
    } else {
      var second := LengthParsed(ll, bits, pos, i, r.pos, p, len);
      var dist := MatchParsed(dl, bits, p, out, len, q);
      t := Copy(len, dist, second);
      AtJoin(bits, pos, p, q, LengthBits(ll, len, second), DistBits(dl, dist));
    }
  }

  /** One that ends the block well was the end-of-block code. */
  lemma EndParsed(ll: seq<nat>, dl: seq<nat>, bits: seq<bool>, pos: nat, out: seq<byte>, q: nat, o: seq<byte>)
    requires CodeSet(ll) && Turn(ll, dl, bits, pos, out) == Stop(Done(q, o))
    ensures Encodable(ll, 256) && At(bits, pos, CodeOf(ll, 256)) && q == pos + |CodeOf(ll, 256)|
  {
    var r := Decode(ll, bits, pos);
    EndOnly(r, ll, dl, bits, out, q, o);
    hide CodeSet, Decode, Encodable, At, CodeOf;
    CodeParsed(ll, bits, pos, 256, q);
  }

  lemma EndOnly(r: Symbol, ll: seq<nat>, dl: seq<nat>, bits: seq<bool>, out: seq<byte>, q: nat, o: seq<byte>)
    requires (r.Sym? ==> r.pos <= |bits|) && TurnOn(r, ll, dl, bits, out) == Stop(Done(q, o))
    ensures r == Sym(256, q)
  {
    hide Field, Decode, CopyMatch;
  }

  lemma WriteMore(ll: seq<nat>, dl: seq<nat>, t: Token, ts: seq<Token>)
    requires Writable(ll, dl, t) && AllWritable(ll, dl, ts)
    ensures AllWritable(ll, dl, [t] + ts) && WriteAll(ll, dl, [t] + ts) == Write(ll, dl, t) + WriteAll(ll, dl, ts)
  {
    hide Writable, Encodable, Write;
    assert ([t] + ts)[1..] == ts;
  }

  lemma CompressedStep(ll: seq<nat>, dl: seq<nat>, bits: seq<bool>, pos: nat, out: seq<byte>)
    requires pos <= |bits|
    ensures var m := Turn(ll, dl, bits, pos, out);
            Compressed(ll, dl, bits, pos, out) == match m case Go(p, o) => Compressed(ll, dl, bits, p, o) case Stop(o) => o
  {
    hide Turn;
  }

  /** The symbols of a block that ends well were tokens and the end-of-block code. */
  lemma {:induction false} SymbolsParsed(ll: seq<nat>, dl: seq<nat>, bits: seq<bool>, pos: nat, out: seq<byte>,
          q: nat, o: seq<byte>)
    returns (ts: seq<Token>)
    requires CodeSet(ll) && CodeSet(dl) && pos <= |bits| && Compressed(ll, dl, bits, pos, out) == Done(q, o)
    ensures AllWritable(ll, dl, ts) && At(bits, pos, WriteAll(ll, dl, ts)) && q == pos + |WriteAll(ll, dl, ts)|
    decreases |bits| - pos
  {
    var m := Turn(ll, dl, bits, pos, out);
    CompressedStep(ll, dl, bits, pos, out);
    hide CodeSet, Compressed, TurnOn, Decode, Writable, Write, Encodable, CodeOf, At;
    if m.Go? {
      var t := TurnParsed(ll, dl, bits, pos, out, m.pos);
      var rest := SymbolsParsed(ll, dl, bits, m.pos, m.out, q, o);
      WriteMore(ll, dl, t, rest);
      AtJoin(bits, pos, m.pos, q, Write(ll, dl, t), WriteAll(ll, dl, rest));
      ts := [t] + rest;
    } else {
      EndParsed(ll, dl, bits, pos, out, q, o);
      ts := [];
    }
  }

  /*-- Stored blocks ----------------------------------------------------------*/

  lemma {:induction false} BytesParsed(bits: seq<bool>, pos: nat, n: nat, q: nat)
    requires q == pos + 8 * n <= |bits|
    ensures At(bits, pos, ByteString(Bytes(bits, pos, n)))
    decreases n
  {
    if n > 0 {
      Pow2To16();
      var m: nat := n - 1;
      var p := pos + 8;
      FieldParsed(bits, pos, 8);
      BytesParsed(bits, p, m, q);
      var data, rest := Bytes(bits, pos, n), Bytes(bits, p, m);
      assert data == [Field(bits, pos, 8)] + rest && data[1..] == rest;
      AtJoin(bits, pos, p, q, BitsOf(Field(bits, pos, 8), 8), ByteString(rest));
    }
  }

  lemma StoredOnly(bits: seq<bool>, pos: nat, start: nat, out: seq<byte>, q: nat, o: seq<byte>)
    requires pos <= |bits| && start == pos + Gap(pos) && Stored(bits, pos, out) == Done(q, o)
    ensures start + 32 <= |bits|
    ensures var n := Field(bits, start, 16);
            n + Field(bits, start + 16, 16) == 65535 && q == start + 32 + 8 * n <= |bits|
  {
    hide Field, Bytes;
  }

  /** Two fields in a row that make 2^w - 1. */
  lemma TwoParsed(bits: seq<bool>, start: nat, p: nat, q: nat, w: nat, n: nat, m: nat)
    requires p == start + w && q == p + w <= |bits| && n == Field(bits, start, w) && m == Field(bits, p, w)
    ensures n < Pow2(w) && m < Pow2(w) && At(bits, start, TwoFields(n, m, w)) && q == start + |TwoFields(n, m, w)|
  {
    hide Field, BitsOf, At, Pow2;
    FieldParsed(bits, start, w);
    FieldParsed(bits, p, w);
    AtJoin(bits, start, p, q, BitsOf(n, w), BitsOf(m, w));
  }

  /** The bits up to a byte boundary. */
  lemma PadParsed(bits: seq<bool>, pos: nat, start: nat) returns (pad: seq<bool>)
    requires start == pos + Gap(pos) <= |bits|
    ensures |pad| == 7 && |pad[..Gap(pos)]| == Gap(pos) && At(bits, pos, pad[..Gap(pos)])
  {
    var s := bits[pos..start];
    pad := s + Zeroes(7 - |s|);
    assert pad[..|s|] == s;
  }

  /** A stored block that is read well is one that was written. */
  lemma StoredParsed(bits: seq<bool>, pos: nat, out: seq<byte>, q: nat, o: seq<byte>)
    returns (data: seq<byte>, pad: seq<bool>)
    requires pos <= |bits| && Stored(bits, pos, out) == Done(q, o)
    ensures |data| < 65536 && |pad| == 7
    ensures At(bits, pos, StoredBits(data, pad, pos)) && q == pos + |StoredBits(data, pad, pos)|
  {
    Pow2To16();
    hide Field, Bytes, ByteString, Stored, TwoFields, Pow2, Gap, At;
    var start := pos + Gap(pos);
    StoredOnly(bits, pos, start, out, q, o);
    var p, r := start + 16, start + 32;
    var n, m := Field(bits, start, 16), Field(bits, p, 16);
    data := Bytes(bits, r, n);
    pad := PadParsed(bits, pos, start);
    TwoParsed(bits, start, p, r, 16, n, m);
    BytesParsed(bits, r, n, q);
    AtJoinThree(bits, pos, start, r, q, pad[..Gap(pos)], TwoFields(n, m, 16), ByteString(data));
  }

  /*-- Code lengths -----------------------------------------------------------*/

  /** The token of a code length symbol that goes on. */
  lemma LenParsed(cl: seq<nat>, bits: seq<bool>, pos: nat, n: nat, lens: seq<nat>, more: seq<nat>, q: nat)
    returns (t: LenToken)
    requires CodeSet(cl) && |cl| == 19 && |lens| < n && ExpandOn(Decode(cl, bits, pos), bits, n, lens) == Lengths(more, q)
    ensures LenWritable(cl, t) && At(bits, pos, WriteLen(cl, t)) && q == pos + |WriteLen(cl, t)| && PlayLen(t, lens) == more
  {
    var r := Decode(cl, bits, pos);
    var w := if r.n < 16 then 0 else if r.n == 16 then 2 else if r.n == 17 then 3 else 7;
    assert r.Sym? && r.n < 19 && q == r.pos + w <= |bits|;
    t := LenTokenOf(r.n, Field(bits, r.pos, w));
    LenTokenFound(r.n, r.pos, w, bits, n, lens, more, q);
    hide CodeSet, Decode, ExpandOn, Field, BitsOf, Pow2, At, CodeOf, Encodable, PlayLen, LenTokenOf, LenSym, LenRest,
      LenWidth, ValidLenToken;
    CodeFieldParsed(cl, bits, pos, r.n, r.pos, w, q);
  }

  /** The token of symbol j with extra bits worth x. */
  function LenTokenOf(j: nat, x: nat): LenToken {
    if j < 16 then Len(j) else if j == 16 then Again(x + 3) else if j == 17 then Zeros(x + 3) else ManyZeros(x + 11)
  }

  lemma LenTokenFound(j: nat, p: nat, w: nat, bits: seq<bool>, n: nat, lens: seq<nat>, more: seq<nat>, q: nat)
    requires j < 19 && q == p + w <= |bits| && |lens| < n && ExpandOn(Sym(j, p), bits, n, lens) == Lengths(more, q)
    requires w == if j < 16 then 0 else if j == 16 then 2 else if j == 17 then 3 else 7
    ensures var t := LenTokenOf(j, Field(bits, p, w));
            && ValidLenToken(t) && LenSym(t) == j && LenWidth(t) == w
            && LenRest(t) == Field(bits, p, w) && PlayLen(t, lens) == more
  {
    Pow2To16();
    NumBound(bits[p..q]);
    hide Pow2, Num, LastLen;
  }

  lemma WriteMoreLens(cl: seq<nat>, t: LenToken, ts: seq<LenToken>, lens: seq<nat>)
    requires LenWritable(cl, t) && LensWritable(cl, ts)
    ensures LensWritable(cl, [t] + ts) && WriteLens(cl, [t] + ts) == WriteLen(cl, t) + WriteLens(cl, ts)
    ensures PlayLens([t] + ts, lens) == PlayLens(ts, PlayLen(t, lens))
  {
    hide LenWritable, WriteLen, PlayLen;
    assert ([t] + ts)[1..] == ts;
  }

  /** Lengths that have been read were written by tokens. */
  lemma {:induction false} LensParsed(cl: seq<nat>, bits: seq<bool>, pos: nat, n: nat, lens: seq<nat>, all: seq<nat>,
          q: nat)
    returns (ts: seq<LenToken>)
    requires CodeSet(cl) && |cl| == 19 && pos <= |bits| && |lens| <= n && Expand(cl, bits, pos, n, lens) == Lengths(all, q)
    ensures LensWritable(cl, ts) && At(bits, pos, WriteLens(cl, ts))
        && q == pos + |WriteLens(cl, ts)| && PlayLens(ts, lens) == all
    decreases n - |lens|
  {
    hide CodeSet, Decode, ExpandOn, LenWritable, WriteLen, PlayLen, At;
    if |lens| == n {
      ts := [];
      assert At(bits, pos, []) by {
        NothingAt(bits, pos);
      }
    } else {
      var m := ExpandOn(Decode(cl, bits, pos), bits, n, lens);
      var t := LenParsed(cl, bits, pos, n, lens, m.lens, m.pos);
      ExpandStep(cl, bits, pos, m.pos, n, lens, m.lens);
      var rest := LensParsed(cl, bits, m.pos, n, m.lens, all, q);
      WriteMoreLens(cl, t, rest, lens);
      AtJoin(bits, pos, m.pos, q, WriteLen(cl, t), WriteLens(cl, rest));
      ts := [t] + rest;
    }
  }

  lemma NothingAt(bits: seq<bool>, pos: nat)
    requires pos <= |bits|
    ensures At(bits, pos, [])
  {
  }

  /** Each length of the code length code that is sent is its field. */
  lemma {:induction false} SentField(bits: seq<bool>, pos: nat, nb: nat, j: nat)
    requires j < nb <= 19 && pos + 3 * nb <= |bits|
    ensures ORDER[j] < 19 && CodeLengthLens(bits, pos, nb)[ORDER[j]] == Field(bits, pos + 3 * j, 3)
    decreases nb
  {
    hide Field;
    var k: nat := nb - 1;
    OrderPlace(j);
    OrderPlace(k);
    if j < k {
      SentField(bits, pos, k, j);
    }
  }

  lemma {:induction false} OrderParsed(cl: seq<nat>, bits: seq<bool>, pos: nat, nb: nat, k: nat, q: nat)
    requires nb <= 19 && pos + 3 * nb <= |bits| && cl == CodeLengthLens(bits, pos, nb) && ThreeBits(cl)
    requires k <= nb && q == pos + 3 * k
    ensures At(bits, pos, OrderBits(cl, k))
    decreases k
  {
    if k > 0 {
      var j: nat := k - 1;
      var p := pos + 3 * j;
      hide Field, At, CodeLengthLens, OrderBits, ThreeBits;
      OrderParsed(cl, bits, pos, nb, j, p);
      SentField(bits, pos, nb, j);
      OrderOne(cl, bits, pos, p, q, j, k, ORDER[j]);
    } else {
      assert bits[pos..pos + 0] == [];
    }
  }

  lemma OrderOne(cl: seq<nat>, bits: seq<bool>, pos: nat, p: nat, q: nat, j: nat, k: nat, sym: nat)
    requires ThreeBits(cl) && j < 19 && k == j + 1 && sym == ORDER[j] < 19 && q == p + 3 <= |bits|
    requires At(bits, pos, OrderBits(cl, j)) && p == pos + |OrderBits(cl, j)| && cl[sym] == Field(bits, p, 3)
    ensures At(bits, pos, OrderBits(cl, k))
  {
    Pow2To16();
    FieldParsed(bits, p, 3);
    assert OrderBits(cl, k) == OrderBits(cl, j) + BitsOf(cl[sym], 3);
    hide Field, BitsOf, Pow2, At, OrderBits, ThreeBits;
    AtJoin(bits, pos, p, q, OrderBits(cl, j), BitsOf(cl[sym], 3));
  }

  lemma RestUnsent(bits: seq<bool>, pos: nat, nb: nat)
    requires nb <= 19 && pos + 3 * nb <= |bits|
    ensures ZeroFrom(CodeLengthLens(bits, pos, nb), nb)
  {
    hide CodeLengthLens;
    forall j | nb <= j < 19 ensures ORDER[j] < 19 && CodeLengthLens(bits, pos, nb)[ORDER[j]] == 0 {
      OrderPlace(j);
      BeyondSent(bits, pos, nb, ORDER[j]);
    }
  }

  lemma {:induction false} SentThreeBits(bits: seq<bool>, pos: nat, nb: nat)
    requires nb <= 19 && pos + 3 * nb <= |bits|
    ensures ThreeBits(CodeLengthLens(bits, pos, nb))
    decreases nb
  {
    if nb > 0 {
      var k: nat := nb - 1;
      SentThreeBits(bits, pos, k);
      FieldParsed(bits, pos + 3 * k, 3);
      OrderPlace(k);
      Pow2To16();
      hide Field, Pow2, At, BitsOf;
    }
  }

  /*-- Blocks -----------------------------------------------------------------*/

  lemma CountsParsed(h: Head, bits: seq<bool>, pos: nat, p: nat)
    requires ValidHead(h) && p == pos + 14 <= |bits| && CountsAt(bits, pos) == Counts(|h.ll|, |h.dl|, h.nb)
    ensures At(bits, pos, CountBits(h))
  {
    hide Field, Pow2, At, BitsOf;
    ThreeParsed(|h.ll| - 257, 5, |h.dl| - 1, 5, h.nb - 4, 4, bits, pos, pos + 5, pos + 10, p);
  }

  /** Three fields in a row. */
  lemma ThreeParsed(x: nat, i: nat, y: nat, j: nat, z: nat, k: nat, bits: seq<bool>, pos: nat, a: nat, b: nat, p: nat)
    requires a == pos + i && b == a + j && p == b + k <= |bits|
    requires x == Field(bits, pos, i) && y == Field(bits, a, j) && z == Field(bits, b, k)
    ensures x < Pow2(i) && y < Pow2(j) && z < Pow2(k) && At(bits, pos, BitsOf(x, i) + BitsOf(y, j) + BitsOf(z, k))
  {
    hide Field, Pow2, At, BitsOf;
    FieldParsed(bits, pos, i);
    FieldParsed(bits, a, j);
    FieldParsed(bits, b, k);
    AtJoinThree(bits, pos, a, b, p, BitsOf(x, i), BitsOf(y, j), BitsOf(z, k));
  }

  /** The counts of a dynamic block that is decoded well. */
  lemma SetsOnly(c: Counts, bits: seq<bool>, p: nat, r: nat, out: seq<byte>)
    requires p <= |bits| && c.nb <= 19 && r == p + 3 * c.nb && DynamicSets(c, bits, p, out).Done?
    ensures c.nl <= 286 && c.nd <= 30 && r <= |bits|
    ensures DynamicSets(c, bits, p, out) == SetLengths(CodeLengthLens(bits, p, c.nb), c.nl, c.nd, bits, r, out)
  {
    hide SetLengths, CodeLengthLens;
  }

  /** Its sets. */
  lemma TreesOnly(cl: seq<nat>, nl: nat, nd: nat, bits: seq<bool>, pos: nat, out: seq<byte>)
    returns (ll: seq<nat>, dl: seq<nat>, q: nat)
    requires pos <= |bits| && |cl| == 19 && SetLengths(cl, nl, nd, bits, pos, out).Done?
    ensures Verdict(cl) == 0 && Verdict(ll) == 0 && Verdict(dl) == 0 && |ll| == nl && |dl| == nd && q <= |bits|
    ensures Expand(cl, bits, pos, nl + nd, []) == Lengths(ll + dl, q) && LengthsOk(ll + dl)
    ensures SetLengths(cl, nl, nd, bits, pos, out) == Compressed(ll, dl, bits, q, out)
  {
    ExpandOk(cl, bits, pos, nl + nd, []);
    hide Expand, Compressed, Verdict;
    var e := Expand(cl, bits, pos, nl + nd, []);
    ll, dl, q := e.lens[..nl], e.lens[nl..], e.pos;
    assert e.lens == ll + dl;
  }

  lemma LengthsCodeSets(ll: seq<nat>, dl: seq<nat>)
    requires LengthsOk(ll + dl) && Verdict(ll) == 0 && Verdict(dl) == 0
    ensures CodeSet(ll) && CodeSet(dl)
  {
    var all := ll + dl;
    assert forall i :: 0 <= i < |ll| ==> ll[i] == all[i];
    assert forall i :: 0 <= i < |dl| ==> dl[i] == all[|ll| + i];
    hide Kraft, Verdict;
    AcceptedCodeSet(ll);
    AcceptedCodeSet(dl);
  }

  lemma SmallCodeSet(cl: seq<nat>)
    requires ThreeBits(cl) && Verdict(cl) == 0
    ensures CodeSet(cl)
  {
    hide Kraft, Verdict;
    AcceptedCodeSet(cl);
  }

  /** The head whose counts, order and lengths have been read. */
  lemma HeadJoin(h: Head, bits: seq<bool>, pos: nat, p: nat, r: nat, q: nat)
    requires ValidHead(h) && p == pos + 14 && r == p + 3 * h.nb && q == r + |WriteLens(h.cl, h.lens)|
    requires At(bits, pos, CountBits(h)) && At(bits, p, OrderBits(h.cl, h.nb)) && At(bits, r, WriteLens(h.cl, h.lens))
    ensures At(bits, pos, HeadBits(h)) && q == pos + |HeadBits(h)|
  {
    AtJoinThree(bits, pos, p, r, q, CountBits(h), OrderBits(h.cl, h.nb), WriteLens(h.cl, h.lens));
  }

  /** The sets of a dynamic block that is decoded well, as they are sent. */
  lemma SetsParsed(c: Counts, bits: seq<bool>, p: nat, r: nat, out: seq<byte>) returns (h: Head, q: nat)
    requires p <= |bits| && c.nl >= 257 && c.nd >= 1 && 4 <= c.nb <= 19
        && r == p + 3 * c.nb && DynamicSets(c, bits, p, out).Done?
    ensures ValidHead(h) && HeadFits(h) && c == Counts(|h.ll|, |h.dl|, h.nb) && CodeSet(h.ll) && CodeSet(h.dl)
    ensures At(bits, p, OrderBits(h.cl, h.nb)) && At(bits, r, WriteLens(h.cl, h.lens))
    ensures q == r + |WriteLens(h.cl, h.lens)| <= |bits|
        && DynamicSets(c, bits, p, out) == Compressed(h.ll, h.dl, bits, q, out)
  {
    hide CodeLengthLens, DynamicSets, SetLengths, Compressed, At, OrderBits, WriteLens, Verdict, ValidHead;
    hide ThreeBits, CodeSet, LensWritable, PlayLens, ZeroFrom;
    SetsOnly(c, bits, p, r, out);
    SentThreeBits(bits, p, c.nb);
    RestUnsent(bits, p, c.nb);
    var cl := CodeLengthLens(bits, p, c.nb);
    var ll, dl, ts;
    ll, dl, ts, q := SentParsed(cl, c.nl, c.nd, bits, r, out);
    h := Head(ll, dl, cl, c.nb, ts);
    HeadMade(h);
    OrderParsed(cl, bits, p, c.nb, c.nb, r);
  }

  lemma SentParsed(cl: seq<nat>, nl: nat, nd: nat, bits: seq<bool>, r: nat, out: seq<byte>)
    returns (ll: seq<nat>, dl: seq<nat>, ts: seq<LenToken>, q: nat)
    requires r <= |bits| && ThreeBits(cl) && SetLengths(cl, nl, nd, bits, r, out).Done?
    ensures Verdict(cl) == 0 && Verdict(ll) == 0 && Verdict(dl) == 0 && |ll| == nl && |dl| == nd
    ensures CodeSet(ll) && CodeSet(dl) && LensWritable(cl, ts) && PlayLens(ts, []) == ll + dl
    ensures At(bits, r, WriteLens(cl, ts)) && q == r + |WriteLens(cl, ts)| <= |bits|
    ensures SetLengths(cl, nl, nd, bits, r, out) == Compressed(ll, dl, bits, q, out)
  {
    hide SetLengths, Compressed, Expand, At, WriteLens, Verdict, LengthsOk, CodeSet, LensWritable, PlayLens;
    ll, dl, q := TreesOnly(cl, nl, nd, bits, r, out);
    SmallCodeSet(cl);
    LengthsCodeSets(ll, dl);
    ts := LensParsed(cl, bits, r, nl + nd, [], ll + dl, q);
  }

  lemma HeadMade(h: Head)
    requires 257 <= |h.ll| <= 286 && 1 <= |h.dl| <= 30 && Verdict(h.ll) == 0 && Verdict(h.dl) == 0
    requires ThreeBits(h.cl) && Verdict(h.cl) == 0 && 4 <= h.nb <= 19 && ZeroFrom(h.cl, h.nb)
    requires LensWritable(h.cl, h.lens) && PlayLens(h.lens, []) == h.ll + h.dl
    ensures ValidHead(h) && HeadFits(h)
  {
    hide ThreeBits, Verdict, ZeroFrom, LensWritable, PlayLens;
  }

  /** The head of a dynamic block that is decoded well. */
  lemma HeadParsed(bits: seq<bool>, pos: nat, out: seq<byte>) returns (h: Head, q: nat)
    requires pos <= |bits| && Dynamic(bits, pos, out).Done?
    ensures ValidHead(h) && HeadFits(h) && At(bits, pos, HeadBits(h)) && q == pos + |HeadBits(h)| <= |bits|
    ensures CodeSet(h.ll) && CodeSet(h.dl) && Dynamic(bits, pos, out) == Compressed(h.ll, h.dl, bits, q, out)
  {
    var c, p := CountsAt(bits, pos), pos + 14;
    DynamicOn(bits, pos, p, out);
    var r := p + 3 * c.nb;
    hide Dynamic, DynamicSets, Compressed, CountsAt, At, OrderBits, WriteLens, CountBits, CodeSet, LensWritable,
      HeadBits, HeadFits;
    h, q := SetsParsed(c, bits, p, r, out);
    CountsParsed(h, bits, pos, p);
    HeadJoin(h, bits, pos, p, r, q);
  }

  lemma FixedCodeSets()
    ensures CodeSet(FixedLiterals()) && CodeSet(FixedDistances())
  {
    FixedLiteralFacts();
    FixedDistanceFacts();
  }

  /** A dynamic block that is decoded well is one that was written. */
  lemma CustomParsed(bits: seq<bool>, pos: nat, out: seq<byte>, q: nat, o: seq<byte>) returns (h: Head, ts: seq<Token>)
    requires pos <= |bits| && Dynamic(bits, pos, out) == Done(q, o)
    ensures ValidHead(h) && HeadFits(h) && AllWritable(h.ll, h.dl, ts)
    ensures At(bits, pos, HeadBits(h) + WriteAll(h.ll, h.dl, ts)) && q == pos + |HeadBits(h) + WriteAll(h.ll, h.dl, ts)|
  {
    hide Dynamic, Compressed, HeadBits, WriteAll, At, ValidHead, HeadFits, AllWritable, CodeSet;
    var p;
    h, p := HeadParsed(bits, pos, out);
    ts := SymbolsParsed(h.ll, h.dl, bits, p, out, q, o);
    AtJoin(bits, pos, p, q, HeadBits(h), WriteAll(h.ll, h.dl, ts));
  }

  /** A block that is decoded well is one that was written. */
  lemma BodyParsed(kind: nat, bits: seq<bool>, pos: nat, out: seq<byte>, q: nat, o: seq<byte>) returns (b: Block)
    requires pos <= |bits| && OneBlock(kind, bits, pos, out) == Done(q, o)
    ensures ValidBlock(b) && BlockFits(b) && Kind(b) == kind && At(bits, pos, Body(b, pos)) && q == pos + |Body(b, pos)|
  {
    hide Dynamic, Stored, Compressed, StoredBits, WriteAll, HeadBits, HeadFits, AllWritable, At, FixedLiterals,
      FixedDistances, CodeSet;
    hide ValidHead;
    if kind == 2 {
      var h, ts := CustomParsed(bits, pos, out, q, o);
      b := Custom(h, ts);
    } else if kind == 0 {
      var data, pad := StoredParsed(bits, pos, out, q, o);
      b := Raw(data, pad);
    } else {
      FixedCodeSets();
      var ts := SymbolsParsed(FixedLiterals(), FixedDistances(), bits, pos, out, q, o);
      b := Fixed(ts);
    }
  }

  /*-- Whole streams ----------------------------------------------------------*/

  /** The blocks are what stands in the bits from pos to q. */
  ghost predicate Spells(bs: seq<Block>, bits: seq<bool>, pos: nat, q: nat) {
    bs != [] && ValidBlocks(bs) && At(bits, pos, StreamBits(bs, pos)) && q == pos + |StreamBits(bs, pos)|
  }

  /** They stand there, fit and mean o. */
  ghost predicate SpellsOut(bs: seq<Block>, bits: seq<bool>, pos: nat, out: seq<byte>, q: nat, o: seq<byte>) {
    Spells(bs, bits, pos, q) && HeadsFit(bs, out) && PlayBlocks(bs, out) == Played(o)
  }

  /** A block after its flag and kind. */
  lemma BlockJoin(b: Block, last: bool, bits: seq<bool>, pos: nat, p: nat, q: nat)
    requires ValidBlock(b) && p == pos + 3 <= |bits| && bits[pos] == last && Field(bits, pos + 1, 2) == Kind(b)
    requires At(bits, p, Body(b, p)) && q == p + |Body(b, p)|
    ensures At(bits, pos, BlockBits(b, last, pos)) && q == pos + |BlockBits(b, last, pos)|
  {
    hide Body, ValidBlock, KindBits, Num;
    var a := pos + 1;
    KindParsed(b, bits, a, p);
    assert At(bits, pos, [last]);
    hide At, Field;
    AtJoinThree(bits, pos, a, p, q, [last], KindBits(b), Body(b, p));
  }

  lemma KindParsed(b: Block, bits: seq<bool>, a: nat, p: nat)
    requires p == a + 2 <= |bits| && Field(bits, a, 2) == Kind(b)
    ensures At(bits, a, KindBits(b))
  {
    hide Kind;
    NumInjective(KindBits(b), bits[a..p]);
  }

  lemma StreamCons(b: Block, bs: seq<Block>, pos: nat, r: nat)
    requires ValidBlock(b) && ValidBlocks(bs) && r == pos + |BlockBits(b, bs == [], pos)|
    ensures ValidBlocks([b] + bs) && StreamBits([b] + bs, pos) == BlockBits(b, bs == [], pos) + StreamBits(bs, r)
  {
    hide ValidBlock, BlockBits, StreamBits;
    var all := [b] + bs;
    assert all[1..] == bs;
    assert ValidBlocks(all);
    assert FirstBits(all, pos) == BlockBits(b, bs == [], pos);
    hide FirstBits, ValidBlocks;
    StreamUnfold(all, bs, pos, r);
  }

  /** A block and those after it. */
  lemma SpellsMore(b: Block, bs: seq<Block>, bits: seq<bool>, pos: nat, r: nat, q: nat)
    requires ValidBlock(b) && At(bits, pos, BlockBits(b, bs == [], pos)) && r == pos + |BlockBits(b, bs == [], pos)|
    requires if bs == [] then q == r else Spells(bs, bits, r, q)
    ensures Spells([b] + bs, bits, pos, q)
  {
    if bs == [] {
      assert StreamBits(bs, r) == [] && ValidBlocks(bs);
      assert At(bits, r, []);
    }
    hide ValidBlock, ValidBlocks, BlockBits, StreamBits, At;
    StreamCons(b, bs, pos, r);
    AtJoin(bits, pos, r, q, BlockBits(b, bs == [], pos), StreamBits(bs, r));
  }

  lemma InflateOnly(bits: seq<bool>, pos: nat, out: seq<byte>)
    requires pos <= |bits| && Inflate(bits, pos, out).Done?
    ensures pos + 3 <= |bits|
    ensures OneBlock(Field(bits, pos + 1, 2), bits, pos + 3, out).Done?
  {
    hide OneBlock, Field;
  }

  /** A stream that inflates is a stream of blocks. */
  lemma {:induction false} StreamParsed(bits: seq<bool>, pos: nat, out: seq<byte>, q: nat, o: seq<byte>)
    returns (bs: seq<Block>)
    requires pos <= |bits| && Inflate(bits, pos, out) == Done(q, o)
    ensures Spells(bs, bits, pos, q)
    decreases |bits| - pos
  {
    hide OneBlock, Field, ValidBlock, BlockFits, Kind, Body, BlockBits, At, Spells;
    InflateOnly(bits, pos, out);
    hide Inflate;
    var kind, last, p := Field(bits, pos + 1, 2), bits[pos], pos + 3;
    InflateOn(kind, last, bits, pos, p, out);
    var r := OneBlock(kind, bits, p, out);
    var b := BodyParsed(kind, bits, p, out, r.pos, r.out);
    BlockJoin(b, last, bits, pos, p, r.pos);
    var rest := [];
    if !last {
      rest := StreamParsed(bits, r.pos, r.out, q, o);
      SpellsSome(rest, bits, r.pos, q);
    }
    SpellsMore(b, rest, bits, pos, r.pos, q);
    bs := [b] + rest;
  }

  lemma SpellsInflates(bs: seq<Block>, bits: seq<bool>, pos: nat, out: seq<byte>, q: nat, o: seq<byte>)
    requires Spells(bs, bits, pos, q)
    ensures pos <= |bits| && (Inflate(bits, pos, out) == Done(q, o) <==> SpellsOut(bs, bits, pos, out, q, o))
  {
    hide ValidBlocks, StreamBits, At, Inflate, HeadsFit, PlayBlocks;
    BlocksRoundTrip(bs, bits, pos, q, out);
  }

  /** A stream inflates to o up to bit q if and only if it is a stream of blocks up to there whose
      heads fit and that mean o. */
  lemma InflatesIff(bits: seq<bool>, pos: nat, out: seq<byte>, q: nat, o: seq<byte>)
    requires pos <= |bits|
    ensures Inflate(bits, pos, out) == Done(q, o) <==> exists bs :: SpellsOut(bs, bits, pos, out, q, o)
  {
    hide Spells, Inflate, SpellsOut;
    if Inflate(bits, pos, out) == Done(q, o) {
      var bs := StreamParsed(bits, pos, out, q, o);
      SpellsInflates(bs, bits, pos, out, q, o);
    }
    forall bs | SpellsOut(bs, bits, pos, out, q, o) ensures Inflate(bits, pos, out) == Done(q, o) {
      SpelledOut(bs, bits, pos, out, q, o);
      SpellsInflates(bs, bits, pos, out, q, o);
    }
  }

  lemma SpellsSome(bs: seq<Block>, bits: seq<bool>, pos: nat, q: nat)
    requires Spells(bs, bits, pos, q)
    ensures bs != []
  {
  }

  lemma SpelledOut(bs: seq<Block>, bits: seq<bool>, pos: nat, out: seq<byte>, q: nat, o: seq<byte>)
    requires SpellsOut(bs, bits, pos, out, q, o)
    ensures Spells(bs, bits, pos, q)
  {
  }
}
