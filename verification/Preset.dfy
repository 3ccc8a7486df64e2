/** What precedes the data. The program never checks that a distance stays within the output; it
    reads whatever the window held before (zip/inflate.c:416-427). Here: when that makes a
    difference, and when not. */
module Preset {
  import opened Canonical
  import opened Deflate
  import opened Lookup

  /** The same outcome with X before the output. */
  function After(X: seq<byte>, r: Outcome): Outcome {
    if r.Done? then Done(r.pos, X + r.out) else r
  }

  function NextAfter(X: seq<byte>, m: Next): Next {
    match m
    case Go(p, o) => Go(p, X + o)
    case Stop(o) => Stop(After(X, o))
  }

  lemma {:induction false} CopyAfter(X: seq<byte>, out: seq<byte>, dist: nat, n: nat)
    requires 1 <= dist <= |out|
    ensures CopyMatch(X + out, dist, n) == X + CopyMatch(out, dist, n)
    decreases n
  {
    if n > 0 {
      var b := out[|out| - dist];
      assert (X + out)[|X + out| - dist] == b && (X + out) + [b] == X + (out + [b]);
      CopyAfter(X, out + [b], dist, n - 1);
    }
  }

  /** A match with its distance, which ends at bit q. */
  lemma MatchIs(r: Symbol, dl: seq<nat>, bits: seq<bool>, out: seq<byte>, len: nat, q: nat)
    requires r.Sym? && DistanceFits(r, bits) && q == MatchEnd(r, bits)
    ensures 1 <= DistanceOf(r, bits) <= WSIZE
    ensures MatchOn(r, dl, bits, out, len) ==
              if DistanceOf(r, bits) > |out| then Stop(Far) else Go(q, CopyMatch(out, DistanceOf(r, bits), len))
  {
    DistanceBound(r, bits);
    hide Field, CopyMatch;
  }

  ghost function MatchEnd(r: Symbol, bits: seq<bool>): nat
    requires r.Sym? && DistanceFits(r, bits)
  {
    r.pos + DIST_EXTRA[r.n]
  }

  /** Without a distance it ends the same way after any output. */
  lemma NoMatch(r: Symbol, dl: seq<nat>, bits: seq<bool>, len: nat) returns (o: Outcome)
    requires (r.Sym? ==> r.pos <= |bits|) && !(r.Sym? && DistanceFits(r, bits))
    ensures !o.Done? && !o.Far?
    ensures forall out: seq<byte> :: MatchOn(r, dl, bits, out, len) == Stop(o)
  {
    hide Field;
    o := if r.OutOfBits? then Short else if r.NoCode? then Unassigned(dl) else if r.n >= |DIST_BASE| then Bad(1) else Short;
  }

  /** The length code r is followed by its extra bits. */
  ghost predicate HasLength(r: Symbol, bits: seq<bool>) {
    r.Sym? && 256 < r.n <= 285 && r.pos + LENGTH_EXTRA[r.n - 257] <= |bits|
  }

  /** A length code leads to a match. */
  lemma TurnIs(r: Symbol, ll: seq<nat>, dl: seq<nat>, bits: seq<bool>) returns (p: nat, len: nat)
    requires HasLength(r, bits)
    ensures p <= |bits| && len > 0
    ensures forall out: seq<byte> :: TurnOn(r, ll, dl, bits, out) == MatchOn(Decode(dl, bits, p), dl, bits, out, len)
  {
    hide MatchOn, Decode, Field;
    LengthPositive(r.n - 257);
    p, len := r.pos + LENGTH_EXTRA[r.n - 257], LENGTH_BASE[r.n - 257] + Field(bits, r.pos, LENGTH_EXTRA[r.n - 257]);
  }

  lemma LengthPositive(i: nat)
    requires i < 29
    ensures LENGTH_BASE[i] > 0
  {
  }

  /** Other symbols: a literal, the end of the block, or no symbol. */
  lemma TurnPlain(r: Symbol, ll: seq<nat>, dl: seq<nat>, bits: seq<bool>) returns (o: Outcome)
    requires (r.Sym? ==> r.pos <= |bits|) && !HasLength(r, bits)
    ensures !o.Done? && !o.Far?
    ensures forall out: seq<byte> :: TurnOn(r, ll, dl, bits, out) ==
              if r.Sym? && r.n < 256 then Go(r.pos, out + [r.n]) else
              if r.Sym? && r.n == 256 then Stop(Done(r.pos, out)) else Stop(o)
  {
    hide MatchOn, Decode, Field;
    o := if r.OutOfBits? then Short else if r.NoCode? then Unassigned(ll) else if r.n > 285 then Bad(1) else Short;
  }

  lemma MatchAfter(r: Symbol, dl: seq<nat>, bits: seq<bool>, X: seq<byte>, out: seq<byte>, len: nat)
    requires r.Sym? ==> r.pos <= |bits|
    requires MatchOn(r, dl, bits, out, len) != Stop(Far)
    ensures MatchOn(r, dl, bits, X + out, len) == NextAfter(X, MatchOn(r, dl, bits, out, len))
  {
    hide MatchOn, DistanceFits, DistanceOf, MatchEnd;
    if r.Sym? && DistanceFits(r, bits) {
      MatchIs(r, dl, bits, out, len, MatchEnd(r, bits));
      MatchIs(r, dl, bits, X + out, len, MatchEnd(r, bits));
      CopyAfter(X, out, DistanceOf(r, bits), len);
    } else {
      var o := NoMatch(r, dl, bits, len);
    }
  }

  lemma TurnAfter(r: Symbol, ll: seq<nat>, dl: seq<nat>, bits: seq<bool>, X: seq<byte>, out: seq<byte>)
    requires r.Sym? ==> r.pos <= |bits|
    requires TurnOn(r, ll, dl, bits, out) != Stop(Far)
    ensures TurnOn(r, ll, dl, bits, X + out) == NextAfter(X, TurnOn(r, ll, dl, bits, out))
  {
    hide TurnOn, MatchOn, Decode, HasLength;
    if HasLength(r, bits) {
      var p, len := TurnIs(r, ll, dl, bits);
      MatchAfter(Decode(dl, bits, p), dl, bits, X, out, len);
    } else {
      var o := TurnPlain(r, ll, dl, bits);
      if r.Sym? && r.n < 256 {
        assert (X + out) + [r.n] == X + (out + [r.n]);
      }
    }
  }

  lemma {:induction false} CompressedAfter(ll: seq<nat>, dl: seq<nat>, bits: seq<bool>, pos: nat, X: seq<byte>,
          out: seq<byte>)
    requires pos <= |bits| && Compressed(ll, dl, bits, pos, out) != Far
    ensures Compressed(ll, dl, bits, pos, X + out) == After(X, Compressed(ll, dl, bits, pos, out))
    decreases |bits| - pos
  {
    hide TurnOn, Decode;
    TurnAfter(Decode(ll, bits, pos), ll, dl, bits, X, out);
    var m := Turn(ll, dl, bits, pos, out);
    if m.Go? {
      CompressedAfter(ll, dl, bits, m.pos, X, m.out);
    }
  }

  lemma BlockAfter(kind: nat, bits: seq<bool>, pos: nat, X: seq<byte>, out: seq<byte>)
    requires pos <= |bits| && OneBlock(kind, bits, pos, out) != Far
    ensures OneBlock(kind, bits, pos, X + out) == After(X, OneBlock(kind, bits, pos, out))
  {
    if kind == 2 {
      DynamicAfter(bits, pos, X, out);
    } else if kind == 0 {
      StoredAfter(bits, pos, X, out);
    } else if kind == 1 {
      CompressedAfter(FixedLiterals(), FixedDistances(), bits, pos, X, out);
    }
  }

  lemma StoredAfter(bits: seq<bool>, pos: nat, X: seq<byte>, out: seq<byte>)
    requires pos <= |bits|
    ensures Stored(bits, pos, X + out) == After(X, Stored(bits, pos, out))
  {
    var r := Stored(bits, pos, out);
    if r.Done? {
      var start := (pos + 7) / 8 * 8;
      var b := Bytes(bits, start + 32, Field(bits, start, 16));
      assert (X + out) + b == X + (out + b);
    }
  }

  lemma DynamicAfter(bits: seq<bool>, pos: nat, X: seq<byte>, out: seq<byte>)
    requires pos <= |bits| && Dynamic(bits, pos, out) != Far
    ensures Dynamic(bits, pos, X + out) == After(X, Dynamic(bits, pos, out))
  {
    hide DynamicSets, CountsAt;
    if pos + 14 <= |bits| {
      DynamicSetsAfter(CountsAt(bits, pos), bits, pos + 14, X, out);
    }
  }

  lemma DynamicSetsAfter(c: Counts, bits: seq<bool>, p: nat, X: seq<byte>, out: seq<byte>)
    requires p <= |bits| && c.nb <= 19 && DynamicSets(c, bits, p, out) != Far
    ensures DynamicSets(c, bits, p, X + out) == After(X, DynamicSets(c, bits, p, out))
  {
    hide CodeLengthLens, SetLengths;
    if c.nl <= 286 && c.nd <= 30 && p + 3 * c.nb <= |bits| {
      SetLengthsAfter(CodeLengthLens(bits, p, c.nb), c.nl, c.nd, bits, p + 3 * c.nb, X, out);
    }
  }

  lemma SetLengthsAfter(cl: seq<nat>, nl: nat, nd: nat, bits: seq<bool>, pos: nat, X: seq<byte>, out: seq<byte>)
    requires pos <= |bits| && SetLengths(cl, nl, nd, bits, pos, out) != Far
    ensures SetLengths(cl, nl, nd, bits, pos, X + out) == After(X, SetLengths(cl, nl, nd, bits, pos, out))
  {
    hide Expand, Compressed, Verdict;
    var e := Expand(cl, bits, pos, nl + nd, []);
    if Verdict(cl) == 0 && e.Lengths? && Verdict(e.lens[..nl]) == 0 && Verdict(e.lens[nl..]) == 0 {
      CompressedAfter(e.lens[..nl], e.lens[nl..], bits, e.pos, X, out);
    }
  }

  lemma {:induction false} InflateAfter(bits: seq<bool>, pos: nat, X: seq<byte>, out: seq<byte>)
    requires pos <= |bits| && Inflate(bits, pos, out) != Far
    ensures Inflate(bits, pos, X + out) == After(X, Inflate(bits, pos, out))
    decreases |bits| - pos
  {
    hide OneBlock, Field;
    if pos + 3 <= |bits| {
      var o := OneBlock(Field(bits, pos + 1, 2), bits, pos + 3, out);
      BlockAfter(Field(bits, pos + 1, 2), bits, pos + 3, X, out);
      if o.Done? && !bits[pos] {
        InflateAfter(bits, o.pos, X, o.out);
      }
    }
  }

  /*-- A full window is never left --------------------------------------------*/

  /** Not Far, and no shorter than a window. */
  ghost predicate Full(r: Outcome) {
    r != Far && (r.Done? ==> |r.out| >= WSIZE)
  }

  lemma MatchFull(r: Symbol, dl: seq<nat>, bits: seq<bool>, out: seq<byte>, len: nat)
    requires (r.Sym? ==> r.pos <= |bits|) && |out| >= WSIZE
    ensures var m := MatchOn(r, dl, bits, out, len); if m.Go? then |m.out| >= WSIZE else Full(m.o)
  {
    hide MatchOn, DistanceFits, DistanceOf, MatchEnd;
    if r.Sym? && DistanceFits(r, bits) {
      MatchIs(r, dl, bits, out, len, MatchEnd(r, bits));
    } else {
      var o := NoMatch(r, dl, bits, len);
    }
  }

  lemma TurnFull(r: Symbol, ll: seq<nat>, dl: seq<nat>, bits: seq<bool>, out: seq<byte>)
    requires (r.Sym? ==> r.pos <= |bits|) && |out| >= WSIZE
    ensures var m := TurnOn(r, ll, dl, bits, out); if m.Go? then |m.out| >= WSIZE else Full(m.o)
  {
    hide TurnOn, MatchOn, Decode, HasLength;
    if HasLength(r, bits) {
      var p, len := TurnIs(r, ll, dl, bits);
      MatchFull(Decode(dl, bits, p), dl, bits, out, len);
    } else {
      var o := TurnPlain(r, ll, dl, bits);
    }
  }

  lemma {:induction false} CompressedFull(ll: seq<nat>, dl: seq<nat>, bits: seq<bool>, pos: nat, out: seq<byte>)
    requires pos <= |bits| && |out| >= WSIZE
    ensures Full(Compressed(ll, dl, bits, pos, out))
    decreases |bits| - pos
  {
    hide TurnOn, Decode;
    TurnFull(Decode(ll, bits, pos), ll, dl, bits, out);
    var m := Turn(ll, dl, bits, pos, out);
    if m.Go? {
      CompressedFull(ll, dl, bits, m.pos, m.out);
    }
  }

  lemma BlockFull(kind: nat, bits: seq<bool>, pos: nat, out: seq<byte>)
    requires pos <= |bits| && |out| >= WSIZE
    ensures Full(OneBlock(kind, bits, pos, out))
  {
    hide Compressed, CodeLengthLens, Expand, Verdict;
    forall ll, dl, p | 0 <= p <= |bits| ensures Full(Compressed(ll, dl, bits, p, out)) {
      CompressedFull(ll, dl, bits, p, out);
    }
  }

  lemma {:induction false} InflateFull(bits: seq<bool>, pos: nat, out: seq<byte>)
    requires pos <= |bits| && |out| >= WSIZE
    ensures Full(Inflate(bits, pos, out))
    decreases |bits| - pos
  {
    hide OneBlock, Field;
    if pos + 3 <= |bits| {
      var o := OneBlock(Field(bits, pos + 1, 2), bits, pos + 3, out);
      BlockFull(Field(bits, pos + 1, 2), bits, pos + 3, out);
      if o.Done? && !bits[pos] {
        InflateFull(bits, o.pos, o.out);
      }
    }
  }

  /** The program starts with a window full of whatever was there. That changes nothing but the
      window's own place before the output, exactly when no match of the stream reaches back beyond
      the start of its output. */
  lemma PresetTheorem(bits: seq<bool>, pos: nat, window: seq<byte>)
    requires pos <= |bits| && |window| >= WSIZE
    ensures Inflate(bits, pos, window) == After(window, Inflate(bits, pos, [])) <==> Inflate(bits, pos, []) != Far
  {
    InflateFull(bits, pos, window);
    if Inflate(bits, pos, []) != Far {
      InflateAfter(bits, pos, window, []);
      assert window + [] == window;
    }
  }

  /** For a stream that stands on its own. */
  lemma Alone(bits: seq<bool>, pos: nat, window: seq<byte>)
    requires pos <= |bits| && |window| == WSIZE
    ensures var r, alone := Inflate(bits, pos, window), Inflate(bits, pos, []);
            && (alone.Done? ==> r.Done? && r.pos == alone.pos && |r.out| >= WSIZE && r.out[WSIZE..] == alone.out)
            && (alone.Bad? ==> r == alone)
  {
    PresetTheorem(bits, pos, window);
    var alone := Inflate(bits, pos, []);
    if alone.Done? {
      assert (window + alone.out)[WSIZE..] == alone.out;
    }
  }

  /*-- When the window's old contents show ------------------------------------*/

  /** Two outputs of one length, grown from two others by as much. */
  ghost predicate Grown(a: seq<byte>, b: seq<byte>, x: seq<byte>, y: seq<byte>) {
    |x| == |y| && a <= x && b <= y
  }

  /** Two outcomes that differ at most in the bytes of the output. */
  ghost predicate Alike(r: Outcome, q: Outcome, a: seq<byte>, b: seq<byte>) {
    if r.Done? then q.Done? && q.pos == r.pos && Grown(a, b, r.out, q.out) else q == r
  }

  ghost predicate NextAlike(m: Next, n: Next, a: seq<byte>, b: seq<byte>) {
    if m.Go? then n.Go? && n.pos == m.pos && Grown(a, b, m.out, n.out) else n.Stop? && Alike(m.o, n.o, a, b)
  }

  lemma {:induction false} CopyGrows(out: seq<byte>, dist: nat, n: nat)
    requires 1 <= dist <= |out|
    ensures out <= CopyMatch(out, dist, n)
    ensures n > 0 ==> CopyMatch(out, dist, n)[|out|] == out[|out| - dist]
    decreases n
  {
    if n > 0 {
      CopyGrows(out + [out[|out| - dist]], dist, n - 1);
    }
  }

  lemma MatchAlike(r: Symbol, dl: seq<nat>, bits: seq<bool>, a: seq<byte>, b: seq<byte>, len: nat)
    requires (r.Sym? ==> r.pos <= |bits|) && |a| == |b|
    ensures NextAlike(MatchOn(r, dl, bits, a, len), MatchOn(r, dl, bits, b, len), a, b)
  {
    hide MatchOn, DistanceFits, DistanceOf, MatchEnd, CopyMatch;
    if r.Sym? && DistanceFits(r, bits) {
      var dist := DistanceOf(r, bits);
      MatchIs(r, dl, bits, a, len, MatchEnd(r, bits));
      MatchIs(r, dl, bits, b, len, MatchEnd(r, bits));
      if dist <= |a| {
        CopyGrows(a, dist, len);
        CopyGrows(b, dist, len);
      }
    } else {
      var o := NoMatch(r, dl, bits, len);
    }
  }

  lemma TurnAlike(r: Symbol, ll: seq<nat>, dl: seq<nat>, bits: seq<bool>, a: seq<byte>, b: seq<byte>)
    requires (r.Sym? ==> r.pos <= |bits|) && |a| == |b|
    ensures NextAlike(TurnOn(r, ll, dl, bits, a), TurnOn(r, ll, dl, bits, b), a, b)
  {
    hide TurnOn, MatchOn, Decode, HasLength;
    if HasLength(r, bits) {
      var p, len := TurnIs(r, ll, dl, bits);
      MatchAlike(Decode(dl, bits, p), dl, bits, a, b, len);
    } else {
      var o := TurnPlain(r, ll, dl, bits);
    }
  }

  lemma {:induction false} CompressedAlike(ll: seq<nat>, dl: seq<nat>, bits: seq<bool>, pos: nat, a: seq<byte>,
          b: seq<byte>)
    requires pos <= |bits| && |a| == |b|
    ensures Alike(Compressed(ll, dl, bits, pos, a), Compressed(ll, dl, bits, pos, b), a, b)
    decreases |bits| - pos
  {
    hide TurnOn, Decode;
    TurnAlike(Decode(ll, bits, pos), ll, dl, bits, a, b);
    var m, n := Turn(ll, dl, bits, pos, a), Turn(ll, dl, bits, pos, b);
    if m.Go? {
      CompressedAlike(ll, dl, bits, m.pos, m.out, n.out);
    }
  }

  lemma StoredAlike(bits: seq<bool>, pos: nat, a: seq<byte>, b: seq<byte>)
    requires pos <= |bits| && |a| == |b|
    ensures Alike(Stored(bits, pos, a), Stored(bits, pos, b), a, b)
  {
    hide Field, Bytes;
  }

  lemma SetLengthsAlike(cl: seq<nat>, nl: nat, nd: nat, bits: seq<bool>, pos: nat, a: seq<byte>, b: seq<byte>)
    requires pos <= |bits| && |a| == |b|
    ensures Alike(SetLengths(cl, nl, nd, bits, pos, a), SetLengths(cl, nl, nd, bits, pos, b), a, b)
  {
    hide Expand, Compressed, Verdict;
    var e := Expand(cl, bits, pos, nl + nd, []);
    if Verdict(cl) == 0 && e.Lengths? && Verdict(e.lens[..nl]) == 0 && Verdict(e.lens[nl..]) == 0 {
      CompressedAlike(e.lens[..nl], e.lens[nl..], bits, e.pos, a, b);
    }
  }

  lemma DynamicAlike(bits: seq<bool>, pos: nat, a: seq<byte>, b: seq<byte>)
    requires pos <= |bits| && |a| == |b|
    ensures Alike(Dynamic(bits, pos, a), Dynamic(bits, pos, b), a, b)
  {
    hide DynamicSets, CountsAt;
    if pos + 14 <= |bits| {
      DynamicSetsAlike(CountsAt(bits, pos), bits, pos + 14, a, b);
    }
  }

  lemma DynamicSetsAlike(c: Counts, bits: seq<bool>, p: nat, a: seq<byte>, b: seq<byte>)
    requires p <= |bits| && c.nb <= 19 && |a| == |b|
    ensures Alike(DynamicSets(c, bits, p, a), DynamicSets(c, bits, p, b), a, b)
  {
    hide CodeLengthLens, SetLengths;
    if c.nl <= 286 && c.nd <= 30 && p + 3 * c.nb <= |bits| {
      SetLengthsAlike(CodeLengthLens(bits, p, c.nb), c.nl, c.nd, bits, p + 3 * c.nb, a, b);
    }
  }

  lemma BlockAlike(kind: nat, bits: seq<bool>, pos: nat, a: seq<byte>, b: seq<byte>)
    requires pos <= |bits| && |a| == |b|
    ensures Alike(OneBlock(kind, bits, pos, a), OneBlock(kind, bits, pos, b), a, b)
  {
    hide Dynamic, Stored, Compressed;
    if kind == 2 {
      DynamicAlike(bits, pos, a, b);
    } else if kind == 0 {
      StoredAlike(bits, pos, a, b);
    } else if kind == 1 {
      CompressedAlike(FixedLiterals(), FixedDistances(), bits, pos, a, b);
    }
  }

  /** How a stream is decoded depends on how long the output is, not on its bytes. */
  lemma {:induction false} InflateAlike(bits: seq<bool>, pos: nat, a: seq<byte>, b: seq<byte>)
    requires pos <= |bits| && |a| == |b|
    ensures Alike(Inflate(bits, pos, a), Inflate(bits, pos, b), a, b)
    decreases |bits| - pos
  {
    hide OneBlock, Field;
    if pos + 3 <= |bits| {
      var kind := Field(bits, pos + 1, 2);
      var r, q := OneBlock(kind, bits, pos + 3, a), OneBlock(kind, bits, pos + 3, b);
      BlockAlike(kind, bits, pos + 3, a, b);
      if r.Done? && !bits[pos] {
        InflateAlike(bits, r.pos, r.out, q.out);
      }
    }
  }

  /** Different at every byte. */
  ghost predicate AllDiffer(X: seq<byte>, Y: seq<byte>) {
    |X| == |Y| && forall i :: 0 <= i < |X| ==> X[i] != Y[i]
  }

  /** Outputs of one length that differ past their first w bytes. */
  ghost predicate Differ(x: seq<byte>, y: seq<byte>, w: nat) {
    |x| == |y| && exists i :: w <= i < |x| && x[i] != y[i]
  }

  ghost predicate Shows(r: Outcome, q: Outcome, w: nat) {
    r.Done? && q.Done? && r.pos == q.pos && Differ(r.out, q.out, w)
  }

  lemma DifferGrown(a: seq<byte>, b: seq<byte>, x: seq<byte>, y: seq<byte>, w: nat)
    requires Differ(a, b, w) && Grown(a, b, x, y)
    ensures Differ(x, y, w)
  {
    var i :| w <= i < |a| && a[i] != b[i];
    assert x[i] == a[i] && y[i] == b[i];
  }

  /** Decoding goes on from outputs that differ to outputs that differ. */
  lemma AlikeShows(r: Outcome, q: Outcome, a: seq<byte>, b: seq<byte>, w: nat)
    requires Alike(r, q, a, b) && Differ(a, b, w) && r.Done?
    ensures Shows(r, q, w)
  {
    DifferGrown(a, b, r.out, q.out, w);
  }

  /** The match the guard `dist > |out|` is about. */
  lemma MatchShows(r: Symbol, dl: seq<nat>, bits: seq<bool>, X: seq<byte>, Y: seq<byte>, out: seq<byte>, len: nat)
    requires (r.Sym? ==> r.pos <= |bits|) && AllDiffer(X, Y) && len > 0
    requires MatchOn(r, dl, bits, out, len) == Stop(Far) && MatchOn(r, dl, bits, X + out, len) != Stop(Far)
    ensures var m, n := MatchOn(r, dl, bits, X + out, len), MatchOn(r, dl, bits, Y + out, len);
            m.Go? && n.Go? && m.pos == n.pos && Differ(m.out, n.out, |X|)
  {
    hide MatchOn, DistanceFits, DistanceOf, MatchEnd, CopyMatch;
    if r.Sym? && DistanceFits(r, bits) {
      var dist := DistanceOf(r, bits);
      MatchIs(r, dl, bits, out, len, MatchEnd(r, bits));
      MatchIs(r, dl, bits, X + out, len, MatchEnd(r, bits));
      MatchIs(r, dl, bits, Y + out, len, MatchEnd(r, bits));
      CopyGrows(X + out, dist, len);
      CopyGrows(Y + out, dist, len);
      var i := |X + out|;
      assert (X + out)[i - dist] == X[i - dist] && (Y + out)[i - dist] == Y[i - dist];
      assert CopyMatch(X + out, dist, len)[i] != CopyMatch(Y + out, dist, len)[i];
    } else {
      var o := NoMatch(r, dl, bits, len);
    }
  }

  lemma TurnShows(r: Symbol, ll: seq<nat>, dl: seq<nat>, bits: seq<bool>, X: seq<byte>, Y: seq<byte>, out: seq<byte>)
    requires (r.Sym? ==> r.pos <= |bits|) && AllDiffer(X, Y)
    requires TurnOn(r, ll, dl, bits, out) == Stop(Far) && TurnOn(r, ll, dl, bits, X + out) != Stop(Far)
    ensures var m, n := TurnOn(r, ll, dl, bits, X + out), TurnOn(r, ll, dl, bits, Y + out);
            m.Go? && n.Go? && m.pos == n.pos && Differ(m.out, n.out, |X|)
  {
    hide TurnOn, MatchOn, Decode, HasLength, AllDiffer, Differ;
    if HasLength(r, bits) {
      var p, len := TurnIs(r, ll, dl, bits);
      MatchShows(Decode(dl, bits, p), dl, bits, X, Y, out, len);
    } else {
      var o := TurnPlain(r, ll, dl, bits);
    }
  }

  lemma {:induction false} CompressedShows(ll: seq<nat>, dl: seq<nat>, bits: seq<bool>, pos: nat, X: seq<byte>,
          Y: seq<byte>, out: seq<byte>)
    requires pos <= |bits| && AllDiffer(X, Y)
    requires Compressed(ll, dl, bits, pos, out) == Far && Compressed(ll, dl, bits, pos, X + out).Done?
    ensures Shows(Compressed(ll, dl, bits, pos, X + out), Compressed(ll, dl, bits, pos, Y + out), |X|)
    decreases |bits| - pos
  {
    hide TurnOn, Decode, Differ, AllDiffer;
    var r := Decode(ll, bits, pos);
    var t := Turn(ll, dl, bits, pos, out);
    if t == Stop(Far) {
      TurnShows(r, ll, dl, bits, X, Y, out);
      var m, n := Turn(ll, dl, bits, pos, X + out), Turn(ll, dl, bits, pos, Y + out);
      DifferSame(m.out, n.out, |X|);
      CompressedAlike(ll, dl, bits, m.pos, m.out, n.out);
      AlikeShows(Compressed(ll, dl, bits, m.pos, m.out), Compressed(ll, dl, bits, m.pos, n.out), m.out, n.out, |X|);
    } else {
      TurnAfter(r, ll, dl, bits, X, out);
      TurnAfter(r, ll, dl, bits, Y, out);
      CompressedShows(ll, dl, bits, t.pos, X, Y, t.out);
    }
  }

  lemma DifferSame(x: seq<byte>, y: seq<byte>, w: nat)
    requires Differ(x, y, w)
    ensures |x| == |y|
  {
  }

  lemma SetLengthsShows(cl: seq<nat>, nl: nat, nd: nat, bits: seq<bool>, pos: nat, X: seq<byte>, Y: seq<byte>,
          out: seq<byte>)
    requires pos <= |bits| && AllDiffer(X, Y)
    requires SetLengths(cl, nl, nd, bits, pos, out) == Far && SetLengths(cl, nl, nd, bits, pos, X + out).Done?
    ensures Shows(SetLengths(cl, nl, nd, bits, pos, X + out), SetLengths(cl, nl, nd, bits, pos, Y + out), |X|)
  {
    hide Expand, Compressed, Verdict, Shows, AllDiffer;
    var e := Expand(cl, bits, pos, nl + nd, []);
    CompressedShows(e.lens[..nl], e.lens[nl..], bits, e.pos, X, Y, out);
  }

  lemma DynamicShows(bits: seq<bool>, pos: nat, X: seq<byte>, Y: seq<byte>, out: seq<byte>)
    requires pos <= |bits| && AllDiffer(X, Y)
    requires Dynamic(bits, pos, out) == Far && Dynamic(bits, pos, X + out).Done?
    ensures Shows(Dynamic(bits, pos, X + out), Dynamic(bits, pos, Y + out), |X|)
  {
    hide DynamicSets, CountsAt, Shows, AllDiffer;
    assert pos + 14 <= |bits|;
    DynamicSetsShows(CountsAt(bits, pos), bits, pos + 14, X, Y, out);
  }

  lemma DynamicSetsShows(c: Counts, bits: seq<bool>, p: nat, X: seq<byte>, Y: seq<byte>, out: seq<byte>)
    requires p <= |bits| && c.nb <= 19 && AllDiffer(X, Y)
    requires DynamicSets(c, bits, p, out) == Far && DynamicSets(c, bits, p, X + out).Done?
    ensures Shows(DynamicSets(c, bits, p, X + out), DynamicSets(c, bits, p, Y + out), |X|)
  {
    hide CodeLengthLens, SetLengths, Shows, AllDiffer;
    SetLengthsShows(CodeLengthLens(bits, p, c.nb), c.nl, c.nd, bits, p + 3 * c.nb, X, Y, out);
  }

  lemma BlockShows(kind: nat, bits: seq<bool>, pos: nat, X: seq<byte>, Y: seq<byte>, out: seq<byte>)
    requires pos <= |bits| && AllDiffer(X, Y)
    requires OneBlock(kind, bits, pos, out) == Far && OneBlock(kind, bits, pos, X + out).Done?
    ensures Shows(OneBlock(kind, bits, pos, X + out), OneBlock(kind, bits, pos, Y + out), |X|)
  {
    hide Dynamic, Compressed, Shows, AllDiffer;
    if kind == 2 {
      DynamicShows(bits, pos, X, Y, out);
    } else {
      assert kind == 1;
      CompressedShows(FixedLiterals(), FixedDistances(), bits, pos, X, Y, out);
    }
  }

  lemma {:induction false} InflateShows(bits: seq<bool>, pos: nat, X: seq<byte>, Y: seq<byte>, out: seq<byte>)
    requires pos <= |bits| && AllDiffer(X, Y)
    requires Inflate(bits, pos, out) == Far && Inflate(bits, pos, X + out).Done?
    ensures Shows(Inflate(bits, pos, X + out), Inflate(bits, pos, Y + out), |X|)
    decreases |bits| - pos
  {
    hide OneBlock, Field, AllDiffer, Differ;
    var kind := Field(bits, pos + 1, 2);
    var o := OneBlock(kind, bits, pos + 3, out);
    if o == Far {
      BlockShows(kind, bits, pos + 3, X, Y, out);
      var r, q := OneBlock(kind, bits, pos + 3, X + out), OneBlock(kind, bits, pos + 3, Y + out);
      if !bits[pos] {
        DifferSame(r.out, q.out, |X|);
        InflateAlike(bits, r.pos, r.out, q.out);
        AlikeShows(Inflate(bits, r.pos, r.out), Inflate(bits, r.pos, q.out), r.out, q.out, |X|);
      }
    } else {
      BlockAfter(kind, bits, pos + 3, X, out);
      BlockAfter(kind, bits, pos + 3, Y, out);
      InflateShows(bits, o.pos, X, Y, o.out);
    }
  }

  /** Two windows that differ at every byte, and a stream the program decodes after the first. After
      the second it decodes it too, up to the same bit and to as many bytes; and the bytes past the
      window are the same if and only if no match reaches back beyond the start, that is, if
      `dist > |out|` never holds when decoding starts without a window. */
  lemma WindowShows(bits: seq<bool>, pos: nat, X: seq<byte>, Y: seq<byte>)
    requires pos <= |bits| && AllDiffer(X, Y) && |X| >= WSIZE && Inflate(bits, pos, X).Done?
    ensures var r, q := Inflate(bits, pos, X), Inflate(bits, pos, Y);
            && q.Done? && q.pos == r.pos && |q.out| == |r.out| >= |X|
            && (r.out[|X|..] == q.out[|X|..] <==> Inflate(bits, pos, []) != Far)
  {
    var alone := Inflate(bits, pos, []);
    assert X + [] == X && Y + [] == Y;
    if alone == Far {
      InflateShows(bits, pos, X, Y, []);
      hide Inflate;
      TailDiffers(Inflate(bits, pos, X).out, Inflate(bits, pos, Y).out, |X|);
    } else {
      InflateAfter(bits, pos, X, []);
      InflateAfter(bits, pos, Y, []);
      assert (X + alone.out)[|X|..] == alone.out && (Y + alone.out)[|X|..] == alone.out;
    }
  }

  lemma TailDiffers(x: seq<byte>, y: seq<byte>, w: nat)
    requires Differ(x, y, w)
    ensures w <= |x| == |y| && x[w..] != y[w..]
  {
    var i :| w <= i < |x| && x[i] != y[i];
    assert x[w..][i - w] != y[w..][i - w];
  }
}
