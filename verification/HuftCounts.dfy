/** The first half of `huft_build`: counting lengths, bounding the table size, checking the
    Kraft sum, and sorting symbols by length (zip/inflate.c:153-212). */
module HuftCounts {
  import opened Bits
  import opened Canonical

  /** Longest list of code lengths (N_MAX). */
  const N_MAX: nat := 288

  /** How many symbols have a code shorter than t. */
  function Offset(lens: seq<nat>, t: nat): nat {
    if t <= 1 then 0 else Offset(lens, t - 1) + Count(lens, t - 1)
  }

  /** How many symbols have a code at all. */
  function NumCodes(lens: seq<nat>): nat {
    CountBound(lens, 0);
    |lens| - Count(lens, 0)
  }

  lemma {:induction false} OffsetMono(lens: seq<nat>, t: nat, u: nat)
    requires t <= u
    ensures Offset(lens, t) <= Offset(lens, u)
    ensures 1 <= t < u ==> Offset(lens, t) + Count(lens, t) <= Offset(lens, u)
    decreases u
  {
    if t < u {
      OffsetMono(lens, t, u - 1);
    }
  }

  lemma {:induction false} OffsetAppend(lens: seq<nat>, t: nat)
    requires lens != []
    ensures var n := |lens| - 1;
            Offset(lens, t) == Offset(lens[..n], t) + (if 1 <= lens[n] < t then 1 else 0)
  {
    if t > 1 {
      OffsetAppend(lens, t - 1);
    }
  }

  lemma {:induction false} OffsetEmpty(t: nat)
    ensures Offset([], t) == 0
  {
    if t > 1 {
      OffsetEmpty(t - 1);
    }
  }

  /** All codes together: every entry that is not zero. */
  lemma {:induction false} OffsetTotal(lens: seq<nat>)
    requires ValidLens(lens)
    ensures Offset(lens, BMAX + 1) == NumCodes(lens)
  {
    if lens == [] {
      OffsetEmpty(BMAX + 1);
    } else {
      OffsetTotal(lens[..|lens| - 1]);
      OffsetAppend(lens, BMAX + 1);
    }
  }

  /** The codes longer than t fill what the others leave, each at most half of 2^(16-t). */
  lemma {:induction false} LongCodes(lens: seq<nat>, t: nat)
    requires ValidLens(lens) && t <= BMAX
    ensures Offset(lens, t + 1) <= NumCodes(lens)
    ensures Kraft(lens) <= Filled(lens, t) + Shl(NumCodes(lens) - Offset(lens, t + 1), BMAX - t)
    decreases BMAX - t
  {
    OffsetTotal(lens);
    if t < BMAX {
      LongCodes(lens, t + 1);
      var k := BMAX - (t + 1);
      var rest := NumCodes(lens) - Offset(lens, t + 2);
      ShlAdd(Count(lens, t + 1), rest, k);
      assert Shl(Count(lens, t + 1) + rest, k + 1) == 2 * Shl(Count(lens, t + 1) + rest, k);
    }
  }

  /*-- Lines 153-164 ---------------------------------------------------------*/

  method CountLengths(b: seq<nat>) returns (c: array<nat>)
    requires ValidLens(b) && |b| >= 1
    ensures fresh(c) && c.Length == BMAX + 1
    ensures forall t :: 0 <= t <= BMAX ==> c[t] == Count(b, t)
  {
    c := new nat[BMAX + 1](_ => 0);
    var p, i := 0, |b|;
    while i > 0
      invariant p + i == |b| && i >= 0
      invariant forall t :: 0 <= t <= BMAX ==> c[t] == Count(b[..p], t)
    {
      c[b[p]] := c[b[p]] + 1;
      assert b[..p + 1][..p] == b[..p];
      p := p + 1;
      i := i - 1;
    }
    assert b[..p] == b;
  }

  lemma CountAllZero(b: seq<nat>)
    ensures Count(b, 0) == |b| <==> AllZero(b)
  {
    if AllZero(b) {
      CountZeros(b);
    } else {
      var i :| 0 <= i < |b| && b[i] != 0;
      assert b == b[..i] + b[i..] && b[i..] == [b[i]] + b[i + 1..];
      CountConcat(b[..i], b[i..], 0);
      CountConcat([b[i]], b[i + 1..], 0);
      CountBound(b[..i], 0);
      CountBound(b[i + 1..], 0);
      assert Count([b[i]], 0) == 0;
    }
  }

  lemma {:induction false} CountZeros(b: seq<nat>)
    requires AllZero(b)
    ensures Count(b, 0) == |b|
  {
    if b != [] {
      CountZeros(b[..|b| - 1]);
    }
  }

  /*-- Lines 168-182 ---------------------------------------------------------*/

  /** No code is shorter than j, and one has length j. */
  ghost predicate ShortestIs(b: seq<nat>, j: nat) {
    1 <= j <= BMAX && Count(b, j) > 0 && forall t :: 1 <= t < j ==> Count(b, t) == 0
  }

  method Bounds(b: seq<nat>, c: array<nat>, m: nat) returns (j: nat, g: nat, l: nat)
    requires ValidLens(b) && !AllZero(b)
    requires c.Length == BMAX + 1 && forall t :: 0 <= t <= BMAX ==> c[t] == Count(b, t)
    ensures ShortestIs(b, j) && j <= g == MaxLen(b) <= BMAX
    ensures l == if m < j then j else if m > g then g else m
  {
    var top := MaxLen(b);
    MaxLenBound(b);
    CountBound(b, top);
    l := m;
    j := 1;
    while j <= BMAX
      invariant 1 <= j <= top <= BMAX
      invariant forall t :: 1 <= t < j ==> Count(b, t) == 0
    {
      if c[j] != 0 {
        break;
      }
      j := j + 1;
    }
    if l < j {
      l := j;
    }
    g := BMAX;
    while g > 0
      invariant top <= g <= BMAX
    {
      if c[g] != 0 {
        break;
      }
      g := g - 1;
    }
    CountBound(b, g);
    if l > g {
      l := g;
    }
  }

  /*-- Lines 186-192 ---------------------------------------------------------*/

  lemma {:induction false} FilledBelow(b: seq<nat>, t: nat)
    requires t <= BMAX && forall u :: 1 <= u <= t ==> Count(b, u) == 0
    ensures Filled(b, t) == 0
  {
    if t > 0 {
      FilledBelow(b, t - 1);
      ShlOne(BMAX - t);
    }
  }

  /** One length: y patterns are left at length t, c of them are codes. */
  lemma TakeCodes(b: seq<nat>, y: nat, t: nat)
    requires 1 <= t <= BMAX && ValidLens(b)
    requires Shl(y, BMAX - t) + Filled(b, t - 1) == TOP
    ensures y < Count(b, t) ==> Kraft(b) > TOP
    ensures y >= Count(b, t) ==> Shl(y - Count(b, t), BMAX - t) + Filled(b, t) == TOP
  {
    var c, k := Count(b, t), BMAX - t;
    if y < c {
      ShlWithin(0, y, c, k);
      FilledMono(b, t, BMAX);
    } else {
      ShlAdd(y - c, c, k);
    }
  }

  /** Line 187's initial y: nothing is used up below the shortest length. */
  lemma FirstPatterns(b: seq<nat>, j: nat)
    requires ShortestIs(b, j)
    ensures Shl(Pow2(j), BMAX - j) + Filled(b, j - 1) == TOP
  {
    FilledBelow(b, j - 1);
    ShlOne(j);
    ShlShl(1, j, BMAX - j);
    ShlOne(j + (BMAX - j));
    Pow2To16();
  }

  /** Line 187's step: y patterns of length j are 2y of length j + 1. */
  lemma DoublePatterns(b: seq<nat>, y: nat, j: nat)
    requires j < BMAX && Shl(y, BMAX - j) + Filled(b, j) == TOP
    ensures Shl(2 * y, BMAX - (j + 1)) + Filled(b, j) == TOP
  {
    ShlShl(y, 1, BMAX - (j + 1));
    assert Shl(y, 1) == 2 * y;
  }

  /** Returns the patterns left over at the greatest length, or reports more codes than bits. */
  method CheckLengths(b: seq<nat>, c: array<nat>, first: nat, g: nat) returns (ok: bool, y: int)
    requires ValidLens(b) && ShortestIs(b, first) && first <= g == MaxLen(b) <= BMAX
    requires c.Length == BMAX + 1 && forall t :: 0 <= t <= BMAX ==> c[t] == Count(b, t)
    ensures ok <==> Kraft(b) <= TOP
    ensures ok ==> y >= 0 && Shl(y, BMAX - g) + Kraft(b) == TOP
  {
    var j := first;
    y := Pow2(j);
    FirstPatterns(b, j);
    while j < g
      invariant 1 <= j <= g && y >= 0
      invariant Shl(y, BMAX - j) + Filled(b, j - 1) == TOP
    {
      TakeCodes(b, y, j);
      y := y - c[j];
      if y < 0 {
        return false, y;
      }
      DoublePatterns(b, y, j);
      j := j + 1;
      y := 2 * y;
    }
    TakeCodes(b, y, g);
    FilledMax(b, BMAX);
    y := y - c[g];
    ok := y >= 0;
  }

  /*-- Lines 196-212 ---------------------------------------------------------*/

  lemma OffsetNext(b: seq<nat>, t: nat, u: nat)
    requires t >= 1 && u == t + 1
    ensures Offset(b, u) == Offset(b, t) + Count(b, t)
  {
    hide Count;
  }

  /** The offsets up to length p are in place. */
  ghost predicate OffsetsTo(b: seq<nat>, x: seq<nat>, p: nat) {
    |x| == BMAX + 1 && forall t :: 1 <= t <= p && t < |x| ==> x[t] == Offset(b, t)
  }

  lemma OffsetsMore(b: seq<nat>, x: seq<nat>, p: nat, u: nat)
    requires OffsetsTo(b, x, p) && u == p + 1 <= BMAX
    ensures OffsetsTo(b, x[u := Offset(b, u)], u)
  {
    hide Offset;
  }

  method Offsets(b: seq<nat>, c: array<nat>, g: nat) returns (x: array<nat>)
    requires 1 <= g <= BMAX
    requires c.Length == BMAX + 1 && forall t :: 0 <= t < g ==> c[t] == Count(b, t)
    ensures fresh(x) && x.Length == BMAX + 1
    ensures forall t :: 1 <= t <= g ==> x[t] == Offset(b, t)
  {
    x := new nat[BMAX + 1];
    x[1] := 0;
    var j, p, xp, i := 0, 1, 2, g - 1;
    assert Offset(b, 1) == 0;
    hide Offset, Count;
    assert OffsetsTo(b, x[..], 1);
    while i > 0
      invariant p + i == g && xp == p + 1 && i >= 0
      invariant j == Offset(b, p) && OffsetsTo(b, x[..], p)
    {
      OffsetNext(b, p, xp);
      OffsetsMore(b, x[..], p, xp);
      j := j + c[p];
      x[xp] := j;
      p, xp := p + 1, xp + 1;
      i := i - 1;
    }
    assert forall t :: 1 <= t <= g ==> x[t] == x[..][t];
  }

  /** The place of a symbol in the order by length, then by symbol. */
  function Rank(b: seq<nat>, sym: nat): nat
    requires sym < |b|
  {
    Offset(b, b[sym]) + Count(b[..sym], b[sym])
  }

  lemma RankBound(b: seq<nat>, sym: nat)
    requires ValidLens(b) && sym < |b| && b[sym] != 0
    ensures Offset(b, b[sym]) <= Rank(b, sym) < Offset(b, b[sym] + 1) <= NumCodes(b)
  {
    CountMono(b, sym, b[sym]);
    OffsetTotal(b);
    OffsetMono(b, b[sym] + 1, BMAX + 1);
  }

  lemma RankDistinct(b: seq<nat>, m: nat, n: nat)
    requires ValidLens(b) && m < |b| && n < |b| && b[m] != 0 && b[n] != 0 && m != n
    ensures Rank(b, m) != Rank(b, n)
  {
    RankBound(b, m);
    RankBound(b, n);
    if b[m] == b[n] {
      if Rank(b, m) == Rank(b, n) {
        SymUnique(b, m, n);
      }
    } else if b[m] < b[n] {
      OffsetMono(b, b[m] + 1, b[n]);
    } else {
      OffsetMono(b, b[n] + 1, b[m]);
    }
  }

  /** The first n symbols stand at their ranks. */
  ghost predicate SortedUpTo(b: seq<nat>, n: nat, v: seq<nat>)
    requires n <= |b|
  {
    forall sym {:trigger Rank(b, sym)} :: 0 <= sym < n && b[sym] != 0 ==> Rank(b, sym) < |v| && v[Rank(b, sym)] == sym
  }

  lemma SortStep(b: seq<nat>, n: nat, v: seq<nat>)
    requires ValidLens(b) && n < |b| && b[n] != 0 && SortedUpTo(b, n, v) && |v| >= NumCodes(b)
    ensures Rank(b, n) < |v| && SortedUpTo(b, n + 1, v[Rank(b, n) := n])
  {
    RankBound(b, n);
    forall sym | 0 <= sym < n && b[sym] != 0
      ensures Rank(b, sym) != Rank(b, n)
    {
      RankDistinct(b, sym, n);
    }
  }

  method SortValues(b: seq<nat>, x: array<nat>, g: nat) returns (v: array<nat>)
    requires ValidLens(b) && 1 <= |b| <= N_MAX && g == MaxLen(b) <= BMAX
    requires x.Length == BMAX + 1 && forall t :: 1 <= t <= g ==> x[t] == Offset(b, t)
    modifies x
    ensures fresh(v) && v.Length == N_MAX
    ensures SortedUpTo(b, |b|, v[..])
  {
    v := new nat[N_MAX];
    MaxLenBound(b);
    var i := 0;
    while i < |b|
      invariant 0 <= i <= |b|
      invariant forall t :: 1 <= t <= g ==> x[t] == Offset(b, t) + Count(b[..i], t)
      invariant SortedUpTo(b, i, v[..])
    {
      assert b[..i + 1][..i] == b[..i];
      var j := b[i];
      if j != 0 {
        SortStep(b, i, v[..]);
        ghost var v1 := v[..][Rank(b, i) := i];
        v[x[j]] := i;
        assert v[..] == v1;
        x[j] := x[j] + 1;
      }
      i := i + 1;
    }
  }

  /** The symbol of a code stands at the offset of the code's length plus the code's number. */
  lemma RankOfCode(b: seq<nat>, s: seq<bool>, v: seq<nat>)
    requires RealCode(b, s) && SortedUpTo(b, |b|, v)
    ensures var p := Offset(b, |s|) + Val(s) - FirstCode(b, |s|);
            p < |v| && v[p] == SymAt(b, s) < |b|
  {
    SymsOfLenAt(b, |s|, Val(s) - FirstCode(b, |s|));
    assert Rank(b, SymAt(b, s)) == Offset(b, |s|) + Val(s) - FirstCode(b, |s|);
  }
}
