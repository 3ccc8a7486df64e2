/** Canonical Huffman codes as section 3.2.2 of RFC 1951 assigns them, and decoding them one
    bit at a time. This is what the lookup tables of `huft_build` must agree with. */
module Canonical {
  import opened Bits

  /** Longest code length the program accepts (BMAX). */
  const BMAX: nat := 16

  ghost predicate ValidLens(lens: seq<nat>) {
    forall i :: 0 <= i < |lens| ==> lens[i] <= BMAX
  }

  /** bl_count[t]: how many entries equal t. */
  function Count(lens: seq<nat>, t: nat): nat {
    if lens == [] then 0
    else Count(lens[..|lens| - 1], t) + (if lens[|lens| - 1] == t then 1 else 0)
  }

  /** next_code[t] as step 2 of section 3.2.2 computes it. */
  function FirstCode(lens: seq<nat>, t: nat): nat {
    if t <= 1 then 0 else 2 * (FirstCode(lens, t - 1) + Count(lens, t - 1))
  }

  /** The code step 3 of section 3.2.2 hands to symbol `sym`. */
  function Code(lens: seq<nat>, sym: nat): nat
    requires sym < |lens|
  {
    FirstCode(lens, lens[sym]) + Count(lens[..sym], lens[sym])
  }

  /** s is the code of `sym`, first transmitted bit first. */
  ghost predicate Codes(lens: seq<nat>, sym: nat, s: seq<bool>) {
    sym < |lens| && lens[sym] == |s| > 0 && Val(s) == Code(lens, sym)
  }

  function MaxLen(lens: seq<nat>): nat {
    if lens == [] then 0 else
      var m := MaxLen(lens[..|lens| - 1]);
      if m < lens[|lens| - 1] then lens[|lens| - 1] else m
  }

  lemma {:induction false} MaxLenBound(lens: seq<nat>)
    ensures forall i :: 0 <= i < |lens| ==> lens[i] <= MaxLen(lens)
    ensures MaxLen(lens) == 0 || exists i :: 0 <= i < |lens| && lens[i] == MaxLen(lens)
  {
    if lens != [] {
      var n := |lens| - 1;
      MaxLenBound(lens[..n]);
      var m := MaxLen(lens[..n]);
      if m >= lens[n] && m > 0 {
        var i :| 0 <= i < |lens[..n]| && lens[..n][i] == m;
        assert lens[i] == m;
      }
    }
  }

  datatype Symbol = Sym(n: nat, pos: nat) | NoCode | OutOfBits

  /** Bit-by-bit decoding at bit `pos` of the stream: lengthen the code until it is somebody's. */
  ghost function DecodeFrom(lens: seq<nat>, bits: seq<bool>, pos: nat, t: nat): (r: Symbol)
    ensures r.Sym? ==> pos + t <= r.pos <= |bits| && r.n < |lens|
    decreases MaxLen(lens) + 1 - t
  {
    if t > MaxLen(lens) then NoCode
    else if pos + t > |bits| then OutOfBits
    else
      var s := bits[pos..pos + t];
      if exists sym :: Codes(lens, sym, s) then
        var sym :| Codes(lens, sym, s);
        Sym(sym, pos + t)
      else DecodeFrom(lens, bits, pos, t + 1)
  }

  ghost function Decode(lens: seq<nat>, bits: seq<bool>, pos: nat): (r: Symbol)
    ensures r.Sym? ==> pos < r.pos <= |bits| && r.n < |lens|
  {
    DecodeFrom(lens, bits, pos, 1)
  }

  /** How many of the 65536 16-bit strings start with a code of length at most t. */
  function Filled(lens: seq<nat>, t: nat): nat
    requires t <= BMAX
  {
    if t == 0 then 0 else Filled(lens, t - 1) + Shl(Count(lens, t), BMAX - t)
  }

  /** The Kraft sum in units of 2^-16. */
  function Kraft(lens: seq<nat>): nat {
    Filled(lens, BMAX)
  }

  ghost predicate AllZero(lens: seq<nat>) {
    forall i :: 0 <= i < |lens| ==> lens[i] == 0
  }

  /** What `huft_build` reports about a list of lengths: 0 usable, 1 incomplete, 2 oversubscribed. */
  ghost function Verdict(lens: seq<nat>): nat {
    if AllZero(lens) then 0
    else if Kraft(lens) > TOP then 2
    else if Kraft(lens) < TOP && MaxLen(lens) != 1 then 1
    else 0
  }

  /*-- Counting --------------------------------------------------------------*/

  lemma {:induction false} CountBound(lens: seq<nat>, t: nat)
    ensures Count(lens, t) <= |lens|
    ensures Count(lens, t) > 0 <==> t in lens
  {
    if lens != [] {
      CountBound(lens[..|lens| - 1], t);
      assert lens == lens[..|lens| - 1] + [lens[|lens| - 1]];
    }
  }

  lemma {:induction false} CountConcat(a: seq<nat>, b: seq<nat>, t: nat)
    ensures Count(a + b, t) == Count(a, t) + Count(b, t)
  {
    if b == [] {
      assert a + b == a;
    } else {
      assert (a + b)[..|a + b| - 1] == a + b[..|b| - 1];
      CountConcat(a, b[..|b| - 1], t);
    }
  }

  lemma CountMono(lens: seq<nat>, n: nat, t: nat)
    requires n <= |lens|
    ensures Count(lens[..n], t) <= Count(lens, t)
    ensures n < |lens| && lens[n] == t ==> Count(lens[..n], t) < Count(lens, t)
  {
    assert lens == lens[..n] + lens[n..];
    CountConcat(lens[..n], lens[n..], t);
    CountBound(lens[n..], t);
    if n < |lens| {
      assert lens[n] == lens[n..][0];
    }
  }

  /** Symbols with length t, in symbol order. */
  function SymsOfLen(lens: seq<nat>, t: nat): (r: seq<nat>)
    ensures |r| == Count(lens, t)
  {
    if lens == [] then []
    else
      var n := |lens| - 1;
      SymsOfLen(lens[..n], t) + (if lens[n] == t then [n] else [])
  }

  lemma {:induction false} SymsOfLenAt(lens: seq<nat>, t: nat, q: nat)
    requires q < Count(lens, t)
    ensures var sym := SymsOfLen(lens, t)[q];
            sym < |lens| && lens[sym] == t && Count(lens[..sym], t) == q
  {
    var n := |lens| - 1;
    if q < Count(lens[..n], t) {
      SymsOfLenAt(lens[..n], t, q);
      var sym := SymsOfLen(lens[..n], t)[q];
      assert lens[..n][..sym] == lens[..sym];
    }
  }

  /** A symbol is determined by its length and its number among the symbols of that length. */
  lemma SymUnique(lens: seq<nat>, a: nat, b: nat)
    requires a < |lens| && b < |lens| && lens[a] == lens[b]
    requires Count(lens[..a], lens[a]) == Count(lens[..b], lens[b])
    ensures a == b
  {
    if a < b {
      assert lens[..b][..a] == lens[..a];
      CountMono(lens[..b], a, lens[a]);
    } else if b < a {
      assert lens[..a][..b] == lens[..b];
      CountMono(lens[..a], b, lens[a]);
    }
  }

  /*-- Codes as intervals ----------------------------------------------------*/

  ghost predicate RealCode(lens: seq<nat>, s: seq<bool>) {
    1 <= |s| <= BMAX && FirstCode(lens, |s|) <= Val(s) < FirstCode(lens, |s|) + Count(lens, |s|)
  }

  ghost function SymAt(lens: seq<nat>, s: seq<bool>): nat
    requires RealCode(lens, s)
  {
    SymsOfLen(lens, |s|)[Val(s) - FirstCode(lens, |s|)]
  }

  /** The string is long enough to be a code of the greatest length, but past the last one. */
  ghost predicate PastCodes(lens: seq<nat>, s: seq<bool>) {
    1 <= |s| <= BMAX && |s| == MaxLen(lens) && FirstCode(lens, |s|) + Count(lens, |s|) <= Val(s)
  }

  lemma CodesIff(lens: seq<nat>, sym: nat, s: seq<bool>)
    requires |s| <= BMAX
    ensures Codes(lens, sym, s) <==> RealCode(lens, s) && SymAt(lens, s) == sym
  {
    if Codes(lens, sym, s) {
      CountMono(lens, sym, |s|);
      SymsOfLenAt(lens, |s|, Val(s) - FirstCode(lens, |s|));
      SymUnique(lens, sym, SymAt(lens, s));
    } else if RealCode(lens, s) {
      SymsOfLenAt(lens, |s|, Val(s) - FirstCode(lens, |s|));
    }
  }

  lemma {:induction false} FirstCodeFilled(lens: seq<nat>, t: nat)
    requires 1 <= t <= BMAX
    ensures Shl(FirstCode(lens, t), BMAX - t) == Filled(lens, t - 1)
  {
    if t > 1 {
      FirstCodeFilled(lens, t - 1);
      var k := BMAX - t;
      var f, c := FirstCode(lens, t - 1), Count(lens, t - 1);
      ShlShl(f + c, 1, k);
      assert Shl(f + c, 1) == 2 * (f + c);
      ShlAdd(f, c, k + 1);
    } else {
      ShlOne(BMAX - 1);
    }
  }

  lemma {:induction false} FilledMono(lens: seq<nat>, t: nat, u: nat)
    requires t <= u <= BMAX
    ensures Filled(lens, t) <= Filled(lens, u)
    decreases u
  {
    if t < u {
      FilledMono(lens, t, u - 1);
    }
  }

  /** Beyond the greatest length nothing is added. */
  lemma {:induction false} FilledMax(lens: seq<nat>, t: nat)
    requires MaxLen(lens) <= t <= BMAX
    ensures Filled(lens, t) == Filled(lens, MaxLen(lens))
  {
    if MaxLen(lens) < t {
      MaxLenBound(lens);
      CountBound(lens, t);
      ShlOne(BMAX - t);
      FilledMax(lens, t - 1);
    }
  }

  /** A string at or past the first code of its length lies past all shorter codes. */
  lemma LoPast(lens: seq<nat>, s: seq<bool>)
    requires 1 <= |s| <= BMAX && FirstCode(lens, |s|) <= Val(s)
    ensures Filled(lens, |s| - 1) <= Lo(s)
  {
    FirstCodeFilled(lens, |s|);
    ShlMono(FirstCode(lens, |s|), Val(s), BMAX - |s|);
  }

  lemma LoReal(lens: seq<nat>, s: seq<bool>)
    requires RealCode(lens, s)
    ensures Filled(lens, |s| - 1) <= Lo(s) && Lo(s) + Span(s) <= Filled(lens, |s|)
  {
    FirstCodeFilled(lens, |s|);
    var f, c := FirstCode(lens, |s|), Count(lens, |s|);
    ShlWithin(f, Val(s), f + c, BMAX - |s|);
    ShlAdd(f, c, BMAX - |s|);
  }

  /** No code is a prefix of a longer code, nor of a string past the codes. */
  lemma PrefixFree(lens: seq<nat>, s: seq<bool>, t: seq<bool>)
    requires RealCode(lens, s) && (RealCode(lens, t) || PastCodes(lens, t))
    requires s <= t
    ensures s == t
  {
    if |s| < |t| {
      LoReal(lens, s);
      LoPast(lens, t);
      FilledMono(lens, |s|, |t| - 1);
      LoPrefix(s, t);
    }
  }

  /** Canonical codes are prefix free: two symbols whose codes agree as far as the shorter one
      goes are the same symbol. */
  lemma CanonicalPrefixFree(lens: seq<nat>, a: nat, s: seq<bool>, b: nat, t: seq<bool>)
    requires ValidLens(lens) && Codes(lens, a, s) && Codes(lens, b, t) && s <= t
    ensures a == b && s == t
  {
    CodesIff(lens, a, s);
    CodesIff(lens, b, t);
    PrefixFree(lens, s, t);
  }

  /** If the stream from `pos` on starts with x as far as both go, and s is a leaf string that
      starts x, then bit-by-bit decoding finds exactly s. */
  lemma {:induction false} DecodeLeaf(lens: seq<nat>, bits: seq<bool>, pos: nat, t: nat, s: seq<bool>)
    requires ValidLens(lens) && 1 <= t <= |s|
    requires RealCode(lens, s) || PastCodes(lens, s)
    requires forall i :: 0 <= i < |s| && pos + i < |bits| ==> bits[pos + i] == s[i]
    ensures var r := DecodeFrom(lens, bits, pos, t);
            || (r == OutOfBits && pos + |s| > |bits|)
            || (RealCode(lens, s) && r == Sym(SymAt(lens, s), pos + |s|))
            || (PastCodes(lens, s) && r == NoCode)
    decreases |s| - t
  {
    MaxLenBound(lens);
    if RealCode(lens, s) {
      CodesIff(lens, SymAt(lens, s), s);
    }
    if t <= MaxLen(lens) && pos + t <= |bits| {
      var u := bits[pos..pos + t];
      assert u == s[..t];
      if exists sym :: Codes(lens, sym, u) {
        forall sym | Codes(lens, sym, u)
          ensures RealCode(lens, s) && sym == SymAt(lens, s) && t == |s|
        {
          CodesIff(lens, sym, u);
          PrefixFree(lens, u, s);
        }
      } else if t < |s| {
        DecodeLeaf(lens, bits, pos, t + 1, s);
      } else {
        assert s == u;
        assert DecodeFrom(lens, bits, pos, t + 1) == NoCode;
      }
    }
  }

  /*-- Complete sets ----------------------------------------------------------*/

  ghost predicate NoneUpTo(lens: seq<nat>, bits: seq<bool>, pos: nat, t: nat) {
    pos + t <= |bits| && forall u :: 1 <= u <= t ==> NotCode(lens, bits, pos, u)
  }

  ghost predicate NotCode(lens: seq<nat>, bits: seq<bool>, pos: nat, u: nat) {
    pos + u <= |bits| && !RealCode(lens, bits[pos..pos + u])
  }

  /** A string none of whose starts is a code lies past all codes as long as it. */
  lemma {:induction false} PastAll(lens: seq<nat>, bits: seq<bool>, pos: nat, t: nat)
    requires NoneUpTo(lens, bits, pos, t) && t <= BMAX
    ensures Filled(lens, t) <= Lo(bits[pos..pos + t])
    decreases t
  {
    if t > 0 {
      var s, u := bits[pos..pos + t], bits[pos..pos + (t - 1)];
      PastAll(lens, bits, pos, t - 1);
      assert u == s[..t - 1] && s == u + s[t - 1..];
      LoExtend(u, s[t - 1..]);
      var f, c, k := FirstCode(lens, t), Count(lens, t), BMAX - t;
      FirstCodeFilled(lens, t);
      assert NotCode(lens, bits, pos, t);
      hide Lo, RealCode, FirstCode, Count;
      PastStep(lens, s, f, c, k);
    }
  }

  lemma PastStep(lens: seq<nat>, s: seq<bool>, f: nat, c: nat, k: nat)
    requires 1 <= |s| <= BMAX && k == BMAX - |s| && f == FirstCode(lens, |s|) && c == Count(lens, |s|)
    requires Shl(f, k) == Filled(lens, |s| - 1) <= Lo(s) && !RealCode(lens, s)
    ensures Filled(lens, |s|) <= Lo(s)
  {
    if Val(s) < f {
      ShlWithin(0, Val(s), f, k);
    } else {
      ShlMono(f + c, Val(s), k);
      ShlAdd(f, c, k);
    }
  }

  lemma {:induction false} NoCodeNone(lens: seq<nat>, bits: seq<bool>, pos: nat, t: nat)
    requires t >= 1 && DecodeFrom(lens, bits, pos, t) == NoCode && MaxLen(lens) <= BMAX
    requires t - 1 <= MaxLen(lens) && NoneUpTo(lens, bits, pos, t - 1)
    ensures NoneUpTo(lens, bits, pos, MaxLen(lens))
    decreases MaxLen(lens) + 1 - t
  {
    if t <= MaxLen(lens) {
      var s := bits[pos..pos + t];
      if RealCode(lens, s) {
        CodesIff(lens, SymAt(lens, s), s);
      }
      assert NotCode(lens, bits, pos, t);
      NoCodeNone(lens, bits, pos, t + 1);
    }
  }

  /** In a complete set every string that is long enough starts with a code. */
  lemma CompleteDecodes(lens: seq<nat>, bits: seq<bool>, pos: nat)
    requires ValidLens(lens) && Kraft(lens) >= TOP && pos <= |bits|
    ensures Decode(lens, bits, pos) != NoCode
  {
    if Decode(lens, bits, pos) == NoCode {
      var g := MaxLen(lens);
      MaxLenBound(lens);
      NoCodeNone(lens, bits, pos, 1);
      PastAll(lens, bits, pos, g);
      FilledMax(lens, BMAX);
      LoTop(bits[pos..pos + g]);
    }
  }

  function Ones(n: nat): (s: seq<bool>)
    ensures |s| == n
  {
    seq(n, _ => true)
  }

  lemma {:induction false} OnesVal(n: nat)
    ensures Val(Ones(n)) + 1 == Pow2(n)
  {
    if n > 0 {
      assert Ones(n)[..n - 1] == Ones(n - 1);
      OnesVal(n - 1);
    }
  }

  /** In one that is not, the string of ones does not. */
  lemma IncompleteFails(lens: seq<nat>)
    requires ValidLens(lens) && Kraft(lens) < TOP
    ensures Decode(lens, Ones(BMAX), 0) == NoCode
  {
    var g := MaxLen(lens);
    MaxLenBound(lens);
    if g > 0 {
      var s := Ones(g);
      FilledMax(lens, BMAX);
      FirstCodeFilled(lens, g);
      OnesVal(g);
      var f, c, k := FirstCode(lens, g), Count(lens, g), BMAX - g;
      ShlAdd(f, c, k);
      OnesPast(f + c, g, k);
      DecodeLeaf(lens, Ones(BMAX), 0, 1, s);
    }
  }

  /** A number below 2^16 when scaled is at most the string of ones. */
  lemma OnesPast(v: nat, g: nat, k: nat)
    requires g + k == BMAX && Shl(v, k) < TOP
    ensures v <= Val(Ones(g))
  {
    OnesVal(g);
    if v >= Pow2(g) {
      ShlMono(Pow2(g), v, k);
      ShlOne(g);
      ShlShl(1, g, k);
      ShlOne(BMAX);
      Pow2To16();
    }
  }

  lemma ZeroMaxLen(lens: seq<nat>)
    ensures AllZero(lens) <==> MaxLen(lens) == 0
  {
    MaxLenBound(lens);
  }

  /** The verdicts: 2 when the codes would take more than all strings of sixteen bits, 1 when they take
      fewer and some code is longer than one bit. */
  lemma VerdictIs(lens: seq<nat>)
    requires ValidLens(lens)
    ensures Verdict(lens) == 2 <==> Kraft(lens) > 65536
    ensures Verdict(lens) == 1 <==> Kraft(lens) < 65536 && MaxLen(lens) > 1
    ensures Verdict(lens) == 0 <==> Kraft(lens) == 65536 || (Kraft(lens) < 65536 && MaxLen(lens) <= 1)
  {
    ZeroMaxLen(lens);
    MaxLenBound(lens);
    if AllZero(lens) {
      FilledMax(lens, BMAX);
    }
    hide MaxLen, Filled;
  }

  /** Of the sets that are accepted those that are not complete are the ones with no code, and those
      with a single code, of one bit. */
  lemma AcceptedIncomplete(lens: seq<nat>)
    requires ValidLens(lens) && Verdict(lens) == 0
    ensures Kraft(lens) < TOP <==> AllZero(lens) || (MaxLen(lens) == 1 && Count(lens, 1) == 1)
  {
    MaxLenBound(lens);
    if AllZero(lens) {
      FilledMax(lens, BMAX);
      assert MaxLen(lens) == 0;
    } else if MaxLen(lens) == 1 {
      FilledMax(lens, BMAX);
      CountBound(lens, 1);
      assert Filled(lens, 1) == Shl(Count(lens, 1), 15);
      ScaledOnes(Count(lens, 1));
    }
  }

  lemma ScaledOnes(c: nat)
    ensures Shl(c, 15) < TOP <==> c < 2
  {
    ShlOne(15);
    ShlOne(14);
    Pow2To16();
    if c >= 2 {
      ShlMono(2, c, 15);
      ShlShl(1, 1, 15);
      assert Shl(1, 1) == 2;
      ShlOne(16);
    }
  }
}
