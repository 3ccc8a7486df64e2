/** The 8086 arithmetic of video/x86/x86_prim_ops.c: addition and subtraction with flags computed
    from a carry or borrow chain. A word is its bits, least significant first; the byte and word
    versions of an operation in the source are the ones here at 8 and 16 bits. */
module Alu {
  import opened Bits

  type Word = seq<bool>

  /*-- The operators the flag formulas use ------------------------------------*/

  function And(a: Word, b: Word): (r: Word)
    requires |a| == |b|
    ensures |r| == |a| && forall i :: 0 <= i < |a| ==> r[i] == (a[i] && b[i])
  {
    seq(|a|, i requires 0 <= i < |a| => a[i] && b[i])
  }

  function Or(a: Word, b: Word): (r: Word)
    requires |a| == |b|
    ensures |r| == |a| && forall i :: 0 <= i < |a| ==> r[i] == (a[i] || b[i])
  {
    seq(|a|, i requires 0 <= i < |a| => a[i] || b[i])
  }

  function Not(a: Word): (r: Word)
    ensures |r| == |a| && forall i :: 0 <= i < |a| ==> r[i] == !a[i]
  {
    seq(|a|, i requires 0 <= i < |a| => !a[i])
  }

  /** The low n bits of the difference of two words, a negative one wrapping around. */
  function Wrap(x: int, n: nat): (r: Word)
    requires 0 <= x + Pow2(n) && x < Pow2(n)
    ensures |r| == n && Num(r) == if x < 0 then x + Pow2(n) else x
  {
    BitsOf(if x < 0 then x + Pow2(n) else x, n)
  }

  /** Two's complement value. */
  function Signed(a: Word): int {
    if a != [] && a[|a| - 1] then Num(a) - Pow2(|a|) else Num(a)
  }

  function Weight(b: bool, k: nat): nat {
    if b then Pow2(k) else 0
  }

  /*-- Carries ----------------------------------------------------------------*/

  /** The carry into bit i of a + b + c, bit by bit. */
  function Carry(a: Word, b: Word, c: bool, i: nat): bool
    requires |a| == |b| && i <= |a|
  {
    if i == 0 then c
    else (a[i - 1] && b[i - 1]) || (Carry(a, b, c, i - 1) && (a[i - 1] || b[i - 1]))
  }

  function SumBits(a: Word, b: Word, c: bool, k: nat): (r: Word)
    requires |a| == |b| && k <= |a|
    ensures |r| == k
  {
    if k == 0 then [] else SumBits(a, b, c, k - 1) + [(a[k - 1] != b[k - 1]) != Carry(a, b, c, k - 1)]
  }

  lemma {:induction false} SumBitsAt(a: Word, b: Word, c: bool, k: nat, i: nat)
    requires |a| == |b| && i < k <= |a|
    ensures SumBits(a, b, c, k)[i] == ((a[i] != b[i]) != Carry(a, b, c, i))
    decreases k
  {
    if i < k - 1 {
      SumBitsAt(a, b, c, k - 1, i);
    }
  }

  /** The low k bits add up, with the carry out of them. */
  lemma {:induction false} RippleAdds(a: Word, b: Word, c: bool, k: nat)
    requires |a| == |b| && k <= |a|
    ensures Num(SumBits(a, b, c, k)) + Weight(Carry(a, b, c, k), k) == Num(a[..k]) + Num(b[..k]) + Bit(c)
    decreases k
  {
    if k > 0 {
      var n := k - 1;
      RippleAdds(a, b, c, n);
      assert Carry(a, b, c, k) == ((a[n] && b[n]) || (Carry(a, b, c, n) && (a[n] || b[n])));
      hide Num, Pow2, Carry;
      var x := (a[n] != b[n]) != Carry(a, b, c, n);
      assert a[..k] == a[..n] + [a[n]] && b[..k] == b[..n] + [b[n]];
      NumSnoc(SumBits(a, b, c, n), x);
      NumSnoc(a[..n], a[n]);
      NumSnoc(b[..n], b[n]);
      OneBit(a[n], b[n], Carry(a, b, c, n), n);
    }
  }

  /** One bit of a sum. */
  lemma OneBit(x: bool, y: bool, z: bool, n: nat)
    ensures var out := (x && y) || (z && (x || y));
            Weight((x != y) != z, n) + Weight(out, n + 1) == Weight(x, n) + Weight(y, n) + Weight(z, n)
  {
  }

  /** Carry out of the low k bits: their sum does not fit in k bits. */
  lemma CarryMeans(a: Word, b: Word, c: bool, k: nat)
    requires |a| == |b| && k <= |a|
    ensures Carry(a, b, c, k) <==> Num(a[..k]) + Num(b[..k]) + Bit(c) >= Pow2(k)
  {
    RippleAdds(a, b, c, k);
    NumBound(SumBits(a, b, c, k));
  }

  /** The sum as the machine has it, one bit longer than the operands. */
  function Sum(a: Word, b: Word, c: bool): (r: Word)
    requires |a| == |b|
    ensures |r| == |a| + 1 && Num(r) == Num(a) + Num(b) + Bit(c)
  {
    NumBound(a);
    NumBound(b);
    BitsOf(Num(a) + Num(b) + Bit(c), |a| + 1)
  }

  /** It is the ripple sum, with the last carry on top. */
  lemma SumIsRipple(a: Word, b: Word, c: bool)
    requires |a| == |b|
    ensures Sum(a, b, c) == SumBits(a, b, c, |a|) + [Carry(a, b, c, |a|)]
  {
    var n := |a|;
    RippleAdds(a, b, c, n);
    assert a[..n] == a && b[..n] == b;
    NumSnoc(SumBits(a, b, c, n), Carry(a, b, c, n));
    NumInjective(Sum(a, b, c), SumBits(a, b, c, n) + [Carry(a, b, c, n)]);
  }

  /** The carry chain ab + r'(a + b) of the source. */
  function CarryChain(s: Word, d: Word, r: Word): (cc: Word)
    requires |s| == |d| == |r|
    ensures |cc| == |s|
  {
    Or(And(s, d), And(Not(r), Or(s, d)))
  }

  /** At every width and every bit, the chain made from the result is the carry out of that bit. */
  lemma ChainIsCarry(d: Word, s: Word, c: bool, i: nat)
    requires |d| == |s| && i < |d|
    ensures CarryChain(s, d, Sum(d, s, c)[..|d|])[i] == Carry(d, s, c, i + 1)
  {
    SumIsRipple(d, s, c);
    SumBitsAt(d, s, c, |d|, i);
  }

  /*-- Borrows ----------------------------------------------------------------*/

  /** The borrow from bit i of a - b - c, bit by bit. */
  function Borrow(a: Word, b: Word, c: bool, i: nat): bool
    requires |a| == |b| && i <= |a|
  {
    if i == 0 then c
    else (!a[i - 1] && b[i - 1]) || (Borrow(a, b, c, i - 1) && (!a[i - 1] || b[i - 1]))
  }

  function DiffBits(a: Word, b: Word, c: bool, k: nat): (r: Word)
    requires |a| == |b| && k <= |a|
    ensures |r| == k
  {
    if k == 0 then [] else DiffBits(a, b, c, k - 1) + [(a[k - 1] != b[k - 1]) != Borrow(a, b, c, k - 1)]
  }

  lemma {:induction false} DiffBitsAt(a: Word, b: Word, c: bool, k: nat, i: nat)
    requires |a| == |b| && i < k <= |a|
    ensures DiffBits(a, b, c, k)[i] == ((a[i] != b[i]) != Borrow(a, b, c, i))
    decreases k
  {
    if i < k - 1 {
      DiffBitsAt(a, b, c, k - 1, i);
    }
  }

  lemma {:induction false} RippleSubtracts(a: Word, b: Word, c: bool, k: nat)
    requires |a| == |b| && k <= |a|
    ensures Num(DiffBits(a, b, c, k)) - Weight(Borrow(a, b, c, k), k) == Num(a[..k]) - Num(b[..k]) - Bit(c)
    decreases k
  {
    if k > 0 {
      var n := k - 1;
      RippleSubtracts(a, b, c, n);
      assert Borrow(a, b, c, k) == ((!a[n] && b[n]) || (Borrow(a, b, c, n) && (!a[n] || b[n])));
      hide Num, Pow2, Borrow;
      var x := (a[n] != b[n]) != Borrow(a, b, c, n);
      assert a[..k] == a[..n] + [a[n]] && b[..k] == b[..n] + [b[n]];
      NumSnoc(DiffBits(a, b, c, n), x);
      NumSnoc(a[..n], a[n]);
      NumSnoc(b[..n], b[n]);
      OneBitLess(a[n], b[n], Borrow(a, b, c, n), n);
    }
  }

  lemma OneBitLess(x: bool, y: bool, z: bool, n: nat)
    ensures var out := (!x && y) || (z && (!x || y));
            Weight((x != y) != z, n) - Weight(out, n + 1) == Weight(x, n) - Weight(y, n) - Weight(z, n)
  {
  }

  lemma BorrowMeans(a: Word, b: Word, c: bool, k: nat)
    requires |a| == |b| && k <= |a|
    ensures Borrow(a, b, c, k) <==> Num(a[..k]) < Num(b[..k]) + Bit(c)
  {
    RippleSubtracts(a, b, c, k);
    NumBound(DiffBits(a, b, c, k));
  }

  function Diff(a: Word, b: Word, c: bool): (r: Word)
    requires |a| == |b|
    ensures |r| == |a|
    ensures Num(r) == Num(a) - Num(b) - Bit(c) + (if Num(a) < Num(b) + Bit(c) then Pow2(|a|) else 0)
  {
    NumBound(a);
    NumBound(b);
    Wrap(Num(a) - Num(b) - Bit(c), |a|)
  }

  lemma DiffIsRipple(a: Word, b: Word, c: bool)
    requires |a| == |b|
    ensures Diff(a, b, c) == DiffBits(a, b, c, |a|)
  {
    var n := |a|;
    RippleSubtracts(a, b, c, n);
    BorrowMeans(a, b, c, n);
    assert a[..n] == a && b[..n] == b;
    NumInjective(Diff(a, b, c), DiffBits(a, b, c, n));
  }

  /** The borrow chain a'b + r(a' + b) of the source. */
  function BorrowChain(s: Word, d: Word, r: Word): (bc: Word)
    requires |s| == |d| == |r|
    ensures |bc| == |s|
  {
    Or(And(r, Or(Not(d), s)), And(Not(d), s))
  }

  lemma ChainIsBorrow(d: Word, s: Word, c: bool, i: nat)
    requires |d| == |s| && i < |d|
    ensures BorrowChain(s, d, Diff(d, s, c))[i] == Borrow(d, s, c, i + 1)
  {
    DiffIsRipple(d, s, c);
    DiffBitsAt(d, s, c, |d|, i);
  }

  /*-- Flags ------------------------------------------------------------------*/

  const CF: nat := 0
  const PF: nat := 2
  const AF: nat := 4
  const ZF: nat := 6
  const SF: nat := 7
  const OF: nat := 11

  predicate Arithmetic(f: nat) {
    f == CF || f == PF || f == AF || f == ZF || f == SF || f == OF
  }

  /** Sum or difference fits the signed range of n bits. */
  predicate Fits(x: int, n: nat)
    requires n > 0
  {
    0 <= x + Pow2(n - 1) && x < Pow2(n - 1)
  }

  /** The flags but CF after d + s + c, each in terms of the numbers, not the bits. */
  ghost predicate AddRest(flags: seq<bool>, d: Word, s: Word, c: bool)
    requires |flags| == 32 && |d| == |s| >= 8
  {
    var n := |d|;
    && flags[OF] == !Fits(Signed(d) + Signed(s) + Bit(c), n)
    && flags[AF] == (Num(d[..4]) + Num(s[..4]) + Bit(c) >= 16)
    && flags[ZF] == (Num(Sum(d, s, c)[..n]) == 0)
    && flags[SF] == (Signed(Sum(d, s, c)[..n]) < 0)
    && flags[PF] == Parity(Sum(d, s, c)[..8])
  }

  ghost predicate AddFlags(flags: seq<bool>, d: Word, s: Word, c: bool)
    requires |flags| == 32 && |d| == |s| >= 8
  {
    AddRest(flags, d, s, c) && flags[CF] == (Num(d) + Num(s) + Bit(c) >= Pow2(|d|))
  }

  /** The flags but CF after d - s - c. */
  ghost predicate SubRest(flags: seq<bool>, d: Word, s: Word, c: bool)
    requires |flags| == 32 && |d| == |s| >= 8
  {
    var n := |d|;
    && flags[OF] == !Fits(Signed(d) - Signed(s) - Bit(c), n)
    && flags[AF] == (Num(d[..4]) < Num(s[..4]) + Bit(c))
    && flags[ZF] == (Num(Diff(d, s, c)) == 0)
    && flags[SF] == (Signed(Diff(d, s, c)) < 0)
    && flags[PF] == Parity(Diff(d, s, c)[..8])
  }

  ghost predicate SubFlags(flags: seq<bool>, d: Word, s: Word, c: bool)
    requires |flags| == 32 && |d| == |s| >= 8
  {
    SubRest(flags, d, s, c) && flags[CF] == (Num(d) < Num(s) + Bit(c))
  }

  lemma SignBit(a: Word)
    requires a != []
    ensures Signed(a) < 0 <==> a[|a| - 1]
    ensures Signed(a) == Num(a[..|a| - 1]) - Weight(a[|a| - 1], |a| - 1)
  {
    var n := |a| - 1;
    assert a == a[..n] + [a[n]];
    NumSnoc(a[..n], a[n]);
    NumBound(a[..n]);
  }

  /** Signed overflow is the exclusive or of the last two carries. */
  lemma OverflowAdd(d: Word, s: Word, c: bool)
    requires |d| == |s| > 0
    ensures (Carry(d, s, c, |d|) != Carry(d, s, c, |d| - 1)) <==> !Fits(Signed(d) + Signed(s) + Bit(c), |d|)
  {
    var n := |d| - 1;
    SignBit(d);
    SignBit(s);
    NumBound(d[..n]);
    NumBound(s[..n]);
    CarryMeans(d, s, c, n);
  }

  lemma OverflowSub(d: Word, s: Word, c: bool)
    requires |d| == |s| > 0
    ensures (Borrow(d, s, c, |d|) != Borrow(d, s, c, |d| - 1)) <==> !Fits(Signed(d) - Signed(s) - Bit(c), |d|)
  {
    var n := |d| - 1;
    SignBit(d);
    SignBit(s);
    NumBound(d[..n]);
    NumBound(s[..n]);
    BorrowMeans(d, s, c, n);
  }

  lemma SignIs(a: Word, m: int)
    requires a != [] && m == Pow2(|a| - 1)
    ensures Pow2(|a|) == 2 * m && Num(a) < 2 * m && Signed(a) == if Num(a) < m then Num(a) else Num(a) - 2 * m
  {
    var n: nat := |a| - 1;
    NumBound(a);
    NumBound(a[..n]);
    SignBit(a);
    hide Num;
  }

  lemma LowNibble(d: Word)
    requires |d| >= 4
    ensures Num(d[..4]) == Num(d) % 16
  {
    assert d == d[..4] + d[4..];
    NumConcat(d[..4], d[4..]);
    NumBound(d[..4]);
    Pow2To16();
    ShlFour(Num(d[4..]));
    hide Num, Shl;
    Remainder(Num(d), Num(d[4..]), Num(d[..4]));
  }

  lemma Remainder(x: nat, q: nat, r: nat)
    requires x == r + 16 * q && r < 16
    ensures x % 16 == r
  {
  }

  lemma SumLow(d: Word, s: Word, c: bool, m: int)
    requires |d| == |s| > 0 && m == Pow2(|d| - 1)
    ensures var t := Num(d) + Num(s) + Bit(c);
            Num(Sum(d, s, c)[..|d|]) == if t < 2 * m then t else t - 2 * m
  {
    hide Num, Sum, Signed, Pow2;
    SignIs(d, m);
    TopBit(Sum(d, s, c), |d|);
  }

  lemma TopBit(r: Word, n: nat)
    requires |r| == n + 1
    ensures Num(r) == Num(r[..n]) + (if r[n] then Pow2(n) else 0) && Num(r[..n]) < Pow2(n)
  {
    hide Num, Pow2;
    NumSnoc(r[..n], r[n]);
    NumBound(r[..n]);
    assert r == r[..n] + [r[n]];
  }

  /** The flags of an addition in numbers: m is 128 for bytes, 32768 for words. */
  lemma AddInNumbers(flags: seq<bool>, d: Word, s: Word, c: bool, m: int)
    requires |flags| == 32 && |d| == |s| >= 8 && m == Pow2(|d| - 1) && AddFlags(flags, d, s, c)
    ensures var x: int, y: int, k: int := Num(d), Num(s), Bit(c);
            var a, b := (if x < m then x else x - 2 * m), (if y < m then y else y - 2 * m);
            && flags[0] == (x + y + k >= 2 * m) && flags[4] == (x % 16 + y % 16 + k >= 16)
            && flags[6] == (x + y + k == 0 || x + y + k == 2 * m)
            && flags[7] == (m <= x + y + k < 2 * m || x + y + k >= 3 * m)
            && flags[11] == (a + b + k < -m || a + b + k >= m)
  {
    SignIs(d, m);
    SignIs(s, m);
    SumLow(d, s, c, m);
    SignIs(Sum(d, s, c)[..|d|], m);
    LowNibble(d);
    LowNibble(s);
    hide Num, Signed, Sum, Parity, Pow2;
  }

  /** And of a subtraction. */
  lemma SubInNumbers(flags: seq<bool>, d: Word, s: Word, c: bool, m: int)
    requires |flags| == 32 && |d| == |s| >= 8 && m == Pow2(|d| - 1) && SubFlags(flags, d, s, c)
    ensures var x: int, y: int, k: int := Num(d), Num(s), Bit(c);
            var a, b := (if x < m then x else x - 2 * m), (if y < m then y else y - 2 * m);
            && flags[0] == (x < y + k) && flags[4] == (x % 16 < y % 16 + k)
            && flags[6] == (x == y + k || x + 2 * m == y + k)
            && flags[7] == (m <= x - y - k || -m <= x - y - k < 0)
            && flags[11] == (a - b - k < -m || a - b - k >= m)
  {
    SignIs(d, m);
    SignIs(s, m);
    SignIs(Diff(d, s, c), m);
    LowNibble(d);
    LowNibble(s);
    hide Num, Signed, Diff, Parity, Pow2;
  }

  lemma ZeroBits(r: Word)
    ensures Num(r) == 0 <==> forall i :: 0 <= i < |r| ==> !r[i]
  {
    var z: Word := seq(|r|, _ => false);
    AllZeroNum(z);
    if Num(r) == 0 {
      NumInjective(r, z);
    }
    if forall i :: 0 <= i < |r| ==> !r[i] {
      AllZeroNum(r);
    }
  }

  lemma {:induction false} AllZeroNum(z: Word)
    requires forall i :: 0 <= i < |z| ==> !z[i]
    ensures Num(z) == 0
  {
    if z != [] {
      AllZeroNum(z[1..]);
    }
  }

  /** PARITY: the exclusive or of the bits, as the source's table has it. */
  function Parity(r: Word): bool {
    if r == [] then false else r[0] != Parity(r[1..])
  }

  /** It is false of zeros, and every bit counts: so it is the number of ones modulo two. */
  lemma {:induction false} ParityZeros(r: Word)
    requires forall i :: 0 <= i < |r| ==> !r[i]
    ensures !Parity(r)
  {
    if r != [] {
      ParityZeros(r[1..]);
    }
  }

  lemma {:induction false} ParityFlips(r: Word, i: nat)
    requires i < |r|
    ensures Parity(r[i := !r[i]]) != Parity(r)
    decreases |r|
  {
    var s := r[i := !r[i]];
    if i == 0 {
      assert s[1..] == r[1..];
    } else {
      assert s[1..] == r[1..][i - 1 := !r[1..][i - 1]];
      ParityFlips(r[1..], i - 1);
    }
  }

  /** What SetResult and SetChain leave, with the carry chain of d + s + c. */
  ghost predicate Shows(flags: seq<bool>, r: Word, cc: Word)
    requires |flags| == 32 && |r| == |cc| >= 8
  {
    && flags[ZF] == (forall i :: 0 <= i < |r| ==> !r[i]) && flags[SF] == r[|r| - 1] && flags[PF] == Parity(r[..8])
    && flags[OF] == (cc[|cc| - 2] != cc[|cc| - 1]) && flags[AF] == cc[3]
  }

  lemma Take8(r: Word, n: nat)
    requires 8 <= n <= |r|
    ensures r[..n][..8] == r[..8]
  {
  }

  lemma AddShows(flags: seq<bool>, d: Word, s: Word, c: bool)
    requires |flags| == 32 && |d| == |s| >= 8
    requires var r := Sum(d, s, c)[..|d|]; Shows(flags, r, CarryChain(s, d, r))
    ensures AddRest(flags, d, s, c)
  {
    hide CarryChain, Num, Carry, Sum, Parity;
    var n := |d|;
    var r := Sum(d, s, c)[..n];
    ChainIsCarry(d, s, c, n - 1);
    ChainIsCarry(d, s, c, n - 2);
    ChainIsCarry(d, s, c, 3);
    OverflowAdd(d, s, c);
    CarryMeans(d, s, c, 4);
    Pow2To16();
    SignBit(r);
    ZeroBits(r);
    Take8(Sum(d, s, c), n);
  }

  lemma SubShows(flags: seq<bool>, d: Word, s: Word, c: bool)
    requires |flags| == 32 && |d| == |s| >= 8
    requires var r := Diff(d, s, c); Shows(flags, r, BorrowChain(s, d, r))
    ensures SubRest(flags, d, s, c)
  {
    hide BorrowChain, Num, Borrow, Diff, Parity;
    var n := |d|;
    ChainIsBorrow(d, s, c, n - 1);
    ChainIsBorrow(d, s, c, n - 2);
    ChainIsBorrow(d, s, c, 3);
    OverflowSub(d, s, c);
    BorrowMeans(d, s, c, 4);
    SignBit(Diff(d, s, c));
    ZeroBits(Diff(d, s, c));
  }

  /** The bit above the sum, and the last bit of the borrow chain, are the carry and the borrow. */
  lemma CarryOut(d: Word, s: Word, c: bool)
    requires |d| == |s| > 0
    ensures Sum(d, s, c)[|d|] <==> Num(d) + Num(s) + Bit(c) >= Pow2(|d|)
    ensures BorrowChain(s, d, Diff(d, s, c))[|d| - 1] <==> Num(d) < Num(s) + Bit(c)
  {
    hide BorrowChain, Num, Carry, Borrow, Diff, Sum;
    var n := |d|;
    assert d[..n] == d && s[..n] == s;
    SumIsRipple(d, s, c);
    CarryMeans(d, s, c, n);
    ChainIsBorrow(d, s, c, n - 1);
    BorrowMeans(d, s, c, n);
  }

  /** The chain of INC; the byte version groups it differently. */
  function IncChain(a: Word, b: Word, r: Word, grouped: bool): (cc: Word)
    requires |a| == |b| == |r|
    ensures |cc| == |a|
  {
    if grouped then And(Or(And(a, b), Not(r)), Or(a, b)) else CarryChain(a, b, r)
  }

  /** It is the same chain. */
  lemma IncChains(a: Word, b: Word, r: Word, grouped: bool)
    requires |a| == |b| == |r|
    ensures IncChain(a, b, r, grouped) == CarryChain(a, b, r)
  {
  }

  function One(n: nat): (r: Word)
    requires n > 0
    ensures |r| == n && Num(r) == 1
  {
    BitsOf(1, n)
  }

  /** The flags register, and the operations of the source that set it. */
  class Flags {
    var flg: seq<bool>

    ghost predicate Valid()
      reads this
    {
      |flg| == 32
    }

    constructor ()
      ensures Valid()
    {
      flg := seq(32, _ => false);
    }

    /** CONDITIONAL_SET_FLAG */
    method Set(cond: bool, f: nat)
      requires Valid() && f < 32
      modifies this
      ensures Valid() && flg == old(flg)[f := cond]
    {
      flg := flg[f := cond];
    }

    /** The flags set the same way by every operation. */
    method SetResult(r: Word)
      requires Valid() && |r| >= 8
      modifies this
      ensures Valid() && flg == old(flg)[ZF := (forall i :: 0 <= i < |r| ==> !r[i])][SF := r[|r| - 1]][PF := Parity(r[..8])]
    {
      Set(forall i :: 0 <= i < |r| ==> !r[i], ZF);
      Set(r[|r| - 1], SF);
      Set(Parity(r[..8]), PF);
    }

    /** OF and AF, from a chain. */
    method SetChain(cc: Word)
      requires Valid() && |cc| >= 8
      modifies this
      ensures Valid() && flg == old(flg)[OF := cc[|cc| - 2] != cc[|cc| - 1]][AF := cc[3]]
    {
      Set(cc[|cc| - 2] != cc[|cc| - 1], OF);
      Set(cc[3], AF);
    }

    ghost predicate OnlyArithmetic(was: seq<bool>)
      requires Valid() && |was| == 32
      reads this
    {
      forall f :: 0 <= f < 32 && !Arithmetic(f) ==> flg[f] == was[f]
    }

    /** adc_byte and adc_word */
    method Adc(d: Word, s: Word) returns (r: Word)
      requires Valid() && |d| == |s| >= 8
      modifies this
      ensures Valid() && OnlyArithmetic(old(flg))
      ensures r == Sum(d, s, old(flg)[CF])[..|d|] && AddFlags(flg, d, s, old(flg)[CF])
      ensures flg[CF] == Sum(d, s, old(flg)[CF])[|d|]
    {
      hide Num, Sum, CarryChain, Parity;
      var c, n := flg[CF], |d|;
      var res := Sum(d, s, c);
      r := res[..n];
      Set(res[n], CF);
      SetResult(r);
      SetChain(CarryChain(s, d, r));
      AddShows(flg, d, s, c);
      CarryOut(d, s, c);
    }

    /** add_byte and add_word */
    method Add(d: Word, s: Word) returns (r: Word)
      requires Valid() && |d| == |s| >= 8
      modifies this
      ensures Valid() && OnlyArithmetic(old(flg))
      ensures r == Sum(d, s, false)[..|d|] && AddFlags(flg, d, s, false)
      ensures flg[CF] == Sum(d, s, false)[|d|]
    {
      hide Num, Sum, CarryChain, Parity;
      var n := |d|;
      var res := Sum(d, s, false);
      r := res[..n];
      Set(res[n], CF);
      SetResult(r);
      SetChain(CarryChain(s, d, r));
      AddShows(flg, d, s, false);
      CarryOut(d, s, false);
    }

    /** inc_byte and inc_word; `grouped` is the byte version's chain. CF stays. */
    method Inc(d: Word, grouped: bool) returns (r: Word)
      requires Valid() && |d| >= 8
      modifies this
      ensures Valid() && OnlyArithmetic(old(flg)) && flg[CF] == old(flg)[CF]
      ensures r == Sum(d, One(|d|), false)[..|d|] && AddRest(flg, d, One(|d|), false)
    {
      hide Num, Sum, CarryChain, IncChain, Parity;
      var one := One(|d|);
      r := Sum(d, one, false)[..|d|];
      SetResult(r);
      IncChains(one, d, r, grouped);
      SetChain(IncChain(one, d, r, grouped));
      AddShows(flg, d, one, false);
    }

    /** sbb_byte and sbb_word */
    method Sbb(d: Word, s: Word) returns (r: Word)
      requires Valid() && |d| == |s| >= 8
      modifies this
      ensures Valid() && OnlyArithmetic(old(flg))
      ensures r == Diff(d, s, old(flg)[CF]) && SubFlags(flg, d, s, old(flg)[CF])
    {
      hide Num, Diff, BorrowChain, Parity;
      var c := flg[CF];
      r := Diff(d, s, c);
      var bc := BorrowChain(s, d, r);
      SetResult(r);
      Set(bc[|bc| - 1], CF);
      SetChain(bc);
      SubShows(flg, d, s, c);
      CarryOut(d, s, c);
    }

    /** sub_byte and sub_word; cmp_byte and cmp_word do the same and return d. */
    method Sub(d: Word, s: Word) returns (r: Word)
      requires Valid() && |d| == |s| >= 8
      modifies this
      ensures Valid() && OnlyArithmetic(old(flg))
      ensures r == Diff(d, s, false) && SubFlags(flg, d, s, false)
    {
      hide Num, Diff, BorrowChain, Parity;
      r := Diff(d, s, false);
      var bc := BorrowChain(s, d, r);
      SetResult(r);
      Set(bc[|bc| - 1], CF);
      SetChain(bc);
      SubShows(flg, d, s, false);
      CarryOut(d, s, false);
    }

    method Cmp(d: Word, s: Word) returns (r: Word)
      requires Valid() && |d| == |s| >= 8
      modifies this
      ensures Valid() && OnlyArithmetic(old(flg))
      ensures r == d && SubFlags(flg, d, s, false)
    {
      var _ := Sub(d, s);
      r := d;
    }

    /** dec_byte and dec_word. CF stays. */
    method Dec(d: Word) returns (r: Word)
      requires Valid() && |d| >= 8
      modifies this
      ensures Valid() && OnlyArithmetic(old(flg)) && flg[CF] == old(flg)[CF]
      ensures r == Diff(d, One(|d|), false) && SubRest(flg, d, One(|d|), false)
    {
      hide Num, Diff, BorrowChain, Parity;
      var one := One(|d|);
      r := Diff(d, one, false);
      SetResult(r);
      SetChain(BorrowChain(one, d, r));
      SubShows(flg, d, one, false);
    }
  }

  /*-- CMP and the conditional jumps ------------------------------------------*/

  datatype Cond = B | NB | Z | NZ | BE | NBE | L | NL | LE | NLE

  /** The tests of jump_near_B and so on. */
  predicate Taken(flags: seq<bool>, c: Cond)
    requires |flags| == 32
  {
    match c
    case B => flags[CF]
    case NB => !flags[CF]
    case Z => flags[ZF]
    case NZ => !flags[ZF]
    case BE => flags[CF] || flags[ZF]
    case NBE => !(flags[CF] || flags[ZF])
    case L => flags[SF] != flags[OF]
    case NL => flags[SF] == flags[OF]
    case LE => flags[SF] != flags[OF] || flags[ZF]
    case NLE => flags[SF] == flags[OF] && !flags[ZF]
  }

  /** After CMP d,s a conditional jump is taken exactly when d and s compare as its name says. */
  lemma CmpThenJump(flags: seq<bool>, d: Word, s: Word, c: Cond)
    requires |flags| == 32 && |d| == |s| >= 8 && SubFlags(flags, d, s, false)
    ensures Taken(flags, c) <==>
              match c
              case B => Num(d) < Num(s)
              case NB => Num(d) >= Num(s)
              case Z => d == s
              case NZ => d != s
              case BE => Num(d) <= Num(s)
              case NBE => Num(d) > Num(s)
              case L => Signed(d) < Signed(s)
              case NL => Signed(d) >= Signed(s)
              case LE => Signed(d) <= Signed(s)
              case NLE => Signed(d) > Signed(s)
  {
    hide Num, Diff, Parity;
    var n := |d| - 1;
    var r := Diff(d, s, false);
    NumBound(d);
    NumBound(s);
    SignBit(d);
    SignBit(s);
    SignBit(r);
    NumBound(d[..n]);
    NumBound(s[..n]);
    NumBound(r[..n]);
    if Num(d) == Num(s) {
      NumInjective(d, s);
    }
  }

  /*-- Numbers of several words -----------------------------------------------*/

  function Flatten(ws: seq<Word>): Word {
    if ws == [] then [] else ws[0] + Flatten(ws[1..])
  }

  predicate SameShape(xs: seq<Word>, ys: seq<Word>) {
    |xs| == |ys| && forall i :: 0 <= i < |xs| ==> |xs[i]| == |ys[i]|
  }

  /** ADC from the lowest word up, each with the carry of the one below: ADD is ADC with c false. */
  function AddList(xs: seq<Word>, ys: seq<Word>, c: bool): (r: (seq<Word>, bool))
    requires SameShape(xs, ys)
    ensures SameShape(r.0, xs)
  {
    if xs == [] then ([], c)
    else
      var n, w := |xs[0]|, Sum(xs[0], ys[0], c);
      var t := AddList(xs[1..], ys[1..], w[n]);
      ([w[..n]] + t.0, t.1)
  }

  /** SBB from the lowest word up. */
  function SubList(xs: seq<Word>, ys: seq<Word>, c: bool): (r: (seq<Word>, bool))
    requires SameShape(xs, ys)
    ensures SameShape(r.0, xs)
  {
    if xs == [] then ([], c)
    else
      var t := SubList(xs[1..], ys[1..], Num(xs[0]) < Num(ys[0]) + Bit(c));
      ([Diff(xs[0], ys[0], c)] + t.0, t.1)
  }

  lemma FlattenSame(xs: seq<Word>, ys: seq<Word>)
    requires SameShape(xs, ys)
    ensures |Flatten(xs)| == |Flatten(ys)|
    decreases |xs|
  {
    if xs != [] {
      FlattenSame(xs[1..], ys[1..]);
    }
  }

  lemma WeightNext(b: bool, k: nat)
    ensures Weight(b, k + 1) == 2 * Weight(b, k)
  {
  }

  lemma {:induction false} ListStep(n: nat, m: nat, x: nat, y: nat, k: bool, t: nat, out: bool)
    requires t + Weight(out, m) == x + y + Bit(k)
    ensures Shl(t, n) + Weight(out, n + m) == Shl(x, n) + Shl(y, n) + Weight(k, n)
  {
    if n > 0 {
      ListStep(n - 1, m, x, y, k, t, out);
      WeightNext(out, n - 1 + m);
      WeightNext(k, n - 1);
      hide Weight;
    }
  }

  lemma ListStepLess(n: nat, m: nat, x: nat, y: nat, k: bool, t: nat, out: bool)
    requires t - Weight(out, m) == x - y - Bit(k)
    ensures Shl(t, n) - Weight(out, n + m) == Shl(x, n) - Shl(y, n) - Weight(k, n)
  {
    ListStep(n, m, t, y, k, x, out);
  }

  lemma SumParts(a: Word, x: bool)
    ensures Num(a + [x]) == Num(a) + Weight(x, |a|)
  {
    NumSnoc(a, x);
  }

  /** The result is the sum of the two long numbers, with CF as its carry. */
  lemma {:induction false} AddListSums(xs: seq<Word>, ys: seq<Word>, c: bool)
    requires SameShape(xs, ys)
    ensures var r := AddList(xs, ys, c);
            Num(Flatten(r.0)) + Weight(r.1, |Flatten(xs)|) == Num(Flatten(xs)) + Num(Flatten(ys)) + Bit(c)
    decreases |xs|
  {
    if xs != [] {
      var n, w := |xs[0]|, Sum(xs[0], ys[0], c);
      var x, y := Flatten(xs[1..]), Flatten(ys[1..]);
      var t := AddList(xs[1..], ys[1..], w[n]);
      AddListSums(xs[1..], ys[1..], w[n]);
      var r := AddList(xs, ys, c);
      assert r.0[0] == w[..n] && r.0[1..] == t.0 && r.1 == t.1;
      assert Flatten(r.0) == w[..n] + Flatten(t.0) && Flatten(xs) == xs[0] + x && Flatten(ys) == ys[0] + y;
      hide Num, Sum, AddList, Flatten, Weight;
      NumConcat(xs[0], x);
      NumConcat(ys[0], y);
      NumConcat(w[..n], Flatten(t.0));
      assert w == w[..n] + [w[n]];
      SumParts(w[..n], w[n]);
      FlattenSame(xs[1..], ys[1..]);
      FlattenSame(t.0, xs[1..]);
      ListStep(n, |x|, Num(x), Num(y), w[n], Num(Flatten(t.0)), t.1);
    }
  }

  /** The result is the difference, with CF as its borrow. */
  lemma {:induction false} SubListSubtracts(xs: seq<Word>, ys: seq<Word>, c: bool)
    requires SameShape(xs, ys)
    ensures var r := SubList(xs, ys, c);
            Num(Flatten(r.0)) - Weight(r.1, |Flatten(xs)|) == Num(Flatten(xs)) - Num(Flatten(ys)) - Bit(c)
    decreases |xs|
  {
    if xs != [] {
      var n, w, k := |xs[0]|, Diff(xs[0], ys[0], c), Num(xs[0]) < Num(ys[0]) + Bit(c);
      var x, y := Flatten(xs[1..]), Flatten(ys[1..]);
      var t := SubList(xs[1..], ys[1..], k);
      SubListSubtracts(xs[1..], ys[1..], k);
      var r := SubList(xs, ys, c);
      assert r.0[0] == w && r.0[1..] == t.0 && r.1 == t.1;
      assert Flatten(r.0) == w + Flatten(t.0) && Flatten(xs) == xs[0] + x && Flatten(ys) == ys[0] + y;
      hide Num, Diff, SubList, Flatten;
      NumConcat(xs[0], x);
      NumConcat(ys[0], y);
      NumConcat(w, Flatten(t.0));
      FlattenSame(xs[1..], ys[1..]);
      FlattenSame(t.0, xs[1..]);
      ListStepLess(n, |x|, Num(x), Num(y), k, Num(Flatten(t.0)), t.1);
    }
  }

  /** Taking away what was added gives the word back, and borrows exactly when the addition carried. */
  lemma AddThenSub(a: Word, b: Word, c: bool)
    requires |a| == |b|
    ensures var n, w := |a|, Sum(a, b, c);
            Diff(w[..n], b, c) == a && (Num(w[..n]) < Num(b) + Bit(c) <==> w[n])
  {
    hide Num, Sum, Diff, Pow2;
    var n, w := |a|, Sum(a, b, c);
    var r := w[..n];
    assert w == r + [w[n]];
    NumSnoc(r, w[n]);
    NumBound(a);
    NumBound(r);
    NumInjective(Diff(r, b, c), a);
  }

  /** The same for numbers of any number of words. */
  lemma {:induction false} AddThenSubList(xs: seq<Word>, ys: seq<Word>, c: bool)
    requires SameShape(xs, ys)
    ensures SubList(AddList(xs, ys, c).0, ys, c) == (xs, AddList(xs, ys, c).1)
    decreases |xs|
  {
    if xs != [] {
      var n, w := |xs[0]|, Sum(xs[0], ys[0], c);
      AddThenSub(xs[0], ys[0], c);
      AddThenSubList(xs[1..], ys[1..], w[n]);
      var r := AddList(xs, ys, c).0;
      assert r[1..] == AddList(xs[1..], ys[1..], w[n]).0;
      var q := SubList(r, ys, c);
      assert q.0 == [xs[0]] + xs[1..] == xs;
      assert q.1 == AddList(xs, ys, c).1;
    }
  }

  /*-- The instruction sequences ----------------------------------------------*/

  lemma AddListOne(xs: seq<Word>, ys: seq<Word>, c: bool)
    requires SameShape(xs, ys) && |xs| == 1
    ensures var w, n := Sum(xs[0], ys[0], c), |xs[0]|; AddList(xs, ys, c) == ([w[..n]], w[n])
  {
    hide Sum, Num;
    assert xs[1..] == [] && ys[1..] == [];
    var w, n := Sum(xs[0], ys[0], c), |xs[0]|;
    var t := AddList(xs[1..], ys[1..], w[n]);
    assert t.0 == [] && t.1 == w[n];
    assert [w[..n]] + t.0 == [w[..n]];
  }

  lemma SubListOne(xs: seq<Word>, ys: seq<Word>, c: bool)
    requires SameShape(xs, ys) && |xs| == 1
    ensures SubList(xs, ys, c) == ([Diff(xs[0], ys[0], c)], Num(xs[0]) < Num(ys[0]) + Bit(c))
  {
    hide Diff, Num;
    assert xs[1..] == [] && ys[1..] == [];
    var k := Num(xs[0]) < Num(ys[0]) + Bit(c);
    var t := SubList(xs[1..], ys[1..], k);
    assert t.0 == [] && t.1 == k;
    assert [Diff(xs[0], ys[0], c)] + t.0 == [Diff(xs[0], ys[0], c)];
  }

  /** One more word on top. */
  lemma {:induction false} AddListSnoc(xs: seq<Word>, ys: seq<Word>, c: bool, x: Word, y: Word)
    requires SameShape(xs, ys) && |xs| > 0 && |x| == |y|
    ensures SameShape(xs + [x], ys + [y])
    ensures var t := AddList(xs, ys, c);
            AddList(xs + [x], ys + [y], c) == (t.0 + [Sum(x, y, t.1)[..|x|]], Sum(x, y, t.1)[|x|])
    decreases |xs|
  {
    hide Sum, Num;
    var us, vs, w := xs + [x], ys + [y], Sum(xs[0], ys[0], c);
    var k, low := w[|xs[0]|], w[..|xs[0]|];
    assert us[1..] == xs[1..] + [x] && vs[1..] == ys[1..] + [y];
    assert us[0] == xs[0] && vs[0] == ys[0];
    if |xs| == 1 {
      assert us[1..] == [x] && vs[1..] == [y] && xs == [xs[0]] && ys == [ys[0]];
      AddListOne(xs, ys, c);
      AddListOne(us[1..], vs[1..], k);
    } else {
      AddListSnoc(xs[1..], ys[1..], k, x, y);
      var t := AddList(xs[1..], ys[1..], k);
      assert [low] + (t.0 + [Sum(x, y, t.1)[..|x|]]) == ([low] + t.0) + [Sum(x, y, t.1)[..|x|]];
    }
  }

  lemma {:induction false} SubListSnoc(xs: seq<Word>, ys: seq<Word>, c: bool, x: Word, y: Word)
    requires SameShape(xs, ys) && |xs| > 0 && |x| == |y|
    ensures SameShape(xs + [x], ys + [y])
    ensures var t := SubList(xs, ys, c);
            SubList(xs + [x], ys + [y], c) == (t.0 + [Diff(x, y, t.1)], Num(x) < Num(y) + Bit(t.1))
    decreases |xs|
  {
    hide Diff, Num;
    var us, vs, k := xs + [x], ys + [y], Num(xs[0]) < Num(ys[0]) + Bit(c);
    assert us[1..] == xs[1..] + [x] && vs[1..] == ys[1..] + [y];
    assert us[0] == xs[0] && vs[0] == ys[0];
    if |xs| == 1 {
      assert us[1..] == [x] && vs[1..] == [y] && xs == [xs[0]] && ys == [ys[0]];
      SubListOne(xs, ys, c);
      SubListOne(us[1..], vs[1..], k);
    } else {
      SubListSnoc(xs[1..], ys[1..], k, x, y);
      var t := SubList(xs[1..], ys[1..], k);
      assert [Diff(xs[0], ys[0], c)] + (t.0 + [Diff(x, y, t.1)]) == ([Diff(xs[0], ys[0], c)] + t.0) + [Diff(x, y, t.1)];
    }
  }

  /** Operands of operations: not empty, each word at least a byte, of equal widths. */
  predicate Operands(xs: seq<Word>, ys: seq<Word>) {
    |xs| > 0 && SameShape(xs, ys) && forall i :: 0 <= i < |xs| ==> |xs[i]| >= 8
  }

  /** The lowest i words have been done, with rs and the flag k. */
  ghost predicate Added(xs: seq<Word>, ys: seq<Word>, i: nat, rs: seq<Word>, k: bool)
    requires Operands(xs, ys) && i <= |xs|
  {
    SameShape(xs[..i], ys[..i]) && (rs, k) == AddList(xs[..i], ys[..i], false)
  }

  lemma AddFirst(xs: seq<Word>, ys: seq<Word>)
    requires Operands(xs, ys)
    ensures Added(xs, ys, 1, [Sum(xs[0], ys[0], false)[..|xs[0]|]], Sum(xs[0], ys[0], false)[|xs[0]|])
  {
    AddListOne(xs[..1], ys[..1], false);
  }

  lemma AddNext(xs: seq<Word>, ys: seq<Word>, i: nat, rs: seq<Word>, k: bool)
    requires Operands(xs, ys) && 1 <= i < |xs| && Added(xs, ys, i, rs, k)
    ensures Added(xs, ys, i + 1, rs + [Sum(xs[i], ys[i], k)[..|xs[i]|]], Sum(xs[i], ys[i], k)[|xs[i]|])
  {
    AddListSnoc(xs[..i], ys[..i], false, xs[i], ys[i]);
    assert xs[..i] + [xs[i]] == xs[..i + 1] && ys[..i] + [ys[i]] == ys[..i + 1];
  }

  lemma AddLast(xs: seq<Word>, ys: seq<Word>, rs: seq<Word>, k: bool)
    requires Operands(xs, ys) && Added(xs, ys, |xs|, rs, k)
    ensures SameShape(rs, xs) && (rs, k) == AddList(xs, ys, false)
    ensures Num(Flatten(rs)) + Weight(k, |Flatten(xs)|) == Num(Flatten(xs)) + Num(Flatten(ys))
  {
    assert xs[..|xs|] == xs && ys[..|ys|] == ys;
    AddListSums(xs, ys, false);
  }

  /** ADD on the lowest words, then INC of a pointer and ADC on the next ones, up to the last. Nothing
      but CF leads from one word to the next. */
  method AddWords(f: Flags, xs: seq<Word>, ys: seq<Word>, pointer: Word) returns (rs: seq<Word>)
    requires f.Valid() && Operands(xs, ys) && |pointer| >= 8
    modifies f
    ensures f.Valid() && SameShape(rs, xs) && (rs, f.flg[CF]) == AddList(xs, ys, false)
    ensures Num(Flatten(rs)) + Weight(f.flg[CF], |Flatten(xs)|) == Num(Flatten(xs)) + Num(Flatten(ys))
  {
    hide Added, Num, Sum, AddRest, AddList, Flatten, Weight;
    var r := f.Add(xs[0], ys[0]);
    rs := [r];
    AddFirst(xs, ys);
    var i, p := 1, pointer;
    while i < |xs|
      invariant 1 <= i <= |xs| && f.Valid() && |p| >= 8
      invariant Added(xs, ys, i, rs, f.flg[CF])
    {
      p := f.Inc(p, false);
      AddNext(xs, ys, i, rs, f.flg[CF]);
      r := f.Adc(xs[i], ys[i]);
      rs := rs + [r];
      i := i + 1;
    }
    AddLast(xs, ys, rs, f.flg[CF]);
  }

  /** The lowest i words have been done, with rs and the flag k. */
  ghost predicate Subbed(xs: seq<Word>, ys: seq<Word>, i: nat, rs: seq<Word>, k: bool)
    requires Operands(xs, ys) && i <= |xs|
  {
    SameShape(xs[..i], ys[..i]) && (rs, k) == SubList(xs[..i], ys[..i], false)
  }

  lemma SubFirst(xs: seq<Word>, ys: seq<Word>)
    requires Operands(xs, ys)
    ensures Subbed(xs, ys, 1, [Diff(xs[0], ys[0], false)], Num(xs[0]) < Num(ys[0]) + Bit(false))
  {
    SubListOne(xs[..1], ys[..1], false);
  }

  lemma SubNext(xs: seq<Word>, ys: seq<Word>, i: nat, rs: seq<Word>, k: bool)
    requires Operands(xs, ys) && 1 <= i < |xs| && Subbed(xs, ys, i, rs, k)
    ensures Subbed(xs, ys, i + 1, rs + [Diff(xs[i], ys[i], k)], Num(xs[i]) < Num(ys[i]) + Bit(k))
  {
    SubListSnoc(xs[..i], ys[..i], false, xs[i], ys[i]);
    assert xs[..i] + [xs[i]] == xs[..i + 1] && ys[..i] + [ys[i]] == ys[..i + 1];
  }

  lemma SubLast(xs: seq<Word>, ys: seq<Word>, rs: seq<Word>, k: bool)
    requires Operands(xs, ys) && Subbed(xs, ys, |xs|, rs, k)
    ensures SameShape(rs, xs) && (rs, k) == SubList(xs, ys, false)
    ensures Num(Flatten(rs)) - Weight(k, |Flatten(xs)|) == Num(Flatten(xs)) - Num(Flatten(ys))
  {
    assert xs[..|xs|] == xs && ys[..|ys|] == ys;
    SubListSubtracts(xs, ys, false);
  }

  /** SUB, then INC and SBB. */
  method SubWords(f: Flags, xs: seq<Word>, ys: seq<Word>, pointer: Word) returns (rs: seq<Word>)
    requires f.Valid() && Operands(xs, ys) && |pointer| >= 8
    modifies f
    ensures f.Valid() && SameShape(rs, xs) && (rs, f.flg[CF]) == SubList(xs, ys, false)
    ensures Num(Flatten(rs)) - Weight(f.flg[CF], |Flatten(xs)|) == Num(Flatten(xs)) - Num(Flatten(ys))
  {
    hide Subbed, Num, Diff, SubRest, SubList, Flatten, Weight;
    var r := f.Sub(xs[0], ys[0]);
    rs := [r];
    SubFirst(xs, ys);
    var i, p := 1, pointer;
    while i < |xs|
      invariant 1 <= i <= |xs| && f.Valid() && |p| >= 8
      invariant Subbed(xs, ys, i, rs, f.flg[CF])
    {
      p := f.Inc(p, false);
      SubNext(xs, ys, i, rs, f.flg[CF]);
      r := f.Sbb(xs[i], ys[i]);
      rs := rs + [r];
      i := i + 1;
    }
    SubLast(xs, ys, rs, f.flg[CF]);
  }

  /** Subtracting what was added gives the words back, CF included. */
  method AddSubWords(f: Flags, xs: seq<Word>, ys: seq<Word>, pointer: Word) returns (rs: seq<Word>, carried: bool)
    requires f.Valid() && Operands(xs, ys) && |pointer| >= 8
    modifies f
    ensures f.Valid() && rs == xs && f.flg[CF] == carried
    ensures carried <==> Num(Flatten(xs)) + Num(Flatten(ys)) >= Pow2(|Flatten(xs)|)
  {
    hide Num, AddList, SubList, Flatten;
    AddThenSubList(xs, ys, false);
    rs := AddWords(f, xs, ys, pointer);
    carried := f.flg[CF];
    FlattenSame(rs, xs);
    NumBound(Flatten(rs));
    rs := SubWords(f, rs, ys, pointer);
  }
}
