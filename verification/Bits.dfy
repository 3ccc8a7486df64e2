/** Bit strings, the two numbers they spell, and the C shift operations on unsigned values.

    A bit string is in stream order: element 0 is the first bit taken from the input.
    `Num` reads it least significant bit first (the way DEFLATE packs ordinary fields and the
    way the decoder's bit buffer holds it); `Val` reads it most significant bit first (the way
    DEFLATE packs Huffman codes). A Huffman code kept "bit reversed" in a machine word is
    therefore `Num` of the string whose `Val` is the canonical code. */
module Bits {

  /** x << k */
  function Shl(x: nat, k: nat): nat {
    if k == 0 then x else 2 * Shl(x, k - 1)
  }

  /** x >> k */
  function Shr(x: nat, k: nat): nat
    decreases k
  {
    if k == 0 then x else Shr(x / 2, k - 1)
  }

  /** x & mask_bits[k], i.e. x & ((1 << k) - 1) */
  function Low(x: nat, k: nat): nat
    decreases k
  {
    if k == 0 then 0 else x % 2 + 2 * Low(x / 2, k - 1)
  }

  lemma ShlFour(x: nat)
    ensures Shl(x, 4) == 16 * x
  {
    assert Shl(x, 1) == 2 * x;
    assert Shl(x, 2) == 2 * Shl(x, 1);
    assert Shl(x, 3) == 2 * Shl(x, 2);
  }

  /** 1 << k */
  function Pow2(k: nat): (p: nat)
    ensures p >= 1
  {
    if k == 0 then 1 else 2 * Pow2(k - 1)
  }

  function Bit(b: bool): (n: nat)
    ensures n <= 1
  {
    if b then 1 else 0
  }

  function Num(s: seq<bool>): nat {
    if s == [] then 0 else Bit(s[0]) + 2 * Num(s[1..])
  }

  function Val(s: seq<bool>): nat {
    if s == [] then 0 else 2 * Val(s[..|s| - 1]) + Bit(s[|s| - 1])
  }

  /** The n-bit string, least significant bit first, that spells x. */
  function BitsOf(x: nat, n: nat): (s: seq<bool>)
    requires x < Pow2(n)
    ensures |s| == n && Num(s) == x
  {
    if n == 0 then [] else
      var s := [x % 2 == 1] + BitsOf(x / 2, n - 1);
      assert s[1..] == BitsOf(x / 2, n - 1);
      s
  }

  /*-- Shifts ----------------------------------------------------------------*/

  /** A value is its kept low bits plus its shifted-down part shifted back. */
  lemma {:induction false} ShrShl(x: nat, k: nat)
    ensures x == Low(x, k) + Shl(Shr(x, k), k)
    ensures Low(x, k) < Pow2(k)
    decreases k
  {
    if k != 0 {
      ShrShl(x / 2, k - 1);
    }
  }

  lemma {:induction false} ShlAdd(x: nat, y: nat, k: nat)
    ensures Shl(x + y, k) == Shl(x, k) + Shl(y, k)
  {
    if k != 0 {
      ShlAdd(x, y, k - 1);
    }
  }

  lemma {:induction false} ShlMono(x: nat, y: nat, k: nat)
    requires x <= y
    ensures Shl(x, k) <= Shl(y, k)
  {
    if k != 0 {
      ShlMono(x, y, k - 1);
    }
  }

  lemma {:induction false} ShlShl(x: nat, j: nat, k: nat)
    ensures Shl(Shl(x, j), k) == Shl(x, j + k)
  {
    if k != 0 {
      ShlShl(x, j, k - 1);
    }
  }

  lemma {:induction false} ShlOne(k: nat)
    ensures Shl(1, k) == Pow2(k) && Shl(0, k) == 0
  {
    if k != 0 {
      ShlOne(k - 1);
    }
  }

  lemma {:induction false} ShlCancel(x: nat, y: nat, k: nat)
    requires Shl(x, k) == Shl(y, k)
    ensures x == y
  {
    if k != 0 {
      ShlCancel(x, y, k - 1);
    }
  }

  /** f <= v < f + c, all scaled by 2^k. */
  lemma ShlWithin(f: nat, v: nat, g: nat, k: nat)
    requires f <= v < g
    ensures Shl(f, k) <= Shl(v, k) && Shl(v, k) + Pow2(k) <= Shl(g, k)
  {
    ShlMono(f, v, k);
    ShlMono(v + 1, g, k);
    ShlAdd(v, 1, k);
    ShlOne(k);
  }

  lemma {:induction false} Pow2Mono(a: nat, b: nat)
    requires a <= b
    ensures Pow2(a) <= Pow2(b)
    ensures a < b ==> 2 * Pow2(a) <= Pow2(b)
    decreases b
  {
    if a < b {
      Pow2Mono(a, b - 1);
    }
  }

  lemma Pow2To16()
    ensures Pow2(0) == 1 && Pow2(1) == 2 && Pow2(2) == 4 && Pow2(3) == 8 && Pow2(4) == 16
    ensures Pow2(5) == 32 && Pow2(6) == 64 && Pow2(7) == 128 && Pow2(8) == 256
    ensures Pow2(9) == 512 && Pow2(10) == 1024 && Pow2(11) == 2048 && Pow2(12) == 4096
    ensures Pow2(13) == 8192 && Pow2(14) == 16384 && Pow2(15) == 32768 && Pow2(16) == 65536
  {
    assert Pow2(4) == 16;
    assert Pow2(8) == 256;
    assert Pow2(12) == 4096;
  }

  /*-- Num -------------------------------------------------------------------*/

  lemma {:induction false} NumBound(s: seq<bool>)
    ensures Num(s) < Pow2(|s|)
  {
    if s != [] {
      NumBound(s[1..]);
    }
  }

  lemma {:induction false} NumConcat(a: seq<bool>, b: seq<bool>)
    ensures Num(a + b) == Num(a) + Shl(Num(b), |a|)
  {
    if a == [] {
      assert a + b == b;
    } else {
      assert (a + b)[1..] == a[1..] + b;
      NumConcat(a[1..], b);
    }
  }

  /** Shifting right drops the first bits of a string, masking keeps them. */
  lemma {:induction false} NumSplit(s: seq<bool>, m: nat)
    requires m <= |s|
    ensures Low(Num(s), m) == Num(s[..m])
    ensures Shr(Num(s), m) == Num(s[m..])
    decreases m
  {
    if m != 0 {
      assert Num(s) / 2 == Num(s[1..]) && Num(s) % 2 == Bit(s[0]);
      NumSplit(s[1..], m - 1);
      assert s[..m][1..] == s[1..][..m - 1];
      assert s[m..] == s[1..][m - 1..];
    } else {
      assert s[0..] == s;
    }
  }

  lemma {:induction false} NumInjective(a: seq<bool>, b: seq<bool>)
    requires |a| == |b| && Num(a) == Num(b)
    ensures a == b
  {
    if a != [] {
      NumInjective(a[1..], b[1..]);
      assert a == [a[0]] + a[1..];
      assert b == [b[0]] + b[1..];
    }
  }

  lemma NumSnoc(a: seq<bool>, x: bool)
    ensures Num(a + [x]) == Num(a) + (if x then Pow2(|a|) else 0)
  {
    NumConcat(a, [x]);
    assert Num([x]) == Bit(x);
    ShlOne(|a|);
  }

  /*-- Val -------------------------------------------------------------------*/

  lemma {:induction false} ValBound(s: seq<bool>)
    ensures Val(s) < Pow2(|s|)
  {
    if s != [] {
      ValBound(s[..|s| - 1]);
    }
  }

  lemma {:induction false} ValConcat(a: seq<bool>, b: seq<bool>)
    ensures Val(a + b) == Shl(Val(a), |b|) + Val(b)
  {
    if b == [] {
      assert a + b == a;
    } else {
      var n := |b| - 1;
      assert (a + b)[..|a + b| - 1] == a + b[..n];
      ValConcat(a, b[..n]);
    }
  }

  lemma {:induction false} ValInjective(a: seq<bool>, b: seq<bool>)
    requires |a| == |b| && Val(a) == Val(b)
    ensures a == b
  {
    if a != [] {
      var n := |a| - 1;
      ValInjective(a[..n], b[..n]);
      assert a == a[..n] + [a[n]];
      assert b == b[..n] + [b[n]];
    }
  }

  /** Only the all-zero string is worth 0, and it is worth 0 read either way. */
  lemma {:induction false} ValZero(s: seq<bool>)
    requires Val(s) == 0
    ensures Num(s) == 0
  {
    if s != [] {
      var n := |s| - 1;
      ValZero(s[..n]);
      assert s == s[..n] + [false];
      NumConcat(s[..n], [false]);
      ShlOne(n);
    }
  }

  /** The next code of the same length; all ones wraps to all zeros. */
  function Inc(s: seq<bool>): (t: seq<bool>)
    ensures |t| == |s|
  {
    if s == [] then []
    else if s[|s| - 1] then Inc(s[..|s| - 1]) + [false]
    else s[..|s| - 1] + [true]
  }

  lemma {:induction false} IncVal(s: seq<bool>)
    ensures Val(Inc(s)) == if Val(s) + 1 == Pow2(|s|) then 0 else Val(s) + 1
  {
    if s != [] {
      var n := |s| - 1;
      IncVal(s[..n]);
      ValBound(s[..n]);
      assert Inc(s)[..n] == if s[n] then Inc(s[..n]) else s[..n];
    }
  }

  /*-- Positions: code strings as intervals of [0, 65536) --------------------*/

  const TOP: nat := 65536

  /** How many 16-bit strings start with s. */
  function Span(s: seq<bool>): (p: nat)
    requires |s| <= 16
    ensures p >= 1
  {
    Pow2(16 - |s|)
  }

  /** The first 16-bit value (most significant bit first) that starts with s. */
  function Lo(s: seq<bool>): nat
    requires |s| <= 16
  {
    Shl(Val(s), 16 - |s|)
  }

  lemma LoTop(s: seq<bool>)
    requires |s| <= 16
    ensures Lo(s) + Span(s) <= TOP
  {
    ValBound(s);
    ShlWithin(0, Val(s), Pow2(|s|), 16 - |s|);
    ShlOne(|s|);
    ShlShl(1, |s|, 16 - |s|);
    ShlOne(16);
    Pow2To16();
  }

  /** Scaling commutes with appending: v followed by n more bits worth u, then k more bits. */
  lemma ShlAppend(v: nat, u: nat, n: nat, k: nat)
    requires u < Pow2(n)
    ensures Shl(Shl(v, n) + u, k) == Shl(v, n + k) + Shl(u, k)
    ensures Shl(u, k) + Pow2(k) <= Pow2(n + k)
  {
    ShlAdd(Shl(v, n), u, k);
    ShlShl(v, n, k);
    ShlWithin(0, u, Pow2(n), k);
    ShlOne(n);
    ShlShl(1, n, k);
    ShlOne(n + k);
  }

  lemma LoExtend(s: seq<bool>, t: seq<bool>)
    requires |s + t| <= 16
    ensures Lo(s + t) == Lo(s) + Shl(Val(t), 16 - |s + t|)
    ensures Lo(s) <= Lo(s + t) && Lo(s + t) + Span(s + t) <= Lo(s) + Span(s)
  {
    var n, k := |t|, 16 - |s + t|;
    assert 16 - |s| == n + k;
    ValConcat(s, t);
    ValBound(t);
    ShlAppend(Val(s), Val(t), n, k);
  }

  /** Strings of one length are disjoint intervals in order. */
  lemma LoApart(s: seq<bool>, t: seq<bool>)
    requires |s| == |t| <= 16 && s != t
    ensures Lo(s) + Span(s) <= Lo(t) || Lo(t) + Span(t) <= Lo(s)
  {
    if Val(s) == Val(t) {
      ValInjective(s, t);
    } else if Val(s) < Val(t) {
      ShlWithin(0, Val(s), Val(t), 16 - |s|);
    } else {
      ShlWithin(0, Val(t), Val(s), 16 - |s|);
    }
  }

  /** s is a prefix of t exactly when t's interval starts inside s's; otherwise they are apart. */
  lemma LoPrefix(s: seq<bool>, t: seq<bool>)
    requires |s| <= |t| <= 16
    ensures s <= t <==> Lo(s) <= Lo(t) < Lo(s) + Span(s)
    ensures s <= t ==> Lo(t) + Span(t) <= Lo(s) + Span(s)
    ensures !(s <= t) ==> Lo(t) + Span(t) <= Lo(s) || Lo(s) + Span(s) <= Lo(t)
  {
    var u := t[..|s|];
    assert t == u + t[|s|..];
    LoExtend(u, t[|s|..]);
    if s != u {
      LoApart(s, u);
    }
  }

  /** Appending zero bits changes neither the position nor the number. */
  lemma AppendZeros(s: seq<bool>, t: seq<bool>)
    requires |s + t| <= 16 && Val(t) == 0
    ensures Lo(s + t) == Lo(s) && Num(s + t) == Num(s)
  {
    LoExtend(s, t);
    ShlOne(16 - |s + t|);
    NumConcat(s, t);
    ValZero(t);
    ShlOne(|s|);
  }
}
