/** How `huft_build` chooses the size of the next table (zip/inflate.c:239-252). */
module HuftSizing {
  import opened Bits
  import opened Canonical
  import opened HuftCounts
  import opened HuftTables

  /** c[1..] after line 192: how many codes of each length are generated, the dummies that fill
      out an incomplete set counted with the longest. */
  ghost predicate Tally(b: seq<nat>, c: seq<nat>) {
    && |c| == BMAX + 1 && 1 <= MaxLen(b) <= BMAX
    && Kraft(b) <= TOP
    && forall t :: 1 <= t <= MaxLen(b) ==> TallyAt(b, c, t)
  }

  ghost predicate TallyAt(b: seq<nat>, c: seq<nat>, t: nat)
    requires 1 <= t < |c| == BMAX + 1
  {
    && Upto(b, t) == Upto(b, t - 1) + Shl(c[t], BMAX - t)
    && c[t] >= Count(b, t)
    && (t < MaxLen(b) || Kraft(b) == TOP ==> c[t] == Count(b, t))
  }

  lemma TallyMakes(b: seq<nat>, c: seq<nat>, y: nat)
    requires |c| == BMAX + 1 && ValidLens(b) && 1 <= MaxLen(b) <= BMAX
    requires Shl(y, BMAX - MaxLen(b)) + Kraft(b) == TOP
    requires forall t :: 1 <= t <= BMAX ==> c[t] == Count(b, t) + (if t == MaxLen(b) then y else 0)
    ensures Tally(b, c)
  {
    var g := MaxLen(b);
    FilledMax(b, BMAX);
    ShlAdd(Count(b, g), y, BMAX - g);
    if Kraft(b) == TOP {
      ShlOne(BMAX - g);
      ShlCancel(y, 0, BMAX - g);
    }
    forall t | 1 <= t <= g ensures TallyAt(b, c, t) {
    }
  }

  /** When a subtree w bits down starts where at least the first a + 1 codes of length k are still
      to come, and the set is complete, it holds at least 2^(k-w) codes. */
  lemma SubtreeCodes(b: seq<nat>, k: nat, w: nat, a: nat, P: nat)
    requires ValidLens(b) && Kraft(b) == TOP && w <= k <= MaxLen(b) <= BMAX && 1 <= k
    requires P + Shl(a + 1, BMAX - k) == Upto(b, k) && P >= Upto(b, k - 1)
    requires P + Pow2(BMAX - w) <= TOP
    ensures Pow2(k - w) <= NumCodes(b)
  {
    var e := BMAX - k;
    FilledMax(b, BMAX);
    LongCodes(b, k);
    var rest := NumCodes(b) - Offset(b, k + 1);
    assert Upto(b, k) == Filled(b, k);
    assert TOP <= Upto(b, k) + Shl(rest, e);
    ShlAdd(a + 1, rest, e);
    assert a + 1 <= Count(b, k) by {
      assert Upto(b, k - 1) == Filled(b, k - 1);
      if a + 1 > Count(b, k) {
        ShlWithin(0, Count(b, k), a + 1, e);
      }
    }
    assert a + 1 + rest <= NumCodes(b) by {
      assert Offset(b, k + 1) == Offset(b, k) + Count(b, k);
    }
    PowShift(k - w, e);
    ShlOrder(Pow2(k - w), a + 1 + rest, e);
  }

  lemma ShlOrder(x: nat, y: nat, e: nat)
    ensures Shl(x, e) <= Shl(y, e) ==> x <= y
  {
    if y < x {
      ShlWithin(0, y, x, e);
    }
  }

  lemma PowShift(j: nat, e: nat)
    ensures Shl(Pow2(j), e) == Pow2(j + e)
  {
    ShlOne(j);
    ShlShl(1, j, e);
    ShlOne(j + e);
  }

  /** What is left of a subtree that ends at Q after the codes of length xp: f patterns of that length. */
  ghost predicate CodesLeft(b: seq<nat>, xp: nat, f: nat, Q: nat) {
    xp <= BMAX && Shl(f, BMAX - xp) + Upto(b, xp) == Q
  }

  /** Line 243: patterns of the subtree left after the codes of length k. */
  lemma FirstDeduction(b: seq<nat>, k: nat, w: nat, a: nat, P: nat)
    requires 1 <= k <= MaxLen(b) <= BMAX && w < k
    requires P + Shl(a + 1, BMAX - k) == Upto(b, k)
    requires P + Pow2(BMAX - w) <= TOP
    ensures Pow2(k - w) > a + 1 ==>
              k < MaxLen(b) && CodesLeft(b, k, Pow2(k - w) - (a + 1), P + Pow2(BMAX - w))
    ensures Pow2(k - w) <= a + 1 ==> P + Pow2(BMAX - w) <= Upto(b, k)
  {
    var e := BMAX - k;
    PowShift(k - w, e);
    if Pow2(k - w) > a + 1 {
      ShlAdd(Pow2(k - w) - (a + 1), a + 1, e);
      ShlMono(1, Pow2(k - w) - (a + 1), e);
      ShlOne(e);
    } else {
      ShlMono(Pow2(k - w), a + 1, e);
    }
  }

  /** Lines 246-248: one length further; Q is where the subtree ends. */
  lemma NextDeduction(b: seq<nat>, c: seq<nat>, f: nat, xp: nat, Q: nat)
    requires Tally(b, c) && 1 <= xp < MaxLen(b) && CodesLeft(b, xp, f, Q)
    ensures 2 * f <= c[xp + 1] ==> Q <= Upto(b, xp + 1)
    ensures 2 * f > c[xp + 1] ==> CodesLeft(b, xp + 1, 2 * f - c[xp + 1], Q)
  {
    var e, n := BMAX - (xp + 1), c[xp + 1];
    assert TallyAt(b, c, xp + 1);
    ShlShl(f, 1, e);
    assert Shl(f, 1) == 2 * f;
    if 2 * f <= n {
      ShlMono(2 * f, n, e);
    } else {
      ShlAdd(2 * f - n, n, e);
    }
  }

  lemma WideEnough(b: seq<nat>, k: nat, w: nat, l: nat, a: nat, P: nat)
    requires ValidLens(b) && Kraft(b) <= TOP && w < k <= MaxLen(b) <= BMAX
    requires P + Shl(a + 1, BMAX - k) == Upto(b, k) && P >= Upto(b, k - 1)
    requires P + Pow2(BMAX - w) <= TOP
    ensures Kraft(b) == TOP && NumCodes(b) < Pow2(l) ==> k - w < l
  {
    if Kraft(b) == TOP && k - w >= l {
      SubtreeCodes(b, k, w, a, P);
      Pow2Mono(l, k - w);
    }
  }

  method TableBits(ghost b: seq<nat>, c: seq<nat>, k: nat, w: nat, l: nat, g: nat, a: nat, ghost P: nat)
    returns (j: nat)
    requires ValidLens(b) && Tally(b, c) && g == MaxLen(b) && l >= 1
    requires w < k <= g
    requires P + Shl(a + 1, BMAX - k) == Upto(b, k) && Upto(b, k - 1) <= P
    requires P + Pow2(BMAX - w) <= TOP
    ensures j >= k - w >= 1 && w + Min(j, l) <= g
    ensures Min(j, l) == l || P + Pow2(BMAX - w) <= Upto(b, w + j)
    ensures w >= l && g <= 2 * l ==> j <= l
    ensures Kraft(b) == TOP && NumCodes(b) < Pow2(l) ==> j <= l
  {
    j := k - w;
    var z := if g - w > l then l else g - w;
    var f: nat := Pow2(j);
    ghost var Q := P + Pow2(BMAX - w);
    assert |c| == BMAX + 1 && g <= BMAX;
    hide Shl, Kraft, NumCodes, Pow2, Upto, CodesLeft, ValidLens, MaxLen, Tally;
    FirstDeduction(b, k, w, a, P);
    WideEnough(b, k, w, l, a, P);
    if f > a + 1 {
      f := f - (a + 1);
      var xp := k;
      j := j + 1;
      while j < z
        invariant xp == w + j - 1 && k <= xp < g
        invariant CodesLeft(b, xp, f, Q)
        invariant k - w < j && (j <= z || j == k - w + 1)
      {
        NextDeduction(b, c, f, xp, Q);
        xp := xp + 1;
        f := 2 * f;
        if f <= c[xp] {
          break;
        }
        f := f - c[xp];
        j := j + 1;
      }
    }
  }
}
