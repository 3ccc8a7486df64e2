/** Walking finished tables over a bit string finds the canonical code the string starts with:
    the theorem `huft_build` is for. */
module HuftWalk {
  import opened Bits
  import opened Canonical
  import opened HuftTables
  import opened HuftBuild

  /** Finished tables a decoder with l-bit lookups can use. */
  ghost predicate Usable(al: Alphabet, l: nat, f: Forest, root: Tab) {
    && Built(al, l, f, root) && Narrow(f, l)
    && Kraft(al.lens) <= TOP && l <= MaxLen(al.lens)
  }

  /** The walk is w bits down the string x, at the entry of table T that x's next bits select. */
  ghost predicate AtTable(l: nat, f: Forest, T: Tab, w: nat, x: seq<bool>) {
    T in f.info && w <= |x| && f.info[T].pfx == x[..w] && w + Width(f, l, T) <= |x| <= BMAX
  }

  ghost function EntryOf(l: nat, f: Forest, T: Tab, w: nat, x: seq<bool>): Huft
    requires AtTable(l, f, T, w, x)
  {
    Slot(f, T, x[w..w + Width(f, l, T)])
  }

  /** The entry leads to a table l bits further down the string. */
  ghost predicate Deeper(l: nat, f: Forest, T: Tab, w: nat, x: seq<bool>)
    requires AtTable(l, f, T, w, x)
  {
    Width(f, l, T) == l && LinkTo(l, f, EntryOf(l, f, T, w, x), w, x[..w + l])
  }

  /** The entry is that of a code, a prefix of the string. */
  ghost predicate AtLeaf(al: Alphabet, ent: Huft, w: nat, x: seq<bool>) {
    w < w + ent.b <= |x| && LeafFor(al, ent, x[..w + ent.b], w)
  }

  lemma EntryIsElement(al: Alphabet, l: nat, f: Forest, T: Tab, w: nat, x: seq<bool>)
    requires Layout(al, l, f) && AtTable(l, f, T, w, x)
    ensures var i := Num(x[w..w + Width(f, l, T)]);
            T in f.mem && i < |f.mem[T]| && EntryOf(l, f, T, w, x) == f.mem[T][i]
  {
    SlotIndex(al, l, f, T, x[w..w + Width(f, l, T)]);
  }

  /** One step: the entry is the code's, or it leads further down. */
  lemma WalkStep(al: Alphabet, l: nat, f: Forest, root: Tab, T: Tab, w: nat, x: seq<bool>)
    requires Usable(al, l, f, root) && AtTable(l, f, T, w, x)
    ensures Deeper(l, f, T, w, x) || AtLeaf(al, EntryOf(l, f, T, w, x), w, x)
    ensures !Deeper(l, f, T, w, x) ==> EntryOf(l, f, T, w, x).b <= Width(f, l, T)
  {
    var n := Width(f, l, T);
    var t := x[w..w + n];
    assert f.info[T].pfx + t == x[..w + n];
    LoTop(x[..w + n]);
    assert Below(f, T, t, TOP);
    assert SlotRight(al, l, f, Slot(f, T, t), w, x[..w + n]);
    if !LinkTo(l, f, Slot(f, T, t), w, x[..w + n]) {
      var b := Slot(f, T, t).b;
      assert x[..w + n][..w + b] == x[..w + b];
    } else {
      assert n == l;
    }
  }

  /** The table it leads to is one the decoder can index. */
  lemma DeeperTable(al: Alphabet, l: nat, f: Forest, root: Tab, T: Tab, w: nat, x: seq<bool>)
    requires Usable(al, l, f, root) && AtTable(l, f, T, w, x) && |x| == BMAX && Deeper(l, f, T, w, x)
    ensures var ent := EntryOf(l, f, T, w, x);
            && l >= 1 && ent.b == l && AtTable(l, f, ent.v.t, w + l, x) && w + l < BMAX
            && ent.e == 16 + Width(f, l, ent.v.t) && 1 <= Width(f, l, ent.v.t) <= l
  {
    assert FitsAt(al, l, f, EntryOf(l, f, T, w, x).v.t) && NarrowAt(f, l, EntryOf(l, f, T, w, x).v.t);
  }

  /** The first table is as wide as the decoder's index. */
  lemma AtRoot(al: Alphabet, l: nat, f: Forest, root: Tab, x: seq<bool>)
    requires Usable(al, l, f, root) && |x| == BMAX
    ensures AtTable(l, f, root, 0, x) && Width(f, l, root) == l
  {
    assert FitsAt(al, l, f, root);
    if Width(f, l, root) < l {
      LoEmpty(f.info[root].pfx);
      Pow2To16();
      FilledBelowTop(al.lens, f.info[root].tb);
    }
  }

  /** The codes shorter than the longest leave room for it. */
  lemma FilledBelowTop(lens: seq<nat>, t: nat)
    requires t < MaxLen(lens) <= BMAX && Kraft(lens) <= TOP
    ensures Upto(lens, t) < TOP
  {
    var g := MaxLen(lens);
    MaxLenBound(lens);
    CountBound(lens, g);
    FilledMono(lens, t, g - 1);
    FilledMono(lens, g, BMAX);
    ShlWithin(0, 0, Count(lens, g), BMAX - g);
  }

  /** The walk as a whole: the entry it ends at, and the bits it uses. */
  ghost function Walk(al: Alphabet, l: nat, f: Forest, root: Tab, T: Tab, w: nat, x: seq<bool>): (Huft, nat)
    requires Usable(al, l, f, root) && AtTable(l, f, T, w, x) && |x| == BMAX
    decreases BMAX - w
  {
    var ent := EntryOf(l, f, T, w, x);
    if Deeper(l, f, T, w, x) then
      DeeperTable(al, l, f, root, T, w, x);
      Walk(al, l, f, root, ent.v.t, w + l, x)
    else (ent, w + ent.b)
  }

  lemma {:induction false} WalkLeaf(al: Alphabet, l: nat, f: Forest, root: Tab, T: Tab, w: nat, x: seq<bool>)
    requires Usable(al, l, f, root) && AtTable(l, f, T, w, x) && |x| == BMAX
    ensures var r := Walk(al, l, f, root, T, w, x);
            r.0.b <= r.1 && AtLeaf(al, r.0, r.1 - r.0.b, x)
    decreases BMAX - w
  {
    WalkStep(al, l, f, root, T, w, x);
    var ent := EntryOf(l, f, T, w, x);
    if Deeper(l, f, T, w, x) {
      DeeperTable(al, l, f, root, T, w, x);
      assert Walk(al, l, f, root, T, w, x) == Walk(al, l, f, root, ent.v.t, w + l, x);
      WalkLeaf(al, l, f, root, ent.v.t, w + l, x);
    }
  }

  /** What an entry for the string's code says about bit-by-bit decoding. */
  lemma LeafDecodes(al: Alphabet, ent: Huft, w: nat, x: seq<bool>, bits: seq<bool>, pos: nat)
    requires ValidLens(al.lens) && AtLeaf(al, ent, w, x) && |x| <= BMAX
    requires forall i :: 0 <= i < |x| && pos + i < |bits| ==> bits[pos + i] == x[i]
    ensures match Decode(al.lens, bits, pos)
            case Sym(sym, p) =>
              && p == pos + w + ent.b
              && sym < al.simple + |al.base| && |al.base| == |al.extra| && ent == SymEntry(al, sym, ent.b)
            case NoCode => PastCodes(al.lens, x[..w + ent.b]) && (0 !in al.lens ==> ent.e == INVALID)
            case OutOfBits => true
  {
    DecodeLeaf(al.lens, bits, pos, 1, x[..w + ent.b]);
  }

  /** The entry and the end of the code are those of bit-by-bit decoding: the symbol's whose code
      starts the string, or, when none does, past the last code, marked invalid if no length is zero
      (otherwise the entry was never set). */
  ghost predicate Decodes(al: Alphabet, ent: Huft, end: nat, x: seq<bool>) {
    && end <= |x|
    && match Decode(al.lens, x, 0)
       case Sym(sym, p) =>
         p == end && sym < al.simple + |al.base| && |al.base| == |al.extra| && ent == SymEntry(al, sym, ent.b)
       case NoCode => PastCodes(al.lens, x[..end]) && (0 !in al.lens ==> ent.e == INVALID)
       case OutOfBits => true
  }

  lemma LeafTo(al: Alphabet, ent: Huft, end: nat, w: nat, x: seq<bool>)
    requires ValidLens(al.lens) && end == w + ent.b && AtLeaf(al, ent, w, x) && |x| <= BMAX
    ensures Decodes(al, ent, end, x)
  {
    hide Decode, PastCodes, SymEntry;
    LeafDecodes(al, ent, w, x, x, 0);
  }

  /** For every 16-bit string the walk over the tables agrees with bit-by-bit decoding, the entry and
      the number of bits used. In a complete set some code always starts the string. */
  lemma TableTheorem(al: Alphabet, l: nat, f: Forest, root: Tab, x: seq<bool>)
    requires Usable(al, l, f, root) && ValidLens(al.lens) && |x| == BMAX && AtTable(l, f, root, 0, x)
    ensures var r := Walk(al, l, f, root, root, 0, x);
            Decodes(al, r.0, r.1, x) && Decode(al.lens, x, 0) != OutOfBits
    ensures Kraft(al.lens) == TOP ==> Decode(al.lens, x, 0).Sym?
  {
    hide Usable, AtTable, Kraft, Decode, Decodes, Walk, ValidLens, MaxLen;
    if Kraft(al.lens) == TOP {
      CompleteDecodes(al.lens, x, 0);
    }
    WalkDecodes(al, l, f, root, x);
    RootFits(al, l, f, root);
    SixteenEnough(al.lens, x);
  }

  lemma WalkDecodes(al: Alphabet, l: nat, f: Forest, root: Tab, x: seq<bool>)
    requires Usable(al, l, f, root) && ValidLens(al.lens) && |x| == BMAX && AtTable(l, f, root, 0, x)
    ensures var r := Walk(al, l, f, root, root, 0, x); Decodes(al, r.0, r.1, x)
  {
    hide Usable, AtTable, AtLeaf, Decode, Decodes, Walk, ValidLens;
    WalkLeaf(al, l, f, root, root, 0, x);
    var r := Walk(al, l, f, root, root, 0, x);
    LeafTo(al, r.0, r.1, r.1 - r.0.b, x);
  }

  lemma RootFits(al: Alphabet, l: nat, f: Forest, root: Tab)
    requires Usable(al, l, f, root)
    ensures MaxLen(al.lens) <= BMAX
  {
    assert FitsAt(al, l, f, root);
  }

  lemma SixteenEnough(lens: seq<nat>, x: seq<bool>)
    requires MaxLen(lens) <= |x|
    ensures Decode(lens, x, 0) != OutOfBits
  {
    EnoughBits(lens, x, 0, 1);
  }

  ghost predicate HasCode(lens: seq<nat>, s: seq<bool>) {
    exists sym :: Codes(lens, sym, s)
  }

  /** Sixteen bits are enough for every decision. */
  lemma {:induction false} EnoughBits(lens: seq<nat>, bits: seq<bool>, pos: nat, t: nat)
    requires pos + MaxLen(lens) <= |bits|
    ensures DecodeFrom(lens, bits, pos, t) != OutOfBits
    decreases MaxLen(lens) + 1 - t
  {
    if t <= MaxLen(lens) && !HasCode(lens, bits[pos..pos + t]) {
      EnoughBits(lens, bits, pos, t + 1);
    }
  }
}
