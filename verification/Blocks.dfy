/** The code sets of a block: tables made by `huft_build` are usable and are freed again, and
    what the two fixed sets and the code length set are (zip/inflate.c:511-559, 625-728). */
module Blocks {
  import opened Bits
  import opened Canonical
  import opened HuftCounts
  import opened HuftTables
  import opened HuftStore
  import opened HuftBuild
  import opened Deflate
  import opened Lookup

  /** What `huft_build` leaves for code lengths it has accepted. */
  ghost predicate Made(al: Alphabet, m: nat, l: nat, mem: map<Tab, seq<Huft>>, M: map<Tab, seq<Huft>>, f: Forest,
          chain: seq<Tab>, t: Tab) {
    && ValidAlphabet(al) && InMemory(mem, M, f, chain) && t == First(chain)
    && (if AllZero(al.lens) then l == 0 else Built(al, l, f, t) && Clamped(al.lens, m, l))
  }

  /** No table is larger than the decoder's index: the longest code fits two tables of the size
      used, or the set is complete with fewer codes than a table of the size asked for has entries. */
  ghost predicate Modest(lens: seq<nat>, m: nat) {
    && Kraft(lens) <= TOP
    && (MaxLen(lens) <= m || (Count(lens, m) > 0 && MaxLen(lens) <= 2 * m)
        || (Kraft(lens) == TOP && NumCodes(lens) < Pow2(m)))
  }

  lemma MadeTables(al: Alphabet, m: nat, l: nat, mem: map<Tab, seq<Huft>>, M: map<Tab, seq<Huft>>, f: Forest,
          chain: seq<Tab>, t: Tab)
    requires Made(al, m, l, mem, M, f, chain, t) && m >= 1
    requires AllZero(al.lens) || Modest(al.lens, m)
    ensures TablesOrNone(al, l, mem, f, t) && l <= m
  {
    if !AllZero(al.lens) {
      if Kraft(al.lens) == TOP && NumCodes(al.lens) < Pow2(m) {
        WidthWithinM(al.lens, m, l);
      } else {
        NarrowWidth(al.lens, m, l);
      }
      assert SmallSet(al.lens, l);
      forall T | T in f.info ensures InMem(mem, f, T) {
        BlockOf(mem, M, f, chain, T);
      }
    }
  }

  lemma NarrowWidth(lens: seq<nat>, m: nat, l: nat)
    requires Clamped(lens, m, l) && m >= 1 && (MaxLen(lens) <= m || (Count(lens, m) > 0 && MaxLen(lens) <= 2 * m))
    ensures l <= m && MaxLen(lens) <= 2 * l
  {
    CountBound(lens, m);
    MaxLenBound(lens);
  }

  lemma AcceptedModest(lens: seq<nat>, m: nat)
    requires Verdict(lens) == 0 && |lens| < Pow2(m) && m >= 1
    ensures AllZero(lens) || Modest(lens, m)
  {
    CountBound(lens, 0);
  }

  /** Later allocations leave the tables in place. */
  lemma StillThere(al: Alphabet, l: nat, mem: map<Tab, seq<Huft>>, mem2: map<Tab, seq<Huft>>, f: Forest, t: Tab,
          f2: Forest, chain2: seq<Tab>)
    requires TablesOrNone(al, l, mem, f, t) && InMemory(mem2, mem, f2, chain2)
    ensures TablesOrNone(al, l, mem2, f, t)
  {
    if !AllZero(al.lens) {
      forall T | T in f.info ensures InMem(mem2, f, T) {
        assert InMem(mem, f, T);
      }
    }
  }

  /** Of two sets of tables, the older can be freed first. */
  lemma OlderFirst(mem2: map<Tab, seq<Huft>>, mem1: map<Tab, seq<Huft>>, mem0: map<Tab, seq<Huft>>, f: Forest,
          chain: seq<Tab>, f2: Forest, chain2: seq<Tab>)
    requires InMemory(mem1, mem0, f, chain) && InMemory(mem2, mem1, f2, chain2)
    ensures var rest := mem2 - f.mem.Keys;
            InMemory(mem2, rest, f, chain) && InMemory(rest, mem0, f2, chain2)
  {
    var rest := mem2 - f.mem.Keys;
    assert rest.Keys == mem0.Keys + f2.mem.Keys;
    forall j | 0 <= j < |chain| ensures InPlace(mem2, f, chain, j) {
      assert InPlace(mem1, f, chain, j);
    }
    forall j | 0 <= j < |chain2| ensures InPlace(rest, f2, chain2, j) {
      assert InPlace(mem2, f2, chain2, j);
    }
  }

  /** The memory is mem0 and the tables of the two sets, which mem1 was without the second. */
  ghost predicate Owned(mem: map<Tab, seq<Huft>>, mem1: map<Tab, seq<Huft>>, mem0: map<Tab, seq<Huft>>, tl: Tab,
          td: Tab, t: Sets, cl: seq<Tab>, cd: seq<Tab>) {
    InMemory(mem1, mem0, t.fl, cl) && InMemory(mem, mem1, t.fd, cd) && tl == First(cl) && td == First(cd)
  }

  /** huft_free(tl); huft_free(td) */
  method FreeBoth(heap: Arena, tl: Tab, td: Tab, ghost mem0: map<Tab, seq<Huft>>, ghost mem1: map<Tab, seq<Huft>>,
          ghost t: Sets, ghost cl: seq<Tab>, ghost cd: seq<Tab>)
    requires Owned(heap.mem, mem1, mem0, tl, td, t, cl, cd)
    modifies heap
    ensures heap.mem == mem0
  {
    OlderFirst(heap.mem, mem1, mem0, t.fl, cl, t.fd, cd);
    HuftFree(heap, tl, heap.mem - t.fl.mem.Keys, t.fl, cl);
    HuftFree(heap, td, mem0, t.fd, cd);
  }

  /** Tables for the two sets of a block, built one after the other. */
  lemma BothSets(ll: seq<nat>, dl: seq<nat>, ml: nat, md: nat, tl: Tab, td: Tab, bl: nat, bd: nat, fl: Forest,
          fd: Forest, cl: seq<Tab>, cd: seq<Tab>, mem0: map<Tab, seq<Huft>>, mem1: map<Tab, seq<Huft>>,
          mem2: map<Tab, seq<Huft>>)
    requires 257 <= |ll| <= 288 && 1 <= |dl| <= 30 && 1 <= ml <= 9 && 1 <= md <= 9
    requires Made(LiteralAlphabet(ll), ml, bl, mem1, mem0, fl, cl, tl) && (AllZero(ll) || Modest(ll, ml))
    requires Made(DistanceAlphabet(dl), md, bd, mem2, mem1, fd, cd, td) && (AllZero(dl) || Modest(dl, md))
    ensures SetTables(mem2, tl, td, bl, bd, Sets(ll, dl, fl, fd))
        && Owned(mem2, mem1, mem0, tl, td, Sets(ll, dl, fl, fd), cl, cd)
  {
    MadeTables(LiteralAlphabet(ll), ml, bl, mem1, mem0, fl, cl, tl);
    StillThere(LiteralAlphabet(ll), bl, mem1, mem2, fl, tl, fd, cd);
    MadeTables(DistanceAlphabet(dl), md, bd, mem2, mem1, fd, cd, td);
  }

  /*-- The fixed sets ---------------------------------------------------------*/

  lemma {:induction false} CountRun(n: nat, x: nat, t: nat)
    ensures Count(Run(n, x), t) == if t == x then n else 0
    decreases n
  {
    if n > 0 {
      assert Run(n, x)[..n - 1] == Run(n - 1, x);
      CountRun(n - 1, x, t);
    }
  }

  lemma FixedCount(t: nat)
    ensures Count(FixedLiterals(), t) == if t == 7 then 24 else if t == 8 then 152 else if t == 9 then 112 else 0
    ensures Count(FixedDistances(), t) == if t == 5 then 30 else 0
  {
    var a, b, c, d := Run(144, 8), Run(112, 9), Run(24, 7), Run(8, 8);
    CountConcat(a + b + c, d, t);
    CountConcat(a + b, c, t);
    CountConcat(a, b, t);
    CountRun(144, 8, t);
    CountRun(112, 9, t);
    CountRun(24, 7, t);
    CountRun(8, 8, t);
    CountRun(30, 5, t);
  }

  lemma GreatestCount(lens: seq<nat>, g: nat)
    requires g > 0 && Count(lens, g) > 0 && forall u :: u > g ==> Count(lens, u) == 0
    ensures MaxLen(lens) == g && !AllZero(lens)
    ensures g <= BMAX ==> ValidLens(lens)
  {
    MaxLenBound(lens);
    CountBound(lens, g);
    CountBound(lens, MaxLen(lens));
  }

  /** The literal/length set is complete; its table is asked for at the size of its shortest code. */
  lemma FixedLiteralFacts()
    ensures var b := FixedLiterals();
            ValidLens(b) && !AllZero(b) && Verdict(b) == 0 && Kraft(b) == TOP && Modest(b, 7)
  {
    var b := FixedLiterals();
    forall t ensures Count(b, t) == if t == 7 then 24 else if t == 8 then 152 else if t == 9 then 112 else 0 {
      FixedCount(t);
    }
    GreatestCount(b, 9);
    FilledMax(b, BMAX);
    FilledBelow(b, 6);
    hide FixedLiterals, MaxLen;
    assert Shl(24, 9) == 12288 && Shl(152, 8) == 38912 && Shl(112, 7) == 14336;
    assert Filled(b, 7) == 12288;
    assert Filled(b, 8) == 51200;
    assert Filled(b, 9) == TOP;
  }

  /** The distance set has 30 codes of 5 bits and lacks two; `huft_build` says so and makes its table. */
  lemma FixedDistanceFacts()
    ensures var b := FixedDistances();
            ValidLens(b) && !AllZero(b) && Verdict(b) == 1 && Modest(b, 5)
  {
    var b := FixedDistances();
    forall t ensures Count(b, t) == if t == 5 then 30 else 0 {
      FixedCount(t);
    }
    GreatestCount(b, 5);
    FilledMax(b, BMAX);
    FilledBelow(b, 4);
    ShlShl(30, 5, 6);
    assert Shl(30, 5) == 960 && Shl(960, 6) == 61440;
    assert Filled(b, 5) == 61440;
  }

  /** for (; i < n; i++) l[i] = x */
  method FillLengths(l: array<nat>, from: nat, n: nat, x: nat)
    requires from + n <= l.Length
    modifies l
    ensures l[..from + n] == old(l[..from]) + Run(n, x)
    ensures forall q :: from + n <= q < l.Length ==> l[q] == old(l[q])
  {
    var i := from;
    while i < from + n
      invariant from <= i <= from + n
      invariant forall j :: 0 <= j < from ==> l[j] == old(l[j])
      invariant forall j :: from <= j < i ==> l[j] == x
      invariant forall j :: from + n <= j < l.Length ==> l[j] == old(l[j])
    {
      l[i] := x;
      i := i + 1;
    }
  }

  /** Lines 524-531 */
  method FixedLengths() returns (l: array<nat>)
    ensures fresh(l) && l.Length == 288 && l[..] == FixedLiterals()
  {
    l := new nat[288];
    FillLengths(l, 0, 144, 8);
    FillLengths(l, 144, 112, 9);
    FillLengths(l, 256, 24, 7);
    FillLengths(l, 280, 8, 8);
    assert l[..] == l[..288];
    assert l[..0] == [];
  }

  /** Lines 524-546: the tables of the two fixed sets. */
  method FixedTables(heap: Arena)
    returns (tl: Tab, td: Tab, bl: nat, bd: nat, ghost t: Sets, ghost mem1: map<Tab, seq<Huft>>, ghost cl: seq<Tab>,
            ghost cd: seq<Tab>)
    modifies heap
    ensures SetTables(heap.mem, tl, td, bl, bd, t) && t.ll == FixedLiterals() && t.dl == FixedDistances()
    ensures Owned(heap.mem, mem1, old(heap.mem), tl, td, t, cl, cd)
  {
    FixedLiteralFacts();
    FixedDistanceFacts();
    var l := FixedLengths();
    var ret;
    ghost var fl, fd;
    ret, tl, bl, fl, cl := HuftBuild.HuftBuild(heap, l[..], SIMPLE, LENGTH_BASE, LENGTH_EXTRA, 7);
    if ret != 0 {
      assert false;
    }
    mem1 := heap.mem;
    FillLengths(l, 0, 30, 5);
    assert l[..30] == FixedDistances();
    ret, td, bd, fd, cd := HuftBuild.HuftBuild(heap, l[..30], 0, DIST_BASE, DIST_EXTRA, 5);
    if ret > 1 {
      assert false;
    }
    t := Sets(FixedLiterals(), FixedDistances(), fl, fd);
    BothSets(FixedLiterals(), FixedDistances(), 7, 5, tl, td, bl, bd, fl, fd, cl, cd, old(heap.mem), mem1, heap.mem);
  }

  /*-- The dynamic sets -------------------------------------------------------*/

  /** The table of the code length set has as many bits as its longest code. */
  lemma LengthTables(cl: seq<nat>, l: nat, mem: map<Tab, seq<Huft>>, M: map<Tab, seq<Huft>>, f: Forest,
          chain: seq<Tab>, t: Tab)
    requires Made(LengthAlphabet(cl), 7, l, mem, M, f, chain, t)
    requires Verdict(cl) == 0 && ThreeBits(cl)
    ensures TablesOrNone(LengthAlphabet(cl), l, mem, f, t) && l <= 7
    ensures !AllZero(cl) ==> l == MaxLen(cl)
  {
    assert Pow2(7) == 128;
    AcceptedModest(cl, 7);
    MadeTables(LengthAlphabet(cl), 7, l, mem, M, f, chain, t);
    MaxLenBound(cl);
  }

  /** Lines 687-717: the tables of the two sets. A set that is not accepted leaves no table behind. */
  method DynamicTables(heap: Arena, ll: seq<nat>, dl: seq<nat>)
    returns (ret: nat, tl: Tab, td: Tab, bl: nat, bd: nat, ghost t: Sets, ghost mem1: map<Tab, seq<Huft>>,
            ghost cl: seq<Tab>, ghost cd: seq<Tab>)
    requires 257 <= |ll| <= 286 && 1 <= |dl| <= 30 && ValidLens(ll) && ValidLens(dl)
    modifies heap
    ensures ret == if Verdict(ll) != 0 then Verdict(ll) else Verdict(dl)
    ensures ret == 0 ==> SetTables(heap.mem, tl, td, bl, bd, t) && t.ll == ll && t.dl == dl
    ensures ret == 0 ==> Owned(heap.mem, mem1, old(heap.mem), tl, td, t, cl, cd)
    ensures ret != 0 ==> heap.mem == old(heap.mem)
  {
    ghost var fl, fd;
    td, bd, cd, t := NULL, 0, [], Sets(ll, dl, Forest(map[], map[]), Forest(map[], map[]));
    ret, tl, bl, fl, cl := HuftBuild.HuftBuild(heap, ll, SIMPLE, LENGTH_BASE, LENGTH_EXTRA, 9);
    mem1 := heap.mem;
    if ret != 0 {
      if ret == 1 {
        HuftFree(heap, tl, old(heap.mem), fl, cl);
      }
      return;
    }
    ret, td, bd, fd, cd := HuftBuild.HuftBuild(heap, dl, 0, DIST_BASE, DIST_EXTRA, 6);
    if ret != 0 {
      if ret == 1 {
        HuftFree(heap, td, mem1, fd, cd);
      }
      HuftFree(heap, tl, old(heap.mem), fl, cl);
      return;
    }
    t := Sets(ll, dl, fl, fd);
    Pow2To16();
    AcceptedModest(ll, 9);
    AcceptedModest(dl, 6);
    BothSets(ll, dl, 9, 6, tl, td, bl, bd, fl, fd, cl, cd, old(heap.mem), mem1, heap.mem);
  }

  /*-- Streams that read nothing unset ----------------------------------------*/

  /** No code at all, or one, of one bit: of the sets that are accepted those that are not complete. */
  ghost predicate Solitary(lens: seq<nat>) {
    AllZero(lens) || (MaxLen(lens) == 1 && Count(lens, 1) == 1)
  }

  /** A code nobody has, in such a set, is an entry that was never set; elsewhere there is no such code,
      or its entry is marked invalid. */
  ghost predicate Settled(lens: seq<nat>) {
    ValidLens(lens) && (Kraft(lens) >= TOP || 0 !in lens)
  }

  lemma AcceptedSettled(lens: seq<nat>)
    requires ValidLens(lens) && Verdict(lens) == 0 && !Solitary(lens)
    ensures Settled(lens) && Kraft(lens) >= TOP
  {
    AcceptedIncomplete(lens);
  }

  lemma FixedSettled()
    ensures Settled(FixedLiterals()) && Settled(FixedDistances())
  {
    FixedLiteralFacts();
    FixedDistanceFacts();
    hide Kraft;
    assert forall i :: 0 <= i < 30 ==> FixedDistances()[i] == 5;
  }

  lemma SettledDecode(lens: seq<nat>, bits: seq<bool>, pos: nat)
    requires Settled(lens) && pos <= |bits|
    ensures Decode(lens, bits, pos) == NoCode ==> 0 !in lens
  {
    if Kraft(lens) >= TOP {
      CompleteDecodes(lens, bits, pos);
    }
  }

  lemma TurnDefined(r: Symbol, ll: seq<nat>, dl: seq<nat>, bits: seq<bool>, out: seq<byte>)
    requires (r.Sym? ==> r.pos <= |bits|) && (r == NoCode ==> 0 !in ll) && Settled(dl)
    ensures TurnOn(r, ll, dl, bits, out) != Stop(Undefined)
  {
    if r.Sym? && 256 < r.n <= 285 && r.pos + LENGTH_EXTRA[r.n - 257] <= |bits| {
      SettledDecode(dl, bits, r.pos + LENGTH_EXTRA[r.n - 257]);
    }
    hide Decode, Field, Settled, CopyMatch;
  }

  lemma {:induction false} CompressedDefined(ll: seq<nat>, dl: seq<nat>, bits: seq<bool>, pos: nat, out: seq<byte>)
    requires pos <= |bits| && Settled(ll) && Settled(dl)
    ensures Compressed(ll, dl, bits, pos, out) != Undefined
    decreases |bits| - pos
  {
    hide TurnOn, Decode, Settled;
    SettledDecode(ll, bits, pos);
    TurnDefined(Decode(ll, bits, pos), ll, dl, bits, out);
    var m := Turn(ll, dl, bits, pos, out);
    if m.Go? {
      CompressedDefined(ll, dl, bits, m.pos, m.out);
    }
  }

  lemma {:induction false} ExpandDefined(cl: seq<nat>, bits: seq<bool>, pos: nat, n: nat, lens: seq<nat>)
    requires pos <= |bits| && |lens| <= n && ValidLens(cl) && Kraft(cl) >= TOP
    ensures Expand(cl, bits, pos, n, lens) != NoLengths(Undefined)
    decreases n - |lens|
  {
    hide Decode, Kraft, Field;
    if |lens| < n {
      CompleteDecodes(cl, bits, pos);
      var m := ExpandOn(Decode(cl, bits, pos), bits, n, lens);
      if m.Lengths? {
        ExpandDefined(cl, bits, m.pos, n, m.lens);
      }
    }
  }

  /** No length is above 15. */
  lemma {:induction false} ExpandOk(cl: seq<nat>, bits: seq<bool>, pos: nat, n: nat, lens: seq<nat>)
    requires pos <= |bits| && |lens| <= n && |cl| == 19 && LengthsOk(lens)
    ensures var e := Expand(cl, bits, pos, n, lens); e.Lengths? ==> LengthsOk(e.lens)
    decreases n - |lens|
  {
    if |lens| < n {
      var r := Decode(cl, bits, pos);
      hide Decode, Field;
      var m := ExpandOn(r, bits, n, lens);
      if m.Lengths? {
        assert forall q :: |lens| <= q < |m.lens| ==> m.lens[q] <= 15;
        assert forall q :: 0 <= q < |lens| ==> m.lens[q] == lens[q];
        hide ExpandOn;
        ExpandOk(cl, bits, m.pos, n, m.lens);
      }
    }
  }

  /** The code length set of a dynamic block and the two sets it describes: the block is undefined only
      if one of the three has at most one code. */
  lemma SetLengthsDefined(cl: seq<nat>, nl: nat, nd: nat, bits: seq<bool>, pos: nat, out: seq<byte>)
    requires pos <= |bits| && ThreeBits(cl) && SetLengths(cl, nl, nd, bits, pos, out) == Undefined
    ensures Solitary(cl) || var e := Expand(cl, bits, pos, nl + nd, []);
              e.Lengths? && (Solitary(e.lens[..nl]) || Solitary(e.lens[nl..]))
  {
    hide Compressed, Solitary;
    if !Solitary(cl) {
      AcceptedSettled(cl);
      ExpandDefined(cl, bits, pos, nl + nd, []);
      ExpandOk(cl, bits, pos, nl + nd, []);
      var e := Expand(cl, bits, pos, nl + nd, []);
      hide Expand, Verdict;
      var ll, dl := e.lens[..nl], e.lens[nl..];
      if !Solitary(ll) && !Solitary(dl) {
        AcceptedSettled(ll);
        AcceptedSettled(dl);
        CompressedDefined(ll, dl, bits, e.pos, out);
      }
    }
  }

  /** Stored and fixed blocks never are. */
  lemma PlainDefined(kind: nat, bits: seq<bool>, pos: nat, out: seq<byte>)
    requires pos <= |bits| && kind != 2
    ensures OneBlock(kind, bits, pos, out) != Undefined
  {
    hide Compressed;
    FixedSettled();
    CompressedDefined(FixedLiterals(), FixedDistances(), bits, pos, out);
  }
}
