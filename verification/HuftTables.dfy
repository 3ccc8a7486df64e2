/** The lookup tables of `huft_build`: what a table slot must hold, and what each write the
    program makes does to the collection of tables. A `Forest` is the part of memory that one
    call of `huft_build` has allocated, with what each table is for. */
module HuftTables {
  import opened Bits
  import opened Canonical

  /** Address of an allocated table, or NULL. Element 0 of a table is the dummy entry that links
      the list for `huft_free`; entry j of the table proper, which C reaches through a pointer
      one past the start, is element j + 1. */
  type Tab = nat
  const NULL: Tab := 0

  /** union v of struct huft */
  datatype Target = Number(n: nat) | Link(t: Tab)

  /** struct huft: e = extra bits or operation, b = bits in this (sub)code */
  datatype Huft = Huft(e: nat, b: nat, v: Target)

  /** e = 99 marks an invalid code, 16 a literal, 15 end of block, above 16 a further table. */
  const INVALID: nat := 99
  const LITERAL: nat := 16
  const END_OF_BLOCK: nat := 15

  /** The arguments of huft_build that fix what a symbol's entry says: the code lengths, the
      number of simple symbols, and base value and extra bits of the others. */
  datatype Alphabet = Alphabet(lens: seq<nat>, simple: nat, base: seq<nat>, extra: seq<nat>)

  ghost predicate ValidAlphabet(al: Alphabet) {
    && ValidLens(al.lens)
    && |al.base| == |al.extra|
    && |al.lens| <= al.simple + |al.base|
  }

  /** The entry for a symbol. */
  function SymEntry(al: Alphabet, sym: nat, b: nat): Huft
    requires |al.base| == |al.extra| && sym < al.simple + |al.base|
  {
    if sym < al.simple then Huft(if sym < 256 then LITERAL else END_OF_BLOCK, b, Number(sym))
    else Huft(al.extra[sym - al.simple], b, Number(al.base[sym - al.simple]))
  }

  /** Where a table hangs: the code bits that lead to it, log2 of its size, its level,
      and its place in the list of all tables. */
  datatype TabInfo = TabInfo(pfx: seq<bool>, tb: nat, level: nat, place: nat)

  /** mem holds each table's entries, the dummy entry left off. */
  datatype Forest = Forest(mem: map<Tab, seq<Huft>>, info: map<Tab, TabInfo>)

  const BLANK := Huft(0, 0, Number(0))

  /** The slot of table T selected by the index bits t. */
  ghost function Slot(f: Forest, T: Tab, t: seq<bool>): Huft {
    if T in f.mem && Num(t) < |f.mem[T]| then f.mem[T][Num(t)] else BLANK
  }

  function Min(a: nat, b: nat): nat { if a <= b then a else b }

  /** How many index bits of T a decoder with l-bit tables looks at. */
  ghost function Width(f: Forest, l: nat, T: Tab): nat {
    if T in f.info then Min(f.info[T].tb, l) else 0
  }

  /** Positions below Upto(t) belong to codes of length at most t; the codes of greatest length,
      topped up with dummies, reach the end. */
  ghost function Upto(lens: seq<nat>, t: nat): nat {
    if t >= MaxLen(lens) || t > BMAX then TOP else Filled(lens, t)
  }

  ghost predicate Layout(al: Alphabet, l: nat, f: Forest) {
    && l >= 1
    && forall T {:trigger FitsAt(al, l, f, T)} :: T in f.info ==> FitsAt(al, l, f, T)
  }

  ghost predicate FitsAt(al: Alphabet, l: nat, f: Forest, T: Tab) {
    T in f.info && T in f.mem && TableFits(al, l, |f.mem[T]|, f.info[T])
  }

  ghost predicate TableFits(al: Alphabet, l: nat, size: nat, ti: TabInfo) {
    && size == Pow2(ti.tb)
    && ti.tb >= 1
    && |ti.pfx| + Min(ti.tb, l) <= MaxLen(al.lens) <= BMAX
    && (Min(ti.tb, l) == l || Lo(ti.pfx) + Span(ti.pfx) <= Upto(al.lens, |ti.pfx| + ti.tb))
  }

  /** ent is the entry for the code s, seen from a table w bits down. A code past the last real
      one (the set was incomplete) is marked invalid when no length is zero; otherwise the
      program copies memory it never set, and nothing is known about the entry. */
  ghost predicate LeafFor(al: Alphabet, ent: Huft, s: seq<bool>, w: nat) {
    && ent.b + w == |s|
    && if RealCode(al.lens, s) then
         SymAt(al.lens, s) < al.simple + |al.base| && |al.base| == |al.extra|
         && ent == SymEntry(al, SymAt(al.lens, s), ent.b)
       else
         PastCodes(al.lens, s) && (0 !in al.lens ==> ent.e == INVALID)
  }

  ghost predicate LinkTo(l: nat, f: Forest, ent: Huft, w: nat, path: seq<bool>) {
    && ent.v.Link? && ent.v.t in f.info
    && f.info[ent.v.t].pfx == path
    && |path| == w + l
    && ent.b == l
    && ent.e == 16 + f.info[ent.v.t].tb
  }

  /** The slot reached by `path`, in a table w bits down, is right. */
  ghost predicate SlotRight(al: Alphabet, l: nat, f: Forest, ent: Huft, w: nat, path: seq<bool>) {
    || LinkTo(l, f, ent, w, path)
    || (w < w + ent.b <= |path| && LeafFor(al, ent, path[..w + ent.b], w))
  }

  /** Every slot whose strings start below position P is right. */
  ghost predicate Done(al: Alphabet, l: nat, f: Forest, P: nat) {
    forall T, t {:trigger Slot(f, T, t)} :: T in f.info && |t| == Width(f, l, T) && Below(f, T, t, P) ==>
      SlotRight(al, l, f, Slot(f, T, t), |f.info[T].pfx|, f.info[T].pfx + t)
  }

  /** The strings of slot t of T start below P. */
  ghost predicate Below(f: Forest, T: Tab, t: seq<bool>, P: nat)
    requires T in f.info
  {
    |f.info[T].pfx + t| <= BMAX && Lo(f.info[T].pfx + t) < P
  }

  /** Bits decoded before level j, each level taking l bits (w in huft_build, without the product). */
  ghost function Depth(l: nat, j: nat): nat {
    if j == 0 then 0 else Depth(l, j - 1) + l
  }

  /** The stack u[0..h] of open tables: u[j] hangs Depth(l, j) bits down the current code s. */
  ghost predicate Stack(l: nat, f: Forest, u: seq<Tab>, h: int, s: seq<bool>) {
    && -1 <= h < |u|
    && (forall j :: 0 <= j <= h ==> PathAt(l, f, u, j, s))
    && (forall j :: 0 <= j < h ==> LinkAt(l, f, u, j))
  }

  ghost predicate PathAt(l: nat, f: Forest, u: seq<Tab>, j: nat, s: seq<bool>) {
    j < |u| && OnPath(l, f, u[j], j, s)
  }

  ghost predicate LinkAt(l: nat, f: Forest, u: seq<Tab>, j: nat) {
    j + 1 < |u| && Linked(l, f, u[j], u[j + 1], j)
  }

  ghost predicate OnPath(l: nat, f: Forest, T: Tab, j: nat, s: seq<bool>) {
    T in f.info && |f.info[T].pfx| == Depth(l, j) && f.info[T].pfx <= s
  }

  /** T, at level j, has its slot for U's path pointing to U. */
  ghost predicate Linked(l: nat, f: Forest, T: Tab, U: Tab, j: nat) {
    && T in f.info && U in f.info
    && Width(f, l, T) == l && Depth(l, j) <= |f.info[U].pfx|
    && var ent := Slot(f, T, f.info[U].pfx[Depth(l, j)..]);
       LinkTo(l, f, ent, Depth(l, j), f.info[U].pfx) && ent.v.t == U
  }

  /** T is one of the open tables u[0..h]. */
  ghost predicate Open(f: Forest, u: seq<Tab>, h: int, T: Tab) {
    T in f.info && f.info[T].level <= h < |u| && u[f.info[T].level] == T
  }

  /** All strings below T lie below P. */
  ghost predicate Finished(f: Forest, P: nat, T: Tab) {
    T in f.info && |f.info[T].pfx| <= BMAX && Lo(f.info[T].pfx) + Span(f.info[T].pfx) <= P
  }

  /** A table that is not open is finished. */
  ghost predicate Closed(f: Forest, u: seq<Tab>, h: int, P: nat) {
    forall T {:trigger Open(f, u, h, T)} :: T in f.info ==> Open(f, u, h, T) || Finished(f, P, T)
  }

  /** The invariant of the code-generation loop: codes below position P have their slots, s is
      the code at P (while there is one), u[0..h] is the open path. */
  ghost predicate Building(al: Alphabet, l: nat, f: Forest, u: seq<Tab>, h: int, s: seq<bool>, P: nat) {
    && Layout(al, l, f)
    && Done(al, l, f, P)
    && |u| == BMAX && -1 <= h < BMAX
    && Closed(f, u, h, P)
    && (h == -1 ==> P == 0 && f.info == map[])
    && |s| <= BMAX
    && (P < TOP ==> Lo(s) == P && Stack(l, f, u, h, s))
  }

  /*-- Small facts ------------------------------------------------------------*/

  lemma UptoMono(lens: seq<nat>, t: nat, v: nat)
    requires t <= v && Kraft(lens) <= TOP
    ensures Upto(lens, t) <= Upto(lens, v) <= TOP
  {
    if v < MaxLen(lens) && v <= BMAX {
      FilledMono(lens, t, v);
      FilledMono(lens, v, BMAX);
    } else if t < MaxLen(lens) && t <= BMAX {
      FilledMono(lens, t, BMAX);
    }
  }

  /** A slot's index bits select an element of the table. */
  lemma SlotIndex(al: Alphabet, l: nat, f: Forest, T: Tab, t: seq<bool>)
    requires Layout(al, l, f) && T in f.info && |t| <= Width(f, l, T)
    ensures T in f.mem && Num(t) < |f.mem[T]| && Slot(f, T, t) == f.mem[T][Num(t)]
  {
    assert FitsAt(al, l, f, T);
    NumBound(t);
    Pow2Mono(|t|, f.info[T].tb);
  }

  lemma {:induction false} DepthMono(l: nat, j: nat, h: nat)
    requires j <= h
    ensures Depth(l, j) <= Depth(l, h)
    ensures j < h ==> Depth(l, j) + l <= Depth(l, h)
  {
    if j < h {
      DepthMono(l, j, h - 1);
    }
  }

  lemma StackTable(l: nat, f: Forest, u: seq<Tab>, h: int, s: seq<bool>, j: nat)
    requires Stack(l, f, u, h, s) && j <= h && |s| <= BMAX
    ensures PathAt(l, f, u, j, s)
    ensures var pfx := f.info[u[j]].pfx;
            Lo(pfx) <= Lo(s) && Lo(s) + Span(s) <= Lo(pfx) + Span(pfx)
  {
    assert PathAt(l, f, u, j, s);
    LoPrefix(f.info[u[j]].pfx, s);
  }

  /** A table narrower than l bits holds all codes below it. */
  lemma NarrowTable(al: Alphabet, l: nat, f: Forest, T: Tab, s: seq<bool>)
    requires T in f.info && T in f.mem && TableFits(al, l, |f.mem[T]|, f.info[T]) && Kraft(al.lens) <= TOP
    requires f.info[T].pfx <= s && |s| <= BMAX
    requires Width(f, l, T) != l && |f.info[T].pfx| + Width(f, l, T) < |s|
    ensures Lo(s) < Upto(al.lens, |s| - 1)
  {
    var n := |f.info[T].pfx| + f.info[T].tb;
    assert Lo(f.info[T].pfx) + Span(f.info[T].pfx) <= Upto(al.lens, n);
    LoPrefix(f.info[T].pfx, s);
    UptoMono(al.lens, n, |s| - 1);
  }

  /** The top table is as wide as a decoder's index when the next code does not fit in it. */
  lemma TopIsFull(al: Alphabet, l: nat, f: Forest, u: seq<Tab>, h: nat, s: seq<bool>, P: nat)
    requires Building(al, l, f, u, h, s, P) && P < TOP && Kraft(al.lens) <= TOP
    requires Depth(l, h) < |s| && Upto(al.lens, |s| - 1) <= P
    ensures Width(f, l, u[h]) == l || |s| <= Depth(l, h) + Width(f, l, u[h])
  {
    assert PathAt(l, f, u, h, s);
    assert FitsAt(al, l, f, u[h]);
    if Width(f, l, u[h]) != l && Depth(l, h) + Width(f, l, u[h]) < |s| {
      NarrowTable(al, l, f, u[h], s);
    }
  }

  /** A code that starts the next code s would have used up s's position. */
  lemma LeafNotAbove(al: Alphabet, ent: Huft, c: seq<bool>, w: nat, s: seq<bool>)
    requires LeafFor(al, ent, c, w) && c <= s && |c| < |s| <= MaxLen(al.lens) <= BMAX
    requires Kraft(al.lens) <= TOP
    ensures Lo(s) < Upto(al.lens, |s| - 1)
  {
    LoPrefix(c, s);
    LoReal(al.lens, c);
    UptoMono(al.lens, |c|, |s| - 1);
    FilledLeUpto(al.lens, |c|);
  }

  lemma LinkNotOpen(l: nat, f: Forest, u: seq<Tab>, h: nat, s: seq<bool>, P: nat, T: Tab)
    requires Stack(l, f, u, h, s) && |s| <= BMAX && Closed(f, u, h, P)
    requires T in f.info && f.info[T].pfx <= s && |f.info[T].pfx| > Depth(l, h)
    ensures Lo(s) < P
  {
    SubtreeNotOpen(l, f, u, h, s, T);
    assert Finished(f, P, T);
    LoPrefix(f.info[T].pfx, s);
  }

  /** If the slot on the path to s were already right, s would lie below P. */
  lemma RightSlotIsBelow(al: Alphabet, l: nat, f: Forest, u: seq<Tab>, h: nat, s: seq<bool>, P: nat, ent: Huft)
    requires Stack(l, f, u, h, s) && Closed(f, u, h, P) && Kraft(al.lens) <= TOP
    requires Depth(l, h) + l < |s| <= MaxLen(al.lens) <= BMAX && l >= 1
    requires SlotRight(al, l, f, ent, Depth(l, h), s[..Depth(l, h) + l])
    ensures Lo(s) < P || Lo(s) < Upto(al.lens, |s| - 1)
  {
    var w := Depth(l, h);
    var path := s[..w + l];
    if LinkTo(l, f, ent, w, path) {
      LinkNotOpen(l, f, u, h, s, P, ent.v.t);
    } else {
      assert path[..w + ent.b] == s[..w + ent.b];
      LeafNotAbove(al, ent, s[..w + ent.b], w, s);
    }
  }

  /** When the next code needs a deeper table, no string below it has been coded yet. */
  lemma FreshSubtree(al: Alphabet, l: nat, f: Forest, u: seq<Tab>, h: nat, s: seq<bool>, P: nat)
    requires Building(al, l, f, u, h, s, P) && P < TOP && Kraft(al.lens) <= TOP
    requires Depth(l, h) + l < |s| <= MaxLen(al.lens) && Upto(al.lens, |s| - 1) <= P
    ensures Width(f, l, u[h]) == l && Lo(s[..Depth(l, h) + l]) == P
  {
    TopIsFull(al, l, f, u, h, s, P);
    assert PathAt(l, f, u, h, s);
    var w := Depth(l, h);
    var t := s[w..w + l];
    assert s[..w + l] == f.info[u[h]].pfx + t;
    LoPrefix(s[..w + l], s);
    assert FitsAt(al, l, f, u[h]);
    if Lo(s[..w + l]) < P {
      assert Below(f, u[h], t, P);
      assert SlotRight(al, l, f, Slot(f, u[h], t), w, s[..w + l]);
      RightSlotIsBelow(al, l, f, u, h, s, P, Slot(f, u[h], t));
    }
  }

  lemma FilledLeUpto(lens: seq<nat>, t: nat)
    requires t <= BMAX && Kraft(lens) <= TOP
    ensures Filled(lens, t) <= Upto(lens, t)
  {
    FilledMono(lens, t, BMAX);
  }

  /** A table one level below the top of the stack is not on the stack. */
  lemma SubtreeNotOpen(l: nat, f: Forest, u: seq<Tab>, h: nat, s: seq<bool>, T: Tab)
    requires Stack(l, f, u, h, s) && |s| <= BMAX
    requires T in f.info && |f.info[T].pfx| > Depth(l, h)
    ensures !Open(f, u, h, T)
  {
    if Open(f, u, h, T) {
      var j := f.info[T].level;
      StackTable(l, f, u, h, s, j);
      DepthMono(l, j, h);
    }
  }

  /*-- Opening a table --------------------------------------------------------*/

  /** f2 is f with table q added, hung from entry `at` of u[h] (unless it is the first). */
  ghost predicate Opened(l: nat, f: Forest, f2: Forest, u: seq<Tab>, h: int, q: Tab, ti: TabInfo, at: nat) {
    && -1 <= h < |u|
    && q !in f.info && q !in f.mem
    && f2.info == f.info[q := ti]
    && q in f2.mem
    && (h == -1 ==> f2.mem == f.mem[q := f2.mem[q]])
    && (h >= 0 ==>
          && u[h] in f.mem && at < |f.mem[u[h]]|
          && f2.mem == f.mem[q := f2.mem[q]][u[h] := f.mem[u[h]][at := Huft(16 + ti.tb, l, Link(q))]])
  }

  /** The entry the new table hangs from is the one its path selects. */
  ghost predicate HangsAt(l: nat, ti: TabInfo, h: int, at: nat) {
    h >= 0 ==> l <= |ti.pfx| && at == Num(ti.pfx[|ti.pfx| - l..])
  }

  lemma OpenedSlots(al: Alphabet, l: nat, f: Forest, f2: Forest, u: seq<Tab>, h: int, q: Tab, ti: TabInfo, at: nat,
          T: Tab, t: seq<bool>)
    requires Layout(al, l, f) && Opened(l, f, f2, u, h, q, ti, at) && T in f.info && |t| == Width(f, l, T)
    ensures T in f.mem && T in f2.mem && Num(t) < |f.mem[T]| == |f2.mem[T]|
    ensures Slot(f2, T, t) ==
            if h >= 0 && T == u[h] && Num(t) == at then Huft(16 + ti.tb, l, Link(q))
            else Slot(f, T, t)
  {
    SlotIndex(al, l, f, T, t);
  }

  lemma OpenLayout(al: Alphabet, l: nat, f: Forest, f2: Forest, u: seq<Tab>, h: int, q: Tab, ti: TabInfo, at: nat)
    requires Layout(al, l, f) && Opened(l, f, f2, u, h, q, ti, at) && q in f2.mem && TableFits(al, l, |f2.mem[q]|, ti)
    ensures Layout(al, l, f2)
  {
    forall T | T in f2.info ensures FitsAt(al, l, f2, T) {
      if T != q {
        assert FitsAt(al, l, f, T);
      }
    }
  }

  /** Adding tables keeps slots right. */
  lemma SlotRightMono(al: Alphabet, l: nat, f: Forest, f2: Forest, ent: Huft, w: nat, path: seq<bool>)
    requires SlotRight(al, l, f, ent, w, path)
    requires forall T :: T in f.info ==> T in f2.info && f2.info[T] == f.info[T]
    ensures SlotRight(al, l, f2, ent, w, path)
  {
    if LinkTo(l, f, ent, w, path) {
      assert LinkTo(l, f2, ent, w, path);
    }
  }

  lemma OpenSlot(al: Alphabet, l: nat, f: Forest, f2: Forest, u: seq<Tab>, h: int, q: Tab, ti: TabInfo, at: nat,
          T: Tab, t: seq<bool>)
    requires HangsAt(l, ti, h, at)
    requires Layout(al, l, f) && Opened(l, f, f2, u, h, q, ti, at)
    requires h >= 0 ==> u[h] in f.info && Width(f, l, u[h]) == l && ti.pfx == f.info[u[h]].pfx + ti.pfx[|ti.pfx| - l..]
    requires T in f.info && |t| == Width(f, l, T) && f.info[T].pfx + t != ti.pfx
    ensures Slot(f2, T, t) == Slot(f, T, t)
  {
    OpenedSlots(al, l, f, f2, u, h, q, ti, at, T, t);
    if h >= 0 && T == u[h] && Num(t) == at {
      NumInjective(t, ti.pfx[|ti.pfx| - l..]);
    }
  }

  lemma OpenDone(al: Alphabet, l: nat, f: Forest, f2: Forest, u: seq<Tab>, h: int, q: Tab, ti: TabInfo, at: nat, P: nat)
    requires HangsAt(l, ti, h, at)
    requires Layout(al, l, f) && Layout(al, l, f2) && Opened(l, f, f2, u, h, q, ti, at) && Done(al, l, f, P)
    requires |ti.pfx| <= BMAX && Lo(ti.pfx) == P
    requires h >= 0 ==> u[h] in f.info && Width(f, l, u[h]) == l && ti.pfx == f.info[u[h]].pfx + ti.pfx[|ti.pfx| - l..]
    ensures Done(al, l, f2, P)
  {
    forall T, t | T in f2.info && |t| == Width(f2, l, T) && Below(f2, T, t, P)
      ensures SlotRight(al, l, f2, Slot(f2, T, t), |f2.info[T].pfx|, f2.info[T].pfx + t)
    {
      if T == q {
        LoPrefix(ti.pfx, ti.pfx + t);
      } else {
        OpenSlot(al, l, f, f2, u, h, q, ti, at, T, t);
        SlotRightMono(al, l, f, f2, Slot(f, T, t), |f.info[T].pfx|, f.info[T].pfx + t);
      }
    }
  }

  lemma OpenStack(al: Alphabet, l: nat, f: Forest, f2: Forest, u: seq<Tab>, h: int, q: Tab, ti: TabInfo, at: nat,
          s: seq<bool>)
    requires HangsAt(l, ti, h, at)
    requires Layout(al, l, f) && Opened(l, f, f2, u, h, q, ti, at) && Stack(l, f, u, h, s)
    requires h + 1 < |u| && |s| <= BMAX && |ti.pfx| == Depth(l, h + 1) && ti.pfx <= s
    requires h >= 0 ==> Width(f, l, u[h]) == l
    ensures Stack(l, f2, u[h + 1 := q], h + 1, s)
  {
    var u2 := u[h + 1 := q];
    forall j | 0 <= j <= h + 1 ensures PathAt(l, f2, u2, j, s) {
      if j <= h {
        assert PathAt(l, f, u, j, s);
      }
    }
    forall j | 0 <= j < h + 1 ensures LinkAt(l, f2, u2, j) {
      assert PathAt(l, f, u, j, s);
      if j < h {
        assert LinkAt(l, f, u, j);
        OpenedSlots(al, l, f, f2, u, h, q, ti, at, u[j], f.info[u[j + 1]].pfx[Depth(l, j)..]);
        StackDistinct(l, f, u, h, s, j);
      } else {
        OpenedSlots(al, l, f, f2, u, h, q, ti, at, u[j], ti.pfx[Depth(l, j)..]);
      }
    }
  }

  lemma StackDistinct(l: nat, f: Forest, u: seq<Tab>, h: int, s: seq<bool>, j: nat)
    requires Stack(l, f, u, h, s) && j < h && l >= 1 && |s| <= BMAX
    ensures u[j] != u[h]
  {
    assert PathAt(l, f, u, j, s) && PathAt(l, f, u, h, s);
    DepthMono(l, j, h);
  }

  /** Lines 234-277 keep the invariant: a table opened at the first uncoded position. */
  lemma OpenStep(al: Alphabet, l: nat, f: Forest, f2: Forest, u: seq<Tab>, h: int, q: Tab, ti: TabInfo, at: nat,
          s: seq<bool>, P: nat)
    requires HangsAt(l, ti, h, at)
    requires Building(al, l, f, u, h, s, P) && P < TOP && h + 1 < BMAX
    requires Opened(l, f, f2, u, h, q, ti, at) && q in f2.mem && TableFits(al, l, |f2.mem[q]|, ti)
    requires |ti.pfx| == Depth(l, h + 1) && ti.pfx <= s && Lo(ti.pfx) == P && ti.level == h + 1
    requires h >= 0 ==> u[h] in f.info && Width(f, l, u[h]) == l
    ensures Building(al, l, f2, u[h + 1 := q], h + 1, s, P)
  {
    OpenLayout(al, l, f, f2, u, h, q, ti, at);
    if h >= 0 {
      assert PathAt(l, f, u, h, s);
      PathSplit(l, f, u[h], h, s, ti.pfx);
    }
    OpenDone(al, l, f, f2, u, h, q, ti, at, P);
    OpenStack(al, l, f, f2, u, h, q, ti, at, s);
    OpenClosed(l, f, f2, u, h, q, ti, at, P);
  }

  lemma PathSplit(l: nat, f: Forest, T: Tab, h: nat, s: seq<bool>, pfx: seq<bool>)
    requires OnPath(l, f, T, h, s) && pfx <= s && |pfx| == Depth(l, h) + l
    ensures pfx == f.info[T].pfx + pfx[|pfx| - l..]
  {
  }

  lemma OpenClosed(l: nat, f: Forest, f2: Forest, u: seq<Tab>, h: int, q: Tab, ti: TabInfo, at: nat, P: nat)
    requires Opened(l, f, f2, u, h, q, ti, at) && h + 1 < |u| && Closed(f, u, h, P) && ti.level == h + 1
    ensures Closed(f2, u[h + 1 := q], h + 1, P)
  {
    forall T | T in f2.info ensures Open(f2, u[h + 1 := q], h + 1, T) || Finished(f2, P, T) {
      if T != q && !Open(f, u, h, T) {
        assert Finished(f, P, T);
      }
    }
  }

  /*-- Filling in a code ------------------------------------------------------*/

  /** f2 is f with r in every slot of table T whose index starts with c. */
  ghost predicate Filled1(al: Alphabet, l: nat, f: Forest, f2: Forest, T: Tab, c: seq<bool>, r: Huft)
    requires Layout(al, l, f)
  {
    && T in f.info
    && f2.info == f.info && f2.mem.Keys == f.mem.Keys
    && (forall X :: X in f.mem ==> |f2.mem[X]| == |f.mem[X]|)
    && (forall X :: X in f.mem && X != T ==> f2.mem[X] == f.mem[X])
    && (forall t {:trigger Slot(f2, T, t)} :: |t| == Width(f, l, T) ==> Slot(f2, T, t) == if c <= t then r else Slot(f, T, t))
  }

  lemma FillLayout(al: Alphabet, l: nat, f: Forest, f2: Forest, T: Tab, c: seq<bool>, r: Huft)
    requires Layout(al, l, f) && Filled1(al, l, f, f2, T, c, r)
    ensures Layout(al, l, f2)
  {
    forall X | X in f2.info ensures FitsAt(al, l, f2, X) {
      assert FitsAt(al, l, f, X);
    }
  }

  /** Writing s's entries leaves the open path alone. */
  lemma FillStack(al: Alphabet, l: nat, f: Forest, f2: Forest, u: seq<Tab>, h: nat, s: seq<bool>, c: seq<bool>, r: Huft)
    requires Layout(al, l, f) && Stack(l, f, u, h, s) && |s| <= BMAX
    requires Filled1(al, l, f, f2, u[h], c, r)
    ensures Stack(l, f2, u, h, s)
  {
    forall j | 0 <= j <= h ensures PathAt(l, f2, u, j, s) {
      assert PathAt(l, f, u, j, s);
    }
    forall j | 0 <= j < h ensures LinkAt(l, f2, u, j) {
      assert LinkAt(l, f, u, j);
      StackDistinct(l, f, u, h, s, j);
    }
  }

  lemma SlotInsideTop(l: nat, f: Forest, T: Tab, h: nat, s: seq<bool>, t: seq<bool>)
    requires OnPath(l, f, T, h, s) && Depth(l, h) < |s| <= Depth(l, h) + |t|
    requires |f.info[T].pfx + t| <= BMAX && Lo(s) <= Lo(f.info[T].pfx + t) < Lo(s) + Span(s)
    ensures s[Depth(l, h)..] <= t
  {
    var p := f.info[T].pfx + t;
    LoPrefix(s, p);
    assert t == p[Depth(l, h)..];
    assert s[Depth(l, h)..] == p[Depth(l, h)..|s|];
  }

  /** Below the top of the stack, a slot that starts inside s's interval is the one that links
      the next table of the stack. */
  lemma SlotInsidePath(l: nat, f: Forest, T: Tab, U: Tab, j: nat, s: seq<bool>, t: seq<bool>)
    requires OnPath(l, f, T, j, s) && OnPath(l, f, U, j + 1, s) && Linked(l, f, T, U, j)
    requires |t| == l && |s| <= BMAX && |f.info[T].pfx + t| <= |s|
    requires Lo(s) <= Lo(f.info[T].pfx + t) < Lo(s) + Span(s)
    ensures LinkTo(l, f, Slot(f, T, t), Depth(l, j), f.info[T].pfx + t)
  {
    var p := f.info[T].pfx + t;
    LoPrefix(p, s);
    assert p == f.info[U].pfx;
    assert t == p[Depth(l, j)..];
  }

  /** A table with a slot that starts inside s's interval is open. */
  lemma SlotInside(al: Alphabet, l: nat, f: Forest, u: seq<Tab>, h: nat, P: nat, T: Tab, t: seq<bool>)
    requires Layout(al, l, f) && h < |u| && Closed(f, u, h, P)
    requires T in f.info && |t| == Width(f, l, T) && |f.info[T].pfx + t| <= BMAX && P <= Lo(f.info[T].pfx + t)
    ensures Open(f, u, h, T)
  {
    assert FitsAt(al, l, f, T);
    assert Open(f, u, h, T) || Finished(f, P, T);
    LoPrefix(f.info[T].pfx, f.info[T].pfx + t);
  }

  /** A slot that starts inside s's interval is right once s's entries are written. */
  lemma NewSlot(al: Alphabet, l: nat, f: Forest, f2: Forest, u: seq<Tab>, h: nat, s: seq<bool>, P: nat, r: Huft,
          T: Tab, t: seq<bool>)
    requires |s| <= BMAX && Lo(s) == P
    requires Layout(al, l, f) && Stack(l, f, u, h, s) && Closed(f, u, h, P)
    requires OnPath(l, f, u[h], h, s) && Depth(l, h) < |s| <= Depth(l, h) + Width(f, l, u[h])
    requires Filled1(al, l, f, f2, u[h], s[Depth(l, h)..], r)
    requires |s| <= BMAX && LeafFor(al, r, s, Depth(l, h)) && Stack(l, f2, u, h, s)
    requires T in f.info && |t| == Width(f, l, T) && |f.info[T].pfx + t| <= BMAX && P <= Lo(f.info[T].pfx + t) < P + Span(s)
    ensures SlotRight(al, l, f2, Slot(f2, T, t), |f.info[T].pfx|, f.info[T].pfx + t)
  {
    SlotInside(al, l, f, u, h, P, T, t);
    var j := f.info[T].level;
    assert PathAt(l, f, u, j, s);
    if j == h {
      TopSlot(al, l, f, f2, T, h, s, r, t);
    } else {
      PathSlot(l, f, f2, u, h, s, j, t);
    }
  }

  lemma TopSlot(al: Alphabet, l: nat, f: Forest, f2: Forest, T: Tab, h: nat, s: seq<bool>, r: Huft, t: seq<bool>)
    requires Layout(al, l, f) && OnPath(l, f, T, h, s) && |t| == Width(f, l, T)
    requires Depth(l, h) < |s| <= Depth(l, h) + |t| && |s| <= BMAX
    requires Filled1(al, l, f, f2, T, s[Depth(l, h)..], r) && LeafFor(al, r, s, Depth(l, h))
    requires |f.info[T].pfx + t| <= BMAX && Lo(s) <= Lo(f.info[T].pfx + t) < Lo(s) + Span(s)
    ensures SlotRight(al, l, f2, Slot(f2, T, t), |f.info[T].pfx|, f.info[T].pfx + t)
  {
    SlotInsideTop(l, f, T, h, s, t);
    var path := f.info[T].pfx + t;
    assert path[..Depth(l, h) + r.b] == s;
  }

  lemma FillDone(al: Alphabet, l: nat, f: Forest, f2: Forest, u: seq<Tab>, h: nat, s: seq<bool>, P: nat, r: Huft)
    requires Building(al, l, f, u, h, s, P) && P < TOP
    requires Depth(l, h) < |s| <= Depth(l, h) + Width(f, l, u[h])
    requires Filled1(al, l, f, f2, u[h], s[Depth(l, h)..], r) && Layout(al, l, f2)
    requires LeafFor(al, r, s, Depth(l, h)) && Stack(l, f2, u, h, s)
    ensures Done(al, l, f2, P + Span(s))
  {
    forall T, t | T in f2.info && |t| == Width(f2, l, T) && Below(f2, T, t, P + Span(s))
      ensures SlotRight(al, l, f2, Slot(f2, T, t), |f2.info[T].pfx|, f2.info[T].pfx + t)
    {
      if Below(f, T, t, P) {
        assert PathAt(l, f, u, h, s);
        OldSlot(al, l, f, f2, u[h], h, s, r, T, t);
      } else {
        assert PathAt(l, f, u, h, s);
        NewSlot(al, l, f, f2, u, h, s, P, r, T, t);
      }
    }
  }

  lemma PathSlot(l: nat, f: Forest, f2: Forest, u: seq<Tab>, h: nat, s: seq<bool>, j: nat, t: seq<bool>)
    requires Stack(l, f, u, h, s) && Stack(l, f2, u, h, s) && f2.info == f.info && j < h
    requires u[j] in f.info && |t| == Width(f, l, u[j]) && Depth(l, h) < |s| <= BMAX && |f.info[u[j]].pfx + t| <= BMAX
    requires Lo(s) <= Lo(f.info[u[j]].pfx + t) < Lo(s) + Span(s)
    ensures LinkTo(l, f2, Slot(f2, u[j], t), Depth(l, j), f.info[u[j]].pfx + t)
  {
    assert PathAt(l, f2, u, j, s) && PathAt(l, f2, u, j + 1, s);
    assert LinkAt(l, f2, u, j);
    DepthMono(l, j, h);
    SlotInsidePath(l, f2, u[j], u[j + 1], j, s, t);
  }

  /** A slot below P was right before and s's entries are elsewhere. */
  lemma OldSlot(al: Alphabet, l: nat, f: Forest, f2: Forest, T0: Tab, h: nat, s: seq<bool>, r: Huft, T: Tab,
          t: seq<bool>)
    requires Layout(al, l, f) && Layout(al, l, f2) && |s| <= BMAX && Done(al, l, f, Lo(s))
    requires OnPath(l, f, T0, h, s) && Depth(l, h) < |s|
    requires Filled1(al, l, f, f2, T0, s[Depth(l, h)..], r)
    requires T in f.info && |t| == Width(f, l, T) && Below(f, T, t, Lo(s))
    ensures SlotRight(al, l, f2, Slot(f2, T, t), |f.info[T].pfx|, f.info[T].pfx + t)
  {
    if T == T0 && s[Depth(l, h)..] <= t {
      assert s <= f.info[T].pfx + t;
      LoPrefix(s, f.info[T].pfx + t);
    }
    SlotRightMono(al, l, f, f2, Slot(f, T, t), |f.info[T].pfx|, f.info[T].pfx + t);
  }

  /** Lines 280-296 keep the invariant and move past s. */
  lemma FillStep(al: Alphabet, l: nat, f: Forest, f2: Forest, u: seq<Tab>, h: nat, s: seq<bool>, P: nat, r: Huft)
    requires Building(al, l, f, u, h, s, P) && P < TOP
    requires Depth(l, h) < |s| <= Depth(l, h) + Width(f, l, u[h])
    requires Filled1(al, l, f, f2, u[h], s[Depth(l, h)..], r)
    requires LeafFor(al, r, s, Depth(l, h))
    ensures Layout(al, l, f2) && Done(al, l, f2, P + Span(s))
    ensures Closed(f2, u, h, P + Span(s)) && Stack(l, f2, u, h, s)
  {
    FillLayout(al, l, f, f2, u[h], s[Depth(l, h)..], r);
    FillStack(al, l, f, f2, u, h, s, s[Depth(l, h)..], r);
    FillDone(al, l, f, f2, u, h, s, P, r);
    forall T | T in f2.info ensures Open(f2, u, h, T) || Finished(f2, P + Span(s), T) {
      assert Open(f, u, h, T) || Finished(f, P, T);
    }
  }

  /*-- Moving to the next code -------------------------------------------------*/

  /** The next code of the same length starts where this one ends. */
  lemma IncPosition(s: seq<bool>)
    requires |s| <= BMAX && Lo(s) + Span(s) < TOP
    ensures Lo(Inc(s)) == Lo(s) + Span(s)
  {
    IncVal(s);
    LoSucc(s, Inc(s));
  }

  lemma LoSucc(s: seq<bool>, t: seq<bool>)
    requires |s| == |t| <= BMAX && Lo(s) + Span(s) < TOP
    requires Val(t) == if Val(s) + 1 == Pow2(|s|) then 0 else Val(s) + 1
    ensures Lo(t) == Lo(s) + Span(s)
  {
    var v, n, k := Val(s), |s|, 16 - |s|;
    ShlSucc(v, n, k);
  }

  lemma ShlSucc(v: nat, n: nat, k: nat)
    ensures Shl(v + 1, k) == Shl(v, k) + Pow2(k)
    ensures n + k == 16 && v + 1 == Pow2(n) ==> Shl(v, k) + Pow2(k) == TOP
  {
    ShlAdd(v, 1, k);
    ShlOne(k);
    ShlOne(n);
    ShlShl(1, n, k);
    ShlOne(n + k);
    Pow2To16();
  }

  /** Lines 304-307, one turn: a table whose bits do not start the next code n is finished. */
  lemma PopClosed(l: nat, f: Forest, u: seq<Tab>, h: nat, s: seq<bool>, n: seq<bool>, P: nat)
    requires Stack(l, f, u, h, s) && Closed(f, u, h, P) && h >= 1
    requires |s| == |n| <= BMAX && Lo(s) + Span(s) <= P
    requires u[h] in f.info && (P < TOP ==> Lo(n) == P && !(f.info[u[h]].pfx <= n))
    requires P <= TOP
    ensures Closed(f, u, h - 1, P)
  {
    StackTable(l, f, u, h, s, h);
    var pfx := f.info[u[h]].pfx;
    LoTop(pfx);
    LoPrefix(pfx, n);
    assert Finished(f, P, u[h]);
    forall T | T in f.info ensures Open(f, u, h - 1, T) || Finished(f, P, T) {
      assert Open(f, u, h, T) || Finished(f, P, T);
    }
  }

  /** Once the top table's bits start the next code, the whole stack is on its path. */
  lemma StackOnNext(l: nat, f: Forest, u: seq<Tab>, h: nat, s: seq<bool>, n: seq<bool>)
    requires Stack(l, f, u, h, s) && u[h] in f.info && f.info[u[h]].pfx <= n
    ensures Stack(l, f, u, h, n)
  {
    assert PathAt(l, f, u, h, s);
    forall j | 0 <= j <= h ensures PathAt(l, f, u, j, n) {
      assert PathAt(l, f, u, j, s);
      DepthMono(l, j, h);
      assert f.info[u[j]].pfx <= f.info[u[h]].pfx;
    }
  }

  /** k++ appends a zero bit: n starts where s starts and has the same table path. */
  lemma LengthenStep(al: Alphabet, l: nat, f: Forest, u: seq<Tab>, h: int, s: seq<bool>, n: seq<bool>, P: nat)
    requires Building(al, l, f, u, h, s, P)
    requires s <= n && |n| <= BMAX && Lo(n) == Lo(s)
    ensures Building(al, l, f, u, h, n, P)
  {
    if P < TOP && h >= 0 {
      assert PathAt(l, f, u, h, s);
      StackOnNext(l, f, u, h, s, n);
    }
  }
}
