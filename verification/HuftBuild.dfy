/** The second half of `huft_build`: generate the codes in order and enter each into the tables
    (zip/inflate.c:216-316). */
module HuftBuild {
  import opened Bits
  import opened Canonical
  import opened HuftCounts
  import opened HuftTables
  import opened HuftSizing
  import opened HuftStore

  /** Tables below the first are no wider than a decoder's index whenever the longest code is at
      most two tables long, or a complete set has fewer codes than a table has entries. */
  ghost predicate NarrowIfSmall(b: seq<nat>, l: nat, f: Forest) {
    SmallSet(b, l) ==> Narrow(f, l)
  }

  ghost predicate Narrow(f: Forest, l: nat) {
    forall T {:trigger NarrowAt(f, l, T)} :: T in f.info ==> NarrowAt(f, l, T)
  }

  ghost predicate NarrowAt(f: Forest, l: nat, T: Tab)
    requires T in f.info
  {
    f.info[T].pfx != [] ==> f.info[T].tb <= l
  }

  /** The local variables of the generation loop that say which tables are open: the stack u and the
      code bits x of each level, the level h, the bits w before the top table, that table q and its
      size z, and where the next table is to be chained. */
  datatype Levels = Levels(u: seq<Tab>, x: seq<nat>, h: int, w: int, q: Tab, z: nat, tail: Tab)

  /** The local variables of the generation loop say what the invariant says. */
  ghost predicate Locals(l: nat, f: Forest, chain: seq<Tab>, u: seq<Tab>, x: seq<nat>, h: int, w: int) {
    && |u| == BMAX && |x| == BMAX + 1 && x[0] == 0 && -1 <= h < BMAX
    && (h == -1 ==> w + l == 0)
    && (h >= 0 ==> w == Depth(l, h))
    && (forall j :: 0 <= j <= h ==> EntryAt(f, u, x, j))
    && (h == -1 <==> chain == [])
    && (h >= 0 ==> u[0] == First(chain) && u[0] in f.info && f.info[u[0]].pfx == [])
  }

  ghost predicate EntryAt(f: Forest, u: seq<Tab>, x: seq<nat>, j: nat) {
    j < |u| && j < |x| && StackEntry(f, u[j], x[j])
  }

  ghost predicate StackEntry(f: Forest, T: Tab, i: nat) {
    T in f.info && i == Num(f.info[T].pfx)
  }

  /** Before the code s of length k at position P: a more codes of length k follow it. */
  ghost predicate AtCode(b: seq<nat>, s: seq<bool>, k: nat, g: nat, a: nat, P: nat) {
    && g == MaxLen(b) && 1 <= k <= g <= BMAX
    && |s| == k && Lo(s) == P
    && P + Shl(a + 1, BMAX - k) == Upto(b, k) && Upto(b, k - 1) <= P
  }

  lemma AtCodeBelowTop(b: seq<nat>, s: seq<bool>, k: nat, g: nat, a: nat, P: nat)
    requires AtCode(b, s, k, g, a, P) && Kraft(b) <= TOP
    ensures P + Span(s) <= Upto(b, k) <= TOP && P < TOP
  {
    ShlWithin(0, a, a + 1, BMAX - k);
    UptoMono(b, k, k);
  }

  lemma {:induction false} DepthGrows(l: nat, h: nat)
    requires l >= 1
    ensures Depth(l, h) >= h
  {
    if h > 0 {
      DepthGrows(l, h - 1);
    }
  }

  /** At the start of a subtree the rest of the code is zeros. */
  lemma ZeroTail(p: seq<bool>, t: seq<bool>)
    requires |p + t| <= BMAX && Lo(p) == Lo(p + t)
    ensures Num(t) == 0
  {
    LoExtend(p, t);
    if Val(t) > 0 {
      ShlWithin(0, 0, Val(t), 16 - |p + t|);
    }
    ValZero(t);
  }

  /** So the code's value is the path's. */
  lemma SubtreeValue(s: seq<bool>, n: nat)
    requires n <= |s| <= BMAX && Lo(s[..n]) == Lo(s)
    ensures Num(s[..n]) == Num(s)
  {
    var p, t := s[..n], s[n..];
    assert s == p + t;
    ZeroTail(p, t);
    NumConcat(p, t);
    ShlOne(n);
  }

  /** And the index in the table above is the path's last bits. */
  lemma SubtreeIndex(s: seq<bool>, n: nat, m: nat)
    requires m <= n <= |s| <= BMAX && Lo(s[..n]) == Lo(s)
    ensures Shr(Num(s), m) == Num(s[m..n])
  {
    var t := s[n..];
    assert s == s[..n] + t;
    ZeroTail(s[..n], t);
    NumSplit(s, m);
    TailParts(s, m, n);
    TailValue(s[m..], s[m..n], t);
  }

  lemma TailParts(s: seq<bool>, m: nat, n: nat)
    requires m <= n <= |s|
    ensures s[m..] == s[m..n] + s[n..]
  {
  }

  lemma TailValue(v: seq<bool>, p: seq<bool>, t: seq<bool>)
    requires v == p + t && Num(t) == 0
    ensures Num(v) == Num(p)
  {
    NumConcat(p, t);
    ShlOne(|p|);
  }

  /** What line 234's guard tells about the table to be opened at level h0 + 1. */
  lemma OpenReady(al: Alphabet, l: nat, f: Forest, u: seq<Tab>, h0: int, s: seq<bool>, w: nat, P: nat)
    requires Building(al, l, f, u, h0, s, P) && P < TOP && Kraft(al.lens) <= TOP
    requires w == Depth(l, h0 + 1) < |s| <= MaxLen(al.lens) && Upto(al.lens, |s| - 1) <= P
    ensures h0 + 1 < BMAX && Lo(s[..w]) == P && P + Pow2(BMAX - w) <= TOP
    ensures h0 >= 0 ==> u[h0] in f.info && u[h0] in f.mem && Width(f, l, u[h0]) == l && w >= l
    ensures h0 >= 0 ==> Num(s[w - l..w]) < |f.mem[u[h0]]|
  {
    DepthGrows(l, h0 + 1);
    if h0 >= 0 {
      OpenOn(al, l, f, u, h0, s, w, P);
    } else {
      LoEmpty(s[..w]);
    }
    hide Lo, Pow2, Building, Upto, Kraft;
    RoomFor(s, w, P);
  }

  /** A string of w bits at P has room. */
  lemma RoomFor(s: seq<bool>, w: nat, P: nat)
    requires w <= |s| && w <= BMAX && Lo(s[..w]) == P
    ensures P + Pow2(BMAX - w) <= TOP
  {
    LoTop(s[..w]);
  }

  /** The same below another table. */
  lemma OpenOn(al: Alphabet, l: nat, f: Forest, u: seq<Tab>, h0: nat, s: seq<bool>, w: nat, P: nat)
    requires Building(al, l, f, u, h0, s, P) && P < TOP && Kraft(al.lens) <= TOP
    requires w == Depth(l, h0 + 1) < |s| <= MaxLen(al.lens) && Upto(al.lens, |s| - 1) <= P
    ensures h0 < |u| && Lo(s[..w]) == P && u[h0] in f.info && u[h0] in f.mem && Width(f, l, u[h0]) == l && w >= l
    ensures Num(s[w - l..w]) < |f.mem[u[h0]]|
  {
    hide Lo, Num, Done, Closed, Kraft, Upto;
    FreshSubtree(al, l, f, u, h0, s, P);
    assert PathAt(l, f, u, h0, s);
    SlotIndex(al, l, f, u[h0], s[w - l..w]);
  }

  lemma LoEmpty(s: seq<bool>)
    requires s == []
    ensures Lo(s) == 0
  {
    ShlOne(16 - |s|);
  }

  /** The same in terms of the program's variables. */
  lemma OpenFacts(al: Alphabet, l: nat, c: seq<nat>, k: nat, g: nat, a: nat, i: nat, f: Forest, chain: seq<Tab>,
          u: seq<Tab>, x: seq<nat>, h0: int, w0: int, s: seq<bool>, P: nat)
    requires Tally(al.lens, c) && AtCode(al.lens, s, k, g, a, P) && i == Num(s)
    requires Building(al, l, f, u, h0, s, P) && Locals(l, f, chain, u, x, h0, w0) && k > w0 + l
    ensures P < TOP && l >= 1 && 0 <= w0 + l < |s| && -1 <= h0 < BMAX - 1 && |u| == BMAX && |x| == BMAX + 1
    ensures var w := w0 + l;
            && w == Depth(l, h0 + 1) && Lo(s[..w]) == P && P + Pow2(BMAX - w) <= TOP
            && (h0 >= 0 ==>
                  && w0 >= 0 && u[h0] in f.info && Width(f, l, u[h0]) == l
                  && u[h0] in f.mem && Shr(i, w0) < |f.mem[u[h0]]|
                  && Shr(i, w0) == Num(s[..w][w0..]))
            && i == Num(s[..w]) && (h0 == -1 ==> w == 0 && i == 0)
  {
    AtCodeBelowTop(al.lens, s, k, g, a, P);
    var w := w0 + l;
    OpenReady(al, l, f, u, h0, s, w, P);
    SubtreeValue(s, w);
    if h0 >= 0 {
      SubtreeIndex(s, w, w0);
      assert s[..w][w0..] == s[w0..w];
    }
  }

  /** The invariant after one new table. */
  lemma OpenFinish(al: Alphabet, l: nat, f0: Forest, f: Forest, chain: seq<Tab>, u0: seq<Tab>, x0: seq<nat>, h0: int,
          w0: int, q: Tab, ti: TabInfo, at: nat, i: nat, s: seq<bool>, P: nat, u: seq<Tab>, x: seq<nat>, w: nat)
    requires Building(al, l, f0, u0, h0, s, P) && Locals(l, f0, chain, u0, x0, h0, w0) && P < TOP
    requires h0 + 1 < BMAX && w == w0 + l == Depth(l, h0 + 1) < |s|
        && Lo(s[..w]) == P && ti.pfx == s[..w] && ti.level == h0 + 1
    requires Opened(l, f0, f, u0, h0, q, ti, at) && TableFits(al, l, |f.mem[q]|, ti)
    requires h0 >= 0 ==> u0[h0] in f0.info && Width(f0, l, u0[h0]) == l && w0 >= 0 && at == Num(ti.pfx[w0..])
    requires i == Num(s[..w]) && (h0 == -1 ==> w == 0 && i == 0)
    requires NarrowIfSmall(al.lens, l, f0) && (w >= l && SmallSet(al.lens, l) ==> ti.tb <= l)
    requires u == u0[h0 + 1 := q] && x == if h0 >= 0 then x0[h0 + 1 := i] else x0
    ensures Building(al, l, f, u, h0 + 1, s, P) && Locals(l, f, chain + [q], u, x, h0 + 1, w)
    ensures NarrowIfSmall(al.lens, l, f) && StackEntry(f, q, i) && f.info[q] == ti
  {
    OpenStep(al, l, f0, f, u0, h0, q, ti, at, s, P);
    OpenLocals(l, f0, f, chain, u0, x0, h0, w0, q, ti, i);
    OpenNarrow(al.lens, l, f0, f, q, ti);
  }

  /** Lines 254-275: allocate the table and connect it to the last one, if there is one. */
  method OpenTable(heap: Arena, l: nat, tb: nat, tail: Tab, h: nat, up: Tab, at: nat, ghost M: map<Tab, seq<Huft>>,
          ghost f0: Forest, ghost chain0: seq<Tab>, ghost u: seq<Tab>, ghost ti: TabInfo)
    returns (q: Tab, ghost f: Forest)
    requires InMemory(heap.mem, M, f0, chain0) && tail == Last(chain0)
    requires h <= |u| && ti.tb == tb && ti.place == |chain0|
    requires h > 0 ==> up == u[h - 1] && up in f0.mem && at < |f0.mem[up]|
    modifies heap
    ensures Opened(l, f0, f, u, h - 1, q, ti, at) && |f.mem[q]| == Pow2(tb)
    ensures InMemory(heap.mem, M, f, chain0 + [q])
  {
    q, f := AddTable(heap, tail, M, f0, chain0, tb, ti);
    if h > 0 {
      f := Connect(heap, up, at, Huft(16 + tb, l, Link(q)), M, f, chain0 + [q]);
    }
  }

  ghost predicate SmallSet(b: seq<nat>, l: nat) {
    MaxLen(b) <= 2 * l || (Kraft(b) == TOP && NumCodes(b) < Pow2(l))
  }

  /** Lines 239-252 for the subtree at P. */
  method SizeTable(ghost al: Alphabet, c: seq<nat>, k: nat, w: nat, l: nat, g: nat, a: nat, ghost s: seq<bool>,
          ghost P: nat, ghost level: nat, ghost place: nat)
    returns (j: nat)
    requires ValidLens(al.lens) && Tally(al.lens, c) && AtCode(al.lens, s, k, g, a, P) && l >= 1
    requires w < k && Lo(s[..w]) == P && P + Pow2(BMAX - w) <= TOP
    ensures TableFits(al, l, Pow2(j), TabInfo(s[..w], j, level, place))
    ensures w >= l && SmallSet(al.lens, l) ==> j <= l
  {
    j := TableBits(al.lens, c, k, w, l, g, a, P);
  }

  lemma OpenLocals(l: nat, f0: Forest, f: Forest, chain: seq<Tab>, u: seq<Tab>, x: seq<nat>, h0: int, w: int, q: Tab,
          ti: TabInfo, i: nat)
    requires Locals(l, f0, chain, u, x, h0, w) && h0 + 1 < BMAX
    requires q !in f0.info && f.info == f0.info[q := ti]
    requires StackEntry(f, q, i) && (h0 == -1 ==> ti.pfx == [] && i == 0)
    ensures Locals(l, f, chain + [q], u[h0 + 1 := q], if h0 >= 0 then x[h0 + 1 := i] else x, h0 + 1, w + l)
  {
    var u2, x2 := u[h0 + 1 := q], if h0 >= 0 then x[h0 + 1 := i] else x;
    forall j | 0 <= j <= h0 + 1 ensures EntryAt(f, u2, x2, j) {
      if j <= h0 {
        assert EntryAt(f0, u, x, j);
      }
    }
  }

  lemma OpenNarrow(b: seq<nat>, l: nat, f0: Forest, f: Forest, q: Tab, ti: TabInfo)
    requires NarrowIfSmall(b, l, f0) && f.info == f0.info[q := ti]
    requires ti.pfx != [] && SmallSet(b, l) ==> ti.tb <= l
    ensures NarrowIfSmall(b, l, f)
  {
    if SmallSet(b, l) {
      forall T | T in f.info ensures NarrowAt(f, l, T) {
        assert T in f0.info ==> NarrowAt(f0, l, T);
      }
    }
  }

  /** q and z describe the table on top of the stack, or a new one is about to be opened. */
  ghost predicate TopTable(f: Forest, u: seq<Tab>, h: int, q: Tab, z: nat) {
    0 <= h < |u| && q == u[h] && q in f.info && z == Pow2(f.info[q].tb)
  }

  /** What holds from the opening of one table to that of the next. */
  ghost predicate Opening(al: Alphabet, l: nat, mem: map<Tab, seq<Huft>>, M: map<Tab, seq<Huft>>, f: Forest,
          chain: seq<Tab>, o: Levels, s: seq<bool>, P: nat) {
    && Building(al, l, f, o.u, o.h, s, P) && Locals(l, f, chain, o.u, o.x, o.h, o.w)
    && InMemory(mem, M, f, chain) && o.tail == Last(chain)
    && NarrowIfSmall(al.lens, l, f)
  }

  /** Lines 235-275, one new table. */
  method OpenOne(heap: Arena, c: seq<nat>, k: nat, l: nat, g: nat, a: nat, i: nat, o0: Levels, ghost al: Alphabet,
          ghost M: map<Tab, seq<Huft>>, ghost f0: Forest, ghost chain0: seq<Tab>, ghost s: seq<bool>, ghost P: nat)
    returns (o: Levels, ghost f: Forest, ghost chain: seq<Tab>)
    requires ValidLens(al.lens) && Tally(al.lens, c) && AtCode(al.lens, s, k, g, a, P) && i == Num(s)
    requires Opening(al, l, heap.mem, M, f0, chain0, o0, s, P) && k > o0.w + l
    modifies heap
    ensures o.h == o0.h + 1 && o.w == o0.w + l
    ensures Opening(al, l, heap.mem, M, f, chain, o, s, P) && TopTable(f, o.u, o.h, o.q, o.z)
    ensures chain0 <= chain
  {
    hide Lo, Num, Shl, Span, Upto, Kraft, Building, Locals, InMemory, NarrowIfSmall, AtCode, Tally, ValidLens,
      TableFits, SmallSet;
    OpenFacts(al, l, c, k, g, a, i, f0, chain0, o0.u, o0.x, o0.h, o0.w, s, P);
    var h, w, x := o0.h + 1, o0.w + l, o0.x;
    var j := SizeTable(al, c, k, w, l, g, a, s, P, h, |chain0|);
    var up, at := NULL, 0;
    if h > 0 {
      assert w - l == o0.w >= 0;
      x := x[h := i];
      up, at := o0.u[h - 1], Shr(i, w - l);
    }
    ghost var ti := TabInfo(s[..w], j, h, |chain0|);
    var q;
    q, f := OpenTable(heap, l, j, o0.tail, h, up, at, M, f0, chain0, o0.u, ti);
    o := Levels(o0.u[h := q], x, h, w, q, Pow2(j), q);
    chain := chain0 + [q];
    OpenFinish(al, l, f0, f, chain0, o0.u, o0.x, o0.h, o0.w, q, ti, at, i, s, P, o.u, x, w);
  }

  /** Lines 234-277: open tables until the code fits into the top one. */
  method OpenTables(heap: Arena, c: seq<nat>, k: nat, l: nat, g: nat, a: nat, i: nat, o0: Levels, ghost al: Alphabet,
          ghost M: map<Tab, seq<Huft>>, ghost f0: Forest, ghost chain0: seq<Tab>, ghost s: seq<bool>, ghost P: nat)
    returns (o: Levels, ghost f: Forest, ghost chain: seq<Tab>)
    requires ValidLens(al.lens) && Tally(al.lens, c) && AtCode(al.lens, s, k, g, a, P) && i == Num(s) && l >= 1
    requires Progress(al, l, heap.mem, M, f0, chain0, o0, k, s, P)
    modifies heap
    ensures Progress(al, l, heap.mem, M, f, chain, o, k, s, P)
    ensures o.w < k <= o.w + l && o.h >= o0.h && TopTable(f, o.u, o.h, o.q, o.z)
    ensures chain0 <= chain
  {
    hide Opening, AtCode, Tally, ValidLens, Num, TopTable;
    o, f, chain := o0, f0, chain0;
    while k > o.w + l
      invariant Progress(al, l, heap.mem, M, f, chain, o, k, s, P)
      invariant chain0 <= chain && o.h >= o0.h
      decreases k - o.w
    {
      o, f, chain := OpenOne(heap, c, k, l, g, a, i, o, al, M, f, chain, s, P);
    }
  }

  /** What the loop keeps between codes. */
  ghost predicate Progress(al: Alphabet, l: nat, mem: map<Tab, seq<Huft>>, M: map<Tab, seq<Huft>>, f: Forest,
          chain: seq<Tab>, o: Levels, k: nat, s: seq<bool>, P: nat) {
    Opening(al, l, mem, M, f, chain, o, s, P) && (TopTable(f, o.u, o.h, o.q, o.z) || k > o.w + l) && o.w < k
  }

  /*-- Lines 280-290 ----------------------------------------------------------*/

  /** Which code of its length s is. */
  lemma CodeNumber(b: seq<nat>, c: seq<nat>, s: seq<bool>, k: nat, g: nat, a: nat, P: nat)
    requires Tally(b, c) && AtCode(b, s, k, g, a, P) && a < c[k]
    ensures Val(s) == FirstCode(b, k) + (c[k] - 1 - a)
  {
    var e := BMAX - k;
    assert TallyAt(b, c, k);
    FirstCodeFilled(b, k);
    ShlAdd(c[k] - 1 - a, a + 1, e);
    ShlAdd(FirstCode(b, k), c[k] - 1 - a, e);
    ShlCancel(Val(s), FirstCode(b, k) + (c[k] - 1 - a), e);
  }

  /** It is some symbol's, or comes after the last. */
  lemma CodeKind(b: seq<nat>, c: seq<nat>, s: seq<bool>, k: nat)
    requires Tally(b, c) && 1 <= k == |s| <= MaxLen(b)
    requires FirstCode(b, k) <= Val(s) < FirstCode(b, k) + c[k]
    ensures RealCode(b, s) || PastCodes(b, s)
  {
    assert TallyAt(b, c, k);
  }

  /** Past the greatest length there are no more symbols. */
  lemma {:induction false} OffsetPastMax(b: seq<nat>, t: nat)
    requires MaxLen(b) < t <= BMAX + 1
    ensures Offset(b, t) == Offset(b, MaxLen(b) + 1)
  {
    if MaxLen(b) + 1 < t {
      MaxLenBound(b);
      CountBound(b, t - 1);
      OffsetPastMax(b, t - 1);
    }
  }

  /** A dummy code comes after all symbols. */
  lemma DummyPlace(b: seq<nat>, n: nat)
    requires ValidLens(b) && 1 <= MaxLen(b) <= BMAX && n >= Count(b, MaxLen(b)) && 0 !in b
    ensures Offset(b, MaxLen(b)) + n >= |b|
  {
    OffsetPastMax(b, BMAX + 1);
    OffsetTotal(b);
    CountBound(b, 0);
  }

  /** The entry for the code s, number `rank` in the order of codes. Past the last symbol but
      inside the list of lengths v was never set, and what e and d give for it is anything. */
  method MakeEntry(al: Alphabet, v: seq<nat>, p0: nat, k: nat, w: nat, ghost s: seq<bool>, ghost rank: nat)
    returns (r: Huft, p: nat)
    requires ValidAlphabet(al) && |v| == N_MAX && |al.lens| <= N_MAX
    requires SortedUpTo(al.lens, |al.lens|, v)
    requires w < k == |s| <= MaxLen(al.lens) <= BMAX
    requires RealCode(al.lens, s) || PastCodes(al.lens, s)
    requires rank == Offset(al.lens, k) + Val(s) - FirstCode(al.lens, k) && p0 == Min(rank, |al.lens|)
    ensures LeafFor(al, r, s, w)
    ensures p == Min(rank + 1, |al.lens|)
  {
    ghost var b := al.lens;
    if RealCode(b, s) {
      RankOfCode(b, s, v);
      SymsOfLenAt(b, k, Val(s) - FirstCode(b, k));
      RankBound(b, SymAt(b, s));
      assert rank < |b|;
    } else if 0 !in b {
      DummyPlace(b, Val(s) - FirstCode(b, k));
    }
    p := p0;
    r := *;
    r := r.(b := k - w);
    if p >= |al.lens| {
      r := r.(e := INVALID);
    } else if v[p] < al.simple {
      r := r.(e := if v[p] < 256 then LITERAL else END_OF_BLOCK, v := Number(v[p]));
      p := p + 1;
    } else if v[p] - al.simple < |al.extra| {
      r := r.(e := al.extra[v[p] - al.simple], v := Number(al.base[v[p] - al.simple]));
      p := p + 1;
    } else {
      p := p + 1;
    }
  }

  /*-- Lines 292-296 ----------------------------------------------------------*/

  /** The entries whose index ends in i >> w are those whose index bits start with the code's. */
  lemma IndexMatches(t: seq<bool>, c: seq<bool>)
    requires |c| <= |t|
    ensures Low(Num(t), |c|) == Num(c) <==> c <= t
  {
    NumSplit(t, |c|);
    if Num(t[..|c|]) == Num(c) {
      NumInjective(t[..|c|], c);
    }
  }

  lemma FillIsFilled(al: Alphabet, l: nat, f: Forest, f2: Forest, T: Tab, c: seq<bool>, r: Huft, entries: seq<Huft>)
    requires Layout(al, l, f) && T in f.info && |c| <= Width(f, l, T)
    requires T in f.mem && |entries| == |f.mem[T]| && f2 == f.(mem := f.mem[T := entries])
    requires forall n :: 0 <= n < |entries| ==> entries[n] == if Low(n, |c|) == Num(c) then r else f.mem[T][n]
    ensures Filled1(al, l, f, f2, T, c, r)
  {
    forall t: seq<bool> | |t| == Width(f, l, T)
      ensures Slot(f2, T, t) == if c <= t then r else Slot(f, T, t)
    {
      SlotIndex(al, l, f, T, t);
      IndexMatches(t, c);
    }
  }

  /** Fill the code-like entries of the top table with r. */
  method WriteCode(heap: Arena, q: Tab, z: nat, i: nat, k: nat, w: nat, r: Huft, ghost al: Alphabet,
          ghost M: map<Tab, seq<Huft>>, ghost f: Forest, ghost chain: seq<Tab>, ghost l: nat, ghost s: seq<bool>)
    returns (ghost f2: Forest)
    requires InMemory(heap.mem, M, f, chain) && Layout(al, l, f)
    requires q in f.info && z == Pow2(f.info[q].tb)
    requires i == Num(s) && w < k == |s| <= w + Width(f, l, q)
    modifies heap
    ensures InMemory(heap.mem, M, f2, chain)
    ensures Filled1(al, l, f, f2, q, s[w..], r)
  {
    assert FitsAt(al, l, f, q);
    BlockOf(heap.mem, M, f, chain, q);
    NumSplit(s, w);
    NumBound(s[w..]);
    FillEntries(heap, q, z, Shr(i, w), k - w, r);
    ghost var block := heap.mem[q];
    PutTable(old(heap.mem), M, f, chain, q, block);
    f2 := f.(mem := f.mem[q := block[1..]]);
    FillIsFilled(al, l, f, f2, q, s[w..], r, block[1..]);
  }

  /*-- Lines 298-307 ----------------------------------------------------------*/

  /** The last bit of a string, as the program tests it. */
  lemma LastBit(c: seq<bool>)
    requires c != []
    ensures var n := |c| - 1;
            && Shr(Num(c), n) % 2 == Bit(c[n])
            && Num(c) == Num(c[..n]) + (if c[n] then Pow2(n) else 0)
            && Num(c[..n] + [true]) == Num(c[..n]) + Pow2(n)
  {
    var n := |c| - 1;
    assert c[n..] == [c[n]] && c == c[..n] + [c[n]];
    NumSplit(c, n);
    assert Num([c[n]]) == Bit(c[n]);
    NumSnoc(c[..n], c[n]);
    NumSnoc(c[..n], true);
  }

  lemma ZerosAfter(c: seq<bool>, n: nat)
    ensures Num(c + seq(n, _ => false)) == Num(c)
    decreases n
  {
    if n == 0 {
      assert c + seq(n, _ => false) == c;
    } else {
      assert c + seq(n, _ => false) == (c + seq(n - 1, _ => false)) + [false];
      ZerosAfter(c, n - 1);
      NumConcat(c + seq(n - 1, _ => false), [false]);
      ShlOne(|c| + n - 1);
    }
  }

  /** The backwards increment: j walks down from the last bit of the code, clearing ones, and sets
      the first zero; off the end it is 0 and nothing is set. `bit` is the number of j's bit. */
  method ReverseIncrement(i0: nat, k: nat, ghost s: seq<bool>) returns (i: nat)
    requires i0 == Num(s) && |s| == k >= 1
    ensures i == Num(Inc(s))
  {
    i := i0;
    var bit: int := k - 1;
    ghost var c := s;
    assert s == c + seq(0, _ => false);
    while bit >= 0 && Shr(i, bit) % 2 == 1
      invariant -1 <= bit < k && |c| == bit + 1
      invariant i == Num(c)
      invariant Inc(s) == Inc(c) + seq(k - |c|, _ => false)
      decreases bit
    {
      LastBit(c);
      i := i - Pow2(bit);
      assert Inc(c) == Inc(c[..bit]) + [false];
      assert [false] + seq(k - |c|, _ => false) == seq(k - |c| + 1, _ => false);
      assert (Inc(c[..bit]) + [false]) + seq(k - |c|, _ => false) == Inc(c[..bit]) + ([false] + seq(k - |c|, _ => false));
      c := c[..bit];
      bit := bit - 1;
    }
    if bit >= 0 {
      LastBit(c);
      i := i + Pow2(bit);
    }
    ZerosAfter(Inc(c), k - |c|);
  }

  /** Line 304's test on the table T, w bits down. */
  lemma PrefixTest(n: seq<bool>, pfx: seq<bool>)
    requires |pfx| <= |n|
    ensures Low(Num(n), |pfx|) == Num(pfx) <==> pfx <= n
  {
    IndexMatches(n, pfx);
  }

  /** Back up over finished tables. s is the code just written, n the next. */
  method BackUp(i: nat, l: nat, k: nat, x: seq<nat>, h0: int, w0: int, ghost f: Forest, ghost chain: seq<Tab>,
          ghost u: seq<Tab>, ghost s: seq<bool>, ghost n: seq<bool>, ghost P: nat)
    returns (h: int, w: int)
    requires Locals(l, f, chain, u, x, h0, w0) && h0 >= 0 && l >= 1
    requires Stack(l, f, u, h0, s) && Closed(f, u, h0, P)
    requires |s| == |n| == k <= BMAX && w0 < k && i == Num(n)
    requires Lo(s) + Span(s) <= P <= TOP && (P < TOP ==> Lo(n) == P)
    ensures 0 <= h <= h0 && Locals(l, f, chain, u, x, h, w)
    ensures Closed(f, u, h, P) && (P < TOP ==> Stack(l, f, u, h, n))
    ensures h == h0 || w + l <= w0
  {
    h, w := h0, w0;
    assert PathAt(l, f, u, 0, s);
    while Low(i, w) != x[h]
      invariant 0 <= h <= h0 && Locals(l, f, chain, u, x, h, w)
      invariant Stack(l, f, u, h, s) && Closed(f, u, h, P)
      invariant h == h0 || w + l <= w0
      invariant f.info[u[0]].pfx == []
      decreases h
    {
      assert EntryAt(f, u, x, h) && PathAt(l, f, u, h, s);
      PrefixTest(n, f.info[u[h]].pfx);
      PopClosed(l, f, u, h, s, n, P);
      h := h - 1;
      w := w - l;
    }
    assert EntryAt(f, u, x, h) && PathAt(l, f, u, h, s);
    PrefixTest(n, f.info[u[h]].pfx);
    StackOnNext(l, f, u, h, s, n);
  }

  /*-- The loop ---------------------------------------------------------------*/

  /** The code fits into the top table once no further table is needed. */
  lemma FitsTop(al: Alphabet, l: nat, f: Forest, chain: seq<Tab>, u: seq<Tab>, x: seq<nat>, h: nat, w: nat,
          s: seq<bool>, k: nat, g: nat, a: nat, P: nat)
    requires Building(al, l, f, u, h, s, P) && Locals(l, f, chain, u, x, h, w)
    requires AtCode(al.lens, s, k, g, a, P) && Kraft(al.lens) <= TOP
    requires w < k <= w + l
    ensures k <= w + Width(f, l, u[h])
  {
    AtCodeBelowTop(al.lens, s, k, g, a, P);
    TopIsFull(al, l, f, u, h, s, P);
  }

  /** Positions and numbers one code further. */
  lemma NextPosition(b: seq<nat>, s: seq<bool>, k: nat, g: nat, a: nat, P: nat)
    requires AtCode(b, s, k, g, a, P) && Kraft(b) <= TOP
    ensures P + Span(s) + Shl(a, BMAX - k) == Upto(b, k)
    ensures P + Span(s) <= TOP
    ensures P + Span(s) < TOP ==> Lo(Inc(s)) == P + Span(s)
  {
    AtCodeBelowTop(b, s, k, g, a, P);
    ShlAdd(a, 1, BMAX - k);
    ShlOne(BMAX - k);
    if P + Span(s) < TOP {
      IncPosition(s);
    }
  }

  lemma SameInfo(b: seq<nat>, l: nat, f: Forest, f2: Forest, chain: seq<Tab>, u: seq<Tab>, x: seq<nat>, h: int, w: int)
    requires Locals(l, f, chain, u, x, h, w) && NarrowIfSmall(b, l, f) && f2.info == f.info
    ensures Locals(l, f2, chain, u, x, h, w) && NarrowIfSmall(b, l, f2)
  {
    forall j | 0 <= j <= h ensures EntryAt(f2, u, x, j) {
      assert EntryAt(f, u, x, j);
    }
    if SmallSet(b, l) {
      forall T | T in f2.info ensures NarrowAt(f2, l, T) {
        assert NarrowAt(f, l, T);
      }
    }
  }

  /** Lines 280-296: the entry for s goes into the top table. */
  method PlaceCode(heap: Arena, al: Alphabet, c: seq<nat>, v: seq<nat>, k: nat, l: nat, g: nat, a: nat, i: nat,
          p0: nat, o: Levels, ghost M: map<Tab, seq<Huft>>, ghost f0: Forest, ghost chain: seq<Tab>,
          ghost s: seq<bool>, ghost P: nat)
    returns (p: nat, ghost f: Forest)
    requires ValidAlphabet(al) && |v| == N_MAX && 1 <= |al.lens| <= N_MAX && SortedUpTo(al.lens, |al.lens|, v)
    requires Tally(al.lens, c) && AtCode(al.lens, s, k, g, a, P) && a < c[k] && i == Num(s)
    requires p0 == Min(Offset(al.lens, k) + (c[k] - 1 - a), |al.lens|)
    requires Opening(al, l, heap.mem, M, f0, chain, o, s, P) && TopTable(f0, o.u, o.h, o.q, o.z) && o.w < k <= o.w + l
    modifies heap
    ensures Layout(al, l, f) && Done(al, l, f, P + Span(s)) && Closed(f, o.u, o.h, P + Span(s)) && Stack(l, f, o.u, o.h, s)
    ensures Locals(l, f, chain, o.u, o.x, o.h, o.w) && NarrowIfSmall(al.lens, l, f) && f.info == f0.info
    ensures InMemory(heap.mem, M, f, chain)
    ensures p == Min(Offset(al.lens, k) + (c[k] - a), |al.lens|)
  {
    hide Lo, Num, Shl, Span, Upto, Offset, FirstCode, Count, Kraft, Done, Closed, Stack, RealCode, PastCodes,
      LeafFor, Filled1;
    FitsTop(al, l, f0, chain, o.u, o.x, o.h, o.w, s, k, g, a, P);
    CodeNumber(al.lens, c, s, k, g, a, P);
    CodeKind(al.lens, c, s, k);
    AtCodeBelowTop(al.lens, s, k, g, a, P);
    var r;
    r, p := MakeEntry(al, v, p0, k, o.w, s, Offset(al.lens, k) + (c[k] - 1 - a));
    f := WriteCode(heap, o.q, o.z, i, k, o.w, r, al, M, f0, chain, l, s);
    FillStep(al, l, f0, f, o.u, o.h, s, P, r);
    SameInfo(al.lens, l, f0, f, chain, o.u, o.x, o.h, o.w);
  }

  /** Lines 231-308: enter one code and move to the next. */
  method EnterCode(heap: Arena, al: Alphabet, c: seq<nat>, v: seq<nat>, k: nat, l: nat, g: nat, a: nat, i0: nat,
          p0: nat, o0: Levels, ghost M: map<Tab, seq<Huft>>, ghost f0: Forest, ghost chain0: seq<Tab>,
          ghost s: seq<bool>, ghost P: nat)
    returns (i: nat, p: nat, o: Levels, ghost f: Forest, ghost chain: seq<Tab>)
    requires ValidAlphabet(al) && |v| == N_MAX && 1 <= |al.lens| <= N_MAX && SortedUpTo(al.lens, |al.lens|, v)
    requires Tally(al.lens, c) && AtCode(al.lens, s, k, g, a, P) && a < c[k] && i0 == Num(s) && l >= 1
    requires p0 == Min(Offset(al.lens, k) + (c[k] - 1 - a), |al.lens|)
    requires Progress(al, l, heap.mem, M, f0, chain0, o0, k, s, P)
    modifies heap
    ensures Progress(al, l, heap.mem, M, f, chain, o, k, Inc(s), P + Span(s))
    ensures i == Num(Inc(s)) && p == Min(Offset(al.lens, k) + (c[k] - a), |al.lens|)
    ensures o.h >= 0
    ensures chain0 <= chain
  {
    o, f, chain := OpenTables(heap, c, k, l, g, a, i0, o0, al, M, f0, chain0, s, P);
    p, f := PlaceCode(heap, al, c, v, k, l, g, a, i0, p0, o, M, f, chain, s, P);
    i := ReverseIncrement(i0, k, s);
    NextPosition(al.lens, s, k, g, a, P);
    var h, w := BackUp(i, l, k, o.x, o.h, o.w, f, chain, o.u, s, Inc(s), P + Span(s));
    o := o.(h := h, w := w);
  }

  /** The finished tables: every slot right, `root` the first table. */
  ghost predicate Built(al: Alphabet, l: nat, f: Forest, root: Tab) {
    && Layout(al, l, f) && Done(al, l, f, TOP)
    && root in f.info && f.info[root].pfx == []
    && NarrowIfSmall(al.lens, l, f)
  }

  lemma FirstPosition(b: seq<nat>, l: nat, j: nat, al: Alphabet, u: seq<Tab>)
    requires al.lens == b && ShortestIs(b, j) && j <= MaxLen(b) <= BMAX && l >= 1 && |u| == BMAX
    ensures var s := seq(j, _ => false);
            Num(s) == 0 && Upto(b, j - 1) == 0 && Building(al, l, Forest(map[], map[]), u, -1, s, 0)
    ensures Offset(b, j) == 0
  {
    var s := seq(j, _ => false);
    ZerosAfter([], j);
    assert [] + s == s;
    ZeroVal(j);
    ShlOne(16 - j);
    FilledBelow(b, j - 1);
    OffsetBelow(b, j);
  }

  lemma {:induction false} ZeroVal(n: nat)
    ensures Val(seq(n, _ => false)) == 0
  {
    if n != 0 {
      assert seq(n, _ => false)[..n - 1] == seq(n - 1, _ => false);
      ZeroVal(n - 1);
    }
  }

  lemma {:induction false} OffsetBelow(b: seq<nat>, t: nat)
    requires forall u :: 1 <= u < t ==> Count(b, u) == 0
    ensures Offset(b, t) == 0
  {
    if t > 1 {
      OffsetBelow(b, t - 1);
    }
  }

  /** k++: the next length starts where this one ends. */
  lemma NextLength(b: seq<nat>, c: seq<nat>, k: nat)
    requires Tally(b, c) && 1 <= k < MaxLen(b)
    ensures Offset(b, k + 1) == Offset(b, k) + c[k]
    ensures Upto(b, k) + Shl(c[k + 1], BMAX - (k + 1)) == Upto(b, k + 1)
  {
    assert TallyAt(b, c, k) && TallyAt(b, c, k + 1);
  }

  /** Lines 229-310: all codes of length k. */
  method EnterLength(heap: Arena, al: Alphabet, c: seq<nat>, v: seq<nat>, k: nat, l: nat, g: nat, i0: nat, p0: nat,
          o0: Levels, ghost M: map<Tab, seq<Huft>>, ghost f0: Forest, ghost chain0: seq<Tab>, ghost s0: seq<bool>,
          ghost P0: nat)
    returns (i: nat, p: nat, o: Levels, ghost f: Forest, ghost chain: seq<Tab>, ghost s: seq<bool>)
    requires ValidAlphabet(al) && |v| == N_MAX && 1 <= |al.lens| <= N_MAX && SortedUpTo(al.lens, |al.lens|, v)
    requires Tally(al.lens, c) && 1 <= k <= g == MaxLen(al.lens) && l >= 1
    requires |s0| == k && i0 == Num(s0) && p0 == Min(Offset(al.lens, k), |al.lens|)
    requires P0 == Upto(al.lens, k - 1) && P0 + Shl(c[k], BMAX - k) == Upto(al.lens, k)
    requires Progress(al, l, heap.mem, M, f0, chain0, o0, k, s0, P0)
    modifies heap
    ensures Progress(al, l, heap.mem, M, f, chain, o, k, s, Upto(al.lens, k))
    ensures |s| == k && i == Num(s) && p == Min(Offset(al.lens, k) + c[k], |al.lens|)
    ensures o0.h >= 0 || c[k] > 0 ==> o.h >= 0
  {
    hide Upto, Stack, InMemory, ValidLens, Locals, Closed, Offset, Done, Shl, Lo, Span, Num, Inc, Kraft;
    i, p, o, f, chain, s := i0, p0, o0, f0, chain0, s0;
    ghost var P: nat := P0;
    var a := c[k];
    while a > 0
      invariant 0 <= a <= c[k] && (o0.h >= 0 || a < c[k] ==> o.h >= 0)
      invariant Progress(al, l, heap.mem, M, f, chain, o, k, s, P)
      invariant |s| == k && i == Num(s) && p == Min(Offset(al.lens, k) + (c[k] - a), |al.lens|)
      invariant P + Shl(a, BMAX - k) == Upto(al.lens, k) && Upto(al.lens, k - 1) <= P
    {
      a := a - 1;
      NextIsCode(al, l, f, o.u, o.h, s, k, g, a, P);
      i, p, o, f, chain := EnterCode(heap, al, c, v, k, l, g, a, i, p, o, M, f, chain, s, P);
      s, P := Inc(s), P + Span(s);
    }
    ShlOne(BMAX - k);
  }

  /** Lines 216-311. */
  method GenerateTables(heap: Arena, al: Alphabet, c: seq<nat>, v: seq<nat>, first: nat, l: nat, g: nat)
    returns (root: Tab, ghost f: Forest, ghost chain: seq<Tab>)
    requires ValidAlphabet(al) && |v| == N_MAX && 1 <= |al.lens| <= N_MAX && SortedUpTo(al.lens, |al.lens|, v)
    requires Tally(al.lens, c) && ShortestIs(al.lens, first) && first <= g == MaxLen(al.lens) && l >= 1
    modifies heap
    ensures Built(al, l, f, root)
    ensures InMemory(heap.mem, old(heap.mem), f, chain) && root == First(chain)
  {
    hide Lo, Num, Shl, Span, Kraft, Inc, Upto, Offset;
    ghost var M := old(heap.mem);
    var k, i, p := first, 0, 0;
    var o := Levels(seq(BMAX, _ => NULL), seq(BMAX + 1, _ => 0), -1, 0 - l, NULL, 0, NULL);
    f, chain := Forest(map[], map[]), [];
    ghost var s: seq<bool> := seq(first, _ => false);
    StartProgress(al, l, first, M, o, s);
    FirstTally(al.lens, c, first);
    hide Progress, ValidAlphabet, SortedUpTo, Tally, ShortestIs;
    while k <= g
      invariant first <= k <= g + 1
      invariant Progress(al, l, heap.mem, M, f, chain, o, k, s, Upto(al.lens, k - 1))
      invariant k > first ==> o.h >= 0
      invariant k <= g ==> |s| == k && i == Num(s) && p == Min(Offset(al.lens, k), |al.lens|)
      invariant k <= g ==> Upto(al.lens, k - 1) + Shl(c[k], BMAX - k) == Upto(al.lens, k)
    {
      i, p, o, f, chain, s := EnterLength(heap, al, c, v, k, l, g, i, p, o, M, f, chain, s, Upto(al.lens, k - 1));
      if k < g {
        Lengthen(al, l, c, heap.mem, M, f, chain, o, k, s);
        s := s + [false];
      }
      k := k + 1;
    }
    EndProgress(al, l, heap.mem, M, f, chain, o, k, s);
    root := o.u[0];
  }

  /** Before the first code nothing is built and no table is open. */
  lemma StartProgress(al: Alphabet, l: nat, first: nat, M: map<Tab, seq<Huft>>, o: Levels, s: seq<bool>)
    requires ValidLens(al.lens) && ShortestIs(al.lens, first) && first <= MaxLen(al.lens)
        && l >= 1 && s == seq(first, _ => false)
    requires o == Levels(seq(BMAX, _ => NULL), seq(BMAX + 1, _ => 0), -1, 0 - l, NULL, 0, NULL)
    ensures Progress(al, l, M, M, Forest(map[], map[]), [], o, first, s, Upto(al.lens, first - 1))
    ensures Num(s) == 0 && Offset(al.lens, first) == 0 && first <= BMAX
  {
    MaxLenBound(al.lens);
    FirstPosition(al.lens, l, first, al, o.u);
    hide Building, Num;
  }

  /** After the last, all slots are right. */
  lemma EndProgress(al: Alphabet, l: nat, mem: map<Tab, seq<Huft>>, M: map<Tab, seq<Huft>>, f: Forest,
          chain: seq<Tab>, o: Levels, k: nat, s: seq<bool>)
    requires k == MaxLen(al.lens) + 1 && o.h >= 0
    requires Opening(al, l, mem, M, f, chain, o, s, Upto(al.lens, MaxLen(al.lens)))
    ensures |o.u| > 0 && Built(al, l, f, o.u[0]) && InMemory(mem, M, f, chain) && o.u[0] == First(chain)
  {
  }

  lemma FirstTally(b: seq<nat>, c: seq<nat>, j: nat)
    requires Tally(b, c) && ShortestIs(b, j) && j <= MaxLen(b)
    ensures c[j] > 0 && Upto(b, j - 1) + Shl(c[j], BMAX - j) == Upto(b, j)
  {
    assert TallyAt(b, c, j);
  }

  lemma ZeroBit()
    ensures Val([false]) == 0
  {
  }

  /** k++ keeps what the loop keeps. */
  lemma Lengthen(al: Alphabet, l: nat, c: seq<nat>, mem: map<Tab, seq<Huft>>, M: map<Tab, seq<Huft>>, f: Forest,
          chain: seq<Tab>, o: Levels, k: nat, s: seq<bool>)
    requires Tally(al.lens, c) && 1 <= k < MaxLen(al.lens) && |s| == k
    requires Progress(al, l, mem, M, f, chain, o, k, s, Upto(al.lens, k))
    ensures Progress(al, l, mem, M, f, chain, o, k + 1, s + [false], Upto(al.lens, k))
    ensures Num(s + [false]) == Num(s) && Offset(al.lens, k + 1) == Offset(al.lens, k) + c[k]
    ensures Upto(al.lens, k) + Shl(c[k + 1], BMAX - (k + 1)) == Upto(al.lens, k + 1)
  {
    NextLength(al.lens, c, k);
    ZeroBit();
    AppendZeros(s, [false]);
    LengthenStep(al, l, f, o.u, o.h, s, s + [false], Upto(al.lens, k));
  }

  /** While codes of length k remain, the string at P is one of them. */
  lemma NextIsCode(al: Alphabet, l: nat, f: Forest, u: seq<Tab>, h: int, s: seq<bool>, k: nat, g: nat, a: nat, P: nat)
    requires Building(al, l, f, u, h, s, P) && Kraft(al.lens) <= TOP
    requires 1 <= k <= g == MaxLen(al.lens) <= BMAX && |s| == k
    requires P + Shl(a + 1, BMAX - k) == Upto(al.lens, k) && Upto(al.lens, k - 1) <= P
    ensures AtCode(al.lens, s, k, g, a, P)
    ensures P + Span(s) + Shl(a, BMAX - k) == Upto(al.lens, k)
  {
    MoreToCome(al.lens, k, g, a, P);
    NextPosition(al.lens, s, k, g, a, P);
  }

  lemma MoreToCome(b: seq<nat>, k: nat, g: nat, a: nat, P: nat)
    requires Kraft(b) <= TOP && 1 <= k <= g == MaxLen(b) <= BMAX && P + Shl(a + 1, BMAX - k) == Upto(b, k)
    ensures P < TOP
  {
    ShlWithin(0, a, a + 1, BMAX - k);
    UptoMono(b, k, k);
  }

  /*-- The whole function -----------------------------------------------------*/

  /** Table width returned in *m. */
  ghost predicate Clamped(b: seq<nat>, m: nat, l: nat) {
    && 1 <= l <= MaxLen(b)
    && (l < m ==> l == MaxLen(b))
    && (m < l ==> ShortestIs(b, l))
  }

  /** A complete set with fewer than 2^m codes has no shortest code longer than m bits. */
  lemma WidthWithinM(b: seq<nat>, m: nat, l: nat)
    requires ValidLens(b) && Clamped(b, m, l) && Kraft(b) == TOP && NumCodes(b) < Pow2(m)
    ensures l <= m && SmallSet(b, l)
  {
    if m < l {
      LongCodes(b, l - 1);
      FilledBelow(b, l - 1);
      OffsetBelow(b, l);
      PowShift(l - 1, BMAX - (l - 1));
      Pow2To16();
      Pow2Mono(m, l - 1);
      ShlWithin(0, NumCodes(b), Pow2(l - 1), BMAX - (l - 1));
    } else if l < m {
      assert MaxLen(b) <= 2 * l;
    }
  }

  /** huft_build: the tables for code lengths b, of which the first `simple` symbols stand for
      themselves and the others for d and e; m is the table width asked for, l the one used. */
  method HuftBuild(heap: Arena, b: seq<nat>, simple: nat, d: seq<nat>, e: seq<nat>, m: nat)
    returns (ret: nat, t: Tab, l: nat, ghost f: Forest, ghost chain: seq<Tab>)
    requires ValidAlphabet(Alphabet(b, simple, d, e)) && 1 <= |b| <= N_MAX
    modifies heap
    ensures ret == Verdict(b)
    ensures InMemory(heap.mem, old(heap.mem), f, chain) && t == First(chain)
    ensures AllZero(b) || ret == 2 ==> chain == [] && heap.mem == old(heap.mem)
    ensures AllZero(b) ==> l == 0
    ensures !AllZero(b) && ret != 2 ==> Built(Alphabet(b, simple, d, e), l, f, t)
    ensures !AllZero(b) ==> Clamped(b, m, l)
  {
    f, chain, t, l := Forest(map[], map[]), [], NULL, 0;
    CountAllZero(b);
    var c := CountLengths(b);
    if c[0] == |b| {
      return 0, t, l, f, chain;
    }
    var first, g;
    first, g, l := Bounds(b, c, m);
    var ok, y := CheckLengths(b, c, first, g);
    if !ok {
      return 2, t, l, f, chain;
    }
    c[g] := c[g] + y;
    TallyMakes(b, c[..], y);
    var x := Offsets(b, c, g);
    var v := SortValues(b, x, g);
    t, f, chain := GenerateTables(heap, Alphabet(b, simple, d, e), c[..], v[..], first, l, g);
    ret := if y != 0 && g != 1 then 1 else 0;
    SlackMeansIncomplete(b, y);
  }

  lemma SlackMeansIncomplete(b: seq<nat>, y: nat)
    requires MaxLen(b) <= BMAX && Shl(y, BMAX - MaxLen(b)) + Kraft(b) == TOP
    ensures y == 0 <==> Kraft(b) == TOP
  {
    NoSlack(y, BMAX - MaxLen(b), Kraft(b));
  }

  lemma NoSlack(y: nat, k: nat, kraft: nat)
    requires Shl(y, k) + kraft == TOP
    ensures y == 0 <==> kraft == TOP
  {
    ShlOne(k);
    if y != 0 {
      ShlWithin(0, 0, y, k);
    }
  }
}
