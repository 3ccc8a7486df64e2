/** Decoding a symbol with finished tables in memory finds what bit-by-bit decoding of the stream
    finds (zip/inflate.c:365-380, 399-415), and what the entries of the two alphabets mean. */
module Lookup {
  import opened Bits
  import opened Canonical
  import opened HuftTables
  import opened HuftWalk
  import opened Deflate
  import opened Input

  /** Extra-bit counts are small, or mark the symbol invalid. */
  ghost predicate ValidExtra(extra: seq<nat>) {
    forall i {:trigger ExtraAt(extra, i)} :: 0 <= i < |extra| ==> ExtraAt(extra, i)
  }

  ghost predicate ExtraAt(extra: seq<nat>, i: nat)
    requires i < |extra|
  {
    extra[i] <= 13 || extra[i] == INVALID
  }

  /** The program reads tables it has set when it decodes here: the stream has enough bits and does
      not run into an unassigned code whose entry was never set. */
  ghost predicate Decodable(lens: seq<nat>, bits: seq<bool>, pos: nat) {
    var r := Decode(lens, bits, pos);
    r != OutOfBits && (r == NoCode ==> 0 !in lens)
  }

  /** Finished tables, in memory. */
  ghost predicate Tables(al: Alphabet, l: nat, mem: map<Tab, seq<Huft>>, f: Forest, root: Tab) {
    && ValidAlphabet(al) && Usable(al, l, f, root)
    && (forall T {:trigger InMem(mem, f, T)} :: T in f.info ==> InMem(mem, f, T))
  }

  ghost predicate InMem(mem: map<Tab, seq<Huft>>, f: Forest, T: Tab) {
    T in f.mem && T in mem && |mem[T]| == |f.mem[T]| + 1 && mem[T][1..] == f.mem[T]
  }

  /** There is an entry where an n-bit lookup in table T, w bits down x, looks. */
  predicate CanLook(mem: map<Tab, seq<Huft>>, T: Tab, n: nat, w: nat, x: seq<bool>) {
    w + n <= |x| && T in mem && Num(x[w..w + n]) + 1 < |mem[T]|
  }

  /** The entry, past the dummy entry of the block. */
  function Look(mem: map<Tab, seq<Huft>>, T: Tab, n: nat, w: nat, x: seq<bool>): Huft
    requires CanLook(mem, T, n, w, x)
  {
    mem[T][Num(x[w..w + n]) + 1]
  }

  lemma LookIsEntry(al: Alphabet, l: nat, mem: map<Tab, seq<Huft>>, f: Forest, root: Tab, T: Tab, w: nat, x: seq<bool>)
    requires Tables(al, l, mem, f, root) && AtTable(l, f, T, w, x)
    ensures CanLook(mem, T, Width(f, l, T), w, x) && Look(mem, T, Width(f, l, T), w, x) == EntryOf(l, f, T, w, x)
    ensures Width(f, l, T) <= l
  {
    EntryIsElement(al, l, f, T, w, x);
    assert InMem(mem, f, T);
    var i := Num(x[w..w + Width(f, l, T)]);
    assert mem[T][i + 1] == mem[T][1..][i];
  }

  /** The buffer's next n bits, w bits into the 16-bit string x at pos. */
  lemma BufferWindow(disk: Disk, q: nat, b: nat, k: nat, pos: nat, w: nat, n: nat)
    requires Buffered(disk, q, b, k) && n <= k && 8 * q - k == pos + w && w + n <= BMAX
    ensures Low(b, n) == Num(BitsAt(disk, pos, BMAX)[w..w + n])
  {
    BufferTake(disk, q, b, k, n);
    BitsWithin(disk, pos, BMAX, w, n);
    hide BitsAt;
  }

  lemma BitsWithin(disk: Disk, pos: nat, m: nat, w: nat, n: nat)
    requires w + n <= m
    ensures BitsAt(disk, pos, m)[w..w + n] == BitsAt(disk, pos + w, n)
  {
  }

  /** What the entry just read tells, at bit pos of the stream, w bits down. */
  lemma EntryKinds(al: Alphabet, l: nat, f: Forest, root: Tab, T: Tab, w: nat, x: seq<bool>, bits: seq<bool>, pos: nat)
    requires ValidAlphabet(al) && ValidExtra(al.extra) && Usable(al, l, f, root) && AtTable(l, f, T, w, x) && |x| == BMAX
    requires forall i :: 0 <= i < |x| && pos + i < |bits| ==> bits[pos + i] == x[i]
    requires Decodable(al.lens, bits, pos)
    ensures var ent, r := EntryOf(l, f, T, w, x), Decode(al.lens, bits, pos);
            && (ent.e > 16 && ent.e != INVALID ==> Deeper(l, f, T, w, x))
            && (ent.e == INVALID ==> r.NoCode? || (r.Sym? && SymEntry(al, r.n, 0).e == INVALID))
            && (ent.e <= 16 ==>
                  && r.Sym? && 1 <= ent.b <= Width(f, l, T)
                  && r.pos == pos + w + ent.b && ent == SymEntry(al, r.n, ent.b))
  {
    WalkStep(al, l, f, root, T, w, x);
    if Deeper(l, f, T, w, x) {
      DeeperTable(al, l, f, root, T, w, x);
    } else {
      LeafDecodes(al, EntryOf(l, f, T, w, x), w, x, bits, pos);
      var r := Decode(al.lens, bits, pos);
      assert r.Sym? && r.n >= al.simple ==> ExtraAt(al.extra, r.n - al.simple);
    }
  }

  /** The walk as the program makes it, on memory alone: n-bit lookup in table T, w bits down x,
      n at most l. It ends at an entry that is a symbol's or marked invalid. */
  datatype Found = Found(ent: Huft, w: nat) | Astray

  function Search(mem: map<Tab, seq<Huft>>, l: nat, T: Tab, n: nat, w: nat, x: seq<bool>): Found
    decreases |x| - w
  {
    if n > l || !CanLook(mem, T, n, w, x) then Astray
    else
      var t := Look(mem, T, n, w, x);
      if t.e == INVALID then Found(t, w)
      else if !(1 <= t.b <= n) then Astray
      else if t.e <= 16 then Found(t, w)
      else if !t.v.Link? then Astray
      else Search(mem, l, t.v.t, t.e - 16, w + t.b, x)
  }

  /** What a search has found, in terms of bit-by-bit decoding. */
  ghost predicate Agrees(al: Alphabet, s: Found, r: Symbol, pos: nat)
    requires ValidAlphabet(al) && (r.Sym? ==> r.n < |al.lens|)
  {
    && s.Found?
    && if s.ent.e == INVALID then r.NoCode? || (r.Sym? && SymEntry(al, r.n, 0).e == INVALID)
       else r.Sym? && r.pos == pos + s.w + s.ent.b && s.ent == SymEntry(al, r.n, s.ent.b)
  }

  /** Over finished tables the search finds what bit-by-bit decoding finds. */
  lemma {:induction false} SearchFinds(al: Alphabet, l: nat, mem: map<Tab, seq<Huft>>, f: Forest, root: Tab, T: Tab,
          w: nat, x: seq<bool>, bits: seq<bool>, pos: nat)
    requires Tables(al, l, mem, f, root) && ValidExtra(al.extra) && AtTable(l, f, T, w, x) && |x| == BMAX
    requires forall i :: 0 <= i < |x| && pos + i < |bits| ==> bits[pos + i] == x[i]
    requires Decodable(al.lens, bits, pos)
    ensures Agrees(al, Search(mem, l, T, Width(f, l, T), w, x), Decode(al.lens, bits, pos), pos)
    decreases BMAX - w
  {
    hide Decode, Decodable, ValidExtra, AtTable, EntryOf, Width, SymEntry, Usable, InMem, ValidAlphabet;
    EntryKinds(al, l, f, root, T, w, x, bits, pos);
    LookIsEntry(al, l, mem, f, root, T, w, x);
    var ent := EntryOf(l, f, T, w, x);
    if ent.e > 16 && ent.e != INVALID {
      DeeperTable(al, l, f, root, T, w, x);
      assert Search(mem, l, T, Width(f, l, T), w, x) == Search(mem, l, ent.v.t, Width(f, l, ent.v.t), w + l, x);
      SearchFinds(al, l, mem, f, root, ent.v.t, w + l, x, bits, pos);
    }
  }

  lemma StreamWindow(disk: Disk, bits: seq<bool>, pos: nat)
    requires OnDisk(disk, bits)
    ensures forall i :: 0 <= i < BMAX && pos + i < |bits| ==> bits[pos + i] == BitsAt(disk, pos, BMAX)[i]
  {
    forall i | 0 <= i < BMAX && pos + i < |bits| ensures bits[pos + i] == BitsAt(disk, pos, BMAX)[i] {
      assert BitIs(disk, bits, pos + i);
    }
  }

  ghost predicate Decided(o: Outcome) {
    o.Done? || o.Bad?
  }

  ghost predicate Goes(n: Next) {
    n.Go? || Decided(n.o)
  }

  const SIMPLE: nat := 257

  /** The two alphabets of a compressed block. */
  function LiteralAlphabet(lens: seq<nat>): Alphabet {
    Alphabet(lens, SIMPLE, LENGTH_BASE, LENGTH_EXTRA)
  }

  function DistanceAlphabet(lens: seq<nat>): Alphabet {
    Alphabet(lens, 0, DIST_BASE, DIST_EXTRA)
  }

  /** Tables for an alphabet, or none when no symbol has a code. */
  ghost predicate TablesOrNone(al: Alphabet, l: nat, mem: map<Tab, seq<Huft>>, f: Forest, root: Tab) {
    AllZero(al.lens) || Tables(al, l, mem, f, root)
  }

  /** Without codes nothing can be decoded. */
  lemma NoCodesUndecodable(lens: seq<nat>, bits: seq<bool>, pos: nat)
    requires lens != [] && AllZero(lens)
    ensures !Decodable(lens, bits, pos)
  {
    ZeroMaxLen(lens);
    assert lens[0] in lens;
  }

  lemma HasTables(al: Alphabet, l: nat, mem: map<Tab, seq<Huft>>, f: Forest, root: Tab, bits: seq<bool>, pos: nat)
    requires TablesOrNone(al, l, mem, f, root) && al.lens != [] && Decodable(al.lens, bits, pos)
    ensures Tables(al, l, mem, f, root)
  {
    if AllZero(al.lens) {
      NoCodesUndecodable(al.lens, bits, pos);
    }
  }

  lemma LengthTable(i: nat)
    requires i < 31
    ensures |LENGTH_BASE| == |LENGTH_EXTRA| == 31
    ensures i < 29 ==> LENGTH_EXTRA[i] <= 5
    ensures i >= 29 ==> LENGTH_EXTRA[i] == INVALID
  {
  }

  lemma DistTable(i: nat)
    requires i < 30
    ensures |DIST_BASE| == |DIST_EXTRA| == 30
    ensures DIST_EXTRA[i] <= 13
    ensures DIST_BASE[i] + Pow2(DIST_EXTRA[i]) <= WSIZE + 1
  {
    Pow2To16();
  }

  lemma ExtrasValid()
    ensures ValidExtra(LENGTH_EXTRA) && ValidExtra(DIST_EXTRA)
  {
    forall i | 0 <= i < 31 ensures ExtraAt(LENGTH_EXTRA, i) {
      LengthTable(i);
    }
    forall i | 0 <= i < 30 ensures ExtraAt(DIST_EXTRA, i) {
      DistTable(i);
    }
  }

  /** The extra bits of a distance lie within the stream. */
  ghost predicate DistanceFits(r: Symbol, bits: seq<bool>) {
    r.Sym? ==> r.n < |DIST_BASE| && r.n < |DIST_EXTRA| && r.pos + DIST_EXTRA[r.n] <= |bits|
  }

  ghost function DistanceOf(r: Symbol, bits: seq<bool>): nat
    requires r.Sym? && DistanceFits(r, bits)
  {
    DIST_BASE[r.n] + Field(bits, r.pos, DIST_EXTRA[r.n])
  }

  /** No distance is larger than the window. */
  lemma DistanceBound(r: Symbol, bits: seq<bool>)
    requires r.Sym? && DistanceFits(r, bits)
    ensures 1 <= DistanceOf(r, bits) <= 32768 == WSIZE
  {
    DistTable(r.n);
    DistancePositive(r.n);
    NumBound(bits[r.pos..r.pos + DIST_EXTRA[r.n]]);
  }

  /** w - dist in unsigned arithmetic. */
  function Minus32(w: nat, dist: nat): nat
    requires dist <= 0x1_0000_0000
  {
    (w + 0x1_0000_0000 - dist) % 0x1_0000_0000
  }

  lemma Minus32Mod(w: nat, dist: nat)
    requires w < WSIZE && dist <= WSIZE
    ensures Minus32(w, dist) % WSIZE == (w - dist) % WSIZE
  {
    if dist <= w {
      assert Minus32(w, dist) == w - dist;
    } else {
      assert Minus32(w, dist) == w - dist + 0x1_0000_0000;
      assert 0x1_0000_0000 == 131072 * WSIZE;
      assert Minus32(w, dist) == (w - dist) + 131072 * WSIZE;
    }
  }

  /** The code lengths of a block and the tables made from them. */
  datatype Sets = Sets(ll: seq<nat>, dl: seq<nat>, fl: Forest, fd: Forest)

  ghost predicate SetTables(mem: map<Tab, seq<Huft>>, tl: Tab, td: Tab, bl: nat, bd: nat, t: Sets) {
    && 257 <= |t.ll| <= 288 && 1 <= |t.dl| <= 30 && bl <= 9 && bd <= 9
    && TablesOrNone(LiteralAlphabet(t.ll), bl, mem, t.fl, tl)
    && TablesOrNone(DistanceAlphabet(t.dl), bd, mem, t.fd, td)
  }

  /** What an entry of the literal/length alphabet says. */
  lemma LiteralEntry(ll: seq<nat>, n: nat, t: Huft)
    requires n < |ll| <= 288 && t == SymEntry(LiteralAlphabet(ll), n, t.b)
    ensures t.e == LITERAL <==> n < 256
    ensures n < 256 ==> t.v == Number(n)
    ensures t.e == END_OF_BLOCK <==> n == 256
    ensures n > 256 ==> n - 257 < 31 && t.v == Number(LENGTH_BASE[n - 257]) && t.e == LENGTH_EXTRA[n - 257]
    ensures t.e == INVALID <==> n > 285
    ensures 256 < n <= 285 ==> t.e <= 5
  {
    if n > 256 {
      LengthTable(n - 257);
    }
  }

  /** The entry is that of the symbol r, which ends at p; not ok when there is none. */
  ghost predicate IsDecoded(al: Alphabet, r: Symbol, ok: bool, ent: Huft, p: int)
    requires ValidAlphabet(al) && (r.Sym? ==> r.n < |al.lens|)
  {
    if r.Sym? && SymEntry(al, r.n, 0).e != INVALID then ok && ent == SymEntry(al, r.n, ent.b) && p == r.pos
    else !ok
  }

  /** What to do for a match of len bytes with distance code r. */
  ghost predicate IsMatch(m: Next, r: Symbol, bits: seq<bool>, out: seq<byte>, len: nat) {
    && DistanceFits(r, bits)
    && if r.Sym? then
         1 <= DistanceOf(r, bits) <= |out| ==> m == Go(r.pos + DIST_EXTRA[r.n], CopyMatch(out, DistanceOf(r, bits), len))
       else m == Stop(Bad(1))
  }

  /** What to do when the entry of a symbol ending at p has been read. */
  ghost predicate IsTurn(turn: Next, dl: seq<nat>, ent: Huft, bits: seq<bool>, p: nat, out: seq<byte>) {
    && p <= |bits| && ent.v.Number?
    && if ent.e == LITERAL then ent.v.n < 256 && turn == Go(p, out + [ent.v.n])
       else if ent.e == END_OF_BLOCK then turn == Stop(Done(p, out))
       else
         && p + ent.e <= |bits| && Goes(turn)
         && turn == MatchOn(Decode(dl, bits, p + ent.e), dl, bits, out, ent.v.n + Field(bits, p, ent.e))
  }

  /** A code that decodes to something is read from tables that were set. */
  lemma TurnNeeds(mem: map<Tab, seq<Huft>>, tl: Tab, td: Tab, bl: nat, bd: nat, t: Sets, bits: seq<bool>, pos: nat,
          out: seq<byte>)
    requires SetTables(mem, tl, td, bl, bd, t)
    requires Goes(Turn(t.ll, t.dl, bits, pos, out))
    ensures Tables(LiteralAlphabet(t.ll), bl, mem, t.fl, tl) && ValidExtra(LENGTH_EXTRA) && bl <= 9 && |t.ll| <= 288
    ensures ValidLens(t.ll) && Decodable(t.ll, bits, pos)
    ensures TablesOrNone(DistanceAlphabet(t.dl), bd, mem, t.fd, td) && bd <= 9 && 1 <= |t.dl| <= 30
  {
    ExtrasValid();
    HasTables(LiteralAlphabet(t.ll), bl, mem, t.fl, tl, bits, pos);
  }

  lemma MatchNeeds(dl: seq<nat>, bd: nat, mem: map<Tab, seq<Huft>>, fd: Forest, td: Tab, bits: seq<bool>, pos: nat,
          out: seq<byte>, len: nat)
    requires TablesOrNone(DistanceAlphabet(dl), bd, mem, fd, td) && dl != []
    requires Goes(MatchOn(Decode(dl, bits, pos), dl, bits, out, len))
    ensures Tables(DistanceAlphabet(dl), bd, mem, fd, td) && Decodable(dl, bits, pos)
    ensures var r := Decode(dl, bits, pos);
            DistanceFits(r, bits) && IsMatch(MatchOn(r, dl, bits, out, len), r, bits, out, len)
  {
    HasTables(DistanceAlphabet(dl), bd, mem, fd, td, bits, pos);
    MatchMeans(Decode(dl, bits, pos), dl, bits, out, len);
  }

  lemma MatchMeans(r: Symbol, dl: seq<nat>, bits: seq<bool>, out: seq<byte>, len: nat)
    requires r.Sym? ==> r.pos <= |bits| && r.n < 30
    requires Goes(MatchOn(r, dl, bits, out, len))
    ensures IsMatch(MatchOn(r, dl, bits, out, len), r, bits, out, len)
  {
  }

  /** What the entry read for a symbol makes of it. */
  lemma TurnMeans(r: Symbol, ll: seq<nat>, dl: seq<nat>, bits: seq<bool>, out: seq<byte>, ok: bool, ent: Huft, p: int)
    requires |ll| <= 288 && ValidLens(ll) && (r.Sym? ==> r.pos <= |bits| && r.n < |ll|)
    requires Goes(TurnOn(r, ll, dl, bits, out))
    requires IsDecoded(LiteralAlphabet(ll), r, ok, ent, p)
    ensures !ok ==> TurnOn(r, ll, dl, bits, out) == Stop(Bad(1))
    ensures ok ==> p >= 0 && IsTurn(TurnOn(r, ll, dl, bits, out), dl, ent, bits, p, out)
  {
    if r.Sym? {
      LiteralEntry(ll, r.n, SymEntry(LiteralAlphabet(ll), r.n, 0));
      if ok {
        LiteralEntry(ll, r.n, ent);
        SymbolTurn(r.n, r.pos, ll, dl, bits, out, ent);
      }
    }
  }

  lemma SymbolTurn(n: nat, p: nat, ll: seq<nat>, dl: seq<nat>, bits: seq<bool>, out: seq<byte>, ent: Huft)
    requires n <= 285 && p <= |bits| && ent.v.Number? && Goes(TurnOn(Sym(n, p), ll, dl, bits, out))
    requires if n < 256 then ent.e == LITERAL && ent.v.n == n
             else if n == 256 then ent.e == END_OF_BLOCK
             else n - 257 < 31 && ent.e <= 5 && ent.v.n == LENGTH_BASE[n - 257] && ent.e == LENGTH_EXTRA[n - 257]
    ensures IsTurn(TurnOn(Sym(n, p), ll, dl, bits, out), dl, ent, bits, p, out)
  {
    hide MatchOn, Decode, Field;
  }

  /*-- Code lengths -----------------------------------------------------------*/

  function LengthAlphabet(cl: seq<nat>): Alphabet {
    Alphabet(cl, 19, [], [])
  }

  /** The code length table has one level, so one lookup finds the symbol. */
  lemma OneLevel(al: Alphabet, l: nat, mem: map<Tab, seq<Huft>>, f: Forest, root: Tab, x: seq<bool>, bits: seq<bool>,
          pos: nat)
    requires Tables(al, l, mem, f, root) && ValidExtra(al.extra) && l == MaxLen(al.lens) && |x| == BMAX
    requires forall i :: 0 <= i < |x| && pos + i < |bits| ==> bits[pos + i] == x[i]
    requires Decode(al.lens, bits, pos).Sym? && SymEntry(al, Decode(al.lens, bits, pos).n, 0).e <= 16
    ensures CanLook(mem, root, l, 0, x)
    ensures var r, ent := Decode(al.lens, bits, pos), Look(mem, root, l, 0, x);
            ent == SymEntry(al, r.n, ent.b) && r.pos == pos + ent.b && ent.b <= l
  {
    AtRoot(al, l, f, root, x);
    LookIsEntry(al, l, mem, f, root, root, 0, x);
    EntryKinds(al, l, f, root, root, 0, x, bits, pos);
    var ent := EntryOf(l, f, root, 0, x);
    if ent.e > 16 && ent.e != INVALID {
      NotDeeper(al, l, f, root, x);
    }
  }

  lemma NotDeeper(al: Alphabet, l: nat, f: Forest, root: Tab, x: seq<bool>)
    requires Usable(al, l, f, root) && AtTable(l, f, root, 0, x) && |x| == BMAX && l == MaxLen(al.lens)
    ensures !Deeper(l, f, root, 0, x)
  {
    var T := EntryOf(l, f, root, 0, x).v;
    assert T.Link? && T.t in f.info ==> FitsAt(al, l, f, T.t);
  }

  /** Places of the code length symbols in ORDER. */
  const PLACE: seq<nat> := [3, 17, 15, 13, 11, 9, 7, 5, 4, 6, 8, 10, 12, 14, 16, 18, 0, 1, 2]

  lemma OrderPlace(s: nat)
    requires s < 19
    ensures PLACE[s] < 19 && ORDER[PLACE[s]] == s && ORDER[s] < 19 && PLACE[ORDER[s]] == s
  {
  }

  /** A symbol whose place is not below nb has no code. */
  lemma {:induction false} BeyondSent(bits: seq<bool>, pos: nat, nb: nat, s: nat)
    requires nb <= 19 && pos + 3 * nb <= |bits| && s < 19 && nb <= PLACE[s]
    ensures CodeLengthLens(bits, pos, nb)[s] == 0
  {
    if nb > 0 {
      OrderPlace(nb - 1);
      BeyondSent(bits, pos, nb - 1, s);
    }
  }

  /** The symbols placed below j are as sent. */
  ghost predicate SentUpTo(ll: seq<nat>, cl: seq<nat>, j: nat) {
    |ll| >= 19 && |cl| == 19 && forall s {:trigger SentAt(ll, cl, s)} :: 0 <= s < 19 && PLACE[s] < j ==> SentAt(ll, cl, s)
  }

  ghost predicate SentAt(ll: seq<nat>, cl: seq<nat>, s: nat)
    requires s < 19 <= |ll| && |cl| == 19
  {
    ll[s] == cl[s] && cl[s] < 8
  }

  lemma SendOne(ll: seq<nat>, bits: seq<bool>, pos: nat, j: nat, x: nat)
    requires j < 19 && pos + 3 * (j + 1) <= |bits| && SentUpTo(ll, CodeLengthLens(bits, pos, j), j)
    requires x == Field(bits, pos + 3 * j, 3)
    ensures ORDER[j] < 19 && SentUpTo(ll[ORDER[j] := x], CodeLengthLens(bits, pos, j + 1), j + 1)
  {
    OrderPlace(j);
    NumBound(bits[pos + 3 * j..pos + 3 * j + 3]);
    Pow2To16();
    var cl := CodeLengthLens(bits, pos, j);
    assert CodeLengthLens(bits, pos, j + 1) == cl[ORDER[j] := x];
    forall s | 0 <= s < 19 && PLACE[s] < j + 1 ensures SentAt(ll[ORDER[j] := x], cl[ORDER[j] := x], s) {
      OrderPlace(s);
      if s != ORDER[j] {
        assert SentAt(ll, cl, s);
      }
    }
  }

  lemma ZeroOne(ll: seq<nat>, bits: seq<bool>, pos: nat, nb: nat, j: nat)
    requires nb <= j < 19 && pos + 3 * nb <= |bits| && SentUpTo(ll, CodeLengthLens(bits, pos, nb), j)
    ensures ORDER[j] < 19 && SentUpTo(ll[ORDER[j] := 0], CodeLengthLens(bits, pos, nb), j + 1)
  {
    OrderPlace(j);
    var cl := CodeLengthLens(bits, pos, nb);
    BeyondSent(bits, pos, nb, ORDER[j]);
    forall s | 0 <= s < 19 && PLACE[s] < j + 1 ensures SentAt(ll[ORDER[j] := 0], cl, s) {
      OrderPlace(s);
      if s != ORDER[j] {
        assert SentAt(ll, cl, s);
      }
    }
  }

  ghost predicate ThreeBits(cl: seq<nat>) {
    |cl| == 19 && forall i :: 0 <= i < 19 ==> cl[i] < 8
  }

  lemma AllSent(ll: seq<nat>, cl: seq<nat>)
    requires SentUpTo(ll, cl, 19)
    ensures ll[..19] == cl && ThreeBits(cl)
  {
    forall s | 0 <= s < 19 ensures ll[s] == cl[s] && cl[s] < 8 {
      OrderPlace(s);
      assert SentAt(ll, cl, s);
    }
  }

  ghost predicate Known(g: Lengths) {
    g.Lengths? || Decided(g.why)
  }

  ghost predicate LengthsOk(lens: seq<nat>) {
    forall q :: 0 <= q < |lens| ==> lens[q] <= 15
  }

  lemma LastRun(lens: seq<nat>, count: nat, x: nat)
    requires LengthsOk(lens) && x <= 15 && count > 0
    ensures LengthsOk(lens + Run(count, x)) && LastLen(lens + Run(count, x)) == x
  {
  }

  lemma LastOne(lens: seq<nat>, j: nat)
    requires LengthsOk(lens) && j <= 15
    ensures LengthsOk(lens + [j]) && LastLen(lens + [j]) == j
  {
  }

  /** A code length symbol is decoded from a table that was set. */
  lemma ExpandNeeds(mem: map<Tab, seq<Huft>>, cl: seq<nat>, bl: nat, f: Forest, tl: Tab, bits: seq<bool>, pos: nat,
          n: nat, lens: seq<nat>)
    requires TablesOrNone(LengthAlphabet(cl), bl, mem, f, tl) && |cl| == 19 && pos <= |bits| && |lens| < n
    requires Known(Expand(cl, bits, pos, n, lens))
    ensures Tables(LengthAlphabet(cl), bl, mem, f, tl) && Decode(cl, bits, pos).Sym? && !AllZero(cl)
    ensures Known(ExpandOn(Decode(cl, bits, pos), bits, n, lens))
  {
    if AllZero(cl) {
      NoCodesUndecodable(cl, bits, pos);
    }
    HasTables(LengthAlphabet(cl), bl, mem, f, tl, bits, pos);
  }

  lemma DynamicNeeds(bits: seq<bool>, pos: nat, out: seq<byte>)
    requires pos <= |bits| && Decided(Dynamic(bits, pos, out))
    ensures pos + 14 <= |bits|
  {
  }

  /** What the three counts of a dynamic block lead to. */
  lemma SetsMeans(c: Counts, bits: seq<bool>, p: nat, out: seq<byte>)
    requires p <= |bits| && c.nb <= 19 && Decided(DynamicSets(c, bits, p, out))
    ensures c.nl > 286 || c.nd > 30 ==> DynamicSets(c, bits, p, out) == Bad(1)
    ensures c.nl <= 286 && c.nd <= 30 ==>
              && p + 3 * c.nb <= |bits|
              && DynamicSets(c, bits, p, out) ==
                    SetLengths(CodeLengthLens(bits, p, c.nb), c.nl, c.nd, bits, p + 3 * c.nb, out)
  {
    hide SetLengths, CodeLengthLens;
  }

  /** One block of a stream. */
  lemma BlockTurn(bits: seq<bool>, pos: nat, out: seq<byte>)
    requires pos <= |bits| && Decided(Inflate(bits, pos, out))
    ensures pos + 3 <= |bits|
    ensures var o := OneBlock(Field(bits, pos + 1, 2), bits, pos + 3, out);
            && Decided(o)
            && (o.Bad? ==> Inflate(bits, pos, out) == o)
            && (o.Done? ==> Inflate(bits, pos, out) == if Field(bits, pos, 1) == 0 then Inflate(bits, o.pos, o.out) else o)
  {
    hide OneBlock;
    assert bits[pos..pos + 1] == [bits[pos]];
    assert Num([bits[pos]]) == Bit(bits[pos]);
  }

  /*-- Stored blocks ----------------------------------------------------------*/

  lemma ByteField(bits: seq<bool>, p: nat)
    requires p + 8 <= |bits|
    ensures Field(bits, p, 8) < 256
  {
    NumBound(bits[p..p + 8]);
    Pow2To16();
  }

  lemma {:induction false} BytesSnoc(bits: seq<bool>, pos: nat, n: nat, p: nat)
    requires p == pos + 8 * n && p + 8 <= |bits|
    ensures Field(bits, p, 8) < 256
    ensures Bytes(bits, pos, n + 1) == Bytes(bits, pos, n) + [Field(bits, p, 8)]
    decreases n
  {
    ByteField(bits, p);
    if n == 0 {
      assert Bytes(bits, pos + 8, 0) == [];
    } else {
      BytesSnoc(bits, pos + 8, n - 1, p);
    }
  }

  lemma StoredNeeds(bits: seq<bool>, pos: nat, out: seq<byte>)
    requires pos <= |bits| && Decided(Stored(bits, pos, out))
    ensures (pos + 7) / 8 * 8 + 32 <= |bits|
  {
  }

  /** The check of the length against its complement. */
  lemma StoredMeans(bits: seq<bool>, pos: nat, out: seq<byte>, start: nat, n: nat, c: nat)
    requires pos <= |bits| && Decided(Stored(bits, pos, out)) && start == (pos + 7) / 8 * 8 && start + 32 <= |bits|
    requires n == Field(bits, start, 16) && c == Field(bits, start + 16, 16)
    ensures n + c != 65535 ==> Stored(bits, pos, out) == Bad(1)
    ensures n + c == 65535 ==>
              && start + 32 + 8 * n <= |bits|
              && Stored(bits, pos, out) == Done(start + 32 + 8 * n, out + Bytes(bits, start + 32, n))
  {
  }

  /** Dropping the odd bits of the buffer goes to the next byte boundary. */
  lemma ByteBoundary(q: nat, k: nat)
    requires k <= 8 * q
    ensures (8 * q - k + 7) / 8 * 8 == 8 * q - (k - k % 8)
  {
    var a, b := k / 8, k % 8;
    EightTimes(q - a, 7 - b);
  }

  lemma EightTimes(n: nat, r: nat)
    requires r < 8
    ensures (8 * n + r) / 8 == n
  {
  }

  function Max(a: nat, b: nat): nat { if a >= b then a else b }
}
