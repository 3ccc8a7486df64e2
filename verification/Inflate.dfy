/** The decompressor of `zip/inflate.c`, on the bit buffer, the lookup tables and the window. */
module Inflate {
  import opened Bits
  import opened Canonical
  import opened HuftTables
  import opened HuftStore
  import opened HuftWalk
  import opened Deflate
  import opened Input
  import opened Window
  import opened Lookup
  import opened Blocks
  import opened Preset

  lemma ValidLengths(lens: seq<nat>)
    requires LengthsOk(lens)
    ensures ValidLens(lens)
  {
  }

  lemma TwoSets(lens: seq<nat>, nl: nat)
    requires LengthsOk(lens) && nl <= |lens|
    ensures LengthsOk(lens[..nl]) && LengthsOk(lens[nl..])
  {
  }

  lemma OneMore(out: seq<byte>, s: seq<byte>, c: byte)
    ensures (out + s) + [c] == out + (s + [c])
  {
  }

  class Inflater {
    const source: Source
    const output: Output
    const heap: Arena
    /** The globals: bit buffer, bits in it, window position (wp). */
    var bb: nat
    var bk: nat
    var outcnt: nat

    constructor (source: Source, output: Output, heap: Arena)
      ensures this.source == source && this.output == output && this.heap == heap
    {
      this.source, this.output, this.heap := source, output, heap;
      bb, bk, outcnt := 0, 0, 0;
    }

    /** DUMPBITS(n) */
    method DumpBits(b0: nat, k0: nat, n: nat) returns (b: nat, k: nat)
      requires source.Holding(b0, k0) && n <= k0
      ensures source.Holding(b, k) && source.Pos(k) == source.Pos(k0) + n
      ensures k == k0 - n
    {
      BufferTake(source.disk, source.BytesRead(), b0, k0, n);
      b, k := Shr(b0, n), k0 - n;
    }

    /** NEEDBITS(n), then the entry of table T that the low n bits select. The search is w bits into
        the code x at bit pos. */
    method LookUp(T: Tab, n: nat, b0: nat, k0: nat, ghost x: seq<bool>, ghost pos: nat, ghost w: nat)
      returns (t: Huft, b: nat, k: nat)
      requires source.Holding(b0, k0) && source.Pos(k0) == pos + w
      requires x == BitsAt(source.disk, pos, BMAX) && CanLook(heap.mem, T, n, w, x)
      modifies source, source.inbuf
      ensures source.Holding(b, k) && source.Pos(k) == pos + w
      ensures t == Look(heap.mem, T, n, w, x)
      ensures n <= k && (k == k0 || k < n + 8)
    {
      b, k := source.NeedBits(b0, k0, n);
      BufferWindow(source.disk, source.BytesRead(), b, k, pos, w, n);
      t := heap.mem[T][Low(b, n) + 1];
    }

    /** Lines 365-380 and 399-415: follow the code from table to table. Fails on an invalid entry. */
    method FollowTables(t0: Tab, l: nat, b0: nat, k0: nat, ghost x: seq<bool>)
      returns (ok: bool, t: Huft, b: nat, k: nat)
      requires source.Holding(b0, k0) && x == BitsAt(source.disk, source.Pos(k0), BMAX)
      requires Search(heap.mem, l, t0, l, 0, x).Found?
      modifies source, source.inbuf
      ensures source.Holding(b, k)
      ensures var s := Search(heap.mem, l, t0, l, 0, x);
              && ok == (s.ent.e != INVALID)
              && (ok ==> t == s.ent && source.Pos(k) == old(source.Pos(k0)) + s.w + s.ent.b)
      ensures ok ==> k < Max(k0, l + 7)
    {
      hide Buffered, BitsAt, Num;
      ghost var pos := source.Pos(k0);
      ghost var T: Tab, n: nat, w: nat := t0, l, 0;
      t, b, k := LookUp(t0, l, b0, k0, x, pos, 0);
      while t.e > 16
        invariant source.Holding(b, k) && source.Pos(k) == pos + w
        invariant n <= l && CanLook(heap.mem, T, n, w, x) && t == Look(heap.mem, T, n, w, x)
        invariant Search(heap.mem, l, T, n, w, x) == Search(heap.mem, l, t0, l, 0, x)
        invariant n <= k && k < Max(k0 + 1, l + 8)
        decreases BMAX - w
      {
        if t.e == INVALID {
          return false, t, b, k;
        }
        b, k := DumpBits(b, k, t.b);
        T, n, w := t.v.t, t.e - 16, w + t.b;
        t, b, k := LookUp(t.v.t, t.e - 16, b, k, x, pos, w);
      }
      b, k := DumpBits(b, k, t.b);
      ok := true;
    }

    /** A code is decoded as bit-by-bit decoding decodes it. */
    method DecodeSymbol(t0: Tab, l: nat, b0: nat, k0: nat, ghost al: Alphabet, ghost f: Forest, ghost bits: seq<bool>)
      returns (ok: bool, t: Huft, b: nat, k: nat)
      requires Tables(al, l, heap.mem, f, t0) && ValidExtra(al.extra)
      requires source.Holding(b0, k0) && OnDisk(source.disk, bits)
      requires Decodable(al.lens, bits, source.Pos(k0))
      modifies source, source.inbuf
      ensures source.Holding(b, k)
      ensures IsDecoded(al, Decode(al.lens, bits, old(source.Pos(k0))), ok, t, source.Pos(k))
      ensures ok ==> k < Max(k0, l + 7)
    {
      ghost var pos := source.Pos(k0);
      ghost var x := BitsAt(source.disk, pos, BMAX);
      AtRoot(al, l, f, t0, x);
      StreamWindow(source.disk, bits, pos);
      SearchFinds(al, l, heap.mem, f, t0, t0, 0, x, bits, pos);
      ok, t, b, k := FollowTables(t0, l, b0, k0, x);
    }

    /** NEEDBITS(n), b & mask_bits[n] */
    method Peek(b0: nat, k0: nat, n: nat, ghost bits: seq<bool>) returns (v: nat, b: nat, k: nat)
      requires source.Holding(b0, k0) && OnDisk(source.disk, bits) && source.Pos(k0) + n <= |bits|
      modifies source, source.inbuf
      ensures source.Holding(b, k) && source.Pos(k) == old(source.Pos(k0))
      ensures v == Field(bits, old(source.Pos(k0)), n)
      ensures n <= k <= Max(k0, n + 7)
    {
      b, k := source.NeedBits(b0, k0, n);
      BufferField(source.disk, bits, source.BytesRead(), b, k, n);
      v := Low(b, n);
    }

    /** NEEDBITS(n), b & mask_bits[n], DUMPBITS(n) */
    method ReadField(b0: nat, k0: nat, n: nat, ghost bits: seq<bool>) returns (v: nat, b: nat, k: nat)
      requires source.Holding(b0, k0) && OnDisk(source.disk, bits) && source.Pos(k0) + n <= |bits|
      modifies source, source.inbuf
      ensures source.Holding(b, k) && source.Pos(k) == old(source.Pos(k0)) + n
      ensures v == Field(bits, old(source.Pos(k0)), n)
      ensures k <= Max(k0, 7)
    {
      v, b, k := Peek(b0, k0, n, bits);
      b, k := DumpBits(b, k, n);
    }

    /** The state between two symbols of a block: b, k and w are the local copies of the globals. */
    ghost predicate Between(b: nat, k: nat, w: nat, bits: seq<bool>, base: seq<byte>, out: seq<byte>)
      reads source, source.inbuf, output, output.window
    {
      && source.Holding(b, k) && k <= 15 && OnDisk(source.disk, bits)
      && source.inbuf != output.window && output.Delivers(base, w, out)
    }

    /** Lines 398-418: the distance of a match. Fails on an invalid code. */
    method ReadDistance(td: Tab, bd: nat, b0: nat, k0: nat, ghost dl: seq<nat>, ghost fd: Forest, ghost bits: seq<bool>)
      returns (ok: bool, dist: nat, b: nat, k: nat)
      requires source.Holding(b0, k0) && k0 <= 15 && OnDisk(source.disk, bits)
      requires Tables(DistanceAlphabet(dl), bd, heap.mem, fd, td) && bd <= 9 && |dl| <= 30
      requires Decodable(dl, bits, source.Pos(k0))
      requires DistanceFits(Decode(dl, bits, source.Pos(k0)), bits)
      modifies source, source.inbuf
      ensures source.Holding(b, k)
      ensures var r := Decode(dl, bits, old(source.Pos(k0)));
              && ok == r.Sym?
              && (ok ==> k <= 15 && source.Pos(k) == r.pos + DIST_EXTRA[r.n] && dist == DistanceOf(r, bits))
    {
      ghost var r := Decode(dl, bits, source.Pos(k0));
      ExtrasValid();
      var t;
      if r.Sym? {
        DistTable(r.n);
      }
      ok, t, b, k := DecodeSymbol(td, bd, b0, k0, DistanceAlphabet(dl), fd, bits);
      dist := 0;
      if ok {
        dist, b, k := ReadField(b, k, t.e, bits);
        dist := t.v.n + dist;
      }
    }

    /** Lines 398-440: a match of n bytes. Fails on an invalid distance code. */
    method CopyOne(td: Tab, bd: nat, n: nat, b0: nat, k0: nat, w0: nat, ghost m: Next, ghost dl: seq<nat>,
            ghost fd: Forest, ghost bits: seq<bool>, ghost base: seq<byte>, ghost out: seq<byte>)
      returns (ok: bool, b: nat, k: nat, w: nat)
      requires Between(b0, k0, w0, bits, base, out)
      requires Tables(DistanceAlphabet(dl), bd, heap.mem, fd, td) && bd <= 9 && |dl| <= 30
      requires Decodable(dl, bits, source.Pos(k0)) && IsMatch(m, Decode(dl, bits, source.Pos(k0)), bits, out, n)
      modifies source, source.inbuf, output, output.window
      ensures source.Holding(b, k)
      ensures if ok then m.Go? && Between(b, k, w, bits, base, m.out) && source.Pos(k) == m.pos else m == Stop(Bad(1))
    {
      ghost var r := Decode(dl, bits, source.Pos(k0));
      var dist;
      ok, dist, b, k := ReadDistance(td, bd, b0, k0, dl, fd, bits);
      w := w0;
      if ok {
        DistanceBound(r, bits);
        Minus32Mod(w, dist);
        w := output.Copy(w, Minus32(w, dist), n, base, out, dist);
      }
    }

    /** Lines 393-440: a length and its match, when the entry t of a length code has been read. Fails
        on an invalid distance code. */
    method MatchStep(td: Tab, bd: nat, t: Huft, b0: nat, k0: nat, w0: nat, ghost dl: seq<nat>, ghost fd: Forest,
            ghost bits: seq<bool>, ghost base: seq<byte>, ghost out: seq<byte>)
      returns (ok: bool, b: nat, k: nat, w: nat)
      requires Between(b0, k0, w0, bits, base, out)
      requires TablesOrNone(DistanceAlphabet(dl), bd, heap.mem, fd, td) && bd <= 9 && 1 <= |dl| <= 30
      requires t.v.Number? && source.Pos(k0) + t.e <= |bits|
      requires Goes(MatchOn(Decode(dl, bits, source.Pos(k0) + t.e), dl, bits, out, t.v.n + Field(bits, source.Pos(k0), t.e)))
      modifies source, source.inbuf, output, output.window
      ensures source.Holding(b, k)
      ensures var m := MatchOn(Decode(dl, bits, old(source.Pos(k0)) + t.e),
                      dl, bits, out, t.v.n + Field(bits, old(source.Pos(k0)), t.e));
              if ok then m.Go? && Between(b, k, w, bits, base, m.out) && source.Pos(k) == m.pos else m == Stop(Bad(1))
    {
      hide Buffered, MatchOn, OnDisk, TablesOrNone;
      ghost var p: nat := source.Pos(k0) + t.e;
      ghost var len := t.v.n + Field(bits, source.Pos(k0), t.e);
      ghost var m := MatchOn(Decode(dl, bits, p), dl, bits, out, len);
      var n;
      n, b, k := ReadField(b0, k0, t.e, bits);
      n := t.v.n + n;
      assert source.Pos(k) == p && n == len;
      MatchNeeds(dl, bd, heap.mem, fd, td, bits, p, out, len);
      ok, b, k, w := CopyOne(td, bd, n, b, k, w0, m, dl, fd, bits, base, out);
    }

    /** Lines 381-440: what the entry read for a symbol asks for. */
    method Obey(td: Tab, bd: nat, ent: Huft, b0: nat, k0: nat, w0: nat, ghost turn: Next, ghost dl: seq<nat>,
            ghost fd: Forest, ghost bits: seq<bool>, ghost base: seq<byte>, ghost out: seq<byte>)
      returns (more: bool, ret: nat, b: nat, k: nat, w: nat)
      requires Between(b0, k0, w0, bits, base, out) && source.Pos(k0) <= |bits|
      requires TablesOrNone(DistanceAlphabet(dl), bd, heap.mem, fd, td) && bd <= 9 && 1 <= |dl| <= 30
      requires IsTurn(turn, dl, ent, bits, source.Pos(k0), out)
      modifies source, source.inbuf, output, output.window
      ensures source.Holding(b, k)
      ensures if more then ret == 0 && turn.Go? && Between(b, k, w, bits, base, turn.out) && source.Pos(k) == turn.pos
              else turn.Stop? && Ended(turn.o, ret, b, k, w, bits, base)
    {
      more, ret, b, k, w := true, 0, b0, k0, w0;
      if ent.e == LITERAL {
        w := output.Put(w, ent.v.n, base, out);
      } else if ent.e == END_OF_BLOCK {
        more := false;
      } else {
        more, b, k, w := MatchStep(td, bd, ent, b, k, w, dl, fd, bits, base, out);
        ret := if more then 0 else 1;
      }
    }

    /** One turn of the loop, lines 364-441. */
    method Step(tl: Tab, td: Tab, bl: nat, bd: nat, b0: nat, k0: nat, w0: nat, ghost t: Sets, ghost bits: seq<bool>,
            ghost base: seq<byte>, ghost out: seq<byte>)
      returns (more: bool, ret: nat, b: nat, k: nat, w: nat)
      requires Between(b0, k0, w0, bits, base, out) && SetTables(heap.mem, tl, td, bl, bd, t)
      requires source.Pos(k0) <= |bits| && Goes(Turn(t.ll, t.dl, bits, source.Pos(k0), out))
      modifies source, source.inbuf, output, output.window
      ensures source.Holding(b, k)
      ensures var turn := Turn(t.ll, t.dl, bits, old(source.Pos(k0)), out);
              if more then ret == 0 && turn.Go? && Between(b, k, w, bits, base, turn.out) && source.Pos(k) == turn.pos
              else turn.Stop? && Ended(turn.o, ret, b, k, w, bits, base)
    {
      ghost var pos: nat := source.Pos(k0);
      ghost var turn := Turn(t.ll, t.dl, bits, pos, out);
      TurnNeeds(heap.mem, tl, td, bl, bd, t, bits, pos, out);
      var ok, ent;
      ok, ent, b, k := DecodeSymbol(tl, bl, b0, k0, LiteralAlphabet(t.ll), t.fl, bits);
      TurnMeans(Decode(t.ll, bits, pos), t.ll, t.dl, bits, out, ok, ent, source.Pos(k));
      more, ret, w := false, 1, w0;
      if ok {
        more, ret, b, k, w := Obey(td, bd, ent, b, k, w, turn, t.dl, t.fd, bits, base, out);
      }
    }

    /** What a block, or the whole, must end with. */
    ghost predicate Ended(goal: Outcome, ret: nat, b: nat, k: nat, w: nat, bits: seq<bool>, base: seq<byte>)
      reads source, source.inbuf, output, output.window
    {
      && (goal.Done? ==> ret == 0 && Between(b, k, w, bits, base, goal.out) && source.Pos(k) == goal.pos)
      && (goal.Bad? ==> ret == goal.code != 0)
    }

    /** Between two blocks: the locals are in the globals. */
    ghost predicate Ready(bits: seq<bool>, base: seq<byte>, out: seq<byte>)
      reads this, source, source.inbuf, output, output.window
    {
      Between(bb, bk, outcnt, bits, base, out)
    }

    /** inflate_codes: the symbols of one block. */
    method InflateCodes(tl: Tab, td: Tab, bl: nat, bd: nat, ghost t: Sets, ghost goal: Outcome, ghost bits: seq<bool>,
            ghost base: seq<byte>, ghost out: seq<byte>)
      returns (ret: nat)
      requires Ready(bits, base, out) && SetTables(heap.mem, tl, td, bl, bd, t)
      requires source.Pos(bk) <= |bits| && goal == Compressed(t.ll, t.dl, bits, source.Pos(bk), out) && Decided(goal)
      modifies this, source, source.inbuf, output, output.window
      ensures Ended(goal, ret, bb, bk, outcnt, bits, base)
    {
      var b, k, w := bb, bk, outcnt;
      ghost var now := out;
      var more := true;
      while more
        invariant Decided(goal) && if more then
                    && Between(b, k, w, bits, base, now) && source.Pos(k) <= |bits|
                    && goal == Compressed(t.ll, t.dl, bits, source.Pos(k), now)
                  else goal.Done? && Ended(goal, 0, b, k, w, bits, base)
        decreases more, if more then |bits| - source.Pos(k) else 0
      {
        ghost var turn := Turn(t.ll, t.dl, bits, source.Pos(k), now);
        more, ret, b, k, w := Step(tl, td, bl, bd, b, k, w, t, bits, base, now);
        if ret != 0 {
          return;
        }
        now := if more then turn.out else now;
      }
      outcnt, bb, bk := w, b, k;
      ret := 0;
    }

    /** Lines 489-495: one byte. */
    method CopyByte(b0: nat, k0: nat, w0: nat, ghost bits: seq<bool>, ghost base: seq<byte>, ghost out: seq<byte>)
      returns (ghost c: byte, b: nat, k: nat, w: nat)
      requires Between(b0, k0, w0, bits, base, out) && source.Pos(k0) + 8 <= |bits|
      modifies source, source.inbuf, output, output.window
      ensures c == Field(bits, old(source.Pos(k0)), 8) && Between(b, k, w, bits, base, out + [c])
      ensures source.Pos(k) == old(source.Pos(k0)) + 8
    {
      hide Buffered, Field, OnDisk;
      ByteField(bits, source.Pos(k0));
      var v;
      v, b, k := Peek(b0, k0, 8, bits);
      c := v;
      w := output.Put(w0, v, base, out);
      b, k := DumpBits(b, k, 8);
    }

    /** Lines 488-496: n bytes straight from the input to the window. */
    method CopyBytes(n0: nat, b0: nat, k0: nat, w0: nat, ghost bits: seq<bool>, ghost base: seq<byte>,
            ghost out: seq<byte>)
      returns (b: nat, k: nat, w: nat)
      requires Between(b0, k0, w0, bits, base, out) && source.Pos(k0) + 8 * n0 <= |bits|
      modifies source, source.inbuf, output, output.window
      ensures Between(b, k, w, bits, base, out + Bytes(bits, old(source.Pos(k0)), n0))
      ensures source.Pos(k) == old(source.Pos(k0)) + 8 * n0
    {
      hide Buffered, Bytes, Field, OnDisk;
      b, k, w := b0, k0, w0;
      var n := n0;
      ghost var pos: nat, i: nat := source.Pos(k), 0;
      ghost var now: seq<byte> := out;
      while n > 0
        invariant i + n == n0
        invariant Between(b, k, w, bits, base, now) && source.Pos(k) == pos + 8 * i
        invariant now == out + Bytes(bits, pos, i)
        decreases n
      {
        n := n - 1;
        BytesSnoc(bits, pos, i, pos + 8 * i);
        ghost var c;
        c, b, k, w := CopyByte(b, k, w, bits, base, now);
        OneMore(out, Bytes(bits, pos, i), c);
        now, i := now + [c], i + 1;
      }
    }

    /** Lines 472-484: to the byte boundary, then the length and its complement. Fails if they disagree. */
    method StoredLength(b0: nat, k0: nat, ghost bits: seq<bool>, ghost start: nat)
      returns (ok: bool, n: nat, b: nat, k: nat)
      requires source.Holding(b0, k0) && k0 <= 15 && OnDisk(source.disk, bits)
      requires start == (source.Pos(k0) + 7) / 8 * 8 && start + 32 <= |bits|
      modifies source, source.inbuf
      ensures source.Holding(b, k)
      ensures n == Field(bits, start, 16) && ok == (n + Field(bits, start + 16, 16) == 65535)
      ensures ok ==> k <= 15 && source.Pos(k) == start + 32
    {
      hide Buffered, OnDisk, Field;
      ByteBoundary(source.BytesRead(), k0);
      b, k := DumpBits(b0, k0, k0 % 8);
      assert source.Pos(k) == start;
      n, b, k := ReadField(b, k, 16, bits);
      assert source.Pos(k) == start + 16;
      var c;
      c, b, k := Peek(b, k, 16, bits);
      ok := n + c == 65535;
      if ok {
        b, k := DumpBits(b, k, 16);
      }
    }

    /** inflate_stored */
    method InflateStored(ghost goal: Outcome, ghost bits: seq<bool>, ghost base: seq<byte>, ghost out: seq<byte>)
      returns (ret: nat)
      requires Ready(bits, base, out)
      requires source.Pos(bk) <= |bits| && goal == Stored(bits, source.Pos(bk), out) && Decided(goal)
      modifies this, source, source.inbuf, output, output.window
      ensures Ended(goal, ret, bb, bk, outcnt, bits, base)
    {
      hide Buffered, OnDisk, Bytes, Stored, Field;
      ghost var pos: nat := source.Pos(bk);
      ghost var start: nat := (pos + 7) / 8 * 8;
      StoredNeeds(bits, pos, out);
      var w := outcnt;
      var ok, n, b, k := StoredLength(bb, bk, bits, start);
      StoredMeans(bits, pos, out, start, n, Field(bits, start + 16, 16));
      if !ok {
        return 1;
      }
      assert Between(b, k, w, bits, base, out);
      ghost var o := out + Bytes(bits, start + 32, n);
      assert goal == Done(start + 32 + 8 * n, o);
      b, k, w := CopyBytes(n, b, k, w, bits, base, out);
      assert Between(b, k, w, bits, base, o) && source.Pos(k) == start + 32 + 8 * n;
      outcnt, bb, bk := w, b, k;
      ret := 0;
    }

    /** inflate_fixed */
    method InflateFixed(ghost goal: Outcome, ghost bits: seq<bool>, ghost base: seq<byte>, ghost out: seq<byte>)
      returns (ret: nat)
      requires Ready(bits, base, out)
      requires source.Pos(bk) <= |bits| && goal == Compressed(FixedLiterals(), FixedDistances(), bits, source.Pos(bk), out)
        && Decided(goal)
      modifies this, heap, source, source.inbuf, output, output.window
      ensures Ended(goal, ret, bb, bk, outcnt, bits, base)
      ensures ret == 0 ==> heap.mem == old(heap.mem)
    {
      hide Buffered, OnDisk, Compressed, TablesOrNone, InMemory, FixedLiterals, FixedDistances;
      var tl, td, bl, bd;
      ghost var t, mem1, cl, cd;
      tl, td, bl, bd, t, mem1, cl, cd := FixedTables(heap);
      ret := InflateCodes(tl, td, bl, bd, t, goal, bits, base, out);
      if ret != 0 {
        return 1;
      }
      FreeBoth(heap, tl, td, old(heap.mem), mem1, t, cl, cd);
    }

    /** Lines 618-625: the code lengths of the code length symbols, in their own order. */
    method ReadCodeLengths(ll: array<nat>, nb: nat, b0: nat, k0: nat, ghost bits: seq<bool>) returns (b: nat, k: nat)
      requires ll.Length == 316 && nb <= 19
      requires source.Holding(b0, k0) && k0 <= 15 && OnDisk(source.disk, bits) && source.Pos(k0) + 3 * nb <= |bits|
      modifies ll, source, source.inbuf
      ensures source.Holding(b, k) && k <= 15 && source.Pos(k) == old(source.Pos(k0)) + 3 * nb
      ensures ll[..19] == CodeLengthLens(bits, old(source.Pos(k0)), nb) && ThreeBits(ll[..19])
    {
      hide Buffered, OnDisk, Field, CodeLengthLens;
      ghost var pos: nat := source.Pos(k0);
      b, k := b0, k0;
      var j := 0;
      while j < nb
        invariant j <= nb
        invariant source.Holding(b, k) && k <= 15 && source.Pos(k) == pos + 3 * j
        invariant SentUpTo(ll[..], CodeLengthLens(bits, pos, j), j)
      {
        var x;
        x, b, k := ReadField(b, k, 3, bits);
        SendOne(ll[..], bits, pos, j, x);
        ll[ORDER[j]] := x;
        j := j + 1;
      }
      while j < 19
        invariant nb <= j <= 19 && SentUpTo(ll[..], CodeLengthLens(bits, pos, nb), j)
        modifies ll
      {
        ZeroOne(ll[..], bits, pos, nb, j);
        ll[ORDER[j]] := 0;
        j := j + 1;
      }
      AllSent(ll[..], CodeLengthLens(bits, pos, nb));
    }

    /** Lines 639-642: one code length symbol. */
    method CodeLength(tl: Tab, bl: nat, b0: nat, k0: nat, ghost cl: seq<nat>, ghost f: Forest, ghost bits: seq<bool>)
      returns (j: nat, b: nat, k: nat)
      requires Tables(LengthAlphabet(cl), bl, heap.mem, f, tl) && bl == MaxLen(cl) <= 7
      requires source.Holding(b0, k0) && k0 <= 15 && OnDisk(source.disk, bits) && Decode(cl, bits, source.Pos(k0)).Sym?
      modifies source, source.inbuf
      ensures source.Holding(b, k) && k <= 15
      ensures var r := Decode(cl, bits, old(source.Pos(k0))); j == r.n && source.Pos(k) == r.pos
    {
      ghost var pos: nat := source.Pos(k0);
      ghost var x := BitsAt(source.disk, pos, BMAX);
      StreamWindow(source.disk, bits, pos);
      OneLevel(LengthAlphabet(cl), bl, heap.mem, f, tl, x, bits, pos);
      var td;
      td, b, k := LookUp(tl, bl, b0, k0, x, pos, 0);
      b, k := DumpBits(b, k, td.b);
      j := td.v.n;
    }

    /** Lines 645-678: a run of lengths, e bits telling how many more than `least`. Fails if there are
        too many. */
    method ReadRun(ll: array<nat>, i0: nat, n: nat, e: nat, least: nat, x: nat, b0: nat, k0: nat, ghost bits: seq<bool>)
      returns (ok: bool, i: nat, b: nat, k: nat)
      requires i0 <= n <= ll.Length
      requires source.Holding(b0, k0) && k0 <= 15 && OnDisk(source.disk, bits) && source.Pos(k0) + e <= |bits|
      modifies ll, source, source.inbuf
      ensures source.Holding(b, k) && k <= 15 && source.Pos(k) == old(source.Pos(k0)) + e
      ensures var count := Field(bits, old(source.Pos(k0)), e) + least;
              && ok == (i0 + count <= n)
              && (ok ==> i == i0 + count && ll[..i] == old(ll[..i0]) + Run(count, x))
      ensures forall q :: n <= q < ll.Length ==> ll[q] == old(ll[q])
    {
      var j;
      j, b, k := ReadField(b0, k0, e, bits);
      j := j + least;
      ok, i := i0 + j <= n, i0;
      if ok {
        FillLengths(ll, i, j, x);
        i := i + j;
      }
    }

    /** Lines 643-679: what one code length symbol j adds. */
    method AddLengths(ll: array<nat>, i0: nat, n: nat, l0: nat, j: nat, b0: nat, k0: nat, ghost r: Symbol,
            ghost bits: seq<bool>)
      returns (ok: bool, i: nat, l: nat, b: nat, k: nat)
      requires i0 < n <= ll.Length && j <= 18 && LengthsOk(ll[..i0]) && l0 == LastLen(ll[..i0])
      requires source.Holding(b0, k0) && k0 <= 15 && OnDisk(source.disk, bits)
      requires source.Pos(k0) <= |bits| && r == Sym(j, source.Pos(k0)) && Known(ExpandOn(r, bits, n, ll[..i0]))
      modifies ll, source, source.inbuf
      ensures source.Holding(b, k) && k <= 15
      ensures var m := ExpandOn(r, bits, n, old(ll[..i0]));
              if ok then m.Lengths? && i == |m.lens| && ll[..i] == m.lens && source.Pos(k) == m.pos
              else m == NoLengths(Bad(1))
      ensures ok ==> LengthsOk(ll[..i]) && l == LastLen(ll[..i])
      ensures forall q :: n <= q < ll.Length ==> ll[q] == old(ll[q])
    {
      hide Buffered, OnDisk;
      ghost var lens := ll[..i0];
      ok, i, l, b, k := true, i0, l0, b0, k0;
      if j < 16 {
        LastOne(lens, j);
        ll[i] := j;
        i, l := i + 1, j;
        assert ll[..i] == lens + [j];
      } else if j == 16 {
        LastRun(lens, Field(bits, source.Pos(k), 2) + 3, l);
        ok, i, b, k := ReadRun(ll, i, n, 2, 3, l, b, k, bits);
      } else if j == 17 {
        LastRun(lens, Field(bits, source.Pos(k), 3) + 3, 0);
        ok, i, b, k := ReadRun(ll, i, n, 3, 3, 0, b, k, bits);
        l := 0;
      } else {
        LastRun(lens, Field(bits, source.Pos(k), 7) + 11, 0);
        ok, i, b, k := ReadRun(ll, i, n, 7, 11, 0, b, k, bits);
        l := 0;
      }
    }

    /** Lines 633-679: the code lengths of both sets. Fails if a run goes past the end. */
    method ReadLengths(ll: array<nat>, n: nat, tl: Tab, bl: nat, b0: nat, k0: nat, ghost cl: seq<nat>,
            ghost f: Forest, ghost bits: seq<bool>)
      returns (ok: bool, b: nat, k: nat)
      requires n <= ll.Length && |cl| == 19
      requires TablesOrNone(LengthAlphabet(cl), bl, heap.mem, f, tl) && bl <= 7 && (!AllZero(cl) ==> bl == MaxLen(cl))
      requires source.Holding(b0, k0) && k0 <= 15 && OnDisk(source.disk, bits)
      requires source.Pos(k0) <= |bits| && Known(Expand(cl, bits, source.Pos(k0), n, []))
      modifies ll, source, source.inbuf
      ensures source.Holding(b, k) && k <= 15
      ensures var m := Expand(cl, bits, old(source.Pos(k0)), n, []);
              if ok then m == Lengths(ll[..n], source.Pos(k)) else m == NoLengths(Bad(1))
      ensures ok ==> LengthsOk(ll[..n])
      ensures forall q :: n <= q < ll.Length ==> ll[q] == old(ll[q])
    {
      ghost var goal := Expand(cl, bits, source.Pos(k0), n, []);
      var i, l := 0, 0;
      b, k := b0, k0;
      assert ll[..0] == [];
      while i < n
        invariant i <= n && LengthsOk(ll[..i]) && l == LastLen(ll[..i])
        invariant source.Holding(b, k) && k <= 15 && source.Pos(k) <= |bits| && Known(goal)
        invariant goal == Expand(cl, bits, source.Pos(k), n, ll[..i])
        invariant forall q :: n <= q < ll.Length ==> ll[q] == old(ll[q])
        decreases n - i
      {
        ghost var r := Decode(cl, bits, source.Pos(k));
        ghost var m := ExpandOn(r, bits, n, ll[..i]);
        ExpandNeeds(heap.mem, cl, bl, f, tl, bits, source.Pos(k), n, ll[..i]);
        var j;
        j, b, k := CodeLength(tl, bl, b, k, cl, f, bits);
        ok, i, l, b, k := AddLengths(ll, i, n, l, j, b, k, r, bits);
        if !ok {
          return;
        }
      }
      ok := true;
    }

    /** Lines 628-683: the code lengths of both sets, decoded with a table that is freed again. */
    method ReadSets(ll: array<nat>, nl: nat, nd: nat, b0: nat, k0: nat, ghost cl: seq<nat>, ghost goal: Outcome,
            ghost bits: seq<bool>, ghost out: seq<byte>)
      returns (ret: nat, b: nat, k: nat)
      requires nl + nd <= ll.Length == 316 && ll[..19] == cl && ThreeBits(cl)
      requires source.Holding(b0, k0) && k0 <= 15 && OnDisk(source.disk, bits)
      requires source.Pos(k0) <= |bits| && goal == SetLengths(cl, nl, nd, bits, source.Pos(k0), out) && Decided(goal)
      modifies heap, ll, source, source.inbuf
      ensures source.Holding(b, k) && k <= 15
      ensures if ret == 0 then
                && heap.mem == old(heap.mem)
                && LengthsOk(ll[..nl]) && LengthsOk(ll[nl..nl + nd]) && 0 <= source.Pos(k) <= |bits|
                && goal == TreesOf(ll[..nl], ll[nl..nl + nd], bits, source.Pos(k), out)
              else goal == Bad(ret)
    {
      hide Compressed, TreesOf, Expand, MaxLen, Verdict, InMemory, TablesOrNone, Buffered, OnDisk;
      b, k := b0, k0;
      var tl, bl;
      ghost var f, chain;
      ret, tl, bl, f, chain := HuftBuild.HuftBuild(heap, ll[..19], 19, [], [], 7);
      if ret != 0 {
        if ret == 1 {
          HuftFree(heap, tl, old(heap.mem), f, chain);
        }
        return;
      }
      LengthTables(cl, bl, heap.mem, old(heap.mem), f, chain, tl);
      var ok;
      ok, b, k := ReadLengths(ll, nl + nd, tl, bl, b, k, cl, f, bits);
      if !ok {
        return 1, b, k;
      }
      HuftFree(heap, tl, old(heap.mem), f, chain);
      TwoSets(ll[..nl + nd], nl);
      assert ll[..nl] == ll[..nl + nd][..nl] && ll[nl..nl + nd] == ll[..nl + nd][nl..];
    }

    /** Lines 685-728: the tables of both sets, the symbols of the block, and freeing the tables. */
    method InflateTrees(ll: seq<nat>, dl: seq<nat>, ghost goal: Outcome, ghost bits: seq<bool>, ghost base: seq<byte>,
            ghost out: seq<byte>)
      returns (ret: nat)
      requires Ready(bits, base, out) && 257 <= |ll| <= 286 && 1 <= |dl| <= 30 && LengthsOk(ll) && LengthsOk(dl)
      requires source.Pos(bk) <= |bits| && goal == TreesOf(ll, dl, bits, source.Pos(bk), out) && Decided(goal)
      modifies this, heap, source, source.inbuf, output, output.window
      ensures Ended(goal, ret, bb, bk, outcnt, bits, base)
      ensures ret == 0 ==> heap.mem == old(heap.mem)
    {
      hide Buffered, OnDisk, Compressed, Verdict, TablesOrNone, InMemory, LengthsOk;
      ValidLengths(ll);
      ValidLengths(dl);
      var tl, td, bl, bd;
      ghost var t, mem1, cl, cd;
      ret, tl, td, bl, bd, t, mem1, cl, cd := DynamicTables(heap, ll, dl);
      if ret != 0 {
        return;
      }
      ret := InflateCodes(tl, td, bl, bd, t, goal, bits, base, out);
      if ret != 0 {
        return 1;
      }
      FreeBoth(heap, tl, td, old(heap.mem), mem1, t, cl, cd);
    }

    /** Lines 594-609 */
    method ReadCounts(b0: nat, k0: nat, ghost bits: seq<bool>) returns (nl: nat, nd: nat, nb: nat, b: nat, k: nat)
      requires source.Holding(b0, k0) && k0 <= 15 && OnDisk(source.disk, bits) && source.Pos(k0) + 14 <= |bits|
      modifies source, source.inbuf
      ensures source.Holding(b, k) && k <= 15 && source.Pos(k) == old(source.Pos(k0)) + 14
      ensures Counts(nl, nd, nb) == CountsAt(bits, old(source.Pos(k0)))
    {
      hide Buffered, OnDisk, Field;
      nl, b, k := ReadField(b0, k0, 5, bits);
      nd, b, k := ReadField(b, k, 5, bits);
      nb, b, k := ReadField(b, k, 4, bits);
      nl, nd, nb := 257 + nl, 1 + nd, 4 + nb;
    }

    /** Lines 616-728, after the counts. */
    method InflateSets(nl: nat, nd: nat, nb: nat, b0: nat, k0: nat, ghost goal: Outcome, ghost bits: seq<bool>,
            ghost base: seq<byte>, ghost out: seq<byte>)
      returns (ret: nat)
      requires Between(b0, k0, outcnt, bits, base, out) && 257 <= nl <= 286 && 1 <= nd <= 30 && nb <= 19
      requires source.Pos(k0) + 3 * nb <= |bits|
      requires goal == SetLengths(CodeLengthLens(bits, source.Pos(k0), nb), nl, nd, bits, source.Pos(k0) + 3 * nb, out)
        && Decided(goal)
      modifies this, heap, source, source.inbuf, output, output.window
      ensures Ended(goal, ret, bb, bk, outcnt, bits, base)
      ensures ret == 0 ==> heap.mem == old(heap.mem)
    {
      hide Compressed, SetLengths, TreesOf, Expand, CodeLengthLens, TurnOn, Turn;
      var ll := new nat[316];
      var b, k := ReadCodeLengths(ll, nb, b0, k0, bits);
      ret, b, k := ReadSets(ll, nl, nd, b, k, ll[..19], goal, bits, out);
      if ret != 0 {
        return;
      }
      assert Between(b, k, outcnt, bits, base, out);
      bb, bk := b, k;
      ret := InflateTrees(ll[..nl], ll[nl..nl + nd], goal, bits, base, out);
    }

    /** inflate_dynamic */
    method InflateDynamic(ghost goal: Outcome, ghost bits: seq<bool>, ghost base: seq<byte>, ghost out: seq<byte>)
      returns (ret: nat)
      requires Ready(bits, base, out)
      requires source.Pos(bk) <= |bits| && goal == Dynamic(bits, source.Pos(bk), out) && Decided(goal)
      modifies this, heap, source, source.inbuf, output, output.window
      ensures Ended(goal, ret, bb, bk, outcnt, bits, base)
      ensures ret == 0 ==> heap.mem == old(heap.mem)
    {
      hide Compressed, SetLengths, DynamicSets, CountsAt, TreesOf, TurnOn, Turn;
      ghost var pos: nat := source.Pos(bk);
      DynamicNeeds(bits, pos, out);
      ghost var c := CountsAt(bits, pos);
      var nl, nd, nb, b, k := ReadCounts(bb, bk, bits);
      assert c == Counts(nl, nd, nb) && source.Pos(k) == pos + 14;
      SetsMeans(c, bits, source.Pos(k), out);
      if nl > 286 || nd > 30 {
        return 1;
      }
      assert Between(b, k, outcnt, bits, base, out);
      ret := InflateSets(nl, nd, nb, b, k, goal, bits, base, out);
    }

    /** inflate_block: the last-block flag e, the kind of block, and the block. */
    method InflateBlock(ghost goal: Outcome, ghost bits: seq<bool>, ghost base: seq<byte>, ghost out: seq<byte>)
      returns (ret: nat, e: nat)
      requires Ready(bits, base, out) && source.Pos(bk) + 3 <= |bits|
      requires goal == OneBlock(Field(bits, source.Pos(bk) + 1, 2), bits, source.Pos(bk) + 3, out) && Decided(goal)
      modifies this, heap, source, source.inbuf, output, output.window
      ensures Ended(goal, ret, bb, bk, outcnt, bits, base)
      ensures e == Field(bits, old(source.Pos(bk)), 1)
      ensures ret == 0 ==> heap.mem == old(heap.mem)
    {
      hide Buffered, OnDisk;
      hide Compressed, Dynamic, Stored, Field;
      var b, k, t := bb, bk, 0;
      e, b, k := ReadField(b, k, 1, bits);
      t, b, k := ReadField(b, k, 2, bits);
      bb, bk := b, k;
      assert Between(bb, bk, outcnt, bits, base, out);
      if t == 2 {
        ret := InflateDynamic(goal, bits, base, out);
      } else if t == 0 {
        ret := InflateStored(goal, bits, base, out);
      } else if t == 1 {
        ret := InflateFixed(goal, bits, base, out);
      } else {
        ret := 2;
      }
    }

    /** Lines 794-801: blocks up to the last. */
    method InflateBlocks(ghost goal: Outcome, ghost bits: seq<bool>, ghost base: seq<byte>, ghost out: seq<byte>)
      returns (ret: nat)
      requires Ready(bits, base, out)
      requires source.Pos(bk) <= |bits| && goal == Deflate.Inflate(bits, source.Pos(bk), out) && Decided(goal)
      modifies this, heap, source, source.inbuf, output, output.window
      ensures Ended(goal, ret, bb, bk, outcnt, bits, base)
      ensures ret == 0 ==> goal.Done? && heap.mem == old(heap.mem)
    {
      hide OneBlock, OnDisk, Field, Buffered, Deflate.Inflate;
      ghost var now := out;
      var more := true;
      while more
        invariant Ready(bits, base, now) && heap.mem == old(heap.mem) && Decided(goal)
        invariant if more then source.Pos(bk) <= |bits| && goal == Deflate.Inflate(bits, source.Pos(bk), now)
                  else goal == Done(source.Pos(bk), now)
        decreases more, |bits| - source.Pos(bk)
      {
        ghost var pos: nat := source.Pos(bk);
        BlockTurn(bits, pos, now);
        ghost var o := OneBlock(Field(bits, pos + 1, 2), bits, pos + 3, now);
        var e;
        ret, e := InflateBlock(o, bits, base, now);
        if ret != 0 {
          return;
        }
        now, more := o.out, e == 0;
      }
      ret := 0;
    }

    /** inflate: on a stream that is decided, the return code and, if that is zero, exactly the decoded
        bytes, the input left just past the byte that holds the last bit, and no memory left over. What
        is decoded starts with the window's old contents; for a stream that stands on its own that
        makes no difference. */
    method Inflate(ghost bits: seq<bool>) returns (ret: nat)
      requires source.Valid() && output.Valid() && source.inbuf != output.window
      requires OnDisk(source.disk, bits) && 8 * source.BytesRead() <= |bits|
      requires Decided(Deflate.Inflate(bits, 8 * source.BytesRead(), output.window[..]))
      modifies this, heap, source, source.inbuf, output, output.window
      ensures match Deflate.Inflate(bits, 8 * old(source.BytesRead()), old(output.window[..]))
              case Done(p, o) =>
                && ret == 0 && source.Valid() && output.Valid()
                && |o| >= WSIZE && output.flushed == old(output.flushed) + o[WSIZE..]
                && source.BytesRead() == (p + 7) / 8
                && heap.mem == old(heap.mem)
              case Bad(c) => ret == c != 0
              case _ => true
      ensures match Deflate.Inflate(bits, 8 * old(source.BytesRead()), [])
              case Done(p, o) => ret == 0 && output.flushed == old(output.flushed) + o && source.BytesRead() == (p + 7) / 8
              case Bad(c) => ret == c
              case _ => true
    {
      hide OnDisk, Buffered, Deflate.Inflate;
      Alone(bits, 8 * source.BytesRead(), output.window[..]);
      ghost var goal := Deflate.Inflate(bits, 8 * source.BytesRead(), output.window[..]);
      ghost var base, out := output.flushed, output.window[..];
      outcnt, bk, bb := 0, 0, 0;
      output.NothingYet();
      source.NothingHeld();
      ret := InflateBlocks(goal, bits, base, out);
      if ret != 0 {
        return;
      }
      bk := source.Undo(bk);
      output.FlushRest(outcnt, base, goal.out);
      ret := 0;
    }
  }
}
