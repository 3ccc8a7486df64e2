/** The circular output window: storing a byte, copying a match in chunks, and flushing
    (zip/inflate.c:381-386, 420-440, 488-496, zip/misc.c:143-162). */
module Window {
  import opened Deflate

  /** The window position of the byte `back` places before the end of the output, when the newest
      byte is in slot w - 1. */
  function SlotOf(w: nat, back: nat): int {
    if back <= w then w - back else w - back + WSIZE
  }

  lemma {:induction false} CopyMatchStep(out: seq<byte>, dist: nat, n: nat)
    requires 1 <= dist <= |out|
    ensures var r := CopyMatch(out, dist, n);
            CopyMatch(out, dist, n + 1) == r + [r[|r| - dist]]
    decreases n
  {
    if n > 0 {
      CopyMatchStep(out + [out[|out| - dist]], dist, n - 1);
    }
  }

  /** r is out and n more bytes, each of them the one `dist` back. */
  ghost predicate Repeats(r: seq<byte>, out: seq<byte>, dist: nat, n: nat)
    requires 1 <= dist <= |out|
  {
    |r| == |out| + n && r[..|out|] == out && forall k :: |out| <= k < |r| ==> r[k] == r[k - dist]
  }

  /** That, and nothing else, is what copying a match makes. */
  lemma {:induction false} CopyMatchIff(r: seq<byte>, out: seq<byte>, dist: nat, n: nat)
    requires 1 <= dist <= |out|
    ensures r == CopyMatch(out, dist, n) <==> Repeats(r, out, dist, n)
    decreases n
  {
    if n == 0 {
      assert |r| == |out| ==> r[..|out|] == r;
    } else if |r| == |out| + n {
      var i: nat := n - 1;
      var m, q := CopyMatch(out, dist, i), r[..|r| - 1];
      CopyMatchStep(out, dist, i);
      CopyMatchIff(q, out, dist, i);
      hide CopyMatch, Repeats;
      RepeatsMore(r, q, out, dist, i);
      assert r == q + [r[|r| - 1]];
      assert r[|r| - 1 - dist] == q[|q| - dist];
    }
  }

  lemma RepeatsMore(r: seq<byte>, q: seq<byte>, out: seq<byte>, dist: nat, i: nat)
    requires 1 <= dist <= |out| && |r| == |out| + i + 1 && q == r[..|r| - 1]
    ensures Repeats(r, out, dist, i + 1) <==> Repeats(q, out, dist, i) && r[|r| - 1] == r[|r| - 1 - dist]
  {
    assert q[..|out|] == r[..|out|];
  }

  /** Copying a and then b bytes is copying a + b. */
  lemma {:induction false} CopyMatchAdd(out: seq<byte>, dist: nat, a: nat, b: nat)
    requires 1 <= dist <= |out|
    ensures CopyMatch(CopyMatch(out, dist, a), dist, b) == CopyMatch(out, dist, a + b)
    decreases a
  {
    if a > 0 {
      CopyMatchAdd(out + [out[|out| - dist]], dist, a - 1, b);
    }
  }

  /** A match no longer than its distance repeats bytes that were there before. */
  lemma {:induction false} CopyMatchPlain(out: seq<byte>, dist: nat, n: nat)
    requires 1 <= dist <= |out| && n <= dist
    ensures CopyMatch(out, dist, n) == out + out[|out| - dist..|out| - dist + n]
  {
    if n > 0 {
      CopyMatchPlain(out, dist, n - 1);
      CopyMatchStep(out, dist, n - 1);
    }
  }

  /** The masked source position is the slot of the byte `dist` back. */
  lemma MaskedSlot(w: nat, d: nat, dist: nat)
    requires w < WSIZE && 1 <= dist <= WSIZE && d % WSIZE == (w - dist) % WSIZE
    ensures d % WSIZE == SlotOf(w, dist)
  {
  }

  /** Moving both positions on by e, and the window position back to 0 at the end. */
  lemma MovedSlot(w: nat, d: nat, dist: nat, e: nat)
    requires w + e <= WSIZE && 1 <= dist <= WSIZE && d == SlotOf(w, dist)
    ensures (d + e) % WSIZE == ((w + e) % WSIZE - dist) % WSIZE
  {
    var x, y := w + e, (w + e) % WSIZE;
    assert y == x || y == x - WSIZE;
    assert d + e == x - dist || d + e == x - dist + WSIZE;
  }

  class Output {
    const window: array<byte>
    var bytesOut: nat
    /** Whether dest_addr is set, and what has been copied to it. */
    const hasDest: bool
    var dest: seq<byte>
    /** Everything flushed so far. */
    ghost var flushed: seq<byte>

    ghost predicate Valid()
      reads this, window
    {
      window.Length == WSIZE && bytesOut == |flushed| && (hasDest ==> dest == flushed)
    }

    constructor (hasDest: bool)
      ensures Valid() && fresh(window) && flushed == [] && this.hasDest == hasDest
    {
      window := new byte[WSIZE];
      this.hasDest := hasDest;
      bytesOut, dest, flushed := 0, [], [];
    }

    /** clear_bufs, the output side: what follows counts from zero and goes to a new place. */
    method Clear()
      requires Valid()
      modifies this
      ensures Valid() && flushed == []
    {
      bytesOut, dest, flushed := 0, [], [];
    }

    /** flush_window with outcnt bytes in the window. */
    method Flush(outcnt: nat)
      requires Valid() && outcnt <= WSIZE
      modifies this
      ensures Valid() && flushed == old(flushed) + window[..outcnt]
    {
      if outcnt == 0 {
        return;
      }
      bytesOut := bytesOut + outcnt;
      if hasDest {
        dest := dest + window[..outcnt];
      }
      flushed := flushed + window[..outcnt];
    }

    /** Everything of `out` past the first window is flushed, except the last w bytes, which are in
        the window below w; w may be one past its end. */
    ghost predicate Pending(base: seq<byte>, w: nat, out: seq<byte>)
      reads this, window
    {
      && Valid() && w <= WSIZE <= |out| - w
      && flushed == base + out[WSIZE..|out| - w]
      && forall j :: 0 <= j < WSIZE ==> window[j] == out[|out| - w + j - (if j < w then 0 else WSIZE)]
    }

    /** The same between two bytes, when a full window has been flushed. */
    ghost predicate Delivers(base: seq<byte>, w: nat, out: seq<byte>)
      reads this, window
    {
      Pending(base, w, out) && w < WSIZE
    }

    /** if (w == WSIZE) { flush_output(w); w = 0; } */
    method Wrap(w0: nat, ghost base: seq<byte>, ghost out: seq<byte>) returns (w: nat)
      requires Pending(base, w0, out)
      modifies this
      ensures Delivers(base, w, out) && w == w0 % WSIZE
    {
      w := w0;
      if w == WSIZE {
        assert window[..w] == out[|out| - w0..];
        assert out[WSIZE..|out| - w0] + out[|out| - w0..] == out[WSIZE..];
        Flush(w);
        w := 0;
      }
    }

    /** Before anything is written the window counts as the last window full of output. */
    lemma NothingYet()
      requires Valid()
      ensures Delivers(flushed, 0, window[..])
    {
    }

    /** flush_output(wp) at the end. */
    method FlushRest(w: nat, ghost base: seq<byte>, ghost out: seq<byte>)
      requires Delivers(base, w, out)
      modifies this
      ensures Valid() && flushed == base + out[WSIZE..]
    {
      assert window[..w] == out[|out| - w..];
      assert out[WSIZE..|out| - w] + out[|out| - w..] == out[WSIZE..];
      Flush(w);
    }

    /** slide[w++] = c, with the flush when the window is full. */
    method Put(w0: nat, c: byte, ghost base: seq<byte>, ghost out: seq<byte>) returns (w: nat)
      requires Delivers(base, w0, out)
      modifies this, window
      ensures Delivers(base, w, out + [c])
    {
      window[w0] := c;
      w := Wrap(w0 + 1, base, out + [c]);
    }

    /** memcpy of e bytes inside the window, taken as reading all of them before writing any. It is
        used when the two ranges do not overlap or the bytes move down. */
    method MemCopy(w: nat, d: nat, e: nat, ghost base: seq<byte>, ghost out: seq<byte>, ghost dist: nat)
      requires Delivers(base, w, out) && 1 <= dist <= WSIZE
      requires w + e <= WSIZE && d + e <= WSIZE && d == SlotOf(w, dist)
      requires w < d || w - d >= e
      modifies window
      ensures Pending(base, w + e, CopyMatch(out, dist, e))
    {
      CopyMatchPlain(out, dist, e);
      forall i | 0 <= i < e {
        window[w + i] := window[d + i];
      }
    }

    /** slide[w++] = slide[d++] */
    method CopyByte(w: nat, d: nat, ghost base: seq<byte>, ghost out: seq<byte>, ghost dist: nat)
      requires Pending(base, w, out) && 1 <= dist <= WSIZE
      requires w < WSIZE && d < WSIZE && d == SlotOf(w, dist)
      modifies window
      ensures Pending(base, w + 1, out + [out[|out| - dist]])
    {
      window[w] := window[d];
    }

    /** do { slide[w++] = slide[d++]; } while (--e); */
    method SlowCopy(w0: nat, d0: nat, e0: nat, ghost base: seq<byte>, ghost out: seq<byte>, ghost dist: nat)
      requires Delivers(base, w0, out) && 1 <= dist <= WSIZE
      requires w0 + e0 <= WSIZE && d0 + e0 <= WSIZE && d0 == SlotOf(w0, dist)
      modifies window
      ensures Pending(base, w0 + e0, CopyMatch(out, dist, e0))
    {
      var w, d, e := w0, d0, e0;
      ghost var i: nat, now := 0, out;
      while e > 0
        invariant w == w0 + i && d == d0 + i && e + i == e0 && e >= 0
        invariant now == CopyMatch(out, dist, i) && Pending(base, w, now)
      {
        CopyMatchStep(out, dist, i);
        CopyByte(w, d, base, now, dist);
        now := now + [now[|now| - dist]];
        i := i + 1;
        w, d, e := w + 1, d + 1, e - 1;
      }
    }

    /** Lines 422-439: one chunk, ended by whichever range meets the end of the window first. The
        test for memcpy is on unsigned values: a source after the destination passes it. */
    method CopyChunk(w0: nat, d: nat, n: nat, ghost base: seq<byte>, ghost out: seq<byte>, ghost dist: nat)
      returns (w: nat, e: nat)
      requires Delivers(base, w0, out) && 1 <= dist <= WSIZE
      requires d == SlotOf(w0, dist) && n > 0
      modifies this, window
      ensures 1 <= e <= n && w0 + e <= WSIZE && w == (w0 + e) % WSIZE
      ensures Delivers(base, w, CopyMatch(out, dist, e))
    {
      e := WSIZE - (if d > w0 then d else w0);
      if e > n {
        e := n;
      }
      if w0 < d || w0 - d >= e {
        MemCopy(w0, d, e, base, out, dist);
      } else {
        SlowCopy(w0, d, e, base, out, dist);
      }
      w := Wrap(w0 + e, base, CopyMatch(out, dist, e));
    }

    /** Lines 420-440: copy n bytes from position d on, chunk by chunk. */
    method Copy(w0: nat, d0: nat, n0: nat, ghost base: seq<byte>, ghost out: seq<byte>, ghost dist: nat)
      returns (w: nat)
      requires Delivers(base, w0, out) && 1 <= dist <= WSIZE
      requires d0 % WSIZE == (w0 - dist) % WSIZE
      modifies this, window
      ensures Delivers(base, w, CopyMatch(out, dist, n0))
    {
      w := w0;
      var d: nat, n: nat := d0, n0;
      ghost var i: nat, now := 0, out;
      assert CopyMatch(out, dist, 0) == out;
      hide CopyMatch, Delivers;
      while n > 0
        invariant n + i == n0 && d % WSIZE == (w - dist) % WSIZE
        invariant now == CopyMatch(out, dist, i) && Delivers(base, w, now)
      {
        MaskedSlot(w, d, dist);
        d := d % WSIZE;
        var e, x;
        x, e := CopyChunk(w, d, n, base, now, dist);
        CopyMatchAdd(out, dist, i, e);
        MovedSlot(w, d, dist, e);
        i, now := i + e, CopyMatch(now, dist, e);
        w, d, n := x, d + e, n - e;
      }
    }
  }
}
