/** Buffered input: `get_byte` and `fill_inbuf` deliver the file's bytes in order, and NEEDBITS
    and DUMPBITS deliver its bits (zip/gzip.h:75, zip/misc.c:41-47, 123-136, zip/inflate.c:95-97). */
module Input {
  import opened Bits
  import opened Deflate

  const INBUFSIZ: nat := 1024

  /** The file as a device gives it block by block: byte p of it. Blocks are always whole, so the
      device has bytes past the end of the file. */
  type Disk = nat -> byte

  function ByteBits(x: byte): (s: seq<bool>)
    ensures |s| == 8 && Num(s) == x
  {
    Pow2To16();
    BitsOf(x, 8)
  }

  /** Bit p of the file, the low bit of each byte first. */
  function BitAt(disk: Disk, p: nat): bool {
    ByteBits(disk(p / 8))[p % 8]
  }

  function BitsAt(disk: Disk, p: nat, n: nat): (s: seq<bool>)
    ensures |s| == n
  {
    seq(n, i requires 0 <= i < n => BitAt(disk, p + i))
  }

  /** The stream `bits` is what the file starts with. */
  ghost predicate OnDisk(disk: Disk, bits: seq<bool>) {
    forall i {:trigger BitIs(disk, bits, i)} :: 0 <= i < |bits| ==> BitIs(disk, bits, i)
  }

  ghost predicate BitIs(disk: Disk, bits: seq<bool>, i: nat)
    requires i < |bits|
  {
    bits[i] == BitAt(disk, i)
  }

  lemma OnDiskSlice(disk: Disk, bits: seq<bool>, p: nat, n: nat)
    requires OnDisk(disk, bits) && p + n <= |bits|
    ensures bits[p..p + n] == BitsAt(disk, p, n)
  {
    forall i | 0 <= i < n ensures bits[p + i] == BitsAt(disk, p, n)[i] {
      assert BitIs(disk, bits, p + i);
    }
  }

  lemma BitsAtSplit(disk: Disk, p: nat, m: nat, n: nat)
    requires m <= n
    ensures BitsAt(disk, p, n)[..m] == BitsAt(disk, p, m)
    ensures BitsAt(disk, p, n)[m..] == BitsAt(disk, p + m, n - m)
  {
  }

  lemma BitsAtByte(disk: Disk, q: nat)
    ensures BitsAt(disk, 8 * q, 8) == ByteBits(disk(q))
  {
    forall i | 0 <= i < 8 ensures BitsAt(disk, 8 * q, 8)[i] == ByteBits(disk(q))[i] {
      var p := 8 * q + i;
      assert p / 8 == q && p % 8 == i;
      assert BitsAt(disk, 8 * q, 8)[i] == BitAt(disk, p);
    }
  }

  /** b holds the k bits before the next byte q of the file. */
  ghost predicate Buffered(disk: Disk, q: nat, b: nat, k: nat) {
    k <= 8 * q && b == Num(BitsAt(disk, 8 * q - k, k))
  }

  lemma BufferByte(disk: Disk, q: nat, b: nat, k: nat)
    requires Buffered(disk, q, b, k)
    ensures b < Pow2(k)
    ensures Buffered(disk, q + 1, b + Shl(disk(q), k), k + 8)
  {
    hide BitsAt, Num, Shl, Pow2;
    var p := 8 * q - k;
    var s := BitsAt(disk, p, k + 8);
    BitsAtSplit(disk, p, k, k + 8);
    BitsAtByte(disk, q);
    assert s == s[..k] + s[k..];
    NumConcat(s[..k], s[k..]);
    NumBound(s[..k]);
  }

  lemma BufferTake(disk: Disk, q: nat, b: nat, k: nat, n: nat)
    requires Buffered(disk, q, b, k) && n <= k
    ensures Low(b, n) == Num(BitsAt(disk, 8 * q - k, n))
    ensures Buffered(disk, q, Shr(b, n), k - n)
  {
    var p := 8 * q - k;
    NumSplit(BitsAt(disk, p, k), n);
    BitsAtSplit(disk, p, n, k);
  }

  /** What the buffer shows of a field that lies within the stream. */
  lemma BufferField(disk: Disk, bits: seq<bool>, q: nat, b: nat, k: nat, n: nat)
    requires OnDisk(disk, bits) && Buffered(disk, q, b, k) && n <= k && 8 * q - k + n <= |bits|
    ensures Low(b, n) == Field(bits, 8 * q - k, n)
  {
    BufferTake(disk, q, b, k, n);
    OnDiskSlice(disk, bits, 8 * q - k, n);
  }

  class Source {
    const disk: Disk
    const inbuf: array<byte>
    var insize: nat
    var inptr: nat
    var blockNumber: nat

    ghost predicate Valid()
      reads this, inbuf
    {
      && inbuf.Length == INBUFSIZ && inptr <= insize
      && (insize == 0 ==> blockNumber == 0)
      && (insize != 0 ==> insize == INBUFSIZ && blockNumber >= 1 && HoldsBlock(blockNumber - 1))
    }

    ghost predicate HoldsBlock(n: nat)
      reads this, inbuf
    {
      inbuf.Length == INBUFSIZ && forall i {:trigger HoldsByte(n, i)} :: 0 <= i < INBUFSIZ ==> HoldsByte(n, i)
    }

    ghost predicate HoldsByte(n: nat, i: nat)
      requires i < INBUFSIZ == inbuf.Length
      reads inbuf
    {
      inbuf[i] == disk(INBUFSIZ * n + i)
    }

    /** The bit buffer b holds the last k bits read; the last byte of a buffer that is not empty is
        still in inbuf. */
    ghost predicate Holding(b: nat, k: nat)
      reads this, inbuf
    {
      Valid() && k <= 8 * BytesRead() && Buffered(disk, BytesRead(), b, k) && (k > 0 ==> inptr >= 1)
    }

    /** The position in the file of the first bit not yet taken from the buffer. */
    ghost function Pos(k: nat): int
      requires Valid()
      reads this, inbuf
    {
      8 * BytesRead() - k
    }

    /** How many bytes have been read. */
    ghost function BytesRead(): nat
      requires Valid()
      reads this, inbuf
    {
      if insize == 0 then 0 else INBUFSIZ * (blockNumber - 1) + inptr
    }

    constructor (disk: Disk)
      ensures Valid() && BytesRead() == 0 && this.disk == disk && fresh(inbuf)
    {
      this.disk := disk;
      inbuf := new byte[INBUFSIZ];
      insize, inptr, blockNumber := 0, 0, 0;
    }

    /** An empty bit buffer. */
    lemma NothingHeld()
      requires Valid()
      ensures Holding(0, 0) && Pos(0) == 8 * BytesRead()
    {
    }

    /** clear_bufs, the input side. */
    method Clear()
      requires Valid()
      modifies this
      ensures Valid() && BytesRead() == 0
    {
      insize, inptr, blockNumber := 0, 0, 0;
    }

    /** Reads the next block and returns its first byte. */
    method FillInbuf() returns (c: byte)
      requires Valid() && inptr == insize
      modifies this, inbuf
      ensures Valid() && c == disk(old(BytesRead())) && BytesRead() == old(BytesRead()) + 1
      ensures inptr >= 1
    {
      var start := INBUFSIZ * blockNumber;
      forall i | 0 <= i < INBUFSIZ {
        inbuf[i] := disk(start + i);
      }
      blockNumber := blockNumber + 1;
      insize := INBUFSIZ;
      inptr := 1;
      c := inbuf[0];
    }

    /** The p-th read returns byte p of the file. */
    method GetByte() returns (c: byte)
      requires Valid()
      modifies this, inbuf
      ensures Valid() && c == disk(old(BytesRead())) && BytesRead() == old(BytesRead()) + 1
      ensures inptr >= 1
    {
      if inptr < insize {
        assert HoldsByte(blockNumber - 1, inptr);
        c := inbuf[inptr];
        inptr := inptr + 1;
      } else {
        c := FillInbuf();
      }
    }

    /** NEEDBITS: at least n bits in the buffer, and fewer than eight more than needed. */
    method NeedBits(b0: nat, k0: nat, n: nat) returns (b: nat, k: nat)
      requires Holding(b0, k0)
      modifies this, inbuf
      ensures Holding(b, k) && Pos(k) == old(Pos(k0))
      ensures n <= k && k0 <= k && (k == k0 || k < n + 8)
    {
      b, k := b0, k0;
      while k < n
        invariant Holding(b, k) && Pos(k) == old(Pos(k0))
        invariant k0 <= k && (k == k0 || k < n + 8)
        decreases n - k
      {
        BufferByte(disk, BytesRead(), b, k);
        var c := GetByte();
        b := b + Shl(c, k);
        k := k + 8;
      }
    }

    /** Lines 804-810 of inflate.c: give whole bytes of the buffer back to inbuf. */
    method Undo(k0: nat) returns (k: nat)
      requires Valid() && k0 <= 15 && (k0 > 0 ==> inptr >= 1)
      modifies this
      ensures Valid() && k < 8 && Pos(k) == old(Pos(k0))
      ensures BytesRead() == (old(Pos(k0)) + 7) / 8
      ensures old(inptr) - inptr <= 1
    {
      k := k0;
      while k >= 8
        invariant Valid() && Pos(k) == old(Pos(k0)) && k <= k0
        invariant k >= 8 ==> inptr >= 1
        invariant inptr == old(inptr) - (k0 - k) / 8 && k0 - k <= 8
        decreases k
      {
        k := k - 8;
        inptr := inptr - 1;
      }
    }
  }
}
