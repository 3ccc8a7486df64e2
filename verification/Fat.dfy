/** The boot block composer for FAT filesystems (tools/boot/srmbootfat.c:53-66, 177-197): reading
    12-bit entries out of 32-bit words, and the check that a file is contiguous. */
module Fat {
  import opened Bits
  import opened Input
  import opened Alu
  import opened Rotate

  /** Memory from the start of the table on. What lies past its end is whatever is there. */
  type Table = Disk

  /** The 32-bit word w, its bits in order. */
  function Word32(fat: Table, w: nat): (r: Word)
    ensures |r| == 32
  {
    BitsAt(fat, 32 * w, 32)
  }

  /** get_fat_entry */
  function GetFatEntry(fat: Table, fatbits: nat, entry: nat): nat
    requires fatbits == 12 || fatbits == 16
  {
    if fatbits == 12 then
      var i := 4 * (3 * entry % 8);
      var a, b := Word32(fat, 3 * entry / 8), Word32(fat, 3 * entry / 8 + 1);
      Num(Or(ShiftRight(a, i), ShiftLeft(b, 32 - i))[..12])
    else Num(BitsAt(fat, 16 * entry, 16))
  }

  /** An entry byte by byte: two 12-bit entries in three bytes, or two bytes each. */
  function FatEntry(fat: Table, fatbits: nat, entry: nat): nat
    requires fatbits == 12 || fatbits == 16
  {
    if fatbits == 16 then fat(2 * entry) as nat + 256 * fat(2 * entry + 1) as nat
    else
      var o := entry + entry / 2;
      if entry % 2 == 0 then fat(o) as nat + 256 * (fat(o + 1) as nat % 16) else fat(o) as nat / 16 + 16 * fat(o + 1) as nat
  }

  lemma WordPlace(entry: nat)
    ensures 32 * (3 * entry / 8) + 4 * (3 * entry % 8) == 12 * entry && 4 * (3 * entry % 8) <= 28
  {
  }

  /** Twelve bits from bit i of word w on are in that word or the next. */
  lemma TwelveBits(fat: Table, w: nat, i: nat, p: nat)
    requires i <= 28 && p == 32 * w + i
    ensures Or(ShiftRight(Word32(fat, w), i), ShiftLeft(Word32(fat, w + 1), 32 - i))[..12] == BitsAt(fat, p, 12)
  {
    var a, b := Word32(fat, w), Word32(fat, w + 1);
    var r := Or(ShiftRight(a, i), ShiftLeft(b, 32 - i));
    hide BitAt, Word32;
    forall j | 0 <= j < 12 ensures r[j] == BitAt(fat, p + j) {
      if i + j < 32 {
        WordBit(fat, w, i + j, p + j);
      } else {
        WordBit(fat, w + 1, i + j - 32, p + j);
      }
    }
  }

  lemma WordBit(fat: Table, w: nat, k: nat, q: nat)
    requires k < 32 && q == 32 * w + k
    ensures Word32(fat, w)[k] == BitAt(fat, q)
  {
  }

  /** The shifted and combined words hold the bits from 12 * entry on; with 16 bits, those from
      16 * entry on. */
  lemma EntryBits(fat: Table, fatbits: nat, entry: nat)
    requires fatbits == 12 || fatbits == 16
    ensures GetFatEntry(fat, fatbits, entry) == Num(BitsAt(fat, fatbits * entry, fatbits))
  {
    WordPlace(entry);
    TwelveBits(fat, 3 * entry / 8, 4 * (3 * entry % 8), 12 * entry);
    hide Num, BitsAt, Or, ShiftRight, ShiftLeft, Word32;
  }

  /** The bits of two bytes. */
  lemma TwoBytes(fat: Table, q: nat)
    ensures BitsAt(fat, 8 * q, 16) == ByteBits(fat(q)) + ByteBits(fat(q + 1))
  {
    BitsAtSplit(fat, 8 * q, 8, 16);
    BitsAtByte(fat, q);
    BitsAtByte(fat, q + 1);
    var s := BitsAt(fat, 8 * q, 16);
    assert s == s[..8] + s[8..];
  }

  lemma Halves(x: Word, n: nat)
    requires n <= |x|
    ensures Num(x[..n]) == Low(Num(x), n) && Num(x[n..]) == Shr(Num(x), n)
  {
    NumSplit(x, n);
  }

  lemma NibblesOf(x: nat)
    requires x < 256
    ensures Low(x, 4) == x % 16 && Shr(x, 4) == x / 16
  {
    ShrShl(x, 4);
    Pow2To16();
    ShlFour(Shr(x, 4));
    hide Low, Shr, Shl, Pow2;
  }

  lemma Scale(x: nat)
    ensures Shl(x, 8) == 256 * x && Shl(x, 4) == 16 * x
  {
    ShlFour(x);
    ShlShl(x, 4, 4);
    ShlFour(16 * x);
  }

  lemma EvenEntry(fat: Table, q: nat)
    ensures Num(BitsAt(fat, 8 * q, 12)) == fat(q) as nat + 256 * (fat(q + 1) as nat % 16)
  {
    hide Num, BitsAt, ByteBits, Low, Shr, Shl;
    var x, y := ByteBits(fat(q)), ByteBits(fat(q + 1));
    TwoBytes(fat, q);
    BitsAtSplit(fat, 8 * q, 12, 16);
    assert (x + y)[..12] == x + y[..4];
    NumConcat(x, y[..4]);
    Halves(y, 4);
    NibblesOf(fat(q + 1));
    Scale(Num(y[..4]));
  }

  lemma OddEntry(fat: Table, q: nat)
    ensures Num(BitsAt(fat, 8 * q + 4, 12)) == fat(q) as nat / 16 + 16 * fat(q + 1) as nat
  {
    hide Num, BitsAt, ByteBits, Low, Shr, Shl;
    var x, y := ByteBits(fat(q)), ByteBits(fat(q + 1));
    TwoBytes(fat, q);
    BitsAtSplit(fat, 8 * q, 4, 16);
    assert (x + y)[4..] == x[4..] + y;
    NumConcat(x[4..], y);
    Halves(x, 4);
    NibblesOf(fat(q));
    Scale(fat(q + 1));
  }

  lemma WholeEntry(fat: Table, q: nat)
    ensures Num(BitsAt(fat, 8 * q, 16)) == fat(q) as nat + 256 * fat(q + 1) as nat
  {
    hide Num, BitsAt, ByteBits, Shl;
    TwoBytes(fat, q);
    NumConcat(ByteBits(fat(q)), ByteBits(fat(q + 1)));
    Scale(fat(q + 1));
  }

  /** get_fat_entry reads the entry the bytes hold, for every table and index. */
  lemma GetIsEntry(fat: Table, fatbits: nat, entry: nat)
    requires fatbits == 12 || fatbits == 16
    ensures GetFatEntry(fat, fatbits, entry) == FatEntry(fat, fatbits, entry)
  {
    var o := entry + entry / 2;
    if fatbits == 16 {
      WholeEntry(fat, 2 * entry);
    } else {
      EntryBits(fat, 12, entry);
      if entry % 2 == 0 {
        assert 12 * entry == 8 * o;
        EvenEntry(fat, o);
      } else {
        assert 12 * entry == 8 * o + 4;
        OddEntry(fat, o);
      }
    }
  }

  /*-- The contiguity check ---------------------------------------------------*/

  /** First value that is no next cluster. */
  function FatEnd(fatbits: nat): int {
    Pow2(fatbits) - 9
  }

  lemma FatEnds()
    ensures FatEnd(12) == 0xFF7 && FatEnd(16) == 0xFFF7
  {
    Pow2To16();
  }

  /** Cluster k of the file that starts at `start`. */
  function Cluster(fat: Table, fatbits: nat, start: nat, k: nat): nat
    requires fatbits == 12 || fatbits == 16
  {
    if k == 0 then start else FatEntry(fat, fatbits, Cluster(fat, fatbits, start, k - 1))
  }

  /** The chain from `start` has exactly n clusters. */
  ghost predicate ChainHas(fat: Table, fatbits: nat, start: nat, n: nat)
    requires fatbits == 12 || fatbits == 16
  {
    && n > 0
    && (forall k :: 0 < k < n ==> Cluster(fat, fatbits, start, k) < FatEnd(fatbits))
    && Cluster(fat, fatbits, start, n) >= FatEnd(fatbits)
  }

  ghost predicate Contiguous(fat: Table, fatbits: nat, start: nat, n: nat)
    requires fatbits == 12 || fatbits == 16
  {
    forall k :: 0 <= k < n ==> Cluster(fat, fatbits, start, k) == start + k
  }

  /** What marks the end of a file: 0xFF8 or 0xFFF8 and above. FatEnd itself is the mark of a bad
      cluster. */
  function EndMark(fatbits: nat): nat {
    if fatbits == 12 then 0xFF8 else 0xFFF8
  }

  /** The chain from `start` has n clusters and ends as a file does. */
  ghost predicate FileHas(fat: Table, fatbits: nat, start: nat, n: nat)
    requires fatbits == 12 || fatbits == 16
  {
    && n > 0
    && (forall k :: 0 < k < n ==> Cluster(fat, fatbits, start, k) < FatEnd(fatbits))
    && Cluster(fat, fatbits, start, n) >= EndMark(fatbits)
  }

  /** A contiguous chain that the program takes to be n clusters long is a file of n clusters if and
      only if the entry of its last cluster is not the mark of a bad one. */
  lemma EndsRight(fat: Table, fatbits: nat, start: nat, n: nat)
    requires (fatbits == 12 || fatbits == 16) && ChainHas(fat, fatbits, start, n) && Contiguous(fat, fatbits, start, n)
    ensures FileHas(fat, fatbits, start, n) <==> FatEntry(fat, fatbits, start + n - 1) != FatEnd(fatbits)
  {
    FatEnds();
    hide FatEntry, FatEnd;
    assert Cluster(fat, fatbits, start, n) == FatEntry(fat, fatbits, Cluster(fat, fatbits, start, n - 1));
    hide Cluster;
    assert Cluster(fat, fatbits, start, n - 1) == start + (n - 1);
  }

  /** No file is missed. */
  lemma FileIsChain(fat: Table, fatbits: nat, start: nat, n: nat)
    requires (fatbits == 12 || fatbits == 16) && FileHas(fat, fatbits, start, n)
    ensures ChainHas(fat, fatbits, start, n)
  {
    FatEnds();
    hide Cluster, FatEnd;
  }

  /** A table whose cluster 2 has the mark of a bad cluster: with 12 bits its bytes 3 and 4 are F7 0F,
      with 16 its bytes 4 and 5 are F7 FF. */
  function BadTable(fatbits: nat): Table {
    i => if fatbits == 12 then (if i == 3 then 0xF7 else if i == 4 then 0x0F else 0)
         else if i == 4 then 0xF7 else if i == 5 then 0xFF else 0
  }

  /** The check accepts it for a file of one cluster that starts there. */
  lemma BadAccepted(fatbits: nat, clusize: nat)
    requires (fatbits == 12 || fatbits == 16) && clusize > 0
    ensures var fat := BadTable(fatbits);
            && ChainHas(fat, fatbits, 2, 1) && Contiguous(fat, fatbits, 2, 1) && (clusize + clusize - 1) / clusize == 1
            && FatEntry(fat, fatbits, 2) == FatEnd(fatbits) && forall n :: !FileHas(fat, fatbits, 2, n)
  {
    var fat := BadTable(fatbits);
    FatEnds();
    hide FatEnd;
    assert Cluster(fat, fatbits, 2, 0) == 2;
    assert FatEntry(fat, fatbits, 2) == FatEnd(fatbits);
    assert Cluster(fat, fatbits, 2, 1) == FatEnd(fatbits);
    hide Cluster, FatEntry;
    OneWhole(clusize);
    forall n ensures !FileHas(fat, fatbits, 2, n) {
      assert n > 1 ==> !(Cluster(fat, fatbits, 2, 1) < FatEnd(fatbits));
    }
  }

  lemma OneWhole(c: nat)
    requires c > 0
    ensures (c + c - 1) / c == 1
  {
    assert c + c - 1 == 1 * c + (c - 1);
  }

  datatype Status = Fine | NotContiguous | WrongSize

  /** Lines 184-197. It ends, and accepts exactly the files whose chain is finite, contiguous and as
      long as the size says. */
  method CheckChain(fat: Table, fatbits: nat, first: nat, size: nat, clusize: nat) returns (st: Status, ghost n: nat)
    requires (fatbits == 12 || fatbits == 16) && clusize > 0
    ensures st == Fine <==>
              && ChainHas(fat, fatbits, first, n) && Contiguous(fat, fatbits, first, n)
              && (size + clusize - 1) / clusize == n
    ensures st == WrongSize ==> ChainHas(fat, fatbits, first, n) && Contiguous(fat, fatbits, first, n)
    ensures st == Fine ==> (FileHas(fat, fatbits, first, n) <==> FatEntry(fat, fatbits, first + n - 1) != FatEnd(fatbits))
    ensures st == Fine ==> FatEntry(fat, fatbits, first + n - 1) >= if fatbits == 12 then 0xFF7 else 0xFFF7
    ensures st == NotContiguous ==> forall m :: ChainHas(fat, fatbits, first, m) ==> !Contiguous(fat, fatbits, first, m)
  {
    FatEnds();
    hide GetFatEntry, FatEntry, FatEnd;
    var i, start, fatEnd := 1, first, FatEnd(fatbits);
    GetIsEntry(fat, fatbits, start);
    var j := GetFatEntry(fat, fatbits, start);
    while j < fatEnd
      invariant i >= 1 && start == first + (i - 1) && j == Cluster(fat, fatbits, first, i)
      invariant Contiguous(fat, fatbits, first, i)
      invariant forall k :: 0 < k < i ==> Cluster(fat, fatbits, first, k) < fatEnd
      decreases fatEnd - start
    {
      if j != start + 1 {
        n := 0;
        Broken(fat, fatbits, first, i);
        return NotContiguous, n;
      }
      start := j;
      i := i + 1;
      GetIsEntry(fat, fatbits, start);
      j := GetFatEntry(fat, fatbits, start);
    }
    n := i;
    EndsRight(fat, fatbits, first, i);
    assert j == FatEntry(fat, fatbits, Cluster(fat, fatbits, first, i - 1));
    st := if (size + clusize - 1) / clusize != i then WrongSize else Fine;
  }

  /** A cluster out of line before the end of the chain. */
  lemma Broken(fat: Table, fatbits: nat, first: nat, i: nat)
    requires (fatbits == 12 || fatbits == 16) && i >= 1
    requires forall k :: 0 < k <= i ==> Cluster(fat, fatbits, first, k) < FatEnd(fatbits)
    requires Cluster(fat, fatbits, first, i) != first + i
    ensures forall m :: ChainHas(fat, fatbits, first, m) ==> !Contiguous(fat, fatbits, first, m)
  {
    forall m: nat | ChainHas(fat, fatbits, first, m) ensures !Contiguous(fat, fatbits, first, m) {
      assert m > i;
    }
  }

  /*-- What the boot block says -----------------------------------------------*/

  /** Where sector k of the file is: in cluster k / clusize. `data` is the first sector of cluster 2. */
  function FileSector(fat: Table, fatbits: nat, first: nat, clusize: nat, data: nat, k: nat): int
    requires (fatbits == 12 || fatbits == 16) && clusize > 0
  {
    (Cluster(fat, fatbits, first, k / clusize) - 2) * clusize + data + k % clusize
  }

  lemma Regroup(x: int, y: int, c: int)
    ensures (x + y) * c == x * c + y * c
  {
  }

  /** When the check has passed, sector k of the file is disk sector srm.start + k, for every k below
      srm.count. */
  lemma BootBlockRight(fat: Table, fatbits: nat, first: nat, size: nat, clusize: nat, data: nat, n: nat, k: nat)
    requires (fatbits == 12 || fatbits == 16) && clusize > 0 && k < size
    requires Contiguous(fat, fatbits, first, n) && (size + clusize - 1) / clusize == n
    ensures FileSector(fat, fatbits, first, clusize, data, k) == (first - 2) * clusize + data + k
  {
    var q, r := k / clusize, k % clusize;
    Fewer(k, size, clusize, n);
    hide Cluster;
    assert Cluster(fat, fatbits, first, q) == first + q;
    Quotient(k, clusize);
    Regroup(first - 2, q, clusize);
  }

  lemma Quotient(k: nat, c: nat)
    requires c > 0
    ensures k == k / c * c + k % c
  {
  }

  lemma Fewer(k: nat, size: nat, c: nat, n: nat)
    requires c > 0 && k < size && (size + c - 1) / c == n
    ensures k / c < n
  {
    var q := k / c;
    if q >= n {
      MulMono(n, q, c);
    }
  }

  lemma MulMono(a: int, b: int, c: int)
    requires a <= b && c >= 0
    ensures a * c <= b * c
  {
  }
}
