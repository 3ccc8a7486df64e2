/** What a DEFLATE stream means: a decoder that works bit by bit on the whole stream and byte by
    byte on the whole output, after sections 3.2.3 to 3.2.7 of RFC 1951. No tables, no bit
    buffer, no window. `zip/inflate.c` is proved to compute this.

    The output starts out as `out`, which stands for whatever precedes the data; a match may
    reach back into it. An RFC 1951 stream is one decoded from the empty output. */
module Deflate {
  import opened Bits
  import opened Canonical

  type byte = x: int | 0 <= x < 256

  /** Done: bits used up to `pos`, output `out`. Bad: invalid, with the program's return code.
      Far: a match reaches back beyond the start of the output. Short: the bits run out.
      Undefined: a code that no symbol has, in a set where the program's table entry for it was
      never set (see `Unassigned`). */
  datatype Outcome = Done(pos: nat, out: seq<byte>) | Bad(code: nat) | Far | Short | Undefined

  /** n bits at `pos`, least significant first. */
  function Field(bits: seq<bool>, pos: nat, n: nat): nat
    requires pos + n <= |bits|
  {
    Num(bits[pos..pos + n])
  }

  /*-- Section 3.2.5 ----------------------------------------------------------*/

  const LENGTH_BASE: seq<nat> := [
    3, 4, 5, 6, 7, 8, 9, 10, 11, 13, 15, 17, 19, 23, 27, 31,
    35, 43, 51, 59, 67, 83, 99, 115, 131, 163, 195, 227, 258, 0, 0]

  const LENGTH_EXTRA: seq<nat> := [
    0, 0, 0, 0, 0, 0, 0, 0, 1, 1, 1, 1, 2, 2, 2, 2,
    3, 3, 3, 3, 4, 4, 4, 4, 5, 5, 5, 5, 0, 99, 99]

  const DIST_BASE: seq<nat> := [
    1, 2, 3, 4, 5, 7, 9, 13, 17, 25, 33, 49, 65, 97, 129, 193,
    257, 385, 513, 769, 1025, 1537, 2049, 3073, 4097, 6145,
    8193, 12289, 16385, 24577]

  const DIST_EXTRA: seq<nat> := [
    0, 0, 0, 0, 1, 1, 2, 2, 3, 3, 4, 4, 5, 5, 6, 6,
    7, 7, 8, 8, 9, 9, 10, 10, 11, 11, 12, 12, 13, 13]

  const END_OF_BLOCK_CODE: nat := 256
  const WSIZE: nat := 32768

  lemma DistancePositive(m: nat)
    requires m < |DIST_BASE|
    ensures DIST_BASE[m] >= 1
  {
  }

  /** n bytes, each the one `dist` back; they may repeat bytes of the match itself. */
  function CopyMatch(out: seq<byte>, dist: nat, n: nat): (r: seq<byte>)
    requires 1 <= dist <= |out|
    ensures |r| == |out| + n
    decreases n
  {
    if n == 0 then out else CopyMatch(out + [out[|out| - dist]], dist, n - 1)
  }

  /** A code nobody has. When some length is zero the program's entry for it is unset memory. */
  function Unassigned(lens: seq<nat>): Outcome {
    if 0 in lens then Undefined else Bad(1)
  }

  /** What one symbol of a block leads to: more symbols, or the end. */
  datatype Next = Go(pos: nat, out: seq<byte>) | Stop(o: Outcome)

  /** A match of len bytes whose distance code r has been decoded. */
  ghost function MatchOn(r: Symbol, dl: seq<nat>, bits: seq<bool>, out: seq<byte>, len: nat): (m: Next)
    requires r.Sym? ==> r.pos <= |bits|
    ensures m.Go? ==> r.Sym? && r.pos <= m.pos <= |bits|
    ensures m.Stop? ==> !m.o.Done? && (m.o.Bad? ==> m.o.code == 1)
  {
    match r
    case OutOfBits => Stop(Short)
    case NoCode => Stop(Unassigned(dl))
    case Sym(n, p) =>
      if n >= |DIST_BASE| then Stop(Bad(1))
      else if p + DIST_EXTRA[n] > |bits| then Stop(Short)
      else
        var dist := DIST_BASE[n] + Field(bits, p, DIST_EXTRA[n]);
        DistancePositive(n);
        if dist > |out| then Stop(Far) else Go(p + DIST_EXTRA[n], CopyMatch(out, dist, len))
  }

  /** A literal or a match whose first code r has been decoded, or the end-of-block code. */
  ghost function TurnOn(r: Symbol, ll: seq<nat>, dl: seq<nat>, bits: seq<bool>, out: seq<byte>): (m: Next)
    requires r.Sym? ==> r.pos <= |bits|
    ensures m.Go? ==> r.Sym? && r.pos <= m.pos <= |bits|
    ensures m.Stop? && m.o.Done? ==> r.Sym? && r.pos == m.o.pos
    ensures m.Stop? && m.o.Bad? ==> m.o.code == 1
  {
    match r
    case OutOfBits => Stop(Short)
    case NoCode => Stop(Unassigned(ll))
    case Sym(n, p) =>
      if n < END_OF_BLOCK_CODE then Go(p, out + [n])
      else if n == END_OF_BLOCK_CODE then Stop(Done(p, out))
      else if n > 285 then Stop(Bad(1))
      else
        var ext := LENGTH_EXTRA[n - 257];
        if p + ext > |bits| then Stop(Short)
        else
          MatchOn(Decode(dl, bits, p + ext), dl, bits, out, LENGTH_BASE[n - 257] + Field(bits, p, ext))
  }

  ghost function Turn(ll: seq<nat>, dl: seq<nat>, bits: seq<bool>, pos: nat, out: seq<byte>): Next {
    TurnOn(Decode(ll, bits, pos), ll, dl, bits, out)
  }

  /** Section 3.2.3: literals and matches up to the end-of-block code. */
  ghost function Compressed(ll: seq<nat>, dl: seq<nat>, bits: seq<bool>, pos: nat, out: seq<byte>): (r: Outcome)
    requires pos <= |bits|
    ensures r.Done? ==> pos < r.pos <= |bits|
    ensures r.Bad? ==> r.code == 1
    decreases |bits| - pos
  {
    match Turn(ll, dl, bits, pos, out)
    case Go(p, o) => Compressed(ll, dl, bits, p, o)
    case Stop(o) => o
  }

  /*-- Section 3.2.4 ----------------------------------------------------------*/

  function Bytes(bits: seq<bool>, pos: nat, n: nat): (r: seq<byte>)
    requires pos + 8 * n <= |bits|
    ensures |r| == n
    decreases n
  {
    if n == 0 then [] else
      NumBound(bits[pos..pos + 8]);
      Pow2To16();
      [Field(bits, pos, 8)] + Bytes(bits, pos + 8, n - 1)
  }

  function Stored(bits: seq<bool>, pos: nat, out: seq<byte>): (r: Outcome)
    requires pos <= |bits|
    ensures r.Done? ==> pos < r.pos <= |bits|
  {
    var start := (pos + 7) / 8 * 8;
    if start + 32 > |bits| then Short
    else
      var n := Field(bits, start, 16);
      if n + Field(bits, start + 16, 16) != 65535 then Bad(1)
      else if start + 32 + 8 * n > |bits| then Short
      else Done(start + 32 + 8 * n, out + Bytes(bits, start + 32, n))
  }

  /*-- Section 3.2.6 ----------------------------------------------------------*/

  function Run(n: nat, x: nat): (r: seq<nat>)
    ensures |r| == n && forall i :: 0 <= i < n ==> r[i] == x
  {
    seq(n, _ => x)
  }

  function FixedLiterals(): (r: seq<nat>)
    ensures |r| == 288
  {
    Run(144, 8) + Run(112, 9) + Run(24, 7) + Run(8, 8)
  }

  function FixedDistances(): (r: seq<nat>)
    ensures |r| == 30
  {
    Run(30, 5)
  }

  /*-- Section 3.2.7 ----------------------------------------------------------*/

  const ORDER: seq<nat> := [16, 17, 18, 0, 8, 7, 9, 6, 10, 5, 11, 4, 12, 3, 13, 2, 14, 1, 15]

  /** Code lengths for the code length alphabet: the first nb of ORDER have 3 bits each. */
  function CodeLengthLens(bits: seq<bool>, pos: nat, nb: nat): (r: seq<nat>)
    requires nb <= 19 && pos + 3 * nb <= |bits|
    ensures |r| == 19
  {
    if nb == 0 then Run(19, 0)
    else CodeLengthLens(bits, pos, nb - 1)[ORDER[nb - 1] := Field(bits, pos + 3 * (nb - 1), 3)]
  }

  datatype Lengths = Lengths(lens: seq<nat>, pos: nat) | NoLengths(why: Outcome)

  function LastLen(lens: seq<nat>): nat {
    if lens == [] then 0 else lens[|lens| - 1]
  }

  /** What the code length symbol r adds to the lengths so far: 0-15 stand for themselves, 16 repeats
      the last length (0 at the start) 3-6 times, 17 and 18 repeat zero 3-10 and 11-138 times. */
  ghost function ExpandOn(r: Symbol, bits: seq<bool>, n: nat, lens: seq<nat>): (m: Lengths)
    requires (r.Sym? ==> r.pos <= |bits|) && |lens| < n
    ensures m.Lengths? ==> r.Sym? && r.pos <= m.pos <= |bits| && |lens| < |m.lens| <= n
    ensures m.NoLengths? ==> !m.why.Done? && !m.why.Far? && (m.why.Bad? ==> m.why.code == 1)
  {
    match r
    case OutOfBits => NoLengths(Short)
    case NoCode => NoLengths(Undefined)
    case Sym(j, p) =>
      if j < 16 then Lengths(lens + [j], p)
      else
        var ext := if j == 16 then 2 else if j == 17 then 3 else 7;
        if p + ext > |bits| then NoLengths(Short)
        else
          var count := Field(bits, p, ext) + (if j == 18 then 11 else 3);
          if |lens| + count > n then NoLengths(Bad(1))
          else Lengths(lens + Run(count, if j == 16 then LastLen(lens) else 0), p + ext)
  }

  /** The rest of n code lengths. */
  ghost function Expand(cl: seq<nat>, bits: seq<bool>, pos: nat, n: nat, lens: seq<nat>): (r: Lengths)
    requires pos <= |bits| && |lens| <= n
    ensures r.Lengths? ==> pos <= r.pos <= |bits| && |r.lens| == n
    ensures r.NoLengths? ==> !r.why.Done? && !r.why.Far? && (r.why.Bad? ==> r.why.code == 1)
    decreases n - |lens|
  {
    if |lens| == n then Lengths(lens, pos) else
    match ExpandOn(Decode(cl, bits, pos), bits, n, lens)
    case NoLengths(why) => NoLengths(why)
    case Lengths(more, p) => Expand(cl, bits, p, n, more)
  }

  /** The two sets of a block, then its symbols. */
  ghost function TreesOf(ll: seq<nat>, dl: seq<nat>, bits: seq<bool>, pos: nat, out: seq<byte>): (r: Outcome)
    requires pos <= |bits|
    ensures r.Done? ==> pos < r.pos <= |bits|
    ensures r.Bad? ==> r.code != 0
  {
    if Verdict(ll) != 0 then Bad(Verdict(ll))
    else if Verdict(dl) != 0 then Bad(Verdict(dl))
    else Compressed(ll, dl, bits, pos, out)
  }

  /** The code lengths of the two sets, in the code cl. */
  ghost function SetLengths(cl: seq<nat>, nl: nat, nd: nat, bits: seq<bool>, pos: nat, out: seq<byte>): (r: Outcome)
    requires pos <= |bits|
    ensures r.Done? ==> pos < r.pos <= |bits|
    ensures r.Bad? ==> r.code != 0
  {
    if Verdict(cl) != 0 then Bad(Verdict(cl)) else
    match Expand(cl, bits, pos, nl + nd, [])
    case NoLengths(why) => why
    case Lengths(lens, p) => TreesOf(lens[..nl], lens[nl..], bits, p, out)
  }

  lemma FourBits(bits: seq<bool>, pos: nat)
    requires pos + 4 <= |bits|
    ensures Field(bits, pos, 4) <= 15
  {
    NumBound(bits[pos..pos + 4]);
    Pow2To16();
  }

  /** The three counts at the start of a dynamic block: how many lengths the two sets have, and how
      many of the code length code are sent. */
  datatype Counts = Counts(nl: nat, nd: nat, nb: nat)

  function CountsAt(bits: seq<bool>, pos: nat): (c: Counts)
    requires pos + 14 <= |bits|
    ensures c.nl >= 257 && c.nd >= 1 && 4 <= c.nb <= 19
  {
    FourBits(bits, pos + 10);
    Counts(257 + Field(bits, pos, 5), 1 + Field(bits, pos + 5, 5), 4 + Field(bits, pos + 10, 4))
  }

  /** A dynamic block after its three counts. The program reads at most 30 distance lengths; the format
      has up to 32. */
  ghost function DynamicSets(c: Counts, bits: seq<bool>, p: nat, out: seq<byte>): (r: Outcome)
    requires p <= |bits| && c.nb <= 19
    ensures r.Done? ==> p < r.pos <= |bits|
    ensures r.Bad? ==> r.code != 0
  {
    if c.nl > 286 || c.nd > 30 then Bad(1)
    else if p + 3 * c.nb > |bits| then Short
    else SetLengths(CodeLengthLens(bits, p, c.nb), c.nl, c.nd, bits, p + 3 * c.nb, out)
  }

  ghost function Dynamic(bits: seq<bool>, pos: nat, out: seq<byte>): (r: Outcome)
    requires pos <= |bits|
    ensures r.Done? ==> pos < r.pos <= |bits|
    ensures r.Bad? ==> r.code != 0
  {
    if pos + 14 > |bits| then Short else DynamicSets(CountsAt(bits, pos), bits, pos + 14, out)
  }

  /*-- Section 3.2.3 ----------------------------------------------------------*/

  ghost function OneBlock(kind: nat, bits: seq<bool>, pos: nat, out: seq<byte>): (r: Outcome)
    requires pos <= |bits|
    ensures r.Done? ==> pos < r.pos <= |bits|
  {
    if kind == 2 then Dynamic(bits, pos, out)
    else if kind == 0 then Stored(bits, pos, out)
    else if kind == 1 then Compressed(FixedLiterals(), FixedDistances(), bits, pos, out)
    else Bad(2)
  }

  /** Blocks up to and including the one marked last. */
  ghost function Inflate(bits: seq<bool>, pos: nat, out: seq<byte>): (r: Outcome)
    requires pos <= |bits|
    ensures r.Done? ==> pos < r.pos <= |bits|
    decreases |bits| - pos
  {
    if pos + 3 > |bits| then Short else
    match OneBlock(Field(bits, pos + 1, 2), bits, pos + 3, out)
    case Done(p, o) => if bits[pos] then Done(p, o) else Inflate(bits, p, o)
    case other => other
  }
}
