/** Memory, segments, stack, jumps and string instructions of the 8086 emulator
    (video/x86/x86_decode.c:374-1126, video/x86/x86_prim_ops.c:566-610, video/x86/x86_ops.c). Memory
    is one array of bytes, words little-endian; an address is a segment times 16 plus an offset,
    and offsets wrap at 16 bits. */
module Machine {
  import opened Bits
  import opened Deflate
  import opened Alu

  type u16 = x: int | 0 <= x < 65536

  /** Segment selection and repeat bits of the mode field. */
  datatype Mode = DsSs | OvrCs | OvrDs | OvrEs | OvrSs | Repe | Repne | Data | Adr

  const SEGMASK: set<Mode> := {DsSs, OvrCs, OvrDs, OvrEs, OvrSs}
  const CLRMASK: set<Mode> := SEGMASK + {Data, Adr}

  /** X86Regs, without the flags. */
  datatype Regs = Regs(ax: u16, bx: u16, cx: u16, dx: u16, sp: u16, bp: u16, si: u16, di: u16, ip: u16,
                       cs: u16, ds: u16, ss: u16, es: u16, mode: set<Mode>, halted: bool)

  const MEMSIZE: nat := 0x110000

  function Add16(x: int, y: int): u16 {
    (x + y) % 65536
  }

  function SignedByte(b: byte): (v: int)
    ensures -128 <= v < 128 && (v == b || v == b - 256)
  {
    if b < 128 then b as int else b as int - 256
  }

  /** The address of the byte at an offset in a segment. */
  function Linear(seg: u16, off: u16): (a: nat)
    ensures a + 4 <= MEMSIZE
  {
    seg * 16 + off
  }

  /** Segments start 16 bytes apart and overlap. */
  lemma SegmentsOverlap(seg: u16, off: u16, seg2: u16, off2: u16)
    ensures seg == 0 ==> Linear(seg, off) == off
    ensures seg2 == seg ==> Linear(seg2, off2) - Linear(seg, off) == off2 - off
    ensures seg2 == seg + 1 && off == off2 + 16 ==> Linear(seg2, off2) == Linear(seg, off)
  {
  }

  function WordAt(m: seq<byte>, a: nat): u16
    requires a + 2 <= |m|
  {
    m[a] as int + 256 * m[a + 1] as int
  }

  function PutWord(m: seq<byte>, a: nat, w: u16): (r: seq<byte>)
    requires a + 2 <= |m|
    ensures |r| == |m| && WordAt(r, a) == w
  {
    m[a := w % 256][a + 1 := w / 256]
  }

  /*-- The stack --------------------------------------------------------------*/

  /** The offset of word i from the top, sp + 2 * i at 16 bits. */
  function SlotAt(sp: u16, i: nat): u16
    requires i <= 32768
  {
    if sp + 2 * i < 65536 then sp + 2 * i else sp + 2 * i - 65536
  }

  /** Word i from the top. */
  ghost predicate SlotIs(m: seq<byte>, ss: u16, sp: u16, ws: seq<u16>, i: nat)
    requires |m| == MEMSIZE && i < |ws| && i < 32768
  {
    WordAt(m, Linear(ss, SlotAt(sp, i))) == ws[i]
  }

  /** The words of ws are on the stack, the first on top; offsets wrap, the last byte of a word at
      offset 65535 lies past the end of the segment. */
  ghost predicate OnStack(m: seq<byte>, ss: u16, sp: u16, ws: seq<u16>)
    requires |m| == MEMSIZE
  {
    |ws| <= 32768 && forall i {:trigger SlotIs(m, ss, sp, ws, i)} :: 0 <= i < |ws| ==> SlotIs(m, ss, sp, ws, i)
  }

  /** A push hides the list under one more word, as long as it holds fewer than 32768. */
  lemma PushKeeps(m: seq<byte>, ss: u16, sp: u16, ws: seq<u16>, w: u16)
    requires |m| == MEMSIZE && OnStack(m, ss, sp, ws) && |ws| < 32768
    ensures var top := Add16(sp, -2); OnStack(PutWord(m, Linear(ss, top), w), ss, top, [w] + ws)
  {
    var top := Add16(sp, -2);
    var m2 := PutWord(m, Linear(ss, top), w);
    forall i | 0 <= i < |ws| + 1 ensures SlotIs(m2, ss, top, [w] + ws, i) {
      if i > 0 {
        assert SlotIs(m, ss, sp, ws, i - 1);
        assert SlotAt(top, i) == SlotAt(sp, i - 1);
        var o: int, t: int := SlotAt(top, i), top;
        assert o >= t + 2 || t >= o + 2;
      }
    }
  }

  /** Memory when the words of `all` from place n to place top have been stored, from the last down,
      at their places above base. */
  function Laid(m: seq<byte>, ss: u16, base: u16, all: seq<u16>, n: nat, top: nat): (r: seq<byte>)
    requires |m| == MEMSIZE && n <= top <= |all|
    ensures |r| == MEMSIZE
    decreases top - n
  {
    if n == top then m else PutWord(Laid(m, ss, base, all, n + 1, top), Linear(ss, Add16(base, 2 * n)), all[n])
  }

  lemma LaidNext(m: seq<byte>, ss: u16, base: u16, all: seq<u16>, n: nat, top: nat)
    requires |m| == MEMSIZE && n < top <= |all|
    ensures Laid(m, ss, base, all, n, top) ==
            PutWord(Laid(m, ss, base, all, n + 1, top), Linear(ss, Add16(base, 2 * n)), all[n])
  {
    hide Add16, Linear, PutWord;
  }

  lemma PopKeeps(m: seq<byte>, ss: u16, sp: u16, ws: seq<u16>)
    requires |m| == MEMSIZE && OnStack(m, ss, sp, ws) && ws != []
    ensures WordAt(m, Linear(ss, sp)) == ws[0] && OnStack(m, ss, Add16(sp, 2), ws[1..])
  {
    assert SlotIs(m, ss, sp, ws, 0);
    hide WordAt, Linear;
    forall i | 0 <= i < |ws| - 1 ensures SlotIs(m, ss, Add16(sp, 2), ws[1..], i) {
      assert SlotIs(m, ss, sp, ws, i + 1);
      assert SlotAt(Add16(sp, 2), i) == SlotAt(sp, i + 1);
    }
  }

  lemma NoWrap(x: int, y: int)
    requires 0 <= x + y < 65536
    ensures Add16(x, y) == x + y
  {
  }

  /** Going on and back again. */
  lemma Add16Back(x: u16, y: int)
    ensures Add16(Add16(x, -y), y) == x
  {
    assert Add16(x, 0) == x;
    hide Add16;
    Add16Twice(x, -y, y);
  }

  lemma BackTwo(base: u16, n: nat)
    requires n >= 1
    ensures Add16(Add16(base, 2 * n), -2) == Add16(base, 2 * (n - 1))
    ensures Add16(Add16(base, 2 * (n - 1)), 2) == Add16(base, 2 * n)
  {
    hide Add16;
    Add16Twice(base, 2 * n, -2);
    Add16Twice(base, 2 * (n - 1), 2);
  }

  lemma Add16Twice(x: int, y: int, z: int)
    ensures Add16(Add16(x, y), z) == Add16(x, y + z)
  {
    var t := x + y;
    Wraps(t % 65536 + z, t / 65536, t + z);
  }

  lemma Wraps(a: int, q: int, b: int)
    requires b == a + 65536 * q
    ensures a % 65536 == b % 65536
  {
  }

  /*-- Segment selection ------------------------------------------------------*/

  datatype Seg = CS | DS | ES | SS

  function SegOf(r: Regs, s: Seg): u16 {
    match s
    case CS => r.cs
    case DS => r.ds
    case ES => r.es
    case SS => r.ss
  }

  function Override(s: Seg): Mode {
    match s
    case CS => OvrCs
    case DS => OvrDs
    case ES => OvrEs
    case SS => OvrSs
  }

  datatype Choice = Use(s: Seg) | Several

  /** The switch of the fetch and store functions. */
  function Select(mode: set<Mode>): Choice {
    var m := mode * SEGMASK;
    if m == {} then Use(DS)
    else if m == {DsSs} then Use(SS)
    else if m == {OvrCs} || m == {OvrCs, DsSs} then Use(CS)
    else if m == {OvrDs} || m == {OvrDs, DsSs} then Use(DS)
    else if m == {OvrEs} || m == {OvrEs, DsSs} then Use(ES)
    else if m == {OvrSs} || m == {OvrSs, DsSs} then Use(SS)
    else Several
  }

  /** Down to the segment register: the one named by the single override bit; without one SS when the
      address was formed with BP, and DS else; with two or more the error. */
  lemma SegmentIs(r: Regs)
    ensures var m := r.mode * {OvrCs, OvrDs, OvrEs, OvrSs};
            && (m == {OvrCs} ==> OriginOf(r) == In(r.cs)) && (m == {OvrDs} ==> OriginOf(r) == In(r.ds))
            && (m == {OvrEs} ==> OriginOf(r) == In(r.es)) && (m == {OvrSs} ==> OriginOf(r) == In(r.ss))
            && (m == {} ==> OriginOf(r) == In(if DsSs in r.mode then r.ss else r.ds))
            && (OriginOf(r) == Nowhere <==>
                  m != {} && m != {OvrCs} && m != {OvrDs} && m != {OvrEs} && m != {OvrSs})
  {
    var m, n := r.mode * {OvrCs, OvrDs, OvrEs, OvrSs}, r.mode * SEGMASK;
    assert n == if DsSs in r.mode then m + {DsSs} else m;
    assert DsSs !in m;
    if n == {OvrCs} || n == {OvrCs, DsSs} {
      assert m == n - {DsSs} == {OvrCs};
    } else if n == {OvrDs} || n == {OvrDs, DsSs} {
      assert m == n - {DsSs} == {OvrDs};
    } else if n == {OvrEs} || n == {OvrEs, DsSs} {
      assert m == n - {DsSs} == {OvrEs};
    } else if n == {OvrSs} || n == {OvrSs, DsSs} {
      assert m == n - {DsSs} == {OvrSs};
    }
  }

  /** What instructions do to the mode. Prefixes: an override, the operand size (66), a repetition (F2
      or F3), LOCK (F0). An address formed with BP. The end of an instruction: of one that moves, stores,
      loads, reads or writes strings, of one that compares them, of any other. */
  datatype Event = Prefix(s: Seg) | Size | Repeat(ne: bool) | Lock | BpForm | CopyEnd | CompareEnd | End

  /** The repeat bits a comparison leaves. */
  function UsedUp(mode: set<Mode>): set<Mode> {
    if Repe in mode then mode - {Repe} else mode - {Repne}
  }

  function After(mode: set<Mode>, e: Event): set<Mode> {
    match e
    case Prefix(s) => mode + {Override(s)}
    case Size => mode + {Data}
    case Repeat(ne) => (mode + {if ne then Repne else Repe}) - CLRMASK
    case Lock => mode - CLRMASK
    case BpForm => mode + {DsSs}
    case CopyEnd => (mode - {Repe, Repne}) - CLRMASK
    case CompareEnd => UsedUp(mode) - CLRMASK
    case End => mode - CLRMASK
  }

  function ModeAfter(es: seq<Event>): set<Mode> {
    if es == [] then {} else After(ModeAfter(es[..|es| - 1]), es[|es| - 1])
  }

  predicate Ends(e: Event) {
    e.End? || e.CopyEnd? || e.CompareEnd?
  }

  /** What runs DECODE_CLEAR_SEGOVR: the ends, and the prefixes REP, REPNE and LOCK. */
  predicate Clears(e: Event) {
    Ends(e) || e.Repeat? || e.Lock?
  }

  /** The overrides since the last clearing, and whether an address has been formed with BP since. */
  function PendingSegs(es: seq<Event>): seq<Seg> {
    if es == [] then [] else
      var before := PendingSegs(es[..|es| - 1]);
      var e := es[|es| - 1];
      if e.Prefix? then before + [e.s] else if Clears(e) then [] else before
  }

  predicate ByBp(es: seq<Event>) {
    es != [] && (es[|es| - 1].BpForm? || (!Clears(es[|es| - 1]) && ByBp(es[..|es| - 1])))
  }

  /** The segment bits of the mode tell just that, along every run; between instructions none is set. */
  lemma {:induction false} ModeTells(es: seq<Event>)
    ensures es != [] && Ends(es[|es| - 1]) ==> ModeAfter(es) * CLRMASK == {}
    ensures DsSs in ModeAfter(es) <==> ByBp(es)
    ensures forall s: Seg :: Override(s) in ModeAfter(es) <==> s in PendingSegs(es)
  {
    if es != [] {
      ModeTells(es[..|es| - 1]);
    }
  }

  ghost predicate TwoOf(segs: seq<Seg>) {
    exists a, b :: a in segs && b in segs && a != b
  }

  /** An access with at most one override pending uses it, or SS after a BP form, or DS; with two
      different ones it is the error the source calls impossible. */
  lemma SelectsRight(es: seq<Event>)
    ensures |PendingSegs(es)| <= 1 ==>
              Select(ModeAfter(es)) == Use(if PendingSegs(es) != [] then PendingSegs(es)[0] else if ByBp(es) then SS else DS)
    ensures TwoOf(PendingSegs(es)) <==> Select(ModeAfter(es)) == Several
  {
    ModeTells(es);
    hide ModeAfter, PendingSegs, ByBp, Clears, Ends, Select, TwoOf;
    SelectTells(ModeAfter(es), PendingSegs(es), ByBp(es));
  }

  /** What is selected, in terms of the segments whose bits are on. */
  lemma SelectTells(mode: set<Mode>, segs: seq<Seg>, bp: bool)
    requires (forall s: Seg :: Override(s) in mode <==> s in segs) && (DsSs in mode <==> bp)
    ensures |segs| <= 1 ==> Select(mode) == Use(if segs != [] then segs[0] else if bp then SS else DS)
    ensures TwoOf(segs) <==> Select(mode) == Several
  {
    var m := mode * SEGMASK;
    var cs, ds, ee, ss := CS in segs, DS in segs, ES in segs, SS in segs;
    assert OvrCs in m <==> cs by { assert Override(CS) == OvrCs; }
    assert OvrDs in m <==> ds by { assert Override(DS) == OvrDs; }
    assert OvrEs in m <==> ee by { assert Override(ES) == OvrEs; }
    assert OvrSs in m <==> ss by { assert Override(SS) == OvrSs; }
    assert m == (if bp then {DsSs} else {}) + (if cs then {OvrCs} else {}) + (if ds then {OvrDs} else {})
                + (if ee then {OvrEs} else {}) + (if ss then {OvrSs} else {});
  }

  /** The same along runs: the register of the one override that is pending, or the default. */
  lemma SegmentAlong(es: seq<Event>, r: Regs)
    requires r.mode == ModeAfter(es)
    ensures PendingSegs(es) == [CS] ==> OriginOf(r) == In(r.cs)
    ensures PendingSegs(es) == [DS] ==> OriginOf(r) == In(r.ds)
    ensures PendingSegs(es) == [ES] ==> OriginOf(r) == In(r.es)
    ensures PendingSegs(es) == [SS] ==> OriginOf(r) == In(r.ss)
    ensures PendingSegs(es) == [] ==> OriginOf(r) == In(if ByBp(es) then r.ss else r.ds)
  {
    SelectsRight(es);
    hide ModeAfter, PendingSegs, ByBp, Select, TwoOf;
  }

  /** The overrides among the prefixes of the current instruction, as the 8086 has them: what is
      between them does not matter. */
  function Named(es: seq<Event>): seq<Seg> {
    if es == [] then [] else
      var before := Named(es[..|es| - 1]);
      var e := es[|es| - 1];
      if e.Prefix? then before + [e.s] else if Ends(e) then [] else before
  }

  predicate Within(es: seq<Event>) {
    forall i :: 0 <= i < |es| ==> !es[i].Prefix? && !Ends(es[i])
  }

  predicate NoClear(es: seq<Event>) {
    forall i :: 0 <= i < |es| ==> !Clears(es[i])
  }

  /** The segment without an override. */
  function Default(es: seq<Event>): Seg {
    if ByBp(es) then SS else DS
  }

  /** The pending overrides after some that are named, and events in their instruction. */
  lemma {:induction false} PendingOn(es: seq<Event>, more: seq<Event>)
    requires Within(more)
    ensures PendingSegs(es + more) == if NoClear(more) then PendingSegs(es) else []
    ensures Named(es + more) == Named(es)
    decreases |more|
  {
    if more == [] {
      assert es + more == es;
    } else {
      var n := |more| - 1;
      PendingOn(es, more[..n]);
      assert (es + more)[..|es + more| - 1] == es + more[..n];
      assert NoClear(more) <==> NoClear(more[..n]) && !Clears(more[n]);
    }
  }

  /** What is pending is named. */
  lemma {:induction false} PendingNamed(es: seq<Event>)
    ensures |PendingSegs(es)| <= |Named(es)|
  {
    if es != [] {
      PendingNamed(es[..|es| - 1]);
    }
  }

  /** An instruction with one override among its prefixes. An access in it uses the override, if and
      only if no REP, REPNE or LOCK comes between the two; otherwise it is as if there were none. */
  lemma OverrideUsed(before: seq<Event>, s: Seg, after: seq<Event>)
    requires Named(before) == [] && Within(after)
    ensures NoClear(after) <==> forall i :: 0 <= i < |after| ==> !after[i].Repeat? && !after[i].Lock?
    ensures var es := before + [Prefix(s)] + after;
            && Named(es) == [s]
            && Select(ModeAfter(es)) == Use(if NoClear(after) then s else Default(es))
            && (s != Default(es) ==> (Select(ModeAfter(es)) == Use(s) <==> NoClear(after)))
  {
    var es, first := before + [Prefix(s)] + after, before + [Prefix(s)];
    assert first[..|first| - 1] == before;
    PendingNamed(before);
    assert PendingSegs(first) == [s] && Named(first) == [s];
    PendingOn(first, after);
    SelectsRight(es);
  }

  /** The runs of 26 F3 A4, ES: REP MOVSB, and of F3 26 A4, REP ES: MOVSB, at their accesses, and so for
      every other override: the first uses DS, the second the override. */
  lemma OverrideLost(es: seq<Event>, s: Seg, ne: bool)
    requires |es| == 2
    ensures es[0] == Prefix(s) && es[1] == Repeat(ne) ==> Named(es) == [s] && Select(ModeAfter(es)) == Use(DS)
    ensures es[0] == Repeat(ne) && es[1] == Prefix(s) ==> Named(es) == [s] && Select(ModeAfter(es)) == Use(s)
  {
    if es[0] == Prefix(s) && es[1] == Repeat(ne) {
      assert [] + [Prefix(s)] + [Repeat(ne)] == es;
      OverrideUsed([], s, [Repeat(ne)]);
      assert !ByBp(es);
    } else if es[0] == Repeat(ne) && es[1] == Prefix(s) {
      assert [Repeat(ne)] + [Prefix(s)] + [] == es;
      assert [Repeat(ne)][..0] == [];
      OverrideUsed([Repeat(ne)], s, []);
    }
  }

  /** The prefixes and address forms of an instruction hold a REPNE or a REP. */
  predicate Asks(es: seq<Event>, ne: bool) {
    exists i :: 0 <= i < |es| && es[i] == Repeat(ne)
  }

  /** The repeat bits at the end of an instruction's prefixes, when none was left over before. */
  lemma {:induction false} RepeatTells(es: seq<Event>, more: seq<Event>)
    requires ModeAfter(es) == {} && forall i :: 0 <= i < |more| ==> !Ends(more[i])
    ensures Repe in ModeAfter(es + more) <==> Asks(more, false)
    ensures Repne in ModeAfter(es + more) <==> Asks(more, true)
    decreases |more|
  {
    if more == [] {
      assert es + more == es;
    } else {
      var n := |more| - 1;
      RepeatTells(es, more[..n]);
      assert (es + more)[..|es + more| - 1] == es + more[..n] && (es + more)[|es + more| - 1] == more[n];
      AsksSnoc(more, false);
      AsksSnoc(more, true);
    }
  }

  lemma AsksSnoc(es: seq<Event>, ne: bool)
    requires es != []
    ensures Asks(es, ne) <==> Asks(es[..|es| - 1], ne) || es[|es| - 1] == Repeat(ne)
  {
    var n := |es| - 1;
    if Asks(es[..n], ne) {
      var i :| 0 <= i < n && es[..n][i] == Repeat(ne);
      assert es[i] == Repeat(ne);
    }
    if Asks(es, ne) && es[n] != Repeat(ne) {
      var i :| 0 <= i < |es| && es[i] == Repeat(ne);
      assert es[..n][i] == Repeat(ne);
    }
  }

  /** An instruction leaves the mode clear for the next one, if and only if it moves strings (or stores,
      loads, reads, writes them), or compares them and was not asked for both repetitions, or was asked
      for none: a REP before any other instruction stays on until a string instruction takes it up. */
  lemma LeavesClear(es: seq<Event>, more: seq<Event>, e: Event)
    requires ModeAfter(es) == {} && Ends(e) && forall i :: 0 <= i < |more| ==> !Ends(more[i])
    ensures ModeAfter(es + more + [e]) == {} <==>
              match e
              case CopyEnd => true
              case CompareEnd => !(Asks(more, false) && Asks(more, true))
              case _ => !Asks(more, false) && !Asks(more, true)
  {
    RepeatTells(es, more);
    RunSnoc(es + more, e);
    hide ModeAfter, Asks, After, Ends;
    EndClears(ModeAfter(es + more), e);
  }

  lemma RunSnoc(es: seq<Event>, e: Event)
    ensures ModeAfter(es + [e]) == After(ModeAfter(es), e)
  {
    assert (es + [e])[..|es + [e]| - 1] == es;
  }

  /** What the end of an instruction leaves of a mode. */
  lemma EndClears(m: set<Mode>, e: Event)
    requires Ends(e)
    ensures After(m, e) == {} <==>
              match e
              case CopyEnd => true
              case CompareEnd => !(Repe in m && Repne in m)
              case _ => Repe !in m && Repne !in m
  {
    var r := After(m, e);
    forall x: Mode ensures x in r ==> x == Repe || x == Repne {
      assert x in CLRMASK || x == Repe || x == Repne;
    }
    hide After;
    if Repe !in r && Repne !in r {
      assert r == {};
    }
  }

  /** The run of F3 90, REP NOP: the REP is still on. */
  lemma RepeatLeft()
    ensures ModeAfter([Repeat(false), End]) == {Repe}
  {
    var none, first := [], [Repeat(false)];
    assert none + [Repeat(false)] == first && first + [End] == [Repeat(false), End];
    RunSnoc(none, Repeat(false));
    RunSnoc(first, End);
    assert ModeAfter(none) == {};
    hide ModeAfter;
    assert After({}, Repeat(false)) == {Repe} && After({Repe}, End) == {Repe};
  }

  /** The operand size of an instruction: asked for by a prefix, and not cleared since. */
  predicate Sized(es: seq<Event>) {
    es != [] && (es[|es| - 1].Size? || (!Clears(es[|es| - 1]) && Sized(es[..|es| - 1])))
  }

  lemma {:induction false} SizeTells(es: seq<Event>)
    ensures Data in ModeAfter(es) <==> Sized(es)
  {
    if es != [] {
      SizeTells(es[..|es| - 1]);
    }
  }

  lemma {:induction false} SizedOn(es: seq<Event>, more: seq<Event>)
    requires forall i :: 0 <= i < |more| ==> !more[i].Size?
    ensures Sized(es + more) <==> Sized(es) && NoClear(more)
    decreases |more|
  {
    if more == [] {
      assert es + more == es;
    } else {
      var n := |more| - 1;
      SizedOn(es, more[..n]);
      assert (es + more)[..|es + more| - 1] == es + more[..n] && (es + more)[|es + more| - 1] == more[n];
      assert NoClear(more) <==> NoClear(more[..n]) && !Clears(more[n]);
    }
  }

  /** An operand size prefix, too, is heeded if and only if no REP, REPNE or LOCK comes between it and
      the operation: 66 F3 AB stores words. */
  lemma SizeUsed(before: seq<Event>, after: seq<Event>)
    requires forall i :: 0 <= i < |after| ==> !after[i].Size? && !Ends(after[i])
    ensures Data in ModeAfter(before + [Size] + after) <==>
              forall i :: 0 <= i < |after| ==> !after[i].Repeat? && !after[i].Lock?
  {
    var first := before + [Size];
    SizeTells(first + after);
    SizedOn(first, after);
    assert first[|first| - 1] == Size;
  }

  /*-- The emulator -----------------------------------------------------------*/

  const TF: nat := 8
  const IF: nat := 9
  const DF: nat := 10

  /** The low 16 bits of the flags register as a number, and back, the high ones cleared. */
  function FlagsWord(flg: seq<bool>): u16
    requires |flg| == 32
  {
    NumBound(flg[..16]);
    Pow2To16();
    Num(flg[..16])
  }

  function FlagsFrom(w: u16): (flg: seq<bool>)
    ensures |flg| == 32 && FlagsWord(flg) == w && flg[16..] == seq(16, _ => false)
  {
    Pow2To16();
    var f := BitsOf(w, 16) + seq(16, _ => false);
    assert f[..16] == BitsOf(w, 16);
    f
  }

  lemma BitOfNum(s: seq<bool>, k: nat)
    requires k < |s|
    ensures Shr(Num(s), k) % 2 == Bit(s[k])
  {
    NumSplit(s, k);
    hide Shr;
    var t := s[k..];
    assert Num(t) == Bit(t[0]) + 2 * Num(t[1..]);
    hide Num;
    OddWhen(t[0], Num(t[1..]));
  }

  lemma OddWhen(b: bool, x: nat)
    ensures (Bit(b) + 2 * x) % 2 == Bit(b)
  {
  }

  /** Where the flags are in the flags register, and which of them arithmetic sets. */
  lemma FlagPlaces(flg: seq<bool>)
    requires |flg| == 32
    ensures var w := FlagsWord(flg);
            && Shr(w, 0) % 2 == Bit(flg[CF]) && Shr(w, 2) % 2 == Bit(flg[PF]) && Shr(w, 4) % 2 == Bit(flg[AF])
            && Shr(w, 6) % 2 == Bit(flg[ZF]) && Shr(w, 7) % 2 == Bit(flg[SF]) && Shr(w, 8) % 2 == Bit(flg[TF])
            && Shr(w, 9) % 2 == Bit(flg[IF]) && Shr(w, 10) % 2 == Bit(flg[DF]) && Shr(w, 11) % 2 == Bit(flg[OF])
    ensures forall f :: Arithmetic(f) <==> f in {0, 2, 4, 6, 7, 11}
  {
    var s := flg[..16];
    hide Num, Shr;
    BitOfNum(s, 0);
    BitOfNum(s, 2);
    BitOfNum(s, 4);
    BitOfNum(s, 6);
    BitOfNum(s, 7);
    BitOfNum(s, 8);
    BitOfNum(s, 9);
    BitOfNum(s, 10);
    BitOfNum(s, 11);
  }

  /** The registers when an instruction has ended. */
  function AfterEnd(r: Regs): Regs {
    r.(mode := r.mode - CLRMASK)
  }

  lemma EndedTwice(r: Regs)
    ensures AfterEnd(AfterEnd(r)) == AfterEnd(r)
  {
    assert (r.mode - CLRMASK) - CLRMASK == r.mode - CLRMASK;
  }

  /*-- Addresses and data -----------------------------------------------------*/

  /** The registers an rm field names. */
  function Base(r: Regs, rm: nat): u16
    requires rm <= 7
  {
    match rm
    case 0 => Add16(r.bx, r.si)
    case 1 => Add16(r.bx, r.di)
    case 2 => Add16(r.bp, r.si)
    case 3 => Add16(r.bp, r.di)
    case 4 => r.si
    case 5 => r.di
    case 6 => r.bp
    case _ => r.bx
  }

  /** BX or BP plus SI or DI, or one of the four alone. */
  lemma BaseIs(r: Regs, rm: nat)
    requires rm <= 7
    ensures rm < 4 ==> Base(r, rm) == ((if rm < 2 then r.bx else r.bp) + (if rm % 2 == 0 then r.si else r.di)) % 65536
    ensures rm >= 4 ==> Base(r, rm) == [r.si, r.di, r.bp, r.bx][rm - 4]
  {
  }

  /** The offset of an address with displacement d. */
  function Offset16(r: Regs, mod: nat, rm: nat, d: int): u16
    requires rm <= 7
  {
    Add16(if mod == 0 && rm == 6 then 0 else Base(r, rm), d)
  }

  /** The offset of an address and where its bytes end: without a displacement, with a signed byte, with
      a word. */
  lemma AddressIs(m: seq<byte>, q: Regs, mod: nat, rm: nat)
    requires |m| == MEMSIZE && mod <= 2 && rm <= 7
    ensures var d := Displacement(m, q, mod, rm);
            var off, next := Offset16(q, mod, rm, d.0), Add16(q.ip, d.1);
            var a, base := 16 * q.cs + q.ip, Base(q, rm);
            var low, high := m[a] as int, m[a + 1] as int;
            && (mod == 0 && rm != 6 ==> off == base && next == q.ip)
            && (mod == 0 && rm == 6 ==> off == low + 256 * high && next == (q.ip + 2) % 65536)
            && (mod == 1 ==> off == (base + if low < 128 then low else low - 256) % 65536 && next == (q.ip + 1) % 65536)
            && (mod == 2 ==> off == (base + low + 256 * high) % 65536 && next == (q.ip + 2) % 65536)
  {
    DisplacementIs(m, q, mod, rm);
    var d := Displacement(m, q, mod, rm);
    hide Base, Displacement;
    OffsetIs(q, mod, rm, d.0);
    hide Offset16;
    SumAt16(q.ip, d.1, Add16(q.ip, d.1));
    hide Add16;
  }

  lemma DisplacementIs(m: seq<byte>, q: Regs, mod: nat, rm: nat)
    requires |m| == MEMSIZE
    ensures var a, d := 16 * q.cs + q.ip, Displacement(m, q, mod, rm);
            var low, high := m[a] as int, m[a + 1] as int;
            && (mod == 0 && rm != 6 ==> d == (0, 0))
            && (mod == 1 ==> d == (if low < 128 then low else low - 256, 1))
            && (mod == 2 || (mod == 0 && rm == 6) ==> d == (low + 256 * high, 2) && d.0 < 65536)
  {
  }

  lemma OffsetIs(q: Regs, mod: nat, rm: nat, d: int)
    requires rm <= 7
    ensures mod == 0 && rm == 6 && 0 <= d < 65536 ==> Offset16(q, mod, rm, d) == d
    ensures mod == 0 && rm != 6 && d == 0 ==> Offset16(q, mod, rm, d) == Base(q, rm)
    ensures mod != 0 ==> Offset16(q, mod, rm, d) == (Base(q, rm) + d) % 65536
  {
    hide Base;
  }

  lemma SumAt16(x: u16, y: nat, s: u16)
    requires s == Add16(x, y)
    ensures s == (x + y) % 65536 && (y == 0 ==> s == x)
  {
  }

  /** The forms that count as formed with BP are those whose offset changes with BP. */
  lemma BpForms(r: Regs, mod: nat, rm: nat, d: int, x: u16)
    requires rm <= 7 && x != r.bp
    ensures Offset16(r.(bp := x), mod, rm, d) != Offset16(r, mod, rm, d) <==> UsesBp(mod, rm)
  {
    SumChanges(r.bp, x, r.si, d);
    SumChanges(r.bp, x, r.di, d);
    SumChanges(r.bp, x, 0, d);
    Add16Zero(r.bp);
    Add16Zero(x);
    hide Add16;
  }

  lemma SumChanges(a: u16, b: u16, s: u16, d: int)
    requires a != b
    ensures Add16(Add16(a, s), d) != Add16(Add16(b, s), d)
  {
    Add16Differ(a, b, s);
    Add16Differ(Add16(a, s), Add16(b, s), d);
    hide Add16;
  }

  lemma Add16Differ(a: u16, b: u16, d: int)
    requires a != b
    ensures Add16(a, d) != Add16(b, d)
  {
    var i, j := (a + d) / 65536, (b + d) / 65536;
    assert Add16(a, d) == a + d - 65536 * i && Add16(b, d) == b + d - 65536 * j;
  }

  predicate UsesBp(mod: nat, rm: nat) {
    rm == 2 || rm == 3 || (rm == 6 && mod != 0)
  }

  /** The displacement in the instruction, and its length. */
  function Displacement(m: seq<byte>, r: Regs, mod: nat, rm: nat): (int, nat)
    requires |m| == MEMSIZE
  {
    var a := Linear(r.cs, r.ip);
    if mod == 1 then (SignedByte(m[a]), 1)
    else if mod == 2 || (mod == 0 && rm == 6) then (WordAt(m, a), 2)
    else (0, 0)
  }

  /** The byte or word at an offset in a segment. */
  function Elem(m: seq<byte>, seg: u16, off: u16, word: bool): (v: u16)
    requires |m| == MEMSIZE
    ensures !word ==> v < 256
  {
    if word then WordAt(m, Linear(seg, off)) else m[Linear(seg, off)]
  }

  function Put(m: seq<byte>, seg: u16, off: u16, v: u16, word: bool): (r: seq<byte>)
    requires |m| == MEMSIZE && (word || v < 256)
    ensures |r| == MEMSIZE && Elem(r, seg, off, word) == v
  {
    if word then PutWord(m, Linear(seg, off), v) else m[Linear(seg, off) := v]
  }

  /** A word is two bytes, the low one first. */
  lemma WordBytes(m: seq<byte>, seg: u16, off: u16, v: u16)
    requires |m| == MEMSIZE && off < 65535
    ensures Elem(Put(m, seg, off, v, true), seg, off, false) == v % 256
    ensures Elem(Put(m, seg, off, v, true), seg, off + 1, false) == v / 256
    ensures Elem(m, seg, off, true) == Elem(m, seg, off, false) + 256 * Elem(m, seg, off + 1, false)
  {
  }

  /*-- String instructions ----------------------------------------------------*/

  /** Two or one, downwards when DF is set. */
  function StepOf(flg: seq<bool>, word: bool): (inc: int)
    requires |flg| == 32
    ensures Steps(inc, word) && (inc < 0 <==> flg[DF])
  {
    var n := if word then 2 else 1;
    if flg[DF] then -n else n
  }

  /** x after n steps of inc, at 16 bits. */
  function Advance(x: u16, inc: int, n: nat): u16 {
    if n == 0 then x else Add16(Advance(x, inc, n - 1), inc)
  }

  lemma OneStep(x: u16, inc: int)
    ensures Advance(x, inc, 1) == Add16(x, inc)
  {
    assert Advance(x, inc, 0) == x;
  }

  lemma SameOrigin(q: Regs, r: Regs)
    requires r.mode == q.mode && r.cs == q.cs && r.ds == q.ds && r.es == q.es && r.ss == q.ss
    ensures OriginOf(r) == OriginOf(q)
  {
  }

  /** How many elements a string instruction without a stop condition handles. */
  function Times(r: Regs): nat {
    if Repe in r.mode || Repne in r.mode then r.cx else 1
  }

  function Unrepeated(r: Regs): Regs {
    if Repe in r.mode || Repne in r.mode then r.(cx := 0, mode := r.mode - {Repe, Repne}) else r
  }

  /** Where a mode-based fetch reads: a segment, or, with two different overrides, nowhere. */
  datatype Origin = In(seg: u16) | Nowhere

  function OriginOf(r: Regs): Origin {
    match Select(r.mode)
    case Use(s) => In(SegOf(r, s))
    case Several => Nowhere
  }

  function Read(m: seq<byte>, o: Origin, off: u16, word: bool): (v: u16)
    requires |m| == MEMSIZE
    ensures !word ==> v < 256
  {
    match o
    case In(seg) => Elem(m, seg, off, word)
    case Nowhere => 0
  }

  /** Memory after n elements of MOVS. */
  function Moved(m: seq<byte>, o: Origin, es: u16, si: u16, di: u16, inc: int, word: bool, n: nat): (r: seq<byte>)
    requires |m| == MEMSIZE
    ensures |r| == MEMSIZE
  {
    if n == 0 then m
    else
      var before := Moved(m, o, es, si, di, inc, word, n - 1);
      Put(before, es, Advance(di, inc, n - 1), Read(before, o, Advance(si, inc, n - 1), word), word)
  }

  lemma MoveStarts(m: seq<byte>, o: Origin, es: u16, si: u16, di: u16, inc: int, word: bool)
    requires |m| == MEMSIZE
    ensures Moved(m, o, es, si, di, inc, word, 0) == m && Advance(si, inc, 0) == si && Advance(di, inc, 0) == di
  {
  }

  lemma MoveNext(m: seq<byte>, o: Origin, es: u16, si: u16, di: u16, inc: int, word: bool, i: nat)
    requires |m| == MEMSIZE
    ensures var before := Moved(m, o, es, si, di, inc, word, i);
            Moved(m, o, es, si, di, inc, word, i + 1) ==
            Put(before, es, Advance(di, inc, i), Read(before, o, Advance(si, inc, i), word), word)
    ensures Advance(si, inc, i + 1) == Add16(Advance(si, inc, i), inc)
    ensures Advance(di, inc, i + 1) == Add16(Advance(di, inc, i), inc)
  {
    hide Put, Add16, Read;
  }

  /*-- Places of elements -----------------------------------------------------*/

  function ElemSize(word: bool): nat {
    if word then 2 else 1
  }

  predicate Steps(inc: int, word: bool) {
    if word then inc == 2 || inc == -2 else inc == 1 || inc == -1
  }

  /** How many bytes n elements take. */
  function Extent(word: bool, n: nat): nat {
    if word then 2 * n else n
  }

  /** How far n steps go. */
  function Distance(inc: int, word: bool, n: nat): int {
    if inc > 0 then Extent(word, n) else 0 - Extent(word, n)
  }

  /** The address of element k of a string. */
  function Place(seg: u16, x: u16, inc: int, k: nat): (a: nat)
    ensures a + 4 <= MEMSIZE
  {
    Linear(seg, Advance(x, inc, k))
  }

  /** Two elements have no byte in common. */
  predicate Clear(a: nat, b: nat, word: bool) {
    a + ElemSize(word) <= b || b + ElemSize(word) <= a
  }

  lemma Add16Zero(x: u16)
    ensures Add16(x, 0) == x
  {
  }

  lemma DistanceNext(inc: int, word: bool, i: nat)
    requires Steps(inc, word)
    ensures Distance(inc, word, i) + inc == Distance(inc, word, i + 1) && Distance(inc, word, 0) == 0
  {
  }

  lemma {:induction false} AdvanceFrom(x: u16, inc: int, word: bool, j: nat, i: nat)
    requires Steps(inc, word)
    ensures Advance(x, inc, j + i) == Add16(Advance(x, inc, j), Distance(inc, word, i))
    decreases i
  {
    if i == 0 {
      DistanceNext(inc, word, 0);
      hide Add16, Distance;
      Add16Zero(Advance(x, inc, j));
    } else {
      AdvanceFrom(x, inc, word, j, i - 1);
      var k := j + (i - 1);
      assert Advance(x, inc, k + 1) == Add16(Advance(x, inc, k), inc);
      hide Add16, Advance, Distance;
      DistanceNext(inc, word, i - 1);
      Add16Twice(Advance(x, inc, j), Distance(inc, word, i - 1), inc);
    }
  }

  /** Element k of a string that does not wrap. */
  lemma AdvanceWithin(x: u16, inc: int, word: bool, k: nat)
    requires Steps(inc, word) && 0 <= x + Distance(inc, word, k) < 65536
    ensures Advance(x, inc, k) == x + Distance(inc, word, k)
  {
    assert Advance(x, inc, 0) == x;
    hide Advance, Add16, Distance, Steps;
    AdvanceFrom(x, inc, word, 0, k);
    NoWrap(x, Distance(inc, word, k));
  }

  /** Where element k of a string is: k elements up from x, or down, at 16 bits. */
  function ElementAt(seg: u16, x: u16, down: bool, word: bool, k: nat): (a: nat)
    ensures a + 4 <= MEMSIZE
  {
    16 * seg + (x + (if down then -1 else 1) * (if word then 2 * k else k)) % 65536
  }

  /** After n steps in the direction DF says. */
  lemma StepsAre(x: u16, flg: seq<bool>, word: bool, n: nat)
    requires |flg| == 32
    ensures Advance(x, StepOf(flg, word), n) == (x + (if flg[DF] then -1 else 1) * (if word then 2 * n else n)) % 65536
  {
    assert Advance(x, StepOf(flg, word), 0) == x;
    AdvanceFrom(x, StepOf(flg, word), word, 0, n);
    hide Advance;
  }

  lemma PlaceIs(seg: u16, x: u16, flg: seq<bool>, word: bool, k: nat)
    requires |flg| == 32
    ensures Place(seg, x, StepOf(flg, word), k) == ElementAt(seg, x, flg[DF], word, k)
  {
    StepsAre(x, flg, word, k);
    hide Advance, StepOf;
  }

  /** Up to 65536 bytes of a string lie apart, wrapping offsets included. */
  lemma PlacesClear(seg: u16, x: u16, inc: int, word: bool, j: nat, k: nat, n: nat)
    requires Steps(inc, word) && j < k < n && Extent(word, n) <= 65536
    ensures Clear(Place(seg, x, inc, j), Place(seg, x, inc, k), word)
  {
    AdvanceFrom(x, inc, word, j, k - j);
    hide Advance, Add16;
    FarApart(Advance(x, inc, j), Distance(inc, word, k - j), ElemSize(word));
  }

  lemma FarApart(a: u16, d: int, size: nat)
    requires size <= d <= 65536 - size || size <= 0 - d <= 65536 - size
    ensures var b := Add16(a, d); a + size <= b || b + size <= a
  {
    var b: int := Add16(a, d);
    assert b == a + d || b == a + d - 65536 || b == a + d + 65536;
  }

  /** Two elements of a string of any length are the same or lie apart. */
  lemma PlacesAligned(seg: u16, x: u16, inc: int, word: bool, j: nat, k: nat)
    requires Steps(inc, word)
    ensures var a, b := Place(seg, x, inc, j), Place(seg, x, inc, k); a == b || Clear(a, b, word)
  {
    if word {
      AdvanceWords(x, inc, j);
      AdvanceWords(x, inc, k);
      EvenApart(x, Advance(x, inc, j), Advance(x, inc, k));
    }
    hide Advance;
  }

  /** A whole number of words from x. */
  ghost predicate WordsFrom(x: u16, y: u16) {
    exists i: int :: EvenStep(x, y, i)
  }

  predicate EvenStep(x: u16, y: u16, i: int) {
    y == x + 2 * i
  }

  lemma EvenApart(x: u16, a: u16, b: u16)
    requires WordsFrom(x, a) && WordsFrom(x, b)
    ensures a == b || a + 2 <= b || b + 2 <= a
  {
    var i :| EvenStep(x, a, i);
    var j :| EvenStep(x, b, j);
  }

  lemma WordOn(x: u16, y: u16, inc: int)
    requires (inc == 2 || inc == -2) && WordsFrom(x, y)
    ensures WordsFrom(x, Add16(y, inc))
  {
    var i :| EvenStep(x, y, i);
    var b: int, d := Add16(y, inc), if inc == 2 then 1 else -1;
    assert b == y + inc || b == y + inc - 65536 || b == y + inc + 65536;
    assert EvenStep(x, b, i + d) || EvenStep(x, b, i + d - 32768) || EvenStep(x, b, i + d + 32768);
  }

  lemma {:induction false} AdvanceWords(x: u16, inc: int, k: nat)
    requires inc == 2 || inc == -2
    ensures WordsFrom(x, Advance(x, inc, k))
  {
    hide Add16;
    if k == 0 {
      assert EvenStep(x, Advance(x, inc, 0), 0);
    } else {
      AdvanceWords(x, inc, k - 1);
      WordOn(x, Advance(x, inc, k - 1), inc);
    }
  }

  /** A store leaves an element it does not touch, and every other byte. */
  lemma PutClear(m: seq<byte>, seg: u16, off: u16, v: u16, word: bool, seg2: u16, off2: u16)
    requires |m| == MEMSIZE && (word || v < 256) && Clear(Linear(seg, off), Linear(seg2, off2), word)
    ensures Elem(Put(m, seg, off, v, word), seg2, off2, word) == Elem(m, seg2, off2, word)
  {
  }

  lemma PutByte(m: seq<byte>, seg: u16, off: u16, v: u16, word: bool, a: nat)
    requires |m| == MEMSIZE && (word || v < 256) && a < MEMSIZE
        && (a < Linear(seg, off) || a >= Linear(seg, off) + ElemSize(word))
    ensures Put(m, seg, off, v, word)[a] == m[a]
  {
  }

  /** Address a belongs to none of the n elements. */
  ghost predicate Outside(seg: u16, x: u16, inc: int, word: bool, n: nat, a: nat) {
    forall j :: 0 <= j < n ==> a < Place(seg, x, inc, j) || a >= Place(seg, x, inc, j) + ElemSize(word)
  }

  /*-- What a repeated move copies --------------------------------------------*/

  /** Nothing outside the destination changes. */
  lemma {:induction false} MovsKeeps(m: seq<byte>, o: Origin, es: u16, si: u16, di: u16, inc: int, word: bool, n: nat,
          a: nat)
    requires |m| == MEMSIZE && a < MEMSIZE && Outside(es, di, inc, word, n, a)
    ensures Moved(m, o, es, si, di, inc, word, n)[a] == m[a]
    decreases n
  {
    if n > 0 {
      var g := Moved(m, o, es, si, di, inc, word, n - 1);
      MovsKeeps(m, o, es, si, di, inc, word, n - 1, a);
      assert a < Place(es, di, inc, n - 1) || a >= Place(es, di, inc, n - 1) + ElemSize(word);
      hide Read, Put, Advance;
      PutByte(g, es, Advance(di, inc, n - 1), Read(g, o, Advance(si, inc, n - 1), word), word, a);
    }
  }

  /** What was stored in element k stays there. */
  lemma {:induction false} MovsStays(m: seq<byte>, o: Origin, es: u16, si: u16, di: u16, inc: int, word: bool, n: nat,
          k: nat)
    requires |m| == MEMSIZE && Steps(inc, word) && k < n && Extent(word, n) <= 65536
    ensures Elem(Moved(m, o, es, si, di, inc, word, n), es, Advance(di, inc, k), word) ==
            Read(Moved(m, o, es, si, di, inc, word, k), o, Advance(si, inc, k), word)
    decreases n
  {
    var g := Moved(m, o, es, si, di, inc, word, n - 1);
    assert Moved(m, o, es, si, di, inc, word, n) ==
           Put(g, es, Advance(di, inc, n - 1), Read(g, o, Advance(si, inc, n - 1), word), word);
    if k < n - 1 {
      MovsStays(m, o, es, si, di, inc, word, n - 1, k);
      PlacesClear(es, di, inc, word, k, n - 1, n);
      hide Read, Put, Elem, Advance, Moved, Linear;
      PutClear(g, es, Advance(di, inc, n - 1), Read(g, o, Advance(si, inc, n - 1), word), word, es, Advance(di, inc, k));
    }
  }

  /** A byte of an element that is the same in two memories. */
  lemma ElemByte(m: seq<byte>, f: seq<byte>, seg: u16, off: u16, seg2: u16, off2: u16, word: bool, b: nat)
    requires |m| == |f| == MEMSIZE && b < ElemSize(word) && Elem(f, seg, off, word) == Elem(m, seg2, off2, word)
    ensures f[Linear(seg, off) + b] == m[Linear(seg2, off2) + b]
  {
  }

  lemma ZeroByte(f: seq<byte>, seg: u16, off: u16, word: bool, b: nat)
    requires |f| == MEMSIZE && b < ElemSize(word) && Elem(f, seg, off, word) == 0
    ensures f[Linear(seg, off) + b] == 0
  {
  }

  /** Element j, once stored, stays as it is. */
  lemma StoredIn(m: seq<byte>, o: Origin, es: u16, si: u16, di: u16, inc: int, word: bool, n: nat, k: nat, j: nat, b: nat)
    requires |m| == MEMSIZE && Steps(inc, word) && j < k <= n && Extent(word, n) <= 65536 && b < ElemSize(word)
    ensures Moved(m, o, es, si, di, inc, word, n)[Place(es, di, inc, j) + b] ==
            Moved(m, o, es, si, di, inc, word, k)[Place(es, di, inc, j) + b]
  {
    var f, g, off := Moved(m, o, es, si, di, inc, word, n), Moved(m, o, es, si, di, inc, word, k), Advance(di, inc, j);
    hide Moved, Advance, Read, Elem, Linear, Steps;
    MovsStays(m, o, es, si, di, inc, word, n, j);
    MovsStays(m, o, es, si, di, inc, word, k, j);
    ElemByte(g, f, es, off, es, off, word, b);
  }

  /** A byte that has been stored is not stored again. */
  lemma StoredOnce(m: seq<byte>, o: Origin, es: u16, si: u16, di: u16, inc: int, word: bool, n: nat, k: nat, a: nat)
    requires |m| == MEMSIZE && Steps(inc, word) && k <= n && Extent(word, n) <= 65536 && !Outside(es, di, inc, word, k, a)
    ensures a < MEMSIZE && Moved(m, o, es, si, di, inc, word, n)[a] == Moved(m, o, es, si, di, inc, word, k)[a]
  {
    hide Moved, Place, Steps;
    var j :| 0 <= j < k && Place(es, di, inc, j) <= a < Place(es, di, inc, j) + ElemSize(word);
    StoredIn(m, o, es, si, di, inc, word, n, k, j, a - Place(es, di, inc, j));
  }

  /** Byte b of element k of the destination, memory having been m and being f. */
  ghost predicate CopiedByte(m: seq<byte>, f: seq<byte>, o: Origin, es: u16, si: u16, di: u16, inc: int, word: bool,
          k: nat, b: nat)
    requires |m| == |f| == MEMSIZE && b < 2
  {
    match o
    case Nowhere => f[Place(es, di, inc, k) + b] == 0
    case In(seg) =>
      var a := Place(seg, si, inc, k) + b;
      f[Place(es, di, inc, k) + b] == if Outside(es, di, inc, word, k, a) then m[a] else f[a]
  }

  /** A byte when the copy comes to its element. */
  lemma CopiedThen(m: seq<byte>, seg: u16, es: u16, si: u16, di: u16, inc: int, word: bool, n: nat, k: nat, b: nat)
    requires |m| == MEMSIZE && Steps(inc, word) && k < n && Extent(word, n) <= 65536 && b < ElemSize(word)
    ensures Moved(m, In(seg), es, si, di, inc, word, n)[Place(es, di, inc, k) + b] ==
            Moved(m, In(seg), es, si, di, inc, word, k)[Place(seg, si, inc, k) + b]
  {
    var f, g := Moved(m, In(seg), es, si, di, inc, word, n), Moved(m, In(seg), es, si, di, inc, word, k);
    hide Moved, Advance, Elem, Linear, Steps;
    MovsStays(m, In(seg), es, si, di, inc, word, n, k);
    ElemByte(g, f, es, Advance(di, inc, k), seg, Advance(si, inc, k), word, b);
  }

  lemma SourceByte(m: seq<byte>, o: Origin, es: u16, si: u16, di: u16, inc: int, word: bool, n: nat, k: nat, a: nat)
    requires |m| == MEMSIZE && Steps(inc, word) && k < n && Extent(word, n) <= 65536 && a < MEMSIZE
    ensures Moved(m, o, es, si, di, inc, word, k)[a] ==
            if Outside(es, di, inc, word, k, a) then m[a] else Moved(m, o, es, si, di, inc, word, n)[a]
  {
    hide Moved, Outside;
    if Outside(es, di, inc, word, k, a) {
      MovsKeeps(m, o, es, si, di, inc, word, k, a);
    } else {
      StoredOnce(m, o, es, si, di, inc, word, n, k, a);
    }
  }

  /** REP MOVS of bytes or words, in either direction, wrapping offsets and overlaps of any kind
      included: a byte of the destination ends as the source's byte was, if no earlier element was
      stored on that, and else as that byte ends, so that such an overlap repeats. */
  lemma MovsCopies(m: seq<byte>, o: Origin, es: u16, si: u16, di: u16, inc: int, word: bool, n: nat, k: nat, b: nat)
    requires |m| == MEMSIZE && Steps(inc, word) && k < n && Extent(word, n) <= 65536 && b < ElemSize(word)
    ensures CopiedByte(m, Moved(m, o, es, si, di, inc, word, n), o, es, si, di, inc, word, k, b)
  {
    hide Moved, Advance, Outside, Elem, Linear, Steps;
    match o
    case Nowhere =>
      MovsStays(m, o, es, si, di, inc, word, n, k);
      ZeroByte(Moved(m, o, es, si, di, inc, word, n), es, Advance(di, inc, k), word, b);
    case In(seg) =>
      CopiedThen(m, seg, es, si, di, inc, word, n, k, b);
      SourceByte(m, o, es, si, di, inc, word, n, k, Place(seg, si, inc, k) + b);
  }

  /** Address a belongs to none of the first k elements. */
  ghost predicate Untouched(seg: u16, x: u16, down: bool, word: bool, k: nat, a: nat) {
    forall j :: 0 <= j < k ==> a < ElementAt(seg, x, down, word, j) || a >= ElementAt(seg, x, down, word, j) + ElemSize(word)
  }

  lemma UntouchedIs(seg: u16, x: u16, flg: seq<bool>, word: bool, k: nat, a: nat)
    requires |flg| == 32
    ensures Untouched(seg, x, flg[DF], word, k, a) <==> Outside(seg, x, StepOf(flg, word), word, k, a)
  {
    hide ElementAt, Place, StepOf;
    forall j: nat ensures Place(seg, x, StepOf(flg, word), j) == ElementAt(seg, x, flg[DF], word, j) {
      PlaceIs(seg, x, flg, word, j);
    }
  }

  /** Byte b of element k after a move, memory having been m and being f: the byte of the source as it
      was if no earlier element was stored on it, else as it is at the end; zero with two overrides. */
  ghost predicate MovedRight(m: seq<byte>, f: seq<byte>, o: Origin, es: u16, si: u16, di: u16, down: bool, word: bool,
                             k: nat, b: nat)
    requires |m| == |f| == MEMSIZE && b < 2
  {
    match o
    case Nowhere => f[ElementAt(es, di, down, word, k) + b] == 0
    case In(seg) =>
      var a := ElementAt(seg, si, down, word, k) + b;
      f[ElementAt(es, di, down, word, k) + b] == if Untouched(es, di, down, word, k, a) then m[a] else f[a]
  }

  /** All n elements moved, and nothing else changed. */
  ghost predicate MovedAll(m: seq<byte>, f: seq<byte>, o: Origin, es: u16, si: u16, di: u16, down: bool, word: bool, n: nat)
    requires |m| == |f| == MEMSIZE
  {
    && (forall k, b :: 0 <= k < n && 0 <= b < (if word then 2 else 1) ==> MovedRight(m, f, o, es, si, di, down, word, k, b))
    && (forall a :: 0 <= a < MEMSIZE && Untouched(es, di, down, word, n, a) ==> f[a] == m[a])
  }

  lemma MovsRight(m: seq<byte>, o: Origin, es: u16, si: u16, di: u16, flg: seq<bool>, word: bool, n: nat, k: nat, b: nat)
    requires |m| == MEMSIZE && |flg| == 32 && k < n && Extent(word, n) <= 65536 && b < ElemSize(word)
    ensures MovedRight(m, Moved(m, o, es, si, di, StepOf(flg, word), word, n), o, es, si, di, flg[DF], word, k, b)
  {
    hide Moved, Advance, Outside, Untouched, ElementAt, Place, StepOf, Steps;
    MovsCopies(m, o, es, si, di, StepOf(flg, word), word, n, k, b);
    PlaceIs(es, di, flg, word, k);
    match o
    case Nowhere =>
    case In(seg) =>
      PlaceIs(seg, si, flg, word, k);
      UntouchedIs(es, di, flg, word, k, Place(seg, si, StepOf(flg, word), k) + b);
  }

  /** REP MOVS of up to 64K, by the direction flag. */
  lemma MovsAll(m: seq<byte>, o: Origin, es: u16, si: u16, di: u16, flg: seq<bool>, word: bool, n: nat)
    requires |m| == MEMSIZE && |flg| == 32 && Extent(word, n) <= 65536
    ensures MovedAll(m, Moved(m, o, es, si, di, StepOf(flg, word), word, n), o, es, si, di, flg[DF], word, n)
  {
    hide Moved, MovedRight, Untouched, StepOf, Outside;
    forall k, b | 0 <= k < n && 0 <= b < (if word then 2 else 1)
      ensures MovedRight(m, Moved(m, o, es, si, di, StepOf(flg, word), word, n), o, es, si, di, flg[DF], word, k, b)
    {
      MovsRight(m, o, es, si, di, flg, word, n, k, b);
    }
    forall a | 0 <= a < MEMSIZE && Untouched(es, di, flg[DF], word, n, a)
      ensures Moved(m, o, es, si, di, StepOf(flg, word), word, n)[a] == m[a]
    {
      UntouchedIs(es, di, flg, word, n, a);
      MovsKeeps(m, o, es, si, di, StepOf(flg, word), word, n, a);
    }
  }

  /** The strings do not wrap, and the source is not behind the destination. */
  predicate Safe(seg: u16, es: u16, si: u16, di: u16, inc: int, word: bool, n: nat)
    requires n > 0
  {
    if inc > 0 then
      si + Extent(word, n) <= 65536 && di + Extent(word, n) <= 65536 && Linear(es, di) <= Linear(seg, si)
    else
      si >= Extent(word, n - 1) && di >= Extent(word, n - 1) && Linear(es, di) >= Linear(seg, si)
  }

  lemma PlaceWithin(seg: u16, x: u16, inc: int, word: bool, k: nat)
    requires Steps(inc, word) && 0 <= x + Distance(inc, word, k) < 65536
    ensures Place(seg, x, inc, k) == Linear(seg, x) + Distance(inc, word, k)
  {
    AdvanceWithin(x, inc, word, k);
    hide Advance, Distance, Steps;
  }

  /** An earlier element of the destination is clear of a later one of the source. */
  lemma SafeClear(seg: u16, es: u16, si: u16, di: u16, inc: int, word: bool, n: nat, j: nat, k: nat)
    requires Steps(inc, word) && j < k < n && Safe(seg, es, si, di, inc, word, n)
    ensures Clear(Place(es, di, inc, j), Place(seg, si, inc, k), word)
  {
    hide Place, Linear;
    PlaceWithin(es, di, inc, word, j);
    PlaceWithin(seg, si, inc, word, k);
  }

  /** Upwards to an address that is not higher, and downwards to one that is not lower, no element is
      stored on a later one of the source: the copy is what a copy of the whole at once would be. */
  lemma SafeDirection(m: seq<byte>, seg: u16, es: u16, si: u16, di: u16, inc: int, word: bool, n: nat, k: nat, b: nat)
    requires |m| == MEMSIZE && Steps(inc, word) && k < n && Extent(word, n) <= 65536 && b < ElemSize(word)
    requires var len := if word then 2 * n else n;
             if inc > 0 then si + len <= 65536 && di + len <= 65536 && 16 * es + di <= 16 * seg + si
             else si + ElemSize(word) >= len && di + ElemSize(word) >= len && 16 * es + di >= 16 * seg + si
    ensures Moved(m, In(seg), es, si, di, inc, word, n)[Place(es, di, inc, k) + b] == m[Place(seg, si, inc, k) + b]
  {
    hide Moved, Place, Outside, Safe, Steps;
    SafeIs(seg, es, si, di, inc, word, n);
    SafeOutside(seg, es, si, di, inc, word, n, k, b);
    MovsCopies(m, In(seg), es, si, di, inc, word, n, k, b);
  }

  lemma SafeIs(seg: u16, es: u16, si: u16, di: u16, inc: int, word: bool, n: nat)
    requires n > 0
    ensures Safe(seg, es, si, di, inc, word, n) <==>
              var len := if word then 2 * n else n;
              if inc > 0 then si + len <= 65536 && di + len <= 65536 && 16 * es + di <= 16 * seg + si
              else si + ElemSize(word) >= len && di + ElemSize(word) >= len && 16 * es + di >= 16 * seg + si
  {
  }

  lemma SafeOutside(seg: u16, es: u16, si: u16, di: u16, inc: int, word: bool, n: nat, k: nat, b: nat)
    requires Steps(inc, word) && k < n && b < ElemSize(word) && Safe(seg, es, si, di, inc, word, n)
    ensures Outside(es, di, inc, word, k, Place(seg, si, inc, k) + b)
  {
    hide Place, Safe, Steps;
    var a := Place(seg, si, inc, k) + b;
    forall j | 0 <= j < k ensures a < Place(es, di, inc, j) || a >= Place(es, di, inc, j) + ElemSize(word) {
      SafeClear(seg, es, si, di, inc, word, n, j, k);
    }
  }

  /** AL or AX */
  function Accumulator(ax: u16, word: bool): (v: u16)
    ensures if word then v == ax else v < 256 && exists high :: 0 <= high < 256 && ax == v + 256 * high
  {
    assert ax == ax % 256 + 256 * (ax / 256);
    if word then ax else ax % 256
  }

  /** Memory after n elements of STOS. */
  function FilledWith(m: seq<byte>, es: u16, di: u16, v: u16, inc: int, word: bool, n: nat): (r: seq<byte>)
    requires |m| == MEMSIZE && (word || v < 256)
    ensures |r| == MEMSIZE
  {
    if n == 0 then m else Put(FilledWith(m, es, di, v, inc, word, n - 1), es, Advance(di, inc, n - 1), v, word)
  }

  lemma FillStarts(m: seq<byte>, es: u16, di: u16, v: u16, inc: int, word: bool)
    requires |m| == MEMSIZE && (word || v < 256)
    ensures FilledWith(m, es, di, v, inc, word, 0) == m && Advance(di, inc, 0) == di
  {
  }

  lemma FillNext(m: seq<byte>, es: u16, di: u16, v: u16, inc: int, word: bool, i: nat)
    requires |m| == MEMSIZE && (word || v < 256)
    ensures FilledWith(m, es, di, v, inc, word, i + 1) ==
            Put(FilledWith(m, es, di, v, inc, word, i), es, Advance(di, inc, i), v, word)
    ensures Advance(di, inc, i + 1) == Add16(Advance(di, inc, i), inc)
  {
    hide Put, Add16;
  }

  /** REP STOS of bytes or words, in either direction, wrapping offsets included: every element of the
      destination is v. */
  lemma {:induction false} StosFills(m: seq<byte>, es: u16, di: u16, v: u16, inc: int, word: bool, n: nat, k: nat)
    requires |m| == MEMSIZE && (word || v < 256) && Steps(inc, word) && k < n
    ensures Elem(FilledWith(m, es, di, v, inc, word, n), es, Advance(di, inc, k), word) == v
    decreases n
  {
    if k < n - 1 {
      var g := FilledWith(m, es, di, v, inc, word, n - 1);
      StosFills(m, es, di, v, inc, word, n - 1, k);
      PlacesAligned(es, di, inc, word, k, n - 1);
      assert FilledWith(m, es, di, v, inc, word, n) == Put(g, es, Advance(di, inc, n - 1), v, word);
      hide Put, Elem, Advance, FilledWith;
      if Place(es, di, inc, k) != Place(es, di, inc, n - 1) {
        hide Linear;
        PutClear(g, es, Advance(di, inc, n - 1), v, word, es, Advance(di, inc, k));
      }
    }
  }

  /** And nothing else changes. */
  lemma {:induction false} StosKeeps(m: seq<byte>, es: u16, di: u16, v: u16, inc: int, word: bool, n: nat, a: nat)
    requires |m| == MEMSIZE && (word || v < 256) && a < MEMSIZE && Outside(es, di, inc, word, n, a)
    ensures FilledWith(m, es, di, v, inc, word, n)[a] == m[a]
    decreases n
  {
    if n > 0 {
      var g := FilledWith(m, es, di, v, inc, word, n - 1);
      StosKeeps(m, es, di, v, inc, word, n - 1, a);
      assert a < Place(es, di, inc, n - 1) || a >= Place(es, di, inc, n - 1) + ElemSize(word);
      hide Put, Advance;
      PutByte(g, es, Advance(di, inc, n - 1), v, word, a);
    }
  }

  /** Element k after a store of AL or AX. */
  ghost predicate StoredRight(f: seq<byte>, es: u16, di: u16, ax: u16, down: bool, word: bool, k: nat)
    requires |f| == MEMSIZE
  {
    var d := ElementAt(es, di, down, word, k);
    f[d] == ax % 256 && (word ==> f[d + 1] == ax / 256)
  }

  ghost predicate StoredAll(m: seq<byte>, f: seq<byte>, es: u16, di: u16, ax: u16, down: bool, word: bool, n: nat)
    requires |m| == |f| == MEMSIZE
  {
    && (forall k :: 0 <= k < n ==> StoredRight(f, es, di, ax, down, word, k))
    && (forall a :: 0 <= a < MEMSIZE && Untouched(es, di, down, word, n, a) ==> f[a] == m[a])
  }

  /** REP STOS, by the direction flag. */
  lemma StosAll(m: seq<byte>, es: u16, di: u16, ax: u16, flg: seq<bool>, word: bool, n: nat)
    requires |m| == MEMSIZE && |flg| == 32
    ensures var f := FilledWith(m, es, di, Accumulator(ax, word), StepOf(flg, word), word, n);
            StoredAll(m, f, es, di, ax, flg[DF], word, n)
  {
    var inc, v := StepOf(flg, word), Accumulator(ax, word);
    var f := FilledWith(m, es, di, v, inc, word, n);
    hide FilledWith, Untouched, Outside, StepOf, Advance, ElementAt;
    forall k | 0 <= k < n ensures StoredRight(f, es, di, ax, flg[DF], word, k) {
      StosFills(m, es, di, v, inc, word, n, k);
      PlaceIs(es, di, flg, word, k);
    }
    forall a | 0 <= a < MEMSIZE && Untouched(es, di, flg[DF], word, n, a) ensures f[a] == m[a] {
      UntouchedIs(es, di, flg, word, n, a);
      StosKeeps(m, es, di, v, inc, word, n, a);
    }
  }

  /** An element as the comparison sees it. */
  function ElemBits(v: u16, word: bool): (d: Word)
    requires word || v < 256
    ensures |d| == if word then 16 else 8
  {
    Pow2To16();
    if word then BitsOf(v, 16) else BitsOf(v, 8)
  }

  lemma ElemBitsSame(v: u16, w: u16, word: bool)
    requires word || (v < 256 && w < 256)
    ensures ElemBits(v, word) == ElemBits(w, word) <==> v == w
  {
    Pow2To16();
    assert Num(ElemBits(v, word)) == v && Num(ElemBits(w, word)) == w;
  }

  /** The two elements a comparison looks at. */
  function Left(m: seq<byte>, r: Regs, word: bool, scan: bool): (v: u16)
    requires |m| == MEMSIZE
    ensures !word ==> v < 256
  {
    if scan then Accumulator(r.ax, word) else Read(m, OriginOf(r), r.si, word)
  }

  function Right(m: seq<byte>, r: Regs, word: bool): (v: u16)
    requires |m| == MEMSIZE
    ensures !word ==> v < 256
  {
    Elem(m, r.es, r.di, word)
  }

  /** A comparison of strings reads by the mode, and halts on two different overrides; a scan does not. */
  predicate Stops(r: Regs, scan: bool) {
    !scan && OriginOf(r) == Nowhere
  }

  function Stepped(r: Regs, inc: int, scan: bool): Regs {
    r.(si := if scan then r.si else Add16(r.si, inc), di := Add16(r.di, inc), halted := r.halted || Stops(r, scan))
  }

  /** The registers when i elements have been compared. */
  function StepsOn(r: Regs, inc: int, scan: bool, i: nat): Regs
    requires i <= r.cx
  {
    r.(cx := r.cx - i, si := if scan then r.si else Advance(r.si, inc, i), di := Advance(r.di, inc, i),
       halted := r.halted || (i > 0 && Stops(r, scan)))
  }

  predicate Repeating(r: Regs) {
    Repe in r.mode || Repne in r.mode
  }

  /** The registers when k elements have been compared, the repeat prefix used up. */
  function StepsDone(r: Regs, inc: int, scan: bool, k: nat): Regs {
    r.(cx := if Repeating(r) then (if k <= r.cx then r.cx - k else 0) else r.cx,
       si := if scan then r.si else Advance(r.si, inc, k),
       di := Advance(r.di, inc, k),
       halted := r.halted || (k > 0 && Stops(r, scan)),
       mode := r.mode - (if Repe in r.mode then {Repe} else if Repne in r.mode then {Repne} else {}))
  }

  lemma OneStepOn(r: Regs, inc: int, scan: bool)
    requires !Repeating(r)
    ensures StepsDone(r, inc, scan, 1) == Stepped(r, inc, scan)
  {
    OneStep(r.si, inc);
    OneStep(r.di, inc);
    assert r.mode - {} == r.mode;
  }

  /** Element i of the two strings is the same. */
  predicate Agree(m: seq<byte>, r: Regs, inc: int, word: bool, scan: bool, i: nat)
    requires |m| == MEMSIZE
  {
    var q := r.(si := Advance(r.si, inc, i), di := Advance(r.di, inc, i));
    Left(m, q, word, scan) == Right(m, q, word)
  }

  /** The flags are those of comparing the two elements the registers point to. */
  ghost predicate ComparedNow(flg: seq<bool>, m: seq<byte>, r: Regs, word: bool, scan: bool)
    requires |m| == MEMSIZE && |flg| == 32
  {
    SubFlags(flg, ElemBits(Left(m, r, word, scan), word), ElemBits(Right(m, r, word), word), false)
  }

  /** The flags are those of comparing element i of the two strings. */
  ghost predicate Compared(flg: seq<bool>, m: seq<byte>, r: Regs, inc: int, word: bool, scan: bool, i: nat)
    requires |m| == MEMSIZE && |flg| == 32
  {
    ComparedNow(flg, m, r.(si := Advance(r.si, inc, i), di := Advance(r.di, inc, i)), word, scan)
  }

  /** The byte or the word at an address. */
  function ValueAt(m: seq<byte>, a: nat, word: bool): u16
    requires a + 2 <= |m|
  {
    m[a] as int + if word then 256 * m[a + 1] as int else 0
  }

  /** What element i is compared with: AL or AX, or the element of the string at SI. */
  function LeftValue(m: seq<byte>, r: Regs, down: bool, word: bool, scan: bool, i: nat): u16
    requires |m| == MEMSIZE
  {
    if scan then (if word then r.ax else r.ax % 256) else
    match OriginOf(r)
    case In(seg) => ValueAt(m, ElementAt(seg, r.si, down, word, i), word)
    case Nowhere => 0
  }

  function RightValue(m: seq<byte>, r: Regs, down: bool, word: bool, i: nat): u16
    requires |m| == MEMSIZE
  {
    ValueAt(m, ElementAt(r.es, r.di, down, word, i), word)
  }

  lemma ElemIs(m: seq<byte>, seg: u16, x: u16, flg: seq<bool>, word: bool, i: nat)
    requires |m| == MEMSIZE && |flg| == 32
    ensures Elem(m, seg, Advance(x, StepOf(flg, word), i), word) == ValueAt(m, ElementAt(seg, x, flg[DF], word, i), word)
  {
    hide Advance, StepOf, ElementAt;
    PlaceIs(seg, x, flg, word, i);
  }

  lemma ValuesAre(m: seq<byte>, r: Regs, flg: seq<bool>, word: bool, scan: bool, i: nat)
    requires |m| == MEMSIZE && |flg| == 32
    ensures var inc := StepOf(flg, word);
            var q := r.(si := Advance(r.si, inc, i), di := Advance(r.di, inc, i));
            && Left(m, q, word, scan) == LeftValue(m, r, flg[DF], word, scan, i)
            && Right(m, q, word) == RightValue(m, r, flg[DF], word, i)
  {
    var inc := StepOf(flg, word);
    var q := r.(si := Advance(r.si, inc, i), di := Advance(r.di, inc, i));
    SameOrigin(r, q);
    ElemIs(m, r.es, r.di, flg, word, i);
    match OriginOf(r)
    case Nowhere =>
    case In(seg) => ElemIs(m, seg, r.si, flg, word, i);
    hide OriginOf, Elem, ValueAt, StepOf, Advance, ElementAt;
  }

  /** Elements that agree, in terms of the direction flag. */
  lemma AgreeIs(m: seq<byte>, r: Regs, flg: seq<bool>, word: bool, scan: bool, i: nat)
    requires |m| == MEMSIZE && |flg| == 32
    ensures Agree(m, r, StepOf(flg, word), word, scan, i) <==>
              LeftValue(m, r, flg[DF], word, scan, i) == RightValue(m, r, flg[DF], word, i)
  {
    hide Left, Right, LeftValue, RightValue, StepOf, Advance;
    ValuesAre(m, r, flg, word, scan, i);
  }

  /** CF after a comparison: the first is below. */
  lemma ComparedIs(after: seq<bool>, m: seq<byte>, r: Regs, flg: seq<bool>, word: bool, scan: bool, i: nat)
    requires |m| == MEMSIZE && |flg| == |after| == 32 && Compared(after, m, r, StepOf(flg, word), word, scan, i)
    ensures after[CF] == (LeftValue(m, r, flg[DF], word, scan, i) < RightValue(m, r, flg[DF], word, i))
  {
    hide Left, Right, LeftValue, RightValue, StepOf, Advance, SubRest, Num;
    ValuesAre(m, r, flg, word, scan, i);
    ElemNum(LeftValue(m, r, flg[DF], word, scan, i), word);
    ElemNum(RightValue(m, r, flg[DF], word, i), word);
  }

  /** SI and DI after k elements. */
  lemma IndexAfter(q: Regs, flg: seq<bool>, word: bool, scan: bool, k: nat)
    requires |flg| == 32
    ensures var s := AfterEnd(StepsDone(q, StepOf(flg, word), scan, k));
            && (!scan ==> s.si == (q.si + (if flg[DF] then -1 else 1) * (if word then 2 * k else k)) % 65536)
            && s.di == (q.di + (if flg[DF] then -1 else 1) * (if word then 2 * k else k)) % 65536
  {
    hide StepOf, Advance, Stops;
    StepsAre(q.si, flg, word, k);
    StepsAre(q.di, flg, word, k);
  }

  /** ZF and CF after the last comparison. */
  lemma LastCompared(after: seq<bool>, m: seq<byte>, q: Regs, flg: seq<bool>, word: bool, scan: bool, i: nat)
    requires |m| == MEMSIZE && |flg| == |after| == 32 && Compared(after, m, q, StepOf(flg, word), word, scan, i)
    requires after[ZF] == Agree(m, q, StepOf(flg, word), word, scan, i)
    ensures var left, right := LeftValue(m, q, flg[DF], word, scan, i), RightValue(m, q, flg[DF], word, i);
            after[ZF] == (left == right) && after[CF] == (left < right)
  {
    hide Compared, Agree, StepOf, LeftValue, RightValue;
    AgreeIs(m, q, flg, word, scan, i);
    ComparedIs(after, m, q, flg, word, scan, i);
  }

  lemma ElemNum(v: u16, word: bool)
    requires word || v < 256
    ensures Num(ElemBits(v, word)) == v
  {
    Pow2To16();
  }

  lemma StepsZero(r: Regs, inc: int, scan: bool)
    ensures StepsOn(r, inc, scan, 0) == r
  {
  }

  /** What is compared depends on neither the count nor the halt. */
  lemma SameElements(m: seq<byte>, q: Regs, r: Regs, word: bool, scan: bool)
    requires |m| == MEMSIZE && r == q.(cx := r.cx, halted := r.halted)
    ensures Left(m, q, word, scan) == Left(m, r, word, scan) && Right(m, q, word) == Right(m, r, word)
  {
    SameOrigin(q, r);
    hide Read, OriginOf, Elem;
  }

  lemma StepsMove(r: Regs, inc: int, scan: bool, k: nat)
    requires k < r.cx
    ensures var q := StepsOn(r, inc, scan, k); Stepped(q, inc, scan).(cx := q.cx - 1) == StepsOn(r, inc, scan, k + 1)
  {
    SameOrigin(r, StepsOn(r, inc, scan, k));
    hide OriginOf, Add16;
  }

  lemma StepsNext(m: seq<byte>, r: Regs, inc: int, word: bool, scan: bool, k: nat)
    requires |m| == MEMSIZE && k <= r.cx
    ensures var q := StepsOn(r, inc, scan, k);
            && (Left(m, q, word, scan) == Right(m, q, word) <==> Agree(m, r, inc, word, scan, k))
            && (forall flg: seq<bool> :: |flg| == 32 && ComparedNow(flg, m, q, word, scan) ==>
                  Compared(flg, m, r, inc, word, scan, k))
            && (k < r.cx ==> Stepped(q, inc, scan).(cx := q.cx - 1) == StepsOn(r, inc, scan, k + 1))
    ensures k == 0 ==> StepsOn(r, inc, scan, 0) == r
  {
    var q, s := StepsOn(r, inc, scan, k), r.(si := Advance(r.si, inc, k), di := Advance(r.di, inc, k));
    if scan {
      SameElements(m, q.(si := s.si), s, word, scan);
    } else {
      SameElements(m, q, s, word, scan);
    }
    assert Left(m, q, word, scan) == Left(m, s, word, scan) && Right(m, q, word) == Right(m, s, word);
    if k < r.cx {
      StepsMove(r, inc, scan, k);
    }
    hide Left, Right, SubFlags, Stepped;
  }

  class X86 {
    const mem: array<byte>
    const flags: Flags
    var r: Regs

    ghost predicate Valid()
      reads this, mem, flags
    {
      mem.Length == MEMSIZE && flags.Valid()
    }

    constructor (flags: Flags, start: Regs)
      requires flags.Valid()
      ensures Valid() && this.flags == flags && r == start && fresh(mem)
    {
      this.flags := flags;
      mem := new byte[MEMSIZE];
      r := start;
    }

    /** What has been pushed on top of whatever else is there. */
    ghost predicate Stack(ws: seq<u16>)
      reads this, mem, flags
    {
      Valid() && OnStack(mem[..], r.ss, r.sp, ws)
    }

    method ReadWord(a: nat) returns (w: u16)
      requires Valid() && a + 2 <= MEMSIZE
      ensures w == WordAt(mem[..], a)
    {
      w := mem[a] as int + 256 * mem[a + 1] as int;
    }

    method WriteWord(a: nat, w: u16)
      requires Valid() && a + 2 <= MEMSIZE
      modifies mem
      ensures mem[..] == PutWord(old(mem[..]), a, w)
    {
      mem[a] := w % 256;
      mem[a + 1] := w / 256;
    }

    /*-- push_word, pop_word, PUSHA, POPA ---*/

    /** The words of `all` from place n on are on the stack, the place of its first word being base. */
    ghost predicate From(all: seq<u16>, n: nat, base: u16)
      reads this, mem, flags
    {
      n <= |all| && Stack(all[n..]) && r.sp == Add16(base, 2 * n)
    }

    /** push_word: also, memory is m0 with the words of `all` stored from place n to place top. */
    method Push(w: u16, ghost all: seq<u16>, ghost n: nat, ghost base: u16, ghost m0: seq<byte>, ghost top: nat)
      requires 1 <= n <= top && From(all, n, base) && all[n - 1] == w && |all| - n < 32768
      requires top <= |all| && |m0| == MEMSIZE && mem[..] == Laid(m0, r.ss, base, all, n, top)
      modifies this, mem
      ensures From(all, n - 1, base) && r == old(r).(sp := Add16(base, 2 * (n - 1)))
      ensures mem[..] == Laid(m0, r.ss, base, all, n - 1, top)
    {
      hide OnStack, PutWord, Add16, Laid;
      LaidNext(m0, r.ss, base, all, n - 1, top);
      BackTwo(base, n);
      PushKeeps(mem[..], r.ss, r.sp, all[n..], w);
      assert [w] + all[n..] == all[n - 1..];
      r := r.(sp := Add16(r.sp, -2));
      WriteWord(Linear(r.ss, r.sp), w);
    }

    /** Where a list that is to be pushed will start. */
    ghost method Start(all: seq<u16>, k: nat) returns (base: u16)
      requires k <= |all| && Stack(all[k..])
      ensures base == Add16(r.sp, -2 * k) && Add16(base, 0) == base
      ensures From(all, k, base) && mem[..] == Laid(mem[..], r.ss, base, all, k, k)
    {
      base := Add16(r.sp, -2 * k);
      Add16Back(r.sp, 2 * k);
    }

    /** pop_word */
    method Pop(ghost all: seq<u16>, ghost n: nat, ghost base: u16) returns (w: u16)
      requires n < |all| && From(all, n, base)
      modifies this
      ensures w == all[n] && From(all, n + 1, base) && r == old(r).(sp := Add16(base, 2 * (n + 1)))
    {
      hide OnStack, Add16, WordAt;
      BackTwo(base, n + 1);
      PopKeeps(mem[..], r.ss, r.sp, all[n..]);
      assert all[n..][1..] == all[n + 1..];
      w := ReadWord(Linear(r.ss, r.sp));
      r := r.(sp := Add16(r.sp, 2));
    }

    /** SP += 2 */
    method Skip(ghost all: seq<u16>, ghost n: nat, ghost base: u16)
      requires n < |all| && From(all, n, base)
      modifies this
      ensures From(all, n + 1, base) && r == old(r).(sp := Add16(base, 2 * (n + 1)))
    {
      hide OnStack, Add16, WordAt;
      BackTwo(base, n + 1);
      PopKeeps(mem[..], r.ss, r.sp, all[n..]);
      assert all[n..][1..] == all[n + 1..];
      r := r.(sp := Add16(r.sp, 2));
    }

    /** DECODE_CLEAR_SEGOVR, at the end of every instruction that is not a prefix. */
    method EndOfInstr()
      modifies this
      ensures r == AfterEnd(old(r)) && r.mode == After(old(r).mode, End)
    {
      r := r.(mode := r.mode - CLRMASK);
    }

    /** The first half of PUSHA. */
    method PushGeneral(ghost all: seq<u16>, ghost base: u16, ghost m0: seq<byte>)
      requires From(all, 8, base) && |all| <= 32768 && all[..8] == All(r)
      requires |m0| == MEMSIZE && mem[..] == Laid(m0, r.ss, base, all, 8, 8)
      modifies this, mem
      ensures From(all, 4, base) && r == old(r).(sp := Add16(base, 8))
      ensures mem[..] == Laid(m0, r.ss, base, all, 4, 8)
    {
      assert forall i :: 0 <= i < 8 ==> all[i] == all[..8][i];
      hide From, Add16, Laid, All;
      Push(r.ax, all, 8, base, m0, 8);
      Push(r.cx, all, 7, base, m0, 8);
      Push(r.dx, all, 6, base, m0, 8);
      Push(r.bx, all, 5, base, m0, 8);
    }

    /** The second half, with the SP from before the first. */
    method PushPointers(oldSp: u16, ghost all: seq<u16>, ghost base: u16, ghost m0: seq<byte>)
      requires From(all, 4, base) && 8 <= |all| <= 32768 && all[..8] == All(r.(sp := oldSp))
      requires |m0| == MEMSIZE && mem[..] == Laid(m0, r.ss, base, all, 4, 8)
      modifies this, mem
      ensures From(all, 0, base) && r == old(r).(sp := Add16(base, 0))
      ensures mem[..] == Laid(m0, r.ss, base, all, 0, 8)
    {
      assert forall i :: 0 <= i < 8 ==> all[i] == all[..8][i];
      hide From, Add16, Laid, All;
      Push(oldSp, all, 4, base, m0, 8);
      Push(r.bp, all, 3, base, m0, 8);
      Push(r.si, all, 2, base, m0, 8);
      Push(r.di, all, 1, base, m0, 8);
    }

    /** push_all, 16 bits */
    method PushAll(ghost ws: seq<u16>)
      requires Stack(ws) && |ws| + 8 <= 32768 && Data !in r.mode
      modifies this, mem
      ensures Stack(All(old(r)) + ws) && r == AfterEnd(old(r).(sp := Add16(old(r).sp, -16)))
      ensures var q := old(r); All(q) == [q.di, q.si, q.bp, q.sp, q.bx, q.dx, q.cx, q.ax]
      ensures mem[..] == Laid(old(mem[..]), r.ss, r.sp, All(old(r)) + ws, 0, 8)
    {
      hide OnStack, Laid, Add16;
      ghost var all := All(r) + ws;
      assert all[8..] == ws && all[0..] == all;
      ghost var base := Start(all, 8);
      var oldSp := r.sp;
      PushGeneral(all, base, old(mem[..]));
      PushPointers(oldSp, all, base, old(mem[..]));
      EndOfInstr();
    }

    /** The first half of POPA: the saved SP is skipped. */
    method PopPointers(ghost q: Regs, ghost all: seq<u16>, ghost base: u16)
      requires From(all, 0, base) && |all| >= 8 && all[..8] == All(q)
      modifies this
      ensures From(all, 4, base) && r == old(r).(bp := q.bp, si := q.si, di := q.di, sp := Add16(base, 8))
    {
      assert forall i :: 0 <= i < 8 ==> all[i] == all[..8][i];
      hide From, Add16;
      var x;
      x := Pop(all, 0, base);
      r := r.(di := x);
      x := Pop(all, 1, base);
      r := r.(si := x);
      x := Pop(all, 2, base);
      r := r.(bp := x);
      Skip(all, 3, base);
    }

    /** The second half. */
    method PopGeneral(ghost q: Regs, ghost all: seq<u16>, ghost base: u16)
      requires From(all, 4, base) && |all| >= 8 && all[..8] == All(q)
      modifies this
      ensures From(all, 8, base) && r == old(r).(ax := q.ax, bx := q.bx, cx := q.cx, dx := q.dx, sp := Add16(base, 16))
    {
      assert forall i :: 0 <= i < 8 ==> all[i] == all[..8][i];
      hide From, Add16;
      var x;
      x := Pop(all, 4, base);
      r := r.(bx := x);
      x := Pop(all, 5, base);
      r := r.(dx := x);
      x := Pop(all, 6, base);
      r := r.(cx := x);
      x := Pop(all, 7, base);
      r := r.(ax := x);
    }

    /** pop_all, 16 bits */
    method PopAll(ghost q: Regs, ghost ws: seq<u16>)
      requires Stack(All(q) + ws) && Data !in r.mode
      modifies this
      ensures Stack(ws)
      ensures r == AfterEnd(old(r).(ax := q.ax, bx := q.bx, cx := q.cx, dx := q.dx,
                                   bp := q.bp, si := q.si, di := q.di, sp := Add16(old(r).sp, 16)))
    {
      hide OnStack;
      ghost var all := All(q) + ws;
      ghost var base := r.sp;
      assert all[8..] == ws && all[0..] == all && all[..8] == All(q);
      hide All;
      PopPointers(q, all, base);
      PopGeneral(q, all, base);
      EndOfInstr();
    }

    /** PUSHA followed by POPA restores every register, for every SP. */
    method PushaPopa(ghost ws: seq<u16>)
      requires Stack(ws) && |ws| + 8 <= 32768 && Data !in r.mode
      modifies this, mem
      ensures r == AfterEnd(old(r)) && Stack(ws)
    {
      hide OnStack, Add16, All;
      Add16Back(r.sp, 16);
      PushAll(ws);
      PopAll(old(r), ws);
      EndedTwice(old(r));
    }

    /*-- Calls ---*/

    method CallNear(target: u16, ghost ws: seq<u16>)
      requires Stack(ws) && |ws| < 32768
      modifies this, mem
      ensures Stack([old(r).ip] + ws) && r == AfterEnd(old(r).(ip := target, sp := Add16(old(r).sp, -2)))
      ensures mem[..] == Laid(old(mem[..]), r.ss, r.sp, [old(r).ip] + ws, 0, 1)
    {
      hide OnStack, Laid, Add16;
      ghost var m0, all := mem[..], [r.ip] + ws;
      assert all[1..] == ws && all[0..] == all;
      ghost var base := Start(all, 1);
      Push(r.ip, all, 1, base, m0, 1);
      r := r.(ip := target);
      EndOfInstr();
    }

    method RetNear(ghost all: seq<u16>)
      requires Stack(all) && all != []
      modifies this
      ensures Stack(all[1..]) && r == AfterEnd(old(r).(ip := all[0], sp := Add16(old(r).sp, 2)))
    {
      ghost var base := r.sp;
      assert all[0..] == all;
      var x := Pop(all, 0, base);
      r := r.(ip := x);
      EndOfInstr();
    }

    method CallFar(seg: u16, off: u16, ghost ws: seq<u16>)
      requires Stack(ws) && |ws| + 2 <= 32768
      modifies this, mem
      ensures Stack([old(r).ip, old(r).cs] + ws) && r == AfterEnd(old(r).(cs := seg, ip := off, sp := Add16(old(r).sp, -4)))
      ensures mem[..] == Laid(old(mem[..]), r.ss, r.sp, [old(r).ip, old(r).cs] + ws, 0, 2)
    {
      hide OnStack, Laid, Add16;
      ghost var m0, all := mem[..], [r.ip, r.cs] + ws;
      assert all[2..] == ws && all[0..] == all;
      ghost var base := Start(all, 2);
      Push(r.cs, all, 2, base, m0, 2);
      r := r.(cs := seg);
      Push(r.ip, all, 1, base, m0, 2);
      r := r.(ip := off);
      EndOfInstr();
    }

    method RetFar(ghost all: seq<u16>)
      requires Stack(all) && |all| >= 2
      modifies this
      ensures Stack(all[2..]) && r == AfterEnd(old(r).(ip := all[0], cs := all[1], sp := Add16(old(r).sp, 4)))
    {
      hide OnStack;
      ghost var base := r.sp;
      assert all[0..] == all;
      var x := Pop(all, 0, base);
      r := r.(ip := x);
      x := Pop(all, 1, base);
      r := r.(cs := x);
      EndOfInstr();
    }

    /** INT n, when its handler is not one of the emulator's own, in segment FFF0. The vector is read after
        the flags and CS have been pushed, which may have been on top of it. */
    method Int(n: byte, ghost ws: seq<u16>) returns (ghost mid: seq<byte>)
      requires Stack(ws) && |ws| + 3 <= 32768
      requires WordAt(mem[..], 4 * n as int + 2) != 0xfff0
      modifies this, mem, flags
      ensures Stack([old(r).ip, old(r).cs, FlagsWord(old(flags.flg))] + ws)
      ensures flags.flg == old(flags.flg)[IF := false][TF := false]
      ensures mid == Laid(old(mem[..]), r.ss, r.sp, [old(r).ip, old(r).cs, FlagsWord(old(flags.flg))] + ws, 1, 3)
      ensures mem[..] == Laid(old(mem[..]), r.ss, r.sp, [old(r).ip, old(r).cs, FlagsWord(old(flags.flg))] + ws, 0, 3)
      ensures r == AfterEnd(old(r).(cs := WordAt(mid, 4 * n as int + 2),
                                   ip := WordAt(mem[..], 4 * n as int), sp := Add16(old(r).sp, -6)))
    {
      hide OnStack, FlagsWord, Laid, Add16, WordAt;
      var f := FlagsWord(flags.flg);
      ghost var m0, all := mem[..], [r.ip, r.cs, f] + ws;
      assert all[3..] == ws && all[0..] == all;
      ghost var base := Start(all, 3);
      Push(f, all, 3, base, m0, 3);
      flags.Set(false, IF);
      flags.Set(false, TF);
      Push(r.cs, all, 2, base, m0, 3);
      mid := mem[..];
      var x := ReadWord(4 * n as int + 2);
      r := r.(cs := x);
      Push(r.ip, all, 1, base, m0, 3);
      x := ReadWord(4 * n as int);
      r := r.(ip := x);
      EndOfInstr();
    }

    method Iret(ghost all: seq<u16>)
      requires Stack(all) && |all| >= 3
      modifies this, flags
      ensures Stack(all[3..]) && r == AfterEnd(old(r).(ip := all[0], cs := all[1], sp := Add16(old(r).sp, 6)))
      ensures flags.flg == FlagsFrom(all[2])
    {
      hide OnStack, FlagsFrom;
      ghost var base := r.sp;
      assert all[0..] == all;
      var x := Pop(all, 0, base);
      r := r.(ip := x);
      x := Pop(all, 1, base);
      r := r.(cs := x);
      x := Pop(all, 2, base);
      flags.flg := FlagsFrom(x);
      EndOfInstr();
    }

    /*-- Immediates, addresses, data ---*/

    /** fetch_byte_imm */
    method ByteImm() returns (v: byte)
      requires Valid()
      modifies this
      ensures v == mem[Linear(old(r).cs, old(r).ip)] && r == old(r).(ip := Add16(old(r).ip, 1))
    {
      v := mem[Linear(r.cs, r.ip)];
      r := r.(ip := Add16(r.ip, 1));
    }

    method WordImm() returns (v: u16)
      requires Valid()
      modifies this
      ensures v == WordAt(mem[..], Linear(old(r).cs, old(r).ip)) && r == old(r).(ip := Add16(old(r).ip, 2))
    {
      v := ReadWord(Linear(r.cs, r.ip));
      r := r.(ip := Add16(r.ip, 2));
    }

    /** decode_rm00_address, decode_rm01_address and decode_rm10_address: the offset, the displacement
        fetched, and the mode bit that says the address was formed with BP. */
    method DecodeAddress(mod: nat, rm: nat) returns (off: u16)
      requires Valid() && mod <= 2 && rm <= 7
      modifies this
      ensures var d := Displacement(mem[..], old(r), mod, rm);
              && off == Offset16(old(r), mod, rm, d.0)
              && r == old(r).(ip := Add16(old(r).ip, d.1), mode := old(r).mode + if UsesBp(mod, rm) then {DsSs} else {})
      ensures var a, base := 16 * old(r).cs + old(r).ip, Base(old(r), rm);
              var low, high := mem[a] as int, mem[a + 1] as int;
              && (mod == 0 && rm != 6 ==> off == base && r.ip == old(r).ip)
              && (mod == 0 && rm == 6 ==> off == low + 256 * high && r.ip == (old(r).ip + 2) % 65536)
              && (mod == 1 ==>
                    off == (base + if low < 128 then low else low - 256) % 65536 && r.ip == (old(r).ip + 1) % 65536)
              && (mod == 2 ==> off == (base + low + 256 * high) % 65536 && r.ip == (old(r).ip + 2) % 65536)
    {
      var disp: int := 0;
      if mod == 1 {
        var b := ByteImm();
        disp := SignedByte(b);
      } else if mod == 2 || rm == 6 {
        disp := WordImm();
      }
      if UsesBp(mod, rm) {
        r := r.(mode := r.mode + {DsSs});
      }
      off := Add16(if mod == 0 && rm == 6 then 0 else Base(r, rm), disp);
      AddressIs(mem[..], old(r), mod, rm);
    }

    /** segovr_CS and so on: a prefix does not end with EndOfInstr. */
    method SegmentPrefix(s: Seg)
      modifies this
      ensures r == old(r).(mode := After(old(r).mode, Prefix(s)))
    {
      r := r.(mode := r.mode + {Override(s)});
    }

    /** prefix_data */
    method DataPrefix()
      modifies this
      ensures r == old(r).(mode := After(old(r).mode, Size))
    {
      r := r.(mode := r.mode + {Data});
    }

    /** repe and repne: they end with DECODE_CLEAR_SEGOVR, unlike the overrides. */
    method RepeatPrefix(ne: bool)
      modifies this
      ensures r == old(r).(mode := After(old(r).mode, Repeat(ne)))
    {
      r := r.(mode := r.mode + {if ne then Repne else Repe});
      r := r.(mode := r.mode - CLRMASK);
    }

    /** lock */
    method LockPrefix()
      modifies this
      ensures r == old(r).(mode := After(old(r).mode, Lock))
    {
      r := r.(mode := r.mode - CLRMASK);
    }

    /** The prefixes of ES: REP MOVSB and the instruction, from the state between two instructions:
        after 26 F3 the bytes come from DS, after F3 26 from ES. */
    method OverriddenMovs(s: Seg, repeatFirst: bool, word: bool)
      requires Valid() && r.mode == {}
      modifies this, mem
      ensures var q, inc := old(r), StepOf(flags.flg, word);
              && mem[..] == Moved(old(mem[..]),
                                  In(if !repeatFirst then q.ds
                                     else match s case CS => q.cs case DS => q.ds case ES => q.es case SS => q.ss),
                                  q.es, q.si, q.di, inc, word, q.cx)
              && r == q.(cx := 0, si := Advance(q.si, inc, q.cx), di := Advance(q.di, inc, q.cx))
    {
      hide Moved, Advance;
      if repeatFirst {
        RepeatPrefix(false);
        SegmentPrefix(s);
        assert r.mode * SEGMASK == {Override(s)};
      } else {
        SegmentPrefix(s);
        RepeatPrefix(false);
        assert r.mode * SEGMASK == {};
      }
      assert r.mode <= {Repe, Override(s)} && Repe in r.mode;
      Movs(word);
      assert r.mode == {};
    }

    /** REP NOP; MOVS, from the state between two instructions: the REP of the first instruction repeats
        the second, which has no prefix, CX times. */
    method LeftoverMovs(word: bool)
      requires Valid() && r.mode == {}
      modifies this, mem
      ensures var q, inc := old(r), StepOf(flags.flg, word);
              && mem[..] == Moved(old(mem[..]), In(q.ds), q.es, q.si, q.di, inc, word, q.cx)
              && r == q.(cx := 0, si := Advance(q.si, inc, q.cx), di := Advance(q.di, inc, q.cx))
    {
      hide Moved, Advance;
      RepeatPrefix(false);
      EndOfInstr();
      assert r.mode == {Repe};
      assert r.mode * SEGMASK == {};
      Movs(word);
      assert r.mode == {};
    }

    /** The segment a mode-based access uses. */
    method DataSegment() returns (seg: u16)
      modifies this
      ensures match Select(old(r).mode)
              case Use(s) => seg == SegOf(r, s) && r == old(r)
              case Several => seg == 0 && r == old(r).(halted := true)
    {
      match Select(r.mode)
      case Use(s) =>
        seg := SegOf(r, s);
      case Several =>
        seg := 0;
        r := r.(halted := true);
    }

    /** fetch_data_byte and fetch_data_word */
    method FetchData(off: u16, word: bool) returns (v: u16)
      requires Valid()
      modifies this
      ensures match Select(old(r).mode)
              case Use(s) => v == Elem(mem[..], SegOf(r, s), off, word) && r == old(r)
              case Several => v == 0 && r == old(r).(halted := true)
      ensures var m := old(r).mode * {OvrCs, OvrDs, OvrEs, OvrSs};
              && (m == {OvrCs} ==> v == Elem(mem[..], r.cs, off, word) && r == old(r))
              && (m == {OvrDs} ==> v == Elem(mem[..], r.ds, off, word) && r == old(r))
              && (m == {OvrEs} ==> v == Elem(mem[..], r.es, off, word) && r == old(r))
              && (m == {OvrSs} ==> v == Elem(mem[..], r.ss, off, word) && r == old(r))
              && (m == {} ==> v == Elem(mem[..], if DsSs in r.mode then r.ss else r.ds, off, word) && r == old(r))
    {
      SegmentIs(r);
      var seg := DataSegment();
      if r.halted && Select(r.mode).Several? {
        v := 0;
      } else if word {
        v := ReadWord(Linear(seg, off));
      } else {
        v := mem[Linear(seg, off)];
      }
    }

    /** store_data_byte and store_data_word */
    method StoreData(off: u16, v: u16, word: bool)
      requires Valid() && (word || v < 256)
      modifies this, mem
      ensures match Select(old(r).mode)
              case Use(s) => mem[..] == Put(old(mem[..]), SegOf(r, s), off, v, word) && r == old(r)
              case Several => mem[..] == Put(old(mem[..]), 0, off, v, word) && r == old(r).(halted := true)
      ensures var m := old(r).mode * {OvrCs, OvrDs, OvrEs, OvrSs};
              && (m == {OvrCs} ==> mem[..] == Put(old(mem[..]), r.cs, off, v, word) && r == old(r))
              && (m == {OvrDs} ==> mem[..] == Put(old(mem[..]), r.ds, off, v, word) && r == old(r))
              && (m == {OvrEs} ==> mem[..] == Put(old(mem[..]), r.es, off, v, word) && r == old(r))
              && (m == {OvrSs} ==> mem[..] == Put(old(mem[..]), r.ss, off, v, word) && r == old(r))
              && (m == {} ==>
                    && mem[..] == Put(old(mem[..]), if DsSs in r.mode then r.ss else r.ds, off, v, word)
                    && r == old(r))
    {
      SegmentIs(r);
      hide Put;
      var seg := DataSegment();
      StoreAbs(seg, off, v, word);
    }

    /** store_data_byte_abs and store_data_word_abs */
    method StoreAbs(seg: u16, off: u16, v: u16, word: bool)
      requires Valid() && (word || v < 256)
      modifies mem
      ensures mem[..] == Put(old(mem[..]), seg, off, v, word)
    {
      if word {
        WriteWord(Linear(seg, off), v);
      } else {
        mem[Linear(seg, off)] := v;
      }
    }

    method FetchAbs(seg: u16, off: u16, word: bool) returns (v: u16)
      requires Valid()
      ensures v == Elem(mem[..], seg, off, word)
    {
      if word {
        v := ReadWord(Linear(seg, off));
      } else {
        v := mem[Linear(seg, off)];
      }
    }

    /** jump_near_B and so on: a signed byte offset from the next instruction. */
    method JumpNear(c: Cond)
      requires Valid()
      modifies this
      ensures var b := mem[Linear(old(r).cs, old(r).ip)];
              var next := Add16(old(r).ip, 1);
              r == AfterEnd(old(r).(ip := if Taken(flags.flg, c) then Add16(next, SignedByte(b)) else next))
      ensures var b := mem[16 * old(r).cs + old(r).ip] as int;
              var jump := if Taken(flags.flg, c) then (if b < 128 then b else b - 256) else 0;
              r.ip == (old(r).ip + 1 + jump) % 65536
    {
      var b := ByteImm();
      var target := Add16(r.ip, SignedByte(b));
      if Taken(flags.flg, c) {
        r := r.(ip := target);
      }
      EndOfInstr();
    }

    /*-- String instructions ---*/

    method Increment(word: bool) returns (inc: int)
      requires Valid()
      ensures inc == StepOf(flags.flg, word)
    {
      inc := if word then 2 else 1;
      if flags.flg[DF] {
        inc := -inc;
      }
    }

    /** One element of MOVS. */
    method MoveOne(word: bool, inc: int)
      requires Valid()
      modifies this, mem
      ensures r == old(r).(si := Add16(old(r).si, inc), di := Add16(old(r).di, inc),
                          halted := old(r).halted || OriginOf(old(r)) == Nowhere)
      ensures mem[..] == Put(old(mem[..]), r.es, old(r).di, Read(old(mem[..]), OriginOf(old(r)), old(r).si, word), word)
    {
      var v := FetchData(r.si, word);
      StoreAbs(r.es, r.di, v, word);
      r := r.(si := Add16(r.si, inc), di := Add16(r.di, inc));
    }

    /** The elements moved: CX of them with a repeat prefix, otherwise one. */
    method MoveElements(word: bool, inc: int)
      requires Valid()
      modifies this, mem
      ensures var n, q := Times(old(r)), old(r);
              && mem[..] == Moved(old(mem[..]), OriginOf(q), q.es, q.si, q.di, inc, word, n)
              && r == Unrepeated(q).(si := Advance(q.si, inc, n), di := Advance(q.di, inc, n),
                       halted := q.halted || (n > 0 && OriginOf(q) == Nowhere))
    {
      hide Put, Elem, Read, OriginOf, Select, Add16, Moved, Advance;
      ghost var q := r;
      MoveStarts(mem[..], OriginOf(q), q.es, q.si, q.di, inc, word);
      if Repe in r.mode || Repne in r.mode {
        ghost var i := 0;
        while r.cx != 0
          invariant i + r.cx == q.cx && Valid()
          invariant r == q.(cx := r.cx, si := Advance(q.si, inc, i), di := Advance(q.di, inc, i),
                        halted := q.halted || (i > 0 && OriginOf(q) == Nowhere))
          invariant mem[..] == Moved(old(mem[..]), OriginOf(q), q.es, q.si, q.di, inc, word, i)
          decreases r.cx
        {
          SameOrigin(q, r);
          MoveNext(old(mem[..]), OriginOf(q), q.es, q.si, q.di, inc, word, i);
          MoveOne(word, inc);
          r := r.(cx := r.cx - 1);
          i := i + 1;
        }
        r := r.(mode := r.mode - {Repe, Repne});
      } else {
        MoveNext(mem[..], OriginOf(q), q.es, q.si, q.di, inc, word, 0);
        MoveOne(word, inc);
      }
    }

    /** movs_byte and movs_word: with a repeat prefix CX elements, otherwise one. */
    method Movs(word: bool)
      requires Valid()
      modifies this, mem
      ensures var n, inc, q := Times(old(r)), StepOf(flags.flg, word), old(r);
              && n == (if Repe in q.mode || Repne in q.mode then q.cx else 1)
              && r.cx == (if Repe in q.mode || Repne in q.mode then 0 else q.cx)
              && r.si == (q.si + (if flags.flg[DF] then -1 else 1) * (if word then 2 * n else n)) % 65536
              && r.di == (q.di + (if flags.flg[DF] then -1 else 1) * (if word then 2 * n else n)) % 65536
              && (Extent(word, n) <= 65536 ==>
                    MovedAll(old(mem[..]), mem[..], OriginOf(q), q.es, q.si, q.di, flags.flg[DF], word, n))
      ensures var n, inc, q := Times(old(r)), StepOf(flags.flg, word), old(r);
              && mem[..] == Moved(old(mem[..]), OriginOf(q), q.es, q.si, q.di, inc, word, n)
              && r == AfterEnd(Unrepeated(q).(si := Advance(q.si, inc, n), di := Advance(q.di, inc, n),
                                halted := q.halted || (n > 0 && OriginOf(q) == Nowhere)))
      ensures r.mode == After(old(r).mode, CopyEnd)
    {
      hide Moved, Advance, OriginOf, StepOf, MovedAll;
      var inc := Increment(word);
      ghost var q, n := r, Times(r);
      MoveElements(word, inc);
      EndOfInstr();
      StepsAre(q.si, flags.flg, word, n);
      StepsAre(q.di, flags.flg, word, n);
      if Extent(word, n) <= 65536 {
        MovsAll(old(mem[..]), OriginOf(q), q.es, q.si, q.di, flags.flg, word, n);
      }
    }

    method StoreElements(word: bool, inc: int)
      requires Valid()
      modifies this, mem
      ensures var n, q := Times(old(r)), old(r);
              && mem[..] == FilledWith(old(mem[..]), q.es, q.di, Accumulator(q.ax, word), inc, word, n)
              && r == Unrepeated(q).(di := Advance(q.di, inc, n))
    {
      hide Put, Add16, Accumulator, FilledWith, Advance;
      ghost var q := r;
      var v := Accumulator(r.ax, word);
      FillStarts(mem[..], q.es, q.di, v, inc, word);
      if Repe in r.mode || Repne in r.mode {
        ghost var i := 0;
        while r.cx != 0
          invariant i + r.cx == q.cx && Valid()
          invariant r == q.(cx := r.cx, di := Advance(q.di, inc, i))
          invariant mem[..] == FilledWith(old(mem[..]), q.es, q.di, v, inc, word, i)
          decreases r.cx
        {
          FillNext(old(mem[..]), q.es, q.di, v, inc, word, i);
          StoreAbs(r.es, r.di, v, word);
          r := r.(cx := r.cx - 1, di := Add16(r.di, inc));
          i := i + 1;
        }
        r := r.(mode := r.mode - {Repe, Repne});
      } else {
        FillNext(mem[..], q.es, q.di, v, inc, word, 0);
        StoreAbs(r.es, r.di, v, word);
        r := r.(di := Add16(r.di, inc));
      }
    }

    /** stos_byte and stos_word */
    method Stos(word: bool)
      requires Valid() && (word ==> Data !in r.mode)
      modifies this, mem
      ensures var n, q := Times(old(r)), old(r);
              && n == (if Repe in q.mode || Repne in q.mode then q.cx else 1)
              && r.cx == (if Repe in q.mode || Repne in q.mode then 0 else q.cx)
              && r.di == (q.di + (if flags.flg[DF] then -1 else 1) * (if word then 2 * n else n)) % 65536
              && StoredAll(old(mem[..]), mem[..], q.es, q.di, q.ax, flags.flg[DF], word, n)
      ensures var n, inc, v := Times(old(r)), StepOf(flags.flg, word), Accumulator(old(r).ax, word);
              && mem[..] == FilledWith(old(mem[..]), old(r).es, old(r).di, v, inc, word, n)
              && r == AfterEnd(Unrepeated(old(r)).(di := Advance(old(r).di, inc, n)))
      ensures r.mode == After(old(r).mode, CopyEnd)
    {
      hide StepOf, StoredAll, FilledWith, Advance, Accumulator;
      var inc := Increment(word);
      ghost var q, n := r, Times(r);
      StoreElements(word, inc);
      EndOfInstr();
      StepsAre(q.di, flags.flg, word, n);
      StosAll(old(mem[..]), q.es, q.di, q.ax, flags.flg, word, n);
    }

    /** Compare one element: of CMPS with SI, of SCAS with AL or AX. */
    method CompareOne(word: bool, inc: int, scan: bool)
      requires Valid()
      modifies this, flags
      ensures Valid() && r == Stepped(old(r), inc, scan)
      ensures flags.OnlyArithmetic(old(flags.flg))
      ensures ComparedNow(flags.flg, mem[..], old(r), word, scan)
      ensures flags.flg[ZF] == (Left(mem[..], old(r), word, scan) == Right(mem[..], old(r), word))
    {
      hide SubFlags, Num, Signed, Elem;
      var v1 := Accumulator(r.ax, word);
      if !scan {
        v1 := FetchData(r.si, word);
      }
      var v2 := FetchAbs(r.es, r.di, word);
      var d, s := ElemBits(v1, word), ElemBits(v2, word);
      var _ := flags.Cmp(d, s);
      CmpThenJump(flags.flg, d, s, Z);
      ElemBitsSame(v1, v2, word);
      if !scan {
        r := r.(si := Add16(r.si, inc));
      }
      r := r.(di := Add16(r.di, inc));
    }

    /** The loop of the repeated comparisons: compare until ZF is `until`, or CX is 0. */
    method CompareRepeat(word: bool, inc: int, scan: bool, until: bool) returns (ghost k: nat)
      requires Valid()
      modifies this, flags
      ensures Valid() && flags.OnlyArithmetic(old(flags.flg))
      ensures k <= old(r).cx && r == StepsOn(old(r), inc, scan, k)
      ensures forall i :: 0 <= i < k - 1 ==> Agree(mem[..], old(r), inc, word, scan, i) != until
      ensures k < old(r).cx ==> k > 0 && Agree(mem[..], old(r), inc, word, scan, k - 1) == until
      ensures k == 0 ==> flags.flg == old(flags.flg)
      ensures k > 0 ==> flags.flg[ZF] == Agree(mem[..], old(r), inc, word, scan, k - 1)
      ensures k > 0 ==> Compared(flags.flg, mem[..], old(r), inc, word, scan, k - 1)
    {
      hide Left, Right, Agree, SubFlags, Compared, Stops;
      ghost var q := r;
      k := 0;
      StepsZero(q, inc, scan);
      while r.cx != 0
        invariant Valid() && k + r.cx == q.cx && flags.OnlyArithmetic(old(flags.flg))
        invariant r == StepsOn(q, inc, scan, k)
        invariant forall i :: 0 <= i < k ==> Agree(mem[..], q, inc, word, scan, i) != until
        invariant k == 0 ==> flags.flg == old(flags.flg)
        invariant k > 0 ==> flags.flg[ZF] == Agree(mem[..], q, inc, word, scan, k - 1)
        invariant k > 0 ==> Compared(flags.flg, mem[..], q, inc, word, scan, k - 1)
        decreases r.cx
      {
        StepsNext(mem[..], q, inc, word, scan, k);
        CompareOne(word, inc, scan);
        r := r.(cx := r.cx - 1);
        k := k + 1;
        if flags.flg[ZF] == until {
          break;
        }
      }
    }

    /** The elements compared: with REPE until two differ, with REPNE until two agree, in either case until
        CX is 0; otherwise one. */
    method CompareElements(word: bool, inc: int, scan: bool) returns (ghost k: nat)
      requires Valid()
      modifies this, flags
      ensures Valid() && flags.OnlyArithmetic(old(flags.flg))
      ensures var q := old(r);
              && r == StepsDone(q, inc, scan, k)
              && (Repeating(q) ==> k <= q.cx)
              && (forall i :: 0 <= i < k - 1 ==> Agree(mem[..], q, inc, word, scan, i) == (Repe in q.mode))
              && (Repeating(q) && k < q.cx ==> k > 0 && Agree(mem[..], q, inc, word, scan, k - 1) == (Repe !in q.mode))
              && (!Repeating(q) ==> k == 1)
              && (k == 0 ==> flags.flg == old(flags.flg))
              && (k > 0 ==> flags.flg[ZF] == Agree(mem[..], q, inc, word, scan, k - 1))
              && (k > 0 ==> Compared(flags.flg, mem[..], q, inc, word, scan, k - 1))
    {
      hide Left, Right, SubFlags, Compared, Stops;
      ghost var q := r;
      if Repe in r.mode {
        k := CompareRepeat(word, inc, scan, false);
        r := r.(mode := r.mode - {Repe});
      } else if Repne in r.mode {
        k := CompareRepeat(word, inc, scan, true);
        r := r.(mode := r.mode - {Repne});
      } else {
        StepsNext(mem[..], q, inc, word, scan, 0);
        CompareOne(word, inc, scan);
        k := 1;
        OneStepOn(q, inc, scan);
      }
    }

    /** cmps_byte, cmps_word, scas_byte, scas_word: k elements have been compared. */
    method Compare(word: bool, scan: bool) returns (ghost k: nat)
      requires Valid() && (word && scan ==> Data !in r.mode)
      modifies this, flags
      ensures Valid() && flags.OnlyArithmetic(old(flags.flg))
      ensures var down, q := old(flags.flg)[DF], old(r);
              && r.cx == (if Repe in q.mode || Repne in q.mode then q.cx - k else q.cx)
              && r.halted == (q.halted || (!scan && k > 0 && OriginOf(q) == Nowhere))
              && (!scan ==> r.si == (q.si + (if down then -1 else 1) * (if word then 2 * k else k)) % 65536)
              && r.di == (q.di + (if down then -1 else 1) * (if word then 2 * k else k)) % 65536
              && (k > 0 ==>
                    var left := LeftValue(mem[..], q, down, word, scan, k - 1);
                    var right := RightValue(mem[..], q, down, word, k - 1);
                    flags.flg[ZF] == (left == right) && flags.flg[CF] == (left < right))
      ensures var inc, q := StepOf(old(flags.flg), word), old(r);
              && r == AfterEnd(StepsDone(q, inc, scan, k))
              && (Repeating(q) ==> k <= q.cx)
              && (forall i :: 0 <= i < k - 1 ==> Agree(mem[..], q, inc, word, scan, i) == (Repe in q.mode))
              && (Repeating(q) && k < q.cx ==> k > 0 && Agree(mem[..], q, inc, word, scan, k - 1) == (Repe !in q.mode))
              && (!Repeating(q) ==> k == 1)
              && (k == 0 ==> flags.flg == old(flags.flg))
              && (k > 0 ==> flags.flg[ZF] == Agree(mem[..], q, inc, word, scan, k - 1))
              && (k > 0 ==> Compared(flags.flg, mem[..], q, inc, word, scan, k - 1))
      ensures r.mode == After(old(r).mode, CompareEnd)
    {
      hide Compared, Agree, StepOf, LeftValue, RightValue, Advance;
      var inc := Increment(word);
      ghost var q := r;
      k := CompareElements(word, inc, scan);
      EndOfInstr();
      IndexAfter(q, old(flags.flg), word, scan, k);
      if k > 0 {
        LastCompared(flags.flg, mem[..], q, old(flags.flg), word, scan, k - 1);
      }
    }

    /** A near and a far call and their returns leave CS, IP, SP and the rest as they were. */
    method CallsReturn(target: u16, seg: u16, ghost ws: seq<u16>)
      requires Stack(ws) && |ws| + 2 <= 32768
      modifies this, mem
      ensures r == AfterEnd(old(r)) && Stack(ws)
    {
      hide OnStack, Add16;
      Add16Back(r.sp, 2);
      Add16Back(r.sp, 4);
      ghost var near, far := [r.ip] + ws, [r.ip, r.cs] + ws;
      assert near[1..] == ws && far[2..] == ws;
      CallNear(target, ws);
      RetNear(near);
      CallFar(seg, target, ws);
      RetFar(far);
      EndedTwice(old(r));
    }

    /** So do an interrupt and its return, and of the flags the low 16 bits. */
    method IntReturns(n: byte, ghost ws: seq<u16>)
      requires Stack(ws) && |ws| + 3 <= 32768
      requires WordAt(mem[..], 4 * n as int + 2) != 0xfff0
      modifies this, mem, flags
      ensures r == AfterEnd(old(r)) && Stack(ws)
      ensures FlagsWord(flags.flg) == FlagsWord(old(flags.flg))
    {
      hide OnStack, FlagsWord, FlagsFrom, WordAt, Add16;
      Add16Back(r.sp, 6);
      ghost var all := [r.ip, r.cs, FlagsWord(flags.flg)] + ws;
      assert all[3..] == ws;
      ghost var _ := Int(n, ws);
      Iret(all);
      EndedTwice(old(r));
    }
  }

  /** The words PUSHA leaves, the last pushed first. */
  function All(r: Regs): seq<u16> {
    [r.di, r.si, r.bp, r.sp, r.bx, r.dx, r.cx, r.ax]
  }
}
