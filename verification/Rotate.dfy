/** Rotation through the carry flag (video/x86/x86_prim_ops.c:635-762, 788-950). The source makes
    the rotated word in one go from shifts and masks; here that equals as many one-bit rotations
    of the ring made of the operand and CF. */
module Rotate {
  import opened Alu

  /*-- Shifts and masks -------------------------------------------------------*/

  /** (d << n), cut to the width of d */
  function ShiftLeft(d: Word, n: nat): (r: Word)
    ensures |r| == |d| && forall i :: 0 <= i < |d| ==> r[i] == (i >= n && d[i - n])
  {
    seq(|d|, i requires 0 <= i < |d| => i >= n && d[i - n])
  }

  function ShiftRight(d: Word, n: nat): (r: Word)
    ensures |r| == |d| && forall i :: 0 <= i < |d| ==> r[i] == (i + n < |d| && d[i + n])
  {
    seq(|d|, i requires 0 <= i < |d| => i + n < |d| && d[i + n])
  }

  /** (1 << k) - 1, at width w */
  function LowMask(w: nat, k: nat): (r: Word)
    ensures |r| == w && forall i :: 0 <= i < w ==> r[i] == (i < k)
  {
    seq(w, i => i < k)
  }

  /** 1 << k, at width w */
  function OneAt(w: nat, k: nat): (r: Word)
    ensures |r| == w && forall i :: 0 <= i < w ==> r[i] == (i == k)
  {
    seq(w, i => i == k)
  }

  /*-- The ring ---------------------------------------------------------------*/

  /** The ring turned by one bit, upwards: the top element comes back in at the bottom. */
  function UpOnce(y: Word): (r: Word)
    requires |y| > 0
    ensures |r| == |y|
  {
    [y[|y| - 1]] + y[..|y| - 1]
  }

  function DownOnce(y: Word): (r: Word)
    requires |y| > 0
    ensures |r| == |y|
  {
    y[1..] + [y[0]]
  }

  /** n rotations of the ring by one bit. */
  function Up(x: Word, n: nat): (r: Word)
    requires |x| > 0
    ensures |r| == |x|
  {
    if n == 0 then x else UpOnce(Up(x, n - 1))
  }

  function Down(x: Word, n: nat): (r: Word)
    requires |x| > 0
    ensures |r| == |x|
  {
    if n == 0 then x else DownOnce(Down(x, n - 1))
  }

  lemma {:induction false} UpSlice(x: Word, n: nat)
    requires |x| > 0 && n <= |x|
    ensures Up(x, n) == x[|x| - n..] + x[..|x| - n]
  {
    if n > 0 {
      UpSlice(x, n - 1);
      hide UpOnce;
      TurnSlice(x, |x| - n, Up(x, n - 1));
    }
  }

  lemma TurnSlice(x: Word, k: nat, y: Word)
    requires k < |x| && y == x[k + 1..] + x[..k + 1]
    ensures UpOnce(y) == x[k..] + x[..k]
  {
    assert y[|y| - 1] == x[k];
    assert y[..|y| - 1] == x[k + 1..] + x[..k];
  }

  lemma {:induction false} DownSlice(x: Word, n: nat)
    requires |x| > 0 && n <= |x|
    ensures Down(x, n) == x[n..] + x[..n]
  {
    if n > 0 {
      DownSlice(x, n - 1);
    }
  }

  lemma {:induction false} UpAdd(x: Word, a: nat, b: nat)
    requires |x| > 0
    ensures Up(Up(x, a), b) == Up(x, a + b)
  {
    if b > 0 {
      UpAdd(x, a, b - 1);
    }
  }

  lemma {:induction false} DownAdd(x: Word, a: nat, b: nat)
    requires |x| > 0
    ensures Down(Down(x, a), b) == Down(x, a + b)
  {
    if b > 0 {
      DownAdd(x, a, b - 1);
    }
  }

  /** The source's count: modulo one more than the width. */
  function Turns(s: nat, w: nat): nat
    requires w == 8 || w == 16
  {
    if w == 8 then s % 9 else s % 17
  }

  lemma FullTurn(x: Word)
    requires |x| > 0
    ensures Up(x, |x|) == x && Down(x, |x|) == x
  {
    UpSlice(x, |x|);
    DownSlice(x, |x|);
  }

  lemma CountSmall(n: nat, w: nat)
    requires (w == 8 || w == 16) && n <= w
    ensures Turns(n, w) == n
  {
  }

  lemma CountBack(n: nat, w: nat)
    requires (w == 8 || w == 16) && n > w
    ensures Turns(n, w) == Turns(n - (w + 1), w)
  {
    if w == 8 {
      assert n % 9 == (n - 9) % 9;
    } else {
      assert n % 17 == (n - 17) % 17;
    }
  }

  /** Whole turns of the ring change nothing. */
  lemma {:induction false} UpMod(x: Word, n: nat)
    requires |x| == 9 || |x| == 17
    ensures Up(x, n) == Up(x, Turns(n, |x| - 1))
    decreases n
  {
    hide Up, Turns;
    if n < |x| {
      CountSmall(n, |x| - 1);
    } else {
      CountBack(n, |x| - 1);
      UpAdd(x, |x|, n - |x|);
      FullTurn(x);
      UpMod(x, n - |x|);
    }
  }

  lemma {:induction false} DownMod(x: Word, n: nat)
    requires |x| == 9 || |x| == 17
    ensures Down(x, n) == Down(x, Turns(n, |x| - 1))
    decreases n
  {
    hide Down, Turns;
    if n < |x| {
      CountSmall(n, |x| - 1);
    } else {
      CountBack(n, |x| - 1);
      DownAdd(x, |x|, n - |x|);
      FullTurn(x);
      DownMod(x, n - |x|);
    }
  }

  lemma NoTurn(x: Word)
    requires |x| > 0
    ensures Up(x, 0) == x && Down(x, 0) == x
  {
  }

  lemma OneUpDown(x: Word)
    requires |x| > 0
    ensures Down(Up(x, 1), 1) == x && Up(Down(x, 1), 1) == x
  {
    hide Up, Down, UpOnce, DownOnce;
    OneTurn(x);
    OneTurn(UpOnce(x));
    OneTurn(DownOnce(x));
    TurnBack(x);
  }

  lemma TurnBack(x: Word)
    requires |x| > 0
    ensures DownOnce(UpOnce(x)) == x && UpOnce(DownOnce(x)) == x
  {
    var n, u, d := |x|, UpOnce(x), DownOnce(x);
    forall i | 0 <= i < n ensures DownOnce(u)[i] == x[i] {
      assert i < n - 1 ==> DownOnce(u)[i] == u[i + 1];
    }
    forall i | 0 <= i < n ensures UpOnce(d)[i] == x[i] {
      assert i > 0 ==> UpOnce(d)[i] == d[i - 1];
    }
  }

  lemma OneTurn(x: Word)
    requires |x| > 0
    ensures Up(x, 1) == UpOnce(x) && Down(x, 1) == DownOnce(x)
  {
    NoTurn(x);
  }

  lemma {:induction false} UpThenDown(x: Word, n: nat)
    requires |x| > 0
    ensures Down(Up(x, n), n) == x
    decreases n
  {
    NoTurn(x);
    hide Up, Down;
    if n > 0 {
      var y := Up(x, n - 1);
      UpThenDown(x, n - 1);
      OneUpDown(y);
      UpAdd(x, n - 1, 1);
      DownAdd(Up(y, 1), 1, n - 1);
    }
  }

  lemma {:induction false} DownThenUp(x: Word, n: nat)
    requires |x| > 0
    ensures Up(Down(x, n), n) == x
    decreases n
  {
    NoTurn(x);
    hide Up, Down;
    if n > 0 {
      var y := Down(x, n - 1);
      DownThenUp(x, n - 1);
      OneUpDown(y);
      DownAdd(x, n - 1, 1);
      UpAdd(Down(y, 1), 1, n - 1);
    }
  }

  /** Rotating back undoes rotating, for every count. */
  lemma UpDown(x: Word, n: nat)
    requires |x| > 0
    ensures Down(Up(x, n), n) == x && Up(Down(x, n), n) == x
  {
    UpThenDown(x, n);
    DownThenUp(x, n);
  }

  /*-- RCL and RCR ------------------------------------------------------------*/

  /** The word RCL makes for a count from 1 to the width. */
  function RclWord(d: Word, cf: bool, cnt: nat): (r: Word)
    requires 1 <= cnt <= |d|
    ensures |r| == |d|
  {
    var w := |d|;
    var res := Or(ShiftLeft(d, cnt), And(ShiftRight(d, w + 1 - cnt), LowMask(w, cnt - 1)));
    if cf then Or(res, OneAt(w, cnt - 1)) else res
  }

  function RcrWord(d: Word, cf: bool, cnt: nat): (r: Word)
    requires 1 <= cnt <= |d|
    ensures |r| == |d|
  {
    var w := |d|;
    var res := Or(And(ShiftRight(d, cnt), LowMask(w, w - cnt)), ShiftLeft(d, w + 1 - cnt));
    if cf then Or(res, OneAt(w, w - cnt)) else res
  }

  lemma RclParts(d: Word, cf: bool, cnt: nat)
    requires 1 <= cnt <= |d|
    ensures RclWord(d, cf, cnt) == d[|d| + 1 - cnt..] + [cf] + d[..|d| - cnt]
  {
    var w := |d|;
    var r, low, high := RclWord(d, cf, cnt), d[w + 1 - cnt..], d[..w - cnt];
    forall i | 0 <= i < w ensures r[i] == (low + [cf] + high)[i] {
      if i < cnt - 1 {
        assert r[i] == d[i + (w + 1 - cnt)] == low[i];
      } else if i == cnt - 1 {
        assert r[i] == cf;
      } else {
        assert r[i] == d[i - cnt] == high[i - cnt];
      }
    }
  }

  lemma RcrParts(d: Word, cf: bool, cnt: nat)
    requires 1 <= cnt <= |d|
    ensures RcrWord(d, cf, cnt) == d[cnt..] + [cf] + d[..cnt - 1]
  {
    var w := |d|;
    var r, low, high := RcrWord(d, cf, cnt), d[cnt..], d[..cnt - 1];
    forall i | 0 <= i < w ensures r[i] == (low + [cf] + high)[i] {
      if i < w - cnt {
        assert r[i] == d[i + cnt] == low[i];
      } else if i == w - cnt {
        assert r[i] == cf;
      } else {
        assert r[i] == d[i - (w + 1 - cnt)] == high[i - (w + 1 - cnt)];
      }
    }
  }

  lemma RclIsUp(d: Word, cf: bool, cnt: nat)
    requires 1 <= cnt <= |d|
    ensures RclWord(d, cf, cnt) + [d[|d| - cnt]] == Up(d + [cf], cnt)
  {
    hide RclWord;
    var w, x := |d|, d + [cf];
    RclParts(d, cf, cnt);
    UpSlice(x, cnt);
    assert x[w + 1 - cnt..] == d[w + 1 - cnt..] + [cf];
    assert x[..w + 1 - cnt] == d[..w - cnt] + [d[w - cnt]];
  }

  lemma RcrIsDown(d: Word, cf: bool, cnt: nat)
    requires 1 <= cnt <= |d|
    ensures RcrWord(d, cf, cnt) + [d[cnt - 1]] == Down(d + [cf], cnt)
  {
    hide RcrWord;
    var x := d + [cf];
    RcrParts(d, cf, cnt);
    DownSlice(x, cnt);
    assert x[cnt..] == d[cnt..] + [cf];
    assert x[..cnt] == d[..cnt - 1] + [d[cnt - 1]];
  }

  /** rcl_byte and rcl_word */
  method Rcl(f: Flags, d: Word, s: nat) returns (r: Word)
    requires f.Valid() && (|d| == 8 || |d| == 16)
    modifies f
    ensures f.Valid() && |r| == |d|
    ensures r + [f.flg[CF]] == Up(d + [old(f.flg)[CF]], s)
    ensures f.flg == old(f.flg)[CF := f.flg[CF]][OF := f.flg[OF]]
    ensures Turns(s, |d|) == 0 ==> f.flg == old(f.flg)
    ensures Turns(s, |d|) != 0 ==> f.flg[OF] == (Turns(s, |d|) == 1 && f.flg[CF] != r[|d| - 1])
  {
    var w, cf := |d|, f.flg[CF];
    r := d;
    UpMod(d + [cf], s);
    var cnt := Turns(s, w);
    if cnt != 0 {
      RclIsUp(d, cf, cnt);
      r := RclWord(d, cf, cnt);
      var out := d[w - cnt];
      f.Set(out, CF);
      f.Set(cnt == 1 && out != r[w - 1], OF);
    }
  }

  /** rcr_byte and rcr_word */
  method Rcr(f: Flags, d: Word, s: nat) returns (r: Word)
    requires f.Valid() && (|d| == 8 || |d| == 16)
    modifies f
    ensures f.Valid() && |r| == |d|
    ensures r + [f.flg[CF]] == Down(d + [old(f.flg)[CF]], s)
    ensures f.flg == old(f.flg)[CF := f.flg[CF]][OF := f.flg[OF]]
    ensures f.flg[OF] == if Turns(s, |d|) == 1 then old(f.flg)[CF] != d[|d| - 1] else old(f.flg)[OF]
  {
    var w, cf := |d|, f.flg[CF];
    r := d;
    DownMod(d + [cf], s);
    var cnt := Turns(s, w);
    if cnt != 0 {
      RcrIsDown(d, cf, cnt);
      r := RcrWord(d, cf, cnt);
      f.Set(d[cnt - 1], CF);
      if cnt == 1 {
        f.Set(cf != d[w - 1], OF);
      }
    }
  }
}
