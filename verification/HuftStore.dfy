/** Tables in memory: the allocator, the list that `huft_free` walks, and the two ways
    `huft_build` writes into tables (zip/inflate.c:254-275, 293-296, 321-338). */
module HuftStore {
  import opened Bits
  import opened HuftTables

  /** The memory kmalloc hands out, block by block. A read or write needs the block to be there,
      so using a block after it was freed, or freeing it twice, is an error. */
  class Arena {
    var mem: map<Tab, seq<Huft>>

    constructor ()
      ensures mem == map[]
    {
      mem := map[];
    }

    /** A new block holding whatever was there before. */
    method Kmalloc(n: nat) returns (a: Tab)
      modifies this
      ensures a != NULL && a !in old(mem) && a in mem && |mem[a]| == n
      ensures mem == old(mem)[a := mem[a]]
    {
      FreshAddress(mem.Keys);
      assert exists x :: x != NULL && x !in mem;
      a :| a != NULL && a !in mem;
      var junk := new Huft[n];
      mem := mem[a := junk[..]];
    }

    method Free(a: Tab)
      requires a in mem
      modifies this
      ensures mem == old(mem) - {a}
    {
      mem := mem - {a};
    }

    /** a[i] = ent */
    method Put(a: Tab, i: nat, ent: Huft)
      requires a in mem && i < |mem[a]|
      modifies this
      ensures mem == old(mem)[a := old(mem)[a][i := ent]]
    {
      mem := mem[a := mem[a][i := ent]];
    }
  }

  lemma FreshAddress(used: set<nat>)
    ensures exists a: Tab :: a != NULL && a !in used
  {
    var a := AboveAll(used);
    assert a != NULL && a !in used;
  }

  lemma {:induction false} AboveAll(used: set<nat>) returns (a: nat)
    ensures a > 0 && forall x :: x in used ==> x < a
  {
    if used == {} {
      a := 1;
    } else {
      var x :| x in used;
      a := AboveAll(used - {x});
      a := if a <= x then x + 1 else a;
      assert used == (used - {x}) + {x};
    }
  }

  ghost function Next(chain: seq<Tab>, j: nat): Tab
    requires j < |chain|
  {
    if j + 1 < |chain| then chain[j + 1] else NULL
  }

  ghost function Last(chain: seq<Tab>): Tab {
    if chain == [] then NULL else chain[|chain| - 1]
  }

  ghost function First(chain: seq<Tab>): Tab {
    if chain == [] then NULL else chain[0]
  }

  /** The j-th block of the list: a dummy entry holding the address of the next, then the
      entries of the j-th table. */
  ghost predicate InPlace(mem: map<Tab, seq<Huft>>, f: Forest, chain: seq<Tab>, j: nat)
    requires j < |chain|
  {
    var T := chain[j];
    && T in mem && T in f.mem && T in f.info && f.info[T].place == j
    && |mem[T]| == |f.mem[T]| + 1 && mem[T][1..] == f.mem[T]
    && mem[T][0].v == Link(Next(chain, j))
  }

  ghost predicate OnList(f: Forest, chain: seq<Tab>, T: Tab) {
    T in f.info && f.info[T].place < |chain| && chain[f.info[T].place] == T
  }

  /** The memory is what it was before the build, M, plus the tables of f, which are the blocks of
      one list, each on it exactly once. */
  ghost predicate InMemory(mem: map<Tab, seq<Huft>>, M: map<Tab, seq<Huft>>, f: Forest, chain: seq<Tab>) {
    && Extends(mem, M, f.mem.Keys)
    && f.mem.Keys == f.info.Keys
    && (forall T {:trigger OnList(f, chain, T)} :: T in f.info ==> OnList(f, chain, T))
    && (forall j {:trigger InPlace(mem, f, chain, j)} :: 0 <= j < |chain| ==> InPlace(mem, f, chain, j))
  }

  ghost predicate Extends(mem: map<Tab, seq<Huft>>, M: map<Tab, seq<Huft>>, tabs: set<Tab>) {
    && NULL !in tabs
    && mem.Keys == M.Keys + tabs && M.Keys !! tabs
    && forall T :: T in M ==> mem[T] == M[T]
  }

  lemma BlockOf(mem: map<Tab, seq<Huft>>, M: map<Tab, seq<Huft>>, f: Forest, chain: seq<Tab>, T: Tab)
    requires InMemory(mem, M, f, chain) && T in f.mem
    ensures T in mem && |mem[T]| == |f.mem[T]| + 1 && mem[T][1..] == f.mem[T]
  {
    assert OnList(f, chain, T);
    assert InPlace(mem, f, chain, f.info[T].place);
  }

  /** Replacing a table's entries, its dummy entry left alone. */
  lemma PutTable(mem: map<Tab, seq<Huft>>, M: map<Tab, seq<Huft>>, f: Forest, chain: seq<Tab>, T: Tab, block: seq<Huft>)
    requires InMemory(mem, M, f, chain) && T in f.mem && T in mem
    requires |block| == |f.mem[T]| + 1 && |mem[T]| >= 1 && block[0] == mem[T][0]
    ensures InMemory(mem[T := block], M, f.(mem := f.mem[T := block[1..]]), chain)
  {
    var mem2, f2 := mem[T := block], f.(mem := f.mem[T := block[1..]]);
    assert f2.mem.Keys == f.mem.Keys && mem2.Keys == mem.Keys;
    assert Extends(mem2, M, f2.mem.Keys);
    forall X | X in f2.info ensures OnList(f2, chain, X) {
      assert OnList(f, chain, X);
    }
    forall j | 0 <= j < |chain| ensures InPlace(mem2, f2, chain, j) {
      assert InPlace(mem, f, chain, j);
    }
  }

  /** Lines 268-275: entry `at` of the table above is made to point to the new one. */
  method Connect(heap: Arena, up: Tab, at: nat, ent: Huft, ghost M: map<Tab, seq<Huft>>, ghost f: Forest,
          ghost chain: seq<Tab>)
    returns (ghost f2: Forest)
    requires InMemory(heap.mem, M, f, chain) && up in f.mem && at < |f.mem[up]|
    modifies heap
    ensures f2 == f.(mem := f.mem[up := f.mem[up][at := ent]])
    ensures InMemory(heap.mem, M, f2, chain)
  {
    BlockOf(heap.mem, M, f, chain, up);
    ghost var block := heap.mem[up][at + 1 := ent];
    PutTable(heap.mem, M, f, chain, up, block);
    assert block[1..] == f.mem[up][at := ent];
    heap.Put(up, at + 1, ent);
    f2 := f.(mem := f.mem[up := f.mem[up][at := ent]]);
  }

  /** Lines 254-264: allocate a table of 2^tb entries and put it at the end of the list. */
  method AddTable(heap: Arena, tail: Tab, ghost M: map<Tab, seq<Huft>>, ghost f: Forest, ghost chain: seq<Tab>,
          tb: nat, ghost ti: TabInfo)
    returns (q: Tab, ghost f2: Forest)
    requires InMemory(heap.mem, M, f, chain) && tail == Last(chain) && ti.place == |chain|
    modifies heap
    ensures q !in f.mem && q in f2.mem && |f2.mem[q]| == Pow2(tb)
    ensures f2.mem == f.mem[q := f2.mem[q]] && f2.info == f.info[q := ti]
    ensures InMemory(heap.mem, M, f2, chain + [q])
  {
    q := heap.Kmalloc(Pow2(tb) + 1);
    f2 := Forest(f.mem[q := heap.mem[q][1..]], f.info[q := ti]);
    if tail != NULL {
      LastBlock(old(heap.mem), M, f, chain);
      heap.Put(tail, 0, heap.mem[tail][0].(v := Link(q)));
    }
    heap.Put(q, 0, heap.mem[q][0].(v := Link(NULL)));
    assert heap.mem[q][1..] == f2.mem[q];
    if chain != [] {
      LastBlock(old(heap.mem), M, f, chain);
      assert heap.mem[tail][1..] == f2.mem[tail];
      assert (chain + [q])[|chain| - 1] == tail;
      assert InPlace(heap.mem, f2, chain + [q], |chain| - 1);
    }
    AddInMemory(old(heap.mem), heap.mem, M, f, f2, chain, q);
  }

  lemma LastBlock(mem: map<Tab, seq<Huft>>, M: map<Tab, seq<Huft>>, f: Forest, chain: seq<Tab>)
    requires InMemory(mem, M, f, chain) && chain != []
    ensures InPlace(mem, f, chain, |chain| - 1) && Last(chain) != NULL
  {
    assert InPlace(mem, f, chain, |chain| - 1);
  }

  lemma AddInMemory(mem: map<Tab, seq<Huft>>, mem2: map<Tab, seq<Huft>>, M: map<Tab, seq<Huft>>, f: Forest,
          f2: Forest, chain: seq<Tab>, q: Tab)
    requires InMemory(mem, M, f, chain) && q !in mem && q != NULL
    requires q in f2.mem && f2.mem == f.mem[q := f2.mem[q]]
    requires q in f2.info && f2.info == f.info[q := f2.info[q]]
    requires mem2.Keys == mem.Keys + {q} && InPlace(mem2, f2, chain + [q], |chain|)
    requires forall T :: T in mem && (chain == [] || T != Last(chain)) ==> mem2[T] == mem[T]
    requires chain != [] ==> Last(chain) in f.mem && InPlace(mem2, f2, chain + [q], |chain| - 1)
    ensures InMemory(mem2, M, f2, chain + [q])
  {
    var n, chain2 := |chain|, chain + [q];
    forall j | 0 <= j < n + 1 ensures InPlace(mem2, f2, chain2, j) {
      if j < n - 1 {
        assert InPlace(mem, f, chain, j) && InPlace(mem, f, chain, n - 1);
      }
    }
    forall T | T in f2.info ensures OnList(f2, chain2, T) {
      if T != q {
        assert OnList(f, chain, T);
      }
    }
  }

  /** Lines 293-296: put r in every step-th entry from j0 on, step being 2^m. */
  method FillEntries(heap: Arena, q: Tab, z: nat, j0: nat, m: nat, r: Huft)
    requires q in heap.mem && |heap.mem[q]| == z + 1 && j0 < Pow2(m)
    modifies heap
    ensures heap.mem.Keys == old(heap.mem).Keys && heap.mem == old(heap.mem)[q := heap.mem[q]]
    ensures |heap.mem[q]| == z + 1 && heap.mem[q][0] == old(heap.mem)[q][0]
    ensures forall n :: 1 <= n <= z ==> heap.mem[q][n] == if Low(n - 1, m) == j0 then r else old(heap.mem)[q][n]
  {
    var f := Pow2(m);
    var j := j0;
    forall n | 0 <= n <= j0 ensures Low(n, m) == n {
      LowSmall(n, m);
    }
    ghost var was := heap.mem;
    while j < z
      invariant Low(j, m) == j0 && j >= j0
      invariant q in heap.mem && heap.mem == was[q := heap.mem[q]]
      invariant |heap.mem[q]| == z + 1 && heap.mem[q][0] == was[q][0]
      invariant forall n :: 1 <= n <= z ==> heap.mem[q][n] == if Low(n - 1, m) == j0 && n - 1 < j then r else was[q][n]
      decreases z - j
    {
      heap.Put(q, j + 1, r);
      LowPeriod(j, m);
      j := j + f;
    }
  }

  lemma {:induction false} LowSmall(x: nat, m: nat)
    requires x < Pow2(m)
    ensures Low(x, m) == x
    decreases m
  {
    if m > 0 {
      LowSmall(x / 2, m - 1);
    }
  }

  /** Values with the same low m bits are 2^m apart. */
  lemma LowPeriod(j: nat, m: nat)
    ensures Low(j + Pow2(m), m) == Low(j, m)
    ensures forall n :: j < n < j + Pow2(m) ==> Low(n, m) != Low(j, m)
  {
    LowShift(j, m);
    forall n | j < n < j + Pow2(m)
      ensures Low(n, m) != Low(j, m)
    {
      ShrShl(j, m);
      ShrShl(n, m);
      if Low(n, m) == Low(j, m) {
        if Shr(j, m) < Shr(n, m) {
          ShlWithin(0, Shr(j, m), Shr(n, m), m);
        } else {
          ShlMono(Shr(n, m), Shr(j, m), m);
        }
      }
    }
  }

  lemma {:induction false} LowShift(j: nat, m: nat)
    ensures Low(j + Pow2(m), m) == Low(j, m)
    decreases m
  {
    if m > 0 {
      assert (j + Pow2(m)) / 2 == j / 2 + Pow2(m - 1);
      LowShift(j / 2, m - 1);
    }
  }

  ghost function Elements(chain: seq<Tab>): set<Tab> {
    set T | T in chain
  }

  /** huft_free: every table of the list is freed, once. */
  method HuftFree(heap: Arena, t: Tab, ghost M: map<Tab, seq<Huft>>, ghost f: Forest, ghost chain: seq<Tab>)
    requires InMemory(heap.mem, M, f, chain) && t == First(chain)
    modifies heap
    ensures heap.mem == M
  {
    var p := t;
    ghost var n := 0;
    NoneNull(heap.mem, M, f, chain);
    while p != NULL
      invariant n <= |chain| && p == if n < |chain| then chain[n] else NULL
      invariant n < |chain| ==> p != NULL
      invariant heap.mem == old(heap.mem) - Elements(chain[..n])
      decreases |chain| - n
    {
      FreeStep(old(heap.mem), M, f, chain, n);
      var q := heap.mem[p][0].v.t;
      heap.Free(p);
      p := q;
      n := n + 1;
    }
    assert chain[..n] == chain;
    AllListed(old(heap.mem), M, f, chain);
  }

  lemma NoneNull(mem: map<Tab, seq<Huft>>, M: map<Tab, seq<Huft>>, f: Forest, chain: seq<Tab>)
    requires InMemory(mem, M, f, chain)
    ensures forall j :: 0 <= j < |chain| ==> chain[j] != NULL
  {
    forall j | 0 <= j < |chain| ensures chain[j] != NULL {
      assert InPlace(mem, f, chain, j);
    }
  }

  lemma FreeStep(mem: map<Tab, seq<Huft>>, M: map<Tab, seq<Huft>>, f: Forest, chain: seq<Tab>, n: nat)
    requires InMemory(mem, M, f, chain) && n < |chain|
    ensures var now := mem - Elements(chain[..n]);
            && chain[n] in now && |now[chain[n]]| >= 1 && now[chain[n]][0].v == Link(Next(chain, n))
            && now - {chain[n]} == mem - Elements(chain[..n + 1])
  {
    assert InPlace(mem, f, chain, n);
    forall i | 0 <= i < n ensures chain[i] != chain[n] {
      assert InPlace(mem, f, chain, i);
    }
    assert chain[..n + 1] == chain[..n] + [chain[n]];
    assert Elements(chain[..n + 1]) == Elements(chain[..n]) + {chain[n]};
  }

  lemma AllListed(mem: map<Tab, seq<Huft>>, M: map<Tab, seq<Huft>>, f: Forest, chain: seq<Tab>)
    requires InMemory(mem, M, f, chain)
    ensures Elements(chain) == f.mem.Keys
  {
    forall T | T in f.info ensures T in chain {
      assert OnList(f, chain, T);
    }
    forall T | T in chain ensures T in f.mem {
      var i :| 0 <= i < |chain| && chain[i] == T;
      assert InPlace(mem, f, chain, i);
    }
  }
}
