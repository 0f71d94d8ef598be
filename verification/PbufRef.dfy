/** Reference counts of core/pbuf.c: who keeps a pbuf alive, and which pbufs each operation gives back. */
module PbufRef {
  import opened Words
  import opened PbufMemory

  // ---------- the balance of references ----------

  ghost function PredSet(m: Mem, a: Addr): set<Addr> {
    set q | q in m && m[q].next == a
  }

  /** The number of pbufs whose `next` is a. */
  ghost function Preds(m: Mem, a: Addr): nat {
    |PredSet(m, a)|
  }

  /** One external reference to a, none to NULL. */
  ghost function Token(a: Addr): multiset<Addr> {
    if a == NULL then multiset{} else multiset{a}
  }

  /** a's `ref` counts its holders outside the memory and its predecessors inside it, is not zero,
    * and a's own link does not dangle. */
  ghost predicate Counted(m: Mem, holders: multiset<Addr>, a: Addr)
    requires a in m
  {
    m[a].ref > 0 && m[a].ref == holders[a] + Preds(m, a) && (m[a].next == NULL || m[a].next in m)
  }

  ghost predicate Balanced(m: Mem, holders: multiset<Addr>) {
    && NULL !in m
    && (forall a | a in holders :: a in m)
    && (forall a {:trigger Counted(m, holders, a)} | a in m :: Counted(m, holders, a))
  }

  lemma {:induction false} PredsUpdate(m: Mem, p: Addr, x: Pbuf, a: Addr)
    requires p in m
    ensures Preds(m[p := x], a) ==
            Preds(m, a) - (if m[p].next == a then 1 else 0) + (if x.next == a then 1 else 0)
  {
    var n, rest := m[p := x], PredSet(m, a) - {p};
    if x.next == a {
      assert PredSet(n, a) == rest + {p};
    } else {
      assert PredSet(n, a) == rest;
    }
    if m[p].next == a {
      assert PredSet(m, a) == rest + {p};
    } else {
      assert PredSet(m, a) == rest;
    }
  }

  lemma {:induction false} PredsRemove(m: Mem, p: Addr, a: Addr)
    requires p in m
    ensures Preds(m - {p}, a) == Preds(m, a) - if m[p].next == a then 1 else 0
  {
    assert PredSet(m - {p}, a) == PredSet(m, a) - {p};
  }

  /** Moving p's link hands the reference on the old successor to the holders and takes one of
    * theirs on the new successor. */
  lemma {:induction false} BalancedRelink(m: Mem, holders: multiset<Addr>, p: Addr, x: Pbuf)
    requires Balanced(m, holders) && p in m && x.ref == m[p].ref
    requires Token(x.next) <= holders
    ensures Balanced(m[p := x], holders - Token(x.next) + Token(m[p].next))
  {
    var n, h := m[p := x], holders - Token(x.next) + Token(m[p].next);
    assert x.next != NULL ==> x.next in holders;
    assert Counted(m, holders, p);
    forall a | a in n ensures Counted(n, h, a) {
      assert Counted(m, holders, a);
      PredsUpdate(m, p, x, a);
    }
  }

  lemma {:induction false} BalancedSame(m: Mem, n: Mem, holders: multiset<Addr>)
    requires Balanced(m, holders) && m.Keys == n.Keys
    requires forall a | a in m :: n[a].next == m[a].next && n[a].ref == m[a].ref
    ensures Balanced(n, holders)
  {
    forall a | a in n ensures Counted(n, holders, a) {
      assert Counted(m, holders, a);
      assert PredSet(m, a) == PredSet(n, a);
    }
  }

  lemma {:induction false} BalancedDrop(m: Mem, holders: multiset<Addr>, p: Addr)
    requires Balanced(m, holders) && p in holders && m[p].ref > 1
    ensures Balanced(m[p := m[p].(ref := m[p].ref - 1)], holders - multiset{p})
  {
    var n := m[p := m[p].(ref := m[p].ref - 1)];
    forall a | a in n ensures Counted(n, holders - multiset{p}, a) {
      assert Counted(m, holders, a);
      PredsUpdate(m, p, n[p], a);
    }
  }

  lemma {:induction false} BalancedRemove(m: Mem, holders: multiset<Addr>, p: Addr)
    requires Balanced(m, holders) && p in holders && m[p].ref == 1
    ensures Balanced(m - {p}, holders - multiset{p} + Token(m[p].next))
  {
    var n, h := m - {p}, holders - multiset{p} + Token(m[p].next);
    assert Counted(m, holders, p);
    assert PredSet(m, p) == {};
    assert p !in PredSet(m, p);
    forall a | a in n ensures Counted(n, h, a) {
      assert Counted(m, holders, a);
      PredsRemove(m, p, a);
      assert a !in PredSet(m, p);
    }
  }

  /** Every pbuf still in memory lies on a chain that starts at some holder: nothing leaks. */
  lemma {:induction false} EveryPbufHeld(m: Mem, holders: multiset<Addr>, a: Addr, c: seq<Addr>)
    requires Balanced(m, holders) && a in m && IsChain(m, a, c)
    ensures exists p, d :: p in holders && IsChain(m, p, d) && a in d
    decreases |m| - |c|
  {
    ChainInMem(m, a, c);
    if a !in holders {
      assert Counted(m, holders, a);
      var q :| q in PredSet(m, a);
      var d := [q] + c;
      assert d[1..] == c && IsChain(m, q, d);
      ChainFits(m, q, d);
      EveryPbufHeld(m, holders, q, d);
      var p, e :| p in holders && IsChain(m, p, e) && q in e;
      var i :| 0 <= i < |e| && e[i] == q;
      ChainSuffix(m, p, e, i);
      ChainUnique(m, q, e[i..], d);
      assert a == e[i..][1];
    }
  }

  lemma {:induction false} ChainFits(m: Mem, p: Addr, c: seq<Addr>)
    requires IsChain(m, p, c)
    ensures |c| <= |m|
  {
    ChainInMem(m, p, c);
    ChainDistinct(m, p, c);
    DistinctSize(c);
    SubsetSize(Elems(c), m.Keys);
  }

  lemma {:induction false} DistinctSize(c: seq<Addr>)
    requires Distinct(c)
    ensures |Elems(c)| == |c|
  {
    if c != [] {
      DistinctSize(c[1..]);
      assert Elems(c) == {c[0]} + Elems(c[1..]);
    }
  }

  lemma {:induction false} SubsetSize(a: set<Addr>, b: set<Addr>)
    requires a <= b
    ensures |a| <= |b|
  {
    if a != {} {
      var x :| x in a;
      SubsetSize(a - {x}, b - {x});
    }
  }

  // ---------- pbuf_free ----------

  ghost predicate Referenced(m: Mem, c: seq<Addr>) {
    forall a | a in c :: a in m && m[a].ref > 0
  }

  /** The length of the run of pbufs at the head of c whose counts are one. */
  ghost function FreeRun(m: Mem, c: seq<Addr>): (k: nat)
    requires InMem(m, c)
    ensures k <= |c|
    ensures forall i | 0 <= i < k :: m[c[i]].ref == 1
    ensures k < |c| ==> m[c[k]].ref != 1
  {
    if c == [] || m[c[0]].ref != 1 then 0 else 1 + FreeRun(m, c[1..])
  }

  /** Giving up one reference on the chain c. */
  ghost function AfterFree(m: Mem, c: seq<Addr>): Mem
    decreases |c|
  {
    if c == [] || c[0] !in m || m[c[0]].ref == 0 then m
    else if m[c[0]].ref > 1 then m[c[0] := m[c[0]].(ref := m[c[0]].ref - 1)]
    else AfterFree(m - {c[0]}, c[1..])
  }

  lemma {:induction false} FreeRunKeeps(m: Mem, n: Mem, c: seq<Addr>)
    requires InMem(m, c) && InMem(n, c) && forall a | a in c :: n[a].ref == m[a].ref
    ensures FreeRun(n, c) == FreeRun(m, c)
  {
    if c != [] {
      FreeRunKeeps(m, n, c[1..]);
    }
  }

  lemma {:induction false} ChainWithoutHead(m: Mem, p: Addr, c: seq<Addr>)
    requires IsChain(m, p, c) && p != NULL
    ensures IsChain(m - {p}, m[p].next, c[1..])
  {
    ChainDistinct(m, p, c);
    ChainInMem(m, p, c);
    assert forall a | a in c[1..] :: a in c && a != p;
    ShapeKeeps(m, m - {p}, m[p].next, c[1..]);
  }

  lemma {:induction false} FreeRunStep(m: Mem, p: Addr, c: seq<Addr>)
    requires IsChain(m, p, c) && p != NULL && InMem(m, c) && m[p].ref == 1
    ensures InMem(m - {p}, c[1..]) && FreeRun(m, c) == 1 + FreeRun(m - {p}, c[1..])
    ensures Referenced(m, c) ==> Referenced(m - {p}, c[1..])
  {
    ChainWithoutHead(m, p, c);
    ChainInMem(m - {p}, m[p].next, c[1..]);
    FreeRunKeeps(m, m - {p}, c[1..]);
  }

  /** What is still to be done when pbuf_free has come to q: with the chain d from there on. */
  ghost predicate FreeTodo(m: Mem, q: Addr, d: seq<Addr>, result: Mem, run: nat) {
    IsChain(m, q, d) && Referenced(m, d) && AfterFree(m, d) == result && FreeRun(m, d) == run
  }

  lemma {:induction false} FreeTodoStart(m: Mem, p: Addr, c: seq<Addr>) returns (result: Mem)
    requires IsChain(m, p, c) && Referenced(m, c)
    ensures result == AfterFree(m, c) && FreeTodo(m, p, c, result, FreeRun(m, c))
    ensures p == NULL ==> result == m && FreeRun(m, c) == 0
  {
    result := AfterFree(m, c);
  }

  lemma {:induction false} FreeTodoStep(m: Mem, q: Addr, d: seq<Addr>, result: Mem, run: nat)
    requires FreeTodo(m, q, d, result, run) && q != NULL
    ensures q in m && d != [] && m[q].ref > 0
    ensures m[q].ref > 1 ==> result == m[q := m[q].(ref := m[q].ref - 1)] && run == 0
    ensures m[q].ref == 1 ==> run > 0 && FreeTodo(m - {q}, m[q].next, d[1..], result, run - 1)
  {
    if m[q].ref == 1 {
      FreeRunStep(m, q, d);
      ChainWithoutHead(m, q, d);
    }
  }

  /** pbuf_free: the count returned is 8 bits wide. */
  method Free(heap: PbufHeap, p: Addr, ghost c: seq<Addr>) returns (count: byte)
    requires IsChain(heap.mem, p, c) && Referenced(heap.mem, c)
    modifies heap
    ensures heap.mem == AfterFree(old(heap.mem), c)
    ensures InMem(old(heap.mem), c) && count == FreeRun(old(heap.mem), c) % 0x100
  {
    count := 0;
    var q := p;
    ghost var result := FreeTodoStart(heap.mem, p, c);
    ghost var run, d := FreeRun(heap.mem, c), c;
    ghost var left := run;
    while q != NULL
      invariant q != NULL ==> FreeTodo(heap.mem, q, d, result, left)
      invariant q == NULL ==> heap.mem == result && left == 0
      invariant left <= run && count == (run - left) % 0x100
      decreases if q == NULL then 0 else |d|
    {
      FreeTodoStep(heap.mem, q, d, result, left);
      ghost var m1 := heap.mem;
      var ref := heap.mem[q].ref - 1;
      heap.mem := heap.mem[q := heap.mem[q].(ref := ref)];
      if ref == 0 {
        var next := heap.mem[q].next;
        heap.mem := heap.mem - {q};
        assert heap.mem == m1 - {q};
        count := (count + 1) % 0x100;
        assert count == (run - (left - 1)) % 0x100 by { OneMore(run - left); }
        left, d := left - 1, d[1..];
        q := next;
      } else {
        q := NULL;
      }
    }
  }

  lemma OneMore(n: nat)
    ensures (n % 0x100 + 1) % 0x100 == (n + 1) % 0x100
  {
  }

  /** Freeing a reference one of the holders has keeps the counts right. */
  lemma {:induction false} FreeBalanced(m: Mem, holders: multiset<Addr>, p: Addr, c: seq<Addr>)
    requires Balanced(m, holders) && p in holders && IsChain(m, p, c)
    ensures Referenced(m, c) && Balanced(AfterFree(m, c), holders - multiset{p})
    decreases |c|
  {
    ChainInMem(m, p, c);
    forall a | a in c ensures m[a].ref > 0 { assert Counted(m, holders, a); }
    if m[p].ref > 1 {
      BalancedDrop(m, holders, p);
    } else {
      var next := m[p].next;
      var h := holders - multiset{p} + Token(next);
      BalancedRemove(m, holders, p);
      ChainWithoutHead(m, p, c);
      if next == NULL {
        assert h == holders - multiset{p};
      } else {
        FreeBalanced(m - {p}, h, next, c[1..]);
        assert h - multiset{next} == holders - multiset{p};
      }
    }
  }

  /** What pbuf_free takes away and what it leaves: exactly the free run is gone; the pbuf behind
    * it has one reference less; every other pbuf, on the chain or off it, is untouched. */
  lemma {:induction false} FreeExactly(m: Mem, p: Addr, c: seq<Addr>)
    requires IsChain(m, p, c) && Referenced(m, c)
    ensures var k := FreeRun(m, c);
            && AfterFree(m, c).Keys == m.Keys - Elems(c[..k])
            && forall a | a in AfterFree(m, c) ::
                 AfterFree(m, c)[a] == if k < |c| && a == c[k] then m[a].(ref := m[a].ref - 1) else m[a]
    decreases |c|
  {
    var k := FreeRun(m, c);
    if c != [] && m[p].ref == 1 {
      FreeRunStep(m, p, c);
      ChainWithoutHead(m, p, c);
      FreeExactly(m - {p}, m[p].next, c[1..]);
      assert c[..k] == [p] + c[1..][..k - 1];
      assert Elems(c[..k]) == {p} + Elems(c[1..][..k - 1]);
    } else {
      assert c[..k] == [];
    }
  }

  lemma {:induction false} FreeOffChain(m: Mem, p: Addr, c: seq<Addr>, a: Addr)
    requires IsChain(m, p, c) && Referenced(m, c) && a in m && a !in c
    ensures a in AfterFree(m, c) && AfterFree(m, c)[a] == m[a]
  {
    FreeExactly(m, p, c);
    ChainInMem(m, p, c);
    var k := FreeRun(m, c);
    assert a !in c[..k];
  }

  /** Freeing a pbuf without successors. */
  function FreeOne(m: Mem, p: Addr): Mem
    requires p in m && m[p].ref > 0
  {
    if m[p].ref == 1 then m - {p} else m[p := m[p].(ref := m[p].ref - 1)]
  }

  lemma {:induction false} FreeSingle(m: Mem, p: Addr)
    requires p in m && p != NULL && m[p].next == NULL && m[p].ref > 0
    ensures IsChain(m, p, [p]) && Referenced(m, [p]) && AfterFree(m, [p]) == FreeOne(m, p)
  {
    assert [p][1..] == [];
  }

  // ---------- pbuf_ref, pbuf_cat, pbuf_chain ----------

  /** pbuf_ref; the count must not overflow. */
  method Ref(heap: PbufHeap, p: Addr)
    requires p != NULL ==> p in heap.mem && heap.mem[p].ref < 0xFF
    modifies heap
    ensures p == NULL ==> heap.mem == old(heap.mem)
    ensures p != NULL ==> heap.mem == old(heap.mem)[p := old(heap.mem)[p].(ref := old(heap.mem)[p].ref + 1)]
  {
    if p != NULL {
      heap.mem := heap.mem[p := heap.mem[p].(ref := heap.mem[p].ref + 1)];
    }
  }

  lemma {:induction false} RefBalanced(m: Mem, holders: multiset<Addr>, p: Addr)
    requires Balanced(m, holders) && p in m && m[p].ref < 0xFF
    ensures Balanced(m[p := m[p].(ref := m[p].ref + 1)], holders + multiset{p})
  {
    var n := m[p := m[p].(ref := m[p].ref + 1)];
    forall a | a in n ensures Counted(n, holders + multiset{p}, a) {
      assert Counted(m, holders, a);
      PredsUpdate(m, p, n[p], a);
    }
  }

  /** The pbuf with a total length that counts len more bytes, in 16 bits. */
  function Longer(b: Pbuf, len: nat): Pbuf {
    b.(totLen := (b.totLen + len) % U16)
  }

  /** The chain c with t, of total length len, linked behind it. */
  ghost function AfterCat(m: Mem, c: seq<Addr>, t: Addr, len: nat): Mem
    requires c != []
    decreases |c|
  {
    if c[0] !in m then m
    else if |c| == 1 then m[c[0] := Longer(m[c[0]], len).(next := t)]
    else AfterCat(m[c[0] := Longer(m[c[0]], len)], c[1..], t, len)
  }

  ghost predicate CatTodo(m: Mem, p: Addr, d: seq<Addr>, t: Addr, len: nat, result: Mem) {
    p != NULL && IsChain(m, p, d) && t in m && t !in d && m[t].totLen == len && AfterCat(m, d, t, len) == result
  }

  lemma {:induction false} CatTodoStep(m: Mem, p: Addr, d: seq<Addr>, t: Addr, len: nat, result: Mem)
    requires CatTodo(m, p, d, t, len, result)
    ensures p in m && d != [] && (m[p].next == NULL ==> result == m[p := Longer(m[p], len).(next := t)])
    ensures m[p].next != NULL ==> CatTodo(m[p := Longer(m[p], len)], m[p].next, d[1..], t, len, result)
  {
    if m[p].next == NULL {
      ChainInMem(m, NULL, d[1..]);
      assert |d| == 1;
    } else {
      ChainInMem(m, p, d);
      ChainDistinct(m, p, d);
      var n := m[p := Longer(m[p], len)];
      ShapeKeeps(m, n, p, d);
    }
  }

  /** pbuf_cat: walks to the end of the head chain, adding up total lengths on the way. */
  method Cat(heap: PbufHeap, h: Addr, t: Addr, ghost c: seq<Addr>, ghost d: seq<Addr>)
    requires IsChain(heap.mem, h, c) && IsChain(heap.mem, t, d) && t !in c
    modifies heap
    ensures h == NULL || t == NULL ==> heap.mem == old(heap.mem)
    ensures h != NULL && t != NULL ==>
              t in old(heap.mem) && heap.mem == AfterCat(old(heap.mem), c, t, old(heap.mem)[t].totLen)
  {
    if h == NULL || t == NULL {
      return;
    }
    var p := h;
    ghost var len, rest := heap.mem[t].totLen, c;
    ghost var result := AfterCat(heap.mem, c, t, len);
    while heap.mem[p].next != NULL
      invariant CatTodo(heap.mem, p, rest, t, len, result)
      decreases |rest|
    {
      CatTodoStep(heap.mem, p, rest, t, len, result);
      heap.mem := heap.mem[p := Longer(heap.mem[p], heap.mem[t].totLen)];
      rest := rest[1..];
      p := heap.mem[p].next;
    }
    CatTodoStep(heap.mem, p, rest, t, len, result);
    heap.mem := heap.mem[p := Longer(heap.mem[p], heap.mem[t].totLen)];
    heap.mem := heap.mem[p := heap.mem[p].(next := t)];
  }

  /** pbuf_cat pbuf by pbuf: all of the first chain count len more bytes, the last one leads to t, and nothing else
    * changes. */
  ghost predicate CatResult(m: Mem, n: Mem, c: seq<Addr>, t: Addr, len: nat)
    requires c != []
  {
    && n.Keys == m.Keys
    && forall a | a in m ::
         n[a] == if a !in c then m[a]
                 else m[a].(totLen := (m[a].totLen + len) % U16, next := if a == c[|c| - 1] then t else m[a].next)
  }

  lemma {:induction false} CatExactly(m: Mem, h: Addr, c: seq<Addr>, t: Addr, len: nat)
    requires IsChain(m, h, c) && h != NULL
    ensures CatResult(m, AfterCat(m, c, t, len), c, t, len)
    decreases |c|
  {
    ChainInMem(m, h, c);
    ChainDistinct(m, h, c);
    assert c == [h] + c[1..];
    if |c| > 1 {
      var n := m[h := Longer(m[h], len)];
      ShapeKeeps(m, n, h, c);
      CatExactly(n, m[h].next, c[1..], t, len);
    }
  }

  /** Concatenation of chains is concatenation of their bytes. */
  lemma {:induction false} CatChain(m: Mem, h: Addr, t: Addr, c: seq<Addr>, d: seq<Addr>)
    requires IsChain(m, h, c) && IsChain(m, t, d) && h != NULL && t != NULL && Elems(c) !! Elems(d)
    ensures InMem(m, c) && InMem(m, d) && t in m
    ensures var n := AfterCat(m, c, t, m[t].totLen);
            IsChain(n, h, c + d) && InMem(n, c + d) && Flat(n, c + d) == Flat(m, c) + Flat(m, d)
  {
    var n := AfterCat(m, c, t, m[t].totLen);
    var k := |c| - 1;
    CatExactly(m, h, c, t, m[t].totLen);
    ChainInMem(m, h, c);
    ChainInMem(m, t, d);
    ChainDistinct(m, h, c);
    assert forall a | a in c[..k] :: a in c && a != c[k];
    forall a | a in d ensures a !in c { assert a in Elems(d); }
    ShapeKeeps(m, n, t, d);
    assert c[..k + 1] == c;
    Relink(m, n, h, c, k, t, d);
    FlatConcat(n, c, d);
    FlatKeeps(m, n, c);
  }

  lemma {:induction false} TotKeeps(m: Mem, n: Mem, c: seq<Addr>)
    requires InMem(m, c) && InMem(n, c) && forall a | a in c :: n[a].data == m[a].data && n[a].totLen == m[a].totLen
    ensures ModTot(m, c) <==> ModTot(n, c)
    ensures ExactTot(m, c) <==> ExactTot(n, c)
  {
    FlatKeeps(m, n, c);
    if c != [] {
      TotKeeps(m, n, c[1..]);
    }
  }

  lemma {:induction false} AddMod(x: nat, y: nat, z: nat)
    requires z % U16 == y % U16
    ensures (x % U16 + z) % U16 == (x + y) % U16
  {
    assert x == U16 * (x / U16) + x % U16;
    assert y == U16 * (y / U16) + y % U16;
    assert z == U16 * (z / U16) + z % U16;
  }

  lemma {:induction false} CatModTot(m: Mem, n: Mem, c: seq<Addr>, d: seq<Addr>, len: nat)
    requires InMem(m, c) && InMem(m, d) && InMem(n, c) && InMem(n, d)
    requires forall a | a in c :: n[a].data == m[a].data && n[a].totLen == (m[a].totLen + len) % U16
    requires forall a | a in d :: n[a] == m[a]
    requires ModTot(m, c) && ModTot(m, d) && len % U16 == |Flat(m, d)| % U16
    ensures InMem(n, c + d) && ModTot(n, c + d) && |Flat(n, c + d)| == |Flat(m, c)| + |Flat(m, d)|
  {
    if c == [] {
      assert c + d == d;
      TotKeeps(m, n, d);
      FlatKeeps(m, n, d);
    } else {
      var x := |Flat(m, c)|;
      assert (c + d)[1..] == c[1..] + d;
      CatModTot(m, n, c[1..], d, len);
      assert |Flat(n, c + d)| == x + |Flat(m, d)|;
      assert n[c[0]].totLen == (x % U16 + len) % U16;
      AddMod(x, |Flat(m, d)|, len);
    }
  }

  /** Exact total lengths are right modulo 2^16, and right modulo 2^16 is exact exactly as long
    * as the chain has fewer than 2^16 bytes. */
  lemma {:induction false} ExactIffFits(m: Mem, c: seq<Addr>)
    requires InMem(m, c) && c != []
    ensures ExactTot(m, c) <==> ModTot(m, c) && |Flat(m, c)| < U16
  {
    if |c| > 1 {
      ExactIffFits(m, c[1..]);
    } else {
      assert c[1..] == [];
    }
  }

  /** pbuf_cat keeps total lengths right modulo 2^16; they are exact afterwards if and only if the
    * whole chain fits 16 bits. */
  lemma {:induction false} CatTotals(m: Mem, h: Addr, t: Addr, c: seq<Addr>, d: seq<Addr>)
    requires IsChain(m, h, c) && IsChain(m, t, d) && h != NULL && t != NULL && Elems(c) !! Elems(d)
    requires InMem(m, c) && InMem(m, d) && ModTot(m, c) && ModTot(m, d)
    ensures var n := AfterCat(m, c, t, m[t].totLen);
            InMem(n, c + d) && ModTot(n, c + d) && (ExactTot(n, c + d) <==> |Flat(m, c)| + |Flat(m, d)| < U16)
  {
    var n := AfterCat(m, c, t, m[t].totLen);
    CatExactly(m, h, c, t, m[t].totLen);
    forall a | a in d ensures a !in c { assert a in Elems(d); }
    CatModTot(m, n, c, d, m[t].totLen);
    ExactIffFits(n, c + d);
  }

  lemma {:induction false} PredsLink(m: Mem, n: Mem, last: Addr, t: Addr, a: Addr)
    requires last in m && m[last].next == NULL && a != NULL && n.Keys == m.Keys
    requires forall b | b in m :: n[b].next == if b == last then t else m[b].next
    ensures Preds(n, a) == Preds(m, a) + if a == t then 1 else 0
  {
    if a == t {
      assert PredSet(n, a) == PredSet(m, a) + {last};
    } else {
      assert PredSet(n, a) == PredSet(m, a);
    }
  }

  /** If nothing but the last pbuf's link has changed, one reference on t has moved into memory. */
  lemma {:induction false} LinkOnly(m: Mem, n: Mem, holders: multiset<Addr>, last: Addr, t: Addr)
    requires Balanced(m, holders) && last in m && m[last].next == NULL && t in holders
    requires n.Keys == m.Keys && forall a | a in m :: n[a].ref == m[a].ref
    requires forall a | a in m :: n[a].next == if a == last then t else m[a].next
    ensures Balanced(n, holders - multiset{t})
  {
    forall a | a in n ensures Counted(n, holders - multiset{t}, a) {
      assert Counted(m, holders, a);
      PredsLink(m, n, last, t, a);
    }
  }

  /** pbuf_cat takes over the caller's reference on the tail. */
  lemma {:induction false} CatBalanced(m: Mem, holders: multiset<Addr>, h: Addr, t: Addr, c: seq<Addr>, len: nat)
    requires IsChain(m, h, c) && h != NULL && Balanced(m, holders) && t in holders
    ensures Balanced(AfterCat(m, c, t, len), holders - multiset{t})
  {
    CatExactly(m, h, c, t, len);
    ChainSuffix(m, h, c, |c|);
    LinkOnly(m, AfterCat(m, c, t, len), holders, c[|c| - 1], t);
  }

  /** pbuf_chain: as pbuf_cat, but the caller keeps its reference on the tail, which is counted even if there
    * is no head. */
  method Chain(heap: PbufHeap, h: Addr, t: Addr, ghost c: seq<Addr>, ghost d: seq<Addr>)
    requires IsChain(heap.mem, h, c) && IsChain(heap.mem, t, d) && t !in c
    requires t != NULL ==> heap.mem[t].ref < 0xFF
    modifies heap
    ensures t == NULL ==> heap.mem == old(heap.mem)
    ensures t != NULL ==> t in old(heap.mem)
    ensures t != NULL ==>
              var m := if h == NULL then old(heap.mem) else AfterCat(old(heap.mem), c, t, old(heap.mem)[t].totLen);
              t in m && m[t].ref < 0xFF && heap.mem == m[t := m[t].(ref := m[t].ref + 1)]
  {
    if h != NULL && t != NULL {
      CatExactly(heap.mem, h, c, t, heap.mem[t].totLen);
    }
    Cat(heap, h, t, c, d);
    Ref(heap, t);
  }

  /** The assertion of pbuf_cat: the last pbuf of a chain has no bytes behind it. */
  lemma {:induction false} LastTotal(m: Mem, h: Addr, c: seq<Addr>)
    requires IsChain(m, h, c) && h != NULL && InMem(m, c) && ModTot(m, c)
    ensures c[|c| - 1] in m && m[c[|c| - 1]].totLen == m[c[|c| - 1]].Len() && m[c[|c| - 1]].next == NULL
  {
    var k := |c| - 1;
    ModSuffix(m, c, k);
    ChainSuffix(m, h, c, |c|);
    assert c[k..] == [c[k]] && c[k..][1..] == [];
  }

  lemma {:induction false} ChainBalanced(m: Mem, holders: multiset<Addr>, h: Addr, t: Addr, c: seq<Addr>, len: nat)
    requires IsChain(m, h, c) && h != NULL && t != NULL && t !in c && Balanced(m, holders) && t in holders
        && m[t].ref < 0xFF
    ensures var n := AfterCat(m, c, t, len);
            t in n && n[t].ref < 0xFF && Balanced(n[t := n[t].(ref := n[t].ref + 1)], holders)
  {
    CatExactly(m, h, c, t, len);
    CatBalanced(m, holders, h, t, c, len);
    RefBalanced(AfterCat(m, c, t, len), holders - multiset{t}, t);
    assert holders - multiset{t} + multiset{t} == holders;
  }
}
