/** The operations of core/pbuf.c that cut chains: pbuf_dechain, pbuf_free_header, pbuf_realloc
  * and pbuf_split_64k. */
module PbufResize {
  import opened Words
  import opened PbufMemory
  import opened PbufRef

  // ---------- pbuf_dechain ----------

  ghost function AfterCut(m: Mem, p: Addr, c: seq<Addr>): Mem
    requires p in m
  {
    var q := m[p].next;
    if q == NULL || q !in m then m
    else m[q := m[q].(totLen := (m[p].totLen - m[p].Len()) % U16)][p := m[p].(next := NULL, totLen := m[p].Len())]
  }

  /** pbuf_dechain: cuts p off and drops its reference on the rest. The answer depends on the
    * 8-bit count pbuf_free returns. asserted tells whether both assertions hold. */
  method Dechain(heap: PbufHeap, p: Addr, ghost c: seq<Addr>) returns (r: Addr, asserted: bool)
    requires IsChain(heap.mem, p, c) && p != NULL && Referenced(heap.mem, c)
    modifies heap
    ensures InMem(old(heap.mem), c[1..]) && p in old(heap.mem)
    ensures heap.mem == AfterFree(AfterCut(old(heap.mem), p, c), c[1..])
    ensures r == if FreeRun(old(heap.mem), c[1..]) % 0x100 == 0 && |c| > 1 then c[1] else NULL
    ensures asserted <==> HeadTotal(old(heap.mem), p, c)
  {
    ghost var m0 := heap.mem;
    var tailGone: byte := 1;
    var q := heap.mem[p].next;
    CutChain(heap.mem, p, c);
    ChainDistinct(heap.mem, p, c);
    asserted := true;
    if q != NULL {
      asserted := heap.mem[q].totLen == heap.mem[p].totLen as int - heap.mem[p].Len() as int;
      heap.mem := heap.mem[q := heap.mem[q].(totLen := (heap.mem[p].totLen - heap.mem[p].Len()) % U16)];
      heap.mem := heap.mem[p := heap.mem[p].(next := NULL)];
      heap.mem := heap.mem[p := heap.mem[p].(totLen := heap.mem[p].Len())];
      assert heap.mem == AfterCut(m0, p, c);
      FreeOffChain(heap.mem, q, c[1..], p);
      tailGone := Free(heap, q, c[1..]);
    } else {
      assert c == [p];
    }
    asserted := asserted && heap.mem[p].totLen == heap.mem[p].Len();
    r := if tailGone > 0 then NULL else q;
  }

  /** tot_len of the first pbuf is its length and tot_len of the next one, if there is one. */
  ghost predicate HeadTotal(m: Mem, p: Addr, c: seq<Addr>)
    requires p in m && c != [] && InMem(m, c[1..])
  {
    m[p].totLen == m[p].Len() + if |c| > 1 then m[c[1]].totLen else 0
  }

  /** With lengths that are right modulo 2^16 the assertions of pbuf_dechain hold if and only if the first
    * pbuf's own bytes and the length field behind it fit 16 bits together. */
  lemma {:induction false} HeadTotalIff(m: Mem, p: Addr, c: seq<Addr>)
    requires IsChain(m, p, c) && p != NULL && InMem(m, c) && ModTot(m, c)
    ensures p in m && InMem(m, c[1..])
    ensures HeadTotal(m, p, c) <==> m[p].Len() + |Flat(m, c[1..])| % U16 < U16
  {
    var d := c[1..];
    ChainInMem(m, m[p].next, d);
    assert ModTot(m, d) && |Flat(m, c)| == m[p].Len() + |Flat(m, d)|;
    if d != [] {
      assert d[0] == c[1];
    }
  }

  lemma {:induction false} CutChain(m: Mem, p: Addr, c: seq<Addr>)
    requires IsChain(m, p, c) && p != NULL
    ensures p in m && m[p].next != p && (m[p].next == NULL <==> |c| == 1)
        && (|c| > 1 ==> c[1] == m[p].next && c[1] in m)
    ensures InMem(m, c[1..]) && IsChain(AfterCut(m, p, c), m[p].next, c[1..])
    ensures Referenced(m, c) ==> Referenced(AfterCut(m, p, c), c[1..])
    ensures InMem(AfterCut(m, p, c), c[1..]) && FreeRun(AfterCut(m, p, c), c[1..]) == FreeRun(m, c[1..])
    ensures Flat(AfterCut(m, p, c), c[1..]) == Flat(m, c[1..])
  {
    var n, d := AfterCut(m, p, c), c[1..];
    ChainInMem(m, p, c);
    ChainDistinct(m, p, c);
    ChainInMem(m, m[p].next, d);
    assert forall a | a in d :: a in c && a != p;
    ShapeKeeps(m, n, m[p].next, d);
    FreeRunKeeps(m, n, d);
  }

  lemma {:induction false} CutBalanced(m: Mem, holders: multiset<Addr>, p: Addr, c: seq<Addr>)
    requires Balanced(m, holders) && IsChain(m, p, c) && |c| > 1
    ensures c[1] in m && Balanced(AfterCut(m, p, c), holders + multiset{c[1]})
  {
    CutChain(m, p, c);
    var q, n := m[p].next, AfterCut(m, p, c);
    var lengths := m[q := m[q].(totLen := (m[p].totLen - m[p].Len()) % U16)];
    BalancedSame(m, lengths, holders);
    BalancedRelink(lengths, holders, p, n[p]);
    assert lengths[p := n[p]] == n;
    assert holders - Token(NULL) + Token(q) == holders + multiset{q};
  }

  /** pbuf_dechain leaves every holder with what it had, and p on its own. */
  lemma {:induction false} DechainBalanced(m: Mem, holders: multiset<Addr>, p: Addr, c: seq<Addr>)
    requires Balanced(m, holders) && IsChain(m, p, c) && p != NULL
    ensures var n := AfterFree(AfterCut(m, p, c), c[1..]);
            Balanced(n, holders) && p in n && n[p].data == m[p].data
              && (|c| > 1 ==> n[p].next == NULL && n[p].totLen == |n[p].data|)
  {
    CutChain(m, p, c);
    if |c| > 1 {
      var q, n := c[1], AfterCut(m, p, c);
      CutBalanced(m, holders, p, c);
      FreeBalanced(n, holders + multiset{q}, q, c[1..]);
      assert holders + multiset{q} - multiset{q} == holders;
      ChainDistinct(m, p, c);
      assert p !in c[1..];
      FreeOffChain(n, q, c[1..], p);
    } else {
      assert c[1..] == [];
    }
  }

  /** A rest that is still referenced keeps its bytes and its exact total lengths. */
  lemma {:induction false} DechainRest(m: Mem, p: Addr, c: seq<Addr>)
    requires IsChain(m, p, c) && |c| > 1 && Referenced(m, c) && FreeRun(m, c[1..]) == 0
    ensures InMem(m, c) && InMem(m, c[1..])
    ensures var n := AfterFree(AfterCut(m, p, c), c[1..]);
            && IsChain(n, c[1], c[1..]) && InMem(n, c[1..]) && Flat(n, c[1..]) == Flat(m, c[1..])
            && (ExactTot(m, c) ==> ExactTot(n, c[1..]))
  {
    CutChain(m, p, c);
    ChainInMem(m, p, c);
    var cut, d := AfterCut(m, p, c), c[1..];
    var n := AfterFree(cut, d);
    ChainDistinct(m, p, c);
    assert p !in d;
    assert n == cut[c[1] := cut[c[1]].(ref := cut[c[1]].ref - 1)];
    ShapeKeeps(cut, n, c[1], d);
    if ExactTot(m, c) {
      ExactSuffix(m, c, 1);
      assert m[p].totLen == |m[p].data| + |Flat(m, d)|;
      ExactKeeps(m, n, d);
    }
  }

  /** Pbuf by pbuf: p stands alone; of the rest exactly the head run of counts one is gone, the pbuf behind that run
    * has one reference less, and the head counts the bytes behind p; nothing else changes. */
  lemma {:induction false} DechainFields(m: Mem, p: Addr, c: seq<Addr>)
    requires IsChain(m, p, c) && |c| > 1 && Referenced(m, c)
    ensures InMem(m, c[1..])
    ensures var n, k := AfterFree(AfterCut(m, p, c), c[1..]), FreeRun(m, c[1..]);
            && n.Keys == m.Keys - Elems(c[1..][..k])
            && p in n && n[p] == m[p].(next := NULL, totLen := m[p].Len())
            && forall a | a in n && a != p ::
                 && n[a].totLen == (if a == c[1] then (m[p].totLen - m[p].Len()) % U16 else m[a].totLen)
                 && n[a].ref == m[a].ref - (if k < |c| - 1 && a == c[1..][k] then 1 else 0)
                 && n[a] == m[a].(totLen := n[a].totLen, ref := n[a].ref)
  {
    var cut, d := AfterCut(m, p, c), c[1..];
    CutChain(m, p, c);
    ChainInMem(m, p, c);
    ChainDistinct(m, p, c);
    assert forall a | a in d :: a in c && a != p;
    FreeExactly(cut, c[1], d);
    FreeOffChain(cut, c[1], d, p);
  }

  /** What pbuf_dechain documents: the remainder of the chain, or NULL if it was deallocated. */
  ghost predicate DechainAnswer(m: Mem, p: Addr, c: seq<Addr>, r: Addr)
    requires IsChain(m, p, c) && |c| > 1
  {
    if c[1] in AfterFree(AfterCut(m, p, c), c[1..]) then r == c[1] else r == NULL
  }

  /** The documented answer is given if and only if the number of pbufs given back is zero or not a
    * multiple of 256. */
  lemma {:induction false} DechainAnswerIff(m: Mem, p: Addr, c: seq<Addr>)
    requires IsChain(m, p, c) && |c| > 1 && Referenced(m, c)
    ensures InMem(m, c[1..])
    ensures var run := FreeRun(m, c[1..]);
            DechainAnswer(m, p, c, if run % 0x100 == 0 then c[1] else NULL) <==> run == 0 || run % 0x100 != 0
  {
    CutChain(m, p, c);
    var cut, d := AfterCut(m, p, c), c[1..];
    ChainInMem(m, p, c);
    FreeExactly(cut, c[1], d);
    var run := FreeRun(cut, d);
    assert c[1] in d[..run] <==> run > 0 by {
      if run == 0 {
        assert d[..run] == [];
      } else {
        assert d[..run][0] == c[1];
      }
    }
    assert c[1] in Elems(d[..run]) <==> c[1] in d[..run];
  }

  predicate LongAddr(i: nat) {
    1 <= i <= 257
  }

  /** A chain of 257 pbufs of one reference each, the smallest on which the count wraps. */
  function LongChain(): Mem {
    map i: nat | i < 258 && LongAddr(i) :: Pbuf(if i < 257 then i + 1 else NULL, 0, [], 0, 1, false)
  }

  ghost function From(i: nat): seq<Addr>
    requires 1 <= i <= 258
    decreases 258 - i
  {
    if i == 258 then [] else [i] + From(i + 1)
  }

  lemma {:induction false} LongChainFrom(i: nat)
    requires 1 <= i <= 258
    ensures IsChain(LongChain(), if i <= 257 then i else NULL, From(i)) && |From(i)| == 258 - i
    ensures InMem(LongChain(), From(i)) && FreeRun(LongChain(), From(i)) == 258 - i && Referenced(LongChain(), From(i))
    decreases 258 - i
  {
    if i < 258 {
      LongChainFrom(i + 1);
      assert From(i)[1..] == From(i + 1);
    }
  }

  lemma {:induction false} LongChainBalanced()
    ensures Balanced(LongChain(), multiset{1})
  {
    var m := LongChain();
    forall a | a in m ensures Counted(m, multiset{1}, a) {
      assert PredSet(m, a) == if a == 1 then {} else {a - 1};
    }
  }

  /** On that chain pbuf_dechain gives back the whole rest and still answers its first pbuf. */
  lemma {:induction false} DechainAnswerFails() returns (m: Mem, c: seq<Addr>)
    ensures Balanced(m, multiset{1}) && IsChain(m, 1, c) && |c| > 1 && Referenced(m, c)
    ensures InMem(m, c[1..]) && FreeRun(m, c[1..]) % 0x100 == 0 && !DechainAnswer(m, 1, c, c[1])
  {
    m, c := LongChain(), From(1);
    LongChainBalanced();
    LongChainFrom(1);
    LongChainFrom(2);
    assert c[1..] == From(2);
    DechainWraps(m, 1, c);
  }

  lemma {:induction false} DechainWraps(m: Mem, p: Addr, c: seq<Addr>)
    requires IsChain(m, p, c) && |c| > 1 && Referenced(m, c)
    requires FreeRun(m, c[1..]) == 0x100
    ensures !DechainAnswer(m, p, c, c[1])
  {
    DechainAnswerIff(m, p, c);
  }

  // ---------- pbuf_free_header ----------

  /** pbuf_remove_header; true is failure. */
  method RemoveHeader(heap: PbufHeap, p: Addr, size: nat) returns (failed: bool)
    requires p != NULL ==> p in heap.mem
    modifies heap
    ensures failed <==> p == NULL || size > 0xFFFF || size > old(heap.mem)[p].Len()
    ensures failed ==> heap.mem == old(heap.mem)
    ensures !failed ==>
        size <= old(heap.mem)[p].Len()
        && heap.mem == old(heap.mem)[p := Headless(old(heap.mem)[p], size)]
        && heap.mem[p].data == old(heap.mem)[p].data[size..]
        && heap.mem[p] == old(heap.mem)[p].(payload := old(heap.mem)[p].payload + size, data := heap.mem[p].data,
                                            totLen := (old(heap.mem)[p].totLen - size) % U16)
  {
    if p == NULL || size > 0xFFFF {
      return true;
    }
    if size == 0 {
      assert heap.mem[p] == Headless(heap.mem[p], 0);
      return false;
    }
    if size > heap.mem[p].Len() {
      return true;
    }
    heap.mem := heap.mem[p := Headless(heap.mem[p], size)];
    return false;
  }

  /** A pbuf without its first size bytes. */
  function Headless(b: Pbuf, size: nat): Pbuf
    requires size <= b.Len()
  {
    b.(payload := b.payload + size, data := b.data[size..], totLen := (b.totLen - size) % U16)
  }

  /** Takes f off its successors and gives up the reference on it. */
  method UnlinkAndFree(heap: PbufHeap, f: Addr)
    requires f != NULL && f in heap.mem && heap.mem[f].ref > 0
    modifies heap
    ensures heap.mem == FreeOne(old(heap.mem)[f := old(heap.mem)[f].(next := NULL)], f)
  {
    heap.mem := heap.mem[f := heap.mem[f].(next := NULL)];
    FreeSingle(heap.mem, f);
    var _ := Free(heap, f, [f]);
  }

  /** What dropping the first size bytes of the chain c means: a suffix of its pbufs is left, with
    * the remaining bytes; the reference on q has become one on p; pbufs off c are untouched. */
  ghost predicate HeaderFreed(m0: Mem, q: Addr, c: seq<Addr>, size: nat, holders: multiset<Addr>, m: Mem, p: Addr,
                              rest: seq<Addr>)
    requires InMem(m0, c)
  {
    && |rest| <= |c| && rest == c[|c| - |rest|..]
    && IsChain(m, p, rest) && InMem(m, rest)
    && Flat(m, rest) == Flat(m0, c)[Min(size, |Flat(m0, c)|)..]
    && Balanced(m, holders - Token(q) + Token(p))
    && (ExactTot(m0, c) ==> ExactTot(m, rest))
    && forall a | a in m0 && a !in c :: a in m && m[a] == m0[a]
  }

  /** The memory behind pbuf_free_header on the chain c, and the chain that is left. */
  ghost function HeaderRun(m: Mem, c: seq<Addr>, size: nat): (Mem, seq<Addr>)
    decreases |c|
  {
    if size == 0 || c == [] || c[0] !in m || m[c[0]].ref == 0 then (m, c)
    else if size >= m[c[0]].Len() then HeaderRun(WithoutFirst(m, c[0]), c[1..], size - m[c[0]].Len())
    else (m[c[0] := Headless(m[c[0]], size)], c)
  }

  /** The pbuf is taken off its successors, and a reference on it given up. */
  ghost function WithoutFirst(m: Mem, f: Addr): Mem
    requires f in m && m[f].ref > 0
  {
    FreeOne(m[f := m[f].(next := NULL)], f)
  }

  /** pbuf_free_header: gives up whole pbufs while it can, then shortens the next one. */
  method FreeHeader(heap: PbufHeap, q: Addr, size: u16, ghost c: seq<Addr>, ghost holders: multiset<Addr>)
    returns (p: Addr, ghost rest: seq<Addr>)
    requires IsChain(heap.mem, q, c) && Balanced(heap.mem, holders) && Token(q) <= holders
    modifies heap
    ensures InMem(old(heap.mem), c) && HeaderFreed(old(heap.mem), q, c, size, holders, heap.mem, p, rest)
    ensures (heap.mem, rest) == HeaderRun(old(heap.mem), c, size)
  {
    p, rest := q, c;
    ghost var m0 := heap.mem;
    HeaderStart(m0, q, c, size, holders);
    var freeLeft: nat := size;
    while freeLeft > 0 && p != NULL
      invariant HeaderTodo(m0, q, c, size, holders, heap.mem, p, rest, freeLeft)
      invariant HeaderRun(heap.mem, rest, freeLeft) == HeaderRun(m0, c, size)
      decreases |rest|, freeLeft
    {
      ghost var m1 := heap.mem;
      HeaderStep(m0, q, c, size, holders, m1, p, rest, freeLeft);
      if freeLeft >= heap.mem[p].Len() {
        var f := p;
        freeLeft := freeLeft - heap.mem[p].Len();
        p := heap.mem[p].next;
        UnlinkAndFree(heap, f);
        rest := rest[1..];
      } else {
        var _ := RemoveHeader(heap, p, freeLeft);
        freeLeft := 0;
      }
    }
    HeaderDone(m0, q, c, size, holders, heap.mem, p, rest, freeLeft);
    assert freeLeft == 0 || rest == [];
  }

  /** The state of pbuf_free_header called with q, heading c in memory m0: memory is m now, p heads
    * the suffix `rest` of c, and `left` more bytes are to be dropped. */
  ghost predicate HeaderTodo(m0: Mem, q: Addr, c: seq<Addr>, size: nat, holders: multiset<Addr>,
                             m: Mem, p: Addr, rest: seq<Addr>, left: nat) {
    && InMem(m0, c) && left <= size && size - left <= |Flat(m0, c)|
    && |rest| <= |c| && rest == c[|c| - |rest|..]
    && HeaderChain(m, p, rest, Flat(m0, c)[size - left..], ExactTot(m0, c), holders - Token(q) + Token(p))
    && forall a | a in m0 && a !in c :: a in m && m[a] == m0[a]
  }

  ghost predicate HeaderChain(m: Mem, p: Addr, rest: seq<Addr>, todo: seq<byte>, exact: bool, holders: multiset<Addr>) {
    && IsChain(m, p, rest) && InMem(m, rest) && Flat(m, rest) == todo && Balanced(m, holders)
    && (exact ==> ExactTot(m, rest))
  }

  lemma {:induction false} HeaderStart(m0: Mem, q: Addr, c: seq<Addr>, size: nat, holders: multiset<Addr>)
    requires IsChain(m0, q, c) && Balanced(m0, holders) && Token(q) <= holders
    ensures HeaderTodo(m0, q, c, size, holders, m0, q, c, size)
  {
    ChainInMem(m0, q, c);
    assert holders - Token(q) + Token(q) == holders;
  }

  lemma {:induction false} HeaderStep(m0: Mem, q: Addr, c: seq<Addr>, size: nat, holders: multiset<Addr>,
                                      m: Mem, p: Addr, rest: seq<Addr>, left: nat)
    requires HeaderTodo(m0, q, c, size, holders, m, p, rest, left) && p != NULL
    ensures p in m && rest != [] && m[p].ref > 0
    ensures left >= m[p].Len() ==>
              HeaderTodo(m0, q, c, size, holders, FreeOne(m[p := m[p].(next := NULL)], p), m[p].next, rest[1..],
                left - m[p].Len())
    ensures left < m[p].Len() ==> HeaderTodo(m0, q, c, size, holders, m[p := Headless(m[p], left)], p, rest, 0)
  {
    var todo, exact, h := Flat(m0, c)[size - left..], ExactTot(m0, c), holders - Token(q) + Token(p);
    assert p == rest[0] && p in c;
    assert Counted(m, h, p);
    if left >= m[p].Len() {
      assert HeaderChain(m, p, rest, todo, exact, h) && p in h;
      HeaderDrop(m, p, rest, todo, exact, h);
      HeaderRest(Flat(m0, c), size, left, m[p].Len());
      assert h - multiset{p} + Token(m[p].next) == holders - Token(q) + Token(m[p].next);
    } else {
      assert HeaderTodo(m0, q, c, size, holders, m[p := Headless(m[p], left)], p, rest, 0) by {
        HeaderTrim(m, p, rest, todo, exact, h, left);
        HeaderRest(Flat(m0, c), size, left, left);
      }
    }
  }

  lemma {:induction false} HeaderRest(all: seq<byte>, size: nat, left: nat, n: nat)
    requires n <= left <= size && size - left <= |all| && n <= |all| - (size - left)
    ensures all[size - left..][n..] == all[size - (left - n)..]
  {
  }

  lemma {:induction false} HeaderDone(m0: Mem, q: Addr, c: seq<Addr>, size: nat, holders: multiset<Addr>,
                                      m: Mem, p: Addr, rest: seq<Addr>, left: nat)
    requires HeaderTodo(m0, q, c, size, holders, m, p, rest, left) && (left == 0 || p == NULL)
    ensures HeaderFreed(m0, q, c, size, holders, m, p, rest)
  {
    ChainInMem(m, p, rest);
  }

  lemma {:induction false} HeaderDrop(m: Mem, p: Addr, rest: seq<Addr>, todo: seq<byte>, exact: bool,
                                      holders: multiset<Addr>)
    requires HeaderChain(m, p, rest, todo, exact, holders) && p != NULL && p in holders && m[p].ref > 0
    ensures |m[p].data| <= |todo|
    ensures HeaderChain(FreeOne(m[p := m[p].(next := NULL)], p), m[p].next, rest[1..], todo[|m[p].data|..], exact,
                        holders - multiset{p} + Token(m[p].next))
  {
    DropBalanced(m, holders, p);
    DropChain(m, FreeOne(m[p := m[p].(next := NULL)], p), p, rest);
  }

  /** Cutting off and freeing p moves the reference on it to its successor. */
  lemma {:induction false} DropBalanced(m: Mem, holders: multiset<Addr>, p: Addr)
    requires Balanced(m, holders) && p in holders && m[p].ref > 0
    ensures Balanced(FreeOne(m[p := m[p].(next := NULL)], p), holders - multiset{p} + Token(m[p].next))
  {
    var next, cut := m[p].next, m[p := m[p].(next := NULL)];
    BalancedRelink(m, holders, p, cut[p]);
    var h := holders + Token(next);
    assert holders - Token(NULL) + Token(next) == h;
    if m[p].ref == 1 {
      BalancedRemove(cut, h, p);
      assert h - multiset{p} + Token(NULL) == holders - multiset{p} + Token(next);
    } else {
      BalancedDrop(cut, h, p);
      assert h - multiset{p} == holders - multiset{p} + Token(next);
    }
  }

  /** A change to p alone leaves the chain behind p as it is. */
  lemma {:induction false} DropChain(m: Mem, n: Mem, p: Addr, rest: seq<Addr>)
    requires IsChain(m, p, rest) && InMem(m, rest) && p != NULL
    requires forall a | a in m && a != p :: a in n && n[a] == m[a]
    ensures IsChain(n, m[p].next, rest[1..]) && InMem(n, rest[1..]) && Flat(n, rest[1..]) == Flat(m, rest[1..])
    ensures ExactTot(m, rest) ==> ExactTot(n, rest[1..])
  {
    ChainDistinct(m, p, rest);
    forall a | a in rest[1..] ensures a in n && n[a] == m[a] {
      assert a in rest && a != p;
    }
    ShapeKeeps(m, n, m[p].next, rest[1..]);
    TotKeeps(m, n, rest[1..]);
  }

  lemma {:induction false} HeaderTrim(m: Mem, p: Addr, rest: seq<Addr>, todo: seq<byte>, exact: bool,
                                      holders: multiset<Addr>, size: nat)
    requires HeaderChain(m, p, rest, todo, exact, holders) && p != NULL && size < m[p].Len()
    ensures size <= |todo| && HeaderChain(m[p := Headless(m[p], size)], p, rest, todo[size..], exact, holders)
  {
    var n := m[p := Headless(m[p], size)];
    BalancedSame(m, n, holders);
    DropChain(m, n, p, rest);
    HeadlessExact(m, n, p, rest, size);
  }

  lemma {:induction false} HeadlessExact(m: Mem, n: Mem, p: Addr, rest: seq<Addr>, size: nat)
    requires rest != [] && rest[0] == p && InMem(m, rest) && InMem(n, rest) && size <= m[p].Len()
        && n[p] == Headless(m[p], size)
    requires Flat(n, rest[1..]) == Flat(m, rest[1..]) && (ExactTot(m, rest) ==> ExactTot(n, rest[1..]))
    ensures size <= |Flat(m, rest)| && Flat(n, rest) == Flat(m, rest)[size..]
        && (ExactTot(m, rest) ==> ExactTot(n, rest))
  {
    var tail := Flat(m, rest[1..]);
    assert Flat(m, rest) == m[p].data + tail;
    assert (m[p].data + tail)[size..] == m[p].data[size..] + tail;
    assert Flat(n, rest) == n[p].data + tail;
  }

  /** A pbuf that was given up is gone or, if something else refers to it, stands alone with one reference less. */
  ghost predicate GivenUp(m: Mem, n: Mem, a: Addr) {
    a in m && if m[a].ref == 1 then a !in n else a in n && n[a] == m[a].(next := NULL, ref := (m[a].ref - 1) % 0x100)
  }

  /** A pbuf starts where the bytes it has left start, and counts only these. */
  ghost predicate Shortened(m: Mem, n: Mem, a: Addr) {
    && a in m && a in n && n[a].Len() <= m[a].Len()
    && var d := m[a].Len() - n[a].Len();
       && n[a].data == m[a].data[d..] && (d > 0 ==> d < m[a].Len())
       && n[a] == m[a].(payload := m[a].payload + d, data := n[a].data, totLen := (m[a].totLen - d) % U16)
  }

  /** Pbuf by pbuf: the first j of the chain were given up, the next one was shortened, and nothing else changed. */
  ghost predicate HeaderEach(m: Mem, n: Mem, c: seq<Addr>, j: nat) {
    && j <= |c|
    && (forall i | 0 <= i < j :: GivenUp(m, n, c[i])) && (j < |c| ==> Shortened(m, n, c[j]))
    && (forall i | j < i < |c| :: c[i] in m && c[i] in n && n[c[i]] == m[c[i]])
  }

  lemma {:induction false} HeaderFields(m: Mem, c: seq<Addr>, size: nat)
    requires Distinct(c) && Referenced(m, c)
    ensures var (n, rest) := HeaderRun(m, c, size);
            && |rest| <= |c| && rest == c[|c| - |rest|..] && HeaderEach(m, n, c, |c| - |rest|)
            && forall a | a in m && a !in c :: a in n && n[a] == m[a]
    decreases |c|
  {
    forall a | a in m && a !in c ensures var (n, rest) := HeaderRun(m, c, size); a in n && n[a] == m[a] {
      HeaderOff(m, c, size, a);
    }
    if size > 0 && c != [] && size >= m[c[0]].Len() {
      var left, t, m1 := size - m[c[0]].Len(), c[1..], WithoutFirst(m, c[0]);
      HeaderFirst(m, c);
      HeaderFields(m1, t, left);
      HeaderOff(m1, t, left, c[0]);
      var (n, rest) := HeaderRun(m1, t, left);
      HeaderMore(m, m1, n, c, |t| - |rest|);
    } else {
      HeaderLast(m, c, size);
    }
  }

  lemma {:induction false} HeaderFirst(m: Mem, c: seq<Addr>)
    requires Distinct(c) && Referenced(m, c) && c != []
    ensures c[0] in m && c[0] !in c[1..] && GivenUp(m, WithoutFirst(m, c[0]), c[0])
    ensures Distinct(c[1..]) && Referenced(WithoutFirst(m, c[0]), c[1..])
    ensures forall a | a in c[1..] :: a in m && a in WithoutFirst(m, c[0]) && WithoutFirst(m, c[0])[a] == m[a]
  {
    assert forall a | a in c[1..] :: a in c && a != c[0];
  }

  lemma {:induction false} HeaderLast(m: Mem, c: seq<Addr>, size: nat)
    requires Distinct(c) && Referenced(m, c) && (c != [] ==> c[0] in m && (size == 0 || size < m[c[0]].Len()))
    ensures HeaderRun(m, c, size).1 == c && HeaderEach(m, HeaderRun(m, c, size).0, c, 0)
  {
    if c != [] {
      var n := HeaderRun(m, c, size).0;
      assert n == m || n == m[c[0] := Headless(m[c[0]], size)];
      forall i | 0 < i < |c| ensures c[i] in m && c[i] in n && n[c[i]] == m[c[i]] {
        assert c[i] in c && c[i] != c[0];
      }
      assert Shortened(m, n, c[0]);
    }
  }

  /** Pbufs are given up only as long as bytes are left to be dropped: no fewer would hold that many. */
  lemma {:induction false} HeaderStops(m: Mem, c: seq<Addr>, size: nat)
    requires Distinct(c) && Referenced(m, c)
    ensures var j := |c| - |HeaderRun(m, c, size).1|;
            && 0 <= j <= |c| && InMem(m, c[..j])
            && (j > 0 ==> InMem(m, c[..j - 1]) && |Flat(m, c[..j - 1])| < size)
            && |Flat(m, c[..j])| <= size
    decreases |c|
  {
    if size > 0 && c != [] && size >= m[c[0]].Len() {
      var left, t, m1 := size - m[c[0]].Len(), c[1..], WithoutFirst(m, c[0]);
      HeaderFirst(m, c);
      HeaderStops(m1, t, left);
      var i := |t| - |HeaderRun(m1, t, left).1|;
      FlatFirst(m, m1, c, i);
      if i > 0 { FlatFirst(m, m1, c, i - 1); }
      assert c[..0] == [];
    }
  }

  lemma {:induction false} FlatFirst(m: Mem, m1: Mem, c: seq<Addr>, i: nat)
    requires c != [] && i <= |c| - 1 && c[0] in m && InMem(m1, c[1..][..i])
    requires forall a | a in c[1..] :: a in m && a in m1 && m1[a] == m[a]
    ensures InMem(m, c[..i + 1]) && |Flat(m, c[..i + 1])| == m[c[0]].Len() + |Flat(m1, c[1..][..i])|
  {
    var d := c[1..][..i];
    assert c[..i + 1] == [c[0]] + d && c[..i + 1][1..] == d;
    assert forall a | a in d :: a in c[1..];
    FlatKeeps(m1, m, d);
  }

  lemma {:induction false} HeaderMore(m: Mem, m1: Mem, n: Mem, c: seq<Addr>, j: nat)
    requires Distinct(c) && c != [] && HeaderEach(m1, n, c[1..], j) && GivenUp(m, n, c[0])
    requires forall a | a in c[1..] :: a in m && a in m1 && m1[a] == m[a]
    ensures HeaderEach(m, n, c, j + 1)
  {
    var t := c[1..];
    forall i | 0 <= i < |c| - 1 ensures c[i + 1] == t[i] && t[i] in m && t[i] in m1 && m1[t[i]] == m[t[i]] {
      assert t[i] in t;
    }
    forall i | 0 <= i < j + 1 ensures GivenUp(m, n, c[i]) {
      if i > 0 { assert c[(i - 1) + 1] == t[i - 1] && GivenUp(m1, n, t[i - 1]); }
    }
    forall i | j + 1 < i < |c| ensures c[i] in m && c[i] in n && n[c[i]] == m[c[i]] {
      assert c[(i - 1) + 1] == t[i - 1];
    }
  }

  /** A pbuf off the chain, whether it exists or not. */
  lemma {:induction false} HeaderOff(m: Mem, c: seq<Addr>, size: nat, a: Addr)
    requires a !in c
    ensures var (n, rest) := HeaderRun(m, c, size); (a in n <==> a in m) && (a in m ==> n[a] == m[a])
    decreases |c|
  {
    if size > 0 && c != [] && c[0] in m && m[c[0]].ref > 0 && size >= m[c[0]].Len() {
      HeaderOff(WithoutFirst(m, c[0]), c[1..], size - m[c[0]].Len(), a);
    }
  }

  // ---------- pbuf_realloc ----------

  /** The total lengths along c lowered by len, in 16 bits. */
  ghost function Lower(m: Mem, c: seq<Addr>, len: nat): Mem {
    map a | a in m :: if a in c then m[a].(totLen := (m[a].totLen - len) % U16) else m[a]
  }

  /** A chain c shortened to newLen bytes: `kept` is the shortest prefix of its pbufs that holds
    * them, exact total lengths and reference counts are restored, pbufs off c are untouched. */
  ghost predicate Reallocated(m0: Mem, p: Addr, c: seq<Addr>, newLen: nat, holders: multiset<Addr>, m: Mem,
                              kept: seq<Addr>)
    requires InMem(m0, c) && newLen <= |Flat(m0, c)|
  {
    && kept != [] && kept <= c && InMem(m0, kept[..|kept| - 1])
    && (|kept| > 1 ==> |Flat(m0, kept[..|kept| - 1])| < newLen)
    && IsChain(m, p, kept) && InMem(m, kept)
    && Flat(m, kept) == Flat(m0, c)[..newLen]
    && ExactTot(m, kept)
    && Balanced(m, holders)
    && forall a | a in m0 && a !in c :: a in m && m[a] == m0[a]
  }

  /** The k-th pbuf of c is the last one that new_len bytes need. */
  ghost predicate ReallocAt(m: Mem, c: seq<Addr>, newLen: u16, k: int) {
    && InMem(m, c) && 0 <= k < |c| && InMem(m, c[..k]) && newLen < |Flat(m, c)|
    && 0 <= newLen - |Flat(m, c[..k])| <= m[c[k]].Len() && (k > 0 ==> newLen > |Flat(m, c[..k])|)
  }

  /** The memory behind a pbuf_realloc that ends at the k-th pbuf. */
  ghost function AfterRealloc(m: Mem, c: seq<Addr>, newLen: u16, k: nat): Mem
    requires ReallocAt(m, c, newLen, k)
  {
    var n := Lower(m, c[..k], |Flat(m, c)| - newLen);
    AfterFree(Ended(n, c[k], newLen - |Flat(m, c[..k])|), c[k + 1..])
  }

  /** pbuf_realloc: shrinks, never grows. */
  method Realloc(heap: PbufHeap, p: Addr, newLen: u16, ghost c: seq<Addr>, ghost holders: multiset<Addr>)
    returns (ghost kept: seq<Addr>)
    requires IsChain(heap.mem, p, c) && p != NULL && Balanced(heap.mem, holders)
    requires InMem(heap.mem, c) && ExactTot(heap.mem, c)
    modifies heap
    ensures newLen >= |Flat(old(heap.mem), c)| ==> heap.mem == old(heap.mem)
    ensures newLen < |Flat(old(heap.mem), c)| ==> Reallocated(old(heap.mem), p, c, newLen, holders, heap.mem, kept)
    ensures newLen < |Flat(old(heap.mem), c)| ==>
              ReallocAt(old(heap.mem), c, newLen, |kept| - 1)
              && heap.mem == AfterRealloc(old(heap.mem), c, newLen, |kept| - 1)
  {
    kept := c;
    if newLen >= heap.mem[p].totLen {
      return;
    }
    ghost var m0 := heap.mem;
    ReallocStart(m0, p, c, newLen, holders);
    var q, remLen;
    ghost var k;
    q, remLen, k := LowerUpTo(heap, p, newLen, c, holders);
    ghost var m1 := heap.mem;
    ReallocEnd(m0, p, c, newLen, holders, m1, q, k, remLen);
    Shorten(heap, q, remLen, c[k + 1..]);
    kept := c[..k + 1];
    ReallocIs(m0, p, c, newLen, holders, m1, q, k, remLen);
  }

  lemma {:induction false} ReallocIs(m0: Mem, p: Addr, c: seq<Addr>, newLen: u16, holders: multiset<Addr>,
                                     m: Mem, q: Addr, k: nat, left: u16)
    requires ReallocTodo(m0, p, c, newLen, holders, m, q, k, left) && left <= m[q].Len()
    ensures ReallocAt(m0, c, newLen, k) && AfterRealloc(m0, c, newLen, k) == AfterFree(Ended(m, q, left), c[k + 1..])
    ensures |c[..k + 1]| - 1 == k
  {
  }

  /** Pbuf by pbuf: those in front of the last one kept only count fewer bytes behind them; that one ends where the
    * new length does; payloads stay where they are, and so do flags and references. */
  lemma {:induction false} ReallocFields(m: Mem, p: Addr, c: seq<Addr>, newLen: u16, k: nat)
    requires IsChain(m, p, c) && ReallocAt(m, c, newLen, k) && Referenced(m, c)
    ensures var n, left := AfterRealloc(m, c, newLen, k), newLen - |Flat(m, c[..k])|;
            && (forall a | a in c[..k] :: a in n && n[a] == m[a].(totLen := n[a].totLen))
            && c[k] in n && n[c[k]] == m[c[k]].(data := m[c[k]].data[..left], totLen := left, next := NULL)
            && forall a | a in m && a !in c :: a in n && n[a] == m[a]
  {
    var left, rest := newLen - |Flat(m, c[..k])|, c[k + 1..];
    var low := Lower(m, c[..k], |Flat(m, c)| - newLen);
    KeptApart(m, p, c, k);
    LowerIs(m, c[..k], |Flat(m, c)| - newLen);
    RestApart(m, low, p, c, k, |Flat(m, c)| - newLen, left);
    FreeKeepsOthers(Ended(low, c[k], left), m[c[k]].next, rest);
    forall a | a in m ensures Lowered(m, low, c[..k], |Flat(m, c)| - newLen, a) {
    }
  }

  /** The pbufs to be freed are as they were. */
  lemma {:induction false} RestApart(m: Mem, low: Mem, p: Addr, c: seq<Addr>, k: nat, len: nat, left: u16)
    requires IsChain(m, p, c) && k < |c| && Referenced(m, c) && low.Keys == m.Keys && left <= m[c[k]].Len()
    requires forall a | a in m :: Lowered(m, low, c[..k], len, a)
    ensures c[k] in low && low[c[k]] == m[c[k]]
    ensures IsChain(Ended(low, c[k], left), m[c[k]].next, c[k + 1..])
    ensures Referenced(Ended(low, c[k], left), c[k + 1..])
  {
    KeptApart(m, p, c, k);
    ChainSuffix(m, p, c, k + 1);
    assert Lowered(m, low, c[..k], len, c[k]);
    var cut, rest := Ended(low, c[k], left), c[k + 1..];
    forall a | a in rest ensures a in m && a in cut && cut[a] == m[a] {
      assert a in c && Lowered(m, low, c[..k], len, a);
    }
    ShapeKeeps(m, cut, m[c[k]].next, rest);
  }

  /** The loop of pbuf_realloc: lowers total lengths up to the new last pbuf. */
  method LowerUpTo(heap: PbufHeap, p: Addr, newLen: u16, ghost c: seq<Addr>, ghost holders: multiset<Addr>)
    returns (q: Addr, remLen: u16, ghost k: nat)
    requires ReallocTodo(heap.mem, p, c, newLen, holders, heap.mem, p, 0, newLen)
    modifies heap
    ensures ReallocTodo(old(heap.mem), p, c, newLen, holders, heap.mem, q, k, remLen) && remLen <= heap.mem[q].Len()
  {
    ghost var m0 := heap.mem;
    var shrink := heap.mem[p].totLen - newLen;
    remLen, q, k := newLen, p, 0;
    while remLen > heap.mem[q].Len()
      invariant ReallocTodo(m0, p, c, newLen, holders, heap.mem, q, k, remLen)
      decreases |c| - k
    {
      ReallocStep(m0, p, c, newLen, holders, heap.mem, q, k, remLen);
      remLen := remLen - heap.mem[q].Len();
      heap.mem := heap.mem[q := heap.mem[q].(totLen := (heap.mem[q].totLen - shrink) % U16)];
      q := heap.mem[q].next;
      k := k + 1;
    }
  }

  /** The last steps of pbuf_realloc, on the new last pbuf q. */
  method Shorten(heap: PbufHeap, q: Addr, len: u16, ghost rest: seq<Addr>)
    requires q in heap.mem && len <= heap.mem[q].Len() && q !in rest
    requires IsChain(heap.mem, heap.mem[q].next, rest) && Referenced(heap.mem, rest)
    modifies heap
    ensures heap.mem == AfterFree(Ended(old(heap.mem), q, len), rest)
  {
    ghost var m0 := heap.mem;
    heap.mem := heap.mem[q := heap.mem[q].(data := heap.mem[q].data[..len], totLen := len)];
    var next := heap.mem[q].next;
    ghost var m1 := heap.mem;
    EndedChain(m0, m1, q, rest);
    if next != NULL {
      var _ := Free(heap, next, rest);
    }
    FreeOffChain(m1, next, rest, q);
    FreeCommutes(m1, rest, q, m1[q].(next := NULL));
    heap.mem := heap.mem[q := heap.mem[q].(next := NULL)];
    assert m1[q := m1[q].(next := NULL)] == Ended(m0, q, len);
  }

  ghost function Ended(m: Mem, q: Addr, len: u16): Mem
    requires q in m && len <= m[q].Len()
  {
    m[q := m[q].(data := m[q].data[..len], totLen := len, next := NULL)]
  }

  lemma {:induction false} EndedChain(m: Mem, n: Mem, q: Addr, rest: seq<Addr>)
    requires q in m && q !in rest && IsChain(m, m[q].next, rest) && Referenced(m, rest)
    requires n.Keys == m.Keys && forall a | a in m && a != q :: n[a] == m[a]
    ensures IsChain(n, m[q].next, rest) && Referenced(n, rest)
    ensures m[q].next == NULL ==> rest == []
  {
    ChainInMem(m, m[q].next, rest);
    ShapeKeeps(m, n, m[q].next, rest);
  }

  lemma {:induction false} FreeCommutes(m: Mem, c: seq<Addr>, a: Addr, x: Pbuf)
    requires a in m && a !in c
    ensures AfterFree(m[a := x], c) == AfterFree(m, c)[a := x]
    decreases |c|
  {
    if c != [] && c[0] in m && m[c[0]].ref == 1 {
      assert m[a := x] - {c[0]} == (m - {c[0]})[a := x];
      FreeCommutes(m - {c[0]}, c[1..], a, x);
    }
  }

  ghost predicate ReallocTodo(m0: Mem, p: Addr, c: seq<Addr>, newLen: nat, holders: multiset<Addr>,
                              m: Mem, q: Addr, k: nat, left: nat) {
    && IsChain(m0, p, c) && InMem(m0, c) && ExactTot(m0, c) && Balanced(m0, holders) && newLen < |Flat(m0, c)|
    && k < |c| && q == c[k] && q in m && InMem(m0, c[..k])
    && left == newLen - |Flat(m0, c[..k])| && (k > 0 ==> left > 0)
    && m[q] == m0[q] && m == Lower(m0, c[..k], |Flat(m0, c)| - newLen)
  }

  lemma {:induction false} ReallocStart(m0: Mem, p: Addr, c: seq<Addr>, newLen: nat, holders: multiset<Addr>)
    requires IsChain(m0, p, c) && p != NULL && InMem(m0, c) && ExactTot(m0, c) && Balanced(m0, holders)
        && newLen < |Flat(m0, c)|
    ensures ReallocTodo(m0, p, c, newLen, holders, m0, p, 0, newLen)
  {
    assert c[..0] == [] && m0 == Lower(m0, [], |Flat(m0, c)| - newLen);
  }

  lemma {:induction false} ReallocStep(m0: Mem, p: Addr, c: seq<Addr>, newLen: nat, holders: multiset<Addr>,
                                       m: Mem, q: Addr, k: nat, left: nat)
    requires ReallocTodo(m0, p, c, newLen, holders, m, q, k, left) && left > m[q].Len()
    ensures ReallocTodo(m0, p, c, newLen, holders,
        m[q := m[q].(totLen := (m[q].totLen - (|Flat(m0, c)| - newLen)) % U16)],
                        m[q].next, k + 1, left - m[q].Len())
  {
    FlatSplit(m0, c, k);
    ChainSuffix(m0, p, c, k + 1);
    ChainDistinct(m0, p, c);
    assert |Flat(m0, c[k + 1..])| > 0;
    assert c[..k + 1] == c[..k] + [q];
    assert c[k + 1] !in c[..k + 1];
  }

  lemma {:induction false} ReallocEnd(m0: Mem, p: Addr, c: seq<Addr>, newLen: nat, holders: multiset<Addr>,
                                      m: Mem, q: Addr, k: nat, left: nat)
    requires ReallocTodo(m0, p, c, newLen, holders, m, q, k, left) && left <= m[q].Len()
    ensures q !in c[k + 1..] && IsChain(m, m[q].next, c[k + 1..]) && Referenced(m, c[k + 1..])
    ensures Reallocated(m0, p, c, newLen, holders, AfterFree(Ended(m, q, left), c[k + 1..]), c[..k + 1])
  {
    LowerIs(m0, c[..k], |Flat(m0, c)| - newLen);
    LoweredEnd(m0, p, c, newLen, holders, m, q, k, left);
  }

  lemma {:induction false} LowerIs(m: Mem, c: seq<Addr>, len: nat)
    ensures var n := Lower(m, c, len); n.Keys == m.Keys && forall a | a in m :: Lowered(m, n, c, len, a)
  {
  }

  ghost predicate Lowered(m: Mem, n: Mem, c: seq<Addr>, len: nat, a: Addr) {
    a in m && a in n && n[a] == if a in c then m[a].(totLen := (m[a].totLen - len) % U16) else m[a]
  }

  lemma {:induction false} LoweredEnd(m0: Mem, p: Addr, c: seq<Addr>, newLen: nat, holders: multiset<Addr>,
                                      m: Mem, q: Addr, k: nat, left: nat)
    requires IsChain(m0, p, c) && InMem(m0, c) && ExactTot(m0, c) && Balanced(m0, holders) && newLen < |Flat(m0, c)|
    requires k < |c| && q == c[k] && q in m && InMem(m0, c[..k]) && left == newLen - |Flat(m0, c[..k])|
        && (k > 0 ==> left > 0)
    requires m[q] == m0[q] && left <= m[q].Len() && left < U16
    requires m.Keys == m0.Keys && forall a | a in m0 :: Lowered(m0, m, c[..k], |Flat(m0, c)| - newLen, a)
    ensures q !in c[k + 1..] && IsChain(m, m[q].next, c[k + 1..]) && Referenced(m, c[k + 1..])
    ensures Reallocated(m0, p, c, newLen, holders, AfterFree(Ended(m, q, left), c[k + 1..]), c[..k + 1])
  {
    var cut, len := Ended(m, q, left), |Flat(m0, c)| - newLen;
    forall a | a in m0 ensures m[a].next == m0[a].next && m[a].data == m0[a].data && m[a].ref == m0[a].ref {
      assert Lowered(m0, m, c[..k], len, a);
    }
    EndChains(m0, p, c, holders, m, q, k, left);
    forall a | a in m0 && a != c[k] ensures Lowered(m0, cut, c[..k], len, a) {
      assert Lowered(m0, m, c[..k], len, a);
    }
    ReallocKept(m0, p, c, newLen, cut, k, left);
    LastKept(m0, c, newLen, k, left);
  }

  lemma {:induction false} LastKept(m: Mem, c: seq<Addr>, newLen: nat, k: nat, left: nat)
    requires InMem(m, c) && k < |c| && InMem(m, c[..k]) && left == newLen - |Flat(m, c[..k])| && (k > 0 ==> left > 0)
    ensures var kept := c[..k + 1];
            && kept != [] && kept <= c && InMem(m, kept[..|kept| - 1])
            && (|kept| > 1 ==> |Flat(m, kept[..|kept| - 1])| < newLen)
  {
    assert c[..k + 1][..k] == c[..k];
  }

  /** The chain behind the new last pbuf, ready to be freed. */
  lemma {:induction false} EndChains(m0: Mem, p: Addr, c: seq<Addr>, holders: multiset<Addr>, m: Mem, q: Addr,
                                     k: nat, left: nat)
    requires IsChain(m0, p, c) && Balanced(m0, holders) && k < |c| && q == c[k] && q in m0 && left <= m0[q].Len()
    requires m.Keys == m0.Keys && m[q] == m0[q]
    requires forall a | a in m0 :: m[a].next == m0[a].next && m[a].data == m0[a].data && m[a].ref == m0[a].ref
    ensures var rest, cut := c[k + 1..], Ended(m, q, left);
            && q !in rest && IsChain(m, m0[q].next, rest) && IsChain(cut, m0[q].next, rest)
            && Referenced(m, rest) && Referenced(cut, rest) && Balanced(AfterFree(cut, rest), holders)
  {
    var rest, cut := c[k + 1..], Ended(m, q, left);
    assert IsChain(m0, m0[q].next, rest) by { ChainSuffix(m0, p, c, k + 1); }
    assert q !in rest by { ChainDistinct(m0, p, c); }
    ChainInMem(m0, m0[q].next, rest);
    assert Referenced(m0, rest) by {
      forall a | a in rest ensures a in m0 && m0[a].ref > 0 { assert Counted(m0, holders, a); }
    }
    ShapeKeeps(m0, m, m0[q].next, rest);
    EndedChain(m, cut, q, rest);
    EndBalanced(m0, cut, holders, q, rest);
  }

  lemma {:induction false} ReallocKept(m0: Mem, p: Addr, c: seq<Addr>, newLen: nat, cut: Mem, k: nat, left: nat)
    requires IsChain(m0, p, c) && InMem(m0, c) && ExactTot(m0, c) && newLen <= |Flat(m0, c)| && k < |c|
    requires InMem(m0, c[..k]) && left == newLen - |Flat(m0, c[..k])| && left <= m0[c[k]].Len()
    requires cut.Keys == m0.Keys && IsChain(cut, m0[c[k]].next, c[k + 1..]) && Referenced(cut, c[k + 1..])
    requires forall a | a in m0 && a != c[k] :: Lowered(m0, cut, c[..k], |Flat(m0, c)| - newLen, a)
    requires cut[c[k]].next == NULL && cut[c[k]].data == m0[c[k]].data[..left] && cut[c[k]].totLen == left
    ensures var n, kept := AfterFree(cut, c[k + 1..]), c[..k + 1];
            && IsChain(n, p, kept) && InMem(n, kept) && Flat(n, kept) == Flat(m0, c)[..newLen] && ExactTot(n, kept)
            && forall a | a in m0 && a !in c :: a in n && n[a] == m0[a]
  {
    var n, kept := AfterFree(cut, c[k + 1..]), c[..k + 1];
    KeptIs(m0, p, c, |Flat(m0, c)| - newLen, cut, k);
    KeptParted(m0, n, p, c, newLen, k, left);
  }

  lemma {:induction false} KeptParted(m0: Mem, n: Mem, p: Addr, c: seq<Addr>, newLen: nat, k: nat, left: nat)
    requires IsChain(m0, p, c) && InMem(m0, c) && ExactTot(m0, c) && newLen <= |Flat(m0, c)| && k < |c|
    requires InMem(m0, c[..k]) && left == newLen - |Flat(m0, c[..k])| && left <= m0[c[k]].Len()
    requires InMem(n, c[..k + 1]) && c[k] in n
    requires n[c[k]].next == NULL && n[c[k]].data == m0[c[k]].data[..left] && n[c[k]].totLen == left
    requires forall a | a in c[..k] :: Lighter(m0, n, a, |Flat(m0, c)| - newLen) && n[a].next == m0[a].next
    ensures var kept := c[..k + 1];
            IsChain(n, p, kept) && Flat(n, kept) == Flat(m0, c)[..newLen] && ExactTot(n, kept)
  {
    assert IsChain(n, p, c[..k + 1]) by { KeptChain(m0, n, p, c, k, |Flat(m0, c)| - newLen); }
    KeptBytes(m0, n, c, k, newLen, left);
  }

  lemma {:induction false} KeptChain(m0: Mem, n: Mem, p: Addr, c: seq<Addr>, k: nat, len: int)
    requires IsChain(m0, p, c) && k < |c| && c[k] in n && n[c[k]].next == NULL
    requires forall a | a in c[..k] :: Lighter(m0, n, a, len) && n[a].next == m0[a].next
    ensures IsChain(n, p, c[..k + 1])
  {
    forall i {:trigger c[i]} | 0 <= i < k ensures c[i] in m0 && c[i] in n && n[c[i]].next == m0[c[i]].next {
      assert c[i] in c[..k];
    }
    EndedAt(m0, n, p, c, k);
  }

  /** A chain that ends behind its k-th pbuf. */
  lemma {:induction false} EndedAt(m: Mem, n: Mem, p: Addr, c: seq<Addr>, k: nat)
    requires IsChain(m, p, c) && k < |c| && c[k] in n && n[c[k]].next == NULL
    requires forall i {:trigger c[i]} | 0 <= i < k :: c[i] in m && c[i] in n && n[c[i]].next == m[c[i]].next
    ensures IsChain(n, p, c[..k + 1])
    decreases k
  {
    assert c[..k + 1][0] == c[0];
    if k > 0 {
      assert c[..k + 1][1..] == c[1..][..k];
      assert n[c[0]].next == m[c[0]].next;
      EndedAt(m, n, m[p].next, c[1..], k - 1);
    } else {
      assert c[..1][1..] == [];
    }
  }

  /** Behind the free: the pbufs kept are there, and those off the chain. */
  lemma {:induction false} KeptIs(m0: Mem, p: Addr, c: seq<Addr>, len: nat, cut: Mem, k: nat)
    requires IsChain(m0, p, c) && InMem(m0, c) && k < |c| && cut.Keys == m0.Keys
    requires IsChain(cut, m0[c[k]].next, c[k + 1..]) && Referenced(cut, c[k + 1..])
    requires forall a | a in m0 && a != c[k] :: Lowered(m0, cut, c[..k], len, a)
    ensures var n := AfterFree(cut, c[k + 1..]);
            && InMem(n, c[..k + 1]) && c[k] in n && n[c[k]] == cut[c[k]]
            && (forall a | a in c[..k] :: Lighter(m0, n, a, len) && n[a].next == m0[a].next)
            && forall a | a in m0 && a !in c :: a in n && n[a] == m0[a]
  {
    FreeKeepsOthers(cut, m0[c[k]].next, c[k + 1..]);
    KeptApart(m0, p, c, k);
    forall a | a in m0 && a != c[k] ensures Lowered(m0, cut, c[..k], len, a) {
    }
  }

  lemma {:induction false} FreeKeepsOthers(m: Mem, p: Addr, c: seq<Addr>)
    requires IsChain(m, p, c) && Referenced(m, c)
    ensures forall a | a in m && a !in c :: a in AfterFree(m, c) && AfterFree(m, c)[a] == m[a]
  {
    forall a | a in m && a !in c ensures a in AfterFree(m, c) && AfterFree(m, c)[a] == m[a] {
      FreeOffChain(m, p, c, a);
    }
  }

  /** The part of a chain up to its k-th pbuf, the part in front of that, and the rest. */
  lemma {:induction false} KeptApart(m: Mem, p: Addr, c: seq<Addr>, k: nat)
    requires IsChain(m, p, c) && k < |c|
    ensures forall a | a in c[..k + 1] :: a in c && a !in c[k + 1..]
    ensures forall a | a in c[..k] :: a in c && a != c[k] && a !in c[k + 1..]
    ensures c[k] in c && c[k] !in c[k + 1..] && c[k] !in c[..k]
    ensures forall a :: a in c[k + 1..] ==> a in c
  {
    ChainDistinct(m, p, c);
  }

  lemma {:induction false} EndBalanced(m0: Mem, cut: Mem, holders: multiset<Addr>, q: Addr, rest: seq<Addr>)
    requires Balanced(m0, holders) && q in m0 && q !in rest && IsChain(m0, m0[q].next, rest)
    requires cut.Keys == m0.Keys && cut[q].next == NULL && cut[q].ref == m0[q].ref
    requires forall a | a in m0 && a != q ::
        cut[a].next == m0[a].next && cut[a].ref == m0[a].ref
        && cut[a].data == m0[a].data
    ensures Balanced(AfterFree(cut, rest), holders)
  {
    var next := m0[q].next;
    var m1 := cut[q := cut[q].(next := next)];
    BalancedSame(m0, m1, holders);
    BalancedRelink(m1, holders, q, cut[q]);
    assert m1[q := cut[q]] == cut;
    if next != NULL {
      assert holders - Token(NULL) + Token(next) == holders + multiset{next};
      ChainInMem(m0, next, rest);
      ShapeKeeps(m0, cut, next, rest);
      FreeBalanced(cut, holders + multiset{next}, next, rest);
      assert holders + multiset{next} - multiset{next} == holders;
    } else {
      ChainInMem(m0, next, rest);
      assert holders - Token(NULL) + Token(NULL) == holders;
    }
  }

  /** The kept pbufs hold the first newLen bytes and exact total lengths. */
  lemma {:induction false} KeptBytes(m: Mem, n: Mem, c: seq<Addr>, k: nat, newLen: nat, left: nat)
    requires InMem(m, c) && k < |c| && InMem(n, c[..k + 1]) && ExactTot(m, c) && newLen <= |Flat(m, c)|
    requires InMem(m, c[..k]) && left == newLen - |Flat(m, c[..k])| && left <= m[c[k]].Len()
    requires forall a | a in c[..k] :: Lighter(m, n, a, |Flat(m, c)| - newLen)
    requires n[c[k]].data == m[c[k]].data[..left] && n[c[k]].totLen == left
    ensures Flat(n, c[..k + 1]) == Flat(m, c)[..newLen] && ExactTot(n, c[..k + 1])
  {
    var front, back := c[..k], c[k..];
    FlatSplit(m, c, k);
    assert c == front + back && c[..k + 1] == front + back[..1] && back[0] == c[k];
    KeptParts(m, n, front, back, left, |Flat(m, c)| - newLen);
  }

  lemma {:induction false} KeptParts(m: Mem, n: Mem, front: seq<Addr>, back: seq<Addr>, left: nat, drop: nat)
    requires InMem(m, front + back) && back != [] && InMem(n, front + back[..1]) && ExactTot(m, front + back)
    requires InMem(m, front) && InMem(m, back) && left + drop == |Flat(m, back)| && left <= m[back[0]].Len()
    requires forall a | a in front :: Lighter(m, n, a, drop)
    requires n[back[0]].data == m[back[0]].data[..left] && n[back[0]].totLen == left
    ensures Flat(n, front + back[..1]) == Flat(m, front) + m[back[0]].data[..left]
    ensures ExactTot(n, front + back[..1])
  {
    var last := back[..1];
    assert last[0] == back[0] && last[1..] == [];
    assert Flat(n, last) == m[back[0]].data[..left] && ExactTot(n, last);
    assert forall a | a in front :: Lighter(m, n, a, drop) ==> n[a].data == m[a].data;
    FlatKeeps(m, n, front);
    FlatConcat(n, front, last);
    KeptTotals(m, n, front, back, last, drop);
  }

  lemma {:induction false} KeptTotals(m: Mem, n: Mem, front: seq<Addr>, c: seq<Addr>, d: seq<Addr>, drop: nat)
    requires InMem(m, front + c) && InMem(n, front + d) && InMem(m, c) && InMem(n, d) && ExactTot(m, front + c)
    requires forall a | a in front :: Lighter(m, n, a, drop)
    requires ExactTot(n, d) && |Flat(n, d)| + drop == |Flat(m, c)|
    ensures ExactTot(n, front + d) && |Flat(n, front + d)| + drop == |Flat(m, front + c)|
  {
    if front == [] {
      assert front + c == c && front + d == d;
    } else {
      var t := front[1..];
      assert (front + c)[1..] == t + c && (front + d)[1..] == t + d;
      KeptTotals(m, n, t, c, d, drop);
      LighterHead(m, n, front + c, front + d, drop);
    }
  }

  lemma {:induction false} LighterHead(m: Mem, n: Mem, c: seq<Addr>, d: seq<Addr>, drop: nat)
    requires InMem(m, c) && InMem(n, d) && ExactTot(m, c) && c != [] && d != [] && d[0] == c[0]
    requires Lighter(m, n, c[0], drop)
    requires ExactTot(n, d[1..]) && |Flat(n, d[1..])| + drop == |Flat(m, c[1..])|
    ensures ExactTot(n, d) && |Flat(n, d)| + drop == |Flat(m, c)|
  {
  }

  /** The pbuf has its bytes and counts len less. */
  ghost predicate Lighter(m: Mem, n: Mem, a: Addr, len: int) {
    a in m && a in n && n[a].data == m[a].data && n[a].totLen == (m[a].totLen - len) % U16
  }

  // ---------- pbuf_split_64k ----------

  /** The chain c of m0 cut in front of its k-th pbuf: no byte is lost; the front fits 16 bits,
    * could not take one pbuf more, and has exact total lengths; the rest has a new owner. */
  ghost predicate Split(m0: Mem, p: Addr, c: seq<Addr>, holders: multiset<Addr>, m: Mem, rest: Addr, k: nat)
    requires k <= |c| && InMem(m0, c) && InMem(m0, c[..k]) && InMem(m0, c[k..])
  {
    && IsChain(m, p, c[..k]) && IsChain(m, rest, c[k..]) && InMem(m, c[..k]) && InMem(m, c[k..])
    && Flat(m, c[..k]) == Flat(m0, c[..k]) && Flat(m, c[k..]) == Flat(m0, c[k..])
    && |Flat(m, c[..k])| < U16 && ExactTot(m, c[..k]) && ModTot(m, c[k..])
    && (k < |c| ==> |Flat(m0, c[..k])| + m0[c[k]].Len() >= U16 && (m0[p].fin ==> m[rest].fin))
    && Balanced(m, holders + Token(rest))
    && forall a | a in m0 && a !in c :: a in m && m[a] == m0[a]
  }

  /** The first k pbufs of c fit 16 bits, and with one more they do not. */
  ghost predicate SplitsAt(m: Mem, c: seq<Addr>, k: nat) {
    && InMem(m, c) && 0 < k < |c| && InMem(m, c[..k])
    && |Flat(m, c[..k])| < U16 <= |Flat(m, c[..k])| + m[c[k]].Len()
  }

  /** The memory behind a pbuf_split_64k in front of the k-th pbuf. */
  ghost function AfterSplit(m: Mem, c: seq<Addr>, k: nat): Mem
    requires SplitsAt(m, c, k)
  {
    var low := Lower(m[c[k - 1] := m[c[k - 1]].(next := NULL)], c[..k], m[c[k]].totLen);
    if m[c[0]].fin then low[c[k] := low[c[k]].(fin := true)] else low
  }

  /** Pbuf by pbuf: the rest takes over the FIN of the first pbuf, if that has one, and no other flag changes; links
    * change at the cut alone, and total lengths in the front alone. */
  lemma {:induction false} SplitFields(m: Mem, p: Addr, c: seq<Addr>, k: nat)
    requires IsChain(m, p, c) && SplitsAt(m, c, k)
    ensures p in m
    ensures var n := AfterSplit(m, c, k);
            && n.Keys == m.Keys
            && (forall a | a in m && a !in c[..k] :: n[a] == m[a].(fin := m[a].fin || (a == c[k] && m[p].fin)))
            && (forall a | a in c[..k] ::
                  n[a] == m[a].(next := if a == c[k - 1] then NULL else m[a].next, totLen := n[a].totLen))
  {
    SplitDisjoint(m, p, c, k);
    assert p == c[0] && c[0] in c && c[k] in c;
  }

  /** pbuf_split_64k; the 16-bit sum of the front wraps when the front would not fit. */
  method Split64k(heap: PbufHeap, p: Addr, ghost c: seq<Addr>, ghost holders: multiset<Addr>)
      returns (rest: Addr, ghost k: nat)
    requires IsChain(heap.mem, p, c) && InMem(heap.mem, c) && ModTot(heap.mem, c) && Balanced(heap.mem, holders)
    modifies heap
    ensures k <= |c| && InMem(old(heap.mem), c[..k]) && InMem(old(heap.mem), c[k..])
    ensures Split(old(heap.mem), p, c, holders, heap.mem, rest, k)
    ensures if k == |c| then heap.mem == old(heap.mem)
            else SplitsAt(old(heap.mem), c, k) && heap.mem == AfterSplit(old(heap.mem), c, k)
  {
    ghost var m0 := heap.mem;
    rest, k := NULL, |c|;
    if p == NULL || heap.mem[p].next == NULL {
      SplitNothing(m0, p, c, holders);
      return;
    }
    var i, r := p, heap.mem[p].next;
    var totLenFront: u16 := heap.mem[p].Len();
    k := 1;
    FrontStart(m0, p, c);
    while r != NULL && (totLenFront + heap.mem[r].Len()) % U16 >= totLenFront
      invariant heap.mem == m0 && Front(m0, p, c, k, i, r, totLenFront)
      decreases |c| - k
    {
      FrontStep(m0, p, c, k, i, r, totLenFront);
      totLenFront := (totLenFront + heap.mem[r].Len()) % U16;
      i := r;
      r := heap.mem[r].next;
      k := k + 1;
    }
    if r == NULL {
      assert c[..k] == c;
      SplitNothing(m0, p, c, holders);
      heap.mem := heap.mem[i := heap.mem[i].(next := NULL)];
      assert heap.mem == m0;
      return;
    }
    LowerFront(heap, p, i, r, c, k);
    SplitEnd(m0, p, c, holders, k, i, r, totLenFront);
    if heap.mem[p].fin {
      heap.mem := heap.mem[r := heap.mem[r].(fin := true)];
    }
    rest := r;
  }

  /** Cuts the front off behind i and rebases its total lengths. */
  method LowerFront(heap: PbufHeap, p: Addr, last: Addr, r: Addr, ghost c: seq<Addr>, ghost k: nat)
    requires IsChain(heap.mem, p, c) && 0 < k < |c| && last == c[k - 1] && r == c[k] && InMem(heap.mem, c)
    modifies heap
    ensures heap.mem == Lower(old(heap.mem)[last := old(heap.mem)[last].(next := NULL)], c[..k],
        old(heap.mem)[r].totLen)
  {
    ghost var m0, j := heap.mem, 0;
    heap.mem := heap.mem[last := heap.mem[last].(next := NULL)];
    ghost var m1 := heap.mem;
    LowerStart(m0, p, c, k);
    var i := p;
    while i != NULL
      invariant j <= k && i == (if j < k then c[j] else NULL)
      invariant LowerTodo(m0, p, c, k, heap.mem, j)
      decreases k - j
    {
      LowerStep(m0, p, c, k, heap.mem, j);
      heap.mem := heap.mem[i := heap.mem[i].(totLen := (heap.mem[i].totLen - heap.mem[r].totLen) % U16)];
      i := heap.mem[i].next;
      j := j + 1;
    }
  }

  ghost predicate LowerTodo(m0: Mem, p: Addr, c: seq<Addr>, k: nat, m: Mem, j: nat) {
    && IsChain(m0, p, c) && InMem(m0, c) && 0 < k < |c| && j <= k && (j < k ==> c[j] != NULL)
    && m == Lower(m0[c[k - 1] := m0[c[k - 1]].(next := NULL)], c[..j], m0[c[k]].totLen)
  }

  lemma {:induction false} LowerStart(m0: Mem, p: Addr, c: seq<Addr>, k: nat)
    requires IsChain(m0, p, c) && InMem(m0, c) && 0 < k < |c|
    ensures LowerTodo(m0, p, c, k, m0[c[k - 1] := m0[c[k - 1]].(next := NULL)], 0) && p == c[0]
  {
    var m1 := m0[c[k - 1] := m0[c[k - 1]].(next := NULL)];
    ChainInMem(m0, p, c);
    assert c[..0] == [] && Lower(m1, [], m0[c[k]].totLen) == m1 && c[0] in c;
  }

  lemma {:induction false} LowerStep(m0: Mem, p: Addr, c: seq<Addr>, k: nat, m: Mem, j: nat)
    requires LowerTodo(m0, p, c, k, m, j) && j < k
    ensures c[k] in m && c[j] in m && c[j] != NULL && c[j] != c[k]
    ensures m[c[k]].totLen == m0[c[k]].totLen && m[c[j]].next == if j + 1 < k then c[j + 1] else NULL
    ensures j + 1 < k ==> c[j + 1] != NULL
    ensures LowerTodo(m0, p, c, k, m[c[j] := m[c[j]].(totLen := (m[c[j]].totLen - m[c[k]].totLen) % U16)], j + 1)
  {
    ChainInMem(m0, p, c);
    ChainDistinct(m0, p, c);
    ChainSuffix(m0, p, c, j + 1);
    assert c[..j + 1] == c[..j] + [c[j]];
    assert c[j] in c;
  }

  /** The loop of pbuf_split_64k has taken k pbufs, the last one i, with sum bytes; r is next. */
  ghost predicate Front(m0: Mem, p: Addr, c: seq<Addr>, k: nat, i: Addr, r: Addr, sum: nat) {
    && IsChain(m0, p, c) && InMem(m0, c) && 0 < k <= |c| && i == c[k - 1]
    && r == (if k < |c| then c[k] else NULL) && (r == NULL ==> m0[i].next == NULL)
    && (k < |c| ==> c[k] != NULL && c[k] in m0)
    && InMem(m0, c[..k]) && sum == |Flat(m0, c[..k])| < U16
  }

  lemma {:induction false} FrontStart(m0: Mem, p: Addr, c: seq<Addr>)
    requires IsChain(m0, p, c) && InMem(m0, c) && p != NULL
    ensures Front(m0, p, c, 1, p, m0[p].next, m0[p].Len())
  {
    ChainInMem(m0, p, c);
    ChainSuffix(m0, p, c, 1);
    FlatSplit(m0, c, 0);
    assert c[..0] == [];
  }

  lemma {:induction false} FrontStep(m0: Mem, p: Addr, c: seq<Addr>, k: nat, i: Addr, r: Addr, sum: nat)
    requires Front(m0, p, c, k, i, r, sum) && r != NULL
    requires (sum + m0[r].Len()) % U16 >= sum
    ensures Front(m0, p, c, k + 1, r, m0[r].next, (sum + m0[r].Len()) % U16)
  {
    ChainInMem(m0, p, c);
    ChainSuffix(m0, p, c, k + 1);
    FlatSplit(m0, c, k);
  }

  /** A chain whose bytes fit 16 bits stays whole, and its total lengths were exact already. */
  lemma {:induction false} SplitNothing(m0: Mem, p: Addr, c: seq<Addr>, holders: multiset<Addr>)
    requires IsChain(m0, p, c) && InMem(m0, c) && ModTot(m0, c) && Balanced(m0, holders)
    requires p == NULL || m0[p].next == NULL || |Flat(m0, c)| < U16
    ensures c[..|c|] == c && Split(m0, p, c, holders, m0, NULL, |c|)
  {
    assert c[..|c|] == c && c[|c|..] == [];
    assert holders + Token(NULL) == holders;
    if c != [] {
      ChainInMem(m0, m0[p].next, c[1..]);
      ExactIffFits(m0, c);
    }
  }

  lemma {:induction false} SplitEnd(m0: Mem, p: Addr, c: seq<Addr>, holders: multiset<Addr>, k: nat, i: Addr,
                                    r: Addr, sum: nat)
    requires Front(m0, p, c, k, i, r, sum) && r != NULL && ModTot(m0, c) && Balanced(m0, holders)
    requires (sum + m0[r].Len()) % U16 < sum
    ensures InMem(m0, c[k..])
    ensures var m := Lower(m0[i := m0[i].(next := NULL)], c[..k], m0[r].totLen);
            && p in m && r in m && m[p].fin == m0[p].fin
            && (m[p].fin ==> Split(m0, p, c, holders, m[r := m[r].(fin := true)], r, k))
            && (!m[p].fin ==> Split(m0, p, c, holders, m, r, k))
  {
    SplitDisjoint(m0, p, c, k);
    assert p == c[0] && c[0] in c && c[k] in c;
    var m := Lower(m0[i := m0[i].(next := NULL)], c[..k], m0[r].totLen);
    SplitResult(m0, p, c, holders, k, sum, m, m0[p].fin);
  }

  lemma {:induction false} SplitResult(m0: Mem, p: Addr, c: seq<Addr>, holders: multiset<Addr>, k: nat, sum: nat,
                                       low: Mem, fin: bool)
    requires IsChain(m0, p, c) && InMem(m0, c) && 0 < k < |c| && ModTot(m0, c) && Balanced(m0, holders)
    requires InMem(m0, c[..k]) && InMem(m0, c[k..]) && sum == |Flat(m0, c[..k])| < U16 && sum + m0[c[k]].Len() >= U16
    requires c[k] in m0 && c[k - 1] in m0 && p in m0 && fin == m0[p].fin
    requires low == Lower(m0[c[k - 1] := m0[c[k - 1]].(next := NULL)], c[..k], m0[c[k]].totLen)
    ensures c[k] in low && Split(m0, p, c, holders, if fin then low[c[k] := low[c[k]].(fin := true)] else low, c[k], k)
  {
    var m := if fin then low[c[k] := low[c[k]].(fin := true)] else low;
    LowFacts(m0, p, c, k, low, m);
    assert InMem(m, c[..k]) by {
      forall a | a in c[..k] ensures a in m { assert InFront(m0, m, c[k - 1], m0[c[k]].totLen, a); }
    }
    assert IsChain(m, p, c[..k]) && Flat(m, c[..k]) == Flat(m0, c[..k]) && ExactTot(m, c[..k]) by {
      SplitFront(m0, p, c, k, m);
    }
    assert IsChain(m, c[k], c[k..]) && InMem(m, c[k..]) && Flat(m, c[k..]) == Flat(m0, c[k..]) && ModTot(m, c[k..]) by {
      SplitBack(m0, p, c, k, m);
    }
    assert Balanced(m, holders + Token(c[k])) by { SplitBalanced(m0, m, holders, p, c, k); }
  }

  /** What a split does to each pbuf. */
  lemma {:induction false} LowFacts(m0: Mem, p: Addr, c: seq<Addr>, k: nat, low: Mem, m: Mem)
    requires IsChain(m0, p, c) && InMem(m0, c) && 0 < k < |c| && c[k] in m0 && c[k - 1] in m0
    requires low == Lower(m0[c[k - 1] := m0[c[k - 1]].(next := NULL)], c[..k], m0[c[k]].totLen)
    requires m == low || m == low[c[k] := low[c[k]].(fin := true)]
    ensures m.Keys == m0.Keys
    ensures forall a | a in c[..k] :: InFront(m0, m, c[k - 1], m0[c[k]].totLen, a)
    ensures forall a | a in c[k..] :: a in m && a in m0 && m[a] == m0[a].(fin := m[a].fin)
    ensures forall a | a in m0 :: m[a].ref == m0[a].ref && m[a].next == if a == c[k - 1] then NULL else m0[a].next
    ensures forall a | a in m0 && a !in c :: a in m && m[a] == m0[a]
  {
    SplitDisjoint(m0, p, c, k);
    assert c == c[..k] + c[k..] && c[k] in c && c[k - 1] in c;
  }

  lemma {:induction false} SplitFront(m0: Mem, p: Addr, c: seq<Addr>, k: nat, m: Mem)
    requires IsChain(m0, p, c) && InMem(m0, c) && 0 < k < |c| && ModTot(m0, c)
    requires InMem(m0, c[..k]) && |Flat(m0, c[..k])| < U16 && InMem(m, c[..k])
    requires forall a | a in c[..k] :: InFront(m0, m, c[k - 1], m0[c[k]].totLen, a)
    ensures IsChain(m, p, c[..k]) && Flat(m, c[..k]) == Flat(m0, c[..k]) && ExactTot(m, c[..k])
  {
    FrontChain(m0, p, c, k, m, m0[c[k]].totLen);
    FrontTotals(m0, c, k, m);
  }

  /** A pbuf of the front: last is its last one, len what all lengths are lowered by. */
  ghost predicate InFront(m0: Mem, m: Mem, last: Addr, len: nat, a: Addr) {
    && a in m0 && a in m
    && m[a] == m0[a].(next := if a == last then NULL else m0[a].next, totLen := (m0[a].totLen - len) % U16)
  }

  lemma {:induction false} FrontChain(m0: Mem, p: Addr, c: seq<Addr>, k: nat, m: Mem, len: nat)
    requires IsChain(m0, p, c) && 0 < k <= |c| && forall a | a in c[..k] :: InFront(m0, m, c[k - 1], len, a)
    ensures IsChain(m, p, c[..k])
  {
    ChainDistinct(m0, p, c);
    forall i {:trigger c[i]} | 0 <= i < k
        ensures c[i] in m0 && c[i] in m && m[c[i]].next == if i < k - 1 then m0[c[i]].next else NULL {
      assert c[i] in c[..k];
    }
    EndedAt(m0, m, p, c, k - 1);
  }

  lemma {:induction false} FrontTotals(m0: Mem, c: seq<Addr>, k: nat, m: Mem)
    requires InMem(m0, c) && 0 < k < |c| && ModTot(m0, c) && InMem(m0, c[..k]) && |Flat(m0, c[..k])| < U16
        && InMem(m, c[..k])
    requires forall a | a in c[..k] :: InFront(m0, m, c[k - 1], m0[c[k]].totLen, a)
    ensures Flat(m, c[..k]) == Flat(m0, c[..k]) && ExactTot(m, c[..k])
  {
    var front, back := c[..k], c[k..];
    assert c == front + back;
    forall a | a in front ensures Lighter(m0, m, a, m0[back[0]].totLen) {
      assert InFront(m0, m, c[k - 1], m0[c[k]].totLen, a);
    }
    forall a | a in front ensures m[a].data == m0[a].data { assert Lighter(m0, m, a, m0[back[0]].totLen); }
    FlatKeeps(m0, m, front);
    SplitExact(m0, m, front, back);
  }

  lemma {:induction false} SplitBack(m0: Mem, p: Addr, c: seq<Addr>, k: nat, m: Mem)
    requires IsChain(m0, p, c) && InMem(m0, c) && 0 < k < |c| && ModTot(m0, c)
    requires InMem(m, c[k..]) && InMem(m0, c[k..])
    requires forall a | a in c[k..] :: m[a] == m0[a].(fin := m[a].fin)
    ensures IsChain(m, c[k], c[k..]) && Flat(m, c[k..]) == Flat(m0, c[k..]) && ModTot(m, c[k..])
  {
    ChainSuffix(m0, p, c, k);
    ShapeKeeps(m0, m, c[k], c[k..]);
    ModSuffix(m0, c, k);
    TotKeeps(m0, m, c[k..]);
  }

  lemma {:induction false} SplitDisjoint(m0: Mem, p: Addr, c: seq<Addr>, k: nat)
    requires IsChain(m0, p, c) && InMem(m0, c) && 0 < k < |c|
    ensures InMem(m0, c[k..]) && c[k] !in c[..k] && c[k] in c[k..] && c[k - 1] in c[..k]
    ensures forall a | a in c[k..] :: a in c && a !in c[..k]
    ensures forall a | a in c[..k - 1] :: a in c[..k] && a != c[k - 1]
  {
    ChainDistinct(m0, p, c);
    assert c[k..][0] == c[k] && c[..k][k - 1] == c[k - 1];
    forall a | a in c[..k - 1] ensures a in c[..k] {
      var i :| 0 <= i < k - 1 && c[i] == a;
      assert c[..k][i] == a;
    }
  }

  lemma {:induction false} SplitBalanced(m0: Mem, m: Mem, holders: multiset<Addr>, p: Addr, c: seq<Addr>, k: nat)
    requires Balanced(m0, holders) && IsChain(m0, p, c) && 0 < k < |c| && c[k - 1] in m0 && m.Keys == m0.Keys
    requires forall a | a in m0 :: m[a].ref == m0[a].ref && m[a].next == if a == c[k - 1] then NULL else m0[a].next
    ensures Balanced(m, holders + Token(c[k]))
  {
    var last := c[k - 1];
    ChainSuffix(m0, p, c, k);
    var cut := m0[last := m0[last].(next := NULL)];
    BalancedRelink(m0, holders, last, cut[last]);
    assert holders - Token(NULL) + Token(c[k]) == holders + Token(c[k]);
    BalancedSame(cut, m, holders + Token(c[k]));
  }

  lemma {:induction false} SplitExact(m0: Mem, m: Mem, front: seq<Addr>, back: seq<Addr>)
    requires InMem(m0, front) && InMem(m0, back) && InMem(m, front) && back != []
    requires InMem(m0, front + back) && ModTot(m0, front + back) && |Flat(m0, front)| < U16
    requires forall a | a in front :: Lighter(m0, m, a, m0[back[0]].totLen)
    ensures ExactTot(m, front)
  {
    if front != [] {
      var c := front + back;
      assert c[1..] == front[1..] + back;
      SplitExact(m0, m, front[1..], back);
      assert |Flat(m, front)| == |Flat(m0, front)| by {
        forall a | a in front ensures m[a].data == m0[a].data { assert Lighter(m0, m, a, m0[back[0]].totLen); }
        FlatKeeps(m0, m, front);
      }
      assert m[front[0]].totLen == |Flat(m0, front)| by {
        SplitTotals(m0, front, back);
        assert Lighter(m0, m, front[0], m0[back[0]].totLen);
      }
    }
  }

  /** The total length of the front pbuf less that of the back is the length of the front. */
  lemma {:induction false} SplitTotals(m: Mem, front: seq<Addr>, back: seq<Addr>)
    requires InMem(m, front) && InMem(m, back) && back != [] && front != []
    requires InMem(m, front + back) && ModTot(m, front + back) && |Flat(m, front)| < U16
    ensures (m[front[0]].totLen - m[back[0]].totLen) % U16 == |Flat(m, front)|
  {
    var c := front + back;
    FlatConcat(m, front, back);
    assert m[back[0]].totLen == |Flat(m, back)| % U16 by {
      ModSuffix(m, c, |front|);
      assert c[|front|..] == back;
    }
    assert m[front[0]].totLen == |Flat(m, c)| % U16;
    SubMod(|Flat(m, front)|, |Flat(m, back)|);
  }

  lemma {:induction false} SubMod(x: nat, y: nat)
    requires x < U16
    ensures ((x + y) % U16 - y % U16) % U16 == x
  {
    assert x + y == U16 * ((x + y) / U16) + (x + y) % U16;
    assert y == U16 * (y / U16) + y % U16;
  }
}
