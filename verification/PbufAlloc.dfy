/** pbuf_alloc of core/pbuf.c for PBUF_POOL: a chain of pool buffers, or nothing. */
module PbufAlloc {
  import opened Words
  import opened PbufMemory
  import opened PbufRef

  /** tot_len of every pbuf counts the chain from there on and rem bytes that are still to be allocated. */
  ghost predicate TotAhead(m: Mem, c: seq<Addr>, rem: nat)
    requires InMem(m, c)
  {
    c == [] || (m[c[0]].totLen == |Flat(m, c)| + rem && TotAhead(m, c[1..], rem))
  }

  /** The chain c from p to last has been built on top of m0, with rem of the length bytes missing. */
  ghost predicate Building(m0: Mem, m: Mem, p: Addr, last: Addr, c: seq<Addr>, length: nat, rem: nat) {
    && IsChain(m, p, c) && c != [] && last == c[|c| - 1] && InMem(m, c)
    && m.Keys == m0.Keys + Elems(c) && m0.Keys !! Elems(c)
    && (forall a | a in m0 :: m[a] == m0[a]) && (forall a | a in c :: m[a].ref == 1)
    && TotAhead(m, c, rem) && |Flat(m, c)| + rem == length
  }

  lemma {:induction false} TotAheadIsExact(m: Mem, c: seq<Addr>)
    requires InMem(m, c) && TotAhead(m, c, 0)
    ensures ExactTot(m, c)
  {
    if c != [] {
      TotAheadIsExact(m, c[1..]);
    }
  }

  lemma {:induction false} TotAheadGrows(m: Mem, n: Mem, c: seq<Addr>, q: Addr, rem: nat)
    requires InMem(m, c) && InMem(n, c) && q in n && TotAhead(m, c, rem)
    requires n[q].totLen == rem && |n[q].data| <= rem
    requires forall a | a in c :: n[a].data == m[a].data && n[a].totLen == m[a].totLen
    ensures InMem(n, c + [q]) && |Flat(n, c + [q])| == |Flat(m, c)| + |n[q].data|
    ensures TotAhead(n, c + [q], rem - |n[q].data|)
  {
    if c == [] {
      assert c + [q] == [q];
      assert [q][1..] == [];
    } else {
      assert (c + [q])[1..] == c[1..] + [q];
      TotAheadGrows(m, n, c[1..], q, rem);
    }
  }

  /** The first buffer. */
  lemma {:induction false} Begins(m0: Mem, q: Addr, x: Pbuf, length: nat)
    requires q !in m0 && q != NULL && x.next == NULL && x.ref == 1 && x.totLen == length && |x.data| <= length
    ensures Building(m0, m0[q := x], q, q, [q], length, length - |x.data|)
  {
    var n := m0[q := x];
    TotAheadGrows(n, n, [], q, length);
    assert [] + [q] == [q] && [q][1..] == [];
    assert IsChain(n, q, [q]);
    assert Elems([q]) == {q};
  }

  lemma {:induction false} LinkLast(m: Mem, n: Mem, p: Addr, c: seq<Addr>, q: Addr)
    requires IsChain(m, p, c) && c != [] && q in n && q != NULL && n[q].next == NULL
    requires forall a | a in c :: a in m && a in n && n[a].next == if a == c[|c| - 1] then q else m[a].next
    ensures IsChain(n, p, c + [q])
  {
    var k := |c| - 1;
    ChainDistinct(m, p, c);
    assert c[..k + 1] == c;
    assert forall a | a in c[..k] :: a in c && a != c[k];
    assert [q][1..] == [];
    Relink(m, n, p, c, k, q, [q]);
  }

  /** The next buffer, linked behind the last one. */
  lemma {:induction false} Grows(m0: Mem, m: Mem, p: Addr, last: Addr, c: seq<Addr>, length: nat, rem: nat, q: Addr,
                                 x: Pbuf)
    requires Building(m0, m, p, last, c, length, rem)
    requires q !in m && q != NULL && x.next == NULL && x.ref == 1 && x.totLen == rem && |x.data| <= rem
    ensures last in m && Building(m0, m[q := x][last := m[last].(next := q)], p, q, c + [q], length, rem - |x.data|)
  {
    assert last in c;
    var n := m[q := x][last := m[last].(next := q)];
    LinkLast(m, n, p, c, q);
    TotAheadGrows(m, n, c, q, rem);
    assert Elems(c + [q]) == Elems(c) + {q};
  }

  lemma {:induction false} BalancedAdd(m: Mem, holders: multiset<Addr>, q: Addr, x: Pbuf)
    requires Balanced(m, holders) && q !in m && q != NULL && x.next == NULL && x.ref == 1
    ensures Balanced(m[q := x], holders + multiset{q})
  {
    var n, h := m[q := x], holders + multiset{q};
    forall a | a in n ensures Counted(n, h, a) {
      if a != q {
        assert Counted(m, holders, a);
        assert PredSet(n, a) == PredSet(m, a);
      } else {
        NothingLeadsTo(m, holders, q);
        assert PredSet(n, q) == PredSet(m, q);
        assert holders[q] == 0;
      }
    }
  }

  lemma {:induction false} NothingLeadsTo(m: Mem, holders: multiset<Addr>, q: Addr)
    requires Balanced(m, holders) && q !in m && q != NULL
    ensures PredSet(m, q) == {}
  {
    forall a | a in m ensures m[a].next != q {
      assert Counted(m, holders, a);
    }
  }

  lemma {:induction false} GrowsBalanced(m: Mem, holders: multiset<Addr>, last: Addr, q: Addr, x: Pbuf)
    requires Balanced(m, holders) && q !in m && q != NULL && x.next == NULL && x.ref == 1
    requires last in m && m[last].next == NULL
    ensures Balanced(m[q := x][last := m[last].(next := q)], holders)
  {
    BalancedAdd(m, holders, q, x);
    var n, y := m[q := x], m[last].(next := q);
    assert n[last] == m[last] && Token(n[last].next) == multiset{} && Token(y.next) == multiset{q};
    BalancedRelink(n, holders + multiset{q}, last, y);
    assert holders + multiset{q} - Token(y.next) + Token(n[last].next) == holders;
  }

  /** Giving up on a half-built chain leaves the memory as it was. */
  lemma {:induction false} GivesBack(m0: Mem, m: Mem, p: Addr, last: Addr, c: seq<Addr>, length: nat, rem: nat)
    requires Building(m0, m, p, last, c, length, rem)
    ensures Referenced(m, c) && AfterFree(m, c) == m0
  {
    FreeExactly(m, p, c);
    assert FreeRun(m, c) == |c|;
    assert c[..|c|] == c;
  }

  lemma {:induction false} LastLink(m: Mem, p: Addr, c: seq<Addr>)
    requires IsChain(m, p, c) && c != []
    ensures c[|c| - 1] in m && m[c[|c| - 1]].next == NULL
  {
    ChainSuffix(m, p, c, |c|);
  }

  // ---------- what a buffer holds ----------

  /** Every buffer of the chain is full but the last one; the first has less room, by the header space. */
  ghost predicate Fills(m: Mem, c: seq<Addr>, bufSize: nat, offset: nat) {
    forall i {:trigger FillsOne(m, c, bufSize, offset, i)} | 0 <= i < |c| :: FillsOne(m, c, bufSize, offset, i)
  }

  ghost predicate FillsOne(m: Mem, c: seq<Addr>, bufSize: nat, offset: nat, i: nat)
    requires i < |c|
  {
    var room := bufSize - if i == 0 then offset else 0;
    c[i] in m && m[c[i]].Len() <= room && (i + 1 < |c| ==> m[c[i]].Len() == room)
  }

  lemma {:induction false} FillsNext(m: Mem, n: Mem, c: seq<Addr>, q: Addr, bufSize: nat, offset: nat)
    requires Fills(m, c, bufSize, offset) && q in n && forall a | a in c :: a in n && a in m && n[a].data == m[a].data
    requires n[q].Len() <= bufSize - if c == [] then offset else 0
    requires c != [] ==> c[|c| - 1] in m && m[c[|c| - 1]].Len() == bufSize - if |c| == 1 then offset else 0
    ensures Fills(n, c + [q], bufSize, offset)
  {
    forall i {:trigger FillsOne(n, c + [q], bufSize, offset, i)} | 0 <= i < |c + [q]|
      ensures FillsOne(n, c + [q], bufSize, offset, i)
    {
      if i < |c| {
        assert FillsOne(m, c, bufSize, offset, i) && c[i] in c;
      }
    }
  }

  /** The chain under construction belongs to the caller, and its buffers have been filled one after the other. */
  ghost predicate Partly(m0: Mem, m: Mem, p: Addr, last: Addr, c: seq<Addr>, length: nat, rem: nat, bufSize: nat,
                         offset: nat, holders: multiset<Addr>) {
    && Building(m0, m, p, last, c, length, rem) && Balanced(m, holders + multiset{p})
    && Fills(m, c, bufSize, offset)
    && (rem > 0 ==> last in m && m[last].Len() == bufSize - if |c| == 1 then offset else 0)
  }

  lemma {:induction false} PartlyBegins(m0: Mem, q: Addr, x: Pbuf, length: nat, bufSize: nat, offset: nat,
                                        holders: multiset<Addr>)
    requires Balanced(m0, holders) && offset < bufSize
    requires q !in m0 && q != NULL && x.next == NULL && x.ref == 1 && x.totLen == length
    requires |x.data| == Min(length, bufSize - offset)
    ensures Partly(m0, m0[q := x], q, q, [q], length, length - |x.data|, bufSize, offset, holders)
  {
    Begins(m0, q, x, length);
    BalancedAdd(m0, holders, q, x);
    FillsNext(m0, m0[q := x], [], q, bufSize, offset);
    assert [] + [q] == [q];
  }

  lemma {:induction false} PartlyGrows(m0: Mem, m: Mem, p: Addr, last: Addr, c: seq<Addr>, length: nat, rem: nat,
                                       q: Addr, x: Pbuf, bufSize: nat, offset: nat, holders: multiset<Addr>)
    requires Partly(m0, m, p, last, c, length, rem, bufSize, offset, holders) && rem > 0
    requires q !in m && q != NULL && x.next == NULL && x.ref == 1 && x.totLen == rem && |x.data| == Min(rem, bufSize)
    ensures last in m
    ensures Partly(m0, m[q := x][last := m[last].(next := q)], p, q, c + [q], length, rem - |x.data|, bufSize, offset,
                   holders)
  {
    var n := m[q := x][last := m[last].(next := q)];
    assert c != [] && last == c[|c| - 1] && last in c;
    assert Building(m0, n, p, q, c + [q], length, rem - |x.data|) by {
      Grows(m0, m, p, last, c, length, rem, q, x);
    }
    assert Balanced(n, holders + multiset{p}) by {
      LastLink(m, p, c);
      GrowsBalanced(m, holders + multiset{p}, last, q, x);
    }
    assert Fills(n, c + [q], bufSize, offset) by {
      FillsNext(m, n, c, q, bufSize, offset);
    }
  }

  /** memp_malloc from the pool of pbufs, which may be empty. The buffer's bytes are whatever was there. */
  method PoolMalloc(heap: PbufHeap, room: nat) returns (q: Addr, data: seq<byte>)
    ensures q == NULL || q !in heap.mem
    ensures |data| == room
  {
    q := *;
    if q in heap.mem {
      q := NULL;
    }
    data := seq(room, _ => 0);
    var i := 0;
    while i < room
      invariant 0 <= i <= room && |data| == room
    {
      var b: byte := *;
      data := data[i := b];
      i := i + 1;
    }
  }

  /** pbuf_alloc(layer, length, PBUF_POOL). bufSize is PBUF_POOL_BUFSIZE_ALIGNED, offset the aligned header
    * space. Returns a chain of exactly length bytes whose tot_len fields are right and whose one reference
    * belongs to the caller, with all other pbufs untouched; or NULL, with the memory as before. */
  method AllocPool(heap: PbufHeap, length: u16, bufSize: u16, offset: nat, ghost holders: multiset<Addr>)
      returns (p: Addr, ghost c: seq<Addr>)
    requires Balanced(heap.mem, holders) && offset < bufSize
    modifies heap
    ensures p == NULL ==> heap.mem == old(heap.mem)
    ensures p != NULL ==>
        c != [] && Building(old(heap.mem), heap.mem, p, c[|c| - 1], c, length, 0)
        && ExactTot(heap.mem, c) && Fills(heap.mem, c, bufSize, offset)
    ensures p != NULL ==> Balanced(heap.mem, holders + multiset{p})
  {
    ghost var m0 := heap.mem;
    var last: Addr, remLen: nat, room: nat := NULL, length, bufSize - offset;
    p, c := NULL, [];
    while true
      invariant p == NULL ==> heap.mem == m0 && remLen == length
      invariant p != NULL ==>
          Partly(m0, heap.mem, p, last, c, length, remLen, bufSize, offset, holders) && remLen > 0
      invariant room == bufSize - (if p == NULL then offset else 0) && remLen <= length
      decreases remLen, if p == NULL then 1 else 0
    {
      var qlen := Min(remLen, room);
      var q, data := PoolMalloc(heap, qlen);
      if q == NULL {
        if p != NULL {
          GivesBack(m0, heap.mem, p, last, c, length, remLen);
          var _ := Free(heap, p, c);
        }
        return NULL, [];
      }
      var x := Pbuf(NULL, 0, data, remLen, 1, false);
      if p == NULL {
        PartlyBegins(m0, q, x, length, bufSize, offset, holders);
        heap.mem := heap.mem[q := x];
        p, c := q, [q];
      } else {
        PartlyGrows(m0, heap.mem, p, last, c, length, remLen, q, x, bufSize, offset, holders);
        heap.mem := heap.mem[q := x];
        heap.mem := heap.mem[last := heap.mem[last].(next := q)];
        c := c + [q];
      }
      last := q;
      remLen := remLen - qlen;
      room := bufSize;
      if remLen == 0 {
        TotAheadIsExact(heap.mem, c);
        return;
      }
    }
  }
}
