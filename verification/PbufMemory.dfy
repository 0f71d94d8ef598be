/** The packet buffers of core/pbuf.c as they lie in memory: structures at addresses, linked by
  * `next` into chains that may share their tails. */
module PbufMemory {
  import opened Words

  type Addr = nat
  const NULL: Addr := 0

  /** A payload; `len` is a 16-bit field. */
  type Payload = s: seq<byte> | |s| < 0x1_0000

  /** One `struct pbuf`. `data` is the visible payload, so `len` is its length; `payload` is the
    * address the payload starts at; `fin` is PBUF_FLAG_TCP_FIN. */
  datatype Pbuf = Pbuf(next: Addr, payload: nat, data: Payload, totLen: u16, ref: byte, fin: bool) {
    function Len(): nat {
      |data|
    }
  }

  type Mem = map<Addr, Pbuf>

  /** The memory all pbufs live in; every operation of the modules below rewrites it in place. */
  class PbufHeap {
    var mem: Mem

    constructor (m: Mem)
      ensures mem == m
    {
      mem := m;
    }
  }

  /** c is the list of pbufs reached from p by following `next` down to NULL. */
  ghost predicate IsChain(m: Mem, p: Addr, c: seq<Addr>)
    decreases |c|
  {
    if p == NULL then c == []
    else c != [] && c[0] == p && p in m && IsChain(m, m[p].next, c[1..])
  }

  ghost predicate InMem(m: Mem, c: seq<Addr>) {
    forall a | a in c :: a in m
  }

  /** The bytes of a chain, one after the other. */
  ghost function Flat(m: Mem, c: seq<Addr>): seq<byte>
    requires InMem(m, c)
  {
    if c == [] then [] else m[c[0]].data + Flat(m, c[1..])
  }

  /** tot_len of every pbuf is the length of the chain from there on, in full or modulo 2^16. */
  ghost predicate ExactTot(m: Mem, c: seq<Addr>)
    requires InMem(m, c)
  {
    c == [] || (m[c[0]].totLen == |Flat(m, c)| && ExactTot(m, c[1..]))
  }

  ghost predicate ModTot(m: Mem, c: seq<Addr>)
    requires InMem(m, c)
  {
    c == [] || (m[c[0]].totLen == |Flat(m, c)| % U16 && ModTot(m, c[1..]))
  }

  ghost function Elems(c: seq<Addr>): set<Addr> {
    set a | a in c
  }

  ghost predicate Distinct(c: seq<Addr>) {
    forall i, j | 0 <= i < j < |c| :: c[i] != c[j]
  }

  // ---------- chains ----------

  lemma {:induction false} ChainInMem(m: Mem, p: Addr, c: seq<Addr>)
    requires IsChain(m, p, c)
    ensures InMem(m, c)
    ensures forall a | a in c :: a != NULL
    ensures p == if c == [] then NULL else c[0]
    decreases |c|
  {
    if p != NULL {
      ChainInMem(m, m[p].next, c[1..]);
      assert c == [c[0]] + c[1..];
    }
  }

  lemma {:induction false} ChainUnique(m: Mem, p: Addr, c: seq<Addr>, d: seq<Addr>)
    requires IsChain(m, p, c) && IsChain(m, p, d)
    ensures c == d
    decreases |c|
  {
    if p != NULL {
      ChainUnique(m, m[p].next, c[1..], d[1..]);
      assert c == [p] + c[1..] && d == [p] + d[1..];
    }
  }

  lemma {:induction false} ChainSuffix(m: Mem, p: Addr, c: seq<Addr>, i: nat)
    requires IsChain(m, p, c) && i <= |c|
    ensures IsChain(m, if i < |c| then c[i] else NULL, c[i..])
    ensures 0 < i ==> c[i - 1] in m && m[c[i - 1]].next == if i < |c| then c[i] else NULL
    decreases |c|
  {
    ChainInMem(m, p, c);
    if i > 0 {
      ChainSuffix(m, m[p].next, c[1..], i - 1);
      assert c[1..][i - 1..] == c[i..];
      if i == 1 {
        ChainInMem(m, m[p].next, c[1..]);
      }
    }
  }

  /** A chain that ends cannot visit a pbuf twice. */
  lemma {:induction false} ChainDistinct(m: Mem, p: Addr, c: seq<Addr>)
    requires IsChain(m, p, c)
    ensures Distinct(c)
  {
    forall i, j | 0 <= i < j < |c| ensures c[i] != c[j] {
      ChainSuffix(m, p, c, i);
      ChainSuffix(m, p, c, j);
      if c[i] == c[j] {
        ChainUnique(m, c[i], c[i..], c[j..]);
      }
    }
  }

  /** Two memories agree on what links and fills the pbufs of c. */
  ghost predicate SameShape(m: Mem, n: Mem, c: seq<Addr>) {
    forall a | a in c :: a in m && a in n && n[a].next == m[a].next && n[a].data == m[a].data
  }

  lemma {:induction false} ShapeKeeps(m: Mem, n: Mem, p: Addr, c: seq<Addr>)
    requires IsChain(m, p, c) && SameShape(m, n, c)
    ensures IsChain(n, p, c) && InMem(m, c) && Flat(n, c) == Flat(m, c)
    decreases |c|
  {
    ChainInMem(m, p, c);
    if p != NULL {
      ShapeKeeps(m, n, m[p].next, c[1..]);
    }
  }

  lemma {:induction false} FlatKeeps(m: Mem, n: Mem, c: seq<Addr>)
    requires InMem(m, c) && InMem(n, c)
    requires forall a | a in c :: n[a].data == m[a].data
    ensures Flat(n, c) == Flat(m, c)
  {
    if c != [] {
      FlatKeeps(m, n, c[1..]);
    }
  }

  lemma {:induction false} ExactKeeps(m: Mem, n: Mem, c: seq<Addr>)
    requires InMem(m, c) && InMem(n, c)
    requires forall a | a in c :: |n[a].data| == |m[a].data| && n[a].totLen == m[a].totLen
    ensures |Flat(n, c)| == |Flat(m, c)| && (ExactTot(m, c) <==> ExactTot(n, c))
  {
    if c != [] {
      ExactKeeps(m, n, c[1..]);
    }
  }

  lemma {:induction false} FlatConcat(m: Mem, c: seq<Addr>, d: seq<Addr>)
    requires InMem(m, c) && InMem(m, d)
    ensures InMem(m, c + d) && Flat(m, c + d) == Flat(m, c) + Flat(m, d)
  {
    if c == [] {
      assert c + d == d;
    } else {
      assert (c + d)[1..] == c[1..] + d;
      FlatConcat(m, c[1..], d);
    }
  }

  /** Splits a chain's bytes in front of, in and behind its i-th pbuf. */
  lemma {:induction false} FlatSplit(m: Mem, c: seq<Addr>, i: nat)
    requires InMem(m, c) && i < |c|
    ensures InMem(m, c[..i]) && InMem(m, c[i..]) && InMem(m, c[i + 1..]) && c[i] in m
    ensures Flat(m, c[i..]) == m[c[i]].data + Flat(m, c[i + 1..])
    ensures Flat(m, c) == Flat(m, c[..i]) + Flat(m, c[i..])
    ensures InMem(m, c[..i + 1]) && Flat(m, c[..i + 1]) == Flat(m, c[..i]) + m[c[i]].data
  {
    assert c[i..][1..] == c[i + 1..];
    FlatConcat(m, c[..i], c[i..]);
    assert c == c[..i] + c[i..];
    FlatConcat(m, c[..i], [c[i]]);
    assert c[..i + 1] == c[..i] + [c[i]];
    assert Flat(m, [c[i]]) == m[c[i]].data + Flat(m, [c[i]][1..]);
  }

  lemma {:induction false} ExactSuffix(m: Mem, c: seq<Addr>, i: nat)
    requires InMem(m, c) && ExactTot(m, c) && i <= |c|
    ensures InMem(m, c[i..]) && ExactTot(m, c[i..])
    ensures i < |c| ==> c[i] in m && m[c[i]].totLen == |Flat(m, c[i..])|
  {
    if i > 0 {
      ExactSuffix(m, c[1..], i - 1);
      assert c[1..][i - 1..] == c[i..];
    }
  }

  lemma {:induction false} ModSuffix(m: Mem, c: seq<Addr>, i: nat)
    requires InMem(m, c) && ModTot(m, c) && i <= |c|
    ensures InMem(m, c[i..]) && ModTot(m, c[i..])
    ensures i < |c| ==> c[i] in m && m[c[i]].totLen == |Flat(m, c[i..])| % U16
  {
    if i > 0 {
      ModSuffix(m, c[1..], i - 1);
      assert c[1..][i - 1..] == c[i..];
    }
  }

  /** Cutting a chain behind its k-th pbuf and linking another chain there. */
  lemma {:induction false} Relink(m: Mem, n: Mem, p: Addr, c: seq<Addr>, k: nat, q: Addr, tail: seq<Addr>)
    requires IsChain(m, p, c) && k < |c| && IsChain(n, q, tail)
    requires forall a | a in c[..k + 1] :: a in m && a in n
    requires forall a | a in c[..k] :: n[a].next == m[a].next
    requires n[c[k]].next == q
    ensures IsChain(n, p, c[..k + 1] + tail)
    decreases k
  {
    var d := c[..k + 1] + tail;
    assert c[0] in c[..k + 1];
    if k == 0 {
      assert d[1..] == tail;
    } else {
      assert d[1..] == c[1..][..k] + tail;
      assert c[0] in c[..k] && forall a | a in c[1..][..k] :: a in c[..k + 1];
      assert forall a | a in c[1..][..k - 1] :: a in c[..k];
      Relink(m, n, m[p].next, c[1..], k - 1, q, tail);
    }
  }
}
