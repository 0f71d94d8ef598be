/** Runs of operations of core/pbuf.c on one memory: allocation, references, chaining and dechaining in any
  * order, with any sharing of tails, as long as callers pass pbufs that they hold. */
module PbufRun {
  import opened Words
  import opened PbufMemory
  import opened PbufRef
  import opened PbufResize
  import opened PbufAlloc

  /** The calls, with the chains they are about and the place in it at which pbuf_realloc and pbuf_split_64k cut.
    * pbuf_alloc is from the pool. */
  datatype Call =
    | Alloc(p: Addr, c: seq<Addr>, length: u16)
    | Ref(p: Addr)
    | Free(p: Addr, c: seq<Addr>)
    | Cat(h: Addr, t: Addr, c: seq<Addr>, d: seq<Addr>)
    | Chain(h: Addr, t: Addr, c: seq<Addr>, d: seq<Addr>)
    | Dechain(p: Addr, c: seq<Addr>)
    | FreeHeader(q: Addr, c: seq<Addr>, size: u16)
    | Realloc(p: Addr, c: seq<Addr>, newLen: u16, k: nat)
    | Split(p: Addr, c: seq<Addr>, k: nat)

  /** The memory, and the references that callers hold. */
  datatype State = State(m: Mem, holders: multiset<Addr>)

  ghost predicate Two(m: Mem, h: Addr, t: Addr, c: seq<Addr>, d: seq<Addr>) {
    IsChain(m, h, c) && IsChain(m, t, d) && h != NULL && t != NULL && Elems(c) !! Elems(d)
  }

  function MoreRef(m: Mem, p: Addr): Mem
    requires p in m && m[p].ref < 0xFF
  {
    m[p := m[p].(ref := m[p].ref + 1)]
  }

  /** A call by holders of the pbufs it is about; the chains that are put together have no pbuf in common. */
  ghost predicate Step(s: State, e: Call, t: State) {
    match e
    case Alloc(p, c, length) =>
      c != [] && Building(s.m, t.m, p, c[|c| - 1], c, length, 0) && t.holders == s.holders + multiset{p}
    case Ref(p) =>
      p in s.holders && p in s.m && s.m[p].ref < 0xFF && t == State(MoreRef(s.m, p), s.holders + multiset{p})
    case Free(p, c) =>
      p in s.holders && IsChain(s.m, p, c) && t == State(AfterFree(s.m, c), s.holders - multiset{p})
    case Cat(h, q, c, d) =>
      && h in s.holders && q in s.holders && q in s.m && Two(s.m, h, q, c, d)
      && t == State(AfterCat(s.m, c, q, s.m[q].totLen), s.holders - multiset{q})
    case Chain(h, q, c, d) =>
      && h in s.holders && q in s.holders && q in s.m && s.m[q].ref < 0xFF && t.holders == s.holders
      && Two(s.m, h, q, c, d) && Chained(s.m, c, q, t.m)
    case Dechain(p, c) =>
      && p in s.holders && p in s.m && t.holders == s.holders
      && IsChain(s.m, p, c) && c != [] && t.m == AfterFree(AfterCut(s.m, p, c), c[1..])
    case FreeHeader(q, c, size) =>
      q in s.holders && IsChain(s.m, q, c) && t == WithoutHeader(s, q, c, size)
    case Realloc(p, c, newLen, k) =>
      p in s.holders && p in s.m && t.holders == s.holders && Reallocs(s.m, p, c, newLen, k, t.m)
    case Split(p, c, k) =>
      p in s.holders && p in s.m && Splits(s, p, c, k, t)
  }

  /** The caller's reference on q becomes one on the first pbuf that is left. */
  ghost function WithoutHeader(s: State, q: Addr, c: seq<Addr>, size: u16): State {
    var (m, rest) := HeaderRun(s.m, c, size);
    State(m, s.holders - multiset{q} + Token(if rest == [] then NULL else rest[0]))
  }

  /** pbuf_realloc, for a chain with exact length fields, as it asks for. */
  ghost predicate Reallocs(m: Mem, p: Addr, c: seq<Addr>, newLen: u16, k: nat, n: Mem) {
    && IsChain(m, p, c) && InMem(m, c) && ExactTot(m, c)
    && if newLen >= |Flat(m, c)| then n == m else ReallocAt(m, c, newLen, k) && n == AfterRealloc(m, c, newLen, k)
  }

  /** pbuf_split_64k, for a chain with length fields that are right modulo 2^16; the rest has a new holder. */
  ghost predicate Splits(s: State, p: Addr, c: seq<Addr>, k: nat, t: State) {
    && IsChain(s.m, p, c) && InMem(s.m, c) && ModTot(s.m, c)
    && if |Flat(s.m, c)| < U16 then t == s
       else SplitsAt(s.m, c, k) && t == State(AfterSplit(s.m, c, k), s.holders + multiset{c[k]})
  }

  ghost predicate Chained(m: Mem, c: seq<Addr>, q: Addr, n: Mem)
    requires c != [] && q in m
  {
    var k := AfterCat(m, c, q, m[q].totLen);
    q in k && k[q].ref < 0xFF && n == MoreRef(k, q)
  }

  /** Every pbuf starts a chain that ends. */
  ghost predicate Grounded(m: Mem) {
    forall a {:trigger HasChain(m, a)} | a in m :: HasChain(m, a)
  }

  ghost predicate HasChain(m: Mem, a: Addr) {
    exists c :: IsChain(m, a, c)
  }

  ghost predicate Ok(s: State) {
    Balanced(s.m, s.holders) && Grounded(s.m)
  }

  // ---------- chains keep ending ----------

  /** Pbufs and links have only gone away. */
  ghost predicate Shrinks(m: Mem, n: Mem) {
    && n.Keys <= m.Keys
    && forall a | a in n :: n[a].next == NULL || (n[a].next == m[a].next && n[a].next in n)
  }

  lemma {:induction false} ShrunkChain(m: Mem, n: Mem, a: Addr, c: seq<Addr>) returns (d: seq<Addr>)
    requires Shrinks(m, n) && IsChain(m, a, c) && (a == NULL || a in n)
    ensures IsChain(n, a, d)
    decreases |c|
  {
    if a == NULL {
      d := [];
    } else if n[a].next == NULL {
      d := [a];
      assert d[1..] == [];
    } else {
      var rest := ShrunkChain(m, n, n[a].next, c[1..]);
      d := [a] + rest;
      assert d[1..] == rest;
    }
  }

  lemma {:induction false} ShrunkGrounded(m: Mem, n: Mem)
    requires Grounded(m) && Shrinks(m, n) && NULL !in m
    ensures Grounded(n)
  {
    forall a {:trigger HasChain(n, a)} | a in n ensures HasChain(n, a) {
      assert HasChain(m, a);
      var c :| IsChain(m, a, c);
      var d := ShrunkChain(m, n, a, c);
    }
  }

  /** Freeing takes pbufs away and leaves the links of the others. */
  lemma {:induction false} FreeShrinks(m: Mem, holders: multiset<Addr>, p: Addr, c: seq<Addr>)
    requires Balanced(m, holders) && p in holders && IsChain(m, p, c)
    ensures Balanced(AfterFree(m, c), holders - multiset{p}) && Shrinks(m, AfterFree(m, c))
  {
    FreeBalanced(m, holders, p, c);
    FreeExactly(m, p, c);
    var n := AfterFree(m, c);
    forall a | a in n ensures n[a].next == NULL || (n[a].next == m[a].next && n[a].next in n) {
      assert Counted(n, holders - multiset{p}, a);
    }
  }

  /** A chain that ends where another one is linked on goes on with that one. */
  lemma {:induction false} LinkedGrounded(m: Mem, n: Mem, last: Addr, t: Addr, d: seq<Addr>)
    requires Grounded(m) && NULL !in m && last in m && m[last].next == NULL && IsChain(n, t, d) && n.Keys == m.Keys
    requires forall a | a in m :: n[a].next == if a == last then t else m[a].next
    ensures Grounded(n)
  {
    forall a {:trigger HasChain(n, a)} | a in n ensures HasChain(n, a) {
      assert HasChain(m, a);
      var c :| IsChain(m, a, c);
      var e := LinkedChain(m, n, last, t, d, a, c);
    }
  }

  lemma {:induction false} LinkedChain(m: Mem, n: Mem, last: Addr, t: Addr, d: seq<Addr>, a: Addr, c: seq<Addr>)
      returns (e: seq<Addr>)
    requires NULL !in m && last in m && m[last].next == NULL && IsChain(n, t, d) && n.Keys == m.Keys
    requires forall b | b in m :: n[b].next == if b == last then t else m[b].next
    requires IsChain(m, a, c)
    ensures IsChain(n, a, e)
    decreases |c|
  {
    if a == NULL {
      e := [];
    } else if a == last {
      e := [a] + d;
      assert e[1..] == d;
    } else {
      var rest := LinkedChain(m, n, last, t, d, m[a].next, c[1..]);
      e := [a] + rest;
      assert e[1..] == rest;
    }
  }

  // ---------- each call ----------

  lemma {:induction false} RefKeeps(s: State, p: Addr)
    requires Ok(s) && p in s.holders && p in s.m && s.m[p].ref < 0xFF
    ensures Ok(State(MoreRef(s.m, p), s.holders + multiset{p}))
  {
    NextIn(s.m, s.holders);
    RefBalanced(s.m, s.holders, p);
    MoreRefGrounded(s.m, p);
  }

  lemma {:induction false} MoreRefGrounded(m: Mem, p: Addr)
    requires Grounded(m) && p in m && m[p].ref < 0xFF && NULL !in m
    requires forall a | a in m :: m[a].next == NULL || m[a].next in m
    ensures Grounded(MoreRef(m, p))
  {
    ShrunkGrounded(m, MoreRef(m, p));
  }

  lemma {:induction false} NextIn(m: Mem, holders: multiset<Addr>)
    requires Balanced(m, holders)
    ensures NULL !in m && forall a | a in m :: m[a].next == NULL || m[a].next in m
  {
    forall a | a in m ensures m[a].next == NULL || m[a].next in m {
      assert Counted(m, holders, a);
    }
  }

  lemma {:induction false} CatKeeps(s: State, h: Addr, t: Addr, c: seq<Addr>, d: seq<Addr>)
    requires Ok(s) && t in s.holders && t in s.m && Two(s.m, h, t, c, d)
    ensures var n := AfterCat(s.m, c, t, s.m[t].totLen);
            Balanced(n, s.holders - multiset{t}) && Grounded(n) && n.Keys == s.m.Keys && n[t].ref == s.m[t].ref
  {
    var m, n := s.m, AfterCat(s.m, c, t, s.m[t].totLen);
    CatBalanced(m, s.holders, h, t, c, m[t].totLen);
    CatExactly(m, h, c, t, m[t].totLen);
    ChainInMem(m, h, c);
    ChainInMem(m, t, d);
    ChainSuffix(m, h, c, |c|);
    forall a | a in d ensures a !in c { assert a in Elems(d); }
    ShapeKeeps(m, n, t, d);
    LinkedGrounded(m, n, c[|c| - 1], t, d);
  }

  lemma {:induction false} ChainKeeps(s: State, h: Addr, t: Addr, c: seq<Addr>, d: seq<Addr>, n: Mem)
    requires Ok(s) && t in s.holders && t in s.m && Two(s.m, h, t, c, d) && Chained(s.m, c, t, n)
    ensures Ok(State(n, s.holders))
  {
    var k := AfterCat(s.m, c, t, s.m[t].totLen);
    CatKeeps(s, h, t, c, d);
    RefBalanced(k, s.holders - multiset{t}, t);
    assert s.holders - multiset{t} + multiset{t} == s.holders;
    NextIn(k, s.holders - multiset{t});
    MoreRefGrounded(k, t);
  }

  lemma {:induction false} FreeKeeps(s: State, p: Addr, c: seq<Addr>)
    requires Ok(s) && p in s.holders && IsChain(s.m, p, c)
    ensures Ok(State(AfterFree(s.m, c), s.holders - multiset{p}))
  {
    FreeShrinks(s.m, s.holders, p, c);
    ShrunkGrounded(s.m, AfterFree(s.m, c));
  }

  lemma {:induction false} DechainKeeps(s: State, p: Addr, c: seq<Addr>)
    requires Ok(s) && p in s.m && IsChain(s.m, p, c) && c != []
    ensures Ok(State(AfterFree(AfterCut(s.m, p, c), c[1..]), s.holders))
  {
    DechainBalanced(s.m, s.holders, p, c);
    CutChain(s.m, p, c);
    var cut := AfterCut(s.m, p, c);
    NextIn(s.m, s.holders);
    if |c| > 1 {
      CutBalanced(s.m, s.holders, p, c);
      ShrunkGrounded(s.m, cut);
      FreeShrinks(cut, s.holders + multiset{c[1]}, c[1], c[1..]);
      ShrunkGrounded(cut, AfterFree(cut, c[1..]));
    } else {
      assert c[1..] == [];
    }
  }

  /** Pbufs have only gone away, and links been cut. */
  ghost predicate OnlyCut(m: Mem, n: Mem) {
    n.Keys <= m.Keys && forall a | a in n :: n[a].next == NULL || n[a].next == m[a].next
  }

  lemma {:induction false} CutKeeps(s: State, t: State)
    requires Ok(s) && OnlyCut(s.m, t.m) && Balanced(t.m, t.holders)
    ensures Ok(t)
  {
    NextIn(t.m, t.holders);
    ShrunkGrounded(s.m, t.m);
  }

  lemma {:induction false} FreeCuts(m: Mem, c: seq<Addr>)
    ensures OnlyCut(m, AfterFree(m, c))
    decreases |c|
  {
    if c != [] && c[0] in m && m[c[0]].ref == 1 {
      FreeCuts(m - {c[0]}, c[1..]);
    }
  }

  lemma {:induction false} HeaderKeeps(s: State, q: Addr, c: seq<Addr>, size: u16)
    requires Ok(s) && q in s.holders && IsChain(s.m, q, c)
    ensures Ok(WithoutHeader(s, q, c, size))
  {
    NextIn(s.m, s.holders);
    assert s.holders - multiset{q} + Token(q) == s.holders;
    HeaderBalanced(s.m, s.holders - multiset{q}, q, c, size);
    CutKeeps(s, WithoutHeader(s, q, c, size));
  }

  lemma {:induction false} HeaderBalanced(m: Mem, others: multiset<Addr>, q: Addr, c: seq<Addr>, size: nat)
    requires Balanced(m, others + Token(q)) && IsChain(m, q, c)
    ensures var (n, rest) := HeaderRun(m, c, size);
            Balanced(n, others + Token(if rest == [] then NULL else rest[0])) && OnlyCut(m, n)
    decreases |c|
  {
    if q != NULL && size > 0 {
      assert q in m && m[q].ref > 0 by {
        ChainInMem(m, q, c);
        assert Counted(m, others + Token(q), q);
      }
      if size >= m[q].Len() {
        var n := WithoutFirst(m, q);
        FirstBalanced(m, others, q, c);
        HeaderBalanced(n, others, m[q].next, c[1..], size - m[q].Len());
      } else {
        TrimBalanced(m, others + Token(q), q, size);
      }
    }
  }

  lemma {:induction false} TrimBalanced(m: Mem, holders: multiset<Addr>, q: Addr, size: nat)
    requires Balanced(m, holders) && q in m && size <= m[q].Len()
    ensures Balanced(m[q := Headless(m[q], size)], holders) && OnlyCut(m, m[q := Headless(m[q], size)])
  {
    BalancedSame(m, m[q := Headless(m[q], size)], holders);
  }

  lemma {:induction false} FirstBalanced(m: Mem, others: multiset<Addr>, q: Addr, c: seq<Addr>)
    requires Balanced(m, others + Token(q)) && IsChain(m, q, c) && q != NULL && m[q].ref > 0
    ensures var n := WithoutFirst(m, q);
            && Balanced(n, others + Token(m[q].next)) && IsChain(n, m[q].next, c[1..]) && OnlyCut(m, n)
  {
    ChainInMem(m, q, c);
    DropBalanced(m, others + Token(q), q);
    assert others + Token(q) - multiset{q} + Token(m[q].next) == others + Token(m[q].next);
    DropChain(m, WithoutFirst(m, q), q, c);
  }

  lemma {:induction false} ReallocKeeps(s: State, p: Addr, c: seq<Addr>, newLen: u16, k: nat, n: Mem)
    requires Ok(s) && p in s.holders && p in s.m && Reallocs(s.m, p, c, newLen, k, n)
    ensures Ok(State(n, s.holders))
  {
    NextIn(s.m, s.holders);
    if newLen < |Flat(s.m, c)| {
      ReallocBalanced(s.m, s.holders, p, c, newLen, k);
      CutKeeps(s, State(n, s.holders));
    }
  }

  lemma {:induction false} ReallocBalanced(m: Mem, holders: multiset<Addr>, p: Addr, c: seq<Addr>, newLen: u16, k: nat)
    requires Balanced(m, holders) && IsChain(m, p, c) && p != NULL && ReallocAt(m, c, newLen, k) && ExactTot(m, c)
    ensures Balanced(AfterRealloc(m, c, newLen, k), holders) && OnlyCut(m, AfterRealloc(m, c, newLen, k))
  {
    var low, left := Lower(m, c[..k], |Flat(m, c)| - newLen), newLen - |Flat(m, c[..k])|;
    assert c[k] !in c[..k] && c[k] in c && low[c[k]] == m[c[k]] by { NotBefore(m, p, c, k); }
    assert Balanced(AfterFree(Ended(low, c[k], left), c[k + 1..]), holders) by {
      ReallocEnd(m, p, c, newLen, holders, low, c[k], k, left);
    }
    FreeCuts(Ended(low, c[k], left), c[k + 1..]);
  }

  lemma {:induction false} NotBefore(m: Mem, p: Addr, c: seq<Addr>, k: nat)
    requires IsChain(m, p, c) && k < |c|
    ensures c[k] !in c[..k]
  {
    ChainDistinct(m, p, c);
  }

  lemma {:induction false} SplitKeeps(s: State, p: Addr, c: seq<Addr>, k: nat, t: State)
    requires Ok(s) && p in s.holders && p in s.m && Splits(s, p, c, k, t)
    ensures Ok(t)
  {
    NextIn(s.m, s.holders);
    if |Flat(s.m, c)| >= U16 {
      SplitBalancedAt(s.m, s.holders, p, c, k);
      CutKeeps(s, t);
    }
  }

  lemma {:induction false} SplitBalancedAt(m: Mem, holders: multiset<Addr>, p: Addr, c: seq<Addr>, k: nat)
    requires Balanced(m, holders) && IsChain(m, p, c) && SplitsAt(m, c, k)
    ensures Balanced(AfterSplit(m, c, k), holders + multiset{c[k]}) && OnlyCut(m, AfterSplit(m, c, k))
  {
    var n, low := AfterSplit(m, c, k), Lower(m[c[k - 1] := m[c[k - 1]].(next := NULL)], c[..k], m[c[k]].totLen);
    assert c[k] in c && c[k - 1] in c;
    ChainInMem(m, p, c);
    LowFacts(m, p, c, k, low, n);
    SplitBalanced(m, n, holders, p, c, k);
    assert holders + Token(c[k]) == holders + multiset{c[k]};
  }

  lemma {:induction false} AllocKeeps(s: State, p: Addr, c: seq<Addr>, length: nat, n: Mem)
    requires Ok(s) && c != [] && Building(s.m, n, p, c[|c| - 1], c, length, 0)
    ensures Ok(State(n, s.holders + multiset{p}))
  {
    NextIn(s.m, s.holders);
    ChainInMem(n, p, c);
    forall a {:trigger HasChain(n, a)} | a in n ensures HasChain(n, a) {
      if a in s.m {
        assert HasChain(s.m, a);
        var d :| IsChain(s.m, a, d);
        OldChain(s.m, n, a, d);
      } else {
        var i :| 0 <= i < |c| && c[i] == a;
        ChainSuffix(n, p, c, i);
      }
    }
    forall a | a in n ensures Counted(n, s.holders + multiset{p}, a) {
      if a in s.m {
        OldCounted(s.m, n, s.holders, p, c, a);
      } else {
        NewCounted(s.m, n, s.holders, p, c, a);
      }
    }
  }

  lemma {:induction false} OldChain(m: Mem, n: Mem, a: Addr, d: seq<Addr>)
    requires IsChain(m, a, d) && m.Keys <= n.Keys && forall b | b in m :: n[b] == m[b]
    ensures IsChain(n, a, d)
    decreases |d|
  {
    if a != NULL {
      OldChain(m, n, m[a].next, d[1..]);
    }
  }

  /** The pbufs of a new chain lead to nothing but their successors. */
  lemma {:induction false} NewLinks(n: Mem, p: Addr, c: seq<Addr>, i: nat)
    requires IsChain(n, p, c) && i < |c|
    ensures c[i] in n && c[i] != NULL && n[c[i]].next == if i + 1 < |c| then c[i + 1] else NULL
  {
    ChainSuffix(n, p, c, i);
    ChainSuffix(n, p, c, i + 1);
  }

  lemma {:induction false} OldCounted(m: Mem, n: Mem, holders: multiset<Addr>, p: Addr, c: seq<Addr>, a: Addr)
    requires Balanced(m, holders) && IsChain(n, p, c) && n.Keys == m.Keys + Elems(c) && m.Keys !! Elems(c) && a in m
    requires c != [] && forall b | b in m :: n[b] == m[b]
    ensures Counted(n, holders + multiset{p}, a)
  {
    assert Counted(m, holders, a);
    forall b | b in n && b !in m ensures n[b].next != a {
      var i :| 0 <= i < |c| && c[i] == b;
      NewLinks(n, p, c, i);
      assert i + 1 < |c| ==> c[i + 1] in Elems(c);
    }
    assert p in Elems(c);
    assert PredSet(n, a) == PredSet(m, a);
  }

  lemma {:induction false} NewCounted(m: Mem, n: Mem, holders: multiset<Addr>, p: Addr, c: seq<Addr>, a: Addr)
    requires Balanced(m, holders) && IsChain(n, p, c) && n.Keys == m.Keys + Elems(c) && m.Keys !! Elems(c) && a in c
    requires n[a].ref == 1 && forall b | b in m :: n[b] == m[b]
    ensures Counted(n, holders + multiset{p}, a)
  {
    var i :| 0 <= i < |c| && c[i] == a;
    ChainDistinct(n, p, c);
    NewLinks(n, p, c, i);
    assert a in Elems(c) && a !in m && holders[a] == 0;
    NextIn(m, holders);
    forall b ensures b in PredSet(n, a) <==> i > 0 && b == c[i - 1] {
      if b in n && n[b].next == a {
        assert b in Elems(c);
        var k :| 0 <= k < |c| && c[k] == b;
        NewLinks(n, p, c, k);
      }
      if i > 0 { NewLinks(n, p, c, i - 1); }
    }
    assert PredSet(n, a) == if i > 0 then {c[i - 1]} else {};
    assert i + 1 < |c| ==> c[i + 1] in Elems(c);
  }

  lemma {:induction false} StepKeeps(s: State, e: Call, t: State)
    requires Ok(s) && Step(s, e, t)
    ensures Ok(t)
  {
    match e
    case Alloc(p, c, length) => AllocKeeps(s, p, c, length, t.m);
    case Ref(p) => RefKeeps(s, p);
    case Free(p, c) => FreeKeeps(s, p, c);
    case Cat(h, q, c, d) => CatKeeps(s, h, q, c, d);
    case Chain(h, q, c, d) => ChainKeeps(s, h, q, c, d, t.m);
    case Dechain(p, c) => DechainKeeps(s, p, c);
    case FreeHeader(q, c, size) => HeaderKeeps(s, q, c, size);
    case Realloc(p, c, newLen, k) => ReallocKeeps(s, p, c, newLen, k, t.m);
    case Split(p, c, k) => SplitKeeps(s, p, c, k, t);
  }

  // ---------- runs ----------

  ghost predicate Run(states: seq<State>, calls: seq<Call>) {
    && |states| == |calls| + 1 && states[0] == State(map[], multiset{})
    && forall k {:trigger calls[k]} | 0 <= k < |calls| :: Step(states[k], calls[k], states[k + 1])
  }

  /** In every state of every run each reference count is the number of holders and of links to the pbuf, no
    * link dangles, and every chain ends. */
  lemma {:induction false} RunOk(states: seq<State>, calls: seq<Call>, k: nat)
    requires Run(states, calls) && k <= |calls|
    ensures Ok(states[k])
  {
    if k > 0 {
      RunOk(states, calls, k - 1);
      assert Step(states[k - 1], calls[k - 1], states[k]);
      StepKeeps(states[k - 1], calls[k - 1], states[k]);
    }
  }

  /** Whenever all references have been given back in a run, all pbufs have been deallocated. */
  lemma {:induction false} AllGivenBack(states: seq<State>, calls: seq<Call>, k: nat)
    requires Run(states, calls) && k <= |calls| && states[k].holders == multiset{}
    ensures states[k].m == map[]
  {
    RunOk(states, calls, k);
    var m := states[k].m;
    if a :| a in m {
      assert HasChain(m, a);
      var c :| IsChain(m, a, c);
      EveryPbufHeld(m, multiset{}, a, c);
    }
  }
}
